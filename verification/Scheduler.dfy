/**
 The scheduler as it is written: loops over keys, polls, operations and releases, on a shared lock
 manager and store, with other transactions running between any two critical sections. Each method
 says which run of the step system it performed, so everything proved of runs holds of this code.
 */
module Scheduler {
  import opened Types
  import Serial
  import opened LockTable
  import opened Engine
  import opened Invariant
  import Serializability
  import opened Agreement
  import opened LockManager
  import opened Striping
  import opened StripedStore
  import opened Routing

  /** Steps of others leave a transaction where it is. */
  lemma {:induction false} OthersLeaveThread(s: Sys, steps: seq<Step>, t: Tx)
    requires Inv(s) && Feasible(s, steps) && t in s.threads
    requires forall i :: 0 <= i < |steps| && steps[i].Act? ==> steps[i].tx != t
    ensures t in After(s, steps).threads && After(s, steps).threads[t] == s.threads[t]
    decreases steps
  {
    if steps != [] {
      hide OwnersOk, HeldOk, LogOk, SerialOk;
      StepInv(s, steps[0]);
      OthersLeaveThread(Next(s, steps[0]), steps[1..], t);
    }
  }

  lemma StaysPut(run: seq<Step>, s: Sys, run': seq<Step>, s': Sys, t: Tx)
    requires Reached(run, s) && Reached(run', s') && run <= run' && t in s.threads
    requires forall i :: |run| <= i < |run'| && run'[i].Act? ==> run'[i].tx != t
    ensures t in s'.threads && s'.threads[t] == s.threads[t]
  {
    var rest := run'[|run|..];
    assert run + rest == run';
    Split(INIT, run, rest);
    ReachedInv(run, s);
    OthersLeaveThread(s, rest, t);
  }

  /** A polling transaction's entry exists, and the key is not its own. */
  lemma PollingFacts(run: seq<Step>, s: Sys, t: Tx)
    requires Reached(run, s) && t in s.threads && s.threads[t].phase.Polling?
    ensures s.threads[t].phase.key in s.locks.entries
    ensures !Owns(s.locks, s.threads[t].phase.key, t)
  {
    ReachedInv(run, s);
    assert s.threads[t].phase.key !in Owned(s.threads[t]);
  }

  /** All steps from `run` to `run'` are those of `t`. */
  ghost predicate AloneSince(run: seq<Step>, run': seq<Step>, t: Tx) {
    run <= run' && forall i :: |run| <= i < |run'| ==> run'[i].Act? && run'[i].tx == t
  }

  /** A whole transaction without interference. */
  lemma CalmTransaction(run: seq<Step>, s: Sys, run': seq<Step>, s': Sys, t: Tx)
    requires Reached(run, s) && Reached(run', s') && AloneSince(run, run', t)
    requires JustBegun(s, t) && t in s'.threads && s'.threads[t].phase.Done?
    ensures AsIfAlone(s, s', t)
  {
    var rest := run'[|run|..];
    assert run + rest == run';
    Split(INIT, run, rest);
    ReachedInv(run, s);
    SoloRun(s, rest, t);
  }

  lemma PlaceInLog(run: seq<Step>, s: Sys, t: Tx)
    requires Reached(run, s) && t in s.threads && s.threads[t].phase.Done?
    ensures s.threads[t].phase.outcome.Committed? ==>
              var Committed(at, results) := s.threads[t].phase.outcome;
              && at < |s.log| && s.log[at] == Serial.Entry(t, s.threads[t].ops)
              && results == Serial.Reads(Serial.SerialStore(s.log[..at]), s.threads[t].ops)
    ensures s.threads[t].phase.outcome.Aborted? ==> forall j :: 0 <= j < |s.log| ==> s.log[j].tx != t
  {
    ReachedInv(run, s);
    Serializability.Serializable(run);
    assert Serializability.IsCommitted(s, t) <==> s.threads[t].phase.outcome.Committed?;
    assert s.threads[t].phase.outcome.Aborted? ==> Position(s.threads[t]) == None;
  }

  /** What one operation changes. */
  lemma ExecEffect(s: Sys, t: Tx, op: Op)
    requires t in s.threads && CanAct(s.threads[t], Exec) && op == s.threads[t].ops[s.threads[t].phase.next]
    ensures var s', p := Next(s, Act(t, Exec)), s.threads[t].phase;
            && s'.locks == s.locks && s'.store == Serial.ApplyOp(s.store, op)
            && s'.nextTx == s.nextTx && s'.log == s.log
            && s'.threads == s.threads[t := Thread(s.threads[t].ops,
                   Executing(p.at, p.next + 1,
                             p.results + if op.Read? then [ReadResult(op.key, Serial.Get(s.store, op.key))] else []))]
  {
  }

  method CollectKeys(ops: seq<Op>) returns (keys: set<Key>)
    ensures keys == Keys(ops)
  {
    keys := {};
    for i := 0 to |ops|
      invariant keys == Keys(ops[..i])
    {
      assert ops[..i + 1] == ops[..i] + [ops[i]];
      keys := keys + {ops[i].key};
    }
    assert ops[..|ops|] == ops;
  }

  /** The visitor that carries out operations on the store and remembers the last read. */
  class NaiveOpExecutor {
    const store: ThreadSafeKVStore
    var opResult: Option<seq<Value>>

    constructor (store: ThreadSafeKVStore)
      ensures this.store == store && opResult == None
    {
      this.store := store;
      opResult := None;
    }

    method Visit(op: Op)
      requires store.Valid()
      modifies this, store.stripes
      ensures store.Valid()
      ensures store.Contents() == Serial.ApplyOp(old(store.Contents()), op)
      ensures opResult == if op.Read? then Serial.Get(old(store.Contents()), op.key) else old(opResult)
    {
      match op
      case Read(key) => opResult := store.Get(key);
      case Append(key, value) => store.Append(key, value);
    }
  }

  /** `start` returns true or false, or throws. */
  datatype StartResult = Started | Failed | Threw

  class TwoPLScheduler {
    const locks: LockManager
    const store: ThreadSafeKVStore
    var nextTxId: Tx
    var localNodeId: NodeId
    var routes: Routes

    /** When set, other transactions are known to keep still; nothing is known when it is not. */
    ghost const calm: bool

    // not part of the program: where every transaction is, the lock-point order, the operations in
    // the order they happened, and all steps taken so far
    ghost var threads: map<Tx, Thread>
    ghost var log: seq<Serial.Entry>
    ghost var history: seq<Event>
    ghost var run: seq<Step>

    /** The engine state this node is in. */
    ghost function Abs(): Sys
      requires store.Valid()
      reads this, locks, store.stripes
    {
      Sys(locks.State(), store.Contents(), threads, nextTxId, log, history)
    }

    /** The node's fields are what the steps taken so far make of the empty system. */
    ghost predicate Valid()
      reads this, locks, store.stripes
    {
      && store.Valid() && Reached(run, Abs())
      && (routes.Cluster? ==> routes.nodes != [])
    }

    constructor (hash: Key -> nat, ghost calm: bool)
      ensures Valid() && run == [] && routes == SingleNode && this.calm == calm
      ensures fresh(locks) && fresh(store.stripes)
    {
      this.calm := calm;
      locks := new LockManager();
      store := new ThreadSafeKVStore(hash);
      nextTxId, localNodeId, routes := 1, 0, SingleNode;
      threads, log, history, run := map[], [], [], [];
    }

    /**
     Reads the own name and builds the routes. A name whose number does not fit a node id fails; a peer
     name whose number does not parse throws, after the own id has been set.
     */
    method Start(self: PeerName, peers: seq<PeerName>) returns (r: StartResult)
      requires Valid()
      modifies this
      ensures Valid() && Abs() == old(Abs()) && run == old(run)
      ensures r == Failed <==> self.Malformed? || (self.Numbered? && !(0 <= self.number < 65536))
      ensures r == Threw <==> r != Failed && Malformed in peers
      ensures localNodeId == if self.Numbered? && r != Failed then self.number else old(localNodeId)
      ensures r != Started || peers == [] ==> routes == old(routes)
      ensures r == Started && peers != [] ==>
                routes.Cluster? && routes.hash == store.hash && ListOf(localNodeId, peers, routes.nodes)
    {
      match self {
        case Numbered(number) =>
          if !(0 <= number < 65536) {
            return Failed;
          }
          localNodeId := number;
        case Malformed => return Failed;
        case Skipped =>
      }
      if peers != [] {
        var list := BuildNodeList(localNodeId, peers);
        if list.Thrown? {
          return Threw;
        }
        assert localNodeId in list.ids;
        routes := Cluster(store.hash, list.ids);
      }
      return Started;
    }

    /** The run went on, the configuration stayed. */
    twostate predicate Continues()
      reads this, locks, store.stripes
    {
      Valid() && old(run) <= run && localNodeId == old(localNodeId) && routes == old(routes)
    }

    /** The run went on, by steps of `t` alone if all is calm, and `t` is now in the given phase. */
    twostate predicate Moves(t: Tx, phase: Phase)
      requires old(t in threads)
      reads this, locks, store.stripes
    {
      && Continues() && t in threads && threads[t] == Thread(old(threads[t].ops), phase)
      && (calm ==> AloneSince(old(run), run, t))
    }

    /**
     Other threads run. The body contributes nothing: callers rely on the contract alone, which lets
     any number of other transactions begin, act and return.
     */
    method Interference(ghost t: Tx)
      requires Valid()
      modifies this, locks, store.stripes
      ensures Continues()
      ensures forall i :: |old(run)| <= i < |run| && run[i].Act? ==> run[i].tx != t
      ensures calm ==> run == old(run)
    {
    }

    method Yield(ghost t: Tx)
      requires Valid() && t in threads
      modifies this, locks, store.stripes
      ensures Moves(t, old(threads[t].phase))
    {
      ghost var r, s := run, Abs();
      Interference(t);
      StaysPut(r, s, run, Abs(), t);
    }

    // ----- one critical section each, after whatever others did

    method CreateLockEntry(t: Tx, key: Key, ghost todo: set<Key>)
      requires Valid() && t in threads && threads[t].phase == Acquiring(todo) && key in todo
      modifies this, locks, store.stripes
      ensures Moves(t, Requesting(key, todo - {key}))
    {
      hide Reached, Placed;
      Yield(t);
      ghost var step := Act(t, Request(key));
      Extended(run, Abs(), step);
      ghost var s' := Next(Abs(), step);
      locks.EnsureEntry(key);
      threads, run := s'.threads, run + [step];
    }

    method TrackInterest(t: Tx, key: Key, ghost todo: set<Key>)
      requires Valid() && t in threads && threads[t].phase == Requesting(key, todo)
      modifies this, locks, store.stripes
      ensures Moves(t, Polling(key, todo, 0))
    {
      hide Reached, Placed;
      Yield(t);
      ghost var step := Act(t, Interest);
      Extended(run, Abs(), step);
      ghost var s' := Next(Abs(), step);
      locks.TrackInterest(key, t);
      threads, run := s'.threads, run + [step];
    }

    method PollEntry(t: Tx, key: Key, firstLoop: bool, ghost todo: set<Key>, ghost fails: nat) returns (acquired: bool)
      requires Valid() && t in threads && threads[t].phase == Polling(key, todo, fails) && fails < MAX_POLLS
      requires firstLoop == (fails < MAX_SPINS)
      modifies this, locks, store.stripes
      ensures Moves(t, if acquired then Acquiring(todo) else Polling(key, todo, fails + 1))
      ensures acquired ==> Owns(locks.State(), key, t)
    {
      hide Reached, Placed;
      Yield(t);
      ghost var step := Act(t, Poll);
      Extended(run, Abs(), step);
      PollingFacts(run, Abs(), t);
      ghost var s' := Next(Abs(), step);
      acquired := locks.PollEntry(key, t, firstLoop, fails);
      threads, run := s'.threads, run + [step];
    }

    /** The locking phase is over: a thread-local step. */
    ghost method PassLockPoint(t: Tx)
      requires Valid() && t in threads && threads[t].phase == Acquiring({})
      modifies this
      ensures Moves(t, Executing(old(|log|), 0, []))
    {
      var step := Act(t, LockPoint);
      Extended(run, Abs(), step);
      var s' := Next(Abs(), step);
      threads, log, run := s'.threads, s'.log, run + [step];
    }

    /** One operation through a visitor; a read leaves its answer there. */
    method ExecuteOp(t: Tx, op: Op, visitor: NaiveOpExecutor, ghost p: Phase)
      requires Valid() && t in threads && threads[t].phase == p && p.Executing?
      requires p.next < |threads[t].ops| && threads[t].ops[p.next] == op
      requires visitor.store == store
      modifies this, locks, store.stripes, visitor
      ensures Moves(t, Executing(p.at, p.next + 1,
                                 p.results + if op.Read? then [ReadResult(op.key, visitor.opResult)] else []))
    {
      hide Reached, Placed, Flatten, Next, NextPhase, Serial.ApplyOp, Serial.Get;
      Yield(t);
      ghost var step, before := Act(t, Exec), Abs();
      Extended(run, before, step);
      ExecEffect(before, t, op);
      visitor.Visit(op);
      threads, history, run := Next(before, step).threads, Next(before, step).history, run + [step];
    }

    method SnapshotHeld(t: Tx, ghost p: Phase) returns (keys: set<Key>)
      requires Valid() && t in threads && threads[t].phase == p && CanAct(threads[t], Snapshot)
      modifies this, locks, store.stripes
      ensures Moves(t, Closing(p, keys))
    {
      hide Reached, Placed;
      Yield(t);
      ghost var step := Act(t, Snapshot);
      Extended(run, Abs(), step);
      ghost var s' := Next(Abs(), step);
      keys := locks.TakeHeld(t);
      threads, run := s'.threads, run + [step];
    }

    method ReleaseOne(t: Tx, key: Key, ghost p: Phase)
      requires Valid() && t in threads && threads[t].phase == p && p.Releasing? && key in p.left
      modifies this, locks, store.stripes
      ensures Moves(t, p.(left := p.left - {key}))
    {
      hide Reached, Placed;
      Yield(t);
      ghost var step := Act(t, Release(key));
      Extended(run, Abs(), step);
      ghost var s' := Next(Abs(), step);
      locks.Release(key, t);
      threads, run := s'.threads, run + [step];
    }

    ghost method Finish(t: Tx, outcome: Outcome, refused: Option<Key>)
      requires Valid() && t in threads && threads[t].phase == Releasing(outcome, {}, refused)
      modifies this
      ensures Moves(t, Done(outcome))
    {
      var step := Act(t, Return);
      Extended(run, Abs(), step);
      var s' := Next(Abs(), step);
      threads, run := s'.threads, run + [step];
    }

    // ----- the locking and release loops

    /** One polling loop: up to `rounds` polls, the entry mutex dropped and taken again between them. */
    method PollLoop(t: Tx, key: Key, firstLoop: bool, rounds: nat, ghost todo: set<Key>, ghost fails: nat)
      returns (acquired: bool)
      requires Valid() && t in threads && threads[t].phase == Polling(key, todo, fails)
      requires if firstLoop then fails + rounds <= MAX_SPINS else MAX_SPINS <= fails && fails + rounds <= MAX_POLLS
      modifies this, locks, store.stripes
      ensures Moves(t, if acquired then Acquiring(todo) else Polling(key, todo, fails + rounds))
      ensures acquired ==> Owns(locks.State(), key, t)
    {
      hide Reached, Owns, Placed;
      for round := 0 to rounds
        invariant Moves(t, Polling(key, todo, fails + round))
      {
        acquired := PollEntry(t, key, firstLoop, todo, fails + round);
        if acquired {
          return;
        }
      }
      acquired := false;
    }

    /** What comes before the first poll. */
    method RegisterRequest(t: Tx, key: Key, ghost todo: set<Key>)
      requires Valid() && t in threads && threads[t].phase == Acquiring(todo) && key in todo
      modifies this, locks, store.stripes
      ensures Moves(t, Polling(key, todo - {key}, 0))
    {
      hide Reached, Placed;
      CreateLockEntry(t, key, todo);
      TrackInterest(t, key, todo - {key});
    }

    /**
     Two bounded polling loops. True means the key is owned and the next one can be asked for; false
     means every poll failed and the key is not owned.
     */
    method Acquire(t: Tx, key: Key, ghost todo: set<Key>) returns (acquired: bool)
      requires Valid() && t in threads && threads[t].phase == Acquiring(todo) && key in todo
      modifies this, locks, store.stripes
      ensures Moves(t, if acquired then Acquiring(todo - {key}) else Polling(key, todo - {key}, 1500))
      ensures acquired <==> Owns(locks.State(), key, t)
    {
      hide Reached, Owns, Placed;
      RegisterRequest(t, key, todo);
      acquired := PollLoop(t, key, true, MAX_SPINS, todo - {key}, 0);
      if !acquired {
        acquired := PollLoop(t, key, false, MAX_YIELDS, todo - {key}, MAX_SPINS);
      }
      if !acquired {
        Yield(t);
        PollingFacts(run, Abs(), t);
      }
    }

    /** Snapshot, then release every key of it in some order. */
    method ReleaseAll(t: Tx, ghost p: Phase)
      requires Valid() && t in threads && threads[t].phase == p && CanAct(threads[t], Snapshot)
      modifies this, locks, store.stripes
      ensures Moves(t, Closing(p, {}))
    {
      var keys := SnapshotHeld(t, p);
      while keys != {}
        invariant Moves(t, Closing(p, keys))
        decreases |keys|
      {
        var key := AnyKey(keys);
        ReleaseOne(t, key, Closing(p, keys));
        keys := keys - {key};
      }
    }

    /**
     `t` has returned with the given result vector: its reads if it committed, nothing if it aborted.
     If all was calm, outcome, results, store, owners and interest are settled by the state it started in.
     */
    twostate predicate Returned(t: Tx, outcome: Outcome, results: seq<ReadResult>)
      requires old(store.Valid() && t in threads)
      reads this, locks, store.stripes
    {
      && Moves(t, Done(outcome)) && results == (if outcome.Committed? then outcome.results else [])
      && (calm ==> AsIfAlone(old(Abs()), Abs(), t))
    }

    /** Acquires the keys in some order; after the first failure everything is released again. */
    method AcquireKeys(t: Tx, keys: set<Key>) returns (ok: bool, ghost refused: Option<Key>)
      requires Valid() && t in threads && threads[t].phase == Acquiring(keys)
      modifies this, locks, store.stripes
      ensures Moves(t, if ok then Acquiring({}) else Releasing(Aborted, {}, refused))
    {
      var todo := keys;
      while todo != {}
        invariant Moves(t, Acquiring(todo))
        decreases |todo|
      {
        var key := AnyKey(todo);
        var acquired := Acquire(t, key, todo);
        if !acquired {
          ReleaseAll(t, Polling(key, todo - {key}, MAX_POLLS));
          return false, Some(key);
        }
        todo := todo - {key};
      }
      return true, None;
    }

    /** The local half of the locking phase; the remote groups are for `RemoteLockTable` to ask for. */
    method AcquireAllLocks(nodeToKeys: map<NodeId, set<Key>>, t: Tx)
      returns (ok: bool, remoteKeys: map<NodeId, set<Key>>, ghost refused: Option<Key>)
      requires Valid() && t in threads && threads[t].phase == Acquiring(KeysAt(nodeToKeys, localNodeId))
      modifies this, locks, store.stripes
      ensures Moves(t, if ok then Acquiring({}) else Releasing(Aborted, {}, refused))
      ensures remoteKeys.Keys == nodeToKeys.Keys - {old(localNodeId)}
      ensures forall n :: n in remoteKeys ==> remoteKeys[n] == nodeToKeys[n]
    {
      var localKeys;
      localKeys, remoteKeys := SplitLocal(localNodeId, nodeToKeys);
      ok, refused := AcquireKeys(t, localKeys);
    }

    /** The execution phase: a fresh visitor for every operation. */
    method ExecuteOps(ops: seq<Op>, t: Tx, ghost at: nat) returns (results: seq<ReadResult>)
      requires Valid() && t in threads && threads[t] == Thread(ops, Executing(at, 0, []))
      modifies this, locks, store.stripes
      ensures Moves(t, Executing(at, |ops|, results))
    {
      results := [];
      for i := 0 to |ops|
        invariant Moves(t, Executing(at, i, results))
      {
        var visitor := new NaiveOpExecutor(store);
        ExecuteOp(t, ops[i], visitor, Executing(at, i, results));
        if ops[i].Read? {
          results := results + [ReadResult(ops[i].key, visitor.opResult)];
        } else {
          assert results + [] == results;
        }
      }
    }

    /** The locking phase said yes or no. */
    ghost method Settle(t: Tx, ok: bool, refused: Option<Key>) returns (at: nat)
      requires Valid() && t in threads
      requires threads[t].phase == if ok then Acquiring({}) else Releasing(Aborted, {}, refused)
      modifies this
      ensures Moves(t, if ok then Executing(at, 0, []) else Done(Aborted))
    {
      at := |log|;
      if ok {
        PassLockPoint(t);
      } else {
        Finish(t, Aborted, refused);
      }
    }

    /** The end of a transaction that executed: release everything and return. */
    method Conclude(t: Tx, ghost at: nat, results: seq<ReadResult>)
      requires Valid() && t in threads && threads[t].phase == Executing(at, |threads[t].ops|, results)
      modifies this, locks, store.stripes
      ensures Moves(t, Done(Committed(at, results)))
    {
      ReleaseAll(t, Executing(at, |threads[t].ops|, results));
      Finish(t, Committed(at, results), None);
    }

    method LockForDistributedSupport(ops: seq<Op>, t: Tx) returns (ok: bool, ghost at: nat)
      requires Valid() && t in threads && threads[t] == Thread(ops, Acquiring(Keys(ops)))
      requires forall k :: k in Keys(ops) ==> IsLocalKey(routes, localNodeId, k)
      modifies this, locks, store.stripes
      ensures Moves(t, if ok then Executing(at, 0, []) else Done(Aborted))
    {
      hide Reached, Placed;
      var keyToNode, nodeToKeys := GroupKeys(routes, localNodeId, ops);
      AllLocal(routes, localNodeId, Keys(ops), nodeToKeys);
      var remoteKeys;
      ghost var refused;
      ok, remoteKeys, refused := AcquireAllLocks(nodeToKeys, t);
      assert remoteKeys == map[];
      at := Settle(t, ok, refused);
    }

    /** The transaction body on the path the server takes. */
    method ExecuteWithDistributedSupport(ops: seq<Op>, t: Tx) returns (results: seq<ReadResult>, ghost outcome: Outcome)
      requires Valid() && t in threads && threads[t] == Thread(ops, Acquiring(Keys(ops)))
      requires forall k :: k in Keys(ops) ==> IsLocalKey(routes, localNodeId, k)
      modifies this, locks, store.stripes
      ensures Returned(t, outcome, results)
    {
      hide Reached, Placed, AsIfAlone;
      var ok;
      ghost var at;
      ok, at := LockForDistributedSupport(ops, t);
      results, outcome := [], Aborted;
      if ok {
        results := ExecuteOps(ops, t, at);
        Conclude(t, at, results);
        outcome := Committed(at, results);
      }
      if calm {
        CalmTransaction(old(run), old(Abs()), run, Abs(), t);
      }
    }

    /** The execution phase with one visitor shared by all operations. */
    method ExecuteOpsShared(ops: seq<Op>, t: Tx, ghost at: nat) returns (results: seq<ReadResult>)
      requires Valid() && t in threads && threads[t] == Thread(ops, Executing(at, 0, []))
      modifies this, locks, store.stripes
      ensures Moves(t, Executing(at, |ops|, results))
    {
      results := [];
      var visitor := new NaiveOpExecutor(store);
      for i := 0 to |ops|
        invariant Moves(t, Executing(at, i, results))
      {
        ExecuteOp(t, ops[i], visitor, Executing(at, i, results));
        if ops[i].Read? {
          results := results + [ReadResult(ops[i].key, visitor.opResult)];
        } else {
          assert results + [] == results;
        }
      }
    }

    /** The single-node variant, which also says whether it committed. */
    method ExecuteWithId(ops: seq<Op>, t: Tx) returns (results: seq<ReadResult>, ok: bool, ghost outcome: Outcome)
      requires Valid() && t in threads && threads[t] == Thread(ops, Acquiring(Keys(ops)))
      modifies this, locks, store.stripes
      ensures Returned(t, outcome, results)
      ensures ok <==> outcome.Committed?
    {
      hide Reached, Placed, AsIfAlone;
      var keysToLock := CollectKeys(ops);
      ghost var refused;
      ok, refused := AcquireKeys(t, keysToLock);
      ghost var at := Settle(t, ok, refused);
      results, outcome := [], Aborted;
      if ok {
        results := ExecuteOpsShared(ops, t, at);
        Conclude(t, at, results);
        outcome := Committed(at, results);
      }
      if calm {
        CalmTransaction(old(run), old(Abs()), run, Abs(), t);
      }
    }

    /** Draws the next id; the transaction is in flight from here on. */
    method BeginTransaction(ops: seq<Op>) returns (t: Tx)
      requires Valid()
      modifies this
      ensures Continues()
      ensures t == old(nextTxId) && t !in old(threads)
      ensures Abs() == Next(old(Abs()), Begin(ops)) && run == old(run) + [Begin(ops)]
      ensures t in threads && threads[t] == Thread(ops, Acquiring(Keys(ops)))
    {
      ReachedInv(run, Abs());
      ghost var step := Begin(ops);
      Extended(run, Abs(), step);
      ghost var s' := Next(Abs(), step);
      t := nextTxId;
      nextTxId := nextTxId + 1;
      threads, run := s'.threads, run + [step];
    }

    /**
     A whole transaction, on any node state and under any interference, when all its keys are local.
     It always returns. If it commits, it has its place in the log and its results are those of running
     its operations alone on what the transactions before it in the log leave; if it aborts, it returns
     nothing and appears nowhere in the log. If all was calm, the node is as it was but for this one
     transaction, begun once and run once.
     */
    method ExecuteTransaction(ops: seq<Op>) returns (results: seq<ReadResult>, t: Tx, ghost outcome: Outcome)
      requires Valid()
      requires forall k :: k in Keys(ops) ==> IsLocalKey(routes, localNodeId, k)
      modifies this, locks, store.stripes
      ensures Continues()
      ensures t !in old(threads) && t in threads && threads[t] == Thread(ops, Done(outcome))
      ensures outcome.Committed? ==>
                && outcome.at < |log| && log[outcome.at] == Serial.Entry(t, ops)
                && results == Serial.Reads(Serial.SerialStore(log[..outcome.at]), ops)
      ensures outcome.Aborted? ==> results == [] && forall j :: 0 <= j < |log| ==> log[j].tx != t
      ensures calm ==> t == old(nextTxId) && AsIfAlone(Next(old(Abs()), Begin(ops)), Abs(), t)
    {
      t := BeginTransaction(ops);
      results, outcome := ExecuteWithDistributedSupport(ops, t);
      PlaceInLog(run, Abs(), t);
    }
  }
}
