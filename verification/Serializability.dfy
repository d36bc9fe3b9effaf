/** The promises of the scheduler, over every run of any number of transactions from the empty system. */
module Serializability {
  import opened Types
  import opened Serial
  import opened Engine
  import opened Invariant

  predicate CommittedIn(threads: map<Tx, Thread>, t: Tx) {
    t in threads && threads[t].phase.Done? && threads[t].phase.outcome.Committed?
  }

  predicate IsCommitted(s: Sys, t: Tx) {
    CommittedIn(s.threads, t)
  }

  predicate IsAborted(s: Sys, t: Tx) {
    t in s.threads && s.threads[t].phase.Done? && s.threads[t].phase.outcome.Aborted?
  }

  ghost predicate Logged(s: Sys, t: Tx) {
    exists j :: 0 <= j < |s.log| && s.log[j].tx == t
  }

  /**
   Serializability. The log orders transactions by lock point, without repetition; every committed
   transaction read what it would have read when run alone after those before it in the log; and
   once everybody has returned, the log lists exactly the committed transactions and the store is
   the one the serial run leaves.
   */
  lemma Serializable(steps: seq<Step>)
    requires Feasible(INIT, steps)
    ensures var s := After(INIT, steps);
            && (forall i, j :: 0 <= i < j < |s.log| ==> s.log[i].tx != s.log[j].tx)
            && (forall t :: IsCommitted(s, t) ==>
                              var Committed(at, results) := s.threads[t].phase.outcome;
                              && at < |s.log|
                              && s.log[at] == Entry(t, s.threads[t].ops)
                              && results == Reads(SerialStore(s.log[..at]), s.threads[t].ops))
            && (Quiescent(s) ==>
                  && s.store == SerialStore(s.log)
                  && (forall t :: Logged(s, t) <==> IsCommitted(s, t)))
  {
    hide OwnersOk, HeldOk, ThreadsOk, ExecutingOk;
    var s := After(INIT, steps);
    InitInv();
    RunInv(INIT, steps);
    forall i, j | 0 <= i < j < |s.log|
      ensures s.log[i].tx != s.log[j].tx
    {
      assert Position(s.threads[s.log[i].tx]) == Some(i);
    }
    forall t | IsCommitted(s, t)
      ensures var Committed(at, results) := s.threads[t].phase.outcome;
              && at < |s.log| && s.log[at] == Entry(t, s.threads[t].ops)
              && results == Reads(SerialStore(s.log[..at]), s.threads[t].ops)
    {
      assert OutcomeOk(s, s.threads[t]);
      assert Position(s.threads[t]).Some?;
    }
    if Quiescent(s) {
      forall k
        ensures Get(s.store, k) == Get(SerialStore(s.log), k)
      {
        assert !Busy(s, k);
      }
      StoresEqual(s.store, SerialStore(s.log));
      forall t
        ensures Logged(s, t) <==> IsCommitted(s, t)
      {
        if IsCommitted(s, t) {
          assert s.log[s.threads[t].phase.outcome.at].tx == t;
        }
      }
    }
  }

  /** The log only grows, and a transaction keeps its operations. */
  lemma {:induction false} LogGrows(s: Sys, steps: seq<Step>)
    requires Inv(s) && Feasible(s, steps)
    ensures s.log <= After(s, steps).log
    ensures forall t :: t in s.threads ==>
                          t in After(s, steps).threads && After(s, steps).threads[t].ops == s.threads[t].ops
    decreases steps
  {
    if steps != [] {
      hide SerialOk, OwnersOk, HeldOk, LogOk;
      StepInv(s, steps[0]);
      LogGrows(Next(s, steps[0]), steps[1..]);
    }
  }

  /**
   Strictness in real time: whoever returned before `late` began comes before it in the serial order.
   */
  lemma RealTimeOrder(before: seq<Step>, after: seq<Step>, early: Tx, late: Tx)
    requires Feasible(INIT, before) && Feasible(After(INIT, before), after)
    requires IsCommitted(After(INIT, before), early)
    requires late !in After(INIT, before).threads
    requires IsCommitted(After(After(INIT, before), after), late)
    ensures var s := After(After(INIT, before), after);
            && early in s.threads && Position(s.threads[early]).Some?
            && Position(s.threads[early]).value < Position(s.threads[late]).value
  {
    hide SerialOk, OwnersOk, HeldOk;
    var m := After(INIT, before);
    InitInv();
    RunInv(INIT, before);
    RunInv(m, after);
    LogGrows(m, after);
    var s := After(m, after);
    var i := m.threads[early].phase.outcome.at;
    assert m.log[i].tx == early == s.log[i].tx;
    var j := Position(s.threads[late]).value;
    assert s.log[j].tx == late;
  }

  /** What the owner of `k` has still to append to it; nothing unless the owner is mid-execution. */
  function StillToAppend(s: Sys, k: Key): seq<Value> {
    if Busy(s, k) then
      var th := s.threads[s.locks.owner[k]];
      AppendsTo(if th.phase.next <= |th.ops| then th.ops[th.phase.next..] else [], k)
    else []
  }

  /** A transaction cut in two at one key. */
  lemma CutContents(base: Store, store: Store, serial: Store, ops: seq<Op>, next: nat, k: Key)
    requires next <= |ops| && (k in base ==> base[k] != [])
    requires Get(store, k) == Get(RunOps(base, ops[..next]), k) && Get(serial, k) == Get(RunOps(base, ops), k)
    ensures Contents(store, k) + AppendsTo(ops[next..], k) == Contents(serial, k)
    ensures k in store ==> store[k] != []
  {
    hide RunOps, AppendsTo;
    RunOpsContents(base, ops[..next], k);
    RunOpsContents(base, ops, k);
    AppendsSplit(ops, next, k);
    assert Contents(store, k) == Contents(base, k) + AppendsTo(ops[..next], k);
    assert Contents(serial, k) == Contents(base, k) + (AppendsTo(ops[..next], k) + AppendsTo(ops[next..], k));
  }

  lemma BusyContents(s: Sys, k: Key)
    requires OwnersOk(s) && SerialOk(s) && Busy(s, k)
    ensures Contents(s.store, k) + StillToAppend(s, k) == Contents(SerialStore(s.log), k)
    ensures k in s.store ==> s.store[k] != []
  {
    var t := s.locks.owner[k];
    var th := s.threads[t];
    var at, next := th.phase.at, th.phase.next;
    assert k in Owned(th);
    assert ExecutingOk(s, t);
    SerialContents(s.log[..at], k);
    CutContents(Base(s, at), s.store, SerialStore(s.log), th.ops, next, k);
  }

  /**
   Conservation, at every moment of every run: the list under each key, followed by what the
   current owner has still to append, is exactly the logged transactions' appends to that key,
   grouped by transaction in log order. Nothing is lost, duplicated, reordered or interleaved, and
   a key exists only if something was appended to it.
   */
  lemma Conservation(steps: seq<Step>, k: Key)
    requires Feasible(INIT, steps)
    ensures var s := After(INIT, steps);
            && Contents(s.store, k) + StillToAppend(s, k) == LogAppends(s.log, k)
            && (k in s.store ==> s.store[k] != [])
            && (Quiescent(s) ==> Contents(s.store, k) == LogAppends(s.log, k))
  {
    var s := After(INIT, steps);
    InitInv();
    RunInv(INIT, steps);
    SerialContents(s.log, k);
    if Busy(s, k) {
      BusyContents(s, k);
    } else {
      assert Get(s.store, k) == Get(SerialStore(s.log), k);
    }
  }

  function ReadCount(ops: seq<Op>): nat {
    if ops == [] then 0 else ReadCount(ops[..|ops| - 1]) + (if ops[|ops| - 1].Read? then 1 else 0)
  }

  /** The results line up with the read operations: one each, in order. */
  lemma {:induction false} ReadsAt(store: Store, ops: seq<Op>, i: nat)
    requires i <= |ops|
    ensures |Reads(store, ops)| == ReadCount(ops)
    ensures ReadCount(ops[..i]) <= ReadCount(ops)
    ensures i < |ops| && ops[i].Read? ==>
              && ReadCount(ops[..i]) < ReadCount(ops)
              && Reads(store, ops)[ReadCount(ops[..i])] ==
                 ReadResult(ops[i].key, Get(RunOps(store, ops[..i]), ops[i].key))
  {
    if ops == [] {
    } else {
      var init := ops[..|ops| - 1];
      if i < |ops| {
        assert init[..i] == ops[..i];
        ReadsAt(store, init, i);
      } else {
        assert ops[..i] == ops;
        ReadsAt(store, init, 0);
      }
    }
  }

  /** The list a committed transaction's `i`-th operation, a read, returned; absent counts as empty. */
  function ReadList(s: Sys, t: Tx, i: nat): seq<Value>
    requires IsCommitted(s, t)
  {
    var results := s.threads[t].phase.outcome.results;
    var r := ReadCount(if i <= |s.threads[t].ops| then s.threads[t].ops[..i] else []);
    if r < |results| && results[r].value.Some? then results[r].value.value else []
  }

  /**
   Every committed read of `k` returns the appends to `k` of all transactions before the reader in
   the serial order, followed by the reader's own earlier ones; it returns null exactly when there
   are none.
   */
  lemma ReadContents(steps: seq<Step>, t: Tx, i: nat)
    requires Feasible(INIT, steps)
    requires IsCommitted(After(INIT, steps), t)
    requires i < |After(INIT, steps).threads[t].ops| && After(INIT, steps).threads[t].ops[i].Read?
    ensures var s := After(INIT, steps);
            var ops := s.threads[t].ops;
            var Committed(at, results) := s.threads[t].phase.outcome;
            && at < |s.log|
            && |results| == ReadCount(ops)
            && ReadCount(ops[..i]) < |results|
            && var expected := LogAppends(s.log[..at], ops[i].key) + AppendsTo(ops[..i], ops[i].key);
               results[ReadCount(ops[..i])] == ReadResult(ops[i].key, if expected == [] then None else Some(expected))
  {
    var s := After(INIT, steps);
    Serializable(steps);
    var ops := s.threads[t].ops;
    var Committed(at, results) := s.threads[t].phase.outcome;
    var base := SerialStore(s.log[..at]);
    ReadsAt(base, ops, i);
    SerialContents(s.log[..at], ops[i].key);
    RunOpsContents(base, ops[..i], ops[i].key);
  }

  /** Any two committed reads of one key are prefix-comparable, in serial order. */
  lemma ReadsComparable(steps: seq<Step>, t: Tx, i: nat, u: Tx, j: nat)
    requires Feasible(INIT, steps)
    requires IsCommitted(After(INIT, steps), t) && IsCommitted(After(INIT, steps), u)
    requires i < |After(INIT, steps).threads[t].ops| && After(INIT, steps).threads[t].ops[i].Read?
    requires j < |After(INIT, steps).threads[u].ops| && After(INIT, steps).threads[u].ops[j].Read?
    requires After(INIT, steps).threads[t].ops[i].key == After(INIT, steps).threads[u].ops[j].key
    requires var s := After(INIT, steps);
             var a, b := s.threads[t].phase.outcome.at, s.threads[u].phase.outcome.at;
             a < b || (a == b && i <= j)
    ensures ReadList(After(INIT, steps), t, i) <= ReadList(After(INIT, steps), u, j)
  {
    hide RunOps, AppendsTo, Reads, SerialStore;
    var s := After(INIT, steps);
    ReadContents(steps, t, i);
    ReadContents(steps, u, j);
    Serializable(steps);
    var a, b := s.threads[t].phase.outcome.at, s.threads[u].phase.outcome.at;
    var k := s.threads[t].ops[i].key;
    if a < b {
      var upTo := s.log[..b];
      assert upTo[..a + 1][..a] == s.log[..a];
      assert upTo[..a + 1][a] == s.log[a];
      LogAppendsPrefix(upTo, a + 1, k);
      AppendsPrefix(s.threads[t].ops, i, k);
    } else {
      assert s.log[a].tx == t && s.log[b].tx == u;
      assert s.threads[u].ops[..j][..i] == s.threads[u].ops[..i];
      AppendsPrefix(s.threads[u].ops[..j], i, k);
    }
  }
}
