/** What every step of the engine keeps, hence what holds in every state any interleaving can reach. */
module Invariant {
  import opened Types
  import opened Serial
  import opened LockTable
  import opened Engine

  /** The key that is asked for or was refused. */
  function Sought(p: Phase): Option<Key> {
    match p
    case Requesting(key, _) => Some(key)
    case Polling(key, _, _) => Some(key)
    case Releasing(_, _, refused) => refused
    case _ => None
  }

  /** The keys a transaction owns: nobody can take them from it before it releases them. */
  function Owned(th: Thread): set<Key> {
    match th.phase
    case Acquiring(todo) => Keys(th.ops) - todo
    case Requesting(key, todo) => Keys(th.ops) - todo - {key}
    case Polling(key, todo, _) => Keys(th.ops) - todo - {key}
    case Executing(_, _, _) => Keys(th.ops)
    case Releasing(_, left, refused) => if refused.Some? then left - {refused.value} else left
    case Done(_) => {}
  }

  /** What `held_locks` records for a transaction: interest, which runs ahead of ownership. */
  function Interested(th: Thread): set<Key> {
    match th.phase
    case Acquiring(todo) => Keys(th.ops) - todo
    case Requesting(key, todo) => Keys(th.ops) - todo - {key}
    case Polling(_, todo, _) => Keys(th.ops) - todo
    case Executing(_, _, _) => Keys(th.ops)
    case Releasing(_, _, _) => {}
    case Done(_) => {}
  }

  /** The log position of a transaction that passed its lock point. */
  function Position(th: Thread): Option<nat> {
    match th.phase
    case Executing(at, _, _) => Some(at)
    case Releasing(Committed(at, _), _, _) => Some(at)
    case Done(Committed(at, _)) => Some(at)
    case _ => None
  }

  predicate PhaseOk(th: Thread) {
    match th.phase
    case Acquiring(todo) => todo <= Keys(th.ops)
    case Requesting(key, todo) => todo <= Keys(th.ops) && key in Keys(th.ops) - todo
    case Polling(key, todo, fails) => todo <= Keys(th.ops) && key in Keys(th.ops) - todo && fails <= MAX_POLLS
    case Executing(_, next, _) => next <= |th.ops|
    case Releasing(outcome, left, refused) =>
      && left <= Keys(th.ops) && (outcome.Aborted? <==> refused.Some?)
      && (refused.Some? ==> refused.value in Keys(th.ops))
    case Done(_) => true
  }

  ghost predicate ThreadsOk(s: Sys) {
    && s.nextTx >= 1
    && (forall t :: t in s.threads <==> 1 <= t < s.nextTx)
    && (forall t :: t in s.threads ==> PhaseOk(s.threads[t]))
  }

  ghost predicate OwnersOk(s: Sys) {
    && (forall k :: k in s.locks.owner ==> s.locks.owner[k] in s.threads && k in Owned(s.threads[s.locks.owner[k]]))
    && (forall t, k :: t in s.threads && k in Owned(s.threads[t]) ==> Owns(s.locks, k, t))
    && s.locks.owner.Keys <= s.locks.entries
    && (forall t :: t in s.threads && Sought(s.threads[t].phase).Some? ==>
                      Sought(s.threads[t].phase).value in s.locks.entries)
  }

  ghost predicate HeldOk(s: Sys) {
    && (forall t :: t in s.locks.held ==> t in s.threads && s.locks.held[t] != {})
    && (forall t :: t in s.threads ==> HeldBy(s.locks, t) == Interested(s.threads[t]))
  }

  ghost predicate LogOk(s: Sys) {
    && (forall t :: t in s.threads && Position(s.threads[t]).Some? ==>
                      var at := Position(s.threads[t]).value;
                      at < |s.log| && s.log[at] == Entry(t, s.threads[t].ops))
    && (forall j :: 0 <= j < |s.log| ==>
                      s.log[j].tx in s.threads && Position(s.threads[s.log[j].tx]) == Some(j))
  }

  /** The serial store a logged transaction starts from: that of the transactions before it. */
  function Base(s: Sys, at: nat): Store
    requires at <= |s.log|
  {
    SerialStore(s.log[..at])
  }

  /** The key belongs to a transaction that is between its lock point and its last operation. */
  predicate Busy(s: Sys, k: Key) {
    k in s.locks.owner && s.locks.owner[k] in s.threads && s.threads[s.locks.owner[k]].phase.Executing?
  }

  /**
   A transaction in mid-execution has read what the serial run would have read so far, its keys hold
   what the serial run would have put there so far, and nobody after it in the log has touched them.
   */
  ghost predicate ExecutingOk(s: Sys, t: Tx)
    requires t in s.threads && s.threads[t].phase.Executing?
  {
    var th := s.threads[t];
    var p := th.phase;
    && p.at < |s.log| && p.next <= |th.ops|
    && p.results == Reads(Base(s, p.at), th.ops[..p.next])
    && (forall k :: k in Keys(th.ops) ==>
                      && Get(s.store, k) == Get(RunOps(Base(s, p.at), th.ops[..p.next]), k)
                      && Get(SerialStore(s.log), k) == Get(RunOps(Base(s, p.at), th.ops), k))
  }

  predicate OutcomeOk(s: Sys, th: Thread) {
    (th.phase.Releasing? || th.phase.Done?) && th.phase.outcome.Committed? ==>
      th.phase.outcome.at < |s.log| && th.phase.outcome.results == Reads(Base(s, th.phase.outcome.at), th.ops)
  }

  ghost predicate SerialOk(s: Sys) {
    && (forall t :: t in s.threads && s.threads[t].phase.Executing? ==> ExecutingOk(s, t))
    && (forall t :: t in s.threads ==> OutcomeOk(s, s.threads[t]))
    && (forall k :: !Busy(s, k) ==> Get(s.store, k) == Get(SerialStore(s.log), k))
  }

  ghost predicate Inv(s: Sys) {
    ThreadsOk(s) && OwnersOk(s) && HeldOk(s) && LogOk(s) && SerialOk(s)
  }

  lemma InitInv()
    ensures Inv(INIT)
  {
  }

  lemma BeginSerial(s: Sys, ops: seq<Op>)
    requires SerialOk(s) && s.nextTx !in s.threads
    requires forall k :: k in s.locks.owner ==> s.locks.owner[k] in s.threads
    ensures SerialOk(Next(s, Begin(ops)))
  {
    var s' := Next(s, Begin(ops));
    forall u | u in s'.threads && s'.threads[u].phase.Executing?
      ensures ExecutingOk(s', u)
    {
      assert ExecutingOk(s, u);
    }
    forall u | u in s'.threads
      ensures OutcomeOk(s', s'.threads[u])
    {
      assert u in s.threads ==> OutcomeOk(s, s.threads[u]);
    }
    forall k | !Busy(s', k)
      ensures Get(s'.store, k) == Get(SerialStore(s'.log), k)
    {
      assert !Busy(s, k);
    }
  }

  lemma BeginLocks(s: Sys, ops: seq<Op>)
    requires OwnersOk(s) && HeldOk(s) && s.nextTx !in s.threads
    ensures OwnersOk(Next(s, Begin(ops))) && HeldOk(Next(s, Begin(ops)))
  {
    assert HeldBy(Next(s, Begin(ops)).locks, s.nextTx) == {};
  }

  lemma BeginInv(s: Sys, ops: seq<Op>)
    requires Inv(s)
    ensures Inv(Next(s, Begin(ops)))
  {
    hide SerialOk, HeldOk;
    assert s.nextTx !in s.threads;
    BeginLocks(s, ops);
    BeginSerial(s, ops);
  }

  lemma ThreadsStep(s: Sys, t: Tx, a: Action)
    requires ThreadsOk(s) && HeldOk(s) && Enabled(s, Act(t, a))
    ensures ThreadsOk(Next(s, Act(t, a)))
  {
  }

  /** No key has two owners. */
  lemma Exclusive(s: Sys, t: Tx, u: Tx, k: Key)
    requires OwnersOk(s) && t in s.threads && u in s.threads && k in Owned(s.threads[t])
    ensures Owns(s.locks, k, t)
    ensures u != t ==> k !in Owned(s.threads[u]) && !Owns(s.locks, k, u)
  {
  }

  lemma OwnedKept(s: Sys, t: Tx, a: Action, u: Tx, k: Key)
    requires OwnersOk(s) && HeldOk(s) && Enabled(s, Act(t, a)) && u in s.threads
    requires k in Owned(Next(s, Act(t, a)).threads[u])
    ensures Owns(Next(s, Act(t, a)).locks, k, u)
  {
    assert HeldBy(s.locks, t) == Interested(s.threads[t]);
    if u != t || k in Owned(s.threads[u]) {
      Exclusive(s, u, t, k);
    }
  }

  /** What the actor owns after its action is listed for its new phase. */
  lemma ActorTraced(s: Sys, t: Tx, a: Action, k: Key)
    requires ThreadsOk(s) && OwnersOk(s) && HeldOk(s) && Enabled(s, Act(t, a))
    requires Owns(Next(s, Act(t, a)).locks, k, t)
    ensures k in Owned(Next(s, Act(t, a)).threads[t])
  {
    assert k in s.locks.owner ==> k in Owned(s.threads[s.locks.owner[k]]);
    assert PhaseOk(s.threads[t]) && HeldBy(s.locks, t) == Interested(s.threads[t]);
    hide ThreadsOk, OwnersOk, HeldOk;
  }

  lemma OwnersTraced(s: Sys, t: Tx, a: Action, k: Key)
    requires ThreadsOk(s) && OwnersOk(s) && HeldOk(s) && Enabled(s, Act(t, a))
    requires k in Next(s, Act(t, a)).locks.owner
    ensures var s' := Next(s, Act(t, a));
            s'.locks.owner[k] in s'.threads && k in Owned(s'.threads[s'.locks.owner[k]])
  {
    hide ThreadsOk, HeldOk, NextPhase, Owned;
    if Next(s, Act(t, a)).locks.owner[k] == t {
      ActorTraced(s, t, a, k);
    } else {
      assert k in s.locks.owner && k in Owned(s.threads[s.locks.owner[k]]);
    }
  }

  lemma EntriesStep(s: Sys, t: Tx, a: Action)
    requires OwnersOk(s) && Enabled(s, Act(t, a))
    ensures var s' := Next(s, Act(t, a));
            && s'.locks.owner.Keys <= s'.locks.entries
            && (forall u :: u in s'.threads && Sought(s'.threads[u].phase).Some? ==>
                              Sought(s'.threads[u].phase).value in s'.locks.entries)
  {
  }

  lemma OwnersStep(s: Sys, t: Tx, a: Action)
    requires ThreadsOk(s) && OwnersOk(s) && HeldOk(s) && Enabled(s, Act(t, a))
    ensures OwnersOk(Next(s, Act(t, a)))
  {
    hide ThreadsOk, HeldOk, NextPhase, NextLocks, Owned;
    var s' := Next(s, Act(t, a));
    EntriesStep(s, t, a);
    forall u, k | u in s'.threads && k in Owned(s'.threads[u])
      ensures Owns(s'.locks, k, u)
    {
      OwnedKept(s, t, a, u, k);
    }
    forall k | k in s'.locks.owner
      ensures s'.locks.owner[k] in s'.threads && k in Owned(s'.threads[s'.locks.owner[k]])
    {
      OwnersTraced(s, t, a, k);
    }
  }

  lemma HeldStep(s: Sys, t: Tx, a: Action)
    requires ThreadsOk(s) && HeldOk(s) && Enabled(s, Act(t, a))
    ensures HeldOk(Next(s, Act(t, a)))
  {
    var s' := Next(s, Act(t, a));
    assert t !in s.locks.held ==> Interested(s.threads[t]) == {};
    forall u | u in s'.threads
      ensures HeldBy(s'.locks, u) == Interested(s'.threads[u])
    {
      assert HeldBy(s.locks, u) == Interested(s.threads[u]);
    }
  }

  lemma PositionStep(s: Sys, t: Tx, a: Action)
    requires Enabled(s, Act(t, a))
    ensures Position(Next(s, Act(t, a)).threads[t]) == if a.LockPoint? then Some(|s.log|) else Position(s.threads[t])
    ensures a.LockPoint? ==> Position(s.threads[t]) == None
  {
  }

  lemma LogStep(s: Sys, t: Tx, a: Action)
    requires LogOk(s) && Enabled(s, Act(t, a))
    ensures LogOk(Next(s, Act(t, a)))
  {
    hide NextPhase, NextLocks, Position, CanAct;
    var s' := Next(s, Act(t, a));
    PositionStep(s, t, a);
    forall j | 0 <= j < |s'.log|
      ensures s'.log[j].tx in s'.threads && Position(s'.threads[s'.log[j].tx]) == Some(j)
    {
      if j < |s.log| {
        assert Position(s.threads[s.log[j].tx]) == Some(j);
      }
    }
  }

  /** Steps that touch neither store nor log leave the serial picture alone. */
  lemma QuietStep(s: Sys, t: Tx, a: Action)
    requires ThreadsOk(s) && OwnersOk(s) && SerialOk(s) && Enabled(s, Act(t, a))
    requires !a.Exec? && !a.LockPoint? && !a.Snapshot?
    ensures SerialOk(Next(s, Act(t, a)))
  {
    hide RunOps, Reads, SerialStore;
    var s' := Next(s, Act(t, a));
    forall u | u in s'.threads && s'.threads[u].phase.Executing?
      ensures ExecutingOk(s', u)
    {
      assert ExecutingOk(s, u);
    }
    forall u | u in s'.threads
      ensures OutcomeOk(s', s'.threads[u])
    {
      assert OutcomeOk(s, s.threads[u]);
    }
    forall k | !Busy(s', k)
      ensures Get(s'.store, k) == Get(SerialStore(s'.log), k)
    {
      assert !Busy(s, k);
    }
  }

  /** At the lock point the transaction's keys hold exactly what the serial run so far left there. */
  lemma LockPointOwn(s: Sys, t: Tx)
    requires OwnersOk(s) && SerialOk(s) && Enabled(s, Act(t, LockPoint))
    ensures ExecutingOk(Next(s, Act(t, LockPoint)), t)
  {
    var s' := Next(s, Act(t, LockPoint));
    var ops := s.threads[t].ops;
    assert s'.log[..|s.log|] == s.log;
    assert ops[..0] == [];
    forall k | k in Keys(ops)
      ensures Get(s.store, k) == Get(SerialStore(s.log), k)
    {
      Exclusive(s, t, t, k);
      assert !Busy(s, k);
    }
  }

  /** Others in mid-execution own their keys, so the newcomer does not touch them. */
  lemma LockPointOther(s: Sys, t: Tx, u: Tx)
    requires OwnersOk(s) && Enabled(s, Act(t, LockPoint))
    requires u != t && u in s.threads && s.threads[u].phase.Executing? && ExecutingOk(s, u)
    ensures ExecutingOk(Next(s, Act(t, LockPoint)), u)
  {
    hide OwnersOk;
    var s' := Next(s, Act(t, LockPoint));
    var ops := s.threads[t].ops;
    assert s'.log[..|s.log|] == s.log;
    assert s'.log[..s.threads[u].phase.at] == s.log[..s.threads[u].phase.at];
    forall k | k in Keys(s.threads[u].ops)
      ensures Get(SerialStore(s'.log), k) == Get(SerialStore(s.log), k)
    {
      Exclusive(s, u, t, k);
      RunOpsFrame(SerialStore(s.log), ops, k);
    }
  }

  lemma LockPointStep(s: Sys, t: Tx)
    requires OwnersOk(s) && LogOk(s) && SerialOk(s) && Enabled(s, Act(t, LockPoint))
    ensures SerialOk(Next(s, Act(t, LockPoint)))
  {
    hide OwnersOk, ExecutingOk;
    var s' := Next(s, Act(t, LockPoint));
    var ops := s.threads[t].ops;
    assert s'.log[..|s.log|] == s.log;
    LockPointOwn(s, t);
    forall u | u in s'.threads && s'.threads[u].phase.Executing?
      ensures ExecutingOk(s', u)
    {
      if u != t {
        LockPointOther(s, t, u);
      }
    }
    forall u | u in s'.threads
      ensures OutcomeOk(s', s'.threads[u])
    {
      assert OutcomeOk(s, s.threads[u]);
      if u != t && Position(s.threads[u]).Some? {
        var at := Position(s.threads[u]).value;
        assert s'.log[..at] == s.log[..at];
      }
    }
    forall k | !Busy(s', k)
      ensures Get(s'.store, k) == Get(SerialStore(s'.log), k)
    {
      assert !Busy(s, k);
      if k in Keys(ops) {
        Exclusive(s, t, t, k);
      }
      RunOpsFrame(SerialStore(s.log), ops, k);
    }
  }

  lemma ExecOwn(s: Sys, t: Tx)
    requires Enabled(s, Act(t, Exec)) && ExecutingOk(s, t)
    ensures ExecutingOk(Next(s, Act(t, Exec)), t)
  {
    hide RunOps, Reads, SerialStore;
    var p := s.threads[t].phase;
    KeysOfIndex(s.threads[t].ops, p.next);
    RunOpsStep(Base(s, p.at), s.threads[t].ops, p.next);
  }

  lemma ExecOther(s: Sys, t: Tx, u: Tx)
    requires OwnersOk(s) && Enabled(s, Act(t, Exec))
    requires u != t && u in s.threads && s.threads[u].phase.Executing? && ExecutingOk(s, u)
    ensures ExecutingOk(Next(s, Act(t, Exec)), u)
  {
    hide OwnersOk, RunOps, Reads, SerialStore;
    var op := s.threads[t].ops[s.threads[t].phase.next];
    KeysOfIndex(s.threads[t].ops, s.threads[t].phase.next);
    forall k | k in Keys(s.threads[u].ops)
      ensures k != op.key
    {
      Exclusive(s, u, t, k);
    }
  }

  lemma ExecStep(s: Sys, t: Tx)
    requires OwnersOk(s) && SerialOk(s) && Enabled(s, Act(t, Exec))
    ensures SerialOk(Next(s, Act(t, Exec)))
  {
    hide OwnersOk, ExecutingOk, SerialStore;
    var s' := Next(s, Act(t, Exec));
    var op := s.threads[t].ops[s.threads[t].phase.next];
    KeysOfIndex(s.threads[t].ops, s.threads[t].phase.next);
    forall u | u in s'.threads && s'.threads[u].phase.Executing?
      ensures ExecutingOk(s', u)
    {
      if u == t {
        ExecOwn(s, t);
      } else {
        ExecOther(s, t, u);
      }
    }
    forall u | u in s'.threads
      ensures OutcomeOk(s', s'.threads[u])
    {
      assert OutcomeOk(s, s.threads[u]);
    }
    forall k | !Busy(s', k)
      ensures Get(s'.store, k) == Get(SerialStore(s'.log), k)
    {
      assert !Busy(s, k);
      Exclusive(s, t, t, op.key);
    }
  }

  /** After its last operation a transaction's keys hold what the serial run left there. */
  lemma SnapshotStep(s: Sys, t: Tx)
    requires ThreadsOk(s) && OwnersOk(s) && SerialOk(s) && Enabled(s, Act(t, Snapshot))
    ensures SerialOk(Next(s, Act(t, Snapshot)))
  {
    var s' := Next(s, Act(t, Snapshot));
    var th := s.threads[t];
    if th.phase.Executing? {
      assert ExecutingOk(s, t);
      assert th.ops[..|th.ops|] == th.ops;
    }
    forall u | u in s'.threads && s'.threads[u].phase.Executing?
      ensures ExecutingOk(s', u)
    {
      assert ExecutingOk(s, u);
    }
    forall u | u in s'.threads
      ensures OutcomeOk(s', s'.threads[u])
    {
      assert OutcomeOk(s, s.threads[u]);
    }
    forall k | !Busy(s', k)
      ensures Get(s'.store, k) == Get(SerialStore(s'.log), k)
    {
      if Busy(s, k) {
        assert s.locks.owner[k] == t;
        assert k in Owned(th);
      }
    }
  }

  /** Every step keeps the invariant. */
  lemma StepInv(s: Sys, step: Step)
    requires Inv(s) && Enabled(s, step)
    ensures Inv(Next(s, step))
  {
    match step
    case Begin(ops) => BeginInv(s, ops);
    case Act(t, a) =>
      ThreadsStep(s, t, a);
      OwnersStep(s, t, a);
      HeldStep(s, t, a);
      LogStep(s, t, a);
      match a {
        case LockPoint => LockPointStep(s, t);
        case Exec => ExecStep(s, t);
        case Snapshot => SnapshotStep(s, t);
        case _ => QuietStep(s, t, a);
      }
  }

  /** Hence every run keeps it. */
  lemma {:induction false} RunInv(s: Sys, steps: seq<Step>)
    requires Inv(s) && Feasible(s, steps)
    ensures Inv(After(s, steps))
    decreases steps
  {
    if steps != [] {
      StepInv(s, steps[0]);
      RunInv(Next(s, steps[0]), steps[1..]);
    }
  }

  lemma ReachedInv(run: seq<Step>, s: Sys)
    requires Reached(run, s)
    ensures Inv(s)
  {
    InitInv();
    RunInv(INIT, run);
  }
}
