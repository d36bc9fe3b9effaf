/**
 What a transaction does when nobody interferes, whatever order it takes its keys in. Both executors
 of the scheduler perform such runs, so they agree.
 */
module Agreement {
  import opened Types
  import opened Serial
  import opened LockTable
  import opened Engine
  import opened Invariant

  predicate Solo(steps: seq<Step>, t: Tx) {
    forall i :: 0 <= i < |steps| ==> steps[i].Act? && steps[i].tx == t
  }

  predicate Free(s: Sys, keys: set<Key>) {
    forall k :: k in keys ==> k !in s.locks.owner
  }

  /** `m` is `s` plus what `t` owns. */
  ghost predicate OnlyAdds(s: Sys, m: Sys, t: Tx)
    requires t in m.threads
  {
    && (forall k :: k in s.locks.owner ==> k in m.locks.owner && m.locks.owner[k] == s.locks.owner[k])
    && (forall k :: k in m.locks.owner && k !in s.locks.owner ==> m.locks.owner[k] == t && k in Owned(m.threads[t]))
    && m.locks.held - {t} == s.locks.held - {t}
  }

  /** The operations as one transaction performs them. */
  function Events(t: Tx, ops: seq<Op>): seq<Event> {
    seq(|ops|, i requires 0 <= i < |ops| => Event(t, ops[i]))
  }

  /** Since `s`, `t` has passed its lock point and carried out these operations and no others. */
  ghost predicate Performed(s: Sys, m: Sys, t: Tx, ops: seq<Op>, done: seq<Op>) {
    && m.store == RunOps(s.store, done) && m.history == s.history + Events(t, done)
    && m.log == s.log + [Entry(t, ops)]
  }

  ghost predicate Untouched(s: Sys, m: Sys) {
    m.store == s.store && m.history == s.history && m.log == s.log
  }

  ghost predicate OutcomeAlone(s: Sys, m: Sys, t: Tx, ops: seq<Op>, outcome: Outcome) {
    match outcome
    case Committed(at, results) =>
      Free(s, Keys(ops)) && at == |s.log| && results == Reads(s.store, ops) && Performed(s, m, t, ops, ops)
    case Aborted =>
      !Free(s, Keys(ops)) && Untouched(s, m)
  }

  /** What `t` has done since `s`, in which it had just begun. */
  ghost predicate Alone(s: Sys, m: Sys, t: Tx) {
    && t in m.threads
    && OnlyAdds(s, m, t)
    && var th := m.threads[t];
       match th.phase
       case Executing(at, next, results) =>
         && Free(s, Keys(th.ops)) && at == |s.log| && next <= |th.ops|
         && results == Reads(s.store, th.ops[..next]) && Performed(s, m, t, th.ops, th.ops[..next])
       case Releasing(outcome, _, _) => OutcomeAlone(s, m, t, th.ops, outcome)
       case Done(outcome) => OutcomeAlone(s, m, t, th.ops, outcome)
       case _ =>
         && Untouched(s, m) && Free(s, Owned(th))
         && (th.phase.Polling? && th.phase.fails > 0 ==> th.phase.key in s.locks.owner)
  }

  /** Polling alone: a key is refused only because it was taken to begin with. */
  lemma AlonePoll(s: Sys, m: Sys, t: Tx)
    requires ThreadsOk(m) && OwnersOk(m) && Alone(s, m, t) && Enabled(m, Act(t, Poll))
    ensures Alone(s, Next(m, Act(t, Poll)), t)
  {
    var key := m.threads[t].phase.key;
    assert key !in Owned(m.threads[t]);
    if key in m.locks.owner {
      assert m.locks.owner[key] != t;
    }
  }

  lemma AloneExec(s: Sys, m: Sys, t: Tx)
    requires Alone(s, m, t) && Enabled(m, Act(t, Exec))
    ensures Alone(s, Next(m, Act(t, Exec)), t)
  {
    hide RunOps, Reads;
    var ops, next := m.threads[t].ops, m.threads[t].phase.next;
    RunOpsStep(s.store, ops, next);
    assert Events(t, ops[..next + 1]) == Events(t, ops[..next]) + [Event(t, ops[next])];
  }

  /** The snapshot moves what `t` may own from one place to another. */
  lemma AddsSnapshot(s: Sys, m: Sys, t: Tx)
    requires HeldOk(m) && t in m.threads && OnlyAdds(s, m, t) && Enabled(m, Act(t, Snapshot))
    ensures OnlyAdds(s, Next(m, Act(t, Snapshot)), t)
  {
    assert HeldBy(m.locks, t) == Interested(m.threads[t]);
  }

  lemma AloneSnapshot(s: Sys, m: Sys, t: Tx)
    requires ThreadsOk(m) && HeldOk(m) && Alone(s, m, t) && Enabled(m, Act(t, Snapshot))
    ensures Alone(s, Next(m, Act(t, Snapshot)), t)
  {
    AddsSnapshot(s, m, t);
    hide RunOps, Reads, OnlyAdds, HeldOk;
    var th := m.threads[t];
    if th.phase.Executing? {
      assert th.ops[..|th.ops|] == th.ops;
    } else {
      assert th.phase.key in Keys(th.ops) && th.phase.key in s.locks.owner;
    }
  }

  lemma AddsRest(s: Sys, m: Sys, t: Tx, a: Action)
    requires OwnersOk(m) && t in m.threads && OnlyAdds(s, m, t) && Enabled(m, Act(t, a))
    requires !a.Poll? && !a.Exec? && !a.Snapshot?
    requires forall k :: k in s.locks.owner ==> s.locks.owner[k] != t
    ensures OnlyAdds(s, Next(m, Act(t, a)), t)
  {
    assert Next(m, Act(t, a)).locks.held - {t} == m.locks.held - {t};
  }

  lemma AloneRest(s: Sys, m: Sys, t: Tx, a: Action)
    requires OwnersOk(m) && Alone(s, m, t) && Enabled(m, Act(t, a))
    requires !a.Poll? && !a.Exec? && !a.Snapshot?
    requires forall k :: k in s.locks.owner ==> s.locks.owner[k] != t
    ensures Alone(s, Next(m, Act(t, a)), t)
  {
    AddsRest(s, m, t, a);
    hide OwnersOk, OnlyAdds, NextLocks;
    if a.LockPoint? {
      assert m.threads[t].ops[..0] == [] && Events(t, []) == [];
      assert s.history + [] == s.history;
    }
  }

  lemma {:induction false} AloneRun(s: Sys, m: Sys, steps: seq<Step>, t: Tx)
    requires Inv(m) && Feasible(m, steps) && Solo(steps, t) && Alone(s, m, t)
    requires forall k :: k in s.locks.owner ==> s.locks.owner[k] != t
    ensures Inv(After(m, steps)) && Alone(s, After(m, steps), t)
    decreases steps
  {
    hide ThreadsOk, OwnersOk, HeldOk, SerialOk, LogOk, Alone, Next, CanAct;
    if steps != [] {
      var a := steps[0].action;
      assert steps[0] == Act(t, a);
      StepInv(m, steps[0]);
      match a {
        case Poll => AlonePoll(s, m, t);
        case Exec => AloneExec(s, m, t);
        case Snapshot => AloneSnapshot(s, m, t);
        case _ => AloneRest(s, m, t, a);
      }
      AloneRun(s, Next(m, steps[0]), steps[1..], t);
    }
  }

  /** Keys that certainly have been asked for. */
  function Asked(th: Thread): set<Key> {
    match th.phase
    case Acquiring(todo) => Keys(th.ops) - todo
    case Requesting(_, todo) => Keys(th.ops) - todo
    case Polling(_, todo, _) => Keys(th.ops) - todo
    case Executing(_, _, _) => Keys(th.ops)
    case Releasing(outcome, _, _) => if outcome.Committed? then Keys(th.ops) else {}
    case Done(outcome) => if outcome.Committed? then Keys(th.ops) else {}
  }

  /** Since `s`, lock entries were created for keys of `t` only, and for all that were asked for. */
  ghost predicate Entered(s: Sys, m: Sys, t: Tx) {
    && t in m.threads
    && s.locks.entries + Asked(m.threads[t]) <= m.locks.entries <= s.locks.entries + Keys(m.threads[t].ops)
  }

  lemma EnteredStep(s: Sys, m: Sys, t: Tx, a: Action)
    requires ThreadsOk(m) && Entered(s, m, t) && Enabled(m, Act(t, a))
    ensures Entered(s, Next(m, Act(t, a)), t)
  {
    assert PhaseOk(m.threads[t]);
  }

  lemma {:induction false} EnteredRun(s: Sys, m: Sys, steps: seq<Step>, t: Tx)
    requires Inv(m) && Feasible(m, steps) && Solo(steps, t) && Entered(s, m, t)
    ensures Entered(s, After(m, steps), t)
    decreases steps
  {
    hide ThreadsOk, OwnersOk, HeldOk, SerialOk, LogOk, Entered, Next, Enabled;
    if steps != [] {
      StepInv(m, steps[0]);
      assert steps[0] == Act(t, steps[0].action);
      EnteredStep(s, m, t, steps[0].action);
      EnteredRun(s, Next(m, steps[0]), steps[1..], t);
    }
  }

  /** No transaction has begun or moved since `s` but `t`. */
  ghost predicate OnlyMoves(s: Sys, m: Sys, t: Tx) {
    && t in s.threads && t in m.threads && m.threads[t].ops == s.threads[t].ops
    && m.threads == s.threads[t := m.threads[t]] && m.nextTx == s.nextTx
  }

  lemma {:induction false} OnlyMovesRun(s: Sys, m: Sys, steps: seq<Step>, t: Tx)
    requires Feasible(m, steps) && Solo(steps, t) && OnlyMoves(s, m, t)
    ensures OnlyMoves(s, After(m, steps), t)
    decreases steps
  {
    hide NextPhase, NextLocks, CanAct;
    if steps != [] {
      assert steps[0] == Act(t, steps[0].action);
      OnlyMovesRun(s, Next(m, steps[0]), steps[1..], t);
    }
  }

  predicate JustBegun(s: Sys, t: Tx) {
    t in s.threads && s.threads[t].phase == Acquiring(Keys(s.threads[t].ops))
  }

  lemma Unencumbered(s: Sys, t: Tx)
    requires OwnersOk(s) && HeldOk(s) && t in s.threads && (JustBegun(s, t) || s.threads[t].phase.Done?)
    ensures Owned(s.threads[t]) == {}
    ensures forall k :: k in s.locks.owner ==> s.locks.owner[k] != t
    ensures t !in s.locks.held
  {
    assert Owned(s.threads[t]) == {};
    assert HeldBy(s.locks, t) == Interested(s.threads[t]) == {};
  }

  ghost predicate AsIfAlone(s: Sys, m: Sys, t: Tx)
    requires t in s.threads && t in m.threads
  {
    var ops := s.threads[t].ops;
    && m.locks.owner == s.locks.owner && m.locks.held == s.locks.held
    && s.locks.entries <= m.locks.entries <= s.locks.entries + Keys(ops)
    && (Free(s, Keys(ops)) ==> m.locks.entries == s.locks.entries + Keys(ops))
    && m.nextTx == s.nextTx
    && if Free(s, Keys(ops)) then
         && m.threads == s.threads[t := Thread(ops, Done(Committed(|s.log|, Reads(s.store, ops))))]
         && Performed(s, m, t, ops, ops)
       else m.threads == s.threads[t := Thread(ops, Done(Aborted))] && Untouched(s, m)
  }

  lemma SameOwners(a: map<Key, Tx>, b: map<Key, Tx>)
    requires forall k :: k in a <==> k in b
    requires forall k :: k in a && k in b ==> a[k] == b[k]
    ensures a == b
  {
    forall k
      ensures k in a <==> k in b
      ensures k in a && k in b ==> a[k] == b[k]
    {
    }
  }

  lemma AloneEnds(s: Sys, m: Sys, t: Tx)
    requires t in s.threads && Alone(s, m, t) && m.threads[t].phase.Done? && m.threads[t].ops == s.threads[t].ops
    requires t !in s.locks.held && t !in m.locks.held && Entered(s, m, t) && OnlyMoves(s, m, t)
    ensures AsIfAlone(s, m, t)
  {
    assert Owned(m.threads[t]) == {};
    SameOwners(m.locks.owner, s.locks.owner);
    assert m.locks.held == m.locks.held - {t} && s.locks.held == s.locks.held - {t};
  }

  lemma AloneBegins(s: Sys, t: Tx)
    requires JustBegun(s, t) && Owned(s.threads[t]) == {}
    ensures Alone(s, s, t)
  {
  }

  /**
   A transaction that runs from begin to return without interference commits just when none of its
   keys is owned; it reads, does and records its operations on the store it found, once each and in
   order, or nothing; and all else ends as it was, but for lock entries, which stay behind.
   */
  lemma SoloRun(s: Sys, steps: seq<Step>, t: Tx)
    requires Inv(s) && JustBegun(s, t) && Feasible(s, steps) && Solo(steps, t)
    requires t in After(s, steps).threads && After(s, steps).threads[t].phase.Done?
    ensures AsIfAlone(s, After(s, steps), t)
  {
    hide ThreadsOk, OwnersOk, HeldOk, LogOk, SerialOk, Alone, AsIfAlone, Solo, Owned;
    Unencumbered(s, t);
    AloneBegins(s, t);
    assert Entered(s, s, t) && OnlyMoves(s, s, t);
    hide Entered, OnlyMoves;
    AloneRun(s, s, steps, t);
    EnteredRun(s, s, steps, t);
    OnlyMovesRun(s, s, steps, t);
    Unencumbered(After(s, steps), t);
    AloneEnds(s, After(s, steps), t);
  }

  /**
   Two executors that differ in key order only leave the same results, store, owners and interest; and
   the same lock entries, unless the transaction aborts, when they depend on how many keys it got to.
   */
  lemma ExecutorsAgree(s: Sys, p: seq<Step>, q: seq<Step>, t: Tx)
    requires Inv(s) && JustBegun(s, t)
    requires Feasible(s, p) && Solo(p, t) && t in After(s, p).threads && After(s, p).threads[t].phase.Done?
    requires Feasible(s, q) && Solo(q, t) && t in After(s, q).threads && After(s, q).threads[t].phase.Done?
    ensures After(s, p).threads == After(s, q).threads && After(s, p).nextTx == After(s, q).nextTx
    ensures After(s, p).store == After(s, q).store
    ensures After(s, p).log == After(s, q).log && After(s, p).history == After(s, q).history
    ensures After(s, p).locks.owner == After(s, q).locks.owner && After(s, p).locks.held == After(s, q).locks.held
    ensures After(s, p).threads[t].phase.outcome.Committed? ==> After(s, p).locks.entries == After(s, q).locks.entries
  {
    SoloRun(s, p, t);
    SoloRun(s, q, t);
  }
}
