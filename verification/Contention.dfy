/** Why transactions abort, that they can, and two states in which interest and ownership part. */
module Contention {
  import opened Types
  import opened LockTable
  import opened Engine
  import opened Invariant
  import opened Serializability
  import opened LockSafety
  import opened Progress
  import opened CircularWait

  ghost predicate ShareKey(a: seq<Op>, b: seq<Op>) {
    exists k :: k in Keys(a) && k in Keys(b)
  }

  /** Some other transaction uses one of `t`'s keys. */
  ghost predicate Contended(s: Sys, t: Tx)
    requires t in s.threads
  {
    exists u :: u in s.threads && u != t && ShareKey(s.threads[t].ops, s.threads[u].ops)
  }

  /** Failed polls and aborts have a contender. */
  ghost predicate Explained(s: Sys, t: Tx) {
    t in s.threads && (Doomed(s, t) || (s.threads[t].phase.Polling? && s.threads[t].phase.fails > 0)) ==>
      Contended(s, t)
  }

  lemma ContendedKept(s: Sys, step: Step, t: Tx)
    requires ThreadsOk(s) && Enabled(s, step) && t in s.threads && Contended(s, t)
    ensures Contended(Next(s, step), t)
  {
    var u :| u in s.threads && u != t && ShareKey(s.threads[t].ops, s.threads[u].ops);
    var s' := Next(s, step);
    assert s'.threads[t].ops == s.threads[t].ops && s'.threads[u].ops == s.threads[u].ops;
    assert u in s'.threads && ShareKey(s'.threads[t].ops, s'.threads[u].ops);
  }

  lemma OwnersUseTheirKeys(s: Sys, u: Tx, k: Key)
    requires ThreadsOk(s) && OwnersOk(s) && Owns(s.locks, k, u)
    ensures u in s.threads && k in Keys(s.threads[u].ops)
  {
    assert k in Owned(s.threads[u]);
  }

  /** A poll fails only because another transaction owns the key. */
  lemma FailedPollExplained(s: Sys, t: Tx)
    requires ThreadsOk(s) && OwnersOk(s) && Enabled(s, Act(t, Poll))
    requires !PollSucceeds(s.locks, s.threads[t].phase.key, t, s.threads[t].phase.fails)
    ensures Contended(s, t)
  {
    var key := s.threads[t].phase.key;
    var u := s.locks.owner[key];
    OwnersUseTheirKeys(s, u, key);
    assert key !in Owned(s.threads[t]);
    assert ShareKey(s.threads[t].ops, s.threads[u].ops);
  }

  lemma ExplainedStep(s: Sys, step: Step, t: Tx)
    requires ThreadsOk(s) && OwnersOk(s) && Enabled(s, step) && Explained(s, t)
    ensures Explained(Next(s, step), t)
  {
    hide OwnersOk, Contended, NextLocks;
    if t in s.threads {
      if Contended(s, t) {
        ContendedKept(s, step, t);
      } else if step == Act(t, Poll) {
        var p := s.threads[t].phase;
        if !PollSucceeds(s.locks, p.key, t, p.fails) {
          FailedPollExplained(s, t);
        }
      }
    }
  }

  lemma {:induction false} RunExplained(s: Sys, steps: seq<Step>, t: Tx)
    requires Inv(s) && Feasible(s, steps) && Explained(s, t)
    ensures Explained(After(s, steps), t)
    decreases steps
  {
    if steps != [] {
      hide HeldOk, LogOk, SerialOk, Explained;
      StepInv(s, steps[0]);
      ExplainedStep(s, steps[0], t);
      RunExplained(Next(s, steps[0]), steps[1..], t);
    }
  }

  /**
   Aborts have a cause. In any run, a transaction aborts only if another one uses a key of its own;
   one that shares no key with anybody is bound to commit, whatever the others do.
   */
  lemma AbortHasCause(steps: seq<Step>, t: Tx)
    requires Feasible(INIT, steps) && t in After(INIT, steps).threads
    ensures var s := After(INIT, steps);
            && (IsAborted(s, t) ==> Contended(s, t))
            && (Quiescent(s) && !Contended(s, t) ==> IsCommitted(s, t))
  {
    hide Inv, Contended;
    InitInv();
    RunExplained(INIT, steps, t);
  }

  // ----- aborts do happen

  /** Polling for a key that somebody else keeps, any number of times within the limit. */
  lemma PollInVain(steps: seq<Step>, s: Sys, t: Tx, u: Tx, k: Key, todo: set<Key>, polls: nat)
    returns (steps': seq<Step>, s': Sys)
    requires Reached(steps, s) && t in s.threads && s.threads[t].phase == Polling(k, todo, 0)
    requires u != t && Owns(s.locks, k, u) && polls <= MAX_POLLS
    ensures Reached(steps', s') && s'.locks == s.locks
    ensures s'.threads == s.threads[t := Thread(s.threads[t].ops, Polling(k, todo, polls))]
  {
    hide Reached;
    steps', s' := steps, s;
    for n := 0 to polls
      invariant Reached(steps', s') && s'.locks == s.locks
      invariant s'.threads == s.threads[t := Thread(s.threads[t].ops, Polling(k, todo, n))]
    {
      steps', s' := Take(steps', s', Act(t, Poll));
    }
  }

  /** Two transactions, the older with id 1. */
  predicate Two(s: Sys, a: seq<Op>, b: seq<Op>) {
    s.threads.Keys == {1, 2} && s.threads[1].ops == a && s.threads[2].ops == b
  }

  /** `t` polls for a key of `u` and has been refused it a number of times. */
  predicate Refused(s: Sys, t: Tx, u: Tx, polls: nat) {
    && t in s.threads && s.threads[t].phase.Polling? && s.threads[t].phase.fails == polls
    && u != t && Owns(s.locks, s.threads[t].phase.key, u)
  }

  /** Either of two transactions can be made to poll in vain for a key both use. */
  lemma Block(a: seq<Op>, b: seq<Op>, t: Tx, k: Key, polls: nat) returns (steps: seq<Step>, s: Sys)
    requires 1 <= t <= 2 && k in Keys(a) && k in Keys(b) && polls <= MAX_POLLS
    ensures Reached(steps, s) && Two(s, a, b) && Refused(s, t, 3 - t, polls)
  {
    hide Keys, Reached;
    steps, s := BeginAll([a, b]);
    assert Begun(s, [a, b], 0) && Begun(s, [a, b], 1);
    assert forall t :: t in s.threads <==> 1 <= t < 3 by { ReachedInv(steps, s); }
    assert s.threads.Keys == {1, 2};
    steps, s := LockOne(steps, s, 3 - t, k, Keys(if t == 1 then b else a));
    var todo := Keys(if t == 1 then a else b);
    steps, s := AskFor(steps, s, t, k, todo);
    steps, s := PollInVain(steps, s, t, 3 - t, k, todo - {k}, polls);
  }

  ghost predicate CanWait(a: seq<Op>, b: seq<Op>, t: Tx, u: Tx, polls: nat) {
    exists steps :: Feasible(INIT, steps) && Two(After(INIT, steps), a, b) && Refused(After(INIT, steps), t, u, polls)
  }

  lemma RefusedShareKey(s: Sys, a: seq<Op>, b: seq<Op>, t: Tx, u: Tx, polls: nat)
    requires ThreadsOk(s) && OwnersOk(s) && Two(s, a, b) && {t, u} == {1, 2} && Refused(s, t, u, polls)
    ensures ShareKey(a, b)
  {
    assert PhaseOk(s.threads[t]);
    OwnersUseTheirKeys(s, u, s.threads[t].phase.key);
  }

  /**
   Age plays no part: each of two transactions, the older (`t == 1`) as well as the younger (`t == 2`),
   can be refused a key of the other up to the limit and go on polling, if and only if they share a key.
   */
  lemma NoWaitDie(a: seq<Op>, b: seq<Op>, t: Tx, polls: nat)
    requires 1 <= t <= 2 && polls <= MAX_POLLS
    ensures CanWait(a, b, t, 3 - t, polls) <==> ShareKey(a, b)
  {
    hide Two, Refused, ThreadsOk, OwnersOk, HeldOk, LogOk, SerialOk;
    if ShareKey(a, b) {
      var k :| k in Keys(a) && k in Keys(b);
      var steps, s := Block(a, b, t, k, polls);
      assert Refused(After(INIT, steps), t, 3 - t, polls);
    }
    if CanWait(a, b, t, 3 - t, polls) {
      var steps :|
        Feasible(INIT, steps) && Two(After(INIT, steps), a, b) && Refused(After(INIT, steps), t, 3 - t, polls);
      ReachedInv(steps, After(INIT, steps));
      RefusedShareKey(After(INIT, steps), a, b, t, 3 - t, polls);
    }
  }

  lemma {:induction false} ActsStartNothing(s: Sys, steps: seq<Step>)
    requires Feasible(s, steps) && forall i :: 0 <= i < |steps| ==> steps[i].Act?
    ensures After(s, steps).threads.Keys == s.threads.Keys
    ensures forall t :: t in s.threads ==> After(s, steps).threads[t].ops == s.threads[t].ops
    decreases steps
  {
    if steps != [] {
      var s' := Next(s, steps[0]);
      assert s'.threads.Keys == s.threads.Keys;
      ActsStartNothing(s', steps[1..]);
    }
  }

  /** The first of two transactions is refused the key the second holds, and gives up. */
  lemma GiveUp(a: seq<Op>, b: seq<Op>, k: Key) returns (steps: seq<Step>, s: Sys)
    requires k in Keys(a) && k in Keys(b)
    ensures Reached(steps, s) && Two(s, a, b) && Doomed(s, 1)
  {
    hide Keys;
    steps, s := Block(a, b, 1, k, MAX_POLLS);
    steps, s := Take(steps, s, Act(1, Snapshot));
  }

  /** A run in which two transactions carry `a` and `b`, and the first aborts. */
  ghost predicate AbortsIn(s: Sys, a: seq<Op>, b: seq<Op>) {
    Two(s, a, b) && IsAborted(s, 1)
  }

  lemma AbortForms(a: seq<Op>, b: seq<Op>, k: Key) returns (steps: seq<Step>)
    requires k in Keys(a) && k in Keys(b)
    ensures Feasible(INIT, steps) && Quiescent(After(INIT, steps)) && AbortsIn(After(INIT, steps), a, b)
  {
    hide Inv;
    var first, s := GiveUp(a, b, k);
    ReachedInv(first, s);
    var rest := CanFinish(s);
    Concat(INIT, first, rest);
    DoomKept(s, rest, 1);
    ActsStartNothing(s, rest);
    steps := first + rest;
  }

  ghost predicate CanAbort(a: seq<Op>, b: seq<Op>) {
    exists steps :: Feasible(INIT, steps) && AbortsIn(After(INIT, steps), a, b)
  }

  /** Of two transactions one can make the other abort if and only if they share a key. */
  lemma AbortPossibleIff(a: seq<Op>, b: seq<Op>)
    ensures CanAbort(a, b) <==> ShareKey(a, b)
  {
    if ShareKey(a, b) {
      var k :| k in Keys(a) && k in Keys(b);
      var steps := AbortForms(a, b, k);
    }
    if CanAbort(a, b) {
      var steps :| Feasible(INIT, steps) && AbortsIn(After(INIT, steps), a, b);
      AbortHasCause(steps, 1);
    }
  }

  // ----- interest is not ownership

  /** `holds_lock` can be true of a key that somebody else owns. */
  lemma InterestIsNotOwnership(k: Key) returns (steps: seq<Step>)
    ensures Feasible(INIT, steps)
    ensures var s := After(INIT, steps);
            1 in s.threads && k in HeldBy(s.locks, 1) && !Owns(s.locks, k, 1) && Owns(s.locks, k, 2)
  {
    var ops := [Read(k), Read(k + 1)];
    KeysOfIndex(ops, 0);
    KeysOfIndex(ops, 1);
    steps := CircularWaitForms(ops, ops, k + 1, k);
    HoldsLockMeaning(steps, 1, k);
  }

  /** And false of a key still owned: after the `release_all` snapshot, before the release. */
  lemma OwnershipOutlivesInterest(k: Key) returns (steps: seq<Step>)
    ensures Feasible(INIT, steps)
    ensures var s := After(INIT, steps);
            1 in s.threads && k !in HeldBy(s.locks, 1) && Owns(s.locks, k, 1)
  {
    var ops := [Read(k)];
    KeysOfIndex(ops, 0);
    var s;
    steps, s := BeginAll([ops]);
    assert Begun(s, [ops], 0);
    steps, s := LockOne(steps, s, 1, k, Keys(ops));
    assert Keys(ops) - {k} == {};
    steps, s := Take(steps, s, Act(1, LockPoint));
    steps, s := Take(steps, s, Act(1, Exec));
    steps, s := Take(steps, s, Act(1, Snapshot));
    HoldsLockMeaning(steps, 1, k);
  }
}
