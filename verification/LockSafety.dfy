/** What the lock table and the interest sets mean while transactions run, and what is left at the end. */
module LockSafety {
  import opened Types
  import opened LockTable
  import opened Engine
  import opened Invariant

  function OwnedBy(ls: LockState, t: Tx): set<Key> {
    set k | k in ls.owner && ls.owner[k] == t
  }

  /**
   In every reachable state an owner is a transaction still in flight that can find the key again:
   in `held_locks`, or in the unprocessed part of its `release_all` snapshot. When the locking phase
   ends, the recorded, the owned and the required keys are the same set.
   */
  lemma OwnershipTracked(steps: seq<Step>)
    requires Feasible(INIT, steps)
    ensures var s := After(INIT, steps);
            && (forall k :: k in s.locks.owner ==>
                              var t := s.locks.owner[k];
                              && t in s.threads && !s.threads[t].phase.Done?
                              && (|| k in HeldBy(s.locks, t)
                                  || (s.threads[t].phase.Releasing? && k in s.threads[t].phase.left)))
            && (forall t :: t in s.threads && CanAct(s.threads[t], LockPoint) ==>
                              HeldBy(s.locks, t) == OwnedBy(s.locks, t) == Keys(s.threads[t].ops))
  {
    hide LogOk, SerialOk, PhaseOk;
    var s := After(INIT, steps);
    ReachedInv(steps, s);
    forall k | k in s.locks.owner
      ensures var t := s.locks.owner[k];
              && t in s.threads && !s.threads[t].phase.Done?
              && (k in HeldBy(s.locks, t) || (s.threads[t].phase.Releasing? && k in s.threads[t].phase.left))
    {
      var t := s.locks.owner[k];
      assert k in Owned(s.threads[t]);
      assert HeldBy(s.locks, t) == Interested(s.threads[t]);
    }
    forall t | t in s.threads && CanAct(s.threads[t], LockPoint)
      ensures HeldBy(s.locks, t) == OwnedBy(s.locks, t) == Keys(s.threads[t].ops)
    {
      forall k ensures k in OwnedBy(s.locks, t) <==> k in Keys(s.threads[t].ops) {
        if k in Keys(s.threads[t].ops) {
          Exclusive(s, t, t, k);
        }
      }
    }
  }

  /** Ownership is settled by where the transaction is: it owns exactly the keys listed for that phase. */
  lemma OwnershipExact(steps: seq<Step>, t: Tx, k: Key)
    requires Feasible(INIT, steps) && t in After(INIT, steps).threads
    ensures var s := After(INIT, steps);
            Owns(s.locks, k, t) <==> k in Owned(s.threads[t])
  {
    hide HeldOk, LogOk, SerialOk, ThreadsOk;
    ReachedInv(steps, After(INIT, steps));
  }

  /**
   Which way out `release` takes. The entry always exists. The caller is not the owner exactly for the
   key it was refused, and then nothing changes; so a committed transaction frees every key of its
   snapshot, and an aborted one every key but the one it gave up on.
   */
  lemma ReleaseExact(steps: seq<Step>, t: Tx, k: Key)
    requires Feasible(INIT, steps) && Enabled(After(INIT, steps), Act(t, Release(k)))
    ensures var s := After(INIT, steps);
            var p := s.threads[t].phase;
            var locks' := Next(s, Act(t, Release(k))).locks;
            && k in s.locks.entries
            && (Owns(s.locks, k, t) <==> p.refused != Some(k))
            && (p.outcome.Committed? ==> p.refused == None)
            && (p.refused == Some(k) ==> locks' == s.locks)
            && (p.refused != Some(k) ==> k !in locks'.owner)
  {
    hide HeldOk, LogOk, SerialOk;
    ReachedInv(steps, After(INIT, steps));
    OwnershipExact(steps, t, k);
  }

  /**
   What `holds_lock` tells: until the snapshot is taken it is ownership or the one key being polled
   for; from the snapshot on it is false, whatever is still owned.
   */
  lemma HoldsLockMeaning(steps: seq<Step>, t: Tx, k: Key)
    requires Feasible(INIT, steps) && t in After(INIT, steps).threads
    ensures var s := After(INIT, steps);
            var p := s.threads[t].phase;
            k in HeldBy(s.locks, t) <==>
              !p.Releasing? && (Owns(s.locks, k, t) || (p.Polling? && p.key == k))
  {
    var s := After(INIT, steps);
    ReachedInv(steps, s);
    assert HeldBy(s.locks, t) == Interested(s.threads[t]);
    if k in Owned(s.threads[t]) {
      Exclusive(s, t, t, k);
    }
  }

  /**
   So `holds_lock` answers as ownership would, except on the key being polled for and, from the
   snapshot on, on every key yet to be released but the refused one.
   */
  lemma HoldsLockIsOwnershipIff(steps: seq<Step>, t: Tx, k: Key)
    requires Feasible(INIT, steps) && t in After(INIT, steps).threads
    ensures var s := After(INIT, steps);
            var p := s.threads[t].phase;
            (k in HeldBy(s.locks, t) <==> Owns(s.locks, k, t)) <==>
              !(p.Polling? && p.key == k) && !(p.Releasing? && k in p.left && p.refused != Some(k))
  {
    hide Inv;
    HoldsLockMeaning(steps, t, k);
    OwnershipExact(steps, t, k);
  }

  /**
   `acquire` is exact. While a transaction polls for a key it never owns it, so neither loop can
   meet its own id; the poll succeeds just when the key is free, and then the caller owns it; when
   the polls are exhausted it does not.
   */
  lemma AcquireExact(steps: seq<Step>, t: Tx)
    requires Feasible(INIT, steps)
    requires t in After(INIT, steps).threads && After(INIT, steps).threads[t].phase.Polling?
    ensures var s := After(INIT, steps);
            var p := s.threads[t].phase;
            && !Owns(s.locks, p.key, t)
            && p.key in s.locks.entries
            && (p.fails < MAX_POLLS ==>
                  var s' := Next(s, Act(t, Poll));
                  && (s'.threads[t].phase == Acquiring(p.todo) <==> p.key !in s.locks.owner)
                  && (Owns(s'.locks, p.key, t) <==> p.key !in s.locks.owner))
  {
    var s := After(INIT, steps);
    ReachedInv(steps, s);
    assert s.threads[t].phase.key !in Owned(s.threads[t]);
  }

  /** A step of one transaction changes no other transaction's ownership or interest. */
  lemma OthersUntouched(s: Sys, t: Tx, a: Action, u: Tx)
    requires Enabled(s, Act(t, a)) && u != t
    ensures OwnedBy(Next(s, Act(t, a)).locks, u) == OwnedBy(s.locks, u)
    ensures HeldBy(Next(s, Act(t, a)).locks, u) == HeldBy(s.locks, u)
  {
  }

  lemma OwnedStep(s: Sys, step: Step, t: Tx, k: Key)
    requires Enabled(s, step) && Owns(s.locks, k, t) && step != Act(t, Release(k))
    ensures Owns(Next(s, step).locks, k, t)
  {
  }

  /** Once owned, a key stays owned through any interference, until its owner releases it. */
  lemma {:induction false} OwnedUntilReleased(s: Sys, steps: seq<Step>, t: Tx, k: Key)
    requires Feasible(s, steps) && Owns(s.locks, k, t)
    requires Act(t, Release(k)) !in steps
    ensures Owns(After(s, steps).locks, k, t)
    decreases steps
  {
    if steps != [] {
      assert steps[0] in steps;
      OwnedStep(s, steps[0], t, k);
      OwnedUntilReleased(Next(s, steps[0]), steps[1..], t, k);
    }
  }

  /**
   No lock leaks. A transaction that returned, committed or aborted, owns nothing and is not
   tracked; when all have returned, no key is owned and `held_locks` is empty.
   */
  lemma NoLeaks(steps: seq<Step>)
    requires Feasible(INIT, steps)
    ensures var s := After(INIT, steps);
            && (forall t :: t in s.threads && s.threads[t].phase.Done? ==>
                              OwnedBy(s.locks, t) == {} && t !in s.locks.held)
            && (Quiescent(s) ==> s.locks.owner == map[] && s.locks.held == map[])
  {
    var s := After(INIT, steps);
    ReachedInv(steps, s);
    forall t | t in s.threads && s.threads[t].phase.Done?
      ensures OwnedBy(s.locks, t) == {} && t !in s.locks.held
    {
      assert HeldBy(s.locks, t) == Interested(s.threads[t]);
      assert Owned(s.threads[t]) == {};
      assert forall k :: k in s.locks.owner ==> s.locks.owner[k] != t;
    }
    if Quiescent(s) {
      assert forall k :: k !in s.locks.owner;
      assert forall t :: t !in s.locks.held;
    }
  }
}
