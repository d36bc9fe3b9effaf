/**
 Circular waits do form, among any number of transactions, exactly when their key sets allow it; and
 once one has formed, only an abort ends it.
 */
module CircularWait {
  import opened Types
  import opened LockTable
  import opened Engine
  import opened Invariant
  import opened Serializability
  import opened Progress

  /** `t` owns `j` and polls for `k`. */
  predicate HoldsAndWants(s: Sys, t: Tx, j: Key, k: Key) {
    t in s.threads && s.threads[t].phase.Polling? && s.threads[t].phase.key == k && Owns(s.locks, j, t)
  }

  /** The key the `i`-th member of a ring wants: the one its successor holds. */
  function Wanted(ks: seq<Key>, i: nat): Key
    requires i < |ks|
  {
    if i + 1 < |ks| then ks[i + 1] else ks[0]
  }

  /** Every member holds its own key and polls for its successor's. */
  ghost predicate WaitRing(s: Sys, ts: seq<Tx>, ks: seq<Key>) {
    && |ts| == |ks| >= 1
    && (forall i, j :: 0 <= i < j < |ts| ==> ts[i] != ts[j])
    && (forall i :: 0 <= i < |ts| ==> HoldsAndWants(s, ts[i], ks[i], Wanted(ks, i)))
  }

  /** Transactions whose key sets admit a ring over the given keys; a caller can see it beforehand. */
  ghost predicate RingShape(progs: seq<seq<Op>>, ks: seq<Key>) {
    && |progs| == |ks| >= 2
    && (forall i, j :: 0 <= i < j < |ks| ==> ks[i] != ks[j])
    && (forall i :: 0 <= i < |ks| ==> ks[i] in Keys(progs[i]) && Wanted(ks, i) in Keys(progs[i]))
  }

  function Programs(s: Sys, ts: seq<Tx>): seq<seq<Op>>
    requires forall i :: 0 <= i < |ts| ==> ts[i] in s.threads
  {
    seq(|ts|, i requires 0 <= i < |ts| => s.threads[ts[i]].ops)
  }

  lemma HoldsAndWantsKeys(s: Sys, t: Tx, j: Key, k: Key)
    requires ThreadsOk(s) && OwnersOk(s) && HoldsAndWants(s, t, j, k)
    ensures j != k && j in Keys(s.threads[t].ops) && k in Keys(s.threads[t].ops)
  {
    assert j in Owned(s.threads[t]);
  }

  /** A ring of waiting transactions has at least two members and distinct keys, which the members' key sets contain. */
  lemma RingNeedsShape(steps: seq<Step>, ts: seq<Tx>, ks: seq<Key>)
    requires Feasible(INIT, steps) && WaitRing(After(INIT, steps), ts, ks)
    ensures RingShape(Programs(After(INIT, steps), ts), ks)
  {
    hide HeldOk, LogOk, SerialOk;
    var s := After(INIT, steps);
    InitInv();
    RunInv(INIT, steps);
    forall i | 0 <= i < |ks|
      ensures ks[i] != Wanted(ks, i)
      ensures ks[i] in Keys(s.threads[ts[i]].ops) && Wanted(ks, i) in Keys(s.threads[ts[i]].ops)
    {
      HoldsAndWantsKeys(s, ts[i], ks[i], Wanted(ks, i));
    }
    assert ks[0] != Wanted(ks, 0);
    forall i, j | 0 <= i < j < |ks|
      ensures ks[i] != ks[j]
    {
      assert HoldsAndWants(s, ts[i], ks[i], Wanted(ks, i)) && HoldsAndWants(s, ts[j], ks[j], Wanted(ks, j));
    }
  }

  // ----- building runs

  lemma Take(steps: seq<Step>, s: Sys, step: Step) returns (steps': seq<Step>, s': Sys)
    requires Reached(steps, s) && Enabled(s, step)
    ensures steps' == steps + [step] && s' == Next(s, step) && Reached(steps', s')
  {
    Extended(steps, s, step);
    steps', s' := steps + [step], Next(s, step);
  }

  predicate Begun(s: Sys, progs: seq<seq<Op>>, i: nat)
    requires i < |progs|
  {
    i + 1 in s.threads && s.threads[i + 1] == Thread(progs[i], Acquiring(Keys(progs[i])))
  }

  /** Starts one transaction after another. */
  lemma BeginAll(progs: seq<seq<Op>>) returns (steps: seq<Step>, s: Sys)
    ensures Reached(steps, s) && s.locks.owner == map[] && s.nextTx == |progs| + 1
    ensures forall i :: 0 <= i < |progs| ==> Begun(s, progs, i)
  {
    steps, s := [], INIT;
    for n := 0 to |progs|
      invariant Reached(steps, s) && s.locks.owner == map[] && s.nextTx == n + 1
      invariant forall i :: 0 <= i < n ==> Begun(s, progs, i)
    {
      var before := s;
      steps, s := Take(steps, s, Begin(progs[n]));
      forall i | 0 <= i < n
        ensures Begun(s, progs, i)
      {
        assert Begun(before, progs, i);
      }
    }
  }

  /** A free key is had in three steps. */
  lemma LockOne(steps: seq<Step>, s: Sys, t: Tx, k: Key, todo: set<Key>) returns (steps': seq<Step>, s': Sys)
    requires Reached(steps, s) && t in s.threads && s.threads[t].phase == Acquiring(todo) && k in todo
    requires k !in s.locks.owner
    ensures Reached(steps', s') && s'.nextTx == s.nextTx
    ensures s'.locks.owner == s.locks.owner[k := t]
    ensures s'.threads == s.threads[t := Thread(s.threads[t].ops, Acquiring(todo - {k}))]
  {
    steps', s' := Take(steps, s, Act(t, Request(k)));
    steps', s' := Take(steps', s', Act(t, Interest));
    steps', s' := Take(steps', s', Act(t, Poll));
  }

  /** Asks for one more key, up to the first poll. */
  lemma AskFor(steps: seq<Step>, s: Sys, t: Tx, k: Key, todo: set<Key>) returns (steps': seq<Step>, s': Sys)
    requires Reached(steps, s) && t in s.threads && s.threads[t].phase == Acquiring(todo) && k in todo
    ensures Reached(steps', s') && s'.nextTx == s.nextTx && s'.locks.owner == s.locks.owner
    ensures s'.threads == s.threads[t := Thread(s.threads[t].ops, Polling(k, todo - {k}, 0))]
  {
    steps', s' := Take(steps, s, Act(t, Request(k)));
    steps', s' := Take(steps', s', Act(t, Interest));
  }

  predicate HasOwnKey(s: Sys, progs: seq<seq<Op>>, ks: seq<Key>, i: nat)
    requires i < |progs| == |ks|
  {
    && i + 1 in s.threads && s.threads[i + 1] == Thread(progs[i], Acquiring(Keys(progs[i]) - {ks[i]}))
    && Owns(s.locks, ks[i], i + 1)
  }

  /** Each transaction takes its own key first. */
  lemma LockEach(progs: seq<seq<Op>>, ks: seq<Key>) returns (steps: seq<Step>, s: Sys)
    requires RingShape(progs, ks)
    ensures Reached(steps, s) && s.nextTx == |progs| + 1
    ensures forall i :: 0 <= i < |ks| ==> HasOwnKey(s, progs, ks, i)
  {
    hide Reached, Keys, Wanted;
    steps, s := BeginAll(progs);
    for n := 0 to |ks|
      invariant Reached(steps, s) && s.nextTx == |progs| + 1
      invariant forall k :: k in s.locks.owner ==> k in ks[..n]
      invariant forall i :: 0 <= i < n ==> HasOwnKey(s, progs, ks, i)
      invariant forall i :: n <= i < |ks| ==> Begun(s, progs, i)
    {
      assert Begun(s, progs, n) && ks[n] in Keys(progs[n]);
      var before := s;
      steps, s := LockOne(steps, s, n + 1, ks[n], Keys(progs[n]));
      assert ks[..n + 1] == ks[..n] + [ks[n]];
      forall i | 0 <= i < n
        ensures HasOwnKey(s, progs, ks, i)
      {
        assert HasOwnKey(before, progs, ks, i) && ks[i] != ks[n];
      }
      forall i | n < i < |ks|
        ensures Begun(s, progs, i)
      {
        assert Begun(before, progs, i);
      }
    }
  }

  predicate Waits(s: Sys, progs: seq<seq<Op>>, ks: seq<Key>, i: nat)
    requires i < |progs| == |ks|
  {
    HoldsAndWants(s, i + 1, ks[i], Wanted(ks, i)) && s.threads[i + 1].ops == progs[i]
  }

  function FirstIds(n: nat): seq<Tx> {
    seq(n, i requires 0 <= i < n => i + 1)
  }

  /** One more member asks; the others are as they were. */
  lemma AskNext(steps: seq<Step>, s: Sys, progs: seq<seq<Op>>, ks: seq<Key>, n: nat)
    returns (steps': seq<Step>, s': Sys)
    requires RingShape(progs, ks) && n < |ks|
    requires Reached(steps, s) && HasOwnKey(s, progs, ks, n)
    ensures Reached(steps', s') && s'.nextTx == s.nextTx && s'.locks.owner == s.locks.owner
    ensures Waits(s', progs, ks, n) && s'.threads == s.threads[n + 1 := s'.threads[n + 1]]
  {
    hide Reached, Keys;
    assert Wanted(ks, n) in Keys(progs[n]) && Wanted(ks, n) != ks[n];
    steps', s' := AskFor(steps, s, n + 1, Wanted(ks, n), Keys(progs[n]) - {ks[n]});
  }

  /** Then each asks for its successor's. */
  lemma AskEach(progs: seq<seq<Op>>, ks: seq<Key>) returns (steps: seq<Step>, s: Sys)
    requires RingShape(progs, ks)
    ensures Reached(steps, s) && s.nextTx == |progs| + 1
    ensures forall i :: 0 <= i < |ks| ==> Waits(s, progs, ks, i)
  {
    hide Reached, Keys, Wanted;
    steps, s := LockEach(progs, ks);
    for n := 0 to |ks|
      invariant Reached(steps, s) && s.nextTx == |progs| + 1
      invariant forall i :: 0 <= i < n ==> Waits(s, progs, ks, i)
      invariant forall i :: n <= i < |ks| ==> HasOwnKey(s, progs, ks, i)
    {
      var before := s;
      steps, s := AskNext(steps, s, progs, ks, n);
      forall i | 0 <= i < n
        ensures Waits(s, progs, ks, i)
      {
        assert Waits(before, progs, ks, i);
      }
      forall i | n < i < |ks|
        ensures HasOwnKey(s, progs, ks, i)
      {
        assert HasOwnKey(before, progs, ks, i);
      }
    }
  }

  /** And whenever key sets have that shape, a run closes the ring. */
  lemma RingForms(progs: seq<seq<Op>>, ks: seq<Key>) returns (steps: seq<Step>)
    requires RingShape(progs, ks)
    ensures Feasible(INIT, steps)
    ensures var s := After(INIT, steps);
            && s.nextTx == |progs| + 1
            && WaitRing(s, FirstIds(|ks|), ks)
            && forall i :: 0 <= i < |ks| ==> Waits(s, progs, ks, i)
  {
    var s;
    steps, s := AskEach(progs, ks);
    forall i | 0 <= i < |ks|
      ensures HoldsAndWants(s, FirstIds(|ks|)[i], ks[i], Wanted(ks, i))
    {
      assert Waits(s, progs, ks, i);
    }
  }

  // ----- two transactions

  predicate WaitForEachOther(s: Sys, t: Tx, u: Tx, j: Key, k: Key) {
    t != u && HoldsAndWants(s, t, j, k) && HoldsAndWants(s, u, k, j)
  }

  lemma PairIsRing(s: Sys, t: Tx, u: Tx, j: Key, k: Key)
    ensures WaitForEachOther(s, t, u, j, k) <==> WaitRing(s, [t, u], [j, k])
  {
    if WaitRing(s, [t, u], [j, k]) {
      assert HoldsAndWants(s, [t, u][0], [j, k][0], Wanted([j, k], 0));
      assert HoldsAndWants(s, [t, u][1], [j, k][1], Wanted([j, k], 1));
      assert [t, u][0] != [t, u][1];
    }
  }

  /** Two transactions wait for each other only over two distinct keys that both of them use. */
  lemma PairNeedsSharedKeys(steps: seq<Step>, t: Tx, u: Tx, j: Key, k: Key)
    requires Feasible(INIT, steps) && WaitForEachOther(After(INIT, steps), t, u, j, k)
    ensures var s := After(INIT, steps);
            j != k && {j, k} <= Keys(s.threads[t].ops) * Keys(s.threads[u].ops)
  {
    hide HeldOk, LogOk, SerialOk;
    InitInv();
    RunInv(INIT, steps);
    HoldsAndWantsKeys(After(INIT, steps), t, j, k);
    HoldsAndWantsKeys(After(INIT, steps), u, k, j);
  }

  /** And over any two such keys they can. */
  lemma CircularWaitForms(a: seq<Op>, b: seq<Op>, j: Key, k: Key) returns (steps: seq<Step>)
    requires j != k && {j, k} <= Keys(a) * Keys(b)
    ensures Feasible(INIT, steps)
    ensures var s := After(INIT, steps);
            && s.threads.Keys == {1, 2} && s.threads[1].ops == a && s.threads[2].ops == b
            && WaitForEachOther(s, 1, 2, j, k)
  {
    assert j in Keys(a) && k in Keys(a) && j in Keys(b) && k in Keys(b);
    steps := RingForms([a, b], [j, k]);
    var s := After(INIT, steps);
    assert Waits(s, [a, b], [j, k], 0) && Waits(s, [a, b], [j, k], 1);
    assert FirstIds(2) == [1, 2];
    assert forall t :: t in s.threads <==> 1 <= t < 3 by { ReachedInv(steps, s); }
    PairIsRing(s, 1, 2, j, k);
  }

  ghost predicate PairWaits(s: Sys, a: seq<Op>, b: seq<Op>) {
    exists t, u, j, k :: WaitForEachOther(s, t, u, j, k) && s.threads[t].ops == a && s.threads[u].ops == b
  }

  ghost predicate CanWaitForEachOther(a: seq<Op>, b: seq<Op>) {
    exists steps :: Feasible(INIT, steps) && PairWaits(After(INIT, steps), a, b)
  }

  lemma TwoOf(keys: set<Key>) returns (j: Key, k: Key)
    requires |keys| >= 2
    ensures j != k && {j, k} <= keys
  {
    EmptyOrNot(keys);
    j :| j in keys;
    assert |keys - {j}| == |keys| - 1;
    EmptyOrNot(keys - {j});
    k :| k in keys - {j};
  }

  /** Two transactions can come to wait for each other if and only if they share at least two keys. */
  lemma CircularWaitIff(a: seq<Op>, b: seq<Op>)
    ensures CanWaitForEachOther(a, b) <==> |Keys(a) * Keys(b)| >= 2
  {
    if |Keys(a) * Keys(b)| >= 2 {
      var j, k := TwoOf(Keys(a) * Keys(b));
      var steps := CircularWaitForms(a, b, j, k);
      assert PairWaits(After(INIT, steps), a, b);
    }
    if CanWaitForEachOther(a, b) {
      var steps :| Feasible(INIT, steps) && PairWaits(After(INIT, steps), a, b);
      var s := After(INIT, steps);
      var t, u, j, k :| WaitForEachOther(s, t, u, j, k) && s.threads[t].ops == a && s.threads[u].ops == b;
      PairNeedsSharedKeys(steps, t, u, j, k);
      SubsetSize({j, k}, Keys(a) * Keys(b));
    }
  }

  /** The smallest case: two transactions that read keys 1 and 2. */
  lemma TwoReadersWait() returns (steps: seq<Step>)
    ensures Feasible(INIT, steps) && WaitForEachOther(After(INIT, steps), 1, 2, 1, 2)
  {
    var ops := [Read(1), Read(2)];
    KeysOfIndex(ops, 0);
    KeysOfIndex(ops, 1);
    steps := CircularWaitForms(ops, ops, 1, 2);
  }

  // ----- how a ring ends

  lemma WaitKept(s: Sys, step: Step, t: Tx, u: Tx, j: Key, k: Key)
    requires ThreadsOk(s) && Enabled(s, step) && HoldsAndWants(s, t, j, k) && u != t && Owns(s.locks, k, u)
    requires step != Act(t, Snapshot)
    ensures HoldsAndWants(Next(s, step), t, j, k)
  {
  }

  predicate Takes(step: Step, ts: seq<Tx>) {
    step.Act? && step.action.Snapshot? && step.tx in ts
  }

  lemma RingKept(s: Sys, step: Step, ts: seq<Tx>, ks: seq<Key>)
    requires ThreadsOk(s) && OwnersOk(s) && Enabled(s, step) && WaitRing(s, ts, ks) && !Takes(step, ts)
    ensures WaitRing(Next(s, step), ts, ks)
  {
    hide OwnersOk;
    forall i | 0 <= i < |ts|
      ensures HoldsAndWants(Next(s, step), ts[i], ks[i], Wanted(ks, i))
    {
      var next := if i + 1 < |ts| then i + 1 else 0;
      HoldsAndWantsKeys(s, ts[i], ks[i], Wanted(ks, i));
      assert HoldsAndWants(s, ts[next], ks[next], Wanted(ks, next));
      WaitKept(s, step, ts[i], ts[next], ks[i], ks[next]);
    }
  }

  /** Whatever happens, a ring stays closed until one of its members gives up. */
  lemma {:induction false} OnlyAbortBreaksIt(s: Sys, steps: seq<Step>, ts: seq<Tx>, ks: seq<Key>)
    requires Inv(s) && Feasible(s, steps) && WaitRing(s, ts, ks)
    requires forall i :: 0 <= i < |steps| ==> !Takes(steps[i], ts)
    ensures WaitRing(After(s, steps), ts, ks)
    decreases steps
  {
    if steps != [] {
      hide HeldOk, LogOk, SerialOk;
      StepInv(s, steps[0]);
      RingKept(s, steps[0], ts, ks);
      OnlyAbortBreaksIt(Next(s, steps[0]), steps[1..], ts, ks);
    }
  }

  /** The transaction has given up, whether or not it has released everything. */
  predicate Doomed(s: Sys, t: Tx) {
    t in s.threads && (s.threads[t].phase.Releasing? || s.threads[t].phase.Done?) && s.threads[t].phase.outcome.Aborted?
  }

  lemma {:induction false} DoomKept(s: Sys, steps: seq<Step>, t: Tx)
    requires Inv(s) && Feasible(s, steps) && Doomed(s, t)
    ensures Doomed(After(s, steps), t)
    decreases steps
  {
    if steps != [] {
      hide OwnersOk, HeldOk, LogOk, SerialOk, PhaseOk, NextLocks;
      StepInv(s, steps[0]);
      DoomKept(Next(s, steps[0]), steps[1..], t);
    }
  }

  ghost predicate SomeAborted(s: Sys, ts: seq<Tx>) {
    exists i :: 0 <= i < |ts| && IsAborted(s, ts[i])
  }

  /** Every ring of waiting transactions ends with the abort of a member. */
  lemma {:induction false} RingEndsInAbort(s: Sys, steps: seq<Step>, ts: seq<Tx>, ks: seq<Key>)
    requires Inv(s) && Feasible(s, steps) && WaitRing(s, ts, ks)
    requires Quiescent(After(s, steps))
    ensures SomeAborted(After(s, steps), ts)
    decreases steps
  {
    hide HeldOk, LogOk, SerialOk;
    assert HoldsAndWants(s, ts[0], ks[0], Wanted(ks, 0));
    assert steps != [];
    var step, s' := steps[0], Next(s, steps[0]);
    StepInv(s, step);
    if Takes(step, ts) {
      var i :| 0 <= i < |ts| && step.tx == ts[i];
      assert HoldsAndWants(s, ts[i], ks[i], Wanted(ks, i));
      DoomKept(s', steps[1..], ts[i]);
      assert IsAborted(After(s, steps), ts[i]);
    } else {
      RingKept(s, step, ts, ks);
      RingEndsInAbort(s', steps[1..], ts, ks);
    }
  }
}
