/** Circular waits can form, yet every run is bounded and ends with each transaction committed or aborted. */
module Progress {
  import opened Types
  import opened LockTable
  import opened Engine
  import opened Invariant
  import opened Serializability

  /** A key costs a request, an interest and the polls. */
  const KEY_COST: nat := 1502

  /** An upper bound on the steps a transaction has left. */
  function Rank(th: Thread): nat {
    var end := |th.ops| + |Keys(th.ops)| + 3;
    match th.phase
    case Acquiring(todo) => KEY_COST * |todo| + end + 1
    case Requesting(_, todo) => KEY_COST * |todo| + end + MAX_POLLS + 2
    case Polling(_, todo, fails) =>
      KEY_COST * |todo| + end + 1 + (if fails <= MAX_POLLS then MAX_POLLS - fails else 0)
    case Executing(_, next, _) => (if next <= |th.ops| then |th.ops| - next else 0) + |Keys(th.ops)| + 2
    case Releasing(_, left, _) => |left| + 1
    case Done(_) => 0
  }

  /** What one transaction can cost in all, its `Begin` included. */
  function Cost(ops: seq<Op>): nat {
    1 + Rank(Thread(ops, Acquiring(Keys(ops))))
  }

  /** The steps left to the transactions with ids below `n`. */
  function Total(threads: map<Tx, Thread>, n: nat): nat {
    if n == 0 then 0 else Total(threads, n - 1) + (if n - 1 in threads then Rank(threads[n - 1]) else 0)
  }

  function TotalCost(steps: seq<Step>): nat {
    if steps == [] then 0 else (if steps[0].Begin? then Cost(steps[0].ops) else 0) + TotalCost(steps[1..])
  }

  lemma SubsetSize(a: set<Key>, b: set<Key>)
    requires a <= b
    ensures |a| <= |b|
  {
    assert |b - a| + |a| == |b| by { assert (b - a) + a == b; }
  }

  lemma LockingRankFalls(s: Sys, t: Tx, a: Action)
    requires ThreadsOk(s) && Enabled(s, Act(t, a)) && (a.Request? || a.Interest? || a.Poll? || a.LockPoint?)
    ensures Rank(Next(s, Act(t, a)).threads[t]) < Rank(s.threads[t])
  {
    if a.Request? {
      var todo := s.threads[t].phase.todo;
      assert |todo| == |todo - {a.key}| + 1;
    }
  }

  lemma ClosingRank(th: Thread, left: set<Key>)
    requires CanAct(th, Snapshot) && |left| <= |Keys(th.ops)|
    ensures Rank(Thread(th.ops, Closing(th.phase, left))) < Rank(th)
  {
    hide Keys;
    assert th.phase.Polling? ==> KEY_COST * |th.phase.todo| >= 0;
  }

  lemma SnapshotRankFalls(s: Sys, t: Tx)
    requires HeldOk(s) && Enabled(s, Act(t, Snapshot))
    ensures Rank(Next(s, Act(t, Snapshot)).threads[t]) < Rank(s.threads[t])
  {
    hide Rank;
    var th := s.threads[t];
    assert HeldBy(s.locks, t) == Interested(th);
    SubsetSize(Interested(th), Keys(th.ops));
    ClosingRank(th, Interested(th));
  }

  lemma RankFalls(s: Sys, t: Tx, a: Action)
    requires ThreadsOk(s) && HeldOk(s) && Enabled(s, Act(t, a))
    ensures Rank(Next(s, Act(t, a)).threads[t]) < Rank(s.threads[t])
  {
    hide HeldOk, ThreadsOk;
    var th := s.threads[t];
    match a
    case Snapshot => SnapshotRankFalls(s, t);
    case Release(k) =>
      assert |th.phase.left| == |th.phase.left - {k}| + 1;
    case Exec =>
    case Return =>
    case _ => LockingRankFalls(s, t, a);
  }

  lemma {:induction false} TotalUpdate(threads: map<Tx, Thread>, t: Tx, th: Thread, n: nat)
    requires t in threads
    ensures Total(threads[t := th], n) == Total(threads, n) + (if t < n then Rank(th) - Rank(threads[t]) else 0)
  {
    if n > 0 {
      TotalUpdate(threads, t, th, n - 1);
    }
  }

  lemma {:induction false} TotalFresh(threads: map<Tx, Thread>, t: Tx, th: Thread, n: nat)
    requires t !in threads && n <= t
    ensures Total(threads[t := th], n) == Total(threads, n)
  {
    if n > 0 {
      TotalFresh(threads, t, th, n - 1);
    }
  }

  /** The measure of the whole system falls on every step but `Begin`, which adds a transaction's cost. */
  lemma StepFalls(s: Sys, step: Step)
    requires Inv(s) && Enabled(s, step)
    ensures var s' := Next(s, step);
            1 + Total(s'.threads, s'.nextTx) <= Total(s.threads, s.nextTx) + (if step.Begin? then Cost(step.ops) else 0)
  {
    hide OwnersOk, HeldOk, LogOk, SerialOk;
    match step
    case Begin(ops) => TotalFresh(s.threads, s.nextTx, Thread(ops, Acquiring(Keys(ops))), s.nextTx);
    case Act(t, a) =>
      RankFalls(s, t, a);
      TotalUpdate(s.threads, t, Next(s, step).threads[t], s.nextTx);
  }

  /** No run is longer than the cost of the transactions it starts, whatever the interleaving. */
  lemma {:induction false} RunsAreBounded(s: Sys, steps: seq<Step>)
    requires Inv(s) && Feasible(s, steps)
    ensures |steps| + Total(After(s, steps).threads, After(s, steps).nextTx) <=
            Total(s.threads, s.nextTx) + TotalCost(steps)
    decreases steps
  {
    if steps != [] {
      StepFalls(s, steps[0]);
      StepInv(s, steps[0]);
      RunsAreBounded(Next(s, steps[0]), steps[1..]);
    }
  }

  /** What an unfinished transaction can do next: there is always something, whatever the others do. */
  lemma UnfinishedCanAct(th: Thread) returns (a: Action)
    requires PhaseOk(th) && !th.phase.Done?
    ensures CanAct(th, a)
  {
    match th.phase
    case Acquiring(todo) =>
      if todo == {} { a := LockPoint; } else { var k :| k in todo; a := Request(k); }
    case Requesting(_, _) => a := Interest;
    case Polling(_, _, fails) => a := if fails < MAX_POLLS then Poll else Snapshot;
    case Executing(_, next, _) => a := if next < |th.ops| then Exec else Snapshot;
    case Releasing(_, left, _) =>
      if left == {} { a := Return; } else { var k :| k in left; a := Release(k); }
  }

  ghost predicate Stuck(s: Sys) {
    forall t, a :: !Enabled(s, Act(t, a))
  }

  /**
   Global progress. From the empty system, a run that starts finitely many transactions takes at
   most the sum of their costs in steps, so it cannot go on for ever; and it can stop only when
   every transaction has committed or aborted.
   */
  lemma EveryRunEnds(steps: seq<Step>)
    requires Feasible(INIT, steps)
    ensures |steps| <= TotalCost(steps)
    ensures Stuck(After(INIT, steps)) <==> Quiescent(After(INIT, steps))
  {
    hide OwnersOk, HeldOk, LogOk, SerialOk;
    InitInv();
    RunInv(INIT, steps);
    RunsAreBounded(INIT, steps);
    var s := After(INIT, steps);
    if !Quiescent(s) {
      var t :| t in s.threads && !s.threads[t].phase.Done?;
      var a := UnfinishedCanAct(s.threads[t]);
      assert Enabled(s, Act(t, a));
    }
  }

  /** From every reachable state all transactions can be run to their end. */
  lemma {:induction false} CanFinish(s: Sys) returns (steps: seq<Step>)
    requires Inv(s)
    ensures Feasible(s, steps) && Quiescent(After(s, steps))
    ensures forall step :: step in steps ==> step.Act?
    decreases Total(s.threads, s.nextTx)
  {
    if Quiescent(s) {
      return [];
    }
    var t :| t in s.threads && !s.threads[t].phase.Done?;
    var a := UnfinishedCanAct(s.threads[t]);
    StepFalls(s, Act(t, a));
    StepInv(s, Act(t, a));
    var rest := CanFinish(Next(s, Act(t, a)));
    steps := [Act(t, a)] + rest;
  }

  function PollsOf(steps: seq<Step>, t: Tx): nat {
    if steps == [] then 0 else (if steps[0] == Act(t, Poll) then 1 else 0) + PollsOf(steps[1..], t)
  }

  function PollBudget(th: Thread): nat {
    match th.phase
    case Acquiring(todo) => |todo| * MAX_POLLS
    case Requesting(_, todo) => (|todo| + 1) * MAX_POLLS
    case Polling(_, todo, fails) => |todo| * MAX_POLLS + (if fails <= MAX_POLLS then MAX_POLLS - fails else 0)
    case _ => 0
  }

  lemma BudgetStep(s: Sys, step: Step, t: Tx)
    requires ThreadsOk(s) && Enabled(s, step) && t in s.threads
    ensures PollBudget(Next(s, step).threads[t]) + (if step == Act(t, Poll) then 1 else 0) <= PollBudget(s.threads[t])
  {
    if step.Act? && step.tx == t && step.action.Request? {
      var todo, k := s.threads[t].phase.todo, step.action.key;
      assert |todo| == |todo - {k}| + 1;
    }
  }

  lemma {:induction false} PollsWithinBudget(s: Sys, steps: seq<Step>, t: Tx)
    requires Inv(s) && Feasible(s, steps) && t in s.threads
    ensures PollsOf(steps, t) <= PollBudget(s.threads[t])
    decreases steps
  {
    if steps != [] {
      StepInv(s, steps[0]);
      BudgetStep(s, steps[0], t);
      PollsWithinBudget(Next(s, steps[0]), steps[1..], t);
    }
  }

  lemma {:induction false} PollsFromStart(s: Sys, steps: seq<Step>, t: Tx)
    requires Inv(s) && Feasible(s, steps) && t !in s.threads && t in After(s, steps).threads
    ensures PollsOf(steps, t) <= MAX_POLLS * |Keys(After(s, steps).threads[t].ops)|
    decreases steps
  {
    hide SerialOk, LogOk, OwnersOk, HeldOk;
    var s' := Next(s, steps[0]);
    StepInv(s, steps[0]);
    if t in s'.threads {
      PollsWithinBudget(s', steps[1..], t);
      LogGrows(s', steps[1..]);
    } else {
      PollsFromStart(s', steps[1..], t);
    }
  }

  /** A transaction with m distinct keys makes at most 1500 m polls in any run. */
  lemma PollBound(steps: seq<Step>, t: Tx)
    requires Feasible(INIT, steps) && t in After(INIT, steps).threads
    ensures PollsOf(steps, t) <= 1500 * |Keys(After(INIT, steps).threads[t].ops)|
  {
    InitInv();
    PollsFromStart(INIT, steps, t);
  }

  /** Polls made for sure: those that failed on the current key, and all of them once it has given up. */
  function PollsMade(th: Thread): nat {
    match th.phase
    case Polling(_, _, fails) => fails
    case Releasing(outcome, _, _) => if outcome.Aborted? then MAX_POLLS else 0
    case Done(outcome) => if outcome.Aborted? then MAX_POLLS else 0
    case _ => 0
  }

  lemma PollsMadeStep(s: Sys, step: Step, t: Tx)
    requires Enabled(s, step) && t in s.threads && t < s.nextTx
    ensures PollsMade(Next(s, step).threads[t]) <= PollsMade(s.threads[t]) + (if step == Act(t, Poll) then 1 else 0)
  {
  }

  lemma {:induction false} PollsAtLeast(s: Sys, steps: seq<Step>, t: Tx)
    requires Inv(s) && Feasible(s, steps) && t in After(s, steps).threads
    ensures PollsMade(After(s, steps).threads[t]) <=
            (if t in s.threads then PollsMade(s.threads[t]) else 0) + PollsOf(steps, t)
    decreases steps
  {
    hide OwnersOk, HeldOk, LogOk, SerialOk, PollsMade, NextLocks;
    if steps != [] {
      StepInv(s, steps[0]);
      PollsAtLeast(Next(s, steps[0]), steps[1..], t);
      if t in s.threads {
        PollsMadeStep(s, steps[0], t);
      } else if steps[0].Begin? && t == s.nextTx {
        FreshPolls(steps[0].ops);
      }
    }
  }

  lemma FreshPolls(ops: seq<Op>)
    ensures PollsMade(Thread(ops, Acquiring(Keys(ops)))) == 0
  {
  }

  /** A transaction gives up only after 1500 polls of its own. */
  lemma AbortNeedsPolls(steps: seq<Step>, t: Tx)
    requires Feasible(INIT, steps) && IsAborted(After(INIT, steps), t)
    ensures PollsOf(steps, t) >= 1500
  {
    InitInv();
    PollsAtLeast(INIT, steps, t);
  }

  /** What a transaction can cost, in figures. */
  lemma CostInFigures(ops: seq<Op>)
    ensures Cost(ops) == 1503 * |Keys(ops)| + |ops| + 5
  {
  }
}
