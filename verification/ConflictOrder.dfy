/** The order in which conflicting operations really happened, and why it can have no cycle. */
module ConflictOrder {
  import opened Types
  import opened Serial
  import opened Engine
  import opened Invariant
  import opened Serializability

  /** The operations of one transaction, in the order they happened. */
  function OpsOf(history: seq<Event>, t: Tx): seq<Op> {
    if history == [] then []
    else
      var e := history[|history| - 1];
      OpsOf(history[..|history| - 1], t) + (if e.tx == t then [e.op] else [])
  }

  /** All operations, in the order they happened. */
  function AllOps(history: seq<Event>): seq<Op> {
    seq(|history|, i requires 0 <= i < |history| => history[i].op)
  }

  /** How far into its operations a transaction is. */
  function OpsDone(th: Thread): nat {
    match th.phase
    case Executing(_, next, _) => next
    case _ => if Position(th).Some? then |th.ops| else 0
  }

  ghost predicate ProgressOk(s: Sys, t: Tx)
    requires t in s.threads
  {
    var th := s.threads[t];
    OpsDone(th) <= |th.ops| && OpsOf(s.history, t) == th.ops[..OpsDone(th)]
  }

  predicate EventOk(s: Sys, e: Event) {
    e.tx in s.threads && Position(s.threads[e.tx]).Some?
  }

  /** `a` comes before `b` in the log. */
  predicate Precedes(s: Sys, a: Tx, b: Tx) {
    && a in s.threads && Position(s.threads[a]).Some?
    && b in s.threads && Position(s.threads[b]).Some?
    && Position(s.threads[a]).value < Position(s.threads[b]).value
  }

  /** The history is what happened to the store and to each transaction. */
  ghost predicate Faithful(s: Sys) {
    && (forall t :: t in s.threads ==> ProgressOk(s, t))
    && (forall t :: t !in s.threads ==> OpsOf(s.history, t) == [])
    && s.store == RunOps(map[], AllOps(s.history))
  }

  /** Same-key events of different transactions follow the log, and so will those still to come. */
  ghost predicate Ordered(s: Sys) {
    && (forall i :: 0 <= i < |s.history| ==> EventOk(s, s.history[i]))
    && (forall i, j :: 0 <= i < j < |s.history| && s.history[i].op.key == s.history[j].op.key ==>
                         InOrder(s, s.history[i].tx, s.history[j].tx))
    && (forall i, t :: 0 <= i < |s.history| && Awaits(s, t, s.history[i].op.key) ==> InOrder(s, s.history[i].tx, t))
  }

  predicate InOrder(s: Sys, a: Tx, b: Tx) {
    a == b || Precedes(s, a, b)
  }

  predicate Awaits(s: Sys, t: Tx, k: Key) {
    t in s.threads && s.threads[t].phase.Executing? && k in Keys(s.threads[t].ops)
  }

  lemma FaithfulExec(s: Sys, t: Tx)
    requires Faithful(s) && Enabled(s, Act(t, Exec))
    ensures Faithful(Next(s, Act(t, Exec)))
  {
    var s' := Next(s, Act(t, Exec));
    var n := |s.history|;
    assert s'.history[..n] == s.history;
    assert AllOps(s'.history)[..n] == AllOps(s.history);
    assert AllOps(s'.history)[n] == s'.history[n].op;
    forall u | u in s'.threads
      ensures ProgressOk(s', u)
    {
      assert ProgressOk(s, u);
      var th := s.threads[t];
      assert th.ops[..th.phase.next + 1] == th.ops[..th.phase.next] + [th.ops[th.phase.next]];
    }
  }

  lemma FaithfulQuiet(s: Sys, step: Step)
    requires ThreadsOk(s) && Faithful(s) && Enabled(s, step)
    requires step.Act? ==> !step.action.Exec?
    ensures Faithful(Next(s, step))
  {
    var s' := Next(s, step);
    forall t | t in s'.threads
      ensures ProgressOk(s', t)
    {
      if t in s.threads {
        assert ProgressOk(s, t);
      }
    }
  }

  lemma PositionKept(s: Sys, step: Step, t: Tx)
    requires ThreadsOk(s) && Enabled(s, step) && t in s.threads && Position(s.threads[t]).Some?
    ensures t in Next(s, step).threads && Position(Next(s, step).threads[t]) == Position(s.threads[t])
  {
  }

  lemma OrderKept(s: Sys, step: Step)
    requires ThreadsOk(s) && Enabled(s, step)
    ensures forall a, b :: InOrder(s, a, b) ==> InOrder(Next(s, step), a, b)
    ensures forall e :: EventOk(s, e) ==> EventOk(Next(s, step), e)
  {
    forall a, b | Precedes(s, a, b)
      ensures Precedes(Next(s, step), a, b)
    {
      PositionKept(s, step, a);
      PositionKept(s, step, b);
    }
    forall e | EventOk(s, e)
      ensures EventOk(Next(s, step), e)
    {
      PositionKept(s, step, e.tx);
    }
  }

  lemma QuietOrder(s: Sys, step: Step)
    requires ThreadsOk(s) && Ordered(s) && Enabled(s, step)
    requires step.Act? ==> !step.action.Exec? && !step.action.LockPoint?
    ensures Ordered(Next(s, step))
  {
    OrderKept(s, step);
    var s' := Next(s, step);
    forall i, t | 0 <= i < |s'.history| && Awaits(s', t, s'.history[i].op.key)
      ensures InOrder(s', s'.history[i].tx, t)
    {
      assert Awaits(s, t, s.history[i].op.key);
    }
  }

  /** Whoever enters the log comes after everything that happened so far. */
  lemma LockPointOrder(s: Sys, t: Tx)
    requires ThreadsOk(s) && LogOk(s) && Ordered(s) && Enabled(s, Act(t, LockPoint))
    ensures Ordered(Next(s, Act(t, LockPoint)))
  {
    var s' := Next(s, Act(t, LockPoint));
    OrderKept(s, Act(t, LockPoint));
    forall i, u | 0 <= i < |s'.history| && Awaits(s', u, s'.history[i].op.key)
      ensures InOrder(s', s'.history[i].tx, u)
    {
      if u == t {
        assert EventOk(s, s.history[i]);
        PositionKept(s, Act(t, LockPoint), s.history[i].tx);
      } else {
        assert Awaits(s, u, s.history[i].op.key);
      }
    }
  }

  /** An operation comes after all others on its key, and nobody else is waiting to use that key. */
  lemma ExecOrder(s: Sys, t: Tx)
    requires ThreadsOk(s) && OwnersOk(s) && Ordered(s) && Enabled(s, Act(t, Exec))
    ensures Ordered(Next(s, Act(t, Exec)))
  {
    var s' := Next(s, Act(t, Exec));
    var n := |s.history|;
    var op := s.threads[t].ops[s.threads[t].phase.next];
    KeysOfIndex(s.threads[t].ops, s.threads[t].phase.next);
    OrderKept(s, Act(t, Exec));
    assert forall i :: 0 <= i < n ==> s'.history[i] == s.history[i];
    forall i, j | 0 <= i < j < |s'.history| && s'.history[i].op.key == s'.history[j].op.key
      ensures InOrder(s', s'.history[i].tx, s'.history[j].tx)
    {
      if j == n {
        assert Awaits(s, t, s.history[i].op.key);
      }
    }
    forall i, u | 0 <= i < |s'.history| && Awaits(s', u, s'.history[i].op.key)
      ensures InOrder(s', s'.history[i].tx, u)
    {
      assert Awaits(s, u, s'.history[i].op.key);
      if i == n {
        Exclusive(s, t, u, op.key);
      }
    }
  }

  lemma {:induction false} RunHistory(s: Sys, steps: seq<Step>)
    requires Inv(s) && Faithful(s) && Ordered(s) && Feasible(s, steps)
    ensures Inv(After(s, steps)) && Faithful(After(s, steps)) && Ordered(After(s, steps))
    decreases steps
  {
    if steps != [] {
      var step := steps[0];
      StepInv(s, step);
      match step {
        case Act(t, LockPoint) =>
          FaithfulQuiet(s, step);
          LockPointOrder(s, t);
        case Act(t, Exec) =>
          FaithfulExec(s, t);
          ExecOrder(s, t);
        case _ =>
          FaithfulQuiet(s, step);
          QuietOrder(s, step);
      }
      RunHistory(Next(s, step), steps[1..]);
    }
  }

  lemma EmptyHistory()
    ensures Faithful(INIT) && Ordered(INIT)
  {
  }

  /** The history is what really happened: replaying it gives the store, and each transaction's part of it is a
      prefix of its operations, complete on commit and empty on abort. */
  lemma HistoryFaithful(steps: seq<Step>, t: Tx)
    requires Feasible(INIT, steps)
    ensures var s := After(INIT, steps);
            && s.store == RunOps(map[], AllOps(s.history))
            && (t in s.threads ==> OpsOf(s.history, t) <= s.threads[t].ops)
            && (IsCommitted(s, t) ==> OpsOf(s.history, t) == s.threads[t].ops)
            && (IsAborted(s, t) || t !in s.threads ==> OpsOf(s.history, t) == [])
            && (IsAborted(s, t) ==> !Logged(s, t))
  {
    hide OwnersOk, HeldOk, SerialOk, Ordered;
    InitInv();
    assert Faithful(INIT) && Ordered(INIT) by { EmptyHistory(); }
    RunHistory(INIT, steps);
    var s := After(INIT, steps);
    if t in s.threads {
      assert ProgressOk(s, t);
      assert s.threads[t].ops[..|s.threads[t].ops|] == s.threads[t].ops;
    }
  }

  /** An operation of `a` happened before one of `b` on the same key. */
  ghost predicate ConflictEdge(s: Sys, a: Tx, b: Tx) {
    a != b && exists i, j :: 0 <= i < j < |s.history| && s.history[i].tx == a && s.history[j].tx == b
                             && s.history[i].op.key == s.history[j].op.key
  }

  ghost predicate ConflictPath(s: Sys, p: seq<Tx>) {
    |p| >= 2 && forall i :: 0 <= i < |p| - 1 ==> ConflictEdge(s, p[i], p[i + 1])
  }

  lemma EdgeFollowsLog(s: Sys, a: Tx, b: Tx)
    requires Ordered(s) && ConflictEdge(s, a, b)
    ensures Precedes(s, a, b)
  {
    var i, j :| 0 <= i < j < |s.history| && s.history[i].tx == a && s.history[j].tx == b
                && s.history[i].op.key == s.history[j].op.key;
  }

  lemma {:induction false} PathFollowsLog(s: Sys, p: seq<Tx>)
    requires Ordered(s) && ConflictPath(s, p)
    ensures Precedes(s, p[0], p[|p| - 1])
    decreases p
  {
    assert ConflictEdge(s, p[0], p[0 + 1]);
    EdgeFollowsLog(s, p[0], p[1]);
    if |p| > 2 {
      forall i | 0 <= i < |p[1..]| - 1 ensures ConflictEdge(s, p[1..][i], p[1..][i + 1]) {
        assert ConflictEdge(s, p[i + 1], p[i + 1 + 1]);
      }
      PathFollowsLog(s, p[1..]);
    }
  }

  /**
   The precedence graph of every run is acyclic, and two transactions that share keys conflict in
   one direction only, that of the log, on all shared keys.
   */
  lemma NoConflictCycle(steps: seq<Step>)
    requires Feasible(INIT, steps)
    ensures var s := After(INIT, steps);
            && (forall p :: ConflictPath(s, p) ==> p[0] != p[|p| - 1])
            && (forall a, b :: ConflictEdge(s, a, b) ==> Precedes(s, a, b) && !ConflictEdge(s, b, a))
  {
    InitInv();
    RunHistory(INIT, steps);
    var s := After(INIT, steps);
    forall p | ConflictPath(s, p)
      ensures p[0] != p[|p| - 1]
    {
      PathFollowsLog(s, p);
    }
    forall a, b | ConflictEdge(s, a, b)
      ensures Precedes(s, a, b) && !ConflictEdge(s, b, a)
    {
      EdgeFollowsLog(s, a, b);
      if ConflictEdge(s, b, a) {
        EdgeFollowsLog(s, b, a);
      }
    }
  }
}
