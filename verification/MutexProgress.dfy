/** Deadlock freedom and termination at the level of the mutexes, with no fairness assumed. */
module MutexProgress {
  import opened Types
  import opened Serial
  import opened Engine
  import opened Invariant
  import opened Striping
  import opened Mutexes
  import opened MutexSafety
  import opened Progress
  import opened Serializability
  import opened LockSafety
  import opened ConflictOrder

  /** The level of the mutex a thread is about to take; above all levels if it is about to do something else. */
  function Want(mi: Micro): nat {
    if mi.code != [] && mi.code[0].Lock? then Level(mi.code[0].m) else 4
  }

  predicate Unfinished(f: Fine, t: Tx) {
    t in f.threads && t in f.pcs && (f.pcs[t].code != [] || !f.threads[t].phase.Done?)
  }

  /**
   Following the holders of wanted mutexes leads, level by level, to a thread that can go on.
   */
  lemma {:induction false} SomeoneCanStep(f: Fine, t: Tx) returns (step: FStep)
    requires Sound(f) && Unfinished(f, t)
    requires forall u :: u in f.threads ==> PhaseOk(f.threads[u])
    ensures FEnabled(f, step) && !step.Spawn?
    decreases 4 - Want(f.pcs[t])
  {
    var mi := f.pcs[t];
    assert LocalOk(f, t);
    if mi.code == [] {
      var a := UnfinishedCanAct(f.threads[t]);
      step := Start(t, a);
    } else if mi.code[0].Lock? && mi.code[0].m in f.mutexes {
      var m := mi.code[0].m;
      var u := f.mutexes[m];
      assert u in f.pcs && m in f.pcs[u].held;
      assert LocalOk(f, u);
      step := SomeoneCanStep(f, u);
    } else {
      step := Go(t);
    }
  }

  ghost predicate FStuck(f: Fine) {
    && (forall t, a :: !FEnabled(f, Start(t, a)))
    && (forall t :: !FEnabled(f, Go(t)))
  }

  ghost predicate FQuiescent(f: Fine) {
    forall t :: !Unfinished(f, t)
  }

  lemma StuckIsQuiescent(f: Fine)
    requires Sound(f) && forall u :: u in f.threads ==> PhaseOk(f.threads[u])
    ensures FStuck(f) <==> FQuiescent(f)
  {
    hide Sound;
    if !FQuiescent(f) {
      var t :| Unfinished(f, t);
      var step := SomeoneCanStep(f, t);
      assert step.Start? ==> step == Start(step.tx, step.action);
    }
    if FQuiescent(f) {
      forall t
        ensures !FEnabled(f, Go(t))
      {
        assert !Unfinished(f, t);
      }
      forall t, a
        ensures !FEnabled(f, Start(t, a))
      {
        assert !Unfinished(f, t);
      }
    }
  }

  lemma QuiescentIsFree(f: Fine)
    requires Sound(f) && FQuiescent(f)
    ensures f.mutexes == map[] && forall t :: t in f.threads ==> f.threads[t].phase.Done?
  {
    forall t | t in f.threads
      ensures f.threads[t].phase.Done? && f.pcs[t].held == {}
    {
      assert !Unfinished(f, t);
      assert LocalOk(f, t);
    }
    assert forall m :: m !in f.mutexes;
  }

  /**
   The internal mutexes never deadlock: as long as one transaction has not returned, some thread can
   execute its next instruction. A run stops only with all transactions returned and all mutexes free.
   */
  lemma NoDeadlock(hash: Key -> nat, steps: seq<FStep>)
    requires FFeasible(Initial(hash), steps)
    ensures var f := FAfter(Initial(hash), steps);
            && (FStuck(f) <==> FQuiescent(f))
            && (FQuiescent(f) ==> f.mutexes == map[] && forall t :: t in f.threads ==> f.threads[t].phase.Done?)
  {
    InitialInv(hash);
    RunRefines(Initial(hash), steps);
    var f := FAfter(Initial(hash), steps);
    assert Abs(f).threads == f.threads;
    StuckIsQuiescent(f);
    if FQuiescent(f) {
      QuiescentIsFree(f);
    }
  }

  // ----- termination

  /** Code that still has its write ahead weighs its length; other code is heavier than any new code. */
  function Weight(code: seq<Instr>): nat {
    |code| + (if code != [] && code[|code| - 1].Commit? then 0 else 8)
  }

  function Weights(pcs: map<Tx, Micro>, n: nat): nat {
    if n == 0 then 0 else Weights(pcs, n - 1) + (if n - 1 in pcs then Weight(pcs[n - 1].code) else 0)
  }

  /** An upper bound on the instructions left to all threads. */
  function Left(f: Fine): nat {
    16 * Total(f.threads, f.nextTx) + Weights(f.pcs, f.nextTx)
  }

  function SpawnCost(steps: seq<FStep>): nat {
    if steps == [] then 0 else (if steps[0].Spawn? then 16 * Cost(steps[0].ops) else 0) + SpawnCost(steps[1..])
  }

  lemma {:induction false} WeightsUpdate(pcs: map<Tx, Micro>, t: Tx, mi: Micro, n: nat)
    requires t in pcs
    ensures Weights(pcs[t := mi], n) == Weights(pcs, n) + (if t < n then Weight(mi.code) - Weight(pcs[t].code) else 0)
  {
    if n > 0 {
      WeightsUpdate(pcs, t, mi, n - 1);
    }
  }

  lemma {:induction false} WeightsFresh(pcs: map<Tx, Micro>, t: Tx, mi: Micro, n: nat)
    requires t !in pcs && n <= t
    ensures Weights(pcs[t := mi], n) == Weights(pcs, n)
  {
    if n > 0 {
      WeightsFresh(pcs, t, mi, n - 1);
    }
  }

  lemma CodeFalls(code: seq<Instr>)
    requires code != [] && !code[0].Commit?
    ensures Weight(code[1..]) < Weight(code)
  {
  }

  lemma TailLight(hash: Key -> nat, th: Thread, a: Action, success: bool)
    requires CanAct(th, a)
    ensures |Tail(hash, th, a, success)| <= 6 && Weight(Tail(hash, th, a, success)) <= 14
  {
  }

  predicate WritesNow(f: Fine, step: FStep)
    requires FEnabled(f, step)
  {
    Coarse(f, step) != []
  }

  /** Instructions that are no write make the code lighter. */
  lemma SilentFalls(f: Fine, step: FStep, t: Tx)
    requires FEnabled(f, step) && !step.Spawn? && step.tx == t && !WritesNow(f, step)
    ensures FNext(f, step).threads[t] == f.threads[t]
    ensures Weight(FNext(f, step).pcs[t].code) < Weight(f.pcs[t].code)
  {
    if step.Go? {
      CodeFalls(f.pcs[t].code);
    }
  }

  /** A write lowers the rank of the transaction. */
  lemma WriteFalls(f: Fine, step: FStep, t: Tx)
    requires Placed(f.hash, f.stripes) && ThreadsOk(Abs(f)) && HeldOk(Abs(f))
    requires FEnabled(f, step) && step == Go(t) && WritesNow(f, step) && Simulates(f, step)
    ensures Rank(FNext(f, step).threads[t]) < Rank(f.threads[t])
    ensures Weight(FNext(f, step).pcs[t].code) <= 14
  {
    var c := Coarse(f, step);
    var a := c[0].action;
    assert c == [Act(t, a)];
    assert After(Abs(f), c) == Next(Abs(f), Act(t, a));
    assert FNext(f, step).threads == Abs(FNext(f, step)).threads;
    RankFalls(Abs(f), t, a);
    if f.pcs[t].code[0].Commit? {
      TailLight(f.hash, f.threads[t], a, Success(f.threads[t], t, f.pcs[t], a));
    }
  }

  lemma OnlyOneMoves(f: Fine, step: FStep, t: Tx)
    requires FEnabled(f, step) && !step.Spawn? && step.tx == t
    ensures var f' := FNext(f, step);
            && f'.nextTx == f.nextTx && t in f'.threads && t in f'.pcs
            && f'.threads == f.threads[t := f'.threads[t]] && f'.pcs == f.pcs[t := f'.pcs[t]]
  {
  }

  lemma SpawnLeft(f: Fine, ops: seq<Op>)
    requires f.nextTx !in f.threads && f.nextTx !in f.pcs
    ensures 1 + Left(FNext(f, Spawn(ops))) <= Left(f) + 16 * Cost(ops)
  {
    TotalFresh(f.threads, f.nextTx, Thread(ops, Acquiring(Keys(ops))), f.nextTx);
    WeightsFresh(f.pcs, f.nextTx, IDLE, f.nextTx);
  }

  lemma StepLeft(f: Fine, step: FStep)
    requires FineInv(f) && FEnabled(f, step)
    ensures 1 + Left(FNext(f, step)) <= Left(f) + (if step.Spawn? then 16 * Cost(step.ops) else 0)
  {
    var f' := FNext(f, step);
    assert ThreadsOk(Abs(f));
    if step.Spawn? {
      SpawnLeft(f, step.ops);
    } else {
      var t := step.tx;
      StepRefines(f, step);
      if WritesNow(f, step) {
        WriteFalls(f, step, t);
      } else {
        SilentFalls(f, step, t);
      }
      OnlyOneMoves(f, step, t);
      assert t < f.nextTx;
      TotalUpdate(f.threads, t, f'.threads[t], f.nextTx);
      WeightsUpdate(f.pcs, t, f'.pcs[t], f.nextTx);
    }
  }

  lemma {:induction false} LeftFalls(f: Fine, steps: seq<FStep>)
    requires FineInv(f) && FFeasible(f, steps)
    ensures |steps| + Left(FAfter(f, steps)) <= Left(f) + SpawnCost(steps)
    decreases steps
  {
    if steps != [] {
      StepLeft(f, steps[0]);
      StepRefines(f, steps[0]);
      LeftFalls(FNext(f, steps[0]), steps[1..]);
    }
  }

  /** However the threads are scheduled, the instructions executed are bounded by the transactions started. */
  lemma InstructionsBounded(hash: Key -> nat, steps: seq<FStep>)
    requires FFeasible(Initial(hash), steps)
    ensures |steps| <= SpawnCost(steps)
  {
    InitialInv(hash);
    LeftFalls(Initial(hash), steps);
  }

  /**
   Total correctness under the real mutexes, for any hash function and any scheduling of the
   instructions: the run is bounded; when no thread can go on, every transaction has returned, no
   mutex and no key is held, the union of the stripes is the store of the serial run in log order,
   and every committed transaction read what it would have read there.
   */
  lemma TotalCorrectness(hash: Key -> nat, steps: seq<FStep>)
    requires FFeasible(Initial(hash), steps)
    ensures |steps| <= SpawnCost(steps)
    ensures var f := FAfter(Initial(hash), steps);
            && Placed(hash, f.stripes)
            && (FStuck(f) ==>
                  && (forall t :: t in f.threads ==> f.threads[t].phase.Done?)
                  && f.mutexes == map[] && f.locks.owner == map[] && f.locks.held == map[]
                  && Flatten(hash, f.stripes) == SerialStore(f.log))
            && (forall t :: CommittedIn(f.threads, t) ==>
                              var Committed(at, results) := f.threads[t].phase.outcome;
                              && at < |f.log| && f.log[at] == Entry(t, f.threads[t].ops)
                              && results == Reads(SerialStore(f.log[..at]), f.threads[t].ops))
  {
    var f := FAfter(Initial(hash), steps);
    var coarse := Project(Initial(hash), steps);
    InstructionsBounded(hash, steps);
    NoDeadlock(hash, steps);
    RefinesAtomicSteps(hash, steps);
    Serializable(coarse);
    NoLeaks(coarse);
    var s := After(INIT, coarse);
    assert s.threads == f.threads && s.log == f.log && s.locks == f.locks;
    if FStuck(f) {
      assert Quiescent(s);
    }
    forall t | CommittedIn(f.threads, t)
      ensures var Committed(at, results) := f.threads[t].phase.outcome;
              && at < |f.log| && f.log[at] == Entry(t, f.threads[t].ops)
              && results == Reads(SerialStore(f.log[..at]), f.threads[t].ops)
    {
      assert IsCommitted(s, t);
    }
  }

  /** Real-time order holds of instruction-level runs as well. */
  lemma FineRealTimeOrder(hash: Key -> nat, before: seq<FStep>, after: seq<FStep>, early: Tx, late: Tx)
    requires FFeasible(Initial(hash), before) && FFeasible(FAfter(Initial(hash), before), after)
    requires var m := FAfter(Initial(hash), before);
             CommittedIn(m.threads, early) && late !in m.threads && CommittedIn(FAfter(m, after).threads, late)
    ensures var f := FAfter(FAfter(Initial(hash), before), after);
            && early in f.threads && Position(f.threads[early]).Some?
            && Position(f.threads[early]).value < Position(f.threads[late]).value
  {
    hide FineInv;
    InitialInv(hash);
    RunRefines(Initial(hash), before);
    var m := FAfter(Initial(hash), before);
    RunRefines(m, after);
    assert Abs(Initial(hash)) == INIT;
    RealTimeOrder(Project(Initial(hash), before), Project(m, after), early, late);
  }

  /** And so does the acyclicity of the precedence graph. */
  lemma FineNoConflictCycle(hash: Key -> nat, steps: seq<FStep>)
    requires FFeasible(Initial(hash), steps)
    ensures Placed(FAfter(Initial(hash), steps).hash, FAfter(Initial(hash), steps).stripes)
    ensures var s := Abs(FAfter(Initial(hash), steps));
            && (forall p :: ConflictPath(s, p) ==> p[0] != p[|p| - 1])
            && (forall a, b :: ConflictEdge(s, a, b) ==> Precedes(s, a, b) && !ConflictEdge(s, b, a))
  {
    RefinesAtomicSteps(hash, steps);
    NoConflictCycle(Project(Initial(hash), steps));
  }
}
