/** The mutexes do their job: every run of the instructions is, write by write, a run of the atomic steps. */
module MutexSafety {
  import opened Types
  import opened Serial
  import opened LockTable
  import opened Engine
  import opened Invariant
  import opened Striping
  import opened Mutexes

  /** The atomic state a fine-grained state stands for. */
  ghost function Abs(f: Fine): Sys
    requires Placed(f.hash, f.stripes)
  {
    Sys(f.locks, Flatten(f.hash, f.stripes), f.threads, f.nextTx, f.log, f.history)
  }

  /** Every mutex has exactly the holder that thinks it holds it. */
  ghost predicate MutexesOk(mutexes: map<Mutex, Tx>, pcs: map<Tx, Micro>) {
    && (forall m :: m in mutexes ==> mutexes[m] in pcs && m in pcs[mutexes[m]].held)
    && (forall t, m :: t in pcs && m in pcs[t].held ==> m in mutexes && mutexes[m] == t)
  }

  /** A thread obeys the discipline, and what it has loaded is still what is in memory. */
  ghost predicate LocalOk(f: Fine, t: Tx)
    requires t in f.threads && t in f.pcs
  {
    var mi := f.pcs[t];
    && Discipline(f.hash, f.threads[t], mi.held, mi.view.Keys, mi.code)
    && (forall m :: m in mi.view ==> m in mi.held && mi.view[m] == Memory(f, m))
  }

  ghost predicate Sound(f: Fine) {
    && f.pcs.Keys == f.threads.Keys
    && MutexesOk(f.mutexes, f.pcs)
    && (forall t :: t in f.threads ==> LocalOk(f, t))
  }

  ghost predicate FineInv(f: Fine) {
    Placed(f.hash, f.stripes) && Inv(Abs(f)) && Sound(f)
  }

  /** The atomic steps a fine step amounts to: at most one. */
  function Coarse(f: Fine, step: FStep): seq<Step>
    requires FEnabled(f, step)
  {
    match step
    case Spawn(ops) => [Begin(ops)]
    case Start(_, _) => []
    case Go(t) =>
      match f.pcs[t].code[0]
      case Commit(a) => [Act(t, a)]
      case CheckEntry(k) => if k in SeenEntries(f.pcs[t]) then [] else [Act(t, Release(k))]
      case _ => []
  }

  ghost predicate Simulates(f: Fine, step: FStep)
    requires Placed(f.hash, f.stripes) && FEnabled(f, step)
  {
    var f' := FNext(f, step);
    && Placed(f'.hash, f'.stripes)
    && Feasible(Abs(f), Coarse(f, step))
    && Abs(f') == After(Abs(f), Coarse(f, step))
  }

  lemma InitialInv(hash: Key -> nat)
    ensures FineInv(Initial(hash)) && Abs(Initial(hash)) == INIT
  {
    var f := Initial(hash);
    forall k
      ensures Get(Flatten(hash, f.stripes), k) == None
    {
    }
    StoresEqual(Flatten(hash, f.stripes), map[]);
    InitInv();
  }

  /** A thread is not disturbed by a step of another that writes only cells whose mutex it holds. */
  lemma Undisturbed(f: Fine, f': Fine, t: Tx, u: Tx)
    requires MutexesOk(f.mutexes, f.pcs) && u in f.threads && t in f.pcs && u in f.pcs && u != t && LocalOk(f, u)
    requires f'.hash == f.hash && u in f'.threads && u in f'.pcs
    requires f'.threads[u] == f.threads[u] && f'.pcs[u] == f.pcs[u]
    requires forall m :: m !in f.pcs[t].held ==> Memory(f', m) == Memory(f, m)
    ensures LocalOk(f', u)
  {
    forall m | m in f.pcs[u].view
      ensures Memory(f', m) == Memory(f, m)
    {
      assert m in f.pcs[u].held;
      assert f.mutexes[m] == u;
    }
  }

  lemma Joined(mutexes: map<Mutex, Tx>, pcs: map<Tx, Micro>, t: Tx)
    requires MutexesOk(mutexes, pcs) && t !in pcs
    ensures MutexesOk(mutexes, pcs[t := IDLE])
  {
  }

  lemma SameLocal(f: Fine, f': Fine, u: Tx)
    requires u in f.threads && u in f.pcs && LocalOk(f, u)
    requires f'.hash == f.hash && u in f'.threads && u in f'.pcs
    requires f'.threads[u] == f.threads[u] && f'.pcs[u] == f.pcs[u]
    requires f'.locks == f.locks && f'.stripes == f.stripes
    ensures LocalOk(f', u)
  {
    hide Discipline;
  }

  lemma SpawnSound(f: Fine, ops: seq<Op>)
    requires Sound(f) && f.nextTx !in f.threads
    ensures Sound(FNext(f, Spawn(ops)))
  {
    hide MutexesOk;
    var f' := FNext(f, Spawn(ops));
    Joined(f.mutexes, f.pcs, f.nextTx);
    forall u | u in f'.threads
      ensures LocalOk(f', u)
    {
      if u != f.nextTx {
        SameLocal(f, f', u);
      }
    }
  }

  /** After a step of `t`, only `t` itself needs a second look. */
  lemma Rejoin(f: Fine, f': Fine, t: Tx)
    requires Sound(f) && t in f.threads && t in f'.threads && t in f'.pcs
    requires f'.hash == f.hash && f'.threads == f.threads[t := f'.threads[t]] && f'.pcs == f.pcs[t := f'.pcs[t]]
    requires forall m :: m !in f.pcs[t].held ==> Memory(f', m) == Memory(f, m)
    requires LocalOk(f', t) && MutexesOk(f'.mutexes, f'.pcs)
    ensures Sound(f')
  {
    forall u | u in f'.threads
      ensures LocalOk(f', u)
    {
      if u != t {
        assert LocalOk(f, u);
        Undisturbed(f, f', t, u);
      }
    }
  }

  lemma StartSound(f: Fine, t: Tx, a: Action)
    requires Sound(f) && FEnabled(f, Start(t, a))
    ensures Sound(FNext(f, Start(t, a)))
  {
    var f' := FNext(f, Start(t, a));
    assert LocalOk(f, t);
    HeadDisciplined(f.hash, f.threads[t], a);
    assert f'.pcs[t].view.Keys == {};
    Kept(f.mutexes, f.pcs, t, f'.pcs[t]);
    Rejoin(f, f', t);
  }

  lemma Taken(mutexes: map<Mutex, Tx>, pcs: map<Tx, Micro>, t: Tx, mi: Micro, m: Mutex)
    requires MutexesOk(mutexes, pcs) && t in pcs && m !in mutexes && mi.held == pcs[t].held + {m}
    ensures MutexesOk(mutexes[m := t], pcs[t := mi])
  {
  }

  lemma GivenBack(mutexes: map<Mutex, Tx>, pcs: map<Tx, Micro>, t: Tx, mi: Micro, m: Mutex)
    requires MutexesOk(mutexes, pcs) && t in pcs && m in pcs[t].held && mi.held == pcs[t].held - {m}
    ensures MutexesOk(mutexes - {m}, pcs[t := mi])
  {
    assert mutexes[m] == t;
  }

  lemma Kept(mutexes: map<Mutex, Tx>, pcs: map<Tx, Micro>, t: Tx, mi: Micro)
    requires MutexesOk(mutexes, pcs) && t in pcs && mi.held == pcs[t].held
    ensures MutexesOk(mutexes, pcs[t := mi])
  {
  }

  /** The rest of disciplined code is disciplined. */
  lemma Advance(f: Fine, t: Tx)
    requires t in f.threads && t in f.pcs && LocalOk(f, t) && f.pcs[t].code != [] && !f.pcs[t].code[0].Commit?
    ensures var mi := f.pcs[t];
            && InstrOk(f.hash, f.threads[t], mi.held, mi.view.Keys, mi.code[0])
            && Discipline(f.hash, f.threads[t], HeldAfter(mi.held, mi.code[0]),
                          LoadedAfter(mi.view.Keys, mi.code[0]), mi.code[1..])
  {
  }

  lemma LockSound(f: Fine, t: Tx)
    requires Sound(f) && FEnabled(f, Go(t)) && f.pcs[t].code[0].Lock?
    ensures Sound(FNext(f, Go(t)))
  {
    hide Discipline, MutexesOk, DoCommit, DoCheck;
    var f' := FNext(f, Go(t));
    Advance(f, t);
    Taken(f.mutexes, f.pcs, t, f'.pcs[t], f.pcs[t].code[0].m);
    Rejoin(f, f', t);
  }

  lemma UnlockSound(f: Fine, t: Tx)
    requires Sound(f) && FEnabled(f, Go(t)) && f.pcs[t].code[0].Unlock?
    ensures Sound(FNext(f, Go(t)))
  {
    hide Discipline, MutexesOk, DoCommit, DoCheck;
    var f' := FNext(f, Go(t));
    var m := f.pcs[t].code[0].m;
    Advance(f, t);
    assert f'.pcs[t].view.Keys == f.pcs[t].view.Keys - {m};
    GivenBack(f.mutexes, f.pcs, t, f'.pcs[t], m);
    Rejoin(f, f', t);
  }

  lemma LoadSound(f: Fine, t: Tx)
    requires Sound(f) && FEnabled(f, Go(t)) && f.pcs[t].code[0].Load?
    ensures Sound(FNext(f, Go(t)))
  {
    hide Discipline, MutexesOk, DoCommit, DoCheck;
    var f' := FNext(f, Go(t));
    var mi, mi' := f.pcs[t], f'.pcs[t];
    Advance(f, t);
    assert f'.locks == f.locks && f'.stripes == f.stripes;
    assert mi'.view.Keys == mi.view.Keys + {mi.code[0].m};
    Kept(f.mutexes, f.pcs, t, mi');
    Rejoin(f, f', t);
  }

  lemma ForgetSound(f: Fine, t: Tx)
    requires Sound(f) && FEnabled(f, Go(t)) && f.pcs[t].code[0].Forget?
    ensures Sound(FNext(f, Go(t)))
  {
    hide Discipline, MutexesOk, DoCommit, DoCheck;
    var f' := FNext(f, Go(t));
    var mi, mi' := f.pcs[t], f'.pcs[t];
    Advance(f, t);
    assert forall n :: n != HeldM ==> Memory(f', n) == Memory(f, n);
    assert mi'.view.Keys == mi.view.Keys - {HeldM};
    Kept(f.mutexes, f.pcs, t, mi');
    Rejoin(f, f', t);
  }

  lemma EarlyReturnDisciplined(hash: Key -> nat, th: Thread)
    requires !th.phase.Polling?
    ensures Discipline(hash, th, {TableM}, {}, [Unlock(TableM)])
  {
    assert {TableM} - {TableM} == {};
    Prepend(hash, th, {TableM}, {}, Unlock(TableM), []);
    assert [Unlock(TableM)] + [] == [Unlock(TableM)];
  }

  lemma CheckSound(f: Fine, t: Tx)
    requires Sound(f) && FEnabled(f, Go(t)) && f.pcs[t].code[0].CheckEntry?
    ensures Sound(FNext(f, Go(t)))
  {
    hide Discipline, MutexesOk, DoCommit;
    var f' := FNext(f, Go(t));
    Advance(f, t);
    if f.pcs[t].code[0].key !in SeenEntries(f.pcs[t]) {
      assert f'.pcs[t].view.Keys == {};
      EarlyReturnDisciplined(f.hash, f'.threads[t]);
    }
    Kept(f.mutexes, f.pcs, t, f'.pcs[t]);
    Rejoin(f, f', t);
  }

  lemma CommitSound(f: Fine, t: Tx, a: Action)
    requires Sound(f) && FEnabled(f, Go(t)) && f.pcs[t].code[0] == Commit(a)
    ensures Sound(FNext(f, Go(t)))
  {
    var f' := FNext(f, Go(t));
    hide MutexesOk;
    var th, mi := f.threads[t], f.pcs[t];
    assert LocalOk(f, t);
    assert f'.pcs[t].view.Keys == {};
    TailDisciplined(f.hash, th, f'.threads[t], a, Success(th, t, mi, a));
    CommitGuarded(f, t, a);
    Kept(f.mutexes, f.pcs, t, f'.pcs[t]);
    Rejoin(f, f', t);
  }

  /** A write changes only cells whose mutex is held. */
  lemma CommitGuarded(f: Fine, t: Tx, a: Action)
    requires t in f.threads && t in f.pcs && CanAct(f.threads[t], a)
    requires f.pcs[t].held == Guards(f.hash, f.threads[t], a)
    requires forall m :: m in f.pcs[t].view ==> f.pcs[t].view[m] == Memory(f, m)
    requires Needed(f.hash, f.threads[t], a) <= f.pcs[t].view.Keys
    ensures forall m :: m !in f.pcs[t].held ==> Memory(DoCommit(f, t, a), m) == Memory(f, m)
  {
  }

  // ----- the instructions refine the atomic steps

  lemma LocksWritten(f: Fine, t: Tx, a: Action)
    requires t in f.threads && t in f.pcs && CanAct(f.threads[t], a)
    requires LocalOk(f, t) && Needed(f.hash, f.threads[t], a) <= f.pcs[t].view.Keys
    requires f.locks.owner.Keys <= f.locks.entries && (a.Release? ==> t !in f.locks.held)
    ensures WriteLocks(f.locks, f.threads[t], t, f.pcs[t], a) == NextLocks(f.locks, t, f.threads[t].phase, a)
  {
  }

  lemma PhaseWritten(f: Fine, t: Tx, a: Action)
    requires Placed(f.hash, f.stripes)
    requires t in f.threads && t in f.pcs && CanAct(f.threads[t], a)
    requires LocalOk(f, t) && Needed(f.hash, f.threads[t], a) <= f.pcs[t].view.Keys
    ensures WritePhase(f.hash, |f.log|, f.threads[t], t, f.pcs[t], a) == NextPhase(Abs(f), t, a)
  {
    if a.Exec? {
      var k := f.threads[t].ops[f.threads[t].phase.next].key;
      assert Get(Flatten(f.hash, f.stripes), k) == Get(f.stripes[StripeIndex(f.hash, k)], k);
    }
  }

  lemma StripesWritten(f: Fine, t: Tx, a: Action)
    requires Placed(f.hash, f.stripes)
    requires t in f.threads && t in f.pcs && CanAct(f.threads[t], a)
    requires LocalOk(f, t) && Needed(f.hash, f.threads[t], a) <= f.pcs[t].view.Keys
    ensures var stripes' := WriteStripes(f.hash, f.stripes, f.threads[t], f.pcs[t], a);
            && Placed(f.hash, stripes')
            && Flatten(f.hash, stripes') ==
               if a.Exec? then ApplyOp(Flatten(f.hash, f.stripes), f.threads[t].ops[f.threads[t].phase.next])
               else Flatten(f.hash, f.stripes)
  {
    if a.Exec? {
      OnStripeRefines(f.hash, f.stripes, f.threads[t].ops[f.threads[t].phase.next]);
    }
  }

  /** From the snapshot on, `held_locks` does not mention the transaction. */
  lemma Untracked(s: Sys, t: Tx)
    requires HeldOk(s) && t in s.threads && s.threads[t].phase.Releasing?
    ensures t !in s.locks.held
  {
    assert HeldBy(s.locks, t) == Interested(s.threads[t]);
  }

  lemma Assembled(f: Fine, t: Tx, a: Action)
    requires Placed(f.hash, f.stripes) && t in f.threads && t in f.pcs && CanAct(f.threads[t], a)
    requires WriteLocks(f.locks, f.threads[t], t, f.pcs[t], a) == NextLocks(f.locks, t, f.threads[t].phase, a)
    requires WritePhase(f.hash, |f.log|, f.threads[t], t, f.pcs[t], a) == NextPhase(Abs(f), t, a)
    requires var stripes' := WriteStripes(f.hash, f.stripes, f.threads[t], f.pcs[t], a);
             && Placed(f.hash, stripes')
             && Flatten(f.hash, stripes') ==
                if a.Exec? then ApplyOp(Flatten(f.hash, f.stripes), f.threads[t].ops[f.threads[t].phase.next])
                else Flatten(f.hash, f.stripes)
    ensures var f' := DoCommit(f, t, a);
            f'.hash == f.hash && Placed(f'.hash, f'.stripes) && Abs(f') == Next(Abs(f), Act(t, a))
  {
    hide WriteLocks, NextLocks, WritePhase, NextPhase, WriteStripes, ApplyOp, Tail, Success, Placed;
  }

  lemma CommitReady(f: Fine, t: Tx, a: Action)
    requires t in f.threads && t in f.pcs && LocalOk(f, t) && f.pcs[t].code != [] && f.pcs[t].code[0] == Commit(a)
    ensures CanAct(f.threads[t], a) && Needed(f.hash, f.threads[t], a) <= f.pcs[t].view.Keys
  {
  }

  /** Written back from copies taken under the mutex, an action has its atomic effect. */
  lemma CommitSimulates(f: Fine, t: Tx, a: Action)
    requires FineInv(f) && FEnabled(f, Go(t)) && f.pcs[t].code[0] == Commit(a)
    ensures Simulates(f, Go(t))
  {
    hide ThreadsOk, HeldOk, LogOk, SerialOk, MutexesOk, Placed, LocalOk;
    hide WriteLocks, NextLocks, WritePhase, NextPhase, WriteStripes, DoCommit;
    assert LocalOk(f, t);
    CommitReady(f, t, a);
    if a.Release? {
      Untracked(Abs(f), t);
    }
    LocksWritten(f, t, a);
    PhaseWritten(f, t, a);
    StripesWritten(f, t, a);
    Assembled(f, t, a);
    assert FNext(f, Go(t)) == DoCommit(f, t, a) && Coarse(f, Go(t)) == [Act(t, a)];
    assert After(Abs(f), [Act(t, a)]) == Next(Abs(f), Act(t, a));
  }

  lemma CheckSimulates(f: Fine, t: Tx)
    requires Placed(f.hash, f.stripes) && FEnabled(f, Go(t)) && f.pcs[t].code[0].CheckEntry? && LocalOk(f, t)
    ensures Simulates(f, Go(t))
  {
    var k := f.pcs[t].code[0].key;
    if k !in SeenEntries(f.pcs[t]) {
      assert After(Abs(f), [Act(t, Release(k))]) == Next(Abs(f), Act(t, Release(k)));
    }
  }

  lemma SilentSimulates(f: Fine, t: Tx)
    requires Placed(f.hash, f.stripes) && FEnabled(f, Go(t)) && LocalOk(f, t) && HeldOk(Abs(f))
    requires !f.pcs[t].code[0].Commit? && !f.pcs[t].code[0].CheckEntry?
    ensures Simulates(f, Go(t))
  {
    if f.pcs[t].code[0].Forget? {
      Untracked(Abs(f), t);
    }
  }

  lemma GoSound(f: Fine, t: Tx)
    requires Sound(f) && FEnabled(f, Go(t))
    ensures Sound(FNext(f, Go(t)))
  {
    match f.pcs[t].code[0]
    case Lock(_) => LockSound(f, t);
    case Unlock(_) => UnlockSound(f, t);
    case Load(_) => LoadSound(f, t);
    case CheckEntry(_) => CheckSound(f, t);
    case Commit(a) => CommitSound(f, t, a);
    case Forget(_) => ForgetSound(f, t);
  }

  lemma GoSimulates(f: Fine, t: Tx)
    requires FineInv(f) && FEnabled(f, Go(t))
    ensures Simulates(f, Go(t))
  {
    hide ThreadsOk, OwnersOk, HeldOk, LogOk, SerialOk, MutexesOk, Simulates, LocalOk, FNext;
    assert LocalOk(f, t);
    match f.pcs[t].code[0]
    case Commit(a) => CommitSimulates(f, t, a);
    case CheckEntry(_) => CheckSimulates(f, t);
    case _ => SilentSimulates(f, t);
  }

  lemma SpawnSimulates(f: Fine, ops: seq<Op>)
    requires Placed(f.hash, f.stripes)
    ensures Simulates(f, Spawn(ops))
  {
    assert After(Abs(f), [Begin(ops)]) == Next(Abs(f), Begin(ops));
  }

  lemma StartSimulates(f: Fine, t: Tx, a: Action)
    requires Placed(f.hash, f.stripes) && FEnabled(f, Start(t, a))
    ensures Simulates(f, Start(t, a))
  {
  }

  /** One fine step is at most one atomic step, and keeps everything that makes the next one so. */
  lemma StepRefines(f: Fine, step: FStep)
    requires FineInv(f) && FEnabled(f, step)
    ensures Simulates(f, step) && FineInv(FNext(f, step))
  {
    hide OwnersOk, HeldOk, LogOk, SerialOk, Sound, FNext, FEnabled, Coarse, Placed;
    assert ThreadsOk(Abs(f));
    match step {
      case Spawn(ops) =>
        SpawnSound(f, ops);
        SpawnSimulates(f, ops);
      case Start(t, a) =>
        StartSound(f, t, a);
        StartSimulates(f, t, a);
      case Go(t) =>
        GoSound(f, t);
        GoSimulates(f, t);
    }
    RunInv(Abs(f), Coarse(f, step));
  }

  /** The atomic steps of a whole fine-grained run. */
  function Project(f: Fine, steps: seq<FStep>): seq<Step>
    requires FFeasible(f, steps)
    decreases steps
  {
    if steps == [] then [] else Coarse(f, steps[0]) + Project(FNext(f, steps[0]), steps[1..])
  }

  lemma {:induction false} RunRefines(f: Fine, steps: seq<FStep>)
    requires FineInv(f) && FFeasible(f, steps)
    ensures FineInv(FAfter(f, steps))
    ensures Feasible(Abs(f), Project(f, steps)) && Abs(FAfter(f, steps)) == After(Abs(f), Project(f, steps))
    decreases steps
  {
    if steps != [] {
      StepRefines(f, steps[0]);
      RunRefines(FNext(f, steps[0]), steps[1..]);
      Concat(Abs(f), Coarse(f, steps[0]), Project(FNext(f, steps[0]), steps[1..]));
    }
  }

  /**
   Every instruction-level run, whatever the hash function and the interleaving, is a run of the
   atomic step system with the same lock table, transactions and log, and with the union of the
   stripes as its store. So all that holds of every atomic run holds under the real mutexes.
   */
  lemma RefinesAtomicSteps(hash: Key -> nat, steps: seq<FStep>)
    requires FFeasible(Initial(hash), steps)
    ensures var f := FAfter(Initial(hash), steps);
            && Placed(hash, f.stripes) && f.hash == hash
            && Feasible(INIT, Project(Initial(hash), steps))
            && After(INIT, Project(Initial(hash), steps)) ==
               Sys(f.locks, Flatten(hash, f.stripes), f.threads, f.nextTx, f.log, f.history)
  {
    InitialInv(hash);
    RunRefines(Initial(hash), steps);
    HashKept(Initial(hash), steps);
  }

  lemma {:induction false} HashKept(f: Fine, steps: seq<FStep>)
    requires FFeasible(f, steps)
    ensures FAfter(f, steps).hash == f.hash
    decreases steps
  {
    if steps != [] {
      HashKept(FNext(f, steps[0]), steps[1..]);
    }
  }

  /** Which mutexes a thread holds, as a set of its own and in the table of mutexes. */
  ghost predicate HoldsJust(f: Fine, t: Tx, ms: set<Mutex>) {
    forall m :: m in ms <==> m in f.mutexes && f.mutexes[m] == t
  }

  lemma HeldIsHeld(f: Fine, t: Tx)
    requires Sound(f) && t in f.threads
    ensures HoldsJust(f, t, f.pcs[t].held)
  {
  }

  /**
   What is held at each write, in any instruction-level run: exactly the mutexes of the cells written,
   and the entry's besides while interest is recorded and while `held_locks` is cleaned up. Between
   critical sections nothing is held, except by a thread in `acquire`, which keeps its entry.
   */
  lemma WritesGuarded(hash: Key -> nat, steps: seq<FStep>, t: Tx)
    requires FFeasible(Initial(hash), steps) && t in FAfter(Initial(hash), steps).threads
    ensures var f := FAfter(Initial(hash), steps);
            var p := f.threads[t].phase;
            && t in f.pcs
            && var code := f.pcs[t].code;
               if code == [] then HoldsJust(f, t, if p.Polling? then {EntryM(p.key)} else {})
               else
                 match code[0]
                 case Commit(Request(_)) => HoldsJust(f, t, {TableM})
                 case Commit(Interest) => p.Requesting? && HoldsJust(f, t, {EntryM(p.key), HeldM})
                 case Commit(Poll) => p.Polling? && HoldsJust(f, t, {EntryM(p.key)})
                 case Commit(Exec) =>
                   && p.Executing? && p.next < |f.threads[t].ops|
                   && HoldsJust(f, t, {StripeM(hash(f.threads[t].ops[p.next].key) % 256)})
                 case Commit(Snapshot) => HoldsJust(f, t, {HeldM})
                 case Commit(Release(k)) => HoldsJust(f, t, {TableM, EntryM(k)})
                 case Forget(k) => HoldsJust(f, t, {TableM, EntryM(k), HeldM})
                 case Commit(_) => HoldsJust(f, t, {})
                 case _ => true
  {
    hide ThreadsOk, OwnersOk, HeldOk, LogOk, SerialOk, HoldsJust;
    InitialInv(hash);
    RunRefines(Initial(hash), steps);
    HashKept(Initial(hash), steps);
    var f := FAfter(Initial(hash), steps);
    assert LocalOk(f, t);
    HeldIsHeld(f, t);
  }
}
