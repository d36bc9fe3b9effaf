/**
 The engine at the level of its mutexes. Shared memory is split into cells, one per mutex; a
 critical section locks, copies cells into thread-local views, and writes back what it computed
 from those copies. Other threads run between any two instructions.
 */
module Mutexes {
  import opened Types
  import opened Serial
  import opened LockTable
  import opened Engine
  import opened Striping

  /** `table_mutex`, the mutex of one lock entry, `held_locks_mutex`, and that of one store stripe. */
  datatype Mutex = TableM | EntryM(key: Key) | HeldM | StripeM(index: nat)

  /** What a mutex guards. */
  datatype Cell =
    | EntriesCell(entries: set<Key>)
    | OwnerCell(owner: Option<Tx>)
    | HeldCell(held: map<Tx, set<Key>>)
    | StripeCell(part: Store)

  datatype Instr =
    | Lock(m: Mutex)
    | Unlock(m: Mutex)
    | Load(m: Mutex)
    | CheckEntry(key: Key)   // `release` returns early when the table has no such entry
    | Commit(action: Action) // write back; the one instruction that changes shared memory here
    | Forget(key: Key)       // the `held_locks` clean-up at the end of `release`

  /** A thread inside or between critical sections. */
  datatype Micro = Micro(held: set<Mutex>, view: map<Mutex, Cell>, code: seq<Instr>)

  const IDLE := Micro({}, map[], [])

  datatype Fine = Fine(
    hash: Key -> nat,
    locks: LockState,
    stripes: seq<Store>,
    threads: map<Tx, Thread>,
    nextTx: Tx,
    log: seq<Entry>,
    history: seq<Event>,
    mutexes: map<Mutex, Tx>,
    pcs: map<Tx, Micro>)

  datatype FStep = Spawn(ops: seq<Op>) | Start(tx: Tx, action: Action) | Go(tx: Tx)

  function Initial(hash: Key -> nat): Fine {
    Fine(hash, EMPTY, seq(NUM_STRIPES, _ => map[]), map[], 1, [], [], map[], map[])
  }

  function Memory(f: Fine, m: Mutex): Cell {
    match m
    case TableM => EntriesCell(f.locks.entries)
    case EntryM(k) => OwnerCell(OwnerOf(f.locks, k))
    case HeldM => HeldCell(f.locks.held)
    case StripeM(i) => StripeCell(if i < |f.stripes| then f.stripes[i] else map[])
  }

  function StripeOf(hash: Key -> nat, th: Thread): Mutex
    requires CanAct(th, Exec)
  {
    StripeM(StripeIndex(hash, th.ops[th.phase.next].key))
  }

  /** The instructions of an action up to its write. */
  function Head(hash: Key -> nat, th: Thread, a: Action): seq<Instr>
    requires CanAct(th, a)
  {
    match a
    case Request(k) => [Lock(TableM), Load(TableM), Commit(a)]
    case Interest => [Lock(EntryM(th.phase.key)), Lock(HeldM), Load(HeldM), Commit(a)]
    case Poll => [Load(EntryM(th.phase.key)), Commit(a)]
    case Exec => [Lock(StripeOf(hash, th)), Load(StripeOf(hash, th)), Commit(a)]
    case Snapshot =>
      (if th.phase.Polling? then [Unlock(EntryM(th.phase.key))] else []) + [Lock(HeldM), Load(HeldM), Commit(a)]
    case Release(k) => [Lock(TableM), Load(TableM), CheckEntry(k), Lock(EntryM(k)), Load(EntryM(k)), Commit(a)]
    case _ => [Commit(a)]
  }

  /**
   The instructions after the write. A failed poll drops the entry mutex and takes it again; a
   release that found the key its own also cleans up `held_locks`.
   */
  function Tail(hash: Key -> nat, th: Thread, a: Action, success: bool): seq<Instr>
    requires CanAct(th, a)
  {
    match a
    case Request(k) => [Unlock(TableM)]
    case Interest => [Unlock(HeldM)]
    case Poll => [Unlock(EntryM(th.phase.key))] + (if success then [] else [Lock(EntryM(th.phase.key))])
    case Exec => [Unlock(StripeOf(hash, th))]
    case Snapshot => [Unlock(HeldM)]
    case Release(k) =>
      (if success then [Lock(HeldM), Load(HeldM), Forget(k), Unlock(HeldM)] else []) +
      [Unlock(EntryM(k)), Unlock(TableM)]
    case _ => []
  }

  /** Mutexes held at the write of an action; all of their cells have been loaded but the entry's in `Interest`. */
  function Guards(hash: Key -> nat, th: Thread, a: Action): set<Mutex>
    requires CanAct(th, a)
  {
    match a
    case Request(k) => {TableM}
    case Interest => {EntryM(th.phase.key), HeldM}
    case Poll => {EntryM(th.phase.key)}
    case Exec => {StripeOf(hash, th)}
    case Snapshot => {HeldM}
    case Release(k) => {TableM, EntryM(k)}
    case _ => {}
  }

  function Needed(hash: Key -> nat, th: Thread, a: Action): set<Mutex>
    requires CanAct(th, a)
  {
    if a.Interest? then {HeldM} else Guards(hash, th, a)
  }

  /** Between critical sections only a polling thread keeps a mutex. */
  function IdleHeld(th: Thread): set<Mutex> {
    if th.phase.Polling? then {EntryM(th.phase.key)} else {}
  }

  function Level(m: Mutex): nat {
    match m
    case TableM => 0
    case EntryM(_) => 1
    case HeldM => 2
    case StripeM(_) => 3
  }

  function HeldAfter(held: set<Mutex>, i: Instr): set<Mutex> {
    match i
    case Lock(m) => held + {m}
    case Unlock(m) => held - {m}
    case _ => held
  }

  function LoadedAfter(loaded: set<Mutex>, i: Instr): set<Mutex> {
    match i
    case Load(m) => loaded + {m}
    case Unlock(m) => loaded - {m}
    case Forget(_) => loaded - {HeldM}
    case _ => loaded
  }

  /** Mutexes are taken in rising level; cells are loaded and written only under their mutex. */
  predicate InstrOk(hash: Key -> nat, th: Thread, held: set<Mutex>, loaded: set<Mutex>, i: Instr) {
    match i
    case Lock(m) => forall h :: h in held ==> Level(h) < Level(m)
    case Unlock(m) => m in held
    case Load(m) => m in held
    case CheckEntry(k) => held == {TableM} && TableM in loaded && CanAct(th, Release(k))
    case Commit(a) => CanAct(th, a) && held == Guards(hash, th, a) && Needed(hash, th, a) <= loaded
    case Forget(k) => held == {TableM, EntryM(k), HeldM} && HeldM in loaded && th.phase.Releasing?
  }

  /** The locking discipline of a piece of code, which ends in a write or in what an idle thread may hold. */
  predicate Discipline(hash: Key -> nat, th: Thread, held: set<Mutex>, loaded: set<Mutex>, code: seq<Instr>)
    decreases |code|
  {
    if code == [] then held == IdleHeld(th)
    else
      && InstrOk(hash, th, held, loaded, code[0])
      && if code[0].Commit? then |code| == 1
         else Discipline(hash, th, HeldAfter(held, code[0]), LoadedAfter(loaded, code[0]), code[1..])
  }

  lemma Prepend(hash: Key -> nat, th: Thread, held: set<Mutex>, loaded: set<Mutex>, i: Instr, rest: seq<Instr>)
    requires InstrOk(hash, th, held, loaded, i) && !i.Commit?
    requires Discipline(hash, th, HeldAfter(held, i), LoadedAfter(loaded, i), rest)
    ensures Discipline(hash, th, held, loaded, [i] + rest)
  {
    assert ([i] + rest)[1..] == rest;
  }

  /** Lock, load, write. */
  lemma SectionDisciplined(hash: Key -> nat, th: Thread, held: set<Mutex>, m: Mutex, a: Action)
    requires CanAct(th, a) && Guards(hash, th, a) == held + {m} && Needed(hash, th, a) == {m}
    requires forall h :: h in held ==> Level(h) < Level(m)
    ensures Discipline(hash, th, held, {}, [Lock(m), Load(m), Commit(a)])
  {
    Prepend(hash, th, held + {m}, {}, Load(m), [Commit(a)]);
    Prepend(hash, th, held, {}, Lock(m), [Load(m)] + [Commit(a)]);
    assert [Lock(m)] + ([Load(m)] + [Commit(a)]) == [Lock(m), Load(m), Commit(a)];
  }

  lemma PollDisciplined(hash: Key -> nat, th: Thread)
    requires CanAct(th, Poll)
    ensures Discipline(hash, th, IdleHeld(th), {}, Head(hash, th, Poll))
  {
    var e := EntryM(th.phase.key);
    Prepend(hash, th, {e}, {}, Load(e), [Commit(Poll)]);
    assert [Load(e)] + [Commit(Poll)] == Head(hash, th, Poll);
  }

  lemma ReleaseDisciplined(hash: Key -> nat, th: Thread, k: Key)
    requires CanAct(th, Release(k))
    ensures Discipline(hash, th, {}, {}, Head(hash, th, Release(k)))
  {
    var e := EntryM(k);
    var c1 := [Load(e)] + [Commit(Release(k))];
    Prepend(hash, th, {TableM, e}, {TableM}, Load(e), [Commit(Release(k))]);
    var c2 := [Lock(e)] + c1;
    assert {TableM} + {e} == {TableM, e};
    Prepend(hash, th, {TableM}, {TableM}, Lock(e), c1);
    var c3 := [CheckEntry(k)] + c2;
    Prepend(hash, th, {TableM}, {TableM}, CheckEntry(k), c2);
    var c4 := [Load(TableM)] + c3;
    assert {} + {TableM} == {TableM};
    Prepend(hash, th, {TableM}, {}, Load(TableM), c3);
    Prepend(hash, th, {}, {}, Lock(TableM), c4);
    assert [Lock(TableM)] + c4 == Head(hash, th, Release(k));
  }

  lemma HeadDisciplined(hash: Key -> nat, th: Thread, a: Action)
    requires CanAct(th, a)
    ensures Discipline(hash, th, IdleHeld(th), {}, Head(hash, th, a))
  {
    match a
    case Request(_) => SectionDisciplined(hash, th, {}, TableM, a);
    case Interest =>
      var e := EntryM(th.phase.key);
      SectionDisciplined(hash, th, {e}, HeldM, a);
      assert {} + {e} == {e};
      Prepend(hash, th, {}, {}, Lock(e), [Lock(HeldM), Load(HeldM), Commit(a)]);
      assert [Lock(e)] + [Lock(HeldM), Load(HeldM), Commit(a)] == Head(hash, th, a);
    case Poll => PollDisciplined(hash, th);
    case Exec => SectionDisciplined(hash, th, {}, StripeOf(hash, th), a);
    case Snapshot =>
      SectionDisciplined(hash, th, {}, HeldM, a);
      if th.phase.Polling? {
        var e := EntryM(th.phase.key);
        assert {e} - {e} == {};
        Prepend(hash, th, {e}, {}, Unlock(e), [Lock(HeldM), Load(HeldM), Commit(a)]);
        assert [Unlock(e)] + [Lock(HeldM), Load(HeldM), Commit(a)] == Head(hash, th, a);
      }
    case Release(k) => ReleaseDisciplined(hash, th, k);
    case _ =>
  }

  /** The rest of `release`: clean up, then give the mutexes back in reverse order. */
  lemma ReleaseTailDisciplined(hash: Key -> nat, th: Thread, th': Thread, k: Key, success: bool)
    requires CanAct(th, Release(k)) && th'.phase.Releasing?
    ensures Discipline(hash, th', {TableM, EntryM(k)}, {}, Tail(hash, th, Release(k), success))
  {
    var e := EntryM(k);
    var t1 := [Unlock(e), Unlock(TableM)];
    assert {TableM, e} - {e} == {TableM} && {TableM} - {TableM} == {};
    Prepend(hash, th', {TableM}, {}, Unlock(TableM), []);
    Prepend(hash, th', {TableM, e}, {}, Unlock(e), [Unlock(TableM)] + []);
    assert [Unlock(e)] + ([Unlock(TableM)] + []) == t1;
    if success {
      var all := {TableM, e} + {HeldM};
      assert all - {HeldM} == {TableM, e} && {} + {HeldM} == {HeldM} && {HeldM} - {HeldM} == {};
      var t2 := [Unlock(HeldM)] + t1;
      Prepend(hash, th', all, {}, Unlock(HeldM), t1);
      var t3 := [Forget(k)] + t2;
      Prepend(hash, th', all, {HeldM}, Forget(k), t2);
      var t4 := [Load(HeldM)] + t3;
      Prepend(hash, th', all, {}, Load(HeldM), t3);
      Prepend(hash, th', {TableM, e}, {}, Lock(HeldM), t4);
      assert [Lock(HeldM)] + t4 == Tail(hash, th, Release(k), true);
    } else {
      assert Tail(hash, th, Release(k), false) == t1;
    }
  }

  lemma TailDisciplined(hash: Key -> nat, th: Thread, th': Thread, a: Action, success: bool)
    requires CanAct(th, a)
    requires match a
             case Interest => th'.phase.Polling? && th'.phase.key == th.phase.key
             case Poll => if success then !th'.phase.Polling? else th'.phase.Polling? && th'.phase.key == th.phase.key
             case Release(_) => th'.phase.Releasing?
             case _ => !th'.phase.Polling?
    ensures Discipline(hash, th', Guards(hash, th, a), {}, Tail(hash, th, a, success))
  {
    match a
    case Release(k) => ReleaseTailDisciplined(hash, th, th', k, success);
    case Poll =>
      var e := EntryM(th.phase.key);
      assert {e} - {e} == {} && {} + {e} == {e};
      if success {
        Prepend(hash, th', {e}, {}, Unlock(e), []);
      } else {
        Prepend(hash, th', {}, {}, Lock(e), []);
        Prepend(hash, th', {e}, {}, Unlock(e), [Lock(e)] + []);
        assert [Unlock(e)] + ([Lock(e)] + []) == Tail(hash, th, a, success);
      }
    case LockPoint =>
    case Return =>
    case _ =>
      var code := Tail(hash, th, a, success);
      assert Guards(hash, th, a) - {code[0].m} == IdleHeld(th');
      Prepend(hash, th', Guards(hash, th, a), {}, code[0], []);
      assert [code[0]] + [] == code;
  }

  // ----- the instructions at work

  function SeenEntries(mi: Micro): set<Key> {
    if TableM in mi.view && mi.view[TableM].EntriesCell? then mi.view[TableM].entries else {}
  }

  function SeenOwner(mi: Micro, k: Key): Option<Tx> {
    if EntryM(k) in mi.view && mi.view[EntryM(k)].OwnerCell? then mi.view[EntryM(k)].owner else None
  }

  function SeenHeld(mi: Micro): map<Tx, set<Key>> {
    if HeldM in mi.view && mi.view[HeldM].HeldCell? then mi.view[HeldM].held else map[]
  }

  function SeenPart(mi: Micro, m: Mutex): Store {
    if m in mi.view && mi.view[m].StripeCell? then mi.view[m].part else map[]
  }

  /** A poll takes the key or meets its own id; a release finds the key its own. */
  predicate Success(th: Thread, t: Tx, mi: Micro, a: Action)
    requires CanAct(th, a)
  {
    match a
    case Poll => Accepts(SeenOwner(mi, th.phase.key), t, th.phase.fails)
    case Release(k) => SeenOwner(mi, k) == Some(t)
    case _ => true
  }

  function WriteLocks(ls: LockState, th: Thread, t: Tx, mi: Micro, a: Action): LockState
    requires CanAct(th, a)
  {
    match a
    case Request(k) => ls.(entries := SeenEntries(mi) + {k})
    case Interest => ls.(held := SeenHeld(mi)[t := HeldIn(SeenHeld(mi), t) + {th.phase.key}])
    case Poll => if Success(th, t, mi, a) then ls.(owner := ls.owner[th.phase.key := t]) else ls
    case Snapshot => ls.(held := SeenHeld(mi) - {t})
    case Release(k) => if Success(th, t, mi, a) then ls.(owner := ls.owner - {k}) else ls
    case _ => ls
  }

  function WriteStripes(hash: Key -> nat, stripes: seq<Store>, th: Thread, mi: Micro, a: Action): seq<Store>
    requires CanAct(th, a)
  {
    if a.Exec? && StripeOf(hash, th).index < |stripes| then
      stripes[StripeOf(hash, th).index := ApplyOp(SeenPart(mi, StripeOf(hash, th)), th.ops[th.phase.next])]
    else stripes
  }

  function WritePhase(hash: Key -> nat, at: nat, th: Thread, t: Tx, mi: Micro, a: Action): Phase
    requires CanAct(th, a)
  {
    var p := th.phase;
    match a
    case Request(k) => Requesting(k, p.todo - {k})
    case Interest => Polling(p.key, p.todo, 0)
    case Poll => if Success(th, t, mi, a) then Acquiring(p.todo) else p.(fails := p.fails + 1)
    case LockPoint => Executing(at, 0, [])
    case Exec =>
      Executing(p.at, p.next + 1, p.results + ReadIfAny(SeenPart(mi, StripeOf(hash, th)), th.ops[p.next]))
    case Snapshot => Closing(p, HeldIn(SeenHeld(mi), t))
    case Release(k) => p.(left := p.left - {k})
    case Return => Done(p.outcome)
  }

  /** A thread that is not waiting for a mutex can go on. */
  predicate FEnabled(f: Fine, step: FStep) {
    match step
    case Spawn(_) => true
    case Start(t, a) => t in f.threads && t in f.pcs && f.pcs[t].code == [] && CanAct(f.threads[t], a)
    case Go(t) =>
      && t in f.threads && t in f.pcs && f.pcs[t].code != []
      && match f.pcs[t].code[0]
         case Lock(m) => m !in f.mutexes
         case Commit(a) => CanAct(f.threads[t], a)
         case CheckEntry(k) => CanAct(f.threads[t], Release(k))
         case _ => true
  }

  function DoCommit(f: Fine, t: Tx, a: Action): Fine
    requires t in f.threads && t in f.pcs && CanAct(f.threads[t], a)
  {
    var th := f.threads[t];
    var mi := f.pcs[t];
    f.(locks := WriteLocks(f.locks, th, t, mi, a),
       stripes := WriteStripes(f.hash, f.stripes, th, mi, a),
       threads := f.threads[t := Thread(th.ops, WritePhase(f.hash, |f.log|, th, t, mi, a))],
       log := if a.LockPoint? then f.log + [Entry(t, th.ops)] else f.log,
       history := if a.Exec? then f.history + [Event(t, th.ops[th.phase.next])] else f.history,
       pcs := f.pcs[t := Micro(mi.held, map[], Tail(f.hash, th, a, Success(th, t, mi, a)))])
  }

  function DoCheck(f: Fine, t: Tx, k: Key): Fine
    requires t in f.threads && t in f.pcs && f.pcs[t].code != [] && CanAct(f.threads[t], Release(k))
  {
    var th := f.threads[t];
    var mi := f.pcs[t];
    if k in SeenEntries(mi) then f.(pcs := f.pcs[t := mi.(code := mi.code[1..])])
    else
      f.(threads := f.threads[t := Thread(th.ops, th.phase.(left := th.phase.left - {k}))],
         pcs := f.pcs[t := Micro(mi.held, map[], [Unlock(TableM)])])
  }

  function FNext(f: Fine, step: FStep): Fine
    requires FEnabled(f, step)
  {
    match step
    case Spawn(ops) =>
      f.(threads := f.threads[f.nextTx := Thread(ops, Acquiring(Keys(ops)))],
         pcs := f.pcs[f.nextTx := IDLE], nextTx := f.nextTx + 1)
    case Start(t, a) => f.(pcs := f.pcs[t := Micro(f.pcs[t].held, map[], Head(f.hash, f.threads[t], a))])
    case Go(t) =>
      var mi := f.pcs[t];
      match mi.code[0]
      case Lock(m) =>
        f.(mutexes := f.mutexes[m := t], pcs := f.pcs[t := Micro(mi.held + {m}, mi.view, mi.code[1..])])
      case Unlock(m) =>
        f.(mutexes := f.mutexes - {m}, pcs := f.pcs[t := Micro(mi.held - {m}, mi.view - {m}, mi.code[1..])])
      case Load(m) => f.(pcs := f.pcs[t := Micro(mi.held, mi.view[m := Memory(f, m)], mi.code[1..])])
      case CheckEntry(k) => DoCheck(f, t, k)
      case Commit(a) => DoCommit(f, t, a)
      case Forget(k) =>
        f.(locks := f.locks.(held := Untrack(SeenHeld(mi), k, t)),
           pcs := f.pcs[t := Micro(mi.held, mi.view - {HeldM}, mi.code[1..])])
  }

  predicate FFeasible(f: Fine, steps: seq<FStep>)
    decreases steps
  {
    steps == [] || (FEnabled(f, steps[0]) && FFeasible(FNext(f, steps[0]), steps[1..]))
  }

  function FAfter(f: Fine, steps: seq<FStep>): Fine
    requires FFeasible(f, steps)
    decreases steps
  {
    if steps == [] then f else FAfter(FNext(f, steps[0]), steps[1..])
  }
}
