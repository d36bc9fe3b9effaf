/**
 The single-node engine as a step system. Any number of transactions run at once; each step is one
 critical section of one of them (or one thread-local decision), and any enabled step may come next.
 `log`, `history`, `refused` and the positions `at` only record what happened: no step depends on them.
 */
module Engine {
  import opened Types
  import opened Serial
  import opened LockTable

  datatype Outcome = Committed(at: nat, results: seq<ReadResult>) | Aborted

  /**
   Where a transaction is. `todo` are keys not yet asked for, `fails` counts failed polls of the
   current `acquire`, `at` is the position in `log`, `left` is the unprocessed part of the
   `release_all` snapshot, `refused` the key on which the transaction gave up.
   */
  datatype Phase =
    | Acquiring(todo: set<Key>)
    | Requesting(key: Key, todo: set<Key>)
    | Polling(key: Key, todo: set<Key>, fails: nat)
    | Executing(at: nat, next: nat, results: seq<ReadResult>)
    | Releasing(outcome: Outcome, left: set<Key>, refused: Option<Key>)
    | Done(outcome: Outcome)

  datatype Thread = Thread(ops: seq<Op>, phase: Phase)

  /** One store operation, as it happened. */
  datatype Event = Event(tx: Tx, op: Op)

  datatype Sys = Sys(
    locks: LockState,
    store: Store,
    threads: map<Tx, Thread>,
    nextTx: Tx,
    log: seq<Entry>,
    history: seq<Event>)

  const INIT := Sys(EMPTY, map[], map[], 1, [], [])

  datatype Action =
    | Request(key: Key)   // create the lock entry of one more key, in any order
    | Interest            // record the key in held_locks
    | Poll                // look at the entry once, and take it if possible
    | LockPoint           // every key is owned: the locking phase returns true
    | Exec                // one store get or append
    | Snapshot            // release_all moves held_locks[tx] out, after success or exhaustion
    | Release(rkey: Key)  // release one key of the snapshot, in any order
    | Return

  datatype Step = Begin(ops: seq<Op>) | Act(tx: Tx, action: Action)

  /** What the next action of a transaction may be; it depends on nothing but its own state. */
  predicate CanAct(th: Thread, action: Action) {
    match action
    case Request(k) => th.phase.Acquiring? && k in th.phase.todo
    case Interest => th.phase.Requesting?
    case Poll => th.phase.Polling? && th.phase.fails < MAX_POLLS
    case LockPoint => th.phase.Acquiring? && th.phase.todo == {}
    case Exec => th.phase.Executing? && th.phase.next < |th.ops|
    case Snapshot =>
      || (th.phase.Executing? && th.phase.next == |th.ops|)
      || (th.phase.Polling? && th.phase.fails == MAX_POLLS)
    case Release(k) => th.phase.Releasing? && k in th.phase.left
    case Return => th.phase.Releasing? && th.phase.left == {}
  }

  predicate Enabled(s: Sys, step: Step) {
    step.Begin? || (step.tx in s.threads && CanAct(s.threads[step.tx], step.action))
  }

  function NextLocks(ls: LockState, tx: Tx, phase: Phase, action: Action): LockState
    requires action.Interest? ==> phase.Requesting?
    requires action.Poll? ==> phase.Polling?
  {
    match action
    case Request(k) => CreateEntry(ls, k)
    case Interest => RecordInterest(ls, phase.key, tx)
    case Poll => PollOnce(ls, phase.key, tx, phase.fails)
    case Snapshot => TakeSnapshot(ls, tx)
    case Release(k) => ReleaseKey(ls, k, tx)
    case _ => ls
  }

  function ReadIfAny(store: Store, op: Op): seq<ReadResult> {
    if op.Read? then [ReadResult(op.key, Get(store, op.key))] else []
  }

  /** The release phase, after the last operation or after the last refused poll. */
  function Closing(p: Phase, left: set<Key>): Phase
    requires p.Executing? || p.Polling?
  {
    match p
    case Executing(at, _, results) => Releasing(Committed(at, results), left, None)
    case Polling(key, _, _) => Releasing(Aborted, left, Some(key))
  }

  function NextPhase(s: Sys, tx: Tx, action: Action): Phase
    requires Enabled(s, Act(tx, action))
  {
    var th := s.threads[tx];
    var p := th.phase;
    match action
    case Request(k) => Requesting(k, p.todo - {k})
    case Interest => Polling(p.key, p.todo, 0)
    case Poll => if PollSucceeds(s.locks, p.key, tx, p.fails) then Acquiring(p.todo) else p.(fails := p.fails + 1)
    case LockPoint => Executing(|s.log|, 0, [])
    case Exec => Executing(p.at, p.next + 1, p.results + ReadIfAny(s.store, th.ops[p.next]))
    case Snapshot => Closing(p, HeldBy(s.locks, tx))
    case Release(k) => p.(left := p.left - {k})
    case Return => Done(p.outcome)
  }

  function Next(s: Sys, step: Step): Sys
    requires Enabled(s, step)
  {
    match step
    case Begin(ops) =>
      s.(threads := s.threads[s.nextTx := Thread(ops, Acquiring(Keys(ops)))], nextTx := s.nextTx + 1)
    case Act(tx, action) =>
      var th := s.threads[tx];
      Sys(NextLocks(s.locks, tx, th.phase, action),
          if action.Exec? then ApplyOp(s.store, th.ops[th.phase.next]) else s.store,
          s.threads[tx := Thread(th.ops, NextPhase(s, tx, action))],
          s.nextTx,
          if action.LockPoint? then s.log + [Entry(tx, th.ops)] else s.log,
          if action.Exec? then s.history + [Event(tx, th.ops[th.phase.next])] else s.history)
  }

  /** `steps` can be taken one after another from `s`. */
  predicate Feasible(s: Sys, steps: seq<Step>)
    decreases steps
  {
    steps == [] || (Enabled(s, steps[0]) && Feasible(Next(s, steps[0]), steps[1..]))
  }

  function After(s: Sys, steps: seq<Step>): Sys
    requires Feasible(s, steps)
    decreases steps
  {
    if steps == [] then s else After(Next(s, steps[0]), steps[1..])
  }

  lemma {:induction false} Concat(s: Sys, a: seq<Step>, b: seq<Step>)
    requires Feasible(s, a) && Feasible(After(s, a), b)
    ensures Feasible(s, a + b) && After(s, a + b) == After(After(s, a), b)
    decreases a
  {
    if a == [] {
      assert a + b == b;
    } else {
      assert (a + b)[1..] == a[1..] + b;
      Concat(Next(s, a[0]), a[1..], b);
    }
  }

  lemma {:induction false} Split(s: Sys, a: seq<Step>, b: seq<Step>)
    requires Feasible(s, a + b)
    ensures Feasible(s, a) && Feasible(After(s, a), b) && After(s, a + b) == After(After(s, a), b)
    decreases a
  {
    if a == [] {
      assert a + b == b;
    } else {
      assert (a + b)[1..] == a[1..] + b;
      Split(Next(s, a[0]), a[1..], b);
    }
  }

  /** `s` is the state a run from the empty system has reached. */
  ghost predicate Reached(run: seq<Step>, s: Sys) {
    Feasible(INIT, run) && After(INIT, run) == s
  }

  lemma Extended(run: seq<Step>, s: Sys, step: Step)
    requires Reached(run, s) && Enabled(s, step)
    ensures Reached(run + [step], Next(s, step))
  {
    assert Feasible(Next(s, step), []) && After(s, [step]) == After(Next(s, step), []);
    Concat(INIT, run, [step]);
  }

  /** Every transaction has returned. */
  predicate Quiescent(s: Sys) {
    forall t :: t in s.threads ==> s.threads[t].phase.Done?
  }
}
