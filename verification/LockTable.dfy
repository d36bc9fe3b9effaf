/**
 The lock manager's shared data as a value, with one function per critical section.
 `entries` are the keys of `lock_table`, `owner` the engaged owner fields, `held` is `held_locks`.
 */
module LockTable {
  import opened Types

  datatype LockState = LockState(entries: set<Key>, owner: map<Key, Tx>, held: map<Tx, set<Key>>)

  const EMPTY := LockState({}, map[], map[])

  const MAX_SPINS: nat := 1000
  const MAX_YIELDS: nat := 500
  const MAX_POLLS: nat := MAX_SPINS + MAX_YIELDS

  function HeldIn(held: map<Tx, set<Key>>, tx: Tx): set<Key> {
    if tx in held then held[tx] else {}
  }

  function HeldBy(ls: LockState, tx: Tx): set<Key> {
    HeldIn(ls.held, tx)
  }

  /** The owner field of an entry. */
  function OwnerOf(ls: LockState, key: Key): Option<Tx> {
    if key in ls.owner then Some(ls.owner[key]) else None
  }

  predicate Owns(ls: LockState, key: Key, tx: Tx) {
    key in ls.owner && ls.owner[key] == tx
  }

  function CreateEntry(ls: LockState, key: Key): LockState {
    ls.(entries := ls.entries + {key})
  }

  function RecordInterest(ls: LockState, key: Key, tx: Tx): LockState {
    ls.(held := ls.held[tx := HeldBy(ls, tx) + {key}])
  }

  /**
   Whether the poll made after `fails` failed ones succeeds, given the owner it sees. A free key is
   always taken; a key the caller already owns is accepted in the first loop only.
   */
  predicate Accepts(seen: Option<Tx>, tx: Tx, fails: nat) {
    seen == None || (seen == Some(tx) && fails < MAX_SPINS)
  }

  predicate PollSucceeds(ls: LockState, key: Key, tx: Tx, fails: nat) {
    Accepts(OwnerOf(ls, key), tx, fails)
  }

  function PollOnce(ls: LockState, key: Key, tx: Tx, fails: nat): LockState {
    if PollSucceeds(ls, key, tx, fails) then ls.(owner := ls.owner[key := tx]) else ls
  }

  /** The second loop does not look for the caller's own id. */
  lemma PollExact(ls: LockState, key: Key, tx: Tx, fails: nat)
    ensures PollSucceeds(ls, key, tx, fails) <==> key !in ls.owner || (Owns(ls, key, tx) && fails < 1000)
    ensures forall k, t :: Owns(PollOnce(ls, key, tx, fails), k, t) <==>
                           Owns(ls, k, t) || (k == key && t == tx && key !in ls.owner)
  {
  }

  /** `release_all` first moves the whole interest set out of `held_locks`. */
  function TakeSnapshot(ls: LockState, tx: Tx): LockState {
    ls.(held := ls.held - {tx})
  }

  /** The tracking half of `release`: forget the key, and the transaction once nothing is left. */
  function Untrack(held: map<Tx, set<Key>>, key: Key, tx: Tx): map<Tx, set<Key>> {
    if tx !in held then held
    else if held[tx] - {key} == {} then held - {tx}
    else held[tx := held[tx] - {key}]
  }

  function ReleaseKey(ls: LockState, key: Key, tx: Tx): LockState {
    if key in ls.entries && Owns(ls, key, tx) then
      LockState(ls.entries, ls.owner - {key}, Untrack(ls.held, key, tx))
    else ls
  }

  /**
   Releasing takes away exactly the caller's own hold on the one key; the key leaves the caller's
   interest set with it, nobody else is affected, and no empty interest set stays behind.
   */
  lemma ReleaseKeyExact(ls: LockState, key: Key, tx: Tx)
    requires ls.owner.Keys <= ls.entries
    ensures var after := ReleaseKey(ls, key, tx);
            && (forall k, t :: Owns(after, k, t) <==> Owns(ls, k, t) && !(k == key && t == tx))
            && (forall t :: HeldBy(after, t) ==
                              if t == tx && Owns(ls, key, tx) then HeldBy(ls, t) - {key} else HeldBy(ls, t))
            && ((forall t :: t in ls.held ==> ls.held[t] != {}) ==> forall t :: t in after.held ==> after.held[t] != {})
  {
    assert key in ls.owner ==> key in ls.owner.Keys;
  }
}
