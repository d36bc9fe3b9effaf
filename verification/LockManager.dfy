/**
 The lock manager's critical sections, on its own fields. `acquire` drops its mutex between polls, so
 its loops live with the scheduler, where other transactions can run in between.
 */
module LockManager {
  import opened Types
  import opened LockTable

  class LockManager {
    var lockTable: map<Key, Option<Tx>>
    var heldLocks: map<Tx, set<Key>>

    /** The fields as the value the step system works on. */
    ghost function State(): LockState
      reads this
    {
      LockState(lockTable.Keys, map k | k in lockTable && lockTable[k].Some? :: lockTable[k].value, heldLocks)
    }

    constructor ()
      ensures State() == EMPTY
    {
      lockTable := map[];
      heldLocks := map[];
    }

    method EnsureEntry(key: Key)
      modifies this
      ensures State() == CreateEntry(old(State()), key)
    {
      if key !in lockTable {
        lockTable := lockTable[key := None];
      }
    }

    method TrackInterest(key: Key, tx: Tx)
      modifies this
      ensures State() == RecordInterest(old(State()), key, tx)
    {
      heldLocks := heldLocks[tx := (if tx in heldLocks then heldLocks[tx] else {}) + {key}];
    }

    /** One poll; only the first polling loop accepts a key the caller already owns. */
    method PollEntry(key: Key, tx: Tx, firstLoop: bool, ghost fails: nat) returns (acquired: bool)
      requires key in State().entries
      requires firstLoop == (fails < MAX_SPINS)
      modifies this
      ensures acquired == PollSucceeds(old(State()), key, tx, fails)
      ensures State() == PollOnce(old(State()), key, tx, fails)
      ensures acquired ==> Owns(State(), key, tx)
    {
      ghost var before := State();
      if lockTable[key].None? {
        lockTable := lockTable[key := Some(tx)];
        assert State().owner == before.owner[key := tx];
        return true;
      }
      if firstLoop && lockTable[key].value == tx {
        assert before.owner[key := tx] == before.owner;
        return true;
      }
      return false;
    }

    method Release(key: Key, tx: Tx)
      modifies this
      ensures State() == ReleaseKey(old(State()), key, tx)
    {
      ghost var before := State();
      if key !in lockTable {
        return;
      }
      if lockTable[key] != Some(tx) {
        return;
      }
      lockTable := lockTable[key := None];
      assert State().owner == before.owner - {key};
      if tx in heldLocks {
        var rest := heldLocks[tx] - {key};
        heldLocks := heldLocks[tx := rest];
        if rest == {} {
          heldLocks := heldLocks - {tx};
        }
      }
      assert heldLocks == Untrack(before.held, key, tx);
    }

    /** `release_all` begins by moving the interest set out. */
    method TakeHeld(tx: Tx) returns (keys: set<Key>)
      modifies this
      ensures keys == HeldBy(old(State()), tx)
      ensures State() == TakeSnapshot(old(State()), tx)
    {
      keys := {};
      if tx in heldLocks {
        keys := heldLocks[tx];
        heldLocks := heldLocks - {tx};
      }
    }

    method HoldsLock(key: Key, tx: Tx) returns (r: bool)
      ensures r <==> key in HeldBy(State(), tx)
    {
      if tx !in heldLocks {
        return false;
      }
      return key in heldLocks[tx];
    }
  }
}
