/** The thread-safe store: 256 partitions in an array, updated in place. */
module StripedStore {
  import opened Types
  import Serial
  import opened Striping

  class ThreadSafeKVStore {
    const hash: Key -> nat
    const stripes: array<Serial.Store>

    ghost predicate Valid()
      reads stripes
    {
      Placed(hash, stripes[..])
    }

    /** The union of the partitions. */
    ghost function Contents(): Serial.Store
      requires Valid()
      reads stripes
    {
      Flatten(hash, stripes[..])
    }

    constructor (hash: Key -> nat)
      ensures this.hash == hash && fresh(stripes)
      ensures Valid() && Contents() == map[]
    {
      this.hash := hash;
      stripes := new Serial.Store[NUM_STRIPES](_ => map[]);
      new;
      forall k
        ensures Serial.Get(Flatten(hash, stripes[..]), k) == None
      {
      }
      Serial.StoresEqual(Contents(), map[]);
    }

    method Get(key: Key) returns (value: Option<seq<Value>>)
      requires Valid()
      ensures value == Serial.Get(Contents(), key)
    {
      var partition := stripes[StripeIndex(hash, key)];
      assert Serial.Get(Contents(), key) == Serial.Get(stripes[..][StripeIndex(hash, key)], key);
      if key in partition {
        return Some(partition[key]);
      }
      return None;
    }

    /** Appends on the one partition, and so on the whole map; every other key keeps its list. */
    method Append(key: Key, value: Value)
      requires Valid()
      modifies stripes
      ensures Valid()
      ensures Contents() == old(Contents())[key := Serial.Contents(old(Contents()), key) + [value]]
    {
      OnStripeRefines(hash, stripes[..], Types.Append(key, value));
      ghost var before := stripes[..];
      var i := StripeIndex(hash, key);
      var partition := stripes[i];
      if key in partition {
        stripes[i] := partition[key := partition[key] + [value]];
      } else {
        stripes[i] := partition[key := [value]];
      }
      assert [] + [value] == [value];
      assert stripes[..] == OnStripe(hash, before, Types.Append(key, value));
    }
  }

  /** A sequence of operations worked off stripe by stripe. */
  function RunStriped(hash: Key -> nat, stripes: seq<Serial.Store>, ops: seq<Op>): (r: seq<Serial.Store>)
    requires |stripes| == NUM_STRIPES
    ensures |r| == NUM_STRIPES
  {
    if ops == [] then stripes
    else OnStripe(hash, RunStriped(hash, stripes, ops[..|ops| - 1]), ops[|ops| - 1])
  }

  /** What the stripes answer to the reads among `ops`. */
  function StripedReads(hash: Key -> nat, stripes: seq<Serial.Store>, ops: seq<Op>): seq<ReadResult>
    requires |stripes| == NUM_STRIPES
  {
    if ops == [] then []
    else
      var op := ops[|ops| - 1];
      var before := RunStriped(hash, stripes, ops[..|ops| - 1]);
      StripedReads(hash, stripes, ops[..|ops| - 1]) +
      (if op.Read? then [ReadResult(op.key, Serial.Get(before[StripeIndex(hash, op.key)], op.key))] else [])
  }

  /** For any hash function and any operations, the striped store is one plain map of lists. */
  lemma {:induction false} StripedRefinesMap(hash: Key -> nat, stripes: seq<Serial.Store>, ops: seq<Op>)
    requires Placed(hash, stripes)
    ensures Placed(hash, RunStriped(hash, stripes, ops))
    ensures Flatten(hash, RunStriped(hash, stripes, ops)) == Serial.RunOps(Flatten(hash, stripes), ops)
    ensures StripedReads(hash, stripes, ops) == Serial.Reads(Flatten(hash, stripes), ops)
  {
    if ops != [] {
      var init := ops[..|ops| - 1];
      StripedRefinesMap(hash, stripes, init);
      var before := RunStriped(hash, stripes, init);
      OnStripeRefines(hash, before, ops[|ops| - 1]);
      var k := ops[|ops| - 1].key;
      assert Serial.Get(Flatten(hash, before), k) == Serial.Get(before[StripeIndex(hash, k)], k);
    }
  }
}
