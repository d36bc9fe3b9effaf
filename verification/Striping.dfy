/** 256 partitions, each key in the one its hash selects, seen as one map. */
module Striping {
  import opened Types
  import opened Serial

  const NUM_STRIPES: nat := 256

  /** `hash` stands for `std::hash`, of which nothing is assumed. */
  function StripeIndex(hash: Key -> nat, key: Key): nat {
    hash(key) % NUM_STRIPES
  }

  /** Every key lives in its own stripe and nowhere else. */
  predicate Placed(hash: Key -> nat, stripes: seq<Store>) {
    && |stripes| == NUM_STRIPES
    && forall i :: 0 <= i < NUM_STRIPES ==> forall k :: k in stripes[i] ==> StripeIndex(hash, k) == i
  }

  /** The union of the partitions. */
  ghost function Flatten(hash: Key -> nat, stripes: seq<Store>): (store: Store)
    requires Placed(hash, stripes)
    ensures forall k :: Get(store, k) == Get(stripes[StripeIndex(hash, k)], k)
  {
    var keys := set i, k | 0 <= i < NUM_STRIPES && k in stripes[i] :: k;
    assert forall k :: k in stripes[StripeIndex(hash, k)] ==> k in keys;
    map k | k in keys :: stripes[StripeIndex(hash, k)][k]
  }

  function OnStripe(hash: Key -> nat, stripes: seq<Store>, op: Op): seq<Store>
    requires |stripes| == NUM_STRIPES
  {
    var i := StripeIndex(hash, op.key);
    stripes[i := ApplyOp(stripes[i], op)]
  }

  /** Working on one partition is working on the whole map. */
  lemma OnStripeRefines(hash: Key -> nat, stripes: seq<Store>, op: Op)
    requires Placed(hash, stripes)
    ensures Placed(hash, OnStripe(hash, stripes, op))
    ensures Flatten(hash, OnStripe(hash, stripes, op)) == ApplyOp(Flatten(hash, stripes), op)
  {
    var s' := OnStripe(hash, stripes, op);
    forall i | 0 <= i < NUM_STRIPES
      ensures forall k :: k in s'[i] ==> StripeIndex(hash, k) == i
    {
    }
    var store := Flatten(hash, stripes);
    forall k
      ensures Get(Flatten(hash, s'), k) == Get(ApplyOp(store, op), k)
    {
      assert Get(store, k) == Get(stripes[StripeIndex(hash, k)], k);
      assert Get(store, op.key) == Get(stripes[StripeIndex(hash, op.key)], op.key);
    }
    StoresEqual(Flatten(hash, s'), ApplyOp(store, op));
  }
}
