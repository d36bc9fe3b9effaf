/** The vocabulary shared by every component: keys, values, operations and read results. */
module Types {

  /** `KeyType` and `ValueType` are 64-bit integers that are only stored, compared and hashed. */
  type Key = int
  type Value = int

  /** Transaction ids are drawn from one counter that starts at 1. */
  type Tx = nat

  datatype Option<+T> = None | Some(value: T)

  datatype Op = Read(key: Key) | Append(key: Key, value: Value)

  /** One entry of the result vector: the key read and the list found there, if any. */
  datatype ReadResult = ReadResult(key: Key, value: Option<seq<Value>>)

  /** The set of keys a transaction must lock. */
  function Keys(ops: seq<Op>): set<Key> {
    set op | op in ops :: op.key
  }

  lemma KeysOfIndex(ops: seq<Op>, i: nat)
    requires i < |ops|
    ensures ops[i].key in Keys(ops)
  {
    assert ops[i] in ops;
  }

  /** A transaction locks the keys of its operations and no others. */
  lemma KeysExact(ops: seq<Op>, k: Key)
    ensures k in Keys(ops) <==> exists i :: 0 <= i < |ops| && ops[i].key == k
  {
    if k in Keys(ops) {
      var op :| op in ops && op.key == k;
      var i :| 0 <= i < |ops| && ops[i] == op;
    }
    if i :| 0 <= i < |ops| && ops[i].key == k {
      KeysOfIndex(ops, i);
    }
  }

  lemma EmptyOrNot(keys: set<Key>)
    ensures keys == {} || exists k :: k in keys
  {
    if forall k :: k !in keys {
      assert keys == {};
    }
  }

  /** Unordered sets are iterated in no particular order. */
  method AnyKey(keys: set<Key>) returns (key: Key)
    requires keys != {}
    ensures key in keys
  {
    EmptyOrNot(keys);
    key :| key in keys;
  }
}
