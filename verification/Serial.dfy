/**
 The sequential meaning of transactions: a plain map of lists, operations applied one at a time,
 and whole transactions applied one after another. Everything concurrent is measured against this.
 */
module Serial {
  import opened Types

  type Store = map<Key, seq<Value>>

  /** One transaction together with its operations, as it appears in a serial order. */
  datatype Entry = Entry(tx: Tx, ops: seq<Op>)

  function Get(store: Store, key: Key): Option<seq<Value>> {
    if key in store then Some(store[key]) else None
  }

  /** The list under a key, an absent key counting as the empty list. */
  function Contents(store: Store, key: Key): seq<Value> {
    if key in store then store[key] else []
  }

  function ApplyOp(store: Store, op: Op): Store {
    match op
    case Read(_) => store
    case Append(key, value) => store[key := Contents(store, key) + [value]]
  }

  function RunOps(store: Store, ops: seq<Op>): Store {
    if ops == [] then store
    else ApplyOp(RunOps(store, ops[..|ops| - 1]), ops[|ops| - 1])
  }

  /** The read results of running `ops` alone on `store`, in operation order. */
  function Reads(store: Store, ops: seq<Op>): seq<ReadResult> {
    if ops == [] then []
    else
      var before := ops[..|ops| - 1];
      var op := ops[|ops| - 1];
      Reads(store, before) +
      (if op.Read? then [ReadResult(op.key, Get(RunOps(store, before), op.key))] else [])
  }

  /** The store after running the logged transactions one at a time from the empty store. */
  function SerialStore(log: seq<Entry>): Store {
    if log == [] then map[]
    else RunOps(SerialStore(log[..|log| - 1]), log[|log| - 1].ops)
  }

  /** The values `ops` appends to `key`, in order. */
  function AppendsTo(ops: seq<Op>, key: Key): seq<Value> {
    if ops == [] then []
    else
      var op := ops[|ops| - 1];
      AppendsTo(ops[..|ops| - 1], key) + (if op.Append? && op.key == key then [op.value] else [])
  }

  /** The values a whole log appends to `key`, grouped by transaction in log order. */
  function LogAppends(log: seq<Entry>, key: Key): seq<Value> {
    if log == [] then []
    else LogAppends(log[..|log| - 1], key) + AppendsTo(log[|log| - 1].ops, key)
  }

  lemma {:induction false} RunOpsStep(store: Store, ops: seq<Op>, i: nat)
    requires i < |ops|
    ensures RunOps(store, ops[..i + 1]) == ApplyOp(RunOps(store, ops[..i]), ops[i])
    ensures Reads(store, ops[..i + 1]) ==
            Reads(store, ops[..i]) +
            (if ops[i].Read? then [ReadResult(ops[i].key, Get(RunOps(store, ops[..i]), ops[i].key))] else [])
    ensures forall k :: AppendsTo(ops[..i + 1], k) ==
                        AppendsTo(ops[..i], k) +
                        (if ops[i].Append? && ops[i].key == k then [ops[i].value] else [])
  {
    assert ops[..i + 1][..i] == ops[..i];
  }

  /** A transaction leaves every key it does not mention alone. */
  lemma {:induction false} RunOpsFrame(store: Store, ops: seq<Op>, key: Key)
    requires key !in Keys(ops)
    ensures Get(RunOps(store, ops), key) == Get(store, key)
  {
    if ops != [] {
      assert ops[|ops| - 1] in ops;
      RunOpsFrame(store, ops[..|ops| - 1], key);
    }
  }

  /** What a transaction does to one key: its appends to that key go to the end of the list. */
  lemma {:induction false} RunOpsContents(store: Store, ops: seq<Op>, key: Key)
    ensures Contents(RunOps(store, ops), key) == Contents(store, key) + AppendsTo(ops, key)
    ensures key in RunOps(store, ops) <==> key in store || AppendsTo(ops, key) != []
  {
    if ops != [] {
      RunOpsContents(store, ops[..|ops| - 1], key);
    }
  }

  lemma {:induction false} SerialContents(log: seq<Entry>, key: Key)
    ensures Contents(SerialStore(log), key) == LogAppends(log, key)
    ensures key in SerialStore(log) <==> LogAppends(log, key) != []
  {
    if log != [] {
      SerialContents(log[..|log| - 1], key);
      RunOpsContents(SerialStore(log[..|log| - 1]), log[|log| - 1].ops, key);
    }
  }

  lemma {:induction false} LogAppendsPrefix(log: seq<Entry>, i: nat, key: Key)
    requires i <= |log|
    ensures LogAppends(log[..i], key) <= LogAppends(log, key)
  {
    if i < |log| {
      var init := log[..|log| - 1];
      assert init[..i] == log[..i];
      LogAppendsPrefix(init, i, key);
    } else {
      assert log[..i] == log;
    }
  }

  lemma {:induction false} AppendsPrefix(ops: seq<Op>, i: nat, key: Key)
    requires i <= |ops|
    ensures AppendsTo(ops[..i], key) <= AppendsTo(ops, key)
  {
    if i < |ops| {
      var init := ops[..|ops| - 1];
      assert init[..i] == ops[..i];
      AppendsPrefix(init, i, key);
    } else {
      assert ops[..i] == ops;
    }
  }

  /** Splitting a transaction in two splits its appends. */
  lemma {:induction false} AppendsSplit(ops: seq<Op>, i: nat, key: Key)
    requires i <= |ops|
    ensures AppendsTo(ops, key) == AppendsTo(ops[..i], key) + AppendsTo(ops[i..], key)
  {
    if i == |ops| {
      assert ops[..i] == ops;
    } else {
      var init := ops[..|ops| - 1];
      AppendsSplit(init, i, key);
      assert init[..i] == ops[..i];
      assert init[i..] == ops[i..][..|ops| - 1 - i];
    }
  }

  lemma StoresEqual(a: Store, b: Store)
    requires forall k :: Get(a, k) == Get(b, k)
    ensures a == b
  {
    forall k
      ensures k in a <==> k in b
      ensures k in a && k in b ==> a[k] == b[k]
    {
      assert Get(a, k) == Get(b, k);
    }
  }
}
