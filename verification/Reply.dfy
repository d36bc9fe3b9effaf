/** Building the client's reply: the result vector is merged back into the request, in place. */
module Reply {
  import opened Types
  import opened Serial
  import opened Engine
  import opened Serializability

  datatype Json = JNull | JInt(n: int) | JArray(items: seq<Value>)

  /** One operation of the request: its kind ("r" or another word), key and third component. */
  datatype ReqOp = ReqOp(kind: string, key: Key, val: Json)

  function ToJson(value: Option<seq<Value>>): Json {
    if value.Some? then JArray(value.value) else JNull
  }

  /** How many results have been used up after these operations. */
  function Cursor(reqs: seq<ReqOp>, answers: seq<ReadResult>): (c: nat)
    ensures c <= |answers|
  {
    if reqs == [] then 0
    else
      var c := Cursor(reqs[..|reqs| - 1], answers);
      if Matches(reqs[|reqs| - 1], answers, c) then c + 1 else c
  }

  predicate Matches(r: ReqOp, answers: seq<ReadResult>, c: nat) {
    r.kind == "r" && c < |answers| && answers[c].key == r.key
  }

  /** What one operation becomes, given the cursor in front of it. */
  function Answer(r: ReqOp, answers: seq<ReadResult>, c: nat): ReqOp {
    if r.kind != "r" then r
    else r.(val := if Matches(r, answers, c) then ToJson(answers[c].value) else JNull)
  }

  function Merged(reqs: seq<ReqOp>, answers: seq<ReadResult>): (out: seq<ReqOp>)
    ensures |out| == |reqs|
  {
    seq(|reqs|, i requires 0 <= i < |reqs| => Answer(reqs[i], answers, Cursor(reqs[..i], answers)))
  }

  /** `createReply`: one pass over the operations, overwriting each read's third component. */
  method CreateReply(body: array<ReqOp>, answers: seq<ReadResult>)
    modifies body
    ensures body[..] == Merged(old(body[..]), answers)
  {
    ghost var reqs := body[..];
    var curRead := 0;
    for i := 0 to body.Length
      invariant curRead == Cursor(reqs[..i], answers)
      invariant forall j :: 0 <= j < i ==> body[j] == Answer(reqs[j], answers, Cursor(reqs[..j], answers))
      invariant forall j :: i <= j < body.Length ==> body[j] == reqs[j]
    {
      assert reqs[..i + 1][..i] == reqs[..i];
      if body[i].kind == "r" {
        if curRead < |answers| && answers[curRead].key == body[i].key {
          body[i] := body[i].(val := ToJson(answers[curRead].value));
          curRead := curRead + 1;
        } else {
          body[i] := body[i].(val := JNull);
        }
      }
    }
  }

  // ----- what the reply says

  /** `a` can be had from `b` by leaving elements out. */
  predicate Subsequence(a: seq<Key>, b: seq<Key>)
    decreases |b|
  {
    || a == []
    || (b != [] && (|| Subsequence(a, b[..|b| - 1])
                    || (a[|a| - 1] == b[|b| - 1] && Subsequence(a[..|a| - 1], b[..|b| - 1]))))
  }

  lemma SubsequenceEnds(a: seq<Key>, b: seq<Key>)
    ensures a == [] ==> Subsequence(a, b)
    ensures b == [] && a != [] ==> !Subsequence(a, b)
  {
  }

  lemma SubsequenceStep(a: seq<Key>, b: seq<Key>, k: Key)
    requires a != []
    ensures Subsequence(a, b + [k]) <==>
            Subsequence(a, b) || (a[|a| - 1] == k && Subsequence(a[..|a| - 1], b))
  {
    assert (b + [k])[..|b|] == b;
  }

  /**
   The cursor uses up as many results as it can: results can be matched, in order, to reads of the
   request just up to where the cursor ends.
   */
  lemma {:induction false} CursorIsGreatest(reqs: seq<ReqOp>, answers: seq<ReadResult>, c: nat)
    requires c <= |answers|
    ensures Subsequence(ResultKeys(answers)[..c], ReadKeys(reqs)) <==> c <= Cursor(reqs, answers)
  {
    hide Subsequence;
    var prefix := ResultKeys(answers)[..c];
    SubsequenceEnds(prefix, ReadKeys(reqs));
    if reqs != [] && c > 0 {
      var init, r := reqs[..|reqs| - 1], reqs[|reqs| - 1];
      CursorIsGreatest(init, answers, c);
      if r.kind != "r" {
        assert ReadKeys(reqs) == ReadKeys(init);
      } else {
        CursorIsGreatest(init, answers, c - 1);
        SubsequenceStep(prefix, ReadKeys(init), r.key);
        assert prefix[..c - 1] == ResultKeys(answers)[..c - 1];
      }
    }
  }

  /**
   The reply to any result vector: operations keep their place; a read gets the value of the first
   unused result if that is for its key, and null if there is none or it is for another key; nothing
   else changes.
   */
  lemma ReplyAt(reqs: seq<ReqOp>, answers: seq<ReadResult>, i: nat)
    requires i < |reqs|
    ensures var out, c := Merged(reqs, answers)[i], Cursor(reqs[..i], answers);
            && out.kind == reqs[i].kind && out.key == reqs[i].key
            && (reqs[i].kind != "r" ==> out.val == reqs[i].val)
            && (reqs[i].kind == "r" && c < |answers| && answers[c].key == reqs[i].key ==>
                  match answers[c].value
                  case Some(list) => out.val == JArray(list)
                  case None => out.val == JNull)
            && (reqs[i].kind == "r" && (c == |answers| || answers[c].key != reqs[i].key) ==> out.val == JNull)
  {
  }

  function ReadKeys(reqs: seq<ReqOp>): seq<Key> {
    if reqs == [] then []
    else ReadKeys(reqs[..|reqs| - 1]) + (if reqs[|reqs| - 1].kind == "r" then [reqs[|reqs| - 1].key] else [])
  }

  function ResultKeys(answers: seq<ReadResult>): (keys: seq<Key>)
    ensures |keys| == |answers|
  {
    seq(|answers|, i requires 0 <= i < |answers| => answers[i].key)
  }

  /** Every read of the request finds its result just when the results begin with the request's read keys. */
  lemma {:induction false} NoMismatchIff(reqs: seq<ReqOp>, answers: seq<ReadResult>)
    ensures Cursor(reqs, answers) <= |ReadKeys(reqs)|
    ensures Cursor(reqs, answers) == |ReadKeys(reqs)| <==> ReadKeys(reqs) <= ResultKeys(answers)
  {
    if reqs != [] {
      NoMismatchIff(reqs[..|reqs| - 1], answers);
    }
  }

  function ToOp(r: ReqOp): Op {
    if r.kind == "r" then Read(r.key) else Append(r.key, if r.val.JInt? then r.val.n else 0)
  }

  /** The transaction a request asks for. */
  function ToOps(reqs: seq<ReqOp>): (ops: seq<Op>)
    ensures |ops| == |reqs|
  {
    seq(|reqs|, i requires 0 <= i < |reqs| => ToOp(reqs[i]))
  }

  /** The values a request appends to a key, read off its own fields. */
  function RequestAppends(reqs: seq<ReqOp>, key: Key): seq<Value> {
    if reqs == [] then []
    else
      var r := reqs[|reqs| - 1];
      RequestAppends(reqs[..|reqs| - 1], key) +
      (if r.kind != "r" && r.key == key then [if r.val.JInt? then r.val.n else 0] else [])
  }

  lemma {:induction false} AppendsOfRequest(reqs: seq<ReqOp>, key: Key)
    ensures AppendsTo(ToOps(reqs), key) == RequestAppends(reqs, key)
  {
    if reqs != [] {
      AppendsOfRequest(reqs[..|reqs| - 1], key);
      assert ToOps(reqs)[..|reqs| - 1] == ToOps(reqs[..|reqs| - 1]);
    }
  }

  lemma AppendsBefore(reqs: seq<ReqOp>, i: nat, key: Key)
    requires i <= |reqs|
    ensures AppendsTo(ToOps(reqs)[..i], key) == RequestAppends(reqs[..i], key)
  {
    assert ToOps(reqs)[..i] == ToOps(reqs[..i]);
    AppendsOfRequest(reqs[..i], key);
  }

  /** Running the request's own operations yields results that fit the request exactly. */
  lemma {:induction false} LocalResultsFit(store: Store, reqs: seq<ReqOp>, i: nat)
    requires i <= |reqs|
    ensures var ops := ToOps(reqs);
            var answers := Reads(store, ops);
            && Cursor(reqs[..i], answers) == ReadCount(ops[..i])
            && (i < |reqs| && reqs[i].kind == "r" ==>
                  var c := Cursor(reqs[..i], answers);
                  c < |answers| && answers[c].key == reqs[i].key)
  {
    var ops := ToOps(reqs);
    ReadsAt(store, ops, i);
    if i > 0 {
      LocalResultsFit(store, reqs, i - 1);
      ReadsAt(store, ops, i - 1);
      assert reqs[..i][..i - 1] == reqs[..i - 1];
      assert ops[..i][..i - 1] == ops[..i - 1];
    }
  }

  /**
   End to end, over every run: the reply to a committed transaction keeps every non-read operation
   and gives each read of k the appends to k of all earlier transactions in the serial order and of
   the request's own earlier operations, or null when there are none; and no result is left over.
   */
  lemma CommittedReply(steps: seq<Step>, t: Tx, reqs: seq<ReqOp>, i: nat)
    requires Feasible(INIT, steps) && IsCommitted(After(INIT, steps), t)
    requires After(INIT, steps).threads[t].ops == ToOps(reqs) && i < |reqs|
    ensures var s := After(INIT, steps);
            var Committed(at, results) := s.threads[t].phase.outcome;
            var out := Merged(reqs, results)[i];
            && at < |s.log|
            && Cursor(reqs, results) == |results|
            && (reqs[i].kind != "r" ==> out == reqs[i])
            && (reqs[i].kind == "r" ==>
                  var found := LogAppends(s.log[..at], reqs[i].key) + RequestAppends(reqs[..i], reqs[i].key);
                  out == reqs[i].(val := if found == [] then JNull else JArray(found)))
  {
    var s := After(INIT, steps);
    Serializable(steps);
    var at, results := s.threads[t].phase.outcome.at, s.threads[t].phase.outcome.results;
    var ops := ToOps(reqs);
    var base := SerialStore(s.log[..at]);
    LocalResultsFit(base, reqs, |reqs|);
    ReadsAt(base, ops, |reqs|);
    assert reqs[..|reqs|] == reqs && ops[..|reqs|] == ops;
    LocalResultsFit(base, reqs, i);
    if reqs[i].kind == "r" {
      ReadContents(steps, t, i);
      AppendsBefore(reqs, i, reqs[i].key);
    }
  }

  lemma {:induction false} NothingToRead(reqs: seq<ReqOp>)
    ensures Cursor(reqs, []) == 0
  {
    if reqs != [] {
      NothingToRead(reqs[..|reqs| - 1]);
    }
  }

  /** The reply to an aborted transaction: every read becomes null, nothing else changes. */
  lemma AbortedReply(reqs: seq<ReqOp>, i: nat)
    requires i < |reqs|
    ensures Merged(reqs, [])[i] == if reqs[i].kind == "r" then reqs[i].(val := JNull) else reqs[i]
  {
    NothingToRead(reqs[..i]);
  }

  /**
   Both outcomes are answered the same way, so a client cannot tell them apart when, and only when,
   every key it read had no list and had not been appended to by the request itself.
   */
  lemma AbortIndistinguishableIff(store: Store, reqs: seq<ReqOp>)
    ensures Merged(reqs, []) == Merged(reqs, Reads(store, ToOps(reqs))) <==>
            forall i :: 0 <= i < |reqs| && reqs[i].kind == "r" ==>
                          reqs[i].key !in store && RequestAppends(reqs[..i], reqs[i].key) == []
  {
    var ops := ToOps(reqs);
    var answers := Reads(store, ops);
    forall i | 0 <= i < |reqs|
      ensures Merged(reqs, [])[i] == Merged(reqs, answers)[i] <==>
              (reqs[i].kind == "r" ==> reqs[i].key !in store && RequestAppends(reqs[..i], reqs[i].key) == [])
    {
      AppendsBefore(reqs, i, reqs[i].key);
      RunOpsContents(store, ops[..i], reqs[i].key);
      AbortedReply(reqs, i);
      LocalResultsFit(store, reqs, i);
      ReadsAt(store, ops, i);
    }
  }
}
