/**
 The remote half of the locking phase: which requests go out, how the answers are counted, when the
 wait ends, and which locks are given back when it fails.
 */
module RemoteLocks {
  import opened Types
  import opened LockTable
  import opened Routing

  /** `pending_remote_locks`: for every transaction the keys not yet answered for, by node. */
  type Pending = map<Tx, map<NodeId, set<Key>>>

  /**
   An answer to a lock request: what the node says, granted or denied, and how the comparison of its
   type with that of a grant comes out in `handle_lock_response`.
   */
  datatype Answer = Answer(peer: NodeId, tx: Tx, key: Key, says: bool, matched: bool)

  /** What one wait on the condition variable lets through, and whether it ended by the deadline. */
  datatype Wakeup = Wakeup(answers: seq<Answer>, timeout: bool)

  function Pairs(groups: map<NodeId, set<Key>>): set<(NodeId, Key)> {
    set n, k | n in groups && k in groups[n] :: (n, k)
  }

  function Row(p: Pending, t: Tx): map<NodeId, set<Key>> {
    if t in p then p[t] else map[]
  }

  /** The answers `t` still waits for. */
  function Awaited(p: Pending, t: Tx): set<(NodeId, Key)> {
    Pairs(Row(p, t))
  }

  /** No node is listed without a key, so a row is empty just when nothing is awaited. */
  ghost predicate Clean(p: Pending) {
    forall t, n :: t in p && n in p[t] ==> p[t][n] != {}
  }

  lemma EmptyRow(p: Pending, t: Tx)
    requires Clean(p)
    ensures Row(p, t) == map[] <==> Awaited(p, t) == {}
  {
    if Row(p, t) != map[] {
      EmptyOrNot(Row(p, t).Keys);
      var n :| n in Row(p, t).Keys;
      EmptyOrNot(p[t][n]);
      var k :| k in p[t][n];
      assert (n, k) in Awaited(p, t);
    }
  }

  lemma StruckOff(groups: map<NodeId, set<Key>>, n: NodeId, k: Key)
    requires n in groups
    ensures Pairs(groups[n := groups[n] - {k}]) == Pairs(groups) - {(n, k)}
    ensures groups[n] - {k} == {} ==> Pairs(groups - {n}) == Pairs(groups) - {(n, k)}
  {
  }

  // ----- what a sequence of answers amounts to

  /** Some comparison failed. */
  ghost predicate Cleared(answers: seq<Answer>, t: Tx) {
    exists i :: 0 <= i < |answers| && answers[i].tx == t && !answers[i].matched
  }

  /** The keys whose comparison succeeded. */
  function Struck(answers: seq<Answer>, t: Tx): set<(NodeId, Key)> {
    set a | a in answers && a.tx == t && a.matched :: (a.peer, a.key)
  }

  /** A failed comparison clears everything; otherwise what was asked for and not struck off is left. */
  ghost function Outstanding(asked: set<(NodeId, Key)>, answers: seq<Answer>, t: Tx): set<(NodeId, Key)> {
    if Cleared(answers, t) then {} else asked - Struck(answers, t)
  }

  /** Counting further answers starts where the earlier ones left off. */
  lemma OutstandingMore(asked: set<(NodeId, Key)>, first: seq<Answer>, more: seq<Answer>, t: Tx)
    ensures Outstanding(asked, first + more, t) == Outstanding(Outstanding(asked, first, t), more, t)
  {
    assert Cleared(first + more, t) <==> Cleared(first, t) || Cleared(more, t) by {
      if i :| 0 <= i < |first| && first[i].tx == t && !first[i].matched {
        assert (first + more)[i] == first[i];
      }
      if i :| 0 <= i < |more| && more[i].tx == t && !more[i].matched {
        assert (first + more)[|first| + i] == more[i];
      }
    }
    assert Struck(first + more, t) == Struck(first, t) + Struck(more, t);
  }

  lemma OutstandingOne(asked: set<(NodeId, Key)>, a: Answer, t: Tx)
    ensures Outstanding(asked, [a], t) ==
            if a.tx != t then asked else if a.matched then asked - {(a.peer, a.key)} else {}
  {
    if a.tx == t && !a.matched {
      assert [a][0] == a;
    }
    if a.tx == t && a.matched {
      assert Struck([a], t) == {(a.peer, a.key)};
    }
    if a.tx != t {
      assert Struck([a], t) == {};
    }
  }

  // ----- the wait

  /** All answers let through by the given wake-ups. */
  function Heard(script: seq<Wakeup>): seq<Answer> {
    if script == [] then [] else Heard(script[..|script| - 1]) + script[|script| - 1].answers
  }

  lemma NothingHeard()
    ensures forall asked, script: seq<Wakeup>, t :: Outstanding(asked, Heard(script[..0]), t) == asked
  {
  }

  lemma HeardMore(script: seq<Wakeup>, n: nat)
    requires n < |script|
    ensures Heard(script[..n + 1]) == Heard(script[..n]) + script[n].answers
  {
    assert script[..n + 1][..n] == script[..n];
  }

  ghost predicate Waiting(asked: set<(NodeId, Key)>, script: seq<Wakeup>, t: Tx, n: nat)
    requires n <= |script|
  {
    Outstanding(asked, Heard(script[..n]), t) != {}
  }

  predicate TimedOut(script: seq<Wakeup>, n: nat)
    requires n <= |script|
  {
    n > 0 && script[n - 1].timeout
  }

  /**
   The wait goes on as long as something is awaited and the deadline has not passed. It succeeds when
   nothing is awaited in time; when it fails, what was still awaited is released.
   */
  ghost predicate WaitResult(asked: set<(NodeId, Key)>, script: seq<Wakeup>, t: Tx,
                             ok: bool, released: set<(NodeId, Key)>, n: nat)
  {
    && n <= |script|
    && (forall m :: 0 <= m < n ==> Waiting(asked, script, t, m) && !TimedOut(script, m))
    && (ok <==> !Waiting(asked, script, t, n) && !TimedOut(script, n))
    && (!ok ==> n == |script| || TimedOut(script, n))
    && released == if ok then {} else Outstanding(asked, Heard(script[..n]), t)
  }

  class RemoteLockTable {
    var pending: Pending

    constructor ()
      ensures pending == map[] && Clean(pending)
    {
      pending := map[];
    }

    /** Registers and sends one lock request for every remote key. */
    method RequestAll(remoteKeys: map<NodeId, set<Key>>, t: Tx) returns (sent: set<(NodeId, Key)>)
      requires Clean(pending)
      modifies this
      ensures Clean(pending) && sent == Pairs(remoteKeys)
      ensures forall n, k :: (n, k) in sent <==> n in remoteKeys && k in remoteKeys[n]
      ensures Awaited(pending, t) == old(Awaited(pending, t)) + sent
      ensures forall u :: u != t ==> Row(pending, u) == old(Row(pending, u))
    {
      hide Clean, Awaited, Row;
      sent := {};
      var nodes := remoteKeys.Keys;
      while nodes != {}
        invariant nodes <= remoteKeys.Keys && Clean(pending)
        invariant sent == set n, k | n in remoteKeys && n !in nodes && k in remoteKeys[n] :: (n, k)
        invariant Awaited(pending, t) == old(Awaited(pending, t)) + sent
        invariant forall u :: u != t ==> Row(pending, u) == old(Row(pending, u))
        decreases |nodes|
      {
        var n :| n in nodes;
        var group := RequestGroup(n, remoteKeys[n], t);
        sent := sent + group;
        nodes := nodes - {n};
      }
    }

    method RequestGroup(n: NodeId, keys: set<Key>, t: Tx) returns (sent: set<(NodeId, Key)>)
      requires Clean(pending)
      modifies this
      ensures Clean(pending) && sent == set k | k in keys :: (n, k)
      ensures Awaited(pending, t) == old(Awaited(pending, t)) + sent
      ensures forall u :: u != t ==> Row(pending, u) == old(Row(pending, u))
    {
      hide Clean, Awaited, Row;
      sent := {};
      var left := keys;
      while left != {}
        invariant left <= keys && Clean(pending)
        invariant sent == set k | k in keys && k !in left :: (n, k)
        invariant Awaited(pending, t) == old(Awaited(pending, t)) + sent
        invariant forall u :: u != t ==> Row(pending, u) == old(Row(pending, u))
        decreases |left|
      {
        var k := AnyKey(left);
        RegisterOne(n, k, t);
        sent := sent + {(n, k)};
        left := left - {k};
      }
    }

    method RegisterOne(n: NodeId, k: Key, t: Tx)
      requires Clean(pending)
      modifies this
      ensures Clean(pending) && Awaited(pending, t) == old(Awaited(pending, t)) + {(n, k)}
      ensures forall u :: u != t ==> Row(pending, u) == old(Row(pending, u))
    {
      pending := pending[t := Row(pending, t)[n := KeysAt(Row(pending, t), n) + {k}]];
    }

    /** A successful comparison strikes the key off; a failed one clears all that the transaction waits for. */
    method HandleLockResponse(a: Answer)
      requires Clean(pending)
      modifies this
      ensures Clean(pending)
      ensures forall u :: u != a.tx ==> Awaited(pending, u) == old(Awaited(pending, u))
      ensures Awaited(pending, a.tx) ==
              if a.matched then old(Awaited(pending, a.tx)) - {(a.peer, a.key)} else {}
    {
      ghost var p := pending;
      if a.matched {
        if a.tx in pending && a.peer in pending[a.tx] && a.key in pending[a.tx][a.peer] {
          StruckOff(pending[a.tx], a.peer, a.key);
          var row: map<NodeId, set<Key>> := pending[a.tx][a.peer := pending[a.tx][a.peer] - {a.key}];
          if row[a.peer] == {} {
            row := pending[a.tx] - {a.peer};
          }
          pending := pending[a.tx := row];
        }
      } else {
        pending := pending - {a.tx};
      }
      assert Awaited(pending, a.tx) == if a.matched then Awaited(p, a.tx) - {(a.peer, a.key)} else {};
    }

    method HandleAll(answers: seq<Answer>)
      requires Clean(pending)
      modifies this
      ensures Clean(pending)
      ensures forall u :: Awaited(pending, u) == Outstanding(old(Awaited(pending, u)), answers, u)
    {
      assert forall u :: Outstanding(Awaited(pending, u), [], u) == Awaited(pending, u);
      for i := 0 to |answers|
        invariant Clean(pending)
        invariant forall u :: Awaited(pending, u) == Outstanding(old(Awaited(pending, u)), answers[..i], u)
      {
        HandleLockResponse(answers[i]);
        assert answers[..i + 1] == answers[..i] + [answers[i]];
        forall u
          ensures Awaited(pending, u) == Outstanding(old(Awaited(pending, u)), answers[..i + 1], u)
        {
          OutstandingMore(old(Awaited(pending, u)), answers[..i], [answers[i]], u);
          OutstandingOne(Outstanding(old(Awaited(pending, u)), answers[..i], u), answers[i], u);
        }
      }
      assert answers[..|answers|] == answers;
    }

    /** The loop condition; looking the row up creates it. */
    method NothingAwaited(t: Tx) returns (done: bool)
      requires Clean(pending)
      modifies this
      ensures Clean(pending) && done == (Awaited(pending, t) == {})
      ensures forall u :: Awaited(pending, u) == old(Awaited(pending, u))
    {
      assert t !in pending ==> Pairs(map[]) == {};
      pending := pending[t := Row(pending, t)];
      EmptyRow(pending, t);
      done := pending[t] == map[];
    }

    /** One more wake-up. */
    method HandleNext(script: seq<Wakeup>, n: nat)
      requires Clean(pending) && n < |script|
      modifies this
      ensures Clean(pending)
      ensures forall u, asked ::
                old(Awaited(pending, u)) == Outstanding(asked, Heard(script[..n]), u) ==>
                  Awaited(pending, u) == Outstanding(asked, Heard(script[..n + 1]), u)
    {
      HandleAll(script[n].answers);
      HeardMore(script, n);
      forall u, asked | old(Awaited(pending, u)) == Outstanding(asked, Heard(script[..n]), u)
        ensures Awaited(pending, u) == Outstanding(asked, Heard(script[..n + 1]), u)
      {
        OutstandingMore(asked, Heard(script[..n]), script[n].answers, u);
      }
    }

    /** The deadline has passed: releases for everything still awaited. */
    method GiveUp(t: Tx) returns (released: set<(NodeId, Key)>)
      requires Clean(pending)
      modifies this
      ensures Clean(pending) && released == old(Awaited(pending, t)) && Awaited(pending, t) == {}
      ensures forall u :: u != t ==> Awaited(pending, u) == old(Awaited(pending, u))
    {
      released := Awaited(pending, t);
      pending := pending - {t};
    }

    /**
     The wait: until nothing is awaited, or the deadline passes, at the latest after the last wake-up.
     On the deadline a release goes out for everything still awaited. `n` wake-ups took place.
     */
    method AwaitAnswers(t: Tx, script: seq<Wakeup>) returns (ok: bool, released: set<(NodeId, Key)>, n: nat)
      requires Clean(pending)
      modifies this
      ensures Clean(pending) && WaitResult(old(Awaited(pending, t)), script, t, ok, released, n)
      ensures Awaited(pending, t) == {}
      ensures forall u :: u != t ==> Awaited(pending, u) == Outstanding(old(Awaited(pending, u)), Heard(script[..n]), u)
    {
      hide Clean, Awaited, Heard, Outstanding;
      NothingHeard();
      ghost var asked := Awaited(pending, t);
      n := 0;
      ok, released := true, {};
      while true
        invariant n <= |script| && Clean(pending)
        invariant forall u :: Awaited(pending, u) == Outstanding(old(Awaited(pending, u)), Heard(script[..n]), u)
        invariant forall m :: 0 <= m < n ==> Waiting(asked, script, t, m)
        invariant forall m :: 0 <= m <= n ==> !TimedOut(script, m)
        decreases |script| - n
      {
        var done := NothingAwaited(t);
        if done {
          return;
        }
        assert Waiting(asked, script, t, n);
        var timeout := n == |script|;
        if n < |script| {
          timeout := script[n].timeout;
          HandleNext(script, n);
          n := n + 1;
        }
        if timeout {
          released := GiveUp(t);
          ok := false;
          return;
        }
      }
    }

    /** Requests, then the wait; `n` wake-ups took place. */
    method AcquireRemoteLocks(remoteKeys: map<NodeId, set<Key>>, t: Tx, script: seq<Wakeup>)
      returns (ok: bool, sent: set<(NodeId, Key)>, released: set<(NodeId, Key)>, n: nat)
      requires Clean(pending)
      modifies this
      ensures Clean(pending) && sent == Pairs(remoteKeys)
      ensures WaitResult(old(Awaited(pending, t)) + sent, script, t, ok, released, n)
      ensures Awaited(pending, t) == {}
      ensures forall u :: u != t ==> Awaited(pending, u) == Outstanding(old(Awaited(pending, u)), Heard(script[..n]), u)
    {
      hide Clean, WaitResult, Outstanding, Heard;
      sent := RequestAll(remoteKeys, t);
      ok, released, n := AwaitAnswers(t, script);
    }
  }

  // ----- what the nodes said

  function Granted(answers: seq<Answer>, t: Tx): set<(NodeId, Key)> {
    set a | a in answers && a.tx == t && a.says :: (a.peer, a.key)
  }

  ghost predicate Denied(answers: seq<Answer>, t: Tx) {
    exists a :: a in answers && a.tx == t && !a.says
  }

  ghost predicate Answered(answers: seq<Answer>, t: Tx) {
    exists a :: a in answers && a.tx == t
  }

  /** The code as written compares addresses of different objects: never with success. */
  predicate ByAddress(answers: seq<Answer>) {
    forall a :: a in answers ==> !a.matched
  }

  /** What was meant: the comparison tells grants from denials. */
  predicate ByText(answers: seq<Answer>) {
    forall a :: a in answers ==> a.matched == a.says
  }

  lemma {:induction false} HeardFrom(script: seq<Wakeup>, n: nat, a: Answer)
    requires n <= |script|
    ensures a in Heard(script[..n]) <==> exists m :: 0 <= m < n && a in script[m].answers
  {
    if n > 0 {
      HeardFrom(script, n - 1, a);
      HeardMore(script, n - 1);
    }
  }

  lemma HeardByAddress(script: seq<Wakeup>, n: nat)
    requires n <= |script| && ByAddress(Heard(script))
    ensures ByAddress(Heard(script[..n]))
  {
    assert script[..|script|] == script;
    forall a | a in Heard(script[..n])
      ensures !a.matched
    {
      HeardFrom(script, n, a);
      HeardFrom(script, |script|, a);
    }
  }

  /** Nothing is awaited exactly when every key was struck off, or a comparison failed. */
  lemma WaitOverIff(asked: set<(NodeId, Key)>, answers: seq<Answer>, t: Tx)
    ensures Outstanding(asked, answers, t) == {} <==> Cleared(answers, t) || asked <= Struck(answers, t)
  {
    if !Cleared(answers, t) && Outstanding(asked, answers, t) == {} {
      forall p | p in asked
        ensures p in Struck(answers, t)
      {
        assert p !in asked - Struck(answers, t);
      }
    }
  }

  lemma ByAddressMeaning(answers: seq<Answer>, t: Tx)
    requires ByAddress(answers)
    ensures Struck(answers, t) == {} && (Cleared(answers, t) <==> Answered(answers, t))
  {
    if a :| a in answers && a.tx == t {
      var i :| 0 <= i < |answers| && answers[i] == a;
    }
    if i :| 0 <= i < |answers| && answers[i].tx == t && !answers[i].matched {
      assert answers[i] in answers;
    }
  }

  lemma ByTextMeaning(answers: seq<Answer>, t: Tx)
    requires ByText(answers)
    ensures Struck(answers, t) == Granted(answers, t) && (Cleared(answers, t) <==> Denied(answers, t))
  {
    if a :| a in answers && a.tx == t && !a.says {
      var i :| 0 <= i < |answers| && answers[i] == a;
    }
    if i :| 0 <= i < |answers| && answers[i].tx == t && !answers[i].matched {
      assert answers[i] in answers;
    }
  }

  // ----- what success is worth

  /** The wait succeeds although some node has not granted its key. */
  ghost predicate Misleads(asked: set<(NodeId, Key)>, script: seq<Wakeup>, t: Tx, n: nat) {
    WaitResult(asked, script, t, true, {}, n) && !(asked <= Granted(Heard(script[..n]), t))
  }

  /** A wake-up before the deadline lets an answer for `t` through. */
  ghost predicate AnsweredInTime(script: seq<Wakeup>, t: Tx) {
    exists m :: 0 <= m < |script| && Answered(script[m].answers, t) && forall j :: 0 <= j <= m ==> !script[j].timeout
  }

  /** As written, the first answer of any kind ends the wait. */
  lemma OneAnswerClears(asked: set<(NodeId, Key)>, script: seq<Wakeup>, t: Tx, n: nat)
    requires n <= |script| && ByAddress(Heard(script))
    ensures Waiting(asked, script, t, n) <==> asked != {} && forall m :: 0 <= m < n ==> !Answered(script[m].answers, t)
  {
    var answers := Heard(script[..n]);
    HeardByAddress(script, n);
    WaitOverIff(asked, answers, t);
    ByAddressMeaning(answers, t);
    if a :| a in answers && a.tx == t {
      HeardFrom(script, n, a);
    }
    if m :| 0 <= m < n && Answered(script[m].answers, t) {
      var a :| a in script[m].answers && a.tx == t;
      HeardFrom(script, n, a);
    }
  }

  /** As written, the wait succeeds if and only if nothing was asked for or any answer comes in time. */
  lemma SucceedsIffAnswered(asked: set<(NodeId, Key)>, script: seq<Wakeup>, t: Tx,
                            ok: bool, released: set<(NodeId, Key)>, n: nat)
    requires WaitResult(asked, script, t, ok, released, n) && ByAddress(Heard(script))
    ensures ok <==> asked == {} || AnsweredInTime(script, t)
  {
    hide Outstanding, Heard, ByAddress, Answered;
    OneAnswerClears(asked, script, t, n);
    OneAnswerClears(asked, script, t, 0);
    assert forall m :: 0 <= m < n ==> Waiting(asked, script, t, m);
    if ok && asked != {} {
      var m :| 0 <= m < n && Answered(script[m].answers, t);
      forall j | 0 <= j <= m
        ensures !script[j].timeout
      {
        assert !TimedOut(script, j + 1);
      }
    }
    if m :| 0 <= m < |script| && Answered(script[m].answers, t) && forall j :: 0 <= j <= m ==> !script[j].timeout {
      OneAnswerClears(asked, script, t, m + 1);
      assert n <= m + 1;
    }
  }

  /** One answer for one of the keys, in time; whatever it says, it is taken for a success of all. */
  lemma OneAnswerMisleads(asked: set<(NodeId, Key)>, t: Tx, p: (NodeId, Key), says: bool)
    returns (script: seq<Wakeup>)
    requires p in asked
    ensures script == [Wakeup([Answer(p.0, t, p.1, says, false)], false)]
    ensures Heard(script) == script[0].answers && WaitResult(asked, script, t, true, {}, 1)
    ensures Granted(Heard(script[..1]), t) == if says then {p} else {}
  {
    var answer := Answer(p.0, t, p.1, says, false);
    script := [Wakeup([answer], false)];
    HeardMore(script, 0);
    assert script[..0] == [] && script[..1] == script;
    assert Heard(script) == [answer];
    NothingHeard();
    assert Waiting(asked, script, t, 0);
    assert [answer][0] == answer;
    assert Outstanding(asked, [answer], t) == {} by { OutstandingOne(asked, answer, t); }
    assert answer in [answer];
  }

  /** As written, success can be wrong if and only if there is a remote key at all. */
  lemma MisleadingIff(asked: set<(NodeId, Key)>, t: Tx)
    ensures (exists script, n :: ByAddress(Heard(script)) && Misleads(asked, script, t, n)) <==> asked != {}
  {
    if asked != {} {
      var p :| p in asked;
      var script := OneAnswerMisleads(asked, t, p, false);
      assert Misleads(asked, script, t, 1);
    }
  }

  /** Every node grants, and only what it was asked for. */
  predicate AllGranted(asked: set<(NodeId, Key)>, answers: seq<Answer>, t: Tx) {
    forall a :: a in answers ==> a.says && (a.tx == t ==> (a.peer, a.key) in asked)
  }

  lemma TwoPairs(pairs: set<(NodeId, Key)>, p: (NodeId, Key)) returns (q: (NodeId, Key))
    requires p in pairs && |pairs| >= 2
    ensures q in pairs && q != p
  {
    assert |pairs - {p}| == |pairs| - 1;
    q :| q in pairs - {p};
  }

  lemma OnlyOne(pairs: set<(NodeId, Key)>, p: (NodeId, Key))
    requires p in pairs && |pairs| < 2
    ensures pairs == {p}
  {
    assert |pairs - {p}| == |pairs| - 1;
  }

  /** When every node grants, a wrong success needs two keys: the one that was answered for is granted. */
  lemma GrantOfOneIsRight(asked: set<(NodeId, Key)>, script: seq<Wakeup>, t: Tx, n: nat)
    requires ByAddress(Heard(script)) && AllGranted(asked, Heard(script), t) && Misleads(asked, script, t, n)
    ensures |asked| >= 2
  {
    OneAnswerClears(asked, script, t, n);
    var m :| 0 <= m < n && Answered(script[m].answers, t);
    var a :| a in script[m].answers && a.tx == t;
    HeardFrom(script, n, a);
    HeardFrom(script, |script|, a);
    assert script[..|script|] == script;
    assert (a.peer, a.key) in asked * Granted(Heard(script[..n]), t);
    if |asked| < 2 {
      OnlyOne(asked, (a.peer, a.key));
    }
  }

  /** As written, success can be wrong even when every node grants, if and only if two keys are remote. */
  lemma MisleadingThoughGrantedIff(asked: set<(NodeId, Key)>, t: Tx)
    ensures (exists script, n ::
               ByAddress(Heard(script)) && AllGranted(asked, Heard(script), t) && Misleads(asked, script, t, n)) <==>
            |asked| >= 2
  {
    if |asked| >= 2 {
      var p :| p in asked;
      var q := TwoPairs(asked, p);
      var script := OneAnswerMisleads(asked, t, p, true);
      assert q !in Granted(Heard(script[..1]), t);
      assert Misleads(asked, script, t, 1);
    }
    if script, n :|
      ByAddress(Heard(script)) && AllGranted(asked, Heard(script), t) && Misleads(asked, script, t, n) {
      GrantOfOneIsRight(asked, script, t, n);
    }
  }

  /** Were types compared by their text, a wrong success would need a denial. */
  lemma ByTextMisledByDenial(asked: set<(NodeId, Key)>, script: seq<Wakeup>, t: Tx, n: nat)
    requires Misleads(asked, script, t, n) && ByText(Heard(script[..n]))
    ensures Denied(Heard(script[..n]), t)
  {
    WaitOverIff(asked, Heard(script[..n]), t);
    ByTextMeaning(Heard(script[..n]), t);
  }

  /** And one denial would do, so success could still be wrong whenever there is a remote key. */
  lemma ByTextMisleadingIff(asked: set<(NodeId, Key)>, t: Tx)
    ensures (exists script, n :: ByText(Heard(script)) && Misleads(asked, script, t, n)) <==> asked != {}
  {
    if asked != {} {
      var p :| p in asked;
      var script := OneAnswerMisleads(asked, t, p, false);
      assert Misleads(asked, script, t, 1);
    }
  }

  // ----- what a failure leaves behind

  /** A node handles release messages one after the other. */
  function ReleaseEach(ls: LockState, keys: seq<Key>, t: Tx): LockState
    decreases keys
  {
    if keys == [] then ls else ReleaseEach(ReleaseKey(ls, keys[0], t), keys[1..], t)
  }

  lemma {:induction false} ReleaseEachExact(ls: LockState, keys: seq<Key>, t: Tx, k: Key, u: Tx)
    requires ls.owner.Keys <= ls.entries
    ensures Owns(ReleaseEach(ls, keys, t), k, u) <==> Owns(ls, k, u) && !(u == t && k in keys)
    decreases keys
  {
    if keys != [] {
      ReleaseKeyExact(ls, keys[0], t);
      ReleaseEachExact(ReleaseKey(ls, keys[0], t), keys[1..], t, k, u);
    }
  }

  /**
   A failed wait gives back what is still awaited. As written, a key that is locked at its node stays so
   if and only if any answer has come. Were types compared by their text, it would if and only if its
   own grant or any denial has come: those released would be the keys not granted.
   */
  lemma KeysLeak(asked: set<(NodeId, Key)>, script: seq<Wakeup>, t: Tx, released: set<(NodeId, Key)>, n: nat,
                 ls: LockState, node: NodeId, k: Key, keys: seq<Key>)
    requires WaitResult(asked, script, t, false, released, n)
    requires ls.owner.Keys <= ls.entries && (node, k) in asked && Owns(ls, k, t)
    requires forall j :: j in keys <==> (node, j) in released
    ensures var heard, kept := Heard(script[..n]), Owns(ReleaseEach(ls, keys, t), k, t);
            && (ByAddress(heard) ==> (kept <==> Answered(heard, t)))
            && (ByText(heard) ==> (kept <==> Denied(heard, t) || (node, k) in Granted(heard, t)))
  {
    var heard := Heard(script[..n]);
    ReleaseEachExact(ls, keys, t, k, t);
    if ByAddress(heard) {
      ByAddressMeaning(heard, t);
    }
    if ByText(heard) {
      ByTextMeaning(heard, t);
    }
  }
}
