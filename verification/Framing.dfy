/** Length-prefixed frames on a peer connection: four big-endian length bytes, then the payload. */
module Framing {

  type Byte = b: nat | b < 256

  const U32_RANGE: nat := 0x1_0000_0000

  /** The bytes of a 32-bit number in network order. */
  function BigEndian(n: nat): (bytes: seq<Byte>)
    requires n < U32_RANGE
    ensures |bytes| == 4
  {
    [n / 256 / 256 / 256, n / 256 / 256 % 256, n / 256 % 256, n % 256]
  }

  function Shift(n: nat, b: Byte): nat {
    n * 256 + b
  }

  function FromBigEndian(bytes: seq<Byte>): (n: nat)
    requires |bytes| == 4
    ensures n < U32_RANGE
  {
    Shift(Shift(Shift(bytes[0], bytes[1]), bytes[2]), bytes[3])
  }

  lemma ShiftBack(n: nat, b: Byte)
    ensures Shift(n, b) / 256 == n && Shift(n, b) % 256 == b
    ensures Shift(n / 256, n % 256) == n
  {
  }

  function Weighed(a: nat, b: nat, c: nat, d: nat): nat {
    16777216 * a + 65536 * b + 256 * c + d
  }

  /** Network order: the first byte weighs most. */
  lemma NetworkOrder(bytes: seq<Byte>)
    requires |bytes| == 4
    ensures FromBigEndian(bytes) == Weighed(bytes[0], bytes[1], bytes[2], bytes[3])
  {
  }

  lemma LengthRoundTrip(n: nat)
    requires n < U32_RANGE
    ensures FromBigEndian(BigEndian(n)) == n
  {
    ShiftBack(n, 0);
    ShiftBack(n / 256, 0);
    ShiftBack(n / 256 / 256, 0);
  }

  lemma BigEndianRoundTrip(bytes: seq<Byte>)
    requires |bytes| == 4
    ensures BigEndian(FromBigEndian(bytes)) == bytes
  {
    var a := Shift(bytes[0], bytes[1]);
    var b := Shift(a, bytes[2]);
    ShiftBack(bytes[0], bytes[1]);
    ShiftBack(a, bytes[2]);
    ShiftBack(b, bytes[3]);
  }

  function Frame(payload: seq<Byte>): seq<Byte>
    requires |payload| < U32_RANGE
  {
    BigEndian(|payload|) + payload
  }

  /** `Rejected` is the thrown error; `Overrun` is a buffer too small for what is copied into it. */
  datatype SendResult = Sent(bytes: seq<Byte>) | Rejected | Overrun

  /**
   `send` up to the socket. The buffer size is computed in 32 bits and wraps for the largest
   payloads the size test lets through.
   */
  method Send(payload: seq<Byte>) returns (r: SendResult)
    ensures r == Rejected <==> |payload| >= U32_RANGE - 1
    ensures r == Overrun <==> U32_RANGE - 4 <= |payload| < U32_RANGE - 1
    ensures r.Sent? ==>
              && r.bytes == Frame(payload) && |r.bytes| == 4 + |payload| && r.bytes[4..] == payload
              && Weighed(r.bytes[0], r.bytes[1], r.bytes[2], r.bytes[3]) == |payload|
  {
    if |payload| >= U32_RANGE - 1 {
      return Rejected;
    }
    var len := |payload|;
    var lenBe := BigEndian(len);
    var out := new Byte[(4 + len) % U32_RANGE];
    if out.Length < 4 + len {
      return Overrun;
    }
    for i := 0 to 4
      invariant out[..i] == lenBe[..i]
    {
      out[i] := lenBe[i];
    }
    for i := 0 to len
      invariant out[..4] == lenBe
      invariant out[4..4 + i] == payload[..i]
    {
      out[4 + i] := payload[i];
    }
    assert out[..] == out[..4] + out[4..4 + len];
    LengthRoundTrip(len);
    NetworkOrder(lenBe);
    return Sent(out[..]);
  }

  datatype Received = Message(payload: seq<Byte>, rest: seq<Byte>) | Incomplete

  /** `receive`: read four bytes, then as many as they say. */
  function Receive(stream: seq<Byte>): Received {
    if |stream| < 4 then Incomplete
    else
      var n := FromBigEndian(stream[..4]);
      if |stream| - 4 < n then Incomplete else Message(stream[4..4 + n], stream[4 + n..])
  }

  predicate Sendable(payloads: seq<seq<Byte>>) {
    forall p :: p in payloads ==> |p| < U32_RANGE
  }

  function EncodeAll(payloads: seq<seq<Byte>>): seq<Byte>
    requires Sendable(payloads)
  {
    if payloads == [] then [] else
    assert forall p :: p in payloads[1..] ==> p in payloads;
    Frame(payloads[0]) + EncodeAll(payloads[1..])
  }

  /** The frame in front of a stream is received whole, and nothing after it is touched. */
  lemma ReceiveFrame(payload: seq<Byte>, rest: seq<Byte>)
    requires |payload| < U32_RANGE
    ensures Receive(Frame(payload) + rest) == Message(payload, rest)
  {
    var stream := Frame(payload) + rest;
    LengthRoundTrip(|payload|);
    assert stream[..4] == BigEndian(|payload|);
    assert stream[4..4 + |payload|] == payload;
    assert stream[4 + |payload|..] == rest;
  }

  /** What is received is a frame of the stream. */
  lemma ReceivedIsFrame(stream: seq<Byte>)
    requires Receive(stream).Message?
    ensures var Message(payload, rest) := Receive(stream);
            |payload| < U32_RANGE && Frame(payload) + rest == stream
  {
    BigEndianRoundTrip(stream[..4]);
  }

  lemma Regroup(a: seq<Byte>, b: seq<Byte>, c: seq<Byte>)
    ensures (a + b) + c == a + (b + c)
  {
  }

  /** Receiving until no whole message is left. */
  method ReceiveAll(stream: seq<Byte>) returns (messages: seq<seq<Byte>>, rest: seq<Byte>)
    ensures Sendable(messages)
    ensures stream == EncodeAll(messages) + rest
    ensures Receive(rest) == Incomplete
  {
    messages, rest := [], stream;
    while Receive(rest).Message?
      invariant Sendable(messages)
      invariant stream == EncodeAll(messages) + rest
      decreases |rest|
    {
      var m := Receive(rest);
      ReceivedIsFrame(rest);
      EncodeAppend(messages, m.payload);
      Regroup(EncodeAll(messages), Frame(m.payload), m.rest);
      messages, rest := messages + [m.payload], m.rest;
    }
  }

  lemma {:induction false} EncodeAppend(payloads: seq<seq<Byte>>, p: seq<Byte>)
    requires Sendable(payloads) && |p| < U32_RANGE
    ensures Sendable(payloads + [p])
    ensures EncodeAll(payloads + [p]) == EncodeAll(payloads) + Frame(p)
    decreases payloads
  {
    if payloads == [] {
      assert payloads + [p] == [p];
    } else {
      assert (payloads + [p])[1..] == payloads[1..] + [p];
      EncodeAppend(payloads[1..], p);
    }
  }

  /**
   Decoding is unique, even of a stream cut off in mid-frame: what has been received of a stream
   that began as the frames of `sent` is the beginning of `sent`, and all of it once the stream is
   complete.
   */
  lemma {:induction false} ReceivedIsPrefixOfSent(sent: seq<seq<Byte>>, stream: seq<Byte>,
                                                  received: seq<seq<Byte>>, rest: seq<Byte>)
    requires Sendable(sent) && Sendable(received)
    requires stream <= EncodeAll(sent)
    requires stream == EncodeAll(received) + rest && Receive(rest) == Incomplete
    ensures received <= sent
    ensures stream == EncodeAll(sent) ==> received == sent && rest == []
    decreases received
  {
    hide BigEndian, FromBigEndian;
    if received == [] {
      assert rest == stream;
      if stream == EncodeAll(sent) && sent != [] {
        ReceiveFrame(sent[0], EncodeAll(sent[1..]));
      }
    } else {
      var tail := EncodeAll(sent)[|stream|..];
      var after := EncodeAll(received[1..]) + rest;
      assert stream == Frame(received[0]) + after;
      assert EncodeAll(sent) == Frame(received[0]) + (after + tail);
      ReceiveFrame(received[0], after + tail);
      ReceiveFrame(sent[0], EncodeAll(sent[1..]));
      assert EncodeAll(sent[1..]) == after + tail;
      ReceivedIsPrefixOfSent(sent[1..], after, received[1..], rest);
    }
  }
}
