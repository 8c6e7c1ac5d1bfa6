/**
 * A peer's connection end to end: messages encoded, concatenated, cut into reads, deframed and decoded
 * (cable_core/src/manager.rs, `listen`).
 */
module Session {
  import opened Wire
  import opened Messages
  import opened Framing
  import Varint

  /** `DecodeOptions::default()` with `include_len`. */
  const MAX_SIZE: nat := 50_000

  function EncodeAll(ms: seq<Message>): seq<Bytes> {
    seq(|ms|, i requires 0 <= i < |ms| => Encode(ms[i]))
  }

  /** A message is one frame of the stream exactly when its size is outside the prefix window. */
  lemma FrameExactly(m: Message)
    requires CountBytes(m) < Varint.LIMIT
    ensures IsFrame(Encode(m)) <==> !InWindow(MessageSize(m))
  {
    hide Encode, Varint.Decode, InWindow, MessageSize, CountBytes;
    CountFromEncoding(m, []);
    assert Encode(m) + [] == Encode(m);
    PrefixExact(m);
    SizePositive(m);
  }

  lemma SizePositive(m: Message)
    ensures MessageSize(m) > 8
    ensures |Encode(m)| == CountBytes(m)
    ensures CountBytes(m) > MessageSize(m)
  {
    PrefixExact(m);
    LengthBelow(MessageSize(m));
  }

  /** What a message must be to travel over a connection. */
  ghost predicate Sendable(m: Message) {
    WellFormed(m) && !InWindow(MessageSize(m)) && CountBytes(m) <= MAX_SIZE
  }

  lemma SendableFrame(m: Message)
    requires Sendable(m)
    ensures IsFrame(Encode(m)) && |Encode(m)| <= MAX_SIZE
    ensures Messages.Decode(Encode(m)) == Ok((CountBytes(m), m))
  {
    hide Encode, Messages.Decode, IsFrame, InWindow, MessageSize, CountBytes, WellFormed;
    FrameExactly(m);
    SizePositive(m);
    RoundTrip(m, []);
    assert Encode(m) + [] == Encode(m);
  }

  lemma StreamOfMessages(ms: seq<Message>)
    requires forall i | 0 <= i < |ms| :: Sendable(ms[i])
    ensures Deframe(Concat(EncodeAll(ms))) == (EncodeAll(ms), [])
    ensures Readable(Concat(EncodeAll(ms)), MAX_SIZE)
  {
    hide Encode, IsFrame, Deframe, Sendable;
    var fs := EncodeAll(ms);
    forall i | 0 <= i < |fs| ensures IsFrame(fs[i]) && |fs[i]| <= MAX_SIZE {
      SendableFrame(ms[i]);
    }
    DeframeConcat(fs, []);
    EmptyUndecodable();
    assert Concat(fs) + [] == Concat(fs);
    assert fs + [] == fs;
  }

  /** The receiving loop of `listen`: deframe, decode, hand on. */
  method Listen(d: Decoder, ghost ms: seq<Message>) returns (received: seq<Message>, failed: bool)
    requires d.includeLen && d.buffer.Length == MAX_SIZE
    requires Decodable(d) && d.Stream() == Concat(EncodeAll(ms))
    requires forall i | 0 <= i < |ms| :: Sendable(ms[i])
    modifies d, d.buffer, d.input
    ensures received == ms && !failed
  {
    hide Varint.Decode, Deframe, CutsOk, FrontComplete, Readable, Messages.Decode, Encode, Sendable;
    StreamOfMessages(ms);
    ghost var fs := EncodeAll(ms);
    received := [];
    while true
      invariant Decodable(d)
      invariant received <= ms && Deframe(StreamOf(d)) == (fs[|received|..], [])
      decreases |StreamOf(d)|
    {
      ghost var k := |received|;
      var r := NextRecord(d);
      if r.Err? {
        return received, true;
      }
      if r.value.None? {
        return received, false;
      }
      SendableFrame(ms[k]);
      assert fs[k..][0] == Encode(ms[k]) && fs[k..][1..] == fs[k + 1..];
      var m := FromBytes(r.value.value);
      if m.Err? {
        return received, true;
      }
      received := received + [m.value.1];
    }
  }

  /** A whole connection: any messages, any reads that leave each front prefix complete. */
  method Transfer(ms: seq<Message>, sizes: seq<nat>) returns (received: seq<Message>, failed: bool)
    requires forall i | 0 <= i < |ms| :: Sendable(ms[i])
    requires CutsOk([], Concat(EncodeAll(ms)), sizes, MAX_SIZE)
    ensures received == ms && !failed
  {
    hide Varint.Decode, Deframe, CutsOk, FrontComplete, Readable, Encode, Sendable;
    StreamOfMessages(ms);
    var stream: Bytes := [];
    for i := 0 to |ms|
      invariant stream == Concat(EncodeAll(ms)[..i])
    {
      assert Sendable(ms[i]);
      var b := ToBytes(ms[i]);
      SendableWritable(ms[i]);
      var fs := EncodeAll(ms);
      assert fs[..i + 1] == fs[..i] + [fs[i]];
      ConcatAppend(fs[..i], [fs[i]]);
      assert Concat([fs[i]]) == fs[i] + [];
      stream := stream + b.value;
    }
    assert EncodeAll(ms)[..|ms|] == EncodeAll(ms);
    var input := new Reader(stream, sizes);
    var d := new Decoder(input, MAX_SIZE, true);
    assert d.Stream() == stream by {
      assert Concat([]) + ([] + stream) == stream;
    }
    received, failed := Listen(d, ms);
  }

  lemma SendableWritable(m: Message)
    requires Sendable(m)
    ensures !m.body.Unrecognized?
  {
  }
}
