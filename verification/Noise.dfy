/**
 * Fragmented messages over an established Noise transport (handshake/src/post_handshake.rs). Sizes follow
 * section 3 of the Noise Protocol Framework, counters its section 5.1.
 */
module Noise {
  import opened Wire

  /** Largest Noise transport message. */
  const MAX_MESSAGE: nat := 65535
  const TAG: nat := 16
  const MAX_SEGMENT: nat := 65519

  /** The reserved counter value: the state is exhausted on reaching it. */
  const MAX_NONCE: nat := 0xFFFF_FFFF_FFFF_FFFF

  /** The authenticated cipher under one key; its internals are not part of this model. */
  datatype Cipher = Cipher(seal: (nat, Bytes) -> Bytes, open: (nat, Bytes) -> Option<Bytes>)

  ghost predicate Lawful(c: Cipher) {
    forall n: nat, p: Bytes ::
      |c.seal(n, p)| == |p| + TAG && c.open(n, c.seal(n, p)) == Some(p)
  }

  // What is written.

  function Segments(len: nat): nat {
    if len == 0 then 0 else 1 + Segments(len - Min(MAX_SEGMENT, len))
  }

  function Sealed(c: Cipher, n: nat, msg: Bytes): Bytes
    decreases |msg|
  {
    if msg == [] then []
    else
      var k := Min(MAX_SEGMENT, |msg|);
      c.seal(n, msg[..k]) + Sealed(c, n + 1, msg[k..])
  }

  // What is read.

  function Fragments(len: nat): nat {
    if len == 0 then 0 else 1 + Fragments(len - Min(MAX_MESSAGE, len))
  }

  function Opened(c: Cipher, n: nat, ct: Bytes): Result<Bytes>
    decreases |ct|
  {
    if ct == [] then Ok([])
    else if n >= MAX_NONCE then Err(NonceExhausted)
    else
      var k := Min(MAX_MESSAGE, |ct|);
      match c.open(n, ct[..k])
      case None => Err(Decrypt)
      case Some(p) =>
        var rest :- Opened(c, n + 1, ct[k..]);
        Ok(p + rest)
  }

  /** Every segment costs one tag. */
  lemma {:induction false} SegmentsCeil(len: nat)
    ensures Segments(len) == (len + MAX_SEGMENT - 1) / MAX_SEGMENT
  {
    if len > 0 {
      SegmentsCeil(len - Min(MAX_SEGMENT, len));
    }
  }

  lemma {:induction false} SealedLength(c: Cipher, n: nat, msg: Bytes)
    requires Lawful(c)
    ensures |Sealed(c, n, msg)| == |msg| + TAG * Segments(|msg|)
    decreases |msg|
  {
    if msg != [] {
      SealedLength(c, n + 1, msg[Min(MAX_SEGMENT, |msg|)..]);
    }
  }

  /** The reader cuts the ciphertext where the writer did, so every segment opens under its counter. */
  lemma {:induction false} OpenSealed(c: Cipher, n: nat, msg: Bytes)
    requires Lawful(c) && n + Segments(|msg|) <= MAX_NONCE
    ensures Opened(c, n, Sealed(c, n, msg)) == Ok(msg)
    ensures Fragments(|Sealed(c, n, msg)|) == Segments(|msg|)
    decreases |msg|
  {
    if msg != [] {
      var k := Min(MAX_SEGMENT, |msg|);
      var head, tail := c.seal(n, msg[..k]), Sealed(c, n + 1, msg[k..]);
      var ct := head + tail;
      assert |head| == k + TAG;
      SealedLength(c, n + 1, msg[k..]);
      assert Min(MAX_MESSAGE, |ct|) == |head|;
      assert ct[..|head|] == head && ct[|head|..] == tail;
      OpenSealed(c, n + 1, msg[k..]);
      assert msg[..k] + msg[k..] == msg;
    }
  }

  /** The `i`-th piece of that width, the last one perhaps shorter. */
  function Piece(s: Bytes, i: nat, width: nat): Bytes {
    var lo := width * i;
    if lo <= |s| then s[lo..Min(lo + width, |s|)] else []
  }

  lemma LaterPiece(a: Bytes, b: Bytes, i: nat)
    requires i > 0
    ensures Piece(a + b, i, |a|) == Piece(b, i - 1, |a|)
  {
    var lo := |a| * i;
    assert lo == |a| * (i - 1) + |a|;
    if lo <= |a + b| {
      assert (a + b)[lo..Min(lo + |a|, |a + b|)] == b[lo - |a|..Min(lo, |b|)];
    }
  }

  lemma FirstPiece(s: Bytes, width: nat)
    ensures Piece(s, 0, width) == s[..Min(width, |s|)]
  {
  }

  /** The `i`-th 65535 bytes of the ciphertext are the `i`-th 65519 bytes of the message under the `i`-th counter. */
  lemma {:induction false} SegmentAt(c: Cipher, n: nat, msg: Bytes, i: nat)
    requires Lawful(c) && 65519 * i < |msg|
    ensures Piece(Sealed(c, n, msg), i, 65535) == c.seal(n + i, Piece(msg, i, 65519))
    decreases i
  {
    hide Sealed, Piece, Lawful;
    if i == 0 {
      FirstSegment(c, n, msg);
    } else {
      var head, tail := c.seal(n, msg[..65519]), Sealed(c, n + 1, msg[65519..]);
      Tagged(c, n, msg[..65519]);
      SealedMore(c, n, msg);
      SegmentAt(c, n + 1, msg[65519..], i - 1);
      LaterPiece(head, tail, i);
      assert msg == msg[..65519] + msg[65519..];
      LaterPiece(msg[..65519], msg[65519..], i);
    }
  }

  lemma Tagged(c: Cipher, n: nat, s: Bytes)
    requires Lawful(c)
    ensures |c.seal(n, s)| == |s| + 16
  {
  }

  lemma SealedMore(c: Cipher, n: nat, msg: Bytes)
    requires |msg| > 65519
    ensures Sealed(c, n, msg) == c.seal(n, msg[..65519]) + Sealed(c, n + 1, msg[65519..])
  {
  }

  lemma FirstSegment(c: Cipher, n: nat, msg: Bytes)
    requires Lawful(c) && msg != []
    ensures Piece(Sealed(c, n, msg), 0, 65535) == c.seal(n, Piece(msg, 0, 65519))
  {
    var k := Min(65519, |msg|);
    Tagged(c, n, msg[..k]);
    FirstPiece(msg, 65519);
    FirstPiece(Sealed(c, n, msg), 65535);
    hide Piece, Lawful;
    Front(c.seal(n, msg[..k]), Sealed(c, n + 1, msg[k..]), 65535);
  }

  lemma Front(a: Bytes, b: Bytes, width: nat)
    requires |a| == width || (|a| < width && b == [])
    ensures (a + b)[..Min(width, |a + b|)] == a
  {
  }

  lemma SealedStep(c: Cipher, n: nat, msg: Bytes, before: Bytes)
    requires msg != []
    ensures var k := Min(MAX_SEGMENT, |msg|);
            && before + Sealed(c, n, msg) == before + c.seal(n, msg[..k]) + Sealed(c, n + 1, msg[k..])
            && Segments(|msg|) == 1 + Segments(|msg| - k)
  {
  }

  lemma SealedDone(c: Cipher, n: nat, msg: Bytes)
    requires msg == []
    ensures Sealed(c, n, msg) == [] && Segments(0) == 0
  {
  }

  // The stream: four little-endian length bytes, then the ciphertext.

  function Le4(x: nat): (r: Bytes)
    ensures |r| == 4
  {
    [x % 256, x / 256 % 256, x / 65536 % 256, x / 16777216 % 256]
  }

  function FromLe4(b: Bytes): nat
    requires |b| == 4
  {
    var w: int, x: int, y: int, z: int := b[0], b[1], b[2], b[3];
    w + 256 * x + 65536 * y + 16777216 * z
  }

  /** Only the low 32 bits of a length reach the stream. */
  lemma LengthTruncated(x: nat)
    ensures FromLe4(Le4(x)) == x % 0x1_0000_0000
  {
    var a, b, c, d := x / 256, x / 65536, x / 16777216, x / 0x1_0000_0000;
    assert b == a / 256 && c == b / 256 && d == c / 256;
    var r := x % 256 + 256 * (a % 256) + 65536 * (b % 256) + 16777216 * (c % 256);
    assert x == 256 * a + x % 256;
    assert a == 256 * b + a % 256;
    assert b == 256 * c + b % 256;
    assert c == 256 * d + c % 256;
    assert x == 0x1_0000_0000 * d + r;
  }

  const EOS: Bytes := [0, 0, 0, 0]

  function Framed(c: Cipher, n: nat, msg: Bytes): Bytes {
    Le4(|Sealed(c, n, msg)|) + Sealed(c, n, msg)
  }

  datatype Received = Received(msg: Bytes, rest: Bytes, nonce: nat)

  /** `read_message_from_stream`; an empty message is the end-of-stream marker. */
  function ReadStream(c: Cipher, n: nat, stream: Bytes): (r: Result<Received>)
    ensures r.Ok? ==> |r.value.rest| < |stream|
  {
    if |stream| < 4 then Err(UnexpectedEof)
    else
      var len := FromLe4(stream[..4]);
      if len == 0 then Ok(Received([], stream[4..], n))
      else if |stream| < 4 + len then Err(UnexpectedEof)
      else
        var msg :- Opened(c, n, stream[4..4 + len]);
        Ok(Received(msg, stream[4 + len..], n + Fragments(len)))
  }

  /** A non-empty message comes back, with the stream and the counters in step, exactly below 2^32 bytes. */
  lemma MessageRoundTrip(c: Cipher, n: nat, msg: Bytes, rest: Bytes)
    requires Lawful(c) && msg != [] && n + Segments(|msg|) <= MAX_NONCE
    ensures ReadStream(c, n, Framed(c, n, msg) + rest) == Ok(Received(msg, rest, n + Segments(|msg|)))
            <==> |Sealed(c, n, msg)| < 0x1_0000_0000
  {
    hide Sealed, Opened, Fragments, Segments, Le4, FromLe4;
    var ct := Sealed(c, n, msg);
    var stream := Framed(c, n, msg) + rest;
    assert stream[..4] == Le4(|ct|) && stream[4..] == ct + rest;
    LengthTruncated(|ct|);
    SealedLength(c, n, msg);
    if |ct| < 0x1_0000_0000 {
      assert stream[4..4 + |ct|] == ct && stream[4 + |ct|..] == rest;
      OpenSealed(c, n, msg);
    }
  }

  /** An empty message cannot be told from the marker. */
  lemma EmptyIsMarker(c: Cipher, n: nat)
    ensures Framed(c, n, []) == EOS
  {
  }

  // Whole sessions.

  function SendAll(c: Cipher, n: nat, msgs: seq<Bytes>): Bytes
    decreases |msgs|
  {
    if msgs == [] then EOS
    else Framed(c, n, msgs[0]) + SendAll(c, n + Segments(|msgs[0]|), msgs[1..])
  }

  function TotalSegments(msgs: seq<Bytes>): nat {
    if msgs == [] then 0 else Segments(|msgs[0]|) + TotalSegments(msgs[1..])
  }

  /** The messages up to the marker, what follows it, and the counter reached. */
  function ReadAll(c: Cipher, n: nat, stream: Bytes): Result<(seq<Bytes>, Bytes, nat)>
    decreases |stream|
  {
    var q :- ReadStream(c, n, stream);
    if q.msg == [] then Ok(([], q.rest, q.nonce))
    else
      var (ms, rest, k) :- ReadAll(c, q.nonce, q.rest);
      Ok(([q.msg] + ms, rest, k))
  }

  ghost predicate Writable(msg: Bytes) {
    msg != [] && |msg| + TAG * Segments(|msg|) < 0x1_0000_0000
  }

  lemma {:induction false} SessionRoundTrip(c: Cipher, n: nat, msgs: seq<Bytes>, rest: Bytes)
    requires Lawful(c) && n + TotalSegments(msgs) <= MAX_NONCE
    requires forall i | 0 <= i < |msgs| :: Writable(msgs[i])
    ensures ReadAll(c, n, SendAll(c, n, msgs) + rest) == Ok((msgs, rest, n + TotalSegments(msgs)))
    decreases |msgs|
  {
    hide Sealed, Opened, Fragments, Segments, ReadStream, Framed;
    if msgs == [] {
      MarkerEnds(c, n, rest);
    } else {
      var m, k := msgs[0], n + Segments(|msgs[0]|);
      var later := SendAll(c, k, msgs[1..]) + rest;
      assert SendAll(c, n, msgs) + rest == Framed(c, n, m) + later;
      assert Writable(m);
      SealedLength(c, n, m);
      MessageRoundTrip(c, n, m, later);
      SessionRoundTrip(c, k, msgs[1..], rest);
      assert [m] + msgs[1..] == msgs;
    }
  }

  lemma MarkerEnds(c: Cipher, n: nat, rest: Bytes)
    ensures ReadStream(c, n, EOS + rest) == Ok(Received([], rest, n))
  {
    assert (EOS + rest)[..4] == EOS && (EOS + rest)[4..] == rest;
  }

  /** One end of the transport after the handshake. */
  class Transport {
    const cipher: Cipher
    var sendNonce: nat
    var recvNonce: nat

    constructor (cipher: Cipher)
      ensures this.cipher == cipher && sendNonce == 0 && recvNonce == 0
    {
      this.cipher, sendNonce, recvNonce := cipher, 0, 0;
    }

    /** The cipher's own write: one segment, one counter step. */
    method WriteNoise(segment: Bytes) returns (r: Result<Bytes>)
      modifies this`sendNonce
      ensures if |segment| + TAG > MAX_MESSAGE then r == Err(Panic) && sendNonce == old(sendNonce)
              else if old(sendNonce) >= MAX_NONCE then r == Err(NonceExhausted) && sendNonce == old(sendNonce)
              else r == Ok(cipher.seal(old(sendNonce), segment)) && sendNonce == old(sendNonce) + 1
    {
      if |segment| + TAG > MAX_MESSAGE {
        return Err(Panic);
      }
      if sendNonce >= MAX_NONCE {
        return Err(NonceExhausted);
      }
      r := Ok(cipher.seal(sendNonce, segment));
      sendNonce := sendNonce + 1;
    }

    method ReadNoise(fragment: Bytes) returns (r: Result<Bytes>)
      modifies this`recvNonce
      ensures if old(recvNonce) >= MAX_NONCE then r == Err(NonceExhausted)
              else match cipher.open(old(recvNonce), fragment)
                   case None => r == Err(Decrypt)
                   case Some(p) => r == Ok(p)
      ensures recvNonce == if r.Ok? then old(recvNonce) + 1 else old(recvNonce)
    {
      if recvNonce >= MAX_NONCE {
        return Err(NonceExhausted);
      }
      match cipher.open(recvNonce, fragment)
      case None => return Err(Decrypt);
      case Some(p) =>
        recvNonce := recvNonce + 1;
        return Ok(p);
    }

    /** `write_message` */
    method WriteMessage(msg: Bytes) returns (r: Result<(nat, Bytes)>)
      requires Lawful(cipher) && sendNonce <= MAX_NONCE
      modifies this`sendNonce
      ensures r.Ok? <==> old(sendNonce) + Segments(|msg|) <= MAX_NONCE
      ensures r.Ok? ==>
                && r.value.1 == Sealed(cipher, old(sendNonce), msg) && r.value.0 == |r.value.1|
                && sendNonce == old(sendNonce) + Segments(|msg|)
    {
      hide Sealed, Segments, Lawful;
      var written, encrypted, out: Bytes := 0, 0, [];
      ghost var n := sendNonce;
      assert msg[0..] == msg && [] + Sealed(cipher, n, msg) == Sealed(cipher, n, msg);
      while written < |msg|
        invariant written <= |msg| && encrypted == |out|
        invariant out + Sealed(cipher, sendNonce, msg[written..]) == Sealed(cipher, n, msg)
        invariant sendNonce + Segments(|msg| - written) == n + Segments(|msg|)
        invariant sendNonce <= MAX_NONCE
      {
        var k := Min(MAX_MESSAGE - TAG, |msg| - written);
        ghost var here := msg[written..];
        assert here[..k] == msg[written..written + k] && here[k..] == msg[written + k..];
        SealedStep(cipher, sendNonce, here, out);
        var seg := WriteNoise(msg[written..written + k]);
        if seg.Err? {
          return Err(seg.error);
        }
        out := out + seg.value;
        written, encrypted := written + k, encrypted + |seg.value|;
      }
      SealedDone(cipher, sendNonce, msg[written..]);
      return Ok((encrypted, out));
    }

    /** `read_message` on a buffer of exactly the announced length. */
    method ReadMessage(ct: Bytes) returns (r: Result<Bytes>)
      modifies this`recvNonce
      ensures r == Opened(cipher, old(recvNonce), ct)
      ensures r.Ok? ==> recvNonce == old(recvNonce) + Fragments(|ct|)
    {
      var read: nat, remaining: nat, msg: Bytes := 0, |ct|, [];
      ghost var n := recvNonce;
      assert ct[0..] == ct;
      BeforeNothing(Opened(cipher, n, ct));
      while remaining > 0
        invariant read + remaining == |ct|
        invariant recvNonce + Fragments(remaining) == n + Fragments(|ct|)
        invariant Opened(cipher, n, ct) == Before(msg, Opened(cipher, recvNonce, ct[read..]))
      {
        var k := Min(MAX_MESSAGE, remaining);
        ghost var here := ct[read..];
        assert here[..k] == ct[read..read + k] && here[k..] == ct[read + k..];
        var seg := ReadNoise(ct[read..read + k]);
        if seg.Err? {
          return Err(seg.error);
        }
        BeforeBoth(msg, seg.value, Opened(cipher, recvNonce, ct[read + k..]));
        msg := msg + seg.value;
        read, remaining := read + k, remaining - k;
      }
      assert ct[read..] == [] && msg + [] == msg;
      return Ok(msg);
    }

    /** `write_message_to_stream`: what is appended to the stream. */
    method WriteMessageToStream(stream: Bytes, msg: Bytes) returns (r: Result<Bytes>)
      requires Lawful(cipher) && sendNonce <= MAX_NONCE
      modifies this`sendNonce
      ensures r.Ok? <==> old(sendNonce) + Segments(|msg|) <= MAX_NONCE
      ensures r.Ok? ==> r.value == stream + Framed(cipher, old(sendNonce), msg)
      ensures r.Ok? ==> sendNonce == old(sendNonce) + Segments(|msg|)
    {
      var w :- WriteMessage(msg);
      return Ok(stream + Le4(w.0) + w.1);
    }

    /** `read_message_from_stream`: the message and the rest of the stream. */
    method ReadMessageFromStream(stream: Bytes) returns (r: Result<(Bytes, Bytes)>)
      modifies this`recvNonce
      ensures match ReadStream(cipher, old(recvNonce), stream)
              case Ok(q) => r == Ok((q.msg, q.rest)) && recvNonce == q.nonce
              case Err(e) => r == Err(e)
    {
      if |stream| < 4 {
        return Err(UnexpectedEof);
      }
      var len := FromLe4(stream[..4]);
      if len == 0 {
        return Ok(([], stream[4..]));
      }
      if |stream| < 4 + len {
        return Err(UnexpectedEof);
      }
      var msg :- ReadMessage(stream[4..4 + len]);
      return Ok((msg, stream[4 + len..]));
    }
  }

  ghost function Before(a: Bytes, r: Result<Bytes>): Result<Bytes> {
    if r.Ok? then Ok(a + r.value) else r
  }

  lemma BeforeNothing(r: Result<Bytes>)
    ensures Before([], r) == r
  {
    if r.Ok? {
      assert [] + r.value == r.value;
    }
  }

  lemma BeforeBoth(a: Bytes, b: Bytes, r: Result<Bytes>)
    ensures Before(a + b, r) == Before(a, Before(b, r))
  {
    if r.Ok? {
      assert a + b + r.value == a + (b + r.value);
    }
  }
}
