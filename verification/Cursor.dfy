/**
 * Reading and writing at an offset: the pieces from which the message and post codecs are built
 * (cable/src/message.rs, cable/src/post.rs).
 */
module Cursor {
  import opened Wire
  import opened Varint
  import Utf8

  // Encodings.

  function EncodeHashes(hs: seq<Hash>): (r: Bytes)
    ensures |r| == 32 * |hs|
  {
    if hs == [] then [] else hs[0] + EncodeHashes(hs[1..])
  }

  function EncodeText(t: Bytes): Bytes {
    Encoding(|t|) + t
  }

  /** Length-prefixed items closed by a zero length. */
  function EncodeChunks(cs: seq<Bytes>): Bytes {
    if cs == [] then Encoding(0) else EncodeText(cs[0]) + EncodeChunks(cs[1..])
  }

  // Sizes, counted without encoding.

  function TextSize(t: Bytes): nat {
    Length(|t|) + |t|
  }

  function ChunksSize(cs: seq<Bytes>): nat {
    if cs == [] then 0 else TextSize(cs[0]) + ChunksSize(cs[1..])
  }

  lemma TextSizeExact(t: Bytes)
    ensures |EncodeText(t)| == TextSize(t)
  {
    EncodingLength(|t|);
  }

  lemma {:induction false} ChunksSizeExact(cs: seq<Bytes>)
    ensures |EncodeChunks(cs)| == ChunksSize(cs) + Length(0)
  {
    if cs == [] {
      EncodingLength(0);
    } else {
      TextSizeExact(cs[0]);
      ChunksSizeExact(cs[1..]);
    }
  }

  // Readers: each returns the offset behind what it read.

  function ReadVarint(buf: Bytes, off: nat): (r: Result<(nat, nat)>)
    requires off <= |buf|
    ensures r.Ok? ==> off < r.value.0 <= |buf| && r.value.1 < LIMIT
  {
    var (s, v) :- Decode(buf[off..]);
    Ok((off + s, v))
  }

  function ReadExact(buf: Bytes, off: nat, n: nat): (r: Result<(nat, Bytes)>)
    requires off <= |buf|
    ensures r.Ok? ==> r.value.0 == off + n <= |buf| && |r.value.1| == n
  {
    if off + n > |buf| then Err(Panic) else Ok((off + n, buf[off..off + n]))
  }

  function ReadHashes(buf: Bytes, off: nat, n: nat): (r: Result<(nat, seq<Hash>)>)
    requires off <= |buf|
    ensures r.Ok? ==> r.value.0 <= |buf| && |r.value.1| == n
    decreases n
  {
    if n == 0 then Ok((off, []))
    else if off + 32 > |buf| then Err(HashListEnd)
    else Prepend([buf[off..off + 32]], ReadHashes(buf, off + 32, n - 1))
  }

  /** A length, then that many bytes, which must be UTF-8. */
  function ReadText(buf: Bytes, off: nat): (r: Result<(nat, Bytes)>)
    requires off <= |buf|
    ensures r.Ok? ==> off < r.value.0 <= |buf| && Utf8.Valid(r.value.1) && |r.value.1| < LIMIT
  {
    var (o, n) :- ReadVarint(buf, off);
    var (o, t) :- ReadExact(buf, o, n);
    if Utf8.Valid(t) then Ok((o, t)) else Err(InvalidUtf8)
  }

  ghost predicate GoodChunk(c: Bytes, utf8: bool) {
    0 < |c| < LIMIT && (utf8 ==> Utf8.Valid(c))
  }

  ghost predicate GoodChunks(cs: seq<Bytes>, utf8: bool) {
    forall i | 0 <= i < |cs| :: GoodChunk(cs[i], utf8)
  }

  function ReadChunks(buf: Bytes, off: nat, utf8: bool): (r: Result<(nat, seq<Bytes>)>)
    requires off <= |buf|
    ensures r.Ok? ==> off < r.value.0 <= |buf| && GoodChunks(r.value.1, utf8)
    decreases |buf| - off
  {
    var (o, n) :- ReadVarint(buf, off);
    if n == 0 then Ok((o, []))
    else
      var (o, c) :- ReadExact(buf, o, n);
      if utf8 && !Utf8.Valid(c) then Err(InvalidUtf8) else Prepend([c], ReadChunks(buf, o, utf8))
  }

  // What is written at an offset is read back from it.

  lemma VarintAt(buf: Bytes, off: nat, v: nat)
    requires At(buf, off, Encoding(v)) && v < LIMIT
    ensures ReadVarint(buf, off) == Ok((off + |Encoding(v)|, v))
  {
    var tail := buf[off + |Encoding(v)|..];
    AtSlice(buf, off, Encoding(v));
    assert buf[off..] == Encoding(v) + tail;
    RoundTrip(v, tail);
  }

  lemma ExactAt(buf: Bytes, off: nat, s: Bytes)
    requires At(buf, off, s)
    ensures ReadExact(buf, off, |s|) == Ok((off + |s|, s))
  {
    AtSlice(buf, off, s);
  }

  lemma {:induction false} HashesAt(buf: Bytes, off: nat, hs: seq<Hash>)
    requires At(buf, off, EncodeHashes(hs))
    ensures ReadHashes(buf, off, |hs|) == Ok((off + 32 * |hs|, hs))
    decreases |hs|
  {
    if hs != [] {
      AtSplit(buf, off, hs[0], EncodeHashes(hs[1..]));
      AtSlice(buf, off, hs[0]);
      HashesAt(buf, off + 32, hs[1..]);
      assert hs == [hs[0]] + hs[1..];
    }
  }

  lemma CountedAt(buf: Bytes, off: nat, t: Bytes)
    requires At(buf, off, EncodeText(t)) && |t| < LIMIT
    ensures ReadVarint(buf, off) == Ok((off + |Encoding(|t|)|, |t|))
    ensures ReadExact(buf, off + |Encoding(|t|)|, |t|) == Ok((off + |EncodeText(t)|, t))
  {
    hide ReadVarint, ReadExact, At, Encoding;
    AtSplit(buf, off, Encoding(|t|), t);
    ExactAt(buf, off + |Encoding(|t|)|, t);
    VarintAt(buf, off, |t|);
  }

  lemma TextAt(buf: Bytes, off: nat, t: Bytes)
    requires At(buf, off, EncodeText(t)) && |t| < LIMIT && Utf8.Valid(t)
    ensures ReadText(buf, off) == Ok((off + |EncodeText(t)|, t))
  {
    hide ReadVarint, ReadExact, At;
    CountedAt(buf, off, t);
  }

  lemma ChunkAt(buf: Bytes, off: nat, c: Bytes, utf8: bool)
    requires At(buf, off, EncodeText(c)) && GoodChunk(c, utf8)
    ensures ReadChunks(buf, off, utf8) == Prepend([c], ReadChunks(buf, off + |EncodeText(c)|, utf8))
  {
    hide ReadVarint, ReadExact, At;
    CountedAt(buf, off, c);
  }

  lemma NoChunkAt(buf: Bytes, off: nat, utf8: bool)
    requires At(buf, off, Encoding(0))
    ensures ReadChunks(buf, off, utf8) == Ok((off + |Encoding(0)|, []))
  {
    VarintAt(buf, off, 0);
  }

  lemma {:induction false} ChunksAt(buf: Bytes, off: nat, cs: seq<Bytes>, utf8: bool)
    requires At(buf, off, EncodeChunks(cs)) && GoodChunks(cs, utf8)
    ensures ReadChunks(buf, off, utf8) == Ok((off + |EncodeChunks(cs)|, cs))
    decreases |cs|
  {
    hide ReadChunks, At, EncodeText, Encoding, GoodChunk;
    if cs == [] {
      NoChunkAt(buf, off, utf8);
    } else {
      var t := EncodeText(cs[0]);
      PrependFirst(cs, off + |EncodeChunks(cs)|);
      AtSplit(buf, off, t, EncodeChunks(cs[1..]));
      ChunksAt(buf, off + |t|, cs[1..], utf8);
      ChunkAt(buf, off, cs[0], utf8);
    }
  }

  // Writers: each overwrites the bytes at `off` and returns the offset behind them.

  method PutVarint(buf: array<Byte>, off: nat, v: nat) returns (r: Result<nat>)
    requires off <= buf.Length
    modifies buf
    ensures r.Ok? <==> off + |Encoding(v)| <= buf.Length
    ensures r.Ok? ==> r.value == off + |Encoding(v)| && buf[..] == Over(old(buf[..]), off, Encoding(v))
  {
    EncodingLength(v);
    var n :- Encode(v, buf, off);
    return Ok(off + n);
  }

  /** `copy_from_slice` into `buf[off..off + s.len()]`. */
  method PutBytes(buf: array<Byte>, off: nat, s: Bytes) returns (r: Result<nat>)
    requires off <= buf.Length
    modifies buf
    ensures r.Ok? <==> off + |s| <= buf.Length
    ensures r.Ok? ==> r.value == off + |s| && buf[..] == Over(old(buf[..]), off, s)
  {
    if off + |s| > buf.Length {
      return Err(Panic);
    }
    forall i | 0 <= i < |s| {
      buf[off + i] := s[i];
    }
    return Ok(off + |s|);
  }

  method PutText(buf: array<Byte>, off: nat, t: Bytes) returns (r: Result<nat>)
    requires off <= buf.Length
    modifies buf
    ensures r.Ok? <==> off + |EncodeText(t)| <= buf.Length
    ensures r.Ok? ==> r.value == off + |EncodeText(t)| && buf[..] == Over(old(buf[..]), off, EncodeText(t))
  {
    ghost var was := buf[..];
    var o :- PutVarint(buf, off, |t|);
    r := PutBytes(buf, o, t);
    if r.Ok? {
      OverOver(was, off, Encoding(|t|), t);
    }
  }

  lemma {:induction false} EncodeHashesStep(hs: seq<Hash>, i: nat)
    requires i < |hs|
    ensures EncodeHashes(hs[..i]) + hs[i] == EncodeHashes(hs[..i + 1])
    decreases i
  {
    if i == 0 {
      assert hs[..1] == [hs[0]] && hs[..1][1..] == [];
    } else {
      EncodeHashesStep(hs[1..], i - 1);
      assert hs[..i][1..] == hs[1..][..i - 1];
      assert hs[..i + 1][1..] == hs[1..][..i];
    }
  }

  method PutHashes(buf: array<Byte>, off: nat, hs: seq<Hash>) returns (r: Result<nat>)
    requires off <= buf.Length
    modifies buf
    ensures r.Ok? <==> off + 32 * |hs| <= buf.Length
    ensures r.Ok? ==> r.value == off + 32 * |hs| && buf[..] == Over(old(buf[..]), off, EncodeHashes(hs))
  {
    ghost var was := buf[..];
    var o := off;
    for i := 0 to |hs|
      invariant o == off + 32 * i <= buf.Length
      invariant buf[..] == Over(was, off, EncodeHashes(hs[..i]))
    {
      if o + |hs[i]| > buf.Length {
        return Err(DstTooSmall);
      }
      var q := PutBytes(buf, o, hs[i]);
      OverOver(was, off, EncodeHashes(hs[..i]), hs[i]);
      EncodeHashesStep(hs, i);
      o := o + |hs[i]|;
    }
    assert hs[..|hs|] == hs;
    return Ok(o);
  }

  /** The items of a chunk list, without the closing zero. */
  function Items(cs: seq<Bytes>): Bytes {
    if cs == [] then [] else Items(cs[..|cs| - 1]) + EncodeText(cs[|cs| - 1])
  }

  lemma {:induction false} ItemsThenRest(cs: seq<Bytes>, i: nat)
    requires i <= |cs|
    ensures EncodeChunks(cs) == Items(cs[..i]) + EncodeChunks(cs[i..])
    decreases i
  {
    if i == 0 {
      assert cs[0..] == cs;
    } else {
      ItemsThenRest(cs, i - 1);
      assert cs[..i][..i - 1] == cs[..i - 1];
      assert cs[i - 1..][1..] == cs[i..];
    }
  }

  method PutChunks(buf: array<Byte>, off: nat, cs: seq<Bytes>) returns (r: Result<nat>)
    requires off <= buf.Length
    modifies buf
    ensures r.Ok? <==> off + |EncodeChunks(cs)| <= buf.Length
    ensures r.Ok? ==> r.value == off + |EncodeChunks(cs)| && buf[..] == Over(old(buf[..]), off, EncodeChunks(cs))
  {
    hide EncodeText, Encoding, Over;
    ghost var was := buf[..];
    var o := off;
    assert buf[..] == Over(was, off, Items(cs[..0])) by {
      OverNothing(was, off);
      assert cs[..0] == [];
    }
    for i := 0 to |cs|
      invariant o == off + |Items(cs[..i])| <= buf.Length
      invariant buf[..] == Over(was, off, Items(cs[..i]))
    {
      ItemsThenRest(cs, i);
      ItemsThenRest(cs, i + 1);
      assert cs[..i + 1][..i] == cs[..i];
      TextSizeExact(cs[i]);
      if o + |cs[i]| > buf.Length {
        return Err(DstTooSmall);
      }
      o :- PutText(buf, o, cs[i]);
      OverOver(was, off, Items(cs[..i]), EncodeText(cs[i]));
    }
    ItemsThenRest(cs, |cs|);
    assert cs[..|cs|] == cs && cs[|cs|..] == [];
    r := PutVarint(buf, o, 0);
    if r.Ok? {
      OverOver(was, off, Items(cs), Encoding(0));
    }
  }

  // Reading loops.

  method ReadHashLoop(buf: Bytes, off: nat, n: nat) returns (r: Result<(nat, seq<Hash>)>)
    requires off <= |buf|
    ensures r == ReadHashes(buf, off, n)
  {
    var o, hs: seq<Hash> := off, [];
    PrependNil(ReadHashes(buf, off, n));
    for i := 0 to n
      invariant off <= o <= |buf|
      invariant ReadHashes(buf, off, n) ==
                Prepend(hs, ReadHashes(buf, o, n - i))
    {
      if o + 32 > |buf| {
        return Err(HashListEnd);
      }
      PrependPush(hs, buf[o..o + 32], ReadHashes(buf, o + 32, n - i - 1));
      hs := hs + [buf[o..o + 32]];
      o := o + 32;
    }
    PrependEnd(hs, o);
    return Ok((o, hs));
  }

  method ReadChunkLoop(buf: Bytes, off: nat, utf8: bool) returns (r: Result<(nat, seq<Bytes>)>)
    requires off <= |buf|
    ensures r == ReadChunks(buf, off, utf8)
  {
    var o, cs: seq<Bytes> := off, [];
    PrependNil(ReadChunks(buf, off, utf8));
    while true
      invariant off <= o <= |buf|
      invariant ReadChunks(buf, off, utf8) ==
                Prepend(cs, ReadChunks(buf, o, utf8))
      decreases |buf| - o
    {
      var q :- ReadVarint(buf, o);
      if q.1 == 0 {
        PrependEnd(cs, q.0);
        return Ok((q.0, cs));
      }
      var c :- ReadExact(buf, q.0, q.1);
      if utf8 && !Utf8.Valid(c.1) {
        return Err(InvalidUtf8);
      }
      PrependPush(cs, c.1, ReadChunks(buf, c.0, utf8));
      cs := cs + [c.1];
      o := c.0;
    }
  }
}
