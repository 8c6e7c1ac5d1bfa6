/**
 * Varint-prefixed framing of a byte stream that arrives in arbitrary reads
 * (length_prefixed_stream/src/lib.rs).
 */
module Framing {
  import opened Wire
  import opened Varint

  // The reference: what a stream means, read all at once.

  /** A length prefix and exactly as many bytes as it announces. */
  predicate IsRecord(f: Bytes) {
    var d := Decode(f);
    d.Ok? && |f| == d.value.0 + d.value.1
  }

  predicate IsFrame(f: Bytes) {
    IsRecord(f) && Decode(f).value.1 > 0
  }

  /** A non-empty record stands complete at the front of `b`. */
  predicate FrontComplete(b: Bytes) {
    var d := Decode(b);
    d.Ok? && d.value.1 > 0 && d.value.0 + d.value.1 <= |b|
  }

  /** The complete non-empty records at the front of `b`, and what is left. */
  function Deframe(b: Bytes): (r: (seq<Bytes>, Bytes))
    decreases |b|
  {
    if FrontComplete(b) then
      var n := Decode(b).value.0 + Decode(b).value.1;
      var (fs, rest) := Deframe(b[n..]);
      ([b[..n]] + fs, rest)
    else ([], b)
  }

  ghost predicate AllFrames(fs: seq<Bytes>) {
    forall i | 0 <= i < |fs| :: IsFrame(fs[i])
  }

  lemma FrontIsFrame(b: Bytes)
    requires FrontComplete(b)
    ensures IsFrame(b[..Decode(b).value.0 + Decode(b).value.1])
  {
    hide Decode;
    var s := Decode(b).value.0;
    var f := b[..s + Decode(b).value.1];
    assert f[..s] == b[..s];
    DecodeStable(b, f);
  }

  lemma {:induction false} DeframeSound(b: Bytes)
    ensures Concat(Deframe(b).0) + Deframe(b).1 == b
    ensures AllFrames(Deframe(b).0)
    ensures !FrontComplete(Deframe(b).1)
    decreases |b|
  {
    hide Decode, IsFrame;
    if FrontComplete(b) {
      var n := Decode(b).value.0 + Decode(b).value.1;
      FrontIsFrame(b);
      DeframeSound(b[n..]);
      assert b[..n] + b[n..] == b;
      assert Deframe(b).0[1..] == Deframe(b[n..]).0;
    }
  }

  lemma DeframeFront(f: Bytes, rest: Bytes)
    requires IsFrame(f)
    ensures Deframe(f + rest) == ([f] + Deframe(rest).0, Deframe(rest).1)
  {
    hide Decode;
    DecodeExtend(f, rest);
    assert (f + rest)[..|f|] == f && (f + rest)[|f|..] == rest;
  }

  /** Deframing the records of a list gives back the list: framing loses nothing. */
  lemma {:induction false} DeframeConcat(fs: seq<Bytes>, tail: Bytes)
    requires AllFrames(fs)
    ensures Deframe(Concat(fs) + tail) == (fs + Deframe(tail).0, Deframe(tail).1)
  {
    hide Deframe, IsFrame;
    if fs == [] {
      assert Concat(fs) + tail == tail;
      assert fs + Deframe(tail).0 == Deframe(tail).0;
    } else {
      var rest := Concat(fs[1..]) + tail;
      assert Concat(fs) + tail == fs[0] + rest;
      DeframeConcat(fs[1..], tail);
      DeframeFront(fs[0], rest);
      assert [fs[0]] + (fs[1..] + Deframe(tail).0) == fs + Deframe(tail).0;
    }
  }

  lemma DeframeAppend(a: Bytes, b: Bytes)
    ensures Deframe(a + b) ==
            (Deframe(a).0 + Deframe(Deframe(a).1 + b).0, Deframe(Deframe(a).1 + b).1)
  {
    hide Deframe;
    DeframeSound(a);
    var (fs, rest) := Deframe(a);
    assert a + b == Concat(fs) + (rest + b);
    DeframeConcat(fs, rest + b);
  }

  lemma TakeFront(b: Bytes, before: seq<Bytes>)
    requires FrontComplete(b)
    ensures var n := Decode(b).value.0 + Decode(b).value.1;
            && IsFrame(b[..n]) && Decode(b[..n]) == Decode(b)
            && before + Deframe(b).0 == (before + [b[..n]]) + Deframe(b[n..]).0
            && Deframe(b).1 == Deframe(b[n..]).1
  {
    hide Decode, Deframe;
    var n := Decode(b).value.0 + Decode(b).value.1;
    var f, rest := b[..n], b[n..];
    FrontIsFrame(b);
    assert f[..Decode(b).value.0] == b[..Decode(b).value.0];
    DecodeStable(b, f);
    assert b == f + rest;
    DeframeFront(f, rest);
    assert before + ([f] + Deframe(rest).0) == (before + [f]) + Deframe(rest).0;
  }

  lemma DeframeStops(b: Bytes)
    requires !FrontComplete(b)
    ensures Deframe(b) == ([], b)
  {
  }

  /**
   * The bytes of the buffer past the received ones decide nothing: a record that ends within the
   * received bytes is found whether or not the stale ones are looked at, and no other is.
   */
  lemma StaleBytesIgnored(b: Bytes, stale: Bytes)
    ensures FrontComplete(b) <==>
            var d := Decode(b + stale);
            d.Ok? && d.value.1 > 0 && d.value.0 + d.value.1 <= |b|
    ensures FrontComplete(b) ==> Decode(b) == Decode(b + stale)
  {
    hide Decode;
    var d := Decode(b + stale);
    if Decode(b).Ok? {
      DecodeExtend(b, stale);
    } else if d.Ok? && d.value.0 <= |b| {
      assert (b + stale)[..d.value.0] == b[..d.value.0];
      DecodeStable(b + stale, b);
    }
  }

  // The input: a stream, and how much of it each read is willing to return.

  function Offer(rest: Bytes, sizes: seq<nat>, cap: nat): (n: nat)
    ensures n <= cap && n <= |rest|
    ensures n == 0 <==> cap == 0 || rest == []
  {
    Min(if sizes == [] then |rest| else Max(1, sizes[0]), Min(cap, |rest|))
  }

  function Later(sizes: seq<nat>): seq<nat> {
    if sizes == [] then [] else sizes[1..]
  }

  class Reader {
    var rest: Bytes
    var sizes: seq<nat>

    constructor (stream: Bytes, sizes: seq<nat>)
      ensures rest == stream && this.sizes == sizes
    {
      rest, this.sizes := stream, sizes;
    }

    /** `read` into `buf[lo..]`: some bytes, and none only at the end or without room. */
    method Read(buf: array<Byte>, lo: nat) returns (n: nat)
      requires lo <= buf.Length
      modifies this, buf
      ensures n == Offer(old(rest), old(sizes), buf.Length - lo)
      ensures rest == old(rest)[n..] && sizes == Later(old(sizes))
      ensures buf[..lo + n] == old(buf[..lo]) + old(rest)[..n]
      ensures buf[lo + n..] == old(buf[lo + n..])
    {
      n := Offer(rest, sizes, buf.Length - lo);
      ghost var was := buf[..];
      forall i | 0 <= i < n {
        buf[lo + i] := rest[i];
      }
      assert buf[..lo + n] == was[..lo] + rest[..n];
      rest, sizes := rest[n..], Later(sizes);
    }
  }

  /**
   * Every read leaves the length prefix at the front complete. `pending` is what an earlier read
   * left over; the condition is about the input alone and can be checked before decoding.
   */
  ghost predicate CutsOk(pending: Bytes, rest: Bytes, sizes: seq<nat>, max: nat)
    requires |pending| <= max
    decreases |rest|
  {
    var n := Offer(rest, sizes, max - |pending|);
    n > 0 ==>
      var got := pending + rest[..n];
      Decode(got).Ok? && |Deframe(got).1| <= max && CutsOk(Deframe(got).1, rest[n..], Later(sizes), max)
  }

  lemma CutsStep(p: Bytes, rest: Bytes, sizes: seq<nat>, max: nat)
    requires |p| <= max && CutsOk(p, rest, sizes, max)
    ensures var n := Offer(rest, sizes, max - |p|);
            n > 0 ==>
              var got := p + rest[..n];
              Decode(got).Ok? && |Deframe(got).1| <= max && CutsOk(Deframe(got).1, rest[n..], Later(sizes), max)
  {
  }

  lemma MoveBytes(p: Bytes, rest: Bytes, n: nat)
    requires n <= |rest|
    ensures (p + rest[..n]) + rest[n..] == p + rest
  {
  }

  lemma SliceOfPrefix(b: Bytes, wo: nat, from: nat, to: nat)
    requires from <= to <= wo <= |b|
    ensures b[..wo][from..to] == b[from..to] && b[..wo][..to] == b[..to]
  {
  }

  lemma PartOfFront(p: Bytes, rest: Bytes, from: nat, to: nat)
    requires from <= to <= |p|
    ensures (p + rest)[from..to] == p[from..to]
  {
  }

  lemma NotYet(p: Bytes, s: nat, n: nat)
    requires Decode(p) == Ok((s, n)) && s + n > |p|
    ensures !FrontComplete(p) && Deframe(p) == ([], p)
  {
  }

  /** A record is queued from `b[..wo]` exactly if it is complete there, whatever lies behind. */
  predicate Queueable(b: Bytes, o: nat, wo: nat)
    requires o <= |b|
  {
    var d := Decode(b[o..]);
    d.Ok? && d.value.1 > 0 && o + d.value.0 + d.value.1 <= wo
  }

  lemma QueueOne(b: Bytes, o: nat, wo: nat, frames: seq<Bytes>, includeLen: bool)
    requires o <= wo <= |b| && Queueable(b, o, wo)
    ensures var d := Decode(b[o..]).value;
            var (vlen, end) := (d.0, o + d.0 + d.1);
            && IsFrame(b[o..end])
            && Record(b[o..end], includeLen) == (if includeLen then b[o..end] else b[o + vlen..end])
            && frames + Deframe(b[o..wo]).0 == frames + [b[o..end]] + Deframe(b[end..wo]).0
            && Deframe(b[o..wo]).1 == Deframe(b[end..wo]).1
  {
    hide Decode, Deframe, IsFrame, FrontComplete;
    var d := Decode(b[o..]).value;
    var (here, vlen, end) := (b[o..wo], d.0, o + d.0 + d.1);
    assert b[o..] == here + b[wo..];
    StaleBytesIgnored(here, b[wo..]);
    assert here[..end - o] == b[o..end] && here[end - o..] == b[end..wo];
    TakeFront(here, frames);
    assert b[o + vlen..end] == b[o..end][vlen..];
  }

  lemma QueueStops(b: Bytes, o: nat, wo: nat)
    requires o <= wo <= |b| && !Queueable(b, o, wo)
    ensures Deframe(b[o..wo]) == ([], b[o..wo])
  {
    hide Decode, Deframe, FrontComplete;
    assert b[o..] == b[o..wo] + b[wo..];
    StaleBytesIgnored(b[o..wo], b[wo..]);
    DeframeStops(b[o..wo]);
  }

  /** The queueing loop: the complete records of `b[start..writeOffset]` and where they end. */
  method CompleteRecords(b: Bytes, start: nat, writeOffset: nat, includeLen: bool)
    returns (offset: nat, records: seq<Bytes>, ghost frames: seq<Bytes>)
    requires start <= |b| && writeOffset <= |b|
    ensures start <= offset <= |b|
    ensures AllFrames(frames) && |records| == |frames|
    ensures forall i | 0 <= i < |records| :: records[i] == Record(frames[i], includeLen)
    ensures start > writeOffset ==> offset == start && frames == []
    ensures start <= writeOffset ==>
              offset <= writeOffset && Deframe(b[start..writeOffset]) == (frames, b[offset..writeOffset])
  {
    hide Decode, Deframe, IsFrame, FrontComplete, Record;
    offset, records, frames := start, [], [];
    ghost var part := if start <= writeOffset then b[start..writeOffset] else [];
    assert [] + Deframe(part).0 == Deframe(part).0;
    while true
      invariant start <= offset <= |b|
      invariant AllFrames(frames) && |records| == |frames|
      invariant forall i | 0 <= i < |records| :: records[i] == Record(frames[i], includeLen)
      invariant start > writeOffset ==> offset == start && frames == []
      invariant start <= writeOffset ==>
                  && offset <= writeOffset
                  && Deframe(part).0 == frames + Deframe(b[offset..writeOffset]).0
                  && Deframe(part).1 == Deframe(b[offset..writeOffset]).1
      decreases |b| - offset
    {
      var d := Decode(b[offset..]);
      if d.Err? || d.value.1 == 0 || offset + d.value.0 + d.value.1 > writeOffset {
        if offset <= writeOffset {
          QueueStops(b, offset, writeOffset);
          assert frames + [] == frames;
        }
        break;
      }
      QueueOne(b, offset, writeOffset, frames, includeLen);
      var vlen, end := d.value.0, offset + d.value.0 + d.value.1;
      records := records + [if includeLen then b[offset..end] else b[offset + vlen..end]];
      frames := frames + [b[offset..end]];
      offset := end;
    }
  }

  class Decoder {
    const input: Reader
    const buffer: array<Byte>
    const includeLen: bool
    var writeOffset: nat
    var queue: seq<Bytes>
    /** The queued records with their prefixes. */
    ghost var frames: seq<Bytes>

    ghost predicate Valid()
      reads this, buffer
    {
      && writeOffset <= buffer.Length
      && AllFrames(frames)
      && |queue| == |frames|
      && forall i | 0 <= i < |queue| :: queue[i] == Record(frames[i], includeLen)
    }

    /** The bytes received and not yet part of a record. */
    ghost function Pending(): Bytes
      reads this, buffer
      requires Valid()
    {
      buffer[..writeOffset]
    }

    /** Everything not yet delivered: the queue, the bytes received, the bytes still to come. */
    ghost function Stream(): Bytes
      reads this, buffer, input
      requires Valid()
    {
      Concat(frames) + (Pending() + input.rest)
    }

    ghost predicate Drained()
      reads this, buffer
      requires Valid()
    {
      !FrontComplete(Pending())
    }

    ghost predicate GoodCuts()
      reads this, buffer, input
      requires Valid()
    {
      CutsOk(Pending(), input.rest, input.sizes, buffer.Length)
    }

    /** The bytes in front once the next read has returned. */
    ghost function AfterRead(): Bytes
      reads this, buffer, input
      requires Valid()
    {
      Pending() + input.rest[..Offer(input.rest, input.sizes, buffer.Length - writeOffset)]
    }

    /** The whole buffer once the next read has returned, stale bytes included. */
    ghost function Seen(): Bytes
      reads this, buffer, input
      requires Valid()
    {
      AfterRead() + buffer[|AfterRead()|..]
    }

    constructor (input: Reader, maxSize: nat, includeLen: bool)
      ensures Valid() && Drained() && frames == [] && Pending() == []
      ensures this.input == input && buffer.Length == maxSize && this.includeLen == includeLen
      ensures fresh(buffer) && forall i | 0 <= i < maxSize :: buffer[i] == 0
    {
      this.input, this.includeLen := input, includeLen;
      buffer := new Byte[maxSize](_ => 0);
      writeOffset, queue, frames := 0, [], [];
    }

    /** Queue the complete records of the buffer from `start` on; return where they end. */
    method Drain(start: nat) returns (offset: nat)
      requires Valid() && frames == [] && start <= buffer.Length
      modifies this`queue, this`frames
      ensures Valid() && start <= offset <= buffer.Length
      ensures start > writeOffset ==> offset == start && frames == []
      ensures start <= writeOffset ==>
                && offset <= writeOffset
                && Deframe(buffer[start..writeOffset]) == (frames, buffer[offset..writeOffset])
    {
      hide Decode, Deframe, IsFrame;
      var records;
      offset, records, frames := CompleteRecords(buffer[..], start, writeOffset, includeLen);
      queue := queue + records;
      if start <= writeOffset {
        assert buffer[..][start..writeOffset] == buffer[start..writeOffset];
        assert buffer[..][offset..writeOffset] == buffer[offset..writeOffset];
      }
    }

    /** Read until the record that `readOffset` and `msgLen` announce has arrived. */
    method Await(readOffset: nat, msgLen: nat) returns (ok: bool)
      requires Valid() && frames == [] && readOffset <= buffer.Length
      requires input.rest != [] || writeOffset > 0
      modifies this`writeOffset, buffer, input
      ensures Valid() && old(writeOffset) <= writeOffset
      ensures Pending() + input.rest == old(Pending() + input.rest)
      ensures msgLen > 0 ==>
                (ok <==> readOffset + msgLen <= Min(|Pending() + input.rest|, buffer.Length))
      ensures ok ==> msgLen == 0 || readOffset + msgLen <= writeOffset
      ensures msgLen == 0 ==> ok && Pending() == old(Pending())
      ensures ok && old(Decode(Pending()) == Ok((readOffset, msgLen)) && LaterCuts()) ==> LaterCuts()
    {
      hide Decode, Deframe, CutsOk, FrontComplete;
      ghost var all := Pending() + input.rest;
      ghost var w := Pending();
      ghost var cuts := Decode(w) == Ok((readOffset, msgLen)) && LaterCuts();
      ok := true;
      while msgLen > 0 && msgLen + readOffset > writeOffset
        invariant Valid() && |w| <= writeOffset
        invariant Pending() + input.rest == all
        invariant msgLen == 0 ==> Pending() == w
        invariant cuts ==> Decode(Pending()) == Ok((readOffset, msgLen)) && LaterCuts()
        decreases |input.rest|
      {
        ghost var p, rest, sizes := Pending(), input.rest, input.sizes;
        var n := Pull();
        if n == 0 {
          return false;
        }
        if cuts {
          DecodeExtend(p, rest[..n]);
          NotYet(p, readOffset, msgLen);
          CutsStep(p, rest, sizes, buffer.Length);
        }
      }
    }

    /** The cuts still to come are good for what will be left once the complete records are taken. */
    ghost predicate LaterCuts()
      reads this, buffer, input
      requires Valid()
    {
      && |Deframe(Pending()).1| <= buffer.Length
      && CutsOk(Deframe(Pending()).1, input.rest, input.sizes, buffer.Length)
    }

    /** The prefix of the front record will be complete after the read that looks for it. */
    ghost predicate FrontReady()
      reads this, buffer, input
      requires Valid()
    {
      frames != [] || AfterRead() == Pending() || Decode(AfterRead()).Ok?
    }

    /** One read behind what has been received; the rest of the buffer keeps its stale bytes. */
    method Pull() returns (n: nat)
      requires Valid()
      modifies this`writeOffset, buffer, input
      ensures Valid() && writeOffset == old(writeOffset) + n
      ensures n == Offer(old(input.rest), old(input.sizes), buffer.Length - old(writeOffset))
      ensures n == 0 <==> buffer.Length == old(writeOffset) || old(input.rest) == []
      ensures input.rest == old(input.rest)[n..] && input.sizes == Later(old(input.sizes))
      ensures Pending() == old(AfterRead()) == old(Pending()) + old(input.rest)[..n] && buffer[..] == old(Seen())
      ensures Pending() + input.rest == old(Pending() + input.rest)
      ensures n == 0 ==> Pending() == old(Pending())
    {
      hide Decode, Deframe, CutsOk, Concat;
      ghost var p, rest := Pending(), input.rest;
      n := input.Read(buffer, writeOffset);
      writeOffset := writeOffset + n;
      MoveBytes(p, rest, n);
      assert buffer[..] == Pending() + buffer[writeOffset..];
      assert p + rest[..0] == p;
    }

    /** The first loop: read until a prefix decodes from the buffer, stale bytes included. */
    method ReadPrefix() returns (r: Result<Option<(nat, nat)>>)
      requires Valid() && frames == []
      modifies this`writeOffset, buffer, input
      ensures Valid()
      ensures Pending() + input.rest == old(Pending() + input.rest)
      ensures r.Ok? && r.value.Some? ==>
                r.value.value.0 <= buffer.Length && (input.rest != [] || writeOffset > 0)
      ensures r == Ok(None) ==> Pending() == [] && (input.rest == [] || buffer.Length == 0)
      ensures old(AfterRead() == Pending()) ==>
                && Pending() == old(Pending())
                && r == if Pending() == [] then Ok(None) else Err(UnexpectedEndVarint)
      ensures old(AfterRead() != Pending() && Decode(AfterRead()).Ok?) ==>
                && Pending() == old(AfterRead()) && r == Ok(Some(Decode(Pending()).value))
      ensures old(AfterRead() != Pending() && Decode(Seen()).Ok?) ==>
                && Pending() == old(AfterRead()) && r == Ok(Some(old(Decode(Seen()).value)))
      ensures old(AfterRead() != Pending() && GoodCuts()) ==> LaterCuts()
    {
      hide Decode, Deframe, CutsOk, Concat, Offer;
      ghost var all, got, w := Pending() + input.rest, AfterRead(), Pending();
      ghost var complete, cuts, seen := Decode(got).Ok?, GoodCuts(), Seen();
      ghost var first := true;
      while true
        invariant Valid() && Pending() + input.rest == all
        invariant first ==> Pending() == w && AfterRead() == got && Seen() == seen && GoodCuts() == cuts
        invariant !first ==> got != w && !complete && !cuts && Decode(seen).Err?
        decreases |input.rest|
      {
        ghost var p, rest, sizes := Pending(), input.rest, input.sizes;
        var n := Pull();
        if n == 0 {
          return if writeOffset == 0 then Ok(None) else Err(UnexpectedEndVarint);
        }
        if cuts {
          CutsStep(p, rest, sizes, buffer.Length);
        }
        assert buffer[..] == Pending() + buffer[writeOffset..];
        var d := Decode(buffer[..]);
        if Decode(Pending()).Ok? {
          DecodeExtend(Pending(), buffer[writeOffset..]);
        }
        if d.Ok? {
          return Ok(Some(d.value));
        } else if writeOffset >= 10 {
          return Err(d.error);
        }
        first := false;
      }
    }

    /** `copy_within` and the new write offset. */
    method Discard(offset: nat)
      requires Valid() && offset <= writeOffset
      modifies this`writeOffset, buffer
      ensures Valid() && Pending() == old(buffer[offset..writeOffset])
    {
      forall i | 0 <= i < buffer.Length - offset {
        buffer[i] := buffer[offset + i];
      }
      writeOffset := writeOffset - offset;
    }

    /** Hand out the front record, queue the complete ones behind it and keep the rest. */
    method TakeRecord(readOffset: nat, msgLen: nat) returns (r: Result<Option<Bytes>>, ghost f: Bytes)
      requires Valid() && frames == [] && readOffset <= buffer.Length
      requires msgLen == 0 || readOffset + msgLen <= writeOffset
      modifies this`writeOffset, this`queue, this`frames, buffer
      ensures Valid()
      ensures old(Decode(Pending())) == Ok((readOffset, msgLen)) ==>
                && r == Ok(Some(Record(f, includeLen))) && IsRecord(f)
                && old(Pending()) == f + (Concat(frames) + Pending())
                && !FrontComplete(Pending())
                && (IsFrame(f) ==> Pending() == Deframe(old(Pending())).1)
      ensures r.Ok? <==> readOffset + msgLen <= old(writeOffset)
      ensures r.Ok? ==>
                r.value == Some(old(Pending())[if includeLen then 0 else readOffset..readOffset + msgLen])
    {
      hide Decode, Deframe, IsFrame, IsRecord, FrontComplete, Record;
      ghost var p, start := Pending(), readOffset + msgLen;
      f := [];
      var buf := if includeLen then buffer[..readOffset + msgLen]
                 else buffer[readOffset..readOffset + msgLen];
      var offset := Drain(readOffset + msgLen);
      if offset > writeOffset {
        return Err(Panic), f;
      }
      ghost var x := buffer[start..writeOffset];
      SliceOfPrefix(buffer[..], writeOffset, if includeLen then 0 else readOffset, start);
      f := p[..start];
      assert p == f + x;
      DeframeSound(x);
      if Decode(p) == Ok((readOffset, msgLen)) {
        RecordMeaning(p, includeLen);
        SliceOfPrefix(buffer[..], writeOffset, readOffset, start);
      }
      if IsFrame(f) {
        DeframeFront(f, x);
      }
      Discard(offset);
      return Ok(Some(buf)), f;
    }

    lemma CutsReady()
      requires Valid() && GoodCuts()
      ensures FrontReady()
    {
      hide Deframe, Decode;
      CutsStep(Pending(), input.rest, input.sizes, buffer.Length);
    }

    /** What `next` hands out after a read that makes the buffer show the prefix `d`, right or not. */
    ghost function Announced(d: (nat, nat)): Option<Bytes>
      reads this, buffer, input
      requires Valid()
    {
      var all := Pending() + input.rest;
      var end := d.0 + d.1;
      if end <= (if d.1 == 0 then |AfterRead()| else Min(|all|, buffer.Length))
      then Some(all[if includeLen then 0 else d.0..end])
      else None
    }

    /** `next` with an empty queue. */
    method Fetch() returns (r: Result<Option<Bytes>>, ghost f: Bytes)
      requires Valid() && frames == []
      modifies this`writeOffset, this`queue, this`frames, buffer, input
      ensures Valid()
      ensures var all := old(Pending() + input.rest);
              old(FrontReady()) ==>
                match r
                case Ok(Some(record)) =>
                  && all == f + Stream() && IsRecord(f) && record == Record(f, includeLen)
                  && Drained()
                  && (old(GoodCuts()) && IsFrame(f) ==> GoodCuts())
                case Ok(None) => all == Stream() && Pending() == [] && (all == [] || buffer.Length == 0)
                case Err(_) =>
                  && all == Stream()
                  && (old(AfterRead() == Pending() && Pending() != [])
                      || RecordSize(all) > Min(|all|, buffer.Length))
      ensures old(AfterRead() != Pending() && Decode(Seen()).Ok?) ==>
                var record := old(Announced(Decode(Seen()).value));
                if record.Some? then r == Ok(record) else r.Err?
    {
      hide Decode, Deframe, CutsOk, IsFrame, IsRecord, FrontComplete, RecordSize, Record, Concat, Offer;
      f := [];
      ghost var all, ready := Pending() + input.rest, FrontReady();
      ghost var bound := AfterRead() != Pending() && Decode(Seen()).Ok?;
      var q := ReadPrefix();
      StreamAlone();
      if q.Err? {
        return Err(q.error), f;
      }
      if q.value.None? {
        return Ok(None), f;
      }
      var readOffset, msgLen := q.value.value.0, q.value.value.1;
      ghost var p1 := Pending();
      if ready {
        DecodeExtend(p1, input.rest);
        RecordMeaning(all, includeLen);
      }
      var ok := Await(readOffset, msgLen);
      StreamAlone();
      if !ok {
        return Err(UnexpectedEndMessage), f;
      }
      ghost var p, rest := Pending(), input.rest;
      if ready {
        PrefixSame(all, p, rest, p1);
      }
      r, f := TakeRecord(readOffset, msgLen);
      Rejoin(f, frames, Pending(), rest);
      if bound && r.Ok? {
        PartOfFront(p, rest, if includeLen then 0 else readOffset, readOffset + msgLen);
      }
    }

    lemma StreamAlone()
      requires Valid()
      ensures frames == [] ==> Stream() == Pending() + input.rest
    {
    }

    /**
     * `next`. What is delivered, queued, received and still to come is always the same stream, and a
     * record is withheld only when the stream or the buffer ends before it does.
     */
    method Next() returns (r: Result<Option<Bytes>>, ghost f: Bytes)
      requires Valid()
      modifies this`writeOffset, this`queue, this`frames, buffer, input
      ensures Valid()
      ensures old(FrontReady()) ==>
                match r
                case Ok(Some(record)) =>
                  old(Stream()) == f + Stream() && IsRecord(f) && record == Record(f, includeLen)
                case Ok(None) => old(Stream()) == Stream() && (Stream() == [] || buffer.Length == 0)
                case Err(_) =>
                  && old(Stream()) == Stream() && old(frames) == []
                  && (old(AfterRead() == Pending() && Pending() != [])
                      || RecordSize(old(Stream())) > Min(|old(Stream())|, buffer.Length))
      ensures old(FrontReady() && Drained()) && r.Ok? && r.value.Some? ==> Drained()
      ensures old(GoodCuts() && Drained()) && r.Ok? && r.value.Some? && IsFrame(f) ==> GoodCuts()
      ensures old(frames == [] && AfterRead() != Pending() && Decode(Seen()).Ok?) ==>
                var record := old(Announced(Decode(Seen()).value));
                if record.Some? then r == Ok(record) else r.Err?
    {
      hide Decode, Deframe, CutsOk, IsFrame, IsRecord, FrontComplete, RecordSize, Record;
      if |queue| > 0 {
        PopFrame(frames, Pending() + input.rest);
        r, f := Ok(Some(queue[0])), frames[0];
        queue, frames := queue[1..], frames[1..];
        return;
      }
      if GoodCuts() {
        CutsReady();
      }
      assert Concat(frames) + (Pending() + input.rest) == Pending() + input.rest;
      r, f := Fetch();
    }
  }

  /** What the prefix at the front of `b` announces, with the prefix itself. */
  function RecordSize(b: Bytes): nat {
    var d := Decode(b);
    if d.Ok? then d.value.0 + d.value.1 else 0
  }

  lemma PopFrame(fs: seq<Bytes>, rest: Bytes)
    requires AllFrames(fs) && fs != []
    ensures Concat(fs) + rest == fs[0] + (Concat(fs[1..]) + rest) && IsRecord(fs[0])
    ensures AllFrames(fs[1..])
  {
    hide Decode;
  }

  lemma RecordMeaning(b: Bytes, includeLen: bool)
    requires Decode(b).Ok?
    ensures var s := Decode(b).value.0;
            var n := Decode(b).value.1;
            && RecordSize(b) == s + n
            && (s + n <= |b| ==>
                  && IsRecord(b[..s + n])
                  && Record(b[..s + n], includeLen) == if includeLen then b[..s + n] else b[s..s + n])
  {
    hide Decode;
    var s := Decode(b).value.0;
    if RecordSize(b) <= |b| {
      var f := b[..RecordSize(b)];
      assert f[..s] == b[..s] && f[s..] == b[s..RecordSize(b)];
      DecodeStable(b, f);
    }
  }

  /** A prefix that decodes decodes the same from every longer part of the stream. */
  lemma PrefixSame(all: Bytes, p: Bytes, rest: Bytes, p1: Bytes)
    requires p + rest == all && p1 <= all && |p1| <= |p| && Decode(p1).Ok?
    ensures Decode(p) == Decode(p1)
  {
    hide Decode;
    assert p[..|p1|] == all[..|p1|] == p1;
    assert p == p1 + p[|p1|..];
    DecodeExtend(p1, p[|p1|..]);
  }

  lemma Rejoin(f: Bytes, frames: seq<Bytes>, y: Bytes, rest: Bytes)
    ensures (f + (Concat(frames) + y)) + rest == f + (Concat(frames) + (y + rest))
  {
  }

  /** What the caller gets of a frame. */
  function Record(f: Bytes, includeLen: bool): Bytes {
    if includeLen then f else if Decode(f).Ok? then f[Decode(f).value.0..] else []
  }

  function Records(fs: seq<Bytes>, includeLen: bool): seq<Bytes> {
    seq(|fs|, i requires 0 <= i < |fs| => Record(fs[i], includeLen))
  }

  /**
   * Every record fits the buffer, and what follows the last one is nothing or a record cut short, in its
   * prefix or in its body.
   */
  ghost predicate Readable(stream: Bytes, max: nat) {
    var (fs, tail) := Deframe(stream);
    && max > 0
    && (forall i | 0 <= i < |fs| :: |fs[i]| <= max)
    && (tail == [] || Decode(tail).Err? || Decode(tail).value.1 > 0)
  }

  lemma ReadableFront(stream: Bytes, max: nat)
    requires Readable(stream, max) && stream != []
    ensures Decode(stream).Ok? ==> Decode(stream).value.1 > 0
    ensures Decode(stream).Ok? && RecordSize(stream) <= |stream| ==>
              RecordSize(stream) <= max && Deframe(stream).0 != []
    ensures Deframe(stream).0 == [] ==> Deframe(stream).1 == stream
  {
    hide Decode;
    if FrontComplete(stream) {
      assert |Deframe(stream).0[0]| <= max;
    }
  }

  lemma ReadableMax(stream: Bytes, max: nat)
    requires Readable(stream, max)
    ensures max > 0
  {
  }

  lemma RecordNonEmpty(f: Bytes)
    requires IsRecord(f)
    ensures f != []
  {
  }

  lemma ReadableRest(f: Bytes, rest: Bytes, max: nat)
    requires IsFrame(f) && Readable(f + rest, max)
    ensures Readable(rest, max)
  {
    hide Decode, IsFrame, Deframe;
    DeframeFront(f, rest);
    var fs := Deframe(f + rest).0;
    forall i | 0 <= i < |Deframe(rest).0| ensures |Deframe(rest).0[i]| <= max {
      assert fs[i + 1] == Deframe(rest).0[i];
    }
  }

  lemma FrontOfStream(f: Bytes, rest: Bytes)
    requires IsRecord(f) && Decode(f + rest).Ok? && Decode(f + rest).value.1 > 0
    ensures IsFrame(f)
  {
    hide Decode;
    DecodeExtend(f, rest);
  }

  lemma RecordDecodes(f: Bytes, rest: Bytes)
    requires IsRecord(f)
    ensures Decode(f + rest).Ok?
  {
    hide Decode;
    DecodeExtend(f, rest);
  }

  /** Nothing more to read, or no room for it: an incomplete record is all that is left. */
  lemma StuckMeansTail(p: Bytes, rest: Bytes, max: nat)
    requires |p| <= max && !FrontComplete(p) && Readable(p + rest, max)
    requires rest == [] || |p| == max
    ensures Deframe(p + rest).0 == []
  {
    hide Decode, Deframe;
    StaleBytesIgnored(p, rest);
    if rest == [] {
      assert p + rest == p;
    } else if FrontComplete(p + rest) {
      ReadableFront(p + rest, max);
    }
    DeframeStops(p + rest);
  }

  lemma TooLongMeansTail(stream: Bytes, max: nat)
    requires Readable(stream, max) && RecordSize(stream) > Min(|stream|, max)
    ensures Deframe(stream).0 == [] && stream != []
  {
    hide Decode, Deframe;
    EmptyUndecodable();
    if stream != [] {
      ReadableFront(stream, max);
      DeframeStops(stream);
    }
  }

  lemma EmptyUndecodable()
    ensures Decode([]).Err? && Deframe([]) == ([], [])
  {
  }

  /** A decoder on a stream that it can read to the end, under good cuts. */
  ghost predicate Decodable(d: Decoder)
    reads d, d.buffer, d.input
  {
    d.Valid() && d.Drained() && d.GoodCuts() && Readable(d.Stream(), d.buffer.Length)
  }

  /** On such a stream `next` yields exactly the next record of the stream. */
  method NextRecord(d: Decoder) returns (r: Result<Option<Bytes>>)
    requires Decodable(d)
    modifies d, d.buffer, d.input
    ensures var (fs, tail) := old(Deframe(d.Stream()));
            if fs != [] then
              && r == Ok(Some(Record(fs[0], d.includeLen)))
              && Decodable(d)
              && Deframe(d.Stream()) == (fs[1..], tail)
              && |d.Stream()| < old(|d.Stream()|)
            else if tail == [] then r == Ok(None)
            else r.Err?
  {
    hide Decode, Deframe, CutsOk, FrontComplete, IsFrame, IsRecord, Readable, Record, RecordSize;
    ghost var stream, p, rest, max := d.Stream(), d.Pending(), d.input.rest, d.buffer.Length;
    ghost var n := Offer(rest, d.input.sizes, max - |p|);
    d.CutsReady();
    ReadableMax(stream, max);
    EmptyUndecodable();
    DeframeSound(stream);
    ghost var f;
    r, f := d.Next();
    if r.Err? {
      if RecordSize(stream) > Min(|stream|, max) {
        TooLongMeansTail(stream, max);
      } else {
        assert |p + rest[..n]| == |p| + n;
        assert stream == p + rest;
        StuckMeansTail(p, rest, max);
      }
    } else if r.value.Some? {
      RecordNonEmpty(f);
      assert |stream| == |f| + |d.Stream()|;
      RecordDecodes(f, d.Stream());
      ReadableFront(stream, max);
      FrontOfStream(f, d.Stream());
      DeframeFront(f, d.Stream());
      ReadableRest(f, d.Stream(), max);
    }
  }

  /**
   * Decoding a whole stream: whatever the reads, as long as each leaves the front prefix complete, the
   * records are those of the stream, followed by a clean end or, if the stream is cut, by an error.
   */
  method DecodeAll(d: Decoder) returns (out: seq<Bytes>, failed: bool)
    requires Decodable(d)
    modifies d, d.buffer, d.input
    ensures out == Records(old(Deframe(d.Stream()).0), d.includeLen)
    ensures failed <==> old(Deframe(d.Stream()).1) != []
  {
    hide Decode, Deframe, CutsOk, FrontComplete, Readable, Record;
    out := [];
    ghost var all := Deframe(StreamOf(d));
    while true
      invariant Decodable(d)
      invariant |out| <= |all.0| && Deframe(StreamOf(d)) == (all.0[|out|..], all.1)
      invariant out == Records(all.0[..|out|], d.includeLen)
      decreases |StreamOf(d)|
    {
      var r := NextRecord(d);
      if r.Err? || r.value.None? {
        assert all.0[..|out|] == all.0;
        return out, r.Err?;
      }
      assert all.0[..|out| + 1] == all.0[..|out|] + [all.0[|out|]];
      assert all.0[|out|..][1..] == all.0[|out| + 1..];
      out := out + [r.value.value];
    }
  }

  ghost function StreamOf(d: Decoder): Bytes
    reads d, d.buffer, d.input
    requires Decodable(d)
  {
    d.Stream()
  }

  /**
   * Over zeros, `k` bytes of a canonical prefix are read right exactly when they are all of it; otherwise as a
   * prefix of one byte more that announces less.
   */
  lemma PrefixOverZeros(v: nat, k: nat, zeros: Bytes)
    requires v < LIMIT && 0 < k <= |Encoding(v)|
    requires |zeros| > 0 && forall i | 0 <= i < |zeros| :: zeros[i] == 0
    ensures k == |Encoding(v)| ==> Decode(Encoding(v)[..k] + zeros) == Ok((k, v))
    ensures k < |Encoding(v)| ==>
              Decode(Encoding(v)[..k] + zeros) == Ok((k + 1, v % Pow128(k))) && v % Pow128(k) < v
  {
    EncodingLength(v);
    LengthRange(v, 8);
    Pow128Limit();
    if k == |Encoding(v)| {
      assert Encoding(v)[..k] == Encoding(v);
      RoundTrip(v, zeros);
    } else {
      CutPrefixMisread(v, k, zeros, 8);
    }
  }

  /** What the buffer of a fresh decoder shows after a first read of `k` bytes. */
  lemma FirstLook(v: nat, body: Bytes, rest: Bytes, b: Bytes, k: nat)
    requires v < LIMIT && |body| == v && |Encoding(v)| + v <= |b| && (forall i | 0 <= i < |b| :: b[i] == 0)
    requires 0 < k <= |b| && k <= |Encoding(v) + body + rest|
    ensures var d := Decode((Encoding(v) + body + rest)[..k] + b[k..]);
            && d.Ok?
            && (|Encoding(v)| <= k ==> d.value == (|Encoding(v)|, v))
            && (k < |Encoding(v)| ==> d.value.0 == k + 1 && d.value.1 < v)
  {
    hide Decode, Encoding;
    var prefix, stream := Encoding(v), Encoding(v) + body + rest;
    if |prefix| <= k {
      var more := (body + rest)[..k - |prefix|] + b[k..];
      assert stream[..k] + b[k..] == prefix + more;
      RoundTrip(v, more);
    } else {
      assert stream[..k] == prefix[..k];
      PrefixOverZeros(v, k, b[k..]);
    }
  }

  lemma CanonicalRecord(v: nat, body: Bytes, includeLen: bool)
    requires v < LIMIT && |body| == v
    ensures Record(Encoding(v) + body, includeLen) == if includeLen then Encoding(v) + body else body
  {
    hide Decode, Encoding;
    RoundTrip(v, body);
  }

  /**
   * A fresh decoder hands out the first record exactly when its first read holds the whole length prefix.
   * Otherwise it hands out a shorter one, or fails.
   */
  method FirstRecord(v: nat, body: Bytes, rest: Bytes, sizes: seq<nat>, max: nat, includeLen: bool)
    returns (r: Result<Option<Bytes>>)
    requires v < LIMIT && |body| == v && |Encoding(v)| + v <= max
    ensures var k := Offer(Encoding(v) + body + rest, sizes, max);
            r == Ok(Some(Record(Encoding(v) + body, includeLen))) <==> |Encoding(v)| <= k
  {
    hide Decode, Deframe, CutsOk, IsFrame, IsRecord, FrontComplete, RecordSize, Record, Encoding;
    var prefix := Varint.Encoding(v);
    var input := new Reader(prefix + body + rest, sizes);
    var d := new Decoder(input, max, includeLen);
    ghost var k := Offer(input.rest, sizes, max);
    assert d.buffer[..][k..] == d.buffer[k..];
    FirstLook(v, body, rest, d.buffer[..], k);
    CanonicalRecord(v, body, includeLen);
    ghost var f;
    ghost var all := input.rest;
    assert d.AfterRead() == all[..k] && d.Seen() == all[..k] + d.buffer[k..];
    assert d.Pending() + input.rest == all;
    assert all[..|prefix| + v] == prefix + body && all[|prefix|..|prefix| + v] == body;
    r, f := d.Next();
  }
}
