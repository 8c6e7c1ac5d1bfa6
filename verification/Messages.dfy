/** Cable messages and their binary codec (cable/src/message.rs). */
module Messages {
  import opened Wire
  import opened Varint
  import opened Cursor
  import Utf8

  datatype Header = Header(msgType: U64, circuitId: Id, reqId: Id)

  datatype RequestBody =
    | PostRequest(hashes: seq<Hash>)
    | Cancel(cancelId: Id)
    | ChannelTimeRange(channel: Text, timeStart: U64, timeEnd: U64, limit: U64)
    | ChannelState(channel: Text, future: U64)
    | ChannelList(skip: U64, limit: U64)

  datatype ResponseBody =
    | HashResponse(hashes: seq<Hash>)
    | PostResponse(posts: seq<Bytes>)
    | ChannelListResponse(channels: seq<Text>)

  datatype Body =
    | Request(ttl: U8, request: RequestBody)
    | Response(response: ResponseBody)
    | Unrecognized(msgType: U64)

  datatype Message = Message(header: Header, body: Body)

  const HASH_RESPONSE: U64 := 0
  const POST_RESPONSE: U64 := 1
  const POST_REQUEST: U64 := 2
  const CANCEL_REQUEST: U64 := 3
  const CHANNEL_TIME_RANGE_REQUEST: U64 := 4
  const CHANNEL_STATE_REQUEST: U64 := 5
  const CHANNEL_LIST_REQUEST: U64 := 6
  const CHANNEL_LIST_RESPONSE: U64 := 7

  const NO_CIRCUIT: Id := [0, 0, 0, 0]

  function RequestType(b: RequestBody): U64 {
    match b
    case PostRequest(_) => POST_REQUEST
    case Cancel(_) => CANCEL_REQUEST
    case ChannelTimeRange(_, _, _, _) => CHANNEL_TIME_RANGE_REQUEST
    case ChannelState(_, _) => CHANNEL_STATE_REQUEST
    case ChannelList(_, _) => CHANNEL_LIST_REQUEST
  }

  function ResponseType(b: ResponseBody): U64 {
    match b
    case HashResponse(_) => HASH_RESPONSE
    case PostResponse(_) => POST_RESPONSE
    case ChannelListResponse(_) => CHANNEL_LIST_RESPONSE
  }

  function MessageType(b: Body): U64 {
    match b
    case Request(_, r) => RequestType(r)
    case Response(r) => ResponseType(r)
    case Unrecognized(t) => t
  }

  function MakeRequest(circuitId: Id, reqId: Id, ttl: U8, r: RequestBody): Message {
    Message(Header(RequestType(r), circuitId, reqId), Request(ttl, r))
  }

  function MakeResponse(circuitId: Id, reqId: Id, r: ResponseBody): Message {
    Message(Header(ResponseType(r), circuitId, reqId), Response(r))
  }

  /** `decrement_ttl`, which does not check for zero. */
  function DecrementTtl(m: Message): Result<Message> {
    if !m.body.Request? then Ok(m)
    else if m.body.ttl == 0 then Err(Panic)
    else Ok(m.(body := m.body.(ttl := m.body.ttl - 1)))
  }

  // count_bytes

  function RequestSize(ttl: U8, b: RequestBody): nat {
    match b
    case PostRequest(hs) => Length(ttl) + Length(|hs|) + |hs| * 32
    case Cancel(_) => Length(ttl) + 4
    case ChannelTimeRange(c, s, e, l) =>
      Length(ttl) + Length(|c|) + |c| + Length(s) + Length(e) + Length(l)
    case ChannelState(c, f) => Length(ttl) + Length(|c|) + |c| + Length(f)
    case ChannelList(s, l) => Length(ttl) + Length(s) + Length(l)
  }

  function ResponseSize(b: ResponseBody): nat {
    match b
    case HashResponse(hs) => Length(|hs|) + |hs| * 32
    case PostResponse(ps) => ChunksSize(ps) + Length(0)
    case ChannelListResponse(cs) => ChunksSize(cs) + Length(0)
  }

  /** Bytes behind the length prefix. */
  function MessageSize(m: Message): nat {
    Length(MessageType(m.body)) + 4 + 4 +
    match m.body
    case Request(ttl, b) => RequestSize(ttl, b)
    case Response(b) => ResponseSize(b)
    case Unrecognized(_) => 0
  }

  function CountBytes(m: Message): nat {
    Length(MessageSize(m)) + MessageSize(m)
  }

  // The bytes of a message.

  function EncodeRequest(ttl: U8, b: RequestBody): Bytes {
    Encoding(ttl) +
    match b
    case PostRequest(hs) => Encoding(|hs|) + EncodeHashes(hs)
    case Cancel(id) => id
    case ChannelTimeRange(c, s, e, l) => EncodeText(c) + (Encoding(s) + (Encoding(e) + Encoding(l)))
    case ChannelState(c, f) => EncodeText(c) + Encoding(f)
    case ChannelList(s, l) => Encoding(s) + Encoding(l)
  }

  function EncodeResponse(b: ResponseBody): Bytes {
    match b
    case HashResponse(hs) => Encoding(|hs|) + EncodeHashes(hs)
    case PostResponse(ps) => EncodeChunks(ps)
    case ChannelListResponse(cs) => EncodeChunks(cs)
  }

  function EncodeBody(b: Body): Bytes {
    match b
    case Request(ttl, r) => EncodeRequest(ttl, r)
    case Response(r) => EncodeResponse(r)
    case Unrecognized(_) => []
  }

  /** The prefix the writer computes: the total minus the varint length of the total. */
  function Prefix(m: Message): nat {
    var n := CountBytes(m);
    LengthBelow(n);
    n - Length(n)
  }

  function EncodeHeader(m: Message): Bytes {
    Encoding(MessageType(m.body)) + (m.header.circuitId + m.header.reqId)
  }

  function Encode(m: Message): Bytes {
    Encoding(Prefix(m)) + (EncodeHeader(m) + EncodeBody(m.body))
  }

  lemma {:induction false} LengthBelow(n: nat)
    requires n >= 1
    ensures 1 <= Length(n) <= n
  {
    EncodingLength(n);
    if n > 127 {
      EncodingLength(n / 128);
      LengthBelow(n / 128);
    }
  }

  lemma RequestSizeExact(ttl: U8, b: RequestBody)
    ensures |EncodeRequest(ttl, b)| == RequestSize(ttl, b)
  {
    EncodingLength(ttl);
    match b
    case PostRequest(hs) => EncodingLength(|hs|);
    case Cancel(_) =>
    case ChannelTimeRange(c, s, e, l) =>
      TextSizeExact(c);
      EncodingLength(s);
      EncodingLength(e);
      EncodingLength(l);
    case ChannelState(c, f) =>
      TextSizeExact(c);
      EncodingLength(f);
    case ChannelList(s, l) =>
      EncodingLength(s);
      EncodingLength(l);
  }

  lemma ResponseSizeExact(b: ResponseBody)
    ensures |EncodeResponse(b)| == ResponseSize(b)
  {
    match b
    case HashResponse(hs) => EncodingLength(|hs|);
    case PostResponse(ps) => ChunksSizeExact(ps);
    case ChannelListResponse(cs) => ChunksSizeExact(cs);
  }

  lemma MessageSizeExact(m: Message)
    ensures |EncodeHeader(m) + EncodeBody(m.body)| == MessageSize(m)
  {
    EncodingLength(MessageType(m.body));
    match m.body
    case Request(ttl, b) => RequestSizeExact(ttl, b);
    case Response(b) => ResponseSizeExact(b);
    case Unrecognized(_) =>
  }

  // The length prefix.

  /** The sizes for which the total needs one more prefix byte than the size itself. */
  ghost predicate InWindow(s: nat) {
    exists k: nat :: k >= 1 && Window(s, k)
  }

  ghost predicate Window(s: nat, k: nat) {
    Pow128(k) - k <= s < Pow128(k)
  }

  lemma PowAt1()
    ensures Pow128(0) == 1 && Pow128(1) == 128
    ensures forall k: nat :: Pow128(k + 1) == 128 * Pow128(k)
  {
  }

  lemma {:induction false} Pow128Above(k: nat)
    ensures Pow128(k) >= k + 1
  {
    if k > 0 {
      Pow128Above(k - 1);
    }
  }

  /** Only the window of its own byte length can hold a size. */
  lemma WindowOnlyOwn(s: nat, k: nat)
    requires k >= 1 && Window(s, k)
    ensures k == Length(s)
  {
    LengthRange(s, k);
    if k > 1 {
      LengthRange(s, k - 1);
      Pow128Above(k - 1);
    } else {
      LengthBelow(s);
    }
  }

  lemma PrefixOfSize(s: nat)
    requires s >= 1
    ensures var n := Length(s) + s;
            && n - Length(n) == (if InWindow(s) then s - 1 else s)
            && s >= Length(n)
            && Length(n - Length(n)) == Length(s)
  {
    hide Pow128, Length;
    var k := Length(s);
    var n := k + s;
    LengthBelow(s);
    PowAt1();
    LengthRange(s, k);
    LengthRange(n, k);
    LengthRange(n, k + 1);
    Pow128Above(k);
    if s + k >= Pow128(k) {
      assert Window(s, k);
      LengthRange(s - 1, k);
      if k > 1 {
        LengthRange(s, k - 1);
        LengthRange(s - 1, k - 1);
        Pow128Above(k - 1);
      } else {
        LengthBelow(s - 1);
      }
    } else {
      if InWindow(s) {
        var j: nat :| j >= 1 && Window(s, j);
        WindowOnlyOwn(s, j);
      }
      if k > 1 {
        LengthRange(s, k - 1);
        LengthRange(n, k - 1);
      } else {
        LengthBelow(n);
      }
    }
  }

  /** The written prefix counts the bytes behind it, one less exactly inside the window. */
  lemma PrefixExact(m: Message)
    ensures Prefix(m) == if InWindow(MessageSize(m)) then MessageSize(m) - 1 else MessageSize(m)
    ensures |Encode(m)| == CountBytes(m)
    ensures |Encode(m)| - |Encoding(Prefix(m))| == MessageSize(m)
  {
    PrefixOfSize(MessageSize(m));
    MessageSizeExact(m);
    EncodingLength(Prefix(m));
  }

  // from_bytes

  function DecodeRequest(buf: Bytes, off: nat, t: nat): (r: Result<(nat, Body)>)
    requires off <= |buf| && POST_REQUEST <= t <= CHANNEL_LIST_REQUEST
  {
    var (o, ttl) :- ReadVarint(buf, off);
    var ttl := ttl % 256;
    if t == POST_REQUEST then
      var (o, n) :- ReadVarint(buf, o);
      var (o, hs) :- ReadHashes(buf, o, n);
      Ok((o, Request(ttl, PostRequest(hs))))
    else if t == CANCEL_REQUEST then
      var (o, id) :- ReadExact(buf, o, 4);
      Ok((o, Request(ttl, Cancel(id))))
    else if t == CHANNEL_TIME_RANGE_REQUEST then
      var (o, c) :- ReadText(buf, o);
      var (o, s) :- ReadVarint(buf, o);
      var (o, e) :- ReadVarint(buf, o);
      var (o, l) :- ReadVarint(buf, o);
      Ok((o, Request(ttl, ChannelTimeRange(c, s, e, l))))
    else if t == CHANNEL_STATE_REQUEST then
      var (o, c) :- ReadText(buf, o);
      var (o, f) :- ReadVarint(buf, o);
      Ok((o, Request(ttl, ChannelState(c, f))))
    else
      var (o, s) :- ReadVarint(buf, o);
      var (o, l) :- ReadVarint(buf, o);
      Ok((o, Request(ttl, ChannelList(s, l))))
  }

  function DecodeBody(buf: Bytes, off: nat, t: nat): (r: Result<(nat, Body)>)
    requires off <= |buf| && t < LIMIT
  {
    if t == HASH_RESPONSE then
      var (o, n) :- ReadVarint(buf, off);
      var (o, hs) :- ReadHashes(buf, o, n);
      Ok((o, Response(HashResponse(hs))))
    else if t == POST_RESPONSE then
      var (o, ps) :- ReadChunks(buf, off, false);
      Ok((o, Response(PostResponse(ps))))
    else if t == CHANNEL_LIST_RESPONSE then
      var (o, cs) :- ReadChunks(buf, off, true);
      Ok((o, Response(ChannelListResponse(cs))))
    else if t <= CHANNEL_LIST_REQUEST then DecodeRequest(buf, off, t)
    else Ok((off, Unrecognized(t)))
  }

  function DecodeHeader(buf: Bytes): (r: Result<(nat, Header)>)
    ensures r.Ok? ==> r.value.0 <= |buf| && r.value.1.msgType < LIMIT
  {
    if buf == [] then Err(MessageEmpty)
    else
      var (o, _) :- ReadVarint(buf, 0);
      var (o, t) :- ReadVarint(buf, o);
      var (o, circuitId) :- ReadExact(buf, o, 4);
      var (o, reqId) :- ReadExact(buf, o, 4);
      Ok((o, Header(t, circuitId, reqId)))
  }

  function Decode(buf: Bytes): Result<(nat, Message)> {
    var (o, h) :- DecodeHeader(buf);
    var (o, b) :- DecodeBody(buf, o, h.msgType);
    Ok((o, Message(h, b)))
  }

  /** `count_from_bytes`: what the prefix announces. */
  function CountFromBytes(buf: Bytes): Result<nat> {
    if buf == [] then Err(MessageEmpty)
    else
      var (s, n) :- Varint.Decode(buf);
      Ok(s + n)
  }

  // Round trip.

  ghost predicate GoodText(t: Text) {
    |t| < LIMIT && Utf8.Valid(t)
  }

  ghost predicate WellFormedRequest(b: RequestBody) {
    match b
    case PostRequest(hs) => |hs| < LIMIT
    case Cancel(_) => true
    case ChannelTimeRange(c, s, e, l) => GoodText(c) && s < LIMIT && e < LIMIT && l < LIMIT
    case ChannelState(c, f) => GoodText(c) && f < LIMIT
    case ChannelList(s, l) => s < LIMIT && l < LIMIT
  }

  ghost predicate WellFormedResponse(b: ResponseBody) {
    match b
    case HashResponse(hs) => |hs| < LIMIT
    case PostResponse(ps) => GoodChunks(ps, false)
    case ChannelListResponse(cs) => GoodChunks(cs, true)
  }

  ghost predicate WellFormedBody(b: Body) {
    match b
    case Request(_, r) => WellFormedRequest(r)
    case Response(r) => WellFormedResponse(r)
    case Unrecognized(_) => false
  }

  /** What a message must satisfy to survive the wire. */
  ghost predicate WellFormed(m: Message) {
    m.header.msgType == MessageType(m.body) && WellFormedBody(m.body)
  }

  lemma RequestAt(buf: Bytes, off: nat, ttl: U8, b: RequestBody)
    requires At(buf, off, EncodeRequest(ttl, b)) && WellFormedRequest(b)
    ensures DecodeRequest(buf, off, RequestType(b)) == Ok((off + |EncodeRequest(ttl, b)|, Request(ttl, b)))
  {
    hide ReadVarint, ReadText, ReadHashes, ReadChunks, ReadExact, At, Encoding, EncodeText, EncodeHashes;
    var o := off + |Encoding(ttl)|;
    match b
    case PostRequest(hs) =>
      AtSplit(buf, off, Encoding(ttl), Encoding(|hs|) + EncodeHashes(hs));
      AtSplit(buf, o, Encoding(|hs|), EncodeHashes(hs));
      VarintAt(buf, off, ttl);
      VarintAt(buf, o, |hs|);
      HashesAt(buf, o + |Encoding(|hs|)|, hs);
    case Cancel(id) =>
      AtSplit(buf, off, Encoding(ttl), id);
      VarintAt(buf, off, ttl);
      ExactAt(buf, o, id);
    case ChannelTimeRange(c, s, e, l) => TimeRangeAt(buf, off, ttl, b);
    case ChannelState(c, f) =>
      AtSplit(buf, off, Encoding(ttl), EncodeText(c) + Encoding(f));
      AtSplit(buf, o, EncodeText(c), Encoding(f));
      VarintAt(buf, off, ttl);
      TextAt(buf, o, c);
      VarintAt(buf, o + |EncodeText(c)|, f);
    case ChannelList(s, l) =>
      AtSplit(buf, off, Encoding(ttl), Encoding(s) + Encoding(l));
      AtSplit(buf, o, Encoding(s), Encoding(l));
      VarintAt(buf, off, ttl);
      VarintAt(buf, o, s);
      VarintAt(buf, o + |Encoding(s)|, l);
  }

  lemma TimeRangeAt(buf: Bytes, off: nat, ttl: U8, b: RequestBody)
    requires b.ChannelTimeRange? && At(buf, off, EncodeRequest(ttl, b)) && WellFormedRequest(b)
    ensures DecodeRequest(buf, off, RequestType(b)) == Ok((off + |EncodeRequest(ttl, b)|, Request(ttl, b)))
  {
    hide ReadVarint, ReadText, ReadHashes, ReadChunks, ReadExact, At, Encoding, EncodeText, EncodeHashes;
    var (s, e, l) := (Encoding(b.timeStart), Encoding(b.timeEnd), Encoding(b.limit));
    var c := EncodeText(b.channel);
    AtSplit(buf, off, Encoding(ttl), c + (s + (e + l)));
    VarintAt(buf, off, ttl);
    var o := off + |Encoding(ttl)|;
    AtSplit(buf, o, c, s + (e + l));
    TextAt(buf, o, b.channel);
    o := o + |c|;
    AtSplit(buf, o, s, e + l);
    VarintAt(buf, o, b.timeStart);
    o := o + |s|;
    AtSplit(buf, o, e, l);
    VarintAt(buf, o, b.timeEnd);
    VarintAt(buf, o + |e|, b.limit);
  }

  lemma BodyAt(buf: Bytes, off: nat, b: Body)
    requires At(buf, off, EncodeBody(b)) && WellFormedBody(b)
    ensures DecodeBody(buf, off, MessageType(b)) == Ok((off + |EncodeBody(b)|, b))
  {
    hide ReadVarint, ReadText, ReadHashes, ReadChunks, ReadExact, At, Encoding, EncodeText, EncodeHashes;
    match b
    case Request(ttl, r) => RequestAt(buf, off, ttl, r);
    case Response(HashResponse(hs)) =>
      AtSplit(buf, off, Encoding(|hs|), EncodeHashes(hs));
      VarintAt(buf, off, |hs|);
      HashesAt(buf, off + |Encoding(|hs|)|, hs);
    case Response(PostResponse(ps)) => ChunksAt(buf, off, ps, false);
    case Response(ChannelListResponse(cs)) => ChunksAt(buf, off, cs, true);
  }

  lemma HeaderAt(buf: Bytes, m: Message, p: nat)
    requires p < LIMIT && MessageType(m.body) < LIMIT
    requires At(buf, 0, Encoding(p)) && At(buf, |Encoding(p)|, EncodeHeader(m))
    ensures DecodeHeader(buf) ==
            Ok((|Encoding(p)| + |EncodeHeader(m)|, m.header.(msgType := MessageType(m.body))))
  {
    hide ReadVarint, ReadText, ReadHashes, ReadChunks, ReadExact, At, Encoding, EncodeText, EncodeHashes;
    var o, t := |Encoding(p)|, Encoding(MessageType(m.body));
    VarintAt(buf, 0, p);
    AtSplit(buf, o, t, m.header.circuitId + m.header.reqId);
    VarintAt(buf, o, MessageType(m.body));
    o := o + |t|;
    AtSplit(buf, o, m.header.circuitId, m.header.reqId);
    ExactAt(buf, o, m.header.circuitId);
    ExactAt(buf, o + 4, m.header.reqId);
  }

  lemma MessageAt(buf: Bytes, m: Message)
    requires WellFormed(m) && CountBytes(m) < LIMIT && At(buf, 0, Encode(m))
    ensures Decode(buf) == Ok((|Encode(m)|, m))
  {
    hide DecodeHeader, DecodeBody, EncodeHeader, EncodeBody, Prefix, At, Encoding, CountBytes;
    var p, h, b := Encoding(Prefix(m)), EncodeHeader(m), EncodeBody(m.body);
    PrefixExact(m);
    EncodingLength(Prefix(m));
    AtSplit(buf, 0, p, h + b);
    AtSplit(buf, |p|, h, b);
    HeaderAt(buf, m, Prefix(m));
    BodyAt(buf, |p| + |h|, m.body);
  }

  /** Decoding the encoding of a well-formed message, with anything behind it, gives it back. */
  lemma RoundTrip(m: Message, tail: Bytes)
    requires WellFormed(m) && CountBytes(m) < LIMIT
    ensures Decode(Encode(m) + tail) == Ok((CountBytes(m), m))
  {
    hide Decode, Encode, WellFormed, CountBytes;
    assert At(Encode(m) + tail, 0, Encode(m));
    MessageAt(Encode(m) + tail, m);
    PrefixExact(m);
  }

  /** The decoder produces nothing but well-formed messages and unrecognized types. */
  lemma DecodedWellFormed(buf: Bytes)
    requires Decode(buf).Ok? && !Decode(buf).value.1.body.Unrecognized?
    ensures WellFormed(Decode(buf).value.1)
  {
    hide ReadVarint, ReadText, ReadHashes, ReadChunks, ReadExact, At, Encoding, EncodeText, EncodeHashes;
  }

  /** A writable message survives the wire exactly when it is well formed. */
  lemma RoundTripExactly(m: Message, tail: Bytes)
    requires !m.body.Unrecognized? && CountBytes(m) < LIMIT
    ensures Decode(Encode(m) + tail) == Ok((CountBytes(m), m)) <==> WellFormed(m)
  {
    if WellFormed(m) {
      RoundTrip(m, tail);
    } else if Decode(Encode(m) + tail) == Ok((CountBytes(m), m)) {
      DecodedWellFormed(Encode(m) + tail);
    }
  }

  /** The announced length is the real one exactly outside the window. */
  lemma CountFromEncoding(m: Message, tail: Bytes)
    requires CountBytes(m) < LIMIT
    ensures CountFromBytes(Encode(m) + tail) ==
            Ok(if InWindow(MessageSize(m)) then CountBytes(m) - 1 else CountBytes(m))
  {
    hide Encoding, EncodeHeader, EncodeBody, Prefix, Varint.Decode, Length, InWindow;
    PrefixExact(m);
    EncodingLength(Prefix(m));
    var p, rest := Encoding(Prefix(m)), EncodeHeader(m) + EncodeBody(m.body);
    assert p + rest + tail == p + (rest + tail);
    Varint.RoundTrip(Prefix(m), rest + tail);
  }

  // write_bytes: the writer works on the buffer and on its own count of the size.

  method WriteRequest(buf: array<Byte>, off: nat, ttl: U8, b: RequestBody) returns (r: Result<nat>)
    requires off <= buf.Length
    modifies buf
    ensures r.Ok? <==> off + |EncodeRequest(ttl, b)| <= buf.Length
    ensures r.Ok? ==> r.value == off + |EncodeRequest(ttl, b)|
    ensures r.Ok? ==> buf[..] == Over(old(buf[..]), off, EncodeRequest(ttl, b))
  {
    hide Over, Encoding, EncodeText, EncodeHashes;
    ghost var was := buf[..];
    ghost var w := Encoding(ttl);
    var o :- PutVarint(buf, off, ttl);
    match b
    case PostRequest(hs) =>
      o :- PutVarint(buf, o, |hs|);
      OverOver(was, off, w, Encoding(|hs|));
      r := PutHashes(buf, o, hs);
      Joined(was, off, w, Encoding(|hs|), EncodeHashes(hs));
    case Cancel(id) =>
      r := PutBytes(buf, o, id);
      Joined(was, off, [], w, id);
    case ChannelTimeRange(c, s, e, l) =>
      r := WriteTimeRange(buf, off, o, b, was, w);
    case ChannelState(c, f) =>
      o :- PutText(buf, o, c);
      OverOver(was, off, w, EncodeText(c));
      r := PutVarint(buf, o, f);
      Joined(was, off, w, EncodeText(c), Encoding(f));
    case ChannelList(s, l) =>
      o :- PutVarint(buf, o, s);
      OverOver(was, off, w, Encoding(s));
      r := PutVarint(buf, o, l);
      Joined(was, off, w, Encoding(s), Encoding(l));
  }

  /** Two appended pieces, as the writer leaves them and as the encoding nests them. */
  lemma Joined(was: Bytes, off: nat, a: Bytes, b: Bytes, c: Bytes)
    ensures a + (b + c) == a + b + c && [] + b == b
    ensures off + |a + b + c| <= |was| ==>
              Over(Over(was, off, a + b), off + |a| + |b|, c) == Over(was, off, a + (b + c))
  {
    assert a + (b + c) == a + b + c;
    assert [] + b == b;
    if off + |a + b + c| <= |was| {
      OverOver(was, off, a + b, c);
    }
  }

  method WriteTimeRange(buf: array<Byte>, ghost off: nat, o: nat, b: RequestBody, ghost was: Bytes, ghost w: Bytes)
    returns (r: Result<nat>)
    requires b.ChannelTimeRange? && o == off + |w| <= buf.Length == |was|
    requires buf[..] == Over(was, off, w)
    modifies buf
    ensures var e := w + (EncodeText(b.channel)
                          + (Encoding(b.timeStart) + (Encoding(b.timeEnd) + Encoding(b.limit))));
            && (r.Ok? <==> off + |e| <= buf.Length)
            && (r.Ok? ==> r.value == off + |e| && buf[..] == Over(was, off, e))
  {
    hide Over, Encoding, EncodeText;
    ghost var (c, s, e, l) :=
      (EncodeText(b.channel), Encoding(b.timeStart), Encoding(b.timeEnd), Encoding(b.limit));
    var o1 :- PutText(buf, o, b.channel);
    OverOver(was, off, w, c);
    var o2 :- PutVarint(buf, o1, b.timeStart);
    OverOver(was, off, w + c, s);
    var o3 :- PutVarint(buf, o2, b.timeEnd);
    OverOver(was, off, w + c + s, e);
    r := PutVarint(buf, o3, b.limit);
    if r.Ok? {
      OverOver(was, off, w + c + s + e, l);
      assert w + c + s + e + l == w + (c + (s + (e + l)));
    }
  }

  method WriteResponse(buf: array<Byte>, off: nat, b: ResponseBody) returns (r: Result<nat>)
    requires off <= buf.Length
    modifies buf
    ensures r.Ok? <==> off + |EncodeResponse(b)| <= buf.Length
    ensures r.Ok? ==> r.value == off + |EncodeResponse(b)|
    ensures r.Ok? ==> buf[..] == Over(old(buf[..]), off, EncodeResponse(b))
  {
    hide Over, Encoding, EncodeHashes, EncodeChunks;
    ghost var was := buf[..];
    match b
    case HashResponse(hs) =>
      var o :- PutVarint(buf, off, |hs|);
      r := PutHashes(buf, o, hs);
      Joined(was, off, [], Encoding(|hs|), EncodeHashes(hs));
    case PostResponse(ps) => r := PutChunks(buf, off, ps);
    case ChannelListResponse(cs) => r := PutChunks(buf, off, cs);
  }

  method WriteHeader(m: Message, buf: array<Byte>) returns (r: Result<nat>)
    modifies buf
    ensures var e := Encoding(Prefix(m)) + EncodeHeader(m);
            && (r.Ok? <==> |e| <= buf.Length)
            && (r.Ok? ==> r.value == |e| && buf[..] == Over(old(buf[..]), 0, e))
  {
    hide Over, Encoding, Prefix;
    ghost var was := buf[..];
    ghost var (p, t) := (Encoding(Prefix(m)), Encoding(MessageType(m.body)));
    ghost var (c, q) := (m.header.circuitId, m.header.reqId);
    assert p + t + c + q == p + EncodeHeader(m);
    var o :- PutVarint(buf, 0, Prefix(m));
    o :- PutVarint(buf, o, MessageType(m.body));
    OverOver(was, 0, p, t);
    o :- PutBytes(buf, o, m.header.circuitId);
    OverOver(was, 0, p + t, c);
    r := PutBytes(buf, o, m.header.reqId);
    if r.Ok? {
      OverOver(was, 0, p + t + c, q);
    }
  }

  /** `write_bytes`: succeeds exactly when the counted size fits, and writes exactly that many bytes. */
  method WriteBytes(m: Message, buf: array<Byte>) returns (r: Result<nat>)
    modifies buf
    ensures r.Ok? <==> !m.body.Unrecognized? && CountBytes(m) <= buf.Length
    ensures r.Ok? ==> r.value == CountBytes(m) == |Encode(m)|
    ensures r.Ok? ==> buf[..] == Over(old(buf[..]), 0, Encode(m))
  {
    hide Over, Encoding, EncodeHeader, EncodeRequest, EncodeResponse, CountBytes, Prefix, MessageSize;
    PrefixExact(m);
    ghost var was, p := buf[..], Encoding(Prefix(m));
    Joined(was, 0, p, EncodeHeader(m), EncodeBody(m.body));
    var o :- WriteHeader(m, buf);
    match m.body
    case Request(ttl, b) => r := WriteRequest(buf, o, ttl, b);
    case Response(b) => r := WriteResponse(buf, o, b);
    case Unrecognized(_) => return Err(UnrecognizedType);
  }

  /** `to_bytes`: a buffer of the counted size is filled completely. */
  method ToBytes(m: Message) returns (r: Result<Bytes>)
    ensures r == if m.body.Unrecognized? then Err(UnrecognizedType) else Ok(Encode(m))
  {
    var buf := new Byte[CountBytes(m)](_ => 0);
    PrefixExact(m);
    ghost var was := buf[..];
    var n := WriteBytes(m, buf);
    if n.Err? {
      return Err(UnrecognizedType);
    }
    OverAll(was, Encode(m));
    return Ok(buf[..]);
  }

  // from_bytes: the reader with its loops, against the functional decoder.

  method ReadRequest(buf: Bytes, off: nat, t: nat) returns (r: Result<(nat, Body)>)
    requires off <= |buf| && POST_REQUEST <= t <= CHANNEL_LIST_REQUEST
    ensures r == DecodeRequest(buf, off, t)
  {
    hide ReadVarint, ReadText, ReadHashes, ReadExact;
    var a :- ReadVarint(buf, off);
    var ttl := a.1 % 256;
    if t == POST_REQUEST {
      var n :- ReadVarint(buf, a.0);
      var q := ReadHashLoop(buf, n.0, n.1);
      if q.Err? { return Err(q.error); }
      return Ok((q.value.0, Request(ttl, PostRequest(q.value.1))));
    } else if t == CANCEL_REQUEST {
      var id :- ReadExact(buf, a.0, 4);
      return Ok((id.0, Request(ttl, Cancel(id.1))));
    } else if t == CHANNEL_TIME_RANGE_REQUEST {
      var c :- ReadText(buf, a.0);
      var s :- ReadVarint(buf, c.0);
      var e :- ReadVarint(buf, s.0);
      var l :- ReadVarint(buf, e.0);
      return Ok((l.0, Request(ttl, ChannelTimeRange(c.1, s.1, e.1, l.1))));
    } else if t == CHANNEL_STATE_REQUEST {
      var c :- ReadText(buf, a.0);
      var f :- ReadVarint(buf, c.0);
      return Ok((f.0, Request(ttl, ChannelState(c.1, f.1))));
    } else {
      var s :- ReadVarint(buf, a.0);
      var l :- ReadVarint(buf, s.0);
      return Ok((l.0, Request(ttl, ChannelList(s.1, l.1))));
    }
  }

  method FromBytes(buf: Bytes) returns (r: Result<(nat, Message)>)
    ensures r == Decode(buf)
  {
    hide ReadVarint, ReadHashes, ReadChunks, ReadExact, DecodeRequest;
    if buf == [] {
      return Err(MessageEmpty);
    }
    var p :- ReadVarint(buf, 0);
    var t :- ReadVarint(buf, p.0);
    var c :- ReadExact(buf, t.0, 4);
    var q :- ReadExact(buf, c.0, 4);
    var h := Header(t.1, c.1, q.1);
    var off := q.0;
    if h.msgType == HASH_RESPONSE {
      var n :- ReadVarint(buf, off);
      var hs := ReadHashLoop(buf, n.0, n.1);
      if hs.Err? { return Err(hs.error); }
      return Ok((hs.value.0, Message(h, Response(HashResponse(hs.value.1)))));
    } else if h.msgType == POST_RESPONSE {
      var ps := ReadChunkLoop(buf, off, false);
      if ps.Err? { return Err(ps.error); }
      return Ok((ps.value.0, Message(h, Response(PostResponse(ps.value.1)))));
    } else if h.msgType == CHANNEL_LIST_RESPONSE {
      var cs := ReadChunkLoop(buf, off, true);
      if cs.Err? { return Err(cs.error); }
      return Ok((cs.value.0, Message(h, Response(ChannelListResponse(cs.value.1)))));
    } else if h.msgType <= CHANNEL_LIST_REQUEST {
      var b := ReadRequest(buf, off, h.msgType);
      if b.Err? { return Err(b.error); }
      return Ok((b.value.0, Message(h, b.value.1)));
    }
    return Ok((off, Message(h, Unrecognized(h.msgType))));
  }
}
