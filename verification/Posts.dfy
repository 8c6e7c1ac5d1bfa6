/** Cable posts: their binary codec, hash and signature (cable/src/post.rs, cable/src/validation.rs). */
module Posts {
  import opened Wire
  import opened Varint
  import opened Cursor
  import Utf8

  datatype UserInfo = UserInfo(key: Text, val: Text)

  datatype PostHeader = PostHeader(
    publicKey: Hash, signature: Bytes64, links: seq<Hash>, postType: U64, timestamp: U64)

  datatype PostBody =
    | TextPost(channel: Text, text: Text)
    | Delete(hashes: seq<Hash>)
    | Info(info: seq<UserInfo>)
    | Topic(channel: Text, topic: Text)
    | Join(channel: Text)
    | Leave(channel: Text)
    | UnrecognizedPost(postType: U64)

  datatype Post = Post(header: PostHeader, body: PostBody)

  /** The hash and signature primitives; their internals are not part of this model. */
  datatype Crypto = Crypto(
    digest: Bytes -> Hash,
    sign: (Bytes, Bytes64) -> Bytes64,
    verify: (Bytes64, Bytes, Hash) -> bool,
    publicOf: Bytes64 -> Hash)

  /** What a signature scheme promises: a signature made with a key verifies under its public key. */
  ghost predicate Lawful(c: Crypto) {
    forall m: Bytes, sk: Bytes64 :: c.verify(c.sign(m, sk), m, c.publicOf(sk))
  }

  const TEXT_POST: U64 := 0
  const DELETE_POST: U64 := 1
  const INFO_POST: U64 := 2
  const TOPIC_POST: U64 := 3
  const JOIN_POST: U64 := 4
  const LEAVE_POST: U64 := 5

  /** The bytes of "name". */
  const NAME: Text := [110, 97, 109, 101]

  function PostType(b: PostBody): U64 {
    match b
    case TextPost(_, _) => TEXT_POST
    case Delete(_) => DELETE_POST
    case Info(_) => INFO_POST
    case Topic(_, _) => TOPIC_POST
    case Join(_) => JOIN_POST
    case Leave(_) => LEAVE_POST
    case UnrecognizedPost(t) => t
  }

  /** `get_channel` */
  function ChannelOf(p: Post): Option<Text> {
    match p.body
    case TextPost(c, _) => Some(c)
    case Topic(c, _) => Some(c)
    case Join(c) => Some(c)
    case Leave(c) => Some(c)
    case _ => None
  }

  // Validation.

  predicate ValidChannel(c: Text)
    requires Utf8.Valid(c)
  {
    1 <= Utf8.Chars(c) <= 64
  }

  predicate ValidTopic(t: Text)
    requires Utf8.Valid(t)
  {
    Utf8.Chars(t) <= 521
  }

  predicate ValidName(t: Text)
    requires Utf8.Valid(t)
  {
    1 <= Utf8.Chars(t) <= 32
  }

  predicate ValidText(t: Text) {
    |t| <= 4096
  }

  // count_bytes

  function InfoSize(info: seq<UserInfo>): nat {
    if info == [] then 0
    else TextSize(info[0].key) + TextSize(info[0].val) + InfoSize(info[1..])
  }

  function BodySize(b: PostBody): nat {
    match b
    case TextPost(c, t) => Length(|c|) + |c| + Length(|t|) + |t|
    case Delete(hs) => Length(|hs|) + |hs| * 32
    case Info(info) => InfoSize(info) + Length(0)
    case Topic(c, t) => Length(|c|) + |c| + Length(|t|) + |t|
    case Join(c) => Length(|c|) + |c|
    case Leave(c) => Length(|c|) + |c|
    case UnrecognizedPost(_) => 0
  }

  function CountBytes(p: Post): nat {
    32 + 64 + Length(|p.header.links|) + |p.header.links| * 32 + Length(PostType(p.body))
    + Length(p.header.timestamp) + BodySize(p.body)
  }

  // The bytes of a post.

  function EncodeInfo(info: seq<UserInfo>): Bytes {
    if info == [] then Encoding(0)
    else EncodeText(info[0].key) + (EncodeText(info[0].val) + EncodeInfo(info[1..]))
  }

  function EncodeBody(b: PostBody): Bytes {
    match b
    case TextPost(c, t) => EncodeText(c) + EncodeText(t)
    case Delete(hs) => Encoding(|hs|) + EncodeHashes(hs)
    case Info(info) => EncodeInfo(info)
    case Topic(c, t) => EncodeText(c) + EncodeText(t)
    case Join(c) => EncodeText(c)
    case Leave(c) => EncodeText(c)
    case UnrecognizedPost(_) => []
  }

  function EncodeLinks(p: Post): Bytes {
    Encoding(|p.header.links|) + EncodeHashes(p.header.links)
  }

  /** Everything behind the public key and the signature: the signed part. */
  function EncodeSigned(p: Post): Bytes {
    EncodeLinks(p) + (Encoding(PostType(p.body)) + (Encoding(p.header.timestamp) + EncodeBody(p.body)))
  }

  function Encode(p: Post): Bytes {
    p.header.publicKey + (p.header.signature + EncodeSigned(p))
  }

  lemma {:induction false} InfoSizeExact(info: seq<UserInfo>)
    ensures |EncodeInfo(info)| == InfoSize(info) + Length(0)
  {
    if info == [] {
      EncodingLength(0);
    } else {
      TextSizeExact(info[0].key);
      TextSizeExact(info[0].val);
      InfoSizeExact(info[1..]);
    }
  }

  lemma BodySizeExact(b: PostBody)
    ensures |EncodeBody(b)| == BodySize(b)
  {
    match b
    case TextPost(c, t) =>
      TextSizeExact(c);
      TextSizeExact(t);
    case Delete(hs) => EncodingLength(|hs|);
    case Info(info) => InfoSizeExact(info);
    case Topic(c, t) =>
      TextSizeExact(c);
      TextSizeExact(t);
    case Join(c) => TextSizeExact(c);
    case Leave(c) => TextSizeExact(c);
    case UnrecognizedPost(_) =>
  }

  lemma CountExact(p: Post)
    ensures |Encode(p)| == CountBytes(p)
  {
    EncodingLength(|p.header.links|);
    EncodingLength(PostType(p.body));
    EncodingLength(p.header.timestamp);
    BodySizeExact(p.body);
  }

  // from_bytes

  function ReadChannel(buf: Bytes, off: nat): (r: Result<(nat, Text)>)
    requires off <= |buf|
    ensures r.Ok? ==> r.value.0 <= |buf| && GoodChannel(r.value.1)
  {
    var (o, c) :- ReadText(buf, off);
    if ValidChannel(c) then Ok((o, c)) else Err(ChannelLength)
  }

  predicate GoodInfo(u: UserInfo) {
    && 0 < |u.key| < LIMIT && Utf8.Valid(u.key)
    && |u.val| < LIMIT && Utf8.Valid(u.val)
    && (u.key == NAME ==> ValidName(u.val))
  }

  predicate GoodInfos(info: seq<UserInfo>) {
    forall i | 0 <= i < |info| :: GoodInfo(info[i])
  }

  lemma GoodNone()
    ensures GoodInfos([])
  {
  }

  lemma GoodCons(u: UserInfo, r: Result<(nat, seq<UserInfo>)>, n: nat)
    requires GoodInfo(u) && (r.Ok? ==> r.value.0 <= n && GoodInfos(r.value.1))
    ensures var p := Prepend([u], r); p.Ok? ==> p.value.0 <= n && GoodInfos(p.value.1)
  {
    if r.Ok? {
      var all := [u] + r.value.1;
      assert forall i | 0 < i < |all| :: all[i] == r.value.1[i - 1];
    }
  }

  function ReadInfo(buf: Bytes, off: nat): (r: Result<(nat, seq<UserInfo>)>)
    requires off <= |buf|
    ensures r.Ok? ==> r.value.0 <= |buf| && GoodInfos(r.value.1)
    decreases |buf| - off
  {
    hide Utf8.Valid, ReadVarint, ReadExact, ReadText, ValidName, GoodInfos, Prepend;
    var (o, n) :- ReadVarint(buf, off);
    if n == 0 then GoodNone(); Ok((o, []))
    else
      var (o, key) :- ReadExact(buf, o, n);
      if !Utf8.Valid(key) then Err(InvalidUtf8)
      else
        var (o, val) :- ReadText(buf, o);
        var u := UserInfo(key, val);
        if key == NAME && !ValidName(val) then Err(NameLength)
        else
          GoodCons(u, ReadInfo(buf, o), |buf|);
          Prepend([u], ReadInfo(buf, o))
  }

  function DecodeBody(buf: Bytes, off: nat, t: nat): (r: Result<(nat, PostBody)>)
    requires off <= |buf| && t < LIMIT
    ensures r.Ok? ==> r.value.0 <= |buf|
  {
    if t == TEXT_POST then
      var (o, c) :- ReadChannel(buf, off);
      var (o, t) :- ReadText(buf, o);
      if ValidText(t) then Ok((o, TextPost(c, t))) else Err(TextLength)
    else if t == DELETE_POST then
      var (o, n) :- ReadVarint(buf, off);
      var (o, hs) :- ReadHashes(buf, o, n);
      Ok((o, Delete(hs)))
    else if t == INFO_POST then
      var (o, info) :- ReadInfo(buf, off);
      Ok((o, Info(info)))
    else if t == TOPIC_POST then
      var (o, c) :- ReadChannel(buf, off);
      var (o, t) :- ReadText(buf, o);
      if ValidTopic(t) then Ok((o, Topic(c, t))) else Err(TopicLength)
    else if t == JOIN_POST then
      var (o, c) :- ReadChannel(buf, off);
      Ok((o, Join(c)))
    else if t == LEAVE_POST then
      var (o, c) :- ReadChannel(buf, off);
      Ok((o, Leave(c)))
    else Ok((off, UnrecognizedPost(t)))
  }

  function DecodeHeader(buf: Bytes): (r: Result<(nat, PostHeader)>)
    ensures r.Ok? ==> r.value.0 <= |buf| && GoodHeader(r.value.1)
  {
    var (o, pk) :- ReadExact(buf, 0, 32);
    var (o, sig) :- ReadExact(buf, o, 64);
    var (o, n) :- ReadVarint(buf, o);
    var (o, links) :- ReadHashes(buf, o, n);
    var (o, t) :- ReadVarint(buf, o);
    var (o, ts) :- ReadVarint(buf, o);
    Ok((o, PostHeader(pk, sig, links, t, ts)))
  }

  function Decode(buf: Bytes): (r: Result<(nat, Post)>)
    ensures r.Ok? ==> r.value.0 <= |buf|
  {
    var (o, h) :- DecodeHeader(buf);
    var (o, b) :- DecodeBody(buf, o, h.postType);
    Ok((o, Post(h, b)))
  }

  // Round trip.

  predicate GoodText(t: Text) {
    |t| < LIMIT && Utf8.Valid(t)
  }

  predicate GoodChannel(c: Text) {
    GoodText(c) && ValidChannel(c)
  }

  predicate GoodHeader(h: PostHeader) {
    |h.links| < LIMIT && h.postType < LIMIT && h.timestamp < LIMIT
  }

  predicate GoodBody(b: PostBody) {
    match b
    case TextPost(c, t) => GoodChannel(c) && GoodText(t) && ValidText(t)
    case Delete(hs) => |hs| < LIMIT
    case Info(info) => GoodInfos(info)
    case Topic(c, t) => GoodChannel(c) && GoodText(t) && ValidTopic(t)
    case Join(c) => GoodChannel(c)
    case Leave(c) => GoodChannel(c)
    case UnrecognizedPost(_) => false
  }

  /** What a post must satisfy to survive the wire; `from_bytes` checks it. */
  predicate WellFormed(p: Post) {
    GoodHeader(p.header) && p.header.postType == PostType(p.body) && GoodBody(p.body)
  }

  lemma ChannelAt(buf: Bytes, off: nat, c: Text)
    requires At(buf, off, EncodeText(c)) && GoodChannel(c)
    ensures ReadChannel(buf, off) == Ok((off + |EncodeText(c)|, c))
  {
    hide ReadText, At, EncodeText, ValidChannel;
    TextAt(buf, off, c);
  }

  lemma InfoItemAt(buf: Bytes, off: nat, u: UserInfo)
    requires At(buf, off, EncodeText(u.key) + EncodeText(u.val)) && GoodInfo(u)
    ensures ReadInfo(buf, off) ==
            Prepend([u], ReadInfo(buf, off + |EncodeText(u.key)| + |EncodeText(u.val)|))
  {
    hide ReadVarint, ReadExact, ReadText, At, EncodeText, ValidName, Utf8.Valid;
    AtSplit(buf, off, EncodeText(u.key), EncodeText(u.val));
    CountedAt(buf, off, u.key);
    TextAt(buf, off + |EncodeText(u.key)|, u.val);
  }

  lemma NoInfoAt(buf: Bytes, off: nat)
    requires At(buf, off, Encoding(0))
    ensures ReadInfo(buf, off) == Ok((off + |Encoding(0)|, []))
  {
    hide ReadVarint, At;
    VarintAt(buf, off, 0);
  }

  lemma {:induction false} InfoAt(buf: Bytes, off: nat, info: seq<UserInfo>)
    requires At(buf, off, EncodeInfo(info)) && GoodInfos(info)
    ensures ReadInfo(buf, off) == Ok((off + |EncodeInfo(info)|, info))
    decreases |info|
  {
    hide ReadInfo, At, EncodeText, Encoding, GoodInfo;
    if info == [] {
      NoInfoAt(buf, off);
    } else {
      var k, v, rest := EncodeText(info[0].key), EncodeText(info[0].val), EncodeInfo(info[1..]);
      assert k + (v + rest) == (k + v) + rest;
      AtSplit(buf, off, k + v, rest);
      PrependFirst(info, off + |EncodeInfo(info)|);
      InfoAt(buf, off + |k| + |v|, info[1..]);
      InfoItemAt(buf, off, info[0]);
    }
  }

  lemma BodyAt(buf: Bytes, off: nat, b: PostBody)
    requires At(buf, off, EncodeBody(b)) && GoodBody(b)
    ensures DecodeBody(buf, off, PostType(b)) == Ok((off + |EncodeBody(b)|, b))
  {
    hide ReadVarint, ReadText, ReadHashes, ReadChannel, ReadInfo, At, EncodeText, Encoding, EncodeHashes;
    hide EncodeInfo, ValidChannel, ValidTopic, Utf8.Valid;
    match b
    case TextPost(c, t) =>
      AtSplit(buf, off, EncodeText(c), EncodeText(t));
      ChannelAt(buf, off, c);
      TextAt(buf, off + |EncodeText(c)|, t);
    case Delete(hs) =>
      AtSplit(buf, off, Encoding(|hs|), EncodeHashes(hs));
      VarintAt(buf, off, |hs|);
      HashesAt(buf, off + |Encoding(|hs|)|, hs);
    case Info(info) => InfoAt(buf, off, info);
    case Topic(c, t) =>
      AtSplit(buf, off, EncodeText(c), EncodeText(t));
      ChannelAt(buf, off, c);
      TextAt(buf, off + |EncodeText(c)|, t);
    case Join(c) => ChannelAt(buf, off, c);
    case Leave(c) => ChannelAt(buf, off, c);
  }

  lemma LinksAt(buf: Bytes, off: nat, p: Post)
    requires At(buf, off, EncodeLinks(p)) && |p.header.links| < LIMIT
    ensures ReadVarint(buf, off) == Ok((off + |Encoding(|p.header.links|)|, |p.header.links|))
    ensures ReadHashes(buf, off + |Encoding(|p.header.links|)|, |p.header.links|)
         == Ok((off + |EncodeLinks(p)|, p.header.links))
  {
    hide ReadVarint, ReadHashes, At, Encoding, EncodeHashes;
    var n := Encoding(|p.header.links|);
    AtSplit(buf, off, n, EncodeHashes(p.header.links));
    VarintAt(buf, off, |p.header.links|);
    HashesAt(buf, off + |n|, p.header.links);
  }

  lemma PostAt(buf: Bytes, p: Post)
    requires WellFormed(p) && At(buf, 0, Encode(p))
    ensures Decode(buf) == Ok((|Encode(p)|, p))
  {
    hide ReadVarint, ReadHashes, ReadExact, DecodeBody, At, Encoding, EncodeLinks, EncodeBody, GoodBody;
    var h, t, ts := p.header, Encoding(PostType(p.body)), Encoding(p.header.timestamp);
    AtSplit(buf, 0, h.publicKey, h.signature + EncodeSigned(p));
    ExactAt(buf, 0, h.publicKey);
    AtSplit(buf, 32, h.signature, EncodeSigned(p));
    ExactAt(buf, 32, h.signature);
    AtSplit(buf, 96, EncodeLinks(p), t + (ts + EncodeBody(p.body)));
    LinksAt(buf, 96, p);
    var o := 96 + |EncodeLinks(p)|;
    AtSplit(buf, o, t, ts + EncodeBody(p.body));
    VarintAt(buf, o, PostType(p.body));
    o := o + |t|;
    AtSplit(buf, o, ts, EncodeBody(p.body));
    VarintAt(buf, o, h.timestamp);
    BodyAt(buf, o + |ts|, p.body);
  }

  /** Decoding the encoding of a well-formed post, with anything behind it, gives it back. */
  lemma RoundTrip(p: Post, tail: Bytes)
    requires WellFormed(p)
    ensures Decode(Encode(p) + tail) == Ok((CountBytes(p), p))
  {
    hide Decode, Encode, WellFormed;
    assert At(Encode(p) + tail, 0, Encode(p));
    PostAt(Encode(p) + tail, p);
    CountExact(p);
  }

  /** The decoder produces nothing but well-formed posts and unrecognized types. */
  lemma DecodedWellFormed(buf: Bytes)
    requires Decode(buf).Ok? && !Decode(buf).value.1.body.UnrecognizedPost?
    ensures WellFormed(Decode(buf).value.1)
  {
    hide ReadVarint, ReadText, ReadHashes, ReadChannel, ReadInfo, ReadExact, DecodeHeader;
    hide GoodChannel, ValidChannel, ValidTopic, Utf8.Valid;
  }

  /** A writable post survives the wire exactly when it is well formed. */
  lemma RoundTripExactly(p: Post, tail: Bytes)
    requires !p.body.UnrecognizedPost?
    ensures Decode(Encode(p) + tail) == Ok((CountBytes(p), p)) <==> WellFormed(p)
  {
    hide Decode, Encode, WellFormed, CountBytes;
    if WellFormed(p) {
      RoundTrip(p, tail);
    } else if Decode(Encode(p) + tail) == Ok((CountBytes(p), p)) {
      DecodedWellFormed(Encode(p) + tail);
    }
  }

  /** No encoding of a well-formed post begins another: the encoding is injective and prefix-free. */
  lemma PrefixFree(p: Post, q: Post, tail: Bytes)
    requires WellFormed(p) && WellFormed(q)
    requires Encode(q) == Encode(p) + tail
    ensures p == q && tail == []
  {
    hide Decode, Encode, WellFormed, CountBytes;
    RoundTrip(p, tail);
    assert Encode(q) + [] == Encode(q);
    RoundTrip(q, []);
    CountExact(p);
    CountExact(q);
  }

  // Hash, sign and verify.

  function HashOf(c: Crypto, p: Post): Hash {
    c.digest(Encode(p))
  }

  function WithSignature(p: Post, s: Bytes64): Post {
    p.(header := p.header.(signature := s))
  }

  function Sign(c: Crypto, p: Post, sk: Bytes64): Post {
    WithSignature(p, c.sign(Encode(p)[96..], sk))
  }

  predicate Verify(c: Crypto, buf: Bytes) {
    |buf| >= 96 && c.verify(buf[32..96], buf[96..], buf[..32])
  }

  /** Where the parts of an encoding stand; the bytes from 96 on are the same under every signature. */
  lemma SignedPart(p: Post)
    ensures |Encode(p)| >= 96
    ensures Encode(p)[..32] == p.header.publicKey
    ensures Encode(p)[32..96] == p.header.signature
    ensures Encode(p)[96..] == EncodeSigned(p)
    ensures forall s: Bytes64 :: Encode(WithSignature(p, s))[96..] == Encode(p)[96..]
  {
    forall s: Bytes64 ensures EncodeSigned(WithSignature(p, s)) == EncodeSigned(p) {
    }
    hide EncodeSigned;
  }

  /** Verification of the encoding asks for a signature of the part that holds no signature. */
  lemma VerifyMeaning(c: Crypto, p: Post)
    ensures Verify(c, Encode(p)) <==> c.verify(p.header.signature, EncodeSigned(p), p.header.publicKey)
  {
    hide Encode, EncodeSigned;
    SignedPart(p);
  }

  /** A post signed with the key of its author verifies, whatever signature it held before. */
  lemma SignThenVerify(c: Crypto, p: Post, sk: Bytes64)
    requires Lawful(c) && c.publicOf(sk) == p.header.publicKey
    ensures Verify(c, Encode(Sign(c, p, sk)))
    ensures WellFormed(p) ==> WellFormed(Sign(c, p, sk))
  {
    hide Encode, GoodBody;
    SignedPart(p);
    SignedPart(Sign(c, p, sk));
    VerifyMeaning(c, Sign(c, p, sk));
    assert EncodeSigned(p) == EncodeSigned(Sign(c, p, sk));
  }

  /** `is_signed`: the scan for a non-zero byte. */
  method IsSigned(p: Post) returns (r: bool)
    ensures r <==> p.header.signature != seq(64, _ => 0)
  {
    for i := 0 to |p.header.signature|
      invariant forall j | 0 <= j < i :: p.header.signature[j] == 0
    {
      if p.header.signature[i] != 0 {
        return true;
      }
    }
    assert p.header.signature == seq(64, _ => 0);
    return false;
  }

  // write_bytes

  method PutInfo(buf: array<Byte>, off: nat, info: seq<UserInfo>) returns (r: Result<nat>)
    requires off <= buf.Length
    modifies buf
    ensures r.Ok? <==> off + |EncodeInfo(info)| <= buf.Length
    ensures r.Ok? ==> r.value == off + |EncodeInfo(info)| && buf[..] == Over(old(buf[..]), off, EncodeInfo(info))
  {
    hide EncodeText, Encoding, Over;
    ghost var was := buf[..];
    ghost var done: Bytes := [];
    OverNothing(was, off);
    var o := off;
    for i := 0 to |info|
      invariant o == off + |done| <= buf.Length
      invariant buf[..] == Over(was, off, done)
      invariant EncodeInfo(info) == done + EncodeInfo(info[i..])
    {
      ghost var k, v := EncodeText(info[i].key), EncodeText(info[i].val);
      assert info[i..][1..] == info[i + 1..];
      assert EncodeInfo(info[i..]) == k + (v + EncodeInfo(info[i + 1..]));
      assert EncodeInfo(info) == done + k + v + EncodeInfo(info[i + 1..]);
      o :- PutText(buf, o, info[i].key);
      OverOver(was, off, done, k);
      o :- PutText(buf, o, info[i].val);
      OverOver(was, off, done + k, v);
      done := done + k + v;
    }
    assert info[|info|..] == [];
    r := PutVarint(buf, o, 0);
    if r.Ok? {
      OverOver(was, off, done, Encoding(0));
    }
  }

  method PutTwoTexts(buf: array<Byte>, off: nat, a: Text, b: Text) returns (r: Result<nat>)
    requires off <= buf.Length
    modifies buf
    ensures r.Ok? <==> off + |EncodeText(a) + EncodeText(b)| <= buf.Length
    ensures r.Ok? ==> r.value == off + |EncodeText(a) + EncodeText(b)|
    ensures r.Ok? ==> buf[..] == Over(old(buf[..]), off, EncodeText(a) + EncodeText(b))
  {
    hide Over, EncodeText;
    ghost var was := buf[..];
    var o :- PutText(buf, off, a);
    r := PutText(buf, o, b);
    if r.Ok? {
      OverOver(was, off, EncodeText(a), EncodeText(b));
    }
  }

  method PutHashList(buf: array<Byte>, off: nat, hs: seq<Hash>) returns (r: Result<nat>)
    requires off <= buf.Length
    modifies buf
    ensures r.Ok? <==> off + |Encoding(|hs|) + EncodeHashes(hs)| <= buf.Length
    ensures r.Ok? ==> r.value == off + |Encoding(|hs|) + EncodeHashes(hs)|
    ensures r.Ok? ==> buf[..] == Over(old(buf[..]), off, Encoding(|hs|) + EncodeHashes(hs))
  {
    hide Over, Encoding, EncodeHashes;
    ghost var was := buf[..];
    var o :- PutVarint(buf, off, |hs|);
    r := PutHashes(buf, o, hs);
    if r.Ok? {
      OverOver(was, off, Encoding(|hs|), EncodeHashes(hs));
    }
  }

  method WriteHeader(p: Post, buf: array<Byte>) returns (r: Result<nat>)
    modifies buf
    ensures var e := HeaderBytes(p);
            && (r.Ok? <==> |e| <= buf.Length)
            && (r.Ok? ==> r.value == |e| && buf[..] == Over(old(buf[..]), 0, e))
  {
    hide Over, Encoding, EncodeHashes;
    ghost var was := buf[..];
    ghost var (a, b, c) := (p.header.publicKey, p.header.signature, EncodeLinks(p));
    ghost var (d, e) := (Encoding(PostType(p.body)), Encoding(p.header.timestamp));
    var o :- PutBytes(buf, 0, p.header.publicKey);
    o :- PutBytes(buf, o, p.header.signature);
    OverOver(was, 0, a, b);
    o :- PutHashList(buf, o, p.header.links);
    OverOver(was, 0, a + b, c);
    o :- PutVarint(buf, o, PostType(p.body));
    OverOver(was, 0, a + b + c, d);
    r := PutVarint(buf, o, p.header.timestamp);
    if r.Ok? {
      OverOver(was, 0, a + b + c + d, e);
    }
  }

  ghost function HeaderBytes(p: Post): Bytes {
    p.header.publicKey + p.header.signature + EncodeLinks(p) + Encoding(PostType(p.body))
    + Encoding(p.header.timestamp)
  }

  lemma HeaderThenBody(p: Post)
    ensures Encode(p) == HeaderBytes(p) + EncodeBody(p.body)
  {
    hide EncodeLinks, Encoding, EncodeBody;
  }

  method WriteBody(b: PostBody, buf: array<Byte>, off: nat) returns (r: Result<nat>)
    requires off <= buf.Length
    modifies buf
    ensures r.Ok? <==> !b.UnrecognizedPost? && off + |EncodeBody(b)| <= buf.Length
    ensures r.Ok? ==> r.value == off + |EncodeBody(b)| && buf[..] == Over(old(buf[..]), off, EncodeBody(b))
  {
    hide Over, EncodeText, Encoding, EncodeHashes, EncodeInfo;
    match b
    case TextPost(c, t) => r := PutTwoTexts(buf, off, c, t);
    case Delete(hs) => r := PutHashList(buf, off, hs);
    case Info(info) => r := PutInfo(buf, off, info);
    case Topic(c, t) => r := PutTwoTexts(buf, off, c, t);
    case Join(c) => r := PutText(buf, off, c);
    case Leave(c) => r := PutText(buf, off, c);
    case UnrecognizedPost(_) => return Err(UnrecognizedType);
  }

  /** `write_bytes`: succeeds exactly when the counted size fits, and writes exactly that many bytes. */
  method WriteBytes(p: Post, buf: array<Byte>) returns (r: Result<nat>)
    modifies buf
    ensures r.Ok? <==> !p.body.UnrecognizedPost? && CountBytes(p) <= buf.Length
    ensures r.Ok? ==> r.value == CountBytes(p) == |Encode(p)|
    ensures r.Ok? ==> buf[..] == Over(old(buf[..]), 0, Encode(p))
  {
    hide Over, Encode, EncodeBody, HeaderBytes, CountBytes;
    CountExact(p);
    HeaderThenBody(p);
    ghost var was := buf[..];
    var o :- WriteHeader(p, buf);
    r := WriteBody(p.body, buf, o);
    if r.Ok? {
      OverOver(was, 0, HeaderBytes(p), EncodeBody(p.body));
    }
  }

  /** `to_bytes`: a buffer of the counted size is filled completely. */
  method ToBytes(p: Post) returns (r: Result<Bytes>)
    ensures r == if p.body.UnrecognizedPost? then Err(UnrecognizedType) else Ok(Encode(p))
  {
    hide Over, Encode, CountBytes;
    var buf := new Byte[CountBytes(p)](_ => 0);
    CountExact(p);
    ghost var was := buf[..];
    var n := WriteBytes(p, buf);
    if n.Err? {
      return Err(UnrecognizedType);
    }
    OverAll(was, Encode(p));
    return Ok(buf[..]);
  }

  // from_bytes

  method ReadInfoLoop(buf: Bytes, off: nat) returns (r: Result<(nat, seq<UserInfo>)>)
    requires off <= |buf|
    ensures r == ReadInfo(buf, off)
  {
    hide ReadVarint, ReadText, ReadExact, Utf8.Valid, ValidName;
    var o, info: seq<UserInfo> := off, [];
    PrependNil(ReadInfo(buf, off));
    while true
      invariant off <= o <= |buf|
      invariant ReadInfo(buf, off) == Prepend(info, ReadInfo(buf, o))
      decreases |buf| - o
    {
      var n :- ReadVarint(buf, o);
      if n.1 == 0 {
        PrependEnd(info, n.0);
        return Ok((n.0, info));
      }
      var key :- ReadExact(buf, n.0, n.1);
      if !Utf8.Valid(key.1) {
        return Err(InvalidUtf8);
      }
      var val :- ReadText(buf, key.0);
      if key.1 == NAME && !ValidName(val.1) {
        return Err(NameLength);
      }
      PrependPush(info, UserInfo(key.1, val.1), ReadInfo(buf, val.0));
      info := info + [UserInfo(key.1, val.1)];
      o := val.0;
    }
  }

  method FromBytes(buf: Bytes) returns (r: Result<(nat, Post)>)
    ensures r == Decode(buf)
  {
    hide ReadVarint, ReadText, ReadExact, ReadHashes, ReadInfo, ReadChannel, ValidTopic, Utf8.Valid;
    var pk :- ReadExact(buf, 0, 32);
    var sig :- ReadExact(buf, pk.0, 64);
    var n :- ReadVarint(buf, sig.0);
    var links := ReadHashLoop(buf, n.0, n.1);
    if links.Err? { return Err(links.error); }
    var t :- ReadVarint(buf, links.value.0);
    var ts :- ReadVarint(buf, t.0);
    var h := PostHeader(pk.1, sig.1, links.value.1, t.1, ts.1);
    var off := ts.0;
    if h.postType == TEXT_POST {
      var c :- ReadChannel(buf, off);
      var x :- ReadText(buf, c.0);
      if !ValidText(x.1) { return Err(TextLength); }
      return Ok((x.0, Post(h, TextPost(c.1, x.1))));
    } else if h.postType == DELETE_POST {
      var k :- ReadVarint(buf, off);
      var hs := ReadHashLoop(buf, k.0, k.1);
      if hs.Err? { return Err(hs.error); }
      return Ok((hs.value.0, Post(h, Delete(hs.value.1))));
    } else if h.postType == INFO_POST {
      var info := ReadInfoLoop(buf, off);
      if info.Err? { return Err(info.error); }
      return Ok((info.value.0, Post(h, Info(info.value.1))));
    } else if h.postType == TOPIC_POST {
      var c :- ReadChannel(buf, off);
      var x :- ReadText(buf, c.0);
      if !ValidTopic(x.1) { return Err(TopicLength); }
      return Ok((x.0, Post(h, Topic(c.1, x.1))));
    } else if h.postType == JOIN_POST {
      var c :- ReadChannel(buf, off);
      return Ok((c.0, Post(h, Join(c.1))));
    } else if h.postType == LEAVE_POST {
      var c :- ReadChannel(buf, off);
      return Ok((c.0, Post(h, Leave(c.1))));
    }
    return Ok((off, Post(h, UnrecognizedPost(h.postType))));
  }
}
