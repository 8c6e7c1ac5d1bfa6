/**
 * The bytes of messages and posts, field by field (cable/src/message.rs, cable/src/post.rs), of request
 * identifiers and of Noise lengths, and the limits on texts (cable/src/validation.rs).
 */
module Layout {
  import opened Wire
  import V = Varint
  import C = Cursor
  import M = Messages
  import P = Posts
  import Utf8
  import Desert
  import Noise
  import Manager

  /** A number written as a varint, or bytes written as they are. */
  datatype Field = Num(number: nat) | Raw(bytes: Bytes)

  ghost predicate SpellsField(s: Bytes, f: Field) {
    if f.Num? then V.IsVarint(s, f.number) else s == f.bytes
  }

  /** The bytes are those fields, one behind the other, and nothing else. */
  ghost predicate Spells(s: Bytes, fs: seq<Field>) {
    if fs == [] then s == []
    else exists k :: 0 <= k <= |s| && SpellsField(s[..k], fs[0]) && Spells(s[k..], fs[1..])
  }

  function Counted(s: Bytes): seq<Field> {
    [Num(|s|), Raw(s)]
  }

  function Raws(hs: seq<Hash>): seq<Field> {
    if hs == [] then [] else [Raw(hs[0])] + Raws(hs[1..])
  }

  function Chunks(cs: seq<Bytes>): seq<Field> {
    if cs == [] then [Num(0)] else Counted(cs[0]) + Chunks(cs[1..])
  }

  // The fields of a message behind its length.

  function Head(t: nat, m: M.Message): seq<Field> {
    [Num(t), Raw(m.header.circuitId), Raw(m.header.reqId)]
  }

  function MessageFields(m: M.Message): seq<Field>
    requires !m.body.Unrecognized?
  {
    match m.body
    case Response(HashResponse(hs)) => Head(0, m) + ([Num(|hs|)] + Raws(hs))
    case Response(PostResponse(ps)) => Head(1, m) + Chunks(ps)
    case Request(ttl, PostRequest(hs)) => Head(2, m) + ([Num(ttl), Num(|hs|)] + Raws(hs))
    case Request(ttl, Cancel(id)) => Head(3, m) + [Num(ttl), Raw(id)]
    case Request(ttl, ChannelTimeRange(c, start, end, limit)) =>
      Head(4, m) + ([Num(ttl), Num(|c|), Raw(c)] + [Num(start), Num(end), Num(limit)])
    case Request(ttl, ChannelState(c, future)) => Head(5, m) + ([Num(ttl), Num(|c|), Raw(c)] + [Num(future)])
    case Request(ttl, ChannelList(skip, limit)) => Head(6, m) + [Num(ttl), Num(skip), Num(limit)]
    case Response(ChannelListResponse(cs)) => Head(7, m) + Chunks(cs)
  }

  // The fields of a post.

  function InfoFields(info: seq<P.UserInfo>): seq<Field> {
    if info == [] then [Num(0)] else Counted(info[0].key) + (Counted(info[0].val) + InfoFields(info[1..]))
  }

  function PostType(b: P.PostBody): nat
    requires !b.UnrecognizedPost?
  {
    match b
    case TextPost(_, _) => 0
    case Delete(_) => 1
    case Info(_) => 2
    case Topic(_, _) => 3
    case Join(_) => 4
    case Leave(_) => 5
  }

  function BodyFields(b: P.PostBody): seq<Field>
    requires !b.UnrecognizedPost?
  {
    match b
    case TextPost(c, t) => Counted(c) + Counted(t)
    case Delete(hs) => [Num(|hs|)] + Raws(hs)
    case Info(info) => InfoFields(info)
    case Topic(c, t) => Counted(c) + Counted(t)
    case Join(c) => Counted(c)
    case Leave(c) => Counted(c)
  }

  function PostFields(p: P.Post): seq<Field>
    requires !p.body.UnrecognizedPost?
  {
    [Raw(p.header.publicKey), Raw(p.header.signature)]
    + (([Num(|p.header.links|)] + Raws(p.header.links))
       + ([Num(PostType(p.body)), Num(p.header.timestamp)] + BodyFields(p.body)))
  }

  // The fields determine the bytes.

  lemma VarintUnique(a: Bytes, b: Bytes, v: nat)
    requires V.IsVarint(a, v) && V.IsVarint(b, v)
    ensures a == b
  {
    if |a| < |b| {
      V.Pow128Grows(|a|, |b| - 1);
    } else if |b| < |a| {
      V.Pow128Grows(|b|, |a| - 1);
    }
  }

  lemma FieldUnique(a: Bytes, b: Bytes, f: Field)
    requires SpellsField(a, f) && SpellsField(b, f)
    ensures a == b
  {
    hide V.IsVarint;
    if f.Num? {
      VarintUnique(a, b, f.number);
    }
  }

  lemma {:induction false} SpellingUnique(s: Bytes, t: Bytes, fs: seq<Field>)
    requires Spells(s, fs) && Spells(t, fs)
    ensures s == t
    decreases |fs|
  {
    hide SpellsField;
    if fs != [] {
      var j :| 0 <= j <= |s| && SpellsField(s[..j], fs[0]) && Spells(s[j..], fs[1..]);
      var k :| 0 <= k <= |t| && SpellsField(t[..k], fs[0]) && Spells(t[k..], fs[1..]);
      hide Spells;
      FieldUnique(s[..j], t[..k], fs[0]);
      SpellingUnique(s[j..], t[k..], fs[1..]);
      Halves(s, j);
      Halves(t, k);
    }
  }

  lemma Halves(s: Bytes, k: nat)
    requires k <= |s|
    ensures s == s[..k] + s[k..]
  {
  }

  // Writing fields.

  function WriteField(f: Field): Bytes {
    if f.Num? then V.Encoding(f.number) else f.bytes
  }

  function Write(fs: seq<Field>): Bytes {
    if fs == [] then [] else WriteField(fs[0]) + Write(fs[1..])
  }

  lemma {:induction false} WriteSpells(fs: seq<Field>)
    ensures Spells(Write(fs), fs)
    decreases |fs|
  {
    hide V.IsVarint, V.Encoding;
    if fs != [] {
      var a, rest := WriteField(fs[0]), Write(fs[1..]);
      if fs[0].Num? {
        V.EncodingDigits(fs[0].number);
      }
      WriteSpells(fs[1..]);
      assert (a + rest)[..|a|] == a && (a + rest)[|a|..] == rest;
      assert SpellsField(Write(fs)[..|a|], fs[0]) && Spells(Write(fs)[|a|..], fs[1..]);
    }
  }

  lemma {:induction false} WriteAppend(a: seq<Field>, b: seq<Field>)
    ensures Write(a + b) == Write(a) + Write(b)
    decreases |a|
  {
    hide WriteField;
    if a == [] {
      assert a + b == b;
    } else {
      WriteAppend(a[1..], b);
      assert (a + b)[0] == a[0] && (a + b)[1..] == a[1..] + b;
    }
  }

  lemma WriteFew(a: Field, b: Field, c: Field)
    ensures Write([a]) == WriteField(a)
    ensures Write([a, b]) == WriteField(a) + WriteField(b)
    ensures Write([a, b, c]) == WriteField(a) + (WriteField(b) + WriteField(c))
  {
    hide WriteField;
    var none: seq<Field> := [];
    assert [a][1..] == none && [b][1..] == none && [c][1..] == none;
    assert [a, b][1..] == [b] && [b, c][1..] == [c] && [a, b, c][1..] == [b, c];
    assert Write([a]) == WriteField(a) && Write([b]) == WriteField(b) && Write([c]) == WriteField(c);
  }

  lemma WriteCounted(s: Bytes)
    ensures Write(Counted(s)) == C.EncodeText(s)
  {
    hide V.Encoding;
    WriteFew(Num(|s|), Raw(s), Raw(s));
  }

  lemma {:induction false} WriteRaws(hs: seq<Hash>)
    ensures Write(Raws(hs)) == C.EncodeHashes(hs)
    decreases |hs|
  {
    if hs != [] {
      WriteRaws(hs[1..]);
      WriteFew(Raw(hs[0]), Raw(hs[0]), Raw(hs[0]));
      WriteAppend([Raw(hs[0])], Raws(hs[1..]));
    }
  }

  lemma WriteHashList(hs: seq<Hash>)
    ensures Write([Num(|hs|)] + Raws(hs)) == V.Encoding(|hs|) + C.EncodeHashes(hs)
  {
    hide V.Encoding, C.EncodeHashes, Raws;
    WriteRaws(hs);
    WriteFew(Num(|hs|), Num(0), Num(0));
    WriteAppend([Num(|hs|)], Raws(hs));
  }

  lemma {:induction false} WriteChunks(cs: seq<Bytes>)
    ensures Write(Chunks(cs)) == C.EncodeChunks(cs)
    decreases |cs|
  {
    hide V.Encoding, C.EncodeText, Counted;
    if cs == [] {
      WriteFew(Num(0), Num(0), Num(0));
    } else {
      WriteChunks(cs[1..]);
      WriteCounted(cs[0]);
      WriteAppend(Counted(cs[0]), Chunks(cs[1..]));
    }
  }

  lemma {:induction false} WriteInfo(info: seq<P.UserInfo>)
    ensures Write(InfoFields(info)) == P.EncodeInfo(info)
    decreases |info|
  {
    hide V.Encoding, C.EncodeText, Counted;
    if info == [] {
      WriteFew(Num(0), Num(0), Num(0));
    } else {
      WriteInfo(info[1..]);
      WriteCounted(info[0].key);
      WriteCounted(info[0].val);
      WriteAppend(Counted(info[0].val), InfoFields(info[1..]));
      WriteAppend(Counted(info[0].key), Counted(info[0].val) + InfoFields(info[1..]));
    }
  }

  // Messages.

  lemma WriteRequest(ttl: U8, b: M.RequestBody)
    ensures Write(match b
                  case PostRequest(hs) => [Num(ttl), Num(|hs|)] + Raws(hs)
                  case Cancel(id) => [Num(ttl), Raw(id)]
                  case ChannelTimeRange(c, start, end, limit) =>
                    [Num(ttl), Num(|c|), Raw(c)] + [Num(start), Num(end), Num(limit)]
                  case ChannelState(c, future) => [Num(ttl), Num(|c|), Raw(c)] + [Num(future)]
                  case ChannelList(skip, limit) => [Num(ttl), Num(skip), Num(limit)])
         == M.EncodeRequest(ttl, b)
  {
    hide V.Encoding, Write, C.EncodeHashes, Raws;
    match b
    case PostRequest(hs) =>
      WriteRaws(hs);
      WriteFew(Num(ttl), Num(|hs|), Num(0));
      WriteAppend([Num(ttl), Num(|hs|)], Raws(hs));
    case Cancel(id) => WriteFew(Num(ttl), Raw(id), Num(0));
    case ChannelTimeRange(c, start, end, limit) =>
      WriteFew(Num(ttl), Num(|c|), Raw(c));
      WriteFew(Num(start), Num(end), Num(limit));
      WriteAppend([Num(ttl), Num(|c|), Raw(c)], [Num(start), Num(end), Num(limit)]);
    case ChannelState(c, future) =>
      WriteFew(Num(ttl), Num(|c|), Raw(c));
      WriteFew(Num(future), Num(0), Num(0));
      WriteAppend([Num(ttl), Num(|c|), Raw(c)], [Num(future)]);
    case ChannelList(skip, limit) => WriteFew(Num(ttl), Num(skip), Num(limit));
  }

  lemma WriteMessage(m: M.Message)
    requires !m.body.Unrecognized?
    ensures Write(MessageFields(m)) == M.EncodeHeader(m) + M.EncodeBody(m.body)
  {
    hide V.Encoding, Write, C.EncodeHashes, Raws, C.EncodeChunks, Chunks, M.EncodeRequest;
    var t := M.MessageType(m.body);
    WriteFew(Num(t), Raw(m.header.circuitId), Raw(m.header.reqId));
    var rest := MessageFields(m)[3..];
    assert MessageFields(m) == Head(t, m) + rest;
    WriteAppend(Head(t, m), rest);
    match m.body
    case Request(ttl, b) => WriteRequest(ttl, b);
    case Response(HashResponse(hs)) => WriteHashList(hs);
    case Response(PostResponse(ps)) => WriteChunks(ps);
    case Response(ChannelListResponse(cs)) => WriteChunks(cs);
  }

  /** A message is the number of bytes behind it, one less inside the window, and then its fields. */
  ghost predicate Announced(s: Bytes, k: nat, fs: seq<Field>) {
    && k < |s| && Spells(s[k..], fs)
    && V.IsVarint(s[..k], if M.InWindow(|s| - k) then |s| - k - 1 else |s| - k)
  }

  lemma MessageLayout(m: M.Message)
    requires !m.body.Unrecognized?
    ensures exists k :: Announced(M.Encode(m), k, MessageFields(m))
  {
    hide V.Encoding, V.IsVarint, MessageFields, M.EncodeHeader, M.EncodeBody, M.Prefix, M.InWindow, Write, Spells;
    var p := V.Encoding(M.Prefix(m));
    WriteMessage(m);
    WriteSpells(MessageFields(m));
    M.PrefixExact(m);
    V.EncodingDigits(M.Prefix(m));
    assert M.Encode(m)[..|p|] == p && M.Encode(m)[|p|..] == Write(MessageFields(m));
    assert Announced(M.Encode(m), |p|, MessageFields(m));
  }

  // Posts.

  lemma WriteBody(b: P.PostBody)
    requires !b.UnrecognizedPost?
    ensures Write(BodyFields(b)) == P.EncodeBody(b)
  {
    hide V.Encoding, Write, C.EncodeHashes, C.EncodeText, Counted, Raws, InfoFields, P.EncodeInfo;
    match b
    case TextPost(c, t) =>
      WriteCounted(c);
      WriteCounted(t);
      WriteAppend(Counted(c), Counted(t));
    case Delete(hs) => WriteHashList(hs);
    case Info(info) => WriteInfo(info);
    case Topic(c, t) =>
      WriteCounted(c);
      WriteCounted(t);
      WriteAppend(Counted(c), Counted(t));
    case Join(c) => WriteCounted(c);
    case Leave(c) => WriteCounted(c);
  }

  lemma PostLayout(p: P.Post)
    requires !p.body.UnrecognizedPost?
    ensures Spells(P.Encode(p), PostFields(p))
  {
    hide V.Encoding, Write, Spells, C.EncodeHashes, Raws, BodyFields, P.EncodeBody;
    var h, links := p.header, [Num(|p.header.links|)] + Raws(p.header.links);
    var numbers, body := [Num(PostType(p.body)), Num(h.timestamp)], BodyFields(p.body);
    WriteHashList(h.links);
    WriteBody(p.body);
    WriteFew(Num(PostType(p.body)), Num(h.timestamp), Num(0));
    WriteFew(Raw(h.publicKey), Raw(h.signature), Num(0));
    WriteAppend(numbers, body);
    WriteAppend(links, numbers + body);
    WriteAppend([Raw(h.publicKey), Raw(h.signature)], links + (numbers + body));
    WriteSpells(PostFields(p));
    SamePost(h.publicKey, h.signature, P.EncodeLinks(p), V.Encoding(PostType(p.body)), V.Encoding(h.timestamp),
             P.EncodeBody(p.body));
  }

  lemma SamePost(a: Bytes, b: Bytes, c: Bytes, d: Bytes, e: Bytes, f: Bytes)
    ensures a + b + (c + (d + e + f)) == a + (b + (c + (d + (e + f))))
  {
  }

  // What the decoders make of a type.

  /** A message decodes as unrecognized exactly if its type is none of the eight. */
  lemma MessageTypes(buf: Bytes)
    requires M.Decode(buf).Ok?
    ensures var m := M.Decode(buf).value.1;
            if m.body.Unrecognized? then m.header.msgType == m.body.msgType > 7
            else exists rest :: MessageFields(m) == [Num(m.header.msgType)] + rest
  {
    hide C.ReadVarint, C.ReadText, C.ReadHashes, C.ReadChunks, C.ReadExact, Raws, Chunks;
    var m := M.Decode(buf).value.1;
    if !m.body.Unrecognized? {
      assert MessageFields(m) == [Num(m.header.msgType)] + MessageFields(m)[1..];
    }
  }

  lemma PostTypes(buf: Bytes)
    requires P.Decode(buf).Ok?
    ensures var p := P.Decode(buf).value.1;
            if p.body.UnrecognizedPost? then p.header.postType == p.body.postType > 5
            else p.header.postType == PostType(p.body)
  {
    hide C.ReadVarint, C.ReadText, C.ReadHashes, P.ReadChannel, P.ReadInfo, C.ReadExact, P.DecodeHeader;
  }

  // Limits.

  /** The texts of scalar values `cs` that a post may hold: counted in code points, only its text in bytes. */
  lemma LimitsExact(cs: seq<nat>)
    requires Utf8.Scalars(cs)
    ensures var t := Utf8.EncodeScalars(cs);
            && Utf8.Valid(t)
            && (P.GoodChannel(t) <==> 1 <= |cs| <= 64)
            && (P.GoodText(t) && P.ValidTopic(t) <==> |cs| <= 521)
            && (P.GoodText(t) && P.ValidName(t) <==> 1 <= |cs| <= 32)
            && (P.ValidText(t) <==> |t| <= 4096)
  {
    hide Utf8.Valid, Utf8.EncodeScalars, Utf8.Chars;
    Utf8.CharsExactly(cs);
    BytesOf(cs);
  }

  lemma {:induction false} BytesOf(cs: seq<nat>)
    requires Utf8.Scalars(cs)
    ensures |Utf8.EncodeScalars(cs)| <= 4 * |cs|
  {
    if cs != [] {
      BytesOf(cs[1..]);
    }
  }

  /** A pair of an info post is accepted exactly if it has a key and, for the key "name", a valid name. */
  lemma InfoExact(u: P.UserInfo)
    requires P.GoodText(u.key) && P.GoodText(u.val)
    ensures P.GoodInfo(u) <==> u.key != [] && (u.key == [110, 97, 109, 101] ==> P.ValidName(u.val))
  {
    hide Utf8.Valid, P.ValidName;
  }

  // Numbers of four bytes.

  lemma FourDigits(x: nat)
    ensures Desert.BigEndian(x, 4) == [x / 16777216 % 256, x / 65536 % 256, x / 256 % 256, x % 256]
  {
    assert Desert.Pow256(0) == 1 && Desert.Pow256(1) == 256 && Desert.Pow256(2) == 65536;
    assert Desert.Pow256(3) == 16777216;
    forall i | 0 <= i < 4 ensures Desert.BigEndian(x, 4)[3 - i] == x / Desert.Pow256(i) % 256 {
      Desert.BigEndianAt(x, 4, i);
    }
  }

  /** A request identifier is its number, the byte that counts most first. */
  lemma RequestIdBytes(n: nat)
    ensures Manager.ReqIdBytes(n) == Desert.BigEndian(n, 4)
  {
    FourDigits(n);
  }

  /** The length in front of a Noise message is written the other way round. */
  lemma LengthBytes(n: nat, i: nat)
    requires i < 4
    ensures Noise.Le4(n)[i] == Desert.BigEndian(n, 4)[3 - i]
  {
    FourDigits(n);
  }
}
