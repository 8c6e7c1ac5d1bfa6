/** The in-memory store as a value: its indexes, its updates and its queries (cable_core/src/store.rs). */
module Store {
  import opened Wire
  import opened Posts
  import opened History

  type TimeMap<V> = map<U64, V>

  datatype Store = Store(
    channels: set<Text>,
    members: map<Text, seq<Hash>>,
    exMembers: map<Text, seq<Hash>>,
    membership: map<Text, map<Hash, Hash>>,
    topics: map<Text, TimeMap<(Text, Hash)>>,
    deleteHashes: map<Hash, seq<Hash>>,
    infoHashes: map<Hash, seq<Hash>>,
    names: map<Hash, TimeMap<(Text, Hash)>>,
    posts: map<Option<Text>, TimeMap<seq<Entry>>>,
    payloads: map<Hash, Bytes>)

  const EMPTY: Store :=
    Store({}, map[], map[], map[], map[], map[], map[], map[], map[], map[])

  // Updates of a single index.

  function PushAt<K, V>(m: map<K, seq<V>>, k: K, v: V): map<K, seq<V>> {
    if k in m then m[k := m[k] + [v]] else m[k := [v]]
  }

  function PutAt<K, L, V>(m: map<K, map<L, V>>, k: K, l: L, v: V): map<K, map<L, V>> {
    if k in m then m[k := m[k][l := v]] else m[k := map[l := v]]
  }

  /** `retain(|x| x != h)` */
  function Retain(s: seq<Hash>, h: Hash): seq<Hash> {
    if s == [] then []
    else
      var before := Retain(s[..|s| - 1], h);
      if s[|s| - 1] == h then before else before + [s[|s| - 1]]
  }

  function RemoveMember(m: map<Text, seq<Hash>>, c: Text, key: Hash): map<Text, seq<Hash>> {
    if c in m then m[c := Retain(m[c], key)] else m
  }

  function RemoveMembership(m: map<Text, map<Hash, Hash>>, h: Hash): map<Text, map<Hash, Hash>> {
    map c | c in m :: map k | k in m[c] && m[c][k] != h :: m[c][k]
  }

  function RemoveTimed<K>(m: map<K, TimeMap<(Text, Hash)>>, h: Hash): map<K, TimeMap<(Text, Hash)>> {
    map c | c in m :: map t | t in m[c] && m[c][t].1 != h :: m[c][t]
  }

  function RemoveInfoHash(m: map<Hash, seq<Hash>>, h: Hash): map<Hash, seq<Hash>> {
    map k | k in m :: Retain(m[k], h)
  }

  function RemovePost(m: map<Option<Text>, TimeMap<seq<Entry>>>, h: Hash): map<Option<Text>, TimeMap<seq<Entry>>> {
    map c | c in m :: map t | t in m[c] :: Without(m[c][t], h)
  }

  function UpdatePosts(m: map<Option<Text>, TimeMap<seq<Entry>>>, key: Option<Text>, p: Post, h: Hash)
    : map<Option<Text>, TimeMap<seq<Entry>>>
  {
    var t := p.header.timestamp;
    var stored := if key in m && t in m[key] then m[key][t] else [];
    PutAt(m, key, t, stored + [(p, h)])
  }

  function InsertNames(m: map<Hash, TimeMap<(Text, Hash)>>, author: Hash, info: seq<UserInfo>, t: U64, h: Hash)
    : map<Hash, TimeMap<(Text, Hash)>>
  {
    if info == [] then m
    else
      var before := InsertNames(m, author, info[..|info| - 1], t, h);
      var u := info[|info| - 1];
      if u.key == NAME then PutAt(before, author, t, (u.val, h)) else before
  }

  // insert_post and delete_post.

  // What inserting a post does to each index.

  function ChannelsAfter(cs: set<Text>, p: Post): set<Text> {
    match ChannelOf(p)
    case Some(c) => cs + {c}
    case None => cs
  }

  /** The posts index holds text and topic posts under their channel, info posts under none. */
  function IndexKey(p: Post): Option<Option<Text>> {
    match p.body
    case TextPost(c, _) => Some(Some(c))
    case Topic(c, _) => Some(Some(c))
    case Info(_) => Some(None)
    case _ => None
  }

  lemma IndexKeyMeaning(p: Post, key: Option<Text>)
    ensures IndexKey(p) == Some(key) <==> BelongsTo(p, key)
  {
  }

  function PostsAfter(m: map<Option<Text>, TimeMap<seq<Entry>>>, p: Post, h: Hash)
    : map<Option<Text>, TimeMap<seq<Entry>>>
  {
    match IndexKey(p)
    case Some(key) => UpdatePosts(m, key, p, h)
    case None => m
  }

  function TopicsAfter(m: map<Text, TimeMap<(Text, Hash)>>, p: Post, h: Hash): map<Text, TimeMap<(Text, Hash)>> {
    match p.body
    case Topic(c, topic) => PutAt(m, c, p.header.timestamp, (topic, h))
    case _ => m
  }

  function NamesAfter(m: map<Hash, TimeMap<(Text, Hash)>>, p: Post, h: Hash): map<Hash, TimeMap<(Text, Hash)>> {
    match p.body
    case Info(info) => InsertNames(m, p.header.publicKey, info, p.header.timestamp, h)
    case _ => m
  }

  function InfosAfter(m: map<Hash, seq<Hash>>, p: Post, h: Hash): map<Hash, seq<Hash>> {
    match p.body
    case Info(_) => PushAt(m, p.header.publicKey, h)
    case _ => m
  }

  function MembershipAfter(m: map<Text, map<Hash, Hash>>, p: Post, h: Hash): map<Text, map<Hash, Hash>> {
    match p.body
    case Join(c) => PutAt(m, c, p.header.publicKey, h)
    case Leave(c) => PutAt(m, c, p.header.publicKey, h)
    case _ => m
  }

  /** `joined` says which of the two lists `m` is: members or ex-members. */
  function MembersAfter(m: map<Text, seq<Hash>>, p: Post, joined: bool): map<Text, seq<Hash>> {
    match p.body
    case Join(c) => if joined then PushAt(m, c, p.header.publicKey) else RemoveMember(m, c, p.header.publicKey)
    case Leave(c) => if joined then RemoveMember(m, c, p.header.publicKey) else PushAt(m, c, p.header.publicKey)
    case _ => m
  }

  function InsertStored(s: Store, p: Post, h: Hash): Store {
    Store(ChannelsAfter(s.channels, p),
          MembersAfter(s.members, p, true),
          MembersAfter(s.exMembers, p, false),
          MembershipAfter(s.membership, p, h),
          TopicsAfter(s.topics, p, h),
          s.deleteHashes,
          InfosAfter(s.infoHashes, p, h),
          NamesAfter(s.names, p, h),
          PostsAfter(s.posts, p, h),
          s.payloads[h := Encode(p)])
  }

  function DeletePost(s: Store, h: Hash): Store {
    s.(topics := RemoveTimed(s.topics, h), membership := RemoveMembership(s.membership, h),
       names := RemoveTimed(s.names, h), infoHashes := RemoveInfoHash(s.infoHashes, h),
       posts := RemovePost(s.posts, h), payloads := s.payloads - {h})
  }

  /** The loop over the hashes of a delete post whose own hash is `own`. */
  function DeleteListed(s: Store, author: Hash, hashes: seq<Hash>, own: Hash): (Store, Result<()>)
    decreases |hashes|
  {
    if hashes == [] then (s, Ok(()))
    else if hashes[0] !in s.payloads then DeleteListed(s, author, hashes[1..], own)
    else
      match Decode(s.payloads[hashes[0]])
      case Err(e) => (s, Err(e))
      case Ok(q) =>
        if q.1.header.publicKey != author then DeleteListed(s, author, hashes[1..], own)
        else
          var s := DeletePost(s, hashes[0]);
          DeleteListed(s.(deleteHashes := PushAt(s.deleteHashes, author, own)), author, hashes[1..], own)
  }

  function InsertPost(crypto: Crypto, s: Store, p: Post): (Store, Result<Hash>) {
    if p.body.UnrecognizedPost? then (s, Err(UnrecognizedType))
    else
      var h := HashOf(crypto, p);
      if p.body.Delete? then
        var (s1, r) := DeleteListed(s, p.header.publicKey, p.body.hashes, h);
        if r.Err? then (s1, Err(r.error)) else (InsertStored(s1, p, h), Ok(h))
      else (InsertStored(s, p, h), Ok(h))
  }

  /** The store after inserting `ps` in order into an empty one. */
  function Run(crypto: Crypto, ps: seq<Post>): Store {
    if ps == [] then EMPTY else InsertPost(crypto, Run(crypto, ps[..|ps| - 1]), ps[|ps| - 1]).0
  }

  // What each index holds, and what the history says it should hold.

  ghost predicate PayloadsAgree(m: map<Hash, Bytes>, ev: seq<Event>) {
    forall k: Hash :: PayloadAgrees(m, ev, k)
  }

  ghost predicate PayloadAgrees(m: map<Hash, Bytes>, ev: seq<Event>, k: Hash) {
    var slot := Slot(ev, PayloadOf(k));
    && (k in m <==> slot.Some?)
    && (k in m ==> m[k] == Encode(slot.value.0))
  }

  ghost function EntriesAt(m: map<Option<Text>, TimeMap<seq<Entry>>>, key: Option<Text>, t: U64): seq<Entry> {
    if key in m && t in m[key] then m[key][t] else []
  }

  ghost predicate PostsAgree(m: map<Option<Text>, TimeMap<seq<Entry>>>, ev: seq<Event>) {
    forall key: Option<Text>, t: U64 :: PostAgrees(m, ev, key, t)
  }

  ghost predicate PostAgrees(m: map<Option<Text>, TimeMap<seq<Entry>>>, ev: seq<Event>, key: Option<Text>, t: U64) {
    && EntriesAt(m, key, t) == Log(ev, IndexedAt(key, t))
    && ((key in m && t in m[key]) <==> Latest(ev, IndexedAt(key, t)).Some?)
    && (key in m <==> Latest(ev, PostIn(key)).Some?)
  }

  ghost function TimedAt<K>(m: map<K, TimeMap<(Text, Hash)>>, k: K, t: U64): Option<(Text, Hash)> {
    if k in m && t in m[k] then Some(m[k][t]) else None
  }

  ghost predicate TopicsAgree(m: map<Text, TimeMap<(Text, Hash)>>, ev: seq<Event>) {
    forall c: Text, t: U64 :: TimedAt(m, c, t) == Slot(ev, TopicAt(c, t))
  }

  ghost predicate NamesAgree(m: map<Hash, TimeMap<(Text, Hash)>>, ev: seq<Event>) {
    forall k: Hash, t: U64 :: TimedAt(m, k, t) == Slot(ev, NameAt(k, t))
  }

  ghost function MoveHash(m: map<Text, map<Hash, Hash>>, c: Text, k: Hash): Option<Hash> {
    if c in m && k in m[c] then Some(m[c][k]) else None
  }

  ghost function SlotHash<V>(slot: Option<(V, Hash)>): Option<Hash> {
    if slot.Some? then Some(slot.value.1) else None
  }

  ghost predicate MembershipAgrees(m: map<Text, map<Hash, Hash>>, ev: seq<Event>) {
    forall c: Text, k: Hash :: MoveHash(m, c, k) == SlotHash(Slot(ev, MoveOf(c, k)))
  }

  ghost predicate Listed(m: map<Text, seq<Hash>>, c: Text, k: Hash) {
    c in m && k in m[c]
  }

  ghost predicate MembersAgree(m: map<Text, seq<Hash>>, ev: seq<Event>, joined: bool) {
    forall c: Text, k: Hash :: Listed(m, c, k) <==> Latest(ev, MoveOf(c, k)) == Some(joined)
  }

  ghost function HashesOf<V>(es: seq<(V, Hash)>): seq<Hash> {
    seq(|es|, i requires 0 <= i < |es| => es[i].1)
  }

  ghost function InfosOf(m: map<Hash, seq<Hash>>, k: Hash): seq<Hash> {
    if k in m then m[k] else []
  }

  ghost predicate InfosAgree(m: map<Hash, seq<Hash>>, ev: seq<Event>) {
    forall k: Hash :: InfosOf(m, k) == HashesOf(Log(ev, InfoBy(k)))
  }

  /** Every index of the store is what the history says. */
  ghost predicate Agree(s: Store, ev: seq<Event>) {
    && PayloadsAgree(s.payloads, ev)
    && PostsAgree(s.posts, ev)
    && TopicsAgree(s.topics, ev)
    && NamesAgree(s.names, ev)
    && MembershipAgrees(s.membership, ev)
    && MembersAgree(s.members, ev, true)
    && MembersAgree(s.exMembers, ev, false)
    && InfosAgree(s.infoHashes, ev)
  }

  // Dropping.

  lemma {:induction false} RetainIn(s: seq<Hash>, h: Hash, x: Hash)
    ensures x in Retain(s, h) <==> x in s && x != h
  {
    if s != [] {
      RetainIn(s[..|s| - 1], h, x);
      assert s == s[..|s| - 1] + [s[|s| - 1]];
    }
  }

  lemma {:induction false} RetainHashes<V>(es: seq<(V, Hash)>, h: Hash)
    ensures Retain(HashesOf(es), h) == HashesOf(Without(es, h))
  {
    if es != [] {
      RetainHashes(es[..|es| - 1], h);
      assert HashesOf(es)[..|es| - 1] == HashesOf(es[..|es| - 1]);
    }
  }

  lemma PayloadsDrop(m: map<Hash, Bytes>, ev: seq<Event>, h: Hash)
    requires PayloadsAgree(m, ev)
    ensures PayloadsAgree(m - {h}, ev + [Drop(h)])
  {
    hide Slot, Encode;
    var m', ev' := m - {h}, ev + [Drop(h)];
    forall k: Hash ensures PayloadAgrees(m', ev', k) {
      assert PayloadAgrees(m, ev, k);
      SlotDrop(ev, h, PayloadOf(k));
      PayloadKey(ev, k);
    }
  }

  lemma PostsDrop(m: map<Option<Text>, TimeMap<seq<Entry>>>, ev: seq<Event>, h: Hash)
    requires PostsAgree(m, ev)
    ensures PostsAgree(RemovePost(m, h), ev + [Drop(h)])
  {
    hide Log, Latest;
    forall key: Option<Text>, t: U64 ensures PostAgrees(RemovePost(m, h), ev + [Drop(h)], key, t) {
      assert PostAgrees(m, ev, key, t);
      LogDrop(ev, h, IndexedAt(key, t));
      LatestDrop(ev, h, IndexedAt(key, t));
      LatestDrop(ev, h, PostIn(key));
    }
  }

  lemma TopicsDrop(m: map<Text, TimeMap<(Text, Hash)>>, ev: seq<Event>, h: Hash)
    requires TopicsAgree(m, ev)
    ensures TopicsAgree(RemoveTimed(m, h), ev + [Drop(h)])
  {
    hide Slot;
    forall c: Text, t: U64 ensures TimedAt(RemoveTimed(m, h), c, t) == Slot(ev + [Drop(h)], TopicAt(c, t)) {
      assert TimedAt(m, c, t) == Slot(ev, TopicAt(c, t));
      SlotDrop(ev, h, TopicAt(c, t));
    }
  }

  lemma NamesDrop(m: map<Hash, TimeMap<(Text, Hash)>>, ev: seq<Event>, h: Hash)
    requires NamesAgree(m, ev)
    ensures NamesAgree(RemoveTimed(m, h), ev + [Drop(h)])
  {
    hide Slot;
    forall k: Hash, t: U64 ensures TimedAt(RemoveTimed(m, h), k, t) == Slot(ev + [Drop(h)], NameAt(k, t)) {
      assert TimedAt(m, k, t) == Slot(ev, NameAt(k, t));
      SlotDrop(ev, h, NameAt(k, t));
    }
  }

  lemma MembershipDrop(m: map<Text, map<Hash, Hash>>, ev: seq<Event>, h: Hash)
    requires MembershipAgrees(m, ev)
    ensures MembershipAgrees(RemoveMembership(m, h), ev + [Drop(h)])
  {
    hide Slot;
    forall c: Text, k: Hash
      ensures MoveHash(RemoveMembership(m, h), c, k) == SlotHash(Slot(ev + [Drop(h)], MoveOf(c, k)))
    {
      assert MoveHash(m, c, k) == SlotHash(Slot(ev, MoveOf(c, k)));
      SlotDrop(ev, h, MoveOf(c, k));
    }
  }

  lemma MembersDrop(m: map<Text, seq<Hash>>, ev: seq<Event>, h: Hash, joined: bool)
    requires MembersAgree(m, ev, joined)
    ensures MembersAgree(m, ev + [Drop(h)], joined)
  {
    hide Latest;
    forall c: Text, k: Hash ensures Listed(m, c, k) <==> Latest(ev + [Drop(h)], MoveOf(c, k)) == Some(joined) {
      assert Listed(m, c, k) <==> Latest(ev, MoveOf(c, k)) == Some(joined);
      LatestDrop(ev, h, MoveOf(c, k));
    }
  }

  lemma InfosDrop(m: map<Hash, seq<Hash>>, ev: seq<Event>, h: Hash)
    requires InfosAgree(m, ev)
    ensures InfosAgree(RemoveInfoHash(m, h), ev + [Drop(h)])
  {
    hide Log, HashesOf;
    forall k: Hash ensures InfosOf(RemoveInfoHash(m, h), k) == HashesOf(Log(ev + [Drop(h)], InfoBy(k))) {
      assert InfosOf(m, k) == HashesOf(Log(ev, InfoBy(k)));
      LogDrop(ev, h, InfoBy(k));
      RetainHashes(Log(ev, InfoBy(k)), h);
    }
  }

  lemma AgreeDrop(s: Store, ev: seq<Event>, h: Hash)
    requires Agree(s, ev)
    ensures Agree(DeletePost(s, h), ev + [Drop(h)])
  {
    PayloadsDrop(s.payloads, ev, h);
    PostsDrop(s.posts, ev, h);
    TopicsDrop(s.topics, ev, h);
    NamesDrop(s.names, ev, h);
    MembershipDrop(s.membership, ev, h);
    MembersDrop(s.members, ev, h, true);
    MembersDrop(s.exMembers, ev, h, false);
    InfosDrop(s.infoHashes, ev, h);
  }

  // Putting.

  lemma PayloadsPut(m: map<Hash, Bytes>, ev: seq<Event>, p: Post, h: Hash)
    requires PayloadsAgree(m, ev)
    ensures PayloadsAgree(m[h := Encode(p)], ev + [Put(p, h)])
  {
    hide Slot, Encode;
    var m', ev' := m[h := Encode(p)], ev + [Put(p, h)];
    forall k: Hash ensures PayloadAgrees(m', ev', k) {
      assert PayloadAgrees(m, ev, k);
      SlotPut(ev, p, h, PayloadOf(k));
    }
  }

  lemma PostsPut(m: map<Option<Text>, TimeMap<seq<Entry>>>, ev: seq<Event>, p: Post, h: Hash)
    requires PostsAgree(m, ev)
    ensures PostsAgree(PostsAfter(m, p, h), ev + [Put(p, h)])
  {
    hide Log, Latest, IndexKey;
    var i, m' := IndexKey(p), PostsAfter(m, p, h);
    forall key: Option<Text>, t: U64 ensures PostAgrees(m', ev + [Put(p, h)], key, t) {
      assert PostAgrees(m, ev, key, t);
      IndexKeyMeaning(p, key);
      LogPut(ev, p, h, IndexedAt(key, t));
      LatestPut(ev, p, h, IndexedAt(key, t));
      LatestPut(ev, p, h, PostIn(key));
      if i == Some(key) && p.header.timestamp == t {
        assert EntriesAt(m', key, t) == EntriesAt(m, key, t) + [(p, h)];
      }
    }
  }

  lemma TopicsPut(m: map<Text, TimeMap<(Text, Hash)>>, ev: seq<Event>, p: Post, h: Hash)
    requires TopicsAgree(m, ev)
    ensures TopicsAgree(TopicsAfter(m, p, h), ev + [Put(p, h)])
  {
    hide Slot;
    var m' := TopicsAfter(m, p, h);
    forall c: Text, t: U64 ensures TimedAt(m', c, t) == Slot(ev + [Put(p, h)], TopicAt(c, t)) {
      assert TimedAt(m, c, t) == Slot(ev, TopicAt(c, t));
      SlotPut(ev, p, h, TopicAt(c, t));
    }
  }

  lemma {:induction false} NamesInserted(
    m: map<Hash, TimeMap<(Text, Hash)>>, author: Hash, info: seq<UserInfo>, at: U64, h: Hash, k: Hash, t: U64)
    ensures TimedAt(InsertNames(m, author, info, at, h), k, t) ==
            if k == author && t == at && NameIn(info).Some? then Some((NameIn(info).value, h))
            else TimedAt(m, k, t)
  {
    if info != [] {
      NamesInserted(m, author, info[..|info| - 1], at, h, k, t);
    }
  }

  lemma NamesPut(m: map<Hash, TimeMap<(Text, Hash)>>, ev: seq<Event>, p: Post, h: Hash)
    requires NamesAgree(m, ev)
    ensures NamesAgree(NamesAfter(m, p, h), ev + [Put(p, h)])
  {
    hide Slot, InsertNames, NameIn;
    var (key, at) := (p.header.publicKey, p.header.timestamp);
    var m' := NamesAfter(m, p, h);
    forall k: Hash, t: U64 ensures TimedAt(m', k, t) == Slot(ev + [Put(p, h)], NameAt(k, t)) {
      assert TimedAt(m, k, t) == Slot(ev, NameAt(k, t));
      SlotPut(ev, p, h, NameAt(k, t));
      if p.body.Info? {
        NamesInserted(m, key, p.body.info, at, h, k, t);
      }
    }
  }

  lemma MembershipPut(m: map<Text, map<Hash, Hash>>, ev: seq<Event>, p: Post, h: Hash)
    requires MembershipAgrees(m, ev)
    ensures MembershipAgrees(MembershipAfter(m, p, h), ev + [Put(p, h)])
  {
    hide Slot;
    var m' := MembershipAfter(m, p, h);
    forall c: Text, k: Hash
      ensures MoveHash(m', c, k) == SlotHash(Slot(ev + [Put(p, h)], MoveOf(c, k)))
    {
      assert MoveHash(m, c, k) == SlotHash(Slot(ev, MoveOf(c, k)));
      SlotPut(ev, p, h, MoveOf(c, k));
    }
  }

  lemma MembersPut(m: map<Text, seq<Hash>>, ev: seq<Event>, p: Post, h: Hash, joined: bool)
    requires MembersAgree(m, ev, joined)
    ensures MembersAgree(MembersAfter(m, p, joined), ev + [Put(p, h)], joined)
  {
    hide Latest, Retain;
    var m' := MembersAfter(m, p, joined);
    forall c: Text, k: Hash ensures Listed(m', c, k) <==> Latest(ev + [Put(p, h)], MoveOf(c, k)) == Some(joined) {
      assert Listed(m, c, k) <==> Latest(ev, MoveOf(c, k)) == Some(joined);
      LatestPut(ev, p, h, MoveOf(c, k));
      if c in m {
        RetainIn(m[c], p.header.publicKey, k);
      }
    }
  }

  lemma InfosPut(m: map<Hash, seq<Hash>>, ev: seq<Event>, p: Post, h: Hash)
    requires InfosAgree(m, ev)
    ensures InfosAgree(InfosAfter(m, p, h), ev + [Put(p, h)])
  {
    hide Log;
    var m' := InfosAfter(m, p, h);
    forall k: Hash ensures InfosOf(m', k) == HashesOf(Log(ev + [Put(p, h)], InfoBy(k))) {
      assert InfosOf(m, k) == HashesOf(Log(ev, InfoBy(k)));
      LogPut(ev, p, h, InfoBy(k));
    }
  }

  lemma AgreePut(s: Store, ev: seq<Event>, p: Post, h: Hash)
    requires Agree(s, ev)
    ensures Agree(InsertStored(s, p, h), ev + [Put(p, h)])
  {
    hide Slot, Log, Latest, PayloadsAgree, PostsAgree, TopicsAgree, NamesAgree, MembershipAgrees, MembersAgree;
    hide InfosAgree, Encode, PostsAfter, TopicsAfter, NamesAfter, InfosAfter, MembershipAfter, MembersAfter;
    PayloadsPut(s.payloads, ev, p, h);
    PostsPut(s.posts, ev, p, h);
    TopicsPut(s.topics, ev, p, h);
    NamesPut(s.names, ev, p, h);
    MembershipPut(s.membership, ev, p, h);
    MembersPut(s.members, ev, p, h, true);
    MembersPut(s.exMembers, ev, p, h, false);
    InfosPut(s.infoHashes, ev, p, h);
  }

  // Whole insertions and whole runs.

  lemma AuthorSurvives(p: Post)
    requires Decode(Encode(p)).Ok?
    ensures Decode(Encode(p)).value.1.header.publicKey == p.header.publicKey
  {
    hide Encode, Posts.DecodeBody;
    SignedPart(p);
    HeaderAuthor(Encode(p));
  }

  lemma HeaderAuthor(buf: Bytes)
    requires Posts.DecodeHeader(buf).Ok?
    ensures |buf| >= 32 && Posts.DecodeHeader(buf).value.1.publicKey == buf[..32]
  {
  }

  lemma {:induction false} AgreeDeleteListed(s: Store, ev: seq<Event>, author: Hash, hashes: seq<Hash>, own: Hash)
    requires Agree(s, ev)
    ensures var (s', r) := DeleteListed(s, author, hashes, own);
            var (drops, ok) := DeleteEvents(ev, author, hashes);
            Agree(s', ev + drops) && (r.Ok? <==> ok)
    decreases |hashes|
  {
    hide Slot, Log, Latest, PostsAgree, TopicsAgree, NamesAgree, MembershipAgrees, MembersAgree;
    hide InfosAgree, Encode, Decode, DeletePost;
    if hashes == [] {
      assert ev + [] == ev;
    } else {
      var k := hashes[0];
      assert PayloadAgrees(s.payloads, ev, k);
      if k in s.payloads && Decode(s.payloads[k]).Ok? {
        AuthorSurvives(Slot(ev, PayloadOf(k)).value.0);
      } else {
        assert ev + [] == ev;
      }
      if k in s.payloads && Decode(s.payloads[k]).Ok? && Decode(s.payloads[k]).value.1.header.publicKey == author {
        AgreeDrop(s, ev, k);
        var s1 := DeletePost(s, k);
        var s2 := s1.(deleteHashes := PushAt(s1.deleteHashes, author, own));
        AgreeDeleteListed(s2, ev + [Drop(k)], author, hashes[1..], own);
        var later := DeleteEvents(ev + [Drop(k)], author, hashes[1..]).0;
        assert ev + [Drop(k)] + later == ev + ([Drop(k)] + later);
      } else if k !in s.payloads || Decode(s.payloads[k]).Ok? {
        AgreeDeleteListed(s, ev, author, hashes[1..], own);
      }
    }
  }

  /** Inserting a post moves every index as the history moves. */
  lemma InsertAgrees(crypto: Crypto, s: Store, ev: seq<Event>, p: Post)
    requires Agree(s, ev)
    ensures Agree(InsertPost(crypto, s, p).0, ev + InsertEvents(crypto, ev, p))
  {
    hide Agree, InsertStored, DeleteListed, DeleteEvents, HashOf;
    var h := HashOf(crypto, p);
    if p.body.UnrecognizedPost? {
      assert ev + [] == ev;
    } else if p.body.Delete? {
      var (s1, r) := DeleteListed(s, p.header.publicKey, p.body.hashes, h);
      var (drops, ok) := DeleteEvents(ev, p.header.publicKey, p.body.hashes);
      AgreeDeleteListed(s, ev, p.header.publicKey, p.body.hashes, h);
      if ok {
        AgreePut(s1, ev + drops, p, h);
        assert ev + drops + [Put(p, h)] == ev + (drops + [Put(p, h)]);
      }
    } else {
      AgreePut(s, ev, p, h);
    }
  }

  /** After any run, every index is what the history of the run says. */
  lemma {:induction false} RunAgrees(crypto: Crypto, ps: seq<Post>)
    ensures Agree(Run(crypto, ps), Trace(crypto, ps))
  {
    if ps != [] {
      hide Agree, InsertPost, InsertEvents;
      RunAgrees(crypto, ps[..|ps| - 1]);
      InsertAgrees(crypto, Run(crypto, ps[..|ps| - 1]), Trace(crypto, ps[..|ps| - 1]), ps[|ps| - 1]);
    }
  }
}
