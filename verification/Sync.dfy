/** One round of synchronisation between two peers (cable_core/src/manager.rs). */
module Sync {
  import opened Wire
  import opened Messages
  import P = Posts
  import opened History
  import S = Store
  import opened Queries
  import opened Manager
  import Requests
  import Peers

  /** A post that a peer will accept: valid, signed, and not a delete post. */
  ghost predicate Acceptable(crypto: P.Crypto, p: P.Post) {
    P.WellFormed(p) && P.Verify(crypto, P.Encode(p)) && !p.body.Delete?
  }

  ghost predicate AcceptableBytes(crypto: P.Crypto, b: Bytes) {
    exists p :: Acceptable(crypto, p) && b == P.Encode(p)
  }

  ghost predicate AllAcceptable(crypto: P.Crypto, posts: seq<Bytes>) {
    forall i | 0 <= i < |posts| :: AcceptableBytes(crypto, posts[i])
  }

  lemma DecodeAcceptable(crypto: P.Crypto, p: P.Post)
    requires Acceptable(crypto, p)
    ensures P.Decode(P.Encode(p)) == Ok((|P.Encode(p)|, p)) && !p.body.UnrecognizedPost?
  {
    hide P.Decode, P.Encode, P.GoodHeader;
    P.RoundTrip(p, []);
    P.CountExact(p);
    assert P.Encode(p) + [] == P.Encode(p);
  }

  lemma InsertAcceptable(crypto: P.Crypto, s: S.Store, p: P.Post)
    requires !p.body.Delete? && !p.body.UnrecognizedPost?
    ensures var (s', r) := S.InsertPost(crypto, s, p);
            r.Ok? && s'.payloads.Keys == s.payloads.Keys + {P.HashOf(crypto, p)}
  {
    hide P.Encode, P.HashOf;
    hide S.PostsAfter, S.TopicsAfter, S.NamesAfter, S.InfosAfter, S.MembershipAfter, S.MembersAfter;
  }

  /** Admitting acceptable posts stores every requested one that is not barred, and loses nothing. */
  lemma {:induction false} AdmitAll(
    crypto: P.Crypto, deleted: set<Hash>, requested: set<Hash>, s: S.Store, posts: seq<Bytes>)
    requires AllAcceptable(crypto, posts)
    ensures var a := AdmitPosts(crypto, deleted, requested, s, posts);
            && a.result.Ok?
            && s.payloads.Keys <= a.store.payloads.Keys
            && forall p | Acceptable(crypto, p) && P.Encode(p) in posts && P.HashOf(crypto, p) in requested ::
                 P.HashOf(crypto, p) in a.store.payloads || P.HashOf(crypto, p) in deleted
    decreases |posts|
  {
    hide P.Encode, P.Decode, P.Verify, P.WellFormed, S.InsertPost;
    if posts != [] {
      assert AcceptableBytes(crypto, posts[0]);
      var p :| Acceptable(crypto, p) && posts[0] == P.Encode(p);
      DecodeAcceptable(crypto, p);
      InsertAcceptable(crypto, s, p);
      var rest := posts[1..];
      assert AllAcceptable(crypto, rest);
      var h := P.HashOf(crypto, p);
      var taken := h !in deleted && h in requested;
      var s1 := if taken then S.InsertPost(crypto, s, p).0 else s;
      var requested1 := if taken then requested - {h} else requested;
      AdmitAll(crypto, deleted, requested1, s1, rest);
      assert AdmitPosts(crypto, deleted, requested, s, posts) == AdmitPosts(crypto, deleted, requested1, s1, rest);
      var a := AdmitPosts(crypto, deleted, requested1, s1, rest);
      forall q | Acceptable(crypto, q) && P.Encode(q) in posts && P.HashOf(crypto, q) in requested
        ensures P.HashOf(crypto, q) in a.store.payloads || P.HashOf(crypto, q) in deleted
      {
        if P.Encode(q) == posts[0] {
          assert P.HashOf(crypto, q) == h;
          assert h in deleted || h in s1.payloads.Keys;
        } else {
          assert P.Encode(q) in rest;
          if taken && P.HashOf(crypto, q) == h {
            assert h in s1.payloads.Keys;
          }
        }
      }
    }
  }

  // What a peer with valid, signed posts offers.

  ghost predicate Honest(crypto: P.Crypto, ps: seq<P.Post>) {
    && (forall p | p in ps :: P.WellFormed(p) && P.Verify(crypto, P.Encode(p)))
    && (forall p, q | p in ps && q in ps && P.HashOf(crypto, p) == P.HashOf(crypto, q) :: p == q)
  }

  lemma {:induction false} TraceFromPosts(crypto: P.Crypto, ps: seq<P.Post>)
    ensures forall e | e in Trace(crypto, ps) && e.Put? :: e.post in ps && e.hash == P.HashOf(crypto, e.post)
    decreases |ps|
  {
    if ps != [] {
      hide P.HashOf, DeleteEvents;
      var p, init := ps[|ps| - 1], ps[..|ps| - 1];
      TraceFromPosts(crypto, init);
      var before := Trace(crypto, init);
      if p.body.Delete? {
        DropsOnly(before, p.header.publicKey, p.body.hashes);
      }
      assert forall q | q in init :: q in ps;
    }
  }

  lemma {:induction false} SortedSame(es: seq<Entry>)
    ensures forall e | e in StableSort(es) :: e in es
    decreases |es|
  {
    if es != [] {
      var es0, e := es[..|es| - 1], es[|es| - 1];
      SortedSame(es0);
      StableSortMeaning(es0, 0);
      InsertSorts(StableSort(es0), e);
    }
  }

  /** The hashes that a time range request is answered with. */
  function ListedBy(s: S.Store, q: ChannelOptions): (r: seq<Hash>)
    ensures var all := GetPostHashes(s, q.channel, q.timeStart, q.timeEnd); all.Ok? ==> IsCut(r, all.value, q.limit)
  {
    match GetPostHashes(s, q.channel, q.timeStart, q.timeEnd)
    case Ok(hs) => Limited(hs, q.limit)
    case Err(_) => []
  }

  lemma LimitedIn(hs: seq<Hash>, limit: U64)
    ensures forall h | h in Limited(hs, limit) :: h in hs
  {
  }

  /** Every hash that a range query lists resolves to an acceptable post with that hash. */
  lemma ListedIsServed(crypto: P.Crypto, ps: seq<P.Post>, s: S.Store, q: ChannelOptions, h: Hash)
    requires Honest(crypto, ps) && S.Agree(s, Trace(crypto, ps))
    requires q.timeStart == 0 || q.timeEnd == 0 || q.timeStart <= q.timeEnd
    requires h in ListedBy(s, q)
    ensures Served(crypto, s, h)
  {
    hide Trace, Log, Slot, StableSort, P.Encode, P.Verify, P.WellFormed, GetPostHashes, P.HashOf, Limited;
    var ev := Trace(crypto, ps);
    var f := PostWithin(q.channel, q.timeStart, q.timeEnd);
    PostHashesAgree(s, ev, q.channel, q.timeStart, q.timeEnd);
    LimitedIn(Hashes(StableSort(Log(ev, f))), q.limit);
    TraceFromPosts(crypto, ps);
    SortedSame(Log(ev, f));
    var i :| 0 <= i < |StableSort(Log(ev, f))| && StableSort(Log(ev, f))[i].1 == h;
    var e := StableSort(Log(ev, f))[i];
    assert e in StableSort(Log(ev, f));
    LogFromPut(ev, f, e);
    var j :| 0 <= j < |ev| && ev[j].Put? && ev[j].hash == h && f(ev[j].post, h) == Some(e.0);
    assert ev[j] in ev;
    LogHasPayload(ev, f, e);
    PayloadKey(ev, h);
    assert S.PayloadAgrees(s.payloads, ev, h);
    var q := Slot(ev, PayloadOf(h)).value.0;
    assert Put(q, h) in ev;
    assert q == e.0;
    assert Acceptable(crypto, q);
  }

  ghost predicate Served(crypto: P.Crypto, s: S.Store, h: Hash) {
    exists p ::
      && Acceptable(crypto, p) && P.HashOf(crypto, p) == h
      && h in s.payloads && s.payloads[h] == P.Encode(p)
  }

  // The four steps of a round.

  lemma Lists(crypto: P.Crypto, a: Manager, peer: PeerId, m: Message, q: ChannelOptions, choices: Choices)
    requires peer in a.peers && m.body.Request? && !Dropped(a, peer, m.header.reqId)
    requires m.body.request == ChannelTimeRange(q.channel, q.timeStart, q.timeEnd, q.limit)
    requires GetPostHashes(a.store, q.channel, q.timeStart, q.timeEnd).Ok?
    ensures var r := Handle(crypto, a, peer, m, choices);
            var list := MakeResponse(m.header.circuitId, m.header.reqId, HashResponse(ListedBy(a.store, q)));
            && r.result.Ok? && r.state.store == a.store && r.state.peers == a.peers
            && r.state.handled == a.handled + {m.header.reqId}
            && r.out == (if ListedBy(a.store, q) == [] && q.timeEnd == 0 then [] else [(peer, list)])
  {
    hide GetPostHashes, Limited, S.PushAt, IsLive;
  }

  lemma Wants(crypto: P.Crypto, b: Manager, peer: PeerId, list: Message, hashes: seq<Hash>, choices: Choices)
    requires peer in b.peers && list.body == Response(HashResponse(hashes)) && !Dropped(b, peer, list.header.reqId)
    ensures var r := Handle(crypto, b, peer, list, choices);
            var wanted := Want(b.store, hashes);
            && r.result.Ok? && r.state.store == b.store && r.state.peers == b.peers && r.state.deleted == b.deleted
            && r.state.handled == b.handled + {list.header.reqId}
            && r.state.live == b.live && r.state.outbound == b.outbound
            && if wanted == [] then r.out == []
               else
                 && r.out == [(peer, MakeRequest(list.header.circuitId, NewReqId(b).1, TTL, PostRequest(wanted)))]
                 && forall h | h in wanted :: h in r.state.requested
  {
    hide Want, ReqIdBytes, IsLive;
  }

  lemma Serves(crypto: P.Crypto, a: Manager, peer: PeerId, m: Message, wanted: seq<Hash>, choices: Choices)
    requires peer in a.peers && m.body.Request? && m.body.request == PostRequest(wanted)
    requires m.header.reqId !in a.handled
    ensures Handle(crypto, a, peer, m, choices).out
         == [(peer, MakeResponse(m.header.circuitId, m.header.reqId, PostResponse(GetPayloads(a.store, wanted))))]
  {
    hide GetPayloads, IsLive;
  }

  lemma ServedPosts(crypto: P.Crypto, s: S.Store, wanted: seq<Hash>)
    requires forall h | h in wanted :: Served(crypto, s, h)
    ensures AllAcceptable(crypto, GetPayloads(s, wanted))
    ensures forall h | h in wanted ::
              exists p :: Acceptable(crypto, p) && P.HashOf(crypto, p) == h && P.Encode(p) in GetPayloads(s, wanted)
  {
    hide P.WellFormed, P.Verify, P.HashOf, P.Encode;
    var posts := GetPayloads(s, wanted);
    forall i | 0 <= i < |posts| ensures AcceptableBytes(crypto, posts[i]) {
      assert posts[i] in posts;
      var h :| h in wanted && h in s.payloads && s.payloads[h] == posts[i];
      assert Served(crypto, s, h);
      var p :| Acceptable(crypto, p) && P.HashOf(crypto, p) == h && h in s.payloads && s.payloads[h] == P.Encode(p);
      assert posts[i] == P.Encode(p);
    }
    forall h | h in wanted
      ensures exists p :: Acceptable(crypto, p) && P.HashOf(crypto, p) == h && P.Encode(p) in posts
    {
      assert Served(crypto, s, h);
      var p :| Acceptable(crypto, p) && P.HashOf(crypto, p) == h && h in s.payloads && s.payloads[h] == P.Encode(p);
      assert P.Encode(p) in posts;
    }
  }

  lemma Admits(crypto: P.Crypto, b: Manager, peer: PeerId, m: Message, s: S.Store, wanted: seq<Hash>, choices: Choices)
    requires m.body == Response(PostResponse(GetPayloads(s, wanted))) && m.header.reqId !in b.handled
    requires forall h | h in wanted :: Served(crypto, s, h) && h in b.requested
    ensures var r := Handle(crypto, b, peer, m, choices).state;
            && b.store.payloads.Keys <= r.store.payloads.Keys && r.deleted == b.deleted
            && forall h | h in wanted :: h in r.store.payloads || h in r.deleted
  {
    hide AdmitPosts, GetPayloads, IsLive, Acceptable, P.HashOf, P.Encode;
    ServedPosts(crypto, s, wanted);
    AdmitAll(crypto, b.deleted, b.requested, b.store, GetPayloads(s, wanted));
  }

  /** A request for a time range of `q` that A has not seen, whose answer B awaits and can act upon. */
  ghost predicate Ready(
    a: Manager, b: Manager, peerA: PeerId, peerB: PeerId, q: ChannelOptions, range: Message)
  {
    && (q.timeStart == 0 || q.timeEnd == 0 || q.timeStart <= q.timeEnd)
    && peerB in a.peers && peerA in b.peers
    && range.body.Request?
    && range.body.request == ChannelTimeRange(q.channel, q.timeStart, q.timeEnd, q.limit)
    && !Dropped(a, peerB, range.header.reqId) && !Dropped(b, peerA, range.header.reqId)
    && NewReqId(b).1 !in a.handled + b.handled + {range.header.reqId}
  }

  /** A's list of what it has in the range. */
  function ListOf(a: Manager, q: ChannelOptions, range: Message): Message {
    MakeResponse(range.header.circuitId, range.header.reqId, HashResponse(ListedBy(a.store, q)))
  }

  /** B's request for what it lacks of it. */
  function AskFor(a: Manager, b: Manager, q: ChannelOptions, range: Message): Message {
    MakeRequest(range.header.circuitId, NewReqId(b).1, TTL, PostRequest(Want(b.store, ListedBy(a.store, q))))
  }

  /** The posts that A sends. */
  function PostsFor(a: Manager, b: Manager, q: ChannelOptions, range: Message): Message {
    MakeResponse(range.header.circuitId, NewReqId(b).1,
                 PostResponse(GetPayloads(a.store, Want(b.store, ListedBy(a.store, q)))))
  }

  /**
   * A answers B's time range request, B asks for the listed posts it lacks, A sends them, B takes them in:
   * every listed hash is then in B's store or barred by B. Each step iterates its maps in an order of its own.
   */
  lemma RoundConverges(
    crypto: P.Crypto, ps: seq<P.Post>, a: Manager, b: Manager, peerA: PeerId, peerB: PeerId,
    q: ChannelOptions, range: Message, c1: Choices, c2: Choices, c3: Choices, c4: Choices)
    requires Honest(crypto, ps) && S.Agree(a.store, Trace(crypto, ps)) && Ready(a, b, peerA, peerB, q, range)
    ensures var hashes, wanted := ListedBy(a.store, q), Want(b.store, ListedBy(a.store, q));
            var a1 := Handle(crypto, a, peerB, range, c1);
            var b1 := Handle(crypto, b, peerA, ListOf(a, q, range), c2);
            var a2 := Handle(crypto, a1.state, peerB, AskFor(a, b, q, range), c3);
            var b2 := Handle(crypto, b1.state, peerA, PostsFor(a, b, q, range), c4);
            && a1.out == (if hashes == [] && q.timeEnd == 0 then [] else [(peerB, ListOf(a, q, range))])
            && b1.out == (if wanted == [] then [] else [(peerA, AskFor(a, b, q, range))])
            && (wanted == [] ==> forall h | h in hashes :: h in b1.state.store.payloads)
            && (wanted != [] ==>
                  && a2.out == [(peerB, PostsFor(a, b, q, range))]
                  && forall h | h in hashes :: h in b2.state.store.payloads || h in b2.state.deleted)
  {
    hide ListedBy, Want, GetPayloads, Honest, IsLive, Handle, NewReqId, Served, Acceptable, S.Agree, Trace;
    var hashes, wanted := ListedBy(a.store, q), Want(b.store, ListedBy(a.store, q));
    var a1 := Handle(crypto, a, peerB, range, c1);
    var b1 := Handle(crypto, b, peerA, ListOf(a, q, range), c2);
    RangeAnswered(crypto, ps, a.store, q);
    Lists(crypto, a, peerB, range, q, c1);
    Wants(crypto, b, peerA, ListOf(a, q, range), hashes, c2);
    if wanted != [] {
      Serves(crypto, a1.state, peerB, AskFor(a, b, q, range), wanted, c3);
      forall h | h in wanted ensures Served(crypto, a.store, h) {
        ListedIsServed(crypto, ps, a.store, q, h);
      }
      Admits(crypto, b1.state, peerA, PostsFor(a, b, q, range), a.store, wanted, c4);
    }
  }

  lemma RangeAnswered(crypto: P.Crypto, ps: seq<P.Post>, s: S.Store, q: ChannelOptions)
    requires S.Agree(s, Trace(crypto, ps)) && (q.timeStart == 0 || q.timeEnd == 0 || q.timeStart <= q.timeEnd)
    ensures GetPostHashes(s, q.channel, q.timeStart, q.timeEnd).Ok?
  {
    hide Trace, GetPostHashes, Log, StableSort;
    PostHashesAgree(s, Trace(crypto, ps), q.channel, q.timeStart, q.timeEnd);
  }

  /** B after the round, whether it had to ask for posts or not. */
  function AfterRound(crypto: P.Crypto, a: Manager, b: Manager, peerA: PeerId, q: ChannelOptions, range: Message,
                      c2: Choices, c4: Choices): Manager
  {
    var b1 := Handle(crypto, b, peerA, ListOf(a, q, range), c2).state;
    if Want(b.store, ListedBy(a.store, q)) == [] then b1
    else Handle(crypto, b1, peerA, PostsFor(a, b, q, range), c4).state
  }

  /** Any peer that started empty will do as A, if the posts that reached its store are valid and signed. */
  lemma ReachableRound(
    crypto: P.Crypto, start: Manager, run: seq<(Action, Choices)>, b: Manager, peerA: PeerId, peerB: PeerId,
    q: ChannelOptions, range: Message, c2: Choices, c4: Choices)
    requires Peers.EmptyStore(start) && Honest(crypto, Peers.Inserted(crypto, start, run))
    requires Ready(Requests.RunState(crypto, start, run), b, peerA, peerB, q, range)
    ensures var a := Requests.RunState(crypto, start, run);
            var b' := AfterRound(crypto, a, b, peerA, q, range, c2, c4);
            forall h | h in ListedBy(a.store, q) :: h in b'.store.payloads || h in b'.deleted
  {
    hide Honest, S.Agree, Trace, Handle, Want, ListedBy, Ready, ListOf, PostsFor, AskFor;
    var a := Requests.RunState(crypto, start, run);
    Peers.PeerAgrees(crypto, start, run);
    RoundConverges(crypto, Peers.Inserted(crypto, start, run), a, b, peerA, peerB, q, range, c2, c2, c2, c4);
  }

  /** Without a limit, every undeleted post of the range that A was handed is listed. */
  lemma HistoryIsListed(crypto: P.Crypto, ps: seq<P.Post>, s: S.Store, q: ChannelOptions, e: Entry)
    requires S.Agree(s, Trace(crypto, ps)) && (q.timeStart == 0 || q.timeEnd == 0 || q.timeStart <= q.timeEnd)
    requires q.limit == 0 && e in Log(Trace(crypto, ps), PostWithin(q.channel, q.timeStart, q.timeEnd))
    ensures e.1 in ListedBy(s, q)
  {
    hide Trace, GetPostHashes, Log, StableSort;
    var log := Log(Trace(crypto, ps), PostWithin(q.channel, q.timeStart, q.timeEnd));
    PostHashesAgree(s, Trace(crypto, ps), q.channel, q.timeStart, q.timeEnd);
    SortKeeps(log, e);
    var i :| 0 <= i < |StableSort(log)| && StableSort(log)[i] == e;
    assert Hashes(StableSort(log))[i] == e.1;
  }

  /** So after the round, each text and topic post of the range that A still has is stored or barred by B. */
  lemma RoundBringsAll(
    crypto: P.Crypto, start: Manager, run: seq<(Action, Choices)>, b: Manager, peerA: PeerId, peerB: PeerId,
    q: ChannelOptions, range: Message, c2: Choices, c4: Choices, e: Entry)
    requires Peers.EmptyStore(start) && Honest(crypto, Peers.Inserted(crypto, start, run))
    requires Ready(Requests.RunState(crypto, start, run), b, peerA, peerB, q, range) && q.limit == 0
    requires e in Log(Trace(crypto, Peers.Inserted(crypto, start, run)),
                      PostWithin(q.channel, q.timeStart, q.timeEnd))
    ensures var b' := AfterRound(crypto, Requests.RunState(crypto, start, run), b, peerA, q, range, c2, c4);
            e.1 in b'.store.payloads || e.1 in b'.deleted
  {
    hide Honest, S.Agree, Trace, Log, ListedBy, Peers.Inserted, AfterRound;
    Peers.PeerAgrees(crypto, start, run);
    HistoryIsListed(crypto, Peers.Inserted(crypto, start, run), Requests.RunState(crypto, start, run).store, q, e);
    ReachableRound(crypto, start, run, b, peerA, peerB, q, range, c2, c4);
  }
}
