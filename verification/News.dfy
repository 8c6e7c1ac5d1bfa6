/**
 * What the holders of live requests are told after a change in a channel (cable_core/src/manager.rs,
 * `send_post_hashes`).
 */
module News {
  import opened Wire
  import opened Messages
  import P = Posts
  import opened History
  import S = Store
  import opened Queries
  import opened Machine = Manager
  import opened Orders

  /** The peer is sent those hashes under that identifier. */
  ghost predicate Told(o: Out, peer: PeerId, id: Id, hs: seq<Hash>) {
    exists x :: x in o && x.0 == peer && Says(x.1, id, hs)
  }

  /** The listed hashes of delete posts by members of the channel. */
  ghost predicate IsMemberDelete(s: S.Store, c: Text, h: Hash) {
    exists k :: IsMember(s, c, k) && k in s.deleteHashes && h in s.deleteHashes[k]
  }

  /** The newest name of a member or an ex-member of the channel, by its hash. */
  ghost predicate IsPeopleName(s: S.Store, c: Text, h: Hash) {
    exists k :: (IsMember(s, c, k) || IsExMember(s, c, k)) && GetName(s, k).Some? && GetName(s, k).value.1 == h
  }

  /** All there is to say about a channel's state: moves, topic, delete posts of members and names of its people. */
  ghost predicate StateNews(s: S.Store, c: Text, hs: seq<Hash>) {
    forall h :: h in hs <==>
      || IsMove(s, c, h) || (GetTopic(s, c).Some? && GetTopic(s, c).value.1 == h)
      || IsMemberDelete(s, c, h) || IsPeopleName(s, c, h)
  }

  /** The first hashes of the range that a live request asks for. */
  ghost predicate RangeNews(s: S.Store, opts: ChannelOptions, hs: seq<Hash>) {
    var all := GetPostHashes(s, opts.channel, opts.timeStart, opts.timeEnd);
    all.Ok? && IsCut(hs, all.value, opts.limit)
  }

  /** Every connected holder of a live request for the channel is told what the request asks for. */
  ghost predicate AllTold(st: Manager, c: Text, o: Out) {
    forall peer, r | peer in st.live && peer in st.peers && r in st.live[peer] :: IsTold(st, peer, r, c, o)
  }

  ghost predicate IsTold(st: Manager, peer: PeerId, r: LiveRequest, c: Text, o: Out) {
    && (Concerns(r, c) && r.LiveState? ==> exists hs :: StateNews(st.store, c, hs) && Told(o, peer, r.reqId, hs))
    && (Concerns(r, c) && r.LiveRange? ==>
          exists hs :: RangeNews(st.store, r.opts, hs) && (hs == [] || Told(o, peer, r.reqId, hs)))
  }

  /** The live request is one for the channel. */
  predicate Concerns(r: LiveRequest, c: Text) {
    if r.LiveState? then r.channel == c else r.opts.channel == c
  }

  /** The hashes are what the live request asks for. */
  ghost predicate Asks(s: S.Store, r: LiveRequest, hs: seq<Hash>) {
    if r.LiveState? then StateNews(s, r.channel, hs) else hs != [] && RangeNews(s, r.opts, hs)
  }

  /** The message answers a live request of that connected peer for the channel. */
  ghost predicate IsNews(st: Manager, c: Text, x: (PeerId, Message)) {
    && x.0 in st.peers && x.0 in st.live
    && exists r, hs :: r in st.live[x.0] && Concerns(r, c) && Asks(st.store, r, hs) && Says(x.1, r.reqId, hs)
  }

  /** A hash response under the identifier, without a circuit. */
  ghost predicate Says(m: Message, id: Id, hs: seq<Hash>) {
    m == Message(Header(HASH_RESPONSE, [0, 0, 0, 0], id), Response(HashResponse(hs)))
  }

  /** And nothing else is sent. */
  ghost predicate OnlyNews(st: Manager, c: Text, o: Out) {
    forall x | x in o :: IsNews(st, c, x)
  }

  // The hashes collected for a channel's state.

  lemma {:induction false} MemberHashesExact(s: S.Store, keys: seq<Hash>, h: Hash)
    ensures h in MemberHashes(s, keys) <==>
            || (exists k :: k in keys && k in s.deleteHashes && h in s.deleteHashes[k])
            || (exists k :: k in keys && GetName(s, k).Some? && GetName(s, k).value.1 == h)
    decreases |keys|
  {
    hide GetName;
    if keys != [] {
      MemberHashesExact(s, keys[1..], h);
      assert keys == [keys[0]] + keys[1..];
    }
  }

  lemma {:induction false} NameHashesExact(s: S.Store, keys: seq<Hash>, h: Hash)
    ensures h in NameHashes(s, keys) <==> exists k :: k in keys && GetName(s, k).Some? && GetName(s, k).value.1 == h
    decreases |keys|
  {
    hide GetName;
    if keys != [] {
      NameHashesExact(s, keys[1..], h);
      assert keys == [keys[0]] + keys[1..];
    }
  }

  lemma StateNewsExact(s: S.Store, c: Text, choices: Choices)
    requires MembersOrder(choices, s)
    ensures StateNews(s, c, LiveStateHashes(s, c, choices))
  {
    hide MembersOrder, StateHashes, IsMove, GetTopic, GetName, MemberHashes, NameHashes;
    forall h: Hash
      ensures h in LiveStateHashes(s, c, choices) <==>
              || IsMove(s, c, h) || (GetTopic(s, c).Some? && GetTopic(s, c).value.1 == h)
              || IsMemberDelete(s, c, h) || IsPeopleName(s, c, h)
    {
      StateHashesExact(s, c, choices, h);
      if c in s.members {
        MemberHashesExact(s, s.members[c], h);
      }
      if c in s.exMembers {
        NameHashesExact(s, s.exMembers[c], h);
      }
    }
  }

  // One live request.

  /** What one live request is answered with, in full. */
  lemma ResponseIsNews(st: Manager, peer: PeerId, r: LiveRequest, c: Text, choices: Choices)
    requires MembersOrder(choices, st.store) && LiveResponse(st, peer, r, c, choices).Ok?
    requires peer in st.live && r in st.live[peer]
    ensures var o := LiveResponse(st, peer, r, c, choices).value;
            |o| <= 1 && OnlyNews(st, c, o) && (peer in st.peers ==> IsTold(st, peer, r, c, o))
  {
    hide LiveStateHashes, GetPostHashes, Limited, IsCut, StateNews, MembersOrder;
    match r
    case LiveState(id, channel) =>
      if channel == c {
        var hs := LiveStateHashes(st.store, c, choices);
        StateNewsExact(st.store, c, choices);
        var m := Message(Header(HASH_RESPONSE, [0, 0, 0, 0], id), Response(HashResponse(hs)));
        if peer in st.peers {
          assert LiveResponse(st, peer, r, c, choices).value == [(peer, m)];
          assert Says(m, id, hs) && Asks(st.store, r, hs);
          assert IsNews(st, c, (peer, m));
          assert Told([(peer, m)], peer, id, hs);
        }
      }
    case LiveRange(id, opts) =>
      if opts.channel == c {
        var all := GetPostHashes(st.store, opts.channel, opts.timeStart, opts.timeEnd).value;
        var hs := Limited(all, opts.limit);
        assert RangeNews(st.store, opts, hs);
        var m := Message(Header(HASH_RESPONSE, [0, 0, 0, 0], id), Response(HashResponse(hs)));
        if peer in st.peers && hs != [] {
          assert LiveResponse(st, peer, r, c, choices).value == [(peer, m)];
          assert Says(m, id, hs) && Asks(st.store, r, hs);
          assert IsNews(st, c, (peer, m));
          assert Told([(peer, m)], peer, id, hs);
        }
      }
  }

  lemma ToldAmong(st: Manager, peer: PeerId, r: LiveRequest, c: Text, a: Out, b: Out)
    requires IsTold(st, peer, r, c, a) && forall x | x in a :: x in b
    ensures IsTold(st, peer, r, c, b)
  {
    hide StateNews, RangeNews;
    match r
    case LiveState(id, channel) =>
      if channel == c {
        var hs :| StateNews(st.store, c, hs) && Told(a, peer, id, hs);
        assert Told(b, peer, id, hs);
      }
    case LiveRange(id, opts) =>
      if opts.channel == c {
        var hs :| RangeNews(st.store, opts, hs) && (hs == [] || Told(a, peer, id, hs));
        assert hs == [] || Told(b, peer, id, hs);
      }
  }

  // All of them.

  /** Whoever is answered is told. */
  lemma AnsweredIsTold(st: Manager, c: Text, choices: Choices, o: Out)
    requires AllAnswered(st, c, choices, o) && MembersOrder(choices, st.store)
    ensures AllTold(st, c, o)
  {
    hide LiveResponse, MembersOrder, IsTold, OnlyNews;
    forall peer, r | peer in st.live && peer in st.peers && r in st.live[peer] ensures IsTold(st, peer, r, c, o) {
      assert Answered(st, peer, r, c, choices, o);
      ResponseIsNews(st, peer, r, c, choices);
      ToldAmong(st, peer, r, c, LiveResponse(st, peer, r, c, choices).value, o);
    }
  }

  lemma {:induction false} PeerOnlyNews(st: Manager, peer: PeerId, rs: seq<LiveRequest>, c: Text, choices: Choices)
    requires MembersOrder(choices, st.store) && peer in st.live && forall r | r in rs :: r in st.live[peer]
    ensures OnlyNews(st, c, PeerResponses(st, peer, rs, c, choices).0)
    decreases |rs|
  {
    hide LiveResponse, MembersOrder, IsNews;
    if rs != [] {
      PeerOnlyNews(st, peer, rs[1..], c, choices);
      assert rs[0] in rs;
      if LiveResponse(st, peer, rs[0], c, choices).Ok? {
        ResponseIsNews(st, peer, rs[0], c, choices);
      }
    }
  }

  lemma {:induction false} OnlyNewsSent(st: Manager, c: Text, peers: seq<PeerId>, choices: Choices)
    requires MembersOrder(choices, st.store)
    ensures OnlyNews(st, c, SendPostHashes(st, c, peers, choices).0)
    decreases |peers|
  {
    hide PeerResponses, MembersOrder, IsNews;
    if peers != [] {
      OnlyNewsSent(st, c, peers[1..], choices);
      if peers[0] in st.live {
        PeerOnlyNews(st, peers[0], st.live[peers[0]], c, choices);
      }
    }
  }

  /**
   * After a post to channel `c` that was published without an error, every connected peer is told what its live
   * requests for `c` ask for, of the store with the new post in it, and nothing else is sent.
   */
  lemma PublishTells(crypto: P.Crypto, st: Manager, p: P.Post, choices: Choices, c: Text)
    requires P.ChannelOf(p) == Some(c) && Publish(crypto, st, p, choices).result.Ok?
    requires IsOrder(choices.livePeers, st.live.Keys)
    requires MembersOrder(choices, S.InsertPost(crypto, st.store, p).0)
    ensures var s := Publish(crypto, st, p, choices);
            && s.state == st.(store := S.InsertPost(crypto, st.store, p).0)
            && AllTold(s.state, c, s.out) && OnlyNews(s.state, c, s.out)
  {
    hide S.InsertPost, SendPostHashes, SendToChannels, AllTold, OnlyNews, MembersOrder;
    ChannelTold(st.(store := S.InsertPost(crypto, st.store, p).0), c, choices);
  }

  /** Every channel that the author is a member of is told. */
  ghost predicate MembersTold(st: Manager, author: Hash, o: Out) {
    forall c | c in st.store.channels && IsMember(st.store, c, author) :: AllTold(st, c, o)
  }

  /** And no other channel. */
  ghost predicate OnlyMembersNews(st: Manager, author: Hash, o: Out) {
    forall x | x in o :: exists c :: c in st.store.channels && IsMember(st.store, c, author) && IsNews(st, c, x)
  }

  lemma ChannelTold(st: Manager, c: Text, choices: Choices)
    requires IsOrder(choices.livePeers, st.live.Keys) && MembersOrder(choices, st.store)
    requires SendPostHashes(st, c, choices.livePeers, choices).1.Ok?
    ensures var o := SendPostHashes(st, c, choices.livePeers, choices).0; AllTold(st, c, o) && OnlyNews(st, c, o)
  {
    hide SendPostHashes, AllTold, OnlyNews, MembersOrder, AllAnswered;
    LiveAllAnswered(st, c, choices);
    AnsweredIsTold(st, c, choices, SendPostHashes(st, c, choices.livePeers, choices).0);
    OnlyNewsSent(st, c, choices.livePeers, choices);
  }

  lemma ChannelsTold(st: Manager, author: Hash, choices: Choices)
    requires IsOrder(choices.livePeers, st.live.Keys) && MembersOrder(choices, st.store)
    requires IsOrder(choices.channels, st.store.channels)
    requires SendToChannels(st, author, choices.channels, choices).1.Ok?
    ensures var o := SendToChannels(st, author, choices.channels, choices).0;
            MembersTold(st, author, o) && OnlyMembersNews(st, author, o)
  {
    hide SendToChannels, AllTold, IsNews, MembersOrder, AllAnswered, IsMember;
    var o := SendToChannels(st, author, choices.channels, choices).0;
    MemberChannelsAnswered(st, author, choices);
    forall c | c in st.store.channels && IsMember(st.store, c, author) ensures AllTold(st, c, o) {
      AnsweredIsTold(st, c, choices, o);
    }
    MembersOnlyNews(st, author, choices.channels, choices);
  }

  /** After an info or delete post, so for every channel that its author is a member of, and for no other. */
  lemma PublishTellsMembers(crypto: P.Crypto, st: Manager, p: P.Post, choices: Choices)
    requires P.ChannelOf(p) == None && Publish(crypto, st, p, choices).result.Ok?
    requires IsOrder(choices.livePeers, st.live.Keys)
    requires IsOrder(choices.channels, S.InsertPost(crypto, st.store, p).0.channels)
    requires MembersOrder(choices, S.InsertPost(crypto, st.store, p).0)
    ensures var s := Publish(crypto, st, p, choices);
            && s.state == st.(store := S.InsertPost(crypto, st.store, p).0)
            && MembersTold(s.state, p.header.publicKey, s.out) && OnlyMembersNews(s.state, p.header.publicKey, s.out)
  {
    hide S.InsertPost, SendPostHashes, SendToChannels, MembersTold, OnlyMembersNews, MembersOrder;
    ChannelsTold(st.(store := S.InsertPost(crypto, st.store, p).0), p.header.publicKey, choices);
  }

  lemma {:induction false} MembersOnlyNews(st: Manager, author: Hash, cs: seq<Text>, choices: Choices)
    requires MembersOrder(choices, st.store)
    ensures forall x | x in SendToChannels(st, author, cs, choices).0 ::
              exists c :: c in cs && IsMember(st.store, c, author) && IsNews(st, c, x)
    decreases |cs|
  {
    hide SendPostHashes, MembersOrder, IsNews, IsMember;
    if cs != [] {
      MembersOnlyNews(st, author, cs[1..], choices);
      assert cs == [cs[0]] + cs[1..];
      if IsMember(st.store, cs[0], author) {
        OnlyNewsSent(st, cs[0], choices.livePeers, choices);
      }
    }
  }

  // The new post is among the news.

  /**
   * A text or topic post just published is in what the holder of a live time range request is told, if it is in
   * the range and the range is no longer than the limit.
   */
  lemma NewPostTold(crypto: P.Crypto, ps: seq<P.Post>, p: P.Post, opts: ChannelOptions, hs: seq<Hash>)
    requires (p.body.TextPost? || p.body.Topic?) && p.body.channel == opts.channel
    requires opts.timeStart == 0 || opts.timeStart <= p.header.timestamp
    requires opts.timeEnd == 0 || p.header.timestamp < opts.timeEnd
    requires RangeNews(S.Run(crypto, ps + [p]), opts, hs)
    requires var all := GetPostHashes(S.Run(crypto, ps + [p]), opts.channel, opts.timeStart, opts.timeEnd);
             opts.limit == 0 || |all.value| <= Min(opts.limit, 4096)
    ensures P.HashOf(crypto, p) in hs
  {
    hide S.Run, Trace, Log, StableSort, GetPostHashes, P.HashOf;
    var f, h := PostWithin(opts.channel, opts.timeStart, opts.timeEnd), P.HashOf(crypto, p);
    var ev := Trace(crypto, ps);
    PostHashesRefineHistory(crypto, ps + [p], opts.channel, opts.timeStart, opts.timeEnd);
    TraceEnds(crypto, ps, p);
    LogPut(ev, p, h, f);
    var es := Log(ev + [Put(p, h)], f);
    assert (p, h) in es;
    SortKeeps(es, (p, h));
    var i :| 0 <= i < |StableSort(es)| && StableSort(es)[i] == (p, h);
    assert Hashes(StableSort(es))[i] == h;
  }
}
