/**
 * The store of a peer after any run: what its own posts and the responses it took in make it
 * (cable_core/src/manager.rs, cable_core/src/store.rs).
 */
module Peers {
  import opened Wire
  import opened Messages
  import P = Posts
  import opened History
  import S = Store
  import opened Queries
  import opened Manager
  import opened Requests

  /** A channel list response adds channels and touches nothing else. */
  ghost predicate SameButChannels(s: S.Store, t: S.Store) {
    s == t.(channels := s.channels)
  }

  lemma {:induction false} DeleteIgnoresChannels(s: S.Store, t: S.Store, author: Hash, hashes: seq<Hash>, own: Hash)
    requires SameButChannels(s, t)
    ensures SameButChannels(S.DeleteListed(s, author, hashes, own).0, S.DeleteListed(t, author, hashes, own).0)
    ensures S.DeleteListed(s, author, hashes, own).1 == S.DeleteListed(t, author, hashes, own).1
    decreases |hashes|
  {
    hide P.Decode, S.PushAt, S.RemoveTimed, S.RemoveMembership, S.RemoveInfoHash, S.RemovePost;
    if hashes != [] {
      DeleteIgnoresChannels(s, t, author, hashes[1..], own);
      var s1, t1 := S.DeletePost(s, hashes[0]), S.DeletePost(t, hashes[0]);
      DeleteIgnoresChannels(s1.(deleteHashes := S.PushAt(s1.deleteHashes, author, own)),
                            t1.(deleteHashes := S.PushAt(t1.deleteHashes, author, own)), author, hashes[1..], own);
    }
  }

  lemma InsertIgnoresChannels(crypto: P.Crypto, s: S.Store, t: S.Store, p: P.Post)
    requires SameButChannels(s, t)
    ensures SameButChannels(S.InsertPost(crypto, s, p).0, S.InsertPost(crypto, t, p).0)
  {
    hide P.HashOf, P.Encode, S.DeleteListed, S.PostsAfter, S.TopicsAfter, S.NamesAfter, S.InfosAfter;
    hide S.MembershipAfter, S.MembersAfter;
    if p.body.Delete? {
      DeleteIgnoresChannels(s, t, p.header.publicKey, p.body.hashes, P.HashOf(crypto, p));
    }
  }

  // The posts that a run hands to the store.

  /** The posts of a response that reach the store, in order. */
  function Admitted(crypto: P.Crypto, deleted: set<Hash>, requested: set<Hash>, s: S.Store, posts: seq<Bytes>)
    : seq<P.Post>
    decreases |posts|
  {
    if posts == [] then []
    else
      var b, rest := posts[0], posts[1..];
      if !P.Verify(crypto, b) then Admitted(crypto, deleted, requested, s, rest)
      else
        match P.Decode(b)
        case Err(_) => []
        case Ok(q) =>
          var h := P.HashOf(crypto, q.1);
          if q.0 != |b| then Admitted(crypto, deleted, requested, s, rest)
          else if q.1.body.UnrecognizedPost? then []
          else if h in deleted || h !in requested then Admitted(crypto, deleted, requested, s, rest)
          else
            var (s1, r) := S.InsertPost(crypto, s, q.1);
            [q.1] + if r.Err? then [] else Admitted(crypto, deleted, requested - {h}, s1, rest)
  }

  function Handed(crypto: P.Crypto, st: Manager, a: Action): seq<P.Post> {
    match a
    case Receive(peer, m) =>
      if Dropped(st, peer, m.header.reqId) || !m.body.Response? || !m.body.response.PostResponse? then []
      else Admitted(crypto, st.deleted, st.requested, st.store, m.body.response.posts)
    case PublishPost(p) => [p]
    case DeletePosts(p) => if p.body.Delete? then [p] else []
    case _ => []
  }

  /** All posts that a run hands to the store. */
  function Inserted(crypto: P.Crypto, st: Manager, run: seq<(Action, Choices)>): seq<P.Post>
    decreases |run|
  {
    if run == [] then []
    else
      Handed(crypto, st, run[0].0) + Inserted(crypto, Act(crypto, st, run[0].0, run[0].1).0, run[1..])
  }

  lemma RunPush(crypto: P.Crypto, ps: seq<P.Post>, p: P.Post)
    ensures S.Run(crypto, ps + [p]) == S.InsertPost(crypto, S.Run(crypto, ps), p).0
  {
    hide S.InsertPost;
    assert (ps + [p])[..|ps|] == ps;
  }

  lemma {:induction false} AdmittedRun(
    crypto: P.Crypto, ps: seq<P.Post>, deleted: set<Hash>, requested: set<Hash>, s: S.Store, posts: seq<Bytes>)
    requires SameButChannels(s, S.Run(crypto, ps))
    ensures SameButChannels(AdmitPosts(crypto, deleted, requested, s, posts).store,
                            S.Run(crypto, ps + Admitted(crypto, deleted, requested, s, posts)))
    decreases |posts|
  {
    hide P.Verify, P.Decode, P.HashOf, S.InsertPost, S.Run, SameButChannels;
    assert ps + [] == ps;
    if posts != [] {
      var rest := posts[1..];
      AdmittedRun(crypto, ps, deleted, requested, s, rest);
      if P.Decode(posts[0]).Ok? {
        var p := P.Decode(posts[0]).value.1;
        var (s1, r) := S.InsertPost(crypto, s, p);
        var h := P.HashOf(crypto, p);
        InsertIgnoresChannels(crypto, s, S.Run(crypto, ps), p);
        RunPush(crypto, ps, p);
        AdmittedRun(crypto, ps + [p], deleted, requested - {h}, s1, rest);
        var later := Admitted(crypto, deleted, requested - {h}, s1, rest);
        assert ps + [p] + later == ps + ([p] + later) && ps + ([p] + []) == ps + [p];
      }
    }
  }

  /** One action: the store moves by the posts handed to it. */
  lemma ActRun(crypto: P.Crypto, ps: seq<P.Post>, st: Manager, a: Action, choices: Choices)
    requires SameButChannels(st.store, S.Run(crypto, ps))
    ensures SameButChannels(Act(crypto, st, a, choices).0.store, S.Run(crypto, ps + Handed(crypto, st, a)))
  {
    hide S.Run, S.InsertPost, AdmitPosts, Admitted, SendPostHashes, SendToChannels, ProcessOutbound, CancelAll;
    assert ps + [] == ps;
    match a
    case Receive(peer, m) => ReceiveRun(crypto, ps, st, peer, m, choices);
    case PublishPost(p) => PublishRun(crypto, ps, st, p, choices);
    case DeletePosts(p) =>
      if p.body.Delete? {
        PublishRun(crypto, ps, st.(deleted := st.deleted + (set h | h in p.body.hashes)), p, choices);
      }
    case Open(_, _) =>
    case Close(c, targets) => CancelKeepsStore(st, MatchingIds(st.outbound, choices.outboundIds, c), targets);
    case Join =>
      var peer := st.lastPeerId + 1;
      var st1 := st.(lastPeerId := peer, peers := st.peers + {peer});
      ProcessKeepsStore(st1, peer, st1.outbound, choices.outboundIds);
    case Leave(_) =>
  }

  lemma PublishRun(crypto: P.Crypto, ps: seq<P.Post>, st: Manager, p: P.Post, choices: Choices)
    requires SameButChannels(st.store, S.Run(crypto, ps))
    ensures SameButChannels(Publish(crypto, st, p, choices).state.store, S.Run(crypto, ps + [p]))
  {
    hide S.Run, S.InsertPost, SendPostHashes, SendToChannels, SameButChannels;
    InsertIgnoresChannels(crypto, st.store, S.Run(crypto, ps), p);
    RunPush(crypto, ps, p);
  }

  lemma RequestKeepsStore(crypto: P.Crypto, st: Manager, peer: PeerId, m: Message, choices: Choices)
    requires m.body.Request?
    ensures HandleBody(crypto, st, peer, m, choices).state.store == st.store
  {
    hide GetPostHashes, GetPayloads, StateHashes, Limited, Send, S.PushAt, RemoveLive;
    match m.body.request
    case PostRequest(_) =>
    case Cancel(_) =>
    case ChannelTimeRange(_, _, _, _) =>
    case ChannelState(_, _) =>
    case ChannelList(_, _) =>
  }

  lemma ReceiveRun(crypto: P.Crypto, ps: seq<P.Post>, st: Manager, peer: PeerId, m: Message, choices: Choices)
    requires SameButChannels(st.store, S.Run(crypto, ps))
    ensures SameButChannels(Handle(crypto, st, peer, m, choices).state.store,
                            S.Run(crypto, ps + Handed(crypto, st, Receive(peer, m))))
  {
    hide S.Run, AdmitPosts, Admitted, IsLive, Want;
    assert ps + [] == ps;
    if m.body.Request? {
      hide HandleBody;
      RequestKeepsStore(crypto, st, peer, m, choices);
    } else if m.body.Response? && m.body.response.PostResponse? {
      AdmittedRun(crypto, ps, st.deleted, st.requested, st.store, m.body.response.posts);
    }
  }

  lemma {:induction false} CancelKeepsStore(st: Manager, ids: seq<Id>, peers: seq<PeerId>)
    ensures CancelAll(st, ids, peers).0.store == st.store
    decreases |ids|
  {
    if ids != [] {
      var st1 := NewReqId(st).0;
      CancelKeepsStore(st1.(outbound := st1.outbound - {ids[0]}), ids[1..], peers);
    }
  }

  lemma {:induction false} ProcessKeepsStore(
    st: Manager, peer: PeerId, snapshot: map<Id, (Origin, Message)>, ids: seq<Id>)
    ensures ProcessOutbound(st, peer, snapshot, ids).0.store == st.store
    decreases |ids|
  {
    if ids != [] {
      if ids[0] in snapshot {
        var st1 := ProcessOne(st, peer, ids[0], snapshot[ids[0]].0, snapshot[ids[0]].1).0;
        ProcessKeepsStore(st1, peer, snapshot, ids[1..]);
      } else {
        ProcessKeepsStore(st, peer, snapshot, ids[1..]);
      }
    }
  }

  /** Over any run, the store is that of the posts handed to it, but for channels learnt from others. */
  lemma {:induction false} StoreOfRun(crypto: P.Crypto, ps: seq<P.Post>, st: Manager, run: seq<(Action, Choices)>)
    requires SameButChannels(st.store, S.Run(crypto, ps))
    ensures SameButChannels(RunState(crypto, st, run).store, S.Run(crypto, ps + Inserted(crypto, st, run)))
    decreases |run|
  {
    hide Act, S.Run, SameButChannels, Handed;
    if run == [] {
      assert ps + [] == ps;
    } else {
      var st1 := Act(crypto, st, run[0].0, run[0].1).0;
      ActRun(crypto, ps, st, run[0].0, run[0].1);
      StoreOfRun(crypto, ps + Handed(crypto, st, run[0].0), st1, run[1..]);
      assert ps + Handed(crypto, st, run[0].0) + Inserted(crypto, st1, run[1..]) == ps + Inserted(crypto, st, run);
    }
  }

  /** A peer that started with an empty store. */
  ghost predicate EmptyStore(st: Manager) {
    st.store == S.EMPTY
  }

  /** So every index of a peer's store is what the history of its posts says, at any time. */
  lemma PeerAgrees(crypto: P.Crypto, st: Manager, run: seq<(Action, Choices)>)
    requires EmptyStore(st)
    ensures S.Agree(RunState(crypto, st, run).store, Trace(crypto, Inserted(crypto, st, run)))
    ensures SameButChannels(RunState(crypto, st, run).store, S.Run(crypto, Inserted(crypto, st, run)))
  {
    hide RunState, Inserted, Trace, S.PostsAgree, S.PayloadsAgree, S.TopicsAgree, S.NamesAgree;
    hide S.MembershipAgrees, S.MembersAgree, S.InfosAgree;
    var ps := Inserted(crypto, st, run);
    assert [] + ps == ps;
    StoreOfRun(crypto, [], st, run);
    hide S.Run;
    S.RunAgrees(crypto, ps);
  }

  /** What the peer's range query returns, at any time. */
  lemma PeerPostHashes(crypto: P.Crypto, st: Manager, run: seq<(Action, Choices)>, c: Text, start: U64, end: U64)
    requires EmptyStore(st) && (start == 0 || end == 0 || start <= end)
    ensures GetPostHashes(RunState(crypto, st, run).store, c, start, end)
         == Ok(Hashes(StableSort(Log(Trace(crypto, Inserted(crypto, st, run)), PostWithin(c, start, end)))))
  {
    hide RunState, Inserted, Trace, GetPostHashes, Log, StableSort, SameButChannels;
    PeerAgrees(crypto, st, run);
    PostHashesAgree(RunState(crypto, st, run).store, Trace(crypto, Inserted(crypto, st, run)), c, start, end);
  }

  /** No query looks at the known channels, so the results about `Store.Run` are results about the peer. */
  lemma PeerQueries(crypto: P.Crypto, st: Manager, run: seq<(Action, Choices)>, c: Text, k: Hash, h: Hash)
    requires EmptyStore(st)
    ensures var s, t := RunState(crypto, st, run).store, S.Run(crypto, Inserted(crypto, st, run));
            && GetLatestHashes(s, c) == GetLatestHashes(t, c)
            && GetTopic(s, c) == GetTopic(t, c) && GetName(s, k) == GetName(t, k)
            && IsMember(s, c, k) == IsMember(t, c, k) && IsExMember(s, c, k) == IsExMember(t, c, k)
            && S.MoveHash(s.membership, c, k) == S.MoveHash(t.membership, c, k)
            && (h in s.payloads ==> crypto.digest(s.payloads[h]) == h)
            && (Indexed(s, h) ==> h in s.payloads)
  {
    hide RunState, Inserted, Trace, S.Run, S.Agree, Indexed, LastTimed;
    var s, t := RunState(crypto, st, run).store, S.Run(crypto, Inserted(crypto, st, run));
    PeerAgrees(crypto, st, run);
    IntegrityOverRuns(crypto, Inserted(crypto, st, run), h);
    SameIndexed(s, t, h);
  }

  lemma SameIndexed(s: S.Store, t: S.Store, h: Hash)
    requires SameButChannels(s, t)
    ensures Indexed(s, h) == Indexed(t, h)
  {
  }
}
