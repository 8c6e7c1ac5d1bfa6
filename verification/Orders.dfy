/**
 * What iterating a whole map amounts to: the lists in `Manager.Choices` and the targets of a broadcast as
 * orders of the maps and sets they stand for (cable_core/src/manager.rs, cable_core/src/store.rs).
 */
module Orders {
  import opened Wire
  import opened Messages
  import S = Store
  import opened Queries
  import opened Machine = Manager

  /** Every element once, in some order. */
  ghost predicate IsOrder<T(!new)>(xs: seq<T>, s: set<T>) {
    && (forall x :: x in xs <==> x in s)
    && (forall i, j | 0 <= i < j < |xs| :: xs[i] != xs[j])
  }

  // Broadcasts.

  /** A broadcast reaches every connected peer, and nobody else. */
  lemma {:induction false} BroadcastReaches(targets: seq<PeerId>, m: Message)
    ensures forall x :: x in Broadcast(targets, m) <==> x.0 in targets && x.1 == m
  {
    if targets != [] {
      BroadcastReaches(targets[1..], m);
      assert targets == [targets[0]] + targets[1..];
    }
  }

  /** Both requests of an opened channel go to every connected peer. */
  lemma OpenReaches(st: Manager, opts: ChannelOptions, targets: seq<PeerId>, peer: PeerId)
    requires IsOrder(targets, st.peers) && peer in st.peers
    ensures var (st1, id1) := NewReqId(st);
            var id2 := NewReqId(st1).1;
            var o := OpenChannel(st, opts, targets).1;
            && (peer, MakeRequest(NO_CIRCUIT, id1, TTL,
                                  ChannelTimeRange(opts.channel, opts.timeStart, opts.timeEnd, opts.limit))) in o
            && (peer, MakeRequest(NO_CIRCUIT, id2, TTL, ChannelState(opts.channel, 1))) in o
  {
    hide ReqIdBytes, Broadcast;
    var (st1, id1) := NewReqId(st);
    var id2 := NewReqId(st1).1;
    var range := ChannelTimeRange(opts.channel, opts.timeStart, opts.timeEnd, opts.limit);
    BroadcastReaches(targets, MakeRequest(NO_CIRCUIT, id1, TTL, range));
    BroadcastReaches(targets, MakeRequest(NO_CIRCUIT, id2, TTL, ChannelState(opts.channel, 1)));
  }

  // Closing a channel.

  lemma {:induction false} MatchingAll(outbound: map<Id, (Origin, Message)>, ids: seq<Id>, c: Text)
    ensures forall id :: id in MatchingIds(outbound, ids, c) <==>
                         id in ids && id in outbound && LocalRangeOf(outbound[id], c)
  {
    if ids != [] {
      MatchingAll(outbound, ids[1..], c);
      assert ids == [ids[0]] + ids[1..];
    }
  }

  ghost predicate CancelSent(o: Out, peer: PeerId, id: Id) {
    exists i :: 0 <= i < |o| && o[i].0 == peer && o[i].1.body == Request(TTL, Cancel(id))
  }

  lemma {:induction false} CancelAllOf(st: Manager, ids: seq<Id>, targets: seq<PeerId>)
    ensures CancelAll(st, ids, targets).0.outbound == st.outbound - (set id | id in ids)
    ensures forall id, peer | id in ids && peer in targets :: CancelSent(CancelAll(st, ids, targets).1, peer, id)
    decreases |ids|
  {
    hide ReqIdBytes;
    if ids != [] {
      var (st1, newId) := NewReqId(st);
      var st2 := st1.(outbound := st1.outbound - {ids[0]});
      CancelAllOf(st2, ids[1..], targets);
      assert ids == [ids[0]] + ids[1..];
      var m := MakeRequest(NO_CIRCUIT, newId, TTL, Cancel(ids[0]));
      var (first, later) := (Broadcast(targets, m), CancelAll(st2, ids[1..], targets).1);
      BroadcastReaches(targets, m);
      forall id, peer | id in ids && peer in targets ensures CancelSent(first + later, peer, id) {
        if id == ids[0] {
          assert (peer, m) in first;
          var i :| 0 <= i < |first| && first[i] == (peer, m);
          assert (first + later)[i] == (peer, m);
        } else {
          assert CancelSent(later, peer, id);
          var i :| 0 <= i < |later| && later[i].0 == peer && later[i].1.body == Request(TTL, Cancel(id));
          assert (first + later)[|first| + i] == later[i];
        }
      }
    }
  }

  /**
   * Closing a channel forgets exactly the local time range requests of that channel, and every connected peer
   * is sent a cancel for each.
   */
  lemma CloseCancelsAll(st: Manager, c: Text, targets: seq<PeerId>, choices: Choices)
    requires IsOrder(choices.outboundIds, st.outbound.Keys)
    ensures var (st', o) := CloseChannel(st, c, targets, choices);
            && st'.outbound == (map id | id in st.outbound && !LocalRangeOf(st.outbound[id], c) :: st.outbound[id])
            && forall id, peer | id in st.outbound && LocalRangeOf(st.outbound[id], c) && peer in targets ::
                 CancelSent(o, peer, id)
  {
    hide CancelAll, MatchingIds, CancelSent;
    MatchingAll(st.outbound, choices.outboundIds, c);
    CancelAllOf(st, MatchingIds(st.outbound, choices.outboundIds, c), targets);
  }

  // A new peer.

  /** A request with hops left that does not depend on what was forwarded before. */
  predicate Due(e: (Origin, Message)) {
    e.1.body.Request? && e.1.body.ttl > 0 && (e.0.Local? || !e.1.body.request.Cancel?)
  }

  /** A request without hops left. */
  predicate Exhausted(e: (Origin, Message)) {
    e.1.body.Request? && e.1.body.ttl == 0 && (e.0.Local? || !e.1.body.request.Cancel?)
  }

  lemma {:induction false} ProcessAll(st: Manager, peer: PeerId, snapshot: map<Id, (Origin, Message)>, ids: seq<Id>)
    ensures var (st', o) := ProcessOutbound(st, peer, snapshot, ids);
            && (forall id | id in ids && id in snapshot && Due(snapshot[id]) :: (peer, snapshot[id].1) in o)
            && (forall id | id in ids && id in snapshot && Exhausted(snapshot[id]) :: id !in st'.outbound)
            && st'.outbound.Keys <= st.outbound.Keys
    decreases |ids|
  {
    if ids != [] {
      var id, rest := ids[0], ids[1..];
      assert ids == [id] + rest;
      if id in snapshot {
        var (st1, o1) := ProcessOne(st, peer, id, snapshot[id].0, snapshot[id].1);
        ProcessOneDoes(st, peer, id, snapshot[id]);
        hide ProcessOne;
        ProcessAll(st1, peer, snapshot, rest);
      } else {
        ProcessAll(st, peer, snapshot, rest);
      }
    }
  }

  lemma ProcessOneDoes(st: Manager, peer: PeerId, id: Id, e: (Origin, Message))
    ensures var (st', o) := ProcessOne(st, peer, id, e.0, e.1);
            && (Due(e) ==> (peer, e.1) in o)
            && (Exhausted(e) ==> id !in st'.outbound)
            && st'.outbound.Keys <= st.outbound.Keys
  {
  }

  /** A new peer is sent every outbound request that is due, and the exhausted ones are forgotten. */
  lemma ConnectSendsAll(st: Manager, choices: Choices)
    requires IsOrder(choices.outboundIds, st.outbound.Keys)
    ensures var (st', o) := Connect(st, choices);
            && (forall id | id in st.outbound && Due(st.outbound[id]) :: (st.lastPeerId + 1, st.outbound[id].1) in o)
            && (forall id | id in st.outbound && Exhausted(st.outbound[id]) :: id !in st'.outbound)
  {
    hide ProcessOutbound, Due, Exhausted;
    var peer := st.lastPeerId + 1;
    ProcessAll(st.(lastPeerId := peer, peers := st.peers + {peer}), peer, st.outbound, choices.outboundIds);
  }

  // Live requests.

  /** The answer to one live request is among the messages. */
  ghost predicate Answered(st: Manager, peer: PeerId, r: LiveRequest, c: Text, choices: Choices, o: Out) {
    var answer := LiveResponse(st, peer, r, c, choices);
    answer.Ok? && forall x | x in answer.value :: x in o
  }

  lemma {:induction false} PeerAnswered(st: Manager, peer: PeerId, rs: seq<LiveRequest>, c: Text, choices: Choices)
    requires PeerResponses(st, peer, rs, c, choices).1.Ok?
    ensures forall r | r in rs :: Answered(st, peer, r, c, choices, PeerResponses(st, peer, rs, c, choices).0)
    decreases |rs|
  {
    hide LiveResponse;
    if rs != [] {
      PeerAnswered(st, peer, rs[1..], c, choices);
      assert rs == [rs[0]] + rs[1..];
    }
  }

  lemma {:induction false} PeersAnswered(st: Manager, c: Text, peers: seq<PeerId>, choices: Choices)
    requires SendPostHashes(st, c, peers, choices).1.Ok?
    ensures forall peer, r | peer in peers && peer in st.live && r in st.live[peer] ::
              Answered(st, peer, r, c, choices, SendPostHashes(st, c, peers, choices).0)
    decreases |peers|
  {
    hide LiveResponse, PeerResponses;
    if peers != [] {
      var rest := peers[1..];
      assert peers == [peers[0]] + rest;
      PeersAnswered(st, c, rest, choices);
      if peers[0] in st.live {
        PeerAnswered(st, peers[0], st.live[peers[0]], c, choices);
      }
    }
  }

  /** Every live request of every peer has its answer for `c` among the messages. */
  ghost predicate AllAnswered(st: Manager, c: Text, choices: Choices, o: Out) {
    forall peer, r | peer in st.live && r in st.live[peer] :: Answered(st, peer, r, c, choices, o)
  }

  /** After a post to a channel, every live request of every peer is answered. */
  lemma LiveAllAnswered(st: Manager, c: Text, choices: Choices)
    requires IsOrder(choices.livePeers, st.live.Keys) && SendPostHashes(st, c, choices.livePeers, choices).1.Ok?
    ensures AllAnswered(st, c, choices, SendPostHashes(st, c, choices.livePeers, choices).0)
  {
    hide SendPostHashes, Answered;
    PeersAnswered(st, c, choices.livePeers, choices);
  }

  lemma AnsweredAmong(st: Manager, c: Text, choices: Choices, a: Out, b: Out)
    ensures AllAnswered(st, c, choices, a) ==> AllAnswered(st, c, choices, a + b)
    ensures AllAnswered(st, c, choices, b) ==> AllAnswered(st, c, choices, a + b)
  {
    hide LiveResponse;
  }

  lemma {:induction false} ChannelsAnswered(st: Manager, author: Hash, cs: seq<Text>, choices: Choices)
    requires IsOrder(choices.livePeers, st.live.Keys) && SendToChannels(st, author, cs, choices).1.Ok?
    ensures forall c | c in cs && IsMember(st.store, c, author) ::
              AllAnswered(st, c, choices, SendToChannels(st, author, cs, choices).0)
    decreases |cs|
  {
    hide SendPostHashes, AllAnswered, IsMember, IsOrder;
    if cs != [] {
      var rest := cs[1..];
      assert cs == [cs[0]] + rest;
      ChannelsAnswered(st, author, rest, choices);
      if IsMember(st.store, cs[0], author) {
        var (o, later) := (SendPostHashes(st, cs[0], choices.livePeers, choices).0,
                           SendToChannels(st, author, rest, choices).0);
        LiveAllAnswered(st, cs[0], choices);
        forall c | c in cs && IsMember(st.store, c, author) ensures AllAnswered(st, c, choices, o + later) {
          AnsweredAmong(st, c, choices, o, later);
        }
      }
    }
  }

  /** After a post without a channel, so are those of every channel that its author is a member of. */
  lemma MemberChannelsAnswered(st: Manager, author: Hash, choices: Choices)
    requires IsOrder(choices.livePeers, st.live.Keys) && IsOrder(choices.channels, st.store.channels)
    requires SendToChannels(st, author, choices.channels, choices).1.Ok?
    ensures forall c | c in st.store.channels && IsMember(st.store, c, author) ::
              AllAnswered(st, c, choices, SendToChannels(st, author, choices.channels, choices).0)
  {
    hide SendToChannels, AllAnswered;
    ChannelsAnswered(st, author, choices.channels, choices);
  }

  // Channel state and channel lists.

  /** The hashes of a channel's membership map, in the order of its keys `ks`. */
  ghost predicate IsValues(hashes: seq<Hash>, m: map<Hash, Hash>, ks: seq<Hash>) {
    IsOrder(ks, m.Keys) && |hashes| == |ks| && forall i | 0 <= i < |ks| :: ks[i] in m && hashes[i] == m[ks[i]]
  }

  ghost predicate MembersOrder(choices: Choices, s: S.Store) {
    forall c | c in s.membership :: exists ks :: IsValues(choices.members(c), s.membership[c], ks)
  }

  lemma ValuesExact(hashes: seq<Hash>, m: map<Hash, Hash>, ks: seq<Hash>, h: Hash)
    requires IsValues(hashes, m, ks)
    ensures h in hashes <==> exists k :: k in m && m[k] == h
  {
    if h in hashes {
      var i :| 0 <= i < |hashes| && hashes[i] == h;
      assert ks[i] in m;
    }
    if k :| k in m && m[k] == h {
      assert k in ks;
      var i :| 0 <= i < |ks| && ks[i] == k;
      assert hashes[i] == h;
    }
  }

  /** The latest join or leave of someone in the channel, by its hash. */
  ghost predicate IsMove(s: S.Store, c: Text, h: Hash) {
    c in s.membership && exists k :: k in s.membership[c] && s.membership[c][k] == h
  }

  /** The state of a channel is the latest join or leave of everyone, and the topic. */
  ghost predicate StateExact(s: S.Store, c: Text, hashes: seq<Hash>) {
    forall h :: h in hashes <==> IsMove(s, c, h) || (GetTopic(s, c).Some? && GetTopic(s, c).value.1 == h)
  }

  lemma StateAllExact(s: S.Store, c: Text, choices: Choices)
    requires MembersOrder(choices, s)
    ensures StateExact(s, c, StateHashes(s, c, choices))
  {
    hide StateHashes, IsMove, GetTopic, MembersOrder;
    forall h: Hash
      ensures h in StateHashes(s, c, choices) <==>
              IsMove(s, c, h) || (GetTopic(s, c).Some? && GetTopic(s, c).value.1 == h)
    {
      StateHashesExact(s, c, choices, h);
    }
  }

  lemma StateHashesExact(s: S.Store, c: Text, choices: Choices, h: Hash)
    requires MembersOrder(choices, s)
    ensures h in StateHashes(s, c, choices) <==>
            IsMove(s, c, h) || (GetTopic(s, c).Some? && GetTopic(s, c).value.1 == h)
  {
    hide GetTopic, IsValues;
    if c in s.membership {
      var ks :| IsValues(choices.members(c), s.membership[c], ks);
      ValuesExact(choices.members(c), s.membership[c], ks, h);
    }
  }

  /** Without skip and limit a channel list names every known channel once; otherwise a stretch of that list. */
  lemma ChannelListExact(st: Manager, peer: PeerId, m: Message, skip: U64, limit: U64, choices: Choices)
    requires m.body.Request? && peer in st.peers && IsOrder(choices.channels, st.store.channels)
    ensures var s := HandleChannelList(st, peer, m, skip, limit, choices);
            var n := |choices.channels|;
            var end := if limit == 0 || limit > n then n else limit;
            && (s.result.Err? <==> st.store.channels != {} && skip > end)
            && (s.result.Ok? ==>
                  exists listed ::
                    && s.out == [(peer, MakeResponse(m.header.circuitId, m.header.reqId, ChannelListResponse(listed)))]
                    && (forall c | c in listed :: c in st.store.channels)
                    && (st.store.channels != {} ==>
                          && |listed| == end - skip
                          && forall i | 0 <= i < |listed| :: listed[i] == choices.channels[skip + i])
                    && (skip == 0 && end == n ==> IsOrder(listed, st.store.channels)))
  {
    hide ForwardIfTtl;
    var s := HandleChannelList(st, peer, m, skip, limit, choices);
    var all := choices.channels;
    var end := if limit == 0 || limit > |all| then |all| else limit;
    if s.result.Ok? {
      var listed: seq<Text> := if st.store.channels == {} then [] else all[skip..end];
      if all != [] {
        assert all[0] in all;
      }
      assert forall c | c in listed :: c in all;
      assert skip == 0 && end == |all| ==> listed == all;
      SamePeers(st, m);
      assert s.out == [(peer, MakeResponse(m.header.circuitId, m.header.reqId, ChannelListResponse(listed)))];
    }
  }

  lemma SamePeers(st: Manager, m: Message)
    requires m.body.Request?
    ensures ForwardIfTtl(st, m).peers == st.peers
  {
  }
}
