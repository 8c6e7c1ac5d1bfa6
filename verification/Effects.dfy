/**
 * What each message and each local command does to a peer and what it sends, in full (cable_core/src/manager.rs).
 */
module Effects {
  import opened Wire
  import opened Messages
  import P = Posts
  import History
  import S = Store
  import opened Queries
  import opened Machine = Manager
  import opened Orders
  import Peers

  // Request identifiers.

  const IDS: nat := 0x1_0000_0000

  /** The number that four bytes stand for, the first one counting most. */
  function FromId(id: Id): nat {
    var a: nat, b: nat, c: nat, d: nat := id[0], id[1], id[2], id[3];
    16777216 * a + 65536 * b + 256 * c + d
  }

  lemma IdMeaning(n: nat)
    requires n < IDS
    ensures FromId(ReqIdBytes(n)) == n
  {
    var a, b, c := n / 256, n / 65536, n / 16777216;
    assert n == 256 * a + n % 256;
    DivTwice(n);
    assert a == 256 * b + a % 256 && b == 256 * c + b % 256 && c < 256;
  }

  lemma DivTwice(n: nat)
    ensures n / 65536 == n / 256 / 256 && n / 16777216 == n / 65536 / 256
  {
  }

  /** The number of the `k`-th identifier allocated from now on. */
  function NthId(last: nat, k: nat): nat {
    if k == 0 then last else NextReqId(NthId(last, k - 1))
  }

  function Wrapped(n: nat): (r: nat)
    ensures r < IDS
  {
    n % IDS
  }

  lemma {:induction false} NthIdMeaning(last: nat, k: nat)
    requires last < IDS
    ensures NthId(last, k) == Wrapped(last + k)
  {
    if k > 0 {
      NthIdMeaning(last, k - 1);
    }
  }

  /** Two allocations give the same identifier exactly if their distance is a multiple of 2^32. */
  lemma IdsRepeat(last: nat, j: nat, k: nat)
    requires last < IDS && j <= k
    ensures ReqIdBytes(NthId(last, j)) == ReqIdBytes(NthId(last, k)) <==> Wrapped(k - j) == 0
  {
    hide ReqIdBytes, FromId, Wrapped;
    NthIdMeaning(last, j);
    NthIdMeaning(last, k);
    IdMeaning(Wrapped(last + j));
    IdMeaning(Wrapped(last + k));
    SameRemainder(last + j, last + k, k - j);
  }

  lemma SameRemainder(a: nat, b: nat, d: nat)
    requires a + d == b
    ensures Wrapped(a) == Wrapped(b) <==> Wrapped(d) == 0
  {
    var q, r := d / IDS, d % IDS;
    assert d == q * IDS + r;
  }

  // Requests.

  /** The request is forwarded with one hop less, as one of remote origin, if it has a hop left. */
  function Outbound(before: map<Id, (Origin, Message)>, m: Message): map<Id, (Origin, Message)>
    requires m.body.Request?
  {
    if m.body.ttl == 0 then before
    else before[m.header.reqId := (Remote, Message(m.header, Request(m.body.ttl - 1, m.body.request)))]
  }

  function Done(st: Manager, m: Message): Manager {
    st.(handled := st.handled + {m.header.reqId})
  }

  /** A response to `m` under its own identifier and circuit. */
  function Answer(m: Message, r: ResponseBody): Message {
    Message(Header(ResponseType(r), m.header.circuitId, m.header.reqId), Response(r))
  }

  /** Handled before, and neither live for this peer nor outbound: the message is ignored. Otherwise it is not. */
  predicate Ignored(st: Manager, peer: PeerId, id: Id) {
    && id in st.handled && id !in st.outbound
    && (peer in st.live ==> forall i | 0 <= i < |st.live[peer]| :: st.live[peer][i].reqId != id)
  }

  lemma IgnoredIsDropped(crypto: P.Crypto, st: Manager, peer: PeerId, m: Message, choices: Choices)
    ensures Ignored(st, peer, m.header.reqId) <==> Dropped(st, peer, m.header.reqId)
    ensures Ignored(st, peer, m.header.reqId) ==> Handle(crypto, st, peer, m, choices) == Step(st, [], Ok(()))
  {
    hide HandleBody;
  }

  lemma PostRequestEffect(crypto: P.Crypto, st: Manager, peer: PeerId, m: Message, choices: Choices)
    requires m.body.Request? && m.body.request.PostRequest? && !Ignored(st, peer, m.header.reqId) && peer in st.peers
    ensures Handle(crypto, st, peer, m, choices)
         == Step(Done(st.(outbound := Outbound(st.outbound, m)), m),
                 [(peer, Answer(m, PostResponse(GetPayloads(st.store, m.body.request.hashes))))], Ok(()))
  {
    hide GetPayloads;
  }

  /** Every live request but the peer's one of that identifier stays, and no other appears. */
  ghost predicate LiveWithout(
    before: map<PeerId, seq<LiveRequest>>, peer: PeerId, id: Id, after: map<PeerId, seq<LiveRequest>>)
  {
    && after.Keys == before.Keys
    && forall q, r | q in before :: r in after[q] <==> r in before[q] && !(q == peer && r.reqId == id)
  }

  /** The live requests that stay keep their order. */
  lemma {:induction false} KeptInOrder(a: seq<LiveRequest>, b: seq<LiveRequest>, id: Id)
    ensures KeepOthers(a + b, id) == KeepOthers(a, id) + KeepOthers(b, id)
    decreases |b|
  {
    if b == [] {
      assert a + b == a;
    } else {
      KeptInOrder(a, b[..|b| - 1], id);
      assert (a + b)[..|a + b| - 1] == a + b[..|b| - 1];
    }
  }

  lemma CancelEffect(crypto: P.Crypto, st: Manager, peer: PeerId, m: Message, choices: Choices)
    requires m.body.Request? && m.body.request.Cancel? && !Ignored(st, peer, m.header.reqId)
    ensures var s, gone := Handle(crypto, st, peer, m, choices), m.body.request.cancelId;
            if m.body.ttl == 0 then s == Step(st, [], Err(Panic))
            else
              && s.result.Ok? && s.out == []
              && s.state == Done(st.(live := s.state.live, outbound := Outbound(st.outbound, m) - {gone}), m)
              && LiveWithout(st.live, peer, gone, s.state.live)
  {
  }

  /** The live requests with one more for the peer, behind those it has. */
  function LiveWith(live: map<PeerId, seq<LiveRequest>>, peer: PeerId, r: LiveRequest): map<PeerId, seq<LiveRequest>> {
    live[peer := (if peer in live then live[peer] else []) + [r]]
  }

  lemma LiveWithIsPush(live: map<PeerId, seq<LiveRequest>>, peer: PeerId, r: LiveRequest)
    ensures LiveWith(live, peer, r) == S.PushAt(live, peer, r)
  {
    assert [] + [r] == [r];
  }

  /** The outcome of a time range request that is answered with `hs`. */
  ghost predicate RangeOutcome(
    st: Manager, peer: PeerId, m: Message, opts: ChannelOptions, hs: seq<Hash>, s: Step)
    requires m.body.Request?
  {
    && s.result.Ok?
    && s.out == (if hs == [] && opts.timeEnd == 0 then [] else [(peer, Answer(m, HashResponse(hs)))])
    && s.state == Done(st.(outbound := Outbound(st.outbound, m),
                           live := if opts.timeEnd == 0
                                   then LiveWith(st.live, peer, LiveRange(m.header.reqId, opts)) else st.live), m)
  }

  /**
   * A time range request is forwarded; it is kept alive if it has no end; its answer lists the first hashes of the
   * range, and is left out only if there is nothing to list and the request is kept alive.
   */
  lemma TimeRangeEffect(
    crypto: P.Crypto, st: Manager, peer: PeerId, m: Message, choices: Choices,
    c: Text, start: U64, end: U64, limit: U64)
    requires m.body.Request? && m.body.request == ChannelTimeRange(c, start, end, limit)
    requires !Ignored(st, peer, m.header.reqId) && peer in st.peers
    ensures var s, all := Handle(crypto, st, peer, m, choices), GetPostHashes(st.store, c, start, end);
            if all.Err? then
              s == Step(st.(outbound := Outbound(st.outbound, m)), [], Err(all.error))
            else
              exists hs :: IsCut(hs, all.value, limit)
                           && RangeOutcome(st, peer, m, ChannelOptions(c, start, end, limit), hs, s)
  {
    hide GetPostHashes, Limited, IsCut;
    var all := GetPostHashes(st.store, c, start, end);
    if all.Ok? {
      var hs, opts := Limited(all.value, limit), ChannelOptions(c, start, end, limit);
      LiveWithIsPush(st.live, peer, LiveRange(m.header.reqId, opts));
      assert RangeOutcome(st, peer, m, opts, hs, Handle(crypto, st, peer, m, choices));
      assert IsCut(hs, all.value, limit);
    }
  }

  /** The same in terms of history, for a store that agrees with one. */
  lemma TimeRangeListsHistory(
    crypto: P.Crypto, st: Manager, ev: seq<History.Event>, peer: PeerId, m: Message, choices: Choices,
    c: Text, start: U64, end: U64, limit: U64)
    requires m.body.Request? && m.body.request == ChannelTimeRange(c, start, end, limit)
    requires !Ignored(st, peer, m.header.reqId) && peer in st.peers && S.Agree(st.store, ev)
    requires start == 0 || end == 0 || start <= end
    ensures exists hs ::
              && IsCut(hs, Hashes(History.StableSort(History.Log(ev, History.PostWithin(c, start, end)))), limit)
              && Handle(crypto, st, peer, m, choices).out
                 == if hs == [] && end == 0 then [] else [(peer, Answer(m, HashResponse(hs)))]
  {
    hide GetPostHashes, IsCut, Handle, History.StableSort, History.Log, Ignored;
    PostHashesAgree(st.store, ev, c, start, end);
    TimeRangeEffect(crypto, st, peer, m, choices, c, start, end, limit);
  }

  /** The outcome of a channel state request for which there is `hs` to list. */
  ghost predicate StateOutcome(
    st: Manager, peer: PeerId, m: Message, c: Text, future: U64, hs: seq<Hash>, s: Step)
    requires m.body.Request?
  {
    && s.result.Ok?
    && s.state == Done(st.(outbound := Outbound(st.outbound, m),
                           live := if future == 1 then LiveWith(st.live, peer, LiveState(m.header.reqId, c))
                                   else st.live), m)
    && s.out == (if future == 0 && hs == [] then [(peer, Answer(m, HashResponse([])))]
                 else if future == 0
                 then [(peer, Answer(m, HashResponse(hs))), (peer, Answer(m, HashResponse([])))]
                 else if future == 1 && hs != [] then [(peer, Answer(m, HashResponse(hs)))]
                 else [])
  }

  /** A channel state request: answered and closed, or kept alive and answered, or neither. */
  lemma StateEffect(
    crypto: P.Crypto, st: Manager, peer: PeerId, m: Message, choices: Choices, c: Text, future: U64)
    requires m.body.Request? && m.body.request == ChannelState(c, future)
    requires !Ignored(st, peer, m.header.reqId) && peer in st.peers && MembersOrder(choices, st.store)
    ensures exists hs :: StateExact(st.store, c, hs)
                         && StateOutcome(st, peer, m, c, future, hs, Handle(crypto, st, peer, m, choices))
  {
    hide StateHashes, StateExact, MembersOrder;
    var hs := StateHashes(st.store, c, choices);
    StateAllExact(st.store, c, choices);
    LiveWithIsPush(st.live, peer, LiveState(m.header.reqId, c));
    var o: Out, close: Out := [(peer, Answer(m, HashResponse(hs)))], [(peer, Answer(m, HashResponse([])))];
    assert o + [] == o && o + close == [o[0], close[0]];
    assert StateOutcome(st, peer, m, c, future, hs, Handle(crypto, st, peer, m, choices));
  }

  lemma ListEffect(crypto: P.Crypto, st: Manager, peer: PeerId, m: Message, choices: Choices, skip: U64, limit: U64)
    requires m.body.Request? && m.body.request == ChannelList(skip, limit)
    requires !Ignored(st, peer, m.header.reqId)
    ensures var s := Handle(crypto, st, peer, m, choices);
            s.state == if s.result.Ok? then Done(st.(outbound := Outbound(st.outbound, m)), m)
                       else st.(outbound := Outbound(st.outbound, m))
  {
  }

  // Responses.

  /** A channel list response makes its channels known, and does nothing else. */
  lemma ChannelsEffect(crypto: P.Crypto, st: Manager, peer: PeerId, m: Message, choices: Choices, cs: seq<Text>)
    requires m.body == Response(ChannelListResponse(cs)) && !Ignored(st, peer, m.header.reqId)
    ensures var s := Handle(crypto, st, peer, m, choices);
            && s.out == [] && s.result.Ok?
            && s.state == Done(st.(store := st.store.(channels := s.state.store.channels)), m)
            && forall c :: c in s.state.store.channels <==> c in st.store.channels || c in cs
  {
  }

  /** A hash response: a request with one hop for what is lacking, under a new identifier, and its hashes marked. */
  lemma HashesEffect(crypto: P.Crypto, st: Manager, peer: PeerId, m: Message, choices: Choices, hashes: seq<Hash>)
    requires m.body == Response(HashResponse(hashes)) && !Ignored(st, peer, m.header.reqId) && peer in st.peers
    ensures var s, wanted := Handle(crypto, st, peer, m, choices), Want(st.store, hashes);
            && s.result.Ok?
            && (wanted == [] ==> s.state == Done(st, m) && s.out == [])
            && (wanted != [] ==>
                  var n := NextReqId(st.lastReqId);
                  && s.out == [(peer, Message(Header(POST_REQUEST, m.header.circuitId, ReqIdBytes(n)),
                                              Request(1, PostRequest(wanted))))]
                  && s.state == Done(st.(lastReqId := n, requested := s.state.requested), m)
                  && forall h :: h in s.state.requested <==> h in st.requested || h in wanted)
  {
    hide Want, ReqIdBytes;
  }

  // Opening and closing a channel.

  /** The two requests of an opened channel, with one hop and without a circuit. */
  function RangeOf(st: Manager, opts: ChannelOptions): Message {
    Message(Header(CHANNEL_TIME_RANGE_REQUEST, [0, 0, 0, 0], ReqIdBytes(NthId(st.lastReqId, 1))),
            Request(1, ChannelTimeRange(opts.channel, opts.timeStart, opts.timeEnd, opts.limit)))
  }

  function StateOf(st: Manager, opts: ChannelOptions): Message {
    Message(Header(CHANNEL_STATE_REQUEST, [0, 0, 0, 0], ReqIdBytes(NthId(st.lastReqId, 2))),
            Request(1, ChannelState(opts.channel, 1)))
  }

  lemma TwoIds(last: nat)
    ensures NthId(last, 1) == NextReqId(last) && NthId(last, 2) == NextReqId(NextReqId(last))
    ensures last < IDS ==> ReqIdBytes(NthId(last, 1)) != ReqIdBytes(NthId(last, 2))
  {
    hide ReqIdBytes;
    assert NthId(last, 0) == last;
    if last < IDS {
      IdsRepeat(last, 1, 2);
    }
  }

  /** Opening a channel records both requests as local ones under two new identifiers, and changes nothing else. */
  lemma OpenRecords(st: Manager, opts: ChannelOptions, targets: seq<PeerId>)
    requires st.lastReqId < IDS
    ensures var (st', o) := OpenChannel(st, opts, targets);
            var (range, state) := (RangeOf(st, opts), StateOf(st, opts));
            && range.header.reqId != state.header.reqId
            && st' == st.(lastReqId := NthId(st.lastReqId, 2),
                          outbound := st.outbound[range.header.reqId := (Local, range)]
                                                 [state.header.reqId := (Local, state)])
            && forall x :: x in o <==> x.0 in targets && (x.1 == range || x.1 == state)
  {
    hide ReqIdBytes, NthId, Broadcast;
    TwoIds(st.lastReqId);
    BroadcastReaches(targets, RangeOf(st, opts));
    BroadcastReaches(targets, StateOf(st, opts));
  }

  /** A peer that connects after the channel was opened is sent both requests, whoever was connected before. */
  lemma OpenThenConnect(st: Manager, opts: ChannelOptions, targets: seq<PeerId>, choices: Choices)
    requires st.lastReqId < IDS
    requires IsOrder(choices.outboundIds, OpenChannel(st, opts, targets).0.outbound.Keys)
    ensures var o := Connect(OpenChannel(st, opts, targets).0, choices).1;
            (st.lastPeerId + 1, RangeOf(st, opts)) in o && (st.lastPeerId + 1, StateOf(st, opts)) in o
  {
    hide OpenChannel, Connect, NthId, ReqIdBytes;
    var st' := OpenChannel(st, opts, targets).0;
    OpenRecords(st, opts, targets);
    ConnectSendsAll(st', choices);
    assert Due(st'.outbound[RangeOf(st, opts).header.reqId]) && Due(st'.outbound[StateOf(st, opts).header.reqId]);
  }

  /**
   * Closing a channel: the local time range requests of that channel are forgotten, every connected peer is sent a
   * cancel for each, and every other outbound request stays.
   */
  lemma CloseEffect(st: Manager, c: Text, targets: seq<PeerId>, choices: Choices)
    requires IsOrder(choices.outboundIds, st.outbound.Keys)
    ensures var (st', o) := CloseChannel(st, c, targets, choices);
            forall id :: if id in st.outbound && st.outbound[id].0 == Local && st.outbound[id].1.body.Request?
                            && st.outbound[id].1.body.request.ChannelTimeRange?
                            && st.outbound[id].1.body.request.channel == c
                         then id !in st'.outbound && forall peer | peer in targets :: CancelSent(o, peer, id)
                         else (id in st'.outbound <==> id in st.outbound)
                              && (id in st.outbound ==> st'.outbound[id] == st.outbound[id])
  {
    hide CloseChannel, CancelSent, IsOrder;
    CloseCancelsAll(st, c, targets, choices);
  }

  /** Closing a channel just opened cancels its time range request and leaves its state request outbound. */
  lemma OpenThenClose(st: Manager, opts: ChannelOptions, targets: seq<PeerId>, choices: Choices)
    requires st.lastReqId < IDS
    requires IsOrder(choices.outboundIds, OpenChannel(st, opts, targets).0.outbound.Keys)
    ensures var (st', o) := CloseChannel(OpenChannel(st, opts, targets).0, opts.channel, targets, choices);
            && RangeOf(st, opts).header.reqId !in st'.outbound && StateOf(st, opts).header.reqId in st'.outbound
            && forall peer | peer in targets :: CancelSent(o, peer, RangeOf(st, opts).header.reqId)
  {
    hide OpenChannel, CloseChannel, NthId, ReqIdBytes, CancelSent;
    OpenRecords(st, opts, targets);
    CloseEffect(OpenChannel(st, opts, targets).0, opts.channel, targets, choices);
  }

  // A new peer.

  /** A request of local origin, or one that is no cancel: sent once while it has a hop left, and recorded if remote. */
  lemma RequestProcessed(st: Manager, peer: PeerId, id: Id, origin: Origin, m: Message)
    requires m.body.Request? && (origin == Local || !m.body.request.Cancel?)
    ensures ProcessOne(st, peer, id, origin, m) ==
            if m.body.ttl == 0 then (st.(outbound := st.outbound - {id}), [])
            else if origin == Local then (st, [(peer, m)])
            else (st.(forwarded := st.forwarded[id := (if id in st.forwarded then st.forwarded[id] else {}) + {peer}]),
                  [(peer, m)])
  {
    var nothing: Out := [];
    assert nothing + [(peer, m)] == [(peer, m)];
  }

  /**
   * A cancel of remote origin: skipped for a peer that its request was not forwarded to, if it was forwarded to
   * any; else sent, and the record of that request loses the peer. After that it goes the way of any request, so
   * that a cancel with a hop left is sent once more.
   */
  lemma CancelProcessed(st: Manager, peer: PeerId, id: Id, m: Message, gone: Id)
    requires m.body.Request? && m.body.request == Cancel(gone)
    ensures var (st', o) := ProcessOne(st, peer, id, Remote, m);
            if gone in st.forwarded && peer !in st.forwarded[gone] then st' == st && o == []
            else
              && o == (if gone in st.forwarded then [(peer, m)] else []) + (if m.body.ttl > 0 then [(peer, m)] else [])
              && st'.outbound == (if m.body.ttl == 0 then st.outbound - {id} else st.outbound)
              && (forall k, q :: k in st'.forwarded && q in st'.forwarded[k] <==>
                    || (k in st.forwarded && q in st.forwarded[k] && !(k == gone && q == peer))
                    || (m.body.ttl > 0 && k == id && q == peer))
              && (gone in st.forwarded && st.forwarded[gone] == {peer} && (m.body.ttl == 0 || id != gone) ==>
                    gone !in st'.forwarded)
  {
  }

  /** A remote request sent to a new peer is recorded, unless a cancel for it is outbound as well. */
  lemma {:induction false} ForwardRecorded(
    st: Manager, peer: PeerId, snapshot: map<Id, (Origin, Message)>, ids: seq<Id>, id: Id)
    requires id in snapshot && snapshot[id].0 == Remote && snapshot[id].1.body.Request?
    requires !snapshot[id].1.body.request.Cancel? && snapshot[id].1.body.ttl > 0
    requires forall k | k in snapshot && snapshot[k].1.body.Request? :: snapshot[k].1.body.request != Cancel(id)
    requires id in ids || (id in st.forwarded && peer in st.forwarded[id])
    ensures var after := ProcessOutbound(st, peer, snapshot, ids).0.forwarded;
            id in after && peer in after[id]
    decreases |ids|
  {
    if ids != [] {
      var k, rest := ids[0], ids[1..];
      assert ids == [k] + rest;
      if k in snapshot {
        var st1 := ProcessOne(st, peer, k, snapshot[k].0, snapshot[k].1).0;
        if k == id {
          RequestProcessed(st, peer, k, Remote, snapshot[k].1);
        }
        ForwardRecorded(st1, peer, snapshot, rest, id);
      } else {
        ForwardRecorded(st, peer, snapshot, rest, id);
      }
    }
  }

  /** Connecting and disconnecting. */
  lemma PeersEffect(st: Manager, choices: Choices, peer: PeerId)
    ensures Connect(st, choices).0.peers == st.peers + {st.lastPeerId + 1}
    ensures Connect(st, choices).0.lastPeerId == st.lastPeerId + 1
    ensures Disconnect(st, peer) == st.(peers := st.peers - {peer})
  {
    var next := st.lastPeerId + 1;
    ProcessKeepsPeers(st.(lastPeerId := next, peers := st.peers + {next}), next, st.outbound, choices.outboundIds);
  }

  lemma {:induction false} ProcessKeepsPeers(
    st: Manager, peer: PeerId, snapshot: map<Id, (Origin, Message)>, ids: seq<Id>)
    ensures var after := ProcessOutbound(st, peer, snapshot, ids).0;
            after == st.(outbound := after.outbound, forwarded := after.forwarded)
    decreases |ids|
  {
    if ids != [] {
      if ids[0] in snapshot {
        var st1 := ProcessOne(st, peer, ids[0], snapshot[ids[0]].0, snapshot[ids[0]].1).0;
        ProcessKeepsPeers(st1, peer, snapshot, ids[1..]);
      } else {
        ProcessKeepsPeers(st, peer, snapshot, ids[1..]);
      }
    }
  }

  // Local deletion.

  /** `post_delete` bars exactly the listed hashes, before the delete post goes the way of any post. */
  lemma DeletePostsEffect(crypto: P.Crypto, st: Manager, p: P.Post, choices: Choices)
    requires p.body.Delete?
    ensures var (st', o) := Act(crypto, st, DeletePosts(p), choices);
            && (forall h :: h in st'.deleted <==> h in st.deleted || h in p.body.hashes)
            && st' == st.(deleted := st'.deleted, store := S.InsertPost(crypto, st.store, p).0)
  {
    hide S.InsertPost, SendPostHashes, SendToChannels;
  }

  /** Publishing stores the post and changes nothing else. */
  lemma PublishEffect(crypto: P.Crypto, st: Manager, p: P.Post, choices: Choices)
    ensures Act(crypto, st, PublishPost(p), choices).0 == st.(store := S.InsertPost(crypto, st.store, p).0)
  {
    hide S.InsertPost, SendPostHashes, SendToChannels;
  }

  lemma {:induction false} CancelKeepsBarred(st: Manager, ids: seq<Id>, peers: seq<PeerId>)
    ensures CancelAll(st, ids, peers).0.deleted == st.deleted
    decreases |ids|
  {
    if ids != [] {
      var st1 := NewReqId(st).0;
      CancelKeepsBarred(st1.(outbound := st1.outbound - {ids[0]}), ids[1..], peers);
    }
  }

  lemma HandleKeepsBarred(crypto: P.Crypto, st: Manager, peer: PeerId, m: Message, choices: Choices)
    ensures Handle(crypto, st, peer, m, choices).state.deleted == st.deleted
  {
    hide GetPostHashes, GetPayloads, StateHashes, Limited, Send, S.PushAt, RemoveLive, AdmitPosts, Want, IsLive;
    match m.body
    case Request(_, PostRequest(_)) =>
    case Request(_, Cancel(_)) =>
    case Request(_, ChannelTimeRange(_, _, _, _)) =>
    case Request(_, ChannelState(_, _)) =>
    case Request(_, ChannelList(_, _)) =>
    case Response(_) =>
    case Unrecognized(_) =>
  }

  /** Nothing but `post_delete` bars, and nothing lifts a bar. */
  lemma BarredExactly(crypto: P.Crypto, st: Manager, a: Action, choices: Choices, h: Hash)
    ensures h in Act(crypto, st, a, choices).0.deleted <==>
            h in st.deleted || (a.DeletePosts? && a.post.body.Delete? && h in a.post.body.hashes)
  {
    hide Handle, S.InsertPost, SendPostHashes, SendToChannels, ProcessOutbound, CancelAll, MatchingIds;
    match a
    case Receive(peer, m) => HandleKeepsBarred(crypto, st, peer, m, choices);
    case PublishPost(_) =>
    case DeletePosts(_) =>
    case Open(_, _) =>
    case Close(c, targets) => CancelKeepsBarred(st, MatchingIds(st.outbound, choices.outboundIds, c), targets);
    case Join =>
      var next := st.lastPeerId + 1;
      ProcessKeepsPeers(st.(lastPeerId := next, peers := st.peers + {next}), next, st.outbound, choices.outboundIds);
    case Leave(_) =>
  }

  /** What a post response hands to the store was requested, is not barred, and came verified and whole. */
  lemma {:induction false} AdmittedOnly(
    crypto: P.Crypto, deleted: set<Hash>, requested: set<Hash>, s: S.Store, posts: seq<Bytes>, p: P.Post)
    requires p in Peers.Admitted(crypto, deleted, requested, s, posts)
    ensures P.HashOf(crypto, p) !in deleted && P.HashOf(crypto, p) in requested
    ensures exists b :: b in posts && P.Verify(crypto, b) && P.Decode(b) == Ok((|b|, p))
    decreases |posts|
  {
    hide P.Verify, P.Decode, P.HashOf, S.InsertPost;
    var b, rest := posts[0], posts[1..];
    if P.Verify(crypto, b) && P.Decode(b).Ok? && p == P.Decode(b).value.1 && P.Decode(b).value.0 == |b|
       && P.HashOf(crypto, p) !in deleted && P.HashOf(crypto, p) in requested {
      assert b in posts;
    } else {
      var h := if P.Decode(b).Ok? then P.HashOf(crypto, P.Decode(b).value.1) else P.HashOf(crypto, p);
      if p in Peers.Admitted(crypto, deleted, requested, s, rest) {
        AdmittedOnly(crypto, deleted, requested, s, rest, p);
      } else {
        var s1 := S.InsertPost(crypto, s, P.Decode(b).value.1).0;
        AdmittedOnly(crypto, deleted, requested - {h}, s1, rest, p);
      }
      assert forall x | x in rest :: x in posts;
    }
  }

  /** No post of the list has that hash. */
  ghost predicate NoneHashes(crypto: P.Crypto, taken: seq<P.Post>, h: Hash) {
    forall i | 0 <= i < |taken| :: P.HashOf(crypto, taken[i]) != h
  }

  lemma NoneHashesCons(crypto: P.Crypto, p: P.Post, later: seq<P.Post>, h: Hash)
    ensures NoneHashes(crypto, [p] + later, h) <==> P.HashOf(crypto, p) != h && NoneHashes(crypto, later, h)
  {
    hide P.HashOf;
    var all := [p] + later;
    assert all[0] == p && forall i | 0 <= i < |later| :: all[i + 1] == later[i];
  }

  /** A post that is taken in uses up the mark of its hash, and no other mark goes. */
  lemma {:induction false} MarksUsed(
    crypto: P.Crypto, deleted: set<Hash>, requested: set<Hash>, s: S.Store, posts: seq<Bytes>, h: Hash)
    ensures h in AdmitPosts(crypto, deleted, requested, s, posts).requested <==>
            h in requested && NoneHashes(crypto, Peers.Admitted(crypto, deleted, requested, s, posts), h)
    decreases |posts|
  {
    hide P.Verify, P.Decode, P.HashOf, S.InsertPost, NoneHashes;
    assert NoneHashes(crypto, [], h) by { NoneHashed(crypto, h); }
    if posts != [] {
      var rest := posts[1..];
      MarksUsed(crypto, deleted, requested, s, rest, h);
      if P.Decode(posts[0]).Ok? {
        var p := P.Decode(posts[0]).value.1;
        var k, s1 := P.HashOf(crypto, p), S.InsertPost(crypto, s, p).0;
        MarksUsed(crypto, deleted, requested - {k}, s1, rest, h);
        NoneHashesCons(crypto, p, Peers.Admitted(crypto, deleted, requested - {k}, s1, rest), h);
        NoneHashesCons(crypto, p, [], h);
      }
    }
  }

  lemma NoneHashed(crypto: P.Crypto, h: Hash)
    ensures NoneHashes(crypto, [], h)
  {
  }

  /**
   * A post response: the store moves by the posts taken in, in their order, their marks are used up, and nothing
   * is sent.
   */
  lemma PostsEffect(
    crypto: P.Crypto, st: Manager, ps: seq<P.Post>, peer: PeerId, m: Message, choices: Choices, posts: seq<Bytes>)
    requires m.body == Response(PostResponse(posts)) && !Ignored(st, peer, m.header.reqId)
    requires Peers.SameButChannels(st.store, S.Run(crypto, ps))
    ensures var s := Handle(crypto, st, peer, m, choices);
            var taken := Peers.Admitted(crypto, st.deleted, st.requested, st.store, posts);
            var st' := st.(store := s.state.store, requested := s.state.requested);
            && s.out == [] && s.state == (if s.result.Ok? then Done(st', m) else st')
            && Peers.SameButChannels(s.state.store, S.Run(crypto, ps + taken))
            && forall h :: h in s.state.requested <==> h in st.requested && NoneHashes(crypto, taken, h)
  {
    hide AdmitPosts, Peers.Admitted, P.HashOf, S.Run, Peers.SameButChannels, NoneHashes;
    Peers.AdmittedRun(crypto, ps, st.deleted, st.requested, st.store, posts);
    forall h
      ensures h in AdmitPosts(crypto, st.deleted, st.requested, st.store, posts).requested <==>
              h in st.requested
              && NoneHashes(crypto, Peers.Admitted(crypto, st.deleted, st.requested, st.store, posts), h)
    {
      MarksUsed(crypto, st.deleted, st.requested, st.store, posts, h);
    }
  }

  /**
   * Once a hash is barred, no response of any later run hands the store a post with that hash: whatever post with
   * it the store is handed was published by a local command.
   */
  lemma {:induction false} BarredForever(crypto: P.Crypto, st: Manager, run: seq<(Action, Choices)>, h: Hash, p: P.Post)
    requires h in st.deleted && P.HashOf(crypto, p) == h && p in Peers.Inserted(crypto, st, run)
    ensures exists i :: 0 <= i < |run| && (run[i].0 == PublishPost(p) || run[i].0 == DeletePosts(p))
    decreases |run|
  {
    hide P.HashOf, Act, Peers.Admitted;
    var a, rest := run[0].0, run[1..];
    var st1 := Act(crypto, st, a, run[0].1).0;
    BarredExactly(crypto, st, a, run[0].1, h);
    if p in Peers.Handed(crypto, st, a) {
      if a.Receive? {
        AdmittedOnly(crypto, st.deleted, st.requested, st.store, a.message.body.response.posts, p);
      }
      assert run[0].0 == PublishPost(p) || run[0].0 == DeletePosts(p);
    } else {
      BarredForever(crypto, st1, rest, h, p);
      var i :| 0 <= i < |rest| && (rest[i].0 == PublishPost(p) || rest[i].0 == DeletePosts(p));
      assert run[i + 1] == rest[i];
    }
  }

  /** So a post whose hash `post_delete` was given comes back in no later run but by a local command. */
  lemma DeletedStaysOut(
    crypto: P.Crypto, st: Manager, d: P.Post, choices: Choices, run: seq<(Action, Choices)>, p: P.Post)
    requires d.body.Delete? && P.HashOf(crypto, p) in d.body.hashes
    requires p in Peers.Inserted(crypto, Act(crypto, st, DeletePosts(d), choices).0, run)
    ensures exists i :: 0 <= i < |run| && (run[i].0 == PublishPost(p) || run[i].0 == DeletePosts(p))
  {
    hide Act, P.HashOf, Peers.Inserted;
    DeletePostsEffect(crypto, st, d, choices);
    BarredForever(crypto, Act(crypto, st, DeletePosts(d), choices).0, run, P.HashOf(crypto, p), p);
  }
}
