/** The life of a request identifier, over every run of a peer (cable_core/src/manager.rs). */
module Requests {
  import opened Wire
  import opened Messages
  import P = Posts
  import opened Store
  import opened Queries
  import opened Manager

  /** Handled, not outbound, and live for nobody. */
  ghost predicate Dead(st: Manager, id: Id) {
    && id in st.handled
    && id !in st.outbound
    && forall peer | peer in st.live :: NoneOf(st.live[peer], id)
  }

  ghost predicate NoneOf(rs: seq<LiveRequest>, id: Id) {
    forall i | 0 <= i < |rs| :: rs[i].reqId != id
  }

  /** Every outbound request is kept under its own identifier. */
  ghost predicate Keyed(outbound: map<Id, (Origin, Message)>) {
    forall id | id in outbound :: outbound[id].1.header.reqId == id
  }

  /** No message of `out` carries `id`. */
  ghost predicate Silent(out: Out, id: Id) {
    forall i | 0 <= i < |out| :: out[i].1.header.reqId != id
  }

  lemma SilentBoth(a: Out, b: Out, id: Id)
    requires Silent(a, id) && Silent(b, id)
    ensures Silent(a + b, id)
  {
  }

  // The identifiers a step allocates.

  function AllocIds(last: nat, n: nat): set<Id>
    decreases n
  {
    if n == 0 then {} else {ReqIdBytes(NextReqId(last))} + AllocIds(NextReqId(last), n - 1)
  }

  /** A message makes the peer ask for posts exactly if it is a hash response, not dropped, that lists unknown ones. */
  predicate Requesting(st: Manager, peer: PeerId, m: Message) {
    && m.body.Response? && m.body.response.HashResponse? && !Dropped(st, peer, m.header.reqId)
    && Want(st.store, m.body.response.hashes) != []
  }

  function Allocations(st: Manager, a: Action, choices: Choices): nat {
    match a
    case Receive(peer, m) => if Requesting(st, peer, m) then 1 else 0
    case Open(_, _) => 2
    case Close(c, _) => |MatchingIds(st.outbound, choices.outboundIds, c)|
    case _ => 0
  }

  ghost function Fresh(st: Manager, a: Action, choices: Choices): set<Id> {
    AllocIds(st.lastReqId, Allocations(st, a, choices))
  }

  // Handling.

  lemma ForwardKeeps(st: Manager, m: Message, id: Id)
    requires Dead(st, id) && Keyed(st.outbound) && m.body.Request? && m.header.reqId != id
    ensures Dead(ForwardIfTtl(st, m), id) && Keyed(ForwardIfTtl(st, m).outbound)
  {
  }

  lemma PushKeeps(st: Manager, peer: PeerId, r: LiveRequest, id: Id)
    requires Dead(st, id) && r.reqId != id
    ensures Dead(st.(live := PushAt(st.live, peer, r)), id)
  {
    var live' := PushAt(st.live, peer, r);
    forall q | q in live' ensures NoneOf(live'[q], id) {
      if q in st.live {
        assert NoneOf(st.live[q], id);
      }
    }
  }

  lemma RemoveKeeps(st: Manager, peer: PeerId, gone: Id, id: Id)
    requires forall q | q in st.live :: NoneOf(st.live[q], id)
    ensures forall q | q in RemoveLive(st.live, peer, gone) :: NoneOf(RemoveLive(st.live, peer, gone)[q], id)
  {
    var live' := RemoveLive(st.live, peer, gone);
    forall q | q in live' ensures NoneOf(live'[q], id) {
      var rs := st.live[q];
      assert NoneOf(rs, id);
      forall i | 0 <= i < |live'[q]| ensures live'[q][i].reqId != id {
        assert live'[q][i] in live'[q];
        assert live'[q][i] in rs;
      }
    }
  }

  lemma HandleBodyKeeps(crypto: P.Crypto, st: Manager, peer: PeerId, m: Message, choices: Choices, id: Id)
    requires Dead(st, id) && Keyed(st.outbound) && m.header.reqId != id && !Dropped(st, peer, m.header.reqId)
    requires Requesting(st, peer, m) ==> NewReqId(st).1 != id
    ensures var s := HandleBody(crypto, st, peer, m, choices);
            Dead(s.state, id) && Keyed(s.state.outbound) && Silent(s.out, id)
  {
    hide GetPostHashes, StateHashes, GetPayloads, AdmitPosts, Want, ReqIdBytes, ForwardIfTtl, RemoveLive;
    if m.body.Request? {
      var st1 := ForwardIfTtl(st, m);
      ForwardKeeps(st, m, id);
      match m.body.request {
        case PostRequest(_) =>
        case Cancel(gone) =>
          if m.body.ttl > 0 {
            CancelKeeps(st, peer, m, gone, id);
          }
        case ChannelTimeRange(c, start, end, limit) =>
          PushKeeps(st1, peer, LiveRange(m.header.reqId, ChannelOptions(c, start, end, limit)), id);
        case ChannelState(c, _) =>
          PushKeeps(st1, peer, LiveState(m.header.reqId, c), id);
        case ChannelList(_, _) =>
      }
    }
  }

  lemma CancelKeeps(st: Manager, peer: PeerId, m: Message, gone: Id, id: Id)
    requires Dead(st, id) && Keyed(st.outbound) && m.body.Request? && m.body.ttl > 0 && m.header.reqId != id
    ensures var s := HandleCancel(st, peer, m, gone);
            Dead(s.state, id) && Keyed(s.state.outbound) && Silent(s.out, id)
  {
    RemoveKeeps(st, peer, gone, id);
  }

  lemma HandleKeeps(crypto: P.Crypto, st: Manager, peer: PeerId, m: Message, choices: Choices, id: Id)
    requires Dead(st, id) && Keyed(st.outbound)
    requires Requesting(st, peer, m) ==> NewReqId(st).1 != id
    ensures var s := Handle(crypto, st, peer, m, choices);
            Dead(s.state, id) && Keyed(s.state.outbound) && Silent(s.out, id)
  {
    hide HandleBody, NewReqId;
    if m.header.reqId == id {
      assert peer in st.live ==> NoneOf(st.live[peer], id);
      assert Dropped(st, peer, id);
    } else if !Dropped(st, peer, m.header.reqId) {
      HandleBodyKeeps(crypto, st, peer, m, choices, id);
    }
  }

  // Publishing.

  lemma {:induction false} PeerResponsesSilent(
    st: Manager, peer: PeerId, rs: seq<LiveRequest>, c: Text, choices: Choices, id: Id)
    requires NoneOf(rs, id)
    ensures Silent(PeerResponses(st, peer, rs, c, choices).0, id)
    decreases |rs|
  {
    hide GetPostHashes, LiveStateHashes, Limited;
    if rs != [] {
      var r := LiveResponse(st, peer, rs[0], c, choices);
      assert r.Ok? ==> Silent(r.value, id);
      PeerResponsesSilent(st, peer, rs[1..], c, choices, id);
      if r.Ok? {
        SilentBoth(r.value, PeerResponses(st, peer, rs[1..], c, choices).0, id);
      }
    }
  }

  lemma {:induction false} SendPostHashesSilent(st: Manager, c: Text, peers: seq<PeerId>, choices: Choices, id: Id)
    requires forall peer | peer in st.live :: NoneOf(st.live[peer], id)
    ensures Silent(SendPostHashes(st, c, peers, choices).0, id)
    decreases |peers|
  {
    hide PeerResponses;
    if peers != [] {
      SendPostHashesSilent(st, c, peers[1..], choices, id);
      if peers[0] in st.live {
        PeerResponsesSilent(st, peers[0], st.live[peers[0]], c, choices, id);
        SilentBoth(PeerResponses(st, peers[0], st.live[peers[0]], c, choices).0,
                   SendPostHashes(st, c, peers[1..], choices).0, id);
      }
    }
  }

  lemma {:induction false} SendToChannelsSilent(st: Manager, author: Hash, cs: seq<Text>, choices: Choices, id: Id)
    requires forall peer | peer in st.live :: NoneOf(st.live[peer], id)
    ensures Silent(SendToChannels(st, author, cs, choices).0, id)
    decreases |cs|
  {
    hide SendPostHashes, IsMember;
    if cs != [] {
      SendToChannelsSilent(st, author, cs[1..], choices, id);
      SendPostHashesSilent(st, cs[0], choices.livePeers, choices, id);
      SilentBoth(SendPostHashes(st, cs[0], choices.livePeers, choices).0,
                 SendToChannels(st, author, cs[1..], choices).0, id);
    }
  }

  lemma PublishKeeps(crypto: P.Crypto, st: Manager, p: P.Post, choices: Choices, id: Id)
    requires Dead(st, id) && Keyed(st.outbound)
    ensures var s := Publish(crypto, st, p, choices);
            Dead(s.state, id) && Keyed(s.state.outbound) && Silent(s.out, id)
  {
    hide InsertPost, SendPostHashes, SendToChannels;
    var st1 := st.(store := InsertPost(crypto, st.store, p).0);
    if P.ChannelOf(p).Some? {
      SendPostHashesSilent(st1, P.ChannelOf(p).value, choices.livePeers, choices, id);
    } else {
      SendToChannelsSilent(st1, p.header.publicKey, choices.channels, choices, id);
    }
  }

  // Local requests.

  lemma {:induction false} BroadcastSilent(peers: seq<PeerId>, m: Message, id: Id)
    requires m.header.reqId != id
    ensures Silent(Broadcast(peers, m), id)
  {
    if peers != [] {
      BroadcastSilent(peers[1..], m, id);
      SilentBoth([(peers[0], m)], Broadcast(peers[1..], m), id);
    }
  }

  lemma LocalRequestKeeps(st: Manager, r: RequestBody, peers: seq<PeerId>, id: Id)
    requires Dead(st, id) && Keyed(st.outbound) && NewReqId(st).1 != id
    ensures var (st', o) := LocalRequest(st, r, peers);
            Dead(st', id) && Keyed(st'.outbound) && Silent(o, id)
    ensures LocalRequest(st, r, peers).0.lastReqId == NextReqId(st.lastReqId)
  {
    hide ReqIdBytes, Broadcast;
    BroadcastSilent(peers, MakeRequest(NO_CIRCUIT, NewReqId(st).1, TTL, r), id);
  }

  lemma OpenKeeps(st: Manager, opts: ChannelOptions, peers: seq<PeerId>, id: Id)
    requires Dead(st, id) && Keyed(st.outbound) && id !in AllocIds(st.lastReqId, 2)
    ensures var (st', o) := OpenChannel(st, opts, peers);
            Dead(st', id) && Keyed(st'.outbound) && Silent(o, id)
  {
    hide ReqIdBytes, LocalRequest, Dead, Keyed;
    assert AllocIds(st.lastReqId, 2) == {ReqIdBytes(NextReqId(st.lastReqId))} + AllocIds(NextReqId(st.lastReqId), 1);
    var r1 := ChannelTimeRange(opts.channel, opts.timeStart, opts.timeEnd, opts.limit);
    LocalRequestKeeps(st, r1, peers, id);
    var (st1, o1) := LocalRequest(st, r1, peers);
    LocalRequestKeeps(st1, ChannelState(opts.channel, 1), peers, id);
    SilentBoth(o1, LocalRequest(st1, ChannelState(opts.channel, 1), peers).1, id);
  }

  lemma {:induction false} CancelAllKeeps(st: Manager, ids: seq<Id>, peers: seq<PeerId>, id: Id)
    requires Dead(st, id) && Keyed(st.outbound) && id !in AllocIds(st.lastReqId, |ids|)
    ensures var (st', o) := CancelAll(st, ids, peers);
            Dead(st', id) && Keyed(st'.outbound) && Silent(o, id)
    decreases |ids|
  {
    hide ReqIdBytes, Broadcast;
    if ids != [] {
      var (st1, new') := NewReqId(st);
      var st2 := st1.(outbound := st1.outbound - {ids[0]});
      var m := MakeRequest(NO_CIRCUIT, new', TTL, Cancel(ids[0]));
      CancelAllKeeps(st2, ids[1..], peers, id);
      BroadcastSilent(peers, m, id);
      SilentBoth(Broadcast(peers, m), CancelAll(st2, ids[1..], peers).1, id);
    }
  }

  // Connecting.

  lemma ProcessOneKeeps(st: Manager, peer: PeerId, key: Id, origin: Origin, m: Message, id: Id)
    requires Dead(st, id) && Keyed(st.outbound) && m.header.reqId != id
    ensures var (st', o) := ProcessOne(st, peer, key, origin, m);
            Dead(st', id) && Keyed(st'.outbound) && Silent(o, id)
  {
    hide RemoveForwarded, AddForwarded;
  }

  lemma {:induction false} ProcessOutboundKeeps(
    st: Manager, peer: PeerId, snapshot: map<Id, (Origin, Message)>, ids: seq<Id>, id: Id)
    requires Dead(st, id) && Keyed(st.outbound) && Keyed(snapshot) && id !in snapshot
    ensures var (st', o) := ProcessOutbound(st, peer, snapshot, ids);
            Dead(st', id) && Keyed(st'.outbound) && Silent(o, id)
    decreases |ids|
  {
    hide ProcessOne;
    if ids != [] {
      if ids[0] in snapshot {
        var (origin, m) := snapshot[ids[0]];
        ProcessOneKeeps(st, peer, ids[0], origin, m, id);
        var (st1, o1) := ProcessOne(st, peer, ids[0], origin, m);
        ProcessOutboundKeeps(st1, peer, snapshot, ids[1..], id);
        SilentBoth(o1, ProcessOutbound(st1, peer, snapshot, ids[1..]).1, id);
      } else {
        ProcessOutboundKeeps(st, peer, snapshot, ids[1..], id);
      }
    }
  }

  // Every action, and every run.

  /** A dead identifier stays dead through every action, and no message carries it unless it is allocated anew. */
  lemma DeadIsAbsorbing(crypto: P.Crypto, st: Manager, a: Action, choices: Choices, id: Id)
    requires Dead(st, id) && Keyed(st.outbound) && id !in Fresh(st, a, choices)
    ensures var (st', o) := Act(crypto, st, a, choices);
            Dead(st', id) && Keyed(st'.outbound) && Silent(o, id)
  {
    hide Dead, Keyed, Handle, Publish, OpenChannel, CancelAll, ProcessOutbound, MatchingIds, ReqIdBytes;
    match a
    case Receive(peer, m) =>
      HandleKeeps(crypto, st, peer, m, choices, id);
    case PublishPost(p) =>
      PublishKeeps(crypto, st, p, choices, id);
    case DeletePosts(p) =>
      if p.body.Delete? {
        var st1 := st.(deleted := st.deleted + (set h | h in p.body.hashes));
        SameRequests(st, st1, id);
        PublishKeeps(crypto, st1, p, choices, id);
      }
    case Open(opts, targets) =>
      OpenKeeps(st, opts, targets, id);
    case Close(c, targets) =>
      CancelAllKeeps(st, MatchingIds(st.outbound, choices.outboundIds, c), targets, id);
    case Join =>
      var peer := st.lastPeerId + 1;
      var st1 := st.(lastPeerId := peer, peers := st.peers + {peer});
      SameRequests(st, st1, id);
      ProcessOutboundKeeps(st1, peer, st1.outbound, choices.outboundIds, id);
    case Leave(peer) =>
      SameRequests(st, Disconnect(st, peer), id);
  }

  lemma SameRequests(st: Manager, st1: Manager, id: Id)
    requires Dead(st, id) && st1.handled == st.handled && st1.outbound == st.outbound && st1.live == st.live
    ensures Dead(st1, id) && id !in st1.outbound
  {
  }

  /** All messages sent by a run. */
  function RunOut(crypto: P.Crypto, st: Manager, run: seq<(Action, Choices)>): Out
    decreases |run|
  {
    if run == [] then []
    else
      var (st1, o) := Act(crypto, st, run[0].0, run[0].1);
      o + RunOut(crypto, st1, run[1..])
  }

  /** No step of the run allocates `id`. */
  ghost predicate NeverAllocated(crypto: P.Crypto, st: Manager, run: seq<(Action, Choices)>, id: Id)
    decreases |run|
  {
    run != [] ==>
      && id !in Fresh(st, run[0].0, run[0].1)
      && NeverAllocated(crypto, Act(crypto, st, run[0].0, run[0].1).0, run[1..], id)
  }

  lemma {:induction false} DeadForever(crypto: P.Crypto, st: Manager, run: seq<(Action, Choices)>, id: Id)
    requires Dead(st, id) && Keyed(st.outbound) && NeverAllocated(crypto, st, run, id)
    ensures Silent(RunOut(crypto, st, run), id)
    decreases |run|
  {
    hide Dead, Keyed, Act, Fresh;
    if run != [] {
      DeadIsAbsorbing(crypto, st, run[0].0, run[0].1, id);
      var (st1, o) := Act(crypto, st, run[0].0, run[0].1);
      DeadForever(crypto, st1, run[1..], id);
      SilentBoth(o, RunOut(crypto, st1, run[1..]), id);
    }
  }

  /** `peer` is the only one for whom `id` is live. */
  ghost predicate OnlyHolder(st: Manager, peer: PeerId, id: Id) {
    forall q | q in st.live && q != peer :: NoneOf(st.live[q], id)
  }

  /** Cancelling by the only holder kills the identifier, unless the unchecked decrement of a zero ttl fails. */
  lemma CancelKillsExactly(crypto: P.Crypto, st: Manager, peer: PeerId, m: Message, choices: Choices, id: Id)
    requires id in st.handled && Keyed(st.outbound) && OnlyHolder(st, peer, id) && IsLive(st, peer, id)
    requires m.body.Request? && m.body.request == Cancel(id) && !Dropped(st, peer, m.header.reqId)
    ensures var s := Handle(crypto, st, peer, m, choices);
            && Keyed(s.state.outbound)
            && (Dead(s.state, id) <==> m.body.ttl > 0)
            && (m.body.ttl == 0 ==> s == Step(st, [], Err(Panic)))
  {
    hide HandleHashes, HandlePosts, HandleState, HandleTimeRange, HandleChannelList, HandlePostRequest;
    if m.body.ttl > 0 {
      var live' := RemoveLive(st.live, peer, id);
      forall q | q in live' ensures NoneOf(live'[q], id) {
        forall i | 0 <= i < |live'[q]| ensures live'[q][i].reqId != id {
          assert live'[q][i] in live'[q];
        }
      }
    } else {
      assert !NoneOf(st.live[peer], id);
    }
  }

  /** Once its only holder has cancelled a request, nothing tagged with it is ever sent again. */
  lemma CancelledIsSilent(
    crypto: P.Crypto, st: Manager, peer: PeerId, m: Message, choices: Choices, id: Id, run: seq<(Action, Choices)>)
    requires id in st.handled && Keyed(st.outbound) && OnlyHolder(st, peer, id) && IsLive(st, peer, id)
    requires m.body.Request? && m.body.request == Cancel(id) && m.body.ttl > 0
    requires !Dropped(st, peer, m.header.reqId)
    requires NeverAllocated(crypto, Handle(crypto, st, peer, m, choices).state, run, id)
    ensures Silent(RunOut(crypto, Handle(crypto, st, peer, m, choices).state, run), id)
  {
    hide Dead, Keyed, Handle, RunOut, OnlyHolder, NeverAllocated, IsLive;
    CancelKillsExactly(crypto, st, peer, m, choices, id);
    DeadForever(crypto, Handle(crypto, st, peer, m, choices).state, run, id);
  }

  // The outbound table on its own.

  /** An outbound entry after handling is an old one, or the handled request with one hop less. */
  ghost predicate ForwardOf(before: map<Id, (Origin, Message)>, m: Message, after: map<Id, (Origin, Message)>) {
    forall id | id in after ::
      || (id in before && after[id] == before[id])
      || (id == m.header.reqId && m.body.Request? && m.body.ttl > 0
          && after[id] == (Remote, m.(body := m.body.(ttl := m.body.ttl - 1))))
  }

  lemma HandleBodyForwards(crypto: P.Crypto, st: Manager, peer: PeerId, m: Message, choices: Choices)
    ensures ForwardOf(st.outbound, m, HandleBody(crypto, st, peer, m, choices).state.outbound)
    ensures HandleBody(crypto, st, peer, m, choices).state.forwarded == st.forwarded
  {
    hide GetPostHashes, StateHashes, GetPayloads, AdmitPosts, Want, ReqIdBytes, RemoveLive, IsLive, Send, PushAt;
    hide ForwardIfTtl, Limited;
    if m.body.Request? {
      ForwardIfTtlForwards(st, m);
      match m.body.request {
        case PostRequest(_) =>
        case Cancel(gone) =>
        case ChannelTimeRange(_, _, _, _) =>
        case ChannelState(_, _) =>
        case ChannelList(_, _) =>
      }
    }
  }

  lemma ForwardIfTtlForwards(st: Manager, m: Message)
    requires m.body.Request?
    ensures ForwardOf(st.outbound, m, ForwardIfTtl(st, m).outbound)
    ensures ForwardIfTtl(st, m).forwarded == st.forwarded
  {
  }

  lemma HandleForwards(crypto: P.Crypto, st: Manager, peer: PeerId, m: Message, choices: Choices)
    ensures ForwardOf(st.outbound, m, Handle(crypto, st, peer, m, choices).state.outbound)
    ensures Handle(crypto, st, peer, m, choices).state.forwarded == st.forwarded
  {
    hide HandleBody, IsLive;
    HandleBodyForwards(crypto, st, peer, m, choices);
  }

  lemma {:induction false} CancelAllRemoves(st: Manager, ids: seq<Id>, peers: seq<PeerId>)
    ensures var after := CancelAll(st, ids, peers).0;
            after.forwarded == st.forwarded
            && forall id | id in after.outbound :: id in st.outbound && after.outbound[id] == st.outbound[id]
    decreases |ids|
  {
    hide ReqIdBytes, Broadcast;
    if ids != [] {
      var st1 := NewReqId(st).0;
      CancelAllRemoves(st1.(outbound := st1.outbound - {ids[0]}), ids[1..], peers);
    }
  }

  /** An outbound entry after a local command is an old one or a local request with the standard ttl. */
  ghost predicate LocalOf(before: map<Id, (Origin, Message)>, after: map<Id, (Origin, Message)>) {
    forall id | id in after ::
      || (id in before && after[id] == before[id])
      || (after[id].0.Local? && after[id].1.header.reqId == id)
  }

  lemma LocalCommands(crypto: P.Crypto, st: Manager, a: Action, choices: Choices)
    requires !a.Receive? && !a.Join?
    ensures LocalOf(st.outbound, Act(crypto, st, a, choices).0.outbound)
    ensures Act(crypto, st, a, choices).0.forwarded == st.forwarded
  {
    hide ReqIdBytes, Broadcast, InsertPost, SendPostHashes, SendToChannels, CancelAll, MatchingIds;
    match a
    case Close(c, targets) => CancelAllRemoves(st, MatchingIds(st.outbound, choices.outboundIds, c), targets);
    case _ =>
  }

  /** What connecting a peer does to the tables, and what it sends. */
  ghost predicate SendsFrom(snapshot: map<Id, (Origin, Message)>, peer: PeerId, out: Out) {
    forall i | 0 <= i < |out| ::
      && out[i].0 == peer
      && out[i].1.header.reqId in snapshot
      && out[i].1 == snapshot[out[i].1.header.reqId].1
      && out[i].1.body.Request?
      && (out[i].1.body.ttl > 0 || out[i].1.body.request.Cancel?)
  }

  /** The pairs of peer and identifier that `out` reaches. */
  ghost function Reached(out: Out): set<(PeerId, Id)> {
    set i | 0 <= i < |out| :: (out[i].0, out[i].1.header.reqId)
  }

  lemma ReachedBoth(a: Out, b: Out)
    ensures Reached(a + b) == Reached(a) + Reached(b)
  {
    forall x | x in Reached(a) + Reached(b) ensures x in Reached(a + b) {
      if x in Reached(a) {
        var i :| 0 <= i < |a| && x == (a[i].0, a[i].1.header.reqId);
        assert (a + b)[i] == a[i];
      } else {
        var i :| 0 <= i < |b| && x == (b[i].0, b[i].1.header.reqId);
        assert (a + b)[|a| + i] == b[i];
      }
    }
  }

  /** Every recorded forwarding really happened, and no record is empty. */
  ghost predicate ForwardedTrue(forwarded: map<Id, set<PeerId>>, log: set<(PeerId, Id)>) {
    forall id | id in forwarded ::
      forwarded[id] != {} && forall peer | peer in forwarded[id] :: (peer, id) in log
  }

  lemma ProcessOneForwarded(st: Manager, peer: PeerId, id: Id, origin: Origin, m: Message, log: set<(PeerId, Id)>)
    requires ForwardedTrue(st.forwarded, log) && m.header.reqId == id
    ensures var (st', o) := ProcessOne(st, peer, id, origin, m);
            ForwardedTrue(st'.forwarded, log + Reached(o))
  {
    var (st', o) := ProcessOne(st, peer, id, origin, m);
    if o != [] {
      assert o[|o| - 1] == (peer, m);
      assert (peer, id) in Reached(o);
    }
  }

  lemma {:induction false} ProcessOutboundForwarded(
    st: Manager, peer: PeerId, snapshot: map<Id, (Origin, Message)>, ids: seq<Id>, log: set<(PeerId, Id)>)
    requires ForwardedTrue(st.forwarded, log) && Keyed(snapshot)
    ensures var (st', o) := ProcessOutbound(st, peer, snapshot, ids);
            ForwardedTrue(st'.forwarded, log + Reached(o))
    decreases |ids|
  {
    hide ProcessOne, ForwardedTrue;
    if ids == [] {
      assert log + Reached([]) == log;
    } else if ids[0] in snapshot {
      var (origin, m) := snapshot[ids[0]];
      ProcessOneForwarded(st, peer, ids[0], origin, m, log);
      var (st1, o1) := ProcessOne(st, peer, ids[0], origin, m);
      ProcessOutboundForwarded(st1, peer, snapshot, ids[1..], log + Reached(o1));
      var o2 := ProcessOutbound(st1, peer, snapshot, ids[1..]).1;
      ReachedBoth(o1, o2);
      assert log + Reached(o1) + Reached(o2) == log + Reached(o1 + o2);
    } else {
      ProcessOutboundForwarded(st, peer, snapshot, ids[1..], log);
    }
  }

  /** Connecting removes outbound entries at most, and sends what is in the snapshot. */
  lemma {:induction false} ProcessOutboundShape(
    st: Manager, peer: PeerId, snapshot: map<Id, (Origin, Message)>, ids: seq<Id>)
    requires Keyed(snapshot)
    ensures var (st', o) := ProcessOutbound(st, peer, snapshot, ids);
            && (forall id | id in st'.outbound :: id in st.outbound && st'.outbound[id] == st.outbound[id])
            && SendsFrom(snapshot, peer, o)
    decreases |ids|
  {
    hide RemoveForwarded, AddForwarded;
    if ids != [] {
      if ids[0] in snapshot {
        var (st1, o1) := ProcessOne(st, peer, ids[0], snapshot[ids[0]].0, snapshot[ids[0]].1);
        assert SendsFrom(snapshot, peer, o1);
        ProcessOutboundShape(st1, peer, snapshot, ids[1..]);
      } else {
        ProcessOutboundShape(st, peer, snapshot, ids[1..]);
      }
    }
  }

  lemma {:induction false} ForwardedMonotone(f: map<Id, set<PeerId>>, log: set<(PeerId, Id)>, more: set<(PeerId, Id)>)
    requires ForwardedTrue(f, log)
    ensures ForwardedTrue(f, log + more)
  {
  }

  lemma ActForwarded(crypto: P.Crypto, st: Manager, a: Action, choices: Choices, log: set<(PeerId, Id)>)
    requires ForwardedTrue(st.forwarded, log) && Keyed(st.outbound)
    ensures var (st', o) := Act(crypto, st, a, choices);
            ForwardedTrue(st'.forwarded, log + Reached(o)) && Keyed(st'.outbound)
  {
    hide Handle, ProcessOutbound, ForwardedTrue, Publish, OpenChannel, CloseChannel;
    var o := Act(crypto, st, a, choices).1;
    match a
    case Receive(peer, m) =>
      HandleForwards(crypto, st, peer, m, choices);
      ForwardedMonotone(st.forwarded, log, Reached(o));
    case Join =>
      var peer := st.lastPeerId + 1;
      var st1 := st.(lastPeerId := peer, peers := st.peers + {peer});
      ProcessOutboundForwarded(st1, peer, st1.outbound, choices.outboundIds, log);
      ProcessOutboundShape(st1, peer, st1.outbound, choices.outboundIds);
    case _ =>
      LocalCommands(crypto, st, a, choices);
      ForwardedMonotone(st.forwarded, log, Reached(o));
  }

  function RunState(crypto: P.Crypto, st: Manager, run: seq<(Action, Choices)>): Manager
    decreases |run|
  {
    if run == [] then st else RunState(crypto, Act(crypto, st, run[0].0, run[0].1).0, run[1..])
  }

  /** After any run, every peer recorded for a forwarded request was sent that request. */
  lemma {:induction false} ForwardedOverRuns(
    crypto: P.Crypto, st: Manager, run: seq<(Action, Choices)>, log: set<(PeerId, Id)>)
    requires ForwardedTrue(st.forwarded, log) && Keyed(st.outbound)
    ensures ForwardedTrue(RunState(crypto, st, run).forwarded, log + Reached(RunOut(crypto, st, run)))
    decreases |run|
  {
    hide Act, ForwardedTrue, Keyed;
    if run == [] {
      assert log + Reached([]) == log;
    } else {
      ActForwarded(crypto, st, run[0].0, run[0].1, log);
      var (st1, o) := Act(crypto, st, run[0].0, run[0].1);
      ForwardedOverRuns(crypto, st1, run[1..], log + Reached(o));
      ReachedBoth(o, RunOut(crypto, st1, run[1..]));
      var later := RunOut(crypto, st1, run[1..]);
      assert log + Reached(o) + Reached(later) == log + Reached(o + later);
    }
  }
}
