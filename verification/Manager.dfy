/**
 * The cable peer as a state machine over messages and local commands (cable_core/src/manager.rs). Each step
 * runs to completion; what hash maps leave open, the order of iteration, is an argument.
 */
module Manager {
  import opened Wire
  import opened Messages
  import P = Posts
  import opened Store
  import opened Queries

  type PeerId = nat

  const TTL: U8 := 1

  const MAX_U32: nat := 0xFFFF_FFFF

  datatype Origin = Local | Remote

  datatype ChannelOptions = ChannelOptions(channel: Text, timeStart: U64, timeEnd: U64, limit: U64)

  datatype LiveRequest =
    | LiveState(reqId: Id, channel: Text)
    | LiveRange(reqId: Id, opts: ChannelOptions)

  datatype Manager = Manager(
    deleted: set<Hash>,
    forwarded: map<Id, set<PeerId>>,
    handled: set<Id>,
    lastPeerId: PeerId,
    lastReqId: nat,
    live: map<PeerId, seq<LiveRequest>>,
    outbound: map<Id, (Origin, Message)>,
    peers: set<PeerId>,
    requested: set<Hash>,
    store: Store)

  /** The orders in which hash maps and sets happen to be iterated during a step. */
  datatype Choices = Choices(
    members: Text -> seq<Hash>,
    channels: seq<Text>,
    livePeers: seq<PeerId>,
    outboundIds: seq<Id>)

  type Out = seq<(PeerId, Message)>

  datatype Step = Step(state: Manager, out: Out, result: Result<()>)

  // Request identifiers.

  function NextReqId(n: nat): nat {
    if n == MAX_U32 then 0 else n + 1
  }

  /** `u32::to_bytes`: big endian. */
  function ReqIdBytes(n: nat): Id {
    [n / 16777216 % 256, n / 65536 % 256, n / 256 % 256, n % 256]
  }

  function NewReqId(st: Manager): (Manager, Id) {
    var n := NextReqId(st.lastReqId);
    (st.(lastReqId := n), ReqIdBytes(n))
  }

  // Sending.

  /** `send`: nothing happens for a peer that is not connected. */
  function Send(st: Manager, peer: PeerId, m: Message): Out {
    if peer in st.peers then [(peer, m)] else []
  }

  // Live requests.

  predicate IsLive(st: Manager, peer: PeerId, id: Id) {
    peer in st.live && exists i | 0 <= i < |st.live[peer]| :: st.live[peer][i].reqId == id
  }

  function KeepOthers(rs: seq<LiveRequest>, id: Id): (r: seq<LiveRequest>)
    ensures forall x :: x in r <==> x in rs && x.reqId != id
  {
    if rs == [] then []
    else
      var before := KeepOthers(rs[..|rs| - 1], id);
      assert rs == rs[..|rs| - 1] + [rs[|rs| - 1]];
      if rs[|rs| - 1].reqId == id then before else before + [rs[|rs| - 1]]
  }

  function RemoveLive(live: map<PeerId, seq<LiveRequest>>, peer: PeerId, id: Id): map<PeerId, seq<LiveRequest>> {
    if peer in live then live[peer := KeepOthers(live[peer], id)] else live
  }

  // handle

  function Forward(st: Manager, m: Message): Manager
    requires m.body.Request? && m.body.ttl > 0
  {
    st.(outbound := st.outbound[m.header.reqId := (Remote, DecrementTtl(m).value)])
  }

  function ForwardIfTtl(st: Manager, m: Message): Manager
    requires m.body.Request?
  {
    if m.body.ttl > 0 then Forward(st, m) else st
  }

  /** Membership hashes in iteration order, then the hash of the topic. */
  function StateHashes(s: Store, c: Text, choices: Choices): seq<Hash> {
    (if c in s.membership then choices.members(c) else [])
    + (if GetTopic(s, c).Some? then [GetTopic(s, c).value.1] else [])
  }

  function HandlePostRequest(st: Manager, peer: PeerId, m: Message, hashes: seq<Hash>): Step
    requires m.body.Request?
  {
    var st1 := ForwardIfTtl(st, m);
    var response := MakeResponse(m.header.circuitId, m.header.reqId, PostResponse(GetPayloads(st.store, hashes)));
    Step(st1, Send(st1, peer, response), Ok(()))
  }

  /** A cancel is decremented without a look at its ttl. */
  function HandleCancel(st: Manager, peer: PeerId, m: Message, cancelId: Id): Step
    requires m.body.Request?
  {
    if m.body.ttl == 0 then Step(st, [], Err(Panic))
    else
      var st1 := Forward(st, m);
      Step(st1.(live := RemoveLive(st1.live, peer, cancelId), outbound := st1.outbound - {cancelId}), [], Ok(()))
  }

  function HandleTimeRange(st: Manager, peer: PeerId, m: Message, opts: ChannelOptions): Step
    requires m.body.Request?
  {
    var st1 := ForwardIfTtl(st, m);
    match GetPostHashes(st.store, opts.channel, opts.timeStart, opts.timeEnd)
    case Err(e) => Step(st1, [], Err(e))
    case Ok(all) =>
      var hashes := Limited(all, opts.limit);
      var response := MakeResponse(m.header.circuitId, m.header.reqId, HashResponse(hashes));
      if opts.timeEnd == 0 then
        var st2 := st1.(live := PushAt(st1.live, peer, LiveRange(m.header.reqId, opts)));
        Step(st2, if hashes == [] then [] else Send(st2, peer, response), Ok(()))
      else Step(st1, Send(st1, peer, response), Ok(()))
  }

  function HandleState(st: Manager, peer: PeerId, m: Message, c: Text, future: U64, choices: Choices): Step
    requires m.body.Request?
  {
    var st1 := ForwardIfTtl(st, m);
    var hashes := StateHashes(st.store, c, choices);
    var response := MakeResponse(m.header.circuitId, m.header.reqId, HashResponse(hashes));
    var closing := MakeResponse(m.header.circuitId, m.header.reqId, HashResponse([]));
    if future == 0 then
      Step(st1, Send(st1, peer, response) + (if hashes == [] then [] else Send(st1, peer, closing)), Ok(()))
    else if future == 1 then
      var st2 := st1.(live := PushAt(st1.live, peer, LiveState(m.header.reqId, c)));
      Step(st2, if hashes == [] then [] else Send(st2, peer, response), Ok(()))
    else Step(st1, [], Ok(()))
  }

  /** `drain(skip..limit)`: the limit is an end index, and an inverted range panics. */
  function HandleChannelList(st: Manager, peer: PeerId, m: Message, skip: U64, limit: U64, choices: Choices): Step
    requires m.body.Request?
  {
    var st1 := ForwardIfTtl(st, m);
    var all := if st.store.channels == {} then [] else choices.channels;
    var end := if limit == 0 || limit > |all| then |all| else limit;
    if st.store.channels != {} && skip > end then Step(st1, [], Err(Panic))
    else
      var listed := if st.store.channels == {} then [] else all[skip..end];
      var response := MakeResponse(m.header.circuitId, m.header.reqId, ChannelListResponse(listed));
      Step(st1, Send(st1, peer, response), Ok(()))
  }

  function HandleHashes(st: Manager, peer: PeerId, m: Message, hashes: seq<Hash>): Step {
    var wanted := Want(st.store, hashes);
    if wanted == [] then Step(st, [], Ok(()))
    else
      var (st1, id) := NewReqId(st);
      var request := MakeRequest(m.header.circuitId, id, TTL, PostRequest(wanted));
      Step(st1.(requested := st1.requested + (set h | h in wanted)), Send(st1, peer, request), Ok(()))
  }

  datatype Admitted = Admitted(requested: set<Hash>, store: Store, result: Result<()>)

  /** The loop over the posts of a response. */
  function AdmitPosts(crypto: P.Crypto, deleted: set<Hash>, requested: set<Hash>, s: Store, posts: seq<Bytes>)
    : Admitted
    decreases |posts|
  {
    if posts == [] then Admitted(requested, s, Ok(()))
    else
      var b, rest := posts[0], posts[1..];
      if !P.Verify(crypto, b) then AdmitPosts(crypto, deleted, requested, s, rest)
      else
        match P.Decode(b)
        case Err(e) => Admitted(requested, s, Err(e))
        case Ok(q) =>
          if q.0 != |b| then AdmitPosts(crypto, deleted, requested, s, rest)
          else if q.1.body.UnrecognizedPost? then Admitted(requested, s, Err(UnrecognizedType))
          else
            var h := P.HashOf(crypto, q.1);
            if h in deleted || h !in requested then AdmitPosts(crypto, deleted, requested, s, rest)
            else
              var (s1, r) := InsertPost(crypto, s, q.1);
              if r.Err? then Admitted(requested - {h}, s1, Err(r.error))
              else AdmitPosts(crypto, deleted, requested - {h}, s1, rest)
  }

  function HandlePosts(crypto: P.Crypto, st: Manager, posts: seq<Bytes>): Step {
    var a := AdmitPosts(crypto, st.deleted, st.requested, st.store, posts);
    Step(st.(requested := a.requested, store := a.store), [], a.result)
  }

  function HandleBody(crypto: P.Crypto, st: Manager, peer: PeerId, m: Message, choices: Choices): Step {
    match m.body
    case Request(_, PostRequest(hashes)) => HandlePostRequest(st, peer, m, hashes)
    case Request(_, Cancel(id)) => HandleCancel(st, peer, m, id)
    case Request(_, ChannelTimeRange(c, start, end, limit)) =>
      HandleTimeRange(st, peer, m, ChannelOptions(c, start, end, limit))
    case Request(_, ChannelState(c, future)) => HandleState(st, peer, m, c, future, choices)
    case Request(_, ChannelList(skip, limit)) => HandleChannelList(st, peer, m, skip, limit, choices)
    case Response(HashResponse(hashes)) => HandleHashes(st, peer, m, hashes)
    case Response(PostResponse(posts)) => HandlePosts(crypto, st, posts)
    case Response(ChannelListResponse(cs)) =>
      Step(st.(store := st.store.(channels := st.store.channels + (set c | c in cs))), [], Ok(()))
    case Unrecognized(_) => Step(st, [], Ok(()))
  }

  /** Seen before, and of no further interest to this peer. */
  predicate Dropped(st: Manager, peer: PeerId, id: Id) {
    id in st.handled && !IsLive(st, peer, id) && id !in st.outbound
  }

  function Handle(crypto: P.Crypto, st: Manager, peer: PeerId, m: Message, choices: Choices): Step {
    if Dropped(st, peer, m.header.reqId) then Step(st, [], Ok(()))
    else
      var s := HandleBody(crypto, st, peer, m, choices);
      if s.result.Err? then s
      else s.(state := s.state.(handled := s.state.handled + {m.header.reqId}))
  }

  // Local commands.

  /** All hashes of a channel's state for a live request, with deletes and names of its people. */
  function LiveStateHashes(s: Store, c: Text, choices: Choices): seq<Hash> {
    StateHashes(s, c, choices)
    + (if c in s.members then MemberHashes(s, s.members[c]) else [])
    + (if c in s.exMembers then NameHashes(s, s.exMembers[c]) else [])
  }

  function NameHashes(s: Store, keys: seq<Hash>): seq<Hash> {
    if keys == [] then []
    else (if GetName(s, keys[0]).Some? then [GetName(s, keys[0]).value.1] else []) + NameHashes(s, keys[1..])
  }

  function MemberHashes(s: Store, keys: seq<Hash>): seq<Hash> {
    if keys == [] then []
    else
      (if keys[0] in s.deleteHashes then s.deleteHashes[keys[0]] else [])
      + (if GetName(s, keys[0]).Some? then [GetName(s, keys[0]).value.1] else [])
      + MemberHashes(s, keys[1..])
  }

  /** What one live request is sent after a change in channel `c`. */
  function LiveResponse(st: Manager, peer: PeerId, r: LiveRequest, c: Text, choices: Choices): Result<Out> {
    match r
    case LiveState(id, channel) =>
      if channel != c then Ok([])
      else Ok(Send(st, peer, MakeResponse(NO_CIRCUIT, id, HashResponse(LiveStateHashes(st.store, c, choices)))))
    case LiveRange(id, opts) =>
      if opts.channel != c then Ok([])
      else
        var all :- GetPostHashes(st.store, opts.channel, opts.timeStart, opts.timeEnd);
        var hashes := Limited(all, opts.limit);
        if hashes == [] then Ok([]) else Ok(Send(st, peer, MakeResponse(NO_CIRCUIT, id, HashResponse(hashes))))
  }

  function PeerResponses(st: Manager, peer: PeerId, rs: seq<LiveRequest>, c: Text, choices: Choices)
    : (Out, Result<()>)
  {
    if rs == [] then ([], Ok(()))
    else
      match LiveResponse(st, peer, rs[0], c, choices)
      case Err(e) => ([], Err(e))
      case Ok(o) =>
        var (rest, r) := PeerResponses(st, peer, rs[1..], c, choices);
        (o + rest, r)
  }

  /** `send_post_hashes`, over the peers in the given order. */
  function SendPostHashes(st: Manager, c: Text, peers: seq<PeerId>, choices: Choices): (Out, Result<()>) {
    if peers == [] then ([], Ok(()))
    else if peers[0] !in st.live then SendPostHashes(st, c, peers[1..], choices)
    else
      var (o, r) := PeerResponses(st, peers[0], st.live[peers[0]], c, choices);
      if r.Err? then (o, r)
      else
        var (rest, r) := SendPostHashes(st, c, peers[1..], choices);
        (o + rest, r)
  }

  function SendToChannels(st: Manager, author: Hash, cs: seq<Text>, choices: Choices): (Out, Result<()>) {
    if cs == [] then ([], Ok(()))
    else if !IsMember(st.store, cs[0], author) then SendToChannels(st, author, cs[1..], choices)
    else
      var (o, r) := SendPostHashes(st, cs[0], choices.livePeers, choices);
      if r.Err? then (o, r)
      else
        var (rest, r) := SendToChannels(st, author, cs[1..], choices);
        (o + rest, r)
  }

  /** `post`, for a post that is already signed. */
  function Publish(crypto: P.Crypto, st: Manager, p: P.Post, choices: Choices): Step {
    var (s1, r) := InsertPost(crypto, st.store, p);
    var st1 := st.(store := s1);
    if r.Err? then Step(st1, [], Err(r.error))
    else
      var (o, r) := match P.ChannelOf(p)
                    case Some(c) => SendPostHashes(st1, c, choices.livePeers, choices)
                    case None => SendToChannels(st1, p.header.publicKey, choices.channels, choices);
      Step(st1, o, r)
  }

  /** `post_delete`: the hashes are barred before the delete post is published. */
  function PublishDelete(crypto: P.Crypto, st: Manager, p: P.Post, choices: Choices): Step
    requires p.body.Delete?
  {
    Publish(crypto, st.(deleted := st.deleted + (set h | h in p.body.hashes)), p, choices)
  }

  /** `broadcast`, over the connected peers in some order. */
  function Broadcast(peers: seq<PeerId>, m: Message): Out {
    if peers == [] then [] else [(peers[0], m)] + Broadcast(peers[1..], m)
  }

  /** Allocate an identifier, keep the request as a local one and broadcast it. */
  function LocalRequest(st: Manager, r: RequestBody, peers: seq<PeerId>): (Manager, Out) {
    var (st1, id) := NewReqId(st);
    var m := MakeRequest(NO_CIRCUIT, id, TTL, r);
    (st1.(outbound := st1.outbound[id := (Local, m)]), Broadcast(peers, m))
  }

  function OpenChannel(st: Manager, opts: ChannelOptions, peers: seq<PeerId>): (Manager, Out) {
    var (st1, o1) :=
      LocalRequest(st, ChannelTimeRange(opts.channel, opts.timeStart, opts.timeEnd, opts.limit), peers);
    var (st2, o2) := LocalRequest(st1, ChannelState(opts.channel, 1), peers);
    (st2, o1 + o2)
  }

  predicate LocalRangeOf(e: (Origin, Message), c: Text) {
    && e.0.Local? && e.1.body.Request? && e.1.body.request.ChannelTimeRange?
    && e.1.body.request.channel == c
  }

  /** `close_channel`: cancel the requests in `ids`, the matching ones in the order found. */
  function CancelAll(st: Manager, ids: seq<Id>, peers: seq<PeerId>): (Manager, Out)
    decreases |ids|
  {
    if ids == [] then (st, [])
    else
      var (st1, id) := NewReqId(st);
      var st2 := st1.(outbound := st1.outbound - {ids[0]});
      var (st3, o) := CancelAll(st2, ids[1..], peers);
      (st3, Broadcast(peers, MakeRequest(NO_CIRCUIT, id, TTL, Cancel(ids[0]))) + o)
  }

  function MatchingIds(outbound: map<Id, (Origin, Message)>, ids: seq<Id>, c: Text): seq<Id> {
    if ids == [] then []
    else
      var rest := MatchingIds(outbound, ids[1..], c);
      if ids[0] in outbound && LocalRangeOf(outbound[ids[0]], c) then [ids[0]] + rest else rest
  }

  function CloseChannel(st: Manager, c: Text, peers: seq<PeerId>, choices: Choices): (Manager, Out) {
    CancelAll(st, MatchingIds(st.outbound, choices.outboundIds, c), peers)
  }

  // process_and_send_outbound_requests

  function AddForwarded(f: map<Id, set<PeerId>>, id: Id, peer: PeerId): map<Id, set<PeerId>> {
    f[id := (if id in f then f[id] else {}) + {peer}]
  }

  function RemoveForwarded(f: map<Id, set<PeerId>>, id: Id, peer: PeerId): map<Id, set<PeerId>>
    requires id in f
  {
    if f[id] - {peer} == {} then f - {id} else f[id := f[id] - {peer}]
  }

  /** One entry of the snapshot: a remote cancel follows its request; exhausted requests are dropped. */
  function ProcessOne(st: Manager, peer: PeerId, id: Id, origin: Origin, m: Message): (Manager, Out) {
    if !m.body.Request? then (st, [])
    else
      var remoteCancel := m.body.request.Cancel? && origin.Remote? && m.body.request.cancelId in st.forwarded;
      if remoteCancel && peer !in st.forwarded[m.body.request.cancelId] then (st, [])
      else
        var st1 := if remoteCancel
                   then st.(forwarded := RemoveForwarded(st.forwarded, m.body.request.cancelId, peer))
                   else st;
        var o1: Out := if remoteCancel then [(peer, m)] else [];
        if m.body.ttl == 0 then (st1.(outbound := st1.outbound - {id}), o1)
        else
          (if origin.Remote? then st1.(forwarded := AddForwarded(st1.forwarded, id, peer)) else st1,
           o1 + [(peer, m)])
  }

  /** The loop over a snapshot of the outbound requests, in the order of `ids`. */
  function ProcessOutbound(st: Manager, peer: PeerId, snapshot: map<Id, (Origin, Message)>, ids: seq<Id>)
    : (Manager, Out)
    decreases |ids|
  {
    if ids == [] then (st, [])
    else if ids[0] !in snapshot then ProcessOutbound(st, peer, snapshot, ids[1..])
    else
      var (st1, o1) := ProcessOne(st, peer, ids[0], snapshot[ids[0]].0, snapshot[ids[0]].1);
      var (st2, o2) := ProcessOutbound(st1, peer, snapshot, ids[1..]);
      (st2, o1 + o2)
  }

  /** `listen`: a new peer is registered and sent the outbound requests. */
  function Connect(st: Manager, choices: Choices): (Manager, Out) {
    var peer := st.lastPeerId + 1;
    var st1 := st.(lastPeerId := peer, peers := st.peers + {peer});
    ProcessOutbound(st1, peer, st1.outbound, choices.outboundIds)
  }

  function Disconnect(st: Manager, peer: PeerId): Manager {
    st.(peers := st.peers - {peer})
  }

  // Runs.

  datatype Action =
    | Receive(peer: PeerId, message: Message)
    | PublishPost(post: P.Post)
    | DeletePosts(post: P.Post)
    | Open(opts: ChannelOptions, targets: seq<PeerId>)
    | Close(channel: Text, targets: seq<PeerId>)
    | Join
    | Leave(peer: PeerId)

  function Act(crypto: P.Crypto, st: Manager, a: Action, choices: Choices): (Manager, Out) {
    match a
    case Receive(peer, m) => var s := Handle(crypto, st, peer, m, choices); (s.state, s.out)
    case PublishPost(p) => var s := Publish(crypto, st, p, choices); (s.state, s.out)
    case DeletePosts(p) =>
      if p.body.Delete? then var s := PublishDelete(crypto, st, p, choices); (s.state, s.out) else (st, [])
    case Open(opts, targets) => OpenChannel(st, opts, targets)
    case Close(c, targets) => CloseChannel(st, c, targets, choices)
    case Join => Connect(st, choices)
    case Leave(peer) => (Disconnect(st, peer), [])
  }
}
