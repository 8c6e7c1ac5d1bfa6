/**
 * Message handlers and local commands running at the same time, one critical section at a time: the life of a
 * request identifier (cable_core/src/manager.rs). What a handler reads from the store does not matter here and
 * comes as an argument of the turn.
 */
module Handlers {
  import opened Wire
  import opened Messages
  import opened Machine = Manager
  import P = Posts
  import S = Store
  import opened Queries
  import R = Requests

  /** One critical section on the tables of requests, or one message sent. */
  datatype Section =
    | Bind(id: Id, origin: Origin, message: Message)
    | Unbind(id: Id)
    | Keep(peer: PeerId, request: LiveRequest)
    | Unkeep(peer: PeerId, id: Id)
    | Say(peer: PeerId, message: Message)
    | Mark(id: Id)
    | Ask(peer: PeerId, circuitId: Id, wanted: seq<Hash>)
    | Launch(body: RequestBody, targets: seq<PeerId>)

  /** A handler first looks at the handled requests, then at the live ones, then at the outbound ones. */
  datatype Task =
    | Arrived(peer: PeerId, message: Message)
    | Handled(peer: PeerId, message: Message)
    | NotLive(peer: PeerId, message: Message)
    | Busy(todo: seq<Section>)

  datatype Tables = Tables(
    handled: set<Id>,
    live: map<PeerId, seq<LiveRequest>>,
    outbound: map<Id, (Origin, Message)>,
    lastReqId: nat,
    peers: set<PeerId>,
    sent: Out,
    tasks: map<nat, Task>)

  /** What a handler finds in the store on its way, and whether a query or an insertion fails. */
  datatype Reads = Reads(
    hashes: seq<Hash>, posts: seq<Bytes>, channels: seq<Text>, wanted: seq<Hash>, fails: bool)

  // What handling a message consists of once it is not dropped.

  function Forwarding(m: Message): seq<Section>
    requires m.body.Request?
  {
    if m.body.ttl > 0 then [Bind(m.header.reqId, Remote, DecrementTtl(m).value)] else []
  }

  function Reply(peer: PeerId, m: Message, r: ResponseBody): Section {
    Say(peer, MakeResponse(m.header.circuitId, m.header.reqId, r))
  }

  /** What follows the forwarding of a request, or all there is to a response. */
  function Answering(peer: PeerId, m: Message, seen: Reads): seq<Section> {
    var id := m.header.reqId;
    match m.body
    case Request(_, PostRequest(_)) => [Reply(peer, m, PostResponse(seen.posts)), Mark(id)]
    case Request(_, Cancel(gone)) => [Unkeep(peer, gone), Unbind(gone), Mark(id)]
    case Request(_, ChannelTimeRange(c, start, end, limit)) =>
      if seen.fails then []
      else if end != 0 then [Reply(peer, m, HashResponse(seen.hashes)), Mark(id)]
      else Lasting(peer, m, LiveRange(id, ChannelOptions(c, start, end, limit)), seen)
    case Request(_, ChannelState(c, future)) =>
      if future == 0 then
        if seen.hashes == [] then [Reply(peer, m, HashResponse([])), Mark(id)]
        else [Reply(peer, m, HashResponse(seen.hashes)), Reply(peer, m, HashResponse([])), Mark(id)]
      else if future == 1 then Lasting(peer, m, LiveState(id, c), seen)
      else [Mark(id)]
    case Request(_, ChannelList(_, _)) =>
      if seen.fails then [] else [Reply(peer, m, ChannelListResponse(seen.channels)), Mark(id)]
    case Response(HashResponse(_)) =>
      if seen.wanted == [] then [Mark(id)] else [Ask(peer, m.header.circuitId, seen.wanted), Mark(id)]
    case Response(PostResponse(_)) => if seen.fails then [] else [Mark(id)]
    case Response(ChannelListResponse(_)) => [Mark(id)]
    case Unrecognized(_) => [Mark(id)]
  }

  /** A request that is kept alive is answered only if there is something to list. */
  function Lasting(peer: PeerId, m: Message, r: LiveRequest, seen: Reads): seq<Section> {
    if seen.hashes == [] then [Keep(peer, r), Mark(m.header.reqId)]
    else [Keep(peer, r), Reply(peer, m, HashResponse(seen.hashes)), Mark(m.header.reqId)]
  }

  /** A cancel is forwarded without a look at its ttl, and fails if there is none left. */
  function Sections(peer: PeerId, m: Message, seen: Reads): seq<Section> {
    if m.body.Request? && m.body.request.Cancel? && m.body.ttl == 0 then []
    else (if m.body.Request? then Forwarding(m) else []) + Answering(peer, m, seen)
  }

  /** The sections of `open_channel`. */
  function OpenSections(opts: ChannelOptions, targets: seq<PeerId>): seq<Section> {
    [Launch(ChannelTimeRange(opts.channel, opts.timeStart, opts.timeEnd, opts.limit), targets),
     Launch(ChannelState(opts.channel, 1), targets)]
  }

  // One section.

  function Says(targets: seq<PeerId>, m: Message): seq<Section> {
    seq(|targets|, i requires 0 <= i < |targets| => Say(targets[i], m))
  }

  /** The tables after a section, and the sections it puts in front of what is left. */
  function Perform(t: Tables, s: Section): (Tables, seq<Section>) {
    match s
    case Bind(id, origin, m) => (t.(outbound := t.outbound[id := (origin, m)]), [])
    case Unbind(id) => (t.(outbound := t.outbound - {id}), [])
    case Keep(peer, r) => (t.(live := S.PushAt(t.live, peer, r)), [])
    case Unkeep(peer, id) => (t.(live := RemoveLive(t.live, peer, id)), [])
    case Say(peer, m) => (if peer in t.peers then t.(sent := t.sent + [(peer, m)]) else t, [])
    case Mark(id) => (t.(handled := t.handled + {id}), [])
    case Ask(peer, circuitId, wanted) =>
      var n := NextReqId(t.lastReqId);
      (t.(lastReqId := n), [Say(peer, MakeRequest(circuitId, ReqIdBytes(n), TTL, PostRequest(wanted)))])
    case Launch(body, targets) =>
      var n := NextReqId(t.lastReqId);
      var m := MakeRequest(NO_CIRCUIT, ReqIdBytes(n), TTL, body);
      (t.(lastReqId := n), [Bind(ReqIdBytes(n), Local, m)] + Says(targets, m))
  }

  predicate LiveIn(live: map<PeerId, seq<LiveRequest>>, peer: PeerId, id: Id) {
    peer in live && exists i | 0 <= i < |live[peer]| :: live[peer][i].reqId == id
  }

  // Turns.

  datatype Turn =
    /** A message comes in, or a command is given. */
    | Begin(task: nat, peer: PeerId, message: Message)
    | Open(task: nat, opts: ChannelOptions, targets: seq<PeerId>)
    | Advance(task: nat, seen: Reads)
    /** `send_post_hashes`, which keeps the live requests locked while it answers some of them. */
    | Announce(out: Out)
    /** `process_and_send_outbound_requests` for a new peer, over the outbound requests, some of which it drops. */
    | Connect(peer: PeerId, out: Out, kept: set<Id>)
    /** `close_channel`, which keeps the outbound requests locked while it cancels some of them. */
    | Close(ids: seq<Id>, targets: seq<PeerId>)
    | Leave(peer: PeerId)

  ghost predicate Enabled(t: Tables, e: Turn) {
    match e
    case Begin(k, _, _) => k !in t.tasks
    case Open(k, _, _) => k !in t.tasks
    case Advance(k, _) => k in t.tasks
    case Announce(out) => forall i | 0 <= i < |out| :: LiveIn(t.live, out[i].0, out[i].1.header.reqId)
    case Connect(peer, out, _) =>
      forall i | 0 <= i < |out| :: out[i].0 == peer && exists id :: id in t.outbound && t.outbound[id].1 == out[i].1
    case Close(_, _) => true
    case Leave(_) => true
  }

  /** `close_channel` as a list of sections, carried out in one go. */
  function CancelEach(t: Tables, ids: seq<Id>, targets: seq<PeerId>): Tables
    decreases |ids|
  {
    if ids == [] then t
    else
      var n := NextReqId(t.lastReqId);
      var m := MakeRequest(NO_CIRCUIT, ReqIdBytes(n), TTL, Cancel(ids[0]));
      CancelEach(t.(lastReqId := n, sent := t.sent + Broadcast(targets, m), outbound := t.outbound - {ids[0]}),
                 ids[1..], targets)
  }

  function With(t: Tables, k: nat, task: Task): Tables {
    t.(tasks := t.tasks[k := task])
  }

  function Step(t: Tables, e: Turn): Tables {
    match e
    case Begin(k, peer, m) => With(t, k, Arrived(peer, m))
    case Open(k, opts, targets) => With(t, k, Busy(OpenSections(opts, targets)))
    case Announce(out) => t.(sent := t.sent + out)
    case Connect(peer, out, kept) =>
      t.(peers := t.peers + {peer}, sent := t.sent + out,
         outbound := map id | id in t.outbound && id in kept :: t.outbound[id])
    case Close(ids, targets) => CancelEach(t, ids, targets)
    case Leave(peer) => t.(peers := t.peers - {peer})
    case Advance(k, seen) =>
      if k !in t.tasks then t
      else
        match t.tasks[k]
        case Arrived(peer, m) =>
          if m.header.reqId in t.handled then With(t, k, Handled(peer, m))
          else With(t, k, Busy(Sections(peer, m, seen)))
        case Handled(peer, m) =>
          if LiveIn(t.live, peer, m.header.reqId) then With(t, k, Busy(Sections(peer, m, seen)))
          else With(t, k, NotLive(peer, m))
        case NotLive(peer, m) =>
          if m.header.reqId in t.outbound then With(t, k, Busy(Sections(peer, m, seen)))
          else t.(tasks := t.tasks - {k})
        case Busy(todo) =>
          if todo == [] then t.(tasks := t.tasks - {k})
          else
            var (t', more) := Perform(t, todo[0]);
            With(t', k, Busy(more + todo[1..]))
  }

  // Dead identifiers.

  ghost predicate NoneLive(live: map<PeerId, seq<LiveRequest>>, id: Id) {
    forall peer | peer in live :: R.NoneOf(live[peer], id)
  }

  /** The section would bring `id` back or send something tagged with it. */
  predicate Carries(s: Section, id: Id) {
    match s
    case Bind(k, _, m) => k == id || m.header.reqId == id
    case Keep(_, r) => r.reqId == id
    case Say(_, m) => m.header.reqId == id
    case _ => false
  }

  ghost predicate Clear(todo: seq<Section>, id: Id) {
    forall i | 0 <= i < |todo| :: !Carries(todo[i], id)
  }

  ghost predicate TaskClear(task: Task, id: Id) {
    task.Busy? ==> Clear(task.todo, id)
  }

  /** Every outbound request is kept under its own identifier. */
  ghost predicate KeyedTables(t: Tables) {
    && (forall id | id in t.outbound :: t.outbound[id].1.header.reqId == id)
    && forall k | k in t.tasks && t.tasks[k].Busy? :: AllOwn(t.tasks[k].todo)
  }

  predicate OwnKey(s: Section) {
    s.Bind? ==> s.message.header.reqId == s.id
  }

  /** Handled, not outbound, live for nobody, and no handler in flight that got past its looks with it. */
  ghost predicate Quiet(t: Tables, id: Id) {
    && id in t.handled && id !in t.outbound && NoneLive(t.live, id)
    && forall k | k in t.tasks :: TaskClear(t.tasks[k], id)
  }

  /** The identifiers that a turn allocates. */
  ghost function Allocated(t: Tables, e: Turn): set<Id> {
    match e
    case Advance(k, _) =>
      if k in t.tasks && t.tasks[k].Busy? && t.tasks[k].todo != []
         && (t.tasks[k].todo[0].Ask? || t.tasks[k].todo[0].Launch?)
      then {ReqIdBytes(NextReqId(t.lastReqId))} else {}
    case Close(ids, _) => R.AllocIds(t.lastReqId, |ids|)
    case _ => {}
  }

  // Every turn keeps quiet what it does not allocate.

  lemma AnsweringCarries(peer: PeerId, m: Message, seen: Reads, id: Id)
    ensures AllOwn(Answering(peer, m, seen)) && (m.header.reqId != id ==> Clear(Answering(peer, m, seen), id))
  {
    match m.body
    case Request(_, PostRequest(_)) =>
    case Request(_, Cancel(_)) =>
    case Request(_, ChannelTimeRange(_, _, _, _)) =>
    case Request(_, ChannelState(_, _)) =>
    case Request(_, ChannelList(_, _)) =>
    case Response(_) =>
    case Unrecognized(_) =>
  }

  /** Handling a message carries no identifier but its own. */
  lemma SectionsCarry(peer: PeerId, m: Message, seen: Reads, id: Id)
    ensures AllOwn(Sections(peer, m, seen)) && (m.header.reqId != id ==> Clear(Sections(peer, m, seen), id))
  {
    hide Answering;
    AnsweringCarries(peer, m, seen, id);
  }

  /** The tables without the tasks: dead. */
  ghost predicate Dead(t: Tables, id: Id) {
    id in t.handled && id !in t.outbound && NoneLive(t.live, id)
  }

  lemma KeepOther(live: map<PeerId, seq<LiveRequest>>, peer: PeerId, r: LiveRequest, id: Id)
    requires NoneLive(live, id) && r.reqId != id
    ensures NoneLive(S.PushAt(live, peer, r), id)
  {
  }

  lemma UnkeepOther(live: map<PeerId, seq<LiveRequest>>, peer: PeerId, gone: Id, id: Id)
    requires NoneLive(live, id)
    ensures NoneLive(RemoveLive(live, peer, gone), id)
  {
    if peer in live {
      var rs := KeepOthers(live[peer], gone);
      forall i | 0 <= i < |rs| ensures rs[i].reqId != id {
        assert rs[i] in rs;
        assert rs[i] in live[peer];
      }
    }
  }

  lemma PerformQuiet(t: Tables, s: Section, id: Id)
    requires Dead(t, id) && !Carries(s, id)
    requires s.Ask? || s.Launch? ==> ReqIdBytes(NextReqId(t.lastReqId)) != id
    ensures var (t', more) := Perform(t, s);
            && Dead(t', id) && Clear(more, id) && t'.tasks == t.tasks
            && |t.sent| <= |t'.sent| && t'.sent[..|t.sent|] == t.sent && R.Silent(t'.sent[|t.sent|..], id)
  {
    hide ReqIdBytes, NoneLive, S.PushAt, RemoveLive;
    match s
    case Keep(peer, r) => KeepOther(t.live, peer, r, id);
    case Unkeep(peer, gone) => UnkeepOther(t.live, peer, gone, id);
    case Bind(_, _, _) =>
    case Unbind(_) =>
    case Say(_, _) =>
    case Mark(_) =>
    case Ask(_, _, _) =>
    case Launch(_, _) =>
  }

  ghost predicate AllOwn(todo: seq<Section>) {
    forall i | 0 <= i < |todo| :: OwnKey(todo[i])
  }

  lemma PerformKeyed(t: Tables, s: Section)
    requires OwnKey(s) && forall id | id in t.outbound :: t.outbound[id].1.header.reqId == id
    ensures var (t', more) := Perform(t, s);
            AllOwn(more) && forall id | id in t'.outbound :: t'.outbound[id].1.header.reqId == id
  {
    hide ReqIdBytes;
  }

  lemma {:induction false} CancelEachQuiet(t: Tables, ids: seq<Id>, targets: seq<PeerId>, id: Id)
    requires Dead(t, id) && id !in R.AllocIds(t.lastReqId, |ids|)
    ensures var t' := CancelEach(t, ids, targets);
            && Dead(t', id) && t'.tasks == t.tasks
            && |t.sent| <= |t'.sent| && t'.sent[..|t.sent|] == t.sent && R.Silent(t'.sent[|t.sent|..], id)
            && forall k | k in t'.outbound :: k in t.outbound && t'.outbound[k] == t.outbound[k]
    decreases |ids|
  {
    hide ReqIdBytes, NoneLive;
    if ids != [] {
      var n := NextReqId(t.lastReqId);
      var m := MakeRequest(NO_CIRCUIT, ReqIdBytes(n), TTL, Cancel(ids[0]));
      var o := Broadcast(targets, m);
      var t1 := t.(lastReqId := n, sent := t.sent + o, outbound := t.outbound - {ids[0]});
      R.BroadcastSilent(targets, m, id);
      CancelEachQuiet(t1, ids[1..], targets, id);
      var t' := CancelEach(t1, ids[1..], targets);
      assert t'.sent == t1.sent + t'.sent[|t1.sent|..];
      assert t'.sent[|t.sent|..] == o + t'.sent[|t1.sent|..];
    }
  }

  /** The tables after a turn, and what it sends: nothing that carries a quiet identifier. */
  ghost predicate Kept(t: Tables, t': Tables, id: Id) {
    && Quiet(t', id) && KeyedTables(t')
    && |t.sent| <= |t'.sent| && t'.sent[..|t.sent|] == t.sent && R.Silent(t'.sent[|t.sent|..], id)
  }

  lemma BusyQuiet(t: Tables, k: nat, seen: Reads, id: Id)
    requires Quiet(t, id) && KeyedTables(t) && k in t.tasks && t.tasks[k].Busy? && t.tasks[k].todo != []
    requires id !in Allocated(t, Advance(k, seen))
    ensures Kept(t, Step(t, Advance(k, seen)), id)
  {
    hide Perform, Carries, ReqIdBytes, NoneLive, OwnKey;
    var todo := t.tasks[k].todo;
    assert TaskClear(t.tasks[k], id);
    PerformQuiet(t, todo[0], id);
    PerformKeyed(t, todo[0]);
    var (t1, more) := Perform(t, todo[0]);
    var rest := more + todo[1..];
    assert Clear(rest, id) && AllOwn(rest);
  }

  lemma LookQuiet(t: Tables, k: nat, seen: Reads, id: Id)
    requires Quiet(t, id) && KeyedTables(t) && k in t.tasks && !(t.tasks[k].Busy? && t.tasks[k].todo != [])
    ensures Kept(t, Step(t, Advance(k, seen)), id)
  {
    hide Sections, Carries, OwnKey;
    if !t.tasks[k].Busy? {
      var peer, m := t.tasks[k].peer, t.tasks[k].message;
      SectionsCarry(peer, m, seen, id);
      if m.header.reqId == id {
        assert peer in t.live ==> R.NoneOf(t.live[peer], id);
      }
    }
  }

  /** Through every turn that does not allocate it, a quiet identifier stays quiet and no message carries it. */
  lemma StepQuiet(t: Tables, e: Turn, id: Id)
    requires Quiet(t, id) && KeyedTables(t) && Enabled(t, e) && id !in Allocated(t, e)
    ensures Kept(t, Step(t, e), id)
  {
    hide NoneLive, Carries, OwnKey, ReqIdBytes, CancelEach, Perform, Sections;
    match e
    case Advance(k, seen) =>
      if t.tasks[k].Busy? && t.tasks[k].todo != [] {
        BusyQuiet(t, k, seen, id);
      } else {
        LookQuiet(t, k, seen, id);
      }
    case Begin(_, _, _) =>
    case Open(_, opts, targets) => OpenClear(opts, targets, id);
    case Announce(out) => AnnounceQuiet(t, out, id);
    case Connect(_, _, _) =>
    case Close(ids, targets) => CancelEachQuiet(t, ids, targets, id);
    case Leave(_) =>
  }

  lemma OpenClear(opts: ChannelOptions, targets: seq<PeerId>, id: Id)
    ensures Clear(OpenSections(opts, targets), id) && AllOwn(OpenSections(opts, targets))
  {
  }

  lemma AnnounceQuiet(t: Tables, out: Out, id: Id)
    requires NoneLive(t.live, id) && Enabled(t, Announce(out))
    ensures R.Silent(out, id)
  {
    forall i | 0 <= i < |out| ensures out[i].1.header.reqId != id {
      assert LiveIn(t.live, out[i].0, out[i].1.header.reqId);
      assert R.NoneOf(t.live[out[i].0], id);
    }
  }

  // Whole runs.

  ghost predicate Leads(t: Tables, turns: seq<Turn>, end: Tables)
    decreases |turns|
  {
    if turns == [] then end == t else Enabled(t, turns[0]) && Leads(Step(t, turns[0]), turns[1..], end)
  }

  ghost predicate NeverAllocated(t: Tables, turns: seq<Turn>, id: Id)
    decreases |turns|
  {
    turns != [] ==> id !in Allocated(t, turns[0]) && NeverAllocated(Step(t, turns[0]), turns[1..], id)
  }

  /**
   * In every interleaving of handlers and commands: an identifier that is dead, with no handler in flight that got
   * past its looks with it, stays so, and nothing tagged with it is ever sent again, unless it is allocated.
   */
  lemma {:induction false} QuietForever(t: Tables, turns: seq<Turn>, end: Tables, id: Id)
    requires Quiet(t, id) && KeyedTables(t) && Leads(t, turns, end) && NeverAllocated(t, turns, id)
    ensures Kept(t, end, id)
    decreases |turns|
  {
    hide Quiet, KeyedTables, Step, Enabled, Allocated;
    if turns == [] {
      assert t.sent[..|t.sent|] == t.sent;
    } else {
      var t1 := Step(t, turns[0]);
      StepQuiet(t, turns[0], id);
      QuietForever(t1, turns[1..], end, id);
      assert end.sent[|t.sent|..] == t1.sent[|t.sent|..] + end.sent[|t1.sent|..];
      assert end.sent[..|t.sent|] == end.sent[..|t1.sent|][..|t.sent|];
    }
  }

  // Run alone, the sections of a handler are the handler.

  function Weight(todo: seq<Section>): nat {
    if todo == [] then 0
    else (if todo[0].Launch? then 2 + |todo[0].targets| else if todo[0].Ask? then 2 else 1) + Weight(todo[1..])
  }

  lemma {:induction false} WeightBoth(a: seq<Section>, b: seq<Section>)
    ensures Weight(a + b) == Weight(a) + Weight(b)
    decreases |a|
  {
    if a == [] {
      assert a + b == b;
    } else {
      WeightBoth(a[1..], b);
      assert (a + b)[0] == a[0] && (a + b)[1..] == a[1..] + b;
    }
  }

  lemma {:induction false} PlainWeight(todo: seq<Section>)
    requires forall i | 0 <= i < |todo| :: !todo[i].Ask? && !todo[i].Launch?
    ensures Weight(todo) == |todo|
  {
    if todo != [] {
      PlainWeight(todo[1..]);
    }
  }

  lemma Lighter(t: Tables, todo: seq<Section>)
    requires todo != []
    ensures Weight(Perform(t, todo[0]).1 + todo[1..]) < Weight(todo)
  {
    hide ReqIdBytes;
    PlainWeight(Perform(t, todo[0]).1);
    WeightBoth(Perform(t, todo[0]).1, todo[1..]);
  }

  function RunAll(t: Tables, todo: seq<Section>): Tables
    decreases Weight(todo)
  {
    if todo == [] then t
    else
      Lighter(t, todo);
      RunAll(Perform(t, todo[0]).0, Perform(t, todo[0]).1 + todo[1..])
  }

  /** The tables of a peer whose handlers run to completion. */
  function View(st: Manager, sent: Out): Tables {
    Tables(st.handled, st.live, st.outbound, st.lastReqId, st.peers, sent, map[])
  }

  /** What a handler that runs to completion finds in the store. */
  function SeenBy(crypto: P.Crypto, st: Manager, peer: PeerId, m: Message, choices: Choices): Reads {
    var fails := HandleBody(crypto, st, peer, m, choices).result.Err?;
    var nothing := Reads([], [], [], [], fails);
    match m.body
    case Request(_, PostRequest(hashes)) => nothing.(posts := GetPayloads(st.store, hashes))
    case Request(_, ChannelTimeRange(c, start, end, limit)) =>
      (match GetPostHashes(st.store, c, start, end)
       case Ok(all) => nothing.(hashes := Limited(all, limit))
       case Err(_) => nothing)
    case Request(_, ChannelState(c, _)) => nothing.(hashes := StateHashes(st.store, c, choices))
    case Request(_, ChannelList(skip, limit)) =>
      var all := if st.store.channels == {} then [] else choices.channels;
      var end := if limit == 0 || limit > |all| then |all| else limit;
      if skip <= end then nothing.(channels := all[skip..end]) else nothing
    case Response(HashResponse(hashes)) => nothing.(wanted := Want(st.store, hashes))
    case _ => nothing
  }

  lemma RunNone(t: Tables)
    ensures RunAll(t, []) == t
  {
  }

  lemma RunFirst(t: Tables, s: Section, rest: seq<Section>)
    ensures RunAll(t, [s] + rest) == RunAll(Perform(t, s).0, Perform(t, s).1 + rest)
  {
    hide Perform;
    assert ([s] + rest)[0] == s && ([s] + rest)[1..] == rest;
  }

  /** A section that puts nothing in front of the rest. */
  lemma RunPlain(t: Tables, s: Section, rest: seq<Section>)
    requires !s.Ask? && !s.Launch?
    ensures RunAll(t, [s] + rest) == RunAll(Perform(t, s).0, rest)
  {
    hide RunAll;
    RunFirst(t, s, rest);
    assert [] + rest == rest;
  }

  lemma RunForward(st: Manager, sent: Out, m: Message, rest: seq<Section>)
    requires m.body.Request?
    ensures RunAll(View(st, sent), Forwarding(m) + rest) == RunAll(View(ForwardIfTtl(st, m), sent), rest)
  {
    hide RunAll;
    if m.body.ttl > 0 {
      RunPlain(View(st, sent), Forwarding(m)[0], rest);
      assert Forwarding(m) == [Forwarding(m)[0]];
    } else {
      assert [] + rest == rest;
    }
  }

  lemma RunSay(st: Manager, sent: Out, peer: PeerId, m: Message, rest: seq<Section>)
    ensures RunAll(View(st, sent), [Say(peer, m)] + rest) == RunAll(View(st, sent + Send(st, peer, m)), rest)
  {
    hide RunAll;
    RunPlain(View(st, sent), Say(peer, m), rest);
    assert sent + [] == sent;
  }

  lemma RunMark(st: Manager, sent: Out, id: Id)
    ensures RunAll(View(st, sent), [Mark(id)]) == View(st.(handled := st.handled + {id}), sent)
  {
    hide RunAll;
    assert [Mark(id)] == [Mark(id)] + [];
    RunPlain(View(st, sent), Mark(id), []);
    RunNone(View(st.(handled := st.handled + {id}), sent));
  }

  lemma RunLasting(st: Manager, sent: Out, peer: PeerId, m: Message, r: LiveRequest, seen: Reads)
    ensures var st1 := st.(live := S.PushAt(st.live, peer, r));
            var response := MakeResponse(m.header.circuitId, m.header.reqId, HashResponse(seen.hashes));
            var out := if seen.hashes == [] then [] else Send(st1, peer, response);
            RunAll(View(st, sent), Lasting(peer, m, r, seen))
            == View(st1.(handled := st1.handled + {m.header.reqId}), sent + out)
  {
    hide RunAll, S.PushAt, Send;
    var st1 := st.(live := S.PushAt(st.live, peer, r));
    var mark, reply := [Mark(m.header.reqId)], Reply(peer, m, HashResponse(seen.hashes));
    if seen.hashes == [] {
      assert Lasting(peer, m, r, seen) == [Keep(peer, r)] + mark;
      RunPlain(View(st, sent), Keep(peer, r), mark);
      RunMark(st1, sent, m.header.reqId);
      assert sent + [] == sent;
    } else {
      assert Lasting(peer, m, r, seen) == [Keep(peer, r)] + ([reply] + mark);
      RunPlain(View(st, sent), Keep(peer, r), [reply] + mark);
      RunSay(st1, sent, peer, reply.message, mark);
      RunMark(st1, sent + Send(st1, peer, reply.message), m.header.reqId);
    }
  }

  lemma RunReply(st: Manager, sent: Out, peer: PeerId, m: Message, r: ResponseBody)
    ensures RunAll(View(st, sent), [Reply(peer, m, r), Mark(m.header.reqId)])
         == View(st.(handled := st.handled + {m.header.reqId}),
                 sent + Send(st, peer, MakeResponse(m.header.circuitId, m.header.reqId, r)))
  {
    hide RunAll, Send;
    var reply, mark := Reply(peer, m, r), [Mark(m.header.reqId)];
    assert [reply, Mark(m.header.reqId)] == [reply] + mark;
    RunSay(st, sent, peer, reply.message, mark);
    RunMark(st, sent + Send(st, peer, reply.message), m.header.reqId);
  }

  /** The view of a peer after a handler that ran to completion. */
  function After(crypto: P.Crypto, st: Manager, peer: PeerId, m: Message, choices: Choices, sent: Out): Tables {
    var s := HandleBody(crypto, st, peer, m, choices);
    View(if s.result.Err? then s.state else s.state.(handled := s.state.handled + {m.header.reqId}), sent + s.out)
  }

  lemma RequestRefined(crypto: P.Crypto, st: Manager, peer: PeerId, m: Message, choices: Choices, sent: Out)
    requires m.body.Request? && !m.body.request.Cancel? && !m.body.request.ChannelState?
    ensures RunAll(View(st, sent), Sections(peer, m, SeenBy(crypto, st, peer, m, choices)))
         == After(crypto, st, peer, m, choices, sent)
  {
    hide RunAll, Forwarding, ForwardIfTtl, GetPayloads, GetPostHashes, Limited, Lasting, S.PushAt, Send;
    var st1, seen := ForwardIfTtl(st, m), SeenBy(crypto, st, peer, m, choices);
    SameStore(st, m);
    RunForward(st, sent, m, Answering(peer, m, seen));
    RunNone(View(st1, sent));
    assert sent + [] == sent;
    match m.body.request
    case PostRequest(_) => RunReply(st1, sent, peer, m, PostResponse(seen.posts));
    case ChannelTimeRange(c, start, end, limit) =>
      if end == 0 {
        RunLasting(st1, sent, peer, m, LiveRange(m.header.reqId, ChannelOptions(c, start, end, limit)), seen);
      } else {
        RunReply(st1, sent, peer, m, HashResponse(seen.hashes));
      }
    case ChannelList(_, _) => RunReply(st1, sent, peer, m, ChannelListResponse(seen.channels));
  }

  lemma SameStore(st: Manager, m: Message)
    requires m.body.Request?
    ensures ForwardIfTtl(st, m) == st.(outbound := ForwardIfTtl(st, m).outbound)
  {
  }

  lemma StateRefined(crypto: P.Crypto, st: Manager, peer: PeerId, m: Message, choices: Choices, sent: Out)
    requires m.body.Request? && m.body.request.ChannelState?
    ensures RunAll(View(st, sent), Sections(peer, m, SeenBy(crypto, st, peer, m, choices)))
         == After(crypto, st, peer, m, choices, sent)
  {
    hide RunAll, Forwarding, ForwardIfTtl, StateHashes, Lasting, S.PushAt, Send;
    var st1, seen, id := ForwardIfTtl(st, m), SeenBy(crypto, st, peer, m, choices), m.header.reqId;
    SameStore(st, m);
    RunForward(st, sent, m, Answering(peer, m, seen));
    assert sent + [] == sent;
    if m.body.request.future == 0 {
      if seen.hashes == [] {
        RunReply(st1, sent, peer, m, HashResponse([]));
      } else {
        var first, second := Reply(peer, m, HashResponse(seen.hashes)), Reply(peer, m, HashResponse([]));
        assert [first, second, Mark(id)] == [first] + [second, Mark(id)];
        RunSay(st1, sent, peer, first.message, [second, Mark(id)]);
        RunReply(st1, sent + Send(st1, peer, first.message), peer, m, HashResponse([]));
        assert sent + Send(st1, peer, first.message) + Send(st1, peer, second.message)
            == sent + (Send(st1, peer, first.message) + Send(st1, peer, second.message));
      }
    } else if m.body.request.future == 1 {
      RunLasting(st1, sent, peer, m, LiveState(id, m.body.request.channel), seen);
    } else {
      RunMark(st1, sent, id);
    }
  }

  lemma CancelRefined(crypto: P.Crypto, st: Manager, peer: PeerId, m: Message, choices: Choices, sent: Out)
    requires m.body.Request? && m.body.request.Cancel?
    ensures RunAll(View(st, sent), Sections(peer, m, SeenBy(crypto, st, peer, m, choices)))
         == After(crypto, st, peer, m, choices, sent)
  {
    hide RunAll, RemoveLive;
    var gone, id := m.body.request.cancelId, m.header.reqId;
    var seen := SeenBy(crypto, st, peer, m, choices);
    RunNone(View(st, sent));
    assert sent + [] == sent;
    if m.body.ttl > 0 {
      RunForward(st, sent, m, Answering(peer, m, seen));
      var st1 := Forward(st, m);
      var st2 := st1.(live := RemoveLive(st1.live, peer, gone));
      assert Answering(peer, m, seen) == [Unkeep(peer, gone)] + ([Unbind(gone)] + [Mark(id)]);
      RunPlain(View(st1, sent), Unkeep(peer, gone), [Unbind(gone)] + [Mark(id)]);
      RunPlain(View(st2, sent), Unbind(gone), [Mark(id)]);
      RunMark(st2.(outbound := st2.outbound - {gone}), sent, id);
    }
  }

  lemma ResponseRefined(crypto: P.Crypto, st: Manager, peer: PeerId, m: Message, choices: Choices, sent: Out)
    requires !m.body.Request?
    ensures RunAll(View(st, sent), Sections(peer, m, SeenBy(crypto, st, peer, m, choices)))
         == After(crypto, st, peer, m, choices, sent)
  {
    hide RunAll, AdmitPosts, Want, ReqIdBytes, Send;
    var seen, id := SeenBy(crypto, st, peer, m, choices), m.header.reqId;
    assert sent + [] == sent && [] + Answering(peer, m, seen) == Answering(peer, m, seen);
    RunNone(View(st, sent));
    RunMark(st, sent, id);
    if m.body.Response? && m.body.response.HashResponse? && seen.wanted != [] {
      var ask := Ask(peer, m.header.circuitId, seen.wanted);
      assert Answering(peer, m, seen) == [ask] + [Mark(id)];
      RunFirst(View(st, sent), ask, [Mark(id)]);
      var (st1, newId) := NewReqId(st);
      var request := MakeRequest(m.header.circuitId, newId, TTL, PostRequest(seen.wanted));
      RunSay(st1, sent, peer, request, [Mark(id)]);
      RunMark(st1, sent + Send(st1, peer, request), id);
    }
  }

  /** Run alone, the critical sections of a handler do to the tables, and send, what `Manager.Handle` says. */
  lemma HandlerRefined(crypto: P.Crypto, st: Manager, peer: PeerId, m: Message, choices: Choices, sent: Out)
    ensures RunAll(View(st, sent), Sections(peer, m, SeenBy(crypto, st, peer, m, choices)))
         == After(crypto, st, peer, m, choices, sent)
  {
    hide RunAll, Sections, SeenBy, After;
    if !m.body.Request? {
      ResponseRefined(crypto, st, peer, m, choices, sent);
    } else if m.body.request.Cancel? {
      CancelRefined(crypto, st, peer, m, choices, sent);
    } else if m.body.request.ChannelState? {
      StateRefined(crypto, st, peer, m, choices, sent);
    } else {
      RequestRefined(crypto, st, peer, m, choices, sent);
    }
  }

  // Local commands and the looks of a handler, run alone.

  lemma {:induction false} RunSays(st: Manager, sent: Out, targets: seq<PeerId>, m: Message, rest: seq<Section>)
    requires forall peer | peer in targets :: peer in st.peers
    ensures RunAll(View(st, sent), Says(targets, m) + rest) == RunAll(View(st, sent + Broadcast(targets, m)), rest)
    decreases |targets|
  {
    hide RunAll;
    if targets == [] {
      assert Says(targets, m) + rest == rest && sent + [] == sent;
    } else {
      var more := targets[1..];
      assert Says(targets, m) + rest == [Say(targets[0], m)] + (Says(more, m) + rest);
      RunSay(st, sent, targets[0], m, Says(more, m) + rest);
      RunSays(st, sent + [(targets[0], m)], more, m, rest);
      assert sent + [(targets[0], m)] + Broadcast(more, m) == sent + ([(targets[0], m)] + Broadcast(more, m));
    }
  }

  lemma RunLaunch(st: Manager, sent: Out, body: RequestBody, targets: seq<PeerId>, rest: seq<Section>)
    requires forall peer | peer in targets :: peer in st.peers
    ensures var (st1, o) := LocalRequest(st, body, targets);
            RunAll(View(st, sent), [Launch(body, targets)] + rest) == RunAll(View(st1, sent + o), rest)
  {
    hide RunAll, ReqIdBytes, Says, Broadcast;
    var (st1, id) := NewReqId(st);
    var m := MakeRequest(NO_CIRCUIT, id, TTL, body);
    var bind := Bind(id, Local, m);
    RunFirst(View(st, sent), Launch(body, targets), rest);
    assert [bind] + Says(targets, m) + rest == [bind] + (Says(targets, m) + rest);
    RunPlain(View(st1, sent), bind, Says(targets, m) + rest);
    RunSays(st1.(outbound := st1.outbound[id := (Local, m)]), sent, targets, m, rest);
  }

  /** Run alone, the critical sections of `open_channel` are `Manager.OpenChannel`. */
  lemma OpenRefined(st: Manager, opts: ChannelOptions, targets: seq<PeerId>, sent: Out)
    requires forall peer | peer in targets :: peer in st.peers
    ensures var (st', o) := OpenChannel(st, opts, targets);
            RunAll(View(st, sent), OpenSections(opts, targets)) == View(st', sent + o)
  {
    hide RunAll, LocalRequest;
    var range := ChannelTimeRange(opts.channel, opts.timeStart, opts.timeEnd, opts.limit);
    var state := ChannelState(opts.channel, 1);
    var (st1, o1) := LocalRequest(st, range, targets);
    var (st2, o2) := LocalRequest(st1, state, targets);
    LocalKeepsPeers(st, range, targets);
    assert OpenSections(opts, targets) == [Launch(range, targets)] + ([Launch(state, targets)] + []);
    RunLaunch(st, sent, range, targets, [Launch(state, targets)] + []);
    RunLaunch(st1, sent + o1, state, targets, []);
    RunNone(View(st2, sent + o1 + o2));
    assert sent + o1 + o2 == sent + (o1 + o2);
  }

  lemma LocalKeepsPeers(st: Manager, body: RequestBody, targets: seq<PeerId>)
    ensures LocalRequest(st, body, targets).0.peers == st.peers
  {
  }

  /** The cancels of `close_channel` are `Manager.CancelAll`. */
  lemma {:induction false} CloseRefined(st: Manager, ids: seq<Id>, targets: seq<PeerId>, sent: Out)
    ensures var (st', o) := CancelAll(st, ids, targets);
            CancelEach(View(st, sent), ids, targets) == View(st', sent + o)
    decreases |ids|
  {
    hide ReqIdBytes, Broadcast;
    if ids == [] {
      assert sent + [] == sent;
    } else {
      var (st1, id) := NewReqId(st);
      var st2 := st1.(outbound := st1.outbound - {ids[0]});
      var first := Broadcast(targets, MakeRequest(NO_CIRCUIT, id, TTL, Cancel(ids[0])));
      CloseRefined(st2, ids[1..], targets, sent + first);
      var later := CancelAll(st2, ids[1..], targets).1;
      assert sent + first + later == sent + (first + later);
    }
  }

  /** A task advances `n` times, and nothing else happens. */
  function Advanced(t: Tables, k: nat, seen: Reads, n: nat): Tables
    decreases n
  {
    if n == 0 then t else Advanced(Step(t, Advance(k, seen)), k, seen, n - 1)
  }

  /** Run alone, the three looks of a handler drop exactly what `Manager.Handle` drops. */
  lemma LooksRefined(st: Manager, sent: Out, k: nat, peer: PeerId, m: Message, seen: Reads)
    ensures exists n: nat ::
              Advanced(Step(View(st, sent), Begin(k, peer, m)), k, seen, n)
              == if Dropped(st, peer, m.header.reqId) then View(st, sent)
                 else With(View(st, sent), k, Busy(Sections(peer, m, seen)))
  {
    hide Sections;
    var t, id := View(st, sent), m.header.reqId;
    var a, b, c := With(t, k, Arrived(peer, m)), With(t, k, Handled(peer, m)), With(t, k, NotLive(peer, m));
    var done, e := With(t, k, Busy(Sections(peer, m, seen))), Advance(k, seen);
    SameTask(t, k, Arrived(peer, m), Handled(peer, m));
    SameTask(t, k, Arrived(peer, m), Busy(Sections(peer, m, seen)));
    SameTask(t, k, Handled(peer, m), NotLive(peer, m));
    SameTask(t, k, Handled(peer, m), Busy(Sections(peer, m, seen)));
    SameTask(t, k, NotLive(peer, m), Busy(Sections(peer, m, seen)));
    assert Step(t, Begin(k, peer, m)) == a;
    assert Step(a, e) == if id in st.handled then b else done;
    assert Step(b, e) == if IsLive(st, peer, id) then done else c;
    assert Step(c, e) == if id in st.outbound then done else t;
    hide Step;
    var end := if Dropped(st, peer, id) then t else done;
    assert Advanced(end, k, seen, 0) == end;
    if id !in st.handled {
      assert Advanced(a, k, seen, 1) == end;
    } else if IsLive(st, peer, id) {
      assert Advanced(b, k, seen, 1) == end;
      assert Advanced(a, k, seen, 2) == end;
    } else {
      assert Advanced(c, k, seen, 1) == end;
      assert Advanced(b, k, seen, 2) == end;
      assert Advanced(a, k, seen, 3) == end;
    }
  }

  lemma SameTask(t: Tables, k: nat, a: Task, b: Task)
    ensures With(With(t, k, a), k, b) == With(t, k, b)
    ensures k !in t.tasks ==> With(t, k, a).(tasks := With(t, k, a).tasks - {k}) == t
  {
    assert With(t, k, a).tasks[k := b] == t.tasks[k := b];
  }

  // Why handlers in flight matter.

  lemma {:induction false} Extend(t: Tables, turns: seq<Turn>, cur: Tables, e: Turn)
    requires Leads(t, turns, cur) && Enabled(cur, e)
    ensures Leads(t, turns + [e], Step(cur, e))
    decreases |turns|
  {
    hide Enabled, Step;
    if turns == [] {
      assert turns + [e] == [e] && [e][1..] == [];
    } else {
      Extend(Step(t, turns[0]), turns[1..], cur, e);
      assert (turns + [e])[1..] == turns[1..] + [e];
    }
  }

  /** A task performs its next section, which puts nothing in front of the rest. */
  lemma Next(t: Tables, turns: seq<Turn>, cur: Tables, k: nat, seen: Reads, s: Section, rest: seq<Section>)
    returns (turns': seq<Turn>, end: Tables)
    requires Leads(t, turns, cur) && k in cur.tasks && cur.tasks[k] == Busy([s] + rest) && !s.Ask? && !s.Launch?
    ensures Leads(t, turns', end) && turns' == turns + [Advance(k, seen)]
    ensures end == Step(cur, Advance(k, seen)) && end == With(Perform(cur, s).0, k, Busy(rest))
  {
    hide Leads;
    assert ([s] + rest)[0] == s && ([s] + rest)[1..] == rest && [] + rest == rest;
    Extend(t, turns, cur, Advance(k, seen));
    turns', end := turns + [Advance(k, seen)], Step(cur, Advance(k, seen));
  }

  /** A live time range request, and its cancellation. */
  function RangeRequest(id: Id, opts: ChannelOptions): Message {
    MakeRequest(NO_CIRCUIT, id, 0, ChannelTimeRange(opts.channel, opts.timeStart, opts.timeEnd, opts.limit))
  }

  function CancelRequest(id: Id, gone: Id): Message {
    MakeRequest(NO_CIRCUIT, id, 1, Cancel(gone))
  }

  /** A message arrives whose identifier is not handled, or is live: it is not dropped. */
  lemma Taken(t: Tables, turns: seq<Turn>, cur: Tables, k: nat, peer: PeerId, m: Message, seen: Reads)
    returns (turns': seq<Turn>, end: Tables)
    requires Leads(t, turns, cur) && k !in cur.tasks
    requires m.header.reqId !in cur.handled || LiveIn(cur.live, peer, m.header.reqId)
    ensures Leads(t, turns', end) && end == With(cur, k, Busy(Sections(peer, m, seen)))
  {
    hide Leads, Sections;
    var begin, look := Begin(k, peer, m), Advance(k, seen);
    Extend(t, turns, cur, begin);
    var w := Step(cur, begin);
    Extend(t, turns + [begin], w, look);
    var w1 := Step(w, look);
    turns', end := turns + [begin] + [look], w1;
    if m.header.reqId in cur.handled {
      Extend(t, turns', w1, look);
      turns', end := turns' + [look], Step(w1, look);
    }
    assert end.tasks == cur.tasks[k := Busy(Sections(peer, m, seen))];
  }

  lemma NoTurns(t: Tables)
    ensures Leads(t, [], t)
  {
  }

  lemma CancelSections(peer: PeerId, id: Id, gone: Id, seen: Reads)
    ensures Sections(peer, CancelRequest(id, gone), seen)
         == [Bind(id, Remote, DecrementTtl(CancelRequest(id, gone)).value)]
            + ([Unkeep(peer, gone)] + ([Unbind(gone)] + ([Mark(id)] + [])))
  {
  }

  /** The only holder of a live request cancels it, and the cancel is handled: the identifier is dead. */
  lemma Cancelled(t: Tables, turns: seq<Turn>, cur: Tables, k: nat, peer: PeerId, id: Id, gone: Id, seen: Reads)
    returns (turns': seq<Turn>, end: Tables)
    requires Leads(t, turns, cur) && k !in cur.tasks && id !in cur.handled && id != gone
    requires gone in cur.handled && forall q | q in cur.live && q != peer :: R.NoneOf(cur.live[q], gone)
    ensures Leads(t, turns', end) && Dead(end, gone)
    ensures end.tasks == cur.tasks[k := Busy([])] && end.peers == cur.peers && end.sent == cur.sent
  {
    hide Leads, RemoveLive, NoneLive, Step, Sections;
    var w: Tables;
    CancelSections(peer, id, gone, seen);
    turns', w := Taken(t, turns, cur, k, peer, CancelRequest(id, gone), seen);
    turns', w := Next(t, turns', w, k, seen, Bind(id, Remote, DecrementTtl(CancelRequest(id, gone)).value),
                      [Unkeep(peer, gone)] + ([Unbind(gone)] + ([Mark(id)] + [])));
    turns', w := Next(t, turns', w, k, seen, Unkeep(peer, gone), [Unbind(gone)] + ([Mark(id)] + []));
    UnkeepAll(cur.live, peer, gone);
    turns', w := Next(t, turns', w, k, seen, Unbind(gone), [Mark(id)] + []);
    turns', end := Next(t, turns', w, k, seen, Mark(id), []);
    assert end.tasks == cur.tasks[k := Busy([])];
  }

  lemma UnkeepAll(live: map<PeerId, seq<LiveRequest>>, peer: PeerId, gone: Id)
    requires forall q | q in live && q != peer :: R.NoneOf(live[q], gone)
    ensures NoneLive(RemoveLive(live, peer, gone), gone)
  {
    if peer in live {
      var rs := KeepOthers(live[peer], gone);
      forall i | 0 <= i < |rs| ensures rs[i].reqId != gone {
        assert rs[i] in rs;
      }
    }
  }

  lemma RangeSections(peer: PeerId, id: Id, opts: ChannelOptions, seen: Reads)
    requires opts.timeEnd == 0 && seen.hashes != [] && !seen.fails
    ensures Sections(peer, RangeRequest(id, opts), seen)
         == [Keep(peer, LiveRange(id, opts))]
            + ([Reply(peer, RangeRequest(id, opts), HashResponse(seen.hashes))] + ([Mark(id)] + []))
  {
  }

  lemma KeptLive(live: map<PeerId, seq<LiveRequest>>, peer: PeerId, r: LiveRequest)
    ensures LiveIn(S.PushAt(live, peer, r), peer, r.reqId)
  {
    var rs := S.PushAt(live, peer, r)[peer];
    assert rs[|rs| - 1] == r;
  }

  /** A time range request is kept alive and answered; what is left is to mark it. */
  lemma KeptAndAnswered(
    t: Tables, turns: seq<Turn>, cur: Tables, k: nat, peer: PeerId, id: Id, opts: ChannelOptions, seen: Reads)
    returns (turns': seq<Turn>, end: Tables)
    requires opts.timeEnd == 0 && seen.hashes != [] && !seen.fails
    requires Leads(t, turns, cur) && k in cur.tasks && peer in cur.peers
    requires cur.tasks[k] == Busy(Sections(peer, RangeRequest(id, opts), seen))
    ensures Leads(t, turns', end) && turns' == turns + [Advance(k, seen)] + [Advance(k, seen)]
    ensures end == cur.(live := S.PushAt(cur.live, peer, LiveRange(id, opts)), sent := end.sent,
                        tasks := cur.tasks[k := Busy([Mark(id)])])
    ensures end.sent == cur.sent + [(peer, MakeResponse(NO_CIRCUIT, id, HashResponse(seen.hashes)))]
    ensures LiveIn(end.live, peer, id)
    ensures var e := Advance(k, seen); forall x :: x !in Allocated(cur, e) + Allocated(Step(cur, e), e)
  {
    hide Leads, Sections, S.PushAt, LiveIn, ReqIdBytes;
    var keep := Keep(peer, LiveRange(id, opts));
    var reply := Reply(peer, RangeRequest(id, opts), HashResponse(seen.hashes));
    var w: Tables;
    RangeSections(peer, id, opts, seen);
    turns', w := Next(t, turns, cur, k, seen, keep, [reply] + ([Mark(id)] + []));
    turns', end := Next(t, turns', w, k, seen, reply, [Mark(id)] + []);
    hide Step;
    KeptLive(cur.live, peer, LiveRange(id, opts));
    assert [Mark(id)] + [] == [Mark(id)];
    assert end.tasks == cur.tasks[k := Busy([Mark(id)])];
  }

  /**
   * A copy of a live request is in flight, past its looks, when the request is cancelled: the identifier is dead
   * once the cancel is handled, and then it is live again and answered.
   */
  lemma CancelOvertaken(peer: PeerId, id: Id, cancelId: Id, opts: ChannelOptions, seen: Reads, n: nat)
    returns (before: seq<Turn>, dead: Tables, after: seq<Turn>, end: Tables)
    requires id != cancelId && opts.timeEnd == 0 && seen.hashes != [] && !seen.fails
    ensures Leads(Tables({}, map[], map[], n, {peer}, [], map[]), before, dead) && Dead(dead, id)
    ensures Leads(dead, after, end) && NeverAllocated(dead, after, id)
    ensures LiveIn(end.live, peer, id) && |end.sent| > |dead.sent| && !R.Silent(end.sent[|dead.sent|..], id)
  {
    hide Leads, Sections, S.PushAt, LiveIn, Step, Perform, Allocated, Dead;
    var start := Tables({}, map[], map[], n, {peer}, [], map[]);
    var m := RangeRequest(id, opts);
    var w: Tables;
    NoTurns(start);
    before, w := Taken(start, [], start, 0, peer, m, seen);
    before, w := KeptAndAnswered(start, before, w, 0, peer, id, opts, seen);
    before, w := Marked(start, before, w, 0, seen, id);
    before, w := Taken(start, before, w, 1, peer, m, seen);
    OnlyOne(peer, LiveRange(id, opts));
    before, dead := Cancelled(start, before, w, 2, peer, cancelId, id, seen);
    NoTurns(dead);
    after, end := KeptAndAnswered(dead, [], dead, 1, peer, id, opts, seen);
    assert [] + [Advance(1, seen)] + [Advance(1, seen)] == [Advance(1, seen), Advance(1, seen)];
    TwoTurns(dead, Advance(1, seen), id);
    assert end.sent[|dead.sent|..][0].1.header.reqId == id;
  }

  lemma Marked(t: Tables, turns: seq<Turn>, cur: Tables, k: nat, seen: Reads, id: Id)
    returns (turns': seq<Turn>, end: Tables)
    requires Leads(t, turns, cur) && k in cur.tasks && cur.tasks[k] == Busy([Mark(id)])
    ensures Leads(t, turns', end)
    ensures end == cur.(handled := cur.handled + {id}, tasks := cur.tasks[k := Busy([])])
  {
    hide Leads;
    assert [Mark(id)] == [Mark(id)] + [];
    turns', end := Next(t, turns, cur, k, seen, Mark(id), []);
  }

  lemma OnlyOne(peer: PeerId, r: LiveRequest)
    ensures S.PushAt(map[], peer, r) == map[peer := [r]]
  {
  }

  lemma TwoTurns(t: Tables, e: Turn, id: Id)
    requires id !in Allocated(t, e) + Allocated(Step(t, e), e)
    ensures NeverAllocated(t, [e, e], id)
  {
    hide Allocated, Step;
    assert [e, e][1..] == [e] && [e][1..] == [];
    assert NeverAllocated(Step(Step(t, e), e), [], id);
    assert NeverAllocated(Step(t, e), [e], id);
  }
}
