/**
 * `CableManager`: the peer's collections updated in place, loop by loop (cable_core/src/manager.rs). Every
 * method is tied to the step of module `Manager` that specifies it; `sent` lists what has been handed to the
 * peers' channels and streams.
 */
module CableManager {
  import opened Wire
  import opened Messages
  import P = Posts
  import opened Queries
  import opened M = Manager
  import S = Store
  import opened MemoryStore
  import opened Orders
  import opened News
  import opened Effects

  class CableManager {
    var deleted: set<Hash>
    var forwarded: map<Id, set<PeerId>>
    var handled: set<Id>
    var lastPeerId: PeerId
    var lastReqId: nat
    var live: map<PeerId, seq<LiveRequest>>
    var outbound: map<Id, (Origin, Message)>
    var peers: set<PeerId>
    var requested: set<Hash>
    var sent: Out
    const store: MemoryStore

    /** The manager as a value. */
    function State(): Manager
      reads this, store
    {
      Manager(deleted, forwarded, handled, lastPeerId, lastReqId, live, outbound, peers, requested, store.State())
    }

    constructor (store: MemoryStore, seed: nat)
      ensures this.store == store && sent == [] && store.State() == old(store.State())
      ensures State() == Manager({}, map[], {}, 0, seed, map[], map[], {}, {}, store.State())
    {
      this.store := store;
      deleted, handled, peers, requested := {}, {}, {}, {};
      forwarded, live, outbound := map[], map[], map[];
      lastPeerId, lastReqId, sent := 0, seed, [];
    }

    method NextId() returns (id: Id)
      modifies this`lastReqId
      ensures (State(), id) == NewReqId(old(State()))
    {
      lastReqId := NextReqId(lastReqId);
      id := ReqIdBytes(lastReqId);
    }

    method SendTo(peer: PeerId, m: Message)
      modifies this`sent
      ensures sent == old(sent) + Send(State(), peer, m)
    {
      if peer in peers {
        sent := sent + [(peer, m)];
      }
    }

    method SendToAll(targets: seq<PeerId>, m: Message)
      modifies this`sent
      ensures sent == old(sent) + Broadcast(targets, m)
    {
      ghost var was := sent;
      for i := 0 to |targets|
        invariant was + Broadcast(targets, m) == sent + Broadcast(targets[i..], m)
      {
        assert targets[i..][1..] == targets[i + 1..];
        sent := sent + [(targets[i], m)];
      }
    }

    method IsLiveRequest(peer: PeerId, id: Id) returns (r: bool)
      ensures r == IsLive(State(), peer, id)
    {
      if peer !in live {
        return false;
      }
      for i := 0 to |live[peer]|
        invariant forall j | 0 <= j < i :: live[peer][j].reqId != id
      {
        if live[peer][i].reqId == id {
          return true;
        }
      }
      return false;
    }

    method RemoveLiveRequest(peer: PeerId, id: Id)
      modifies this`live
      ensures live == RemoveLive(old(live), peer, id)
    {
      if peer in live {
        live := live[peer := KeepOthers(live[peer], id)];
      }
    }

    method AddLiveRequest(peer: PeerId, r: LiveRequest)
      modifies this`live
      ensures live == S.PushAt(old(live), peer, r)
    {
      if peer in live {
        live := live[peer := live[peer] + [r]];
      } else {
        live := live[peer := [r]];
      }
    }

    method WriteToOutbound(m: Message)
      requires m.body.Request? && m.body.ttl > 0
      modifies this`outbound
      ensures State() == Forward(old(State()), m)
    {
      outbound := outbound[m.header.reqId := (Remote, DecrementTtl(m).value)];
    }

    method WriteIfTtl(m: Message)
      requires m.body.Request?
      modifies this`outbound
      ensures State() == ForwardIfTtl(old(State()), m)
    {
      if m.body.ttl > 0 {
        WriteToOutbound(m);
      }
    }

    /** The loop that stops once the limit is reached. */
    method TakeLimited(all: seq<Hash>, limit: U64) returns (hashes: seq<Hash>)
      ensures hashes == Limited(all, limit) && IsCut(hashes, all, limit)
    {
      var n := Min(limit, 4096);
      hashes := [];
      for i := 0 to |all|
        invariant hashes == all[..i] && (n != 0 ==> i < n)
      {
        hashes := hashes + [all[i]];
        assert hashes == all[..i + 1];
        if n != 0 && |hashes| >= n {
          return;
        }
      }
      assert all[..|all|] == all;
    }

    method OnPostRequest(peer: PeerId, m: Message, hashes: seq<Hash>)
      requires m.body.Request?
      modifies this
      ensures var s := HandlePostRequest(old(State()), peer, m, hashes);
              State() == s.state && s.result == Ok(()) && sent == old(sent) + s.out
    {
      hide GetPayloads, Send;
      WriteIfTtl(m);
      SendTo(peer, MakeResponse(m.header.circuitId, m.header.reqId, PostResponse(GetPayloads(store.State(), hashes))));
    }

    method OnCancel(peer: PeerId, m: Message, cancelId: Id) returns (r: Result<()>)
      requires m.body.Request?
      modifies this
      ensures Step(State(), [], r) == HandleCancel(old(State()), peer, m, cancelId) && sent == old(sent)
    {
      if m.body.ttl == 0 {
        return Err(Panic);
      }
      WriteToOutbound(m);
      RemoveLiveRequest(peer, cancelId);
      outbound := outbound - {cancelId};
      return Ok(());
    }

    method OnTimeRange(peer: PeerId, m: Message, opts: ChannelOptions) returns (r: Result<()>)
      requires m.body.Request?
      modifies this
      ensures var s := HandleTimeRange(old(State()), peer, m, opts);
              State() == s.state && r == s.result && sent == old(sent) + s.out
    {
      hide GetPostHashes, Limited, S.PushAt, Send;
      WriteIfTtl(m);
      var all := GetPostHashes(store.State(), opts.channel, opts.timeStart, opts.timeEnd);
      if all.Err? {
        return Err(all.error);
      }
      var hashes := TakeLimited(all.value, opts.limit);
      var response := MakeResponse(m.header.circuitId, m.header.reqId, HashResponse(hashes));
      if opts.timeEnd == 0 {
        AddLiveRequest(peer, LiveRange(m.header.reqId, opts));
        if hashes != [] {
          SendTo(peer, response);
        }
      } else {
        SendTo(peer, response);
      }
      return Ok(());
    }

    method OnChannelState(peer: PeerId, m: Message, c: Text, future: U64, choices: Choices)
      requires m.body.Request?
      modifies this
      ensures var s := HandleState(old(State()), peer, m, c, future, choices);
              State() == s.state && s.result == Ok(()) && sent == old(sent) + s.out
      ensures MembersOrder(choices, store.State()) ==>
                StateExact(store.State(), c, StateHashes(store.State(), c, choices))
    {
      hide GetTopic, S.PushAt, Send, StateExact, MembersOrder;
      if MembersOrder(choices, store.State()) {
        StateAllExact(store.State(), c, choices);
      }
      WriteIfTtl(m);
      var s := store.State();
      var hashes: seq<Hash> := [];
      if c in s.membership {
        hashes := hashes + choices.members(c);
      }
      if GetTopic(s, c).Some? {
        hashes := hashes + [GetTopic(s, c).value.1];
      }
      assert hashes == StateHashes(s, c, choices);
      hide StateHashes;
      var response := MakeResponse(m.header.circuitId, m.header.reqId, HashResponse(hashes));
      if future == 0 {
        SendTo(peer, response);
        if hashes != [] {
          SendTo(peer, MakeResponse(m.header.circuitId, m.header.reqId, HashResponse([])));
        }
      } else if future == 1 {
        AddLiveRequest(peer, LiveState(m.header.reqId, c));
        if hashes != [] {
          SendTo(peer, response);
        }
      }
    }

    method OnChannelList(peer: PeerId, m: Message, skip: U64, limit: U64, choices: Choices) returns (r: Result<()>)
      requires m.body.Request?
      modifies this
      ensures var s := HandleChannelList(old(State()), peer, m, skip, limit, choices);
              State() == s.state && r == s.result && sent == old(sent) + s.out
      ensures IsOrder(choices.channels, store.channels) && peer in peers && skip == 0 && limit == 0 ==>
                exists listed :: IsOrder(listed, store.channels) &&
                  sent == old(sent)
                          + [(peer, MakeResponse(m.header.circuitId, m.header.reqId, ChannelListResponse(listed)))]
    {
      hide Send, IsOrder;
      if IsOrder(choices.channels, store.channels) && peer in peers && skip == 0 && limit == 0 {
        ChannelListExact(State(), peer, m, skip, limit, choices);
      }
      WriteIfTtl(m);
      var listed: seq<Text> := [];
      if store.channels != {} {
        var all := choices.channels;
        var end := if limit == 0 || limit > |all| then |all| else limit;
        if skip > end {
          return Err(Panic);
        }
        listed := all[skip..end];
      }
      SendTo(peer, MakeResponse(m.header.circuitId, m.header.reqId, ChannelListResponse(listed)));
      return Ok(());
    }

    method OnHashes(peer: PeerId, m: Message, hashes: seq<Hash>)
      modifies this
      ensures var s := HandleHashes(old(State()), peer, m, hashes);
              State() == s.state && s.result == Ok(()) && sent == old(sent) + s.out
    {
      hide Want, Send, ReqIdBytes;
      var wanted := Want(store.State(), hashes);
      if wanted != [] {
        var id := NextId();
        SendTo(peer, MakeRequest(m.header.circuitId, id, TTL, PostRequest(wanted)));
        ghost var was := requested;
        for i := 0 to |wanted|
          modifies this`requested
          invariant requested == was + set h | h in wanted[..i]
        {
          assert wanted[..i + 1] == wanted[..i] + [wanted[i]];
          requested := requested + {wanted[i]};
        }
        assert wanted[..|wanted|] == wanted;
      }
    }

    /** The loop over the posts of a response: verified, whole, not barred and requested, or left alone. */
    method OnPosts(posts: seq<Bytes>) returns (r: Result<()>)
      modifies this`requested, store
      ensures Step(State(), [], r) == HandlePosts(store.crypto, old(State()), posts)
    {
      hide P.Verify, P.Decode, S.InsertPost, P.Encode;
      ghost var st := State();
      ghost var all := AdmitPosts(store.crypto, deleted, requested, store.State(), posts);
      assert posts[0..] == posts;
      for i := 0 to |posts|
        invariant State() == st.(requested := requested, store := store.State())
        invariant all == AdmitPosts(store.crypto, deleted, requested, store.State(), posts[i..])
      {
        assert posts[i..][0] == posts[i] && posts[i..][1..] == posts[i + 1..];
        if !P.Verify(store.crypto, posts[i]) {
          continue;
        }
        var q := P.FromBytes(posts[i]);
        if q.Err? {
          return Err(q.error);
        }
        if q.value.0 != |posts[i]| {
          continue;
        }
        var payload := P.ToBytes(q.value.1);
        if payload.Err? {
          return Err(payload.error);
        }
        var h := store.crypto.digest(payload.value);
        if h in deleted || h !in requested {
          continue;
        }
        requested := requested - {h};
        var inserted := store.InsertPost(q.value.1);
        if inserted.Err? {
          return Err(inserted.error);
        }
      }
      return Ok(());
    }

    method OnChannels(cs: seq<Text>)
      modifies store
      ensures var s := old(store.State());
              State() == old(State()).(store := s.(channels := s.channels + (set c | c in cs)))
    {
      ghost var was, s := store.channels, store.State();
      for i := 0 to |cs|
        invariant store.State() == s.(channels := was + set c | c in cs[..i])
      {
        assert cs[..i + 1] == cs[..i] + [cs[i]];
        store.InsertChannel(cs[i]);
      }
      assert cs[..|cs|] == cs;
    }

    method Dispatch(peer: PeerId, m: Message, choices: Choices) returns (r: Result<()>)
      modifies this, store
      ensures var s := HandleBody(store.crypto, old(State()), peer, m, choices);
              State() == s.state && r == s.result && sent == old(sent) + s.out
    {
      hide IsLive, HandlePostRequest, HandleCancel, HandleTimeRange, HandleState, HandleChannelList, HandleHashes;
      hide HandlePosts;
      assert sent + [] == sent;
      r := Ok(());
      match m.body {
        case Request(_, PostRequest(hashes)) => OnPostRequest(peer, m, hashes);
        case Request(_, Cancel(cancelId)) => r := OnCancel(peer, m, cancelId);
        case Request(_, ChannelTimeRange(c, start, end, limit)) =>
          r := OnTimeRange(peer, m, ChannelOptions(c, start, end, limit));
        case Request(_, ChannelState(c, future)) => OnChannelState(peer, m, c, future, choices);
        case Request(_, ChannelList(skip, limit)) => r := OnChannelList(peer, m, skip, limit, choices);
        case Response(HashResponse(hashes)) => OnHashes(peer, m, hashes);
        case Response(PostResponse(posts)) => r := OnPosts(posts);
        case Response(ChannelListResponse(cs)) => OnChannels(cs);
        case Unrecognized(_) =>
      }
    }

    /** `handle` */
    method HandleMessage(peer: PeerId, m: Message, choices: Choices) returns (r: Result<()>)
      modifies this, store
      ensures var s := Handle(store.crypto, old(State()), peer, m, choices);
              State() == s.state && r == s.result && sent == old(sent) + s.out
    {
      hide IsLive, HandleBody;
      var id := m.header.reqId;
      if id in handled {
        var isLive := IsLiveRequest(peer, id);
        if !isLive && id !in outbound {
          return Ok(());
        }
      }
      r := Dispatch(peer, m, choices);
      if r.Ok? {
        handled := handled + {id};
      }
    }

    // Local commands.

    method CollectMembers(keys: seq<Hash>) returns (hashes: seq<Hash>)
      ensures hashes == MemberHashes(store.State(), keys)
    {
      hide GetName;
      var s := store.State();
      hashes := [];
      for i := 0 to |keys|
        invariant MemberHashes(s, keys) == hashes + MemberHashes(s, keys[i..])
      {
        ghost var was, rest := hashes, MemberHashes(s, keys[i + 1..]);
        assert keys[i..][1..] == keys[i + 1..];
        if keys[i] in s.deleteHashes {
          hashes := hashes + s.deleteHashes[keys[i]];
        }
        if GetName(s, keys[i]).Some? {
          hashes := hashes + [GetName(s, keys[i]).value.1];
        }
        assert hashes + rest == was + MemberHashes(s, keys[i..]);
      }
    }

    method CollectNames(keys: seq<Hash>) returns (hashes: seq<Hash>)
      ensures hashes == NameHashes(store.State(), keys)
    {
      hide GetName, NameHashes;
      var s := store.State();
      hashes := [];
      NamesOfNone(s, keys);
      for i := 0 to |keys|
        invariant NameHashes(s, keys) == hashes + NameHashes(s, keys[i..])
      {
        NameStep(s, keys, i, hashes);
        if GetName(s, keys[i]).Some? {
          hashes := hashes + [GetName(s, keys[i]).value.1];
        }
      }
    }

    /** The hashes that a live channel state request is sent. */
    method CollectState(c: Text, choices: Choices) returns (hashes: seq<Hash>)
      ensures hashes == LiveStateHashes(store.State(), c, choices)
      ensures MembersOrder(choices, store.State()) ==> forall h | IsMove(store.State(), c, h) :: h in hashes
    {
      hide StateHashes, MemberHashes, NameHashes, MembersOrder, IsMove;
      if MembersOrder(choices, store.State()) {
        forall h | IsMove(store.State(), c, h) ensures h in StateHashes(store.State(), c, choices) {
          StateHashesExact(store.State(), c, choices, h);
        }
      }
      hashes := StateHashes(store.State(), c, choices);
      if c in store.members {
        var more := CollectMembers(store.members[c]);
        hashes := hashes + more;
      }
      if c in store.exMembers {
        var more := CollectNames(store.exMembers[c]);
        hashes := hashes + more;
      }
    }

    method Answer(peer: PeerId, request: LiveRequest, c: Text, choices: Choices) returns (r: Result<()>)
      modifies this`sent
      ensures var o := LiveResponse(State(), peer, request, c, choices);
              if o.Err? then r == Err(o.error) && sent == old(sent) else r == Ok(()) && sent == old(sent) + o.value
    {
      hide GetPostHashes, Limited, LiveStateHashes, Send;
      match request {
        case LiveState(id, channel) =>
          if channel == c {
            var hashes := CollectState(c, choices);
            SendTo(peer, MakeResponse(NO_CIRCUIT, id, HashResponse(hashes)));
          }
        case LiveRange(id, opts) =>
          if opts.channel == c {
            var all :- GetPostHashes(store.State(), opts.channel, opts.timeStart, opts.timeEnd);
            var hashes := TakeLimited(all, opts.limit);
            if hashes != [] {
              SendTo(peer, MakeResponse(NO_CIRCUIT, id, HashResponse(hashes)));
            }
          }
      }
      return Ok(());
    }

    method AnswerPeer(peer: PeerId, requests: seq<LiveRequest>, c: Text, choices: Choices) returns (r: Result<()>)
      modifies this`sent
      ensures (sent, r) == (old(sent) + PeerResponses(State(), peer, requests, c, choices).0,
                            PeerResponses(State(), peer, requests, c, choices).1)
    {
      hide LiveResponse;
      ghost var was, st := sent, State();
      for i := 0 to |requests|
        invariant State() == st
        invariant was + PeerResponses(st, peer, requests, c, choices).0
               == sent + PeerResponses(st, peer, requests[i..], c, choices).0
        invariant PeerResponses(st, peer, requests, c, choices).1
               == PeerResponses(st, peer, requests[i..], c, choices).1
      {
        assert requests[i..][1..] == requests[i + 1..];
        r := Answer(peer, requests[i], c, choices);
        if r.Err? {
          assert sent + [] == sent;
          return;
        }
      }
      assert requests[|requests|..] == [] && sent + [] == sent;
      return Ok(());
    }

    method AnswerPeers(c: Text, choices: Choices) returns (r: Result<()>)
      modifies this`sent
      ensures (sent, r) == (old(sent) + SendPostHashes(State(), c, choices.livePeers, choices).0,
                            SendPostHashes(State(), c, choices.livePeers, choices).1)
    {
      hide PeerResponses;
      ghost var was, st := sent, State();
      var order := choices.livePeers;
      assert order[0..] == order;
      for i := 0 to |order|
        invariant State() == st
        invariant was + SendPostHashes(st, c, order, choices).0 == sent + SendPostHashes(st, c, order[i..], choices).0
        invariant SendPostHashes(st, c, order, choices).1 == SendPostHashes(st, c, order[i..], choices).1
      {
        assert order[i..][1..] == order[i + 1..];
        if order[i] in live {
          r := AnswerPeer(order[i], live[order[i]], c, choices);
          if r.Err? {
            return;
          }
        }
      }
      assert order[|order|..] == [] && sent + [] == sent;
      return Ok(());
    }

    /** `send_post_hashes`: every live request of the channel gets its answer. */
    method AnswerLive(c: Text, choices: Choices) returns (r: Result<()>)
      modifies this`sent
      ensures (sent, r) == (old(sent) + SendPostHashes(State(), c, choices.livePeers, choices).0,
                            SendPostHashes(State(), c, choices.livePeers, choices).1)
      ensures r.Ok? && IsOrder(choices.livePeers, live.Keys) ==> AllAnswered(State(), c, choices, sent[|old(sent)|..])
      ensures r.Ok? && IsOrder(choices.livePeers, live.Keys) && MembersOrder(choices, store.State()) ==>
                AllTold(State(), c, sent[|old(sent)|..]) && OnlyNews(State(), c, sent[|old(sent)|..])
    {
      hide SendPostHashes, IsOrder, AllAnswered, MembersOrder, AllTold, OnlyNews;
      r := AnswerPeers(c, choices);
      if r.Ok? && IsOrder(choices.livePeers, live.Keys) {
        LiveAllAnswered(State(), c, choices);
        if MembersOrder(choices, store.State()) {
          ChannelTold(State(), c, choices);
        }
      }
    }

    method AnswerMembers(author: Hash, choices: Choices) returns (r: Result<()>)
      modifies this`sent
      ensures (sent, r) == (old(sent) + SendToChannels(State(), author, choices.channels, choices).0,
                            SendToChannels(State(), author, choices.channels, choices).1)
    {
      hide SendPostHashes, IsMember;
      ghost var was, st := sent, State();
      var cs := choices.channels;
      assert cs[0..] == cs;
      for i := 0 to |cs|
        invariant State() == st
        invariant was + SendToChannels(st, author, cs, choices).0
               == sent + SendToChannels(st, author, cs[i..], choices).0
        invariant SendToChannels(st, author, cs, choices).1 == SendToChannels(st, author, cs[i..], choices).1
      {
        assert cs[i..][1..] == cs[i + 1..];
        if IsMember(store.State(), cs[i], author) {
          r := AnswerLive(cs[i], choices);
          if r.Err? {
            return;
          }
        }
      }
      assert cs[|cs|..] == [] && sent + [] == sent;
      return Ok(());
    }

    /** The loop over the channels that the author is a member of. */
    method AnswerChannels(author: Hash, choices: Choices) returns (r: Result<()>)
      modifies this`sent
      ensures (sent, r) == (old(sent) + SendToChannels(State(), author, choices.channels, choices).0,
                            SendToChannels(State(), author, choices.channels, choices).1)
      ensures r.Ok? && IsOrder(choices.livePeers, live.Keys) && IsOrder(choices.channels, store.channels) ==>
                forall c | c in store.channels && IsMember(store.State(), c, author) ::
                  AllAnswered(State(), c, choices, sent[|old(sent)|..])
      ensures r.Ok? && IsOrder(choices.livePeers, live.Keys) && IsOrder(choices.channels, store.channels)
              && MembersOrder(choices, store.State()) ==>
                && MembersTold(State(), author, sent[|old(sent)|..])
                && OnlyMembersNews(State(), author, sent[|old(sent)|..])
    {
      hide SendToChannels, IsOrder, AllAnswered, IsMember, MembersOrder, MembersTold, OnlyMembersNews;
      r := AnswerMembers(author, choices);
      if r.Ok? && IsOrder(choices.livePeers, live.Keys) && IsOrder(choices.channels, store.channels) {
        MemberChannelsAnswered(State(), author, choices);
        if MembersOrder(choices, store.State()) {
          ChannelsTold(State(), author, choices);
        }
      }
    }

    /** `post`, for a post that is already signed. */
    method PublishPost(p: P.Post, choices: Choices) returns (r: Result<()>)
      modifies this`sent, store
      ensures var s := Publish(store.crypto, old(State()), p, choices);
              State() == s.state && r == s.result && sent == old(sent) + s.out
      ensures r.Ok? && P.ChannelOf(p).Some? && IsOrder(choices.livePeers, live.Keys) ==>
                AllAnswered(State(), P.ChannelOf(p).value, choices, sent[|old(sent)|..])
      ensures r.Ok? && P.ChannelOf(p).None? && IsOrder(choices.livePeers, live.Keys)
              && IsOrder(choices.channels, store.channels) ==>
                forall c | c in store.channels && IsMember(store.State(), c, p.header.publicKey) ::
                  AllAnswered(State(), c, choices, sent[|old(sent)|..])
      ensures r.Ok? && P.ChannelOf(p).Some? && IsOrder(choices.livePeers, live.Keys)
              && MembersOrder(choices, store.State()) ==>
                && AllTold(State(), P.ChannelOf(p).value, sent[|old(sent)|..])
                && OnlyNews(State(), P.ChannelOf(p).value, sent[|old(sent)|..])
      ensures r.Ok? && P.ChannelOf(p).None? && IsOrder(choices.livePeers, live.Keys)
              && IsOrder(choices.channels, store.channels) && MembersOrder(choices, store.State()) ==>
                && MembersTold(State(), p.header.publicKey, sent[|old(sent)|..])
                && OnlyMembersNews(State(), p.header.publicKey, sent[|old(sent)|..])
    {
      hide S.InsertPost, SendPostHashes, SendToChannels, AllAnswered, IsOrder, IsMember;
      hide MembersOrder, AllTold, OnlyNews, MembersTold, OnlyMembersNews;
      var inserted := store.InsertPost(p);
      if inserted.Err? {
        return Err(inserted.error);
      }
      var channel := P.ChannelOf(p);
      if channel.Some? {
        r := AnswerLive(channel.value, choices);
      } else {
        r := AnswerChannels(p.header.publicKey, choices);
      }
    }

    /** `post_delete` */
    method PostDelete(p: P.Post, choices: Choices) returns (r: Result<()>)
      requires p.body.Delete?
      modifies this`sent, this`deleted, store
      ensures var s := PublishDelete(store.crypto, old(State()), p, choices);
              State() == s.state && r == s.result && sent == old(sent) + s.out
      ensures forall h :: h in deleted <==> h in old(deleted) || h in p.body.hashes
    {
      hide Publish;
      deleted := deleted + set h | h in p.body.hashes;
      r := PublishPost(p, choices);
    }

    method Request(body: RequestBody, targets: seq<PeerId>)
      modifies this`lastReqId, this`outbound, this`sent
      ensures (State(), sent) == (LocalRequest(old(State()), body, targets).0,
                                  old(sent) + LocalRequest(old(State()), body, targets).1)
    {
      hide ReqIdBytes, Broadcast;
      var id := NextId();
      var m := MakeRequest(NO_CIRCUIT, id, TTL, body);
      outbound := outbound[id := (Local, m)];
      SendToAll(targets, m);
    }

    method Open(opts: ChannelOptions, targets: seq<PeerId>)
      modifies this`lastReqId, this`outbound, this`sent
      ensures (State(), sent) == (OpenChannel(old(State()), opts, targets).0,
                                  old(sent) + OpenChannel(old(State()), opts, targets).1)
      ensures IsOrder(targets, peers) ==>
                var range := ChannelTimeRange(opts.channel, opts.timeStart, opts.timeEnd, opts.limit);
                var (st, id) := NewReqId(old(State()));
                forall peer | peer in peers ::
                  && (peer, MakeRequest(NO_CIRCUIT, id, TTL, range)) in sent[|old(sent)|..]
                  && (peer, MakeRequest(NO_CIRCUIT, NewReqId(st).1, TTL, ChannelState(opts.channel, 1)))
                     in sent[|old(sent)|..]
      ensures old(lastReqId) <= MAX_U32 ==>
                var range, state := RangeOf(old(State()), opts), StateOf(old(State()), opts);
                && range.header.reqId != state.header.reqId
                && outbound == old(outbound)[range.header.reqId := (Local, range)][state.header.reqId := (Local, state)]
                && forall x :: x in sent[|old(sent)|..] <==> x.0 in targets && (x.1 == range || x.1 == state)
    {
      hide LocalRequest, IsOrder, ReqIdBytes, RangeOf, StateOf;
      if lastReqId <= MAX_U32 {
        OpenRecords(State(), opts, targets);
      }
      if IsOrder(targets, peers) {
        forall peer | peer in peers {
          OpenReaches(State(), opts, targets, peer);
        }
      }
      Request(ChannelTimeRange(opts.channel, opts.timeStart, opts.timeEnd, opts.limit), targets);
      ghost var first := sent[|old(sent)|..];
      Request(ChannelState(opts.channel, 1), targets);
      ghost var second := sent[|old(sent)| + |first|..];
      assert sent == old(sent) + first + second == old(sent) + (first + second);
    }

    /** The loop that collects the matching requests. */
    method FindMatching(c: Text, choices: Choices) returns (found: seq<Id>)
      ensures found == MatchingIds(outbound, choices.outboundIds, c)
    {
      var ids := choices.outboundIds;
      found := [];
      assert ids[0..] == ids;
      for i := 0 to |ids|
        invariant MatchingIds(outbound, ids, c) == found + MatchingIds(outbound, ids[i..], c)
      {
        assert ids[i..][1..] == ids[i + 1..];
        if ids[i] in outbound && LocalRangeOf(outbound[ids[i]], c) {
          found := found + [ids[i]];
        }
      }
    }

    /** The loop that cancels them, each under a new identifier. */
    method CancelEach(ids: seq<Id>, targets: seq<PeerId>)
      modifies this`lastReqId, this`outbound, this`sent
      ensures (State(), sent) == (CancelAll(old(State()), ids, targets).0,
                                  old(sent) + CancelAll(old(State()), ids, targets).1)
    {
      hide ReqIdBytes, Broadcast;
      ghost var was, st := sent, State();
      assert ids[0..] == ids;
      for i := 0 to |ids|
        invariant CancelAll(st, ids, targets).0 == CancelAll(State(), ids[i..], targets).0
        invariant was + CancelAll(st, ids, targets).1 == sent + CancelAll(State(), ids[i..], targets).1
      {
        assert ids[i..][1..] == ids[i + 1..];
        var id := NextId();
        SendToAll(targets, MakeRequest(NO_CIRCUIT, id, TTL, Cancel(ids[i])));
        outbound := outbound - {ids[i]};
      }
      assert ids[|ids|..] == [] && sent + [] == sent;
    }

    /** `close_channel`: no local time range request of the channel stays, and every target is told of each. */
    method Close(c: Text, targets: seq<PeerId>, choices: Choices)
      modifies this`lastReqId, this`outbound, this`sent
      ensures (State(), sent) == (CloseChannel(old(State()), c, targets, choices).0,
                                  old(sent) + CloseChannel(old(State()), c, targets, choices).1)
      ensures IsOrder(choices.outboundIds, old(outbound).Keys) ==>
                && (forall id | id in outbound :: id in old(outbound) && !LocalRangeOf(outbound[id], c))
                && forall id, peer | id in old(outbound) && LocalRangeOf(old(outbound)[id], c) && peer in targets ::
                     CancelSent(sent[|old(sent)|..], peer, id)
    {
      hide CancelAll, MatchingIds, CancelSent, IsOrder;
      if IsOrder(choices.outboundIds, outbound.Keys) {
        CloseCancelsAll(State(), c, targets, choices);
      }
      var found := FindMatching(c, choices);
      CancelEach(found, targets);
    }

    /** One outbound request for a peer that has just connected. */
    method ProcessRequest(peer: PeerId, id: Id, origin: Origin, m: Message)
      modifies this`forwarded, this`outbound, this`sent
      ensures (State(), sent) == (ProcessOne(old(State()), peer, id, origin, m).0,
                                  old(sent) + ProcessOne(old(State()), peer, id, origin, m).1)
    {
      assert sent + [] == sent;
      if !m.body.Request? {
        return;
      }
      if m.body.request.Cancel? && origin.Remote? {
        var cancelId := m.body.request.cancelId;
        if cancelId in forwarded {
          if peer !in forwarded[cancelId] {
            return;
          }
          sent := sent + [(peer, m)];
          forwarded := forwarded[cancelId := forwarded[cancelId] - {peer}];
          if forwarded[cancelId] == {} {
            forwarded := forwarded - {cancelId};
          }
          assert forwarded == RemoveForwarded(old(forwarded), cancelId, peer);
        }
      }
      ghost var before, out := forwarded, sent[|old(sent)|..];
      assert sent == old(sent) + out;
      if m.body.ttl == 0 {
        outbound := outbound - {id};
      } else {
        sent := sent + [(peer, m)];
        assert sent == old(sent) + (out + [(peer, m)]);
        if origin.Remote? {
          if id in forwarded {
            forwarded := forwarded[id := forwarded[id] + {peer}];
          } else {
            forwarded := forwarded[id := {peer}];
          }
          assert var none: set<PeerId> := {}; none + {peer} == {peer};
          assert forwarded == AddForwarded(before, id, peer);
        }
      }
    }

    /** `process_and_send_outbound_requests`, over a snapshot of the outbound requests. */
    method ProcessRequests(peer: PeerId, choices: Choices)
      modifies this`forwarded, this`outbound, this`sent
      ensures var s := ProcessOutbound(old(State()), peer, old(outbound), choices.outboundIds);
              State() == s.0 && sent == old(sent) + s.1
    {
      hide ProcessOne;
      var snapshot, ids := outbound, choices.outboundIds;
      ghost var was, st := sent, State();
      assert ids[0..] == ids;
      for i := 0 to |ids|
        invariant ProcessOutbound(st, peer, snapshot, ids).0 == ProcessOutbound(State(), peer, snapshot, ids[i..]).0
        invariant was + ProcessOutbound(st, peer, snapshot, ids).1
               == sent + ProcessOutbound(State(), peer, snapshot, ids[i..]).1
      {
        assert ids[i..][1..] == ids[i + 1..];
        if ids[i] in snapshot {
          ProcessRequest(peer, ids[i], snapshot[ids[i]].0, snapshot[ids[i]].1);
        }
      }
    }

    /** The start of `listen`. */
    method Accept(choices: Choices) returns (peer: PeerId)
      modifies this`forwarded, this`outbound, this`sent, this`lastPeerId, this`peers
      ensures (State(), sent) == (Connect(old(State()), choices).0, old(sent) + Connect(old(State()), choices).1)
      ensures peer == lastPeerId == old(lastPeerId) + 1
      ensures IsOrder(choices.outboundIds, old(outbound).Keys) ==>
                forall id | id in old(outbound) && Due(old(outbound)[id]) ::
                  (peer, old(outbound)[id].1) in sent[|old(sent)|..]
    {
      hide ProcessOutbound, IsOrder, Due;
      if IsOrder(choices.outboundIds, outbound.Keys) {
        ConnectSendsAll(State(), choices);
      }
      lastPeerId := lastPeerId + 1;
      peer := lastPeerId;
      peers := peers + {peer};
      ProcessRequests(peer, choices);
    }

    /** The end of `listen`. */
    method Drop(peer: PeerId)
      modifies this`peers
      ensures State() == Disconnect(old(State()), peer)
    {
      peers := peers - {peer};
    }
  }

  // The steps of the collecting loops.

  lemma NameStep(s: S.Store, keys: seq<Hash>, i: nat, done: seq<Hash>)
    requires i < |keys|
    ensures done + NameHashes(s, keys[i..])
         == (if GetName(s, keys[i]).Some? then done + [GetName(s, keys[i]).value.1] else done)
            + NameHashes(s, keys[i + 1..])
  {
    hide GetName;
    assert keys[i..][1..] == keys[i + 1..];
  }

  lemma NamesOfNone(s: S.Store, keys: seq<Hash>)
    ensures keys[0..] == keys && keys[|keys|..] == [] && NameHashes(s, []) == []
    ensures [] + NameHashes(s, keys) == NameHashes(s, keys)
  {
  }
}
