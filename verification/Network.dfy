/**
 * Any number of peers exchanging requests: how far a request can travel (cable_core/src/manager.rs,
 * cable/src/message.rs). Packets and outbound entries carry, for the proof, the ttl the request started with
 * and how often it has been forwarded.
 */
module Network {
  import opened Wire
  import opened Messages
  import P = Posts
  import opened Manager
  import opened Requests

  type NodeId = nat

  datatype Trip = Trip(ttl0: nat, hops: nat)

  datatype Packet = Packet(to: NodeId, from: PeerId, message: Message, trip: Trip)

  datatype Net = Net(nodes: map<NodeId, Manager>, trips: map<(NodeId, Id), Trip>, packets: set<Packet>)

  /** A request that is not a cancel; cancels travel whatever their ttl. */
  predicate Counted(m: Message) {
    m.body.Request? && !m.body.request.Cancel?
  }

  /** The ttl left is the ttl at the start less the forwards, and a forwarded request has some left. */
  ghost predicate OnTrip(m: Message, t: Trip) {
    Counted(m) ==> m.body.ttl + t.hops == t.ttl0 && (t.hops > 0 ==> m.body.ttl >= 1)
  }

  ghost predicate NetOk(net: Net) {
    && (forall p | p in net.packets :: OnTrip(p.message, p.trip))
    && (forall n | n in net.nodes :: NodeOk(net, n))
  }

  ghost predicate NodeOk(net: Net, n: NodeId)
    requires n in net.nodes
  {
    && Keyed(net.nodes[n].outbound)
    && forall id | id in net.nodes[n].outbound :: EntryOk(net.nodes[n].outbound[id], net.trips, n, id)
  }

  /** An outbound request of remote origin knows its trip; its ttl may have run out. */
  ghost predicate EntryOk(e: (Origin, Message), trips: map<(NodeId, Id), Trip>, n: NodeId, id: Id) {
    e.0.Remote? && Counted(e.1) ==>
      (n, id) in trips && e.1.body.ttl + trips[(n, id)].hops == trips[(n, id)].ttl0
  }

  datatype Move =
    | Inject(packet: Packet)
    | Deliver(packet: Packet, choices: Choices)
    | Command(node: NodeId, action: Action, choices: Choices)
    | Connected(node: NodeId, far: NodeId, farPeer: PeerId, choices: Choices)

  ghost predicate Enabled(net: Net, mv: Move) {
    match mv
    case Inject(p) => p.to in net.nodes && p.trip == Trip(if p.message.body.Request? then p.message.body.ttl else 0, 0)
    case Deliver(p, _) => p in net.packets && p.to in net.nodes
    case Command(n, a, _) => n in net.nodes && !a.Receive? && !a.Join?
    case Connected(n, far, _, _) => n in net.nodes && far in net.nodes
  }

  /** The packet for a message that node `n` forwards or repeats to a newly connected peer. */
  function PacketFor(net: Net, n: NodeId, far: NodeId, farPeer: PeerId, m: Message): Packet
    requires n in net.nodes
  {
    var e := net.nodes[n].outbound;
    var id := m.header.reqId;
    if id in e && e[id].0.Remote? && (n, id) in net.trips
    then Packet(far, farPeer, m, net.trips[(n, id)])
    else Packet(far, farPeer, m, Trip(if m.body.Request? then m.body.ttl else 0, 0))
  }

  function Advance(crypto: P.Crypto, net: Net, mv: Move): Net
    requires Enabled(net, mv)
  {
    match mv
    case Inject(p) => net.(packets := net.packets + {p})
    case Deliver(p, choices) =>
      var st := Handle(crypto, net.nodes[p.to], p.from, p.message, choices).state;
      var id := p.message.header.reqId;
      var forwarded := id in st.outbound && (id !in net.nodes[p.to].outbound
                                             || st.outbound[id] != net.nodes[p.to].outbound[id]);
      Net(net.nodes[p.to := st],
          if forwarded then net.trips[(p.to, id) := Trip(p.trip.ttl0, p.trip.hops + 1)] else net.trips,
          net.packets)
    case Command(n, a, choices) => net.(nodes := net.nodes[n := Act(crypto, net.nodes[n], a, choices).0])
    case Connected(n, far, farPeer, choices) =>
      var (st, o) := Connect(net.nodes[n], choices);
      net.(nodes := net.nodes[n := st],
           packets := net.packets + (set i | 0 <= i < |o| :: PacketFor(net, n, far, farPeer, o[i].1)))
  }

  lemma DeliverKeeps(crypto: P.Crypto, net: Net, p: Packet, choices: Choices)
    requires NetOk(net) && p in net.packets && p.to in net.nodes
    ensures NetOk(Advance(crypto, net, Deliver(p, choices)))
  {
    hide Handle;
    var net' := Advance(crypto, net, Deliver(p, choices));
    var before, st := net.nodes[p.to], net'.nodes[p.to];
    HandleForwards(crypto, before, p.from, p.message, choices);
    assert OnTrip(p.message, p.trip);
    forall n | n in net'.nodes ensures NodeOk(net', n) {
      assert NodeOk(net, n);
      forall id | id in net'.nodes[n].outbound
        ensures EntryOk(net'.nodes[n].outbound[id], net'.trips, n, id)
        ensures net'.nodes[n].outbound[id].1.header.reqId == id
      {
        if id in net.nodes[n].outbound {
          assert EntryOk(net.nodes[n].outbound[id], net.trips, n, id);
        }
      }
    }
  }

  lemma CommandKeeps(crypto: P.Crypto, net: Net, n: NodeId, a: Action, choices: Choices)
    requires NetOk(net) && n in net.nodes && !a.Receive? && !a.Join?
    ensures NetOk(Advance(crypto, net, Command(n, a, choices)))
  {
    hide Act;
    var net' := Advance(crypto, net, Command(n, a, choices));
    LocalCommands(crypto, net.nodes[n], a, choices);
    forall k | k in net'.nodes ensures NodeOk(net', k) {
      assert NodeOk(net, k);
      forall id | id in net'.nodes[k].outbound
        ensures EntryOk(net'.nodes[k].outbound[id], net'.trips, k, id)
        ensures net'.nodes[k].outbound[id].1.header.reqId == id
      {
        if id in net.nodes[k].outbound {
          assert EntryOk(net.nodes[k].outbound[id], net.trips, k, id);
        }
      }
    }
  }

  lemma ConnectKeeps(crypto: P.Crypto, net: Net, n: NodeId, far: NodeId, farPeer: PeerId, choices: Choices)
    requires NetOk(net) && n in net.nodes && far in net.nodes
    ensures NetOk(Advance(crypto, net, Connected(n, far, farPeer, choices)))
  {
    hide ProcessOutbound;
    var net' := Advance(crypto, net, Connected(n, far, farPeer, choices));
    var st := net.nodes[n];
    var (_, o) := Connect(st, choices);
    var peer := st.lastPeerId + 1;
    var st1 := st.(lastPeerId := peer, peers := st.peers + {peer});
    assert NodeOk(net, n);
    ProcessOutboundShape(st1, peer, st1.outbound, choices.outboundIds);
    forall i | 0 <= i < |o|
      ensures var p := PacketFor(net, n, far, farPeer, o[i].1); OnTrip(p.message, p.trip)
    {
      var id := o[i].1.header.reqId;
      assert EntryOk(st.outbound[id], net.trips, n, id);
    }
    forall k | k in net'.nodes ensures NodeOk(net', k) {
      assert NodeOk(net, k);
      forall id | id in net'.nodes[k].outbound
        ensures EntryOk(net'.nodes[k].outbound[id], net'.trips, k, id)
        ensures net'.nodes[k].outbound[id].1.header.reqId == id
      {
        assert EntryOk(net.nodes[k].outbound[id], net.trips, k, id);
      }
    }
  }

  /** Every move of the network keeps every request on its trip. */
  lemma NetKept(crypto: P.Crypto, net: Net, mv: Move)
    requires NetOk(net) && Enabled(net, mv)
    ensures NetOk(Advance(crypto, net, mv))
  {
    hide Handle, Act, Connect;
    match mv
    case Inject(p) =>
      var net' := Advance(crypto, net, mv);
      forall n | n in net'.nodes ensures NodeOk(net', n) {
        assert NodeOk(net, n);
      }
    case Deliver(p, choices) => DeliverKeeps(crypto, net, p, choices);
    case Command(n, a, choices) => CommandKeeps(crypto, net, n, a, choices);
    case Connected(n, far, farPeer, choices) => ConnectKeeps(crypto, net, n, far, farPeer, choices);
  }

  /** A sequence of moves, each enabled where it is made, and the network it leads to. */
  ghost predicate Run(crypto: P.Crypto, net: Net, moves: seq<Move>, end: Net)
    decreases |moves|
  {
    if moves == [] then end == net
    else Enabled(net, moves[0]) && Run(crypto, Advance(crypto, net, moves[0]), moves[1..], end)
  }

  lemma {:induction false} NetOverRuns(crypto: P.Crypto, net: Net, moves: seq<Move>, end: Net)
    requires NetOk(net) && Run(crypto, net, moves, end)
    ensures NetOk(end)
    decreases |moves|
  {
    hide Advance, Enabled, NetOk;
    if moves != [] {
      NetKept(crypto, net, moves[0]);
      NetOverRuns(crypto, Advance(crypto, net, moves[0]), moves[1..], end);
    }
  }

  /**
   * In any run of any network of fresh peers, the k-th forward of a request carries the starting ttl less k,
   * which is at least one: every chain of forwards ends before its length reaches the starting ttl.
   */
  lemma BoundedTravel(crypto: P.Crypto, net: Net, moves: seq<Move>, end: Net, p: Packet)
    requires net.packets == {} && forall n | n in net.nodes :: net.nodes[n].outbound == map[]
    requires Run(crypto, net, moves, end) && p in end.packets && Counted(p.message)
    ensures p.message.body.ttl == p.trip.ttl0 - p.trip.hops
    ensures p.trip.hops > 0 ==> p.message.body.ttl >= 1 && p.trip.hops < p.trip.ttl0
  {
    hide Run;
    NetOverRuns(crypto, net, moves, end);
    assert OnTrip(p.message, p.trip);
  }
}
