/**
 * Peers as objects at work: any sequence of actions, and one round of synchronisation in which every message
 * crosses a connection (cable_core/src/manager.rs).
 */
module Rounds {
  import opened Wire
  import opened Messages
  import Varint
  import P = Posts
  import History
  import S = Store
  import Q = Queries
  import M = Manager
  import C = CableManager
  import opened Requests
  import F = Framing
  import opened Session
  import Sync

  // Any sequence of actions.

  method Do(d: C.CableManager, a: M.Action, choices: M.Choices)
    modifies d, d.store
    ensures (d.State(), d.sent) == (M.Act(d.store.crypto, old(d.State()), a, choices).0,
                                    old(d.sent) + M.Act(d.store.crypto, old(d.State()), a, choices).1)
  {
    hide M.Handle, M.Publish, M.OpenChannel, M.CloseChannel, M.Connect;
    assert d.sent + [] == d.sent;
    match a {
      case Receive(peer, m) => var r := d.HandleMessage(peer, m, choices);
      case PublishPost(p) => var r := d.PublishPost(p, choices);
      case DeletePosts(p) =>
        if p.body.Delete? {
          var r := d.PostDelete(p, choices);
        }
      case Open(opts, targets) => d.Open(opts, targets);
      case Close(c, targets) => d.Close(c, targets, choices);
      case Join => var peer := d.Accept(choices);
      case Leave(peer) => d.Drop(peer);
    }
  }

  /** A run of a peer: it is the run of the state machine, and what is dead when it starts stays silent. */
  method Perform(d: C.CableManager, run: seq<(M.Action, M.Choices)>)
    modifies d, d.store
    ensures d.State() == RunState(d.store.crypto, old(d.State()), run)
    ensures d.sent == old(d.sent) + RunOut(d.store.crypto, old(d.State()), run)
    ensures forall id | Dead(old(d.State()), id) && Keyed(old(d.outbound))
                        && NeverAllocated(d.store.crypto, old(d.State()), run, id) ::
              Silent(d.sent[|old(d.sent)|..], id)
  {
    hide M.Act, Dead, Keyed, NeverAllocated, Silent;
    ghost var crypto, st, was := d.store.crypto, d.State(), d.sent;
    assert run[0..] == run;
    for i := 0 to |run|
      invariant RunState(crypto, st, run) == RunState(crypto, d.State(), run[i..])
      invariant was + RunOut(crypto, st, run) == d.sent + RunOut(crypto, d.State(), run[i..])
    {
      assert run[i..][0] == run[i] && run[i..][1..] == run[i + 1..];
      Do(d, run[i].0, run[i].1);
    }
    assert run[|run|..] == [] && d.sent + [] == d.sent;
    assert d.sent[|was|..] == RunOut(crypto, st, run);
    forall id | Dead(st, id) && Keyed(st.outbound) && NeverAllocated(crypto, st, run, id)
      ensures Silent(d.sent[|was|..], id)
    {
      DeadForever(crypto, st, run, id);
    }
  }

  // Which messages of a round fit a connection.

  /** The most hashes that fit a message. */
  const MAX_HASHES: nat := 1562

  lemma Lengths(n: nat)
    ensures n < 128 ==> Varint.Length(n) == 1
    ensures 128 <= n < 16384 ==> Varint.Length(n) == 2
    ensures 16384 <= n < 2097152 ==> Varint.Length(n) == 3
    ensures n >= 128 ==> Varint.Length(n) >= 2
    ensures n >= 1 ==> Varint.Length(n) >= 1
  {
    assert Varint.Pow128(1) == 128 && Varint.Pow128(2) == 16384 && Varint.Pow128(3) == 128 * 16384;
    Varint.LengthRange(n, 1);
    Varint.LengthRange(n, 2);
    Varint.LengthRange(n, 3);
  }

  /** Which sizes are in the prefix window, below the third power. */
  lemma SmallWindow(s: nat)
    requires s < 100_000
    ensures InWindow(s) <==> s == 127 || s == 16382 || s == 16383
  {
    assert Varint.Pow128(1) == 128 && Varint.Pow128(2) == 16384 && Varint.Pow128(3) == 128 * 16384;
    hide Varint.Length;
    Lengths(s);
    if s == 127 {
      assert Window(s, 1);
    } else if s == 16382 || s == 16383 {
      assert Window(s, 2);
    }
    if k :| k >= 1 && Window(s, k) {
      WindowOnlyOwn(s, k);
      assert k <= 3;
    }
  }

  /** A list of `n` hashes behind `h` bytes of header: when it fits, and never in the window. */
  lemma ListFits(n: nat, h: nat, s: nat)
    requires 9 <= h <= 10 && s == h + Varint.Length(n) + n * 32
    ensures Varint.Length(s) + s <= MAX_SIZE <==> n <= MAX_HASHES
    ensures n <= MAX_HASHES ==> !InWindow(s)
  {
    hide Varint.Length, InWindow;
    Lengths(n);
    Lengths(s);
    if n <= MAX_HASHES {
      SmallWindow(s);
    }
  }

  /** A hash response can be sent exactly if it lists at most 1562 hashes. */
  lemma HashesSendable(circuitId: Id, reqId: Id, hs: seq<Hash>)
    ensures Sendable(MakeResponse(circuitId, reqId, HashResponse(hs))) <==> |hs| <= MAX_HASHES
  {
    hide Varint.Length, InWindow;
    Lengths(0);
    ListFits(|hs|, 9, 9 + Varint.Length(|hs|) + |hs| * 32);
  }

  /** So can a post request. */
  lemma RequestSendable(circuitId: Id, reqId: Id, hs: seq<Hash>)
    ensures Sendable(MakeRequest(circuitId, reqId, M.TTL, PostRequest(hs))) <==> |hs| <= MAX_HASHES
  {
    hide Varint.Length, InWindow;
    Lengths(2);
    Lengths(1);
    ListFits(|hs|, 10, 10 + Varint.Length(|hs|) + |hs| * 32);
  }

  lemma {:induction false} WantNoMore(s: S.Store, hs: seq<Hash>)
    ensures |Q.Want(s, hs)| <= |hs|
  {
    if hs != [] {
      WantNoMore(s, hs[1..]);
    }
  }

  /** With a limit of 1562 or less, and not 0, A's list and B's request can always be sent. */
  lemma LimitedSendable(s: S.Store, q: M.ChannelOptions)
    requires 0 < q.limit <= MAX_HASHES
    ensures |Sync.ListedBy(s, q)| <= MAX_HASHES
  {
    hide Q.GetPostHashes;
  }

  // The round.

  /** The reads of a connection that carries `m` alone leave its prefix complete. */
  ghost predicate Carried(m: Message, sizes: seq<nat>) {
    F.CutsOk([], Concat(EncodeAll([m])), sizes, MAX_SIZE)
  }

  /** One message across a connection. */
  method Carry(m: Message, sizes: seq<nat>) returns (received: Message)
    requires Sendable(m) && Carried(m, sizes)
    ensures received == m
  {
    var ms, failed := Transfer([m], sizes);
    received := ms[0];
  }

  /** What a round needs: a ready pair of peers, and a list and posts that fit the connection. */
  ghost predicate CanRound(
    crypto: P.Crypto, ps: seq<P.Post>, a: M.Manager, b: M.Manager, peerA: M.PeerId, peerB: M.PeerId,
    q: M.ChannelOptions, range: Message, sizes: seq<seq<nat>>)
  {
    && Sync.Honest(crypto, ps) && S.Agree(a.store, History.Trace(crypto, ps))
    && Sync.Ready(a, b, peerA, peerB, q, range)
    && |Sync.ListedBy(a.store, q)| <= MAX_HASHES
    && |sizes| == 3 && Carried(Sync.ListOf(a, q, range), sizes[0])
    && (Q.Want(b.store, Sync.ListedBy(a.store, q)) != [] ==>
          && Sendable(Sync.PostsFor(a, b, q, range))
          && Carried(Sync.AskFor(a, b, q, range), sizes[1])
          && Carried(Sync.PostsFor(a, b, q, range), sizes[2]))
  }

  lemma RoundSendable(a: M.Manager, b: M.Manager, q: M.ChannelOptions, range: Message)
    requires |Sync.ListedBy(a.store, q)| <= MAX_HASHES
    ensures Sendable(Sync.ListOf(a, q, range)) && Sendable(Sync.AskFor(a, b, q, range))
  {
    hide Sync.ListedBy, Sendable, Q.Want, M.NewReqId;
    var hs := Sync.ListedBy(a.store, q);
    HashesSendable(range.header.circuitId, range.header.reqId, hs);
    WantNoMore(b.store, hs);
    RequestSendable(range.header.circuitId, M.NewReqId(b).1, Q.Want(b.store, hs));
  }

  /**
   * The round between two peers as objects, each message encoded, cut into reads, deframed and decoded on its
   * way: every hash that A has in the range ends up in B's store or barred by B.
   */
  method Round(
    a: C.CableManager, b: C.CableManager, peerA: M.PeerId, peerB: M.PeerId, ghost q: M.ChannelOptions, range: Message,
    choices: seq<M.Choices>, sizes: seq<seq<nat>>, ghost ps: seq<P.Post>)
    requires a != b && a.store != b.store && a.store.crypto == b.store.crypto && |choices| == 4
    requires CanRound(a.store.crypto, ps, a.State(), b.State(), peerA, peerB, q, range, sizes)
    modifies a, a.store, b, b.store
    ensures forall h | h in old(Sync.ListedBy(a.store.State(), q)) :: h in b.store.payloads || h in b.deleted
  {
    hide M.Handle, Sync.ListedBy, Sync.Honest, Sync.Ready, S.Agree, Sendable, Carried, Q.Want, Sync.ListOf, Sync.AskFor;
    hide Sync.PostsFor;
    ghost var crypto, sa, sb := a.store.crypto, a.State(), b.State();
    Sync.RoundConverges(crypto, ps, sa, sb, peerA, peerB, q, range, choices[0], choices[1], choices[2], choices[3]);
    RoundSendable(sa, sb, q, range);
    var sentA, sentB := |a.sent|, |b.sent|;
    var r := a.HandleMessage(peerB, range, choices[0]);
    if |a.sent| == sentA {
      return;
    }
    var list := Carry(a.sent[sentA].1, sizes[0]);
    sentA := |a.sent|;
    r := b.HandleMessage(peerA, list, choices[1]);
    if |b.sent| == sentB {
      return;
    }
    var ask := Carry(b.sent[sentB].1, sizes[1]);
    r := a.HandleMessage(peerB, ask, choices[2]);
    var posts := Carry(a.sent[sentA].1, sizes[2]);
    r := b.HandleMessage(peerA, posts, choices[3]);
  }
}
