/**
 * A post response handled at the same time as everything else: what it was asked for ends up stored or barred,
 * provided the asking was marked before the answer came (cable_core/src/manager.rs).
 */
module Answers {
  import opened Wire
  import P = Posts
  import opened Store
  import opened Steps
  import opened Queries
  import opened Admission
  import I = Interleavings
  import C = Clashes

  /** Bytes of a valid, signed post that is not a delete post. */
  ghost predicate IsGood(crypto: P.Crypto, b: Bytes) {
    && P.Verify(crypto, b) && P.Decode(b).Ok? && P.Decode(b).value.0 == |b|
    && !P.Decode(b).value.1.body.UnrecognizedPost? && !P.Decode(b).value.1.body.Delete?
  }

  ghost predicate AllGood(crypto: P.Crypto, bs: seq<Bytes>) {
    forall b | b in bs :: IsGood(crypto, b)
  }

  function HashIn(crypto: P.Crypto, b: Bytes): Option<Hash> {
    var d := P.Decode(b);
    if d.Ok? then Some(P.HashOf(crypto, d.value.1)) else None
  }

  /** No delete post in play has the hash `h`. */
  ghost predicate NoDeleteOf(crypto: P.Crypto, play: set<P.Post>, h: Hash) {
    forall p | p in play && P.HashOf(crypto, p) == h :: !p.body.Delete?
  }

  /** `h` was stored since there were `n` of it, or will be: by a task at work on it, or by one that takes it up. */
  ghost predicate Owed(w: World, h: Hash, n: nat) {
    || w.stored[h] > n
    || h in w.requested
    || exists id :: id in w.tasks && w.tasks[id].Admitting? && I.Stores(w.tasks[id].ops, h)
  }

  ghost predicate Settled(w: World, h: Hash, n: nat) {
    w.stored[h] > n || h in w.deleted
  }

  /** The response has yet to come to a post with hash `h`, or is at it. */
  ghost predicate Ahead(crypto: P.Crypto, t: Task, h: Hash) {
    match t
    case Responding(bs) => AllGood(crypto, bs) && Lists(crypto, bs, h)
    case Checked(p, bs) => AllGood(crypto, bs) && !p.body.Delete? && (P.HashOf(crypto, p) == h || Lists(crypto, bs, h))
    case Admitting(p, ops, bs) =>
      AllGood(crypto, bs) && !p.body.Delete? && (Lists(crypto, bs, h) || I.Stores(ops, h))
    case _ => false
  }

  ghost predicate Lists(crypto: P.Crypto, bs: seq<Bytes>, h: Hash) {
    exists b :: b in bs && HashIn(crypto, b) == Some(h)
  }

  /** Settled, or owed with the response still to come to it. */
  ghost predicate Coming(crypto: P.Crypto, w: World, id: nat, h: Hash, n: nat) {
    Settled(w, h, n) || (id in w.tasks && Ahead(crypto, w.tasks[id], h) && Owed(w, h, n))
  }

  // What is owed stays owed until it is stored.

  lemma InsertStores(p: P.Post, h: Hash)
    requires !p.body.UnrecognizedPost?
    ensures I.Stores(InsertOps(p, h), h)
  {
    var ops := InsertOps(p, h);
    var i := match p.body
             case TextPost(_, _) => 1
             case Topic(_, _) => 2
             case Join(_) => 3
             case Leave(_) => 3
             case _ => |ops| - 1;
    assert ops[i] == StorePayload(p, h);
  }

  /** A task that is to store a hash of no delete post gets on with it. */
  lemma StoringStep(crypto: P.Crypto, play: set<P.Post>, w: World, id: nat, h: Hash)
    requires I.Orderly(crypto, w) && I.Played(crypto, play, w) && NoDeleteOf(crypto, play, h)
    requires I.Working(w, id) && w.tasks[id].Admitting? && I.Stores(w.tasks[id].ops, h)
    ensures var w', t := Work(w, id), w.tasks[id];
            && Found(w.store, t.ops[0]) == Some([]) && id in w'.tasks
            && w'.tasks[id] == Admitting(t.post, t.ops[1..], t.posts)
            && (w'.stored[h] > w.stored[h] || I.Stores(t.ops[1..], h))
  {
    hide P.HashOf, P.Decode, Apply, Shape;
    var t := w.tasks[id];
    assert I.TaskOk(crypto, w.deleted, t) && I.PostsOf(t) <= play;
    ShapeMeaning(t.post, P.HashOf(crypto, t.post), t.ops);
    var i :| 0 <= i < |t.ops| && t.ops[i].StorePayload? && t.ops[i].hash == h;
    assert t.ops[i] in t.ops && t.post in play && !t.post.body.Delete?;
    assert t.ops[0] in t.ops && !t.ops[0].Examine?;
    assert [] + t.ops[1..] == t.ops[1..];
    I.SplitOps([], t.ops, h);
  }

  lemma WorkOwed(crypto: P.Crypto, play: set<P.Post>, w: World, id: nat, h: Hash, n: nat)
    requires I.Orderly(crypto, w) && I.Played(crypto, play, w) && NoDeleteOf(crypto, play, h)
    requires I.Working(w, id) && Owed(w, h, n) && n <= w.stored[h]
    ensures Owed(Work(w, id), h, n) && n <= Work(w, id).stored[h]
  {
    hide P.HashOf, Apply, Found, I.Stores, I.Orderly, I.Played;
    var w' := Work(w, id);
    if w.stored[h] <= n && h !in w.requested {
      var j :| j in w.tasks && w.tasks[j].Admitting? && I.Stores(w.tasks[j].ops, h);
      if j == id {
        StoringStep(crypto, play, w, id, h);
      }
      assert w'.stored[h] > n || (j in w'.tasks && w'.tasks[j].Admitting? && I.Stores(w'.tasks[j].ops, h));
    }
  }

  /** No step loses what is owed. */
  lemma StepOwed(crypto: P.Crypto, play: set<P.Post>, w: World, e: Turn, h: Hash, n: nat)
    requires I.Orderly(crypto, w) && I.Played(crypto, play, w) && NoDeleteOf(crypto, play, h)
    requires Enabled(w, e) && Owed(w, h, n) && n <= w.stored[h]
    ensures Owed(Step(crypto, w, e), h, n) && n <= Step(crypto, w, e).stored[h]
  {
    hide P.HashOf, P.Decode, P.Verify, Want, InsertOps, I.Stores, I.Played, Work, NoDeleteOf;
    var w' := Step(crypto, w, e);
    if e.Advance? && I.Working(w, e.id) {
      WorkOwed(crypto, play, w, e.id, h, n);
    } else if w.stored[h] <= n {
      NothingStored(h);
      if h in w.requested {
        if e.Advance? && w.tasks[e.id].Checked? && P.HashOf(crypto, w.tasks[e.id].post) == h {
          assert I.TaskOk(crypto, w.deleted, w.tasks[e.id]);
          InsertStores(w.tasks[e.id].post, h);
          assert w'.tasks[e.id].Admitting? && I.Stores(w'.tasks[e.id].ops, h);
        }
      } else {
        var j :| j in w.tasks && w.tasks[j].Admitting? && I.Stores(w.tasks[j].ops, h);
        assert j in w'.tasks && w'.tasks[j] == w.tasks[j];
      }
    }
  }

  lemma NothingStored(h: Hash)
    ensures !I.Stores([], h)
  {
  }

  // The response comes to it.

  lemma ListsFirst(crypto: P.Crypto, bs: seq<Bytes>, h: Hash)
    requires bs != []
    ensures Lists(crypto, bs, h) <==> HashIn(crypto, bs[0]) == Some(h) || Lists(crypto, bs[1..], h)
    ensures AllGood(crypto, bs) ==> IsGood(crypto, bs[0]) && AllGood(crypto, bs[1..])
  {
    hide HashIn, IsGood;
    assert bs[0] in bs;
    assert forall b :: b in bs <==> b == bs[0] || b in bs[1..];
  }

  lemma LookComing(crypto: P.Crypto, w: World, id: nat, h: Hash, n: nat)
    requires id in w.tasks && w.tasks[id].Responding? && Ahead(crypto, w.tasks[id], h)
    ensures var w' := Look(crypto, w, id, w.tasks[id].posts);
            h in w.deleted || (id in w'.tasks && Ahead(crypto, w'.tasks[id], h))
  {
    hide P.HashOf, P.Decode, P.Verify, Lists, AllGood;
    var bs := w.tasks[id].posts;
    NothingListed(crypto, h);
    ListsFirst(crypto, bs, h);
  }

  lemma NothingListed(crypto: P.Crypto, h: Hash)
    ensures !Lists(crypto, [], h)
  {
  }

  lemma SettledStays(crypto: P.Crypto, w: World, e: Turn, h: Hash, n: nat)
    requires Enabled(w, e)
    ensures w.stored[h] <= Step(crypto, w, e).stored[h]
    ensures Settled(w, h, n) ==> Settled(Step(crypto, w, e), h, n)
  {
    hide P.HashOf, P.Decode, P.Verify, Want, InsertOps, Apply, Found;
    I.BarredGrows(crypto, w, e);
  }

  /** A post with the hash is taken up, or it has been stored by someone else. */
  lemma AdmitComing(crypto: P.Crypto, w: World, id: nat, h: Hash, n: nat)
    requires I.Orderly(crypto, w) && Enabled(w, Advance(id)) && w.tasks[id].Checked?
    requires Ahead(crypto, w.tasks[id], h) && Owed(w, h, n)
    ensures var w' := Step(crypto, w, Advance(id));
            w'.stored[h] > n || (id in w'.tasks && Ahead(crypto, w'.tasks[id], h))
  {
    hide P.HashOf, InsertOps, I.Stores, Lists, AllGood;
    assert I.TaskOk(crypto, w.deleted, w.tasks[id]);
    InsertStores(w.tasks[id].post, P.HashOf(crypto, w.tasks[id].post));
  }

  lemma AdvanceComing(crypto: P.Crypto, play: set<P.Post>, w: World, id: nat, h: Hash, n: nat)
    requires I.Orderly(crypto, w) && I.Played(crypto, play, w) && NoDeleteOf(crypto, play, h)
    requires Enabled(w, Advance(id)) && Ahead(crypto, w.tasks[id], h) && Owed(w, h, n) && n <= w.stored[h]
    ensures var w' := Step(crypto, w, Advance(id));
            Settled(w', h, n) || (id in w'.tasks && Ahead(crypto, w'.tasks[id], h))
  {
    hide P.HashOf, P.Decode, P.Verify, InsertOps, I.Stores, Lists, AllGood, Found, Apply, I.Played, NoDeleteOf;
    match w.tasks[id]
    case Responding(_) => LookComing(crypto, w, id, h, n);
    case Checked(_, _) => AdmitComing(crypto, w, id, h, n);
    case Admitting(p, ops, bs) =>
      NothingStored(h);
      if ops != [] {
        if I.Stores(ops, h) {
          StoringStep(crypto, play, w, id, h);
        } else {
          PlainStep(crypto, w, id, h);
        }
      }
  }

  /** A task that inserts no delete post never fails. */
  lemma PlainStep(crypto: P.Crypto, w: World, id: nat, h: Hash)
    requires I.Orderly(crypto, w) && I.Working(w, id) && w.tasks[id].Admitting? && !w.tasks[id].post.body.Delete?
    ensures var w', t := Work(w, id), w.tasks[id];
            id in w'.tasks && w'.tasks[id] == Admitting(t.post, t.ops[1..], t.posts)
  {
    hide P.HashOf, P.Decode, Apply, Shape;
    var t := w.tasks[id];
    assert I.TaskOk(crypto, w.deleted, t);
    ShapeMeaning(t.post, P.HashOf(crypto, t.post), t.ops);
    assert t.ops[0] in t.ops && !t.ops[0].Examine?;
    assert [] + t.ops[1..] == t.ops[1..];
  }

  /** Every step leaves the post settled or still coming. */
  lemma StepComing(crypto: P.Crypto, play: set<P.Post>, w: World, e: Turn, id: nat, h: Hash, n: nat)
    requires I.Orderly(crypto, w) && I.Played(crypto, play, w) && NoDeleteOf(crypto, play, h)
    requires Enabled(w, e) && Coming(crypto, w, id, h, n) && n <= w.stored[h]
    ensures Coming(crypto, Step(crypto, w, e), id, h, n) && n <= Step(crypto, w, e).stored[h]
  {
    hide P.HashOf, P.Decode, P.Verify, Want, InsertOps, I.Stores, I.Played, I.Orderly, NoDeleteOf, Lists, AllGood;
    var w' := Step(crypto, w, e);
    SettledStays(crypto, w, e, h, n);
    if !Settled(w, h, n) {
      StepOwed(crypto, play, w, e, h, n);
      if e == Advance(id) {
        AdvanceComing(crypto, play, w, id, h, n);
      } else {
        assert id in w'.tasks && w'.tasks[id] == w.tasks[id];
      }
    }
  }

  // Whole runs.

  lemma {:induction false} RunComing(
    crypto: P.Crypto, play: set<P.Post>, w: World, turns: seq<Turn>, end: World, id: nat, h: Hash, n: nat)
    requires I.Sound(crypto, w) && I.Played(crypto, play, w) && I.PostsIn(turns) <= play
    requires NoDeleteOf(crypto, play, h) && Leads(crypto, w, turns, end)
    requires Coming(crypto, w, id, h, n) && n <= w.stored[h]
    ensures Coming(crypto, end, id, h, n)
    decreases |turns|
  {
    hide I.Orderly, I.Paid, I.Played, I.PostsOf, Step, Enabled, NoDeleteOf, Coming;
    if turns != [] {
      I.StepSound(crypto, w, turns[0]);
      I.StepPlayed(crypto, play, w, turns[0]);
      StepComing(crypto, play, w, turns[0], id, h, n);
      RunComing(crypto, play, Step(crypto, w, turns[0]), turns[1..], end, id, h, n);
    }
  }

  /**
   * However the handling of a post response interleaves with other responses, posts and deletions: if a hash is
   * marked as requested when the handling begins, and the response holds a post with that hash, then by the time
   * the handling is over the post has been stored since or is barred.
   */
  lemma AnswerAdmitted(
    crypto: P.Crypto, before: seq<Turn>, w: World, turns: seq<Turn>, end: World, id: nat, bs: seq<Bytes>, h: Hash)
    requires Leads(crypto, START, before, w) && h in w.requested && id in w.tasks && w.tasks[id] == Responding(bs)
    requires AllGood(crypto, bs) && Lists(crypto, bs, h)
    requires NoDeleteOf(crypto, I.PostsIn(before) + I.PostsIn(turns), h)
    requires Leads(crypto, w, turns, end) && id !in end.tasks
    ensures end.stored[h] > w.stored[h] || h in end.deleted
  {
    hide Leads, I.Orderly, I.Paid, I.Played, I.PostsIn, NoDeleteOf, AllGood, Lists;
    var play := I.PostsIn(before) + I.PostsIn(turns);
    I.StartSound(crypto);
    I.RunSound(crypto, START, before, w);
    I.NothingYet(crypto, play, h);
    PlayedRun(crypto, play, START, before, w);
    RunComing(crypto, play, w, turns, end, id, h, w.stored[h]);
  }

  lemma {:induction false} PlayedRun(crypto: P.Crypto, play: set<P.Post>, w: World, turns: seq<Turn>, end: World)
    requires I.Sound(crypto, w) && I.Played(crypto, play, w) && I.PostsIn(turns) <= play
    requires Leads(crypto, w, turns, end)
    ensures I.Played(crypto, play, end)
    decreases |turns|
  {
    hide I.Orderly, I.Paid, I.Played, I.PostsOf, Step, Enabled;
    if turns != [] {
      I.StepSound(crypto, w, turns[0]);
      I.StepPlayed(crypto, play, w, turns[0]);
      PlayedRun(crypto, play, Step(crypto, w, turns[0]), turns[1..], end);
    }
  }

  /** A response with one post that is not marked as requested is handled, and leaves no trace. */
  lemma Ignored(crypto: P.Crypto, turns: seq<Turn>, cur: World, id: nat, p: P.Post, h: Hash)
    returns (turns': seq<Turn>, end: World)
    requires Leads(crypto, START, turns, cur) && id !in cur.tasks && RequestedFree(cur)
    requires !p.body.UnrecognizedPost? && P.WellFormed(p) && P.HashOf(crypto, p) == h && P.Verify(crypto, P.Encode(p))
    requires h !in cur.requested && h !in cur.deleted
    ensures Leads(crypto, START, turns', end) && end == cur
    ensures turns' == turns + [Begin(id, Responding([P.Encode(p)])), Advance(id), Advance(id), Advance(id)]
  {
    hide Leads, P.HashOf, P.Encode, P.Decode, P.Verify, P.WellFormed, InsertOps;
    var begin, b, next := Begin(id, Responding([P.Encode(p)])), P.Encode(p), Advance(id);
    P.RoundTrip(p, []);
    P.CountExact(p);
    assert b + [] == b;
    var one: seq<Bytes> := [b];
    assert one[1..] == [];
    var w := Step(crypto, cur, begin);
    C.Extend(crypto, START, turns, cur, begin);
    var w1 := Step(crypto, w, next);
    C.Extend(crypto, START, turns + [begin], w, next);
    assert w1 == cur.(tasks := cur.tasks[id := Checked(p, [])]);
    var w2 := Step(crypto, w1, next);
    C.Extend(crypto, START, turns + [begin] + [next], w1, next);
    assert w2 == cur.(tasks := cur.tasks[id := Responding([])]);
    C.Extend(crypto, START, turns + [begin] + [next] + [next], w2, next);
    turns', end := turns + [begin] + [next] + [next] + [next], Step(crypto, w2, next);
    assert end.tasks == cur.tasks;
  }

  /**
   * The request is sent before its hashes are marked: an answer that is handled in between is thrown away. The
   * round is over, the post neither stored nor barred.
   */
  lemma EarlyAnswer(crypto: P.Crypto, p: P.Post, h: Hash) returns (turns: seq<Turn>, end: World)
    requires !p.body.UnrecognizedPost? && P.WellFormed(p) && P.HashOf(crypto, p) == h && P.Verify(crypto, P.Encode(p))
    ensures Leads(crypto, START, turns, end) && Begin(1, Responding([P.Encode(p)])) in turns && end.tasks == map[]
    ensures h in end.requested && h !in end.store.payloads && h !in end.deleted
  {
    hide Leads, P.HashOf, P.Encode, P.Decode, P.Verify, P.WellFormed;
    var w: World;
    C.NoTurns(crypto);
    turns, w := C.Wanted(crypto, [], START, 0, h);
    turns, w := Ignored(crypto, turns, w, 1, p, h);
    var sofar := turns;
    turns, end := C.MarkedNow(crypto, turns, w, 0, h);
    assert Begin(1, Responding([P.Encode(p)])) in sofar;
  }
}
