/**
 * Exactly when a hash is indexed after a run of critical sections: it was written to some slot of an index and
 * not cleared from it since (cable_core/src/store.rs).
 */
module Writes {
  import opened Wire
  import P = Posts
  import opened History
  import opened Store
  import opened Steps
  import opened Admission
  import I = Interleavings

  /** One slot of one index. Topics, names and moves hold one hash each, the others any number. */
  datatype Spot =
    | TopicSpot(channel: Text, at: U64)
    | NameSpot(author: Hash, at: U64)
    | MoveSpot(channel: Text, author: Hash)
    | InfoSpot(author: Hash)
    | PostSpot(key: Option<Text>, at: U64)
    | PayloadSpot

  function PlaceOf(spot: Spot): Place {
    match spot
    case TopicSpot(_, _) => Topics
    case NameSpot(_, _) => Names
    case MoveSpot(_, _) => Memberships
    case InfoSpot(_) => Infos
    case PostSpot(_, _) => Channels
    case PayloadSpot => Payloads
  }

  ghost predicate Holds(s: Store, spot: Spot, h: Hash) {
    match spot
    case TopicSpot(c, t) => SlotHash(TimedAt(s.topics, c, t)) == Some(h)
    case NameSpot(k, t) => SlotHash(TimedAt(s.names, k, t)) == Some(h)
    case MoveSpot(c, k) => MoveHash(s.membership, c, k) == Some(h)
    case InfoSpot(k) => h in InfosOf(s.infoHashes, k)
    case PostSpot(key, t) => InEntries(EntriesAt(s.posts, key, t), h)
    case PayloadSpot => h in s.payloads
  }

  /** The operation writes `h` to the slot. */
  predicate WritesTo(op: Op, spot: Spot, h: Hash) {
    match spot
    case TopicSpot(c, t) => op.SetTopic? && op.channel == c && op.at == t && op.hash == h
    case NameSpot(k, t) => op.SetName? && op.author == k && op.at == t && op.hash == h
    case MoveSpot(c, k) => op.SetMembership? && op.channel == c && op.author == k && op.hash == h
    case InfoSpot(k) => op.AddInfo? && op.author == k && op.hash == h
    case PostSpot(key, t) =>
      op.Index? && BelongsTo(op.post, key) && op.post.header.timestamp == t && op.hash == h
    case PayloadSpot => op.StorePayload? && op.hash == h
  }

  /** The operation takes `h` from the slot: it removes `h` from the index, or overwrites a slot for one hash. */
  predicate Clears(op: Op, spot: Spot, h: Hash) {
    op == Remove(PlaceOf(spot), h)
    || (op.SetTopic? && op.hash != h && spot == TopicSpot(op.channel, op.at))
    || (op.SetName? && op.hash != h && spot == NameSpot(op.author, op.at))
    || (op.SetMembership? && op.hash != h && spot == MoveSpot(op.channel, op.author))
  }

  // What one critical section does to one slot, index by index.

  lemma TopicAfter(m: map<Text, TimeMap<(Text, Hash)>>, op: Op, c: Text, t: U64)
    ensures TimedAt(TopicsStep(m, op), c, t) ==
            if op.SetTopic? && op.channel == c && op.at == t then Some((op.topic, op.hash))
            else if op.Remove? && op.place == Topics && SlotHash(TimedAt(m, c, t)) == Some(op.hash) then None
            else TimedAt(m, c, t)
  {
  }

  lemma NameAfter(m: map<Hash, TimeMap<(Text, Hash)>>, op: Op, k: Hash, t: U64)
    ensures TimedAt(NamesStep(m, op), k, t) ==
            if op.SetName? && op.author == k && op.at == t then Some((op.name, op.hash))
            else if op.Remove? && op.place == Names && SlotHash(TimedAt(m, k, t)) == Some(op.hash) then None
            else TimedAt(m, k, t)
  {
  }

  lemma MoveAfter(m: map<Text, map<Hash, Hash>>, op: Op, c: Text, k: Hash)
    ensures MoveHash(MembershipStep(m, op), c, k) ==
            if op.SetMembership? && op.channel == c && op.author == k then Some(op.hash)
            else if op.Remove? && op.place == Memberships && MoveHash(m, c, k) == Some(op.hash) then None
            else MoveHash(m, c, k)
  {
  }

  lemma InfoAfter(m: map<Hash, seq<Hash>>, op: Op, k: Hash, h: Hash)
    ensures h in InfosOf(InfosStep(m, op), k) <==>
            (op.AddInfo? && op.author == k && op.hash == h) || (h in InfosOf(m, k) && op != Remove(Infos, h))
  {
    hide Retain;
    if op.Remove? && op.place == Infos && k in m {
      RetainIn(m[k], op.hash, h);
    }
  }

  ghost predicate InEntries(es: seq<Entry>, h: Hash) {
    exists e :: e in es && e.1 == h
  }

  lemma EntriesWithout(es: seq<Entry>, k: Hash, h: Hash)
    ensures InEntries(Without(es, k), h) <==> InEntries(es, h) && h != k
  {
    hide Without;
    if e :| e in Without(es, k) && e.1 == h {
      WithoutIn(es, k, e);
    }
    if e :| e in es && e.1 == h {
      WithoutIn(es, k, e);
    }
  }

  lemma NothingWithout(k: Hash)
    ensures Without<P.Post>([], k) == []
  {
  }

  lemma EntriesPush(es: seq<Entry>, x: Entry, h: Hash)
    ensures InEntries(es + [x], h) <==> InEntries(es, h) || x.1 == h
  {
    assert x in es + [x];
    if e :| e in es && e.1 == h {
      assert e in es + [x];
    }
  }

  lemma PostAfter(m: map<Option<Text>, TimeMap<seq<Entry>>>, op: Op, key: Option<Text>, t: U64, h: Hash)
    ensures InEntries(EntriesAt(PostsStep(m, op), key, t), h) <==>
            || (op.Index? && BelongsTo(op.post, key) && op.post.header.timestamp == t && op.hash == h)
            || (InEntries(EntriesAt(m, key, t), h) && op != Remove(Channels, h))
  {
    hide Without, IndexKey, BelongsTo, InEntries;
    var es, m' := EntriesAt(m, key, t), PostsStep(m, op);
    if op.Index? {
      IndexKeyMeaning(op.post, key);
      if IndexKey(op.post) == Some(key) && op.post.header.timestamp == t {
        assert EntriesAt(m', key, t) == es + [(op.post, op.hash)];
        EntriesPush(es, (op.post, op.hash), h);
      } else {
        assert EntriesAt(m', key, t) == es;
      }
    } else if op.Remove? && op.place == Channels {
      EntriesWithout(es, op.hash, h);
      NothingWithout(op.hash);
      assert EntriesAt(m', key, t) == Without(es, op.hash);
    }
  }

  /** What one critical section does to one slot. */
  lemma HoldsAfter(s: Store, op: Op, spot: Spot, h: Hash)
    ensures Holds(Apply(s, op), spot, h) <==> WritesTo(op, spot, h) || (Holds(s, spot, h) && !Clears(op, spot, h))
  {
    hide P.Encode, TopicsStep, NamesStep, MembershipStep, InfosStep, PostsStep, BelongsTo, InEntries;
    hide TimedAt, MoveHash, InfosOf, EntriesAt;
    match spot
    case TopicSpot(c, t) => TopicAfter(s.topics, op, c, t);
    case NameSpot(k, t) => NameAfter(s.names, op, k, t);
    case MoveSpot(c, k) => MoveAfter(s.membership, op, c, k);
    case InfoSpot(k) => InfoAfter(s.infoHashes, op, k, h);
    case PostSpot(key, t) => PostAfter(s.posts, op, key, t, h);
    case PayloadSpot =>
  }

  // Sequences of operations.

  /** Operation `i` writes `h` to the slot, and no later one clears it. */
  ghost predicate Stays(ops: seq<Op>, i: nat, spot: Spot, h: Hash)
    requires i < |ops|
  {
    WritesTo(ops[i], spot, h) && forall j | i < j < |ops| :: !Clears(ops[j], spot, h)
  }

  lemma {:induction false} HoldsExactly(ops: seq<Op>, spot: Spot, h: Hash)
    ensures Holds(ApplyAll(EMPTY, ops), spot, h) <==> SomeStays(ops, spot, h)
    decreases |ops|
  {
    hide Apply, ApplyAll, WritesTo, Clears;
    if ops == [] {
      ApplyNone(EMPTY);
      NothingHeld(spot, h);
    } else {
      hide Holds, SomeStays;
      var n := |ops| - 1;
      var before := ops[..n];
      HoldsExactly(before, spot, h);
      HoldsAfter(ApplyAll(EMPTY, before), ops[n], spot, h);
      StaysPush(before, ops[n], spot, h);
      assert ops == before + [ops[n]];
      ApplyLast(EMPTY, before, ops[n]);
    }
  }

  ghost predicate SomeStays(ops: seq<Op>, spot: Spot, h: Hash) {
    exists i :: 0 <= i < |ops| && Stays(ops, i, spot, h)
  }

  lemma StaysPush(before: seq<Op>, op: Op, spot: Spot, h: Hash)
    ensures SomeStays(before + [op], spot, h) <==>
            WritesTo(op, spot, h) || (SomeStays(before, spot, h) && !Clears(op, spot, h))
  {
    hide WritesTo, Clears;
    var n, ops := |before|, before + [op];
    if WritesTo(op, spot, h) {
      assert Stays(ops, n, spot, h);
    }
    if SomeStays(before, spot, h) && !Clears(op, spot, h) {
      var i :| 0 <= i < n && Stays(before, i, spot, h);
      assert Stays(ops, i, spot, h);
    }
    if SomeStays(ops, spot, h) && !WritesTo(op, spot, h) {
      var i :| 0 <= i < |ops| && Stays(ops, i, spot, h);
      assert ops[i] == before[i] && ops[n] == op;
      assert forall j | i < j < n :: before[j] == ops[j];
      assert Stays(before, i, spot, h);
    }
  }

  lemma NothingHeld(spot: Spot, h: Hash)
    ensures !Holds(EMPTY, spot, h)
  {
  }

  /** An index holds a hash if one of its slots does. */
  lemma AtIsHeld(s: Store, q: Place, h: Hash)
    ensures I.At(s, q, h) <==> exists spot :: PlaceOf(spot) == q && Holds(s, spot, h)
  {
    match q
    case Topics =>
      if c, t :| SlotHash(TimedAt(s.topics, c, t)) == Some(h) {
        assert Holds(s, TopicSpot(c, t), h);
      }
    case Names =>
      if k, t :| SlotHash(TimedAt(s.names, k, t)) == Some(h) {
        assert Holds(s, NameSpot(k, t), h);
      }
    case Memberships =>
      if c, k :| MoveHash(s.membership, c, k) == Some(h) {
        assert Holds(s, MoveSpot(c, k), h);
      }
    case Infos =>
      if k :| h in InfosOf(s.infoHashes, k) {
        assert Holds(s, InfoSpot(k), h);
      }
    case Channels =>
      if key, t, e :| e in EntriesAt(s.posts, key, t) && e.1 == h {
        assert Holds(s, PostSpot(key, t), h);
      }
    case Payloads =>
      assert h in s.payloads <==> Holds(s, PayloadSpot, h);
  }

  // Whole runs.

  /** The critical sections on the store that a run goes through, in order. */
  ghost function Done(crypto: P.Crypto, w: World, turns: seq<Turn>): seq<Op>
    decreases |turns|
  {
    if turns == [] || !Enabled(w, turns[0]) then []
    else
      (if turns[0].Advance? && I.Working(w, turns[0].id) && Found(w.store, I.OpsAt(w, turns[0].id)[0]).Some?
       then [I.OpsAt(w, turns[0].id)[0]] else [])
      + Done(crypto, Step(crypto, w, turns[0]), turns[1..])
  }

  lemma StepStore(crypto: P.Crypto, w: World, e: Turn)
    requires Enabled(w, e)
    ensures Step(crypto, w, e).store ==
            if e.Advance? && I.Working(w, e.id) && Found(w.store, I.OpsAt(w, e.id)[0]).Some?
            then Apply(w.store, I.OpsAt(w, e.id)[0]) else w.store
  {
    hide P.HashOf, Apply, Found, InsertOps;
    if !(e.Advance? && I.Working(w, e.id)) {
      hide Step;
      I.OtherSteps(crypto, w, e);
    }
  }

  lemma {:induction false} StoreOfRun(crypto: P.Crypto, w: World, turns: seq<Turn>, end: World)
    requires Leads(crypto, w, turns, end)
    ensures end.store == ApplyAll(w.store, Done(crypto, w, turns))
    decreases |turns|
  {
    hide Step, Enabled, Apply, ApplyAll, Found;
    ApplyNone(w.store);
    if turns != [] {
      var e, w1 := turns[0], Step(crypto, w, turns[0]);
      StepStore(crypto, w, e);
      StoreOfRun(crypto, w1, turns[1..], end);
      var later := Done(crypto, w1, turns[1..]);
      if e.Advance? && I.Working(w, e.id) && Found(w.store, I.OpsAt(w, e.id)[0]).Some? {
        var op := I.OpsAt(w, e.id)[0];
        ApplyFirst(w.store, op, later);
      } else {
        assert [] + later == later;
      }
    }
  }

  /**
   * In every interleaving: a hash is missing from an index if and only if every writing of it to a slot of that
   * index was followed by its removal or by another post taking the slot. A deletion that completes fails to
   * last in exactly the runs with a writing that is not followed so.
   */
  lemma GoneExactly(crypto: P.Crypto, turns: seq<Turn>, end: World, q: Place, h: Hash)
    requires Leads(crypto, START, turns, end)
    ensures var ops := Done(crypto, START, turns);
            !I.At(end.store, q, h) <==>
            forall i, spot | 0 <= i < |ops| && PlaceOf(spot) == q && WritesTo(ops[i], spot, h) ::
              exists j :: i < j < |ops| && Clears(ops[j], spot, h)
  {
    hide Leads, Done, ApplyAll, I.At, Holds, WritesTo, Clears;
    var ops := Done(crypto, START, turns);
    StoreOfRun(crypto, START, turns, end);
    AtIsHeld(end.store, q, h);
    if I.At(end.store, q, h) {
      var spot :| PlaceOf(spot) == q && Holds(end.store, spot, h);
      HoldsExactly(ops, spot, h);
      var i :| 0 <= i < |ops| && Stays(ops, i, spot, h);
      assert WritesTo(ops[i], spot, h) && !exists j :: i < j < |ops| && Clears(ops[j], spot, h);
    }
    if i, spot :| 0 <= i < |ops| && PlaceOf(spot) == q && WritesTo(ops[i], spot, h)
                  && !exists j :: i < j < |ops| && Clears(ops[j], spot, h) {
      assert Stays(ops, i, spot, h);
      HoldsExactly(ops, spot, h);
    }
  }
}
