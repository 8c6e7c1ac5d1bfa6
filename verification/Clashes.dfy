/**
 * Runs from the start in which a deletion completes and its post is indexed all the same: why the claim about
 * completed deletions has exceptions (cable_core/src/manager.rs, cable_core/src/store.rs).
 */
module Clashes {
  import opened Wire
  import P = Posts
  import opened Store
  import opened Steps
  import opened Queries
  import opened Admission
  import I = Interleavings

  // Building runs.

  lemma {:induction false} Extend(crypto: P.Crypto, w: World, turns: seq<Turn>, cur: World, e: Turn)
    requires Leads(crypto, w, turns, cur) && Enabled(cur, e)
    ensures Leads(crypto, w, turns + [e], Step(crypto, cur, e))
    decreases |turns|
  {
    hide Enabled, Step;
    if turns == [] {
      assert turns + [e] == [e] && [e][1..] == [];
    } else {
      Extend(crypto, Step(crypto, w, turns[0]), turns[1..], cur, e);
      assert (turns + [e])[1..] == turns[1..] + [e];
    }
  }

  /** What the rest of a world looks like while one task works. */
  ghost predicate SameShared(w: World, v: World) {
    w.deleted == v.deleted && w.requested == v.requested && w.completed == v.completed
  }

  /** A working task runs the operations `done`, none of which examines. */
  lemma {:induction false} DoOps(
    crypto: P.Crypto, w: World, turns: seq<Turn>, cur: World, id: nat, done: seq<Op>, rest: seq<Op>)
    returns (turns': seq<Turn>, end: World)
    requires Leads(crypto, w, turns, cur) && id in cur.tasks
    requires cur.tasks[id].Admitting? || cur.tasks[id].Deleting? || cur.tasks[id].Publishing?
    requires cur.tasks[id].ops == done + rest && forall i | 0 <= i < |done| :: !done[i].Examine?
    ensures Leads(crypto, w, turns', end) && SameShared(cur, end)
    ensures end.tasks == cur.tasks[id := WithOps(cur.tasks[id], rest)] && end.store == ApplyAll(cur.store, done)
    decreases |done|
  {
    hide Leads, Apply;
    if done == [] {
      assert done + rest == rest;
      turns', end := turns, cur;
    } else {
      var next := Step(crypto, cur, Advance(id));
      assert (done + rest)[0] == done[0] && (done + rest)[1..] == done[1..] + rest;
      assert [] + (done[1..] + rest) == done[1..] + rest;
      Extend(crypto, w, turns, cur, Advance(id));
      turns', end := DoOps(crypto, w, turns + [Advance(id)], next, id, done[1..], rest);
    }
  }

  // The posts of a scenario.

  /** A text post, and a delete post by its author that lists it. */
  ghost predicate Scenario(crypto: P.Crypto, p: P.Post, d: P.Post, h: Hash) {
    && p.body.TextPost? && P.WellFormed(p) && P.HashOf(crypto, p) == h
    && d.body == P.Delete([h]) && d.header.publicKey == p.header.publicKey && P.HashOf(crypto, d) != h
  }

  ghost predicate Holds(s: Store, p: P.Post, h: Hash) {
    h in s.payloads && s.payloads[h] == P.Encode(p)
  }

  /** Writing the post: its index entry and its payload. */
  lemma Written(s: Store, p: P.Post, h: Hash)
    requires p.body.TextPost?
    ensures I.At(ApplyAll(s, InsertOps(p, h)), Channels, h) && Holds(ApplyAll(s, InsertOps(p, h)), p, h)
  {
    hide P.Encode;
    var index, payload, channel := Index(p, h), StorePayload(p, h), AddChannel(p.body.channel);
    var s1 := Apply(s, index);
    var s2 := Apply(s1, payload);
    assert InsertOps(p, h) == [index] + ([payload] + ([channel] + []));
    ApplyFirst(s, index, [payload] + ([channel] + []));
    ApplyFirst(s1, payload, [channel] + []);
    ApplyFirst(s2, channel, []);
    Indexed(s, p, h);
  }

  lemma Indexed(s: Store, p: P.Post, h: Hash)
    requires p.body.TextPost?
    ensures I.At(Apply(s, Index(p, h)), Channels, h)
  {
    var key, t := Some(p.body.channel), p.header.timestamp;
    var m := PostsAfter(s.posts, p, h);
    assert EntriesAt(m, key, t) == EntriesAt(s.posts, key, t) + [(p, h)];
    assert (p, h) in EntriesAt(m, key, t);
  }

  // The phases of a run. Each extends a run by the turns of one task.

  /** A local post starts: its operations are ahead of it. */
  lemma StartPost(crypto: P.Crypto, turns: seq<Turn>, cur: World, id: nat, p: P.Post)
    returns (turns': seq<Turn>, end: World)
    requires Leads(crypto, START, turns, cur) && id !in cur.tasks && !p.body.UnrecognizedPost?
    ensures Leads(crypto, START, turns', end)
    ensures end == cur.(tasks := cur.tasks[id := Publishing(p, InsertOps(p, P.HashOf(crypto, p)))])
  {
    hide Leads, P.HashOf, InsertOps;
    var w := Step(crypto, cur, Begin(id, Composing(p)));
    Extend(crypto, START, turns, cur, Begin(id, Composing(p)));
    Extend(crypto, START, turns + [Begin(id, Composing(p))], w, Advance(id));
    turns', end := turns + [Begin(id, Composing(p))] + [Advance(id)], Step(crypto, w, Advance(id));
    assert w.tasks[id := end.tasks[id]] == cur.tasks[id := end.tasks[id]];
  }

  /** A local deletion starts: its hashes are barred and its operations are ahead of it. */
  lemma StartDelete(crypto: P.Crypto, turns: seq<Turn>, cur: World, id: nat, d: P.Post)
    returns (turns': seq<Turn>, end: World)
    requires Leads(crypto, START, turns, cur) && id !in cur.tasks && d.body.Delete? && DeletedFree(cur)
    ensures Leads(crypto, START, turns', end)
    ensures end == cur.(tasks := cur.tasks[id := Deleting(d, InsertOps(d, P.HashOf(crypto, d)))],
                        deleted := cur.deleted + set h | h in d.body.hashes)
  {
    hide Leads, P.HashOf, InsertOps;
    var w := Step(crypto, cur, Begin(id, Barring(d)));
    Extend(crypto, START, turns, cur, Begin(id, Barring(d)));
    Extend(crypto, START, turns + [Begin(id, Barring(d))], w, Advance(id));
    turns', end := turns + [Begin(id, Barring(d))] + [Advance(id)], Step(crypto, w, Advance(id));
    assert w.tasks[id := end.tasks[id]] == cur.tasks[id := end.tasks[id]];
  }

  /** A delete post examines its one hash: the removal is ahead of it, or nothing if there is no payload. */
  lemma Examined(crypto: P.Crypto, turns: seq<Turn>, cur: World, id: nat, p: P.Post, d: P.Post, h: Hash)
    returns (turns': seq<Turn>, end: World)
    requires Leads(crypto, START, turns, cur) && Scenario(crypto, p, d, h) && id in cur.tasks
    requires cur.tasks[id].Deleting? || cur.tasks[id].Publishing?
    requires cur.tasks[id].post == d && cur.tasks[id].ops == InsertOps(d, P.HashOf(crypto, d))
    requires h in cur.store.payloads ==> Holds(cur.store, p, h)
    ensures Leads(crypto, START, turns', end) && SameShared(cur, end) && end.store == cur.store
    ensures end.tasks == cur.tasks[id := WithOps(cur.tasks[id],
              (if h in cur.store.payloads then Removal(crypto, d, h) else []) + [StorePayload(d, P.HashOf(crypto, d))])]
  {
    hide Leads, P.HashOf, P.Encode, P.Decode, P.WellFormed, RemovalOps;
    var own, ops := P.HashOf(crypto, d), cur.tasks[id].ops;
    assert [h][1..] == [] && ExamineOps(d, [], own) == [];
    assert ops == [Examine(d.header.publicKey, h, own)] + [StorePayload(d, own)];
    P.RoundTrip(p, []);
    assert P.Encode(p) + [] == P.Encode(p);
    ExamineKeeps(cur.store, ops[0]);
    hide Apply;
    assert ops[1..] == [StorePayload(d, own)];
    Extend(crypto, START, turns, cur, Advance(id));
    turns', end := turns + [Advance(id)], Step(crypto, cur, Advance(id));
  }

  ghost function Removal(crypto: P.Crypto, d: P.Post, h: Hash): seq<Op> {
    RemovalOps(h) + [AddDeleteHash(d.header.publicKey, P.HashOf(crypto, d))]
  }

  // What removal operations leave, one index at a time.

  /** Operations that do not remove `h` from the channel index keep it there. */
  lemma {:induction false} StaysIndexed(s: Store, ops: seq<Op>, h: Hash)
    requires I.At(s, Channels, h)
    requires forall i | 0 <= i < |ops| :: !ops[i].Index? && !(ops[i].Remove? && ops[i].place == Channels)
    ensures I.At(ApplyAll(s, ops), Channels, h)
    decreases |ops|
  {
    if ops != [] {
      assert Apply(s, ops[0]).posts == s.posts;
      StaysIndexed(Apply(s, ops[0]), ops[1..], h);
    }
  }

  /** Operations that store no payload of `h`, one of which removes it, leave none. */
  lemma {:induction false} LosesPayload(s: Store, ops: seq<Op>, h: Hash)
    requires forall i | 0 <= i < |ops| :: !(ops[i].StorePayload? && ops[i].hash == h)
    requires h !in s.payloads || Remove(Payloads, h) in ops
    ensures h !in ApplyAll(s, ops).payloads
    decreases |ops|
  {
    hide P.Encode;
    if ops != [] {
      LosesPayload(Apply(s, ops[0]), ops[1..], h);
    }
  }

  /** A delete post with nothing left completes. */
  lemma Completes(crypto: P.Crypto, turns: seq<Turn>, cur: World, id: nat, d: P.Post, h: Hash)
    returns (turns': seq<Turn>, end: World)
    requires Leads(crypto, START, turns, cur) && id in cur.tasks && cur.tasks[id] == Deleting(d, [])
    requires d.body == P.Delete([h])
    ensures Leads(crypto, START, turns', end) && end.store == cur.store && end.tasks == cur.tasks - {id}
    ensures (d.header.publicKey, h) in end.completed
  {
    hide Leads;
    Extend(crypto, START, turns, cur, Advance(id));
    turns', end := turns + [Advance(id)], Step(crypto, cur, Advance(id));
  }

  lemma NoTurns(crypto: P.Crypto)
    ensures Leads(crypto, START, [], START)
  {
  }

  lemma PlainOps(crypto: P.Crypto, p: P.Post, d: P.Post, h: Hash)
    requires p.body.TextPost?
    ensures var ops := InsertOps(p, h);
            ops + [] == ops && forall i | 0 <= i < |ops| :: !ops[i].Examine?
    ensures var ops := Removal(crypto, d, h) + [StorePayload(d, P.HashOf(crypto, d))];
            ops + [] == ops && forall i | 0 <= i < |ops| :: !ops[i].Examine?
  {
  }

  /**
   * A local post of the same hash, begun before the deletion and finished after it, puts the deleted post back:
   * the deletion is completed and the post is indexed.
   */
  lemma LocalClash(crypto: P.Crypto, p: P.Post, d: P.Post, h: Hash) returns (turns: seq<Turn>, end: World)
    requires Scenario(crypto, p, d, h)
    ensures Leads(crypto, START, turns, end)
    ensures (p.header.publicKey, h) in end.completed && I.At(end.store, Channels, h)
  {
    hide Leads, P.HashOf, P.Encode, P.WellFormed, InsertOps, RemovalOps, Removal, Apply, I.At, ApplyAll;
    var own, write := P.HashOf(crypto, d), InsertOps(p, h);
    NoTurns(crypto);
    PlainOps(crypto, p, d, h);
    var w: World;
    turns, w := StartPost(crypto, [], START, 0, p);
    turns, w := DoOps(crypto, START, turns, w, 0, write, []);
    Written(START.store, p, h);
    turns, w := StartPost(crypto, turns, w, 1, p);
    turns, w := StartDelete(crypto, turns, w, 2, d);
    turns, w := Examined(crypto, turns, w, 2, p, d, h);
    turns, w := DoOps(crypto, START, turns, w, 2, Removal(crypto, d, h) + [StorePayload(d, own)], []);
    turns, w := Completes(crypto, turns, w, 2, d, h);
    Written(w.store, p, h);
    turns, end := DoOps(crypto, START, turns, w, 1, write, []);
  }

  // The same without any local post of that hash.

  /** A hash response that lists an unknown post. */
  lemma Wanted(crypto: P.Crypto, turns: seq<Turn>, cur: World, id: nat, h: Hash)
    returns (turns': seq<Turn>, end: World)
    requires Leads(crypto, START, turns, cur) && id !in cur.tasks && h !in cur.store.payloads
    ensures Leads(crypto, START, turns', end) && end == cur.(tasks := cur.tasks[id := Marking({h})])
  {
    hide Leads;
    var begin := Begin(id, Hashing([h]));
    var w := Step(crypto, cur, begin);
    Extend(crypto, START, turns, cur, begin);
    Extend(crypto, START, turns + [begin], w, Advance(id));
    turns', end := turns + [begin] + [Advance(id)], Step(crypto, w, Advance(id));
    assert Want(cur.store, [h]) == [h];
    assert (set k | k in [h]) == {h};
    assert w.tasks[id := Marking({h})] == cur.tasks[id := Marking({h})];
  }

  lemma MarkedNow(crypto: P.Crypto, turns: seq<Turn>, cur: World, id: nat, h: Hash)
    returns (turns': seq<Turn>, end: World)
    requires Leads(crypto, START, turns, cur) && id in cur.tasks && cur.tasks[id] == Marking({h}) && RequestedFree(cur)
    ensures Leads(crypto, START, turns', end)
    ensures end == cur.(tasks := cur.tasks - {id}, requested := cur.requested + {h}, marked := end.marked)
    ensures turns' == turns + [Advance(id)]
  {
    hide Leads;
    Extend(crypto, START, turns, cur, Advance(id));
    turns', end := turns + [Advance(id)], Step(crypto, cur, Advance(id));
  }

  /** A response with one requested post looks at it and takes it up. */
  lemma TakenUp(crypto: P.Crypto, turns: seq<Turn>, cur: World, id: nat, p: P.Post, h: Hash)
    returns (turns': seq<Turn>, end: World)
    requires Leads(crypto, START, turns, cur) && id !in cur.tasks && RequestedFree(cur)
    requires p.body.TextPost? && P.WellFormed(p) && P.HashOf(crypto, p) == h && P.Verify(crypto, P.Encode(p))
    requires h in cur.requested && h !in cur.deleted
    ensures Leads(crypto, START, turns', end)
    ensures end == cur.(tasks := cur.tasks[id := Admitting(p, InsertOps(p, h), [])], requested := end.requested,
                        admitted := end.admitted)
  {
    hide Leads, P.HashOf, P.Encode, P.Decode, P.Verify, P.WellFormed, InsertOps;
    var begin, b := Begin(id, Responding([P.Encode(p)])), P.Encode(p);
    P.RoundTrip(p, []);
    P.CountExact(p);
    assert b + [] == b;
    var one: seq<Bytes> := [b];
    assert one[1..] == [];
    var w := Step(crypto, cur, begin);
    Extend(crypto, START, turns, cur, begin);
    var w1 := Step(crypto, w, Advance(id));
    Extend(crypto, START, turns + [begin], w, Advance(id));
    assert w1 == cur.(tasks := cur.tasks[id := Checked(p, [])]);
    Extend(crypto, START, turns + [begin] + [Advance(id)], w1, Advance(id));
    turns', end := turns + [begin] + [Advance(id)] + [Advance(id)], Step(crypto, w1, Advance(id));
  }

  /** The whole response: the post is written and the task is gone. */
  lemma Responded(crypto: P.Crypto, turns: seq<Turn>, cur: World, id: nat, p: P.Post, h: Hash)
    returns (turns': seq<Turn>, end: World)
    requires Leads(crypto, START, turns, cur) && id !in cur.tasks && RequestedFree(cur)
    requires p.body.TextPost? && P.WellFormed(p) && P.HashOf(crypto, p) == h && P.Verify(crypto, P.Encode(p))
    requires h in cur.requested && h !in cur.deleted
    ensures Leads(crypto, START, turns', end) && end.deleted == cur.deleted && end.completed == cur.completed
    ensures end.tasks == cur.tasks && end.store == ApplyAll(cur.store, InsertOps(p, h))
  {
    hide Leads, P.HashOf, P.Encode, P.Verify, P.WellFormed, InsertOps, ApplyAll;
    var w: World;
    PlainOps(crypto, p, p, h);
    turns', w := TakenUp(crypto, turns, cur, id, p, h);
    turns', w := DoOps(crypto, START, turns', w, id, InsertOps(p, h), []);
    var w1 := Step(crypto, w, Advance(id));
    Extend(crypto, START, turns', w, Advance(id));
    Extend(crypto, START, turns' + [Advance(id)], w1, Advance(id));
    turns', end := turns' + [Advance(id)] + [Advance(id)], Step(crypto, w1, Advance(id));
    assert end.tasks == cur.tasks;
  }

  /** The two halves of a removal, cut before the payload. */
  ghost function FirstOps(h: Hash): seq<Op> {
    RemovalOps(h)[..5]
  }

  ghost function LastOps(crypto: P.Crypto, d: P.Post, h: Hash): seq<Op> {
    var own := P.HashOf(crypto, d);
    [Remove(Payloads, h), AddDeleteHash(d.header.publicKey, own), StorePayload(d, own)]
  }

  lemma CutRemoval(crypto: P.Crypto, d: P.Post, h: Hash)
    requires P.HashOf(crypto, d) != h
    ensures Removal(crypto, d, h) + [StorePayload(d, P.HashOf(crypto, d))] == FirstOps(h) + LastOps(crypto, d, h)
    ensures forall i | 0 <= i < |FirstOps(h)| :: FirstOps(h)[i].Remove?
    ensures var ops := LastOps(crypto, d, h);
            && ops + [] == ops && Remove(Payloads, h) in ops
            && forall i | 0 <= i < |ops| ::
                 && !ops[i].Examine? && !ops[i].Index? && !(ops[i].Remove? && ops[i].place == Channels)
                 && !(ops[i].StorePayload? && ops[i].hash == h)
  {
  }

  /**
   * Without any local post of that hash: the post is requested twice, a delete post published without barring
   * is removing it when the second response writes it again, and a later `post_delete` finds no payload and
   * completes, while the post is still indexed.
   */
  lemma ResponseClash(crypto: P.Crypto, p: P.Post, d: P.Post, h: Hash) returns (turns: seq<Turn>, end: World)
    requires Scenario(crypto, p, d, h) && P.Verify(crypto, P.Encode(p))
    ensures Leads(crypto, START, turns, end)
    ensures (p.header.publicKey, h) in end.completed && I.At(end.store, Channels, h)
  {
    hide Leads, P.HashOf, P.Encode, P.Verify, P.WellFormed, InsertOps, FirstOps, Removal, LastOps;
    hide Apply, I.At, ApplyAll;
    var w: World;
    NoTurns(crypto);
    CutRemoval(crypto, d, h);
    turns, w := Wanted(crypto, [], START, 0, h);
    turns, w := Wanted(crypto, turns, w, 1, h);
    turns, w := MarkedNow(crypto, turns, w, 0, h);
    Written(w.store, p, h);
    turns, w := Responded(crypto, turns, w, 2, p, h);
    turns, w := MarkedNow(crypto, turns, w, 1, h);
    turns, w := StartPost(crypto, turns, w, 3, d);
    turns, w := Examined(crypto, turns, w, 3, p, d, h);
    turns, w := DoOps(crypto, START, turns, w, 3, FirstOps(h), LastOps(crypto, d, h));
    Written(w.store, p, h);
    turns, w := Responded(crypto, turns, w, 4, p, h);
    StaysIndexed(w.store, LastOps(crypto, d, h), h);
    LosesPayload(w.store, LastOps(crypto, d, h), h);
    turns, w := DoOps(crypto, START, turns, w, 3, LastOps(crypto, d, h), []);
    turns, end := LateDelete(crypto, turns, w, 5, p, d, h);
  }

  /** `post_delete` of a post without a payload: nothing is removed, and the deletion completes. */
  lemma LateDelete(crypto: P.Crypto, turns: seq<Turn>, cur: World, id: nat, p: P.Post, d: P.Post, h: Hash)
    returns (turns': seq<Turn>, end: World)
    requires Leads(crypto, START, turns, cur) && id !in cur.tasks && DeletedFree(cur) && Scenario(crypto, p, d, h)
    requires h !in cur.store.payloads && I.At(cur.store, Channels, h)
    ensures Leads(crypto, START, turns', end)
    ensures (p.header.publicKey, h) in end.completed && I.At(end.store, Channels, h)
  {
    hide Leads, P.HashOf, P.Encode, P.WellFormed, InsertOps, Removal, Apply, I.At, ApplyAll;
    var last, w := [StorePayload(d, P.HashOf(crypto, d))], cur;
    turns', w := StartDelete(crypto, turns, w, id, d);
    turns', w := Examined(crypto, turns', w, id, p, d, h);
    assert [] + last == last + [];
    StaysIndexed(w.store, last, h);
    turns', w := DoOps(crypto, START, turns', w, id, last, []);
    turns', end := Completes(crypto, turns', w, id, d, h);
  }
}
