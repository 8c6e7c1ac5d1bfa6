/**
 * Post responses, hash responses, local posts and local deletions running at the same time, one critical
 * section at a time (cable_core/src/manager.rs, cable_core/src/store.rs). A task in `Checked` holds the read
 * lock on the deleted posts; one in `Admitting` holds it and the write lock on the requested posts.
 */
module Admission {
  import opened Wire
  import P = Posts
  import opened Store
  import opened Steps
  import opened Queries

  datatype Task =
    | Responding(posts: seq<Bytes>)
    | Checked(post: P.Post, posts: seq<Bytes>)
    | Admitting(post: P.Post, ops: seq<Op>, posts: seq<Bytes>)
    | Hashing(hashes: seq<Hash>)
    | Marking(wanted: set<Hash>)
    | Barring(post: P.Post)
    | Deleting(post: P.Post, ops: seq<Op>)
    | Composing(post: P.Post)
    | Publishing(post: P.Post, ops: seq<Op>)

  /**
   * The shared state and the tasks, with what the claims are about: how often a hash was marked as requested,
   * taken up for insertion and stored by a post response; and which hashes had their deletion by an author
   * completed.
   */
  datatype World = World(
    deleted: set<Hash>,
    requested: set<Hash>,
    store: Store,
    tasks: map<nat, Task>,
    marked: multiset<Hash>,
    admitted: multiset<Hash>,
    stored: multiset<Hash>,
    completed: set<(Hash, Hash)>)

  const START: World := World({}, {}, EMPTY, map[], multiset{}, multiset{}, multiset{}, {})

  function OpsOf(t: Task): seq<Op> {
    match t
    case Admitting(_, ops, _) => ops
    case Deleting(_, ops) => ops
    case Publishing(_, ops) => ops
    case _ => []
  }

  predicate Adds(op: Op, h: Hash) {
    match op
    case Index(_, k) => k == h
    case SetTopic(_, _, _, k) => k == h
    case SetName(_, _, _, k) => k == h
    case AddInfo(_, k) => k == h
    case SetMembership(_, _, k) => k == h
    case StorePayload(_, k) => k == h
    case _ => false
  }

  predicate AddsIn(ops: seq<Op>, h: Hash) {
    exists i | 0 <= i < |ops| :: Adds(ops[i], h)
  }

  function ListedBy(p: P.Post): seq<Hash> {
    if p.body.Delete? then p.body.hashes else []
  }

  // Locks.

  /** Who keeps others from writing the deleted posts. */
  predicate HoldsDeleted(t: Task) {
    t.Checked? || t.Admitting?
  }

  predicate DeletedFree(w: World) {
    forall id | id in w.tasks :: !HoldsDeleted(w.tasks[id])
  }

  predicate RequestedFree(w: World) {
    forall id | id in w.tasks :: !w.tasks[id].Admitting?
  }

  // Steps.

  datatype Turn = Begin(id: nat, task: Task) | Advance(id: nat)

  predicate Enabled(w: World, e: Turn) {
    match e
    case Begin(id, t) =>
      id !in w.tasks && match t {
        case Responding(_) => true
        case Hashing(_) => true
        case Barring(p) => p.body.Delete?
        case Composing(p) => !p.body.UnrecognizedPost?
        case _ => false
      }
    case Advance(id) =>
      id in w.tasks && match w.tasks[id] {
        case Checked(_, _) => RequestedFree(w)
        case Marking(_) => RequestedFree(w)
        case Barring(p) => p.body.Delete? && DeletedFree(w)
        case _ => true
      }
  }

  function End(w: World, id: nat): World {
    w.(tasks := w.tasks - {id})
  }

  function Become(w: World, id: nat, t: Task): World {
    w.(tasks := w.tasks[id := t])
  }

  /** A post of a response up to the look at the deleted posts. */
  function Look(crypto: P.Crypto, w: World, id: nat, posts: seq<Bytes>): World {
    if posts == [] then End(w, id)
    else
      var b, rest := posts[0], posts[1..];
      if !P.Verify(crypto, b) then Become(w, id, Responding(rest))
      else
        match P.Decode(b)
        case Err(_) => End(w, id)
        case Ok(q) =>
          if q.0 != |b| then Become(w, id, Responding(rest))
          else if q.1.body.UnrecognizedPost? then End(w, id)
          else if P.HashOf(crypto, q.1) in w.deleted then Become(w, id, Responding(rest))
          else Become(w, id, Checked(q.1, rest))
  }

  function Admit(crypto: P.Crypto, w: World, id: nat, p: P.Post, rest: seq<Bytes>): World {
    var h := P.HashOf(crypto, p);
    if h !in w.requested then Become(w, id, Responding(rest))
    else
      Become(w, id, Admitting(p, InsertOps(p, h), rest))
        .(requested := w.requested - {h}, admitted := w.admitted + multiset{h})
  }

  /** `deleted_posts.extend`, and the start of the delete post's own insertion. */
  function Bar(crypto: P.Crypto, w: World, id: nat, p: P.Post): World
    requires p.body.Delete?
  {
    Become(w, id, Deleting(p, InsertOps(p, P.HashOf(crypto, p))))
      .(deleted := w.deleted + set h | h in p.body.hashes)
  }

  /** `post`: any post, a delete post too, without barring anything. */
  function Compose(crypto: P.Crypto, w: World, id: nat, p: P.Post): World {
    Become(w, id, Publishing(p, InsertOps(p, P.HashOf(crypto, p))))
  }

  function WithOps(t: Task, ops: seq<Op>): Task
    requires t.Admitting? || t.Deleting? || t.Publishing?
  {
    match t
    case Admitting(p, _, rest) => Admitting(p, ops, rest)
    case Deleting(p, _) => Deleting(p, ops)
    case Publishing(p, _) => Publishing(p, ops)
  }

  /** The next critical section of an insertion, or its end. */
  function Work(w: World, id: nat): World
    requires id in w.tasks
    requires var t := w.tasks[id]; (t.Admitting? || t.Deleting? || t.Publishing?) && t.ops != []
  {
    var t := w.tasks[id];
    var op := t.ops[0];
    match Found(w.store, op)
    case None => End(w, id)
    case Some(more) =>
      Become(w, id, WithOps(t, more + t.ops[1..]))
        .(store := Apply(w.store, op),
          stored := if t.Admitting? && op.StorePayload? then w.stored + multiset{op.hash} else w.stored)
  }

  function Finish(w: World, id: nat): World
    requires id in w.tasks
  {
    match w.tasks[id]
    case Admitting(_, _, rest) => Become(w, id, Responding(rest))
    case Deleting(p, _) =>
      End(w, id).(completed := w.completed + (set h | h in ListedBy(p) :: (p.header.publicKey, h)))
    case _ => End(w, id)
  }

  function Step(crypto: P.Crypto, w: World, e: Turn): World
    requires Enabled(w, e)
  {
    match e
    case Begin(id, t) => Become(w, id, t)
    case Advance(id) =>
      match w.tasks[id]
      case Responding(posts) => Look(crypto, w, id, posts)
      case Checked(p, rest) => Admit(crypto, w, id, p, rest)
      case Hashing(hashes) =>
        var wanted := Want(w.store, hashes);
        if wanted == [] then End(w, id) else Become(w, id, Marking(set h | h in wanted))
      case Marking(wanted) =>
        End(w, id).(requested := w.requested + wanted, marked := w.marked + multiset(wanted))
      case Barring(p) => Bar(crypto, w, id, p)
      case Composing(p) => Compose(crypto, w, id, p)
      case _ => if OpsOf(w.tasks[id]) == [] then Finish(w, id) else Work(w, id)
  }

  /** The turns, each enabled where it happens, lead from `w` to `end`. */
  ghost predicate Leads(crypto: P.Crypto, w: World, turns: seq<Turn>, end: World)
    decreases |turns|
  {
    if turns == [] then end == w
    else Enabled(w, turns[0]) && Leads(crypto, Step(crypto, w, turns[0]), turns[1..], end)
  }

  // When writing a hash and removing it overlap.

  ghost predicate Removing(w: World, h: Hash) {
    exists id | id in w.tasks :: Remove(Payloads, h) in OpsOf(w.tasks[id])
  }

  /** A delete post that was published without barring is removing `h`. */
  ghost predicate UnbarredRemoving(w: World, h: Hash) {
    exists id | id in w.tasks :: w.tasks[id].Publishing? && Remove(Payloads, h) in OpsOf(w.tasks[id])
  }

  ghost predicate LocalAdding(w: World, h: Hash) {
    exists id | id in w.tasks :: !w.tasks[id].Admitting? && AddsIn(OpsOf(w.tasks[id]), h)
  }

  ghost predicate ResponseAdding(w: World, h: Hash) {
    exists id | id in w.tasks :: w.tasks[id].Admitting? && AddsIn(OpsOf(w.tasks[id]), h)
  }

  /** The next operation of `t` finds `h` and begins to remove it. */
  predicate BeginsRemoval(s: Store, t: Task, h: Hash) {
    var ops := OpsOf(t);
    ops != [] && ops[0].Examine? && ops[0].hash == h && Found(s, ops[0]).Some? && Found(s, ops[0]).value != []
  }

  /**
   * The turns that the claim about completed deletions excepts. A local post begins to write `h` while it is
   * being removed or after it was barred; or `h` is barred, or begins to be removed, while a local post writes
   * it; or a response writes `h` while a delete post published without barring removes it; or a delete post
   * removes itself.
   */
  ghost predicate Clash(crypto: P.Crypto, w: World, e: Turn, h: Hash)
    requires Enabled(w, e)
  {
    e.Advance? &&
    match w.tasks[e.id]
    case Checked(p, _) => P.HashOf(crypto, p) == h && h in w.requested && UnbarredRemoving(w, h)
    case Composing(p) => P.HashOf(crypto, p) == h && (h in w.deleted || Removing(w, h))
    case Barring(p) =>
      || (P.HashOf(crypto, p) == h && (h in w.deleted || h in p.body.hashes || Removing(w, h)))
      || (h in p.body.hashes && LocalAdding(w, h))
    case Admitting(p, _, _) =>
      BeginsRemoval(w.store, w.tasks[e.id], h) && (LocalAdding(w, h) || P.HashOf(crypto, p) == h)
    case Deleting(_, _) => BeginsRemoval(w.store, w.tasks[e.id], h) && LocalAdding(w, h)
    case Publishing(_, _) =>
      BeginsRemoval(w.store, w.tasks[e.id], h) && (LocalAdding(w, h) || ResponseAdding(w, h))
    case _ => false
  }

  /** No turn of the run clashes over `h`. */
  ghost predicate Unclashed(crypto: P.Crypto, w: World, turns: seq<Turn>, h: Hash)
    decreases |turns|
  {
    turns != [] && Enabled(w, turns[0]) ==>
      !Clash(crypto, w, turns[0], h) && Unclashed(crypto, Step(crypto, w, turns[0]), turns[1..], h)
  }

  // The shape of what is left of an insertion.

  ghost predicate NoAdds(ops: seq<Op>) {
    forall i, h | 0 <= i < |ops| :: !Adds(ops[i], h)
  }

  ghost predicate NoRemoves(ops: seq<Op>) {
    forall i | 0 <= i < |ops| :: !ops[i].Remove?
  }

  /**
   * Every hash written is the post's own, its payload last; a removal ends with the payload; only delete posts
   * examine and remove, and only what they list.
   */
  ghost predicate Shape(p: P.Post, h: Hash, ops: seq<Op>) {
    ops == [] || (Shape(p, h, ops[1..]) && HeadOk(p, h, ops[0], ops[1..]))
  }

  ghost predicate HeadOk(p: P.Post, h: Hash, op: Op, rest: seq<Op>) {
    match op
    case Examine(a, k, own) => a == p.header.publicKey && k in ListedBy(p) && own == h && NoRemoves(rest)
    case Remove(q, k) => k in ListedBy(p) && (if q == Payloads then NoRemoves(rest) else Remove(Payloads, k) in rest)
    case StorePayload(q, k) => q == p && k == h && NoAdds(rest)
    case Index(_, k) => k == h && !p.body.Delete? && StorePayload(p, h) in rest
    case SetTopic(_, _, _, k) => k == h && !p.body.Delete? && StorePayload(p, h) in rest
    case SetName(_, _, _, k) => k == h && !p.body.Delete? && StorePayload(p, h) in rest
    case AddInfo(_, k) => k == h && !p.body.Delete? && StorePayload(p, h) in rest
    case SetMembership(_, _, k) => k == h && !p.body.Delete? && StorePayload(p, h) in rest
    case _ => true
  }

  lemma ShapeCons(p: P.Post, h: Hash, op: Op, rest: seq<Op>)
    requires Shape(p, h, rest) && HeadOk(p, h, op, rest)
    ensures Shape(p, h, [op] + rest)
  {
    assert ([op] + rest)[1..] == rest;
  }

  /** What an insertion of a post other than a delete post has left before its payload is stored. */
  ghost predicate Entries(p: P.Post, h: Hash, ops: seq<Op>) {
    !p.body.Delete? && Shape(p, h, ops) && StorePayload(p, h) in ops && NoRemoves(ops)
  }

  lemma LastShape(p: P.Post, h: Hash, c: Text)
    requires !p.body.Delete?
    ensures Entries(p, h, [StorePayload(p, h)]) && Entries(p, h, [StorePayload(p, h), AddChannel(c)])
  {
    ShapeCons(p, h, AddChannel(c), []);
    assert [AddChannel(c)] + [] == [AddChannel(c)];
    ShapeCons(p, h, StorePayload(p, h), [AddChannel(c)]);
    assert [StorePayload(p, h)] + [AddChannel(c)] == [StorePayload(p, h), AddChannel(c)];
    ShapeCons(p, h, StorePayload(p, h), []);
    assert [StorePayload(p, h)] + [] == [StorePayload(p, h)];
  }

  /** In front of a list that ends in the post's payload, the post's other entries may stand. */
  lemma EntryShape(p: P.Post, h: Hash, op: Op, rest: seq<Op>)
    requires Entries(p, h, rest)
    requires !op.StorePayload? && !op.Remove? && !op.Examine? && forall k | Adds(op, k) :: k == h
    ensures Entries(p, h, [op] + rest)
  {
    assert forall k | k != h :: !Adds(op, k);
    assert HeadOk(p, h, op, rest) by {
      match op
      case Index(_, k) => assert Adds(op, k);
      case SetTopic(_, _, _, k) => assert Adds(op, k);
      case SetName(_, _, _, k) => assert Adds(op, k);
      case AddInfo(_, k) => assert Adds(op, k);
      case SetMembership(_, _, k) => assert Adds(op, k);
      case _ =>
    }
    ShapeCons(p, h, op, rest);
  }

  lemma {:induction false} NamesShape(p: P.Post, h: Hash, info: seq<P.UserInfo>, rest: seq<Op>)
    requires Entries(p, h, rest)
    ensures Entries(p, h, NameOps(p, info, h) + rest)
    decreases |info|
  {
    hide Entries;
    var ops := NameOps(p, info, h);
    if info == [] {
      assert ops + rest == rest;
    } else {
      var before, u := info[..|info| - 1], info[|info| - 1];
      var op := SetName(p.header.publicKey, u.val, p.header.timestamp, h);
      NamesShape(p, h, before, rest);
      EntryShape(p, h, op, rest);
      NamesShape(p, h, before, [op] + rest);
      assert NameOps(p, before, h) + [op] + rest == NameOps(p, before, h) + ([op] + rest);
    }
  }

  lemma {:induction false} ExaminesShape(p: P.Post, h: Hash, hashes: seq<Hash>)
    requires p.body.Delete? && forall k | k in hashes :: k in p.body.hashes
    ensures var ops := ExamineOps(p, hashes, h) + [StorePayload(p, h)];
            && Shape(p, h, ops) && NoRemoves(ops)
            && forall k | k in hashes :: Examine(p.header.publicKey, k, h) in ops
    decreases |hashes|
  {
    var last := StorePayload(p, h);
    ShapeCons(p, h, last, []);
    assert [last] + [] == [last];
    var ops := ExamineOps(p, hashes, h) + [last];
    if hashes == [] {
      assert ops == [last];
    } else {
      hide Shape;
      ExaminesShape(p, h, hashes[1..]);
      var rest := ExamineOps(p, hashes[1..], h) + [last];
      assert ops == [Examine(p.header.publicKey, hashes[0], h)] + rest;
      ShapeCons(p, h, Examine(p.header.publicKey, hashes[0], h), rest);
      forall k | k in hashes ensures Examine(p.header.publicKey, k, h) in ops {
        assert k == hashes[0] || k in hashes[1..];
      }
    }
  }

  lemma EntriesShape(p: P.Post, h: Hash)
    requires !p.body.Delete? && !p.body.UnrecognizedPost?
    ensures Entries(p, h, InsertOps(p, h))
  {
    hide Entries, NameOps;
    var ops, key, t := InsertOps(p, h), p.header.publicKey, p.header.timestamp;
    var payload := StorePayload(p, h);
    LastShape(p, h, if P.ChannelOf(p).Some? then P.ChannelOf(p).value else []);
    match p.body
    case TextPost(c, _) =>
      var rest := [payload, AddChannel(c)];
      EntryShape(p, h, Index(p, h), rest);
      assert ops == [Index(p, h)] + rest;
    case Topic(c, topic) =>
      var rest := [payload, AddChannel(c)];
      EntryShape(p, h, SetTopic(c, topic, t, h), rest);
      EntryShape(p, h, Index(p, h), [SetTopic(c, topic, t, h)] + rest);
      assert ops == [Index(p, h)] + ([SetTopic(c, topic, t, h)] + rest);
    case Join(c) =>
      var rest := [payload, AddChannel(c)];
      EntryShape(p, h, LoseExMember(c, key), rest);
      EntryShape(p, h, AddMember(c, key), [LoseExMember(c, key)] + rest);
      EntryShape(p, h, SetMembership(c, key, h), [AddMember(c, key)] + ([LoseExMember(c, key)] + rest));
      assert ops == [SetMembership(c, key, h)] + ([AddMember(c, key)] + ([LoseExMember(c, key)] + rest));
    case Leave(c) =>
      var rest := [payload, AddChannel(c)];
      EntryShape(p, h, AddExMember(c, key), rest);
      EntryShape(p, h, LoseMember(c, key), [AddExMember(c, key)] + rest);
      EntryShape(p, h, SetMembership(c, key, h), [LoseMember(c, key)] + ([AddExMember(c, key)] + rest));
      assert ops == [SetMembership(c, key, h)] + ([LoseMember(c, key)] + ([AddExMember(c, key)] + rest));
    case Info(info) =>
      var rest := [AddInfo(key, h)] + [payload];
      EntryShape(p, h, AddInfo(key, h), [payload]);
      NamesShape(p, h, info, rest);
      EntryShape(p, h, Index(p, h), NameOps(p, info, h) + rest);
      assert ops == [Index(p, h)] + (NameOps(p, info, h) + rest);
  }

  lemma InsertShape(p: P.Post, h: Hash)
    ensures Shape(p, h, InsertOps(p, h)) && NoRemoves(InsertOps(p, h))
    ensures forall k | k in ListedBy(p) :: Examine(p.header.publicKey, k, h) in InsertOps(p, h)
  {
    if p.body.Delete? {
      ExaminesShape(p, h, p.body.hashes);
    } else if !p.body.UnrecognizedPost? {
      hide InsertOps;
      EntriesShape(p, h);
    }
  }

  lemma RemoveShape(p: P.Post, h: Hash, q: Place, k: Hash, rest: seq<Op>)
    requires Shape(p, h, rest) && Remove(Payloads, k) in rest && k in ListedBy(p) && q != Payloads
    ensures Shape(p, h, [Remove(q, k)] + rest) && Remove(Payloads, k) in [Remove(q, k)] + rest
  {
    hide Shape;
    ShapeCons(p, h, Remove(q, k), rest);
  }

  lemma RemovalShape(p: P.Post, h: Hash, k: Hash, rest: seq<Op>)
    requires Shape(p, h, rest) && NoRemoves(rest) && k in ListedBy(p)
    ensures Shape(p, h, RemovalOps(k) + [AddDeleteHash(p.header.publicKey, h)] + rest)
  {
    var note := AddDeleteHash(p.header.publicKey, h);
    var r0 := [note] + rest;
    var r1 := [Remove(Payloads, k)] + r0;
    PayloadShape(p, h, k, rest);
    hide Shape, NoRemoves, ListedBy;
    RemoveShape(p, h, Channels, k, r1);
    var r2 := [Remove(Channels, k)] + r1;
    RemoveShape(p, h, Infos, k, r2);
    var r3 := [Remove(Infos, k)] + r2;
    RemoveShape(p, h, Names, k, r3);
    var r4 := [Remove(Names, k)] + r3;
    RemoveShape(p, h, Memberships, k, r4);
    var r5 := [Remove(Memberships, k)] + r4;
    RemoveShape(p, h, Topics, k, r5);
    SixInFront(Remove(Topics, k), Remove(Memberships, k), Remove(Names, k), Remove(Infos, k), Remove(Channels, k),
               Remove(Payloads, k), note, rest);
  }

  lemma PayloadShape(p: P.Post, h: Hash, k: Hash, rest: seq<Op>)
    requires Shape(p, h, rest) && NoRemoves(rest) && k in ListedBy(p)
    ensures var ops := [Remove(Payloads, k)] + ([AddDeleteHash(p.header.publicKey, h)] + rest);
            Shape(p, h, ops) && Remove(Payloads, k) in ops
  {
    hide Shape;
    var note := AddDeleteHash(p.header.publicKey, h);
    ShapeCons(p, h, note, rest);
    ShapeCons(p, h, Remove(Payloads, k), [note] + rest);
  }

  lemma SixInFront<T>(a: T, b: T, c: T, d: T, e: T, f: T, x: T, rest: seq<T>)
    ensures [a, b, c, d, e, f] + [x] + rest == [a] + ([b] + ([c] + ([d] + ([e] + ([f] + ([x] + rest))))))
  {
  }

  /** What the shape of a list says of the hashes in it. */
  lemma {:induction false} ShapeMeaning(p: P.Post, h: Hash, ops: seq<Op>)
    requires Shape(p, h, ops)
    ensures forall k | AddsIn(ops, k) :: k == h && StorePayload(p, h) in ops
    ensures forall q, k | Remove(q, k) in ops :: k in ListedBy(p) && Remove(Payloads, k) in ops
    ensures forall op | op in ops && op.Examine? :: op.hash in ListedBy(p)
    ensures forall q, k | StorePayload(q, k) in ops :: q == p && k == h
    decreases |ops|
  {
    if ops != [] {
      var rest := ops[1..];
      ShapeMeaning(p, h, rest);
      assert ops == [ops[0]] + rest;
      forall k | AddsIn(ops, k) ensures k == h && StorePayload(p, h) in ops {
        if !Adds(ops[0], k) {
          var i :| 0 <= i < |ops| && Adds(ops[i], k);
          assert rest[i - 1] == ops[i];
          assert AddsIn(rest, k);
        }
      }
    }
  }
}
