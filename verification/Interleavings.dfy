/** What holds in every interleaving of admissions and deletions (cable_core/src/manager.rs). */
module Interleavings {
  import opened Wire
  import P = Posts
  import opened History
  import opened Store
  import opened Steps
  import opened Queries
  import opened Admission

  // Where a hash is found.

  ghost predicate InTimed<K(!new)>(m: map<K, TimeMap<(Text, Hash)>>, h: Hash) {
    exists k, t :: SlotHash(TimedAt(m, k, t)) == Some(h)
  }

  ghost predicate InMoves(m: map<Text, map<Hash, Hash>>, h: Hash) {
    exists c, k :: MoveHash(m, c, k) == Some(h)
  }

  ghost predicate InInfos(m: map<Hash, seq<Hash>>, h: Hash) {
    exists k :: h in InfosOf(m, k)
  }

  ghost predicate InPosts(m: map<Option<Text>, TimeMap<seq<Entry>>>, h: Hash) {
    exists key, t, e :: e in EntriesAt(m, key, t) && e.1 == h
  }

  ghost predicate At(s: Store, q: Place, h: Hash) {
    match q
    case Topics => InTimed(s.topics, h)
    case Names => InTimed(s.names, h)
    case Memberships => InMoves(s.membership, h)
    case Infos => InInfos(s.infoHashes, h)
    case Channels => InPosts(s.posts, h)
    case Payloads => h in s.payloads
  }

  lemma TimedPut<K(!new)>(m: map<K, TimeMap<(Text, Hash)>>, k: K, t: U64, v: (Text, Hash), h: Hash)
    requires InTimed(PutAt(m, k, t, v), h)
    ensures v.1 == h || InTimed(m, h)
  {
    var m' := PutAt(m, k, t, v);
    var k', t' :| SlotHash(TimedAt(m', k', t')) == Some(h);
    assert TimedAt(m', k', t') == if k' == k && t' == t then Some(v) else TimedAt(m, k', t');
  }

  lemma TimedRemoved<K(!new)>(m: map<K, TimeMap<(Text, Hash)>>, k: Hash, h: Hash)
    requires InTimed(RemoveTimed(m, k), h)
    ensures h != k && InTimed(m, h)
  {
    var m' := RemoveTimed(m, k);
    var k', t' :| SlotHash(TimedAt(m', k', t')) == Some(h);
    assert TimedAt(m, k', t') == TimedAt(m', k', t');
  }

  lemma MovePut(m: map<Text, map<Hash, Hash>>, c: Text, k: Hash, v: Hash, h: Hash)
    requires InMoves(PutAt(m, c, k, v), h)
    ensures v == h || InMoves(m, h)
  {
    var m' := PutAt(m, c, k, v);
    var c', k' :| MoveHash(m', c', k') == Some(h);
    assert MoveHash(m', c', k') == if c' == c && k' == k then Some(v) else MoveHash(m, c', k');
  }

  lemma MoveRemoved(m: map<Text, map<Hash, Hash>>, k: Hash, h: Hash)
    requires InMoves(RemoveMembership(m, k), h)
    ensures h != k && InMoves(m, h)
  {
    var m' := RemoveMembership(m, k);
    var c', k' :| MoveHash(m', c', k') == Some(h);
    assert MoveHash(m, c', k') == MoveHash(m', c', k');
  }

  lemma InfoPut(m: map<Hash, seq<Hash>>, k: Hash, v: Hash, h: Hash)
    requires InInfos(PushAt(m, k, v), h)
    ensures v == h || InInfos(m, h)
  {
    var m' := PushAt(m, k, v);
    var k' :| h in InfosOf(m', k');
    assert InfosOf(m', k') == if k' == k then InfosOf(m, k) + [v] else InfosOf(m, k');
  }

  lemma InfoRemoved(m: map<Hash, seq<Hash>>, k: Hash, h: Hash)
    requires InInfos(RemoveInfoHash(m, k), h)
    ensures h != k && InInfos(m, h)
  {
    hide Retain;
    var m' := RemoveInfoHash(m, k);
    var k' :| h in InfosOf(m', k');
    RetainIn(m[k'], k, h);
    assert h in InfosOf(m, k');
  }

  lemma PostPut(m: map<Option<Text>, TimeMap<seq<Entry>>>, p: P.Post, v: Hash, h: Hash)
    requires InPosts(PostsAfter(m, p, v), h)
    ensures v == h || InPosts(m, h)
  {
    hide IndexKey;
    var m' := PostsAfter(m, p, v);
    var key, t, e :| e in EntriesAt(m', key, t) && e.1 == h;
    if IndexKey(p) == Some(key) && p.header.timestamp == t {
      assert EntriesAt(m', key, t) == EntriesAt(m, key, t) + [(p, v)];
    } else {
      assert EntriesAt(m', key, t) == EntriesAt(m, key, t);
    }
  }

  lemma PostRemoved(m: map<Option<Text>, TimeMap<seq<Entry>>>, k: Hash, h: Hash)
    requires InPosts(RemovePost(m, k), h)
    ensures h != k && InPosts(m, h)
  {
    hide Without;
    var m' := RemovePost(m, k);
    var key, t, e :| e in EntriesAt(m', key, t) && e.1 == h;
    WithoutIn(m[key][t], k, e);
    assert e in EntriesAt(m, key, t);
  }

  /** One critical section brings a hash to a place only if it adds that hash; a removal takes it away. */
  lemma ApplyAt(s: Store, op: Op, q: Place, h: Hash)
    requires At(Apply(s, op), q, h)
    ensures At(s, q, h) || Adds(op, h)
    ensures op != Remove(q, h)
  {
    hide P.Encode, PutAt, PushAt, PostsAfter, RemovePost, RemoveInfoHash, RemoveMembership, RemoveTimed, RemoveMember;
    hide InTimed, InMoves, InInfos, InPosts;
    match q
    case Topics =>
      if op.SetTopic? { TimedPut(s.topics, op.channel, op.at, (op.topic, op.hash), h); }
      if op.Remove? && op.place == q { TimedRemoved(s.topics, op.hash, h); }
    case Names =>
      if op.SetName? { TimedPut(s.names, op.author, op.at, (op.name, op.hash), h); }
      if op.Remove? && op.place == q { TimedRemoved(s.names, op.hash, h); }
    case Memberships =>
      if op.SetMembership? { MovePut(s.membership, op.channel, op.author, op.hash, h); }
      if op.Remove? && op.place == q { MoveRemoved(s.membership, op.hash, h); }
    case Infos =>
      if op.AddInfo? { InfoPut(s.infoHashes, op.author, op.hash, h); }
      if op.Remove? && op.place == q { InfoRemoved(s.infoHashes, op.hash, h); }
    case Channels =>
      if op.Index? { PostPut(s.posts, op.post, op.hash, h); }
      if op.Remove? && op.place == q { PostRemoved(s.posts, op.hash, h); }
    case Payloads =>
  }

  // Locks, and what a task may still do.

  ghost predicate TaskOk(crypto: P.Crypto, deleted: set<Hash>, t: Task) {
    match t
    case Checked(p, _) => !p.body.UnrecognizedPost? && P.HashOf(crypto, p) !in deleted
    case Admitting(p, ops, _) => Shape(p, P.HashOf(crypto, p), ops) && P.HashOf(crypto, p) !in deleted
    case Deleting(p, ops) =>
      p.body.Delete? && Shape(p, P.HashOf(crypto, p), ops) && forall h | h in p.body.hashes :: h in deleted
    case Publishing(p, ops) => Shape(p, P.HashOf(crypto, p), ops)
    case _ => true
  }

  /** The locks exclude what they should. */
  ghost predicate Orderly(crypto: P.Crypto, w: World) {
    && (forall id | id in w.tasks :: TaskOk(crypto, w.deleted, w.tasks[id]))
    && (forall i, j | i in w.tasks && j in w.tasks && w.tasks[i].Admitting? && w.tasks[j].Admitting? :: i == j)
  }

  predicate Working(w: World, id: nat) {
    && id in w.tasks && (w.tasks[id].Admitting? || w.tasks[id].Deleting? || w.tasks[id].Publishing?)
    && OpsOf(w.tasks[id]) != []
  }

  lemma BecomeOrderly(crypto: P.Crypto, w: World, id: nat, t: Task)
    requires Orderly(crypto, w) && TaskOk(crypto, w.deleted, t)
    requires t.Admitting? ==> RequestedFree(w) || (id in w.tasks && w.tasks[id].Admitting?)
    ensures Orderly(crypto, Become(w, id, t))
  {
    hide TaskOk;
  }

  lemma EndOrderly(crypto: P.Crypto, w: World, id: nat)
    requires Orderly(crypto, w)
    ensures Orderly(crypto, End(w, id))
  {
    hide TaskOk;
  }

  lemma WorkShape(crypto: P.Crypto, s: Store, p: P.Post, h: Hash, ops: seq<Op>)
    requires ops != [] && Shape(p, h, ops) && Found(s, ops[0]).Some?
    ensures Shape(p, h, Found(s, ops[0]).value + ops[1..])
  {
    hide P.Decode, RemovalOps;
    var op, rest, more := ops[0], ops[1..], Found(s, ops[0]).value;
    if more == [] {
      assert more + rest == rest;
    } else {
      RemovalShape(p, h, op.hash, rest);
    }
  }

  lemma WorkOrderly(crypto: P.Crypto, w: World, id: nat)
    requires Orderly(crypto, w) && Working(w, id)
    ensures Orderly(crypto, Work(w, id))
  {
    hide P.HashOf, LocalAdding, Found, Apply, Shape;
    var t := w.tasks[id];
    var op := t.ops[0];
    assert TaskOk(crypto, w.deleted, t);
    match Found(w.store, op)
    case None => EndOrderly(crypto, w, id);
    case Some(more) =>
      ShapeMeaning(t.post, P.HashOf(crypto, t.post), t.ops);
      WorkShape(crypto, w.store, t.post, P.HashOf(crypto, t.post), t.ops);
      BecomeOrderly(crypto, w.(store := Apply(w.store, op)), id, WithOps(t, more + t.ops[1..]));
  }

  lemma BarOrderly(crypto: P.Crypto, w: World, id: nat, p: P.Post)
    requires Orderly(crypto, w) && p.body.Delete? && DeletedFree(w)
    ensures Orderly(crypto, Bar(crypto, w, id, p))
  {
    hide P.HashOf, LocalAdding, Removing, InsertOps, Shape;
    InsertShape(p, P.HashOf(crypto, p));
    var w1 := w.(deleted := w.deleted + set h | h in p.body.hashes);
    forall j | j in w1.tasks ensures TaskOk(crypto, w1.deleted, w1.tasks[j]) {
      assert TaskOk(crypto, w.deleted, w.tasks[j]);
    }
    BecomeOrderly(crypto, w1, id, Deleting(p, InsertOps(p, P.HashOf(crypto, p))));
  }

  lemma StepOrderly(crypto: P.Crypto, w: World, e: Turn)
    requires Orderly(crypto, w) && Enabled(w, e)
    ensures Orderly(crypto, Step(crypto, w, e))
  {
    hide P.HashOf, P.Decode, P.Verify, LocalAdding, Removing, Work, Bar, InsertOps, Want, Shape;
    match e
    case Begin(id, t) => BecomeOrderly(crypto, w, id, t);
    case Advance(id) =>
      var t := w.tasks[id];
      assert TaskOk(crypto, w.deleted, t);
      EndOrderly(crypto, w, id);
      match t
      case Responding(posts) =>
        if id in Look(crypto, w, id, posts).tasks {
          BecomeOrderly(crypto, w, id, Look(crypto, w, id, posts).tasks[id]);
        }
      case Checked(p, rest) =>
        InsertShape(p, P.HashOf(crypto, p));
        BecomeOrderly(crypto, w, id, Responding(rest));
        BecomeOrderly(crypto, w, id, Admitting(p, InsertOps(p, P.HashOf(crypto, p)), rest));
      case Hashing(hashes) => BecomeOrderly(crypto, w, id, Marking(set h | h in Want(w.store, hashes)));
      case Marking(_) =>
      case Barring(p) => BarOrderly(crypto, w, id, p);
      case Composing(p) =>
        InsertShape(p, P.HashOf(crypto, p));
        BecomeOrderly(crypto, w, id, Publishing(p, InsertOps(p, P.HashOf(crypto, p))));
      case Admitting(_, ops, rest) =>
        if ops != [] { WorkOrderly(crypto, w, id); } else { BecomeOrderly(crypto, w, id, Responding(rest)); }
      case Deleting(_, ops) => if ops != [] { WorkOrderly(crypto, w, id); }
      case Publishing(_, ops) => if ops != [] { WorkOrderly(crypto, w, id); }
  }

  // The operations that a task has left, and how a step changes them.

  function OpsAt(w: World, id: nat): seq<Op> {
    if id in w.tasks then OpsOf(w.tasks[id]) else []
  }

  ghost predicate Stores(ops: seq<Op>, h: Hash) {
    exists i | 0 <= i < |ops| :: ops[i].StorePayload? && ops[i].hash == h
  }

  /** A list that will store the payload of `h` whatever it finds. */
  ghost predicate Solid(ops: seq<Op>, h: Hash) {
    Stores(ops, h) && forall i | 0 <= i < |ops| :: !ops[i].Examine?
  }

  lemma SplitOps(more: seq<Op>, ops: seq<Op>, h: Hash)
    requires ops != [] && forall op | op in more :: op.Remove? || op.AddDeleteHash?
    ensures AddsIn(more + ops[1..], h) ==> AddsIn(ops, h)
    ensures Stores(more + ops[1..], h) ==> Stores(ops, h)
    ensures AddsIn(ops, h) ==> Adds(ops[0], h) || AddsIn(more + ops[1..], h)
    ensures Stores(ops, h) ==> (ops[0].StorePayload? && ops[0].hash == h) || Stores(more + ops[1..], h)
  {
    var ops' := more + ops[1..];
    assert forall i | 0 <= i < |more| :: ops'[i] == more[i] && more[i] in more;
    if AddsIn(ops', h) {
      var i :| 0 <= i < |ops'| && Adds(ops'[i], h);
      assert Adds(ops[i - |more| + 1], h);
    }
    if Stores(ops', h) {
      var i :| 0 <= i < |ops'| && ops'[i].StorePayload? && ops'[i].hash == h;
      assert ops[i - |more| + 1] == ops'[i];
    }
    if AddsIn(ops, h) && !Adds(ops[0], h) {
      var i :| 0 <= i < |ops| && Adds(ops[i], h);
      assert ops'[|more| + i - 1] == ops[i];
    }
    if Stores(ops, h) && !(ops[0].StorePayload? && ops[0].hash == h) {
      var i :| 0 <= i < |ops| && ops[i].StorePayload? && ops[i].hash == h;
      assert ops'[|more| + i - 1] == ops[i];
    }
  }

  lemma FoundOps(s: Store, op: Op)
    requires Found(s, op).Some?
    ensures forall x | x in Found(s, op).value :: x.Remove? || x.AddDeleteHash?
    ensures forall q, k | Remove(q, k) in Found(s, op).value :: op.Examine? && k == op.hash
    ensures Found(s, op).value != [] ==> op.Examine? && forall q :: Remove(q, op.hash) in Found(s, op).value
  {
    hide P.Decode;
    if Found(s, op).value != [] {
      forall q ensures Remove(q, op.hash) in Found(s, op).value {
        match q
        case Topics =>
        case Names =>
        case Memberships =>
        case Infos =>
        case Channels =>
        case Payloads =>
      }
    }
  }

  lemma StartAdds(p: P.Post, own: Hash, h: Hash)
    ensures AddsIn(InsertOps(p, own), h) || Stores(InsertOps(p, own), h) ==> h == own
  {
    hide InsertOps, Shape;
    var ops := InsertOps(p, own);
    InsertShape(p, own);
    ShapeMeaning(p, own, ops);
    if Stores(ops, h) {
      var i :| 0 <= i < |ops| && ops[i].StorePayload? && ops[i].hash == h;
      assert Adds(ops[i], h);
    }
  }

  // Remote insertions are paid for by requests.

  /** Insertions begun, with the request still open, and insertions done, with the one still under way. */
  ghost predicate Paid(w: World, h: Hash) {
    && w.admitted[h] + (if h in w.requested then 1 else 0) <= w.marked[h]
    && w.stored[h] <= w.admitted[h]
    && forall id | id in w.tasks && w.tasks[id].Admitting? && Stores(w.tasks[id].ops, h) :: w.stored[h] < w.admitted[h]
  }

  lemma WorkPaid(crypto: P.Crypto, w: World, id: nat, h: Hash)
    requires Orderly(crypto, w) && Paid(w, h) && Working(w, id)
    ensures Paid(Work(w, id), h)
  {
    hide P.HashOf, LocalAdding, Found, Apply, Stores, Shape;
    var t := w.tasks[id];
    assert TaskOk(crypto, w.deleted, t);
    if Found(w.store, t.ops[0]).Some? {
      FoundOps(w.store, t.ops[0]);
      SplitOps(Found(w.store, t.ops[0]).value, t.ops, h);
      if t.Admitting? && t.ops[0].StorePayload? && t.ops[0].hash == h {
        StoredOnce(crypto, w.store, t.post, P.HashOf(crypto, t.post), t.ops);
      }
    }
  }

  lemma StoredOnce(crypto: P.Crypto, s: Store, p: P.Post, h: Hash, ops: seq<Op>)
    requires ops != [] && Shape(p, h, ops) && ops[0].StorePayload? && Found(s, ops[0]).Some?
    ensures Stores(ops, ops[0].hash) && !Stores(Found(s, ops[0]).value + ops[1..], ops[0].hash)
  {
    var rest, k := ops[1..], ops[0].hash;
    assert Found(s, ops[0]).value == [] && [] + rest == rest;
    forall i | 0 <= i < |rest| ensures !(rest[i].StorePayload? && rest[i].hash == k) {
      assert !Adds(rest[i], k);
    }
  }

  lemma StepPaid(crypto: P.Crypto, w: World, e: Turn, h: Hash)
    requires Orderly(crypto, w) && Paid(w, h) && Enabled(w, e)
    ensures Paid(Step(crypto, w, e), h)
  {
    hide P.HashOf, P.Decode, P.Verify, LocalAdding, Removing, Work, InsertOps, Want, Shape, Stores;
    if e.Advance? && Working(w, e.id) {
      WorkPaid(crypto, w, e.id, h);
    } else if e.Advance? {
      match w.tasks[e.id]
      case Responding(_) =>
      case Checked(p, _) => StartAdds(p, P.HashOf(crypto, p), h);
      case Marking(_) =>
      case Barring(_) =>
      case _ =>
    }
  }

  // A hash that no local post writes while it is removed or barred.

  ghost predicate Quiet(w: World, h: Hash) {
    forall id :: !AddsIn(OpsAt(w, id), h)
  }

  ghost predicate RemovedQuietly(w: World, h: Hash) {
    forall id :: Remove(Payloads, h) in OpsAt(w, id) ==> Quiet(w, h)
  }

  /** A removal under way has taken the hash from every place it no longer means to visit. */
  ghost predicate RemovedSoFar(w: World, h: Hash) {
    forall id, q :: Remove(Payloads, h) in OpsAt(w, id) ==> Remove(q, h) in OpsAt(w, id) || !At(w.store, q, h)
  }

  /** Wherever the hash is, its payload is stored or certain to be. */
  ghost predicate Backed(w: World, h: Hash) {
    forall q :: At(w.store, q, h) ==> h in w.store.payloads || exists id :: Solid(OpsAt(w, id), h)
  }

  ghost predicate Clean(w: World, h: Hash) {
    RemovedQuietly(w, h) && RemovedSoFar(w, h) && Backed(w, h) && (h in w.deleted ==> Quiet(w, h))
  }

  /** A task without operations takes up some, or none. */
  lemma StartClean(w: World, w': World, id: nat, h: Hash)
    requires Clean(w, h) && w'.store == w.store && OpsAt(w, id) == []
    requires forall j | j != id :: OpsAt(w', j) == OpsAt(w, j)
    requires NoRemoves(OpsAt(w', id))
    requires AddsIn(OpsAt(w', id), h) ==> h !in w'.deleted && forall j :: Remove(Payloads, h) !in OpsAt(w, j)
    requires h in w'.deleted ==> Quiet(w, h)
    ensures Clean(w', h)
  {
    hide OpsAt, At, AddsIn;
    assert Remove(Payloads, h) !in OpsAt(w', id);
    assert !Solid(OpsAt(w, id), h);
    if h in w'.deleted || exists j :: Remove(Payloads, h) in OpsAt(w', j) {
      forall j ensures !AddsIn(OpsAt(w', j), h) {
        assert j != id ==> OpsAt(w', j) == OpsAt(w, j);
      }
    }
    forall q | At(w'.store, q, h) && h !in w'.store.payloads ensures exists j :: Solid(OpsAt(w', j), h) {
      var j :| Solid(OpsAt(w, j), h);
      assert OpsAt(w', j) == OpsAt(w, j);
    }
  }

  /** What is being removed is barred, unless by a response or by a delete post published without barring. */
  lemma Removers(crypto: P.Crypto, w: World, id: nat, h: Hash)
    requires Orderly(crypto, w)
    requires Remove(Payloads, h) in OpsAt(w, id) || exists a, o :: Examine(a, h, o) in OpsAt(w, id)
    ensures id in w.tasks
    ensures w.tasks[id].Admitting? || w.tasks[id].Publishing? || (w.tasks[id].Deleting? && h in w.deleted)
  {
    hide Shape, P.HashOf;
    assert TaskOk(crypto, w.deleted, w.tasks[id]);
    ShapeMeaning(w.tasks[id].post, P.HashOf(crypto, w.tasks[id].post), OpsAt(w, id));
  }

  /** Whoever writes a hash is inserting the post with that hash. */
  lemma Adders(crypto: P.Crypto, w: World, id: nat, h: Hash)
    requires Orderly(crypto, w) && AddsIn(OpsAt(w, id), h)
    ensures id in w.tasks
    ensures if w.tasks[id].Admitting?
            then P.HashOf(crypto, w.tasks[id].post) == h && h !in w.deleted && ResponseAdding(w, h)
            else LocalAdding(w, h)
  {
    hide Shape, P.HashOf;
    assert TaskOk(crypto, w.deleted, w.tasks[id]);
    ShapeMeaning(w.tasks[id].post, P.HashOf(crypto, w.tasks[id].post), OpsAt(w, id));
  }

  lemma NothingAdds(h: Hash)
    ensures !AddsIn([], h)
  {
  }

  lemma AdmitClean(crypto: P.Crypto, w: World, id: nat, p: P.Post, rest: seq<Bytes>, h: Hash)
    requires Orderly(crypto, w) && Clean(w, h) && RequestedFree(w) && id in w.tasks && w.tasks[id] == Checked(p, rest)
    requires !Clash(crypto, w, Advance(id), h)
    ensures Clean(Admit(crypto, w, id, p, rest), h)
  {
    hide P.HashOf, AddsIn, InsertOps, Shape, Quiet, RemovedQuietly, RemovedSoFar, Backed;
    var own, w' := P.HashOf(crypto, p), Admit(crypto, w, id, p, rest);
    assert TaskOk(crypto, w.deleted, w.tasks[id]);
    StartAdds(p, own, h);
    InsertShape(p, own);
    NothingAdds(h);
    if AddsIn(OpsAt(w', id), h) {
      forall j ensures Remove(Payloads, h) !in OpsAt(w, j) {
        if Remove(Payloads, h) in OpsAt(w, j) {
          Removers(crypto, w, j, h);
        }
      }
    }
    StartClean(w, w', id, h);
  }

  lemma BarClean(crypto: P.Crypto, w: World, id: nat, p: P.Post, h: Hash)
    requires Orderly(crypto, w) && Clean(w, h) && DeletedFree(w)
    requires p.body.Delete? && id in w.tasks && w.tasks[id] == Barring(p)
    requires !Clash(crypto, w, Advance(id), h)
    ensures Clean(Bar(crypto, w, id, p), h)
  {
    hide P.HashOf, AddsIn, InsertOps, Shape, RemovedQuietly, RemovedSoFar, Backed, LocalAdding;
    var own, w' := P.HashOf(crypto, p), Bar(crypto, w, id, p);
    StartAdds(p, own, h);
    InsertShape(p, own);
    if h in w'.deleted && h !in w.deleted {
      forall j ensures !AddsIn(OpsAt(w, j), h) {
        if AddsIn(OpsAt(w, j), h) {
          Adders(crypto, w, j, h);
        }
      }
    }
    StartClean(w, w', id, h);
  }

  lemma ComposeClean(crypto: P.Crypto, w: World, id: nat, p: P.Post, h: Hash)
    requires Orderly(crypto, w) && Clean(w, h) && id in w.tasks && w.tasks[id] == Composing(p)
    requires !Clash(crypto, w, Advance(id), h)
    ensures Clean(Compose(crypto, w, id, p), h)
  {
    hide P.HashOf, AddsIn, InsertOps, Shape, Quiet, RemovedQuietly, RemovedSoFar, Backed;
    StartAdds(p, P.HashOf(crypto, p), h);
    InsertShape(p, P.HashOf(crypto, p));
    StartClean(w, Compose(crypto, w, id, p), id, h);
  }

  // One critical section of an insertion.

  /** A task runs its next operation, which does not make `h` clash. */
  ghost predicate Worked(crypto: P.Crypto, w: World, id: nat, w': World, h: Hash) {
    && Working(w, id) && w' == Work(w, id)
    && Orderly(crypto, w) && Clean(w, h) && !Clash(crypto, w, Advance(id), h)
  }

  lemma WorkAdds(crypto: P.Crypto, w: World, id: nat, h: Hash)
    requires Working(w, id)
    ensures forall j | AddsIn(OpsAt(Work(w, id), j), h) :: AddsIn(OpsAt(w, j), h)
    ensures forall j | j != id :: OpsAt(Work(w, id), j) == OpsAt(w, j)
  {
    hide P.HashOf, LocalAdding, Found, Apply, AddsIn;
    var ops := OpsAt(w, id);
    if Found(w.store, ops[0]).Some? {
      FoundOps(w.store, ops[0]);
      SplitOps(Found(w.store, ops[0]).value, ops, h);
    } else {
      assert !AddsIn([], h) by { NothingAdds(h); }
    }
  }

  /** A removal begins only where nobody is adding. */
  lemma BeginRemoval(crypto: P.Crypto, w: World, id: nat, w': World, h: Hash)
    requires Worked(crypto, w, id, w', h)
    requires OpsAt(w, id)[0].Examine? && OpsAt(w, id)[0].hash == h
    requires Found(w.store, OpsAt(w, id)[0]).Some? && Found(w.store, OpsAt(w, id)[0]).value != []
    ensures Quiet(w, h)
  {
    hide P.HashOf, LocalAdding, ResponseAdding, Found, Apply, AddsIn, Clean, Shape;
    assert BeginsRemoval(w.store, w.tasks[id], h);
    var op := OpsAt(w, id)[0];
    assert op == Examine(op.author, h, op.own) && op in OpsAt(w, id);
    Removers(crypto, w, id, h);
    forall j ensures !AddsIn(OpsAt(w, j), h) {
      if AddsIn(OpsAt(w, j), h) {
        Adders(crypto, w, j, h);
      }
    }
  }

  lemma WorkRemovedQuietly(crypto: P.Crypto, w: World, id: nat, w': World, h: Hash)
    requires Worked(crypto, w, id, w', h)
    ensures RemovedQuietly(w', h)
  {
    hide P.HashOf, LocalAdding, Found, Apply, AddsIn, Orderly, RemovedSoFar, Backed;
    WorkAdds(crypto, w, id, h);
    forall j | Remove(Payloads, h) in OpsAt(w', j) ensures Quiet(w', h) {
      if Remove(Payloads, h) !in OpsAt(w, j) {
        FoundOps(w.store, OpsAt(w, id)[0]);
        BeginRemoval(crypto, w, id, w', h);
      }
    }
  }

  lemma WorkRemovedSoFar(crypto: P.Crypto, w: World, id: nat, w': World, h: Hash)
    requires Worked(crypto, w, id, w', h)
    ensures RemovedSoFar(w', h)
  {
    hide P.HashOf, LocalAdding, Found, Apply, AddsIn, Orderly, Backed, At;
    WorkAdds(crypto, w, id, h);
    var ops := OpsAt(w, id);
    var op := ops[0];
    forall j, q | Remove(Payloads, h) in OpsAt(w', j) && At(w'.store, q, h) ensures Remove(q, h) in OpsAt(w', j) {
      if Found(w.store, op).Some? {
        FoundOps(w.store, op);
        if Remove(Payloads, h) in OpsAt(w, j) {
          HeadAdds(ops, h);
          assert !AddsIn(ops, h);
          ApplyAt(w.store, op, q, h);
          assert Remove(q, h) in OpsAt(w, j);
          assert ops == [op] + ops[1..];
        }
      }
    }
  }

  lemma HeadAdds(ops: seq<Op>, h: Hash)
    requires ops != []
    ensures Adds(ops[0], h) ==> AddsIn(ops, h)
  {
  }

  lemma SolidSurvives(s: Store, ops: seq<Op>, h: Hash)
    requires ops != [] && Solid(ops, h)
    ensures Found(s, ops[0]) == Some([])
    ensures (ops[0].StorePayload? && ops[0].hash == h) || Solid([] + ops[1..], h)
  {
    assert !ops[0].Examine?;
    assert [] + ops[1..] == ops[1..];
    SplitOps([], ops, h);
  }

  /** Entries come before the payload they belong to. */
  lemma EntriesSolid(s: Store, p: P.Post, own: Hash, ops: seq<Op>, h: Hash)
    requires ops != [] && Shape(p, own, ops) && Adds(ops[0], h) && !ops[0].StorePayload?
    ensures Found(s, ops[0]) == Some([]) && Solid([] + ops[1..], h)
  {
    var rest := ops[1..];
    assert [] + rest == rest;
    assert HeadOk(p, own, ops[0], rest) && !p.body.Delete? && h == own;
    ShapeMeaning(p, own, rest);
    forall i | 0 <= i < |rest| ensures !rest[i].Examine? {
      assert rest[i] in rest;
    }
    var i :| 0 <= i < |rest| && rest[i] == StorePayload(p, own);
    assert Stores(rest, h);
  }

  /** When the payload goes, the hash is nowhere else. */
  lemma LastRemoval(s: Store, p: P.Post, own: Hash, ops: seq<Op>, q: Place, h: Hash)
    requires ops != [] && Shape(p, own, ops) && ops[0] == Remove(Payloads, h)
    requires Remove(q, h) in ops || !At(s, q, h)
    ensures !At(Apply(s, ops[0]), q, h)
  {
    hide At, Apply;
    assert HeadOk(p, own, ops[0], ops[1..]);
    assert ops == [ops[0]] + ops[1..];
    if At(Apply(s, ops[0]), q, h) {
      ApplyAt(s, ops[0], q, h);
    }
  }

  lemma WorkBacked(crypto: P.Crypto, w: World, id: nat, w': World, h: Hash)
    requires Worked(crypto, w, id, w', h)
    ensures Backed(w', h)
  {
    hide P.HashOf, P.Encode, LocalAdding, Found, Apply, AddsIn, RemovedQuietly, At, Shape, Solid;
    WorkAdds(crypto, w, id, h);
    var ops, t := OpsAt(w, id), w.tasks[id];
    var op := ops[0];
    var p, own := t.post, P.HashOf(crypto, t.post);
    assert TaskOk(crypto, w.deleted, t);
    forall q | At(w'.store, q, h) && h !in w'.store.payloads ensures exists j :: Solid(OpsAt(w', j), h) {
      PayloadAfter(w.store, op, h);
      if Found(w.store, op).Some? && Adds(op, h) {
        EntriesSolid(w.store, p, own, ops, h);
        assert Solid(OpsAt(w', id), h);
      } else {
        if Found(w.store, op).Some? {
          ApplyAt(w.store, op, q, h);
          if h in w.store.payloads {
            assert Remove(Payloads, h) in ops;
            LastRemoval(w.store, p, own, ops, q, h);
          }
        }
        var j :| Solid(OpsAt(w, j), h);
        if j == id {
          SolidSurvives(w.store, ops, h);
        }
        assert Solid(OpsAt(w', j), h);
      }
    }
  }

  lemma PayloadAfter(s: Store, op: Op, h: Hash)
    ensures op.StorePayload? && op.hash == h ==> h in Apply(s, op).payloads
    ensures h in s.payloads && h !in Apply(s, op).payloads ==> op == Remove(Payloads, h)
  {
    hide P.Encode, PutAt, PushAt, PostsAfter, RemovePost, RemoveInfoHash, RemoveMembership, RemoveTimed, RemoveMember;
  }

  lemma WorkClean(crypto: P.Crypto, w: World, id: nat, w': World, h: Hash)
    requires Worked(crypto, w, id, w', h)
    ensures Clean(w', h)
  {
    WorkRemovedQuietly(crypto, w, id, w', h);
    WorkRemovedSoFar(crypto, w, id, w', h);
    WorkBacked(crypto, w, id, w', h);
    hide P.HashOf, LocalAdding, Found, Apply, AddsIn, RemovedQuietly, RemovedSoFar, Backed;
    WorkAdds(crypto, w, id, h);
  }

  /** Steps that neither run an operation nor take up any. */
  predicate Idle(w: World, e: Turn)
    requires Enabled(w, e)
  {
    e.Begin? || (!Working(w, e.id) && !w.tasks[e.id].Checked? && !w.tasks[e.id].Barring? && !w.tasks[e.id].Composing?)
  }

  lemma IdleSteps(crypto: P.Crypto, w: World, e: Turn)
    requires Enabled(w, e) && Idle(w, e)
    ensures var w' := Step(crypto, w, e);
            w'.store == w.store && w'.deleted == w.deleted && forall j :: OpsAt(w', j) == OpsAt(w, j)
  {
    hide P.HashOf, P.Decode, P.Verify, Work, Want;
    if e.Advance? {
      match w.tasks[e.id]
      case Responding(_) =>
      case Hashing(_) =>
      case Marking(_) =>
      case Admitting(_, _, _) =>
      case Deleting(_, _) =>
      case Publishing(_, _) =>
    }
  }

  lemma SameClean(w: World, w': World, h: Hash)
    requires Clean(w, h) && w'.store == w.store && w'.deleted == w.deleted
    requires forall j :: OpsAt(w', j) == OpsAt(w, j)
    ensures Clean(w', h)
  {
    hide OpsAt, At, AddsIn, Solid;
    assert forall j | Solid(OpsAt(w, j), h) :: Solid(OpsAt(w', j), h);
  }

  /** Every step keeps clean what it does not clash with. */
  lemma StepClean(crypto: P.Crypto, w: World, e: Turn, h: Hash)
    requires Orderly(crypto, w) && Enabled(w, e) && Clean(w, h) && !Clash(crypto, w, e, h)
    ensures Clean(Step(crypto, w, e), h)
  {
    hide Work, Bar, Compose, Admit, Orderly, Clean, Look, Finish;
    var w' := Step(crypto, w, e);
    if Idle(w, e) {
      IdleSteps(crypto, w, e);
      SameClean(w, w', h);
    } else if Working(w, e.id) {
      WorkClean(crypto, w, e.id, w', h);
    } else {
      match w.tasks[e.id]
      case Checked(p, rest) => AdmitClean(crypto, w, e.id, p, rest, h);
      case Barring(p) => BarClean(crypto, w, e.id, p, h);
      case Composing(p) => ComposeClean(crypto, w, e.id, p, h);
    }
  }

  // A deletion that has completed.

  ghost function DecodedIn(bs: seq<Bytes>): set<P.Post> {
    set b | b in bs && P.Decode(b).Ok? :: P.Decode(b).value.1
  }

  /** The posts that a task may still write. */
  ghost function PostsOf(t: Task): set<P.Post> {
    match t
    case Responding(bs) => DecodedIn(bs)
    case Checked(p, bs) => {p} + DecodedIn(bs)
    case Admitting(p, _, bs) => {p} + DecodedIn(bs)
    case Barring(p) => {p}
    case Deleting(p, _) => {p}
    case Composing(p) => {p}
    case Publishing(p, _) => {p}
    case _ => {}
  }

  /** The posts in play in a run: those its tasks begin with. */
  ghost function PostsIn(turns: seq<Turn>): set<P.Post> {
    if turns == [] then {} else (if turns[0].Begin? then PostsOf(turns[0].task) else {}) + PostsIn(turns[1..])
  }

  ghost predicate IsPayload(crypto: P.Crypto, play: set<P.Post>, h: Hash, b: Bytes) {
    exists p :: p in play && P.HashOf(crypto, p) == h && P.Encode(p) == b
  }

  /** Tasks write, and the store holds, nothing but posts in play. */
  ghost predicate Played(crypto: P.Crypto, play: set<P.Post>, w: World) {
    && (forall id | id in w.tasks :: PostsOf(w.tasks[id]) <= play)
    && (forall h | h in w.store.payloads :: IsPayload(crypto, play, h, w.store.payloads[h]))
  }

  lemma WorkPlayed(crypto: P.Crypto, play: set<P.Post>, w: World, id: nat)
    requires Orderly(crypto, w) && Played(crypto, play, w) && Working(w, id)
    ensures Played(crypto, play, Work(w, id))
  {
    hide P.HashOf, P.Encode, P.Decode, Found, Shape, RemoveTimed, RemoveMembership, RemoveInfoHash, RemovePost;
    hide PostsAfter, PutAt, PushAt, DecodedIn;
    var t := w.tasks[id];
    var op, s' := t.ops[0], Work(w, id).store;
    assert TaskOk(crypto, w.deleted, t) && PostsOf(t) <= play;
    ShapeMeaning(t.post, P.HashOf(crypto, t.post), t.ops);
    assert op in t.ops;
    forall h | h in s'.payloads ensures IsPayload(crypto, play, h, s'.payloads[h]) {
      if h !in w.store.payloads || s'.payloads[h] != w.store.payloads[h] {
        assert op.StorePayload? && op.hash == h && op.post == t.post;
      }
    }
  }

  /** A step leaves its task no post that it did not have. */
  lemma NextPosts(crypto: P.Crypto, w: World, e: Turn)
    requires Enabled(w, e) && !(e.Advance? && Working(w, e.id))
    ensures var w' := Step(crypto, w, e);
            e.id in w'.tasks ==> PostsOf(w'.tasks[e.id]) <= PostsOf(if e.Begin? then e.task else w.tasks[e.id])
  {
    hide P.HashOf, P.Encode, P.Decode, P.Verify, Work, InsertOps, Want;
    if e.Advance? {
      match w.tasks[e.id]
      case Responding(bs) =>
        if bs != [] {
          assert bs[0] in bs && forall b | b in bs[1..] :: b in bs;
        }
      case Checked(_, _) =>
      case Hashing(_) =>
      case Marking(_) =>
      case Barring(_) =>
      case Composing(_) =>
      case Admitting(_, _, _) =>
      case Deleting(_, _) =>
      case Publishing(_, _) =>
    }
  }

  lemma StepPlayed(crypto: P.Crypto, play: set<P.Post>, w: World, e: Turn)
    requires Orderly(crypto, w) && Played(crypto, play, w) && Enabled(w, e)
    requires e.Begin? ==> PostsOf(e.task) <= play
    ensures Played(crypto, play, Step(crypto, w, e))
  {
    hide P.HashOf, InsertOps, Orderly, IsPayload, PostsOf, Work;
    if e.Advance? && Working(w, e.id) {
      WorkPlayed(crypto, play, w, e.id);
    } else {
      hide Step;
      OtherSteps(crypto, w, e);
      NextPosts(crypto, w, e);
    }
  }

  /** Among the posts in play, `h` is the hash of posts by this author only. */
  ghost predicate OwnHash(crypto: P.Crypto, play: set<P.Post>, author: Hash, h: Hash) {
    forall p | p in play && P.HashOf(crypto, p) == h :: p.header.publicKey == author
  }

  ghost predicate Pending(ops: seq<Op>, author: Hash, own: Hash, h: Hash) {
    Examine(author, h, own) in ops || Remove(Payloads, h) in ops
  }

  /** A local deletion has removed the payload of an own post or still means to. */
  ghost predicate Erasing(crypto: P.Crypto, play: set<P.Post>, w: World, t: Task, h: Hash) {
    t.Deleting? && h in ListedBy(t.post) && OwnHash(crypto, play, t.post.header.publicKey, h) ==>
      Pending(t.ops, t.post.header.publicKey, P.HashOf(crypto, t.post), h) || h !in w.store.payloads
  }

  ghost predicate Erased(crypto: P.Crypto, play: set<P.Post>, w: World, h: Hash) {
    && (forall id | id in w.tasks :: Erasing(crypto, play, w, w.tasks[id], h))
    && (forall a | (a, h) in w.completed :: h in w.deleted && (OwnHash(crypto, play, a, h) ==> h !in w.store.payloads))
  }

  lemma ExamineOwn(crypto: P.Crypto, play: set<P.Post>, s: Store, op: Op)
    requires op.Examine? && OwnHash(crypto, play, op.author, op.hash) && Found(s, op).Some?
    requires op.hash in s.payloads && IsPayload(crypto, play, op.hash, s.payloads[op.hash])
    ensures Remove(Payloads, op.hash) in Found(s, op).value
  {
    hide P.HashOf, P.Encode, P.Decode;
    var h := op.hash;
    var p :| p in play && P.HashOf(crypto, p) == h && P.Encode(p) == s.payloads[h];
    AuthorSurvives(p);
    FoundOps(s, op);
  }

  lemma WorkErasing(crypto: P.Crypto, play: set<P.Post>, w: World, id: nat, w': World, h: Hash)
    requires Worked(crypto, w, id, w', h) && Played(crypto, play, w) && Erased(crypto, play, w, h)
    ensures id in w'.tasks ==> Erasing(crypto, play, w', w'.tasks[id], h)
  {
    hide P.HashOf, P.Encode, P.Decode, LocalAdding, Found, Apply, Clean, Shape, OwnHash;
    var t := w.tasks[id];
    assert TaskOk(crypto, w.deleted, t) && Erasing(crypto, play, w, t, h);
    if id in w'.tasks && t.Deleting? && h in ListedBy(t.post) && OwnHash(crypto, play, t.post.header.publicKey, h) {
      var op, rest := t.ops[0], t.ops[1..];
      assert t.ops == [op] + rest;
      if h in w'.store.payloads {
        BarredPayload(crypto, w, id, w', h);
        if op == Examine(t.post.header.publicKey, h, P.HashOf(crypto, t.post)) {
          ExamineOwn(crypto, play, w.store, op);
        } else if op == Remove(Payloads, h) {
          ApplyAt(w.store, op, Payloads, h);
        }
      }
    }
  }

  /** The payload of a barred hash does not come back. */
  lemma BarredPayload(crypto: P.Crypto, w: World, id: nat, w': World, h: Hash)
    requires Worked(crypto, w, id, w', h) && h in w.deleted && h in w'.store.payloads
    ensures h in w.store.payloads
  {
    hide P.HashOf, LocalAdding, Found, Apply, AddsIn, Orderly;
    var ops := OpsAt(w, id);
    assert !AddsIn(ops, h);
    HeadAdds(ops, h);
    if Found(w.store, ops[0]).Some? {
      ApplyAt(w.store, ops[0], Payloads, h);
    }
  }

  lemma WorkErased(crypto: P.Crypto, play: set<P.Post>, w: World, id: nat, w': World, h: Hash)
    requires Worked(crypto, w, id, w', h) && Played(crypto, play, w) && Erased(crypto, play, w, h)
    ensures Erased(crypto, play, w', h)
  {
    hide P.HashOf, LocalAdding, Found, Apply, Clean, Shape, OwnHash, Pending;
    WorkErasing(crypto, play, w, id, w', h);
    if h in w.deleted && h in w'.store.payloads {
      BarredPayload(crypto, w, id, w', h);
    }
    forall j | j in w'.tasks ensures Erasing(crypto, play, w', w'.tasks[j], h) {
      if j != id {
        assert TaskOk(crypto, w.deleted, w.tasks[j]) && Erasing(crypto, play, w, w.tasks[j], h);
      }
    }
  }

  /** A step that touches no index, as far as deletions are concerned. */
  lemma OtherSteps(crypto: P.Crypto, w: World, e: Turn)
    requires Enabled(w, e) && !(e.Advance? && Working(w, e.id))
    ensures var w' := Step(crypto, w, e);
            && w'.store == w.store && w.deleted <= w'.deleted
            && (forall j | j != e.id && j in w'.tasks :: j in w.tasks && w'.tasks[j] == w.tasks[j])
            && (e.id in w'.tasks && w'.tasks[e.id].Deleting? ==>
                  e.Advance? && w.tasks[e.id].Barring? && w.tasks[e.id].post == w'.tasks[e.id].post
                  && OpsAt(w', e.id) == InsertOps(w'.tasks[e.id].post, P.HashOf(crypto, w'.tasks[e.id].post)))
            && (if e.Advance? && w.tasks[e.id].Deleting?
                then var p := w.tasks[e.id].post;
                     OpsAt(w, e.id) == []
                     && w'.completed == w.completed + set h | h in ListedBy(p) :: (p.header.publicKey, h)
                else w'.completed == w.completed)
  {
    hide P.HashOf, P.Decode, P.Verify, LocalAdding, Removing, Work, InsertOps, Want, ListedBy;
    if e.Advance? {
      match w.tasks[e.id]
      case Responding(_) =>
      case Checked(_, _) =>
      case Hashing(_) =>
      case Marking(_) =>
      case Barring(_) =>
      case Composing(_) =>
      case Admitting(_, _, _) =>
      case Deleting(_, _) =>
      case Publishing(_, _) =>
    }
  }

  lemma StepErased(crypto: P.Crypto, play: set<P.Post>, w: World, e: Turn, h: Hash)
    requires Orderly(crypto, w) && Enabled(w, e) && Clean(w, h) && !Clash(crypto, w, e, h)
    requires Played(crypto, play, w) && Erased(crypto, play, w, h)
    ensures Erased(crypto, play, Step(crypto, w, e), h)
  {
    hide P.HashOf, InsertOps, Shape, OwnHash, Clean;
    var w' := Step(crypto, w, e);
    if e.Advance? && Working(w, e.id) {
      WorkErased(crypto, play, w, e.id, w', h);
    } else {
      hide Step;
      OtherSteps(crypto, w, e);
      if e.Advance? {
        var t := w.tasks[e.id];
        assert TaskOk(crypto, w.deleted, t) && Erasing(crypto, play, w, t, h);
        if t.Barring? {
          InsertShape(t.post, P.HashOf(crypto, t.post));
        }
      }
      forall j | j in w'.tasks ensures Erasing(crypto, play, w', w'.tasks[j], h) {
        if j != e.id {
          assert Erasing(crypto, play, w, w.tasks[j], h);
        }
      }
    }
  }

  // Whole runs.

  ghost predicate Sound(crypto: P.Crypto, w: World) {
    Orderly(crypto, w) && forall h :: Paid(w, h)
  }

  /** Every turn keeps the locks and the accounts. */
  lemma StepSound(crypto: P.Crypto, w: World, e: Turn)
    requires Sound(crypto, w) && Enabled(w, e)
    ensures Sound(crypto, Step(crypto, w, e))
  {
    hide Orderly, Paid, Step;
    StepOrderly(crypto, w, e);
    forall h ensures Paid(Step(crypto, w, e), h) {
      StepPaid(crypto, w, e, h);
    }
  }

  lemma BarredGrows(crypto: P.Crypto, w: World, e: Turn)
    requires Enabled(w, e)
    ensures w.deleted <= Step(crypto, w, e).deleted
  {
    hide P.HashOf, P.Decode, P.Verify, InsertOps, Want, Found, Apply;
  }

  lemma {:induction false} RunSound(crypto: P.Crypto, w: World, turns: seq<Turn>, end: World)
    requires Sound(crypto, w) && Leads(crypto, w, turns, end)
    ensures Sound(crypto, end) && w.deleted <= end.deleted
    decreases |turns|
  {
    hide Sound, Step, Enabled;
    if turns != [] {
      StepSound(crypto, w, turns[0]);
      BarredGrows(crypto, w, turns[0]);
      RunSound(crypto, Step(crypto, w, turns[0]), turns[1..], end);
    }
  }

  /** Every turn that does not clash over `h` keeps its removals orderly and its deletions effective. */
  lemma {:induction false} RunClean(
    crypto: P.Crypto, play: set<P.Post>, w: World, turns: seq<Turn>, end: World, h: Hash)
    requires Sound(crypto, w) && Played(crypto, play, w) && PostsIn(turns) <= play
    requires Clean(w, h) && Erased(crypto, play, w, h)
    requires Leads(crypto, w, turns, end) && Unclashed(crypto, w, turns, h)
    ensures Clean(end, h) && Erased(crypto, play, end, h)
    decreases |turns|
  {
    hide Orderly, Paid, Played, PostsOf, Clean, Erased, Step, Enabled, Clash;
    if turns != [] {
      StepSound(crypto, w, turns[0]);
      StepPlayed(crypto, play, w, turns[0]);
      StepClean(crypto, w, turns[0], h);
      StepErased(crypto, play, w, turns[0], h);
      RunClean(crypto, play, Step(crypto, w, turns[0]), turns[1..], end, h);
    }
  }

  lemma StartSound(crypto: P.Crypto)
    ensures Sound(crypto, START)
  {
  }

  lemma NothingYet(crypto: P.Crypto, play: set<P.Post>, h: Hash)
    ensures Clean(START, h) && Played(crypto, play, START) && Erased(crypto, play, START, h)
  {
    forall q: Place ensures !At(START.store, q, h) {
    }
  }

  /** However tasks interleave, a hash is inserted from post responses at most as often as it was requested. */
  lemma InsertsWithinRequests(crypto: P.Crypto, turns: seq<Turn>, end: World, h: Hash)
    requires Leads(crypto, START, turns, end)
    ensures end.stored[h] <= end.admitted[h] <= end.marked[h]
  {
    hide Leads, Step;
    StartSound(crypto);
    RunSound(crypto, START, turns, end);
    assert Paid(end, h);
  }

  /**
   * Once a hash is barred, it stays barred, and no step of a post response brings it to any index again.
   */
  lemma NeverPutBack(
    crypto: P.Crypto, turns: seq<Turn>, w: World, more: seq<Turn>, end: World, id: nat, q: Place, h: Hash)
    requires Leads(crypto, START, turns, w) && h in w.deleted && Leads(crypto, w, more, end)
    requires Enabled(end, Advance(id)) && !end.tasks[id].Deleting? && !end.tasks[id].Publishing?
    requires At(Step(crypto, end, Advance(id)).store, q, h)
    ensures h in end.deleted && At(end.store, q, h)
  {
    hide Leads, At, P.HashOf, P.Decode, P.Verify, LocalAdding, Removing, InsertOps, Want, Found, Apply, AddsIn;
    hide Clean, Erased, Paid, Shape;
    StartSound(crypto);
    RunSound(crypto, START, turns, w);
    RunSound(crypto, w, more, end);
    if Working(end, id) {
      var ops := OpsAt(end, id);
      HeadAdds(ops, h);
      if AddsIn(ops, h) {
        Adders(crypto, end, id, h);
      }
      if Found(end.store, ops[0]).Some? {
        ApplyAt(end.store, ops[0], q, h);
      }
    }
  }

  /**
   * Once a deletion of an own post has completed, that post is in no index, whatever responses and delete posts
   * come along, unless a turn of the run clashes over it.
   */
  lemma DeletedIsGone(crypto: P.Crypto, turns: seq<Turn>, end: World, author: Hash, q: Place, h: Hash)
    requires Leads(crypto, START, turns, end) && Unclashed(crypto, START, turns, h)
    requires (author, h) in end.completed && OwnHash(crypto, PostsIn(turns), author, h)
    ensures !At(end.store, q, h)
  {
    hide Leads, Unclashed, Step, AddsIn, OwnHash, At, Orderly, PostsIn, Played;
    StartSound(crypto);
    NothingYet(crypto, PostsIn(turns), h);
    RunClean(crypto, PostsIn(turns), START, turns, end, h);
    if At(end.store, q, h) {
      var id :| Solid(OpsAt(end, id), h);
      SolidAdds(OpsAt(end, id), h);
    }
  }

  lemma SolidAdds(ops: seq<Op>, h: Hash)
    requires Solid(ops, h)
    ensures AddsIn(ops, h)
  {
    var i :| 0 <= i < |ops| && ops[i].StorePayload? && ops[i].hash == h;
    assert Adds(ops[i], h);
  }
}
