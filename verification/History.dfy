/**
 * The simple history behind the store: posts put and hashes dropped, in order, and what an index is
 * expected to hold after them. Nothing here mentions an index.
 */
module History {
  import opened Wire
  import opened Posts

  datatype Event = Put(post: Post, hash: Hash) | Drop(hash: Hash)

  /** What a kind of index keeps of a post, if anything. */
  type Select<!V> = (Post, Hash) -> Option<V>

  /** A place for one entry: a matching post takes it, dropping the entry's hash frees it. */
  ghost function Slot<V>(ev: seq<Event>, f: Select<V>): Option<(V, Hash)> {
    if ev == [] then None
    else
      var before := Slot(ev[..|ev| - 1], f);
      match ev[|ev| - 1]
      case Put(p: Post, h: Hash) => if f(p, h).Some? then Some((f(p, h).value, h)) else before
      case Drop(h) => if before.Some? && before.value.1 == h then None else before
  }

  /** The entries of all matching posts whose hash has not been dropped since, oldest first. */
  ghost function Log<V>(ev: seq<Event>, f: Select<V>): seq<(V, Hash)> {
    if ev == [] then []
    else
      var before := Log(ev[..|ev| - 1], f);
      match ev[|ev| - 1]
      case Put(p: Post, h: Hash) => if f(p, h).Some? then before + [(f(p, h).value, h)] else before
      case Drop(h) => Without(before, h)
  }

  function Without<V>(es: seq<(V, Hash)>, h: Hash): seq<(V, Hash)> {
    if es == [] then []
    else
      var before := Without(es[..|es| - 1], h);
      if es[|es| - 1].1 == h then before else before + [es[|es| - 1]]
  }

  /** What is left keeps its order and every repetition. */
  lemma {:induction false} WithoutInOrder<V>(a: seq<(V, Hash)>, b: seq<(V, Hash)>, h: Hash)
    ensures Without(a + b, h) == Without(a, h) + Without(b, h)
    decreases |b|
  {
    if b == [] {
      assert a + b == a;
    } else {
      WithoutInOrder(a, b[..|b| - 1], h);
      assert (a + b)[..|a + b| - 1] == a + b[..|b| - 1];
    }
  }

  lemma WithoutOne<V>(x: (V, Hash), h: Hash)
    ensures Without([x], h) == if x.1 == h then [] else [x]
  {
    assert Without([x][..0], h) == [];
  }

  /** The latest matching post, dropped or not. */
  ghost function Latest<V>(ev: seq<Event>, f: Select<V>): Option<V> {
    if ev == [] then None
    else
      match ev[|ev| - 1]
      case Put(p: Post, h: Hash) => if f(p, h).Some? then f(p, h) else Latest(ev[..|ev| - 1], f)
      case Drop(_) => Latest(ev[..|ev| - 1], f)
  }

  lemma SlotPut<V>(ev: seq<Event>, p: Post, h: Hash, f: Select<V>)
    ensures Slot(ev + [Put(p, h)], f) ==
            if f(p, h).Some? then Some((f(p, h).value, h)) else Slot(ev, f)
  {
    assert (ev + [Put(p, h)])[..|ev|] == ev;
  }

  lemma SlotDrop<V>(ev: seq<Event>, h: Hash, f: Select<V>)
    ensures Slot(ev + [Drop(h)], f) ==
            if Slot(ev, f).Some? && Slot(ev, f).value.1 == h then None else Slot(ev, f)
  {
    assert (ev + [Drop(h)])[..|ev|] == ev;
  }

  lemma LogPut<V>(ev: seq<Event>, p: Post, h: Hash, f: Select<V>)
    ensures Log(ev + [Put(p, h)], f) ==
            if f(p, h).Some? then Log(ev, f) + [(f(p, h).value, h)] else Log(ev, f)
  {
    assert (ev + [Put(p, h)])[..|ev|] == ev;
  }

  lemma LogDrop<V>(ev: seq<Event>, h: Hash, f: Select<V>)
    ensures Log(ev + [Drop(h)], f) == Without(Log(ev, f), h)
  {
    assert (ev + [Drop(h)])[..|ev|] == ev;
  }

  lemma LatestPut<V>(ev: seq<Event>, p: Post, h: Hash, f: Select<V>)
    ensures Latest(ev + [Put(p, h)], f) == if f(p, h).Some? then f(p, h) else Latest(ev, f)
  {
    assert (ev + [Put(p, h)])[..|ev|] == ev;
  }

  lemma LatestDrop<V>(ev: seq<Event>, h: Hash, f: Select<V>)
    ensures Latest(ev + [Drop(h)], f) == Latest(ev, f)
  {
    assert (ev + [Drop(h)])[..|ev|] == ev;
  }

  // The kinds of index.

  function PayloadOf(key: Hash): Select<Post> {
    (p: Post, h: Hash) => if h == key then Some(p) else None
  }

  /** Text and topic posts belong to their channel, info posts to none. */
  predicate BelongsTo(p: Post, key: Option<Text>) {
    match key
    case Some(c) => (p.body.TextPost? || p.body.Topic?) && p.body.channel == c
    case None => p.body.Info?
  }

  function IndexedAt(key: Option<Text>, t: U64): Select<Post> {
    (p: Post, h: Hash) => if BelongsTo(p, key) && p.header.timestamp == t then Some(p) else None
  }

  function PostIn(key: Option<Text>): Select<Post> {
    (p: Post, h: Hash) => if BelongsTo(p, key) then Some(p) else None
  }

  /** The text and topic posts of a channel with a time in [start, end), 0 meaning no bound. */
  function PostWithin(c: Text, start: U64, end: U64): Select<Post> {
    (p: Post, h: Hash) =>
      if (p.body.TextPost? || p.body.Topic?) && p.body.channel == c
         && (start == 0 || start <= p.header.timestamp) && (end == 0 || p.header.timestamp < end)
      then Some(p) else None
  }

  /** The part of a timed selection at one time. */
  function AtTime<V>(g: Select<(U64, V)>, t: U64): Select<V> {
    (p: Post, h: Hash) => if g(p, h).Some? && g(p, h).value.0 == t then Some(g(p, h).value.1) else None
  }

  function TopicsOf(c: Text): Select<(U64, Text)> {
    (p: Post, h: Hash) =>
      if p.body.Topic? && p.body.channel == c then Some((p.header.timestamp, p.body.topic)) else None
  }

  function NamesOf(author: Hash): Select<(U64, Text)> {
    (p: Post, h: Hash) =>
      if p.body.Info? && p.header.publicKey == author && NameIn(p.body.info).Some?
      then Some((p.header.timestamp, NameIn(p.body.info).value)) else None
  }

  function TopicAt(c: Text, t: U64): Select<Text> {
    AtTime(TopicsOf(c), t)
  }

  function NameAt(author: Hash, t: U64): Select<Text> {
    AtTime(NamesOf(author), t)
  }

  /** The last name an info post sets. */
  function NameIn(info: seq<UserInfo>): Option<Text> {
    if info == [] then None
    else if info[|info| - 1].key == NAME then Some(info[|info| - 1].val)
    else NameIn(info[..|info| - 1])
  }

  function InfoBy(author: Hash): Select<()> {
    (p: Post, h: Hash) => if p.body.Info? && p.header.publicKey == author then Some(()) else None
  }

  /** Joins and leaves of one key in one channel: `true` for a join. */
  function MoveOf(c: Text, author: Hash): Select<bool> {
    (p: Post, h: Hash) =>
      if p.body.Join? && p.body.channel == c && p.header.publicKey == author then Some(true)
      else if p.body.Leave? && p.body.channel == c && p.header.publicKey == author then Some(false)
      else None
  }

  // The events of an insertion.

  ghost predicate Readable(p: Post) {
    Decode(Encode(p)).Ok?
  }

  /**
   * Deleting `hashes` on behalf of `author`: a listed hash is dropped when the post last put under it is
   * still there and is by the same author. Deleting stops at a post that cannot be decoded.
   */
  ghost function DeleteEvents(ev: seq<Event>, author: Hash, hashes: seq<Hash>): (seq<Event>, bool)
    decreases |hashes|
  {
    if hashes == [] then ([], true)
    else
      var stored := Slot(ev, PayloadOf(hashes[0]));
      if stored.None? then DeleteEvents(ev, author, hashes[1..])
      else if !Readable(stored.value.0) then ([], false)
      else if stored.value.0.header.publicKey != author then DeleteEvents(ev, author, hashes[1..])
      else
        var (later, ok) := DeleteEvents(ev + [Drop(hashes[0])], author, hashes[1..]);
        ([Drop(hashes[0])] + later, ok)
  }

  ghost function InsertEvents(crypto: Crypto, ev: seq<Event>, p: Post): seq<Event> {
    match p.body
    case UnrecognizedPost(_) => []
    case Delete(hs) =>
      var (drops, ok) := DeleteEvents(ev, p.header.publicKey, hs);
      if ok then drops + [Put(p, HashOf(crypto, p))] else drops
    case _ => [Put(p, HashOf(crypto, p))]
  }

  /** The whole history of a run that inserts `ps` in order. */
  ghost function Trace(crypto: Crypto, ps: seq<Post>): seq<Event> {
    if ps == [] then []
    else
      var before := Trace(crypto, ps[..|ps| - 1]);
      before + InsertEvents(crypto, before, ps[|ps| - 1])
  }

  // Sorting by time.

  type Entry = (Post, Hash)

  function OfTime(es: seq<Entry>, t: U64): seq<Entry> {
    if es == [] then []
    else
      var before := OfTime(es[..|es| - 1], t);
      if es[|es| - 1].0.header.timestamp == t then before + [es[|es| - 1]] else before
  }

  /** Insertion behind all entries that are not later. */
  function InsertByTime(es: seq<Entry>, e: Entry): seq<Entry> {
    if es == [] || es[|es| - 1].0.header.timestamp <= e.0.header.timestamp then es + [e]
    else InsertByTime(es[..|es| - 1], e) + [es[|es| - 1]]
  }

  function StableSort(es: seq<Entry>): seq<Entry> {
    if es == [] then [] else InsertByTime(StableSort(es[..|es| - 1]), es[|es| - 1])
  }

  ghost predicate Sorted(es: seq<Entry>) {
    forall i, j | 0 <= i < j < |es| :: es[i].0.header.timestamp <= es[j].0.header.timestamp
  }

  lemma OfTimePush(es: seq<Entry>, e: Entry, t: U64)
    ensures OfTime(es + [e], t) == if e.0.header.timestamp == t then OfTime(es, t) + [e] else OfTime(es, t)
  {
    assert (es + [e])[..|es|] == es;
  }

  lemma {:induction false} OfTimeAppend(a: seq<Entry>, b: seq<Entry>, t: U64)
    ensures OfTime(a + b, t) == OfTime(a, t) + OfTime(b, t)
  {
    if b == [] {
      assert a + b == a;
    } else {
      var b0, e := b[..|b| - 1], b[|b| - 1];
      assert a + b == (a + b0) + [e];
      OfTimePush(a + b0, e, t);
      OfTimeAppend(a, b0, t);
    }
  }

  lemma {:induction false} OfTimeOne(e: Entry, t: U64)
    ensures OfTime([e], t) == if e.0.header.timestamp == t then [e] else []
  {
    assert [e] == [] + [e];
    OfTimePush([], e, t);
  }

  lemma {:induction false} InsertKeepsTimes(es: seq<Entry>, e: Entry, t: U64)
    ensures OfTime(InsertByTime(es, e), t) ==
            if e.0.header.timestamp == t then OfTime(es, t) + [e] else OfTime(es, t)
  {
    hide OfTime;
    if es == [] || es[|es| - 1].0.header.timestamp <= e.0.header.timestamp {
      OfTimePush(es, e, t);
    } else {
      var es0, last := es[..|es| - 1], es[|es| - 1];
      assert es == es0 + [last];
      InsertKeepsTimes(es0, e, t);
      OfTimePush(InsertByTime(es0, e), last, t);
      OfTimePush(es0, last, t);
    }
  }

  lemma {:induction false} InsertSorts(es: seq<Entry>, e: Entry)
    requires Sorted(es)
    ensures Sorted(InsertByTime(es, e))
    ensures forall x | x in InsertByTime(es, e) :: x == e || x in es
  {
    if es == [] || es[|es| - 1].0.header.timestamp <= e.0.header.timestamp {
    } else {
      var es0, last := es[..|es| - 1], es[|es| - 1];
      InsertSorts(es0, e);
      var r := InsertByTime(es0, e);
      forall i | 0 <= i < |r| ensures r[i].0.header.timestamp <= last.0.header.timestamp {
        assert r[i] in r;
        if r[i] != e {
          var k :| 0 <= k < |es0| && es0[k] == r[i];
          assert es[k] == r[i];
        }
      }
    }
  }

  lemma EmptySorted(t: U64)
    ensures Sorted([]) && OfTime([], t) == []
  {
  }

  /** The reference sort is sorted and keeps the order of entries of the same time. */
  lemma {:induction false} StableSortMeaning(es: seq<Entry>, t: U64)
    ensures Sorted(StableSort(es)) && OfTime(StableSort(es), t) == OfTime(es, t)
  {
    hide OfTime, InsertByTime, Sorted;
    if es == [] {
      EmptySorted(t);
    } else {
      var es0, e := es[..|es| - 1], es[|es| - 1];
      StableSortMeaning(es0, t);
      InsertSorts(StableSort(es0), e);
      InsertKeepsTimes(StableSort(es0), e, t);
      assert es == es0 + [e];
      OfTimePush(es0, e, t);
    }
  }

  lemma {:induction false} OfTimeIn(es: seq<Entry>, i: nat)
    requires i < |es|
    ensures es[i] in OfTime(es, es[i].0.header.timestamp)
  {
    var n := |es| - 1;
    if i < n {
      OfTimeIn(es[..n], i);
    }
  }

  lemma {:induction false} OfTimeFrom(es: seq<Entry>, t: U64)
    ensures forall x | x in OfTime(es, t) :: x in es && x.0.header.timestamp == t
  {
    if es != [] {
      OfTimeFrom(es[..|es| - 1], t);
    }
  }

  /** Sorting loses nothing. */
  lemma SortKeeps(es: seq<Entry>, e: Entry)
    requires e in es
    ensures e in StableSort(es)
  {
    hide OfTime, StableSort, Sorted;
    var i :| 0 <= i < |es| && es[i] == e;
    var t := e.0.header.timestamp;
    OfTimeIn(es, i);
    StableSortMeaning(es, t);
    OfTimeFrom(StableSort(es), t);
  }

  lemma FirstOfTime(es: seq<Entry>)
    requires es != []
    ensures OfTime(es, es[0].0.header.timestamp) == [es[0]] + OfTime(es[1..], es[0].0.header.timestamp)
    ensures forall t: U64 | t != es[0].0.header.timestamp :: OfTime(es, t) == OfTime(es[1..], t)
  {
    assert es == [es[0]] + es[1..];
    forall t: U64
      ensures OfTime(es, t) == OfTime([es[0]], t) + OfTime(es[1..], t)
    {
      OfTimeAppend([es[0]], es[1..], t);
    }
    forall t: U64
      ensures OfTime([es[0]], t) == if es[0].0.header.timestamp == t then [es[0]] else []
    {
      OfTimeOne(es[0], t);
    }
    assert forall t: U64 | t != es[0].0.header.timestamp :: [] + OfTime(es[1..], t) == OfTime(es[1..], t);
  }

  lemma SortedFirst(a: seq<Entry>, b: seq<Entry>)
    requires Sorted(a) && Sorted(b) && a != [] && (forall t: U64 :: OfTime(a, t) == OfTime(b, t))
    ensures b != [] && b[0].0.header.timestamp <= a[0].0.header.timestamp
  {
    OfTimeIn(a, 0);
    var t := a[0].0.header.timestamp;
    OfTimeFrom(b, t);
    assert a[0] in OfTime(b, t);
    assert a[0] in b;
  }

  /** A sorted list is determined by its entries of each time: the stable sort is unique. */
  lemma {:induction false} SortedUnique(a: seq<Entry>, b: seq<Entry>)
    requires Sorted(a) && Sorted(b) && (forall t: U64 :: OfTime(a, t) == OfTime(b, t))
    ensures a == b
    decreases |a| + |b|
  {
    hide OfTime;
    if a != [] {
      SortedFirst(a, b);
      SortedFirst(b, a);
      FirstOfTime(a);
      FirstOfTime(b);
      var t0 := a[0].0.header.timestamp;
      assert OfTime(a, t0)[0] == a[0] && OfTime(b, t0)[0] == b[0];
      assert OfTime(a, t0)[1..] == OfTime(a[1..], t0) && OfTime(b, t0)[1..] == OfTime(b[1..], t0);
      SortedUnique(a[1..], b[1..]);
      assert a == [a[0]] + a[1..] && b == [b[0]] + b[1..];
    } else if b != [] {
      SortedFirst(b, a);
    }
  }

  // Selections by time.

  /** Two matching posts of the same time are the same post. */
  ghost predicate DistinctTimes<V>(ev: seq<Event>, g: Select<(U64, V)>) {
    forall i, j | 0 <= i < |ev| && 0 <= j < |ev| && Timed(ev[i], g).Some? && Timed(ev[i], g) == Timed(ev[j], g) ::
      ev[i] == ev[j]
  }

  ghost function Timed<V>(e: Event, g: Select<(U64, V)>): Option<U64> {
    if e.Put? && g(e.post, e.hash).Some? then Some(g(e.post, e.hash).value.0) else None
  }

  lemma {:induction false} WithoutIn<V>(es: seq<(V, Hash)>, h: Hash, x: (V, Hash))
    ensures x in Without(es, h) <==> x in es && x.1 != h
  {
    if es != [] {
      WithoutIn(es[..|es| - 1], h, x);
      assert es == es[..|es| - 1] + [es[|es| - 1]];
    }
  }

  /** Every entry of a log comes from a post put. */
  lemma {:induction false} LogFromPut<V>(ev: seq<Event>, f: Select<V>, x: (V, Hash))
    requires x in Log(ev, f)
    ensures exists i :: 0 <= i < |ev| && ev[i].Put? && ev[i].hash == x.1 && f(ev[i].post, x.1) == Some(x.0)
  {
    var n := |ev| - 1;
    var before := Log(ev[..n], f);
    if ev[n].Drop? {
      WithoutIn(before, ev[n].hash, x);
    }
    if x in before {
      LogFromPut(ev[..n], f, x);
      var i :| 0 <= i < n && ev[..n][i].Put? && ev[..n][i].hash == x.1 && f(ev[..n][i].post, x.1) == Some(x.0);
      assert ev[i] == ev[..n][i];
    } else {
      assert ev[n].Put?;
    }
  }

  /** With distinct times, the place of each time holds exactly the undeleted post of that time. */
  lemma {:induction false} SlotIsLog<V>(ev: seq<Event>, g: Select<(U64, V)>, t: U64, v: V, h: Hash)
    requires DistinctTimes(ev, g)
    ensures Slot(ev, AtTime(g, t)) == Some((v, h)) <==> ((t, v), h) in Log(ev, g)
  {
    if ev != [] {
      var n := |ev| - 1;
      var before, log := Slot(ev[..n], AtTime(g, t)), Log(ev[..n], g);
      assert DistinctTimes(ev[..n], g) by { DistinctPrefix(ev, g); }
      SlotIsLog(ev[..n], g, t, v, h);
      match ev[n] {
        case Drop(k) => WithoutIn(log, k, ((t, v), h));
        case Put(p, k) =>
          if ((t, v), h) in log && Timed(ev[n], g) == Some(t) {
            LogFromPut(ev[..n], g, ((t, v), h));
            var i :| 0 <= i < n && ev[..n][i].Put? && ev[..n][i].hash == h && g(ev[..n][i].post, h) == Some((t, v));
            assert Timed(ev[i], g) == Timed(ev[n], g);
          }
      }
    }
  }

  /** Event `i` puts `v` under `h`, nothing matching is put after it, and `h` is not dropped after it. */
  ghost predicate Stands<V>(ev: seq<Event>, f: Select<V>, i: nat, v: V, h: Hash)
    requires i < |ev|
  {
    && ev[i].Put? && ev[i].hash == h && f(ev[i].post, h) == Some(v)
    && forall j | i < j < |ev| ::
         if ev[j].Put? then f(ev[j].post, ev[j].hash).None? else ev[j].hash != h
  }

  /** A slot holds the last matching post put, if that one has not been dropped since. */
  lemma {:induction false} SlotMeaning<V>(ev: seq<Event>, f: Select<V>, v: V, h: Hash)
    ensures Slot(ev, f) == Some((v, h)) <==> exists i :: 0 <= i < |ev| && Stands(ev, f, i, v, h)
  {
    if ev != [] {
      var n := |ev| - 1;
      var before := ev[..n];
      SlotMeaning(before, f, v, h);
      if Slot(ev, f) == Some((v, h)) {
        if Slot(before, f) == Some((v, h)) && !(ev[n].Put? && f(ev[n].post, ev[n].hash).Some?) {
          var i :| 0 <= i < n && Stands(before, f, i, v, h);
          assert ev[i] == before[i] && forall j | i < j < n :: ev[j] == before[j];
          assert Stands(ev, f, i, v, h);
        } else {
          assert Stands(ev, f, n, v, h);
        }
      }
      if i :| 0 <= i < |ev| && Stands(ev, f, i, v, h) {
        if i < n {
          assert before[i] == ev[i] && forall j | i < j < n :: before[j] == ev[j];
          assert Stands(before, f, i, v, h);
        }
      }
    }
  }

  /** What a place of some time holds is undeleted. */
  lemma {:induction false} SlotInLog<V>(ev: seq<Event>, g: Select<(U64, V)>, t: U64, v: V, h: Hash)
    requires Slot(ev, AtTime(g, t)) == Some((v, h))
    ensures ((t, v), h) in Log(ev, g)
  {
    var n := |ev| - 1;
    var before := Log(ev[..n], g);
    match ev[n]
    case Put(p, k) =>
      if AtTime(g, t)(p, k).None? {
        SlotInLog(ev[..n], g, t, v, h);
      }
    case Drop(k) =>
      SlotInLog(ev[..n], g, t, v, h);
      WithoutIn(before, k, ((t, v), h));
  }

  lemma DistinctPrefix<V>(ev: seq<Event>, g: Select<(U64, V)>)
    requires DistinctTimes(ev, g) && ev != []
    ensures DistinctTimes(ev[..|ev| - 1], g)
  {
    var e := ev[..|ev| - 1];
    forall i, j | 0 <= i < |e| && 0 <= j < |e| && Timed(e[i], g).Some? && Timed(e[i], g) == Timed(e[j], g)
      ensures e[i] == e[j]
    {
      assert e[i] == ev[i] && e[j] == ev[j];
    }
  }

  // Logs by time.

  lemma {:induction false} OfTimeWithout(es: seq<Entry>, h: Hash, t: U64)
    ensures OfTime(Without(es, h), t) == Without(OfTime(es, t), h)
  {
    if es != [] {
      var es0, e := es[..|es| - 1], es[|es| - 1];
      OfTimeWithout(es0, h, t);
      OfTimePush(Without(es0, h), e, t);
      assert (OfTime(es0, t) + [e])[..|OfTime(es0, t)|] == OfTime(es0, t);
    }
  }

  /** The undeleted posts of one time, out of the undeleted posts of a range. */
  lemma {:induction false} LogOfTime(ev: seq<Event>, c: Text, start: U64, end: U64, t: U64)
    ensures OfTime(Log(ev, PostWithin(c, start, end)), t) ==
            if (start == 0 || start <= t) && (end == 0 || t < end) then Log(ev, IndexedAt(Some(c), t)) else []
  {
    if ev != [] {
      var n := |ev| - 1;
      LogOfTime(ev[..n], c, start, end, t);
      var before := Log(ev[..n], PostWithin(c, start, end));
      match ev[n] {
        case Put(p, h) => OfTimePush(before, (p, h), t);
        case Drop(h) =>
          OfTimeWithout(before, h, t);
          assert Without<Post>([], h) == [];
      }
    }
  }

  // What is still indexed still has a payload.

  /** An entry of any index belongs to a post whose payload is kept. */
  lemma {:induction false} SlotHasPayload<V>(ev: seq<Event>, f: Select<V>)
    requires Slot(ev, f).Some?
    ensures Slot(ev, PayloadOf(Slot(ev, f).value.1)).Some?
  {
    var n := |ev| - 1;
    var before := Slot(ev[..n], f);
    if before.Some? {
      SlotHasPayload(ev[..n], f);
      PayloadKey(ev[..n], before.value.1);
    }
  }

  lemma {:induction false} PayloadKey(ev: seq<Event>, k: Hash)
    ensures var slot := Slot(ev, PayloadOf(k));
            slot.Some? ==> slot.value.1 == k && Put(slot.value.0, k) in ev
  {
    if ev != [] {
      PayloadKey(ev[..|ev| - 1], k);
    }
  }

  lemma {:induction false} LogHasPayload<V>(ev: seq<Event>, f: Select<V>, x: (V, Hash))
    requires x in Log(ev, f)
    ensures Slot(ev, PayloadOf(x.1)).Some?
  {
    var n := |ev| - 1;
    var before := Log(ev[..n], f);
    if ev[n].Drop? {
      WithoutIn(before, ev[n].hash, x);
    }
    if x in before {
      LogHasPayload(ev[..n], f, x);
      PayloadKey(ev[..n], x.1);
    }
  }
}
