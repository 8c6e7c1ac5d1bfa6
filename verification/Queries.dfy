/** The store's queries, and what they return after any run (cable_core/src/store.rs). */
module Queries {
  import opened Wire
  import opened Posts
  import opened History
  import opened Store

  // The keys of a BTreeMap, in order.

  predicate IsLeast(ks: set<U64>, k: U64) {
    k in ks && forall x | x in ks :: k <= x
  }

  lemma {:induction false} MinExists(ks: set<U64>)
    requires ks != {}
    ensures exists k :: IsLeast(ks, k)
  {
    var k :| k in ks;
    var rest := ks - {k};
    if rest == {} {
      assert ks == {k};
      assert IsLeast(ks, k);
    } else {
      MinExists(rest);
      var m :| IsLeast(rest, m);
      assert forall x | x in ks :: x == k || x in rest;
      assert IsLeast(ks, if k <= m then k else m);
    }
  }

  ghost predicate Ascending(r: seq<U64>) {
    forall i, j | 0 <= i < j < |r| :: r[i] < r[j]
  }

  function FirstKey(ks: set<U64>): (k: U64)
    requires ks != {}
    ensures k in ks && forall x | x in ks :: k <= x
  {
    MinExists(ks);
    var k :| k in ks && IsLeast(ks, k);
    k
  }

  function SortedKeys(ks: set<U64>): (r: seq<U64>)
    ensures forall k :: k in r <==> k in ks
    ensures Ascending(r)
    decreases ks
  {
    if ks == {} then []
    else
      var k := FirstKey(ks);
      var rest := SortedKeys(ks - {k});
      assert forall i | 0 <= i < |rest| :: rest[i] in rest;
      [k] + rest
  }

  predicate IsMost(ks: set<U64>, k: U64) {
    k in ks && forall x | x in ks :: x <= k
  }

  lemma {:induction false} MaxExists(ks: set<U64>)
    requires ks != {}
    ensures exists k :: IsMost(ks, k)
  {
    var k :| k in ks;
    var rest := ks - {k};
    if rest == {} {
      assert ks == {k};
      assert IsMost(ks, k);
    } else {
      MaxExists(rest);
      var m :| IsMost(rest, m);
      assert forall x | x in ks :: x == k || x in rest;
      assert IsMost(ks, if m <= k then k else m);
    }
  }

  /** `last_key_value` */
  function LastKey(ks: set<U64>): (k: U64)
    requires ks != {}
    ensures k in ks && forall x | x in ks :: x <= k
  {
    MaxExists(ks);
    var k :| k in ks && IsMost(ks, k);
    k
  }

  // Posts of a channel by time.

  function Flatten(m: TimeMap<seq<Entry>>, ks: seq<U64>): seq<Entry>
    requires forall k | k in ks :: k in m
  {
    if ks == [] then [] else m[ks[0]] + Flatten(m, ks[1..])
  }

  function Hashes(es: seq<Entry>): seq<Hash> {
    seq(|es|, i requires 0 <= i < |es| => es[i].1)
  }

  predicate InRange(t: U64, start: U64, end: U64) {
    (start == 0 || start <= t) && (end == 0 || t < end)
  }

  /** `get_post_hashes`: `range` panics on an inverted range, and is called only for a known channel. */
  function GetPostHashes(s: Store, c: Text, start: U64, end: U64): Result<seq<Hash>> {
    if Some(c) !in s.posts then Ok([])
    else if start != 0 && end != 0 && start > end then Err(Panic)
    else
      var m := s.posts[Some(c)];
      Ok(Hashes(Flatten(m, SortedKeys(set t | t in m.Keys && InRange(t, start, end)))))
  }

  ghost predicate Keyed(m: TimeMap<seq<Entry>>, ks: seq<U64>) {
    forall k, e | k in ks && k in m && e in m[k] :: e.0.header.timestamp == k
  }

  lemma {:induction false} AllOfTime(es: seq<Entry>, k: U64, t: U64)
    requires forall e | e in es :: e.0.header.timestamp == k
    ensures OfTime(es, t) == if t == k then es else []
  {
    if es != [] {
      var es0, e := es[..|es| - 1], es[|es| - 1];
      assert es == es0 + [e] && e in es;
      AllOfTime(es0, k, t);
    }
  }

  lemma {:induction false} FlattenTimes(m: TimeMap<seq<Entry>>, ks: seq<U64>, t: U64)
    requires forall k | k in ks :: k in m
    requires Keyed(m, ks) && Ascending(ks)
    ensures OfTime(Flatten(m, ks), t) == if t in ks then m[t] else []
  {
    if ks != [] {
      var first, rest := m[ks[0]], Flatten(m, ks[1..]);
      OfTimeAppend(first, rest, t);
      AllOfTime(first, ks[0], t);
      FlattenTimes(m, ks[1..], t);
      if t in ks[1..] {
        assert t != ks[0];
        assert [] + m[t] == m[t];
      } else {
        assert OfTime(first, t) + [] == OfTime(first, t);
      }
    }
  }

  lemma {:induction false} FlattenSorted(m: TimeMap<seq<Entry>>, ks: seq<U64>)
    requires forall k | k in ks :: k in m
    requires Keyed(m, ks) && Ascending(ks)
    ensures Sorted(Flatten(m, ks))
    ensures forall e | e in Flatten(m, ks) :: e.0.header.timestamp in ks
  {
    if ks != [] {
      FlattenSorted(m, ks[1..]);
      var first, rest := m[ks[0]], Flatten(m, ks[1..]);
      var all: seq<Entry> := first + rest;
      forall i, j | 0 <= i < j < |all|
        ensures all[i].0.header.timestamp <= all[j].0.header.timestamp
      {
        if i < |first| {
          assert first[i] in m[ks[0]];
        } else {
          assert all[i] == rest[i - |first|];
        }
        if j < |first| {
          assert first[j] in m[ks[0]];
        } else {
          assert all[j] == rest[j - |first|] && rest[j - |first|] in rest;
        }
      }
    }
  }

  lemma EntriesKeyed(s: Store, ev: seq<Event>, c: Text, ks: seq<U64>)
    requires PostsAgree(s.posts, ev) && Some(c) in s.posts
    ensures Keyed(s.posts[Some(c)], ks)
  {
    hide Log;
    var m := s.posts[Some(c)];
    forall k: U64, e: Entry | k in ks && k in m && e in m[k] ensures e.0.header.timestamp == k {
      assert PostAgrees(s.posts, ev, Some(c), k);
      LogFromPut(ev, IndexedAt(Some(c), k), e);
    }
  }

  lemma EntriesByTime(s: Store, ev: seq<Event>, c: Text, start: U64, end: U64, t: U64)
    requires PostsAgree(s.posts, ev) && Some(c) in s.posts
    ensures var m := s.posts[Some(c)];
            OfTime(Log(ev, PostWithin(c, start, end)), t) ==
            if t in m && InRange(t, start, end) then m[t] else []
  {
    hide Log, OfTime;
    LogOfTime(ev, c, start, end, t);
    assert PostAgrees(s.posts, ev, Some(c), t);
  }

  /** For a store that agrees with a history, a range query is the stable sort of the undeleted posts. */
  lemma PostHashesAgree(s: Store, ev: seq<Event>, c: Text, start: U64, end: U64)
    requires PostsAgree(s.posts, ev) && (start == 0 || end == 0 || start <= end)
    ensures GetPostHashes(s, c, start, end) == Ok(Hashes(StableSort(Log(ev, PostWithin(c, start, end)))))
  {
    hide Log, OfTime, StableSort, Flatten, Sorted, PostsAgree;
    var live := Log(ev, PostWithin(c, start, end));
    if Some(c) in s.posts {
      var m := s.posts[Some(c)];
      var ks := SortedKeys(set t | t in m.Keys && InRange(t, start, end));
      EntriesKeyed(s, ev, c, ks);
      FlattenSorted(m, ks);
      StableSortMeaning(live, 0);
      forall t: U64 ensures OfTime(Flatten(m, ks), t) == OfTime(StableSort(live), t) {
        FlattenTimes(m, ks, t);
        StableSortMeaning(live, t);
        EntriesByTime(s, ev, c, start, end, t);
      }
      SortedUnique(Flatten(m, ks), StableSort(live));
    } else {
      NothingIndexed(s, ev, c, start, end);
      EmptySort();
      assert Hashes([]) == [];
    }
  }

  lemma EmptySort()
    ensures StableSort([]) == []
  {
  }

  lemma NothingIndexed(s: Store, ev: seq<Event>, c: Text, start: U64, end: U64)
    requires PostsAgree(s.posts, ev) && Some(c) !in s.posts
    ensures Log(ev, PostWithin(c, start, end)) == []
  {
    hide Log, Latest;
    var live := Log(ev, PostWithin(c, start, end));
    if live != [] {
      var t := live[0].0.header.timestamp;
      assert PostAgrees(s.posts, ev, Some(c), t);
      LogOfTime(ev, c, start, end, t);
      OfTimeIn(live, 0);
    }
  }

  /**
   * After any run of insertions and deletions, a range query returns the undeleted text and topic posts of
   * the channel in the range, ordered by time and, within a time, by insertion.
   */
  lemma PostHashesRefineHistory(crypto: Crypto, ps: seq<Post>, c: Text, start: U64, end: U64)
    requires start == 0 || end == 0 || start <= end
    ensures GetPostHashes(Run(crypto, ps), c, start, end)
         == Ok(Hashes(StableSort(Log(Trace(crypto, ps), PostWithin(c, start, end)))))
  {
    hide Run, Trace, Log, GetPostHashes, StableSort;
    RunAgrees(crypto, ps);
    PostHashesAgree(Run(crypto, ps), Trace(crypto, ps), c, start, end);
  }

  /** The query fails exactly for an inverted range over a channel that ever held a post. */
  lemma PostHashesFail(crypto: Crypto, ps: seq<Post>, c: Text, start: U64, end: U64)
    ensures GetPostHashes(Run(crypto, ps), c, start, end).Err?
       <==> start != 0 && end != 0 && start > end && Latest(Trace(crypto, ps), PostIn(Some(c))).Some?
  {
    hide Run, Trace, Log, Latest;
    RunAgrees(crypto, ps);
    assert PostAgrees(Run(crypto, ps).posts, Trace(crypto, ps), Some(c), 0);
  }

  /** The cut the time range handler applies: at most 4096 hashes, and 0 for no limit at all. */
  function Limited(hs: seq<Hash>, limit: U64): (r: seq<Hash>)
    ensures IsCut(r, hs, limit)
  {
    var n := Min(limit, 4096);
    if n == 0 then hs else hs[..Min(n, |hs|)]
  }

  /** The first hashes: all of them for limit 0, else as many as the limit, 4096 and their number allow. */
  ghost predicate IsCut(r: seq<Hash>, hs: seq<Hash>, limit: U64) {
    && r <= hs
    && (limit == 0 ==> |r| == |hs|)
    && (0 < limit <= 4096 ==> |r| == if limit <= |hs| then limit else |hs|)
    && (limit > 4096 ==> |r| == if |hs| >= 4096 then 4096 else |hs|)
  }

  /** What a range query, cut, returns after any run. */
  lemma CutRefinesHistory(crypto: Crypto, ps: seq<Post>, c: Text, start: U64, end: U64, limit: U64)
    requires start == 0 || end == 0 || start <= end
    ensures var r := GetPostHashes(Run(crypto, ps), c, start, end);
            && r.Ok?
            && IsCut(Limited(r.value, limit),
                     Hashes(StableSort(Log(Trace(crypto, ps), PostWithin(c, start, end)))), limit)
  {
    hide Run, Trace, Log, GetPostHashes, StableSort, Limited, IsCut;
    PostHashesRefineHistory(crypto, ps, c, start, end);
  }

  // Latest state.

  /** `get_latest_hashes` */
  function GetLatestHashes(s: Store, c: Text): Option<seq<Hash>> {
    if Some(c) in s.posts && s.posts[Some(c)].Keys != {}
    then Some(Hashes(s.posts[Some(c)][LastKey(s.posts[Some(c)].Keys)]))
    else None
  }

  ghost predicate EverAt(ev: seq<Event>, c: Text, t: U64) {
    Latest(ev, IndexedAt(Some(c), t)).Some?
  }

  /** The undeleted hashes at the greatest time ever inserted in the channel, deleted posts included. */
  lemma LatestHashesRefineHistory(crypto: Crypto, ps: seq<Post>, c: Text)
    ensures var ev := Trace(crypto, ps);
            match GetLatestHashes(Run(crypto, ps), c)
            case None => forall t: U64 :: !EverAt(ev, c, t)
            case Some(hs) =>
              exists t: U64 ::
                && EverAt(ev, c, t) && (forall u: U64 | EverAt(ev, c, u) :: u <= t)
                && hs == Hashes(Log(ev, IndexedAt(Some(c), t)))
  {
    hide Run, Trace, Log, Latest;
    RunAgrees(crypto, ps);
    var s, ev := Run(crypto, ps), Trace(crypto, ps);
    forall t: U64 ensures EverAt(ev, c, t) <==> Some(c) in s.posts && t in s.posts[Some(c)] {
      assert PostAgrees(s.posts, ev, Some(c), t);
    }
    if Some(c) in s.posts && s.posts[Some(c)].Keys != {} {
      var t := LastKey(s.posts[Some(c)].Keys);
      assert PostAgrees(s.posts, ev, Some(c), t);
      assert EverAt(ev, c, t);
    }
  }

  /** `get_channel_topic_and_hash` and `get_peer_name_and_hash`: the entry of the greatest time. */
  function LastTimed<K>(m: map<K, TimeMap<(Text, Hash)>>, k: K): Option<(Text, Hash)> {
    if k in m && m[k].Keys != {} then Some(m[k][LastKey(m[k].Keys)]) else None
  }

  function GetTopic(s: Store, c: Text): Option<(Text, Hash)> {
    LastTimed(s.topics, c)
  }

  function GetName(s: Store, author: Hash): Option<(Text, Hash)> {
    LastTimed(s.names, author)
  }

  /** `x` is the undeleted entry of the greatest time. */
  ghost predicate IsNewest(log: seq<((U64, Text), Hash)>, t: U64, x: (Text, Hash)) {
    ((t, x.0), x.1) in log && forall e | e in log :: e.0.0 <= t
  }

  lemma LastTimedNewest<K>(m: map<K, TimeMap<(Text, Hash)>>, k: K, ev: seq<Event>, g: Select<(U64, Text)>)
    requires forall t: U64 :: TimedAt(m, k, t) == Slot(ev, AtTime(g, t))
    requires DistinctTimes(ev, g)
    ensures match LastTimed(m, k)
            case None => Log(ev, g) == []
            case Some(x) => exists t: U64 :: IsNewest(Log(ev, g), t, x)
  {
    hide Slot, Log, DistinctTimes, AtTime;
    var log := Log(ev, g);
    if log != [] {
      assert log[0] in log;
    }
    forall e | e in log ensures TimedAt(m, k, e.0.0) == Some((e.0.1, e.1)) {
      SlotIsLog(ev, g, e.0.0, e.0.1, e.1);
    }
    if LastTimed(m, k).Some? {
      var t, x := LastKey(m[k].Keys), LastTimed(m, k).value;
      assert TimedAt(m, k, t) == Some(x);
      SlotIsLog(ev, g, t, x.0, x.1);
      assert IsNewest(log, t, x);
    }
  }

  /** `x` is what the greatest time that holds anything holds: its last post, if not deleted since. */
  ghost predicate IsLastSlot(ev: seq<Event>, g: Select<(U64, Text)>, t: U64, x: (Text, Hash)) {
    Slot(ev, AtTime(g, t)) == Some(x) && forall u: U64 | Slot(ev, AtTime(g, u)).Some? :: u <= t
  }

  lemma LastTimedSlot<K>(m: map<K, TimeMap<(Text, Hash)>>, k: K, ev: seq<Event>, g: Select<(U64, Text)>)
    requires forall t: U64 :: TimedAt(m, k, t) == Slot(ev, AtTime(g, t))
    ensures match LastTimed(m, k)
            case None => forall t: U64 :: Slot(ev, AtTime(g, t)).None?
            case Some(x) => exists t: U64 :: IsLastSlot(ev, g, t, x)
  {
    hide Slot, AtTime;
    if LastTimed(m, k).Some? {
      var t, x := LastKey(m[k].Keys), LastTimed(m, k).value;
      assert TimedAt(m, k, t) == Some(x);
      forall u: U64 | Slot(ev, AtTime(g, u)).Some? ensures u <= t {
        assert TimedAt(m, k, u).Some?;
      }
      assert IsLastSlot(ev, g, t, x);
    } else {
      forall t: U64 ensures Slot(ev, AtTime(g, t)).None? {
        assert TimedAt(m, k, t).None?;
      }
    }
  }

  /** The topic after any run, times distinct or not. */
  lemma TopicExactly(crypto: Crypto, ps: seq<Post>, c: Text)
    ensures match GetTopic(Run(crypto, ps), c)
            case None => forall t: U64 :: Slot(Trace(crypto, ps), AtTime(TopicsOf(c), t)).None?
            case Some(x) => exists t: U64 :: IsLastSlot(Trace(crypto, ps), TopicsOf(c), t, x)
  {
    hide Run, Trace, Slot, LastTimed, IsLastSlot;
    RunAgrees(crypto, ps);
    LastTimedSlot(Run(crypto, ps).topics, c, Trace(crypto, ps), TopicsOf(c));
  }

  lemma NameExactly(crypto: Crypto, ps: seq<Post>, author: Hash)
    ensures match GetName(Run(crypto, ps), author)
            case None => forall t: U64 :: Slot(Trace(crypto, ps), AtTime(NamesOf(author), t)).None?
            case Some(x) => exists t: U64 :: IsLastSlot(Trace(crypto, ps), NamesOf(author), t, x)
  {
    hide Run, Trace, Slot, LastTimed, IsLastSlot;
    RunAgrees(crypto, ps);
    LastTimedSlot(Run(crypto, ps).names, author, Trace(crypto, ps), NamesOf(author));
  }

  /** The time of the entry that `LastTimed` returns. */
  function LastTime<K>(m: map<K, TimeMap<(Text, Hash)>>, k: K): Option<U64> {
    if k in m && m[k].Keys != {} then Some(LastKey(m[k].Keys)) else None
  }

  /** `t` is the time of the newest undeleted entry. */
  ghost predicate NewestTime(log: seq<((U64, Text), Hash)>, t: U64) {
    (exists e :: e in log && e.0.0 == t) && forall e | e in log :: e.0.0 <= t
  }

  /** The query returns the newest undeleted entry, one of time `t`. */
  ghost predicate ReturnsNewest<K>(m: map<K, TimeMap<(Text, Hash)>>, k: K, log: seq<((U64, Text), Hash)>, t: U64) {
    LastTime(m, k) == Some(t) && IsNewest(log, t, LastTimed(m, k).value)
  }

  lemma LastTimedExactly<K>(m: map<K, TimeMap<(Text, Hash)>>, k: K, ev: seq<Event>, g: Select<(U64, Text)>, t: U64)
    requires forall t: U64 :: TimedAt(m, k, t) == Slot(ev, AtTime(g, t))
    requires NewestTime(Log(ev, g), t)
    ensures ReturnsNewest(m, k, Log(ev, g), t) <==> Slot(ev, AtTime(g, t)).Some?
    ensures LastTime(m, k).Some? ==> LastTime(m, k).value <= t
  {
    hide Slot, Log, AtTime;
    if LastTime(m, k).Some? {
      var u := LastTime(m, k).value;
      assert TimedAt(m, k, u) == Some(m[k][u]);
      SlotInLog(ev, g, u, m[k][u].0, m[k][u].1);
    }
    if Slot(ev, AtTime(g, t)).Some? {
      assert TimedAt(m, k, t).Some?;
    }
  }

  /**
   * With `t` the time of the newest undeleted topic post, the query returns an undeleted topic post of that time
   * if and only if the last one put at that time is undeleted; otherwise it returns an older one or none.
   */
  lemma TopicIffLastUndeleted(crypto: Crypto, ps: seq<Post>, c: Text, t: U64)
    requires NewestTime(Log(Trace(crypto, ps), TopicsOf(c)), t)
    ensures ReturnsNewest(Run(crypto, ps).topics, c, Log(Trace(crypto, ps), TopicsOf(c)), t) <==>
            Slot(Trace(crypto, ps), AtTime(TopicsOf(c), t)).Some?
    ensures var last := LastTime(Run(crypto, ps).topics, c); last.Some? ==> last.value <= t
  {
    hide Run, Trace, Log, Slot, LastTime, NewestTime, ReturnsNewest;
    RunAgrees(crypto, ps);
    LastTimedExactly(Run(crypto, ps).topics, c, Trace(crypto, ps), TopicsOf(c), t);
  }

  lemma NameIffLastUndeleted(crypto: Crypto, ps: seq<Post>, author: Hash, t: U64)
    requires NewestTime(Log(Trace(crypto, ps), NamesOf(author)), t)
    ensures ReturnsNewest(Run(crypto, ps).names, author, Log(Trace(crypto, ps), NamesOf(author)), t) <==>
            Slot(Trace(crypto, ps), AtTime(NamesOf(author), t)).Some?
    ensures var last := LastTime(Run(crypto, ps).names, author); last.Some? ==> last.value <= t
  {
    hide Run, Trace, Log, Slot, LastTime, NewestTime, ReturnsNewest;
    RunAgrees(crypto, ps);
    LastTimedExactly(Run(crypto, ps).names, author, Trace(crypto, ps), NamesOf(author), t);
  }

  /** Without any undeleted entry there is no answer. */
  lemma NoneUndeleted<K>(m: map<K, TimeMap<(Text, Hash)>>, k: K, ev: seq<Event>, g: Select<(U64, Text)>)
    requires forall t: U64 :: TimedAt(m, k, t) == Slot(ev, AtTime(g, t))
    requires Log(ev, g) == []
    ensures LastTimed(m, k).None?
  {
    hide Slot, Log, AtTime;
    if LastTime(m, k).Some? {
      var u := LastTime(m, k).value;
      assert TimedAt(m, k, u) == Some(m[k][u]);
      SlotInLog(ev, g, u, m[k][u].0, m[k][u].1);
    }
  }

  lemma LastTimedHeld<K>(m: map<K, TimeMap<(Text, Hash)>>, k: K)
    ensures LastTimed(m, k).Some? ==> exists t: U64 :: TimedAt(m, k, t).Some?
  {
    if LastTimed(m, k).Some? {
      assert TimedAt(m, k, LastKey(m[k].Keys)).Some?;
    }
  }

  // A run with two topics of one time.

  lemma ThreeEvents(crypto: Crypto, p: Post, q: Post, d: Post)
    requires p.body.Topic? && q.body.Topic? && WellFormed(q)
    requires d.body == Delete([HashOf(crypto, q)]) && d.header.publicKey == q.header.publicKey
    ensures var (h, k, own) := (HashOf(crypto, p), HashOf(crypto, q), HashOf(crypto, d));
            Trace(crypto, [p, q, d]) == [Put(p, h), Put(q, k)] + [Drop(k)] + [Put(d, own)]
  {
    hide HashOf, Encode, Decode, WellFormed, Slot;
    var h, k := HashOf(crypto, p), HashOf(crypto, q);
    assert [p, q, d] == [p, q] + [d] && [p, q][..1] == [p] && [p][..0] == [];
    assert Trace(crypto, [p]) == [Put(p, h)];
    assert Trace(crypto, [p, q]) == [Put(p, h), Put(q, k)];
    var ev2 := [Put(p, h)] + [Put(q, k)];
    SlotPut([Put(p, h)], q, k, PayloadOf(k));
    RoundTrip(q, []);
    assert Encode(q) + [] == Encode(q);
    DropOne(ev2, q, k);
    hide DeleteEvents;
    assert [Put(p, h)] + [Put(q, k)] == [Put(p, h), Put(q, k)];
    TraceEnds(crypto, [p, q], d);
    assert [Drop(k)] + [Put(d, HashOf(crypto, d))] == [Drop(k), Put(d, HashOf(crypto, d))];
  }

  lemma DropOne(ev: seq<Event>, q: Post, k: Hash)
    requires Slot(ev, PayloadOf(k)) == Some((q, k)) && Decode(Encode(q)).Ok?
    ensures DeleteEvents(ev, q.header.publicKey, [k]) == ([Drop(k)], true)
  {
    hide Slot, Decode, Encode;
    var one: seq<Hash> := [k];
    assert one[1..] == [] && DeleteEvents(ev + [Drop(k)], q.header.publicKey, one[1..]) == ([], true);
    assert Readable(q) && [Drop(k)] + [] == [Drop(k)];
  }

  lemma TraceEnds(crypto: Crypto, ps: seq<Post>, p: Post)
    ensures Trace(crypto, ps + [p]) == Trace(crypto, ps) + InsertEvents(crypto, Trace(crypto, ps), p)
  {
    hide InsertEvents;
    assert (ps + [p])[..|ps|] == ps;
  }

  /** Two topic posts of one time, the later dropped: the earlier is all there is, and its place is empty. */
  lemma TwoTopics(p: Post, h: Hash, q: Post, k: Hash, c: Text)
    requires p.body.Topic? && q.body.Topic? && p.body.channel == q.body.channel == c && h != k
    requires p.header.timestamp == q.header.timestamp
    ensures var ev := [Put(p, h), Put(q, k)] + [Drop(k)];
            && Log(ev, TopicsOf(c)) == [((p.header.timestamp, p.body.topic), h)]
            && forall u: U64 :: Slot(ev, TopicAt(c, u)).None?
  {
    var ep, eq := ((p.header.timestamp, p.body.topic), h), ((q.header.timestamp, q.body.topic), k);
    var ev2 := [] + [Put(p, h)] + [Put(q, k)];
    assert [Put(p, h), Put(q, k)] == ev2;
    hide Slot, Log;
    var none: seq<Event> := [];
    NoEvents(TopicsOf(c));
    LogPut(none, p, h, TopicsOf(c));
    LogPut(none + [Put(p, h)], q, k, TopicsOf(c));
    LogDrop(ev2, k, TopicsOf(c));
    var one: seq<((U64, Text), Hash)>, two := [ep], [ep, eq];
    assert one[..0] == [] && two[..1] == one;
    assert Without(one, k) == one && Without(two, k) == one;
    hide Without;
    forall u: U64 ensures Slot(ev2 + [Drop(k)], TopicAt(c, u)).None? {
      NoEvents(TopicAt(c, u));
      SlotPut(none, p, h, TopicAt(c, u));
      SlotPut(none + [Put(p, h)], q, k, TopicAt(c, u));
      SlotDrop(ev2, k, TopicAt(c, u));
    }
  }

  lemma NoEvents<V>(f: Select<V>)
    ensures Log([], f) == [] && Slot([], f).None?
  {
  }

  /**
   * A run in which the query loses a topic: two topic posts of one time, and a delete post listing the later.
   * The earlier is undeleted, yet the channel has no topic.
   */
  lemma SameTimeForgets(crypto: Crypto, c: Text, p: Post, q: Post, d: Post)
    requires p.body.Topic? && q.body.Topic? && p.body.channel == q.body.channel == c
    requires p.header.timestamp == q.header.timestamp && HashOf(crypto, p) != HashOf(crypto, q) && WellFormed(q)
    requires d.body == Delete([HashOf(crypto, q)]) && d.header.publicKey == q.header.publicKey
    ensures Log(Trace(crypto, [p, q, d]), TopicsOf(c)) == [((p.header.timestamp, p.body.topic), HashOf(crypto, p))]
    ensures GetTopic(Run(crypto, [p, q, d]), c).None?
  {
    hide HashOf, Encode, Decode, WellFormed, Run, Trace, Log, Slot;
    var (h, k, own) := (HashOf(crypto, p), HashOf(crypto, q), HashOf(crypto, d));
    var ev := [Put(p, h), Put(q, k)] + [Drop(k)];
    ThreeEvents(crypto, p, q, d);
    TwoTopics(p, h, q, k, c);
    LogPut(ev, d, own, TopicsOf(c));
    RunAgrees(crypto, [p, q, d]);
    var m := Run(crypto, [p, q, d]).topics;
    forall u: U64 ensures TimedAt(m, c, u).None? {
      SlotPut(ev, d, own, TopicAt(c, u));
      assert TimedAt(m, c, u) == Slot(ev + [Put(d, own)], TopicAt(c, u));
    }
    LastTimedHeld(m, c);
  }

  /**
   * With distinct times, the topic is the undeleted topic post of the greatest time: deleting the latest
   * brings back the one before it.
   */
  lemma TopicRefinesHistory(crypto: Crypto, ps: seq<Post>, c: Text)
    requires DistinctTimes(Trace(crypto, ps), TopicsOf(c))
    ensures var log := Log(Trace(crypto, ps), TopicsOf(c));
            match GetTopic(Run(crypto, ps), c)
            case None => log == []
            case Some(x) => exists t: U64 :: IsNewest(log, t, x)
  {
    hide Run, Trace, Log, Slot, DistinctTimes, LastTimed;
    RunAgrees(crypto, ps);
    LastTimedNewest(Run(crypto, ps).topics, c, Trace(crypto, ps), TopicsOf(c));
  }

  lemma NameRefinesHistory(crypto: Crypto, ps: seq<Post>, author: Hash)
    requires DistinctTimes(Trace(crypto, ps), NamesOf(author))
    ensures var log := Log(Trace(crypto, ps), NamesOf(author));
            match GetName(Run(crypto, ps), author)
            case None => log == []
            case Some(x) => exists t: U64 :: IsNewest(log, t, x)
  {
    hide Run, Trace, Log, Slot, DistinctTimes, LastTimed;
    RunAgrees(crypto, ps);
    LastTimedNewest(Run(crypto, ps).names, author, Trace(crypto, ps), NamesOf(author));
  }

  // Membership.

  predicate IsMember(s: Store, c: Text, k: Hash) {
    c in s.members && k in s.members[c]
  }

  predicate IsExMember(s: Store, c: Text, k: Hash) {
    c in s.exMembers && k in s.exMembers[c]
  }

  /**
   * A key is a member exactly when its last inserted join or leave was a join, an ex-member exactly when it
   * was a leave; the membership map holds the hash of that post until it is deleted.
   */
  lemma MembershipRefinesHistory(crypto: Crypto, ps: seq<Post>, c: Text, k: Hash)
    ensures var s, ev := Run(crypto, ps), Trace(crypto, ps);
            && (IsMember(s, c, k) <==> Latest(ev, MoveOf(c, k)) == Some(true))
            && (IsExMember(s, c, k) <==> Latest(ev, MoveOf(c, k)) == Some(false))
            && !(IsMember(s, c, k) && IsExMember(s, c, k))
            && MoveHash(s.membership, c, k) == SlotHash(Slot(ev, MoveOf(c, k)))
  {
    hide Run, Trace, Latest, Slot;
    RunAgrees(crypto, ps);
    var s := Run(crypto, ps);
    assert IsMember(s, c, k) == Listed(s.members, c, k);
    assert IsExMember(s, c, k) == Listed(s.exMembers, c, k);
  }

  // Integrity.

  ghost predicate HashesMatch(crypto: Crypto, ev: seq<Event>) {
    forall i | 0 <= i < |ev| && ev[i].Put? :: ev[i].hash == HashOf(crypto, ev[i].post)
  }

  lemma {:induction false} DropsOnly(ev: seq<Event>, author: Hash, hashes: seq<Hash>)
    ensures forall i | 0 <= i < |DeleteEvents(ev, author, hashes).0| ::
              DeleteEvents(ev, author, hashes).0[i].Drop?
    decreases |hashes|
  {
    if hashes != [] {
      DropsOnly(ev, author, hashes[1..]);
      DropsOnly(ev + [Drop(hashes[0])], author, hashes[1..]);
    }
  }

  lemma {:induction false} TraceHashesMatch(crypto: Crypto, ps: seq<Post>)
    ensures HashesMatch(crypto, Trace(crypto, ps))
  {
    if ps != [] {
      hide HashOf, DeleteEvents;
      var p, before := ps[|ps| - 1], Trace(crypto, ps[..|ps| - 1]);
      TraceHashesMatch(crypto, ps[..|ps| - 1]);
      if p.body.Delete? {
        DropsOnly(before, p.header.publicKey, p.body.hashes);
      }
    }
  }

  /** A stored hash of any index that queries draw from. */
  ghost predicate Indexed(s: Store, h: Hash) {
    || (exists key, t, e :: key in s.posts && t in s.posts[key] && e in s.posts[key][t] && e.1 == h)
    || (exists c, t :: c in s.topics && t in s.topics[c] && s.topics[c][t].1 == h)
    || (exists k, t :: k in s.names && t in s.names[k] && s.names[k][t].1 == h)
    || (exists c, k :: c in s.membership && k in s.membership[c] && s.membership[c][k] == h)
    || (exists k :: k in s.infoHashes && h in s.infoHashes[k])
  }

  lemma IndexedHasPayload(s: Store, ev: seq<Event>, h: Hash)
    requires Agree(s, ev) && Indexed(s, h)
    ensures h in s.payloads
  {
    hide Slot, Log, Latest;
    assert PayloadAgrees(s.payloads, ev, h);
    if key, t, e :| key in s.posts && t in s.posts[key] && e in s.posts[key][t] && e.1 == h {
      assert PostAgrees(s.posts, ev, key, t);
      LogHasPayload(ev, IndexedAt(key, t), e);
    } else if c, t :| c in s.topics && t in s.topics[c] && s.topics[c][t].1 == h {
      assert TimedAt(s.topics, c, t) == Slot(ev, TopicAt(c, t));
      SlotHasPayload(ev, TopicAt(c, t));
    } else if k, t :| k in s.names && t in s.names[k] && s.names[k][t].1 == h {
      assert TimedAt(s.names, k, t) == Slot(ev, NameAt(k, t));
      SlotHasPayload(ev, NameAt(k, t));
    } else if c, k :| c in s.membership && k in s.membership[c] && s.membership[c][k] == h {
      assert MoveHash(s.membership, c, k) == SlotHash(Slot(ev, MoveOf(c, k)));
      SlotHasPayload(ev, MoveOf(c, k));
    } else {
      var k :| k in s.infoHashes && h in s.infoHashes[k];
      var log := Log(ev, InfoBy(k));
      assert InfosOf(s.infoHashes, k) == HashesOf(log);
      var i :| 0 <= i < |s.infoHashes[k]| && s.infoHashes[k][i] == h;
      assert log[i] in log && log[i].1 == h;
      LogHasPayload(ev, InfoBy(k), log[i]);
    }
  }

  /** After any run: every payload hashes to its key, and every indexed hash has a payload. */
  lemma IntegrityOverRuns(crypto: Crypto, ps: seq<Post>, h: Hash)
    ensures h in Run(crypto, ps).payloads ==> crypto.digest(Run(crypto, ps).payloads[h]) == h
    ensures Indexed(Run(crypto, ps), h) ==> h in Run(crypto, ps).payloads
  {
    hide Run, Trace, Slot, Log, Latest, Encode, Indexed;
    var s, ev := Run(crypto, ps), Trace(crypto, ps);
    RunAgrees(crypto, ps);
    TraceHashesMatch(crypto, ps);
    if h in s.payloads {
      assert PayloadAgrees(s.payloads, ev, h);
      PayloadKey(ev, h);
    }
    if Indexed(s, h) {
      IndexedHasPayload(s, ev, h);
    }
  }

  lemma {:induction false} DeleteListedKeeps(s: Store, author: Hash, hashes: seq<Hash>, own: Hash, h: Hash)
    requires h in s.payloads && h !in DeleteListed(s, author, hashes, own).0.payloads
    ensures h in hashes && Decode(s.payloads[h]).Ok? && Decode(s.payloads[h]).value.1.header.publicKey == author
    decreases |hashes|
  {
    hide Decode;
    var k := hashes[0];
    if k != h || !Decode(s.payloads[h]).Ok? || Decode(s.payloads[h]).value.1.header.publicKey != author {
      if k in s.payloads && Decode(s.payloads[k]).Ok? && Decode(s.payloads[k]).value.1.header.publicKey == author {
        var s1 := DeletePost(s, k);
        var s2 := s1.(deleteHashes := PushAt(s1.deleteHashes, author, own));
        DeleteListedKeeps(s2, author, hashes[1..], own, h);
      } else {
        DeleteListedKeeps(s, author, hashes[1..], own, h);
      }
    }
  }

  /** A payload disappears only while inserting a delete post that lists it and shares its author. */
  lemma PayloadLossExplained(crypto: Crypto, s: Store, p: Post, h: Hash)
    requires h in s.payloads && h !in InsertPost(crypto, s, p).0.payloads
    ensures p.body.Delete? && h in p.body.hashes
    ensures Decode(s.payloads[h]).Ok?
    ensures Decode(s.payloads[h]).value.1.header.publicKey == p.header.publicKey
  {
    hide Decode, DeleteListed, Encode, HashOf;
    hide PostsAfter, TopicsAfter, NamesAfter, InfosAfter, MembershipAfter, MembersAfter, ChannelsAfter;
    if p.body.Delete? {
      DeleteListedKeeps(s, p.header.publicKey, p.body.hashes, HashOf(crypto, p), h);
    }
  }

  // want and get_post_payloads.

  function Want(s: Store, hs: seq<Hash>): (r: seq<Hash>)
    ensures forall h :: h in r <==> h in hs && h !in s.payloads
  {
    if hs == [] then []
    else if hs[0] in s.payloads then Want(s, hs[1..])
    else [hs[0]] + Want(s, hs[1..])
  }

  function GetPayloads(s: Store, hs: seq<Hash>): (r: seq<Bytes>)
    ensures forall b :: b in r <==> exists h :: h in hs && h in s.payloads && s.payloads[h] == b
  {
    if hs == [] then []
    else
      var rest := GetPayloads(s, hs[1..]);
      if hs[0] in s.payloads then [s.payloads[hs[0]]] + rest else rest
  }

  lemma OneByOne(s: Store, h: Hash)
    ensures GetPayloads(s, [h]) == if h in s.payloads then [s.payloads[h]] else []
    ensures Want(s, [h]) == if h in s.payloads then [] else [h]
  {
    var one: seq<Hash> := [h];
    assert one[1..] == [] && GetPayloads(s, []) == [] && Want(s, []) == [];
  }

  lemma FirstServed(s: Store, h: Hash, rest: seq<Hash>)
    ensures GetPayloads(s, [h] + rest) == GetPayloads(s, [h]) + GetPayloads(s, rest)
    ensures Want(s, [h] + rest) == Want(s, [h]) + Want(s, rest)
  {
    OneByOne(s, h);
    assert ([h] + rest)[1..] == rest;
  }

  /** Both keep the order and every repetition: each listed hash contributes at its own place. */
  lemma {:induction false} ServedInOrder(s: Store, a: seq<Hash>, b: seq<Hash>)
    ensures GetPayloads(s, a + b) == GetPayloads(s, a) + GetPayloads(s, b)
    decreases |a|
  {
    if a == [] {
      assert a + b == b;
    } else {
      hide GetPayloads;
      ServedInOrder(s, a[1..], b);
      assert a == [a[0]] + a[1..];
      Regroup([a[0]], a[1..], b);
      FirstServed(s, a[0], a[1..]);
      FirstServed(s, a[0], a[1..] + b);
      Regroup(GetPayloads(s, [a[0]]), GetPayloads(s, a[1..]), GetPayloads(s, b));
    }
  }

  lemma {:induction false} WantedInOrder(s: Store, a: seq<Hash>, b: seq<Hash>)
    ensures Want(s, a + b) == Want(s, a) + Want(s, b)
    decreases |a|
  {
    if a == [] {
      assert a + b == b;
    } else {
      hide Want;
      WantedInOrder(s, a[1..], b);
      assert a == [a[0]] + a[1..];
      Regroup([a[0]], a[1..], b);
      FirstServed(s, a[0], a[1..]);
      FirstServed(s, a[0], a[1..] + b);
      Regroup(Want(s, [a[0]]), Want(s, a[1..]), Want(s, b));
    }
  }

  lemma Regroup<T>(x: seq<T>, y: seq<T>, z: seq<T>)
    ensures (x + y) + z == x + (y + z)
  {
  }

  // The known channels, and the record of delete posts.

  /** The post belongs to a channel. */
  predicate InChannel(p: Post, c: Text) {
    (p.body.TextPost? || p.body.Topic? || p.body.Join? || p.body.Leave?) && p.body.channel == c
  }

  lemma {:induction false} DeleteKeepsChannels(s: Store, author: Hash, hashes: seq<Hash>, own: Hash)
    ensures DeleteListed(s, author, hashes, own).0.channels == s.channels
    decreases |hashes|
  {
    hide Decode, PushAt, RemoveTimed, RemoveMembership, RemoveInfoHash, RemovePost;
    if hashes != [] {
      DeleteKeepsChannels(s, author, hashes[1..], own);
      var s1 := DeletePost(s, hashes[0]);
      DeleteKeepsChannels(s1.(deleteHashes := PushAt(s1.deleteHashes, author, own)), author, hashes[1..], own);
    }
  }

  lemma InsertChannels(crypto: Crypto, s: Store, p: Post, c: Text)
    ensures c in InsertPost(crypto, s, p).0.channels <==> c in s.channels || InChannel(p, c)
  {
    hide HashOf, Encode, DeleteListed, PostsAfter, TopicsAfter, NamesAfter, InfosAfter, MembershipAfter, MembersAfter;
    if p.body.Delete? {
      DeleteKeepsChannels(s, p.header.publicKey, p.body.hashes, HashOf(crypto, p));
    }
  }

  /** After any run, the known channels are those of the posts inserted, deleted or not. */
  lemma {:induction false} ChannelsExactly(crypto: Crypto, ps: seq<Post>, c: Text)
    ensures c in Run(crypto, ps).channels <==> exists p :: p in ps && InChannel(p, c)
    decreases |ps|
  {
    hide InsertPost, InChannel;
    if ps != [] {
      var init, p := ps[..|ps| - 1], ps[|ps| - 1];
      ChannelsExactly(crypto, init, c);
      InsertChannels(crypto, Run(crypto, init), p, c);
      assert ps == init + [p];
      assert forall q :: q in ps <==> q in init || q == p;
    }
  }

  function Repeat(h: Hash, n: nat): seq<Hash> {
    seq(n, _ => h)
  }

  ghost function NotesOf(m: map<Hash, seq<Hash>>, k: Hash): seq<Hash> {
    if k in m then m[k] else []
  }

  /** The loop of a delete post notes its own hash once for every post that it drops. */
  lemma {:induction false} DeleteNotes(
    s: Store, ev: seq<Event>, author: Hash, hashes: seq<Hash>, own: Hash, k: Hash)
    requires Agree(s, ev)
    ensures NotesOf(DeleteListed(s, author, hashes, own).0.deleteHashes, k)
         == NotesOf(s.deleteHashes, k)
            + if k == author then Repeat(own, |DeleteEvents(ev, author, hashes).0|) else []
    decreases |hashes|
  {
    hide Slot, Log, Latest, Encode, Decode, DeletePost, Agree, PayloadAgrees;
    if hashes != [] {
      var h, rest := hashes[0], hashes[1..];
      StoredAgrees(s, ev, h);
      if h in s.payloads && Decode(s.payloads[h]).Ok? && Decode(s.payloads[h]).value.1.header.publicKey == author {
        var s1 := DeletePost(s, h);
        DeleteLeavesNotes(s, h);
        var s2 := s1.(deleteHashes := PushAt(s1.deleteHashes, author, own));
        AgreeDrop(s, ev, h);
        AgreeNotes(s1, ev + [Drop(h)], s2.deleteHashes);
        DeleteNotes(s2, ev + [Drop(h)], author, rest, own, k);
        var n := |DeleteEvents(ev + [Drop(h)], author, rest).0|;
        assert [own] + Repeat(own, n) == Repeat(own, n + 1);
        assert NotesOf(s2.deleteHashes, k) == NotesOf(s.deleteHashes, k) + if k == author then [own] else [];
      } else if h !in s.payloads || Decode(s.payloads[h]).Ok? {
        DeleteNotes(s, ev, author, rest, own, k);
      }
    }
  }

  /** The stored post under a hash is the one that the history holds, with the same author. */
  lemma StoredAgrees(s: Store, ev: seq<Event>, h: Hash)
    requires Agree(s, ev)
    ensures var slot := Slot(ev, PayloadOf(h));
            && (h in s.payloads <==> slot.Some?)
            && (h in s.payloads ==>
                  && (Readable(slot.value.0) <==> Decode(s.payloads[h]).Ok?)
                  && (Decode(s.payloads[h]).Ok? ==>
                        Decode(s.payloads[h]).value.1.header.publicKey == slot.value.0.header.publicKey))
  {
    hide Slot, Encode, Decode, PostsAgree, TopicsAgree, NamesAgree, MembershipAgrees, MembersAgree, InfosAgree;
    assert PayloadAgrees(s.payloads, ev, h);
    if h in s.payloads && Decode(s.payloads[h]).Ok? {
      AuthorSurvives(Slot(ev, PayloadOf(h)).value.0);
    }
  }

  lemma DeleteLeavesNotes(s: Store, h: Hash)
    ensures DeletePost(s, h).deleteHashes == s.deleteHashes
  {
  }

  lemma AgreeNotes(s: Store, ev: seq<Event>, notes: map<Hash, seq<Hash>>)
    requires Agree(s, ev)
    ensures Agree(s.(deleteHashes := notes), ev)
  {
  }

  /** The hashes of an author's delete posts, each as often as it dropped a post. */
  ghost function DeletesBy(crypto: Crypto, ps: seq<Post>, k: Hash): seq<Hash> {
    if ps == [] then []
    else
      var init, p := ps[..|ps| - 1], ps[|ps| - 1];
      DeletesBy(crypto, init, k)
      + if p.body.Delete? && p.header.publicKey == k
        then Repeat(HashOf(crypto, p), |DeleteEvents(Trace(crypto, init), k, p.body.hashes).0|) else []
  }

  lemma InsertNotes(crypto: Crypto, s: Store, p: Post)
    ensures InsertPost(crypto, s, p).0.deleteHashes ==
            if p.body.Delete?
            then DeleteListed(s, p.header.publicKey, p.body.hashes, HashOf(crypto, p)).0.deleteHashes
            else s.deleteHashes
  {
    hide HashOf, Encode, DeleteListed;
    hide PostsAfter, TopicsAfter, NamesAfter, InfosAfter, MembershipAfter, MembersAfter;
  }

  /** After any run, the record of an author's delete posts is exactly that. */
  lemma {:induction false} DeleteHashesExactly(crypto: Crypto, ps: seq<Post>, k: Hash)
    ensures NotesOf(Run(crypto, ps).deleteHashes, k) == DeletesBy(crypto, ps, k)
    decreases |ps|
  {
    if ps != [] {
      hide HashOf, InsertPost, DeleteListed, DeleteEvents, Trace, Agree, Repeat;
      var init, p := ps[..|ps| - 1], ps[|ps| - 1];
      DeleteHashesExactly(crypto, init, k);
      RunAgrees(crypto, init);
      InsertNotes(crypto, Run(crypto, init), p);
      assert NotesOf(Run(crypto, init).deleteHashes, k) + [] == NotesOf(Run(crypto, init).deleteHashes, k);
      if p.body.Delete? {
        DeleteNotes(Run(crypto, init), Trace(crypto, init), p.header.publicKey, p.body.hashes, HashOf(crypto, p), k);
      }
    }
  }
}
