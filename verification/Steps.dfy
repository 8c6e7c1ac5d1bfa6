/**
 * `insert_post` cut at its locks: each operation below is one critical section on one index of the store
 * (cable_core/src/store.rs). Run without interruption they do what `Store.InsertPost` does in one go.
 */
module Steps {
  import opened Wire
  import opened Posts
  import opened History
  import opened Store

  /** The indexes a post's hash can be found in; `delete_hashes` is not one that a deletion cleans. */
  datatype Place = Topics | Memberships | Names | Infos | Channels | Payloads

  datatype Op =
    | Index(post: Post, hash: Hash)
    | SetTopic(channel: Text, topic: Text, at: U64, hash: Hash)
    | SetName(author: Hash, name: Text, at: U64, hash: Hash)
    | AddInfo(author: Hash, hash: Hash)
    | SetMembership(channel: Text, author: Hash, hash: Hash)
    | AddMember(channel: Text, author: Hash)
    | LoseMember(channel: Text, author: Hash)
    | AddExMember(channel: Text, author: Hash)
    | LoseExMember(channel: Text, author: Hash)
    | StorePayload(post: Post, hash: Hash)
    | AddChannel(channel: Text)
    | AddDeleteHash(author: Hash, own: Hash)
    | Remove(place: Place, hash: Hash)
    | Examine(author: Hash, hash: Hash, own: Hash)

  // What a post's insertion consists of.

  function NameOps(p: Post, info: seq<UserInfo>, h: Hash): seq<Op> {
    if info == [] then []
    else
      var before := NameOps(p, info[..|info| - 1], h);
      var u := info[|info| - 1];
      if u.key == NAME then before + [SetName(p.header.publicKey, u.val, p.header.timestamp, h)] else before
  }

  function ExamineOps(p: Post, hashes: seq<Hash>, h: Hash): seq<Op> {
    if hashes == [] then [] else [Examine(p.header.publicKey, hashes[0], h)] + ExamineOps(p, hashes[1..], h)
  }

  function InsertOps(p: Post, h: Hash): seq<Op> {
    var (key, t) := (p.header.publicKey, p.header.timestamp);
    match p.body
    case TextPost(c, _) => [Index(p, h), StorePayload(p, h), AddChannel(c)]
    case Join(c) =>
      [SetMembership(c, key, h), AddMember(c, key), LoseExMember(c, key), StorePayload(p, h), AddChannel(c)]
    case Leave(c) =>
      [SetMembership(c, key, h), LoseMember(c, key), AddExMember(c, key), StorePayload(p, h), AddChannel(c)]
    case Topic(c, topic) => [Index(p, h), SetTopic(c, topic, t, h), StorePayload(p, h), AddChannel(c)]
    case Delete(hashes) => ExamineOps(p, hashes, h) + [StorePayload(p, h)]
    case Info(info) => [Index(p, h)] + NameOps(p, info, h) + [AddInfo(key, h), StorePayload(p, h)]
    case UnrecognizedPost(_) => []
  }

  /** `delete_post` */
  function RemovalOps(h: Hash): seq<Op> {
    [Remove(Topics, h), Remove(Memberships, h), Remove(Names, h), Remove(Infos, h), Remove(Channels, h),
     Remove(Payloads, h)]
  }

  // One critical section.

  function ChannelsStep(m: set<Text>, op: Op): set<Text> {
    if op.AddChannel? then m + {op.channel} else m
  }

  function MembersStep(m: map<Text, seq<Hash>>, op: Op): map<Text, seq<Hash>> {
    if op.AddMember? then PushAt(m, op.channel, op.author)
    else if op.LoseMember? then RemoveMember(m, op.channel, op.author)
    else m
  }

  function ExMembersStep(m: map<Text, seq<Hash>>, op: Op): map<Text, seq<Hash>> {
    if op.AddExMember? then PushAt(m, op.channel, op.author)
    else if op.LoseExMember? then RemoveMember(m, op.channel, op.author)
    else m
  }

  function MembershipStep(m: map<Text, map<Hash, Hash>>, op: Op): map<Text, map<Hash, Hash>> {
    if op.SetMembership? then PutAt(m, op.channel, op.author, op.hash)
    else if op.Remove? && op.place == Memberships then RemoveMembership(m, op.hash)
    else m
  }

  function TopicsStep(m: map<Text, TimeMap<(Text, Hash)>>, op: Op): map<Text, TimeMap<(Text, Hash)>> {
    if op.SetTopic? then PutAt(m, op.channel, op.at, (op.topic, op.hash))
    else if op.Remove? && op.place == Topics then RemoveTimed(m, op.hash)
    else m
  }

  function DeleteHashesStep(m: map<Hash, seq<Hash>>, op: Op): map<Hash, seq<Hash>> {
    if op.AddDeleteHash? then PushAt(m, op.author, op.own) else m
  }

  function InfosStep(m: map<Hash, seq<Hash>>, op: Op): map<Hash, seq<Hash>> {
    if op.AddInfo? then PushAt(m, op.author, op.hash)
    else if op.Remove? && op.place == Infos then RemoveInfoHash(m, op.hash)
    else m
  }

  function NamesStep(m: map<Hash, TimeMap<(Text, Hash)>>, op: Op): map<Hash, TimeMap<(Text, Hash)>> {
    if op.SetName? then PutAt(m, op.author, op.at, (op.name, op.hash))
    else if op.Remove? && op.place == Names then RemoveTimed(m, op.hash)
    else m
  }

  function PostsStep(m: map<Option<Text>, TimeMap<seq<Entry>>>, op: Op): map<Option<Text>, TimeMap<seq<Entry>>> {
    if op.Index? then PostsAfter(m, op.post, op.hash)
    else if op.Remove? && op.place == Channels then RemovePost(m, op.hash)
    else m
  }

  function PayloadsStep(m: map<Hash, Bytes>, op: Op): map<Hash, Bytes> {
    if op.StorePayload? then m[op.hash := Encode(op.post)]
    else if op.Remove? && op.place == Payloads then m - {op.hash}
    else m
  }

  /** Every operation writes one index. */
  function Apply(s: Store, op: Op): Store {
    Store(ChannelsStep(s.channels, op), MembersStep(s.members, op), ExMembersStep(s.exMembers, op),
          MembershipStep(s.membership, op), TopicsStep(s.topics, op), DeleteHashesStep(s.deleteHashes, op),
          InfosStep(s.infoHashes, op), NamesStep(s.names, op), PostsStep(s.posts, op),
          PayloadsStep(s.payloads, op))
  }

  /** What an examined hash calls for: nothing, its removal, or the end of the task with an error. */
  function Found(s: Store, op: Op): Option<seq<Op>> {
    match op
    case Examine(author, h, own) =>
      if h !in s.payloads then Some([])
      else (
        match Decode(s.payloads[h])
        case Err(_) => None
        case Ok(q) =>
          if q.1.header.publicKey != author then Some([])
          else Some(RemovalOps(h) + [AddDeleteHash(author, own)]))
    case _ => Some([])
  }

  // Operations one after another.

  function ApplyAll(s: Store, ops: seq<Op>): Store
    decreases |ops|
  {
    if ops == [] then s else ApplyAll(Apply(s, ops[0]), ops[1..])
  }

  lemma ApplyFirst(s: Store, op: Op, rest: seq<Op>)
    ensures ApplyAll(s, [op] + rest) == ApplyAll(Apply(s, op), rest)
  {
    hide Apply;
    assert ([op] + rest)[1..] == rest;
  }

  lemma ApplyNone(s: Store)
    ensures ApplyAll(s, []) == s
  {
  }

  lemma {:induction false} ApplyLast(s: Store, ops: seq<Op>, op: Op)
    ensures ApplyAll(s, ops + [op]) == Apply(ApplyAll(s, ops), op)
    decreases |ops|
  {
    hide Apply;
    if ops == [] {
      assert [] + [op] == [op] + [];
      ApplyFirst(s, op, []);
    } else {
      assert ops + [op] == [ops[0]] + (ops[1..] + [op]);
      ApplyFirst(s, ops[0], ops[1..] + [op]);
      ApplyLast(Apply(s, ops[0]), ops[1..], op);
    }
  }

  // Without interruption.

  function Weight(ops: seq<Op>): nat {
    if ops == [] then 0 else (if ops[0].Examine? then 8 else 1) + Weight(ops[1..])
  }

  lemma {:induction false} WeightConcat(a: seq<Op>, b: seq<Op>)
    ensures Weight(a + b) == Weight(a) + Weight(b)
    decreases |a|
  {
    if a == [] {
      assert a + b == b;
    } else {
      WeightConcat(a[1..], b);
      assert (a + b)[1..] == a[1..] + b;
    }
  }

  lemma FoundWeight(s: Store, op: Op)
    ensures Found(s, op).Some? && op.Examine? ==> Weight(Found(s, op).value) < 8
    ensures Found(s, op).Some? && !op.Examine? ==> Found(s, op).value == []
  {
    hide Decode;
    if op.Examine? {
      PlainWeight(RemovalOps(op.hash) + [AddDeleteHash(op.author, op.own)]);
    }
  }

  lemma {:induction false} PlainWeight(ops: seq<Op>)
    requires forall op | op in ops :: !op.Examine?
    ensures Weight(ops) == |ops|
  {
    if ops != [] {
      PlainWeight(ops[1..]);
    }
  }

  function RunOps(s: Store, ops: seq<Op>): (Store, bool)
    decreases Weight(ops)
  {
    if ops == [] then (s, true)
    else
      match Found(s, ops[0])
      case None => (s, false)
      case Some(more) =>
        FoundWeight(s, ops[0]);
        WeightConcat(more, ops[1..]);
        RunOps(Apply(s, ops[0]), more + ops[1..])
  }

  lemma {:induction false} RunConcat(s: Store, a: seq<Op>, b: seq<Op>)
    ensures RunOps(s, a + b) ==
            var (s1, ok) := RunOps(s, a); if ok then RunOps(s1, b) else (s1, false)
    decreases Weight(a)
  {
    hide Apply, Found;
    if a == [] {
      assert a + b == b;
    } else if Found(s, a[0]).Some? {
      var more := Found(s, a[0]).value;
      FoundWeight(s, a[0]);
      WeightConcat(more, a[1..]);
      RunConcat(Apply(s, a[0]), more + a[1..], b);
      assert (a + b)[1..] == a[1..] + b;
      assert more + (a[1..] + b) == more + a[1..] + b;
    }
  }

  lemma RunOne(s: Store, op: Op, rest: seq<Op>)
    requires !op.Examine?
    ensures RunOps(s, [op] + rest) == RunOps(Apply(s, op), rest)
  {
    hide Apply;
    assert ([op] + rest)[1..] == rest;
    assert [] + rest == rest;
  }

  lemma {:induction false} RunNames(s: Store, p: Post, info: seq<UserInfo>, h: Hash)
    ensures RunOps(s, NameOps(p, info, h))
         == (s.(names := InsertNames(s.names, p.header.publicKey, info, p.header.timestamp, h)), true)
    decreases |info|
  {
    hide PutAt, RunOps;
    if info == [] {
      RunNothing(s);
    } else {
      var before, u := info[..|info| - 1], info[|info| - 1];
      RunNames(s, p, before, h);
      if u.key == NAME {
        var op := SetName(p.header.publicKey, u.val, p.header.timestamp, h);
        RunConcat(s, NameOps(p, before, h), [op]);
        RunLast(RunOps(s, NameOps(p, before, h)).0, op);
      }
    }
  }

  lemma RunNothing(s: Store)
    ensures RunOps(s, []) == (s, true)
  {
  }

  lemma RunLast(s: Store, op: Op)
    requires !op.Examine?
    ensures RunOps(s, [op]) == (Apply(s, op), true)
  {
    hide Apply;
    RunOne(s, op, []);
    assert [op] + [] == [op];
  }

  lemma RunRemoval(s: Store, h: Hash, rest: seq<Op>)
    ensures RunOps(s, RemovalOps(h) + rest) == RunOps(DeletePost(s, h), rest)
  {
    hide RunOps, RemoveTimed, RemoveMembership, RemoveInfoHash, RemovePost;
    var a, b, c := Remove(Topics, h), Remove(Memberships, h), Remove(Names, h);
    var d, e, f := Remove(Infos, h), Remove(Channels, h), Remove(Payloads, h);
    var s1 := Apply(s, a);
    var s2 := Apply(s1, b);
    var s3 := Apply(s2, c);
    var s4 := Apply(s3, d);
    var s5 := Apply(s4, e);
    RunOne(s, a, [b, c, d, e, f] + rest);
    RunOne(s1, b, [c, d, e, f] + rest);
    RunOne(s2, c, [d, e, f] + rest);
    RunOne(s3, d, [e, f] + rest);
    RunOne(s4, e, [f] + rest);
    RunOne(s5, f, rest);
    assert RemovalOps(h) + rest == [a] + ([b, c, d, e, f] + rest);
    assert [b, c, d, e, f] + rest == [b] + ([c, d, e, f] + rest);
    assert [c, d, e, f] + rest == [c] + ([d, e, f] + rest);
    assert [d, e, f] + rest == [d] + ([e, f] + rest);
    assert [e, f] + rest == [e] + ([f] + rest);
  }

  lemma RunExamine(s: Store, op: Op, rest: seq<Op>)
    requires op.Examine?
    ensures RunOps(s, [op] + rest) ==
            if op.hash !in s.payloads then RunOps(s, rest)
            else
              var r := Decode(s.payloads[op.hash]);
              if r.Err? then (s, false)
              else if r.value.1.header.publicKey != op.author then RunOps(s, rest)
              else RunOps(Apply(DeletePost(s, op.hash), AddDeleteHash(op.author, op.own)), rest)
  {
    hide Decode, DeletePost, Apply, RemovalOps, RunOps;
    assert ([op] + rest)[1..] == rest;
    RunStep(s, [op] + rest);
    ExamineKeeps(s, op);
    if Found(s, op) == Some([]) {
      assert [] + rest == rest;
    } else if Found(s, op).Some? {
      var note := AddDeleteHash(op.author, op.own);
      assert RemovalOps(op.hash) + [note] + rest == RemovalOps(op.hash) + ([note] + rest);
      RunRemoval(s, op.hash, [note] + rest);
      RunOne(DeletePost(s, op.hash), note, rest);
    }
  }

  lemma ExamineKeeps(s: Store, op: Op)
    requires op.Examine?
    ensures Apply(s, op) == s
  {
  }

  lemma RunStep(s: Store, ops: seq<Op>)
    requires ops != []
    ensures RunOps(s, ops) == if Found(s, ops[0]).None? then (s, false)
                              else RunOps(Apply(s, ops[0]), Found(s, ops[0]).value + ops[1..])
  {
  }

  lemma {:induction false} RunExamines(s: Store, p: Post, hashes: seq<Hash>, h: Hash)
    ensures var (s', r) := DeleteListed(s, p.header.publicKey, hashes, h);
            RunOps(s, ExamineOps(p, hashes, h)) == (s', r.Ok?)
    decreases |hashes|
  {
    hide Decode, DeletePost, PushAt, RunOps;
    if hashes == [] {
      RunNothing(s);
    } else {
      var author, k, rest := p.header.publicKey, hashes[0], hashes[1..];
      RunExamine(s, Examine(author, k, h), ExamineOps(p, rest, h));
      RunExamines(s, p, rest, h);
      RunExamines(Apply(DeletePost(s, k), AddDeleteHash(author, h)), p, rest, h);
    }
  }

  lemma RunTwo(s: Store, a: Op, b: Op)
    requires !a.Examine? && !b.Examine?
    ensures RunOps(s, [a, b]) == (Apply(Apply(s, a), b), true)
  {
    hide Apply;
    assert [a, b] == [a] + [b];
    RunOne(s, a, [b]);
    RunLast(Apply(s, a), b);
  }

  lemma RunThree(s: Store, a: Op, b: Op, c: Op)
    requires !a.Examine? && !b.Examine? && !c.Examine?
    ensures RunOps(s, [a, b, c]) == (Apply(Apply(Apply(s, a), b), c), true)
  {
    hide Apply;
    assert [a, b, c] == [a] + [b, c];
    RunOne(s, a, [b, c]);
    RunTwo(Apply(s, a), b, c);
  }

  lemma RunFive(s: Store, a: Op, b: Op, c: Op, d: Op, e: Op)
    requires !a.Examine? && !b.Examine? && !c.Examine? && !d.Examine? && !e.Examine?
    ensures RunOps(s, [a, b, c, d, e]) == (Apply(Apply(Apply(Apply(Apply(s, a), b), c), d), e), true)
  {
    hide Apply;
    assert [a, b, c, d, e] == [a, b] + [c, d, e];
    RunConcat(s, [a, b], [c, d, e]);
    RunTwo(s, a, b);
    RunThree(Apply(Apply(s, a), b), c, d, e);
  }

  lemma ChannelPostRefined(s: Store, p: Post, h: Hash)
    requires p.body.TextPost? || p.body.Topic?
    ensures RunOps(s, InsertOps(p, h)) == (InsertStored(s, p, h), true)
  {
    hide RunOps, UpdatePosts, PutAt, Encode;
    var (index, payload, c) := (Index(p, h), StorePayload(p, h), p.body.channel);
    if p.body.TextPost? {
      RunThree(s, index, payload, AddChannel(c));
    } else {
      var topic := SetTopic(c, p.body.topic, p.header.timestamp, h);
      RunOne(s, index, [topic, payload, AddChannel(c)]);
      RunThree(Apply(s, index), topic, payload, AddChannel(c));
      assert InsertOps(p, h) == [index] + [topic, payload, AddChannel(c)];
    }
  }

  lemma JoinRefined(s: Store, p: Post, h: Hash)
    requires p.body.Join?
    ensures RunOps(s, InsertOps(p, h)) == (InsertStored(s, p, h), true)
  {
    hide RunOps, PutAt, PushAt, RemoveMember, Encode;
    var c, key := p.body.channel, p.header.publicKey;
    RunFive(s, SetMembership(c, key, h), AddMember(c, key), LoseExMember(c, key), StorePayload(p, h), AddChannel(c));
  }

  lemma LeaveRefined(s: Store, p: Post, h: Hash)
    requires p.body.Leave?
    ensures RunOps(s, InsertOps(p, h)) == (InsertStored(s, p, h), true)
  {
    hide RunOps, PutAt, PushAt, RemoveMember, Encode;
    var c, key := p.body.channel, p.header.publicKey;
    RunFive(s, SetMembership(c, key, h), LoseMember(c, key), AddExMember(c, key), StorePayload(p, h), AddChannel(c));
  }

  lemma InfoRefined(s: Store, p: Post, h: Hash)
    requires p.body.Info?
    ensures RunOps(s, InsertOps(p, h)) == (InsertStored(s, p, h), true)
  {
    hide RunOps, UpdatePosts, PushAt, InsertNames, Encode, NameOps;
    var index, payload, more := Index(p, h), StorePayload(p, h), AddInfo(p.header.publicKey, h);
    var names, last := NameOps(p, p.body.info, h), [more, payload];
    var s1 := Apply(s, index);
    assert InsertOps(p, h) == [index] + (names + last);
    RunOne(s, index, names + last);
    RunNames(s1, p, p.body.info, h);
    RunConcat(s1, names, last);
    RunTwo(RunOps(s1, names).0, more, payload);
  }

  /** Run alone, the critical sections of an insertion amount to the whole insertion. */
  lemma InsertRefined(crypto: Crypto, s: Store, p: Post)
    requires !p.body.UnrecognizedPost?
    ensures var (s', r) := InsertPost(crypto, s, p);
            RunOps(s, InsertOps(p, HashOf(crypto, p))) == (s', r.Ok?)
  {
    hide RunOps, HashOf, InsertStored;
    var h := HashOf(crypto, p);
    match p.body
    case Delete(hashes) =>
      DeleteRefined(s, p, h);
      hide DeleteListed;
      var (s1, r) := DeleteListed(s, p.header.publicKey, hashes, h);
      assert InsertPost(crypto, s, p) == if r.Err? then (s1, Err(r.error)) else (InsertStored(s1, p, h), Ok(h));
    case Info(_) => InfoRefined(s, p, h);
    case Join(_) => JoinRefined(s, p, h);
    case Leave(_) => LeaveRefined(s, p, h);
    case _ => ChannelPostRefined(s, p, h);
  }

  lemma DeleteRefined(s: Store, p: Post, h: Hash)
    requires p.body.Delete?
    ensures var (s', r) := DeleteListed(s, p.header.publicKey, p.body.hashes, h);
            RunOps(s, InsertOps(p, h)) == if r.Ok? then (InsertStored(s', p, h), true) else (s', false)
  {
    hide RunOps, Encode, DeleteListed, ExamineOps;
    var payload := StorePayload(p, h);
    RunExamines(s, p, p.body.hashes, h);
    RunConcat(s, ExamineOps(p, p.body.hashes, h), [payload]);
    var s1 := DeleteListed(s, p.header.publicKey, p.body.hashes, h).0;
    RunLast(s1, payload);
    assert InsertStored(s1, p, h) == Apply(s1, payload);
  }
}
