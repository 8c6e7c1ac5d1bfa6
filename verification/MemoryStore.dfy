/** `MemoryStore`: the indexes updated in place, one method at a time (cable_core/src/store.rs). */
module MemoryStore {
  import opened Wire
  import opened Posts
  import opened History
  import S = Store

  class MemoryStore {
    const crypto: Crypto
    var channels: set<Text>
    var members: map<Text, seq<Hash>>
    var exMembers: map<Text, seq<Hash>>
    var membership: map<Text, map<Hash, Hash>>
    var topics: map<Text, S.TimeMap<(Text, Hash)>>
    var deleteHashes: map<Hash, seq<Hash>>
    var infoHashes: map<Hash, seq<Hash>>
    var names: map<Hash, S.TimeMap<(Text, Hash)>>
    var posts: map<Option<Text>, S.TimeMap<seq<Entry>>>
    var payloads: map<Hash, Bytes>

    /** The store as a value. */
    function State(): S.Store
      reads this
    {
      S.Store(channels, members, exMembers, membership, topics, deleteHashes, infoHashes, names, posts, payloads)
    }

    constructor (crypto: Crypto)
      ensures this.crypto == crypto && State() == S.EMPTY
    {
      this.crypto := crypto;
      channels, members, exMembers, membership, topics := {}, map[], map[], map[], map[];
      deleteHashes, infoHashes, names, posts, payloads := map[], map[], map[], map[], map[];
    }

    method InsertChannel(c: Text)
      modifies this`channels
      ensures channels == old(channels) + {c}
    {
      channels := channels + {c};
    }

    method InsertChannelMember(c: Text, key: Hash)
      modifies this`members
      ensures members == S.PushAt(old(members), c, key)
    {
      if c in members {
        members := members[c := members[c] + [key]];
      } else {
        members := members[c := [key]];
      }
    }

    method RemoveChannelMember(c: Text, key: Hash)
      modifies this`members
      ensures members == S.RemoveMember(old(members), c, key)
    {
      if c in members {
        members := members[c := S.Retain(members[c], key)];
      }
    }

    method InsertExChannelMember(c: Text, key: Hash)
      modifies this`exMembers
      ensures exMembers == S.PushAt(old(exMembers), c, key)
    {
      if c in exMembers {
        exMembers := exMembers[c := exMembers[c] + [key]];
      } else {
        exMembers := exMembers[c := [key]];
      }
    }

    method RemoveExChannelMember(c: Text, key: Hash)
      modifies this`exMembers
      ensures exMembers == S.RemoveMember(old(exMembers), c, key)
    {
      if c in exMembers {
        exMembers := exMembers[c := S.Retain(exMembers[c], key)];
      }
    }

    method UpdateChannelMembershipHashes(c: Text, key: Hash, h: Hash)
      modifies this`membership
      ensures membership == S.PutAt(old(membership), c, key, h)
    {
      membership := S.PutAt(membership, c, key, h);
    }

    method InsertChannelTopic(c: Text, topic: Text, t: U64, h: Hash)
      modifies this`topics
      ensures topics == S.PutAt(old(topics), c, t, (topic, h))
    {
      topics := S.PutAt(topics, c, t, (topic, h));
    }

    method InsertPeerName(key: Hash, name: Text, t: U64, h: Hash)
      modifies this`names
      ensures names == S.PutAt(old(names), key, t, (name, h))
    {
      names := S.PutAt(names, key, t, (name, h));
    }

    method InsertDeleteHash(key: Hash, h: Hash)
      modifies this`deleteHashes
      ensures deleteHashes == S.PushAt(old(deleteHashes), key, h)
    {
      deleteHashes := S.PushAt(deleteHashes, key, h);
    }

    method InsertInfoHash(key: Hash, h: Hash)
      modifies this`infoHashes
      ensures infoHashes == S.PushAt(old(infoHashes), key, h)
    {
      infoHashes := S.PushAt(infoHashes, key, h);
    }

    method UpdatePosts(p: Post, key: Option<Text>, h: Hash)
      modifies this`posts
      ensures posts == S.UpdatePosts(old(posts), key, p, h)
    {
      posts := S.UpdatePosts(posts, key, p, h);
    }

    method InsertPostPayload(h: Hash, payload: Bytes)
      modifies this`payloads
      ensures payloads == old(payloads)[h := payload]
    {
      payloads := payloads[h := payload];
    }

    /** `delete_post`: the hash leaves every index but the one of delete posts. */
    method DeletePost(h: Hash)
      modifies this
      ensures State() == S.DeletePost(old(State()), h)
    {
      topics := S.RemoveTimed(topics, h);
      membership := S.RemoveMembership(membership, h);
      names := S.RemoveTimed(names, h);
      infoHashes := S.RemoveInfoHash(infoHashes, h);
      posts := S.RemovePost(posts, h);
      payloads := payloads - {h};
    }

    method InsertNames(key: Hash, info: seq<UserInfo>, t: U64, h: Hash)
      modifies this`names
      ensures names == S.InsertNames(old(names), key, info, t, h)
    {
      hide S.PutAt;
      ghost var was := names;
      for i := 0 to |info|
        invariant names == S.InsertNames(was, key, info[..i], t, h)
      {
        assert info[..i + 1][..i] == info[..i];
        if info[i].key == NAME {
          InsertPeerName(key, info[i].val, t, h);
        }
      }
      assert info[..|info|] == info;
    }

    /** The loop of a delete post over the hashes it lists. */
    method DeleteListed(author: Hash, hashes: seq<Hash>, own: Hash) returns (r: Result<()>)
      modifies this
      ensures (State(), r) == S.DeleteListed(old(State()), author, hashes, own)
    {
      hide S.DeletePost, Decode, S.PushAt;
      ghost var s := State();
      assert hashes[0..] == hashes;
      for i := 0 to |hashes|
        invariant S.DeleteListed(s, author, hashes, own) == S.DeleteListed(State(), author, hashes[i..], own)
      {
        assert hashes[i..][1..] == hashes[i + 1..];
        if hashes[i] in payloads {
          var stored := FromBytes(payloads[hashes[i]]);
          if stored.Err? {
            return Err(stored.error);
          }
          if author == stored.value.1.header.publicKey {
            DeletePost(hashes[i]);
            InsertDeleteHash(author, own);
          }
        }
      }
      return Ok(());
    }

    /** The entries of a text or topic post, and its payload. */
    method InsertChannelPost(p: Post, h: Hash, payload: Bytes)
      requires p.body.TextPost? || p.body.Topic?
      requires payload == Encode(p)
      modifies this
      ensures State() == S.InsertStored(old(State()), p, h).(channels := old(channels))
    {
      hide Encode, S.UpdatePosts, S.PutAt;
      UpdatePosts(p, Some(p.body.channel), h);
      if p.body.Topic? {
        InsertChannelTopic(p.body.channel, p.body.topic, p.header.timestamp, h);
      }
      InsertPostPayload(h, payload);
    }

    method InsertJoin(p: Post, h: Hash, payload: Bytes)
      requires p.body.Join? && payload == Encode(p)
      modifies this
      ensures State() == S.InsertStored(old(State()), p, h).(channels := old(channels))
    {
      hide Encode, S.PutAt, S.PushAt, S.RemoveMember;
      var c, key := p.body.channel, p.header.publicKey;
      UpdateChannelMembershipHashes(c, key, h);
      InsertChannelMember(c, key);
      RemoveExChannelMember(c, key);
      InsertPostPayload(h, payload);
    }

    method InsertLeave(p: Post, h: Hash, payload: Bytes)
      requires p.body.Leave? && payload == Encode(p)
      modifies this
      ensures State() == S.InsertStored(old(State()), p, h).(channels := old(channels))
    {
      hide Encode, S.PutAt, S.PushAt, S.RemoveMember;
      var c, key := p.body.channel, p.header.publicKey;
      UpdateChannelMembershipHashes(c, key, h);
      RemoveChannelMember(c, key);
      InsertExChannelMember(c, key);
      InsertPostPayload(h, payload);
    }

    method InsertInfo(p: Post, h: Hash, payload: Bytes)
      requires p.body.Info? && payload == Encode(p)
      modifies this
      ensures State() == S.InsertStored(old(State()), p, h).(channels := old(channels))
    {
      hide Encode, S.UpdatePosts, S.PushAt, S.InsertNames;
      UpdatePosts(p, None, h);
      InsertNames(p.header.publicKey, p.body.info, p.header.timestamp, h);
      InsertInfoHash(p.header.publicKey, h);
      InsertPostPayload(h, payload);
    }

    /** `insert_post` */
    method InsertPost(p: Post) returns (r: Result<Hash>)
      modifies this
      ensures (State(), r) == S.InsertPost(crypto, old(State()), p)
    {
      hide S.DeleteListed, Encode, S.PostsAfter, S.TopicsAfter, S.NamesAfter, S.InfosAfter;
      hide S.MembershipAfter, S.MembersAfter;
      var payload := ToBytes(p);
      if payload.Err? {
        return Err(payload.error);
      }
      var h := crypto.digest(payload.value);
      match p.body {
        case TextPost(_, _) => InsertChannelPost(p, h, payload.value);
        case Join(_) => InsertJoin(p, h, payload.value);
        case Leave(_) => InsertLeave(p, h, payload.value);
        case Topic(_, _) => InsertChannelPost(p, h, payload.value);
        case Delete(hashes) =>
          var d := DeleteListed(p.header.publicKey, hashes, h);
          if d.Err? {
            return Err(d.error);
          }
          DeleteStored(State(), p, h);
          InsertPostPayload(h, payload.value);
        case Info(_) => InsertInfo(p, h, payload.value);
        case UnrecognizedPost(_) =>
      }
      var channel := ChannelOf(p);
      if channel.Some? {
        InsertChannel(channel.value);
      }
      return Ok(h);
    }
  }

  /** A delete post is in no index but that of the payloads. */
  lemma DeleteStored(s: S.Store, p: Post, h: Hash)
    requires p.body.Delete?
    ensures S.InsertStored(s, p, h) == s.(payloads := s.payloads[h := Encode(p)])
  {
  }
}
