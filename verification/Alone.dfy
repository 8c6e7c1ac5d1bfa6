/**
 * The tasks of `Admission`, each run alone: they do to the shared state what the steps of `Manager` do
 * (cable_core/src/manager.rs, cable_core/src/store.rs).
 */
module Alone {
  import opened Wire
  import P = Posts
  import opened Store
  import opened Steps
  import opened Queries
  import opened Admission
  import M = Manager
  import Messages

  /** `n` turns of one task. */
  function Turns(id: nat, n: nat): seq<Turn> {
    if n == 0 then [] else [Advance(id)] + Turns(id, n - 1)
  }

  /** Turns of that task, and of no other, lead from `w` to `end`. */
  ghost predicate Solo(crypto: P.Crypto, w: World, id: nat, end: World) {
    exists n: nat :: Leads(crypto, w, Turns(id, n), end)
  }

  /** The task begins, has all the turns, and is done. */
  ghost predicate DoneAlone(crypto: P.Crypto, w: World, id: nat, t: Task, end: World) {
    Enabled(w, Begin(id, t)) && Solo(crypto, Step(crypto, w, Begin(id, t)), id, end) && end.tasks == w.tasks
  }

  /** The state that the tasks share is that of the peer. */
  ghost predicate Shares(w: World, st: M.Manager) {
    w.deleted == st.deleted && w.requested == st.requested && w.store == st.store
  }

  lemma SoloNone(crypto: P.Crypto, w: World, id: nat)
    ensures Solo(crypto, w, id, w)
  {
    assert Leads(crypto, w, Turns(id, 0), w);
  }

  lemma SoloStep(crypto: P.Crypto, w: World, id: nat, end: World)
    requires Enabled(w, Advance(id)) && Solo(crypto, Step(crypto, w, Advance(id)), id, end)
    ensures Solo(crypto, w, id, end)
  {
    hide Enabled, Step;
    var n: nat :| Leads(crypto, Step(crypto, w, Advance(id)), Turns(id, n), end);
    assert Turns(id, n + 1)[0] == Advance(id) && Turns(id, n + 1)[1..] == Turns(id, n);
    assert Leads(crypto, w, Turns(id, n + 1), end);
  }

  lemma {:induction false} TurnsThen(crypto: P.Crypto, w: World, id: nat, n: nat, mid: World, end: World)
    requires Leads(crypto, w, Turns(id, n), mid) && Solo(crypto, mid, id, end)
    ensures Solo(crypto, w, id, end)
    decreases n
  {
    hide Enabled, Step, Solo;
    if n > 0 {
      assert Turns(id, n)[0] == Advance(id) && Turns(id, n)[1..] == Turns(id, n - 1);
      TurnsThen(crypto, Step(crypto, w, Advance(id)), id, n - 1, mid, end);
      SoloStep(crypto, w, id, end);
    }
  }

  lemma SoloThen(crypto: P.Crypto, w: World, id: nat, mid: World, end: World)
    requires Solo(crypto, w, id, mid) && Solo(crypto, mid, id, end)
    ensures Solo(crypto, w, id, end)
  {
    hide Leads, Turns;
    var n: nat :| Leads(crypto, w, Turns(id, n), mid);
    TurnsThen(crypto, w, id, n, mid, end);
  }

  // The operations of an insertion.

  predicate Working(t: Task) {
    t.Admitting? || t.Deleting? || t.Publishing?
  }

  /** `end` is `cur` with its task at its end, or gone, and the store as the operations leave it. */
  ghost predicate WorkedOff(cur: World, id: nat, end: World)
    requires id in cur.tasks && Working(cur.tasks[id])
  {
    var (s, ok) := RunOps(cur.store, cur.tasks[id].ops);
    && end.store == s && end.deleted == cur.deleted && end.requested == cur.requested
    && end.tasks == if ok then cur.tasks[id := WithOps(cur.tasks[id], [])] else cur.tasks - {id}
  }

  lemma {:induction false} WorkOff(crypto: P.Crypto, cur: World, id: nat) returns (end: World)
    requires id in cur.tasks && Working(cur.tasks[id])
    ensures Solo(crypto, cur, id, end) && WorkedOff(cur, id, end)
    decreases Weight(cur.tasks[id].ops)
  {
    hide Solo, Apply, Found, RunOps;
    var ops := cur.tasks[id].ops;
    if ops == [] {
      end := cur;
      SoloNone(crypto, cur, id);
      RunNothing(cur.store);
    } else {
      RunStep(cur.store, ops);
      var next := Step(crypto, cur, Advance(id));
      if Found(cur.store, ops[0]).None? {
        end := next;
        SoloNone(crypto, next, id);
      } else {
        FoundWeight(cur.store, ops[0]);
        WeightConcat(Found(cur.store, ops[0]).value, ops[1..]);
        end := WorkOff(crypto, next, id);
      }
      SoloStep(crypto, cur, id, end);
    }
  }

  // Local posts and deletions.

  /** A task with its insertion ahead of it, run to its end. */
  lemma Inserted(crypto: P.Crypto, cur: World, id: nat, p: P.Post) returns (end: World)
    requires id in cur.tasks && (cur.tasks[id].Deleting? || cur.tasks[id].Publishing?)
    requires cur.tasks[id].ops == InsertOps(p, P.HashOf(crypto, p)) && !p.body.UnrecognizedPost?
    ensures Solo(crypto, cur, id, end) && end.tasks == cur.tasks - {id}
    ensures end.store == InsertPost(crypto, cur.store, p).0
    ensures end.deleted == cur.deleted && end.requested == cur.requested
  {
    hide Solo, RunOps, InsertOps, InsertPost, P.HashOf, ListedBy;
    InsertRefined(crypto, cur.store, p);
    end := WorkOff(crypto, cur, id);
    if id in end.tasks {
      var mid := end;
      end := Step(crypto, mid, Advance(id));
      SoloNone(crypto, end, id);
      SoloStep(crypto, mid, id, end);
      SoloThen(crypto, cur, id, mid, end);
    }
  }

  /** `post` run alone is the step of the state machine. */
  lemma PublishAlone(crypto: P.Crypto, w: World, id: nat, p: P.Post, st: M.Manager, choices: M.Choices)
    returns (end: World)
    requires Shares(w, st) && id !in w.tasks && !p.body.UnrecognizedPost?
    ensures DoneAlone(crypto, w, id, Composing(p), end)
    ensures Shares(end, M.Publish(crypto, st, p, choices).state)
  {
    hide Solo, InsertOps, InsertPost, P.HashOf, M.SendPostHashes, M.SendToChannels;
    var begun := Step(crypto, w, Begin(id, Composing(p)));
    var cur := Step(crypto, begun, Advance(id));
    end := Inserted(crypto, cur, id, p);
    SoloStep(crypto, begun, id, end);
    assert end.tasks == w.tasks;
  }

  /** So is `post_delete`, once nobody keeps the deleted posts from being written. */
  lemma DeleteAlone(crypto: P.Crypto, w: World, id: nat, p: P.Post, st: M.Manager, choices: M.Choices)
    returns (end: World)
    requires Shares(w, st) && id !in w.tasks && p.body.Delete? && DeletedFree(w)
    ensures DoneAlone(crypto, w, id, Barring(p), end)
    ensures Shares(end, M.PublishDelete(crypto, st, p, choices).state)
  {
    hide Solo, InsertOps, InsertPost, P.HashOf, M.SendPostHashes, M.SendToChannels;
    var begun := Step(crypto, w, Begin(id, Barring(p)));
    var cur := Step(crypto, begun, Advance(id));
    end := Inserted(crypto, cur, id, p);
    SoloStep(crypto, begun, id, end);
    assert end.tasks == w.tasks;
  }

  // Responses.

  /** A hash response run alone. */
  lemma HashAlone(crypto: P.Crypto, w: World, id: nat, hashes: seq<Hash>, st: M.Manager, peer: M.PeerId,
                  m: Messages.Message)
    returns (end: World)
    requires Shares(w, st) && id !in w.tasks && RequestedFree(w)
    ensures DoneAlone(crypto, w, id, Hashing(hashes), end)
    ensures Shares(end, M.HandleHashes(st, peer, m, hashes).state)
  {
    hide Solo, Want, M.ReqIdBytes;
    var begun := Step(crypto, w, Begin(id, Hashing(hashes)));
    var cur := Step(crypto, begun, Advance(id));
    if Want(w.store, hashes) == [] {
      end := cur;
      SoloNone(crypto, end, id);
    } else {
      end := Step(crypto, cur, Advance(id));
      SoloNone(crypto, end, id);
      SoloStep(crypto, cur, id, end);
    }
    SoloStep(crypto, begun, id, end);
    assert end.tasks == w.tasks;
  }

  /** What is left after the post response: the shared state as the state machine has it, and the task gone. */
  ghost predicate Answered(crypto: P.Crypto, cur: World, id: nat, posts: seq<Bytes>, end: World) {
    var a := M.AdmitPosts(crypto, cur.deleted, cur.requested, cur.store, posts);
    && end.requested == a.requested && end.store == a.store && end.deleted == cur.deleted
    && end.tasks == cur.tasks - {id}
  }

  /** No other task keeps the requested posts from being written. */
  ghost predicate OthersFree(w: World, id: nat) {
    forall k | k in w.tasks && k != id :: !w.tasks[k].Admitting?
  }

  lemma {:induction false} RespondOn(crypto: P.Crypto, cur: World, id: nat, posts: seq<Bytes>) returns (end: World)
    requires id in cur.tasks && cur.tasks[id] == Responding(posts) && OthersFree(cur, id)
    ensures Solo(crypto, cur, id, end) && Answered(crypto, cur, id, posts, end)
    decreases 2 * |posts|
  {
    hide Solo, InsertPost, P.HashOf, P.Verify, P.Decode, InsertOps;
    var next := Step(crypto, cur, Advance(id));
    if id !in next.tasks {
      end := next;
      SoloNone(crypto, next, id);
    } else if next.tasks[id].Responding? {
      end := RespondOn(crypto, next, id, posts[1..]);
    } else {
      end := CheckedOn(crypto, next, id, posts);
    }
    SoloStep(crypto, cur, id, end);
  }

  lemma {:induction false} CheckedOn(crypto: P.Crypto, cur: World, id: nat, posts: seq<Bytes>) returns (end: World)
    requires id in cur.tasks && OthersFree(cur, id) && posts != [] && P.Verify(crypto, posts[0])
    requires P.Decode(posts[0]).Ok? && P.Decode(posts[0]).value.0 == |posts[0]|
    requires var p := P.Decode(posts[0]).value.1;
             && cur.tasks[id] == Checked(p, posts[1..]) && !p.body.UnrecognizedPost?
             && P.HashOf(crypto, p) !in cur.deleted
    ensures Solo(crypto, cur, id, end) && Answered(crypto, cur, id, posts, end)
    decreases 2 * |posts| - 1
  {
    hide Solo, InsertPost, P.HashOf, P.Verify, P.Decode, InsertOps, RunOps;
    var p := P.Decode(posts[0]).value.1;
    assert Enabled(cur, Advance(id));
    var next := Step(crypto, cur, Advance(id));
    if next.tasks[id].Responding? {
      end := RespondOn(crypto, next, id, posts[1..]);
    } else {
      InsertRefined(crypto, next.store, p);
      var mid := WorkOff(crypto, next, id);
      if id in mid.tasks {
        var again := Step(crypto, mid, Advance(id));
        end := RespondOn(crypto, again, id, posts[1..]);
        SoloStep(crypto, mid, id, end);
        SoloThen(crypto, next, id, mid, end);
        assert again.tasks - {id} == cur.tasks - {id};
      } else {
        end := mid;
        assert end.tasks == cur.tasks - {id};
        assert InsertPost(crypto, cur.store, p).1.Err?;
      }
    }
    SoloStep(crypto, cur, id, end);
  }

  /** A post response run alone is the loop of the state machine over its posts. */
  lemma RespondAlone(crypto: P.Crypto, w: World, id: nat, posts: seq<Bytes>, st: M.Manager) returns (end: World)
    requires Shares(w, st) && id !in w.tasks && RequestedFree(w)
    ensures DoneAlone(crypto, w, id, Responding(posts), end)
    ensures Shares(end, M.HandlePosts(crypto, st, posts).state)
  {
    hide Solo, M.AdmitPosts;
    end := RespondOn(crypto, Step(crypto, w, Begin(id, Responding(posts))), id, posts);
    assert end.tasks == w.tasks;
  }
}
