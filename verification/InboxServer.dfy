/**
 The inbox as the server runs it: mutable tables, each handler a sequence of statements.
 Every method is proved to have the effect of its function in `Inbox`.
 */
module InboxServer {
  import opened Basics
  import opened Inbox
  import opened InboxProperties

  class Server {
    const domain: nat
    var actors: map<ApId, ActorRow>
    var activities: map<ActivityId, LogRow>
    var follows: FollowTable
    var tombstones: set<ApId>
    var clips: map<ApId, ClipRow>
    var jobs: seq<Job>

    ghost function Tables(): (db: Db)
      reads this
    {
      Db(domain, actors, activities, follows, tombstones, clips, jobs)
    }

    ghost predicate Valid()
      reads this
    {
      FollowIdsUnambiguous(Tables())
    }

    constructor (domain: nat, actors: map<ApId, ActorRow>)
      ensures Valid() && Tables() == Db(domain, actors, map[], map[], {}, map[], [])
    {
      this.domain := domain;
      this.actors := actors;
      activities, follows, tombstones, clips, jobs := map[], map[], {}, map[], [];
    }

    /** `inbound_begin`: `Some(false)` when the activity was received before, `None` when the insert failed. */
    method InboundBegin(id: ActivityId, env: Env) returns (inserted: Option<bool>)
      modifies this`activities
      ensures inserted == if Gate in env.fails then None else Some(id !in old(activities))
      ensures activities == if Gate in env.fails then old(activities) else LogActivity(old(activities), id, true)
    {
      if Gate in env.fails {
        return None;
      }
      if id in activities {
        return Some(false);
      }
      activities := activities[id := LogRow(true, false)];
      return Some(true);
    }

    /** `inbound_finish`: false when the stamp failed. */
    method InboundFinish(id: ActivityId, env: Env) returns (ok: bool)
      modifies this`activities
      ensures ok <==> Stamp !in env.fails
      ensures activities == if ok then StampProcessed(old(activities), id) else old(activities)
    {
      if Stamp in env.fails {
        return false;
      }
      if id in activities && !activities[id].processed {
        activities := activities[id := activities[id].(processed := true)];
      }
      return true;
    }

    method FindFollow(id: ActivityId) returns (r: Option<(ApId, ApId)>)
      requires FollowIdsDistinct(follows)
      ensures r == FetchByActivityId(follows, id)
    {
      if pair :| pair in follows && follows[pair].activityId == Some(id) {
        assert HasActivityId(follows, pair, id);
        r := Some(pair);
      } else {
        r := None;
        assert forall pair :: !HasActivityId(follows, pair, id);
      }
    }

    method ReceiveFollow(a: Activity, env: Env) returns (ok: bool)
      requires a.body.Follow?
      modifies this
      ensures Outcome(Tables(), ok) == Receive(old(Tables()), Event(a, env))
    {
      var first := InboundBegin(a.id, env);
      if first != Some(true) {
        return first.Some?;
      }
      if Lookup in env.fails {
        return false;
      }
      var target := a.body.target;
      if target in tombstones {
        ok := InboundFinish(a.id, env);
        return;
      }
      if target !in actors {
        return false;
      }
      if target.host != domain {
        ok := InboundFinish(a.id, env);
        return;
      }
      if a.actor !in actors || WriteFollow in env.fails {
        return false;
      }
      var pair := (a.actor, target);
      follows := UpsertFollow(follows, pair, Some(a.id), Requested);
      if !actors[target].locked {
        if FlipFollow in env.fails {
          return false;
        }
        follows := SetFollowState(follows, pair, Accepted);
        var accept := AcceptActivity(env, a);
        if LogAccept !in env.fails {
          activities := LogActivity(activities, accept.id, false);
        }
        if Enqueue in env.fails {
          return false;
        }
        jobs := jobs + [Deliver(a.actor, accept)];
      }
      ok := InboundFinish(a.id, env);
    }

    method ReceiveAccept(a: Activity, env: Env) returns (ok: bool)
      requires a.body.Accept? && FollowIdsDistinct(follows)
      modifies this
      ensures Outcome(Tables(), ok) == Receive(old(Tables()), Event(a, env))
    {
      var first := InboundBegin(a.id, env);
      if first != Some(true) {
        return first.Some?;
      }
      if Lookup in env.fails {
        return false;
      }
      var row := FindFollow(a.body.follow);
      if row.Some? {
        if FlipFollow in env.fails {
          return false;
        }
        follows := SetFollowState(follows, row.value, Accepted);
        if Enqueue !in env.fails {
          jobs := jobs + [Backfill(row.value.1)];
        }
      }
      ok := InboundFinish(a.id, env);
    }

    method ReceiveReject(a: Activity, env: Env) returns (ok: bool)
      requires a.body.Reject? && FollowIdsDistinct(follows)
      modifies this
      ensures Outcome(Tables(), ok) == Receive(old(Tables()), Event(a, env))
    {
      var first := InboundBegin(a.id, env);
      if first != Some(true) {
        return first.Some?;
      }
      if Lookup in env.fails {
        return false;
      }
      var row := FindFollow(a.body.follow);
      if row.Some? {
        if FlipFollow in env.fails {
          return false;
        }
        follows := SetFollowState(follows, row.value, Rejected);
      }
      ok := InboundFinish(a.id, env);
    }

    method ReceiveUndo(a: Activity, env: Env) returns (ok: bool)
      requires a.body.Undo? && FollowIdsDistinct(follows)
      modifies this
      ensures Outcome(Tables(), ok) == Receive(old(Tables()), Event(a, env))
    {
      var first := InboundBegin(a.id, env);
      if first != Some(true) {
        return first.Some?;
      }
      var target := UndoFollowTarget(a.body.undone);
      if target.None? {
        ok := InboundFinish(a.id, env);
        return;
      }
      if Lookup in env.fails {
        return false;
      }
      var row := FindFollow(target.value);
      if row.Some? {
        if DropFollow in env.fails {
          return false;
        }
        follows := DeleteFollow(follows, row.value);
      }
      ok := InboundFinish(a.id, env);
    }

    method ReceiveDelete(a: Activity, env: Env) returns (ok: bool)
      requires a.body.Delete?
      modifies this
      ensures Outcome(Tables(), ok) == Receive(old(Tables()), Event(a, env))
    {
      var first := InboundBegin(a.id, env);
      if first != Some(true) {
        return first.Some?;
      }
      if Lookup in env.fails {
        return false;
      }
      var id := a.body.deleted;
      if id in clips {
        if clips[id].owner == a.actor {
          if WriteTombstone in env.fails {
            return false;
          }
          tombstones := tombstones + {id};
          if MarkClip in env.fails {
            return false;
          }
          clips := clips[id := clips[id].(deleted := true)];
        }
        ok := InboundFinish(a.id, env);
        return;
      }
      if WriteTombstone in env.fails {
        return false;
      }
      tombstones := tombstones + {id};
      if MarkActor !in env.fails {
        actors := MarkActorDeleted(actors, id);
      }
      ok := InboundFinish(a.id, env);
    }

    method ReceiveCreate(a: Activity, env: Env) returns (ok: bool)
      requires a.body.Create?
      modifies this
      ensures Outcome(Tables(), ok) == Receive(old(Tables()), Event(a, env))
    {
      var first := InboundBegin(a.id, env);
      if first != Some(true) {
        return first.Some?;
      }
      var note := a.body.note;
      if note.id.None? {
        ok := InboundFinish(a.id, env);
        return;
      }
      if Lookup in env.fails {
        return false;
      }
      if note.id.value in tombstones || !note.isVideoNote || note.attributedTo.None? {
        ok := InboundFinish(a.id, env);
        return;
      }
      var attributed := note.attributedTo.value;
      if attributed.host == domain || attributed != a.actor || !env.actorResolves {
        ok := InboundFinish(a.id, env);
        return;
      }
      var caption := StoredCaption(note.content);
      if InsertClip in env.fails {
        return false;
      }
      if note.id.value !in clips {
        clips := clips[note.id.value := ClipRow(a.actor, caption, note.sensitive, note.summary, false)];
      }
      ok := InboundFinish(a.id, env);
    }

    method ReceiveUpdate(a: Activity, env: Env) returns (ok: bool)
      requires a.body.Update?
      modifies this
      ensures Outcome(Tables(), ok) == Receive(old(Tables()), Event(a, env))
    {
      var first := InboundBegin(a.id, env);
      if first != Some(true) {
        return first.Some?;
      }
      var note := a.body.note;
      if note.id.Some? {
        if Lookup in env.fails {
          return false;
        }
        if note.id.value in clips {
          var row := clips[note.id.value];
          if row.owner == a.actor && !row.deleted {
            var caption := StoredCaption(note.content);
            if UpdateClip in env.fails {
              return false;
            }
            clips := clips[note.id.value := row.(caption := caption, sensitive := note.sensitive, cw := note.summary)];
          }
        }
      }
      ok := InboundFinish(a.id, env);
    }

    /** `ApActivities::receive`: dispatch on the activity type. */
    method ReceiveActivity(a: Activity, env: Env) returns (ok: bool)
      requires Valid()
      modifies this
      ensures Valid()
      ensures Outcome(Tables(), ok) == Receive(old(Tables()), Event(a, env))
    {
      ReceiveKeepsFollowIds(Tables(), Event(a, env));
      match a.body {
        case Follow(_) => ok := ReceiveFollow(a, env);
        case Accept(_) => ok := ReceiveAccept(a, env);
        case Reject(_) => ok := ReceiveReject(a, env);
        case Undo(_) => ok := ReceiveUndo(a, env);
        case Delete(_) => ok := ReceiveDelete(a, env);
        case Create(_) => ok := ReceiveCreate(a, env);
        case Update(_) => ok := ReceiveUpdate(a, env);
        case Other =>
          var first := InboundBegin(a.id, env);
          ok := first.Some?;
          if first == Some(true) {
            ok := InboundFinish(a.id, env);
          }
      }
    }

    /** `api_follow`. */
    method Follow(follower: ApId, target: ApId, id: ActivityId)
      requires Valid() && id !in activities
      modifies this
      ensures Valid() && Tables() == ApiFollow(old(Tables()), follower, target, id)
    {
      ApiFollowKeepsFollowIds(Tables(), follower, target, id);
      if target == follower {
        return;
      }
      var local := target.host == domain;
      follows := UpsertFollow(follows, (follower, target), Some(id), if local then Accepted else Requested);
      activities := LogActivity(activities, id, false);
      if !local {
        jobs := jobs + [Deliver(target, FollowActivity(id, follower, target))];
      }
    }

    /** `api_unfollow`; false when there is no such follow. */
    method Unfollow(follower: ApId, target: ApId, id: ActivityId) returns (found: bool)
      requires Valid()
      modifies this
      ensures Valid() && Tables() == ApiUnfollow(old(Tables()), follower, target, id)
      ensures found <==> (follower, target) in old(follows) && old(follows)[(follower, target)].activityId.Some?
    {
      ApiUnfollowKeepsFollowIds(Tables(), follower, target, id);
      var pair := (follower, target);
      if pair !in follows || follows[pair].activityId.None? {
        return false;
      }
      var followId := follows[pair].activityId.value;
      follows := DeleteFollow(follows, pair);
      activities := LogActivity(activities, id, false);
      jobs := jobs + [Deliver(target, UndoActivity(id, follower, followId))];
      return true;
    }
  }
}
