/**
 What the first delivery of each activity leaves in the tables, column by column, and what the
 follow API leaves.  The premises name the statements that must not fail; whatever else fails
 does not matter.
 */
module InboxEffects {
  import opened Basics
  import opened Inbox
  import opened InboxProperties
  import Sanitizer

  /** The activity is new, and these statements succeed. */
  predicate First(db: Db, e: Event, needed: set<Statement>) {
    e.activity.id !in db.activities && Gate !in e.env.fails && Stamp !in e.env.fails && needed !! e.env.fails
  }

  /** The log gains just this activity, as processed. */
  predicate LoggedAndProcessed(db: Db, e: Event, after: Db) {
    after.domain == db.domain && after.activities == db.activities[e.activity.id := LogRow(true, true)]
  }

  /** The tables that follows do not touch. */
  predicate SameActorsAndClips(db: Db, after: Db) {
    after.actors == db.actors && after.tombstones == db.tombstones && after.clips == db.clips
  }

  /** The tables that clips do not touch. */
  predicate SameActorsAndFollows(db: Db, after: Db) {
    && after.actors == db.actors && after.tombstones == db.tombstones
    && after.follows == db.follows && after.jobs == db.jobs
  }

  /** Nothing but the log changes, which records just this activity, as processed. */
  predicate OnlyLogged(db: Db, e: Event, after: Db) {
    after == db.(activities := db.activities[e.activity.id := LogRow(true, true)])
  }

  // ------------------------------------------------------------ follows

  /** An upsert without an id keeps the id the row has; one with an id replaces it; the state is always replaced. */
  lemma UpsertColumns(t: FollowTable, pair: (ApId, ApId), id: ActivityId, row: FollowRow, state: FollowState)
    ensures UpsertFollow(t, pair, Some(id), state) == t[pair := FollowRow(Some(id), state)]
    ensures UpsertFollow(t[pair := row], pair, None, state) == t[pair := FollowRow(row.activityId, state)]
    ensures pair !in t ==> UpsertFollow(t, pair, None, state) == t[pair := FollowRow(None, state)]
  {
  }

  predicate FollowIsOurs(db: Db, a: Activity) {
    && a.body.Follow? && a.body.target.host == db.domain && a.body.target !in db.tombstones
    && a.body.target in db.actors && a.actor in db.actors
  }

  /** A Follow of an open account is accepted at once, under the Follow's id, and an Accept goes back. */
  lemma FollowIsAccepted(db: Db, e: Event, after: Db)
    requires First(db, e, {Lookup, WriteFollow, FlipFollow, Enqueue}) && after == Receive(db, e).db
    requires var a := e.activity;
             FollowIsOurs(db, a) && !db.actors[a.body.target].locked && e.env.acceptId != a.id
    ensures var a := e.activity;
            && after.follows == db.follows[(a.actor, a.body.target) := FollowRow(Some(a.id), Accepted)]
            && after.jobs == db.jobs + [Deliver(a.actor, Activity(e.env.acceptId, a.body.target, Accept(a.id)))]
            && SameActorsAndClips(db, after) && after.domain == db.domain
    ensures var logged := db.activities[e.activity.id := LogRow(true, true)];
            after.activities == if LogAccept in e.env.fails || e.env.acceptId in db.activities then logged
                                else logged[e.env.acceptId := LogRow(false, false)]
    ensures Receive(db, e).ok
  {
  }

  /** A Follow of a locked account waits for approval, and nothing is sent. */
  lemma FollowIsRequested(db: Db, e: Event, after: Db)
    requires First(db, e, {Lookup, WriteFollow}) && after == Receive(db, e).db
    requires FollowIsOurs(db, e.activity) && db.actors[e.activity.body.target].locked
    ensures var a := e.activity;
            && LoggedAndProcessed(db, e, after)
            && after.follows == db.follows[(a.actor, a.body.target) := FollowRow(Some(a.id), Requested)]
            && after.jobs == db.jobs && SameActorsAndClips(db, after)
  {
  }

  /** A Follow that fails half-way keeps what was written before, and stays unprocessed. */
  lemma FollowFailsHalfWay(db: Db, e: Event, after: Db)
    requires First(db, e, {Lookup, WriteFollow}) && FollowIsOurs(db, e.activity)
    requires !db.actors[e.activity.body.target].locked
    requires after == Receive(db, e).db && e.env.acceptId != e.activity.id
    ensures var a := e.activity;
            var pair := (a.actor, a.body.target);
            && (FlipFollow in e.env.fails ==> after.follows == db.follows[pair := FollowRow(Some(a.id), Requested)])
            && (FlipFollow !in e.env.fails ==> after.follows == db.follows[pair := FollowRow(Some(a.id), Accepted)])
            && (FlipFollow in e.env.fails || Enqueue in e.env.fails ==>
                  && !Receive(db, e).ok && after.jobs == db.jobs
                  && a.id in after.activities && after.activities[a.id] == LogRow(true, false))
  {
  }

  /** An activity whose insert at the gate fails leaves no trace, so that a later copy is a first one. */
  lemma GateFailureLeavesNoTrace(db: Db, e: Event)
    requires Gate in e.env.fails
    ensures Receive(db, e) == Outcome(db, false)
  {
  }

  /** A Follow of a deleted or a remote account is only logged; one with an unknown actor stays unprocessed. */
  lemma FollowIsNotOurs(db: Db, e: Event)
    requires First(db, e, {Lookup}) && e.activity.body.Follow?
    ensures var t, a := e.activity.body.target, e.activity;
            && (t in db.tombstones || (t in db.actors && t.host != db.domain) ==> OnlyLogged(db, e, Receive(db, e).db))
            && (t !in db.tombstones && (t !in db.actors || (t.host == db.domain && a.actor !in db.actors)) ==>
                  Receive(db, e) == Outcome(db.(activities := db.activities[a.id := LogRow(true, false)]), false))
  {
  }

  lemma AcceptFlips(db: Db, e: Event, pair: (ApId, ApId), id: ActivityId, after: Db)
    requires First(db, e, {Lookup, FlipFollow}) && e.activity.body == Accept(id) && after == Receive(db, e).db
    requires FollowIdsDistinct(db.follows) && HasActivityId(db.follows, pair, id)
    ensures LoggedAndProcessed(db, e, after)
    ensures after.follows == db.follows[pair := FollowRow(Some(id), Accepted)]
    ensures after.jobs == db.jobs + if Enqueue in e.env.fails then [] else [Backfill(pair.1)]
    ensures SameActorsAndClips(db, after)
  {
    FetchFinds(db.follows, pair, id);
  }

  lemma RejectFlips(db: Db, e: Event, pair: (ApId, ApId), id: ActivityId, after: Db)
    requires First(db, e, {Lookup, FlipFollow}) && e.activity.body == Reject(id) && after == Receive(db, e).db
    requires FollowIdsDistinct(db.follows) && HasActivityId(db.follows, pair, id)
    ensures LoggedAndProcessed(db, e, after)
    ensures after.follows == db.follows[pair := FollowRow(Some(id), Rejected)]
    ensures after.jobs == db.jobs && SameActorsAndClips(db, after)
  {
    FetchFinds(db.follows, pair, id);
  }

  lemma UndoRemoves(db: Db, e: Event, pair: (ApId, ApId), id: ActivityId, after: Db)
    requires First(db, e, {Lookup, DropFollow}) && e.activity.body.Undo? && after == Receive(db, e).db
    requires UndoFollowTarget(e.activity.body.undone) == Some(id)
    requires FollowIdsDistinct(db.follows) && HasActivityId(db.follows, pair, id)
    ensures LoggedAndProcessed(db, e, after)
    ensures pair !in after.follows && after.follows.Keys == db.follows.Keys - {pair}
    ensures forall p :: p in after.follows ==> after.follows[p] == db.follows[p]
    ensures after.jobs == db.jobs && SameActorsAndClips(db, after)
  {
    FetchFinds(db.follows, pair, id);
  }

  /** A copy of a logged activity is acknowledged, so its sender stops retrying, and changes nothing. */
  lemma CopyIsAcknowledged(db: Db, e: Event)
    requires e.activity.id in db.activities && Gate !in e.env.fails
    ensures Receive(db, e) == Outcome(db, true)
  {
  }

  /** An answer to a follow nobody knows, an Undo of anything else, and every other kind of activity is only logged. */
  lemma NothingToDo(db: Db, e: Event)
    requires First(db, e, {Lookup})
    requires match e.activity.body
             case Accept(id) => forall pair :: !HasActivityId(db.follows, pair, id)
             case Reject(id) => forall pair :: !HasActivityId(db.follows, pair, id)
             case Undo(o) =>
               var id := UndoFollowTarget(o);
               id.None? || forall pair :: !HasActivityId(db.follows, pair, id.value)
             case Other => true
             case _ => false
    ensures OnlyLogged(db, e, Receive(db, e).db)
  {
    match e.activity.body
    case Accept(id) => assert FetchByActivityId(db.follows, id).None?;
    case Reject(id) => assert FetchByActivityId(db.follows, id).None?;
    case Undo(o) => assert UndoFollowTarget(o).Some? ==> FetchByActivityId(db.follows, UndoFollowTarget(o).value).None?;
    case _ =>
  }

  // ------------------------------------------------------------ clips

  /** Captions: absent stays absent, text is sanitized, and text of which nothing is left is stored as absent. */
  lemma StoredCaptionIs(text: string)
    ensures StoredCaption(None) == None
    ensures Sanitizer.Sanitize(text) == "" ==> StoredCaption(Some(text)) == None
    ensures Sanitizer.Sanitize(text) != "" ==> StoredCaption(Some(text)) == Some(Sanitizer.Sanitize(text))
  {
  }

  /** A live clip with the columns of a note. */
  function RowOf(owner: ApId, note: NoteObject): (row: ClipRow) {
    ClipRow(owner, StoredCaption(note.content), note.sensitive, note.summary, false)
  }

  /** A Create by the author of a video note stores the clip with the note's columns. */
  lemma CreateStores(db: Db, e: Event, o: ApId, after: Db)
    requires First(db, e, {Lookup, InsertClip}) && e.activity.body.Create? && after == Receive(db, e).db
    requires var note := e.activity.body.note;
             && note.id == Some(o) && o !in db.tombstones && o !in db.clips && note.isVideoNote && e.env.actorResolves
             && note.attributedTo == Some(e.activity.actor) && e.activity.actor.host != db.domain
    ensures var note := e.activity.body.note;
            && LoggedAndProcessed(db, e, after)
            && after.clips == db.clips[o := RowOf(e.activity.actor, note)] && SameActorsAndFollows(db, after)
  {
  }

  /** Any other Create is only logged. */
  lemma CreateIgnored(db: Db, e: Event)
    requires First(db, e, {Lookup, InsertClip}) && e.activity.body.Create?
    requires var note := e.activity.body.note;
             || note.id.None? || note.id.value in db.tombstones || note.id.value in db.clips || !note.isVideoNote
             || !e.env.actorResolves || note.attributedTo != Some(e.activity.actor)
             || e.activity.actor.host == db.domain
    ensures OnlyLogged(db, e, Receive(db, e).db)
  {
  }

  /** An Update by the owner of a live clip replaces caption, sensitivity and content warning, and nothing else. */
  lemma UpdateRefreshes(db: Db, e: Event, o: ApId, after: Db)
    requires First(db, e, {Lookup, UpdateClip}) && e.activity.body.Update? && after == Receive(db, e).db
    requires e.activity.body.note.id == Some(o) && Live(db, o) && db.clips[o].owner == e.activity.actor
    ensures var note := e.activity.body.note;
            && LoggedAndProcessed(db, e, after)
            && after.clips == db.clips[o := RowOf(e.activity.actor, note)] && SameActorsAndFollows(db, after)
  {
  }

  /** Any other Update is only logged. */
  lemma UpdateIgnored(db: Db, e: Event)
    requires First(db, e, {Lookup, UpdateClip}) && e.activity.body.Update?
    requires var id := e.activity.body.note.id;
             id.None? || !Live(db, id.value) || db.clips[id.value].owner != e.activity.actor
    ensures OnlyLogged(db, e, Receive(db, e).db)
  {
  }

  /** A Delete by the owner tombstones the clip and marks it deleted, keeping its columns. */
  lemma DeleteMarksClip(db: Db, e: Event, o: ApId, after: Db)
    requires First(db, e, {Lookup, WriteTombstone, MarkClip}) && e.activity.body == Delete(o)
    requires after == Receive(db, e).db && o in db.clips && db.clips[o].owner == e.activity.actor
    ensures LoggedAndProcessed(db, e, after) && after.tombstones == db.tombstones + {o}
    ensures var row := db.clips[o];
            after.clips == db.clips[o := ClipRow(row.owner, row.caption, row.sensitive, row.cw, true)]
    ensures after.follows == db.follows && after.jobs == db.jobs && after.actors == db.actors
  {
  }

  /** A stranger's Delete of a known clip is only logged. */
  lemma DeleteByStrangerIgnored(db: Db, e: Event, o: ApId)
    requires First(db, e, {Lookup}) && e.activity.body == Delete(o)
    requires o in db.clips && db.clips[o].owner != e.activity.actor
    ensures OnlyLogged(db, e, Receive(db, e).db)
  {
  }

  /** A Delete of anything else tombstones it, and marks an actor of that id deleted. */
  lemma DeleteMarksActor(db: Db, e: Event, o: ApId, after: Db)
    requires First(db, e, {Lookup, WriteTombstone}) && e.activity.body == Delete(o)
    requires o !in db.clips && after == Receive(db, e).db
    ensures LoggedAndProcessed(db, e, after) && after.tombstones == db.tombstones + {o}
    ensures o in db.actors && MarkActor !in e.env.fails ==>
              after.actors == db.actors[o := ActorRow(db.actors[o].locked, true)]
    ensures o !in db.actors || MarkActor in e.env.fails ==> after.actors == db.actors
    ensures after.follows == db.follows && after.jobs == db.jobs && after.clips == db.clips
  {
  }

  // ------------------------------------------------------------ the follow API

  /** Following a local account takes effect at once and sends nothing; following a remote one is requested and sent. */
  lemma ApiFollowIs(db: Db, follower: ApId, target: ApId, id: ActivityId, after: Db)
    requires after == ApiFollow(db, follower, target, id) && id !in db.activities
    ensures follower == target ==> after == db
    ensures follower != target && target.host == db.domain ==>
              && after.follows == db.follows[(follower, target) := FollowRow(Some(id), Accepted)]
              && after.jobs == db.jobs
    ensures follower != target && target.host != db.domain ==>
              && after.follows == db.follows[(follower, target) := FollowRow(Some(id), Requested)]
              && after.jobs == db.jobs + [Deliver(target, Activity(id, follower, Follow(target)))]
    ensures follower != target ==> after.activities == db.activities[id := LogRow(false, false)]
    ensures after.domain == db.domain && SameActorsAndClips(db, after)
  {
  }

  /** Unfollowing removes the row and sends an Undo of the follow it carried; without such a row nothing happens. */
  lemma ApiUnfollowIs(db: Db, follower: ApId, target: ApId, id: ActivityId, follow: ActivityId, after: Db)
    requires after == ApiUnfollow(db, follower, target, id) && id !in db.activities
    ensures (forall f :: !HasActivityId(db.follows, (follower, target), f)) ==> after == db
    ensures HasActivityId(db.follows, (follower, target), follow) ==>
              && after.follows == db.follows - {(follower, target)}
              && after.activities == db.activities[id := LogRow(false, false)]
              && after.jobs == db.jobs + [Deliver(target, Activity(id, follower, Undo(Object(true, Some(follow)))))]
              && after.domain == db.domain && SameActorsAndClips(db, after)
  {
    var pair := (follower, target);
    if pair in db.follows && db.follows[pair].activityId.Some? {
      assert HasActivityId(db.follows, pair, db.follows[pair].activityId.value);
    }
  }
}
