/**
 The inbound ActivityPub pipeline (crates/federation/src/activity.rs) over the tables it
 writes: the insert-first idempotency gate, the tombstone check and the per-type handlers.
 One receive is one atomic step.  The functions give the effect of each handler on the
 tables as a value; the class `InboxServer` runs the handlers statement by statement on
 mutable tables and is proved to have exactly that effect.
 */
module Inbox {
  import opened Basics
  import Sanitizer

  /** The `id` of an activity, a URL; only its identity matters. */
  type ActivityId = nat

  /** An ActivityPub id: the host part decides which instance it is local to. */
  datatype ApId = ApId(host: nat, path: nat)

  /** `Undo.object` as raw JSON, as far as `undo_follow_target` looks at it. */
  datatype UndoObject =
    | Url(url: ActivityId)
    | Object(isFollow: bool, id: Option<ActivityId>)
    | Array(items: seq<UndoObject>)
    | OtherJson

  /** The embedded object of a `Create` or an `Update`. */
  datatype NoteObject = NoteObject(
    id: Option<ApId>,            // `None`: absent or empty
    isVideoNote: bool,           // passes `parse_inbound_note`
    attributedTo: Option<ApId>,  // `None`: not a URL
    content: Option<string>,
    sensitive: bool,
    summary: Option<string>)

  datatype Body =
    | Follow(target: ApId)
    | Accept(follow: ActivityId)
    | Reject(follow: ActivityId)
    | Undo(undone: UndoObject)
    | Delete(deleted: ApId)
    | Create(note: NoteObject)
    | Update(note: NoteObject)
    | Other                      // `Move` and `Passthrough`: logged only

  datatype Activity = Activity(id: ActivityId, actor: ApId, body: Body)

  datatype FollowState = Requested | Accepted | Rejected

  datatype FollowRow = FollowRow(activityId: Option<ActivityId>, state: FollowState)

  datatype ActorRow = ActorRow(locked: bool, deleted: bool)

  /** A row of `activities`: the direction and whether `processed_at` is stamped. */
  datatype LogRow = LogRow(inbound: bool, processed: bool)

  datatype ClipRow = ClipRow(owner: ApId, caption: Option<string>, sensitive: bool, cw: Option<string>, deleted: bool)

  datatype Job =
    | Deliver(to: ApId, activity: Activity)
    | Backfill(actor: ApId)

  type FollowTable = map<(ApId, ApId), FollowRow>

  datatype Db = Db(
    domain: nat,
    actors: map<ApId, ActorRow>,
    activities: map<ActivityId, LogRow>,
    follows: FollowTable,        // primary key (follower, target)
    tombstones: set<ApId>,
    clips: map<ApId, ClipRow>,   // unique ap_id
    jobs: seq<Job>)

  /** The statements of the handlers, each of which may fail. */
  datatype Statement =
    | Gate            // the insert of `inbound_begin`
    | Lookup          // the reads, which come before every write
    | WriteFollow | FlipFollow | DropFollow
    | LogAccept       // its failure is ignored
    | Enqueue         // its failure is ignored when it queues a backfill
    | WriteTombstone | MarkClip
    | MarkActor       // its failure is ignored
    | InsertClip | UpdateClip
    | Stamp           // `inbound_finish`

  /** What the environment supplies to one receive: the fresh id of an Accept, whether the actor document can be
      fetched, and which statements fail. */
  datatype Env = Env(acceptId: ActivityId, actorResolves: bool, fails: set<Statement>)

  datatype Event = Event(activity: Activity, env: Env)

  // ------------------------------------------------------------ statements on the tables

  /** `INSERT ... ON CONFLICT (activity_id) DO NOTHING`. */
  function LogActivity(log: map<ActivityId, LogRow>, id: ActivityId, inbound: bool): (r: map<ActivityId, LogRow>) {
    if id in log then log else log[id := LogRow(inbound, false)]
  }

  /** `stamp_processed`: only a row that is not stamped yet changes. */
  function StampProcessed(log: map<ActivityId, LogRow>, id: ActivityId): (r: map<ActivityId, LogRow>) {
    if id in log then log[id := log[id].(processed := true)] else log
  }

  /** `Follow::upsert`: `COALESCE` keeps the old activity id when none is given. */
  function UpsertFollow(t: FollowTable, pair: (ApId, ApId), id: Option<ActivityId>,
                        state: FollowState): (r: FollowTable) {
    var kept := if id.None? && pair in t then t[pair].activityId else id;
    t[pair := FollowRow(kept, state)]
  }

  /** `Follow::set_state`: no-op when the pair does not exist. */
  function SetFollowState(t: FollowTable, pair: (ApId, ApId), state: FollowState): (r: FollowTable) {
    if pair in t then t[pair := t[pair].(state := state)] else t
  }

  function DeleteFollow(t: FollowTable, pair: (ApId, ApId)): (r: FollowTable) {
    t - {pair}
  }

  ghost predicate HasActivityId(t: FollowTable, pair: (ApId, ApId), id: ActivityId) {
    pair in t && t[pair].activityId == Some(id)
  }

  /** `Follow::fetch_by_activity_id`: some row carrying the id. */
  ghost function FetchByActivityId(t: FollowTable, id: ActivityId): (r: Option<(ApId, ApId)>)
    ensures r.Some? ==> HasActivityId(t, r.value, id)
    ensures r.None? ==> forall pair :: !HasActivityId(t, pair, id)
  {
    if exists pair :: HasActivityId(t, pair, id) then
      var pair :| HasActivityId(t, pair, id);
      Some(pair)
    else None
  }

  /** No two follow rows carry the same activity id, although the column is not unique. */
  ghost predicate FollowIdsDistinct(t: FollowTable) {
    forall p, q, id :: HasActivityId(t, p, id) && HasActivityId(t, q, id) ==> p == q
  }

  /** Every activity id in a follow row has been logged. */
  ghost predicate FollowIdsLogged(db: Db) {
    forall p, id :: HasActivityId(db.follows, p, id) ==> id in db.activities
  }

  // ------------------------------------------------------------ pure parts of the handlers

  /** `undo_follow_target`. */
  function UndoFollowTarget(undone: UndoObject): (r: Option<ActivityId>)
    decreases undone
  {
    match undone
    case Url(id) => Some(id)
    case Object(isFollow, id) => if isFollow then id else None
    case Array(items) => FirstFollowTarget(items)
    case OtherJson => None
  }

  function FirstFollowTarget(items: seq<UndoObject>): (r: Option<ActivityId>)
    decreases items
  {
    if items == [] then None
    else
      var first := UndoFollowTarget(items[0]);
      if first.Some? then first else FirstFollowTarget(items[1..])
  }

  /** Captions are stored sanitized; an empty one is stored as NULL. */
  function StoredCaption(content: Option<string>): (r: Option<string>) {
    match content
    case None => None
    case Some(text) =>
      var clean := Sanitizer.Sanitize(text);
      if clean == "" then None else Some(clean)
  }

  function AcceptActivity(env: Env, follow: Activity): (r: Activity)
    requires follow.body.Follow?
  {
    Activity(env.acceptId, follow.body.target, Accept(follow.id))
  }

  // ------------------------------------------------------------ the handlers, behind the gate

  datatype Outcome = Outcome(db: Db, ok: bool)

  /** The handler returned an error: the gate row stays, unstamped, and what was written before stays too. */
  function Fail(db: Db): (r: Outcome) {
    Outcome(db, false)
  }

  function Finish(db: Db, id: ActivityId, env: Env): (r: Outcome) {
    if Stamp in env.fails then Fail(db)
    else Outcome(db.(activities := StampProcessed(db.activities, id)), true)
  }

  function HandleFollow(db: Db, a: Activity, env: Env): (r: Outcome)
    requires a.body.Follow?
  {
    var target := a.body.target;
    if Lookup in env.fails then Fail(db)
    else if target in db.tombstones then Finish(db, a.id, env)
    else if target !in db.actors then Fail(db)
    else if target.host != db.domain then Finish(db, a.id, env)
    else if a.actor !in db.actors then Fail(db)
    else RecordFollow(db, a, env, db.actors[target].locked)
  }

  /** The writes of the Follow handler: the row, and unless the target is locked its acceptance. */
  function RecordFollow(db: Db, a: Activity, env: Env, locked: bool): (r: Outcome)
    requires a.body.Follow?
  {
    var pair := (a.actor, a.body.target);
    var requested := db.(follows := UpsertFollow(db.follows, pair, Some(a.id), Requested));
    if WriteFollow in env.fails then Fail(db)
    else if locked then Finish(requested, a.id, env)
    else if FlipFollow in env.fails then Fail(requested)
    else
      var accept := AcceptActivity(env, a);
      var accepted := requested.(
        follows := SetFollowState(requested.follows, pair, Accepted),
        activities := if LogAccept in env.fails then db.activities else LogActivity(db.activities, accept.id, false));
      if Enqueue in env.fails then Fail(accepted)
      else Finish(accepted.(jobs := db.jobs + [Deliver(a.actor, accept)]), a.id, env)
  }

  ghost function HandleAccept(db: Db, a: Activity, env: Env): (r: Outcome)
    requires a.body.Accept?
  {
    if Lookup in env.fails then Fail(db)
    else
      match FetchByActivityId(db.follows, a.body.follow)
      case None => Finish(db, a.id, env)
      case Some(pair) =>
        if FlipFollow in env.fails then Fail(db)
        else
          var backfill := if Enqueue in env.fails then [] else [Backfill(pair.1)];
          Finish(db.(follows := SetFollowState(db.follows, pair, Accepted), jobs := db.jobs + backfill), a.id, env)
  }

  ghost function HandleReject(db: Db, a: Activity, env: Env): (r: Outcome)
    requires a.body.Reject?
  {
    if Lookup in env.fails then Fail(db)
    else
      match FetchByActivityId(db.follows, a.body.follow)
      case None => Finish(db, a.id, env)
      case Some(pair) =>
        if FlipFollow in env.fails then Fail(db)
        else Finish(db.(follows := SetFollowState(db.follows, pair, Rejected)), a.id, env)
  }

  ghost function HandleUndo(db: Db, a: Activity, env: Env): (r: Outcome)
    requires a.body.Undo?
  {
    var target := UndoFollowTarget(a.body.undone);
    if target.None? then Finish(db, a.id, env)
    else if Lookup in env.fails then Fail(db)
    else
      match FetchByActivityId(db.follows, target.value)
      case None => Finish(db, a.id, env)
      case Some(pair) =>
        if DropFollow in env.fails then Fail(db)
        else Finish(db.(follows := DeleteFollow(db.follows, pair)), a.id, env)
  }

  function MarkActorDeleted(actors: map<ApId, ActorRow>, id: ApId): (r: map<ApId, ActorRow>) {
    if id in actors then actors[id := actors[id].(deleted := true)] else actors
  }

  function HandleDelete(db: Db, a: Activity, env: Env): (r: Outcome)
    requires a.body.Delete?
  {
    var id := a.body.deleted;
    var tombstoned := db.(tombstones := db.tombstones + {id});
    if Lookup in env.fails then Fail(db)
    else if id in db.clips then
      if db.clips[id].owner != a.actor then Finish(db, a.id, env)
      else if WriteTombstone in env.fails then Fail(db)
      else if MarkClip in env.fails then Fail(tombstoned)
      else Finish(tombstoned.(clips := db.clips[id := db.clips[id].(deleted := true)]), a.id, env)
    else if WriteTombstone in env.fails then Fail(db)
    else
      Finish(tombstoned.(actors := if MarkActor in env.fails then db.actors else MarkActorDeleted(db.actors, id)),
          a.id, env)
  }

  function HandleCreate(db: Db, a: Activity, env: Env): (r: Outcome)
    requires a.body.Create?
  {
    var note := a.body.note;
    if note.id.None? then Finish(db, a.id, env)
    else if Lookup in env.fails then Fail(db)
    else if note.id.value in db.tombstones then Finish(db, a.id, env)
    else if !note.isVideoNote then Finish(db, a.id, env)
    else if note.attributedTo.None? then Finish(db, a.id, env)
    else if note.attributedTo.value.host == db.domain || note.attributedTo.value != a.actor then Finish(db, a.id, env)
    else if !env.actorResolves then Finish(db, a.id, env)
    else if InsertClip in env.fails then Fail(db)
    else if note.id.value in db.clips then Finish(db, a.id, env)  // unique violation: already known
    else
      var row := ClipRow(a.actor, StoredCaption(note.content), note.sensitive, note.summary, false);
      Finish(db.(clips := db.clips[note.id.value := row]), a.id, env)
  }

  function HandleUpdate(db: Db, a: Activity, env: Env): (r: Outcome)
    requires a.body.Update?
  {
    var note := a.body.note;
    if note.id.None? then Finish(db, a.id, env)
    else if Lookup in env.fails then Fail(db)
    else if note.id.value !in db.clips then Finish(db, a.id, env)
    else
      var row := db.clips[note.id.value];
      if row.owner != a.actor || row.deleted then Finish(db, a.id, env)
      else if UpdateClip in env.fails then Fail(db)
      else
        var row' := row.(caption := StoredCaption(note.content), sensitive := note.sensitive, cw := note.summary);
        Finish(db.(clips := db.clips[note.id.value := row']), a.id, env)
  }

  ghost function Handle(db: Db, e: Event): (r: Outcome) {
    var a := e.activity;
    match a.body
    case Follow(_) => HandleFollow(db, a, e.env)
    case Accept(_) => HandleAccept(db, a, e.env)
    case Reject(_) => HandleReject(db, a, e.env)
    case Undo(_) => HandleUndo(db, a, e.env)
    case Delete(_) => HandleDelete(db, a, e.env)
    case Create(_) => HandleCreate(db, a, e.env)
    case Update(_) => HandleUpdate(db, a, e.env)
    case Other => Finish(db, a.id, e.env)
  }

  /** One inbox POST: the gate, then the handler. */
  ghost function Receive(db: Db, e: Event): (r: Outcome) {
    var id := e.activity.id;
    if Gate in e.env.fails then Fail(db)
    else if id in db.activities then Outcome(db, true)
    else Handle(db.(activities := LogActivity(db.activities, id, true)), e)
  }

  ghost function Run(db: Db, trace: seq<Event>): (r: Db)
    decreases |trace|
  {
    if trace == [] then db else Run(Receive(db, trace[0]).db, trace[1..])
  }

  // ------------------------------------------------------------ the outbound calls that share the tables

  /** `follow_activity` and `undo_activity`. */
  function FollowActivity(id: ActivityId, follower: ApId, target: ApId): (r: Activity) {
    Activity(id, follower, Follow(target))
  }

  function UndoActivity(id: ActivityId, actor: ApId, follow: ActivityId): (r: Activity) {
    Activity(id, actor, Undo(Object(true, Some(follow))))
  }

  /** `api_follow` (crates/server/src/federation.rs), for a resolved target and a fresh activity id. */
  function ApiFollow(db: Db, follower: ApId, target: ApId, id: ActivityId): (r: Db) {
    if target == follower then db
    else
      var local := target.host == db.domain;
      var stored := db.(
        follows := UpsertFollow(db.follows, (follower, target), Some(id), if local then Accepted else Requested),
        activities := LogActivity(db.activities, id, false));
      if local then stored
      else stored.(jobs := db.jobs + [Deliver(target, FollowActivity(id, follower, target))])
  }

  /** `api_unfollow`: delete the row, log and enqueue `Undo(Follow)`. */
  function ApiUnfollow(db: Db, follower: ApId, target: ApId, id: ActivityId): (r: Db) {
    var pair := (follower, target);
    if pair !in db.follows || db.follows[pair].activityId.None? then db
    else
      db.(
      follows := DeleteFollow(db.follows, pair),
      activities := LogActivity(db.activities, id, false),
      jobs := db.jobs + [Deliver(target, UndoActivity(id, follower, db.follows[pair].activityId.value))])
  }
}
