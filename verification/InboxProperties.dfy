/**
 What the inbox guarantees over whole traces of received activities: duplicates collapse,
 a follow is found unambiguously by its activity id, deletes win in every order, and no
 stored caption can turn into markup.
 */
module InboxProperties {
  import opened Basics
  import opened Inbox
  import Sanitizer
  import SanitizerLaws

  // ------------------------------------------------------------ the frame of one receive

  /** Ids are only added to the log: the activity's own, once through the gate, and at most the Accept's. */
  ghost predicate LogGrows(db: Db, e: Event, after: Db) {
    && (forall id :: id in db.activities ==> id in after.activities)
    && (Gate !in e.env.fails ==> e.activity.id in after.activities)
    && (forall id :: id in after.activities ==> id in db.activities || id == e.activity.id || id == e.env.acceptId)
  }

  /** A clip row that appears is the sender's own, not tombstoned, and carries a sanitized caption. */
  ghost predicate ClipBorn(db: Db, e: Event, o: ApId, row: ClipRow) {
    && e.activity.body.Create? && e.activity.body.note.id == Some(o) && o !in db.tombstones
    && row.owner == e.activity.actor && !row.deleted
    && row.caption == StoredCaption(e.activity.body.note.content)
  }

  /**
   A clip row that stays keeps its owner, never comes back from deletion, and changes its caption
   only to a sanitized one.
   */
  ghost predicate ClipKept(e: Event, row: ClipRow, row': ClipRow) {
    && row'.owner == row.owner && (row.deleted ==> row'.deleted)
    && (row'.caption == row.caption
       || (e.activity.body.Update? && row'.caption == StoredCaption(e.activity.body.note.content)))
  }

  ghost predicate Effect(db: Db, e: Event, after: Db) {
    && LogGrows(db, e, after)
    && db.tombstones <= after.tombstones
    && (forall o :: o in db.clips ==> o in after.clips && ClipKept(e, db.clips[o], after.clips[o]))
    && (forall o :: o in after.clips && o !in db.clips ==> ClipBorn(db, e, o, after.clips[o]))
  }

  /** What the writes of a Follow may leave: its row in one of two states, and the Accept's id in the log. */
  ghost predicate FollowWritten(db: Db, a: Activity, env: Env, after: Db)
    requires a.body.Follow?
  {
    var pair := (a.actor, a.body.target);
    var requested := UpsertFollow(db.follows, pair, Some(a.id), Requested);
    && after.tombstones == db.tombstones && after.clips == db.clips
    && db.activities.Keys <= after.activities.Keys <= db.activities.Keys + {env.acceptId}
    && (after.follows == db.follows || after.follows == requested
       || after.follows == SetFollowState(requested, pair, Accepted))
  }

  lemma RecordFollowWrites(db: Db, a: Activity, env: Env, locked: bool)
    requires a.body.Follow? && a.id in db.activities
    ensures FollowWritten(db, a, env, RecordFollow(db, a, env, locked).db)
  {
  }

  lemma FinishWrites(db: Db, a: Activity, env: Env)
    requires a.body.Follow? && a.id in db.activities
    ensures FollowWritten(db, a, env, Finish(db, a.id, env).db)
  {
  }

  /** The Follow handler fails, does nothing, or records the follow. */
  lemma HandleFollowCases(db: Db, a: Activity, env: Env)
    requires a.body.Follow?
    ensures || HandleFollow(db, a, env).db == db
            || HandleFollow(db, a, env) == Finish(db, a.id, env)
            || (a.body.target in db.actors
               && HandleFollow(db, a, env) == RecordFollow(db, a, env, db.actors[a.body.target].locked))
  {
  }

  lemma HandleFollowWrites(db: Db, a: Activity, env: Env, after: Db)
    requires a.body.Follow? && a.id in db.activities && after == HandleFollow(db, a, env).db
    ensures FollowWritten(db, a, env, after)
  {
    HandleFollowCases(db, a, env);
    FinishWrites(db, a, env);
    if a.body.target in db.actors {
      RecordFollowWrites(db, a, env, db.actors[a.body.target].locked);
    }
  }

  lemma FollowWrittenEffect(db: Db, e: Event, after: Db)
    requires e.activity.body.Follow? && e.activity.id in db.activities && FollowWritten(db, e.activity, e.env, after)
    ensures Effect(db, e, after)
  {
  }

  lemma HandleFollowEffect(db: Db, e: Event)
    requires e.activity.body.Follow? && e.activity.id in db.activities
    ensures Effect(db, e, HandleFollow(db, e.activity, e.env).db)
  {
    HandleFollowWrites(db, e.activity, e.env, HandleFollow(db, e.activity, e.env).db);
    FollowWrittenEffect(db, e, HandleFollow(db, e.activity, e.env).db);
  }

  lemma HandleByFollowIdEffect(db: Db, e: Event)
    requires e.activity.body.Accept? || e.activity.body.Reject? || e.activity.body.Undo?
    requires e.activity.id in db.activities
    ensures Effect(db, e, Handle(db, e).db)
  {
  }

  lemma HandleDeleteEffect(db: Db, e: Event)
    requires e.activity.body.Delete? && e.activity.id in db.activities
    ensures Effect(db, e, HandleDelete(db, e.activity, e.env).db)
  {
  }

  lemma HandleCreateEffect(db: Db, e: Event)
    requires e.activity.body.Create? && e.activity.id in db.activities
    ensures Effect(db, e, HandleCreate(db, e.activity, e.env).db)
  {
  }

  lemma HandleUpdateEffect(db: Db, e: Event)
    requires e.activity.body.Update? && e.activity.id in db.activities
    ensures Effect(db, e, HandleUpdate(db, e.activity, e.env).db)
  {
  }

  lemma HandleHasEffect(db: Db, e: Event)
    requires e.activity.id in db.activities
    ensures Effect(db, e, Handle(db, e).db)
  {
    match e.activity.body
    case Follow(_) => HandleFollowEffect(db, e);
    case Delete(_) => HandleDeleteEffect(db, e);
    case Create(_) => HandleCreateEffect(db, e);
    case Update(_) => HandleUpdateEffect(db, e);
    case Other => OtherEffect(db, e);
    case _ => HandleByFollowIdEffect(db, e);
  }

  /** Every receive, duplicate or first, failed or not, stays within this frame. */
  lemma ReceiveHasEffect(db: Db, e: Event)
    ensures Effect(db, e, Receive(db, e).db)
  {
    if Gate !in e.env.fails && e.activity.id !in db.activities {
      var gated := db.(activities := LogActivity(db.activities, e.activity.id, true));
      HandleHasEffect(gated, e);
      EffectThroughGate(db, e, Handle(gated, e).db);
    }
  }

  lemma EffectThroughGate(db: Db, e: Event, after: Db)
    requires e.activity.id !in db.activities
    requires Effect(db.(activities := LogActivity(db.activities, e.activity.id, true)), e, after)
    ensures Effect(db, e, after)
  {
  }

  lemma OtherEffect(db: Db, e: Event)
    requires e.activity.body.Other? && e.activity.id in db.activities
    ensures Effect(db, e, Finish(db, e.activity.id, e.env).db)
  {
  }

  // ------------------------------------------------------------ follow rows are found unambiguously

  ghost predicate FollowIdsUnambiguous(db: Db) {
    FollowIdsDistinct(db.follows) && FollowIdsLogged(db)
  }

  /** With distinct ids, looking a row up by its id finds that row. */
  lemma FetchFinds(t: FollowTable, pair: (ApId, ApId), id: ActivityId)
    requires FollowIdsDistinct(t) && HasActivityId(t, pair, id)
    ensures FetchByActivityId(t, id) == Some(pair)
  {
  }

  /** A row may take an activity id that was never logged. */
  lemma FreshUpsertKeepsDistinct(db: Db, pair: (ApId, ApId), id: ActivityId, state: FollowState)
    requires FollowIdsUnambiguous(db) && id !in db.activities
    ensures FollowIdsDistinct(UpsertFollow(db.follows, pair, Some(id), state))
    ensures forall p, i :: HasActivityId(UpsertFollow(db.follows, pair, Some(id), state), p, i) ==>
              i == id || i in db.activities
  {
    var t := UpsertFollow(db.follows, pair, Some(id), state);
    assert forall p, i :: HasActivityId(t, p, i) ==> (p == pair && i == id) || HasActivityId(db.follows, p, i);
  }

  lemma StateChangeKeepsIds(t: FollowTable, pair: (ApId, ApId), state: FollowState)
    ensures forall p, i :: HasActivityId(SetFollowState(t, pair, state), p, i) <==> HasActivityId(t, p, i)
  {
  }

  lemma DeletionKeepsIds(t: FollowTable, pair: (ApId, ApId))
    ensures forall p, i :: HasActivityId(DeleteFollow(t, pair), p, i) ==> HasActivityId(t, p, i)
  {
  }

  /** No follow row gains an activity id, and the log forgets none. */
  ghost predicate IdsShrink(db: Db, after: Db) {
    && (forall p, i :: HasActivityId(after.follows, p, i) ==> HasActivityId(db.follows, p, i))
    && (forall i :: i in db.activities ==> i in after.activities)
  }

  lemma ShrinkingKeepsFollowIds(db: Db, after: Db)
    requires FollowIdsUnambiguous(db) && IdsShrink(db, after)
    ensures FollowIdsUnambiguous(after)
  {
  }

  lemma FollowWritesKeepFollowIds(db: Db, pair: (ApId, ApId), id: ActivityId, after: Db)
    requires FollowIdsUnambiguous(db) && id !in db.activities && id in after.activities
    requires forall i :: i in db.activities ==> i in after.activities
    requires || after.follows == db.follows
             || after.follows == UpsertFollow(db.follows, pair, Some(id), Requested)
             || after.follows == SetFollowState(UpsertFollow(db.follows, pair, Some(id), Requested), pair, Accepted)
    ensures FollowIdsUnambiguous(after)
  {
    FreshUpsertKeepsDistinct(db, pair, id, Requested);
    StateChangeKeepsIds(UpsertFollow(db.follows, pair, Some(id), Requested), pair, Accepted);
  }

  lemma HandleFollowKeepsFollowIds(db: Db, a: Activity, env: Env, gated: Db)
    requires a.body.Follow? && FollowIdsUnambiguous(db) && a.id !in db.activities
    requires gated == db.(activities := LogActivity(db.activities, a.id, true))
    ensures FollowIdsUnambiguous(HandleFollow(gated, a, env).db)
  {
    HandleFollowWrites(gated, a, env, HandleFollow(gated, a, env).db);
    FollowWritesKeepFollowIds(db, (a.actor, a.body.target), a.id, HandleFollow(gated, a, env).db);
  }

  lemma HandleAcceptShrinks(db: Db, a: Activity, env: Env)
    requires a.body.Accept?
    ensures IdsShrink(db, HandleAccept(db, a, env).db)
  {
    var row := FetchByActivityId(db.follows, a.body.follow);
    if row.Some? {
      StateChangeKeepsIds(db.follows, row.value, Accepted);
    }
  }

  lemma HandleRejectShrinks(db: Db, a: Activity, env: Env)
    requires a.body.Reject?
    ensures IdsShrink(db, HandleReject(db, a, env).db)
  {
    var row := FetchByActivityId(db.follows, a.body.follow);
    if row.Some? {
      StateChangeKeepsIds(db.follows, row.value, Rejected);
    }
  }

  lemma HandleUndoShrinks(db: Db, a: Activity, env: Env)
    requires a.body.Undo?
    ensures IdsShrink(db, HandleUndo(db, a, env).db)
  {
    if UndoFollowTarget(a.body.undone).Some? {
      var row := FetchByActivityId(db.follows, UndoFollowTarget(a.body.undone).value);
      if row.Some? {
        DeletionKeepsIds(db.follows, row.value);
      }
    }
  }

  lemma HandleOtherShrinks(db: Db, e: Event)
    requires var body := e.activity.body;
             body.Delete? || body.Create? || body.Update? || body.Other?
    ensures IdsShrink(db, Handle(db, e).db)
  {
  }

  /** Receiving anything keeps the activity ids of follow rows distinct, without a UNIQUE constraint. */
  lemma ReceiveKeepsFollowIds(db: Db, e: Event)
    requires FollowIdsUnambiguous(db)
    ensures FollowIdsUnambiguous(Receive(db, e).db)
  {
    var a := e.activity;
    if Gate !in e.env.fails && a.id !in db.activities {
      var gated := db.(activities := LogActivity(db.activities, a.id, true));
      if a.body.Follow? {
        HandleFollowKeepsFollowIds(db, a, e.env, gated);
      } else {
        match a.body {
          case Accept(_) => HandleAcceptShrinks(gated, a, e.env);
          case Reject(_) => HandleRejectShrinks(gated, a, e.env);
          case Undo(_) => HandleUndoShrinks(gated, a, e.env);
          case _ => HandleOtherShrinks(gated, e);
        }
        ShrinkingKeepsFollowIds(db, gated);
        ShrinkingKeepsFollowIds(gated, Handle(gated, e).db);
      }
    }
  }

  lemma ApiFollowKeepsFollowIds(db: Db, follower: ApId, target: ApId, id: ActivityId)
    requires FollowIdsUnambiguous(db) && id !in db.activities
    ensures FollowIdsUnambiguous(ApiFollow(db, follower, target, id))
  {
    FreshUpsertKeepsDistinct(db, (follower, target), id, if target.host == db.domain then Accepted else Requested);
  }

  lemma ApiUnfollowKeepsFollowIds(db: Db, follower: ApId, target: ApId, id: ActivityId)
    requires FollowIdsUnambiguous(db)
    ensures FollowIdsUnambiguous(ApiUnfollow(db, follower, target, id))
  {
    DeletionKeepsIds(db.follows, (follower, target));
  }

  // ------------------------------------------------------------ duplicates collapse

  /**
   The trace with only the first event of every activity id that gets through the gate, given the
   ids already `seen`.
   */
  ghost function FirstDeliveries(trace: seq<Event>, seen: set<ActivityId>): (r: seq<Event>)
    decreases |trace|
  {
    if trace == [] then []
    else if Gate in trace[0].env.fails || trace[0].activity.id in seen then FirstDeliveries(trace[1..], seen)
    else [trace[0]] + FirstDeliveries(trace[1..], seen + {trace[0].activity.id})
  }

  /** No receive forgets a logged activity id, and its own id is logged afterwards even when the handler failed. */
  lemma ReceiveLogs(db: Db, e: Event)
    ensures forall id :: id in db.activities ==> id in Receive(db, e).db.activities
    ensures Gate !in e.env.fails ==> e.activity.id in Receive(db, e).db.activities
  {
    ReceiveHasEffect(db, e);
  }

  lemma {:induction false} CollapseFrom(db: Db, trace: seq<Event>, seen: set<ActivityId>)
    requires forall id :: id in seen ==> id in db.activities
    ensures Run(db, trace) == Run(db, FirstDeliveries(trace, seen))
    decreases |trace|
  {
    if trace == [] {
    } else {
      var e := trace[0];
      var kept := FirstDeliveries(trace, seen);
      ReceiveLogs(db, e);
      if Gate in e.env.fails || e.activity.id in seen {
        CollapseFrom(db, trace[1..], seen);
      } else {
        assert kept[0] == e && kept[1..] == FirstDeliveries(trace[1..], seen + {e.activity.id});
        CollapseFrom(Receive(db, e).db, trace[1..], seen + {e.activity.id});
      }
    }
  }

  /**
   A trace with re-deliveries has the effect of the trace with only the first delivery of
   each activity id that gets through the gate: also when any statement behind the gate fails,
   so an activity that failed half-way is never completed by a later copy.
   */
  lemma DuplicatesCollapse(db: Db, trace: seq<Event>)
    ensures Run(db, trace) == Run(db, FirstDeliveries(trace, {}))
  {
    CollapseFrom(db, trace, {});
  }

  // ------------------------------------------------------------ delete wins

  ghost predicate Live(db: Db, o: ApId) {
    o in db.clips && !db.clips[o].deleted
  }

  /** `o` is not live and cannot come back: its row or a tombstone stands in the way. */
  ghost predicate Gone(db: Db, o: ApId) {
    !Live(db, o) && (o in db.clips || o in db.tombstones)
  }

  lemma ReceiveKeepsGone(db: Db, e: Event, o: ApId)
    requires Gone(db, o)
    ensures Gone(Receive(db, e).db, o)
  {
    ReceiveHasEffect(db, e);
  }

  /** Nothing received later brings a deleted object back. */
  lemma {:induction false} RunKeepsGone(db: Db, trace: seq<Event>, o: ApId)
    requires Gone(db, o)
    ensures Gone(Run(db, trace), o)
    decreases |trace|
  {
    if trace == [] {
    } else {
      ReceiveKeepsGone(db, trace[0], o);
      RunKeepsGone(Receive(db, trace[0]).db, trace[1..], o);
    }
  }

  /** The statements a Delete needs to take effect on a clip. */
  const DELETING: set<Statement> := {Lookup, WriteTombstone, MarkClip}

  /**
   A first delivery of a Delete leaves the object gone exactly when: it was a deleted clip before;
   or it is the sender's clip and no statement up to marking it failed; or it is no clip, and is
   tombstoned already or now.
   */
  lemma DeleteTakesEffectExactlyWhen(db: Db, e: Event, o: ApId)
    requires e.activity.body == Delete(o) && e.activity.id !in db.activities && Gate !in e.env.fails
    ensures Gone(Receive(db, e).db, o) <==>
              if o in db.clips then db.clips[o].deleted
                || (db.clips[o].owner == e.activity.actor && DELETING !! e.env.fails)
              else o in db.tombstones || {Lookup, WriteTombstone} !! e.env.fails
  {
  }

  lemma {:induction false} RedeliveriesChangeNothing(db: Db, id: ActivityId, copies: seq<Event>)
    requires id in db.activities && forall i :: 0 <= i < |copies| ==> copies[i].activity.id == id
    ensures Run(db, copies) == db
    decreases |copies|
  {
    if copies == [] {
    } else {
      RedeliveriesChangeNothing(db, id, copies[1..]);
    }
  }

  /** The owner's Delete that fails half-way leaves a live clip, however often it is delivered again. */
  lemma FailedDeleteIsNeverCompleted(db: Db, e: Event, o: ApId, copies: seq<Event>)
    requires e.activity.body == Delete(o) && e.activity.id !in db.activities && Gate !in e.env.fails
    requires Live(db, o) && db.clips[o].owner == e.activity.actor && MarkClip in e.env.fails
    requires forall i :: 0 <= i < |copies| ==> copies[i].activity == e.activity
    ensures Live(Run(db, [e] + copies), o)
  {
    assert ([e] + copies)[1..] == copies;
    var after := Receive(db, e).db;
    ReceiveLogs(db, e);
    RedeliveriesChangeNothing(after, e.activity.id, copies);
  }

  /** Every Create of `o` in the trace comes from `owner`. */
  ghost predicate OnlyOwnerCreates(trace: seq<Event>, o: ApId, owner: ApId) {
    forall i :: 0 <= i < |trace| ==>
      var a := trace[i].activity;
      a.body.Create? && a.body.note.id == Some(o) ==> a.actor == owner
  }

  ghost predicate OwnedIfPresent(db: Db, o: ApId, owner: ApId) {
    o in db.clips ==> db.clips[o].owner == owner
  }

  lemma ReceiveKeepsOwner(db: Db, e: Event, o: ApId, owner: ApId)
    requires OwnedIfPresent(db, o, owner) && OnlyOwnerCreates([e], o, owner)
    ensures OwnedIfPresent(Receive(db, e).db, o, owner)
  {
    assert [e][0] == e;
    ReceiveHasEffect(db, e);
  }

  /** The id of the Delete is used by nothing else in the trace, and no statement its copies need fails. */
  ghost predicate OwnId(trace: seq<Event>, id: ActivityId, a: Activity) {
    forall i :: 0 <= i < |trace| && trace[i].activity.id == id ==>
        trace[i].activity == a && DELETING !! trace[i].env.fails
  }

  /** Nor does any Accept in the trace draw that id. */
  ghost predicate NotAnAcceptId(trace: seq<Event>, id: ActivityId) {
    forall i :: 0 <= i < |trace| ==> trace[i].env.acceptId != id
  }

  lemma ReceiveLogsOnlyOwn(db: Db, e: Event, id: ActivityId)
    requires id !in db.activities && e.activity.id != id && e.env.acceptId != id
    ensures id !in Receive(db, e).db.activities
  {
    ReceiveHasEffect(db, e);
  }

  /**
   Delete wins in every order: whatever else arrives, before or after, and whatever of that
   fails, a trace that contains the owner's Delete of `o` ends with `o` gone.  Nothing is asked of
   what arrives after the Delete; before it, strangers have not claimed `o` or the Delete's id.
   */
  lemma {:induction false} DeleteWins(db: Db, trace: seq<Event>, k: nat, o: ApId)
    requires k < |trace| && trace[k].activity.body == Delete(o)
    requires Gate !in trace[k].env.fails && DELETING !! trace[k].env.fails
    requires trace[k].activity.id !in db.activities
    requires OwnId(trace[..k], trace[k].activity.id, trace[k].activity)
    requires NotAnAcceptId(trace[..k], trace[k].activity.id)
    requires OwnedIfPresent(db, o, trace[k].activity.actor)
    requires OnlyOwnerCreates(trace[..k], o, trace[k].activity.actor)
    ensures Gone(Run(db, trace), o)
    decreases |trace|
  {
    var d := trace[k].activity;
    var e := trace[0];
    var db' := Receive(db, e).db;
    assert k > 0 ==> trace[..k][0] == e;
    if e.activity.id == d.id && Gate !in e.env.fails {
      DeleteTakesEffectExactlyWhen(db, e, o);
      RunKeepsGone(db', trace[1..], o);
    } else {
      assert k > 0;
      assert OnlyOwnerCreates([e], o, d.actor);
      ReceiveKeepsOwner(db, e, o, d.actor);
      if e.activity.id != d.id {
        ReceiveLogsOnlyOwn(db, e, d.id);
      }
      assert trace[1..][..k - 1] == trace[..k][1..];
      DeleteWins(db', trace[1..], k - 1, o);
    }
  }

  /** The ownership premise is needed: a stranger's Create that arrives first survives the author's Delete. */
  lemma ForeignCreateSurvivesDelete(o: ApId, author: ApId, stranger: ApId, domain: nat)
    returns (db: Db, trace: seq<Event>)
    requires author != stranger && stranger.host != domain
    ensures |trace| == 2 && trace[1].activity == Activity(2, author, Delete(o))
    ensures o !in db.clips && o !in db.tombstones && Live(Run(db, trace), o)
  {
    db := Db(domain, map[], map[], map[], {}, map[], []);
    var note := NoteObject(Some(o), true, Some(stranger), None, false, None);
    var e0 := Event(Activity(1, stranger, Create(note)), Env(9, true, {}));
    var e1 := Event(Activity(2, author, Delete(o)), Env(9, true, {}));
    trace := [e0, e1];
    var db1 := Receive(db, e0).db;
    assert Live(db1, o) && db1.clips[o].owner == stranger;
    assert trace[1..] == [e1] && trace[1..][1..] == [];
    assert Run(db, trace) == Run(db1, [e1]) == Receive(db1, e1).db;
  }

  // ------------------------------------------------------------ which follow an Undo names

  /** The follow ids in an Undo's object, however deeply nested, in document order. */
  function FollowLeaves(undone: UndoObject): (r: seq<ActivityId>)
    decreases undone
  {
    match undone
    case Url(id) => [id]
    case Object(isFollow, id) => if isFollow && id.Some? then [id.value] else []
    case Array(items) => FollowLeavesOf(items)
    case OtherJson => []
  }

  function FollowLeavesOf(items: seq<UndoObject>): (r: seq<ActivityId>)
    decreases items
  {
    if items == [] then [] else FollowLeaves(items[0]) + FollowLeavesOf(items[1..])
  }

  function FirstOf(ids: seq<ActivityId>): (r: Option<ActivityId>) {
    if ids == [] then None else Some(ids[0])
  }

  /** An Undo names the first follow in document order, whatever surrounds it, and none exactly when there is none. */
  lemma {:induction false} UndoNamesFirstFollow(undone: UndoObject)
    ensures UndoFollowTarget(undone) == FirstOf(FollowLeaves(undone))
    decreases undone
  {
    if undone.Array? {
      ArrayNamesFirstFollow(undone.items);
    }
  }

  lemma {:induction false} ArrayNamesFirstFollow(items: seq<UndoObject>)
    ensures FirstFollowTarget(items) == FirstOf(FollowLeavesOf(items))
    decreases items
  {
    if items == [] {
    } else {
      UndoNamesFirstFollow(items[0]);
      ArrayNamesFirstFollow(items[1..]);
    }
  }

  // ------------------------------------------------------------ captions

  /** Every stored caption is free of markup characters, and decoding it once yields no `<`. */
  ghost predicate CaptionsInert(db: Db) {
    forall o :: o in db.clips && db.clips[o].caption.Some? ==> InertText(db.clips[o].caption.value)
  }

  ghost predicate InertText(text: string) {
    && (forall c :: c in text ==> c !in ['<', '>', '\"', '\''])
    && '<' !in Sanitizer.Decode(text)
  }

  lemma StoredCaptionIsInert(content: Option<string>)
    ensures StoredCaption(content).Some? ==> InertText(StoredCaption(content).value)
  {
    if content.Some? {
      SanitizerLaws.OutputIsInert(content.value);
    }
  }

  lemma ReceiveKeepsCaptionsInert(db: Db, e: Event)
    requires CaptionsInert(db)
    ensures CaptionsInert(Receive(db, e).db)
  {
    ReceiveHasEffect(db, e);
    if e.activity.body.Create? || e.activity.body.Update? {
      StoredCaptionIsInert(e.activity.body.note.content);
    }
  }

  /** Whatever remote instances send, no stored caption becomes markup downstream. */
  lemma {:induction false} RunKeepsCaptionsInert(db: Db, trace: seq<Event>)
    requires CaptionsInert(db)
    ensures CaptionsInert(Run(db, trace))
    decreases |trace|
  {
    if trace == [] {
    } else {
      ReceiveKeepsCaptionsInert(db, trace[0]);
      RunKeepsCaptionsInert(Receive(db, trace[0]).db, trace[1..]);
    }
  }
}
