/**
 The follow protocol between any number of instances.  Each instance is a database of
 `Inbox`; a channel is the sequence of delivery jobs one instance has queued for another.
 First deliveries happen in order, anything delivered may be delivered again at any time,
 and users follow, re-follow and unfollow at will.
 */
module FollowProtocol {
  import opened Basics
  import opened Inbox
  import opened InboxProperties

  // ------------------------------------------------------------ the network

  /** `owner` records which (follower, target) pair every Follow id was drawn for, `used` every id ever drawn. */
  datatype Net = Net(
    dbs: map<nat, Db>,
    delivered: map<(nat, nat), nat>,
    owner: map<ActivityId, (ApId, ApId)>,
    used: set<ActivityId>)

  /** The activities queued for instance `j`, in queue order. */
  function Routed(jobs: seq<Job>, j: nat): (r: seq<Activity>) {
    if jobs == [] then []
    else
      var last := jobs[|jobs| - 1];
      Routed(jobs[..|jobs| - 1], j) + (if last.Deliver? && last.to.host == j then [last.activity] else [])
  }

  function Channel(net: Net, i: nat, j: nat): (r: seq<Activity>) {
    if i in net.dbs then Routed(net.dbs[i].jobs, j) else []
  }

  function Delivered(net: Net, i: nat, j: nat): (n: nat) {
    if (i, j) in net.delivered then net.delivered[(i, j)] else 0
  }

  /** What is queued from `i` to `j` and not yet delivered. */
  function Pending(net: Net, i: nat, j: nat): (r: seq<Activity>) {
    if Delivered(net, i, j) <= |Channel(net, i, j)| then Channel(net, i, j)[Delivered(net, i, j)..] else []
  }

  datatype Step =
    | FollowCall(follower: ApId, target: ApId, id: ActivityId)
    | UnfollowCall(follower: ApId, target: ApId, id: ActivityId)
    | FirstDelivery(i: nat, j: nat, env: Env)
    | Redelivery(i: nat, j: nat, k: nat, env: Env)

  /** The statements without which a message of the protocol is not processed; other failures do no harm. */
  function Needed(body: Body): (r: set<Statement>) {
    match body
    case Follow(_) => {Gate, Lookup, WriteFollow, FlipFollow, Enqueue, Stamp}
    case Accept(_) => {Gate, Lookup, FlipFollow, Stamp}
    case Undo(_) => {Gate, Lookup, DropFollow, Stamp}
    case _ => {}
  }

  ghost predicate Known(net: Net, a: ApId) {
    forall h :: h in net.dbs ==> a in net.dbs[h].actors
  }

  ghost predicate Enabled(net: Net, s: Step) {
    match s
    case FollowCall(f, t, id) =>
      f.host in net.dbs && t.host in net.dbs && Known(net, f) && Known(net, t) && id !in net.used
    case UnfollowCall(f, t, id) =>
      f.host in net.dbs && id !in net.used
    case FirstDelivery(i, j, env) =>
      && i in net.dbs && j in net.dbs && i != j && env.acceptId !in net.used
      && Delivered(net, i, j) < |Channel(net, i, j)|
      && Needed(Channel(net, i, j)[Delivered(net, i, j)].body) !! env.fails
    case Redelivery(i, j, k, env) =>
      && i in net.dbs && j in net.dbs && i != j && env.acceptId !in net.used
      && k < Delivered(net, i, j) <= |Channel(net, i, j)|
  }

  ghost function Next(net: Net, s: Step): (r: Net)
    requires Enabled(net, s)
  {
    match s
    case FollowCall(f, t, id) =>
      Net(net.dbs[f.host := ApiFollow(net.dbs[f.host], f, t, id)], net.delivered, net.owner[id := (f, t)],
          net.used + {id})
    case UnfollowCall(f, t, id) =>
      Net(net.dbs[f.host := ApiUnfollow(net.dbs[f.host], f, t, id)], net.delivered, net.owner, net.used + {id})
    case FirstDelivery(i, j, env) =>
      var n := Delivered(net, i, j);
      Net(net.dbs[j := Receive(net.dbs[j], Event(Channel(net, i, j)[n], env)).db],
          net.delivered[(i, j) := n + 1], net.owner, net.used + {env.acceptId})
    case Redelivery(i, j, k, env) =>
      Net(net.dbs[j := Receive(net.dbs[j], Event(Channel(net, i, j)[k], env)).db],
          net.delivered, net.owner, net.used + {env.acceptId})
  }

  /** Instances that know each other's actors and have not exchanged anything yet. */
  ghost predicate Initial(net: Net) {
    && net.delivered == map[] && net.owner == map[]
    && forall h :: h in net.dbs ==>
         net.dbs[h] == Db(h, net.dbs[h].actors, map[], map[], {}, map[], [])
  }

  /** `steps` can be taken one after the other from `net`. */
  ghost predicate IsRun(net: Net, steps: seq<Step>)
    decreases |steps|
  {
    steps == [] || (Enabled(net, steps[0]) && IsRun(Next(net, steps[0]), steps[1..]))
  }

  ghost function After(net: Net, steps: seq<Step>): (r: Net)
    requires IsRun(net, steps)
    decreases |steps|
  {
    if steps == [] then net else After(Next(net, steps[0]), steps[1..])
  }

  // ------------------------------------------------------------ mirrored tables

  function RowId(db: Db, pair: (ApId, ApId)): (r: Option<ActivityId>) {
    if pair in db.follows then db.follows[pair].activityId else None
  }

  /**
   What one protocol message does to the follow id of a pair, at the sender when it is queued and
   at the receiver when it is processed.
   */
  function ApplyMessage(current: Option<ActivityId>, m: Activity, pair: (ApId, ApId)): (r: Option<ActivityId>) {
    match m.body
    case Follow(target) => if (m.actor, target) == pair then Some(m.id) else current
    case Undo(o) => if current.Some? && UndoFollowTarget(o) == current then None else current
    case _ => current
  }

  function Replay(current: Option<ActivityId>, messages: seq<Activity>, pair: (ApId, ApId)): (r: Option<ActivityId>)
    decreases |messages|
  {
    if messages == [] then current
    else Replay(ApplyMessage(current, messages[0], pair), messages[1..], pair)
  }

  ghost predicate FollowIn(messages: seq<Activity>, id: ActivityId) {
    exists k :: 0 <= k < |messages| && messages[k].body.Follow? && messages[k].id == id
  }

  ghost predicate AcceptIn(messages: seq<Activity>, id: ActivityId) {
    exists k :: 0 <= k < |messages| && messages[k].body == Accept(id)
  }

  ghost predicate Processed(db: Db, id: ActivityId) {
    id in db.activities && db.activities[id].inbound && db.activities[id].processed
  }

  function FinalState(locked: bool): (r: FollowState) {
    if locked then Requested else Accepted
  }

  /** The follower's row is in flight exactly while its Follow or the Accept is. */
  ghost predicate FollowerRowOk(row: FollowRow, locked: bool, pending: seq<Activity>, back: seq<Activity>,
                                targetDb: Db) {
    && row.activityId.Some?
    && row.state != Rejected
    && (row.state == Requested && !locked ==>
         FollowIn(pending, row.activityId.value) || AcceptIn(back, row.activityId.value))
    && (row.state == Accepted ==> !locked && Processed(targetDb, row.activityId.value))
  }

  /** The two sides of a pair: the target's row, with what is on its way replayed, is the follower's row. */
  ghost predicate PairOk(pair: (ApId, ApId), a: Db, b: Db, locked: bool, pending: seq<Activity>, back: seq<Activity>) {
    && Replay(RowId(b, pair), pending, pair) == RowId(a, pair)
    && (pair in b.follows ==> b.follows[pair].state == FinalState(locked))
    && (pair in a.follows ==> FollowerRowOk(a.follows[pair], locked, pending, back, b))
  }

  // ------------------------------------------------------------ the invariant

  ghost predicate DbOk(net: Net, h: nat)
    requires h in net.dbs
  {
    var db := net.dbs[h];
    && db.domain == h && db.tombstones == {}
    && (forall id :: id in db.activities ==> id in net.used)
    && (forall pair :: pair in db.follows ==>
          && db.follows[pair].activityId.Some?
          && db.follows[pair].activityId.value in net.owner
          && net.owner[db.follows[pair].activityId.value] == pair)
  }

  ghost predicate MessageOk(net: Net, i: nat, j: nat, m: Activity) {
    && i in net.dbs && j in net.dbs
    && m.id in net.used && m.actor.host == i
    && match m.body
       case Follow(t) => t.host == j && m.id in net.owner && net.owner[m.id] == (m.actor, t) && Known(net, m.actor)
         && Known(net, t)
       case Undo(o) =>
         && UndoFollowTarget(o).Some? && UndoFollowTarget(o).value in net.owner
         && net.owner[UndoFollowTarget(o).value].0.host == i && net.owner[UndoFollowTarget(o).value].1.host == j
       case Accept(id) =>
         && id in net.owner && net.owner[id].0.host == j && net.owner[id].1.host == i
         && net.owner[id].1 in net.dbs[i].actors && !net.dbs[i].actors[net.owner[id].1].locked
         && Processed(net.dbs[i], id)
       case _ => false
  }

  ghost predicate ChannelOk(net: Net, i: nat, j: nat)
    requires j in net.dbs
  {
    && Delivered(net, i, j) <= |Channel(net, i, j)|
    && (forall k :: 0 <= k < |Channel(net, i, j)| ==> MessageOk(net, i, j, Channel(net, i, j)[k]))
    && (forall k :: 0 <= k < |Channel(net, i, j)| ==>
          (Channel(net, i, j)[k].id in net.dbs[j].activities <==> k < Delivered(net, i, j)))
  }

  ghost predicate Separate(net: Net, i: nat, i': nat, j: nat) {
    forall k, k' ::
      (0 <= k < |Channel(net, i, j)| && 0 <= k' < |Channel(net, i', j)|
        && Channel(net, i, j)[k].id == Channel(net, i', j)[k'].id)
      ==> i == i' && k == k'
  }

  ghost predicate Remote(net: Net, f: ApId, t: ApId) {
    f.host in net.dbs && t.host in net.dbs && f.host != t.host && t in net.dbs[t.host].actors
  }

  ghost predicate PairInvariant(net: Net, f: ApId, t: ApId)
    requires Remote(net, f, t)
  {
    PairOk((f, t), net.dbs[f.host], net.dbs[t.host], net.dbs[t.host].actors[t].locked,
           Pending(net, f.host, t.host), Pending(net, t.host, f.host))
  }

  ghost predicate DbsOk(net: Net) {
    && (forall id :: id in net.owner ==> id in net.used)
    && (forall h :: h in net.dbs ==> DbOk(net, h))
  }

  ghost predicate ChannelsOk(net: Net) {
    forall i, j :: i in net.dbs && j in net.dbs && i != j ==> ChannelOk(net, i, j)
  }

  ghost predicate AllSeparate(net: Net) {
    forall i, i', j :: i in net.dbs && i' in net.dbs && j in net.dbs && i != j && i' != j ==> Separate(net, i, i', j)
  }

  ghost predicate PairsOk(net: Net) {
    forall f, t :: Remote(net, f, t) ==> PairInvariant(net, f, t)
  }

  ghost predicate Inv(net: Net) {
    DbsOk(net) && ChannelsOk(net) && AllSeparate(net) && PairsOk(net)
  }

  // ------------------------------------------------------------ the pair, one change at a time

  lemma {:induction false} ReplayAppend(current: Option<ActivityId>, messages: seq<Activity>, m: Activity,
                                        pair: (ApId, ApId))
    ensures Replay(current, messages + [m], pair) == ApplyMessage(Replay(current, messages, pair), m, pair)
    decreases |messages|
  {
    if messages == [] {
      assert messages + [m] == [m] && [m][1..] == [];
    } else {
      assert (messages + [m])[1..] == messages[1..] + [m];
      ReplayAppend(ApplyMessage(current, messages[0], pair), messages[1..], m, pair);
    }
  }

  lemma InAppended(messages: seq<Activity>, m: Activity, id: ActivityId)
    ensures FollowIn(messages, id) ==> FollowIn(messages + [m], id)
    ensures AcceptIn(messages, id) ==> AcceptIn(messages + [m], id)
    ensures m.body.Follow? && m.id == id ==> FollowIn(messages + [m], id)
    ensures m.body == Accept(id) ==> AcceptIn(messages + [m], id)
  {
    var longer := messages + [m];
    assert longer[|messages|] == m;
    assert forall k :: 0 <= k < |messages| ==> longer[k] == messages[k];
  }

  lemma InTail(messages: seq<Activity>, id: ActivityId)
    requires messages != []
    ensures FollowIn(messages, id) ==> FollowIn(messages[1..], id) || (messages[0].body.Follow? && messages[0].id == id)
    ensures AcceptIn(messages, id) ==> AcceptIn(messages[1..], id) || messages[0].body == Accept(id)
  {
    var rest := messages[1..];
    assert forall k :: 1 <= k < |messages| ==> messages[k] == rest[k - 1];
  }

  /** The follower's instance queues `m` and changes its own row in the same way. */
  lemma PairQueues(pair: (ApId, ApId), a: Db, a': Db, b: Db, locked: bool, pending: seq<Activity>, back: seq<Activity>,
                   m: Activity)
    requires PairOk(pair, a, b, locked, pending, back)
    requires RowId(a', pair) == ApplyMessage(RowId(a, pair), m, pair)
    requires pair in a'.follows ==>
               || (pair in a.follows && a'.follows[pair] == a.follows[pair])
               || (m.body.Follow? && a'.follows[pair] == FollowRow(Some(m.id), Requested))
    ensures PairOk(pair, a', b, locked, pending + [m], back)
  {
    ReplayAppend(RowId(b, pair), pending, m, pair);
    if pair in a'.follows && a'.follows[pair].activityId.Some? {
      InAppended(pending, m, a'.follows[pair].activityId.value);
    }
  }

  /** The target's instance processes the head of the pending messages and may queue something back. */
  lemma PairProcesses(pair: (ApId, ApId), a: Db, b: Db, b': Db, locked: bool, pending: seq<Activity>,
                      back: seq<Activity>, back': seq<Activity>)
    requires pending != [] && PairOk(pair, a, b, locked, pending, back)
    requires RowId(b', pair) == ApplyMessage(RowId(b, pair), pending[0], pair)
    requires pair in b'.follows ==> b'.follows[pair].state == FinalState(locked)
    requires forall id :: Processed(b, id) ==> Processed(b', id)
    requires forall id :: AcceptIn(back, id) ==> AcceptIn(back', id)
    requires pair in a.follows && pending[0].body.Follow? && a.follows[pair].activityId == Some(pending[0].id)
             && !locked ==>
               AcceptIn(back', pending[0].id)
    ensures PairOk(pair, a, b', locked, pending[1..], back')
  {
    if pair in a.follows && a.follows[pair].activityId.Some? {
      InTail(pending, a.follows[pair].activityId.value);
    }
  }

  /** The follower's instance processes the head of what comes back and may queue something of another pair. */
  lemma PairHears(pair: (ApId, ApId), a: Db, a': Db, b: Db, locked: bool, pending: seq<Activity>,
                  pending': seq<Activity>, back: seq<Activity>)
    requires back != [] && PairOk(pair, a, b, locked, pending, back)
    requires RowId(a', pair) == RowId(a, pair)
    requires Replay(RowId(b, pair), pending', pair) == Replay(RowId(b, pair), pending, pair)
    requires forall id :: FollowIn(pending, id) ==> FollowIn(pending', id)
    requires pair in a'.follows ==> pair in a.follows
    requires pair in a.follows && back[0].body.Accept? && a.follows[pair].activityId == Some(back[0].body.follow) ==>
               && !locked && Processed(b, back[0].body.follow)
               && (pair in a'.follows ==> a'.follows[pair].state == Accepted)
    requires pair in a.follows && pair in a'.follows
             && !(back[0].body.Accept? && a.follows[pair].activityId == Some(back[0].body.follow)) ==>
               a'.follows[pair].state == a.follows[pair].state
    ensures PairOk(pair, a', b, locked, pending', back[1..])
  {
    if pair in a.follows && a.follows[pair].activityId.Some? {
      InTail(back, a.follows[pair].activityId.value);
    }
  }

  /** Nothing about the pair changes; the target's log may grow. */
  lemma PairUntouched(pair: (ApId, ApId), a: Db, a': Db, b: Db, b': Db, locked: bool, pending: seq<Activity>,
                      back: seq<Activity>)
    requires PairOk(pair, a, b, locked, pending, back)
    requires SameRow(a, a', pair) && SameRow(b, b', pair)
    requires forall id :: Processed(b, id) ==> Processed(b', id)
    ensures PairOk(pair, a', b', locked, pending, back)
  {
  }

  ghost predicate SameRow(db: Db, db': Db, pair: (ApId, ApId)) {
    (pair in db'.follows <==> pair in db.follows) && (pair in db.follows ==> db'.follows[pair] == db.follows[pair])
  }

  // ------------------------------------------------------------ what grows

  ghost predicate DbGrows(db: Db, db': Db) {
    && db'.domain == db.domain && db'.actors == db.actors && db'.tombstones == db.tombstones
    && (forall id :: Processed(db, id) ==> Processed(db', id))
  }

  ghost predicate Grows(net: Net, net': Net) {
    && net'.dbs.Keys == net.dbs.Keys
    && (forall h :: h in net.dbs ==> DbGrows(net.dbs[h], net'.dbs[h]))
    && (forall id :: id in net.owner ==> id in net'.owner && net'.owner[id] == net.owner[id])
    && net.used <= net'.used
  }

  lemma MessageStaysOk(net: Net, net': Net, i: nat, j: nat, m: Activity)
    requires Grows(net, net') && MessageOk(net, i, j, m)
    ensures MessageOk(net', i, j, m)
  {
  }

  lemma RoutedAppend(jobs: seq<Job>, x: Job, j: nat)
    ensures Routed(jobs + [x], j) == Routed(jobs, j) + (if x.Deliver? && x.to.host == j then [x.activity] else [])
  {
    assert (jobs + [x])[..|jobs|] == jobs;
  }

  /** Exactly the channel from `i` to `j` got the message `m`. */
  ghost predicate Pushed(net: Net, net': Net, i: nat, j: nat, m: Activity) {
    forall x, y :: Channel(net', x, y) == (if x == i && y == j then Channel(net, x, y) + [m] else Channel(net, x, y))
  }

  ghost predicate SameChannels(net: Net, net': Net) {
    forall x, y :: Channel(net', x, y) == Channel(net, x, y)
  }

  lemma JobPushes(net: Net, net': Net, i: nat, to: ApId, m: Activity)
    requires i in net.dbs && net'.dbs.Keys == net.dbs.Keys
    requires forall h :: h in net.dbs && h != i ==> net'.dbs[h].jobs == net.dbs[h].jobs
    requires net'.dbs[i].jobs == net.dbs[i].jobs + [Deliver(to, m)]
    ensures Pushed(net, net', i, to.host, m)
  {
    forall x, y
      ensures Channel(net', x, y) == (if x == i && y == to.host then Channel(net, x, y) + [m] else Channel(net, x, y)) {
      RoutedAppend(net.dbs[i].jobs, Deliver(to, m), y);
    }
  }

  lemma BackfillPushesNothing(net: Net, net': Net, i: nat, actor: ApId)
    requires i in net.dbs && net'.dbs.Keys == net.dbs.Keys
    requires forall h :: h in net.dbs && h != i ==> net'.dbs[h].jobs == net.dbs[h].jobs
    requires net'.dbs[i].jobs == net.dbs[i].jobs + [Backfill(actor)]
    ensures SameChannels(net, net')
  {
    forall x, y ensures Channel(net', x, y) == Channel(net, x, y) {
      RoutedAppend(net.dbs[i].jobs, Backfill(actor), y);
    }
  }

  // ------------------------------------------------------------ messages keep their place

  /** A fresh id keeps the ids of queued messages apart. */
  lemma PushKeepsSeparate(net: Net, net': Net, i: nat, j: nat, m: Activity)
    requires ChannelsOk(net) && AllSeparate(net)
    requires net'.dbs.Keys == net.dbs.Keys && Pushed(net, net', i, j, m) && m.id !in net.used
    ensures AllSeparate(net')
  {
    forall x, x', y | x in net.dbs && x' in net.dbs && y in net.dbs && x != y && x' != y
      ensures Separate(net', x, x', y) {
      QueuedIdsAreUsed(net, x, y);
      QueuedIdsAreUsed(net, x', y);
      assert Separate(net, x, x', y);
    }
  }

  lemma QueuedIdsAreUsed(net: Net, i: nat, j: nat)
    requires ChannelsOk(net) && i in net.dbs && j in net.dbs && i != j
    ensures Delivered(net, i, j) <= |Channel(net, i, j)|
    ensures forall k :: 0 <= k < |Channel(net, i, j)| ==> Channel(net, i, j)[k].id in net.used
    ensures forall k :: 0 <= k < |Channel(net, i, j)| ==>
              (Channel(net, i, j)[k].id in net.dbs[j].activities <==> k < Delivered(net, i, j))
  {
    assert ChannelOk(net, i, j);
    var ch := Channel(net, i, j);
    assert forall k :: 0 <= k < |ch| ==> MessageOk(net, i, j, ch[k]);
  }

  /** A channel that got one fresh message at its end, its receiver's log unchanged for what is queued. */
  lemma PushKeepsChannel(net: Net, net': Net, i: nat, j: nat, m: Activity)
    requires ChannelsOk(net) && Grows(net, net') && i in net.dbs && j in net.dbs && i != j
    requires Channel(net', i, j) == Channel(net, i, j) + [m]
    requires MessageOk(net', i, j, m) && m.id !in net.used
    requires Delivered(net', i, j) == Delivered(net, i, j)
    requires m.id !in net'.dbs[j].activities
    requires forall id :: id in net.used ==> (id in net'.dbs[j].activities <==> id in net.dbs[j].activities)
    ensures ChannelOk(net', i, j)
  {
    var ch, ch' := Channel(net, i, j), Channel(net', i, j);
    QueuedIdsAreUsed(net, i, j);
    assert ChannelOk(net, i, j);
    forall k | 0 <= k < |ch'|
      ensures MessageOk(net', i, j, ch'[k])
      ensures ch'[k].id in net'.dbs[j].activities <==> k < Delivered(net', i, j)
    {
      if k < |ch| {
        assert ch'[k] == ch[k];
        MessageStaysOk(net, net', i, j, ch[k]);
      }
    }
  }

  /** A channel that did not change, its receiver's log unchanged for what is queued. */
  lemma QuietKeepsChannel(net: Net, net': Net, i: nat, j: nat)
    requires ChannelsOk(net) && Grows(net, net') && i in net.dbs && j in net.dbs && i != j
    requires Channel(net', i, j) == Channel(net, i, j)
    requires Delivered(net', i, j) == Delivered(net, i, j)
    requires forall k :: 0 <= k < |Channel(net, i, j)| ==>
               (Channel(net, i, j)[k].id in net'.dbs[j].activities <==>
                   Channel(net, i, j)[k].id in net.dbs[j].activities)
    ensures ChannelOk(net', i, j)
  {
    var ch := Channel(net, i, j);
    assert ChannelOk(net, i, j);
    forall k | 0 <= k < |ch| ensures MessageOk(net', i, j, ch[k]) {
      MessageStaysOk(net, net', i, j, ch[k]);
    }
  }

  // ------------------------------------------------------------ steps of the sender

  /** The sender changes its row for `pair` as the message `m` it queues will change the receiver's. */
  ghost predicate MirrorRow(a: Db, a': Db, m: Activity, pair: (ApId, ApId)) {
    && RowId(a', pair) == ApplyMessage(RowId(a, pair), m, pair)
    && (pair in a'.follows ==>
          || (pair in a.follows && a'.follows[pair] == a.follows[pair])
          || (m.body.Follow? && a'.follows[pair] == FollowRow(Some(m.id), Requested)))
  }

  ghost predicate OnlyChanges(net: Net, net': Net, h: nat) {
    && h in net.dbs && net'.dbs.Keys == net.dbs.Keys
    && forall x :: x in net.dbs && x != h ==> net'.dbs[x] == net.dbs[x]
  }

  lemma OthersStayOk(net: Net, net': Net, h: nat)
    requires DbsOk(net) && Grows(net, net') && OnlyChanges(net, net', h) && DbOk(net', h)
    requires forall id :: id in net'.owner ==> id in net'.used
    ensures DbsOk(net')
  {
    forall x | x in net'.dbs ensures DbOk(net', x) {
      assert DbOk(net, x);
    }
  }

  /** Rows of remote pairs change only for pairs from `h` to `j`, and there as `m` says. */
  ghost predicate RowsMirror(db: Db, db': Db, h: nat, j: nat, m: Activity) {
    && (forall pair: (ApId, ApId) :: pair.0.host == h && pair.1.host == j != h ==> MirrorRow(db, db', m, pair))
    && (forall pair: (ApId, ApId) :: pair.0.host != pair.1.host && !(pair.0.host == h && pair.1.host == j) ==>
         SameRow(db, db', pair))
  }

  /** Queueing one fresh message for `to`, and mirroring it, keeps the invariant. */
  lemma QueueKeepsInv(net: Net, net': Net, h: nat, to: ApId, m: Activity)
    requires Inv(net) && Grows(net, net') && OnlyChanges(net, net', h) && DbOk(net', h)
    requires forall id :: id in net'.owner ==> id in net'.used
    requires net'.dbs[h].jobs == net.dbs[h].jobs + [Deliver(to, m)]
    requires net'.delivered == net.delivered && m.id !in net.used
    requires forall id :: id in net'.dbs[h].activities <==> id in net.dbs[h].activities || id == m.id
    requires to.host in net.dbs && to.host != h ==> MessageOk(net', h, to.host, m)
    requires RowsMirror(net.dbs[h], net'.dbs[h], h, to.host, m)
    ensures Inv(net')
  {
    JobPushes(net, net', h, to, m);
    PushKeepsSeparate(net, net', h, to.host, m);
    OthersStayOk(net, net', h);
    QueueKeepsChannels(net, net', h, to, m);
    QueueKeepsPairs(net, net', h, to, m);
  }

  lemma QueueKeepsChannels(net: Net, net': Net, h: nat, to: ApId, m: Activity)
    requires DbsOk(net) && ChannelsOk(net) && Grows(net, net') && OnlyChanges(net, net', h)
    requires net'.delivered == net.delivered && m.id !in net.used && Pushed(net, net', h, to.host, m)
    requires forall id :: id in net'.dbs[h].activities <==> id in net.dbs[h].activities || id == m.id
    requires to.host in net.dbs && to.host != h ==> MessageOk(net', h, to.host, m)
    ensures ChannelsOk(net')
  {
    forall i, j | i in net'.dbs && j in net'.dbs && i != j ensures ChannelOk(net', i, j) {
      assert DbOk(net, j);
      if i == h && j == to.host {
        PushKeepsChannel(net, net', i, j, m);
      } else {
        QueuedIdsAreUsed(net, i, j);
        QuietKeepsChannel(net, net', i, j);
      }
    }
  }

  lemma QueueKeepsPairs(net: Net, net': Net, h: nat, to: ApId, m: Activity)
    requires ChannelsOk(net) && PairsOk(net) && Grows(net, net') && OnlyChanges(net, net', h)
    requires net'.delivered == net.delivered && Pushed(net, net', h, to.host, m)
    requires RowsMirror(net.dbs[h], net'.dbs[h], h, to.host, m)
    ensures PairsOk(net')
  {
    forall f, t | Remote(net', f, t) ensures PairInvariant(net', f, t) {
      assert Remote(net, f, t) && PairInvariant(net, f, t);
      QueuedIdsAreUsed(net, f.host, t.host);
      QueuedIdsAreUsed(net, t.host, f.host);
      var pair := (f, t);
      assert pair.0.host == f.host && pair.1.host == t.host;
      QueueKeepsPair(net, net', h, to, m, f, t);
    }
  }

  lemma QueueKeepsPair(net: Net, net': Net, h: nat, to: ApId, m: Activity, f: ApId, t: ApId)
    requires Grows(net, net') && OnlyChanges(net, net', h)
    requires net'.delivered == net.delivered && Pushed(net, net', h, to.host, m)
    requires Remote(net, f, t) && Remote(net', f, t) && PairInvariant(net, f, t)
    requires Delivered(net, f.host, t.host) <= |Channel(net, f.host, t.host)|
    requires Delivered(net, t.host, f.host) <= |Channel(net, t.host, f.host)|
    requires f.host == h && t.host == to.host ==> MirrorRow(net.dbs[h], net'.dbs[h], m, (f, t))
    requires !(f.host == h && t.host == to.host) ==> SameRow(net.dbs[h], net'.dbs[h], (f, t))
    ensures PairInvariant(net', f, t)
  {
    var pair := (f, t);
    var a, a', b, b' := net.dbs[f.host], net'.dbs[f.host], net.dbs[t.host], net'.dbs[t.host];
    var locked := b.actors[t].locked;
    var pending, back := Pending(net, f.host, t.host), Pending(net, t.host, f.host);
    PushedPending(net, net', h, to.host, m, f.host, t.host);
    PushedPending(net, net', h, to.host, m, t.host, f.host);
    if f.host == h && t.host == to.host {
      PairQueues(pair, a, a', b, locked, pending, back, m);
    } else {
      PairUntouched(pair, a, a', b, b', locked, pending, back);
      if t.host == h && f.host == to.host {
        // the message goes the other way: it joins what the follower will hear
        PairHearsMore(pair, a', b', locked, pending, back, m);
      }
    }
  }

  lemma PushedPending(net: Net, net': Net, i: nat, j: nat, m: Activity, x: nat, y: nat)
    requires Pushed(net, net', i, j, m) && Delivered(net', x, y) == Delivered(net, x, y) <= |Channel(net, x, y)|
    ensures Pending(net', x, y) == (if x == i && y == j then Pending(net, x, y) + [m] else Pending(net, x, y))
  {
  }

  lemma PairHearsMore(pair: (ApId, ApId), a: Db, b: Db, locked: bool, pending: seq<Activity>, back: seq<Activity>,
                      m: Activity)
    requires PairOk(pair, a, b, locked, pending, back)
    ensures PairOk(pair, a, b, locked, pending, back + [m])
  {
    if pair in a.follows && a.follows[pair].activityId.Some? {
      InAppended(back, m, a.follows[pair].activityId.value);
    }
  }

  /** A step that queues nothing, logs at most fresh ids and touches no remote pair keeps the invariant. */
  lemma QuietKeepsInv(net: Net, net': Net, h: nat)
    requires Inv(net) && Grows(net, net') && OnlyChanges(net, net', h) && DbOk(net', h)
    requires forall id :: id in net'.owner ==> id in net'.used
    requires net'.dbs[h].jobs == net.dbs[h].jobs && net'.delivered == net.delivered
    requires forall id :: id in net.used ==> (id in net'.dbs[h].activities <==> id in net.dbs[h].activities)
    requires forall pair: (ApId, ApId) :: pair.0.host != pair.1.host ==> SameRow(net.dbs[h], net'.dbs[h], pair)
    ensures Inv(net')
  {
    assert SameChannels(net, net');
    OthersStayOk(net, net', h);
    QuietKeepsChannels(net, net', h);
    forall i, i', j | i in net'.dbs && i' in net'.dbs && j in net'.dbs && i != j && i' != j
      ensures Separate(net', i, i', j) {
      assert Separate(net, i, i', j);
    }
    QuietKeepsPairs(net, net', h);
  }

  lemma QuietKeepsChannels(net: Net, net': Net, h: nat)
    requires ChannelsOk(net) && Grows(net, net') && OnlyChanges(net, net', h)
    requires SameChannels(net, net') && net'.delivered == net.delivered
    requires forall id :: id in net.used ==> (id in net'.dbs[h].activities <==> id in net.dbs[h].activities)
    ensures ChannelsOk(net')
  {
    forall i, j | i in net'.dbs && j in net'.dbs && i != j ensures ChannelOk(net', i, j) {
      QueuedIdsAreUsed(net, i, j);
      QuietKeepsChannel(net, net', i, j);
    }
  }

  lemma QuietKeepsPairs(net: Net, net': Net, h: nat)
    requires PairsOk(net) && Grows(net, net') && OnlyChanges(net, net', h)
    requires SameChannels(net, net') && net'.delivered == net.delivered
    requires forall pair: (ApId, ApId) :: pair.0.host != pair.1.host ==> SameRow(net.dbs[h], net'.dbs[h], pair)
    ensures PairsOk(net')
  {
    forall f, t | Remote(net', f, t) ensures PairInvariant(net', f, t) {
      assert Remote(net, f, t) && PairInvariant(net, f, t);
      var pair := (f, t);
      assert pair.0.host != pair.1.host;
      PairUntouched(pair, net.dbs[f.host], net'.dbs[f.host], net.dbs[t.host], net'.dbs[t.host],
                    net.dbs[t.host].actors[t].locked, Pending(net, f.host, t.host), Pending(net, t.host, f.host));
    }
  }

  // ------------------------------------------------------------ users follow and unfollow

  lemma ApiCallsGrow(db: Db, f: ApId, t: ApId, id: ActivityId)
    ensures DbGrows(db, ApiFollow(db, f, t, id)) && DbGrows(db, ApiUnfollow(db, f, t, id))
  {
  }

  lemma UpdateGrows(net: Net, h: nat, db: Db, owner: map<ActivityId, (ApId, ApId)>, used: set<ActivityId>)
    requires h in net.dbs && DbGrows(net.dbs[h], db) && net.used <= used
    requires forall id :: id in net.owner ==> id in owner && owner[id] == net.owner[id]
    ensures var net' := Net(net.dbs[h := db], net.delivered, owner, used);
            Grows(net, net') && OnlyChanges(net, net', h)
  {
  }

  lemma FollowCallFrame(net: Net, f: ApId, t: ApId, id: ActivityId)
    requires DbsOk(net) && Enabled(net, FollowCall(f, t, id))
    ensures var net' := Next(net, FollowCall(f, t, id));
            Grows(net, net') && OnlyChanges(net, net', f.host)
  {
    ApiCallsGrow(net.dbs[f.host], f, t, id);
    UpdateGrows(net, f.host, ApiFollow(net.dbs[f.host], f, t, id), net.owner[id := (f, t)], net.used + {id});
  }

  lemma FollowCallDbOk(net: Net, f: ApId, t: ApId, id: ActivityId)
    requires DbsOk(net) && Enabled(net, FollowCall(f, t, id))
    ensures DbOk(Next(net, FollowCall(f, t, id)), f.host)
  {
    var net' := Next(net, FollowCall(f, t, id));
    var db, db' := net.dbs[f.host], net'.dbs[f.host];
    assert DbOk(net, f.host);
    forall pair | pair in db'.follows
      ensures db'.follows[pair].activityId.Some? && db'.follows[pair].activityId.value in net'.owner
      ensures net'.owner[db'.follows[pair].activityId.value] == pair
    {
      if pair == (f, t) && t != f {
        assert db'.follows[pair].activityId == Some(id);
      } else {
        assert pair in db.follows && db'.follows[pair] == db.follows[pair];
      }
    }
  }

  lemma ApiFollowRows(db: Db, f: ApId, t: ApId, id: ActivityId)
    requires f.host == db.domain
    ensures t.host == db.domain ==>
              forall pair: (ApId, ApId) :: pair.0.host != pair.1.host ==> SameRow(db, ApiFollow(db, f, t, id), pair)
    ensures t.host != db.domain ==>
              RowsMirror(db, ApiFollow(db, f, t, id), db.domain, t.host, FollowActivity(id, f, t))
  {
  }

  lemma FollowCallKeepsInv(net: Net, f: ApId, t: ApId, id: ActivityId)
    requires Inv(net) && Enabled(net, FollowCall(f, t, id))
    ensures Inv(Next(net, FollowCall(f, t, id)))
  {
    var net' := Next(net, FollowCall(f, t, id));
    assert DbOk(net, f.host);
    FollowCallFrame(net, f, t, id);
    FollowCallDbOk(net, f, t, id);
    ApiFollowRows(net.dbs[f.host], f, t, id);
    if t.host == f.host {
      QuietKeepsInv(net, net', f.host);
    } else {
      QueueKeepsInv(net, net', f.host, t, FollowActivity(id, f, t));
    }
  }

  lemma UnfollowCallFrame(net: Net, f: ApId, t: ApId, id: ActivityId)
    requires DbsOk(net) && Enabled(net, UnfollowCall(f, t, id))
    ensures var net' := Next(net, UnfollowCall(f, t, id));
            Grows(net, net') && OnlyChanges(net, net', f.host)
  {
    ApiCallsGrow(net.dbs[f.host], f, t, id);
    UpdateGrows(net, f.host, ApiUnfollow(net.dbs[f.host], f, t, id), net.owner, net.used + {id});
  }

  lemma UnfollowCallDbOk(net: Net, f: ApId, t: ApId, id: ActivityId)
    requires DbsOk(net) && Enabled(net, UnfollowCall(f, t, id))
    ensures DbOk(Next(net, UnfollowCall(f, t, id)), f.host)
  {
    var db := net.dbs[f.host];
    assert DbOk(net, f.host);
    assert forall pair :: pair in ApiUnfollow(db, f, t, id).follows ==>
      pair in db.follows && ApiUnfollow(db, f, t, id).follows[pair] == db.follows[pair];
  }

  lemma ApiUnfollowRows(net: Net, db: Db, f: ApId, t: ApId, id: ActivityId)
    requires db.domain in net.dbs && net.dbs[db.domain] == db && DbOk(net, db.domain)
    requires f.host == db.domain && (f, t) in db.follows
    ensures RowsMirror(db, ApiUnfollow(db, f, t, id), db.domain, t.host,
            UndoActivity(id, f, db.follows[(f, t)].activityId.value))
  {
    var db' := ApiUnfollow(db, f, t, id);
    var m := UndoActivity(id, f, db.follows[(f, t)].activityId.value);
    forall pair: (ApId, ApId) | pair.0.host == db.domain && pair.1.host == t.host != db.domain
      ensures MirrorRow(db, db', m, pair) {
      // another pair's row carries another follow id
      assert pair in db.follows && pair != (f, t) ==> db.follows[pair].activityId != db.follows[(f, t)].activityId;
    }
  }

  lemma UnfollowCallKeepsInv(net: Net, f: ApId, t: ApId, id: ActivityId)
    requires Inv(net) && Enabled(net, UnfollowCall(f, t, id))
    ensures Inv(Next(net, UnfollowCall(f, t, id)))
  {
    var net' := Next(net, UnfollowCall(f, t, id));
    var db := net.dbs[f.host];
    assert DbOk(net, f.host);
    UnfollowCallFrame(net, f, t, id);
    UnfollowCallDbOk(net, f, t, id);
    if (f, t) !in db.follows {
      QuietKeepsInv(net, net', f.host);
    } else {
      var m := UndoActivity(id, f, db.follows[(f, t)].activityId.value);
      ApiUnfollowRows(net, db, f, t, id);
      QueueKeepsInv(net, net', f.host, t, m);
    }
  }

  // ------------------------------------------------------------ receiving a protocol message

  /** The state of a row after processing `m`. */
  ghost predicate RowAfter(db: Db, db': Db, m: Activity, pair: (ApId, ApId)) {
    && RowId(db', pair) == ApplyMessage(RowId(db, pair), m, pair)
    && (pair in db'.follows ==>
          && db'.follows[pair].activityId.Some?
          && if m.body.Follow? && pair == (m.actor, m.body.target) then
               m.body.target in db.actors && db'.follows[pair].state == FinalState(db.actors[m.body.target].locked)
             else
               && pair in db.follows
               && db'.follows[pair].state == (if AcceptsRow(db, m, pair) then Accepted else db.follows[pair].state))
  }

  ghost predicate AcceptsRow(db: Db, m: Activity, pair: (ApId, ApId)) {
    m.body.Accept? && pair in db.follows && db.follows[pair].activityId == Some(m.body.follow)
  }

  ghost predicate QueuesAccept(db: Db, m: Activity) {
    m.body.Follow? && m.body.target in db.actors && !db.actors[m.body.target].locked
  }

  ghost predicate ReceivedAs(db: Db, db': Db, m: Activity, env: Env) {
    && DbGrows(db, db') && Processed(db', m.id)
    && (forall id :: id in db.activities ==> id in db'.activities)
    && (forall id :: id in db'.activities ==>
         id in db.activities || id == m.id || (id == env.acceptId && QueuesAccept(db, m)))
    && (forall pair :: RowAfter(db, db', m, pair))
    && if QueuesAccept(db, m) then db'.jobs == db.jobs + [Deliver(m.actor, AcceptActivity(env, m))]
       else db'.jobs == db.jobs || exists x :: db'.jobs == db.jobs + [Backfill(x)]
  }

  lemma FollowHandled(db: Db, m: Activity, env: Env)
    requires m.body.Follow? && m.id in db.activities && env.acceptId != m.id && RowsIdentified(db)
    requires Needed(m.body) !! env.fails
    requires db.tombstones == {} && m.body.target in db.actors && m.actor in db.actors
    requires m.body.target.host == db.domain
    requires db.activities[m.id].inbound
    ensures ReceivedAs(db, HandleFollow(db, m, env).db, m, env)
  {
  }

  lemma GatedIsReceived(db: Db, db': Db, m: Activity, env: Env)
    requires m.id !in db.activities
    requires ReceivedAs(db.(activities := LogActivity(db.activities, m.id, true)), db', m, env)
    ensures ReceivedAs(db, db', m, env)
  {
    var gated := db.(activities := LogActivity(db.activities, m.id, true));
    forall pair ensures RowAfter(db, db', m, pair) {
      assert RowAfter(gated, db', m, pair);
    }
  }

  lemma FollowReceived(db: Db, m: Activity, env: Env)
    requires m.body.Follow? && m.id !in db.activities && env.acceptId != m.id && RowsIdentified(db)
    requires Needed(m.body) !! env.fails
    requires db.tombstones == {} && m.body.target in db.actors && m.actor in db.actors
    requires m.body.target.host == db.domain
    ensures ReceivedAs(db, Receive(db, Event(m, env)).db, m, env)
  {
    var gated := db.(activities := LogActivity(db.activities, m.id, true));
    FollowHandled(gated, m, env);
    GatedIsReceived(db, HandleFollow(gated, m, env).db, m, env);
  }

  ghost predicate RowsIdentified(db: Db) {
    && FollowIdsDistinct(db.follows)
    && forall pair :: pair in db.follows ==> db.follows[pair].activityId.Some?
  }

  lemma AcceptReceived(db: Db, m: Activity, env: Env)
    requires m.body.Accept? && m.id !in db.activities && RowsIdentified(db)
    requires Needed(m.body) !! env.fails
    ensures ReceivedAs(db, Receive(db, Event(m, env)).db, m, env)
  {
    var db' := Receive(db, Event(m, env)).db;
    var row := FetchByActivityId(db.follows, m.body.follow);
    forall pair ensures RowAfter(db, db', m, pair) {
      if AcceptsRow(db, m, pair) {
        assert HasActivityId(db.follows, pair, m.body.follow);
        FetchFinds(db.follows, pair, m.body.follow);
      }
    }
  }

  lemma UndoReceived(db: Db, m: Activity, env: Env)
    requires m.body.Undo? && m.id !in db.activities && RowsIdentified(db)
    requires Needed(m.body) !! env.fails
    requires UndoFollowTarget(m.body.undone).Some?
    ensures ReceivedAs(db, Receive(db, Event(m, env)).db, m, env)
  {
    var db' := Receive(db, Event(m, env)).db;
    var id := UndoFollowTarget(m.body.undone).value;
    var row := FetchByActivityId(db.follows, id);
    forall pair ensures RowAfter(db, db', m, pair) {
      if RowId(db, pair) == Some(id) {
        assert HasActivityId(db.follows, pair, id);
        FetchFinds(db.follows, pair, id);
      }
    }
  }

  lemma OwnedRowsAreIdentified(net: Net, h: nat)
    requires h in net.dbs && DbOk(net, h)
    ensures RowsIdentified(net.dbs[h])
  {
    var t := net.dbs[h].follows;
    forall p, q, id | HasActivityId(t, p, id) && HasActivityId(t, q, id) ensures p == q {
      assert net.owner[id] == p && net.owner[id] == q;
    }
  }

  lemma MessageReceived(net: Net, i: nat, j: nat, m: Activity, env: Env, db: Db)
    requires j in net.dbs && DbOk(net, j) && MessageOk(net, i, j, m) && db == Receive(net.dbs[j], Event(m, env)).db
    requires m.id !in net.dbs[j].activities && env.acceptId !in net.used && Needed(m.body) !! env.fails
    ensures ReceivedAs(net.dbs[j], db, m, env)
  {
    OwnedRowsAreIdentified(net, j);
    match m.body
    case Follow(_) => FollowReceived(net.dbs[j], m, env);
    case Accept(_) => AcceptReceived(net.dbs[j], m, env);
    case Undo(_) => UndoReceived(net.dbs[j], m, env);
    case _ =>
  }

  // ------------------------------------------------------------ deliveries

  /** What a first delivery of `m` from `i` to `j` leaves behind. */
  ghost predicate DeliveredOnce(net: Net, net': Net, i: nat, j: nat, m: Activity, env: Env) {
    && i in net.dbs && j in net.dbs && i != j && OnlyChanges(net, net', j)
    && Delivered(net, i, j) < |Channel(net, i, j)| && Channel(net, i, j)[Delivered(net, i, j)] == m
    && ReceivedAs(net.dbs[j], net'.dbs[j], m, env)
    && net'.delivered == net.delivered[(i, j) := Delivered(net, i, j) + 1]
    && net'.owner == net.owner && net'.used == net.used + {env.acceptId}
    && env.acceptId !in net.used
  }

  lemma NextOfFirstDelivery(net: Net, i: nat, j: nat, env: Env, m: Activity)
    returns (db: Db, net': Net)
    requires Enabled(net, FirstDelivery(i, j, env)) && m == Channel(net, i, j)[Delivered(net, i, j)]
    ensures db == Receive(net.dbs[j], Event(m, env)).db && net' == Next(net, FirstDelivery(i, j, env))
    ensures net'
            == Net(net.dbs[j := db], net.delivered[(i, j) := Delivered(net, i, j) + 1], net.owner,
                net.used + {env.acceptId})
  {
    db, net' := Receive(net.dbs[j], Event(m, env)).db, Next(net, FirstDelivery(i, j, env));
  }

  lemma HeadIsOk(net: Net, i: nat, j: nat, env: Env) returns (m: Activity)
    requires Inv(net) && Enabled(net, FirstDelivery(i, j, env))
    ensures m == Channel(net, i, j)[Delivered(net, i, j)] && DbOk(net, j)
    ensures MessageOk(net, i, j, m) && m.id !in net.dbs[j].activities
  {
    assert ChannelOk(net, i, j) && DbOk(net, j);
    m := Channel(net, i, j)[Delivered(net, i, j)];
  }

  lemma FirstDeliveryIs(net: Net, i: nat, j: nat, env: Env) returns (m: Activity, net': Net)
    requires Inv(net) && Enabled(net, FirstDelivery(i, j, env))
    ensures net' == Next(net, FirstDelivery(i, j, env))
    ensures MessageOk(net, i, j, m) && m.id !in net.dbs[j].activities && DeliveredOnce(net, net', i, j, m, env)
  {
    m := HeadIsOk(net, i, j, env);
    var db: Db;
    db, net' := NextOfFirstDelivery(net, i, j, env, m);
    MessageReceived(net, i, j, m, env, db);
    DeliveryLeaves(net, i, j, m, env, db);
  }

  lemma DeliveryLeaves(net: Net, i: nat, j: nat, m: Activity, env: Env, db: Db)
    requires i in net.dbs && j in net.dbs && i != j && env.acceptId !in net.used
    requires Delivered(net, i, j) < |Channel(net, i, j)| && Channel(net, i, j)[Delivered(net, i, j)] == m
    requires ReceivedAs(net.dbs[j], db, m, env)
    ensures DeliveredOnce(net,
            Net(net.dbs[j := db], net.delivered[(i, j) := Delivered(net, i, j) + 1], net.owner,
                net.used + {env.acceptId}), i, j, m, env)
  {
  }

  lemma DeliveryGrows(net: Net, net': Net, i: nat, j: nat, m: Activity, env: Env)
    requires DeliveredOnce(net, net', i, j, m, env)
    ensures Grows(net, net')
  {
  }

  lemma DeliveryDbOk(net: Net, net': Net, i: nat, j: nat, m: Activity, env: Env)
    requires MessageOk(net, i, j, m) && DeliveredOnce(net, net', i, j, m, env) && DbOk(net, j)
    ensures DbOk(net', j)
  {
    var db, db' := net.dbs[j], net'.dbs[j];
    forall pair | pair in db'.follows
      ensures db'.follows[pair].activityId.Some? && db'.follows[pair].activityId.value in net'.owner
      ensures net'.owner[db'.follows[pair].activityId.value] == pair
    {
      assert RowAfter(db, db', m, pair);
    }
  }

  /** The Accept, if one is queued, is the only message that appears. */
  lemma DeliveryChannels(net: Net, net': Net, i: nat, j: nat, m: Activity, env: Env)
    requires MessageOk(net, i, j, m) && DeliveredOnce(net, net', i, j, m, env)
    ensures if QueuesAccept(net.dbs[j], m) then Pushed(net, net', j, i, AcceptActivity(env, m))
            else SameChannels(net, net')
  {
    if QueuesAccept(net.dbs[j], m) {
      JobPushes(net, net', j, m.actor, AcceptActivity(env, m));
    } else if net'.dbs[j].jobs != net.dbs[j].jobs {
      var x :| net'.dbs[j].jobs == net.dbs[j].jobs + [Backfill(x)];
      BackfillPushesNothing(net, net', j, x);
    }
  }

  lemma AcceptIsOk(net: Net, net': Net, i: nat, j: nat, m: Activity, env: Env)
    requires MessageOk(net, i, j, m) && DeliveredOnce(net, net', i, j, m, env) && QueuesAccept(net.dbs[j], m)
    ensures MessageOk(net', j, i, AcceptActivity(env, m))
  {
  }

  lemma DeliveryKeepsSeparate(net: Net, net': Net, i: nat, j: nat, m: Activity, env: Env)
    requires ChannelsOk(net) && AllSeparate(net) && MessageOk(net, i, j, m) && DeliveredOnce(net, net', i, j, m, env)
    ensures AllSeparate(net')
  {
    DeliveryChannels(net, net', i, j, m, env);
    if QueuesAccept(net.dbs[j], m) {
      PushKeepsSeparate(net, net', j, i, AcceptActivity(env, m));
    } else {
      forall x, x', y | x in net'.dbs && x' in net'.dbs && y in net'.dbs && x != y && x' != y
        ensures Separate(net', x, x', y) {
        assert Separate(net, x, x', y);
      }
    }
  }

  lemma DeliveryKeepsChannels(net: Net, net': Net, i: nat, j: nat, m: Activity, env: Env)
    requires DbsOk(net) && ChannelsOk(net) && AllSeparate(net) && MessageOk(net, i, j, m)
    requires DeliveredOnce(net, net', i, j, m, env)
    ensures ChannelsOk(net')
  {
    DeliveryGrows(net, net', i, j, m, env);
    DeliveryChannels(net, net', i, j, m, env);
    forall x, y | x in net'.dbs && y in net'.dbs && x != y ensures ChannelOk(net', x, y) {
      if QueuesAccept(net.dbs[j], m) && x == j && y == i {
        assert DbOk(net, y);
        AcceptIsOk(net, net', i, j, m, env);
        PushKeepsChannel(net, net', x, y, AcceptActivity(env, m));
      } else if x == i && y == j {
        DeliveredChannelOk(net, net', i, j, m, env);
      } else {
        OtherChannelOk(net, net', i, j, m, env, x, y);
      }
    }
  }

  lemma OtherChannelOk(net: Net, net': Net, i: nat, j: nat, m: Activity, env: Env, x: nat, y: nat)
    requires ChannelsOk(net) && AllSeparate(net) && DeliveredOnce(net, net', i, j, m, env) && Grows(net, net')
    requires x in net.dbs && y in net.dbs && x != y && !(x == i && y == j)
    requires Channel(net', x, y) == Channel(net, x, y)
    ensures ChannelOk(net', x, y)
  {
    QueuedIdsAreUsed(net, x, y);
    if y == j {
      assert Separate(net, x, i, j);
    }
    QuietKeepsChannel(net, net', x, y);
  }

  lemma DeliveredChannelOk(net: Net, net': Net, i: nat, j: nat, m: Activity, env: Env)
    requires ChannelsOk(net) && AllSeparate(net) && DeliveredOnce(net, net', i, j, m, env) && Grows(net, net')
    requires Channel(net', i, j) == Channel(net, i, j)
    ensures ChannelOk(net', i, j)
  {
    var ch, n := Channel(net, i, j), Delivered(net, i, j);
    QueuedIdsAreUsed(net, i, j);
    assert ChannelOk(net, i, j) && Separate(net, i, i, j);
    forall k | 0 <= k < |ch|
      ensures MessageOk(net', i, j, ch[k])
      ensures ch[k].id in net'.dbs[j].activities <==> k < n + 1
    {
      MessageStaysOk(net, net', i, j, ch[k]);
      assert ch[k].id == ch[n].id ==> k == n;
    }
  }

  /** How a first delivery moves the pending messages. */
  lemma DeliveryPending(net: Net, net': Net, i: nat, j: nat, m: Activity, env: Env, x: nat, y: nat)
    requires MessageOk(net, i, j, m) && DeliveredOnce(net, net', i, j, m, env)
    requires Delivered(net, x, y) <= |Channel(net, x, y)|
    ensures x == i && y == j ==>
              Pending(net, x, y) != [] && Pending(net, x, y)[0] == m && Pending(net', x, y) == Pending(net, x, y)[1..]
    ensures x == j && y == i ==>
              Pending(net', x, y)
                == Pending(net, x, y) + (if QueuesAccept(net.dbs[j], m) then [AcceptActivity(env, m)] else [])
    ensures !(x == i && y == j) && !(x == j && y == i) ==> Pending(net', x, y) == Pending(net, x, y)
  {
    DeliveryChannels(net, net', i, j, m, env);
  }

  /** At the receiver, the rows of pairs that do not run between the two instances stay. */
  lemma DeliverySameRow(net: Net, net': Net, i: nat, j: nat, m: Activity, env: Env, pair: (ApId, ApId))
    requires MessageOk(net, i, j, m) && DeliveredOnce(net, net', i, j, m, env) && DbOk(net, j)
    requires pair.0.host != pair.1.host
    requires !(pair.0.host == i && pair.1.host == j) && !(pair.0.host == j && pair.1.host == i)
    ensures SameRow(net.dbs[j], net'.dbs[j], pair)
  {
    var db, db' := net.dbs[j], net'.dbs[j];
    assert RowAfter(db, db', m, pair);
    assert pair in db.follows ==> net.owner[db.follows[pair].activityId.value] == pair;
  }

  /** The receiver is the pair's target. */
  lemma DeliveryAtTarget(net: Net, net': Net, i: nat, j: nat, m: Activity, env: Env, f: ApId, t: ApId)
    requires MessageOk(net, i, j, m) && DeliveredOnce(net, net', i, j, m, env) && DbOk(net, i) && DbOk(net, j)
    requires f.host == i && t.host == j && Remote(net, f, t) && Remote(net', f, t) && PairInvariant(net, f, t)
    requires Delivered(net, i, j) <= |Channel(net, i, j)| && Delivered(net, j, i) <= |Channel(net, j, i)|
    ensures PairInvariant(net', f, t)
  {
    var pair := (f, t);
    var a, b, b' := net.dbs[i], net.dbs[j], net'.dbs[j];
    var locked := b.actors[t].locked;
    var pending, back, back' := Pending(net, i, j), Pending(net, j, i), Pending(net', j, i);
    DeliveryPending(net, net', i, j, m, env, i, j);
    DeliveryPending(net, net', i, j, m, env, j, i);
    assert RowAfter(b, b', m, pair);
    assert pair in b.follows ==> net.owner[b.follows[pair].activityId.value] == pair;
    assert pair in a.follows ==> net.owner[a.follows[pair].activityId.value] == pair;
    if QueuesAccept(b, m) {
      assert back' == back + [AcceptActivity(env, m)];
      forall id ensures AcceptIn(back, id) ==> AcceptIn(back', id) {
        InAppended(back, AcceptActivity(env, m), id);
      }
      InAppended(back, AcceptActivity(env, m), m.id);
    } else {
      assert back' == back;
    }
    PairProcesses(pair, a, b, b', locked, pending, back, back');
  }

  /** The receiver is the pair's follower. */
  lemma DeliveryAtFollower(net: Net, net': Net, i: nat, j: nat, m: Activity, env: Env, f: ApId, t: ApId)
    requires MessageOk(net, i, j, m) && DeliveredOnce(net, net', i, j, m, env) && DbOk(net, j)
    requires f.host == j && t.host == i && Remote(net, f, t) && Remote(net', f, t) && PairInvariant(net, f, t)
    requires Delivered(net, i, j) <= |Channel(net, i, j)| && Delivered(net, j, i) <= |Channel(net, j, i)|
    ensures PairInvariant(net', f, t)
  {
    var pair := (f, t);
    var a, a', b := net.dbs[j], net'.dbs[j], net.dbs[i];
    var locked := b.actors[t].locked;
    var pending, pending', back := Pending(net, j, i), Pending(net', j, i), Pending(net, i, j);
    DeliveryPending(net, net', i, j, m, env, i, j);
    DeliveryPending(net, net', i, j, m, env, j, i);
    assert RowAfter(a, a', m, pair);
    assert pair in a.follows ==> net.owner[a.follows[pair].activityId.value] == pair;
    var accept := if QueuesAccept(a, m) then [AcceptActivity(env, m)] else [];
    if QueuesAccept(a, m) {
      ReplayAppend(RowId(b, pair), pending, AcceptActivity(env, m), pair);
    } else {
      assert pending' == pending;
    }
    forall id ensures FollowIn(pending, id) ==> FollowIn(pending', id) {
      if QueuesAccept(a, m) {
        InAppended(pending, AcceptActivity(env, m), id);
      }
    }
    PairHears(pair, a, a', b, locked, pending, pending', back);
  }

  lemma DeliveryKeepsPairs(net: Net, net': Net, i: nat, j: nat, m: Activity, env: Env)
    requires DbsOk(net) && ChannelsOk(net) && PairsOk(net) && MessageOk(net, i, j, m)
    requires DeliveredOnce(net, net', i, j, m, env)
    ensures PairsOk(net')
  {
    DeliveryGrows(net, net', i, j, m, env);
    forall f, t | Remote(net', f, t) ensures PairInvariant(net', f, t) {
      assert Remote(net, f, t) && PairInvariant(net, f, t);
      assert DbOk(net, i) && DbOk(net, j);
      QueuedIdsAreUsed(net, f.host, t.host);
      QueuedIdsAreUsed(net, t.host, f.host);
      if f.host == i && t.host == j {
        DeliveryAtTarget(net, net', i, j, m, env, f, t);
      } else if f.host == j && t.host == i {
        DeliveryAtFollower(net, net', i, j, m, env, f, t);
      } else {
        DeliveryElsewhere(net, net', i, j, m, env, f, t);
      }
    }
  }

  lemma DeliveryElsewhere(net: Net, net': Net, i: nat, j: nat, m: Activity, env: Env, f: ApId, t: ApId)
    requires MessageOk(net, i, j, m) && DeliveredOnce(net, net', i, j, m, env) && DbOk(net, j) && Grows(net, net')
    requires Remote(net, f, t) && Remote(net', f, t) && PairInvariant(net, f, t)
    requires !(f.host == i && t.host == j) && !(f.host == j && t.host == i)
    requires Delivered(net, f.host, t.host) <= |Channel(net, f.host, t.host)|
    requires Delivered(net, t.host, f.host) <= |Channel(net, t.host, f.host)|
    ensures PairInvariant(net', f, t)
  {
    DeliveryPending(net, net', i, j, m, env, f.host, t.host);
    DeliveryPending(net, net', i, j, m, env, t.host, f.host);
    DeliverySameRow(net, net', i, j, m, env, (f, t));
    PairUntouched((f, t), net.dbs[f.host], net'.dbs[f.host], net.dbs[t.host], net'.dbs[t.host],
                  net.dbs[t.host].actors[t].locked, Pending(net, f.host, t.host), Pending(net, t.host, f.host));
  }

  lemma FirstDeliveryKeepsInv(net: Net, i: nat, j: nat, env: Env)
    requires Inv(net) && Enabled(net, FirstDelivery(i, j, env))
    ensures Inv(Next(net, FirstDelivery(i, j, env)))
  {
    var m, net' := FirstDeliveryIs(net, i, j, env);
    DeliveryInv(net, net', i, j, m, env);
  }

  lemma DeliveryInv(net: Net, net': Net, i: nat, j: nat, m: Activity, env: Env)
    requires Inv(net) && MessageOk(net, i, j, m) && DeliveredOnce(net, net', i, j, m, env)
    ensures Inv(net')
  {
    assert DbOk(net, j);
    DeliveryGrows(net, net', i, j, m, env);
    DeliveryDbOk(net, net', i, j, m, env);
    OthersStayOk(net, net', j);
    DeliveryKeepsChannels(net, net', i, j, m, env);
    DeliveryKeepsSeparate(net, net', i, j, m, env);
    DeliveryKeepsPairs(net, net', i, j, m, env);
  }

  /** A message that was delivered before is turned away at the gate. */
  lemma RedeliveryKeepsInv(net: Net, i: nat, j: nat, k: nat, env: Env)
    requires Inv(net) && Enabled(net, Redelivery(i, j, k, env))
    ensures Next(net, Redelivery(i, j, k, env)).dbs == net.dbs
    ensures Inv(Next(net, Redelivery(i, j, k, env)))
  {
    var net' := Next(net, Redelivery(i, j, k, env));
    QueuedIdsAreUsed(net, i, j);
    assert net'.dbs == net.dbs;
    assert DbOk(net, j);
    QuietKeepsInv(net, net', j);
  }

  // ------------------------------------------------------------ the theorems

  /** Every step of every instance keeps the invariant. */
  lemma StepKeepsInv(net: Net, s: Step)
    requires Inv(net) && Enabled(net, s)
    ensures Inv(Next(net, s))
  {
    match s
    case FollowCall(f, t, id) => FollowCallKeepsInv(net, f, t, id);
    case UnfollowCall(f, t, id) => UnfollowCallKeepsInv(net, f, t, id);
    case FirstDelivery(i, j, env) => FirstDeliveryKeepsInv(net, i, j, env);
    case Redelivery(i, j, k, env) => RedeliveryKeepsInv(net, i, j, k, env);
  }

  lemma InitialInv(net: Net)
    requires Initial(net)
    ensures Inv(net)
  {
    assert forall i, j :: Channel(net, i, j) == [];
  }

  lemma {:induction false} RunKeepsInv(net: Net, steps: seq<Step>)
    requires Inv(net) && IsRun(net, steps)
    ensures Inv(After(net, steps))
    decreases |steps|
  {
    if steps == [] {
    } else {
      StepKeepsInv(net, steps[0]);
      RunKeepsInv(Next(net, steps[0]), steps[1..]);
    }
  }

  /** Everything queued between different instances has been delivered. */
  ghost predicate Quiescent(net: Net) {
    forall i, j :: i in net.dbs && j in net.dbs && i != j ==> Delivered(net, i, j) == |Channel(net, i, j)|
  }

  /** The two instances hold the same follow id, or neither holds a row, and both rows are final. */
  ghost predicate Agree(net: Net, f: ApId, t: ApId)
    requires Remote(net, f, t)
  {
    var pair, a, b := (f, t), net.dbs[f.host], net.dbs[t.host];
    var final := FinalState(b.actors[t].locked);
    && (pair in a.follows <==> pair in b.follows)
    && (pair in a.follows ==>
          && a.follows[pair].activityId == b.follows[pair].activityId && a.follows[pair].activityId.Some?
          && a.follows[pair].state == final && b.follows[pair].state == final)
  }

  /**
   Convergence: after any run of follows, re-follows, unfollows, in-order deliveries and
   re-deliveries, once every channel has drained, follower and target agree on every
   follow: no row on either side, or the same follow id, `accepted` on both (for a locked
   target, which nobody approves, `requested` on both).
   */
  lemma Convergence(net: Net, steps: seq<Step>, f: ApId, t: ApId)
    requires Initial(net) && IsRun(net, steps)
    requires Quiescent(After(net, steps)) && Remote(After(net, steps), f, t)
    ensures Agree(After(net, steps), f, t)
  {
    InitialInv(net);
    RunKeepsInv(net, steps);
    QuietPairAgrees(After(net, steps), f, t);
  }

  lemma QuietPairAgrees(net: Net, f: ApId, t: ApId)
    requires Inv(net) && Quiescent(net) && Remote(net, f, t)
    ensures Agree(net, f, t)
  {
    var pair := (f, t);
    assert PairInvariant(net, f, t) && DbOk(net, f.host) && DbOk(net, t.host);
    assert Pending(net, f.host, t.host) == [] && Pending(net, t.host, f.host) == [];
  }

  /**
   At no point of any run is a remote follow `accepted` at the follower before the target has
   processed that very Follow.
   */
  lemma AcceptedOnlyAfterTarget(net: Net, steps: seq<Step>, f: ApId, t: ApId)
    requires Initial(net) && IsRun(net, steps) && Remote(After(net, steps), f, t)
    ensures var now := After(net, steps);
            (f, t) in now.dbs[f.host].follows && now.dbs[f.host].follows[(f, t)].state == Accepted ==>
              var id := now.dbs[f.host].follows[(f, t)].activityId;
              && id.Some? && Processed(now.dbs[t.host], id.value)
              && !now.dbs[t.host].actors[t].locked
  {
    InitialInv(net);
    RunKeepsInv(net, steps);
    assert PairInvariant(After(net, steps), f, t);
  }
}
