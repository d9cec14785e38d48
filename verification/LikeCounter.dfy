/**
 Likes of a clip and its denormalised counter (crates/server/src/social.rs).  The class runs
 the two handlers statement after statement; the machine below it interleaves the statements
 of any number of handlers, lets statements fail and the clip be deleted.
 */
module LikeCounter {
  type Actor = nat

  datatype Response = NotFound | Ok(liked: bool, count: nat)

  // ------------------------------------------------------------ handlers one at a time

  function Decremented(count: nat): (n: nat) {
    if count == 0 then 0 else count - 1
  }

  class Clip {
    const owner: Actor
    var live: bool
    var likes: set<Actor>
    var count: nat
    var notified: seq<Actor>

    /** What serial handlers keep: the counter is the number of like rows. */
    ghost predicate Consistent()
      reads this
    {
      count == |likes|
    }

    constructor (owner: Actor)
      ensures this.owner == owner && live && likes == {} && Consistent() && notified == []
    {
      this.owner := owner;
      live, likes, count, notified := true, {}, 0, [];
    }

    /** `like_clip`: idempotent; a new like counts and notifies the owner unless it is their own. */
    method Like(actor: Actor) returns (r: Response)
      modifies this`likes, this`count, this`notified
      ensures r.NotFound? <==> !live
      ensures !live ==> likes == old(likes) && count == old(count) && notified == old(notified)
      ensures live ==> likes == old(likes) + {actor} && r == Ok(true, count)
      ensures live ==> count == old(count) + if actor in old(likes) then 0 else 1
      ensures live ==> notified == old(notified) + if actor in old(likes) || actor == owner then [] else [actor]
      ensures old(Consistent()) ==> Consistent()
    {
      if !live {
        return NotFound;
      }
      var before := count;
      if actor in likes {
        assert likes + {actor} == likes;
        return Ok(true, before);
      }
      likes := likes + {actor};
      count := count + 1;
      if actor != owner {
        notified := notified + [actor];
      }
      return Ok(true, count);
    }

    /** `unlike_clip`: idempotent; the counter is floored at zero. */
    method Unlike(actor: Actor) returns (r: Response)
      modifies this`likes, this`count
      ensures r.NotFound? <==> !live
      ensures !live ==> likes == old(likes) && count == old(count)
      ensures live ==> likes == old(likes) - {actor} && r == Ok(false, count)
      ensures live ==> count == if actor in old(likes) then Decremented(old(count)) else old(count)
      ensures old(Consistent()) ==> Consistent()
    {
      if !live {
        return NotFound;
      }
      var before := count;
      if actor !in likes {
        return Ok(false, before);
      }
      likes := likes - {actor};
      count := Decremented(count);
      return Ok(false, count);
    }
  }

  // ------------------------------------------------------------ interleaved statements

  /** The second statement of a handler whose first one changed a row. */
  datatype Update = Increment | Decrement

  /** `pending` are the updates of handlers between their two statements; `lost` and `floored` are history. */
  datatype State = State(live: bool, likes: set<Actor>, count: nat, pending: multiset<Update>, lost: multiset<Update>,
                         floored: nat)

  datatype Step =
    | InsertLike(actor: Actor)    // INSERT ... ON CONFLICT DO NOTHING
    | DeleteLike(actor: Actor)    // DELETE FROM likes
    | Apply(update: Update)       // the counter UPDATE of some handler
    | Fail(update: Update)        // that UPDATE fails, or its handler dies before it
    | DeleteClip

  predicate Enabled(s: State, step: Step) {
    (step.Apply? || step.Fail?) ==> step.update in s.pending
  }

  function Next(s: State, step: Step): (r: State)
    requires Enabled(s, step)
  {
    match step
    case InsertLike(actor) =>
      if actor in s.likes then s else s.(likes := s.likes + {actor}, pending := s.pending + multiset{Increment})
    case DeleteLike(actor) =>
      if actor in s.likes then s.(likes := s.likes - {actor}, pending := s.pending + multiset{Decrement}) else s
    case Apply(update) =>
      var rest := s.pending - multiset{update};
      if !s.live then s.(pending := rest, lost := s.lost + multiset{update})
      else if update == Increment then s.(pending := rest, count := s.count + 1)
      else s.(pending := rest, count := Decremented(s.count), floored := s.floored + if s.count == 0 then 1 else 0)
    case Fail(update) => s.(pending := s.pending - multiset{update}, lost := s.lost + multiset{update})
    case DeleteClip => s.(live := false)
  }

  predicate IsRun(s: State, steps: seq<Step>)
    decreases |steps|
  {
    steps == [] || (Enabled(s, steps[0]) && IsRun(Next(s, steps[0]), steps[1..]))
  }

  function After(s: State, steps: seq<Step>): (r: State)
    requires IsRun(s, steps)
    decreases |steps|
  {
    if steps == [] then s else After(Next(s, steps[0]), steps[1..])
  }

  /** A clip at rest whose counter is right. */
  predicate Initial(s: State) {
    s.count == |s.likes| && s.pending == multiset{} && s.lost == multiset{} && s.floored == 0
  }

  /** Every like row and every counted like is accounted for. */
  predicate Balanced(s: State) {
    s.count + s.pending[Increment] + s.lost[Increment]
      == |s.likes| + s.pending[Decrement] + s.lost[Decrement] + s.floored
  }

  lemma StepKeepsBalance(s: State, step: Step)
    requires Balanced(s) && Enabled(s, step)
    ensures Balanced(Next(s, step))
  {
  }

  lemma {:induction false} RunKeepsBalance(s: State, steps: seq<Step>)
    requires Balanced(s) && IsRun(s, steps)
    ensures Balanced(After(s, steps))
    decreases |steps|
  {
    if steps == [] {
    } else {
      StepKeepsBalance(s, steps[0]);
      RunKeepsBalance(Next(s, steps[0]), steps[1..]);
    }
  }

  /** The steps with which nothing is lost. */
  predicate Reliable(steps: seq<Step>) {
    forall i :: 0 <= i < |steps| ==> !steps[i].Fail? && !steps[i].DeleteClip?
  }

  lemma {:induction false} ReliableLosesNothing(s: State, steps: seq<Step>)
    requires s.live && s.lost == multiset{} && IsRun(s, steps) && Reliable(steps)
    ensures After(s, steps).live && After(s, steps).lost == multiset{}
    decreases |steps|
  {
    if steps == [] {
    } else {
      assert !steps[0].Fail? && !steps[0].DeleteClip?;
      ReliableLosesNothing(Next(s, steps[0]), steps[1..]);
    }
  }

  /**
   While the clip is live and no statement fails, in every interleaving of any number of
   handlers the counter is the like rows plus the decrements still to come minus the increments
   still to come, plus once for each decrement that met a zero; so it is never below that.
   */
  lemma CounterUnderInterleaving(s: State, steps: seq<Step>)
    requires Initial(s) && s.live && IsRun(s, steps) && Reliable(steps)
    ensures var r := After(s, steps);
            && r.count == |r.likes| + r.pending[Decrement] - r.pending[Increment] + r.floored
            && r.count >= |r.likes| + r.pending[Decrement] - r.pending[Increment]
  {
    RunKeepsBalance(s, steps);
    ReliableLosesNothing(s, steps);
  }

  /** A decrement meets a zero only by overtaking an increment, so the counter is exact as long as none does. */
  lemma FloorNeedsOvertaking(s: State, steps: seq<Step>)
    requires Initial(s) && s.live && IsRun(s, steps) && Reliable(steps)
    ensures var r := After(s, steps);
            Decrement in r.pending && r.count == 0 ==> Increment in r.pending
  {
    CounterUnderInterleaving(s, steps);
  }

  /** When every handler has finished, the counter is at least the number of like rows. */
  lemma AtRestNeverTooLow(s: State, steps: seq<Step>)
    requires Initial(s) && s.live && IsRun(s, steps) && Reliable(steps) && After(s, steps).pending == multiset{}
    ensures After(s, steps).count >= |After(s, steps).likes|
    ensures After(s, steps).count == |After(s, steps).likes| <==> After(s, steps).floored == 0
  {
    CounterUnderInterleaving(s, steps);
  }

  lemma Prepend(s: State, step: Step, rest: seq<Step>, steps: seq<Step>, end: State)
    requires steps == [step] + rest && Enabled(s, step) && IsRun(Next(s, step), rest)
    requires After(Next(s, step), rest) == end
    ensures IsRun(s, steps) && After(s, steps) == end
  {
    assert steps[1..] == rest;
  }

  lemma DriftingStates(actor: Actor)
    ensures Next(State(true, {}, 0, multiset{}, multiset{}, 0), InsertLike(actor))
            == State(true, {actor}, 0, multiset{Increment}, multiset{}, 0)
    ensures Next(State(true, {actor}, 0, multiset{Increment}, multiset{}, 0), DeleteLike(actor))
            == State(true, {}, 0, multiset{Increment, Decrement}, multiset{}, 0)
    ensures Next(State(true, {}, 0, multiset{Increment, Decrement}, multiset{}, 0), Apply(Decrement))
            == State(true, {}, 0, multiset{Increment}, multiset{}, 1)
    ensures Next(State(true, {}, 0, multiset{Increment}, multiset{}, 1), Apply(Increment))
            == State(true, {}, 1, multiset{}, multiset{}, 1)
  {
  }

  /** It can be too high for good: an unlike overtakes the like of the same actor. */
  lemma CounterCanDrift(actor: Actor)
    ensures var s := State(true, {}, 0, multiset{}, multiset{}, 0);
            var steps := [InsertLike(actor), DeleteLike(actor), Apply(Decrement), Apply(Increment)];
            Initial(s) && IsRun(s, steps) && After(s, steps) == State(true, {}, 1, multiset{}, multiset{}, 1)
  {
    var s := State(true, {}, 0, multiset{}, multiset{}, 0);
    var s1 := State(true, {actor}, 0, multiset{Increment}, multiset{}, 0);
    var s2 := State(true, {}, 0, multiset{Increment, Decrement}, multiset{}, 0);
    var s3 := State(true, {}, 0, multiset{Increment}, multiset{}, 1);
    var end := State(true, {}, 1, multiset{}, multiset{}, 1);
    DriftingStates(actor);
    Prepend(s3, Apply(Increment), [], [Apply(Increment)], end);
    Prepend(s2, Apply(Decrement), [Apply(Increment)], [Apply(Decrement), Apply(Increment)], end);
    Prepend(s1, DeleteLike(actor), [Apply(Decrement), Apply(Increment)],
        [DeleteLike(actor), Apply(Decrement), Apply(Increment)], end);
    Prepend(s, InsertLike(actor), [DeleteLike(actor), Apply(Decrement), Apply(Increment)],
            [InsertLike(actor), DeleteLike(actor), Apply(Decrement), Apply(Increment)], end);
  }

  lemma {:induction false} FlooredNeverFalls(s: State, steps: seq<Step>)
    requires IsRun(s, steps)
    ensures After(s, steps).floored >= s.floored
    decreases |steps|
  {
    if steps == [] {
    } else {
      FlooredNeverFalls(Next(s, steps[0]), steps[1..]);
    }
  }

  /** Once a decrement has met a zero, the counter is too high at every later rest, whatever is liked and unliked. */
  lemma DriftIsForGood(s: State, steps: seq<Step>, more: seq<Step>)
    requires Initial(s) && s.live && IsRun(s, steps) && Reliable(steps) && After(s, steps).floored > 0
    requires IsRun(After(s, steps), more) && Reliable(more) && After(After(s, steps), more).pending == multiset{}
    ensures var r := After(After(s, steps), more);
            r.count > |r.likes|
  {
    var q := After(s, steps);
    RunKeepsBalance(s, steps);
    RunKeepsBalance(q, more);
    ReliableLosesNothing(s, steps);
    ReliableLosesNothing(q, more);
    FlooredNeverFalls(q, more);
  }

  /** Once the clip is deleted, likes still come and go but no update reaches the counter. */
  lemma {:induction false} DeletedClipIsFrozen(s: State, steps: seq<Step>)
    requires Enabled(s, DeleteClip) && IsRun(Next(s, DeleteClip), steps)
    ensures var r := After(Next(s, DeleteClip), steps);
            !r.live && r.count == s.count && r.floored == s.floored
  {
    DeadClipIsFrozen(Next(s, DeleteClip), steps);
  }

  lemma {:induction false} DeadClipIsFrozen(s: State, steps: seq<Step>)
    requires !s.live && IsRun(s, steps)
    ensures var r := After(s, steps);
            !r.live && r.count == s.count && r.floored == s.floored
    decreases |steps|
  {
    if steps == [] {
    } else {
      DeadClipIsFrozen(Next(s, steps[0]), steps[1..]);
    }
  }

  // ------------------------------------------------------------ serial schedules

  datatype Request = LikeRequest(actor: Actor) | UnlikeRequest(actor: Actor)

  /** The statements of one handler, run without interruption. */
  function Statements(s: State, q: Request): (steps: seq<Step>) {
    match q
    case LikeRequest(actor) => if actor in s.likes then [InsertLike(actor)] else [InsertLike(actor), Apply(Increment)]
    case UnlikeRequest(actor) => if actor in s.likes then [DeleteLike(actor), Apply(Decrement)] else [DeleteLike(actor)]
  }

  function LikesAfter(likes: set<Actor>, q: Request): (r: set<Actor>) {
    match q
    case LikeRequest(actor) => likes + {actor}
    case UnlikeRequest(actor) => likes - {actor}
  }

  lemma WholeLike(s: State, actor: Actor)
    requires Initial(s) && s.live && actor !in s.likes
    ensures var mid := Next(s, InsertLike(actor));
            && Enabled(mid, Apply(Increment))
            && Next(mid, Apply(Increment)) == s.(likes := s.likes + {actor}, count := s.count + 1)
  {
    assert s.pending + multiset{Increment} - multiset{Increment} == s.pending;
  }

  lemma WholeUnlike(s: State, actor: Actor)
    requires Initial(s) && s.live && actor in s.likes
    ensures var mid := Next(s, DeleteLike(actor));
            && Enabled(mid, Apply(Decrement))
            && Next(mid, Apply(Decrement)) == s.(likes := s.likes - {actor}, count := s.count - 1)
  {
    assert s.pending + multiset{Decrement} - multiset{Decrement} == s.pending;
  }

  lemma TwoSteps(s: State, a: Step, b: Step)
    requires Enabled(s, a) && Enabled(Next(s, a), b)
    ensures IsRun(s, [a, b]) && After(s, [a, b]) == Next(Next(s, a), b)
  {
    var end := Next(Next(s, a), b);
    Prepend(Next(s, a), b, [], [b], end);
    Prepend(s, a, [b], [a, b], end);
  }

  lemma SerialHandler(s: State, q: Request)
    requires Initial(s) && s.live
    ensures IsRun(s, Statements(s, q))
    ensures var r := After(s, Statements(s, q));
            Initial(r) && r.live && r.likes == LikesAfter(s.likes, q)
  {
    match q
    case LikeRequest(actor) =>
      if actor in s.likes {
        Prepend(s, InsertLike(actor), [], [InsertLike(actor)], s);
        assert s.likes + {actor} == s.likes;
      } else {
        WholeLike(s, actor);
        TwoSteps(s, InsertLike(actor), Apply(Increment));
      }
    case UnlikeRequest(actor) =>
      if actor in s.likes {
        WholeUnlike(s, actor);
        TwoSteps(s, DeleteLike(actor), Apply(Decrement));
      } else {
        Prepend(s, DeleteLike(actor), [], [DeleteLike(actor)], s);
        assert s.likes - {actor} == s.likes;
      }
  }

  /** The states after each of a series of whole handlers. */
  function Serial(s: State, qs: seq<Request>): (r: State)
    requires Initial(s) && s.live
    ensures Initial(r) && r.live
    decreases |qs|
  {
    if qs == [] then s
    else
      SerialHandler(s, qs[0]);
      Serial(After(s, Statements(s, qs[0])), qs[1..])
  }

  function LikesAfterAll(likes: set<Actor>, qs: seq<Request>): (r: set<Actor>)
    decreases |qs|
  {
    if qs == [] then likes else LikesAfterAll(LikesAfter(likes, qs[0]), qs[1..])
  }

  /**
   Run one after the other, any handlers leave the counter equal to the like rows, which are the
   requests replayed.
   */
  lemma {:induction false} SerialCounterIsExact(s: State, qs: seq<Request>)
    requires Initial(s) && s.live
    ensures var r := Serial(s, qs);
            r.count == |r.likes| && r.likes == LikesAfterAll(s.likes, qs)
    decreases |qs|
  {
    if qs == [] {
    } else {
      SerialHandler(s, qs[0]);
      SerialCounterIsExact(After(s, Statements(s, qs[0])), qs[1..]);
    }
  }
}
