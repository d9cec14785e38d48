/**
 The edit timeline (web/src/lib/editor.ts): trimmed, speeded segments laid end to end, and the
 map from a time of the final clip to a time of a source.  Numbers are exact reals.
 */
module EditTimeline {
  datatype Segment = Segment(trimStart: real, trimEnd: real, speed: real)

  /** `segmentIndex`, `sourceTime` and `localTime`. */
  datatype Position = Position(index: nat, source: real, local: real)

  // ------------------------------------------------------------ one segment

  /** `segmentFinalDuration` */
  function Duration(s: Segment): (d: real)
    requires s.speed > 0.0
    ensures d >= 0.0
  {
    var d := (s.trimEnd - s.trimStart) / s.speed;
    if d < 0.0 then 0.0 else d
  }

  /** The source time that plays `local` seconds into the segment. */
  function SourceAt(s: Segment, local: real): (source: real) {
    s.trimStart + local * s.speed
  }

  /** The seconds into the segment at which a source time plays. */
  function LocalAt(s: Segment, source: real): (local: real)
    requires s.speed > 0.0
  {
    (source - s.trimStart) / s.speed
  }

  predicate InTrimWindow(s: Segment, source: real) {
    s.trimStart <= source < s.trimEnd
  }

  lemma Stretch(a: real, b: real, speed: real)
    requires speed > 0.0
    ensures a < b <==> a * speed < b * speed
  {
  }

  lemma StretchAndShrink(a: real, speed: real)
    requires speed > 0.0
    ensures a * speed / speed == a
    ensures a / speed * speed == a
  {
  }

  /** Playing keeps order. */
  lemma SourceKeepsOrder(s: Segment, a: real, b: real)
    requires s.speed > 0.0
    ensures a < b <==> SourceAt(s, a) < SourceAt(s, b)
  {
    Stretch(a, b, s.speed);
  }

  lemma LocalUndoesSource(s: Segment, local: real)
    requires s.speed > 0.0
    ensures LocalAt(s, SourceAt(s, local)) == local
  {
    StretchAndShrink(local, s.speed);
  }

  lemma SourceUndoesLocal(s: Segment, source: real)
    requires s.speed > 0.0
    ensures SourceAt(s, LocalAt(s, source)) == source
  {
    StretchAndShrink(source - s.trimStart, s.speed);
  }

  /** A source time is in the trim window exactly when it plays within the segment's duration. */
  lemma WindowIsDuration(s: Segment, local: real)
    requires s.speed > 0.0
    ensures 0.0 <= local < Duration(s) <==> InTrimWindow(s, SourceAt(s, local))
  {
    var width := s.trimEnd - s.trimStart;
    Stretch(local, width / s.speed, s.speed);
    Stretch(local, 0.0, s.speed);
    StretchAndShrink(width, s.speed);
  }

  // ------------------------------------------------------------ durations laid end to end

  ghost predicate NonNegative(ds: seq<real>) {
    forall i :: 0 <= i < |ds| ==> ds[i] >= 0.0
  }

  /** Where part `n` begins. */
  function Begin(ds: seq<real>, n: nat): (t: real)
    requires n <= |ds|
    decreases n, ds
  {
    if n == 0 then 0.0 else Begin(ds, n - 1) + ds[n - 1]
  }

  /** The first part, from `i` on, that ends after `t`; the number of parts if none does. */
  function IndexFrom(ds: seq<real>, t: real, i: nat): (k: nat)
    requires i <= |ds|
    ensures i <= k <= |ds|
    decreases |ds| - i
  {
    if i == |ds| || t < Begin(ds, i) + ds[i] then i else IndexFrom(ds, t, i + 1)
  }

  function IndexAt(ds: seq<real>, t: real): (k: nat)
    ensures k <= |ds|
  {
    IndexFrom(ds, t, 0)
  }

  lemma {:induction false} IndexFromIsFirst(ds: seq<real>, t: real, i: nat, j: nat)
    requires i <= |ds| && i <= j < IndexFrom(ds, t, i)
    ensures Begin(ds, j) + ds[j] <= t
    decreases |ds| - i
  {
    if i == j {
    } else {
      IndexFromIsFirst(ds, t, i + 1, j);
    }
  }

  lemma {:induction false} IndexFromEndsAfter(ds: seq<real>, t: real, i: nat)
    requires i <= |ds| && IndexFrom(ds, t, i) < |ds|
    ensures t < Begin(ds, IndexFrom(ds, t, i)) + ds[IndexFrom(ds, t, i)]
    decreases |ds| - i
  {
    if !(t < Begin(ds, i) + ds[i]) {
      IndexFromEndsAfter(ds, t, i + 1);
    }
  }

  lemma {:induction false} BeginIsMonotone(ds: seq<real>, i: nat, j: nat)
    requires NonNegative(ds) && i <= j <= |ds|
    ensures Begin(ds, i) <= Begin(ds, j)
    decreases j - i
  {
    if i == j {
    } else {
      BeginIsMonotone(ds, i, j - 1);
    }
  }

  /** A time between the ends lies in the part that is found. */
  lemma FoundPart(ds: seq<real>, t: real)
    requires NonNegative(ds) && 0.0 <= t < Begin(ds, |ds|)
    ensures var k := IndexAt(ds, t);
            k < |ds| && Begin(ds, k) <= t < Begin(ds, k) + ds[k]
  {
    var k := IndexAt(ds, t);
    if k > 0 {
      IndexFromIsFirst(ds, t, 0, k - 1);
    }
    if k < |ds| {
      IndexFromEndsAfter(ds, t, 0);
    }
  }

  /** It lies in no other part. */
  lemma OnlyPart(ds: seq<real>, t: real, k: nat)
    requires NonNegative(ds) && k < |ds| && Begin(ds, k) <= t < Begin(ds, k) + ds[k]
    ensures 0.0 <= t < Begin(ds, |ds|) && IndexAt(ds, t) == k
  {
    BeginIsMonotone(ds, 0, k);
    BeginIsMonotone(ds, k + 1, |ds|);
    FoundPart(ds, t);
    var i := IndexAt(ds, t);
    if i < k {
      BeginIsMonotone(ds, i + 1, k);
    } else if k < i {
      BeginIsMonotone(ds, k + 1, i);
    }
  }

  // ------------------------------------------------------------ the manifest

  ghost predicate Playable(segs: seq<Segment>) {
    forall i :: 0 <= i < |segs| ==> segs[i].speed > 0.0
  }

  function Durations(segs: seq<Segment>): (ds: seq<real>)
    requires Playable(segs)
    ensures |ds| == |segs| && (forall i :: 0 <= i < |ds| ==> ds[i] == Duration(segs[i])) && NonNegative(ds)
  {
    seq(|segs|, i requires 0 <= i < |segs| && Playable(segs) => Duration(segs[i]))
  }

  /** `manifestDuration` */
  function Total(segs: seq<Segment>): (t: real)
    requires Playable(segs)
  {
    Begin(Durations(segs), |segs|)
  }

  method ManifestDuration(segs: seq<Segment>) returns (acc: real)
    requires Playable(segs)
    ensures acc == Total(segs)
  {
    acc := 0.0;
    for i := 0 to |segs|
      invariant acc == Begin(Durations(segs), i)
    {
      acc := acc + Duration(segs[i]);
    }
  }

  function Resolve(segs: seq<Segment>, t: real): (p: Position)
    requires Playable(segs)
  {
    var ds := Durations(segs);
    var i := IndexAt(ds, t);
    if i < |segs| then Position(i, SourceAt(segs[i], t - Begin(ds, i)), t - Begin(ds, i))
    else if segs == [] then Position(0, 0.0, 0.0)
    else Position(|segs| - 1, segs[|segs| - 1].trimEnd, ds[|segs| - 1])
  }

  /** `resolveTime` */
  method ResolveTime(segs: seq<Segment>, t: real) returns (p: Position)
    requires Playable(segs)
    ensures p == Resolve(segs, t)
  {
    var acc := 0.0;
    ghost var ds := Durations(segs);
    for i := 0 to |segs|
      invariant acc == Begin(ds, i)
      invariant IndexFrom(ds, t, i) == IndexAt(ds, t)
    {
      var d := Duration(segs[i]);
      if t < acc + d {
        var local := t - acc;
        return Position(i, segs[i].trimStart + local * segs[i].speed, local);
      }
      acc := acc + d;
    }
    var last := if |segs| - 1 < 0 then 0 else |segs| - 1;
    if last < |segs| {
      return Position(last, segs[last].trimEnd, Duration(segs[last]));
    }
    return Position(last, 0.0, Duration(Segment(0.0, 0.0, 1.0)));
  }

  /** The time of the final clip at which a source time of segment `i` plays. */
  function FinalTime(segs: seq<Segment>, i: nat, source: real): (t: real)
    requires Playable(segs) && i < |segs|
  {
    Begin(Durations(segs), i) + LocalAt(segs[i], source)
  }

  /** A time of the clip resolves into the trim window of a segment, and playing from there is that time. */
  lemma ResolveLandsInWindow(segs: seq<Segment>, t: real)
    requires Playable(segs) && 0.0 <= t < Total(segs)
    ensures var p := Resolve(segs, t);
            && p.index < |segs|
            && InTrimWindow(segs[p.index], p.source)
            && 0.0 <= p.local < Duration(segs[p.index])
            && FinalTime(segs, p.index, p.source) == t
  {
    var ds := Durations(segs);
    FoundPart(ds, t);
    var i := IndexAt(ds, t);
    WindowIsDuration(segs[i], t - Begin(ds, i));
    LocalUndoesSource(segs[i], t - Begin(ds, i));
  }

  /** Conversely every source time in a trim window is reached, at its final time and at no other. */
  lemma ResolveUndoesFinalTime(segs: seq<Segment>, i: nat, source: real)
    requires Playable(segs) && i < |segs| && InTrimWindow(segs[i], source)
    ensures var t := FinalTime(segs, i, source);
            && 0.0 <= t < Total(segs)
            && Resolve(segs, t).index == i && Resolve(segs, t).source == source
  {
    SourceUndoesLocal(segs[i], source);
    WindowIsDuration(segs[i], LocalAt(segs[i], source));
    OnlyPart(Durations(segs), FinalTime(segs, i, source), i);
  }

  predicate Earlier(p: Position, q: Position) {
    p.index < q.index || (p.index == q.index && p.source < q.source)
  }

  /** The map keeps order strictly: later in the clip is a later segment, or later in the same source. */
  lemma ResolveKeepsOrder(segs: seq<Segment>, t: real, u: real)
    requires Playable(segs) && 0.0 <= t < Total(segs) && 0.0 <= u < Total(segs)
    ensures t < u <==> Earlier(Resolve(segs, t), Resolve(segs, u))
  {
    var ds := Durations(segs);
    FoundPart(ds, t);
    FoundPart(ds, u);
    var i, j := IndexAt(ds, t), IndexAt(ds, u);
    if i < j {
      BeginIsMonotone(ds, i + 1, j);
    } else if j < i {
      BeginIsMonotone(ds, j + 1, i);
    } else {
      SourceKeepsOrder(segs[i], t - Begin(ds, i), u - Begin(ds, i));
    }
  }

  /** Times past the end stay at the end of the last segment; times before the start run ahead of the first one. */
  lemma ResolveOutside(segs: seq<Segment>, t: real)
    requires Playable(segs)
    ensures t >= Total(segs) && segs != [] ==>
              Resolve(segs, t) == Position(|segs| - 1, segs[|segs| - 1].trimEnd, Duration(segs[|segs| - 1]))
    ensures t < 0.0 && segs != [] ==> Resolve(segs, t).index == 0 && Resolve(segs, t).source < segs[0].trimStart
    ensures segs == [] ==> Resolve(segs, t) == Position(0, 0.0, 0.0)
  {
    var ds := Durations(segs);
    if segs != [] {
      if t >= Total(segs) && IndexAt(ds, t) < |segs| {
        IndexFromEndsAfter(ds, t, 0);
        BeginIsMonotone(ds, IndexAt(ds, t) + 1, |segs|);
      }
      if t < 0.0 {
        SourceKeepsOrder(segs[0], t, 0.0);
      }
    }
  }
}
