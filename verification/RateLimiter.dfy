/**
 The per-IP fixed-window rate limiter (crates/server/src/ratelimit.rs).  Instants are
 nanoseconds of the monotonic clock.  `Hit` is one call on one IP's window; the class keeps
 the map of windows; the lemmas speak about whole call histories.
 */
module RateLimiter {
  import opened Basics

  type Ip = nat

  const SECOND: nat := 1_000_000_000
  const WINDOW: nat := 60 * SECOND

  datatype Window = Window(start: nat, count: nat)

  datatype Verdict = Admitted | RetryAfter(secs: nat)

  /** `duration_since` saturates at zero. */
  function Since(now: nat, start: nat): (d: nat) {
    if now >= start then now - start else 0
  }

  /** The window a call counts against: the stored one, or a new one when there is none or it has run out. */
  function Current(w: Option<Window>, now: nat): (r: Window) {
    if w.None? || Since(now, w.value.start) >= WINDOW then Window(now, 0) else w.value
  }

  /** Seconds until the window ends, rounded down but at least one. */
  function RetrySeconds(w: Window, now: nat): (secs: nat) {
    var left := if Since(now, w.start) <= WINDOW then (WINDOW - Since(now, w.start)) / SECOND else 0;
    if left < 1 then 1 else left
  }

  function VerdictOn(limit: nat, w: Option<Window>, now: nat): (r: Verdict) {
    if Current(w, now).count >= limit then RetryAfter(RetrySeconds(Current(w, now), now)) else Admitted
  }

  function Counted(limit: nat, w: Option<Window>, now: nat): (r: Window) {
    var c := Current(w, now);
    if c.count >= limit then c else c.(count := c.count + 1)
  }

  function Lookup(buckets: map<Ip, Window>, ip: Ip): (r: Option<Window>) {
    if ip in buckets then Some(buckets[ip]) else None
  }

  class Limiter {
    const limit: nat
    var buckets: map<Ip, Window>

    constructor (limit: nat)
      ensures this.limit == limit && buckets == map[]
    {
      this.limit := limit;
      buckets := map[];
    }

    /** `check`: the new window of `ip` and the verdict; no other IP's window changes. */
    method Check(ip: Ip, now: nat) returns (r: Verdict)
      modifies this`buckets
      ensures r == VerdictOn(limit, Lookup(old(buckets), ip), now)
      ensures buckets == old(buckets)[ip := Counted(limit, Lookup(old(buckets), ip), now)]
    {
      if ip !in buckets {
        buckets := buckets[ip := Window(now, 0)];
      }
      if Since(now, buckets[ip].start) >= WINDOW {
        buckets := buckets[ip := Window(now, 0)];
      }
      var bucket := buckets[ip];
      if bucket.count >= limit {
        var elapsed := Since(now, bucket.start);
        var left := if elapsed <= WINDOW then (WINDOW - elapsed) / SECOND else 0;
        return RetryAfter(if left < 1 then 1 else left);
      }
      buckets := buckets[ip := bucket.(count := bucket.count + 1)];
      return Admitted;
    }
  }

  // ------------------------------------------------------------ histories of one IP

  /** The window left by a history of calls from one IP, on a fresh limiter. */
  function WindowAfter(limit: nat, times: seq<nat>): (r: Option<Window>) {
    if times == [] then None
    else Some(Counted(limit, WindowAfter(limit, times[..|times| - 1]), times[|times| - 1]))
  }

  predicate LastIsAdmitted(limit: nat, times: seq<nat>)
    requires times != []
  {
    VerdictOn(limit, WindowAfter(limit, times[..|times| - 1]), times[|times| - 1]) == Admitted
  }

  /** How many calls of the history were admitted at an instant of `[lo, hi)`. */
  function AdmittedIn(limit: nat, times: seq<nat>, lo: nat, hi: nat): (n: nat) {
    if times == [] then 0
    else
      AdmittedIn(limit, times[..|times| - 1], lo, hi)
      + if lo <= times[|times| - 1] < hi && LastIsAdmitted(limit, times) then 1 else 0
  }

  predicate NonDecreasing(times: seq<nat>) {
    forall i, j :: 0 <= i < j < |times| ==> times[i] <= times[j]
  }

  /** What the stored window says about the admitted calls of `[lo, lo + 60 s)`. */
  ghost predicate Accounts(limit: nat, w: Window, lo: nat, n: nat) {
    && w.count <= limit
    && (lo >= w.start + WINDOW ==> n == 0)
    && (lo == w.start ==> n == w.count)
    && (w.start < lo ==> n <= if w.count == 0 then 0 else w.count - 1)
    && (lo < w.start < lo + WINDOW ==> n <= (if limit == 0 then 0 else limit - 1) + w.count)
    && (lo + WINDOW <= w.start ==> n <= if limit == 0 then 0 else 2 * limit - 1)
  }

  lemma {:induction false} WindowAccounts(limit: nat, times: seq<nat>, lo: nat)
    requires NonDecreasing(times) && times != []
    ensures WindowAfter(limit, times).value.start <= times[|times| - 1]
    ensures limit > 0 ==> WindowAfter(limit, times).value.count > 0
    ensures Accounts(limit, WindowAfter(limit, times).value, lo, AdmittedIn(limit, times, lo, lo + WINDOW))
    decreases |times|
  {
    var before := times[..|times| - 1];
    if before == [] {
      assert AdmittedIn(limit, before, lo, lo + WINDOW) == 0;
    } else {
      WindowAccounts(limit, before, lo);
      assert before[|before| - 1] <= times[|times| - 1];
    }
  }

  /** The counter is exact: it is the number of calls admitted in the current window, at most `limit`. */
  lemma CountIsExact(limit: nat, times: seq<nat>)
    requires NonDecreasing(times) && times != []
    ensures var w := WindowAfter(limit, times).value;
            AdmittedIn(limit, times, w.start, w.start + WINDOW) == w.count <= limit
  {
    WindowAccounts(limit, times, WindowAfter(limit, times).value.start);
  }

  /**
   In any half-open interval of 60 seconds, wherever it starts, at most `2 * limit - 1` calls
   are admitted: an earlier window that reaches into the interval has spent its opening call
   before it.
   */
  lemma SlidingBound(limit: nat, times: seq<nat>, lo: nat)
    requires NonDecreasing(times)
    ensures AdmittedIn(limit, times, lo, lo + WINDOW) <= if limit == 0 then 0 else 2 * limit - 1
  {
    if times != [] {
      WindowAccounts(limit, times, lo);
    }
  }

  /** A call whose clock reading is older than its window's start counts against that window like one at its start. */
  lemma LateReadingCounts(limit: nat, w: Window, now: nat)
    requires now < w.start
    ensures Counted(limit, Some(w), now) == Counted(limit, Some(w), w.start)
    ensures VerdictOn(limit, Some(w), now) == VerdictOn(limit, Some(w), w.start)
    ensures w.count >= limit ==> VerdictOn(limit, Some(w), now) == RetryAfter(60)
  {
  }

  // ------------------------------------------------------------ the bound is reached

  /** One call, the rest of the window's budget at its last instant, and the next budget right after. */
  function WorstCase(limit: nat, k: nat): (times: seq<nat>) {
    seq(k, i => if i == 0 then 0 else if i < limit then WINDOW - 1 else WINDOW)
  }

  lemma {:induction false} WorstCaseCounts(limit: nat, k: nat)
    requires 0 < k <= 2 * limit
    ensures WindowAfter(limit, WorstCase(limit, k))
            == Some(if k <= limit then Window(0, k) else Window(WINDOW, k - limit))
    ensures AdmittedIn(limit, WorstCase(limit, k), WINDOW - 1, 2 * WINDOW - 1) == k - 1
    decreases k
  {
    var times := WorstCase(limit, k);
    assert times[..|times| - 1] == WorstCase(limit, k - 1);
    if k == 1 {
      assert WindowAfter(limit, WorstCase(limit, 0)) == None;
    } else {
      WorstCaseCounts(limit, k - 1);
    }
  }

  lemma SlidingBoundIsReached(limit: nat)
    requires limit > 0
    ensures NonDecreasing(WorstCase(limit, 2 * limit))
    ensures AdmittedIn(limit, WorstCase(limit, 2 * limit), WINDOW - 1, WINDOW - 1 + WINDOW) == 2 * limit - 1
  {
    WorstCaseCounts(limit, 2 * limit);
  }

  // ------------------------------------------------------------ when a refused caller may come back

  /** After a refusal, the IP's next call is admitted exactly when the window it was refused in has ended. */
  lemma AdmittedAgainExactlyWhen(limit: nat, w: Option<Window>, now: nat, later: nat)
    requires limit > 0 && now <= later && VerdictOn(limit, w, now).RetryAfter?
    requires w.Some? && w.value.start <= now
    ensures VerdictOn(limit, Some(Counted(limit, w, now)), later) == Admitted <==>
              later >= w.value.start + 60_000_000_000
  {
  }

  /** The answer to a refused call: the whole seconds left of the minute, but never less than one. */
  lemma SecondsTold(limit: nat, w: Option<Window>, now: nat)
    requires limit > 0 && VerdictOn(limit, w, now).RetryAfter? && w.Some? && w.value.start <= now
    ensures var secs := VerdictOn(limit, w, now).secs;
            var left := w.value.start + 60_000_000_000 - now;
            && 1 <= secs <= 60
            && (left >= 1_000_000_000 ==> secs * 1_000_000_000 <= left < (secs + 1) * 1_000_000_000)
            && (left < 1_000_000_000 ==> secs == 1)
  {
  }

  /** Waiting one second longer than told always suffices. */
  lemma WaitingOneMoreSecondSuffices(limit: nat, w: Option<Window>, now: nat, later: nat)
    requires limit > 0 && VerdictOn(limit, w, now).RetryAfter?
    requires w.Some? ==> w.value.start <= now
    requires later >= now + (VerdictOn(limit, w, now).secs + 1) * SECOND
    ensures VerdictOn(limit, Some(Counted(limit, w, now)), later) == Admitted
  {
    assert w.Some?;
    AdmittedAgainExactlyWhen(limit, w, now, later);
    var left := WINDOW - (now - w.value.start);
    assert left < (left / SECOND + 1) * SECOND;
  }

  /** Waiting exactly as told suffices only if the refusal fell on a whole second of the window or in its last one. */
  lemma WaitingAsToldSufficesExactlyWhen(limit: nat, w: Option<Window>, now: nat)
    requires limit > 0 && VerdictOn(limit, w, now).RetryAfter?
    requires w.Some? && w.value.start <= now
    ensures var elapsed := now - w.value.start;
            VerdictOn(limit, Some(Counted(limit, w, now)), now + VerdictOn(limit, w, now).secs * SECOND) == Admitted
            <==> elapsed % SECOND == 0 || elapsed >= 59 * SECOND
  {
    var elapsed := now - w.value.start;
    var left := WINDOW - elapsed;
    AdmittedAgainExactlyWhen(limit, w, now, now + VerdictOn(limit, w, now).secs * SECOND);
    assert left == (left / SECOND) * SECOND + left % SECOND;
    assert elapsed == (elapsed / SECOND) * SECOND + elapsed % SECOND;
  }

  // ------------------------------------------------------------ histories of many IPs

  datatype Call = Call(ip: Ip, at: nat)

  /** The limiter's map after a history of calls. */
  function BucketsAfter(limit: nat, calls: seq<Call>): (r: map<Ip, Window>) {
    if calls == [] then map[]
    else
      var before, last := BucketsAfter(limit, calls[..|calls| - 1]), calls[|calls| - 1];
      before[last.ip := Counted(limit, Lookup(before, last.ip), last.at)]
  }

  function VerdictAfter(limit: nat, calls: seq<Call>, next: Call): (r: Verdict) {
    VerdictOn(limit, Lookup(BucketsAfter(limit, calls), next.ip), next.at)
  }

  function TimesOf(calls: seq<Call>, ip: Ip): (times: seq<nat>) {
    if calls == [] then []
    else TimesOf(calls[..|calls| - 1], ip) + if calls[|calls| - 1].ip == ip then [calls[|calls| - 1].at] else []
  }

  /** Calls of `ip` admitted in `[lo, hi)`, counted in the full history. */
  function AdmittedFor(limit: nat, calls: seq<Call>, ip: Ip, lo: nat, hi: nat): (n: nat) {
    if calls == [] then 0
    else
      var before, last := calls[..|calls| - 1], calls[|calls| - 1];
      AdmittedFor(limit, before, ip, lo, hi)
      + if last.ip == ip && lo <= last.at < hi && VerdictAfter(limit, before, last) == Admitted then 1 else 0
  }

  ghost predicate Clocked(calls: seq<Call>) {
    forall i, j :: 0 <= i < j < |calls| ==> calls[i].at <= calls[j].at
  }

  /** An IP's window, and with it every verdict, depends on that IP's own calls alone. */
  lemma {:induction false} OtherIpsDoNotMatter(limit: nat, calls: seq<Call>, ip: Ip)
    ensures Lookup(BucketsAfter(limit, calls), ip) == WindowAfter(limit, TimesOf(calls, ip))
    decreases |calls|
  {
    if calls == [] {
    } else {
      var before, last := calls[..|calls| - 1], calls[|calls| - 1];
      OtherIpsDoNotMatter(limit, before, ip);
      if last.ip == ip {
        var times := TimesOf(calls, ip);
        assert times[..|times| - 1] == TimesOf(before, ip);
      } else {
        assert TimesOf(calls, ip) == TimesOf(before, ip);
      }
    }
  }

  lemma {:induction false} AdmittedForIsAdmittedIn(limit: nat, calls: seq<Call>, ip: Ip, lo: nat, hi: nat)
    ensures AdmittedFor(limit, calls, ip, lo, hi) == AdmittedIn(limit, TimesOf(calls, ip), lo, hi)
    decreases |calls|
  {
    if calls == [] {
    } else {
      var before, last := calls[..|calls| - 1], calls[|calls| - 1];
      AdmittedForIsAdmittedIn(limit, before, ip, lo, hi);
      OtherIpsDoNotMatter(limit, before, ip);
      if last.ip == ip {
        var times := TimesOf(calls, ip);
        assert times[..|times| - 1] == TimesOf(before, ip);
      } else {
        assert TimesOf(calls, ip) == TimesOf(before, ip);
      }
    }
  }

  lemma {:induction false} TimesAreNonDecreasing(calls: seq<Call>, ip: Ip)
    requires Clocked(calls)
    ensures NonDecreasing(TimesOf(calls, ip))
    ensures forall i :: 0 <= i < |TimesOf(calls, ip)| ==> calls != [] && TimesOf(calls, ip)[i] <= calls[|calls| - 1].at
    decreases |calls|
  {
    if calls == [] {
    } else {
      var before := calls[..|calls| - 1];
      TimesAreNonDecreasing(before, ip);
      if before != [] {
        assert before[|before| - 1] == calls[|calls| - 2];
      }
    }
  }

  /** For every history of calls from any number of IPs, every IP and every 60-second interval. */
  lemma SlidingBoundForEveryIp(limit: nat, calls: seq<Call>, ip: Ip, lo: nat)
    requires Clocked(calls)
    ensures AdmittedFor(limit, calls, ip, lo, lo + WINDOW) <= if limit == 0 then 0 else 2 * limit - 1
  {
    TimesAreNonDecreasing(calls, ip);
    AdmittedForIsAdmittedIn(limit, calls, ip, lo, lo + WINDOW);
    SlidingBound(limit, TimesOf(calls, ip), lo);
  }

  lemma {:induction false} OthersLeaveTheWindow(limit: nat, calls: seq<Call>, others: seq<Call>, ip: Ip)
    requires forall i :: 0 <= i < |others| ==> others[i].ip != ip
    ensures Lookup(BucketsAfter(limit, calls + others), ip) == Lookup(BucketsAfter(limit, calls), ip)
    decreases |others|
  {
    if others == [] {
      assert calls + others == calls;
    } else {
      var all := calls + others;
      assert all[..|all| - 1] == calls + others[..|others| - 1];
      OthersLeaveTheWindow(limit, calls, others[..|others| - 1], ip);
    }
  }

  /**
   A refused IP that stays away for one second more than it was told is admitted on its next
   call, whatever other IPs do in between.
   */
  lemma RefusedThenAdmitted(limit: nat, calls: seq<Call>, refused: Call, others: seq<Call>, next: Call)
    requires limit > 0 && Clocked(calls + [refused]) && next.ip == refused.ip
    requires forall i :: 0 <= i < |others| ==> others[i].ip != refused.ip
    requires VerdictAfter(limit, calls, refused).RetryAfter?
    requires next.at >= refused.at + (VerdictAfter(limit, calls, refused).secs + 1) * SECOND
    ensures VerdictAfter(limit, calls + [refused] + others, next) == Admitted
  {
    var ip := refused.ip;
    OthersLeaveTheWindow(limit, calls + [refused], others, ip);
    var all := calls + [refused];
    assert all[..|all| - 1] == calls;
    var w := Lookup(BucketsAfter(limit, calls), ip);
    OtherIpsDoNotMatter(limit, calls, ip);
    if TimesOf(calls, ip) != [] {
      forall i, j | 0 <= i < j < |calls| ensures calls[i].at <= calls[j].at {
        assert all[i] == calls[i] && all[j] == calls[j];
      }
      TimesAreNonDecreasing(calls, ip);
      WindowAccounts(limit, TimesOf(calls, ip), 0);
      assert all[|calls| - 1].at <= all[|calls|].at;
    }
    WaitingOneMoreSecondSuffices(limit, w, refused.at, next.at);
  }

  /** The whole budget at once, at the first instant. */
  function Burst(ip: Ip, k: nat): (calls: seq<Call>) {
    seq(k, _ => Call(ip, 0))
  }

  lemma {:induction false} BurstFills(limit: nat, ip: Ip, k: nat)
    requires k <= limit
    ensures Lookup(BucketsAfter(limit, Burst(ip, k)), ip) == if k == 0 then None else Some(Window(0, k))
    decreases k
  {
    if k == 0 {
    } else {
      var calls := Burst(ip, k);
      BurstFills(limit, ip, k - 1);
      assert calls[..|calls| - 1] == Burst(ip, k - 1);
    }
  }

  /**
   Told after half a second to wait 59 seconds, an IP that waits exactly so long is refused
   again, for every limit.
   */
  lemma WaitingAsToldCanFail(limit: nat, ip: Ip)
    requires limit > 0
    ensures var calls := Burst(ip, limit);
            var refused := Call(ip, SECOND / 2);
            var told := VerdictAfter(limit, calls, refused);
            && Clocked(calls + [refused]) && told == RetryAfter(59)
            && VerdictAfter(limit, calls + [refused], Call(ip, refused.at + told.secs * SECOND)) == RetryAfter(1)
  {
    BurstFills(limit, ip, limit);
    var all := Burst(ip, limit) + [Call(ip, SECOND / 2)];
    assert all[..|all| - 1] == Burst(ip, limit);
  }
}
