/** The fixed-window rate limiter (packvault/security/rate_limit.py). */
module RateLimit {
  import opened Basics

  /** A window of one key: how many requests it admitted, and when it began. */
  datatype Window = Window(count: int, start: real)

  datatype Limits = Limits(maxRequests: int, windowSeconds: real)

  /** The window that a request at `now` falls into, before it is counted. */
  function Current(w: Option<Window>, now: real, l: Limits): Window {
    if w.None? || now - w.value.start >= l.windowSeconds then Window(0, now) else w.value
  }

  predicate Admits(w: Option<Window>, now: real, l: Limits) {
    Current(w, now, l).count < l.maxRequests
  }

  function After(w: Option<Window>, now: real, l: Limits): Option<Window> {
    if Admits(w, now, l) then Some(Current(w, now, l).(count := Current(w, now, l).count + 1)) else w
  }

  function Slot(windows: map<string, Window>, key: string): Option<Window> {
    if key in windows then Some(windows[key]) else None
  }

  function WindowsAfter(windows: map<string, Window>, key: string, now: real, l: Limits): map<string, Window> {
    if Admits(Slot(windows, key), now, l) then windows[key := After(Slot(windows, key), now, l).value] else windows
  }

  class FixedWindowRateLimiter {
    const limits: Limits
    var windows: map<string, Window>

    constructor (maxRequests: int, windowSeconds: real)
      ensures limits == Limits(maxRequests, windowSeconds) && windows == map[]
    {
      limits := Limits(maxRequests, windowSeconds);
      windows := map[];
    }

    /** `now` was read before the lock was taken, so calls may arrive with stale times. */
    method Allow(key: string, now: real) returns (ok: bool)
      modifies this
      ensures ok == Admits(Slot(old(windows), key), now, limits)
      ensures windows == WindowsAfter(old(windows), key, now, limits)
      ensures
        var running := key in old(windows) && now - old(windows)[key].start < limits.windowSeconds;
        var count := if running then old(windows)[key].count else 0;
        var start := if running then old(windows)[key].start else now;
        && (ok <==> count < limits.maxRequests)
        && windows == if ok then old(windows)[key := Window(count + 1, start)] else old(windows)
    {
      var count, start := 0, now;
      if key in windows {
        count, start := windows[key].count, windows[key].start;
      }
      if now - start >= limits.windowSeconds {
        count, start := 0, now;
      }
      if count >= limits.maxRequests { return false; }
      windows := windows[key := Window(count + 1, start)];
      ok := true;
    }
  }

  // ---------------------------------------------------------------------------------------------
  // Keys do not influence each other.

  datatype Request = Request(key: string, now: real)

  /** All requests, in the order in which they get the lock. */
  function Served(calls: seq<Request>, l: Limits): map<string, Window> {
    if calls == [] then map[]
    else
      var last := calls[|calls| - 1];
      WindowsAfter(Served(calls[..|calls| - 1], l), last.key, last.now, l)
  }

  function TimesOf(calls: seq<Request>, key: string): seq<real> {
    if calls == [] then []
    else
      var last := calls[|calls| - 1];
      TimesOf(calls[..|calls| - 1], key) + if last.key == key then [last.now] else []
  }

  /** Every window that the requests of one key opened, in order; the last one is current. */
  function Opened(times: seq<real>, l: Limits): seq<Window> {
    if times == [] then []
    else Advance(Opened(times[..|times| - 1], l), times[|times| - 1], l)
  }

  function LastOf(history: seq<Window>): Option<Window> {
    if history == [] then None else Some(history[|history| - 1])
  }

  function Advance(history: seq<Window>, now: real, l: Limits): seq<Window> {
    var w := LastOf(history);
    if !Admits(w, now, l) then history
    else if w.None? || now - w.value.start >= l.windowSeconds then history + [Window(1, now)]
    else history[..|history| - 1] + [Window(w.value.count + 1, w.value.start)]
  }

  lemma AdvanceIsAfter(history: seq<Window>, now: real, l: Limits)
    ensures LastOf(Advance(history, now, l)) == After(LastOf(history), now, l)
  {
  }

  /** What the limiter holds for a key, and so its next answer, depends only on the requests of that key. */
  lemma {:induction false} KeysAreIndependent(calls: seq<Request>, key: string, l: Limits)
    ensures Slot(Served(calls, l), key) == LastOf(Opened(TimesOf(calls, key), l))
  {
    if calls != [] {
      var init, last := calls[..|calls| - 1], calls[|calls| - 1];
      KeysAreIndependent(init, key, l);
      if last.key == key {
        var times := TimesOf(init, key);
        assert (times + [last.now])[..|times|] == times;
        AdvanceIsAfter(Opened(times, l), last.now, l);
      } else {
        assert TimesOf(init, key) + [] == TimesOf(init, key);
      }
    }
  }

  // ---------------------------------------------------------------------------------------------
  // Windows in any lock order.

  predicate Apart(history: seq<Window>, w: real) {
    forall i :: 0 < i < |history| ==> history[i].start - history[i - 1].start >= w
  }

  predicate Bounded(history: seq<Window>, l: Limits) {
    forall i :: 0 <= i < |history| ==> 1 <= history[i].count <= l.maxRequests
  }

  /** How many of the requests were admitted. */
  function AdmittedCount(times: seq<real>, l: Limits): nat {
    if times == [] then 0
    else
      var init := times[..|times| - 1];
      AdmittedCount(init, l) + if Admits(LastOf(Opened(init, l)), times[|times| - 1], l) then 1 else 0
  }

  function Total(history: seq<Window>): int {
    if history == [] then 0 else Total(history[..|history| - 1]) + history[|history| - 1].count
  }

  lemma TotalReplaced(history: seq<Window>, w: Window)
    requires history != []
    ensures Total(history[..|history| - 1] + [w]) == Total(history) - history[|history| - 1].count + w.count
  {
    assert (history[..|history| - 1] + [w])[..|history| - 1] == history[..|history| - 1];
  }

  lemma AdvanceTotal(history: seq<Window>, now: real, l: Limits)
    ensures Total(Advance(history, now, l)) == Total(history) + if Admits(LastOf(history), now, l) then 1 else 0
  {
    var w := LastOf(history);
    if w.None? || now - w.value.start >= l.windowSeconds {
      assert (history + [Window(1, now)])[..|history|] == history;
    } else {
      TotalReplaced(history, Window(w.value.count + 1, w.value.start));
    }
  }

  lemma AdvanceApart(history: seq<Window>, now: real, l: Limits)
    requires Apart(history, l.windowSeconds)
    ensures Apart(Advance(history, now, l), l.windowSeconds)
  {
  }

  lemma AdvanceBounded(history: seq<Window>, now: real, l: Limits)
    requires Bounded(history, l)
    ensures Bounded(Advance(history, now, l), l)
  {
  }

  /**
    In every lock order, with any times at all: successive windows begin at least a window length
    apart, each admits at most `maxRequests`, and the windows account for every admitted request.
  */
  lemma {:induction false} WindowsInAnyOrder(times: seq<real>, l: Limits)
    ensures var history := Opened(times, l);
      Apart(history, l.windowSeconds) && Bounded(history, l) && Total(history) == AdmittedCount(times, l)
  {
    if times != [] {
      var init := times[..|times| - 1];
      WindowsInAnyOrder(init, l);
      AdvanceApart(Opened(init, l), times[|times| - 1], l);
      AdvanceBounded(Opened(init, l), times[|times| - 1], l);
      AdvanceTotal(Opened(init, l), times[|times| - 1], l);
    }
  }

  // ---------------------------------------------------------------------------------------------
  // The sliding bound.

  predicate Nondecreasing(times: seq<real>) {
    forall i, j :: 0 <= i < j < |times| ==> times[i] <= times[j]
  }

  /** Admitted requests with `a <= now < b`. */
  function AdmittedIn(times: seq<real>, a: real, b: real, l: Limits): nat {
    if times == [] then 0
    else
      var init, now := times[..|times| - 1], times[|times| - 1];
      AdmittedIn(init, a, b, l) + if a <= now < b && Admits(LastOf(Opened(init, l)), now, l) then 1 else 0
  }

  /** The window begins late enough and early enough to have a request in the interval. */
  predicate Near(w: Window, a: real, b: real, l: Limits) {
    a - l.windowSeconds < w.start < b
  }

  /** How many windows are near the interval, and how many requests these admitted. */
  function NearCount(history: seq<Window>, a: real, b: real, l: Limits): nat {
    if history == [] then 0
    else NearCount(history[..|history| - 1], a, b, l) + if Near(history[|history| - 1], a, b, l) then 1 else 0
  }

  function NearTotal(history: seq<Window>, a: real, b: real, l: Limits): int {
    if history == [] then 0
    else
      NearTotal(history[..|history| - 1], a, b, l) +
        if Near(history[|history| - 1], a, b, l) then history[|history| - 1].count else 0
  }

  /** One more request: if it is admitted inside the interval, it is counted in a window near it. */
  lemma AdvanceNear(history: seq<Window>, now: real, a: real, b: real, l: Limits)
    requires l.windowSeconds > 0.0 && (history != [] ==> history[|history| - 1].start <= now)
    ensures NearTotal(Advance(history, now, l), a, b, l) >=
            NearTotal(history, a, b, l) + if a <= now < b && Admits(LastOf(history), now, l) then 1 else 0
  {
    var w, next := LastOf(history), Advance(history, now, l);
    if Admits(w, now, l) {
      if w.None? || now - w.value.start >= l.windowSeconds {
        assert next[..|next| - 1] == history;
      } else {
        assert next[..|next| - 1] == history[..|history| - 1];
      }
    }
  }

  lemma {:induction false} AdmittedNear(times: seq<real>, a: real, b: real, l: Limits)
    requires Nondecreasing(times) && l.windowSeconds > 0.0
    ensures AdmittedIn(times, a, b, l) <= NearTotal(Opened(times, l), a, b, l)
    ensures var history := Opened(times, l);
      history != [] ==> times != [] && history[|history| - 1].start <= times[|times| - 1]
  {
    if times != [] {
      var init := times[..|times| - 1];
      AdmittedNear(init, a, b, l);
      AdvanceNear(Opened(init, l), times[|times| - 1], a, b, l);
    }
  }

  lemma {:induction false} NearWeighs(history: seq<Window>, a: real, b: real, l: Limits)
    requires Bounded(history, l)
    ensures NearTotal(history, a, b, l) <= NearCount(history, a, b, l) * l.maxRequests
  {
    if history != [] { NearWeighs(history[..|history| - 1], a, b, l); }
  }

  lemma {:induction false} StartsApart(history: seq<Window>, i: nat, j: nat, w: real)
    requires Apart(history, w) && w > 0.0 && i < j < |history|
    ensures history[j].start >= history[i].start + w
  {
    if i + 1 < j { StartsApart(history, i, j - 1, w); }
  }

  /** `n` window lengths. */
  function Lengths(n: nat, w: real): real {
    if n == 0 then 0.0 else Lengths(n - 1, w) + w
  }

  lemma {:induction false} LengthsIsProduct(n: nat, w: real)
    ensures Lengths(n, w) == n as real * w
  {
    if n > 0 {
      LengthsIsProduct(n - 1, w);
      assert n as real * w == (n - 1) as real * w + w;
    }
  }

  lemma {:induction false} LengthsGrow(n: nat, k: nat, w: real)
    requires w > 0.0 && n >= k
    ensures Lengths(n, w) >= Lengths(k, w)
  {
    if n > k { LengthsGrow(n - 1, k, w); }
  }

  lemma LengthsOrder(n: nat, k: nat, w: real)
    requires w > 0.0 && Lengths(n, w) < Lengths(k, w)
    ensures n < k
  {
    if n >= k { LengthsGrow(n, k, w); }
  }

  /**
    Windows near the interval are spread out: the last of `n + 1` begins more than `n` lengths behind the
    earliest start.
  */
  lemma {:induction false} NearSpread(history: seq<Window>, a: real, b: real, l: Limits) returns (j: nat)
    requires Apart(history, l.windowSeconds) && l.windowSeconds > 0.0 && NearCount(history, a, b, l) > 0
    ensures j < |history| && Near(history[j], a, b, l)
    ensures history[j].start > a - l.windowSeconds + Lengths(NearCount(history, a, b, l) - 1, l.windowSeconds)
  {
    var init, last := history[..|history| - 1], |history| - 1;
    if NearCount(init, a, b, l) == 0 {
      j := last;
    } else {
      j := NearSpread(init, a, b, l);
      if Near(history[last], a, b, l) {
        StartsApart(history, j, last, l.windowSeconds);
        j := last;
      }
    }
  }

  lemma FewNear(history: seq<Window>, a: real, b: real, k: nat, l: Limits)
    requires Apart(history, l.windowSeconds) && l.windowSeconds > 0.0 && b == a + Lengths(k, l.windowSeconds)
    ensures NearCount(history, a, b, l) <= k + 1
  {
    var n := NearCount(history, a, b, l);
    if n > 0 {
      var j := NearSpread(history, a, b, l);
      LengthsOrder(n - 1, k + 1, l.windowSeconds);
    }
  }

  lemma {:induction false} EmptyInterval(times: seq<real>, a: real, b: real, l: Limits)
    requires b <= a
    ensures AdmittedIn(times, a, b, l) == 0
  {
    if times != [] { EmptyInterval(times[..|times| - 1], a, b, l); }
  }

  lemma {:induction false} NothingAdmitted(times: seq<real>, a: real, b: real, l: Limits)
    requires l.maxRequests <= 0
    ensures AdmittedIn(times, a, b, l) == 0 && Opened(times, l) == []
  {
    if times != [] { NothingAdmitted(times[..|times| - 1], a, b, l); }
  }

  /** What one window admits at most. */
  function Most(l: Limits): nat {
    if l.maxRequests > 0 then l.maxRequests else 0
  }

  lemma ProductGrows(n: nat, k: nat, most: nat)
    requires n <= k
    ensures 0 <= n * most <= k * most
  {
    assert (k - n) * most >= 0;
  }

  lemma NearTotalBound(history: seq<Window>, a: real, b: real, k: nat, l: Limits)
    requires Bounded(history, l) && NearCount(history, a, b, l) <= k && l.maxRequests > 0
    ensures NearTotal(history, a, b, l) <= k * Most(l)
  {
    NearWeighs(history, a, b, l);
    ProductGrows(NearCount(history, a, b, l), k, l.maxRequests);
  }

  /** The admitted requests of `k` window lengths lie in at most `k + 1` windows. */
  lemma FewWindows(times: seq<real>, a: real, b: real, k: nat, l: Limits)
    requires Nondecreasing(times) && l.windowSeconds > 0.0 && b == a + Lengths(k, l.windowSeconds)
    ensures AdmittedIn(times, a, b, l) <= NearTotal(Opened(times, l), a, b, l)
    ensures NearCount(Opened(times, l), a, b, l) <= k + 1 && Bounded(Opened(times, l), l)
  {
    WindowsInAnyOrder(times, l);
    AdmittedNear(times, a, b, l);
    FewNear(Opened(times, l), a, b, k, l);
  }

  /** Any `k` window lengths in a row admit at most `k + 1` windows' worth of requests. */
  lemma SlidingBound(times: seq<real>, a: real, k: nat, l: Limits)
    requires Nondecreasing(times)
    ensures AdmittedIn(times, a, a + k as real * l.windowSeconds, l) <= (k + 1) * Most(l)
  {
    LengthsIsProduct(k, l.windowSeconds);
    var b := a + k as real * l.windowSeconds;
    ProductGrows(0, k + 1, Most(l));
    if l.maxRequests <= 0 {
      NothingAdmitted(times, a, b, l);
    } else if l.windowSeconds <= 0.0 {
      LengthsShrink(k, l.windowSeconds);
      EmptyInterval(times, a, b, l);
    } else {
      FewWindows(times, a, b, k, l);
      NearTotalBound(Opened(times, l), a, b, k + 1, l);
    }
  }

  lemma {:induction false} LengthsShrink(n: nat, w: real)
    requires w <= 0.0
    ensures Lengths(n, w) <= 0.0
  {
    if n > 0 { LengthsShrink(n - 1, w); }
  }

  // ---------------------------------------------------------------------------------------------
  // No request is rejected without need.

  /** After the requests so far, a request at `now` is rejected. */
  predicate Rejected(times: seq<real>, now: real, l: Limits) {
    !Admits(LastOf(Opened(times, l)), now, l)
  }

  /** How many of the requests came later than `t`. */
  function CountAfter(times: seq<real>, t: real): nat {
    if times == [] then 0
    else CountAfter(times[..|times| - 1], t) + if times[|times| - 1] > t then 1 else 0
  }

  /** The current window began at one of the requests, and counts only requests from then on. */
  lemma {:induction false} LastWindowCounts(times: seq<real>, t: real, l: Limits)
    requires Nondecreasing(times) && Opened(times, l) != [] && t < LastOf(Opened(times, l)).value.start
    ensures LastOf(Opened(times, l)).value.count <= CountAfter(times, t)
    ensures times != [] && LastOf(Opened(times, l)).value.start <= times[|times| - 1]
  {
    var init, now := times[..|times| - 1], times[|times| - 1];
    var before := Opened(init, l);
    if before != [] && LastOf(before).value.start <= t {
      LastWindowStarts(init, l);
    } else if before != [] {
      LastWindowCounts(init, t, l);
    }
  }

  lemma {:induction false} LastWindowStarts(times: seq<real>, l: Limits)
    requires Nondecreasing(times) && Opened(times, l) != []
    ensures times != [] && LastOf(Opened(times, l)).value.start <= times[|times| - 1]
  {
    var init := times[..|times| - 1];
    if Opened(init, l) != [] { LastWindowStarts(init, l); }
  }

  /**
    With a nondecreasing clock a request is admitted whenever fewer requests than the maximum came within the last
    window length before it, whether those were admitted or not.
  */
  lemma FewRecentAdmitted(times: seq<real>, now: real, l: Limits)
    requires Nondecreasing(times + [now]) && CountAfter(times, now - l.windowSeconds) < l.maxRequests
    ensures !Rejected(times, now, l)
  {
    assert forall i :: 0 <= i < |times| ==> times[i] == (times + [now])[i];
    if Rejected(times, now, l) && Opened(times, l) != [] {
      LastWindowCounts(times, now - l.windowSeconds, l);
    }
  }

  // ---------------------------------------------------------------------------------------------
  // The advice to retry.

  function RetryAfter(windowSeconds: real): int {
    if windowSeconds.Floor > 1 then windowSeconds.Floor else 1
  }

  /** It is admitted when it comes again after the advised time and no other request of the key came in between. */
  predicate RetrySucceeds(times: seq<real>, now: real, l: Limits) {
    !Rejected(times, now + RetryAfter(l.windowSeconds) as real, l)
  }

  /** For any times: the retry succeeds exactly when the window that was full is over by then. */
  lemma RetryIff(times: seq<real>, now: real, l: Limits)
    requires l.maxRequests > 0 && Rejected(times, now, l)
    ensures Opened(times, l) != []
    ensures RetrySucceeds(times, now, l) <==>
            now + RetryAfter(l.windowSeconds) as real - LastOf(Opened(times, l)).value.start >= l.windowSeconds
  {
  }

  function Repeat(n: nat, t: real): seq<real> {
    if n == 0 then [] else Repeat(n - 1, t) + [t]
  }

  /** One request at time zero and more before the window is over. */
  function Filling(n: nat, t: real): seq<real> {
    [0.0] + Repeat(n, t)
  }

  lemma {:induction false} FilledWindow(n: nat, t: real, l: Limits)
    requires n < l.maxRequests && t < l.windowSeconds
    ensures Opened(Filling(n, t), l) == [Window(n + 1, 0.0)]
  {
    var times := Filling(n, t);
    if n == 0 {
      assert times == [0.0] && times[..0] == [];
    } else {
      FilledWindow(n - 1, t, l);
      assert times[..|times| - 1] == Filling(n - 1, t);
    }
  }

  lemma {:induction false} RepeatMeans(n: nat, t: real)
    ensures |Repeat(n, t)| == n && forall i :: 0 <= i < n ==> Repeat(n, t)[i] == t
  {
    if n > 0 { RepeatMeans(n - 1, t); }
  }

  /** With a nondecreasing clock. */
  ghost predicate AdviceGood(l: Limits) {
    forall times, now :: Nondecreasing(times + [now]) && Rejected(times, now, l) ==> RetrySucceeds(times, now, l)
  }

  lemma StartNotLater(times: seq<real>, now: real, l: Limits)
    requires l.windowSeconds > 0.0 && Nondecreasing(times + [now]) && Opened(times, l) != []
    ensures LastOf(Opened(times, l)).value.start <= now
  {
    assert forall i :: 0 <= i < |times| ==> times[i] == (times + [now])[i];
    AdmittedNear(times, 0.0, 0.0, l);
    assert (times + [now])[|times| - 1] <= (times + [now])[|times|];
  }

  lemma {:induction false} LengthlessAdmits(times: seq<real>, now: real, l: Limits)
    requires l.windowSeconds <= 0.0 && l.maxRequests > 0 && Nondecreasing(times + [now])
    ensures !Rejected(times, now, l)
    ensures Opened(times, l) != [] ==> LastOf(Opened(times, l)).value.start <= now
  {
    if times != [] {
      var init, last := times[..|times| - 1], times[|times| - 1];
      assert forall i :: 0 <= i < |times| ==> times[i] == (times + [now])[i];
      assert init + [last] == times;
      assert (times + [now])[|times| - 1] <= (times + [now])[|times|];
      LengthlessAdmits(init, last, l);
    }
  }

  /**
    With a nondecreasing clock, and when no other request of the key comes in between, the advice is always
    good exactly when it is not shorter than a window, which is so for windows of at most a second and of
    whole seconds. A window of 1.5 seconds is told to retry after 1.
  */
  lemma RetryAdviceIff(l: Limits)
    requires l.maxRequests > 0
    ensures AdviceGood(l) <==> l.windowSeconds <= 1.0 || l.windowSeconds == l.windowSeconds.Floor as real
  {
    var length := l.windowSeconds;
    if length <= 1.0 || length == length.Floor as real {
      forall times, now | Nondecreasing(times + [now]) && Rejected(times, now, l)
        ensures RetrySucceeds(times, now, l)
      {
        RetryIff(times, now, l);
        if length > 0.0 { StartNotLater(times, now, l); } else { LengthlessAdmits(times, now, l); }
      }
    } else {
      var times := Filling(l.maxRequests - 1, 0.0);
      FilledWindow(l.maxRequests - 1, 0.0, l);
      RepeatMeans(l.maxRequests - 1, 0.0);
      assert Nondecreasing(times + [0.0]) && Rejected(times, 0.0, l) && !RetrySucceeds(times, 0.0, l);
    }
  }

  /**
    With stale times there is no such guarantee, whatever the limits are: a late request can be told to retry
    too early.
  */
  lemma StaleAdviceFails(l: Limits) returns (times: seq<real>, now: real)
    requires l.maxRequests > 0
    ensures Rejected(times, now, l) && !RetrySucceeds(times, now, l)
  {
    var t := l.windowSeconds - 1.0;
    times, now := Filling(l.maxRequests - 1, t), t - RetryAfter(l.windowSeconds) as real;
    FilledWindow(l.maxRequests - 1, t, l);
  }
}
