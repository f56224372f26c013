/**
 The per-client rate limiter: a window that is restarted by the first request more than 60 seconds
 after its start, and at most ten accepted requests per window.  Times are whole seconds.
 */
module RateLimit {
  const MAX_RATE_LIMIT: nat := 10
  const RATE_LIMIT_WINDOW: int := 60

  datatype Limiter = Limiter(window_start: int, count: nat)

  /** The limiter after a request at `now`, and whether the request is accepted. */
  function Admit(l: Limiter, now: int): (Limiter, bool) {
    var w := if now - l.window_start > RATE_LIMIT_WINDOW then Limiter(now, 0) else l;
    if w.count >= MAX_RATE_LIMIT then (w, false) else (w.(count := w.count + 1), true)
  }

  class Client {
    var window_start: int
    var count: nat

    ghost function State(): Limiter
      reads this
    {
      Limiter(window_start, count)
    }

    /** The fields a new connection starts with. */
    constructor (now: int)
      ensures State() == Limiter(now, 0)
    {
      window_start, count := now, 0;
    }

    method CheckRateLimit(now: int) returns (ok: bool)
      modifies this
      ensures (State(), ok) == Admit(old(State()), now)
    {
      if now - window_start > RATE_LIMIT_WINDOW {
        window_start := now;
        count := 0;
      }
      if count >= MAX_RATE_LIMIT {
        return false;
      }
      count := count + 1;
      return true;
    }
  }

  // ---------------------------------------------------------------------------------------------
  // Runs
  // ---------------------------------------------------------------------------------------------

  /** A limiter and the times of the requests it has accepted so far. */
  datatype History = History(l: Limiter, accepted: seq<int>)

  function Request(h: History, now: int): History {
    var (l, ok) := Admit(h.l, now);
    History(l, if ok then h.accepted + [now] else h.accepted)
  }

  /** Connecting at `start` and then sending requests at the given times. */
  function Run(start: int, times: seq<int>): History {
    if times == [] then History(Limiter(start, 0), [])
    else Request(Run(start, times[..|times| - 1]), times[|times| - 1])
  }

  lemma RunOfAppend(start: int, times: seq<int>, t: int)
    ensures Run(start, times + [t]) == Request(Run(start, times), t)
  {
    assert (times + [t])[..|times|] == times;
  }

  /** The clock never goes back. */
  ghost predicate Clock(start: int, times: seq<int>) {
    && (forall k :: 0 <= k < |times| ==> start <= times[k])
    && (forall j, k :: 0 <= j < k < |times| ==> times[j] <= times[k])
  }

  /** How many of the times lie between `lo` and `hi`, both included. */
  function Within(times: seq<int>, lo: int, hi: int): nat {
    if times == [] then 0
    else Within(times[..|times| - 1], lo, hi) + if lo <= times[|times| - 1] <= hi then 1 else 0
  }

  lemma WithinOfAppend(times: seq<int>, t: int, lo: int, hi: int)
    ensures Within(times + [t], lo, hi) == Within(times, lo, hi) + if lo <= t <= hi then 1 else 0
  {
    assert (times + [t])[..|times|] == times;
  }

  lemma {:induction false} WithinSmaller(times: seq<int>, lo: int, hi: int, lo': int, hi': int)
    requires lo' <= lo && hi <= hi'
    ensures Within(times, lo, hi) <= Within(times, lo', hi')
  {
    if times != [] {
      WithinSmaller(times[..|times| - 1], lo, hi, lo', hi');
    }
  }

  /** An interval splits at `at`. */
  lemma {:induction false} WithinSplit(times: seq<int>, lo: int, at: int, hi: int)
    ensures Within(times, lo, hi) <= Within(times, lo, at - 1) + Within(times, at, hi)
  {
    if times != [] {
      WithinSplit(times[..|times| - 1], lo, at, hi);
    }
  }

  lemma {:induction false} WithinAll(times: seq<int>, lo: int, hi: int)
    requires forall k :: 0 <= k < |times| ==> lo <= times[k] <= hi
    ensures Within(times, lo, hi) == |times|
  {
    if times != [] {
      WithinAll(times[..|times| - 1], lo, hi);
    }
  }

  lemma {:induction false} WithinNone(times: seq<int>, lo: int, hi: int)
    requires forall k :: 0 <= k < |times| ==> times[k] < lo
    ensures Within(times, lo, hi) == 0
  {
    if times != [] {
      WithinNone(times[..|times| - 1], lo, hi);
    }
  }

  /** What every request keeps; `now` is the time of the last one. */
  ghost predicate Good(h: History, start: int, now: int) {
    && start <= h.l.window_start <= now <= h.l.window_start + RATE_LIMIT_WINDOW
    && (forall k :: 0 <= k < |h.accepted| ==> start <= h.accepted[k] <= now)
    && Within(h.accepted, h.l.window_start, now) == h.l.count <= MAX_RATE_LIMIT
    && Within(h.accepted, h.l.window_start - 60, h.l.window_start - 1) <= MAX_RATE_LIMIT
    && |h.accepted| <= MAX_RATE_LIMIT * ((h.l.window_start - start) / 61) + h.l.count
  }

  /** At a later time nothing of this has changed. */
  lemma {:induction false} WithinLater(times: seq<int>, lo: int, hi: int, hi': int)
    requires hi <= hi' && forall k :: 0 <= k < |times| ==> times[k] <= hi
    ensures Within(times, lo, hi') == Within(times, lo, hi)
  {
    if times != [] {
      WithinLater(times[..|times| - 1], lo, hi, hi');
    }
  }

  lemma WindowsApart(a: nat, b: nat)
    requires a + 61 <= b
    ensures b / 61 >= a / 61 + 1
  {}

  lemma RestartKeepsGood(h: History, start: int, before: int, now: int)
    requires Good(h, start, before) && now - h.l.window_start > RATE_LIMIT_WINDOW
    ensures Good(Request(h, now), start, now)
  {
    hide Within;
    var ws := h.l.window_start;
    WithinLater(h.accepted, ws, before, now);
    WithinSmaller(h.accepted, now - 60, now - 1, ws, now);
    WithinNone(h.accepted, now, now);
    WindowsApart(ws - start, now - start);
    WithinOfAppend(h.accepted, now, now, now);
    WithinOfAppend(h.accepted, now, now - 60, now - 1);
  }

  lemma SameWindowKeepsGood(h: History, start: int, before: int, now: int)
    requires Good(h, start, before) && before <= now <= h.l.window_start + RATE_LIMIT_WINDOW
    ensures Good(Request(h, now), start, now)
  {
    hide Within;
    var ws := h.l.window_start;
    WithinLater(h.accepted, ws, before, now);
    WithinOfAppend(h.accepted, now, ws, now);
    WithinOfAppend(h.accepted, now, ws - 60, ws - 1);
  }

  lemma RequestKeepsGood(h: History, start: int, before: int, now: int)
    requires Good(h, start, before) && before <= now
    ensures Good(Request(h, now), start, now)
  {
    if now - h.l.window_start > RATE_LIMIT_WINDOW {
      RestartKeepsGood(h, start, before, now);
    } else {
      SameWindowKeepsGood(h, start, before, now);
    }
  }

  function Last(start: int, times: seq<int>): int {
    if times == [] then start else times[|times| - 1]
  }

  lemma {:induction false} RunIsGood(start: int, times: seq<int>)
    requires Clock(start, times)
    ensures Good(Run(start, times), start, Last(start, times))
  {
    if times != [] {
      var rest := times[..|times| - 1];
      RunIsGood(start, rest);
      RequestKeepsGood(Run(start, rest), start, Last(start, rest), times[|times| - 1]);
    }
  }

  // ---------------------------------------------------------------------------------------------
  // The bounds
  // ---------------------------------------------------------------------------------------------

  /** `count` is always the number of requests accepted since `window_start`. */
  lemma CountIsAccepted(start: int, times: seq<int>)
    requires Clock(start, times)
    ensures var h := Run(start, times);
      h.l.count == Within(h.accepted, h.l.window_start, Last(start, times)) <= MAX_RATE_LIMIT
  {
    RunIsGood(start, times);
  }

  /** A request is accepted if and only if fewer than ten were accepted since the start of its window. */
  lemma AcceptedIff(start: int, times: seq<int>, now: int)
    requires Clock(start, times) && Last(start, times) <= now
    ensures var h := Run(start, times);
      var window := Admit(h.l, now).0.window_start;
      Admit(h.l, now).1 <==> Within(h.accepted, window, now) < MAX_RATE_LIMIT
  {
    RunIsGood(start, times);
    var h := Run(start, times);
    WithinLater(h.accepted, h.l.window_start, Last(start, times), now);
    if now - h.l.window_start > RATE_LIMIT_WINDOW {
      WithinNone(h.accepted, now, now);
    }
  }

  /** At most twenty requests are accepted in any interval of sixty seconds, both ends included. */
  lemma {:induction false} TwentyPerMinute(start: int, times: seq<int>, t: int)
    requires Clock(start, times)
    ensures Within(Run(start, times).accepted, t, t + 60) <= 2 * MAX_RATE_LIMIT
    decreases |times|
  {
    hide Run, Within, Good;
    if times == [] {
      NothingAccepted(start, t);
    } else {
      var now, rest := Last(start, times), times[..|times| - 1];
      TwentyPerMinute(start, rest, t);
      if t <= now <= t + 60 {
        RunIsGood(start, times);
        WindowBound(Run(start, times), start, now, t);
      } else {
        assert times == rest + [now];
        RunOfAppend(start, rest, now);
        RequestOutside(Run(start, rest), now, t);
      }
    }
  }

  lemma NothingAccepted(start: int, t: int)
    ensures Within(Run(start, []).accepted, t, t + 60) == 0
  {}

  /** What was accepted in sixty seconds lies in the current window and the minute before it. */
  lemma WindowBound(h: History, start: int, now: int, t: int)
    requires Good(h, start, now) && t <= now <= t + 60
    ensures Within(h.accepted, t, t + 60) <= 2 * MAX_RATE_LIMIT
  {
    hide Within;
    var ws := h.l.window_start;
    WithinSplit(h.accepted, t, ws, t + 60);
    WithinLater(h.accepted, ws, now, t + 60);
    WithinSmaller(h.accepted, t, ws - 1, ws - 60, ws - 1);
  }

  lemma RequestOutside(h: History, now: int, t: int)
    requires !(t <= now <= t + 60)
    ensures Within(Request(h, now).accepted, t, t + 60) == Within(h.accepted, t, t + 60)
  {
    WithinOfAppend(h.accepted, now, t, t + 60);
  }

  /** At most 10 * (1 + T / 61) requests are accepted in the first T seconds of a connection. */
  lemma AcceptedSinceConnect(start: int, times: seq<int>, T: nat)
    requires Clock(start, times) && Last(start, times) <= start + T
    ensures |Run(start, times).accepted| <= MAX_RATE_LIMIT * (1 + T / 61)
  {
    RunIsGood(start, times);
    assert (Run(start, times).l.window_start - start) / 61 <= T / 61;
  }

  // ---------------------------------------------------------------------------------------------
  // The bounds are sharp
  // ---------------------------------------------------------------------------------------------

  function Burst(t: int, n: nat): (r: seq<int>)
    ensures |r| == n && forall k :: 0 <= k < n ==> r[k] == t
  {
    seq(n, _ => t)
  }

  lemma BurstOfOneMore(before: seq<int>, t: int, n: nat)
    requires n > 0
    ensures before + Burst(t, n) == (before + Burst(t, n - 1)) + [t] && Burst(t, n) == Burst(t, n - 1) + [t]
  {}

  lemma NoBurst(before: seq<int>, t: int)
    ensures before + Burst(t, 0) == before && before == before + Burst(t, 0)
  {}

  /** After `n` requests at `t` that came within the window, or restarted it. */
  ghost predicate AfterBurst(h: History, r: History, start: int, t: int, n: nat) {
    && r.accepted == h.accepted + Burst(t, n)
    && (n == 0 ==> r == h)
    && (n > 0 ==> r.l == Limiter(if t - h.l.window_start > RATE_LIMIT_WINDOW then t else start, n))
  }

  lemma BurstStep(h: History, r: History, start: int, t: int, n: nat)
    requires n < MAX_RATE_LIMIT && AfterBurst(h, r, start, t, n)
    requires t - h.l.window_start > RATE_LIMIT_WINDOW || (h.l == Limiter(start, 0) && start <= t <= start + 60)
    ensures AfterBurst(h, Request(r, t), start, t, n + 1)
  {
    BurstOfOneMore(h.accepted, t, n + 1);
  }

  lemma {:induction false} BurstAccepted(start: int, before: seq<int>, t: int, n: nat)
    requires n <= MAX_RATE_LIMIT
    requires t - Run(start, before).l.window_start > RATE_LIMIT_WINDOW
          || (Run(start, before).l == Limiter(start, 0) && start <= t <= start + 60)
    ensures AfterBurst(Run(start, before), Run(start, before + Burst(t, n)), start, t, n)
  {
    hide Run, Request, Burst;
    if n == 0 {
      NoBurst(before, t);
      NoBurst(Run(start, before).accepted, t);
    } else {
      BurstAccepted(start, before, t, n - 1);
      BurstStep(Run(start, before), Run(start, before + Burst(t, n - 1)), start, t, n - 1);
      BurstOfOneMore(before, t, n);
      RunOfAppend(start, before + Burst(t, n - 1), t);
    }
  }

  lemma NoRequests(start: int)
    ensures Run(start, []) == History(Limiter(start, 0), [])
  {}

  /** Ten requests in the last second of one window and ten in the first of the next: twenty within two seconds. */
  lemma TwentyIsReached(start: int)
    ensures var times := Burst(start + 60, 10) + Burst(start + 61, 10);
      Clock(start, times) && Run(start, times).accepted == times
  {
    hide Run;
    assert Run(start, []) == History(Limiter(start, 0), []) by { NoRequests(start); }
    BurstAccepted(start, [], start + 60, 10);
    assert [] + Burst(start + 60, 10) == Burst(start + 60, 10);
    BurstAccepted(start, Burst(start + 60, 10), start + 61, 10);
  }
}
