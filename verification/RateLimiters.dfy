/** The per-key fixed-window rate limiter (gwcore/auth.go). */
module RateLimiters {
  import opened Wrappers

  datatype Window = Window(start: int, count: int)

  /** One minute in nanoseconds, the resolution of the clock. */
  const MINUTE := 60_000_000_000

  /** The window of length `minute` is over. */
  predicate Expired(w: Option<Window>, now: int, minute: int) {
    w == None || now - w.value.start >= minute
  }

  function Opened(w: Option<Window>, now: int, minute: int): Window {
    if Expired(w, now, minute) then Window(now, 0) else w.value
  }

  predicate Admits(w: Option<Window>, limit: int, now: int, minute: int) {
    Opened(w, now, minute).count < limit
  }

  /** The window after a request at `now`. */
  function Next(w: Option<Window>, limit: int, now: int, minute: int): Window {
    var open := Opened(w, now, minute);
    if Admits(w, limit, now, minute) then open.(count := open.count + 1) else open
  }

  function WindowOf(windows: map<string, Window>, key: string): Option<Window> {
    if key in windows then Some(windows[key]) else None
  }

  class RateLimiter {
    var windows: map<string, Window>

    constructor ()
      ensures windows == map[]
    {
      windows := map[];
    }

    /** A key without a limit is never held back. */
    method CheckRate(key: string, limit: int, now: int) returns (ok: bool)
      modifies this
      ensures limit <= 0 ==> ok && windows == old(windows)
      ensures limit > 0 ==> ok == Admits(WindowOf(old(windows), key), limit, now, MINUTE)
      ensures limit > 0 ==> windows == old(windows)[key := Next(WindowOf(old(windows), key), limit, now, MINUTE)]
    {
      if limit <= 0 {
        return true;
      }
      ok := Allow(key, limit, now);
    }

    method Allow(key: string, limit: int, now: int) returns (ok: bool)
      modifies this
      ensures ok == Admits(WindowOf(old(windows), key), limit, now, MINUTE)
      ensures windows == old(windows)[key := Next(WindowOf(old(windows), key), limit, now, MINUTE)]
    {
      if key !in windows || now - windows[key].start >= MINUTE {
        windows := windows[key := Window(now, 0)];
      }
      var w := windows[key];
      if w.count >= limit {
        return false;
      }
      windows := windows[key := w.(count := w.count + 1)];
      return true;
    }
  }

  /** A request is admitted if its key has no window from the last minute, or if fewer than the limit were admitted
      in that one. */
  lemma AdmittedIff(windows: map<string, Window>, key: string, limit: int, now: int)
    requires limit > 0
    ensures Admits(WindowOf(windows, key), limit, now, MINUTE) <==>
      key !in windows || now - windows[key].start >= 60_000_000_000 || windows[key].count < limit
    ensures var w := Next(WindowOf(windows, key), limit, now, MINUTE);
      if key !in windows || now - windows[key].start >= 60_000_000_000 then w == Window(now, 1)
      else w.start == windows[key].start
           && w.count == (if windows[key].count < limit then windows[key].count + 1 else windows[key].count)
  {
  }

  // ---------------------------------------------------------------- whole traces of one key

  predicate Monotone(times: seq<int>) {
    forall i, j :: 0 <= i <= j < |times| ==> times[i] <= times[j]
  }

  function After(times: seq<int>, limit: int, minute: int): Option<Window> {
    if times == [] then None
    else Some(Next(After(times[..|times| - 1], limit, minute), limit, times[|times| - 1], minute))
  }

  /** Requests admitted at or after `from` and less than a minute later. */
  function AdmittedFrom(times: seq<int>, limit: int, from: int, minute: int): nat {
    if times == [] then 0 else
    var before, now := times[..|times| - 1], times[|times| - 1];
    AdmittedFrom(before, limit, from, minute)
    + if from <= now < from + minute && Admits(After(before, limit, minute), limit, now, minute) then 1 else 0
  }

  /** Requests admitted to the window that opened at `start`. */
  function AdmittedTo(times: seq<int>, limit: int, start: int, minute: int): nat {
    if times == [] then 0 else
    var before, now := times[..|times| - 1], times[|times| - 1];
    var w := After(before, limit, minute);
    AdmittedTo(before, limit, start, minute)
    + if Opened(w, now, minute).start == start && Admits(w, limit, now, minute) then 1 else 0
  }

  lemma {:induction false} WindowBound(times: seq<int>, limit: int, start: int, minute: int)
    requires Monotone(times) && limit > 0 && minute > 0
    ensures AdmittedTo(times, limit, start, minute) <= limit
    ensures times != [] ==> 1 <= After(times, limit, minute).value.count <= limit
    ensures times != [] ==>
      After(times, limit, minute).value.start <= times[|times| - 1] < After(times, limit, minute).value.start + minute
    ensures times != [] && After(times, limit, minute).value.start == start ==>
      AdmittedTo(times, limit, start, minute) == After(times, limit, minute).value.count
    ensures times != [] && After(times, limit, minute).value.start < start ==>
      AdmittedTo(times, limit, start, minute) == 0
  {
    if times != [] {
      WindowBound(times[..|times| - 1], limit, start, minute);
    }
  }

  /** A bound on what an interval holds so far, by where the window now open started. */
  function Bound(w: Option<Window>, limit: int, from: int, minute: int): int {
    if w == None then 0
    else if w.value.start < from then w.value.count - 1
    else if w.value.start < from + minute then limit - 1 + w.value.count
    else 2 * limit - 1
  }

  lemma {:induction false} IntervalBound(times: seq<int>, limit: int, from: int, minute: int)
    requires Monotone(times) && limit > 0 && minute > 0
    ensures AdmittedFrom(times, limit, from, minute) <= Bound(After(times, limit, minute), limit, from, minute)
    ensures times != [] && times[|times| - 1] < from ==> AdmittedFrom(times, limit, from, minute) == 0
  {
    if times != [] {
      var before := times[..|times| - 1];
      IntervalBound(before, limit, from, minute);
      WindowBound(before, limit, 0, minute);
    }
  }

  /** Over every trace on a monotone clock a window admits at most `limit` requests, and any interval of
      the window's length, wherever it starts, fewer than twice as many. */
  lemma EveryMinuteIsBounded(times: seq<int>, limit: int, from: int, minute: int)
    requires Monotone(times) && limit > 0 && minute > 0
    ensures AdmittedTo(times, limit, from, minute) <= limit
    ensures AdmittedFrom(times, limit, from, minute) <= 2 * limit - 1
  {
    WindowBound(times, limit, from, minute);
    IntervalBound(times, limit, from, minute);
  }

  // ---------------------------------------------------------------- the bound is reached

  function Repeat(n: nat, time: int): seq<int> {
    seq(n, _ => time)
  }

  /** One request opens a window, the rest of its slots go late, and the next window starts one tick after. */
  function Burst(limit: nat, minute: int): seq<int>
    requires limit > 0
  {
    [0] + Repeat(limit - 1, minute - 1) + Repeat(limit, minute)
  }

  lemma OneMoreRequest(times: seq<int>, time: int, limit: int, from: int, minute: int)
    ensures After(times + [time], limit, minute) == Some(Next(After(times, limit, minute), limit, time, minute))
    ensures from <= time < from + minute && Admits(After(times, limit, minute), limit, time, minute) ==>
      AdmittedFrom(times + [time], limit, from, minute) == AdmittedFrom(times, limit, from, minute) + 1
  {
    assert (times + [time])[..|times|] == times;
  }

  lemma {:induction false} RepeatAdmits(times: seq<int>, n: nat, limit: int, time: int, from: int, minute: int)
    requires minute > 0 && from <= time < from + minute
    requires limit > 0 && n <= limit - Opened(After(times, limit, minute), time, minute).count
    ensures AdmittedFrom(times + Repeat(n, time), limit, from, minute) == AdmittedFrom(times, limit, from, minute) + n
    ensures n > 0 ==> var w := Opened(After(times, limit, minute), time, minute);
      After(times + Repeat(n, time), limit, minute) == Some(Window(w.start, w.count + n))
  {
    hide After, AdmittedFrom;
    if n == 0 {
      assert times + Repeat(n, time) == times;
    } else {
      RepeatAdmits(times, n - 1, limit, time, from, minute);
      var all := times + Repeat(n, time);
      var front := times + Repeat(n - 1, time);
      assert all == front + [time];
      OneMoreRequest(front, time, limit, from, minute);
      if n == 1 {
        assert front == times;
      }
    }
  }

  /** For every limit and every window of at least two ticks there is a trace that puts 2 * limit - 1 requests
      into one interval of the window's length. */
  lemma TheBoundIsReached(limit: nat, minute: int)
    requires limit > 0 && minute >= 2
    ensures Monotone(Burst(limit, minute)) && AdmittedFrom(Burst(limit, minute), limit, 1, minute) == 2 * limit - 1
  {
    var first := [0];
    assert first[..0] == [] && first[0] == 0;
    assert After(first, limit, minute) == Some(Window(0, 1)) && AdmittedFrom(first, limit, 1, minute) == 0;
    RepeatAdmits(first, limit - 1, limit, minute - 1, 1, minute);
    var second := first + Repeat(limit - 1, minute - 1);
    if limit == 1 {
      assert second == first;
    }
    RepeatAdmits(second, limit, limit, minute, 1, minute);
  }
}
