/** A log of timestamps that is trimmed to a sliding window whenever it is read. */
module SlidingWindow {
  // The entries younger than `window` at time `now`, in order.
  function Recent(log: seq<int>, now: int, window: int): seq<int>
  {
    if log == [] then []
    else
      var (rest, t) := (Recent(log[..|log| - 1], now, window), log[|log| - 1]);
      if now - t < window then rest + [t] else rest
  }

  /** The entries kept are exactly those younger than the window, each as often as it was. */
  lemma {:induction false} RecentCounts(log: seq<int>, now: int, window: int, t: int)
    ensures multiset(Recent(log, now, window))[t] == if now - t < window then multiset(log)[t] else 0
  {
    if log != [] {
      var n := |log| - 1;
      RecentCounts(log[..n], now, window, t);
      assert log == log[..n] + [log[n]];
    }
  }

  lemma {:induction false} RecentNoLonger(log: seq<int>, now: int, window: int)
    ensures |Recent(log, now, window)| <= |log|
  {
    if log != [] {
      RecentNoLonger(log[..|log| - 1], now, window);
    }
  }

  lemma RecentAppend(log: seq<int>, t: int, now: int, window: int)
    ensures Recent(log + [t], now, window)
         == if now - t < window then Recent(log, now, window) + [t] else Recent(log, now, window)
  {
    assert (log + [t])[..|log|] == log;
  }

  // An entry trimmed earlier would be trimmed later too, so trimming twice loses nothing.
  lemma {:induction false} RecentAgain(log: seq<int>, now: int, later: int, window: int)
    requires now <= later
    ensures Recent(Recent(log, now, window), later, window) == Recent(log, later, window)
  {
    if log != [] {
      var (front, t) := (log[..|log| - 1], log[|log| - 1]);
      RecentAgain(front, now, later, window);
      RecentAppend(Recent(front, now, window), t, later, window);
    }
  }

  function CountIn(times: seq<int>, lo: int, hi: int): nat
  {
    if times == [] then 0
    else
      var t := times[|times| - 1];
      CountIn(times[..|times| - 1], lo, hi) + if lo <= t <= hi then 1 else 0
  }

  lemma {:induction false} CountInCounts(times: seq<int>, lo: int, hi: int)
    ensures CountIn(times, lo, hi) == |set i | 0 <= i < |times| && lo <= times[i] <= hi|
  {
    if times != [] {
      var n := |times| - 1;
      CountInCounts(times[..n], lo, hi);
      var before := set i | 0 <= i < |times[..n]| && lo <= times[..n][i] <= hi;
      var all := set i | 0 <= i < |times| && lo <= times[i] <= hi;
      assert all == before + if lo <= times[n] <= hi then {n} else {};
    }
  }

  // Whenever an entry was added, at most `max` entries were inside the window.
  ghost predicate Limited(times: seq<int>, window: int, max: nat)
  {
    forall i :: 0 <= i < |times| ==> |Recent(times[..i + 1], times[i], window)| <= max
  }

  lemma LimitedAppend(times: seq<int>, t: int, window: int, max: nat)
    requires Limited(times, window, max) && |Recent(times + [t], t, window)| <= max
    ensures Limited(times + [t], window, max)
  {
    var all := times + [t];
    forall i | 0 <= i < |all| ensures |Recent(all[..i + 1], all[i], window)| <= max {
      if i < |times| {
        assert all[..i + 1] == times[..i + 1];
      } else {
        assert all[..i + 1] == all;
      }
    }
  }

  lemma {:induction false} CountWithinRecent(times: seq<int>, lo: int, hi: int, now: int, window: int)
    requires hi - lo < window && lo <= now <= hi
    ensures CountIn(times, lo, hi) <= |Recent(times, now, window)|
  {
    if times != [] {
      CountWithinRecent(times[..|times| - 1], lo, hi, now, window);
    }
  }

  /** A limited log holds at most `max` entries in any span shorter than the window,
      wherever the span lies. */
  lemma {:induction false} SpanBound(times: seq<int>, window: int, max: nat, lo: int, hi: int)
    requires Limited(times, window, max) && hi - lo < window
    ensures CountIn(times, lo, hi) <= max
  {
    if times != [] {
      var n := |times| - 1;
      if lo <= times[n] <= hi {
        assert times[..n + 1] == times;
        CountWithinRecent(times, lo, hi, times[n], window);
      } else {
        forall i | 0 <= i < n ensures |Recent(times[..n][..i + 1], times[..n][i], window)| <= max {
          assert times[..n][..i + 1] == times[..i + 1];
        }
        SpanBound(times[..n], window, max, lo, hi);
      }
    }
  }
}
