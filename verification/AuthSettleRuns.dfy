/** What holds over whole runs of the auth guard: where flips come from, how soon a steady
    signal shows, and how many flips any 90 seconds can hold across page loads. */
module AuthSettleRuns {
  import opened Options
  import opened SlidingWindow
  import opened AuthSettle

  // The state before event number n.
  function At(s: State, es: seq<Event>, n: nat): State
    requires n <= |es|
  {
    Run(s, es[..n])
  }

  lemma AtStep(s: State, es: seq<Event>, n: nat)
    requires n < |es|
    ensures At(s, es, n + 1) == Step(At(s, es, n), es[n])
  {
    assert es[..n + 1][..n] == es[..n];
  }

  predicate LoadedSample(e: Event, d: Decision)
  {
    e.Sample? && e.isLoaded && e.isSignedIn == (d == In)
  }

  function Other(d: Decision): Decision { if d == In then Out else In }

  lemma Opposite(x: Decision, y: Decision)
    requires x != y
    ensures x == Other(y)
  {
  }

  // ---- every flip has a reason --------------------------------------------------------

  // Event j started the countdown that is running before event n, and since then the
  // committed view stood still and no loaded sample agreed with it.
  ghost predicate Counting(s: State, es: seq<Event>, j: nat, n: nat, d: Decision)
    requires n <= |es|
  {
    && j < n && LoadedSample(es[j], d)
    && At(s, es, n).guard.pendingTimer == Some(Timer(d, At(s, es, j).now + 1500))
    && (forall m: nat :: j < m < n ==> !LoadedSample(es[m], Other(d)))
    && (forall m: nat :: j <= m <= n ==> At(s, es, m).guard.committed == Some(Other(d)))
  }

  // One event later the countdown is the same, has just been started, or is gone.
  lemma CountingStep(s: State, e: Event)
    requires Valid(s.guard)
    ensures var t := Step(s, e);
            t.guard.pendingTimer.Some? ==>
              var d := t.guard.pendingTimer.value.target;
              && s.guard.committed == t.guard.committed == Some(Other(d))
              && !LoadedSample(e, Other(d))
              && (t.guard.pendingTimer == s.guard.pendingTimer
                  || (LoadedSample(e, d) && t.guard.pendingTimer.value.due == s.now + 1500))
  {
    StepValid(s, e);
    var g := Step(s, e).guard;
    if g.pendingTimer.Some? {
      Opposite(g.committed.value, g.pendingTimer.value.target);
    }
  }

  lemma {:induction false} PendingOrigin(s: State, es: seq<Event>, n: nat) returns (j: nat)
    requires Valid(s.guard) && s.guard.pendingTimer.None? && n <= |es|
    requires At(s, es, n).guard.pendingTimer.Some?
    ensures Counting(s, es, j, n, At(s, es, n).guard.pendingTimer.value.target)
  {
    var (e, before, after) := (es[n - 1], At(s, es, n - 1), At(s, es, n));
    AtStep(s, es, n - 1);
    RunValid(s, es[..n - 1]);
    CountingStep(before, e);
    if after.guard.pendingTimer == before.guard.pendingTimer {
      j := PendingOrigin(s, es, n - 1);
    } else {
      j := n - 1;
    }
  }

  lemma FlipStep(s: State, e: Event)
    requires Valid(s.guard) && IsFlip(s.guard, Step(s, e).guard)
    ensures var d := Step(s, e).guard.committed.value;
            && s.guard.committed == Some(Other(d))
            && (|| (e.PendingFires? && s.guard.pendingTimer.Some?
                    && s.guard.pendingTimer.value.target == d && s.guard.pendingTimer.value.due <= s.now)
                || (d == In && LoadedSample(e, In) && s.store.marker && !Step(s, e).store.marker))
  {
    Opposite(s.guard.committed.value, Step(s, e).guard.committed.value);
  }

  /** Every flip, in any run over any number of page loads, either ends a full 1500 ms
      countdown during which the committed view stood still and no loaded sample agreed
      with it, or is a sign-in that consumes exactly one marker. */
  lemma FlipJustified(s: State, es: seq<Event>, n: nat)
    requires Valid(s.guard) && s.guard.pendingTimer.None? && n < |es|
    requires IsFlip(At(s, es, n).guard, At(s, es, n + 1).guard)
    ensures var d := At(s, es, n + 1).guard.committed.value;
            || (es[n].PendingFires?
                && exists j: nat :: j < n && Counting(s, es, j, n, d) && At(s, es, j).now + 1500 <= At(s, es, n).now)
            || (d == In && LoadedSample(es[n], In)
                && At(s, es, n).store.marker && !At(s, es, n + 1).store.marker)
  {
    RunValid(s, es[..n]);
    AtStep(s, es, n);
    FlipStep(At(s, es, n), es[n]);
    if es[n].PendingFires? {
      var j := PendingOrigin(s, es, n);
    }
  }

  // Neither flip budget is spent: three flips per load, and five in 90 s as far as the log
  // can be read and written.
  predicate Room(s: State, io: Io)
  {
    && s.guard.flips < 3
    && (io.writeLog && io.readLog ==> |Recent(s.store.log, s.now, 90_000)| < 5)
  }

  // What an attempt to flip to `d` leaves behind: the flip if there is room, else degraded.
  // Either way the time is written down if it can be.
  predicate Attempted(s: State, t: State, d: Decision, io: Io)
  {
    && t.now == s.now
    && t.guard.pendingTimer.None? && t.guard.degraded == !Room(s, io)
    && t.guard.committed == (if Room(s, io) then Some(d) else s.guard.committed)
    && t.guard.flips == s.guard.flips + 1
    && t.store.log == if !io.writeLog then s.store.log
                      else (if io.readLog then Recent(s.store.log, s.now, 90_000) else []) + [s.now]
  }

  /** A countdown that is due flips the view to its target exactly when both budgets have
      room, and otherwise degrades; before it is due nothing happens. */
  lemma PendingFlipIff(s: State, io: Io)
    requires Valid(s.guard) && s.guard.pendingTimer.Some?
    ensures var t := Step(s, PendingFires(io));
            if s.guard.pendingTimer.value.due <= s.now
            then Attempted(s, t, s.guard.pendingTimer.value.target, io) && t.store.marker == s.store.marker
                 && (IsFlip(s.guard, t.guard) <==> Room(s, io))
            else t == s
  {
  }

  /** A sample that contradicts the committed view flips it on the spot exactly when it is a
      sign-in, a marker can be consumed, and both budgets have room.  Without a marker it
      starts the countdown, or leaves the one that is running alone. */
  lemma ImmediateFlipIff(s: State, e: Event, d: Decision)
    requires Valid(s.guard) && !s.guard.degraded && s.guard.committed == Some(Other(d)) && LoadedSample(e, d)
    ensures var t := Step(s, e);
            var marked := d == In && s.store.marker && e.io.readMarker && e.io.clearMarker;
            && (IsFlip(s.guard, t.guard) <==> marked && Room(s, e.io))
            && (marked ==> Attempted(s, t, d, e.io) && !t.store.marker)
            && (!marked ==>
                  && t.store == s.store && t.guard.committed == s.guard.committed && !t.guard.degraded
                  && t.guard.pendingTimer == if s.guard.pendingTimer.Some? then s.guard.pendingTimer
                                             else Some(Timer(d, s.now + 1500)))
  {
    if s.guard.pendingTimer.Some? {
      Opposite(s.guard.pendingTimer.value.target, Other(d));
    }
  }

  /** The marker stays in storage until it is consumed, so one that was abandoned in an
      earlier page load, any time ago, still lets a later sign-in skip the debounce. */
  lemma AbandonedMarkerStillCounts(now: int, ms: nat)
    ensures var s := Load(now, Store([], false), WORKING);
            var later := Run(s, [MarkSignIn(true), Wait(ms), Reload(WORKING), Sample(true, false, WORKING)]);
            && later.guard.committed == Some(Out) && later.guard.flips == 0
            && Step(later, Sample(true, true, WORKING)).guard.committed == Some(In)
  {
    var s := Load(now, Store([], false), WORKING);
    var es := [MarkSignIn(true), Wait(ms), Reload(WORKING), Sample(true, false, WORKING)];
    assert es[..4] == es;
    forall n: nat | n < 4 ensures At(s, es, n + 1) == Step(At(s, es, n), es[n]) {
      AtStep(s, es, n);
    }
    var s1, s2, s3, s4 := At(s, es, 1), At(s, es, 2), At(s, es, 3), At(s, es, 4);
    assert At(s, es, 0) == s;
    assert s1.store == Store([], true);
    assert s2.store == Store([], true);
    assert s3 == Load(s2.now, s2.store, WORKING);
    assert s4.guard == FRESH.(committed := Some(Out)) && s4.store == Store([], true);
    assert s4 == Run(s, es);
  }

  // Feeding the same sample again, whatever time has passed without a timer firing, changes
  // nothing but the clock.
  lemma FeedIdempotent(s: State, isLoaded: bool, isSignedIn: bool, ms: nat, io: Io)
    requires Valid(s.guard)
    ensures var t := Step(Feed(s, isLoaded, isSignedIn, io), Wait(ms));
            Feed(t, isLoaded, isSignedIn, io) == t
  {
  }

  // ---- a steady signal is shown in time -----------------------------------------------

  // No timer is overdue.
  predicate Prompt(s: State)
  {
    && (s.guard.pendingTimer.Some? ==> s.now <= s.guard.pendingTimer.value.due)
    && (s.guard.resolveTimer.Some? ==> s.now <= s.guard.resolveTimer.value)
  }

  // A countdown never has more than 1500 ms to go.
  predicate Timely(s: State)
  {
    s.guard.pendingTimer.Some? ==> s.guard.pendingTimer.value.due <= s.now + 1500
  }

  lemma {:induction false} RunTimely(s: State, es: seq<Event>)
    requires Timely(s)
    ensures Timely(Run(s, es))
  {
    if es != [] {
      RunTimely(s, es[..|es| - 1]);
    }
  }

  // Settled on d, or d is on its way and arrives by `due`.
  predicate Heading(s: State, d: Decision, due: int)
  {
    || s.guard.degraded
    || (s.guard.committed == Some(d) && s.guard.pendingTimer.None?)
    || (s.guard.pendingTimer.Some? && s.guard.pendingTimer.value.target == d && s.guard.pendingTimer.value.due <= due)
  }

  lemma HeadingStarts(s: State, e: Event, d: Decision)
    requires Valid(s.guard) && Timely(s) && LoadedSample(e, d)
    ensures Heading(Step(s, e), d, s.now + 1500)
  {
  }

  lemma HeadingStep(s: State, e: Event, d: Decision, due: int)
    requires Valid(s.guard) && Heading(s, d, due) && WithinLoad(e) && !LoadedSample(e, Other(d))
    ensures Heading(Step(s, e), d, due)
  {
  }

  lemma {:induction false} HeadingRun(s: State, es: seq<Event>, d: Decision, due: int)
    requires Valid(s.guard) && Heading(s, d, due) && OneLoad(es)
    requires forall m :: 0 <= m < |es| ==> !LoadedSample(es[m], Other(d))
    ensures Heading(Run(s, es), d, due)
  {
    if es != [] {
      var front := es[..|es| - 1];
      HeadingRun(s, front, d, due);
      RunValid(s, front);
      HeadingStep(Run(s, front), es[|es| - 1], d, due);
    }
  }

  // The next flip to d, if one is still needed, has room in both budgets.
  predicate Roomy(s: State, d: Decision)
  {
    && !s.guard.degraded
    && (s.guard.committed == Some(Other(d)) ==> s.guard.flips < 3 && |Recent(s.store.log, s.now, 90_000)| < 5)
  }

  lemma RecentShrinks(log: seq<int>, now: int, later: int)
    requires now <= later
    ensures |Recent(log, later, 90_000)| <= |Recent(log, now, 90_000)|
  {
    RecentAgain(log, now, later, 90_000);
    RecentNoLonger(Recent(log, now, 90_000), later, 90_000);
  }

  lemma RoomyStep(s: State, e: Event, d: Decision, due: int)
    requires Valid(s.guard) && Heading(s, d, due) && Roomy(s, d) && WithinLoad(e) && !LoadedSample(e, Other(d))
    ensures Roomy(Step(s, e), d)
  {
    if e.Wait? {
      RecentShrinks(s.store.log, s.now, s.now + e.ms);
    }
    if s.guard.committed.Some? && s.guard.committed != Some(d) {
      Opposite(s.guard.committed.value, d);
    }
  }

  lemma RoomyStarts(s: State, e: Event, d: Decision)
    requires Valid(s.guard) && Roomy(s, d) && LoadedSample(e, d)
    ensures Roomy(Step(s, e), d)
  {
    if s.guard.committed.Some? && s.guard.committed != Some(d) {
      Opposite(s.guard.committed.value, d);
    }
  }

  lemma {:induction false} RoomyRun(s: State, es: seq<Event>, d: Decision, due: int)
    requires Valid(s.guard) && Heading(s, d, due) && Roomy(s, d) && OneLoad(es)
    requires forall m :: 0 <= m < |es| ==> !LoadedSample(es[m], Other(d))
    ensures Roomy(Run(s, es), d)
  {
    if es != [] {
      var front := es[..|es| - 1];
      RoomyRun(s, front, d, due);
      HeadingRun(s, front, d, due);
      RunValid(s, front);
      RoomyStep(Run(s, front), es[|es| - 1], d, due);
    }
  }

  /** A sample that stays constant is shown, or the guard is degraded, once more than
      1500 ms have passed, provided no timer is left overdue; with room in both budgets when
      it began, it is shown. */
  lemma SteadySignalShows(s: State, first: Event, es: seq<Event>, d: Decision)
    requires Valid(s.guard) && Timely(s) && LoadedSample(first, d) && OneLoad(es)
    requires forall m :: 0 <= m < |es| ==> !LoadedSample(es[m], Other(d))
    requires var t := Run(Step(s, first), es); Prompt(t) && s.now + 1500 < t.now
    ensures ViewOf(Run(Step(s, first), es).guard) in {Shows(d), Degraded}
    ensures Roomy(s, d) ==> ViewOf(Run(Step(s, first), es).guard) == Shows(d)
  {
    StepValid(s, first);
    HeadingStarts(s, first, d);
    HeadingRun(Step(s, first), es, d, s.now + 1500);
    if Roomy(s, d) {
      RoomyStarts(s, first, d);
      RoomyRun(Step(s, first), es, d, s.now + 1500);
    }
  }

  lemma {:induction false} ResolvingTimer(s: State, es: seq<Event>, due: int)
    requires Valid(s.guard) && OneLoad(es)
    requires ViewOf(s.guard) == Resolving ==> s.guard.resolveTimer == Some(due)
    ensures ViewOf(Run(s, es).guard) == Resolving ==> Run(s, es).guard.resolveTimer == Some(due)
  {
    if es != [] {
      ResolvingTimer(s, es[..|es| - 1], due);
      RunValid(s, es[..|es| - 1]);
    }
  }

  // Without a loaded sample a load that starts out resolving can only come to show "out".
  lemma {:induction false} Unsampled(s: State, es: seq<Event>)
    requires Valid(s.guard) && ViewOf(s.guard) == Resolving && OneLoad(es)
    requires forall m :: 0 <= m < |es| && es[m].Sample? ==> !es[m].isLoaded
    ensures var g := Run(s, es).guard; ViewOf(g) in {Resolving, Shows(Out)} && g.pendingTimer.None?
  {
    if es != [] {
      Unsampled(s, es[..|es| - 1]);
      RunValid(s, es[..|es| - 1]);
    }
  }

  /** "Resolving" is over once more than 8000 ms have passed since init; if no sample was
      loaded by then, a load within the budget shows "out". */
  lemma ResolvingEnds(now: int, store: Store, io: Io, es: seq<Event>)
    requires OneLoad(es)
    requires var t := Run(Load(now, store, io), es); Prompt(t) && now + 8000 < t.now
    ensures ViewOf(Run(Load(now, store, io), es).guard) != Resolving
    ensures (forall m :: 0 <= m < |es| && es[m].Sample? ==> !es[m].isLoaded)
            && (io.readLog ==> |Recent(store.log, now, 90_000)| <= 5)
            ==> ViewOf(Run(Load(now, store, io), es).guard) == Shows(Out)
  {
    ResolvingTimer(Load(now, store, io), es, now + 8000);
    if (forall m :: 0 <= m < |es| && es[m].Sample? ==> !es[m].isLoaded)
       && (io.readLog ==> |Recent(store.log, now, 90_000)| <= 5) {
      Unsampled(Load(now, store, io), es);
    }
  }

  /** The user's reset gives a load that is not degraded, whatever came before, as soon as
      the storage could be cleared. */
  lemma TryAgainRecovers(s: State, io: Io)
    ensures var t := Step(s, TryAgain(true, io));
            ViewOf(t.guard) == Resolving && t.guard.flips == 0 && t.store == Store([], false)
  {
  }

  // ---- the window that survives reloads -----------------------------------------------

  // Storage works and the user never presses "try again".
  predicate Unattended(e: Event)
  {
    match e
    case Sample(_, _, io) => io == WORKING
    case PendingFires(io) => io == WORKING
    case Reload(io) => io == WORKING
    case TryAgain(_, _) => false
    case _ => true
  }

  // When the committed flips of a run happened.
  function FlipTimes(s: State, es: seq<Event>): seq<int>
  {
    if es == [] then []
    else
      var front := es[..|es| - 1];
      var before := Run(s, front);
      FlipTimes(s, front) + if IsFlip(before.guard, Run(s, es).guard) then [before.now] else []
  }

  // The stored log counts every flip that is still inside the window, now and later.
  ghost predicate Logged(times: seq<int>, s: State)
  {
    forall later: int :: s.now <= later ==> |Recent(times, later, 90_000)| <= |Recent(s.store.log, later, 90_000)|
  }

  // A step leaves the log alone, or appends the current time to what is still in the window;
  // a flip is committed only when at most five entries are then inside it.
  lemma StepLog(s: State, e: Event)
    requires Valid(s.guard) && Unattended(e)
    ensures var t := Step(s, e);
            && s.now <= t.now
            && (|| t.store.log == s.store.log
                || (t.store.log == Recent(s.store.log, s.now, 90_000) + [s.now] && t.now == s.now))
            && (IsFlip(s.guard, t.guard) ==>
                  && t.store.log == Recent(s.store.log, s.now, 90_000) + [s.now] && |t.store.log| <= 5)
  {
  }

  lemma LoggedStep(times: seq<int>, s: State, e: Event)
    requires Valid(s.guard) && Unattended(e) && Logged(times, s)
    ensures var t := Step(s, e);
            var times' := times + if IsFlip(s.guard, t.guard) then [s.now] else [];
            && Logged(times', t)
            && (IsFlip(s.guard, t.guard) ==> |Recent(times', s.now, 90_000)| <= 5)
  {
    hide Step, Recent;
    var t := Step(s, e);
    StepLog(s, e);
    var times' := times + if IsFlip(s.guard, t.guard) then [s.now] else [];
    forall later: int | s.now <= later
      ensures |Recent(times', later, 90_000)| <= |Recent(t.store.log, later, 90_000)|
    {
      RecentAgain(s.store.log, s.now, later, 90_000);
      RecentAppend(Recent(s.store.log, s.now, 90_000), s.now, later, 90_000);
      RecentAppend(times, s.now, later, 90_000);
      assert times + [] == times;
    }
    if IsFlip(s.guard, t.guard) {
      RecentAgain(s.store.log, s.now, s.now, 90_000);
      RecentAppend(times, s.now, s.now, 90_000);
    }
  }

  lemma {:induction false} FlipsLimited(s: State, es: seq<Event>)
    requires Valid(s.guard) && forall i :: 0 <= i < |es| ==> Unattended(es[i])
    ensures Logged(FlipTimes(s, es), Run(s, es))
    ensures Limited(FlipTimes(s, es), 90_000, 5)
  {
    if es != [] {
      var front := es[..|es| - 1];
      FlipsLimited(s, front);
      RunValid(s, front);
      var before := Run(s, front);
      LoggedStep(FlipTimes(s, front), before, es[|es| - 1]);
      if IsFlip(before.guard, Run(s, es).guard) {
        LimitedAppend(FlipTimes(s, front), before.now, 90_000, 5);
      } else {
        assert FlipTimes(s, es) == FlipTimes(s, front);
      }
    }
  }

  /** Over any sequence of page loads with working storage and no user reset, any span
      shorter than 90 s holds at most five committed flips. */
  lemma FlipRateAcrossLoads(s: State, es: seq<Event>, lo: int, hi: int)
    requires Valid(s.guard) && forall i :: 0 <= i < |es| ==> Unattended(es[i])
    requires hi - lo < 90_000
    ensures CountIn(FlipTimes(s, es), lo, hi) <= 5
  {
    FlipsLimited(s, es);
    SpanBound(FlipTimes(s, es), 90_000, 5, lo, hi);
  }

  /** A load that finds more than five flips in the window is degraded from its first step
      and stays so for its whole life; any other load starts out resolving. */
  lemma OverBudgetLoad(now: int, store: Store, io: Io, es: seq<Event>)
    requires OneLoad(es)
    ensures var s := Load(now, store, io);
            if io.readLog && |Recent(store.log, now, 90_000)| > 5
            then ViewOf(Run(s, es).guard) == Degraded && Repaints(s, es) == 0
            else ViewOf(s.guard) == Resolving
  {
    var s := Load(now, store, io);
    LoadBounds(s, es);
    RunValid(s, es);
  }
}
