/** The service-worker reload latch: at most two takeover reloads per minute in one tab. */
module ReloadLatch {
  import opened SlidingWindow

  // One page: whether a worker already controlled it, and whether it has reacted yet.  The
  // reload timestamps live in sessionStorage and outlive the page.
  datatype Page = Page(hadController: bool, refreshing: bool)

  // `latched` records when `location.reload()` was called after the log took the time down,
  // `unlatched` when it was called because storage failed.
  datatype State = State(now: int, page: Page, hits: seq<int>, latched: seq<int>, unlatched: seq<int>)

  datatype Event =
    | ControllerChange(readOk: bool, writeOk: bool)   // whether the log can be read and written
    | Wait(ms: nat)
    | Navigate(hadController: bool)                   // the next page of the tab, for whatever reason

  function Step(s: State, e: Event): State
  {
    match e
    case Wait(ms) => s.(now := s.now + ms)
    case Navigate(had) => s.(page := Page(had, false))
    case ControllerChange(readOk, writeOk) =>
      if s.page.refreshing || !s.page.hadController then s
      else
        var t := s.(page := s.page.(refreshing := true));
        var hits := Recent(s.hits, s.now, 60_000);
        if readOk && |hits| >= 2 then t
        else if readOk && writeOk then t.(hits := hits + [s.now], latched := s.latched + [s.now])
        else t.(unlatched := s.unlatched + [s.now])
  }

  function Run(s: State, es: seq<Event>): State
  {
    if es == [] then s else Step(Run(s, es[..|es| - 1]), es[|es| - 1])
  }

  function Waited(es: seq<Event>): nat
  {
    if es == [] then 0
    else Waited(es[..|es| - 1]) + match es[|es| - 1] case Wait(ms) => ms case _ => 0
  }

  // Time passes by waiting and by nothing else.
  lemma {:induction false} ClockIs(s: State, es: seq<Event>)
    ensures Run(s, es).now == s.now + Waited(es)
  {
    if es != [] {
      ClockIs(s, es[..|es| - 1]);
    }
  }

  /** A takeover reloads exactly on a controlled page that has not reacted yet, unless the log
      can be read and holds two reloads of the last minute. */
  lemma TakeoverReloads(s: State, readOk: bool, writeOk: bool)
    ensures var t := Step(s, ControllerChange(readOk, writeOk));
            var live := s.page.hadController && !s.page.refreshing;
            && t.page == Page(s.page.hadController, s.page.refreshing || live)
            && if live && (!readOk || |Recent(s.hits, s.now, 60_000)| < 2)
               then if readOk && writeOk
                    then t.latched == s.latched + [s.now] && t.unlatched == s.unlatched
                         && t.hits == Recent(s.hits, s.now, 60_000) + [s.now]
                    else t.latched == s.latched && t.unlatched == s.unlatched + [s.now] && t.hits == s.hits
               else t.latched == s.latched && t.unlatched == s.unlatched && t.hits == s.hits
  {
  }

  ghost predicate Inv(s: State)
  {
    && Limited(s.latched, 60_000, 2)
    && forall later: int :: s.now <= later ==> |Recent(s.latched, later, 60_000)| <= |Recent(s.hits, later, 60_000)|
  }

  lemma StepInv(s: State, e: Event)
    requires Inv(s)
    ensures Inv(Step(s, e))
  {
    var t := Step(s, e);
    if t.latched != s.latched {
      var hits := Recent(s.hits, s.now, 60_000);
      RecentAgain(s.hits, s.now, s.now, 60_000);
      RecentAppend(s.latched, s.now, s.now, 60_000);
      LimitedAppend(s.latched, s.now, 60_000, 2);
      forall later: int | s.now <= later
        ensures |Recent(t.latched, later, 60_000)| <= |Recent(t.hits, later, 60_000)|
      {
        RecentAgain(s.hits, s.now, later, 60_000);
        RecentAppend(hits, s.now, later, 60_000);
        RecentAppend(s.latched, s.now, later, 60_000);
      }
    }
  }

  lemma {:induction false} RunInv(s: State, es: seq<Event>)
    requires Inv(s)
    ensures Inv(Run(s, es))
  {
    if es != [] {
      RunInv(s, es[..|es| - 1]);
      StepInv(Run(s, es[..|es| - 1]), es[|es| - 1]);
    }
  }

  function Reloads(s: State, lo: int, hi: int): nat
  {
    CountIn(s.latched, lo, hi) + CountIn(s.unlatched, lo, hi)
  }

  /** Over any run of pages in one tab, whatever the log held before and whichever storage
      accesses fail, any span shorter than 60 s holds at most two reloads besides those made
      while storage was failing. */
  lemma ReloadRate(s: State, es: seq<Event>, lo: int, hi: int)
    requires s.latched == [] && hi - lo < 60_000
    ensures Reloads(Run(s, es), lo, hi) <= 2 + CountIn(Run(s, es).unlatched, lo, hi)
  {
    RunInv(s, es);
    SpanBound(Run(s, es).latched, 60_000, 2, lo, hi);
  }

  // Every access of the run has the given outcome.
  predicate Outcome(es: seq<Event>, readOk: bool, writeOk: bool)
  {
    forall i :: 0 <= i < |es| && es[i].ControllerChange? ==> es[i] == ControllerChange(readOk, writeOk)
  }

  lemma {:induction false} WorkingRun(s: State, es: seq<Event>)
    requires Outcome(es, true, true)
    ensures Run(s, es).unlatched == s.unlatched
  {
    if es != [] {
      WorkingRun(s, es[..|es| - 1]);
    }
  }

  // With a failing access three pages in a row reload at once.
  lemma FailingRun(now: int, readOk: bool, writeOk: bool)
    requires !readOk || !writeOk
    ensures var e := ControllerChange(readOk, writeOk);
            var es := [e, Navigate(true), e, Navigate(true), e];
            var s := State(now, Page(true, false), [], [], []);
            Outcome(es, readOk, writeOk) && Run(s, es).unlatched == [now, now, now]
  {
    var e := ControllerChange(readOk, writeOk);
    var es := [e, Navigate(true), e, Navigate(true), e];
    var s := State(now, Page(true, false), [], [], []);
    assert es[..4][..3] == es[..3] && es[..3][..2] == es[..2] && es[..2][..1] == es[..1] && es[..1][..0] == [];
    assert Run(s, es[..1]) == Step(s, e);
    assert Run(s, es[..2]).unlatched == [now];
    assert Run(s, es[..3]).unlatched == [now, now];
    assert Run(s, es[..4]) == Step(Run(s, es[..3]), Navigate(true));
  }

  // At most two reloads in every span shorter than 60 s, in every run with this outcome.
  ghost predicate LatchHolds(readOk: bool, writeOk: bool)
  {
    forall s: State, es: seq<Event>, lo: int, hi: int ::
      s.latched == s.unlatched == [] && Outcome(es, readOk, writeOk) && hi - lo < 60_000 ==>
        Reloads(Run(s, es), lo, hi) <= 2
  }

  /** The latch bounds all reloads exactly when the log can be both read and written. */
  lemma LatchHoldsIff(readOk: bool, writeOk: bool)
    ensures LatchHolds(readOk, writeOk) <==> readOk && writeOk
  {
    if readOk && writeOk {
      forall s: State, es: seq<Event>, lo: int, hi: int
        | s.latched == s.unlatched == [] && Outcome(es, readOk, writeOk) && hi - lo < 60_000
        ensures Reloads(Run(s, es), lo, hi) <= 2
      {
        ReloadRate(s, es, lo, hi);
        WorkingRun(s, es);
      }
    } else {
      FailingRun(0, readOk, writeOk);
      var e := ControllerChange(readOk, writeOk);
      var (es, s) := ([e, Navigate(true), e, Navigate(true), e], State(0, Page(true, false), [], [], []));
      assert CountIn([0, 0, 0], 0, 0) == 3 by {
        assert [0, 0, 0][..2] == [0, 0] && [0, 0][..1] == [0] && [0][..0] == [];
        assert CountIn([0], 0, 0) == 1 && CountIn([0, 0], 0, 0) == 2;
      }
      assert Reloads(Run(s, es), 0, 0) > 2;
    }
  }

  class Tab {
    const hadController: bool
    var refreshing: bool
    var hits: seq<int>

    constructor (hadController: bool, hits: seq<int>)
      ensures !refreshing && this.hadController == hadController && this.hits == hits
    {
      this.hadController, this.refreshing, this.hits := hadController, false, hits;
    }

    // Returns whether the page reloads.
    method OnControllerChange(now: int, readOk: bool, writeOk: bool) returns (reload: bool)
      modifies this
      ensures var t := Step(State(now, Page(hadController, old(refreshing)), old(hits), [], []),
                            ControllerChange(readOk, writeOk));
              refreshing == t.page.refreshing && hits == t.hits && reload == (t.latched + t.unlatched == [now])
    {
      if refreshing || !hadController {
        return false;
      }
      refreshing := true;
      if !readOk {
        return true;
      }
      var kept: seq<int> := [];
      for i := 0 to |hits|
        invariant kept == Recent(hits[..i], now, 60_000)
      {
        assert hits[..i + 1][..i] == hits[..i];
        if now - hits[i] < 60_000 {
          kept := kept + [hits[i]];
        }
      }
      assert hits[..|hits|] == hits;
      if |kept| >= 2 {
        return false;
      }
      if writeOk {
        hits := kept + [now];
      }
      return true;
    }
  }
}
