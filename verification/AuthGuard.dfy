/** The auth guard as the page runs it: module variables and sessionStorage updated in place.
    Every method is the matching step of `AuthSettle`. */
module AuthGuard {
  import opened Options
  import opened SlidingWindow
  import opened AuthSettle

  class Tab {
    // module variables of the current page load
    var committed: Option<Decision>
    var flips: nat
    var degraded: bool
    var pendingValue: Option<Decision>
    var pendingTimer: Option<Timer>
    var resolveTimer: Option<int>
    var clientInited: bool
    // sessionStorage
    var log: seq<int>
    var marker: bool

    function Guarded(): Guard
      reads this
    {
      Guard(committed, flips, degraded, pendingValue, pendingTimer, resolveTimer)
    }

    function Abstract(now: int): State
      reads this
    {
      State(now, Guarded(), Store(log, marker))
    }

    // A page load on whatever storage the tab already has.
    constructor (now: int, log: seq<int>, marker: bool, io: Io)
      ensures Abstract(now) == Load(now, Store(log, marker), io) && clientInited
    {
      this.log, this.marker, clientInited := log, marker, false;
      committed, flips, degraded, pendingValue, pendingTimer, resolveTimer := None, 0, false, None, None, None;
      new;
      InitClient(now, io);
    }

    method ReadLog(now: int, io: Io) returns (kept: seq<int>)
      ensures kept == if io.readLog then Recent(log, now, 90_000) else []
    {
      kept := [];
      if !io.readLog {
        return;
      }
      for i := 0 to |log|
        invariant kept == Recent(log[..i], now, 90_000)
      {
        assert log[..i + 1][..i] == log[..i];
        if now - log[i] < 90_000 {
          kept := kept + [log[i]];
        }
      }
      assert log[..|log|] == log;
    }

    method RecordLog(now: int, io: Io) returns (recent: nat)
      modifies this`log
      ensures (log, recent) == RecordFlip(old(log), now, flips, io)
    {
      var kept := ReadLog(now, io);
      kept := kept + [now];
      if !io.writeLog {
        return flips;
      }
      log := kept;
      return |kept|;
    }

    method CancelPending()
      modifies this`pendingValue, this`pendingTimer
      ensures Guarded() == ClearPending(old(Guarded()))
    {
      pendingTimer := None;
      pendingValue := None;
    }

    method Degrade()
      modifies this`degraded, this`pendingValue, this`pendingTimer, this`resolveTimer
      ensures Guarded() == EnterDegraded(old(Guarded()))
    {
      degraded := true;
      CancelPending();
      if resolveTimer.Some? {
        resolveTimer := None;
      }
    }

    method ConsumePendingSignIn(io: Io) returns (pending: bool)
      modifies this`marker
      ensures pending == (old(marker) && io.readMarker && io.clearMarker)
      ensures marker == (old(marker) && !pending)
    {
      if !io.readMarker {
        return false;
      }
      pending := marker;
      if pending {
        if !io.clearMarker {
          return false;
        }
        marker := false;
      }
    }

    method Commit(next: Decision, now: int, io: Io)
      modifies this`committed, this`flips, this`degraded, this`log
      modifies this`pendingValue, this`pendingTimer, this`resolveTimer
      ensures Abstract(now) == CommitFlip(old(Abstract(now)), next, io)
    {
      if degraded || committed == Some(next) {
        return;
      }
      flips := flips + 1;
      var recent := RecordLog(now, io);
      if flips > 3 || recent > 5 {
        Degrade();
        return;
      }
      committed := Some(next);
    }

    method FeedSample(isLoaded: bool, isSignedIn: bool, now: int, io: Io)
      modifies this
      ensures Abstract(now) == Feed(old(Abstract(now)), isLoaded, isSignedIn, io)
    {
      if degraded || !isLoaded {
        return;
      }
      var sample := if isSignedIn then In else Out;
      if committed.None? {
        committed := Some(sample);
        if resolveTimer.Some? {
          resolveTimer := None;
        }
        return;
      }
      if Some(sample) == committed {
        CancelPending();
        return;
      }
      if sample == In {
        var pending := ConsumePendingSignIn(io);
        if pending {
          CancelPending();
          Commit(sample, now, io);
          return;
        }
      }
      if pendingValue == Some(sample) {
        return;
      }
      CancelPending();
      pendingValue := Some(sample);
      pendingTimer := Some(Timer(sample, now + 1500));
    }

    // The debounce callback.
    method OnPendingTimer(now: int, io: Io)
      requires pendingTimer.Some? && pendingTimer.value.due <= now
      modifies this
      ensures Abstract(now) == FirePending(old(Abstract(now)), io)
    {
      var sample := pendingTimer.value.target;
      pendingTimer := None;
      pendingValue := None;
      Commit(sample, now, io);
    }

    // The resolve-timeout callback.
    method OnResolveTimer(now: int)
      requires resolveTimer.Some? && resolveTimer.value <= now
      modifies this
      ensures Abstract(now) == FireResolve(old(Abstract(now)))
    {
      resolveTimer := None;
      if committed.None? && !degraded {
        committed := Some(Out);
      }
    }

    // Only the first call of a page load does anything.
    method InitClient(now: int, io: Io)
      modifies this`degraded, this`resolveTimer, this`clientInited
      ensures clientInited
      ensures Guarded() == if old(clientInited) then old(Guarded()) else Init(old(Guarded()), log, now, io)
    {
      if clientInited {
        return;
      }
      clientInited := true;
      var kept := ReadLog(now, io);
      if |kept| > 5 {
        degraded := true;
        return;
      }
      if committed.None? && !degraded && resolveTimer.None? {
        resolveTimer := Some(now + 8000);
      }
    }

    method MarkPendingSignIn(now: int, ok: bool)
      modifies this`marker
      ensures Abstract(now) == Step(old(Abstract(now)), MarkSignIn(ok))
    {
      if ok {
        marker := true;
      }
    }

    method CurrentView(sample: Option<Decision>) returns (view: View)
      ensures view == Degraded <==> degraded
      ensures view == Resolving <==> !degraded && committed.None? && sample.None?
      ensures forall d :: view == Shows(d) <==>
                !degraded && (committed == Some(d) || (committed.None? && sample == Some(d)))
    {
      if degraded {
        return Degraded;
      }
      if committed.Some? {
        return Shows(committed.value);
      }
      return if sample.Some? then Shows(sample.value) else Resolving;
    }
  }
}
