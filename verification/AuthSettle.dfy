/** The whole-page auth guard: a debounced, flip-bounded state machine with a flip log that
    survives page loads.  This module gives one browser tab as a value and every event of
    its life as a function; `AuthGuard` is the same machine updated in place. */
module AuthSettle {
  import opened Options
  import opened SlidingWindow

  datatype Decision = In | Out

  datatype View = Resolving | Shows(decision: Decision) | Degraded

  // The debounce countdown: the callback commits `target` once `due` has come.
  datatype Timer = Timer(target: Decision, due: int)

  // The module variables of one page load.
  datatype Guard = Guard(
    committed: Option<Decision>,
    flips: nat,
    degraded: bool,
    pendingValue: Option<Decision>,
    pendingTimer: Option<Timer>,
    resolveTimer: Option<int>)

  // sessionStorage: it outlives page loads.
  datatype Store = Store(log: seq<int>, marker: bool)

  datatype State = State(now: int, guard: Guard, store: Store)

  // Which storage accesses succeed during one event; a failing access is caught.
  datatype Io = Io(readLog: bool, writeLog: bool, readMarker: bool, clearMarker: bool)

  const WORKING: Io := Io(true, true, true, true)

  const FRESH: Guard := Guard(None, 0, false, None, None, None)

  function ReadFlipLog(log: seq<int>, now: int, io: Io): seq<int>
  {
    if io.readLog then Recent(log, now, 90_000) else []
  }

  // The new log and the count `recordFlip` returns; `flips` is its fallback.
  function RecordFlip(log: seq<int>, now: int, flips: nat, io: Io): (seq<int>, nat)
  {
    var kept := ReadFlipLog(log, now, io) + [now];
    if io.writeLog then (kept, |kept|) else (log, flips)
  }

  function EnterDegraded(g: Guard): Guard
  {
    g.(degraded := true, pendingValue := None, pendingTimer := None, resolveTimer := None)
  }

  function ClearPending(g: Guard): Guard { g.(pendingValue := None, pendingTimer := None) }

  function CommitFlip(s: State, next: Decision, io: Io): State
  {
    if s.guard.degraded || s.guard.committed == Some(next) then s
    else
      var g := s.guard.(flips := s.guard.flips + 1);
      var (log, recent) := RecordFlip(s.store.log, s.now, g.flips, io);
      State(s.now,
            if g.flips > 3 || recent > 5 then EnterDegraded(g) else g.(committed := Some(next)),
            s.store.(log := log))
  }

  // The marker is consumed only when it can be both read and removed.
  predicate Consumes(store: Store, io: Io) { io.readMarker && store.marker && io.clearMarker }

  function Feed(s: State, isLoaded: bool, isSignedIn: bool, io: Io): State
  {
    var g, sample := s.guard, if isSignedIn then In else Out;
    if g.degraded || !isLoaded then s
    else if g.committed.None? then s.(guard := g.(committed := Some(sample), resolveTimer := None))
    else if g.committed == Some(sample) then s.(guard := ClearPending(g))
    else if sample == In && Consumes(s.store, io) then
      CommitFlip(State(s.now, ClearPending(g), s.store.(marker := false)), sample, io)
    else if g.pendingValue == Some(sample) then s
    else s.(guard := g.(pendingValue := Some(sample), pendingTimer := Some(Timer(sample, s.now + 1500))))
  }

  // A timer callback runs at or after its due time; before that the event does nothing.
  function FirePending(s: State, io: Io): State
  {
    if s.guard.pendingTimer.Some? && s.guard.pendingTimer.value.due <= s.now then
      CommitFlip(s.(guard := ClearPending(s.guard)), s.guard.pendingTimer.value.target, io)
    else s
  }

  function FireResolve(s: State): State
  {
    if s.guard.resolveTimer.Some? && s.guard.resolveTimer.value <= s.now then
      var g := s.guard.(resolveTimer := None);
      s.(guard := if g.committed.None? && !g.degraded then g.(committed := Some(Out)) else g)
    else s
  }

  // The one-time client init, on whatever state the page has reached.
  function Init(g: Guard, log: seq<int>, now: int, io: Io): Guard
  {
    if |ReadFlipLog(log, now, io)| > 5 then g.(degraded := true)
    else if g.committed.None? && !g.degraded && g.resolveTimer.None? then g.(resolveTimer := Some(now + 8000))
    else g
  }

  // A page load: fresh module variables, then the init.
  function Load(now: int, store: Store, io: Io): State { State(now, Init(FRESH, store.log, now, io), store) }

  function ViewOf(g: Guard): View
  {
    if g.degraded then Degraded else if g.committed.Some? then Shows(g.committed.value) else Resolving
  }

  datatype Event =
    | Sample(isLoaded: bool, isSignedIn: bool, io: Io)
    | PendingFires(io: Io)
    | ResolveFires
    | Wait(ms: nat)
    | MarkSignIn(ok: bool)
    | Reload(io: Io)
    | TryAgain(cleared: bool, io: Io)   // the user's explicit reset: clear the storage, reload

  function Step(s: State, e: Event): State
  {
    match e
    case Sample(isLoaded, isSignedIn, io) => Feed(s, isLoaded, isSignedIn, io)
    case PendingFires(io) => FirePending(s, io)
    case ResolveFires => FireResolve(s)
    case Wait(ms) => s.(now := s.now + ms)
    case MarkSignIn(ok) => if ok then s.(store := s.store.(marker := true)) else s
    case Reload(io) => Load(s.now, s.store, io)
    case TryAgain(cleared, io) => Load(s.now, if cleared then Store([], false) else s.store, io)
  }

  // The state after a run of events; events of any kind may come in any order.
  function Run(s: State, es: seq<Event>): State
  {
    if es == [] then s else Step(Run(s, es[..|es| - 1]), es[|es| - 1])
  }

  function Waited(es: seq<Event>): nat
  {
    if es == [] then 0
    else Waited(es[..|es| - 1]) + match es[|es| - 1] case Wait(ms) => ms case _ => 0
  }

  // Time passes by waiting and by nothing else.
  lemma {:induction false} ClockIs(s: State, es: seq<Event>)
    ensures Run(s, es).now == s.now + Waited(es)
  {
    if es != [] {
      ClockIs(s, es[..|es| - 1]);
    }
  }

  // ---- what every step keeps ----------------------------------------------------------

  // A pending value comes with its timer, targets something other than the committed view,
  // and never coexists with the degraded state; "resolving" is the only state with a
  // resolve timer.
  predicate Valid(g: Guard)
  {
    && (g.pendingValue.Some? <==> g.pendingTimer.Some?)
    && (g.pendingTimer.Some? ==>
          && g.pendingTimer.value.target == g.pendingValue.value
          && g.committed.Some? && g.committed != g.pendingValue && !g.degraded)
    && (g.resolveTimer.Some? ==> g.committed.None? && !g.degraded)
    && (g.degraded || g.flips <= 3)
    && (g.committed.None? ==> g.flips == 0)
  }

  lemma StepValid(s: State, e: Event)
    requires Valid(s.guard)
    ensures Valid(Step(s, e).guard)
  {
  }

  lemma {:induction false} RunValid(s: State, es: seq<Event>)
    requires Valid(s.guard)
    ensures Valid(Run(s, es).guard)
  {
    if es != [] {
      RunValid(s, es[..|es| - 1]);
      StepValid(Run(s, es[..|es| - 1]), es[|es| - 1]);
    }
  }

  // ---- one page load: bounded flips and bounded repaints ------------------------------

  predicate WithinLoad(e: Event) { !e.Reload? && !e.TryAgain? }

  predicate OneLoad(es: seq<Event>) { forall i :: 0 <= i < |es| ==> WithinLoad(es[i]) }

  // Within a load a decision, once made, is never unmade, and degraded is for good.
  lemma Absorbing(s: State, e: Event)
    requires Valid(s.guard) && WithinLoad(e)
    ensures s.guard.committed.Some? ==> Step(s, e).guard.committed.Some?
    ensures s.guard.degraded ==> Step(s, e).guard == s.guard
  {
  }

  predicate IsFlip(before: Guard, after: Guard)
  {
    before.committed.Some? && after.committed.Some? && before.committed != after.committed
  }

  function Flips(s: State, es: seq<Event>): nat
  {
    if es == [] then 0
    else
      var front := es[..|es| - 1];
      Flips(s, front) + if IsFlip(Run(s, front).guard, Run(s, es).guard) then 1 else 0
  }

  function Repaints(s: State, es: seq<Event>): nat
  {
    if es == [] then 0
    else
      var front := es[..|es| - 1];
      Repaints(s, front) + if ViewOf(Run(s, front).guard) != ViewOf(Run(s, es).guard) then 1 else 0
  }

  // A measure every repaint strictly raises and no event within a load lowers.
  function Rank(g: Guard): nat
  {
    if g.degraded then 5 else if g.committed.None? then 0 else 1 + g.flips
  }

  lemma StepRank(s: State, e: Event)
    requires Valid(s.guard) && WithinLoad(e)
    ensures var (g, h) := (s.guard, Step(s, e).guard);
            && Rank(g) <= Rank(h) <= 5
            && (ViewOf(g) != ViewOf(h) ==> Rank(g) < Rank(h))
            && (IsFlip(g, h) ==> !g.degraded && !h.degraded && h.flips == g.flips + 1)
            && (!h.degraded ==> h.flips == g.flips + if IsFlip(g, h) then 1 else 0)
  {
  }

  lemma {:induction false} LoadBounds(s: State, es: seq<Event>)
    requires Valid(s.guard) && OneLoad(es)
    ensures Repaints(s, es) <= Rank(Run(s, es).guard) - Rank(s.guard)
    ensures Run(s, es).guard.degraded || Run(s, es).guard.flips == s.guard.flips + Flips(s, es)
    ensures s.guard.degraded ==> Flips(s, es) == 0 && Run(s, es).guard == s.guard
    ensures !s.guard.degraded ==> s.guard.flips + Flips(s, es) <= 3
  {
    if es != [] {
      var front := es[..|es| - 1];
      LoadBounds(s, front);
      RunValid(s, front);
      RunValid(s, es);
      StepRank(Run(s, front), es[|es| - 1]);
      Absorbing(Run(s, front), es[|es| - 1]);
    }
  }

  /** In every run of one page load - any samples, timer orders, waits and storage failures -
      at most three flips follow the first commit, and the page repaints at most five times. */
  lemma BoundedLoad(now: int, store: Store, io: Io, es: seq<Event>)
    requires OneLoad(es)
    ensures var s := Load(now, store, io); Flips(s, es) <= 3 && Repaints(s, es) <= 5
  {
    LoadBounds(Load(now, store, io), es);
    RunValid(Load(now, store, io), es);
  }
}
