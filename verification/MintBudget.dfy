/** The session-mint failure budget: a shared single-flight gate, an automatic re-mint path
    and explicit mints, all reporting to one outcome counter. */
module MintBudget {
  import opened Options

  datatype MintState = Unattempted | Minted | Backoff | Failed

  // `sessionMintPromise`: null, in flight, failed but not yet reset by its continuation, or
  // settled with a grant and kept.
  datatype Gate = NoPromise | InFlight | Rejecting | Granted

  // The module variables, the clock, and the mints really in progress on each path.
  datatype State = State(
    now: int,
    mintState: MintState,
    failures: nat,
    nextAuto: int,
    gate: Gate,
    lastAuto: int,
    gateRunning: nat,
    autoRunning: nat,
    explicitRunning: nat)

  function Boot(now: int): State { State(now, Unattempted, 0, 0, NoPromise, 0, 0, 0, 0) }

  function BackoffMs(failures: nat): int
    requires failures > 0
  {
    if failures == 1 then 2_000 else if failures == 2 then 8_000 else 30_000
  }

  // The chokepoint every mint reports to.
  function NoteOutcome(s: State, granted: bool): State
  {
    if granted then s.(failures := 0, nextAuto := 0, mintState := Minted)
    else if s.failures + 1 >= 4 then s.(failures := s.failures + 1, mintState := Failed)
    else s.(failures := s.failures + 1, mintState := Backoff, nextAuto := s.now + BackoffMs(s.failures + 1))
  }

  // Whether a request reaching the gate starts a mint.
  predicate GateStarts(s: State)
  {
    s.gate == NoPromise && s.mintState != Minted && s.mintState != Failed && s.nextAuto <= s.now
  }

  // Whether a 401/403/anonymous answer starts a re-mint.
  predicate AutoStarts(s: State)
  {
    s.mintState != Failed && s.nextAuto <= s.now && s.now - s.lastAuto >= 30_000
  }

  datatype Event =
    | Wait(ms: nat)
    | GateCall
    | AutoCall
    | ExplicitCall
    | GateOutcome(granted: bool)
    | GateSettles            // the continuation that resets a failed gate promise
    | AutoOutcome(granted: bool)
    | ExplicitOutcome(granted: bool)

  // An outcome needs a mint in progress on its path; otherwise the event does nothing.
  predicate Happens(s: State, e: Event)
  {
    match e
    case GateOutcome(_) => s.gateRunning > 0
    case AutoOutcome(_) => s.autoRunning > 0
    case ExplicitOutcome(_) => s.explicitRunning > 0
    case _ => true
  }

  function Step(s: State, e: Event): State
  {
    if !Happens(s, e) then s
    else
      match e
      case Wait(ms) => s.(now := s.now + ms)
      case GateCall => if GateStarts(s) then s.(gate := InFlight, gateRunning := s.gateRunning + 1) else s
      case AutoCall => if AutoStarts(s) then s.(lastAuto := s.now, autoRunning := s.autoRunning + 1) else s
      case ExplicitCall => s.(explicitRunning := s.explicitRunning + 1)
      case GateOutcome(granted) =>
        NoteOutcome(s, granted).(gate := if granted then Granted else Rejecting, gateRunning := s.gateRunning - 1)
      case GateSettles => if s.gate == Rejecting then s.(gate := NoPromise) else s
      case AutoOutcome(granted) => NoteOutcome(s, granted).(autoRunning := s.autoRunning - 1)
      case ExplicitOutcome(granted) => NoteOutcome(s, granted).(explicitRunning := s.explicitRunning - 1)
  }

  function Run(s: State, es: seq<Event>): State
  {
    if es == [] then s else Step(Run(s, es[..|es| - 1]), es[|es| - 1])
  }

  predicate Succeeds(s: State, e: Event)
  {
    Happens(s, e) && (e.GateOutcome? || e.AutoOutcome? || e.ExplicitOutcome?) && e.granted
  }

  predicate Fails(s: State, e: Event)
  {
    Happens(s, e) && (e.GateOutcome? || e.AutoOutcome? || e.ExplicitOutcome?) && !e.granted
  }

  // ---- the same machine in place ------------------------------------------------------

  class SessionMint {
    var mintState: MintState
    var failures: nat
    var nextAuto: int
    var gate: Gate
    var lastAuto: int

    ghost predicate Shows(s: State)
      reads this
    {
      && mintState == s.mintState && failures == s.failures && nextAuto == s.nextAuto
      && gate == s.gate && lastAuto == s.lastAuto
    }

    constructor ()
      ensures forall now :: Shows(Boot(now))
    {
      mintState, failures, nextAuto, gate, lastAuto := Unattempted, 0, 0, NoPromise, 0;
    }

    method Note(granted: bool, now: int, ghost s: State)
      requires Shows(s) && s.now == now
      modifies this`mintState, this`failures, this`nextAuto
      ensures Shows(NoteOutcome(s, granted))
    {
      if granted {
        failures := 0;
        nextAuto := 0;
        mintState := Minted;
        return;
      }
      failures := failures + 1;
      if failures >= 4 {
        mintState := Failed;
      } else {
        mintState := Backoff;
        var delays := [2_000, 8_000, 30_000];
        nextAuto := now + delays[if failures - 1 < 2 then failures - 1 else 2];
      }
    }

    method EnsureSessionMinted(now: int, ghost s: State) returns (starts: bool)
      requires Shows(s) && s.now == now
      modifies this`gate
      ensures starts == GateStarts(s) && Shows(Step(s, GateCall))
    {
      if gate != NoPromise {
        return false;
      }
      if mintState == Minted {
        return false;
      }
      if mintState == Failed || now < nextAuto {
        return false;
      }
      gate := InFlight;
      return true;
    }

    method RemintAfterRefusal(now: int, ghost s: State) returns (starts: bool)
      requires Shows(s) && s.now == now
      modifies this`lastAuto
      ensures starts == AutoStarts(s) && Shows(Step(s, AutoCall))
    {
      if mintState == Failed || now < nextAuto {
        return false;
      }
      if now - lastAuto < 30_000 {
        return false;
      }
      lastAuto := now;
      return true;
    }

    method GateResolved(granted: bool, now: int, ghost s: State)
      requires Shows(s) && s.now == now && s.gateRunning > 0
      modifies this
      ensures Shows(Step(s, GateOutcome(granted)))
    {
      Note(granted, now, s);
      gate := if granted then Granted else Rejecting;
    }

    method GateContinues(ghost s: State)
      requires Shows(s)
      modifies this`gate
      ensures Shows(Step(s, GateSettles))
    {
      if gate == Rejecting {
        gate := NoPromise;
      }
    }
  }

  // ---- what every step keeps ----------------------------------------------------------

  /** The state is `Failed` exactly from the fourth failure in a row, `Backoff` exactly for
      one to three, and the gate never has two mints at once. */
  predicate Valid(s: State)
  {
    && (s.mintState == Failed <==> s.failures >= 4)
    && (s.mintState == Backoff <==> 1 <= s.failures <= 3)
    && s.gateRunning == (if s.gate == InFlight then 1 else 0)
  }

  lemma {:induction false} RunValid(s: State, es: seq<Event>)
    requires Valid(s)
    ensures Valid(Run(s, es))
  {
    if es != [] {
      RunValid(s, es[..|es| - 1]);
    }
  }

  // A gate that was granted once never mints again.
  lemma {:induction false} GrantIsKept(s: State, es: seq<Event>)
    requires Valid(s) && s.gate == Granted
    ensures Run(s, es).gate == Granted && !GateStarts(Run(s, es))
  {
    if es != [] {
      GrantIsKept(s, es[..|es| - 1]);
      RunValid(s, es[..|es| - 1]);
    }
  }

  // ---- the gate's budget --------------------------------------------------------------

  // Gate mints started since the last success on any path.
  function GateStartsSince(s: State, es: seq<Event>): nat
  {
    if es == [] then 0
    else
      var (front, e) := (es[..|es| - 1], es[|es| - 1]);
      var before := Run(s, front);
      if Succeeds(before, e) then 0
      else GateStartsSince(s, front) + if e.GateCall? && GateStarts(before) then 1 else 0
  }

  // The failures so far, and the gate's mint under way, pay for every start.
  function Paid(s: State): nat { s.failures + if s.gate == InFlight then 1 else 0 }

  lemma PaidStep(s: State, e: Event, starts: nat)
    requires Valid(s) && starts <= Paid(s) && starts <= 4
    ensures var after := if Succeeds(s, e) then 0 else starts + if e.GateCall? && GateStarts(s) then 1 else 0;
            after <= Paid(Step(s, e)) && after <= 4
  {
  }

  /** Between two successes the gate starts at most four mints, however calls, completions,
      continuations and the other paths interleave. */
  lemma {:induction false} GateBudget(s: State, es: seq<Event>)
    requires Valid(s) && s.failures == 0 && s.gate == NoPromise
    ensures GateStartsSince(s, es) <= 4
    ensures GateStartsSince(s, es) <= Paid(Run(s, es))
  {
    hide Step, Valid, Succeeds, GateStarts, Paid;
    if es == [] {
      assert Paid(s) >= 0;
    } else {
      GateBudget(s, es[..|es| - 1]);
      RunValid(s, es[..|es| - 1]);
      PaidStep(Run(s, es[..|es| - 1]), es[|es| - 1], GateStartsSince(s, es[..|es| - 1]));
    }
  }

  /** A gate mint that fails leaves the gate open again once its continuation has run; one that
      succeeds leaves it granted.  Only the gate's own mints touch the gate. */
  lemma GateReopens(s: State, granted: bool)
    requires Valid(s) && s.gate == InFlight
    ensures Step(Step(s, GateOutcome(granted)), GateSettles).gate == if granted then Granted else NoPromise
    ensures forall e: Event :: !e.GateOutcome? ==> Step(s, e).gate == InFlight
  {
  }

  // ---- backoff ------------------------------------------------------------------------

  // When the latest failure was reported, if any since the last success.
  function LastFailure(s: State, es: seq<Event>): Option<int>
  {
    if es == [] then None
    else
      var (front, e) := (es[..|es| - 1], es[|es| - 1]);
      var before := Run(s, front);
      if Succeeds(before, e) then None
      else if Fails(before, e) then Some(before.now)
      else LastFailure(s, front)
  }

  lemma {:induction false} BackoffRecorded(s: State, es: seq<Event>)
    requires Valid(s) && s.failures == 0
    ensures var t := Run(s, es);
            && (t.failures > 0 <==> LastFailure(s, es).Some?)
            && (t.mintState == Backoff ==>
                  LastFailure(s, es).Some? && t.nextAuto == LastFailure(s, es).value + BackoffMs(t.failures))
  {
    if es != [] {
      BackoffRecorded(s, es[..|es| - 1]);
      RunValid(s, es[..|es| - 1]);
    }
  }

  lemma {:induction false} NoBackoffWithoutFailure(s: State, es: seq<Event>)
    requires Valid(s) && s.failures == 0 && s.nextAuto == 0
    ensures Run(s, es).failures == 0 ==> Run(s, es).nextAuto == 0
  {
    if es != [] {
      NoBackoffWithoutFailure(s, es[..|es| - 1]);
      RunValid(s, es[..|es| - 1]);
    }
  }

  // The budget is not spent, and the wait after the latest failure is over: 2, 8 and 30 s
  // after the first, second and third in a row.
  predicate Ready(failures: nat, last: Option<int>, now: int)
  {
    && failures < 4
    && (last.Some? && failures == 1 ==> last.value + 2_000 <= now)
    && (last.Some? && failures == 2 ==> last.value + 8_000 <= now)
    && (last.Some? && failures == 3 ==> last.value + 30_000 <= now)
  }

  /** Neither automatic path starts a mint once failures have reached four, nor before the
      backoff set by the latest failure has passed. */
  lemma NoEarlyAutomaticMint(s: State, es: seq<Event>)
    requires Valid(s) && s.failures == 0
    requires GateStarts(Run(s, es)) || AutoStarts(Run(s, es))
    ensures Ready(Run(s, es).failures, LastFailure(s, es), Run(s, es).now)
  {
    RunValid(s, es);
    BackoffRecorded(s, es);
  }

  function Waited(es: seq<Event>): nat
  {
    if es == [] then 0
    else Waited(es[..|es| - 1]) + match es[|es| - 1] case Wait(ms) => ms case _ => 0
  }

  // Time passes by waiting and by nothing else.
  lemma {:induction false} ClockIs(s: State, es: seq<Event>)
    ensures Run(s, es).now == s.now + Waited(es)
  {
    if es != [] {
      ClockIs(s, es[..|es| - 1]);
    }
  }

  /** Nothing else holds a mint back: after any run of a fresh page, a request reaching the
      gate starts one exactly when none is granted or under way, the page holds no minted
      session and the backoff is over; a refused request exactly when the backoff is over and
      the last re-mint is at least 30 s old. */
  lemma AutomaticMintIff(now: int, es: seq<Event>)
    requires now >= 0
    ensures var (t, last) := (Run(Boot(now), es), LastFailure(Boot(now), es));
            && (GateStarts(t) <==> t.gate == NoPromise && t.mintState != Minted && Ready(t.failures, last, t.now))
            && (AutoStarts(t) <==> Ready(t.failures, last, t.now) && t.lastAuto + 30_000 <= t.now)
  {
    RunValid(Boot(now), es);
    BackoffRecorded(Boot(now), es);
    NoBackoffWithoutFailure(Boot(now), es);
    ClockIs(Boot(now), es);
  }

  // ---- the re-mint cooldown -----------------------------------------------------------

  // When the automatic path started its mints.
  function AutoTimes(s: State, es: seq<Event>): seq<int>
  {
    if es == [] then []
    else
      var (front, e) := (es[..|es| - 1], es[|es| - 1]);
      AutoTimes(s, front) + if e.AutoCall? && AutoStarts(Run(s, front)) then [Run(s, front).now] else []
  }

  /** Automatic re-mints start at least 30 s apart. */
  lemma {:induction false} AutoSpacing(s: State, es: seq<Event>)
    ensures forall i, j :: 0 <= i < j < |AutoTimes(s, es)| ==> AutoTimes(s, es)[i] + 30_000 <= AutoTimes(s, es)[j]
    ensures forall i :: 0 <= i < |AutoTimes(s, es)| ==> AutoTimes(s, es)[i] <= Run(s, es).lastAuto
  {
    if es != [] {
      AutoSpacing(s, es[..|es| - 1]);
      LastAutoGrows(Run(s, es[..|es| - 1]), es[|es| - 1]);
    }
  }

  lemma LastAutoGrows(s: State, e: Event)
    ensures Step(s, e).lastAuto == if e.AutoCall? && AutoStarts(s) then s.now else s.lastAuto
  {
  }
}
