/** Background config sync: one run per team at a time, triggers during a run coalesced into
    one trailing run, bounded retry inside a run. */
module GitopsSync {
  type Team = string

  // The two per-team maps, and the runs that are really in progress.
  datatype State = State(inFlight: map<Team, bool>, pending: map<Team, bool>, running: multiset<Team>)

  const IDLE: State := State(map[], map[], multiset{})

  // `Map.get(team)` used as a condition: a missing entry is false.
  predicate Flag(m: map<Team, bool>, team: Team) { team in m && m[team] }

  datatype Event =
    | Trigger(team: Team)
    | Finish(team: Team)   // a run of the team ends, whether it succeeded or threw

  function Triggered(s: State, team: Team): State
  {
    if Flag(s.inFlight, team) then s.(pending := s.pending[team := true])
    else s.(inFlight := s.inFlight[team := true], running := s.running + multiset{team})
  }

  // Only a run in progress can end; the settled run looks at nothing but its own team.
  function Finished(s: State, team: Team): State
  {
    if team !in s.running then s
    else
      var t := s.(inFlight := s.inFlight - {team}, running := s.running - multiset{team});
      if Flag(t.pending, team) then Triggered(t.(pending := t.pending - {team}), team) else t
  }

  function Step(s: State, e: Event): State
  {
    match e
    case Trigger(team) => Triggered(s, team)
    case Finish(team) => Finished(s, team)
  }

  function Run(es: seq<Event>): State
  {
    if es == [] then IDLE else Step(Run(es[..|es| - 1]), es[|es| - 1])
  }

  // Whether the event starts a run of `team`.
  predicate Starts(s: State, e: Event, team: Team)
  {
    && e.team == team
    && match e
       case Trigger(_) => !Flag(s.inFlight, team)
       case Finish(_) => team in s.running && Flag(s.pending, team)
  }

  // ---- the scheduler in place ---------------------------------------------------------

  class Scheduler {
    var inFlight: map<Team, bool>
    var pending: map<Team, bool>
    ghost var running: multiset<Team>

    ghost function Abstract(): State
      reads this
    {
      State(inFlight, pending, running)
    }

    constructor ()
      ensures Abstract() == IDLE
    {
      inFlight, pending, running := map[], map[], multiset{};
    }

    method TriggerSync(team: Team)
      modifies this
      ensures Abstract() == Triggered(old(Abstract()), team)
    {
      if Flag(inFlight, team) {
        pending := pending[team := true];
        return;
      }
      inFlight := inFlight[team := true];
      running := running + multiset{team};
    }

    // The `finally` block of a run.
    method RunEnded(team: Team)
      requires team in running
      modifies this
      ensures Abstract() == Finished(old(Abstract()), team)
    {
      running := running - multiset{team};
      inFlight := inFlight - {team};
      if Flag(pending, team) {
        pending := pending - {team};
        TriggerSync(team);
      }
    }
  }

  // ---- one team at a time -------------------------------------------------------------

  // What one team can see of the state.
  datatype Slot = Slot(inFlight: bool, pending: bool, runs: nat)

  function SlotOf(s: State, team: Team): Slot
  {
    Slot(Flag(s.inFlight, team), Flag(s.pending, team), s.running[team])
  }

  lemma ForeignEvent(s: State, e: Event, team: Team)
    requires e.team != team
    ensures SlotOf(Step(s, e), team) == SlotOf(s, team) && !Starts(s, e, team)
  {
  }

  // The in-flight flag tells the truth, so no team ever has two runs, and a pending flag
  // never outlives its run.
  predicate ValidSlot(slot: Slot)
  {
    slot.runs == (if slot.inFlight then 1 else 0) && (slot.pending ==> slot.inFlight)
  }

  ghost predicate Valid(s: State) { forall team :: ValidSlot(SlotOf(s, team)) }

  lemma OwnEventValid(s: State, e: Event)
    requires ValidSlot(SlotOf(s, e.team))
    ensures ValidSlot(SlotOf(Step(s, e), e.team))
  {
  }

  lemma StepValid(s: State, e: Event)
    requires Valid(s)
    ensures Valid(Step(s, e))
  {
    hide Step, SlotOf;
    forall team ensures ValidSlot(SlotOf(Step(s, e), team)) {
      assert ValidSlot(SlotOf(s, team));
      if e.team == team {
        OwnEventValid(s, e);
      } else {
        ForeignEvent(s, e, team);
      }
    }
  }

  /** After any interleaving of triggers and completions over any number of teams, no team
      has two runs at once. */
  lemma {:induction false} RunValid(es: seq<Event>)
    ensures Valid(Run(es))
  {
    if es != [] {
      RunValid(es[..|es| - 1]);
      StepValid(Run(es[..|es| - 1]), es[|es| - 1]);
    }
  }

  // ---- no trigger is lost -------------------------------------------------------------

  // A run of `team` started at event number j.
  predicate StartedAt(es: seq<Event>, team: Team, j: nat)
  {
    j < |es| && Starts(Run(es[..j]), es[j], team)
  }

  ghost predicate Covered(es: seq<Event>, i: nat, team: Team)
  {
    || (exists j: nat :: i <= j && StartedAt(es, team, j))
    || (Flag(Run(es).inFlight, team) && Flag(Run(es).pending, team))
  }

  lemma StartedPrefix(es: seq<Event>, n: nat, team: Team, j: nat)
    requires n <= |es| && StartedAt(es[..n], team, j)
    ensures StartedAt(es, team, j)
  {
    assert es[..n][..j] == es[..j];
  }

  /** Every trigger is covered by a run of its own team that began at or after it, or that
      team has a run in flight with its pending flag up. */
  lemma {:induction false} NoTriggerLost(es: seq<Event>, i: nat)
    requires i < |es| && es[i].Trigger?
    ensures Covered(es, i, es[i].team)
  {
    hide Step;
    var n, team := |es| - 1, es[i].team;
    var before := Run(es[..n]);
    RunValid(es[..n]);
    assert ValidSlot(SlotOf(before, team));
    if i == n {
      if Flag(before.inFlight, team) {
        OtherEvent(before, es[n], team);
      } else {
        assert StartedAt(es, team, n);
      }
    } else {
      NoTriggerLost(es[..n], i);
      if j: nat :| i <= j && StartedAt(es[..n], team, j) {
        StartedPrefix(es, n, team, j);
      } else if es[n] == Finish(team) {
        assert StartedAt(es, team, n);
      } else {
        OtherEvent(before, es[n], team);
      }
    }
  }

  // So an idle team has synced everything it was asked to.
  lemma IdleMeansSynced(es: seq<Event>, i: nat)
    requires i < |es| && es[i].Trigger? && !Flag(Run(es).inFlight, es[i].team)
    ensures exists j: nat :: i <= j && StartedAt(es, es[i].team, j)
  {
    NoTriggerLost(es, i);
  }

  // ---- coalescing ---------------------------------------------------------------------

  function CountStarts(s: State, es: seq<Event>, team: Team): nat
    decreases |es|
  {
    if es == [] then 0
    else (if Starts(s, es[0], team) then 1 else 0) + CountStarts(Step(s, es[0]), es[1..], team)
  }

  function CountTriggers(es: seq<Event>, team: Team): nat
  {
    if es == [] then 0 else (if es[0] == Trigger(team) then 1 else 0) + CountTriggers(es[1..], team)
  }

  lemma {:induction false} DuringRun(s: State, es: seq<Event>, team: Team)
    requires Flag(s.inFlight, team) && Finish(team) !in es
    ensures CountStarts(s, es + [Finish(team)], team)
         == if team in s.running && (Flag(s.pending, team) || CountTriggers(es, team) > 0) then 1 else 0
    decreases |es|
  {
    if es == [] {
      assert ([] + [Finish(team)])[1..] == [];
      assert CountStarts(Step(s, Finish(team)), [], team) == 0;
    } else {
      assert (es + [Finish(team)])[1..] == es[1..] + [Finish(team)];
      assert Finish(team) !in es[1..];
      OtherEvent(s, es[0], team);
      DuringRun(Step(s, es[0]), es[1..], team);
    }
  }

  // While a team's run is in flight, nothing but its own end moves it.
  lemma OtherEvent(s: State, e: Event, team: Team)
    requires Flag(s.inFlight, team) && e != Finish(team)
    ensures var t := Step(s, e);
            && Flag(t.inFlight, team) && (team in t.running <==> team in s.running) && !Starts(s, e, team)
            && (Flag(t.pending, team) <==> Flag(s.pending, team) || e == Trigger(team))
  {
  }

  /** Any number of triggers during a run cause exactly one further run, and none causes
      none, whatever the other teams do meanwhile. */
  lemma ExactlyOneFurtherRun(s: State, es: seq<Event>, team: Team)
    requires Valid(s) && Flag(s.inFlight, team) && !Flag(s.pending, team) && Finish(team) !in es
    ensures CountStarts(s, es + [Finish(team)], team) == if CountTriggers(es, team) > 0 then 1 else 0
  {
    DuringRun(s, es, team);
    assert ValidSlot(SlotOf(s, team));
  }

  // Runs never outnumber triggers: a pending flag is a trigger not yet spent.
  lemma {:induction false} StartsBounded(s: State, es: seq<Event>, team: Team)
    ensures CountStarts(s, es, team) <= CountTriggers(es, team) + if Flag(s.pending, team) then 1 else 0
    decreases |es|
  {
    if es != [] {
      StartsBounded(Step(s, es[0]), es[1..], team);
    }
  }

  // ---- teams do not interfere ---------------------------------------------------------

  function OnlyTeam(es: seq<Event>, team: Team): seq<Event>
  {
    if es == [] then []
    else
      var (rest, e) := (OnlyTeam(es[..|es| - 1], team), es[|es| - 1]);
      if e.team == team then rest + [e] else rest
  }

  lemma OwnEvent(s: State, t: State, e: Event)
    requires SlotOf(s, e.team) == SlotOf(t, e.team)
    ensures SlotOf(Step(s, e), e.team) == SlotOf(Step(t, e), e.team)
    ensures Starts(s, e, e.team) == Starts(t, e, e.team)
  {
  }

  /** A team's part of the state is exactly what it would be if no other team had existed. */
  lemma {:induction false} TeamsIndependent(es: seq<Event>, team: Team)
    ensures SlotOf(Run(es), team) == SlotOf(Run(OnlyTeam(es, team)), team)
  {
    if es != [] {
      var (front, e) := (es[..|es| - 1], es[|es| - 1]);
      TeamsIndependent(front, team);
      if e.team == team {
        var only := OnlyTeam(front, team);
        assert (only + [e])[..|only|] == only;
        OwnEvent(Run(front), Run(only), e);
      } else {
        ForeignEvent(Run(front), e, team);
      }
    }
  }

  // ---- the retry loop -----------------------------------------------------------------

  datatype Answer =
    | NetworkError
    | Reply(status: int, ok: bool, noChange: bool, skipped: bool)

  datatype Outcome = Pushed | Unchanged | NotConfigured | Failed

  // Network errors and unexplained 5xx answers are worth another request.
  predicate Retryable(a: Answer)
  {
    a.NetworkError? || (!a.ok && !a.noChange && !a.skipped && 500 <= a.status < 600)
  }

  // The status an answer deserves: an accepted push counts first, then "nothing to push",
  // then "no repository configured"; everything else is a failure.
  ghost predicate Deserves(a: Answer, o: Outcome)
  {
    match o
    case Pushed => a.Reply? && a.ok
    case Unchanged => a.Reply? && !a.ok && a.noChange
    case NotConfigured => a.Reply? && !a.ok && !a.noChange && a.skipped
    case Failed => a.NetworkError? || (!a.ok && !a.noChange && !a.skipped)
  }

  // How many requests a run makes of an endpoint that would answer a(0), a(1), ...
  function Requests(a: nat -> Answer, attempt: nat): nat
    requires attempt <= 3
    decreases 3 - attempt
  {
    if Retryable(a(attempt)) && attempt < 3 then Requests(a, attempt + 1) else attempt + 1
  }

  /** One run: it ends after at most four requests, asks again only after a network error or
      a 5xx answer, waits 2, 4 and 8 seconds in between, and records exactly one status -
      that of the last answer. */
  method RunSync(a: nat -> Answer) returns (requests: nat, waits: seq<int>, recorded: seq<Outcome>)
    ensures 1 <= requests <= 4 && requests == Requests(a, 0)
    ensures forall i: nat :: i < requests - 1 ==> Retryable(a(i))
    ensures requests < 4 ==> !Retryable(a(requests - 1))
    ensures waits == [2000, 4000, 8000][..requests - 1]
    ensures |recorded| == 1 && Deserves(a(requests - 1), recorded[0])
  {
    var delays := [2000, 4000, 8000];
    waits := [];
    recorded := [];
    requests := 0;
    var attempt := 0;
    while true
      invariant 0 <= attempt <= 3 && requests == attempt
      invariant forall i: nat :: i < attempt ==> Retryable(a(i))
      invariant waits == delays[..attempt] && recorded == []
      invariant Requests(a, attempt) == Requests(a, 0)
      decreases 3 - attempt
    {
      requests := requests + 1;
      var answer := a(attempt);
      match answer {
        case NetworkError =>
          if attempt < 3 {
            waits := waits + [delays[attempt]];
            attempt := attempt + 1;
            continue;
          }
          recorded := recorded + [Failed];
          return;
        case Reply(status, ok, noChange, skipped) =>
          if ok {
            recorded := recorded + [Pushed];
            return;
          }
          if noChange {
            recorded := recorded + [Unchanged];
            return;
          }
          if skipped {
            recorded := recorded + [NotConfigured];
            return;
          }
          var retryable := status >= 500 && status < 600;
          if retryable && attempt < 3 {
            waits := waits + [delays[attempt]];
            attempt := attempt + 1;
            continue;
          }
          recorded := recorded + [Failed];
          return;
      }
    }
  }

  lemma {:induction false} RequestsBounded(a: nat -> Answer, attempt: nat)
    requires attempt <= 3
    ensures attempt < Requests(a, attempt) <= 4
    decreases 3 - attempt
  {
    if attempt < 3 {
      RequestsBounded(a, attempt + 1);
    }
  }

  function TotalRequests(runs: seq<nat -> Answer>): nat
  {
    if runs == [] then 0 else Requests(runs[0], 0) + TotalRequests(runs[1..])
  }

  lemma {:induction false} TotalBounded(runs: seq<nat -> Answer>)
    ensures TotalRequests(runs) <= 4 * |runs|
  {
    if runs != [] {
      RequestsBounded(runs[0], 0);
      TotalBounded(runs[1..]);
    }
  }

  /** However the endpoint answers each of its runs, a team that was triggered n times makes
      at most 4n requests. */
  lemma RequestsPerTrigger(es: seq<Event>, team: Team, runs: seq<nat -> Answer>)
    requires |runs| == CountStarts(IDLE, es, team)
    ensures TotalRequests(runs) <= 4 * CountTriggers(es, team)
  {
    StartsBounded(IDLE, es, team);
    TotalBounded(runs);
  }
}
