/** The tenant-keyed GET cache with in-flight sharing, and the pollers that read through it. */
module ApiCache {
  import opened Options

  type Team = string
  type Path = string
  type Ttl = Path -> int

  // An answer, tagged with the request that fetched it, its team header and its path.
  datatype Value = Value(req: nat, team: Team, path: Path, body: int)

  datatype Entry = Pending(req: nat) | Settled(at: int, value: Value)

  function Key(team: Team, path: Path): string { team + "|" + path }

  // ---- when keys tell teams apart -----------------------------------------------------

  // `t` plus the separator begins `u`, so a path of `t` can spell out a key of `u`.
  predicate Shadows(t: Team, u: Team) { t + "|" <= u }

  /** Two teams can collide on some cache key exactly when one of them, followed by the
      separator, is a prefix of the other. */
  lemma CollisionIff(t: Team, u: Team)
    requires t != u
    ensures (exists p: Path, q: Path :: Key(t, p) == Key(u, q)) <==> Shadows(t, u) || Shadows(u, t)
  {
    if p: Path, q: Path :| Key(t, p) == Key(u, q) {
      CollisionShadows(t, p, u, q);
    }
    if Shadows(t, u) {
      ShadowCollides(t, u);
    }
    if Shadows(u, t) {
      ShadowCollides(u, t);
    }
  }

  lemma CollisionShadows(t: Team, p: Path, u: Team, q: Path)
    requires Key(t, p) == Key(u, q)
    ensures (t == u && p == q) || Shadows(t, u) || Shadows(u, t)
  {
    var k := Key(t, p);
    assert k[..|t|] == t && k[..|u|] == u && k[|t|] == '|' && k[|u|] == '|';
    assert k[|t| + 1..] == p && k[|u| + 1..] == q;
    if |t| < |u| {
      assert t + "|" == k[..|t| + 1] == u[..|t| + 1];
    } else if |u| < |t| {
      assert u + "|" == k[..|u| + 1] == t[..|u| + 1];
    }
  }

  lemma ShadowCollides(t: Team, u: Team)
    requires Shadows(t, u)
    ensures exists p: Path, q: Path :: Key(t, p) == Key(u, q)
  {
    ShadowKey(t, u);
  }

  // A set of teams no two of which can collide; team names without the separator are one.
  ghost predicate Separable(teams: set<Team>)
  {
    forall t, u :: t in teams && u in teams ==> !Shadows(t, u)
  }

  lemma BarFreeSeparable(teams: set<Team>)
    requires forall t :: t in teams ==> '|' !in t
    ensures Separable(teams)
  {
    forall t, u | t in teams && u in teams ensures !Shadows(t, u) {
      if |t| < |u| {
        assert u[|t|] in u && (t + "|")[|t|] == '|';
      }
    }
  }

  lemma KeyInjective(teams: set<Team>, t: Team, p: Path, u: Team, q: Path)
    requires Separable(teams) && t in teams && u in teams && Key(t, p) == Key(u, q)
    ensures t == u && p == q
  {
    CollisionShadows(t, p, u, q);
  }

  // ---- the cache in place -------------------------------------------------------------

  datatype Answer = Share(req: nat) | Serve(value: Value) | Send

  // The outcome of one `apiGet`, given the cache it finds.
  function Decide(cache: map<string, Entry>, team: Team, path: Path, wantFresh: bool, now: int, ttl: Ttl): Answer
  {
    var key := Key(team, path);
    if key in cache && cache[key].Pending? then Share(cache[key].req)
    else if !wantFresh && key in cache && now - cache[key].at < ttl(path) then Serve(cache[key].value)
    else Send
  }

  class GetCache {
    var entries: map<string, Entry>

    constructor ()
      ensures entries == map[]
    {
      entries := map[];
    }

    // `req` names the request that is sent if one is needed.
    method ApiGet(team: Team, path: Path, wantFresh: bool, now: int, ttl: Ttl, req: nat) returns (answer: Answer)
      modifies this
      ensures answer == Decide(old(entries), team, path, wantFresh, now, ttl)
      ensures entries == if answer.Send? then old(entries)[Key(team, path) := Pending(req)] else old(entries)
    {
      var key := team + "|" + path;
      if key in entries {
        match entries[key] {
          case Pending(shared) => return Share(shared);
          case Settled(at, value) =>
            if !wantFresh && now - at < ttl(path) {
              return Serve(value);
            }
        }
      }
      entries := entries[key := Pending(req)];
      return Send;
    }

    method Store(key: string, value: Value, now: int)
      modifies this
      ensures entries == old(entries)[key := Settled(now, value)]
    {
      entries := entries[key := Settled(now, value)];
    }

    method Forget(key: string)
      modifies this
      ensures entries == old(entries) - {key}
    {
      entries := entries - {key};
    }

    method Invalidate()
      modifies this
      ensures entries == map[]
    {
      entries := map[];
    }
  }

  // ---- the whole client as a machine --------------------------------------------------

  // A request on the wire: the cache key it was stored under, its team header and its path.
  datatype Request = Request(key: string, team: Team, path: Path)

  // A caller of `apiGet`, waiting for a request or holding its answer; `poll` is the poller
  // it belongs to, if any.
  datatype Call = Call(team: Team, path: Path, poll: Option<nat>, got: Got)

  datatype Got = Waiting(req: nat) | Ready(value: Value)

  datatype Poll = Poll(path: Path, data: Option<Value>)

  // `moved` remembers that the selected team changed and the change was not yet broadcast.
  datatype State = State(
    now: int,
    team: Team,
    moved: bool,
    cache: map<string, Entry>,
    sent: map<nat, Request>,
    calls: map<nat, Call>,
    polls: map<nat, Poll>,
    nextReq: nat,
    nextCall: nat)

  datatype Event =
    | Wait(ms: nat)
    | SelectTeam(team: Team)
    | Broadcast                                  // "hive-team-changed"
    | Invalidate                                 // after any mutation
    | Get(path: Path, wantFresh: bool)
    | Watch(poll: nat, path: Path)               // a poller mounts, or its path changes
    | Load(poll: nat, wantFresh: bool)
    | Reply(req: nat, body: int)
    | Refuse(req: nat)                           // the request fails or is not ok
    | Deliver(call: nat)                         // the awaiting caller resumes

  // The state once a new request is on the wire, before its caller is queued.
  function Dispatch(s: State, path: Path): State
  {
    var key := Key(s.team, path);
    s.(cache := s.cache[key := Pending(s.nextReq)],
       sent := s.sent[s.nextReq := Request(key, s.team, path)],
       nextReq := s.nextReq + 1)
  }

  function Issue(s: State, path: Path, wantFresh: bool, poll: Option<nat>, ttl: Ttl): State
  {
    match Decide(s.cache, s.team, path, wantFresh, s.now, ttl)
    case Share(req) => Queue(s, Call(s.team, path, poll, Waiting(req)))
    case Serve(value) => Queue(s, Call(s.team, path, poll, Ready(value)))
    case Send => Queue(Dispatch(s, path), Call(s.team, path, poll, Waiting(s.nextReq)))
  }

  function Queue(s: State, call: Call): State
  {
    s.(calls := s.calls[s.nextCall := call], nextCall := s.nextCall + 1)
  }

  // Everyone who waits for `req` gets the value.
  function Resolve(calls: map<nat, Call>, req: nat, value: Value): map<nat, Call>
  {
    map c | c in calls :: if calls[c].got == Waiting(req) then calls[c].(got := Ready(value)) else calls[c]
  }

  function Reject(calls: map<nat, Call>, req: nat): map<nat, Call>
  {
    map c | c in calls && calls[c].got != Waiting(req) :: calls[c]
  }

  function Cleared(polls: map<nat, Poll>): map<nat, Poll>
  {
    map p | p in polls :: polls[p].(data := None)
  }

  function Step(s: State, e: Event, ttl: Ttl): State
  {
    match e
    case Wait(ms) => s.(now := s.now + ms)
    case SelectTeam(team) => s.(team := team, moved := s.moved || team != s.team)
    case Broadcast => s.(moved := false, cache := map[], polls := Cleared(s.polls))
    case Invalidate => s.(cache := map[])
    case Get(path, wantFresh) => Issue(s, path, wantFresh, None, ttl)
    case Watch(poll, path) =>
      s.(polls := s.polls[poll := Poll(path, if poll in s.polls then s.polls[poll].data else None)])
    case Load(poll, wantFresh) =>
      if poll !in s.polls || s.team == "__pending__" then s
      else Issue(s, s.polls[poll].path, wantFresh, Some(poll), ttl)
    case Reply(req, body) =>
      if req !in s.sent then s
      else
        var r := s.sent[req];
        var value := Value(req, r.team, r.path, body);
        s.(sent := s.sent - {req}, cache := s.cache[r.key := Settled(s.now, value)],
           calls := Resolve(s.calls, req, value))
    case Refuse(req) =>
      if req !in s.sent then s
      else s.(sent := s.sent - {req}, cache := s.cache - {s.sent[req].key}, calls := Reject(s.calls, req))
    case Deliver(call) =>
      if call !in s.calls || s.calls[call].got.Waiting? then s
      else
        var c := s.calls[call];
        var t := s.(calls := s.calls - {call});
        if c.poll.Some? && c.poll.value in s.polls && s.team == c.team then
          t.(polls := t.polls[c.poll.value := s.polls[c.poll.value].(data := Some(c.got.value))])
        else t
  }

  function Run(s: State, es: seq<Event>, ttl: Ttl): State
  {
    if es == [] then s else Step(Run(s, es[..|es| - 1], ttl), es[|es| - 1], ttl)
  }

  function Waited(es: seq<Event>): nat
  {
    if es == [] then 0
    else Waited(es[..|es| - 1]) + match es[|es| - 1] case Wait(ms) => ms case _ => 0
  }

  // Time passes by waiting and by nothing else.
  lemma {:induction false} ClockIs(s: State, es: seq<Event>, ttl: Ttl)
    ensures Run(s, es, ttl).now == s.now + Waited(es)
  {
    hide Step;
    if es != [] {
      ClockIs(s, es[..|es| - 1], ttl);
      StepClock(Run(s, es[..|es| - 1], ttl), es[|es| - 1], ttl);
    }
  }

  lemma StepClock(s: State, e: Event, ttl: Ttl)
    ensures Step(s, e, ttl).now == s.now + match e case Wait(ms) => ms case _ => 0
  {
    hide Issue, Resolve, Reject, Cleared;
    match e {
      case Get(path, wantFresh) => IssueClock(s, path, wantFresh, None, ttl);
      case Load(poll, wantFresh) =>
        if poll in s.polls {
          IssueClock(s, s.polls[poll].path, wantFresh, Some(poll), ttl);
        }
      case _ =>
    }
  }

  lemma IssueClock(s: State, path: Path, wantFresh: bool, poll: Option<nat>, ttl: Ttl)
    ensures Issue(s, path, wantFresh, poll, ttl).now == s.now
  {
  }

  function Boot(now: int, team: Team): State
  {
    State(now, team, false, map[], map[], map[], map[], 0, 0)
  }

  // ---- what each step delivers --------------------------------------------------------

  /** An answer reaches everyone who waits for its request, and nobody else, and is kept under
      the request's key as of now. */
  lemma ReplyReaches(s: State, req: nat, body: int, ttl: Ttl)
    requires req in s.sent
    ensures var (t, r) := (Step(s, Reply(req, body), ttl), s.sent[req]);
            var value := Value(req, r.team, r.path, body);
            && t.calls.Keys == s.calls.Keys && t.sent == s.sent - {req}
            && t.cache == s.cache[r.key := Settled(s.now, value)]
            && (forall c :: c in s.calls && s.calls[c].got == Waiting(req) ==>
                  t.calls[c] == s.calls[c].(got := Ready(value)))
            && (forall c :: c in s.calls && s.calls[c].got != Waiting(req) ==> t.calls[c] == s.calls[c])
  {
    hide Issue;
  }

  /** A failure reaches everyone who waits for its request, and nobody else, and the key is
      free to be asked for again. */
  lemma RefuseReaches(s: State, req: nat, ttl: Ttl)
    requires req in s.sent
    ensures var t := Step(s, Refuse(req), ttl);
            && t.sent == s.sent - {req} && t.cache == s.cache - {s.sent[req].key}
            && (forall c :: c in t.calls <==> c in s.calls && s.calls[c].got != Waiting(req))
            && (forall c :: c in t.calls ==> t.calls[c] == s.calls[c])
  {
    hide Issue;
  }

  /** A poller's caller that resumes with an answer shows it, unless the team has changed since
      it asked, and leaves every other poller alone. */
  lemma DeliverShows(s: State, c: nat, ttl: Ttl, p: nat)
    requires c in s.calls && s.calls[c].got.Ready? && s.calls[c].poll == Some(p) && p in s.polls
    ensures var t := Step(s, Deliver(c), ttl);
            && t.calls == s.calls - {c}
            && t.polls == if s.team == s.calls[c].team
                          then s.polls[p := Poll(s.polls[p].path, Some(s.calls[c].got.value))]
                          else s.polls
  {
    hide Issue;
  }

  /** A poller asks for its own path in the selected team's name, except while no team is
      selected yet: then it asks for nothing. */
  lemma LoadAsks(s: State, p: nat, wantFresh: bool, ttl: Ttl)
    requires p in s.polls
    ensures var t := Step(s, Load(p, wantFresh), ttl);
            if s.team == "__pending__" then t == s
            else
              && t.calls.Keys == s.calls.Keys + {s.nextCall} && t.nextCall == s.nextCall + 1
              && var call := t.calls[s.nextCall];
                 call.team == s.team && call.path == s.polls[p].path && call.poll == Some(p)
  {
    hide Key;
    match Decide(s.cache, s.team, s.polls[p].path, wantFresh, s.now, ttl) {
      case Share(_) =>
      case Serve(_) =>
      case Send =>
    }
  }

  // A write, or the broadcast of a team change, empties the cache and recalls no request.
  lemma ClearingEmpties(s: State, e: Event, ttl: Ttl)
    requires e.Invalidate? || e.Broadcast?
    ensures var t := Step(s, e, ttl);
            t.cache == map[] && t.sent == s.sent && t.calls == s.calls && t.nextReq == s.nextReq
  {
    hide Issue;
  }

  /** Pollers keep what they show when their path changes and after a write; the broadcast of a
      team change takes it away, and nothing else does. */
  lemma PollsKeep(s: State, e: Event, ttl: Ttl, p: nat)
    requires p in s.polls && !e.Deliver?
    ensures var t := Step(s, e, ttl);
            && p in t.polls
            && t.polls[p].data == (if e.Broadcast? then None else s.polls[p].data)
            && t.polls[p].path == if e.Watch? && e.poll == p then e.path else s.polls[p].path
  {
    match e {
      case Get(path, wantFresh) => IssueKeepsPolls(s, path, wantFresh, None, ttl);
      case Load(poll, wantFresh) =>
        if poll in s.polls {
          IssueKeepsPolls(s, s.polls[poll].path, wantFresh, Some(poll), ttl);
        }
      case _ =>
    }
  }

  // ---- every value came from the caller's own team and path ---------------------------

  predicate Own(value: Value, team: Team, path: Path) { value.team == team && value.path == path }

  ghost predicate CacheValid(s: State, teams: set<Team>)
  {
    forall k :: k in s.cache ==>
      match s.cache[k]
      case Pending(r) => r in s.sent && s.sent[r].key == k
      case Settled(_, v) => v.team in teams && k == Key(v.team, v.path)
  }

  ghost predicate SentValid(s: State, teams: set<Team>)
  {
    forall r :: r in s.sent ==>
      r < s.nextReq && s.sent[r].team in teams && s.sent[r].key == Key(s.sent[r].team, s.sent[r].path)
  }

  ghost predicate CallsValid(s: State, teams: set<Team>)
  {
    forall c :: c in s.calls ==>
      && c < s.nextCall && s.calls[c].team in teams
      && match s.calls[c].got
         case Waiting(r) => r in s.sent && s.sent[r].team == s.calls[c].team && s.sent[r].path == s.calls[c].path
         case Ready(v) => Own(v, s.calls[c].team, s.calls[c].path)
  }

  // Between a broadcast and the next team change, everything on screen is the current team's.
  ghost predicate PollsValid(s: State)
  {
    forall p :: p in s.polls && s.polls[p].data.Some? && !s.moved ==> s.polls[p].data.value.team == s.team
  }

  ghost predicate Valid(s: State, teams: set<Team>)
  {
    s.team in teams && CacheValid(s, teams) && SentValid(s, teams) && CallsValid(s, teams) && PollsValid(s)
  }

  lemma QueueValid(s: State, call: Call, teams: set<Team>)
    requires Valid(s, teams) && call.team in teams
    requires match call.got
             case Waiting(r) => r in s.sent && s.sent[r].team == call.team && s.sent[r].path == call.path
             case Ready(v) => Own(v, call.team, call.path)
    ensures Valid(Queue(s, call), teams)
  {
  }

  lemma DispatchValid(s: State, path: Path, teams: set<Team>)
    requires Valid(s, teams)
    ensures Valid(Dispatch(s, path), teams)
  {
  }

  lemma IssueValid(s: State, path: Path, wantFresh: bool, poll: Option<nat>, ttl: Ttl, teams: set<Team>)
    requires Separable(teams) && Valid(s, teams)
    ensures Valid(Issue(s, path, wantFresh, poll, ttl), teams)
  {
    match Decide(s.cache, s.team, path, wantFresh, s.now, ttl) {
      case Share(req) =>
        KeyInjective(teams, s.sent[req].team, s.sent[req].path, s.team, path);
        QueueValid(s, Call(s.team, path, poll, Waiting(req)), teams);
      case Serve(value) =>
        KeyInjective(teams, value.team, value.path, s.team, path);
        QueueValid(s, Call(s.team, path, poll, Ready(value)), teams);
      case Send =>
        DispatchValid(s, path, teams);
        QueueValid(Dispatch(s, path), Call(s.team, path, poll, Waiting(s.nextReq)), teams);
    }
  }

  lemma ReplyValid(s: State, req: nat, body: int, ttl: Ttl, teams: set<Team>)
    requires Valid(s, teams) && req in s.sent
    ensures Valid(Step(s, Reply(req, body), ttl), teams)
  {
  }

  lemma RefuseValid(s: State, req: nat, ttl: Ttl, teams: set<Team>)
    requires Valid(s, teams) && req in s.sent
    ensures Valid(Step(s, Refuse(req), ttl), teams)
  {
  }

  lemma DeliverValid(s: State, call: nat, ttl: Ttl, teams: set<Team>)
    requires Valid(s, teams)
    ensures Valid(Step(s, Deliver(call), ttl), teams)
  {
  }

  lemma StepValid(s: State, e: Event, ttl: Ttl, teams: set<Team>)
    requires Separable(teams) && Valid(s, teams) && (e.SelectTeam? ==> e.team in teams)
    ensures Valid(Step(s, e, ttl), teams)
  {
    match e {
      case Get(path, wantFresh) => IssueValid(s, path, wantFresh, None, ttl, teams);
      case Load(poll, wantFresh) =>
        if poll in s.polls {
          IssueValid(s, s.polls[poll].path, wantFresh, Some(poll), ttl, teams);
        }
      case Reply(req, body) =>
        if req in s.sent {
          ReplyValid(s, req, body, ttl, teams);
        }
      case Refuse(req) =>
        if req in s.sent {
          RefuseValid(s, req, ttl, teams);
        }
      case Deliver(call) => DeliverValid(s, call, ttl, teams);
      case _ =>
    }
  }

  ghost predicate TeamsIn(es: seq<Event>, teams: set<Team>)
  {
    forall i :: 0 <= i < |es| ==> es[i].SelectTeam? ==> es[i].team in teams
  }

  lemma {:induction false} RunValid(now: int, team: Team, es: seq<Event>, ttl: Ttl, teams: set<Team>)
    requires Separable(teams) && team in teams && TeamsIn(es, teams)
    ensures Valid(Run(Boot(now, team), es, ttl), teams)
  {
    if es != [] {
      var front := es[..|es| - 1];
      RunValid(now, team, front, ttl, teams);
      hide Valid, Step;
      StepValid(Run(Boot(now, team), front, ttl), es[|es| - 1], ttl, teams);
    }
  }

  /** In every interleaving of calls, polls, replies, failures, invalidations and team
      switches among separable teams, each value a caller holds came from a request sent
      with the caller's own team header and path, and, whenever the last team change has
      been broadcast, everything the pollers show belongs to the selected team. */
  lemma Provenance(now: int, team: Team, es: seq<Event>, ttl: Ttl, teams: set<Team>)
    requires Separable(teams) && team in teams && TeamsIn(es, teams)
    ensures var s := Run(Boot(now, team), es, ttl);
            && (forall c :: c in s.calls && s.calls[c].got.Ready? ==>
                  Own(s.calls[c].got.value, s.calls[c].team, s.calls[c].path))
            && (forall p :: p in s.polls && s.polls[p].data.Some? && !s.moved ==> s.polls[p].data.value.team == s.team)
  {
    RunValid(now, team, es, ttl, teams);
  }

  // Every caller that holds a value holds one of its own team and path.
  ghost predicate AllOwn(s: State)
  {
    forall c :: c in s.calls && s.calls[c].got.Ready? ==>
      Own(s.calls[c].got.value, s.calls[c].team, s.calls[c].path)
  }

  // A run in which a caller of `t` joins a request of `u`, under a key both can spell.
  function Crossing(t: Team, rest: string): seq<Event>
  {
    [Get("", false), SelectTeam(t), Get(rest + "|", false), Reply(0, 0)]
  }

  lemma RunFour(s: State, e1: Event, e2: Event, e3: Event, e4: Event, ttl: Ttl)
    ensures Run(s, [e1, e2, e3, e4], ttl) == Step(Step(Step(Step(s, e1, ttl), e2, ttl), e3, ttl), e4, ttl)
  {
    hide Step;
    assert [e1, e2, e3, e4][..3] == [e1, e2, e3] && [e1, e2, e3][..2] == [e1, e2];
    assert [e1, e2][..1] == [e1] && [e1][..0] == [];
    assert Run(s, [e1], ttl) == Step(s, e1, ttl);
    assert Run(s, [e1, e2], ttl) == Step(Step(s, e1, ttl), e2, ttl);
    assert Run(s, [e1, e2, e3], ttl) == Step(Step(Step(s, e1, ttl), e2, ttl), e3, ttl);
  }

  // Two calls under one key share one request, whatever the teams and the limits.
  lemma SharedRequest(now: int, t: Team, u: Team, path: Path, ttl: Ttl)
    requires Key(t, path) == Key(u, "")
    ensures var s := Step(Step(Step(Boot(now, u), Get("", false), ttl), SelectTeam(t), ttl), Get(path, false), ttl);
            && s.sent == map[0 := Request(Key(u, ""), u, "")]
            && 1 in s.calls && s.calls[1] == Call(t, path, None, Waiting(0))
  {
    hide Key;
    var s1 := Step(Boot(now, u), Get("", false), ttl);
    assert s1.cache == map[Key(u, "") := Pending(0)] && s1.sent == map[0 := Request(Key(u, ""), u, "")];
    assert s1.nextCall == 1 && s1.team == u;
  }

  // An in-flight request is shared whatever its age, so colliding teams mix for every limit.
  lemma CollidingTeamsMix(now: int, t: Team, u: Team, ttl: Ttl)
    requires Shadows(t, u)
    ensures !AllOwn(Run(Boot(now, u), Crossing(t, u[|t| + 1..]), ttl))
  {
    var rest := u[|t| + 1..];
    assert u == t + "|" + rest && u + "|" + "" == t + "|" + (rest + "|") && t != u;
    hide Run, Step, Key;
    assert Key(t, rest + "|") == Key(u, "") by { ShadowKey(t, u); }
    RunFour(Boot(now, u), Get("", false), SelectTeam(t), Get(rest + "|", false), Reply(0, 0), ttl);
    SharedRequest(now, t, u, rest + "|", ttl);
    var s := Step(Step(Step(Boot(now, u), Get("", false), ttl), SelectTeam(t), ttl), Get(rest + "|", false), ttl);
    ReplyReaches(s, 0, 0, ttl);
  }

  lemma ShadowKey(t: Team, u: Team)
    requires Shadows(t, u)
    ensures Key(t, u[|t| + 1..] + "|") == Key(u, "")
  {
    assert u == t + "|" + u[|t| + 1..];
  }

  /** Callers receive only answers of their own team and path, in every run over a set of
      teams, exactly when no team of the set, followed by the separator, begins another. */
  lemma ProvenanceIff(teams: set<Team>, ttl: Ttl)
    ensures (forall now: int, team: Team, es: seq<Event> ::
               team in teams && TeamsIn(es, teams) ==> AllOwn(Run(Boot(now, team), es, ttl)))
       <==> Separable(teams)
  {
    hide Run, Shadows, AllOwn;
    if Separable(teams) {
      forall now: int, team: Team, es: seq<Event> | team in teams && TeamsIn(es, teams)
        ensures AllOwn(Run(Boot(now, team), es, ttl))
      {
        OwnInRun(now, team, es, ttl, teams);
      }
    } else {
      var t, u :| t in teams && u in teams && Shadows(t, u);
      MixedRun(t, u, teams, ttl);
    }
  }

  lemma OwnInRun(now: int, team: Team, es: seq<Event>, ttl: Ttl, teams: set<Team>)
    requires Separable(teams) && team in teams && TeamsIn(es, teams)
    ensures AllOwn(Run(Boot(now, team), es, ttl))
  {
    Provenance(now, team, es, ttl, teams);
  }

  lemma MixedRun(t: Team, u: Team, teams: set<Team>, ttl: Ttl)
    requires t in teams && u in teams && Shadows(t, u)
    ensures exists es: seq<Event> :: TeamsIn(es, teams) && !AllOwn(Run(Boot(0, u), es, ttl))
  {
    CollidingTeamsMix(0, t, u, ttl);
    assert TeamsIn(Crossing(t, u[|t| + 1..]), teams);
  }

  // ---- served values are young --------------------------------------------------------

  // Event number j brought the answer `v`, to a request sent for `key`, at time `at`.
  ghost predicate ArrivedAt(b: State, es: seq<Event>, ttl: Ttl, key: string, j: nat, at: int, v: Value)
  {
    && j < |es| && es[j] == Reply(v.req, v.body)
    && var s := Run(b, es[..j], ttl);
       s.now == at && v.req in s.sent && s.sent[v.req] == Request(key, v.team, v.path)
  }

  lemma ArrivedPrefix(b: State, es: seq<Event>, ttl: Ttl, n: nat, key: string, j: nat, at: int, v: Value)
    requires n <= |es| && ArrivedAt(b, es[..n], ttl, key, j, at, v)
    ensures ArrivedAt(b, es, ttl, key, j, at, v)
  {
    assert es[..n][..j] == es[..j];
  }

  // A step either leaves a settled entry alone or is the reply that wrote it.
  lemma SettledStep(s: State, e: Event, ttl: Ttl, key: string)
    requires var t := Step(s, e, ttl); key in t.cache && t.cache[key].Settled?
    ensures var entry := Step(s, e, ttl).cache[key];
            || (key in s.cache && s.cache[key] == entry)
            || (&& e == Reply(entry.value.req, entry.value.body) && entry.at == s.now && entry.value.req in s.sent
                && s.sent[entry.value.req] == Request(key, entry.value.team, entry.value.path))
  {
    match e {
      case Get(path, wantFresh) => SettledIssue(s, path, wantFresh, None, ttl, key);
      case Load(poll, wantFresh) =>
        if poll in s.polls && s.team != "__pending__" {
          SettledIssue(s, s.polls[poll].path, wantFresh, Some(poll), ttl, key);
        }
      case _ =>
    }
  }

  lemma SettledIssue(s: State, path: Path, wantFresh: bool, poll: Option<nat>, ttl: Ttl, key: string)
    requires var t := Issue(s, path, wantFresh, poll, ttl); key in t.cache && t.cache[key].Settled?
    ensures key in s.cache && s.cache[key] == Issue(s, path, wantFresh, poll, ttl).cache[key]
  {
  }

  // The time stamp of a settled entry is the moment its answer came in.
  lemma {:induction false} SettledArrived(b: State, es: seq<Event>, ttl: Ttl, key: string) returns (j: nat)
    requires b.cache == map[]
    requires var s := Run(b, es, ttl); key in s.cache && s.cache[key].Settled?
    ensures var entry := Run(b, es, ttl).cache[key]; ArrivedAt(b, es, ttl, key, j, entry.at, entry.value)
  {
    var n := |es| - 1;
    var entry := Run(b, es, ttl).cache[key];
    var before := Run(b, es[..n], ttl);
    SettledStep(before, es[n], ttl, key);
    hide Step;
    if key in before.cache && before.cache[key] == entry {
      j := SettledArrived(b, es[..n], ttl, key);
      ArrivedPrefix(b, es, ttl, n, key, j, entry.at, entry.value);
    } else {
      j := n;
    }
  }

  /** In every interleaving, a caller that is served at once is served an answer to its own
      key that came in less than the path's limit ago, and it did not ask for fresh data. */
  lemma ServedYoung(now: int, team: Team, es: seq<Event>, path: Path, wantFresh: bool, poll: Option<nat>, ttl: Ttl)
    ensures var b := Boot(now, team);
            var s := Run(b, es, ttl);
            var got := Issue(s, path, wantFresh, poll, ttl).calls[s.nextCall].got;
            got.Ready? ==>
              && !wantFresh
              && exists j: nat, at: int ::
                   s.now - at < ttl(path) && ArrivedAt(b, es, ttl, Key(s.team, path), j, at, got.value)
  {
    var b := Boot(now, team);
    var s := Run(b, es, ttl);
    ServedIff(s, path, wantFresh, poll, ttl);
    hide Run, Issue, ArrivedAt, Key;
    if Issue(s, path, wantFresh, poll, ttl).calls[s.nextCall].got.Ready? {
      var j := SettledArrived(b, es, ttl, Key(s.team, path));
    }
  }

  /** A caller is served from the cache exactly when it does not want fresh data and its key
      holds a settled value younger than the path's limit; it shares a request that is
      already on the wire; otherwise, and only then, one new request is sent. */
  lemma ServedIff(s: State, path: Path, wantFresh: bool, poll: Option<nat>, ttl: Ttl)
    ensures var key := Key(s.team, path);
            var t := Issue(s, path, wantFresh, poll, ttl);
            var got := t.calls[s.nextCall].got;
            var young := key in s.cache && s.cache[key].Settled? && s.now - s.cache[key].at < ttl(path);
            var shared := key in s.cache && s.cache[key].Pending?;
            && s.nextCall in t.calls
            && (got.Ready? <==> !wantFresh && young)
            && (got.Ready? ==> got.value == s.cache[key].value && t.sent == s.sent)
            && (shared ==> got == Waiting(s.cache[key].req) && t.sent == s.sent)
            && (!shared && !got.Ready? ==> t.sent == s.sent[s.nextReq := Request(key, s.team, path)])
  {
    hide Key;
    match Decide(s.cache, s.team, path, wantFresh, s.now, ttl) {
      case Share(req) =>
      case Serve(value) =>
      case Send =>
    }
  }

  // A poller's data changes only to a value asked for by the team selected at that moment.
  lemma PollCommits(s: State, e: Event, ttl: Ttl, teams: set<Team>, p: nat)
    requires Valid(s, teams) && p in s.polls && p in Step(s, e, ttl).polls
    requires var d := Step(s, e, ttl).polls[p].data; d.Some? && d != s.polls[p].data
    ensures Step(s, e, ttl).polls[p].data.value.team == s.team
  {
    match e {
      case Get(path, wantFresh) => IssueKeepsPolls(s, path, wantFresh, None, ttl);
      case Load(poll, wantFresh) =>
        if poll in s.polls {
          IssueKeepsPolls(s, s.polls[poll].path, wantFresh, Some(poll), ttl);
        }
      case _ =>
    }
  }

  lemma IssueKeepsPolls(s: State, path: Path, wantFresh: bool, poll: Option<nat>, ttl: Ttl)
    ensures Issue(s, path, wantFresh, poll, ttl).polls == s.polls
  {
  }

  // ---- single flight ------------------------------------------------------------------

  predicate Quiet(es: seq<Event>)
  {
    forall i :: 0 <= i < |es| ==> !es[i].Invalidate? && !es[i].Broadcast?
  }

  // A request for the key on the wire is the one the cache points at.
  ghost predicate Pointed(s: State, key: string)
  {
    && (forall r :: r in s.sent ==> r < s.nextReq)
    && (forall r :: r in s.sent && s.sent[r].key == key ==> key in s.cache && s.cache[key] == Pending(r))
  }

  lemma PointedIssue(s: State, path: Path, wantFresh: bool, poll: Option<nat>, ttl: Ttl, key: string)
    requires Pointed(s, key)
    ensures Pointed(Issue(s, path, wantFresh, poll, ttl), key)
  {
    hide Key;
  }

  lemma PointedAnswer(s: State, req: nat, body: int, ttl: Ttl, key: string)
    requires Pointed(s, key)
    ensures Pointed(Step(s, Reply(req, body), ttl), key) && Pointed(Step(s, Refuse(req), ttl), key)
  {
  }

  lemma PointedStep(s: State, e: Event, ttl: Ttl, key: string)
    requires Pointed(s, key) && !e.Invalidate? && !e.Broadcast?
    ensures Pointed(Step(s, e, ttl), key)
  {
    match e {
      case Get(path, wantFresh) => PointedIssue(s, path, wantFresh, None, ttl, key);
      case Load(poll, wantFresh) =>
        if poll in s.polls {
          PointedIssue(s, s.polls[poll].path, wantFresh, Some(poll), ttl, key);
        }
      case Reply(req, body) => PointedAnswer(s, req, body, ttl, key);
      case Refuse(req) => PointedAnswer(s, req, 0, ttl, key);
      case _ =>
    }
  }

  lemma {:induction false} PointedRun(s: State, es: seq<Event>, ttl: Ttl, key: string)
    requires Quiet(es) && Pointed(s, key)
    ensures Pointed(Run(s, es, ttl), key)
  {
    if es != [] {
      PointedRun(s, es[..|es| - 1], ttl, key);
      hide Pointed, Step;
      PointedStep(Run(s, es[..|es| - 1], ttl), es[|es| - 1], ttl, key);
    }
  }

  ghost predicate AtMostOne(s: State, key: string)
  {
    forall r, q :: r in s.sent && q in s.sent && s.sent[r].key == key == s.sent[q].key ==> r == q
  }

  // A request that survived a clearing of the cache is overtaken by the next call.
  lemma Overlap(s: State, r: nat, ttl: Ttl)
    requires s.cache == map[] && r in s.sent && r < s.nextReq
    requires s.sent[r].key == Key(s.sent[r].team, s.sent[r].path)
    ensures !AtMostOne(Run(s, [SelectTeam(s.sent[r].team), Get(s.sent[r].path, false)], ttl), s.sent[r].key)
  {
    hide Key;
    var es := [SelectTeam(s.sent[r].team), Get(s.sent[r].path, false)];
    var s1 := Step(s, es[0], ttl);
    var s2 := Step(s1, es[1], ttl);
    assert es[..1][..0] == [];
    assert Run(s, es[..1], ttl) == s1;
    assert Run(s, es, ttl) == s2;
    assert s2.sent[s.nextReq].key == s2.sent[r].key == s.sent[r].key;
  }

  /** From an empty cache, no continuation without a further clearing ever has two requests
      for the key on the wire, exactly when none for it is on the wire at that moment. */
  lemma SingleFlightIff(s: State, ttl: Ttl, key: string)
    requires s.cache == map[]
    requires forall r :: r in s.sent ==> r < s.nextReq && s.sent[r].key == Key(s.sent[r].team, s.sent[r].path)
    ensures (forall es :: Quiet(es) ==> AtMostOne(Run(s, es, ttl), key))
       <==> (forall r :: r in s.sent ==> s.sent[r].key != key)
  {
    hide Run, Key;
    if r :| r in s.sent && s.sent[r].key == key {
      Overlap(s, r, ttl);
      assert Quiet([SelectTeam(s.sent[r].team), Get(s.sent[r].path, false)]);
    } else {
      forall es | Quiet(es) ensures AtMostOne(Run(s, es, ttl), key) {
        PointedRun(s, es, ttl, key);
      }
    }
  }

  /** So after an invalidation, two requests for a key can overlap before the next one exactly
      when one for it was on the wire. */
  lemma SingleFlightAfterClearing(s: State, e: Event, ttl: Ttl, key: string)
    requires e.Invalidate? || e.Broadcast?
    requires forall r :: r in s.sent ==> r < s.nextReq && s.sent[r].key == Key(s.sent[r].team, s.sent[r].path)
    ensures (forall es :: Quiet(es) ==> AtMostOne(Run(Step(s, e, ttl), es, ttl), key))
       <==> (forall r :: r in s.sent ==> s.sent[r].key != key)
  {
    hide Run, Step, Key;
    ClearingEmpties(s, e, ttl);
    SingleFlightIff(Step(s, e, ttl), ttl, key);
  }

  /** In particular a fresh page, until its first invalidation, has at most one request per
      key on the wire. */
  lemma SingleFlight(now: int, team: Team, es: seq<Event>, ttl: Ttl, key: string)
    requires Quiet(es)
    ensures AtMostOne(Run(Boot(now, team), es, ttl), key)
  {
    SingleFlightIff(Boot(now, team), ttl, key);
  }

  // ---- reads after writes -------------------------------------------------------------

  // Whatever is settled under the key was asked for by request number `since` or later.
  ghost predicate FreshAt(s: State, key: string, since: nat)
  {
    key in s.cache && s.cache[key].Settled? ==> s.cache[key].value.req >= since
  }

  // ... and so will every answer still on the wire be.
  ghost predicate FreshAhead(s: State, key: string, since: nat)
  {
    FreshAt(s, key, since) && since <= s.nextReq && forall r :: r in s.sent && s.sent[r].key == key ==> r >= since
  }

  lemma FreshIssue(s: State, path: Path, wantFresh: bool, poll: Option<nat>, ttl: Ttl, key: string, since: nat)
    requires FreshAhead(s, key, since)
    ensures FreshAhead(Issue(s, path, wantFresh, poll, ttl), key, since)
  {
  }

  lemma FreshStep(s: State, e: Event, ttl: Ttl, key: string, since: nat)
    requires FreshAhead(s, key, since)
    ensures FreshAhead(Step(s, e, ttl), key, since)
  {
    match e {
      case Get(path, wantFresh) => FreshIssue(s, path, wantFresh, None, ttl, key, since);
      case Load(poll, wantFresh) =>
        if poll in s.polls {
          FreshIssue(s, s.polls[poll].path, wantFresh, Some(poll), ttl, key, since);
        }
      case _ =>
    }
  }

  lemma {:induction false} FreshRun(s: State, es: seq<Event>, ttl: Ttl, key: string, since: nat)
    requires FreshAhead(s, key, since)
    ensures FreshAhead(Run(s, es, ttl), key, since)
  {
    if es != [] {
      FreshRun(s, es[..|es| - 1], ttl, key, since);
      hide FreshAhead, Step;
      FreshStep(Run(s, es[..|es| - 1], ttl), es[|es| - 1], ttl, key, since);
    }
  }

  // A request that was on the wire at the invalidation stores its answer after it.
  lemma StaleStore(s: State, r: nat, ttl: Ttl)
    requires r in s.sent && r < s.nextReq
    ensures !FreshAt(Run(s, [Reply(r, 0)], ttl), s.sent[r].key, s.nextReq)
  {
    assert [Reply(r, 0)][..0] == [];
    assert Run(s, [], ttl) == s;
  }

  /** After a write, or the broadcast of a team change, a key is never again settled with an
      answer asked for before it, in any continuation, exactly when no request for that key
      was on the wire at the time. */
  lemma FreshAfterWriteIff(s: State, e: Event, ttl: Ttl, key: string)
    requires (e.Invalidate? || e.Broadcast?) && forall r :: r in s.sent ==> r < s.nextReq
    ensures (forall es :: FreshAt(Run(Step(s, e, ttl), es, ttl), key, s.nextReq))
       <==> (forall r :: r in s.sent ==> s.sent[r].key != key)
  {
    hide Run, Step;
    var t := Step(s, e, ttl);
    ClearingEmpties(s, e, ttl);
    if r :| r in s.sent && s.sent[r].key == key {
      StaleStore(t, r, ttl);
    } else {
      forall es ensures FreshAt(Run(t, es, ttl), key, s.nextReq) {
        FreshRun(t, es, ttl, key, s.nextReq);
      }
    }
  }

  // ---- pollers that change their path -------------------------------------------------

  // What the poller shows, if anything, is an answer for the path it watches.
  ghost predicate OnPath(s: State, p: nat, path: Path)
  {
    p in s.polls && s.polls[p].data.Some? ==> s.polls[p].data.value.path == path
  }

  // ... and so is everything its callers are waiting for.
  ghost predicate PathAhead(s: State, p: nat, path: Path)
  {
    && p in s.polls && s.polls[p].path == path && OnPath(s, p, path)
    && forall c :: c in s.calls && s.calls[c].poll == Some(p) ==> s.calls[c].path == path
  }

  predicate StaysOn(es: seq<Event>, p: nat, path: Path)
  {
    forall i :: 0 <= i < |es| && es[i].Watch? && es[i].poll == p ==> es[i].path == path
  }

  lemma PathAheadIssue(s: State, q: Path, wantFresh: bool, poll: Option<nat>, ttl: Ttl, p: nat, path: Path)
    requires PathAhead(s, p, path) && (poll == Some(p) ==> q == path)
    ensures PathAhead(Issue(s, q, wantFresh, poll, ttl), p, path)
  {
    hide Key, Decide;
  }

  lemma PathAheadAnswer(s: State, req: nat, body: int, ttl: Ttl, p: nat, path: Path)
    requires PathAhead(s, p, path)
    ensures PathAhead(Step(s, Reply(req, body), ttl), p, path) && PathAhead(Step(s, Refuse(req), ttl), p, path)
  {
    hide Issue, Key;
  }

  lemma PathAheadDeliver(s: State, call: nat, ttl: Ttl, teams: set<Team>, p: nat, path: Path)
    requires Valid(s, teams) && PathAhead(s, p, path)
    ensures PathAhead(Step(s, Deliver(call), ttl), p, path)
  {
    hide Issue, Key;
  }

  lemma PathAheadStep(s: State, e: Event, ttl: Ttl, teams: set<Team>, p: nat, path: Path)
    requires Valid(s, teams) && PathAhead(s, p, path) && (e.Watch? && e.poll == p ==> e.path == path)
    ensures PathAhead(Step(s, e, ttl), p, path)
  {
    hide Valid, Issue, Key;
    match e {
      case Get(q, wantFresh) => PathAheadIssue(s, q, wantFresh, None, ttl, p, path);
      case Load(poll, wantFresh) =>
        if poll in s.polls {
          PathAheadIssue(s, s.polls[poll].path, wantFresh, Some(poll), ttl, p, path);
        }
      case Reply(req, body) => PathAheadAnswer(s, req, body, ttl, p, path);
      case Refuse(req) => PathAheadAnswer(s, req, 0, ttl, p, path);
      case Deliver(call) => PathAheadDeliver(s, call, ttl, teams, p, path);
      case _ =>
    }
  }

  lemma {:induction false} PathAheadRun(s: State, es: seq<Event>, ttl: Ttl, teams: set<Team>, p: nat, path: Path)
    requires Separable(teams) && TeamsIn(es, teams) && Valid(s, teams) && PathAhead(s, p, path) && StaysOn(es, p, path)
    ensures Valid(Run(s, es, ttl), teams) && PathAhead(Run(s, es, ttl), p, path)
  {
    if es != [] {
      var front := es[..|es| - 1];
      PathAheadRun(s, front, ttl, teams, p, path);
      hide Valid, PathAhead, Step;
      StepValid(Run(s, front, ttl), es[|es| - 1], ttl, teams);
      PathAheadStep(Run(s, front, ttl), es[|es| - 1], ttl, teams, p, path);
    }
  }

  // A caller that holds an answer for another path lands it in the poller.
  lemma LateDelivery(s: State, c: nat, ttl: Ttl, teams: set<Team>, p: nat, path: Path)
    requires Valid(s, teams) && p in s.polls && c in s.calls && s.calls[c].poll == Some(p)
    requires s.calls[c].path != path && s.calls[c].got.Ready? && s.calls[c].team == s.team
    ensures !OnPath(Step(s, Deliver(c), ttl), p, path)
  {
    hide Issue, Key;
  }

  // ... and one that still waits does so once its request is answered.
  lemma LateReply(s: State, c: nat, ttl: Ttl, teams: set<Team>)
    requires Valid(s, teams) && c in s.calls && s.calls[c].got.Waiting?
    ensures var t := Step(s, Reply(s.calls[c].got.req, 0), ttl);
            && t.polls == s.polls && t.team == s.team && c in t.calls && t.calls[c].got.Ready?
            && t.calls[c].(got := s.calls[c].got) == s.calls[c]
  {
    hide Issue, Key;
  }

  lemma LateAnswer(s: State, c: nat, ttl: Ttl, teams: set<Team>, p: nat, path: Path)
    requires Separable(teams) && Valid(s, teams) && p in s.polls
    requires c in s.calls && s.calls[c].poll == Some(p) && s.calls[c].path != path
    ensures exists es :: TeamsIn(es, teams) && StaysOn(es, p, path) && !OnPath(Run(s, es, ttl), p, path)
  {
    var call := s.calls[c];
    var first := [SelectTeam(call.team)];
    var s1 := Step(s, first[0], ttl);
    assert s1.calls == s.calls && s1.polls == s.polls && s1.team == call.team && call.team in teams;
    StepValid(s, first[0], ttl, teams);
    hide Step, Valid, OnPath;
    assert first[..0] == [];
    assert Run(s, first, ttl) == s1;
    if call.got.Ready? {
      LateDelivery(s1, c, ttl, teams, p, path);
      var es := first + [Deliver(c)];
      assert es[..1] == first;
      assert TeamsIn(es, teams) && StaysOn(es, p, path);
    } else {
      var two := first + [Reply(call.got.req, 0)];
      assert two[..1] == first;
      LateReply(s1, c, ttl, teams);
      StepValid(s1, two[1], ttl, teams);
      LateDelivery(Run(s, two, ttl), c, ttl, teams, p, path);
      var es := two + [Deliver(c)];
      assert es[..2] == two;
      assert TeamsIn(es, teams) && StaysOn(es, p, path);
    }
  }

  /** Once a poller watches a path, everything it shows from then on is for that path, in
      every continuation that stays on it, exactly when it shows nothing of another path and
      no call it made for another path is still out. */
  lemma PollPathIff(s: State, ttl: Ttl, teams: set<Team>, p: nat, path: Path)
    requires Separable(teams) && Valid(s, teams) && p in s.polls && s.polls[p].path == path
    ensures (forall es :: TeamsIn(es, teams) && StaysOn(es, p, path) ==> OnPath(Run(s, es, ttl), p, path))
       <==> PathAhead(s, p, path)
  {
    if PathAhead(s, p, path) {
      forall es | TeamsIn(es, teams) && StaysOn(es, p, path) ensures OnPath(Run(s, es, ttl), p, path) {
        PathAheadRun(s, es, ttl, teams, p, path);
      }
    } else if !OnPath(s, p, path) {
      assert Run(s, [], ttl) == s && TeamsIn([], teams) && StaysOn([], p, path);
    } else {
      var c :| c in s.calls && s.calls[c].poll == Some(p) && s.calls[c].path != path;
      LateAnswer(s, c, ttl, teams, p, path);
    }
  }
}
