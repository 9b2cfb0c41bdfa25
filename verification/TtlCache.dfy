/** The two-tier client cache: an in-memory map in front of sessionStorage. */
module TtlCache {
  import opened Options

  type Url = string

  datatype Entry<V> = Entry(t: int, v: V)

  // What sessionStorage holds under a key: an entry, or text that does not parse.
  datatype Raw<V> = Good(entry: Entry<V>) | Corrupt

  datatype Tiers<V> = Tiers(mem: map<Url, Entry<V>>, session: map<Url, Raw<V>>)

  // One call: the caller's limit, what the network would answer, whether the caller wants
  // the answer remembered, and whether sessionStorage can be read and written.
  datatype Request<!V> = Request(
    url: Url,
    ttl: int,
    answer: Option<V>,
    cacheable: V -> bool,
    readOk: bool,
    writeOk: bool)

  datatype Reply<V> = Reply(value: Option<V>, fetched: bool)

  // ---- the simple form: one map -------------------------------------------------------

  function MapGet<V>(m: map<Url, Entry<V>>, r: Request<V>, now: int): (Reply<V>, map<Url, Entry<V>>)
  {
    if r.url in m && now - m[r.url].t < r.ttl then (Reply(Some(m[r.url].v), false), m)
    else if r.answer.None? || !r.cacheable(r.answer.value) then (Reply(r.answer, true), m)
    else (Reply(r.answer, true), m[r.url := Entry(now, r.answer.value)])
  }

  // ---- the two tiers ------------------------------------------------------------------

  // Storage holds a readable entry under the URL.
  predicate Stored<V>(s: Tiers<V>, url: Url) { url in s.session && s.session[url].Good? }

  function TierGet<V>(s: Tiers<V>, r: Request<V>, now: int): (Reply<V>, Tiers<V>)
  {
    if r.url in s.mem && now - s.mem[r.url].t < r.ttl then (Reply(Some(s.mem[r.url].v), false), s)
    else if r.readOk && Stored(s, r.url) && now - s.session[r.url].entry.t < r.ttl then
      var e := s.session[r.url].entry;
      (Reply(Some(e.v), false), s.(mem := s.mem[r.url := e]))
    else if r.answer.None? || !r.cacheable(r.answer.value) then (Reply(r.answer, true), s)
    else
      var e := Entry(now, r.answer.value);
      (Reply(r.answer, true),
       Tiers(s.mem[r.url := e], if r.writeOk then s.session[r.url := Good(e)] else s.session))
  }

  // The memory entry goes first, so it is gone even when storage refuses the removal.
  function TierDrop<V>(s: Tiers<V>, url: Url, removed: bool): Tiers<V>
  {
    Tiers(s.mem - {url}, if removed then s.session - {url} else s.session)
  }

  // A new page of the same tab starts with an empty memory.
  function TierReload<V>(s: Tiers<V>): Tiers<V> { s.(mem := map[]) }

  // The single map the two tiers stand for: memory first, then readable storage.
  ghost function Merged<V>(s: Tiers<V>): map<Url, Entry<V>>
  {
    map url | url in s.mem.Keys + s.session.Keys && (url in s.mem || s.session[url].Good?) ::
      if url in s.mem then s.mem[url] else s.session[url].entry
  }

  // Nothing is from the future, and memory is never older than storage.
  ghost predicate Valid<V>(s: Tiers<V>, now: int)
  {
    && (forall url :: url in s.mem ==> s.mem[url].t <= now)
    && (forall url :: Stored(s, url) ==> s.session[url].entry.t <= now)
    && (forall url :: url in s.mem && Stored(s, url) ==> s.session[url].entry.t <= s.mem[url].t)
  }

  // ---- one operation, and exactly when it is the one-map operation --------------------

  lemma MergedAt<V>(s: Tiers<V>, url: Url)
    ensures url in Merged(s) <==> url in s.mem || Stored(s, url)
    ensures url in Merged(s) ==> Merged(s)[url] == if url in s.mem then s.mem[url] else s.session[url].entry
  {
  }

  // Putting an entry in memory, with or without storage, puts it in the merged map.
  lemma MergedPut<V>(s: Tiers<V>, t: Tiers<V>, url: Url, e: Entry<V>)
    requires t.mem == s.mem[url := e] && (t.session == s.session || t.session == s.session[url := Good(e)])
    ensures Merged(t) == Merged(s)[url := e]
  {
  }

  lemma GetKeepsValid<V>(s: Tiers<V>, r: Request<V>, now: int)
    requires Valid(s, now)
    ensures Valid(TierGet(s, r, now).1, now)
  {
  }

  // A call depends on the storage read only when storage alone holds a young entry.
  predicate GetSmooth<V>(s: Tiers<V>, r: Request<V>, now: int)
  {
    r.readOk || r.url in s.mem || !Stored(s, r.url) || now - s.session[r.url].entry.t >= r.ttl
  }

  /** One call is one call on the single map, reply and state, whether or not the storage
      write succeeds, exactly when a failing storage read does not hide a young entry. */
  lemma GetRefinesIff<V>(s: Tiers<V>, r: Request<V>, now: int)
    requires Valid(s, now)
    ensures var (reply, t) := TierGet(s, r, now);
            (reply, Merged(t)) == MapGet(Merged(s), r, now) <==> GetSmooth(s, r, now)
  {
    MergedAt(s, r.url);
    var t := TierGet(s, r, now).1;
    if r.url in t.mem && t.mem == s.mem[r.url := t.mem[r.url]] {
      MergedPut(s, t, r.url, t.mem[r.url]);
    }
    if r.url in s.mem || Stored(s, r.url) {
      assert Merged(s)[r.url := Merged(s)[r.url]] == Merged(s);
    }
  }

  /** An invalidation removes the URL from the single map, and nothing else, exactly when the
      storage removal succeeds or had nothing to remove. */
  lemma DropRefinesIff<V>(s: Tiers<V>, url: Url, removed: bool)
    ensures Merged(TierDrop(s, url, removed)) == Merged(s) - {url} <==> removed || !Stored(s, url)
  {
    var t := TierDrop(s, url, removed);
    MergedAt(t, url);
    assert forall other :: other != url ==> (other in Merged(t) <==> other in Merged(s) - {url});
  }

  // Every memory entry is also the stored one.
  ghost predicate Mirrored<V>(s: Tiers<V>)
  {
    forall url :: url in s.mem ==> url in s.session && s.session[url] == Good(s.mem[url])
  }

  /** A reload loses nothing and brings nothing older back exactly when every memory entry
      had reached storage. */
  lemma ReloadRefinesIff<V>(s: Tiers<V>)
    ensures Merged(TierReload(s)) == Merged(s) <==> Mirrored(s)
  {
    var t := TierReload(s);
    if Merged(t) == Merged(s) {
      forall url | url in s.mem ensures url in s.session && s.session[url] == Good(s.mem[url]) {
        MergedAt(s, url);
        MergedAt(t, url);
      }
    }
  }

  // ---- whole runs ---------------------------------------------------------------------

  datatype Op<!V> = Get(request: Request<V>) | Invalidate(url: Url, removed: bool) | Reload | Wait(ms: nat)

  // What a run has answered so far, what it holds, and the time.
  datatype Log<S, V> = Log(replies: seq<Reply<V>>, store: S, now: int)

  function TierStep<V>(a: Log<Tiers<V>, V>, op: Op<V>): Log<Tiers<V>, V>
  {
    match op
    case Get(r) =>
      var (reply, t) := TierGet(a.store, r, a.now);
      Log(a.replies + [reply], t, a.now)
    case Invalidate(url, removed) => a.(store := TierDrop(a.store, url, removed))
    case Reload => a.(store := TierReload(a.store))
    case Wait(ms) => a.(now := a.now + ms)
  }

  // The single map outlives reloads, and its removals succeed.
  function MapStep<V>(a: Log<map<Url, Entry<V>>, V>, op: Op<V>): Log<map<Url, Entry<V>>, V>
  {
    match op
    case Get(r) =>
      var (reply, m) := MapGet(a.store, r, a.now);
      Log(a.replies + [reply], m, a.now)
    case Invalidate(url, _) => a.(store := a.store - {url})
    case Reload => a
    case Wait(ms) => a.(now := a.now + ms)
  }

  function TierRun<V>(s: Tiers<V>, now: int, ops: seq<Op<V>>): Log<Tiers<V>, V>
  {
    if ops == [] then Log([], s, now) else TierStep(TierRun(s, now, ops[..|ops| - 1]), ops[|ops| - 1])
  }

  function MapRun<V>(m: map<Url, Entry<V>>, now: int, ops: seq<Op<V>>): Log<map<Url, Entry<V>>, V>
  {
    if ops == [] then Log([], m, now) else MapStep(MapRun(m, now, ops[..|ops| - 1]), ops[|ops| - 1])
  }

  function Waited<V>(ops: seq<Op<V>>): nat
  {
    if ops == [] then 0
    else Waited(ops[..|ops| - 1]) + match ops[|ops| - 1] case Wait(ms) => ms case _ => 0
  }

  // Time passes by waiting and by nothing else.
  lemma {:induction false} ClockIs<V>(s: Tiers<V>, now: int, ops: seq<Op<V>>)
    ensures TierRun(s, now, ops).now == now + Waited(ops)
  {
    if ops != [] {
      ClockIs(s, now, ops[..|ops| - 1]);
    }
  }

  // What a two-tier run looks like from outside.
  ghost function View<V>(a: Log<Tiers<V>, V>): Log<map<Url, Entry<V>>, V>
  {
    Log(a.replies, Merged(a.store), a.now)
  }

  // Storage does not let this operation down.
  ghost predicate Smooth<V>(a: Log<Tiers<V>, V>, op: Op<V>)
  {
    match op
    case Get(r) => GetSmooth(a.store, r, a.now)
    case Invalidate(url, removed) => removed || !Stored(a.store, url)
    case Reload => Mirrored(a.store)
    case Wait(_) => true
  }

  lemma StepRefinesIff<V>(a: Log<Tiers<V>, V>, op: Op<V>)
    requires Valid(a.store, a.now)
    ensures View(TierStep(a, op)) == MapStep(View(a), op) <==> Smooth(a, op)
  {
    hide Merged, Valid;
    match op {
      case Get(r) =>
        GetRefinesIff(a.store, r, a.now);
        var (reply, other) := (TierGet(a.store, r, a.now).0, MapGet(Merged(a.store), r, a.now).0);
        assert (a.replies + [reply])[|a.replies|] == reply && (a.replies + [other])[|a.replies|] == other;
      case Invalidate(url, removed) => DropRefinesIff(a.store, url, removed);
      case Reload => ReloadRefinesIff(a.store);
      case Wait(_) =>
    }
  }

  lemma {:induction false} RunKeepsValid<V>(s: Tiers<V>, now: int, ops: seq<Op<V>>)
    requires Valid(s, now)
    ensures var a := TierRun(s, now, ops); Valid(a.store, a.now)
  {
    if ops != [] {
      var front := ops[..|ops| - 1];
      RunKeepsValid(s, now, front);
      var a := TierRun(s, now, front);
      if ops[|ops| - 1].Get? {
        GetKeepsValid(a.store, ops[|ops| - 1].request, a.now);
      }
    }
  }

  ghost predicate Agrees<V>(s: Tiers<V>, now: int, ops: seq<Op<V>>)
  {
    View(TierRun(s, now, ops)) == MapRun(Merged(s), now, ops)
  }

  // The run is the single-map run after every one of its operations.
  ghost predicate LikeOneMap<V>(s: Tiers<V>, now: int, ops: seq<Op<V>>)
  {
    forall k :: 0 <= k <= |ops| ==> Agrees(s, now, ops[..k])
  }

  ghost predicate SmoothAt<V>(s: Tiers<V>, now: int, ops: seq<Op<V>>, op: Op<V>)
  {
    Smooth(TierRun(s, now, ops), op)
  }

  ghost predicate SmoothRun<V>(s: Tiers<V>, now: int, ops: seq<Op<V>>)
  {
    forall k :: 0 <= k < |ops| ==> SmoothAt(s, now, ops[..k], ops[k])
  }

  lemma LikeOneMapSnoc<V>(s: Tiers<V>, now: int, front: seq<Op<V>>, op: Op<V>)
    ensures LikeOneMap(s, now, front + [op]) <==> LikeOneMap(s, now, front) && Agrees(s, now, front + [op])
    ensures LikeOneMap(s, now, front) ==> Agrees(s, now, front)
  {
    hide Agrees;
    var ops := front + [op];
    assert forall k :: 0 <= k <= |front| ==> ops[..k] == front[..k];
    assert ops[..|ops|] == ops && front[..|front|] == front;
  }

  lemma SmoothRunSnoc<V>(s: Tiers<V>, now: int, front: seq<Op<V>>, op: Op<V>)
    ensures SmoothRun(s, now, front + [op]) <==> SmoothRun(s, now, front) && SmoothAt(s, now, front, op)
  {
    hide SmoothAt;
    var ops := front + [op];
    assert forall k :: 0 <= k <= |front| ==> ops[..k] == front[..k];
    assert front[..|front|] == front && ops[|front|] == op;
  }

  lemma AgreesSnoc<V>(s: Tiers<V>, now: int, front: seq<Op<V>>, op: Op<V>)
    requires Valid(s, now) && Agrees(s, now, front)
    ensures Agrees(s, now, front + [op]) <==> SmoothAt(s, now, front, op)
  {
    RunKeepsValid(s, now, front);
    StepRefinesIff(TierRun(s, now, front), op);
    hide Smooth, Valid, TierStep, MapStep, View;
    var ops := front + [op];
    assert ops[..|ops| - 1] == front;
  }

  /** For calls made one at a time, over any calls, invalidations, reloads and waits, with
      any pattern of storage failures and any unreadable stored text: the two tiers give the
      replies of a single map that never loses anything, and stand for that map after every
      operation, exactly when no read failure hides a young entry, no failed removal keeps
      one, and no reload forgets a lost write. */
  lemma {:induction false} OneMapIff<V>(s: Tiers<V>, now: int, ops: seq<Op<V>>)
    requires Valid(s, now)
    ensures LikeOneMap(s, now, ops) <==> SmoothRun(s, now, ops)
  {
    if ops == [] {
      assert Agrees(s, now, []);
    } else {
      var (front, op) := (ops[..|ops| - 1], ops[|ops| - 1]);
      assert front + [op] == ops;
      hide LikeOneMap, SmoothRun, Agrees, SmoothAt;
      OneMapIff(s, now, front);
      LikeOneMapSnoc(s, now, front, op);
      SmoothRunSnoc(s, now, front, op);
      if LikeOneMap(s, now, front) {
        AgreesSnoc(s, now, front, op);
      }
    }
  }

  // Within one page load reads and removals that work are enough, whatever is written.
  predicate ReadsWork<V>(ops: seq<Op<V>>)
  {
    forall i :: 0 <= i < |ops| ==>
      match ops[i]
      case Get(r) => r.readOk
      case Invalidate(_, removed) => removed
      case Reload => false
      case Wait(_) => true
  }

  /** Within one page load the two tiers behave as one map under any pattern of storage write
      failures. */
  lemma TiersBehaveAsOneMap<V>(s: Tiers<V>, now: int, ops: seq<Op<V>>)
    requires Valid(s, now) && ReadsWork(ops)
    ensures LikeOneMap(s, now, ops)
  {
    OneMapIff(s, now, ops);
  }

  predicate StorageWorks<V>(ops: seq<Op<V>>)
  {
    forall i :: 0 <= i < |ops| ==>
      match ops[i]
      case Get(r) => r.readOk && r.writeOk
      case Invalidate(_, removed) => removed
      case Reload => true
      case Wait(_) => true
  }

  lemma {:induction false} StaysMirrored<V>(s: Tiers<V>, now: int, ops: seq<Op<V>>)
    requires Mirrored(s) && StorageWorks(ops)
    ensures Mirrored(TierRun(s, now, ops).store)
  {
    if ops != [] {
      StaysMirrored(s, now, ops[..|ops| - 1]);
    }
  }

  /** With working storage the two tiers behave as one map across any number of reloads. */
  lemma TiersSurviveReloads<V>(s: Tiers<V>, now: int, ops: seq<Op<V>>)
    requires Valid(s, now) && Mirrored(s) && StorageWorks(ops)
    ensures LikeOneMap(s, now, ops)
  {
    forall k | 0 <= k < |ops| ensures SmoothAt(s, now, ops[..k], ops[k]) {
      StaysMirrored(s, now, ops[..k]);
    }
    OneMapIff(s, now, ops);
  }

  // ---- what callers get ---------------------------------------------------------------

  /** A call is served without the network exactly when memory holds a young entry or readable
      storage does; the value is the remembered one, young in the merged map too.  A fetched
      answer is the network's; it is remembered, as of now, exactly when it came and the
      caller wants it, and otherwise both tiers stay as they are. */
  lemma GetDelivers<V>(s: Tiers<V>, r: Request<V>, now: int)
    requires Valid(s, now)
    ensures var (reply, t) := TierGet(s, r, now);
            && (!reply.fetched <==>
                  || (r.url in s.mem && now - s.mem[r.url].t < r.ttl)
                  || (r.readOk && Stored(s, r.url) && now - s.session[r.url].entry.t < r.ttl))
            && (!reply.fetched ==>
                  && Merged(t) == Merged(s) && r.url in Merged(s) && reply.value == Some(Merged(s)[r.url].v)
                  && now - Merged(s)[r.url].t < r.ttl)
            && (reply.fetched ==> reply.value == r.answer)
            && (reply.fetched && (r.answer.None? || !r.cacheable(r.answer.value)) ==> t == s)
            && (reply.fetched && r.answer.Some? && r.cacheable(r.answer.value) ==>
                  && t.mem == s.mem[r.url := Entry(now, r.answer.value)]
                  && t.session == if r.writeOk then s.session[r.url := Good(Entry(now, r.answer.value))] else s.session)
  {
    MergedAt(s, r.url);
    var t := TierGet(s, r, now).1;
    if t.mem != s.mem {
      MergedPut(s, t, r.url, t.mem[r.url]);
    }
  }

  predicate NoGetOf<V>(ops: seq<Op<V>>, url: Url)
  {
    forall i :: 0 <= i < |ops| && ops[i].Get? ==> ops[i].request.url != url
  }

  lemma {:induction false} StaysForgotten<V>(s: Tiers<V>, now: int, ops: seq<Op<V>>, url: Url)
    requires url !in s.mem && !Stored(s, url) && NoGetOf(ops, url)
    ensures var t := TierRun(s, now, ops).store; url !in t.mem && !Stored(t, url)
  {
    if ops != [] {
      StaysForgotten(s, now, ops[..|ops| - 1], url);
    }
  }

  // The next call of the URL after `ops`, whatever its limit, is answered by the network.
  ghost predicate NextFetches<V(!new)>(s: Tiers<V>, now: int, ops: seq<Op<V>>, url: Url)
  {
    var a := TierRun(s, now, ops);
    forall r: Request<V> :: r.url == url ==> TierGet(a.store, r, a.now).0 == Reply(r.answer, true)
  }

  /** After an invalidation the next call of the URL goes to the network, whatever other
      calls, invalidations, reloads and waits come in between, exactly when the storage
      removal succeeded or had nothing to remove. */
  lemma InvalidateThenFetch<V(!new)>(s: Tiers<V>, now: int, url: Url, removed: bool)
    ensures (forall ops :: NoGetOf(ops, url) ==> NextFetches(TierDrop(s, url, removed), now, ops, url))
       <==> removed || !Stored(s, url)
  {
    var t := TierDrop(s, url, removed);
    if removed || !Stored(s, url) {
      forall ops | NoGetOf(ops, url) ensures NextFetches(t, now, ops, url) {
        StaysForgotten(t, now, ops, url);
      }
    } else {
      var none: seq<Op<V>> := [];
      var r := Request(url, now - t.session[url].entry.t + 1, None, (v: V) => false, true, true);
      assert !TierGet(TierRun(t, now, none).store, r, now).0.fetched;
      assert NoGetOf(none, url) && !NextFetches(t, now, none, url);
    }
  }

  class Cache<V> {
    var mem: map<Url, Entry<V>>
    var session: map<Url, Raw<V>>

    constructor (session: map<Url, Raw<V>>)
      ensures mem == map[] && this.session == session
    {
      this.mem, this.session := map[], session;
    }

    // `value` is none when the request fails, which the source reports by throwing.
    method CachedJson(r: Request<V>, now: int) returns (value: Option<V>, fetched: bool)
      modifies this
      ensures (Reply(value, fetched), Tiers(mem, session)) == TierGet(old(Tiers(mem, session)), r, now)
    {
      if r.url in mem && now - mem[r.url].t < r.ttl {
        return Some(mem[r.url].v), false;
      }
      if r.readOk && r.url in session && session[r.url].Good? {
        var e := session[r.url].entry;
        if now - e.t < r.ttl {
          mem := mem[r.url := e];
          return Some(e.v), false;
        }
      }
      if r.answer.None? {
        return None, true;
      }
      var v := r.answer.value;
      if !r.cacheable(v) {
        return Some(v), true;
      }
      var e := Entry(now, v);
      mem := mem[r.url := e];
      if r.writeOk {
        session := session[r.url := Good(e)];
      }
      return Some(v), true;
    }

    method Drop(url: Url, removed: bool)
      modifies this
      ensures Tiers(mem, session) == TierDrop(old(Tiers(mem, session)), url, removed)
    {
      mem := mem - {url};
      if removed {
        session := session - {url};
      }
    }
  }
}
