/** IPv6 half of the range compiler.  Rows are keyed on the top 32 bits of the address (a
    /32) and every /32 goes to the cell that covers the most /48 blocks of it.  The
    compiler finds it in one pass, with an accumulator for a single key. */
module RangesV6 {
  import opened StepTable
  import opened Options

  // A /48 block is 2^80 addresses, a /32 key is 2^96 addresses or 65536 blocks.
  const SPACE: nat := 0x1_0000_0000_0000_0000_0000_0000_0000_0000  // 2^128

  function Key(addr: nat): nat { addr / 0x1_0000_0000_0000_0000_0000_0000 }

  function Unit(addr: nat): nat { addr / 0x1_0000_0000_0000_0000_0000 }

  ghost predicate Sorted(rs: seq<Range>)
  {
    && (forall i :: 0 <= i < |rs| ==> rs[i].first <= rs[i].last < SPACE)
    && (forall i, j :: 0 <= i < j < |rs| ==> rs[i].last < rs[j].first)
  }

  // ---- the simple meaning -------------------------------------------------------------

  ghost function Interval(lo: nat, hi: int): (us: set<int>)
    ensures forall u :: u in us <==> lo <= u <= hi
    ensures |us| == if lo <= hi then hi - lo + 1 else 0
    decreases hi
  {
    if lo <= hi then Interval(lo, hi - 1) + {hi} else {}
  }

  // The range has an address in the block, the addresses from block * 2^80 up to the next.
  predicate Touches(r: Range, block: int)
  {
    block * 0x1_0000_0000_0000_0000_0000 <= r.last && r.first < (block + 1) * 0x1_0000_0000_0000_0000_0000
  }

  // The /48 blocks of the /32 `key` in which the range has an address.
  ghost function Blocks(r: Range, key: nat): set<int>
  {
    set b | b in Interval(key * 65536, key * 65536 + 65536 - 1) && Touches(r, b)
  }

  // How many blocks of the key go to the cell, range by range.
  ghost function Share(rs: seq<Range>, key: nat, cell: nat): nat
  {
    if rs == [] then 0
    else
      var r := rs[|rs| - 1];
      Share(rs[..|rs| - 1], key, cell) + if r.cell == cell then |Blocks(r, key)| else 0
  }

  // `best` outweighs every cell of `weight`, ties going to the lower cell id.
  ghost predicate Wins(weight: nat -> nat, best: nat)
  {
    && weight(best) > 0
    && forall c: nat :: weight(c) < weight(best) || (weight(c) == weight(best) && best <= c)
  }

  ghost predicate Shareless(rs: seq<Range>, key: nat) { forall c: nat :: Share(rs, key, c) == 0 }

  /** The specification: `cell` is the answer for `key` when no block of the key is touched
      and the cell is unknown, or when it has the greatest share of the blocks. */
  ghost predicate Dominates(rs: seq<Range>, key: nat, cell: nat)
  {
    if Shareless(rs, key) then cell == UNK else Wins(c => Share(rs, key, c), cell)
  }

  lemma DominatesUnique(rs: seq<Range>, key: nat, c: nat, d: nat)
    requires Dominates(rs, key, c) && Dominates(rs, key, d)
    ensures c == d
  {
    if !Shareless(rs, key) {
      WinnerUnique(c => Share(rs, key, c), c, d);
    }
  }

  lemma WinnerUnique(weight: nat -> nat, c: nat, d: nat)
    requires Wins(weight, c) && Wins(weight, d)
    ensures c == d
  {
    assert weight(d) < weight(c) || (weight(d) == weight(c) && c <= d);
    assert weight(c) < weight(d) || (weight(c) == weight(d) && d <= c);
  }

  // ---- the same meaning in block numbers ----------------------------------------------

  // A stretch of consecutive /48 blocks placed in one cell.
  datatype Span = Span(lo: nat, hi: nat, cell: nat)

  function SpanOf(r: Range): Span { Span(Unit(r.first), Unit(r.last), r.cell) }

  function Min(x: nat, y: nat): nat { if x < y then x else y }

  // How many /48 blocks of `key` the span touches.
  function Weight(s: Span, key: nat): nat
  {
    var lo, hi := Max(s.lo, key * 65536), Min(s.hi, key * 65536 + 65536 - 1);
    if lo <= hi then hi - lo + 1 else 0
  }

  // A block is touched exactly when its number lies between those of the range's ends.
  lemma TouchesIff(r: Range, block: nat)
    ensures Touches(r, block) <==> Unit(r.first) <= block <= Unit(r.last)
  {
  }

  /** Weight counts blocks of addresses. */
  lemma WeightCounts(r: Range, key: nat)
    ensures Weight(SpanOf(r), key) == |Blocks(r, key)|
  {
    hide Touches, Unit;
    var s := SpanOf(r);
    var lo, hi := Max(s.lo, key * 65536), Min(s.hi, key * 65536 + 65536 - 1);
    forall b: int ensures b in Blocks(r, key) <==> b in Interval(lo, hi) {
      if b >= 0 {
        TouchesIff(r, b);
      }
    }
    assert Blocks(r, key) == Interval(lo, hi);
  }

  // The weight of a cell inside a key, over all spans.
  function Total(ss: seq<Span>, key: nat, cell: nat): nat
  {
    if ss == [] then 0
    else
      var s := ss[|ss| - 1];
      Total(ss[..|ss| - 1], key, cell) + if s.cell == cell then Weight(s, key) else 0
  }

  ghost predicate Weightless(ss: seq<Span>, key: nat) { forall c: nat :: Total(ss, key, c) == 0 }

  // The specification on spans.
  ghost predicate Dominant(ss: seq<Span>, key: nat, cell: nat)
  {
    if Weightless(ss, key) then cell == UNK
    else Wins(c => Total(ss, key, c), cell)
  }

  function Spans(rs: seq<Range>): seq<Span> { seq(|rs|, i requires 0 <= i < |rs| => SpanOf(rs[i])) }

  lemma {:induction false} ShareIsTotal(rs: seq<Range>, key: nat, cell: nat)
    ensures Share(rs, key, cell) == Total(Spans(rs), key, cell)
  {
    if rs == [] {
      assert Spans(rs) == [];
    } else {
      var n := |rs| - 1;
      ShareIsTotal(rs[..n], key, cell);
      WeightCounts(rs[n], key);
      hide Blocks, Weight;
      assert Spans(rs)[..n] == Spans(rs[..n]);
    }
  }

  lemma DominatesIff(rs: seq<Range>, key: nat, cell: nat)
    ensures Dominates(rs, key, cell) <==> Dominant(Spans(rs), key, cell)
    ensures Shareless(rs, key) <==> Weightless(Spans(rs), key)
  {
    hide Share, Total;
    var v, w := c => Share(rs, key, c), c => Total(Spans(rs), key, c);
    forall c: nat ensures Share(rs, key, c) == Total(Spans(rs), key, c) && v(c) == w(c) {
      ShareIsTotal(rs, key, c);
    }
    assert Wins(v, cell) <==> Wins(w, cell);
  }

  // ---- the streaming accumulator ------------------------------------------------------

  datatype State = State(rows: seq<Row>, cur: Option<nat>, dom: map<nat, int>)

  function At(dom: map<nat, int>, cell: nat): int { if cell in dom then dom[cell] else 0 }

  // The heaviest cell; among equals, the one with the lowest number.
  ghost predicate IsMaxItem(dom: map<nat, int>, best: nat)
  {
    best in dom && forall c :: c in dom ==> dom[c] < dom[best] || (dom[c] == dom[best] && best <= c)
  }

  lemma {:induction false} MaxItemExists(dom: map<nat, int>)
    requires dom != map[]
    ensures exists best :: IsMaxItem(dom, best)
    decreases dom.Keys
  {
    var c :| c in dom;
    var rest := dom - {c};
    if rest == map[] {
      assert dom.Keys == rest.Keys + {c};
      assert IsMaxItem(dom, c);
    } else {
      assert rest.Keys == dom.Keys - {c};
      MaxItemExists(rest);
      var b :| IsMaxItem(rest, b);
      var best := if dom[c] < dom[b] || (dom[c] == dom[b] && b <= c) then b else c;
      forall d | d in dom
        ensures dom[d] < dom[best] || (dom[d] == dom[best] && best <= d)
      {
        assert d == c || d in rest;
      }
      assert IsMaxItem(dom, best);
    }
  }

  ghost function MaxItem(dom: map<nat, int>): (best: nat)
    requires dom != map[]
    ensures IsMaxItem(dom, best)
  {
    MaxItemExists(dom);
    var best :| IsMaxItem(dom, best);
    best
  }

  // Emit the winner of the current key and forget the accumulator.
  ghost function Flush(s: State): State
    requires s.cur.Some? ==> s.dom != map[]
  {
    if s.cur.None? then s
    else State(Emitted(s.rows, s.cur.value, MaxItem(s.dom)), None, map[])
  }

  // The state once the key has moved on: the previous key is flushed and a gap becomes unknown.
  ghost function Moved(s: State, key: nat): State
    requires s.cur.Some? ==> s.dom != map[]
  {
    if s.cur.Some? && s.cur.value != key then
      var f := Flush(s);
      if key > s.cur.value + 1 then f.(rows := Emitted(f.rows, s.cur.value + 1, UNK)) else f
    else s
  }

  // Credit `weight` blocks of `key` to `cell`.
  ghost function Take(s: State, key: nat, cell: nat, weight: int): (t: State)
    requires s.cur.Some? ==> s.dom != map[]
    ensures t.dom != map[] && t.cur == Some(key)
  {
    var m := Moved(s, key);
    var dom := m.dom[cell := At(m.dom, cell) + weight];
    assert cell in dom;
    State(m.rows, Some(key), dom)
  }

  // The keys strictly between the first and the last of a range belong to it outright.
  ghost function Fill(s: State, from: nat, cell: nat): State
    requires s.cur.Some? ==> s.dom != map[]
  {
    var f := Flush(s);
    f.(rows := Emitted(f.rows, from, cell))
  }

  // What the line loop does with one IPv6 range.
  ghost function Add(s: State, r: Range): (t: State)
    requires s.cur.Some? ==> s.dom != map[]
    ensures t.dom != map[] && t.cur.Some?
  {
    var wa: int, wb: int := Unit(r.first), Unit(r.last);
    var ka, kb := Key(r.first), Key(r.last);
    if ka == kb then Take(s, ka, r.cell, wb - wa + 1)
    else AddRest(Take(s, ka, r.cell, (ka + 1) * 65536 - wa), ka, kb, wb, r.cell)
  }

  // ... after the first key of a range that spans several.
  ghost function AddRest(t: State, ka: nat, kb: nat, wb: int, cell: nat): (u: State)
    requires t.cur.Some? ==> t.dom != map[]
    ensures u.dom != map[] && u.cur.Some?
  {
    Take(if kb > ka + 1 then Fill(t, ka + 1, cell) else t, kb, cell, wb - kb * 65536 + 1)
  }

  // The highest key any range has covered.
  function End(rs: seq<Range>): Option<nat>
  {
    if rs == [] then None else EndAfter(End(rs[..|rs| - 1]), rs[|rs| - 1])
  }

  function EndAfter(end: Option<nat>, r: Range): Option<nat>
  {
    Some(if end.None? then Key(r.last) else Max(Key(r.last), end.value))
  }

  ghost function AddAll(rs: seq<Range>): (s: State)
    ensures s.cur.Some? ==> s.dom != map[]
  {
    if rs == [] then State([], None, map[]) else Add(AddAll(rs[..|rs| - 1]), rs[|rs| - 1])
  }

  lemma AddAllAppend(rs: seq<Range>, r: Range)
    ensures AddAll(rs + [r]) == Add(AddAll(rs), r)
    ensures End(rs + [r]) == EndAfter(End(rs), r)
  {
    assert (rs + [r])[..|rs|] == rs;
  }

  // The final flush, and the closing row above everything the source covers.
  ghost function Close(s: State, end: Option<nat>): seq<Row>
    requires s.cur.Some? ==> s.dom != map[]
  {
    var rows := Flush(s).rows;
    if end.Some? && end.value < TOP then Emitted(rows, end.value + 1, UNK) else rows
  }

  ghost function Table(rs: seq<Range>): seq<Row> { Close(AddAll(rs), End(rs)) }

  // ---- the invariant ------------------------------------------------------------------

  // Every key below `next` is settled in the rows, the accumulator holds exactly the
  // weights of key `next`, and nothing has been credited above it.
  ghost predicate Inv(ss: seq<Span>, s: State, next: nat)
  {
    && WellFormed(s.rows)
    && (s.rows != [] ==> s.rows[|s.rows| - 1].start < next)
    && (s.cur.Some? ==> s.cur.value == next && s.dom != map[])
    && (s.cur.None? ==> s.dom == map[])
    && (forall k: nat :: k < next ==> Dominant(ss, k, Lookup(s.rows, k)))
    && (forall c: nat :: Total(ss, next, c) == At(s.dom, c))
    && (forall c :: c in s.dom ==> s.dom[c] > 0)
    && (forall k: nat, c: nat :: k > next ==> Total(ss, k, c) == 0)
  }

  // Only the totals matter to the invariant.
  lemma DominantCongruence(ss: seq<Span>, tt: seq<Span>, key: nat, cell: nat)
    requires forall c: nat :: Total(ss, key, c) == Total(tt, key, c)
    requires Dominant(ss, key, cell)
    ensures Dominant(tt, key, cell)
  {
    var v, w := c => Total(ss, key, c), c => Total(tt, key, c);
    assert forall c: nat :: v(c) == w(c);
  }

  lemma InvCongruence(ss: seq<Span>, tt: seq<Span>, s: State, next: nat)
    requires forall k: nat, c: nat :: Total(ss, k, c) == Total(tt, k, c)
    requires Inv(ss, s, next)
    ensures Inv(tt, s, next)
  {
    forall k: nat | k < next ensures Dominant(tt, k, Lookup(s.rows, k)) {
      DominantCongruence(ss, tt, k, Lookup(s.rows, k));
    }
  }

  lemma TotalAppend(ss: seq<Span>, p: Span)
    ensures forall k: nat, c: nat :: Total(ss + [p], k, c) == Total(ss, k, c) + if p.cell == c then Weight(p, k) else 0
  {
    assert (ss + [p])[..|ss|] == ss;
  }

  // An accumulator entry with the largest count is the dominant cell of its key.
  lemma MaxItemDominates(ss: seq<Span>, s: State, next: nat)
    requires Inv(ss, s, next) && s.cur.Some?
    ensures Dominant(ss, next, MaxItem(s.dom))
  {
    var best := MaxItem(s.dom);
    assert Total(ss, next, best) == s.dom[best] > 0;
    forall c: nat
      ensures Total(ss, next, c) < Total(ss, next, best) || (Total(ss, next, c) == Total(ss, next, best) && best <= c)
    {
      assert Total(ss, next, c) == At(s.dom, c);
    }
    assert Wins(c => Total(ss, next, c), best);
  }

  // Flushing settles the current key.
  lemma FlushInv(ss: seq<Span>, s: State, next: nat)
    requires Inv(ss, s, next) && s.cur.Some?
    ensures Inv(ss, Flush(s), next + 1)
  {
    var best := MaxItem(s.dom);
    MaxItemDominates(ss, s, next);
    EmittedWellFormed(s.rows, next, best);
    forall k: nat | k < next + 1
      ensures Dominant(ss, k, Lookup(Flush(s).rows, k))
    {
      EmittedMeaning(s.rows, next, best, k);
    }
  }

  // Keys nothing touched may be skipped by an unknown row.
  lemma SkipInv(ss: seq<Span>, s: State, next: nat, key: nat)
    requires Inv(ss, s, next) && s.cur.None? && next < key
    ensures Inv(ss, s.(rows := Emitted(s.rows, next, UNK)), key)
  {
    EmittedWellFormed(s.rows, next, UNK);
    forall k: nat | k < key
      ensures Dominant(ss, k, Lookup(Emitted(s.rows, next, UNK), k))
    {
      EmittedMeaning(s.rows, next, UNK, k);
      assert next <= k ==> forall c: nat :: Total(ss, k, c) == 0;
    }
  }

  // Before the first row everything is unknown anyway.
  lemma StartInv(ss: seq<Span>, s: State, key: nat)
    requires Inv(ss, s, 0) && s.cur.None?
    ensures Inv(ss, s, key)
  {
    if s.rows != [] {
      assert false;
    }
    forall k: nat | k < key ensures Dominant(ss, k, Lookup(s.rows, k)) {
      assert forall c: nat :: Total(ss, k, c) == 0;
    }
  }

  lemma MovedInv(ss: seq<Span>, s: State, next: nat, key: nat)
    requires Inv(ss, s, next) && next <= key
    requires s.cur.None? ==> next == key || next == 0
    ensures Inv(ss, Moved(s, key), key)
  {
    if s.cur.None? {
      if next != key {
        StartInv(ss, s, key);
      }
    } else if next != key {
      FlushInv(ss, s, next);
      if key > next + 1 {
        SkipInv(ss, Flush(s), next + 1, key);
        assert Moved(s, key) == Flush(s).(rows := Emitted(Flush(s).rows, next + 1, UNK));
      } else {
        assert Moved(s, key) == Flush(s);
      }
    }
  }

  lemma WeightInsideKey(p: Span, key: nat, k: nat)
    requires key * 65536 <= p.lo <= p.hi < key * 65536 + 65536
    ensures Weight(p, k) == if k == key then p.hi + 1 - p.lo else 0
  {
    if k < key {
      assert (k + 1) * 65536 <= key * 65536;
    } else if k > key {
      assert (key + 1) * 65536 <= k * 65536;
    }
  }

  lemma WeightOfWholeKeys(p: Span, from: nat, key: nat, k: nat)
    requires p.lo == from * 65536 && p.hi + 1 == key * 65536
    ensures Weight(p, k) == if from <= k < key then 65536 else 0
  {
    if k < from {
      assert (k + 1) * 65536 <= from * 65536;
    } else if k >= key {
      assert key * 65536 <= k * 65536;
    } else {
      assert from * 65536 <= k * 65536 && (k + 1) * 65536 <= key * 65536;
    }
  }

  // Crediting a span that lies inside one key, at or above the current one.
  lemma TakeInv(ss: seq<Span>, s: State, next: nat, p: Span, key: nat)
    requires Inv(ss, s, next) && next <= key
    requires s.cur.None? ==> next == key || next == 0
    requires key * 65536 <= p.lo <= p.hi < key * 65536 + 65536
    ensures Inv(ss + [p], Take(s, key, p.cell, p.hi - p.lo + 1), key)
  {
    MovedInv(ss, s, next, key);
    CreditInv(ss, Moved(s, key), p, key);
  }

  lemma CreditInv(ss: seq<Span>, m: State, p: Span, key: nat)
    requires Inv(ss, m, key)
    requires key * 65536 <= p.lo <= p.hi < key * 65536 + 65536
    ensures Inv(ss + [p],
                State(m.rows, Some(key), m.dom[p.cell := At(m.dom, p.cell) + (p.hi - p.lo + 1)]), key)
  {
    TotalAppend(ss, p);
    forall k: nat ensures Weight(p, k) == if k == key then p.hi + 1 - p.lo else 0 {
      WeightInsideKey(p, key, k);
    }
    forall k: nat | k < key
      ensures Dominant(ss + [p], k, Lookup(m.rows, k))
    {
      DominantCongruence(ss, ss + [p], k, Lookup(m.rows, k));
    }
  }

  // A run of whole keys, right after the current one, belongs to its span outright.
  lemma FillInv(ss: seq<Span>, s: State, from: nat, p: Span, key: nat)
    requires from > 0 && Inv(ss, s, from - 1) && s.cur.Some? && from < key
    requires p.lo == from * 65536 && p.hi + 1 == key * 65536
    ensures Inv(ss + [p], Fill(s, from, p.cell), key)
  {
    FlushInv(ss, s, from - 1);
    RunInv(ss, Flush(s), from, p, key);
  }

  lemma RunInv(ss: seq<Span>, f: State, from: nat, p: Span, key: nat)
    requires Inv(ss, f, from) && f.cur.None? && from < key
    requires p.lo == from * 65536 && p.hi + 1 == key * 65536
    ensures Inv(ss + [p], f.(rows := Emitted(f.rows, from, p.cell)), key)
  {
    var rows := Emitted(f.rows, from, p.cell);
    TotalAppend(ss, p);
    EmittedWellFormed(f.rows, from, p.cell);
    forall k: nat ensures Weight(p, k) == if from <= k < key then 65536 else 0 {
      WeightOfWholeKeys(p, from, key, k);
    }
    forall k: nat | k < key
      ensures Dominant(ss + [p], k, Lookup(rows, k))
    {
      EmittedMeaning(f.rows, from, p.cell, k);
      if k < from {
        DominantCongruence(ss, ss + [p], k, Lookup(rows, k));
      } else {
        SoleCell(ss, p, k);
      }
    }
  }

  lemma SoleCell(ss: seq<Span>, p: Span, k: nat)
    requires forall c: nat :: Total(ss, k, c) == 0
    requires Weight(p, k) > 0
    ensures Dominant(ss + [p], k, p.cell)
  {
    TotalAppend(ss, p);
    assert Total(ss + [p], k, p.cell) > 0;
    assert Wins(c => Total(ss + [p], k, c), p.cell);
  }

  // Cutting a span in two at any block leaves every total as it was.
  lemma SplitTotals(ss: seq<Span>, p: Span, cut: nat)
    requires p.lo < cut <= p.hi
    ensures forall k: nat, c: nat ::
              Total(ss + [p], k, c) == Total(ss + [p.(hi := cut - 1)] + [p.(lo := cut)], k, c)
  {
    var head, tail := p.(hi := cut - 1), p.(lo := cut);
    TotalAppend(ss, p);
    TotalAppend(ss, head);
    TotalAppend(ss + [head], tail);
  }

  lemma KeyOfUnit(addr: nat)
    ensures Key(addr) == Unit(addr) / 65536
    ensures Key(addr) * 65536 <= Unit(addr) < Key(addr) * 65536 + 65536
  {
  }

  lemma Rejoin(ss: seq<Span>, p: Span, cut: nat, s: State, next: nat)
    requires p.lo < cut <= p.hi
    requires Inv(ss + [p.(hi := cut - 1)] + [p.(lo := cut)], s, next)
    ensures Inv(ss + [p], s, next)
  {
    SplitTotals(ss, p, cut);
    InvCongruence(ss + [p.(hi := cut - 1)] + [p.(lo := cut)], ss + [p], s, next);
  }

  // One source range keeps the invariant and moves it to the range's last key.
  lemma AddInv(ss: seq<Span>, s: State, next: nat, r: Range)
    requires Inv(ss, s, next) && r.first <= r.last && next <= Key(r.first)
    requires if s.cur.None? then next == 0 else s.dom != map[]
    ensures Inv(ss + [SpanOf(r)], Add(s, r), Key(r.last))
  {
    hide Inv, Take, AddRest;
    KeyOfUnit(r.first);
    KeyOfUnit(r.last);
    if Key(r.first) == Key(r.last) {
      TakeInv(ss, s, next, SpanOf(r), Key(r.first));
    } else {
      AddWideInv(ss, s, next, Key(r.first), Key(r.last), SpanOf(r));
    }
  }

  // A range over several keys: cut it where its first key ends.
  lemma AddWideInv(ss: seq<Span>, s: State, next: nat, ka: nat, kb: nat, p: Span)
    requires Inv(ss, s, next) && next <= ka < kb
    requires if s.cur.None? then next == 0 else s.dom != map[]
    requires ka * 65536 <= p.lo < ka * 65536 + 65536 && kb * 65536 <= p.hi < kb * 65536 + 65536
    ensures Inv(ss + [p], AddRest(Take(s, ka, p.cell, (ka + 1) * 65536 - p.lo), ka, kb, p.hi, p.cell), kb)
  {
    hide Inv, Take, AddRest;
    var cut := (ka + 1) * 65536;
    var t := Take(s, ka, p.cell, cut - p.lo);
    TakeInv(ss, s, next, p.(hi := cut - 1), ka);
    AddRestInv(ss + [p.(hi := cut - 1)], t, ka, kb, p.(lo := cut));
    Rejoin(ss, p, cut, AddRest(t, ka, kb, p.hi, p.cell), kb);
  }

  lemma AddRestInv(ss: seq<Span>, t: State, ka: nat, kb: nat, p: Span)
    requires ka < kb && p.lo == (ka + 1) * 65536 && kb * 65536 <= p.hi < kb * 65536 + 65536
    requires Inv(ss, t, ka) && t.cur.Some?
    ensures Inv(ss + [p], AddRest(t, ka, kb, p.hi, p.cell), kb)
  {
    if kb == ka + 1 {
      TakeInv(ss, t, ka, p, kb);
    } else {
      // Cut again where the last key begins.
      FillInv(ss, t, ka + 1, p.(hi := kb * 65536 - 1), kb);
      LastKeyInv(ss, Fill(t, ka + 1, p.cell), p, kb);
    }
  }

  lemma LastKeyInv(ss: seq<Span>, f: State, p: Span, kb: nat)
    requires p.lo < kb * 65536 <= p.hi < kb * 65536 + 65536
    requires Inv(ss + [p.(hi := kb * 65536 - 1)], f, kb)
    ensures Inv(ss + [p], Take(f, kb, p.cell, p.hi - kb * 65536 + 1), kb)
  {
    var cut := kb * 65536;
    TakeInv(ss + [p.(hi := cut - 1)], f, kb, p.(lo := cut), kb);
    Rejoin(ss, p, cut, Take(f, kb, p.cell, p.hi - cut + 1), kb);
  }

  lemma {:induction false} EndIsLast(rs: seq<Range>)
    requires Sorted(rs) && rs != []
    ensures End(rs) == Some(Key(rs[|rs| - 1].last))
  {
    var n := |rs| - 1;
    if n > 0 {
      EndIsLast(rs[..n]);
      assert rs[n - 1].last < rs[n].first;
    }
  }

  lemma {:induction false} AddAllInv(rs: seq<Range>)
    requires Sorted(rs) && rs != []
    ensures Inv(Spans(rs), AddAll(rs), Key(rs[|rs| - 1].last)) && AddAll(rs).cur.Some?
  {
    var n := |rs| - 1;
    var s := AddAll(rs[..n]);
    assert Spans(rs) == Spans(rs[..n]) + [SpanOf(rs[n])];
    if n == 0 {
      AddInv([], s, 0, rs[n]);
    } else {
      AddAllInv(rs[..n]);
      assert Key(rs[n - 1].last) <= Key(rs[n].first) by { assert rs[n - 1].last < rs[n].first; }
      AddInv(Spans(rs[..n]), s, Key(rs[n - 1].last), rs[n]);
    }
  }

  lemma KeyBelowTop(addr: nat)
    requires addr < SPACE
    ensures Key(addr) <= TOP
  {
  }

  lemma CloseInv(ss: seq<Span>, s: State, last: nat)
    requires Inv(ss, s, last) && s.cur.Some? && last <= TOP
    ensures Inv(ss, Flush(s).(rows := Close(s, Some(last))), TOP + 1)
  {
    FlushInv(ss, s, last);
    if last < TOP {
      SkipInv(ss, Flush(s), last + 1, TOP + 1);
    }
  }

  lemma SpansDominate(rs: seq<Range>)
    requires Sorted(rs)
    ensures WellFormed(Table(rs))
    ensures forall key: nat :: key <= TOP ==> Dominant(Spans(rs), key, Lookup(Table(rs), key))
    ensures forall i :: 0 <= i < |Table(rs)| ==> Table(rs)[i].start <= TOP
  {
    if rs != [] {
      AddAllInv(rs);
      EndIsLast(rs);
      KeyBelowTop(rs[|rs| - 1].last);
      CloseInv(Spans(rs), AddAll(rs), Key(rs[|rs| - 1].last));
      StartsBelow(Table(rs), TOP + 1);
    }
  }

  /** For every sorted, disjoint list of IPv6 ranges and every /32 key, the streamed table
      answers with the cell that the ranges give the most /48 blocks of the key (ties to the
      lower id), and unknown where no range has an address.  The rows ascend strictly, never
      repeat a cell, and fit 32 bits. */
  lemma TableDominates(rs: seq<Range>)
    requires Sorted(rs)
    ensures WellFormed(Table(rs))
    ensures forall key: nat :: key <= TOP ==> Dominates(rs, key, Lookup(Table(rs), key))
    ensures forall i :: 0 <= i < |Table(rs)| ==> Table(rs)[i].start <= TOP
  {
    SpansDominate(rs);
    hide Dominates, Dominant, Table, Lookup;
    forall key: nat | key <= TOP ensures Dominates(rs, key, Lookup(Table(rs), key)) {
      DominatesIff(rs, key, Lookup(Table(rs), key));
    }
  }

  ghost predicate HasAddress(r: Range, key: nat, addr: nat)
  {
    r.first <= addr <= r.last && addr / 0x1_0000_0000_0000_0000_0000_0000 == key
  }

  // No range has an address under the key.
  ghost predicate Untouched(rs: seq<Range>, key: nat)
  {
    forall i, addr: nat :: 0 <= i < |rs| ==> !HasAddress(rs[i], key, addr)
  }

  // An address of the range lies in one of the blocks, and every touched block holds one.
  lemma AddressTouches(r: Range, key: nat, addr: nat)
    requires HasAddress(r, key, addr)
    ensures addr / 0x1_0000_0000_0000_0000_0000 in Blocks(r, key)
  {
    KeyOfUnit(addr);
    var block: nat := addr / 0x1_0000_0000_0000_0000_0000;
    assert Touches(r, block);
    assert block in Interval(key * 65536, key * 65536 + 65536 - 1);
  }

  lemma TouchedAddress(r: Range, key: nat, block: int) returns (addr: nat)
    requires r.first <= r.last && block in Blocks(r, key)
    ensures HasAddress(r, key, addr)
  {
    addr := Max(r.first, block * 0x1_0000_0000_0000_0000_0000);
  }

  lemma SomeBlock(r: Range, key: nat) returns (block: int)
    requires |Blocks(r, key)| != 0
    ensures block in Blocks(r, key)
  {
    block :| block in Blocks(r, key);
  }

  lemma {:induction false} ShareWitness(rs: seq<Range>, key: nat, cell: nat) returns (i: nat, block: int)
    requires Share(rs, key, cell) > 0
    ensures i < |rs| && rs[i].cell == cell && block in Blocks(rs[i], key)
  {
    hide Blocks;
    i := |rs| - 1;
    if rs[i].cell != cell || |Blocks(rs[i], key)| == 0 {
      i, block := ShareWitness(rs[..i], key, cell);
    } else {
      block := SomeBlock(rs[i], key);
    }
  }

  lemma {:induction false} ShareAtLeast(rs: seq<Range>, key: nat, i: nat)
    requires i < |rs|
    ensures Share(rs, key, rs[i].cell) >= |Blocks(rs[i], key)|
  {
    hide Blocks;
    if i < |rs| - 1 {
      ShareAtLeast(rs[..|rs| - 1], key, i);
    }
  }

  // A cell with a share owns a range that has an address under the key.
  lemma ShareAddress(rs: seq<Range>, key: nat, cell: nat) returns (i: nat, addr: nat)
    requires Sorted(rs) && Share(rs, key, cell) > 0
    ensures i < |rs| && rs[i].cell == cell && HasAddress(rs[i], key, addr)
  {
    hide Blocks, Share, HasAddress;
    var block;
    i, block := ShareWitness(rs, key, cell);
    addr := TouchedAddress(rs[i], key, block);
  }

  /** No cell has a share exactly when no range has an address under the key. */
  lemma WeightlessIffUntouched(rs: seq<Range>, key: nat)
    requires Sorted(rs)
    ensures Shareless(rs, key) <==> Untouched(rs, key)
  {
    hide Share, Blocks, HasAddress;
    if Shareless(rs, key) {
      forall i, addr: nat | 0 <= i < |rs| ensures !HasAddress(rs[i], key, addr) {
        if HasAddress(rs[i], key, addr) {
          AddressTouches(rs[i], key, addr);
          ShareAtLeast(rs, key, i);
        }
      }
    } else {
      var c: nat :| Share(rs, key, c) != 0;
      var i, addr := ShareAddress(rs, key, c);
    }
  }
}
