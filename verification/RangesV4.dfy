/** IPv4 half of the range compiler: address ranges become runs, holes become explicit
    unknown runs. */
module RangesV4 {
  import opened StepTable
  import opened Options

  // Source ranges arrive sorted and disjoint, inside the 32-bit address space.
  ghost predicate Sorted(rs: seq<Range>)
  {
    && (forall i :: 0 <= i < |rs| ==> rs[i].first <= rs[i].last <= TOP)
    && (forall i, j :: 0 <= i < j < |rs| ==> rs[i].last < rs[j].first)
  }

  /** The simple meaning the table must agree with: the cell of the range that holds the
      address, or unknown. */
  function CellAt(rs: seq<Range>, addr: nat): nat
  {
    if rs == [] then UNK
    else if rs[|rs| - 1].first <= addr <= rs[|rs| - 1].last then rs[|rs| - 1].cell
    else CellAt(rs[..|rs| - 1], addr)
  }

  // CellAt is the plain reading of a disjoint list: it finds any range that holds the
  // address, and nothing else.
  lemma {:induction false} CellAtRange(rs: seq<Range>, addr: nat, i: nat)
    requires Sorted(rs) && i < |rs| && rs[i].first <= addr <= rs[i].last
    ensures CellAt(rs, addr) == rs[i].cell
  {
    if i < |rs| - 1 {
      CellAtRange(rs[..|rs| - 1], addr, i);
    }
  }

  lemma {:induction false} CellAtHole(rs: seq<Range>, addr: nat)
    requires forall i :: 0 <= i < |rs| ==> !(rs[i].first <= addr <= rs[i].last)
    ensures CellAt(rs, addr) == UNK
  {
    if rs != [] {
      CellAtHole(rs[..|rs| - 1], addr);
    }
  }

  // Unknown exactly in a hole or in a range that is itself unplaceable.
  lemma {:induction false} UnknownIff(rs: seq<Range>, addr: nat)
    requires Sorted(rs)
    ensures CellAt(rs, addr) == UNK
       <==> forall i :: 0 <= i < |rs| && rs[i].first <= addr <= rs[i].last ==> rs[i].cell == UNK
  {
    if i :| 0 <= i < |rs| && rs[i].first <= addr <= rs[i].last {
      CellAtRange(rs, addr, i);
      forall j | 0 <= j < |rs| && rs[j].first <= addr <= rs[j].last ensures rs[j].cell == rs[i].cell {
        CellAtRange(rs, addr, j);
      }
    } else {
      CellAtHole(rs, addr);
    }
  }

  datatype State = State(rows: seq<Row>, end: Option<nat>)

  // The rows just before the new range is emitted: a hole after the last range is closed.
  function Gapped(s: State, first: nat): seq<Row>
  {
    if s.end.Some? && first > s.end.value + 1 then Emitted(s.rows, s.end.value + 1, UNK) else s.rows
  }

  // What the line loop does with one IPv4 range.
  function Add(s: State, r: Range): State
  {
    State(Emitted(Gapped(s, r.first), r.first, r.cell), Some(if s.end.None? then r.last else Max(r.last, s.end.value)))
  }

  function AddAll(rs: seq<Range>): State
  {
    if rs == [] then State([], None) else Add(AddAll(rs[..|rs| - 1]), rs[|rs| - 1])
  }

  lemma AddAllAppend(rs: seq<Range>, r: Range)
    ensures AddAll(rs + [r]) == Add(AddAll(rs), r)
  {
    assert (rs + [r])[..|rs|] == rs;
  }

  // Closing the table at the top of the key space.
  function Close(s: State): seq<Row>
  {
    if s.end.Some? && s.end.value < TOP then Emitted(s.rows, s.end.value + 1, UNK) else s.rows
  }

  // The rows are in order and the last one starts inside the last range.
  ghost predicate Shaped(rs: seq<Range>, s: State)
    requires rs != []
  {
    && WellFormed(s.rows) && s.rows != [] && s.rows[|s.rows| - 1].start <= rs[|rs| - 1].last
    && s.end == Some(rs[|rs| - 1].last)
  }

  // The rows agree with the ranges up to the end of the last range, and stay on its cell after it.
  ghost predicate Agrees(rs: seq<Range>, rows: seq<Row>)
    requires rs != []
  {
    var end := rs[|rs| - 1].last;
    forall k: nat :: Lookup(rows, k) == CellAt(rs, if k <= end then k else end)
  }

  lemma Ordered(rs: seq<Range>)
    requires Sorted(rs) && |rs| > 1
    ensures rs[|rs| - 2].last < rs[|rs| - 1].first
  {
  }

  lemma GapShape(s: State, first: nat)
    requires WellFormed(s.rows) && s.rows != [] && s.end.Some?
    requires s.rows[|s.rows| - 1].start <= s.end.value < first
    ensures var mid := Gapped(s, first); WellFormed(mid) && mid != [] && mid[|mid| - 1].start < first
  {
    if first > s.end.value + 1 {
      EmittedWellFormed(s.rows, s.end.value + 1, UNK);
    }
  }

  lemma GapMeaning(rs: seq<Range>, s: State, r: Range, k: nat)
    requires Sorted(rs + [r]) && rs != [] && Shaped(rs, s) && Agrees(rs, s.rows) && k < r.first
    ensures Lookup(Gapped(s, r.first), k) == CellAt(rs, k)
  {
    var end := rs[|rs| - 1].last;
    assert Lookup(s.rows, k) == CellAt(rs, if k <= end then k else end);
    if r.first > end + 1 {
      EmittedMeaning(s.rows, end + 1, UNK, k);
    }
    if end < k {
      HoleAfter(rs, r, k);
    }
  }

  lemma AddShaped(rs: seq<Range>, s: State, r: Range)
    requires Sorted(rs + [r]) && rs != [] && Shaped(rs, s)
    ensures Shaped(rs + [r], Add(s, r))
  {
    Ordered(rs + [r]);
    GapShape(s, r.first);
    EmittedWellFormed(Gapped(s, r.first), r.first, r.cell);
  }

  lemma AddAgrees(rs: seq<Range>, s: State, r: Range)
    requires Sorted(rs + [r]) && rs != [] && Shaped(rs, s) && Agrees(rs, s.rows)
    ensures Agrees(rs + [r], Add(s, r).rows)
  {
    var all := rs + [r];
    assert all[..|rs|] == rs && all[|rs|] == r;
    var mid := Gapped(s, r.first);
    Ordered(all);
    GapShape(s, r.first);
    forall k: nat
      ensures Lookup(Emitted(mid, r.first, r.cell), k) == CellAt(all, if k <= r.last then k else r.last)
    {
      EmittedMeaning(mid, r.first, r.cell, k);
      if k < r.first {
        GapMeaning(rs, s, r, k);
      }
    }
  }

  lemma FirstAgrees(r: Range)
    requires r.first <= r.last
    ensures Shaped([r], Add(State([], None), r)) && Agrees([r], Add(State([], None), r).rows)
  {
    assert [r][..0] == [];
    forall k: nat
      ensures Lookup(Emitted([], r.first, r.cell), k) == CellAt([r], if k <= r.last then k else r.last)
    {
      EmittedMeaning([], r.first, r.cell, k);
    }
  }

  lemma HoleAfter(rs: seq<Range>, r: Range, k: nat)
    requires Sorted(rs + [r]) && rs != [] && rs[|rs| - 1].last < k < r.first
    ensures CellAt(rs, k) == UNK
  {
    var all := rs + [r];
    forall i | 0 <= i < |rs| ensures rs[i].last < k {
      assert rs[i] == all[i] && rs[|rs| - 1] == all[|rs| - 1];
    }
    CellAtHole(rs, k);
  }

  lemma {:induction false} AddAllAgrees(rs: seq<Range>)
    requires Sorted(rs) && rs != []
    ensures Shaped(rs, AddAll(rs)) && Agrees(rs, AddAll(rs).rows)
  {
    var n := |rs| - 1;
    assert rs[..n] + [rs[n]] == rs;
    if n == 0 {
      FirstAgrees(rs[0]);
    } else {
      AddAllAgrees(rs[..n]);
      AddShaped(rs[..n], AddAll(rs[..n]), rs[n]);
      AddAgrees(rs[..n], AddAll(rs[..n]), rs[n]);
    }
  }

  function Table(rs: seq<Range>): seq<Row> { Close(AddAll(rs)) }

  // Closing the table keeps its shape and makes everything above the last range unknown.
  lemma CloseShape(rs: seq<Range>, s: State)
    requires rs != [] && Shaped(rs, s) && rs[|rs| - 1].last <= TOP
    ensures WellFormed(Close(s))
    ensures forall i :: 0 <= i < |Close(s)| ==> Close(s)[i].start < TOP + 1
  {
    var end := rs[|rs| - 1].last;
    if end < TOP {
      EmittedWellFormed(s.rows, end + 1, UNK);
    }
    StartsBelow(Close(s), TOP + 1);
  }

  lemma CloseAgrees(rs: seq<Range>, s: State, addr: nat)
    requires Sorted(rs) && rs != [] && Shaped(rs, s) && Agrees(rs, s.rows) && addr <= TOP
    ensures Lookup(Close(s), addr) == CellAt(rs, addr)
  {
    var end := rs[|rs| - 1].last;
    assert Lookup(s.rows, addr) == CellAt(rs, if addr <= end then addr else end);
    if end < TOP {
      EmittedMeaning(s.rows, end + 1, UNK, addr);
    }
    if end < addr {
      CellAtHole(rs, addr);
    }
  }

  /** For every sorted, disjoint list of IPv4 ranges the compiled table gives, at every
      32-bit address, exactly the cell of the range that holds it, and unknown in every
      hole - before the first range, between two ranges and above the last one.  The rows
      ascend strictly, never repeat a cell, and fit 32 bits. */
  lemma TableAgrees(rs: seq<Range>)
    requires Sorted(rs)
    ensures WellFormed(Table(rs))
    ensures forall i :: 0 <= i < |Table(rs)| ==> Table(rs)[i].start <= TOP
    ensures forall addr: nat :: addr <= TOP ==> Lookup(Table(rs), addr) == CellAt(rs, addr)
  {
    if rs != [] {
      AddAllAgrees(rs);
      CloseShape(rs, AddAll(rs));
      forall addr: nat | addr <= TOP
        ensures Lookup(Table(rs), addr) == CellAt(rs, addr)
      {
        CloseAgrees(rs, AddAll(rs), addr);
      }
    }
  }
}
