/** From source lines to an answered lookup: the generator's output, read by the name
    server's reader, agrees with the source ranges up to the folding tolerance. */
module GeoEndToEnd {
  import opened StepTable
  import opened Options
  import opened Simplify
  import opened GeoCompiler
  import Fnv
  import Grid
  import V4 = RangesV4
  import V6 = RangesV6
  import Blob = GeoBlob
  import Reader = GeoReader

  // A cell the compiler can produce: unknown, or a cell of the grid.
  predicate Placed(cell: nat) { cell == UNK || cell < Grid.CELLS }

  ghost predicate SourceSorted(lines: seq<Line>)
  {
    V4.Sorted(Ranges4(lines)) && V6.Sorted(Ranges6(lines))
  }

  ghost function Kept4(lines: seq<Line>, dist: Distance, tol: real): seq<Row>
  {
    Simplified(V4.Table(Ranges4(lines)), dist, tol)
  }

  ghost function Kept6(lines: seq<Line>, dist: Distance, tol: real): seq<Row>
  {
    Simplified(V6.Table(Ranges6(lines)), dist, tol)
  }

  // ---- every cell that reaches a table is placed --------------------------------------

  lemma {:induction false} SourceCellsPlaced(lines: seq<Line>)
    ensures forall i :: 0 <= i < |Ranges4(lines)| ==> Placed(Ranges4(lines)[i].cell)
    ensures forall i :: 0 <= i < |Ranges6(lines)| ==> Placed(Ranges6(lines)[i].cell)
  {
    if lines != [] {
      SourceCellsPlaced(lines[..|lines| - 1]);
    }
  }

  lemma {:induction false} CellAtPlaced(rs: seq<Range>, addr: nat)
    requires forall i :: 0 <= i < |rs| ==> Placed(rs[i].cell)
    ensures Placed(V4.CellAt(rs, addr))
  {
    if rs != [] {
      CellAtPlaced(rs[..|rs| - 1], addr);
    }
  }

  lemma DominatesPlaced(rs: seq<Range>, key: nat, cell: nat)
    requires forall i :: 0 <= i < |rs| ==> Placed(rs[i].cell)
    requires V6.Dominates(rs, key, cell)
    ensures Placed(cell)
  {
    if !V6.Shareless(rs, key) {
      assert V6.Wins(c => V6.Share(rs, key, c), cell);
      var i, block := V6.ShareWitness(rs, key, cell);
    }
  }

  // A row's cell is what the table answers at the row's own start.
  lemma RowCell(rows: seq<Row>, i: nat)
    requires Ascending(rows) && i < |rows|
    ensures Lookup(rows, rows[i].start) == rows[i].cell
  {
    LookupInSpan(rows, rows[i].start, i);
  }

  lemma Table4Row(lines: seq<Line>, i: nat)
    requires V4.Sorted(Ranges4(lines)) && i < |V4.Table(Ranges4(lines))|
    ensures var row := V4.Table(Ranges4(lines))[i]; Placed(row.cell) && Blob.RowFits(row)
  {
    hide V4.Table, V4.CellAt, Lookup;
    var rs := Ranges4(lines);
    V4.TableAgrees(rs);
    RowCell(V4.Table(rs), i);
    SourceCellsPlaced(lines);
    CellAtPlaced(rs, V4.Table(rs)[i].start);
  }

  lemma Table6Row(lines: seq<Line>, i: nat)
    requires V6.Sorted(Ranges6(lines)) && i < |V6.Table(Ranges6(lines))|
    ensures var row := V6.Table(Ranges6(lines))[i]; Placed(row.cell) && Blob.RowFits(row)
  {
    hide V6.Table, V6.Dominates, Lookup;
    var rs := Ranges6(lines);
    V6.TableDominates(rs);
    RowCell(V6.Table(rs), i);
    SourceCellsPlaced(lines);
    DominatesPlaced(rs, V6.Table(rs)[i].start, V6.Table(rs)[i].cell);
  }

  lemma KeptRowsFit(table: seq<Row>, dist: Distance, tol: real)
    requires forall i :: 0 <= i < |table| ==> Blob.RowFits(table[i])
    ensures Blob.RowsFit(Simplified(table, dist, tol))
  {
    var out := Simplified(table, dist, tol);
    forall i | 0 <= i < |out| ensures Blob.RowFits(out[i]) {
      KeepsRows(table, dist, tol, i);
    }
  }

  // So packing can only fail on the row counts.
  lemma KeptFits(lines: seq<Line>, dist: Distance, tol: real)
    requires SourceSorted(lines)
    ensures Blob.Fits(Kept4(lines, dist, tol), Kept6(lines, dist, tol))
       <==> |Kept4(lines, dist, tol)| < 0x1_0000_0000 && |Kept6(lines, dist, tol)| < 0x1_0000_0000
  {
    hide V4.Table, V6.Table, Simplified, Blob.RowFits, Blob.RowsFit;
    forall i | 0 <= i < |V4.Table(Ranges4(lines))| ensures Blob.RowFits(V4.Table(Ranges4(lines))[i]) {
      Table4Row(lines, i);
    }
    forall i | 0 <= i < |V6.Table(Ranges6(lines))| ensures Blob.RowFits(V6.Table(Ranges6(lines))[i]) {
      Table6Row(lines, i);
    }
    KeptRowsFit(V4.Table(Ranges4(lines)), dist, tol);
    KeptRowsFit(V6.Table(Ranges6(lines)), dist, tol);
  }

  // ---- the generator ------------------------------------------------------------------

  /** The whole generator run.  On sorted input it fails only when a table has 2^32 rows or
      more, and otherwise writes the blob of the two simplified tables. */
  method Generate(lines: seq<Line>, dist: Distance, tol: real) returns (r: Result<seq<Fnv.Byte>, Blob.PackError>)
    requires SourceSorted(lines)
    ensures r.Ok? <==> |Kept4(lines, dist, tol)| < 0x1_0000_0000 && |Kept6(lines, dist, tol)| < 0x1_0000_0000
    ensures r.Ok? ==> r.value == Blob.Blob(Kept4(lines, dist, tol), Kept6(lines, dist, tol))
  {
    hide V4.Table, V6.Table, Simplified, Blob.Fits, Blob.Blob;
    var runs4, runs6 := GeoCompiler.Parse(lines);
    var t4 := SimplifyRuns(runs4, dist, tol);
    var t6 := SimplifyRuns(runs6, dist, tol);
    r := Blob.Encode(t4, t6);
    KeptFits(lines, dist, tol);
  }

  // ---- the served answers -------------------------------------------------------------

  // `answer` is right for an address whose source cell is `truth`: none exactly when the
  // source cannot place the address, else the centre of a grid cell within the tolerance.
  ghost predicate Serves(answer: Option<Grid.Point>, truth: nat, dist: Distance, tol: real)
  {
    if truth == UNK then answer == None
    else exists kept: nat {:trigger Grid.CenterOf(kept)} ::
        && kept < Grid.CELLS && answer == Grid.CenterOf(kept)
        && (kept == truth || dist(kept, truth) <= tol)
  }

  lemma CenterMatchesGrid(t: Reader.Table, cell: nat)
    requires t.nlon == 360 && t.degTenths == 10 && Placed(cell)
    ensures Reader.Center(t, cell) == Grid.CenterOf(cell)
  {
  }

  lemma FoldServes(t: Reader.Table, kept: nat, truth: nat, dist: Distance, tol: real)
    requires t.nlon == 360 && t.degTenths == 10 && Placed(kept) && Folds(kept, truth, dist, tol)
    ensures Serves(Reader.Center(t, kept), truth, dist, tol)
  {
    CenterMatchesGrid(t, kept);
    if kept != UNK {
      assert Reader.Center(t, kept) == Grid.CenterOf(kept);
    }
  }

  lemma LookupPlaced(rows: seq<Row>, key: nat)
    requires forall i :: 0 <= i < |rows| ==> Placed(rows[i].cell)
    ensures Placed(Lookup(rows, key))
  {
    if rows != [] {
      LookupPlaced(rows[..|rows| - 1], key);
    }
  }

  // The kept answer at a key, folded from the exact one.
  lemma KeptAnswer(table: seq<Row>, dist: Distance, tol: real, key: nat)
    requires Ascending(table) && forall i :: 0 <= i < |table| ==> Placed(table[i].cell)
    ensures var kept := Simplified(table, dist, tol);
            && Ascending(kept) && Placed(Lookup(kept, key))
            && Folds(Lookup(kept, key), Lookup(table, key), dist, tol)
  {
    var kept := Simplified(table, dist, tol);
    KeepsOrder(table, dist, tol);
    WithinTolerance(table, dist, tol, key);
    forall i | 0 <= i < |kept| ensures Placed(kept[i].cell) {
      KeepsRows(table, dist, tol, i);
    }
    LookupPlaced(kept, key);
  }

  ghost function Written(lines: seq<Line>, dist: Distance, tol: real): seq<Fnv.Byte>
  {
    Blob.Blob(Kept4(lines, dist, tol), Kept6(lines, dist, tol))
  }

  /** End to end for IPv4: for every file whose ranges are sorted and disjoint, every
      distance function and tolerance, and every address, the reader accepts the written
      blob, its rows are in search order, and its answer serves the source: none exactly in
      holes and unplaceable ranges, else the centre of a cell within the tolerance of the
      cell of the range that holds the address. */
  lemma ServesV4(lines: seq<Line>, dist: Distance, tol: real, addr: nat)
    requires SourceSorted(lines) && addr <= TOP
    requires |Kept4(lines, dist, tol)| < 0x1_0000_0000 && |Kept6(lines, dist, tol)| < 0x1_0000_0000
    ensures var parsed := Reader.Parse(Written(lines, dist, tol));
            && parsed.Ok? && parsed.value.nlon > 0
            && Ascending(Blob.Rows(parsed.value.rows4))
            && Serves(Reader.Located(parsed.value, Reader.V4(addr)), V4.CellAt(Ranges4(lines), addr), dist, tol)
  {
    hide V4.Table, V6.Table, Simplified, Reader.Parse, Blob.Rows, Blob.Fits, Blob.Blob, Blob.PackRows, Serves;
    hide V4.CellAt, Reader.Center, Lookup;
    var rs := Ranges4(lines);
    var kept := Kept4(lines, dist, tol);
    KeptFits(lines, dist, tol);
    Reader.ReadsBack(kept, Kept6(lines, dist, tol));
    V4.TableAgrees(rs);
    forall i | 0 <= i < |V4.Table(rs)| ensures Placed(V4.Table(rs)[i].cell) {
      Table4Row(lines, i);
    }
    KeptAnswer(V4.Table(rs), dist, tol, addr);
    var t := Reader.Parse(Written(lines, dist, tol)).value;
    FoldServes(t, Lookup(kept, addr), V4.CellAt(rs, addr), dist, tol);
  }

  /** End to end for IPv6: at every address the answer serves the cell to which the source
      ranges give the most /48 blocks of the address's /32. */
  lemma ServesV6(lines: seq<Line>, dist: Distance, tol: real, addr: nat, truth: nat)
    requires SourceSorted(lines) && addr < V6.SPACE
    requires |Kept4(lines, dist, tol)| < 0x1_0000_0000 && |Kept6(lines, dist, tol)| < 0x1_0000_0000
    requires V6.Dominates(Ranges6(lines), addr / 0x1_0000_0000_0000_0000_0000_0000, truth)
    ensures var parsed := Reader.Parse(Written(lines, dist, tol));
            && parsed.Ok? && parsed.value.nlon > 0
            && Ascending(Blob.Rows(parsed.value.rows6))
            && Serves(Reader.Located(parsed.value, Reader.V6(addr)), truth, dist, tol)
  {
    hide V4.Table, V6.Table, Simplified, Reader.Parse, Blob.Rows, Blob.Fits, Blob.Blob, Blob.PackRows, Serves;
    hide V6.Dominates, Reader.Center, Lookup;
    var rs, key := Ranges6(lines), addr / 0x1_0000_0000_0000_0000_0000_0000;
    var kept := Kept6(lines, dist, tol);
    KeptFits(lines, dist, tol);
    Reader.ReadsBack(Kept4(lines, dist, tol), kept);
    V6.TableDominates(rs);
    V6.KeyBelowTop(addr);
    V6.DominatesUnique(rs, key, Lookup(V6.Table(rs), key), truth);
    forall i | 0 <= i < |V6.Table(rs)| ensures Placed(V6.Table(rs)[i].cell) {
      Table6Row(lines, i);
    }
    KeptAnswer(V6.Table(rs), dist, tol, key);
    var t := Reader.Parse(Written(lines, dist, tol)).value;
    FoldServes(t, Lookup(kept, key), truth, dist, tol);
  }

  // ---- from the lines themselves ------------------------------------------------------

  // The line says where its addresses are: not the "unplaceable" country, not null island.
  predicate Placeable(l: Line) { !l.Skipped? && !l.zz && !(l.at.lat == 0.0 && l.at.lon == 0.0) }

  /** A placeable line gets a cell whose centre is within half a degree of the line's own
      coordinates, and any other line none. */
  lemma LineCell(l: Line)
    requires !l.Skipped?
    ensures if Placeable(l) then Grid.Near(RangeOf(l).cell, l.at) && RangeOf(l).cell != UNK else RangeOf(l).cell == UNK
  {
    Grid.CellOnGrid(l.at);
    Grid.HalfDegree(l.at);
  }

  lemma {:induction false} RangeOfLine4(lines: seq<Line>, i: nat) returns (j: nat)
    requires i < |lines| && lines[i].Line4?
    ensures j < |Ranges4(lines)| && Ranges4(lines)[j] == RangeOf(lines[i])
  {
    var n := |lines| - 1;
    if i == n {
      j := |Ranges4(lines)| - 1;
    } else {
      j := RangeOfLine4(lines[..n], i);
    }
  }

  lemma {:induction false} LineOfRange4(lines: seq<Line>, j: nat) returns (i: nat)
    requires j < |Ranges4(lines)|
    ensures i < |lines| && lines[i].Line4? && Ranges4(lines)[j] == RangeOf(lines[i])
  {
    var n := |lines| - 1;
    if j < |Ranges4(lines[..n])| {
      i := LineOfRange4(lines[..n], j);
    } else {
      i := n;
    }
  }

  lemma {:induction false} RangeOfLine6(lines: seq<Line>, i: nat) returns (j: nat)
    requires i < |lines| && lines[i].Line6?
    ensures j < |Ranges6(lines)| && Ranges6(lines)[j] == RangeOf(lines[i])
  {
    var n := |lines| - 1;
    if i == n {
      j := |Ranges6(lines)| - 1;
    } else {
      j := RangeOfLine6(lines[..n], i);
    }
  }

  lemma {:induction false} LineOfRange6(lines: seq<Line>, j: nat) returns (i: nat)
    requires j < |Ranges6(lines)|
    ensures i < |lines| && lines[i].Line6? && Ranges6(lines)[j] == RangeOf(lines[i])
  {
    var n := |lines| - 1;
    if j < |Ranges6(lines[..n])| {
      i := LineOfRange6(lines[..n], j);
    } else {
      i := n;
    }
  }

  // The answer is the centre of a cell that is, or lies within the tolerance of, a cell
  // centred within half a degree of the coordinates.
  ghost predicate ServesPoint(answer: Option<Grid.Point>, at: Grid.Point, dist: Distance, tol: real)
  {
    exists truth: nat :: Grid.Near(truth, at) && truth != UNK && Serves(answer, truth, dist, tol)
  }

  /** For every address inside an IPv4 line the reader serves that line: its own coordinates,
      up to the grid and the tolerance, or nothing if the line is unplaceable. */
  lemma ServesLine4(lines: seq<Line>, i: nat, dist: Distance, tol: real, addr: nat)
    requires SourceSorted(lines) && i < |lines| && lines[i].Line4? && lines[i].first <= addr <= lines[i].last
    requires |Kept4(lines, dist, tol)| < 0x1_0000_0000 && |Kept6(lines, dist, tol)| < 0x1_0000_0000
    ensures var parsed := Reader.Parse(Written(lines, dist, tol));
            && parsed.Ok? && parsed.value.nlon > 0
            && var answer := Reader.Located(parsed.value, Reader.V4(addr));
               if Placeable(lines[i]) then ServesPoint(answer, lines[i].at, dist, tol) else answer == None
  {
    var j := RangeOfLine4(lines, i);
    V4.CellAtRange(Ranges4(lines), addr, j);
    hide Reader.Parse, Reader.Located, Written, Kept4, Kept6, V4.CellAt, RangeOf, Ranges4;
    LineSpan(lines[i]);
    ServesV4(lines, dist, tol, addr);
    LineCell(lines[i]);
  }

  lemma LineSpan(l: Line)
    requires !l.Skipped?
    ensures RangeOf(l).first == l.first && RangeOf(l).last == l.last
  {
  }

  ghost predicate LineUnder(l: Line, key: nat, addr: nat)
  {
    l.Line6? && l.first <= addr <= l.last && addr / 0x1_0000_0000_0000_0000_0000_0000 == key
  }

  // A known dominating cell was given by a line with an address under the key.
  lemma DominatingLine(lines: seq<Line>, key: nat, truth: nat) returns (i: nat, other: nat)
    requires V6.Sorted(Ranges6(lines)) && V6.Dominates(Ranges6(lines), key, truth) && truth != UNK
    ensures i < |lines| && LineUnder(lines[i], key, other) && Placeable(lines[i]) && Grid.Near(truth, lines[i].at)
  {
    hide V6.Share, RangeOf, Ranges6, Grid.Near, V6.Sorted;
    var rs := Ranges6(lines);
    assert V6.Wins(c => V6.Share(rs, key, c), truth);
    var j;
    j, other := V6.ShareAddress(rs, key, truth);
    i := LineOfRange6(lines, j);
    LineSpan(lines[i]);
    LineCell(lines[i]);
  }

  /** For every IPv6 address the reader serves the coordinates of some placeable line with an
      address under the same /32, or nothing; and nothing if no line has one. */
  lemma ServesLine6(lines: seq<Line>, dist: Distance, tol: real, addr: nat)
    requires SourceSorted(lines) && addr < V6.SPACE
    requires |Kept4(lines, dist, tol)| < 0x1_0000_0000 && |Kept6(lines, dist, tol)| < 0x1_0000_0000
    ensures var parsed := Reader.Parse(Written(lines, dist, tol));
            && parsed.Ok? && parsed.value.nlon > 0
            && var answer := Reader.Located(parsed.value, Reader.V6(addr));
               answer.Some? ==>
                 exists i, other: nat :: 0 <= i < |lines|
                   && LineUnder(lines[i], addr / 0x1_0000_0000_0000_0000_0000_0000, other)
                   && Placeable(lines[i]) && ServesPoint(answer, lines[i].at, dist, tol)
  {
    hide Reader.Parse, Reader.Located, Written, Kept4, Kept6, V6.Table, Lookup, Ranges6, V6.Dominates;
    hide Grid.Near, LineUnder, V6.Sorted, V4.Sorted, WellFormed;
    var rs, key := Ranges6(lines), addr / 0x1_0000_0000_0000_0000_0000_0000;
    V6.TableDominates(rs);
    V6.KeyBelowTop(addr);
    var truth := Lookup(V6.Table(rs), key);
    assert V6.Dominates(rs, key, truth);
    ServesV6(lines, dist, tol, addr, truth);
    if truth != UNK {
      var i, other := DominatingLine(lines, key, truth);
    }
  }

  /** The reader has no answer for an IPv4 address exactly when every line that holds it is
      unplaceable; in particular where there is none. */
  lemma NoAnswerIff(lines: seq<Line>, dist: Distance, tol: real, addr: nat)
    requires SourceSorted(lines) && addr <= TOP
    requires |Kept4(lines, dist, tol)| < 0x1_0000_0000 && |Kept6(lines, dist, tol)| < 0x1_0000_0000
    ensures var parsed := Reader.Parse(Written(lines, dist, tol));
            && parsed.Ok? && parsed.value.nlon > 0
            && (Reader.Located(parsed.value, Reader.V4(addr)) == None
                <==> forall i :: 0 <= i < |lines| && lines[i].Line4? && lines[i].first <= addr <= lines[i].last
                       ==> !Placeable(lines[i]))
  {
    hide Reader.Parse, Reader.Located, Written, V4.CellAt, Kept4, Kept6, RangeOf, Ranges4;
    ServesV4(lines, dist, tol, addr);
    var rs := Ranges4(lines);
    V4.UnknownIff(rs, addr);
    if V4.CellAt(rs, addr) == UNK {
      forall i | 0 <= i < |lines| && lines[i].Line4? && lines[i].first <= addr <= lines[i].last
        ensures !Placeable(lines[i])
      {
        var j := RangeOfLine4(lines, i);
        LineSpan(lines[i]);
        LineCell(lines[i]);
      }
    } else {
      var j :| 0 <= j < |rs| && rs[j].first <= addr <= rs[j].last && rs[j].cell != UNK;
      var i := LineOfRange4(lines, j);
      LineSpan(lines[i]);
      LineCell(lines[i]);
    }
  }
}
