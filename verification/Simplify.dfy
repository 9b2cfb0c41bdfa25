/** Lossy folding of a step table: a run is dropped when the kept run before it is close
    enough.  The distance is an arbitrary function of two cells. */
module Simplify {
  import opened StepTable

  type Distance = (nat, nat) -> real

  // A run of `cell` folds into a kept run of `prev`.
  predicate Folds(prev: nat, cell: nat, dist: Distance, tol: real)
  {
    prev == cell || (prev != UNK && cell != UNK && dist(prev, cell) <= tol)
  }

  function Simplified(runs: seq<Row>, dist: Distance, tol: real): seq<Row>
  {
    if runs == [] then []
    else
      var (out, run) := (Simplified(runs[..|runs| - 1], dist, tol), runs[|runs| - 1]);
      if out != [] && Folds(out[|out| - 1].cell, run.cell, dist, tol) then out else out + [run]
  }

  method SimplifyRuns(runs: seq<Row>, dist: Distance, tol: real) returns (out: seq<Row>)
    ensures out == Simplified(runs, dist, tol)
  {
    out := [];
    for i := 0 to |runs|
      invariant out == Simplified(runs[..i], dist, tol)
    {
      assert runs[..i + 1][..i] == runs[..i];
      if out != [] {
        var prev := out[|out| - 1].cell;
        if prev == runs[i].cell {
          continue;
        }
        if prev != UNK && runs[i].cell != UNK && dist(prev, runs[i].cell) <= tol {
          continue;
        }
      }
      out := out + [runs[i]];
    }
    assert runs[..|runs|] == runs;
  }

  predicate Subsequence(xs: seq<Row>, ys: seq<Row>)
  {
    || xs == []
    || (ys != [] &&
        var m, n := |xs| - 1, |ys| - 1;
        (xs[m] == ys[n] && Subsequence(xs[..m], ys[..n])) || Subsequence(xs, ys[..n]))
  }

  // Kept rows are input rows, in order; the first one is always kept.
  lemma {:induction false} KeepsSubsequence(runs: seq<Row>, dist: Distance, tol: real)
    ensures var out := Simplified(runs, dist, tol);
            && Subsequence(out, runs)
            && (runs != [] ==> out != [] && out[0] == runs[0])
  {
    if runs != [] {
      var n := |runs| - 1;
      KeepsSubsequence(runs[..n], dist, tol);
      var out := Simplified(runs[..n], dist, tol);
      assert (out + [runs[n]])[..|out|] == out;
    }
  }

  lemma {:induction false} KeepsRows(runs: seq<Row>, dist: Distance, tol: real, i: nat)
    requires i < |Simplified(runs, dist, tol)|
    ensures Simplified(runs, dist, tol)[i] in runs
  {
    var n := |runs| - 1;
    var out := Simplified(runs[..n], dist, tol);
    if i < |out| {
      KeepsRows(runs[..n], dist, tol, i);
      assert out[i] in runs[..n];
    }
  }

  lemma {:induction false} KeptBelow(runs: seq<Row>, dist: Distance, tol: real, bound: nat)
    requires forall i :: 0 <= i < |runs| ==> runs[i].start < bound
    ensures forall i :: 0 <= i < |Simplified(runs, dist, tol)| ==> Simplified(runs, dist, tol)[i].start < bound
  {
    if runs != [] {
      KeptBelow(runs[..|runs| - 1], dist, tol, bound);
    }
  }

  lemma AscendingAppend(rows: seq<Row>, row: Row)
    requires Ascending(rows)
    requires forall i :: 0 <= i < |rows| ==> rows[i].start < row.start
    ensures Ascending(rows + [row])
  {
  }

  lemma {:induction false} KeepsOrder(runs: seq<Row>, dist: Distance, tol: real)
    requires Ascending(runs)
    ensures Ascending(Simplified(runs, dist, tol))
  {
    if runs != [] {
      var n := |runs| - 1;
      var out := Simplified(runs[..n], dist, tol);
      KeepsOrder(runs[..n], dist, tol);
      KeptBelow(runs[..n], dist, tol, runs[n].start);
      AscendingAppend(out, runs[n]);
    }
  }

  lemma LookupAppend(rows: seq<Row>, row: Row, key: nat)
    ensures Lookup(rows + [row], key) == if row.start <= key then row.cell else Lookup(rows, key)
  {
    assert (rows + [row])[..|rows|] == rows;
  }

  /** However long a folded chain is, the kept answer at every key is the true cell or
      within the tolerance of it, and it is unknown exactly where the input is unknown. */
  lemma {:induction false} WithinTolerance(runs: seq<Row>, dist: Distance, tol: real, key: nat)
    requires Ascending(runs)
    ensures var (kept, truth) := (Lookup(Simplified(runs, dist, tol), key), Lookup(runs, key));
            && (kept == truth || dist(kept, truth) <= tol)
            && (kept == UNK <==> truth == UNK)
  {
    if runs != [] {
      var n := |runs| - 1;
      var out := Simplified(runs[..n], dist, tol);
      WithinTolerance(runs[..n], dist, tol, key);
      KeptBelow(runs[..n], dist, tol, runs[n].start);
      LookupAppend(out, runs[n], key);
    }
  }

  // Neighbours that survive differ, and are too far apart unless one of them is unknown.
  ghost predicate Tight(rows: seq<Row>, dist: Distance, tol: real)
  {
    forall i, j :: 0 <= i < j < |rows| && j == i + 1 ==>
      && rows[i].cell != rows[j].cell
      && (rows[i].cell == UNK || rows[j].cell == UNK || dist(rows[i].cell, rows[j].cell) > tol)
  }

  lemma {:induction false} SimplifiedTight(runs: seq<Row>, dist: Distance, tol: real)
    ensures Tight(Simplified(runs, dist, tol), dist, tol)
  {
    if runs != [] {
      SimplifiedTight(runs[..|runs| - 1], dist, tol);
    }
  }

  lemma TightParts(rows: seq<Row>, row: Row, dist: Distance, tol: real)
    requires Tight(rows + [row], dist, tol)
    ensures Tight(rows, dist, tol) && (rows != [] ==> !Folds(rows[|rows| - 1].cell, row.cell, dist, tol))
  {
    var all := rows + [row];
    assert all[|rows|] == row && forall i :: 0 <= i < |rows| ==> all[i] == rows[i];
  }

  // A tight table is a fixed point, so simplifying twice is simplifying once.
  lemma {:induction false} TightIsFixed(rows: seq<Row>, dist: Distance, tol: real)
    requires Tight(rows, dist, tol)
    ensures Simplified(rows, dist, tol) == rows
  {
    hide Tight, Folds;
    if rows != [] {
      var n := |rows| - 1;
      assert rows[..n] + [rows[n]] == rows;
      TightParts(rows[..n], rows[n], dist, tol);
      TightIsFixed(rows[..n], dist, tol);
    }
  }

  lemma {:induction false} Idempotent(runs: seq<Row>, dist: Distance, tol: real)
    ensures var out := Simplified(runs, dist, tol); Simplified(out, dist, tol) == out
  {
    SimplifiedTight(runs, dist, tol);
    TightIsFixed(Simplified(runs, dist, tol), dist, tol);
  }
}
