/** Step tables: a function from keys to cells, written down as the points where it changes. */
module StepTable {
  const UNK: nat := 0xFFFF
  const TOP: nat := 0xFFFF_FFFF   // the highest 32-bit key

  datatype Row = Row(start: nat, cell: nat)

  // A source range of addresses, both ends included, and its cell.
  datatype Range = Range(first: nat, last: nat, cell: nat)

  function Max(x: nat, y: nat): nat { if x < y then y else x }

  ghost predicate Ascending(rows: seq<Row>)
  {
    forall i, j :: 0 <= i < j < |rows| ==> rows[i].start < rows[j].start
  }

  // No row repeats the cell of the row before it.
  ghost predicate Compact(rows: seq<Row>)
  {
    forall i, j :: 0 <= i < j < |rows| && j == i + 1 ==> rows[i].cell != rows[j].cell
  }

  // The last row with start <= key decides; no such row means "unknown".
  function Lookup(rows: seq<Row>, key: nat): nat
  {
    if rows == [] then UNK
    else if rows[|rows| - 1].start <= key then rows[|rows| - 1].cell
    else Lookup(rows[..|rows| - 1], key)
  }

  // What one row covers: everything from its start up to the next start.
  lemma {:induction false} LookupInSpan(rows: seq<Row>, key: nat, i: nat)
    requires i < |rows| && rows[i].start <= key
    requires forall j :: i < j < |rows| ==> key < rows[j].start
    ensures Lookup(rows, key) == rows[i].cell
  {
    if i < |rows| - 1 {
      LookupInSpan(rows[..|rows| - 1], key, i);
    }
  }

  lemma {:induction false} LookupBelow(rows: seq<Row>, key: nat)
    requires forall j :: 0 <= j < |rows| ==> key < rows[j].start
    ensures Lookup(rows, key) == UNK
  {
    if rows != [] {
      LookupBelow(rows[..|rows| - 1], key);
    }
  }

  // The table `emit` leaves behind.
  function Emitted(rows: seq<Row>, start: nat, cell: nat): seq<Row>
  {
    if rows != [] && rows[|rows| - 1].cell == cell then rows
    else if rows != [] && rows[|rows| - 1].start == start then rows[..|rows| - 1] + [Row(start, cell)]
    else rows + [Row(start, cell)]
  }

  // Whatever branch `emit` takes, the table afterwards answers `cell` from `start` on and
  // is unchanged before it.
  lemma EmittedMeaning(rows: seq<Row>, start: nat, cell: nat, key: nat)
    requires rows != [] ==> rows[|rows| - 1].start <= start
    ensures Lookup(Emitted(rows, start, cell), key) == if start <= key then cell else Lookup(rows, key)
  {
    var n := |rows|;
    if rows != [] && rows[n - 1].start == start {
      assert (rows[..n - 1] + [Row(start, cell)])[..n - 1] == rows[..n - 1];
    } else {
      assert (rows + [Row(start, cell)])[..n] == rows;
    }
  }

  ghost predicate WellFormed(rows: seq<Row>) { Ascending(rows) && Compact(rows) }

  // Emitting strictly above the last start keeps the table ascending and compact.
  lemma EmittedWellFormed(rows: seq<Row>, start: nat, cell: nat)
    requires WellFormed(rows)
    requires rows != [] ==> rows[|rows| - 1].start < start
    ensures var r := Emitted(rows, start, cell);
            WellFormed(r) && r != [] && r[|r| - 1].start <= start && r[|r| - 1].cell == cell
  {
  }

  lemma StartsBelow(rows: seq<Row>, bound: nat)
    requires Ascending(rows) && (rows != [] ==> rows[|rows| - 1].start < bound)
    ensures forall i :: 0 <= i < |rows| ==> rows[i].start < bound
  {
  }

  /** A run list that `emit` mutates in place. */
  class RunList {
    var rows: seq<Row>

    constructor ()
      ensures rows == []
    {
      rows := [];
    }

    method Emit(start: nat, cell: nat)
      modifies this
      ensures rows == Emitted(old(rows), start, cell)
    {
      if rows != [] && rows[|rows| - 1].cell == cell {
        return;
      }
      if rows != [] && rows[|rows| - 1].start == start {
        rows := rows[|rows| - 1 := Row(start, cell)];
        assert rows == old(rows)[..|rows| - 1] + [Row(start, cell)];
        return;
      }
      rows := rows + [Row(start, cell)];
    }
  }
}
