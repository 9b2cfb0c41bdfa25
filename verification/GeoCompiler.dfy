/** The line loop that compiles the source ranges into the two run lists. */
module GeoCompiler {
  import opened StepTable
  import opened Options
  import Grid
  import V4 = RangesV4
  import V6 = RangesV6

  // A source line once its fields are read: a line without eight fields or without numeric
  // coordinates is skipped, any other carries an address range, whether its country is the
  // "unplaceable" code, and its coordinates.
  datatype Line =
    | Skipped
    | Line4(first: nat, last: nat, zz: bool, at: Grid.Point)
    | Line6(first: nat, last: nat, zz: bool, at: Grid.Point)

  function CellFor(zz: bool, at: Grid.Point): nat
  {
    if zz || (at.lat == 0.0 && at.lon == 0.0) then UNK else Grid.CellOf(at)
  }

  function RangeOf(l: Line): Range
    requires !l.Skipped?
  {
    Range(l.first, l.last, CellFor(l.zz, l.at))
  }

  function Ranges4(lines: seq<Line>): seq<Range>
  {
    if lines == [] then []
    else
      var (rest, l) := (Ranges4(lines[..|lines| - 1]), lines[|lines| - 1]);
      if l.Line4? then rest + [RangeOf(l)] else rest
  }

  function Ranges6(lines: seq<Line>): seq<Range>
  {
    if lines == [] then []
    else
      var (rest, l) := (Ranges6(lines[..|lines| - 1]), lines[|lines| - 1]);
      if l.Line6? then rest + [RangeOf(l)] else rest
  }

  lemma {:induction false} RangesAppend(lines: seq<Line>, l: Line)
    ensures Ranges4(lines + [l]) == if l.Line4? then Ranges4(lines) + [RangeOf(l)] else Ranges4(lines)
    ensures Ranges6(lines + [l]) == if l.Line6? then Ranges6(lines) + [RangeOf(l)] else Ranges6(lines)
  {
    assert (lines + [l])[..|lines|] == lines;
  }

  // The most common cell of an accumulator, ties to the lower id.
  method PickMax(dom: map<nat, int>) returns (best: nat)
    requires dom != map[]
    ensures best == V6.MaxItem(dom)
  {
    var todo := dom.Keys;
    best :| best in todo;
    todo := todo - {best};
    while todo != {}
      invariant best in dom && todo <= dom.Keys
      invariant forall c :: c in dom && c !in todo ==> dom[c] < dom[best] || (dom[c] == dom[best] && best <= c)
      decreases |todo|
    {
      var c :| c in todo;
      if dom[c] > dom[best] || (dom[c] == dom[best] && c < best) {
        best := c;
      }
      todo := todo - {c};
    }
    var m := V6.MaxItem(dom);
    assert dom[m] < dom[best] || (dom[m] == dom[best] && best <= m);
  }

  class Compiler {
    const runs4: RunList
    const runs6: RunList
    var end4: Option<nat>
    var cur6: Option<nat>      // the open key, whose row is not yet emitted
    var dom6: map<nat, int>    // what each cell has been credited with under the open key
    var end6: Option<nat>      // no range so far reaches past this key

    ghost predicate Valid()
      reads this
    {
      runs4 != runs6 && (cur6.Some? ==> dom6 != map[])
    }

    ghost function State4(): V4.State
      reads this, runs4
    {
      V4.State(runs4.rows, end4)
    }

    ghost function State6(): V6.State
      reads this, runs6
    {
      V6.State(runs6.rows, cur6, dom6)
    }

    constructor ()
      ensures Valid() && fresh(runs4) && fresh(runs6)
      ensures State4() == V4.State([], None) && State6() == V6.State([], None, map[]) && end6 == None
    {
      runs4 := new RunList();
      runs6 := new RunList();
      end4, cur6, dom6, end6 := None, None, map[], None;
    }

    method Flush6()
      requires Valid()
      modifies this`cur6, this`dom6, runs6
      ensures Valid() && State6() == V6.Flush(old(State6()))
    {
      if cur6.None? {
        return;
      }
      var best := PickMax(dom6);
      runs6.Emit(cur6.value, best);
      dom6 := map[];
      cur6 := None;
    }

    method Take6(key: nat, cell: nat, weight: int)
      requires Valid()
      modifies this`cur6, this`dom6, runs6
      ensures Valid() && State6() == V6.Take(old(State6()), key, cell, weight)
    {
      if cur6.Some? && cur6.value != key {
        var prev := cur6.value;
        Flush6();
        if key > prev + 1 {
          runs6.Emit(prev + 1, UNK);
        }
      }
      assert State6().rows == V6.Moved(old(State6()), key).rows && State6().dom == V6.Moved(old(State6()), key).dom;
      if cur6.None? {
        cur6 := Some(key);
      }
      dom6 := dom6[cell := (if cell in dom6 then dom6[cell] else 0) + weight];
      assert cell in dom6;
    }

    method Add6(r: Range)
      requires Valid()
      modifies this`cur6, this`dom6, this`end6, runs6
      ensures Valid() && State6() == V6.Add(old(State6()), r)
      ensures end6 == V6.EndAfter(old(end6), r)
    {
      hide V6.Take, V6.Flush, V6.Key, V6.Unit;
      var wa: int, wb: int := V6.Unit(r.first), V6.Unit(r.last);
      var ka, kb := V6.Key(r.first), V6.Key(r.last);
      if ka == kb {
        Take6(ka, r.cell, wb - wa + 1);
        end6 := Some(if end6.None? then ka else Max(ka, end6.value));
        return;
      }
      Take6(ka, r.cell, (ka + 1) * 65536 - wa);
      if kb > ka + 1 {
        Flush6();
        runs6.Emit(ka + 1, r.cell);
        assert State6() == V6.Fill(V6.Take(old(State6()), ka, r.cell, (ka + 1) * 65536 - wa), ka + 1, r.cell);
      }
      Take6(kb, r.cell, wb - kb * 65536 + 1);
      end6 := Some(if end6.None? then kb else Max(kb, end6.value));
    }

    method Add4(r: Range)
      requires Valid()
      modifies this`end4, runs4
      ensures Valid() && State4() == V4.Add(old(State4()), r)
    {
      if end4.Some? && r.first > end4.value + 1 {
        runs4.Emit(end4.value + 1, UNK);
      }
      runs4.Emit(r.first, r.cell);
      end4 := Some(if end4.None? then r.last else Max(r.last, end4.value));
    }

    // One line of the file.
    method AddLine(l: Line)
      requires Valid()
      modifies this, runs4, runs6
      ensures Valid()
      ensures State4() == if l.Line4? then V4.Add(old(State4()), RangeOf(l)) else old(State4())
      ensures State6() == if l.Line6? then V6.Add(old(State6()), RangeOf(l)) else old(State6())
      ensures end6 == if l.Line6? then V6.EndAfter(old(end6), RangeOf(l)) else old(end6)
    {
      hide V4.Add, V6.Add, CellFor;
      match l {
        case Skipped =>
        case Line4(first, last, zz, at) => Add4(Range(first, last, CellFor(zz, at)));
        case Line6(first, last, zz, at) => Add6(Range(first, last, CellFor(zz, at)));
      }
    }

    // End of input: emit the open key and say where known ground ends.
    method Finish()
      requires Valid()
      modifies this, runs4, runs6
      ensures runs4.rows == V4.Close(old(State4()))
      ensures runs6.rows == V6.Close(old(State6()), old(end6))
    {
      hide V6.Flush, Emitted;
      Flush6();
      if end4.Some? && end4.value < 0xFFFF_FFFF {
        runs4.Emit(end4.value + 1, UNK);
      }
      if end6.Some? && end6.value < 0xFFFF_FFFF {
        runs6.Emit(end6.value + 1, UNK);
      }
    }
  }

  /** The whole pass over a file that may interleave both families in any way: the two run
      lists are the tables of its IPv4 ranges and of its IPv6 ranges. */
  method Parse(lines: seq<Line>) returns (rows4: seq<Row>, rows6: seq<Row>)
    ensures rows4 == V4.Table(Ranges4(lines))
    ensures rows6 == V6.Table(Ranges6(lines))
  {
    hide V4.Add, V4.AddAll, V6.Add, V6.AddAll, V6.End, V6.EndAfter, V4.Close, V6.Close, RangeOf;
    var c := new Compiler();
    EmptyRanges();
    for i := 0 to |lines|
      invariant c.Valid() && fresh(c) && fresh(c.runs4) && fresh(c.runs6)
      invariant c.State4() == V4.AddAll(Ranges4(lines[..i]))
      invariant c.State6() == V6.AddAll(Ranges6(lines[..i]))
      invariant c.end6 == V6.End(Ranges6(lines[..i]))
    {
      var l := lines[i];
      assert lines[..i + 1] == lines[..i] + [l];
      RangesAppend(lines[..i], l);
      if !l.Skipped? {
        V4.AddAllAppend(Ranges4(lines[..i]), RangeOf(l));
        V6.AddAllAppend(Ranges6(lines[..i]), RangeOf(l));
      }
      c.AddLine(l);
    }
    assert lines[..|lines|] == lines;
    c.Finish();
    rows4, rows6 := c.runs4.rows, c.runs6.rows;
  }

  lemma EmptyRanges()
    ensures V4.AddAll([]) == V4.State([], None) && V6.AddAll([]) == V6.State([], None, map[]) && V6.End([]) == None
  {
  }
}
