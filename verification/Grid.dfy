/** The one-degree grid: coordinates to cell ids and back, over exact reals. */
module Grid {
  import opened StepTable
  import opened Options

  const NLON: nat := 360
  const NLAT: nat := 180
  const CELLS: nat := 64800

  datatype Point = Point(lat: real, lon: real)

  function Clamp(i: int, n: nat): nat
    requires n > 0
  {
    if i < 0 then 0 else if i >= n then n - 1 else i
  }

  function CellOf(p: Point): nat
  {
    Clamp((p.lat + 90.0).Floor, NLAT) * NLON + Clamp((p.lon + 180.0).Floor, NLON)
  }

  function CenterOf(cell: nat): Option<Point>
  {
    if cell == UNK then None
    else Some(Point((cell / NLON) as real - 89.5, (cell % NLON) as real - 179.5))
  }

  // Every coordinate, in range or clamped, lands on the grid, so never on the unknown code.
  lemma CellOnGrid(p: Point)
    ensures CellOf(p) < CELLS < UNK
  {
  }

  lemma {:induction false} DivMod(row: nat, col: nat)
    requires col < NLON
    ensures (row * NLON + col) / NLON == row && (row * NLON + col) % NLON == col
  {
  }

  // Quantising the centre of a cell gives the cell back.
  lemma CenterIsSection(cell: nat)
    requires cell < CELLS
    ensures CenterOf(cell).Some? && CellOf(CenterOf(cell).value) == cell
  {
    var row, col := cell / NLON, cell % NLON;
    assert (row as real - 89.5 + 90.0).Floor == row;
    assert (col as real - 179.5 + 180.0).Floor == col;
  }

  // The coordinate itself, or the nearest one on the map.
  function OntoMap(p: Point): Point { Point(Between(p.lat, -90.0, 90.0), Between(p.lon, -180.0, 180.0)) }

  function Between(x: real, lo: real, hi: real): real { if x < lo then lo else if x > hi then hi else x }

  // The cell's centre lies within half a degree of the coordinate, on each axis.
  predicate Near(cell: nat, p: Point)
  {
    && cell < CELLS && CenterOf(cell).Some?
    && -0.5 <= OntoMap(p).lat - CenterOf(cell).value.lat <= 0.5
    && -0.5 <= OntoMap(p).lon - CenterOf(cell).value.lon <= 0.5
  }

  /** Every coordinate lies within half a degree of the centre of its cell, once moved onto
      the map if it was off it. */
  lemma HalfDegree(p: Point)
    ensures Near(CellOf(p), p)
  {
    var row, col := Clamp((p.lat + 90.0).Floor, NLAT), Clamp((p.lon + 180.0).Floor, NLON);
    DivMod(row, col);
  }
}
