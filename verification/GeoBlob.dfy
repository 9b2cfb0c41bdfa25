/** The table file: a 32-byte header and six little-endian bytes per row. */
module GeoBlob {
  import opened Fnv
  import opened StepTable
  import opened Options
  import Grid

  // ---- little-endian integers ---------------------------------------------------------

  function Pow256(n: nat): nat { if n == 0 then 1 else 256 * Pow256(n - 1) }

  function Le(n: nat, width: nat): (bs: seq<Byte>)
    ensures |bs| == width
  {
    if width == 0 then [] else [n % 256] + Le(n / 256, width - 1)
  }

  function FromLe(bs: seq<Byte>): nat
  {
    if bs == [] then 0 else bs[0] + 256 * FromLe(bs[1..])
  }

  lemma {:induction false} LeRoundTrip(n: nat, width: nat)
    requires n < Pow256(width)
    ensures FromLe(Le(n, width)) == n
  {
    if width > 0 {
      LeRoundTrip(n / 256, width - 1);
      assert Le(n, width)[1..] == Le(n / 256, width - 1);
    }
  }

  lemma {:induction false} FromLeInjective(xs: seq<Byte>, ys: seq<Byte>)
    requires |xs| == |ys| && FromLe(xs) == FromLe(ys)
    ensures xs == ys
  {
    if xs != [] {
      assert xs[0] == ys[0] && FromLe(xs[1..]) == FromLe(ys[1..]);
      FromLeInjective(xs[1..], ys[1..]);
      assert xs == [xs[0]] + xs[1..] && ys == [ys[0]] + ys[1..];
    }
  }

  lemma Pow256Values()
    ensures Pow256(2) == 0x1_0000 && Pow256(4) == 0x1_0000_0000 && Pow256(8) == MODULUS
  {
    assert Pow256(3) == 0x100_0000;
    assert Pow256(6) == 0x1_0000_0000_0000;
  }

  // ---- rows ---------------------------------------------------------------------------

  function PackRow(row: Row): (bs: seq<Byte>)
    ensures |bs| == 6
  {
    Le(row.start, 4) + Le(row.cell, 2)
  }

  function PackRows(rows: seq<Row>): (bs: seq<Byte>)
    ensures |bs| == 6 * |rows|
  {
    if rows == [] then [] else PackRows(rows[..|rows| - 1]) + PackRow(rows[|rows| - 1])
  }

  function StartAt(bs: seq<Byte>, i: nat): nat
    requires 6 * i + 6 <= |bs|
  {
    FromLe(bs[6 * i..6 * i + 4])
  }

  function CellBytes(bs: seq<Byte>, i: nat): nat
    requires 6 * i + 6 <= |bs|
  {
    FromLe(bs[6 * i + 4..6 * i + 6])
  }

  // The rows a run of row bytes stands for.
  function Rows(bs: seq<Byte>): seq<Row>
  {
    seq(|bs| / 6, i requires 0 <= i < |bs| / 6 => Row(StartAt(bs, i), CellBytes(bs, i)))
  }

  ghost predicate RowFits(row: Row) { row.start < 0x1_0000_0000 && row.cell < 0x1_0000 }

  ghost predicate RowsFit(rows: seq<Row>) { forall i :: 0 <= i < |rows| ==> RowFits(rows[i]) }

  lemma {:induction false} PackedRowAt(rows: seq<Row>, i: nat)
    requires i < |rows|
    ensures PackRows(rows)[6 * i..6 * i + 6] == PackRow(rows[i])
  {
    var n := |rows| - 1;
    if i < n {
      PackedRowAt(rows[..n], i);
      assert PackRows(rows)[6 * i..6 * i + 6] == PackRows(rows[..n])[6 * i..6 * i + 6];
    }
  }

  // Decoding the bytes of a row list gives the list back.
  lemma RowsRoundTrip(rows: seq<Row>)
    requires RowsFit(rows)
    ensures Rows(PackRows(rows)) == rows
  {
    var bs := PackRows(rows);
    Pow256Values();
    forall i | 0 <= i < |rows|
      ensures Rows(bs)[i] == rows[i]
    {
      PackedRowAt(rows, i);
      var six := bs[6 * i..6 * i + 6];
      assert bs[6 * i..6 * i + 4] == six[..4] == Le(rows[i].start, 4);
      assert bs[6 * i + 4..6 * i + 6] == six[4..] == Le(rows[i].cell, 2);
      assert RowFits(rows[i]);
      LeRoundTrip(rows[i].start, 4);
      LeRoundTrip(rows[i].cell, 2);
    }
  }

  // ---- the file -----------------------------------------------------------------------

  const MAGIC: seq<Byte> := [72, 73, 86, 69, 71, 69, 79, 1]   // "HIVEGEO\x01"

  function Header(n4: nat, n6: nat, checksum: nat): (bs: seq<Byte>)
    ensures |bs| == 32
  {
    MAGIC + Le(10, 2) + Le(Grid.NLON, 2) + Le(Grid.NLAT, 2) + Le(0, 2) + Le(n4, 4) + Le(n6, 4) + Le(checksum, 8)
  }

  function Blob(t4: seq<Row>, t6: seq<Row>): (bs: seq<Byte>)
    ensures |bs| == 32 + 6 * (|t4| + |t6|)
  {
    var rows := PackRows(t4) + PackRows(t6);
    Header(|t4|, |t6|, Fnv1a(rows)) + rows
  }

  // Byte k of a little-endian integer.
  function ByteOf(n: nat, k: nat): Byte
  {
    if k == 0 then n % 256 else ByteOf(n / 256, k - 1)
  }

  lemma {:induction false} LeByte(n: nat, width: nat, k: nat)
    requires k < width
    ensures Le(n, width)[k] == ByteOf(n, k)
  {
    if k > 0 {
      LeByte(n / 256, width - 1, k - 1);
    }
  }

  /** The file, byte by byte: magic, tenths of a degree, columns, rows, two reserved bytes ... */
  lemma HeaderBytes(t4: seq<Row>, t6: seq<Row>)
    ensures var blob := Blob(t4, t6);
            && blob[..8] == [72, 73, 86, 69, 71, 69, 79, 1]
            && blob[8..16] == [10, 0, 104, 1, 180, 0, 0, 0]
  {
    assert Le(10, 2) == [10, 0] && Le(360, 2) == [104, 1] && Le(180, 2) == [180, 0] && Le(0, 2) == [0, 0] by {
      PairBytes(10);
      PairBytes(360);
      PairBytes(180);
      PairBytes(0);
    }
    hide Le, Fnv1a, PackRows;
    var blob := Blob(t4, t6);
    assert blob[8..16] == Le(10, 2) + Le(360, 2) + Le(180, 2) + Le(0, 2);
  }

  lemma PairBytes(n: nat)
    requires n < 0x1_0000
    ensures Le(n, 2) == [n % 256, n / 256]
  {
    assert Le(n / 256, 1) == [n / 256];
  }

  /** ... both row counts and the checksum of the row bytes, low byte first ... */
  lemma CountBytes(t4: seq<Row>, t6: seq<Row>, k: nat)
    ensures var blob := Blob(t4, t6);
            && (k < 4 ==> blob[16 + k] == ByteOf(|t4|, k) && blob[20 + k] == ByteOf(|t6|, k))
            && (k < 8 ==> blob[24 + k] == ByteOf(Fnv1a(blob[32..]), k))
  {
    var (rows, blob) := (PackRows(t4) + PackRows(t6), Blob(t4, t6));
    hide Le, Fnv1a, PackRows, ByteOf;
    assert blob[32..] == rows;
    if k < 4 {
      LeByte(|t4|, 4, k);
      LeByte(|t6|, 4, k);
    }
    if k < 8 {
      LeByte(Fnv1a(rows), 8, k);
    }
  }

  /** ... then four bytes of start and two of cell per row, the IPv4 rows first. */
  lemma RowBytes(t4: seq<Row>, t6: seq<Row>, i: nat, k: nat)
    requires i < |t4| + |t6| && k < 6
    ensures Blob(t4, t6)[32 + 6 * i + k]
         == if k < 4 then ByteOf((t4 + t6)[i].start, k) else ByteOf((t4 + t6)[i].cell, k - 4)
  {
    hide Fnv1a, PackRows, ByteOf;
    var row := (t4 + t6)[i];
    if k < 4 {
      LeByte(row.start, 4, k);
    } else {
      LeByte(row.cell, 2, k - 4);
    }
    hide Le;
    if i < |t4| {
      PackedRowAt(t4, i);
      assert PackRows(t4)[6 * i + k] == PackRows(t4)[6 * i..6 * i + 6][k];
    } else {
      var j := i - |t4|;
      PackedRowAt(t6, j);
      assert PackRows(t6)[6 * j + k] == PackRows(t6)[6 * j..6 * j + 6][k];
    }
  }

  // What struct.pack accepts: u32 starts and counts, u16 cells.
  ghost predicate Fits(t4: seq<Row>, t6: seq<Row>)
  {
    RowsFit(t4) && RowsFit(t6) && |t4| < 0x1_0000_0000 && |t6| < 0x1_0000_0000
  }

  datatype PackError = OutOfRange

  method PackAll(rows: seq<Row>) returns (r: Result<seq<Byte>, PackError>)
    ensures r.Ok? <==> RowsFit(rows)
    ensures r.Ok? ==> r.value == PackRows(rows)
  {
    var bs: seq<Byte> := [];
    for i := 0 to |rows|
      invariant bs == PackRows(rows[..i])
      invariant forall j :: 0 <= j < i ==> RowFits(rows[j])
    {
      if !(rows[i].start < 0x1_0000_0000 && rows[i].cell < 0x1_0000) {
        assert !RowFits(rows[i]);
        return Err(OutOfRange);
      }
      assert rows[..i + 1][..i] == rows[..i];
      bs := bs + Le(rows[i].start, 4) + Le(rows[i].cell, 2);
      assert bs == PackRows(rows[..i]) + PackRow(rows[i]);
    }
    assert rows[..|rows|] == rows;
    return Ok(bs);
  }

  method Encode(t4: seq<Row>, t6: seq<Row>) returns (r: Result<seq<Byte>, PackError>)
    ensures r.Ok? <==> Fits(t4, t6)
    ensures r.Ok? ==> r.value == Blob(t4, t6)
  {
    var rows4 := PackAll(t4);
    if rows4.Err? { return rows4; }
    var rows6 := PackAll(t6);
    if rows6.Err? { return rows6; }
    if !(|t4| < 0x1_0000_0000 && |t6| < 0x1_0000_0000) {
      return Err(OutOfRange);
    }
    var rows := rows4.value + rows6.value;
    var h := Hash(rows);
    return Ok(Header(|t4|, |t6|, h) + rows);
  }
}
