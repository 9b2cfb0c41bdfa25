/** The reader the name server embeds: validate a blob once, then answer every lookup by
    binary search over its bytes. */
module GeoReader {
  import opened Fnv
  import opened StepTable
  import opened Options
  import opened GeoBlob
  import Grid

  datatype Table = Table(rows4: seq<Byte>, rows6: seq<Byte>, nlon: nat, degTenths: nat)

  datatype ParseError = Truncated | BadMagic | DegenerateGrid | GridTooLarge | LengthMismatch | ChecksumMismatch

  function Field(buf: seq<Byte>, at: nat, width: nat): nat
    requires at + width <= |buf|
  {
    FromLe(buf[at..at + width])
  }

  // The header fields the reader trusts.
  predicate GeometryOk(buf: seq<Byte>)
    requires |buf| >= 32
  {
    && Field(buf, 8, 2) != 0 && Field(buf, 10, 2) != 0 && Field(buf, 12, 2) != 0
    && Field(buf, 12, 2) * Field(buf, 10, 2) <= UNK
  }

  function Parse(buf: seq<Byte>): Result<Table, ParseError>
  {
    if |buf| < 32 then Err(Truncated)
    else if buf[..8] != MAGIC then Err(BadMagic)
    else
      var degTenths, nlon, nlat := Field(buf, 8, 2), Field(buf, 10, 2), Field(buf, 12, 2);
      var n4, n6, checksum := Field(buf, 16, 4), Field(buf, 20, 4), Field(buf, 24, 8);
      if degTenths == 0 || nlon == 0 || nlat == 0 then Err(DegenerateGrid)
      else if nlat * nlon > UNK then Err(GridTooLarge)
      else if |buf| != 32 + (n4 + n6) * 6 then Err(LengthMismatch)
      else if Fnv1a(buf[32..]) != checksum then Err(ChecksumMismatch)
      else Ok(Table(buf[32..][..n4 * 6], buf[32..][n4 * 6..], nlon, degTenths))
  }

  // ---- the header the generator wrote, read back --------------------------------------

  lemma GeometryFields(n4: nat, n6: nat, checksum: nat, rows: seq<Byte>)
    ensures var buf := Header(n4, n6, checksum) + rows;
            && buf[..8] == MAGIC && buf[32..] == rows
            && Field(buf, 8, 2) == 10 && Field(buf, 10, 2) == 360 && Field(buf, 12, 2) == 180
  {
    hide FromLe, Le;
    var buf := Header(n4, n6, checksum) + rows;
    Pow256Values();
    assert buf[8..10] == Le(10, 2);
    assert buf[10..12] == Le(360, 2);
    assert buf[12..14] == Le(180, 2);
    LeRoundTrip(10, 2);
    LeRoundTrip(360, 2);
    LeRoundTrip(180, 2);
  }

  lemma CountFields(n4: nat, n6: nat, checksum: nat, rows: seq<Byte>)
    requires n4 < 0x1_0000_0000 && n6 < 0x1_0000_0000 && checksum < MODULUS
    ensures var buf := Header(n4, n6, checksum) + rows;
            Field(buf, 16, 4) == n4 && Field(buf, 20, 4) == n6 && Field(buf, 24, 8) == checksum
  {
    hide FromLe, Le;
    var buf := Header(n4, n6, checksum) + rows;
    Pow256Values();
    assert buf[16..20] == Le(n4, 4);
    assert buf[20..24] == Le(n6, 4);
    assert buf[24..32] == Le(checksum, 8);
    LeRoundTrip(n4, 4);
    LeRoundTrip(n6, 4);
    LeRoundTrip(checksum, 8);
  }

  /** Reading undoes writing: the reader accepts every blob the generator packs, and finds
      exactly the two row lists, split at the right offset. */
  lemma ReadsBack(t4: seq<Row>, t6: seq<Row>)
    requires Fits(t4, t6)
    ensures Parse(Blob(t4, t6)) == Ok(Table(PackRows(t4), PackRows(t6), 360, 10))
    ensures Rows(PackRows(t4)) == t4 && Rows(PackRows(t6)) == t6
  {
    hide FromLe, Le, Fnv1a, PackRows, Rows;
    var rows := PackRows(t4) + PackRows(t6);
    GeometryFields(|t4|, |t6|, Fnv1a(rows), rows);
    CountFields(|t4|, |t6|, Fnv1a(rows), rows);
    RowsRoundTrip(t4);
    RowsRoundTrip(t6);
    assert rows[..6 * |t4|] == PackRows(t4) && rows[6 * |t4|..] == PackRows(t6);
  }

  // ---- corruption ---------------------------------------------------------------------

  lemma FieldUntouched(buf: seq<Byte>, i: nat, b: Byte, at: nat, width: nat)
    requires i < |buf| && at + width <= |buf| && !(at <= i < at + width)
    ensures Field(buf[i := b], at, width) == Field(buf, at, width)
  {
    assert buf[i := b][at..at + width] == buf[at..at + width];
  }

  lemma FieldChanged(buf: seq<Byte>, i: nat, b: Byte, at: nat, width: nat)
    requires at <= i < at + width <= |buf| && b != buf[i]
    ensures Field(buf[i := b], at, width) != Field(buf, at, width)
  {
    var bad, was := buf[i := b][at..at + width], buf[at..at + width];
    assert bad[i - at] == b && was[i - at] == buf[i];
    if FromLe(bad) == FromLe(was) {
      FromLeInjective(bad, was);
    }
  }

  // A buffer the reader accepts, seen from its header.
  ghost predicate Accepted(buf: seq<Byte>)
  {
    && |buf| >= 32 && buf[..8] == MAGIC && GeometryOk(buf)
    && |buf| == 32 + (Field(buf, 16, 4) + Field(buf, 20, 4)) * 6
    && Fnv1a(buf[32..]) == Field(buf, 24, 8)
  }

  lemma AcceptedIffParsed(buf: seq<Byte>)
    ensures Accepted(buf) <==> Parse(buf).Ok?
  {
  }

  lemma RowByteDetected(buf: seq<Byte>, i: nat, b: Byte)
    requires 32 <= i < |buf| && b != buf[i]
    ensures Fnv1a(buf[i := b][32..]) != Fnv1a(buf[32..])
  {
    hide Fnv1a;
    var rows, others := buf[32..], buf[i := b][32..];
    assert rows[i - 32] == buf[i] && others[i - 32] == b;
    assert forall j :: 0 <= j < |rows| && j != i - 32 ==> rows[j] == others[j];
    DetectsSingleByteChange(rows, others, i - 32);
  }

  lemma CountByteDetected(buf: seq<Byte>, i: nat, b: Byte)
    requires |buf| >= 32 && 16 <= i < 24 && b != buf[i]
    ensures var bad := buf[i := b];
            Field(bad, 16, 4) + Field(bad, 20, 4) != Field(buf, 16, 4) + Field(buf, 20, 4)
  {
    hide Field;
    if i < 20 {
      FieldChanged(buf, i, b, 16, 4);
      FieldUntouched(buf, i, b, 20, 4);
    } else {
      FieldUntouched(buf, i, b, 16, 4);
      FieldChanged(buf, i, b, 20, 4);
    }
  }

  lemma GeometryByteKeeps(buf: seq<Byte>, i: nat, b: Byte)
    requires |buf| >= 32 && 8 <= i < 16
    ensures var bad := buf[i := b];
            && bad[..8] == buf[..8] && bad[32..] == buf[32..]
            && Field(bad, 16, 4) == Field(buf, 16, 4) && Field(bad, 20, 4) == Field(buf, 20, 4)
            && Field(bad, 24, 8) == Field(buf, 24, 8)
  {
    hide Field;
    FieldUntouched(buf, i, b, 16, 4);
    FieldUntouched(buf, i, b, 20, 4);
    FieldUntouched(buf, i, b, 24, 8);
  }

  /** What the validation catches: changing any one byte of an accepted blob makes the
      reader reject it, except inside the grid-geometry and reserved header bytes, which no
      checksum covers; there it is accepted exactly when the new geometry still passes the
      range checks. */
  lemma SingleByteCorruption(buf: seq<Byte>, i: nat, b: Byte)
    requires Parse(buf).Ok? && i < |buf| && b != buf[i]
    ensures Parse(buf[i := b]).Ok? <==> 8 <= i < 16 && GeometryOk(buf[i := b])
  {
    var bad := buf[i := b];
    AcceptedIffParsed(buf);
    AcceptedIffParsed(bad);
    hide Parse, Field, Fnv1a, GeometryOk;
    if i < 8 {
      assert bad[..8][i] == b && buf[..8][i] != b;
    } else if i < 16 {
      GeometryByteKeeps(buf, i, b);
    } else if i < 24 {
      CountByteDetected(buf, i, b);
    } else if i < 32 {
      FieldChanged(buf, i, b, 24, 8);
      assert bad[32..] == buf[32..];
    } else {
      FieldUntouched(buf, i, b, 24, 8);
      RowByteDetected(buf, i, b);
    }
  }

  // ---- lookup -------------------------------------------------------------------------

  // A point where the predicate turns from true to false; for a monotone predicate, the
  // first index at which it is false.
  method PartitionPoint(n: nat, pred: nat --> bool) returns (lo: nat)
    requires forall i: nat :: i < n ==> pred.requires(i)
    ensures lo <= n && (lo == 0 || pred(lo - 1)) && (lo == n || !pred(lo))
    ensures (forall i: nat, j: nat :: i < j < n && pred(j) ==> pred(i)) ==>
              (forall i: nat :: i < lo ==> pred(i)) && (forall i: nat :: lo <= i < n ==> !pred(i))
  {
    lo := 0;
    var hi := n;
    while lo < hi
      invariant 0 <= lo <= hi <= n
      invariant (lo == 0 || pred(lo - 1)) && (hi == n || !pred(hi))
    {
      var mid := lo + (hi - lo) / 2;
      if pred(mid) {
        lo := mid + 1;
      } else {
        hi := mid;
      }
    }
  }

  // The search found row `i`, which starts at or below the key while the next starts above it.
  ghost predicate FoundRow(t: seq<Row>, key: nat, i: nat)
  {
    i < |t| && t[i].start <= key && (i + 1 == |t| || key < t[i + 1].start)
  }

  lemma FoundRowLookup(t: seq<Row>, key: nat, i: nat)
    requires Ascending(t) && FoundRow(t, key, i)
    ensures Lookup(t, key) == t[i].cell
  {
    LookupInSpan(t, key, i);
  }

  lemma NoRowLookup(t: seq<Row>, key: nat)
    requires Ascending(t) && (t == [] || key < t[0].start)
    ensures Lookup(t, key) == UNK
  {
    LookupBelow(t, key);
  }

  // Rows the reader accepts need not ascend; if they do, the search is the table lookup.
  method Cell(rows: seq<Byte>, key: nat) returns (cell: nat)
    ensures var t := Rows(rows);
            || (cell == UNK && (t == [] || key < t[0].start))
            || exists i: nat :: FoundRow(t, key, i) && cell == t[i].cell
    ensures Ascending(Rows(rows)) ==> cell == Lookup(Rows(rows), key)
  {
    hide Ascending, Lookup, FromLe;
    var n := |rows| / 6;
    ghost var decoded := Rows(rows);
    var before := (i: nat) requires i < n => StartAt(rows, i) <= key;
    var idx := PartitionPoint(n, before);
    if idx == 0 {
      assert decoded == [] || key < decoded[0].start;
      if Ascending(decoded) {
        NoRowLookup(decoded, key);
      }
      return UNK;
    }
    cell := CellBytes(rows, idx - 1);
    assert decoded[idx - 1] == Row(StartAt(rows, idx - 1), cell);
    assert FoundRow(decoded, key, idx - 1);
    if Ascending(decoded) {
      FoundRowLookup(decoded, key, idx - 1);
    }
  }

  function CenterAt(row: nat, col: nat, degTenths: nat): Grid.Point
  {
    var deg := degTenths as real / 10.0;
    Grid.Point(row as real * deg - 90.0 + deg / 2.0, col as real * deg - 180.0 + deg / 2.0)
  }

  function Center(t: Table, cell: nat): Option<Grid.Point>
    requires t.nlon > 0
  {
    if cell == UNK then None else Some(CenterAt(cell / t.nlon, cell % t.nlon, t.degTenths))
  }

  datatype Address = V4(value: nat) | V6(value: nat)

  // An IPv6 address is looked up by its top 32 bits.
  function KeyOf(ip: Address): nat
  {
    match ip
    case V4(a) => a
    case V6(a) => a / 0x1_0000_0000_0000_0000_0000_0000
  }

  ghost function Located(t: Table, ip: Address): Option<Grid.Point>
    requires t.nlon > 0
  {
    Center(t, Lookup(Rows(if ip.V4? then t.rows4 else t.rows6), KeyOf(ip)))
  }

  method Locate(t: Table, ip: Address) returns (r: Option<Grid.Point>)
    requires t.nlon > 0
    ensures var rows := Rows(if ip.V4? then t.rows4 else t.rows6);
            && (r.None? || exists i: nat :: FoundRow(rows, KeyOf(ip), i) && r == Center(t, rows[i].cell))
            && (Ascending(rows) ==> r == Located(t, ip))
  {
    var cell;
    match ip {
      case V4(a) => cell := Cell(t.rows4, a);
      case V6(a) => cell := Cell(t.rows6, a / 0x1_0000_0000_0000_0000_0000_0000);
    }
    r := Center(t, cell);
  }

  // ---- what an accepted corruption does to the answers --------------------------------

  // The fields of the table after a geometry or reserved byte was changed.
  lemma CorruptTable(buf: seq<Byte>, i: nat, b: Byte)
    requires 8 <= i < 16 && i < |buf| && b != buf[i] && Parse(buf).Ok? && Parse(buf[i := b]).Ok?
    ensures var (t, u) := (Parse(buf).value, Parse(buf[i := b]).value);
            && u.rows4 == t.rows4 && u.rows6 == t.rows6
            && (u.degTenths == t.degTenths <==> i >= 10)
            && (u.nlon == t.nlon <==> i < 10 || i >= 12)
  {
    hide FromLe, Fnv1a;
    GeometryByteKeeps(buf, i, b);
    if i < 10 {
      FieldChanged(buf, i, b, 8, 2);
    } else {
      FieldUntouched(buf, i, b, 8, 2);
    }
    if 10 <= i < 12 {
      FieldChanged(buf, i, b, 10, 2);
    } else {
      FieldUntouched(buf, i, b, 10, 2);
    }
  }

  lemma StepMovesCenter(row: nat, col: nat, d: nat, e: nat)
    requires d != e
    ensures CenterAt(row, col, d) != CenterAt(row, col, e)
  {
    var k := row as real + 0.5;
    var (x, y) := (d as real / 10.0, e as real / 10.0);
    ScaledDiffers(k, x, y);
    assert row as real * x + x / 2.0 == k * x && row as real * y + y / 2.0 == k * y;
  }

  lemma CenterAtInjective(row: nat, col: nat, otherRow: nat, otherCol: nat, d: nat)
    requires d > 0
    ensures CenterAt(row, col, d) == CenterAt(otherRow, otherCol, d) <==> row == otherRow && col == otherCol
  {
    var k := d as real / 10.0;
    if row != otherRow {
      ScaledDiffers(k, row as real, otherRow as real);
    } else if col != otherCol {
      ScaledDiffers(k, col as real, otherCol as real);
    }
  }

  // The same cell has the same centre in two grids that differ in step or in width exactly
  // when the step is the same and the cell lies in the first row of both.
  lemma CenterMovesIff(t: Table, u: Table, cell: nat)
    requires t.nlon > 0 && u.nlon > 0 && t.degTenths > 0 && u.degTenths > 0 && cell != UNK
    requires t.degTenths == u.degTenths || t.nlon == u.nlon
    ensures Center(t, cell) == Center(u, cell) <==>
              t.degTenths == u.degTenths && (t.nlon == u.nlon || (cell < t.nlon && cell < u.nlon))
  {
    hide CenterAt;
    if t.degTenths != u.degTenths {
      StepMovesCenter(cell / t.nlon, cell % t.nlon, t.degTenths, u.degTenths);
    } else if t.nlon != u.nlon {
      CenterAtInjective(cell / t.nlon, cell % t.nlon, cell / u.nlon, cell % u.nlon, t.degTenths);
      SamePlaceIff(cell, t.nlon, u.nlon);
    }
  }

  lemma SamePlaceIff(cell: nat, n: nat, m: nat)
    requires n > 0 && m > 0 && n != m
    ensures cell / n == cell / m && cell % n == cell % m <==> cell < n && cell < m
  {
    var q := cell / n;
    assert cell == q * n + cell % n && cell == cell / m * m + cell % m;
    if q == cell / m && cell % n == cell % m {
      assert q * (n - m) == 0;
    } else if cell < n && cell < m {
      SmallQuotient(cell, n);
      SmallQuotient(cell, m);
    }
  }

  lemma SmallQuotient(cell: nat, n: nat)
    requires cell < n
    ensures cell / n == 0 && cell % n == cell
  {
  }

  lemma ScaledDiffers(k: real, x: real, y: real)
    requires k > 0.0 && x != y
    ensures k * x != k * y && x * k != y * k
  {
    assert k * x - k * y == k * (x - y);
  }

  /** A one-byte change that the reader accepts leaves every lookup finding the same cell, so
      no answer appears or disappears.  A change of the cell size moves every answer; a change
      of the row width moves every answer except those in the first row of both grids; the
      row count and the reserved bytes move none. */
  lemma AcceptedCorruption(buf: seq<Byte>, i: nat, b: Byte, ip: Address)
    requires i < |buf| && b != buf[i] && Parse(buf).Ok? && Parse(buf[i := b]).Ok?
    ensures var (t, u) := (Parse(buf).value, Parse(buf[i := b]).value);
            var cell := Lookup(Rows(if ip.V4? then t.rows4 else t.rows6), KeyOf(ip));
            && t.nlon > 0 && u.nlon > 0
            && (Located(t, ip).None? <==> Located(u, ip).None?)
            && (Located(t, ip).Some? ==>
                  (Located(t, ip) == Located(u, ip) <==> i >= 12 || (i >= 10 && cell < t.nlon && cell < u.nlon)))
  {
    SingleByteCorruption(buf, i, b);
    CorruptTable(buf, i, b);
    var (t, u) := (Parse(buf).value, Parse(buf[i := b]).value);
    assert t.nlon > 0 && u.nlon > 0 && t.degTenths > 0 && u.degTenths > 0;
    hide Parse, Field, Rows, Lookup;
    var cell := Lookup(Rows(if ip.V4? then t.rows4 else t.rows6), KeyOf(ip));
    if cell != UNK {
      CenterMovesIff(t, u, cell);
    }
  }

  lemma TwoByteField(buf: seq<Byte>, at: nat)
    requires at + 2 <= |buf|
    ensures Field(buf, at, 2) == 256 * (buf[at + 1] as int) + buf[at]
  {
    var two := buf[at..at + 2];
    assert FromLe(two[1..][1..]) == 0;
    assert FromLe(two[1..]) == two[1];
  }

  /** Such changes exist for every table the generator packs: any non-zero low byte of
      the cell size is accepted as it stands. */
  lemma StepByteUndetected(t4: seq<Row>, t6: seq<Row>, b: Byte)
    requires Fits(t4, t6) && b != 0
    ensures Parse(Blob(t4, t6)[8 := b]) == Ok(Table(PackRows(t4), PackRows(t6), 360, b))
  {
    ReadsBack(t4, t6);
    var buf := Blob(t4, t6);
    StepByteAccepted(buf, b);
  }

  lemma StepByteAccepted(buf: seq<Byte>, b: Byte)
    requires Parse(buf).Ok? && Parse(buf).value.degTenths < 256 && b != 0
    ensures Parse(buf[8 := b]) == Ok(Parse(buf).value.(degTenths := b))
  {
    var bad := buf[8 := b];
    TwoByteField(buf, 8);
    TwoByteField(bad, 8);
    hide FromLe, Fnv1a;
    FieldUntouched(buf, 8, b, 10, 2);
    FieldUntouched(buf, 8, b, 12, 2);
    GeometryByteKeeps(buf, 8, b);
  }
}
