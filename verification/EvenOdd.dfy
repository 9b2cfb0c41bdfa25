/** Even-odd point-in-country test over projected rings, in exact reals. */
module EvenOdd {
  import opened Options

  datatype Point = Point(x: real, y: real)

  // Where the line through a and b meets the horizontal line at height y.
  function MeetsAt(y: real, a: Point, b: Point): real
    requires a.y != b.y
  {
    ((b.x - a.x) * (y - a.y)) / (b.y - a.y) + a.x
  }

  predicate Straddles(y: real, a: Point, b: Point) { (a.y > y) != (b.y > y) }

  // The edge between a and b crosses the ray that runs from q to the right.
  predicate Crosses(q: Point, a: Point, b: Point)
  {
    Straddles(q.y, a, b) && q.x < MeetsAt(q.y, a, b)
  }

  // Whether a path crosses the ray an odd number of times.
  function PathParity(q: Point, path: seq<Point>): bool
  {
    if |path| < 2 then false
    else
      var n := |path| - 1;
      PathParity(q, path[..n]) != Crosses(q, path[n], path[n - 1])
  }

  // The ring as the code walks it: the closing edge first, then every edge in order.
  function Inside(q: Point, ring: seq<Point>): bool
  {
    ring != [] && PathParity(q, [ring[|ring| - 1]] + ring)
  }

  method RingContains(q: Point, ring: seq<Point>) returns (hit: bool)
    ensures hit == Inside(q, ring)
  {
    hide Crosses;
    hit := false;
    var n := |ring|;
    var i, j := 0, n - 1;
    ghost var walk := if n == 0 then [] else [ring[n - 1]] + ring;
    while i < n
      invariant 0 <= i <= n && j == if i == 0 then n - 1 else i - 1
      invariant if n > 0 then hit == PathParity(q, walk[..i + 1]) else !hit
    {
      var a, b := ring[i], ring[j];
      assert walk[..i + 2][..i + 1] == walk[..i + 1] && walk[i + 1] == a && walk[i] == b;
      if Crosses(q, a, b) {
        hit := !hit;
      }
      j := i;
      i := i + 1;
    }
    assert n > 0 ==> walk[..n + 1] == walk;
  }

  // In the outer ring and in none of the holes.
  predicate InPolygon(q: Point, rings: seq<seq<Point>>)
  {
    rings != [] && Inside(q, rings[0]) && forall i :: 0 < i < |rings| ==> !Inside(q, rings[i])
  }

  method PolygonContains(q: Point, rings: seq<seq<Point>>) returns (r: bool)
    ensures r == InPolygon(q, rings)
  {
    if rings == [] {
      return false;
    }
    var outer := RingContains(q, rings[0]);
    if !outer {
      return false;
    }
    for i := 1 to |rings|
      invariant forall k :: 0 < k < i ==> !Inside(q, rings[k])
    {
      var hole := RingContains(q, rings[i]);
      if hole {
        return false;
      }
    }
    return true;
  }

  /** A further hole takes exactly its own inside out of a polygon. */
  lemma HoleTakesOut(q: Point, rings: seq<seq<Point>>, hole: seq<Point>)
    requires rings != []
    ensures InPolygon(q, rings + [hole]) <==> InPolygon(q, rings) && !Inside(q, hole)
    ensures InPolygon(q, [hole]) <==> Inside(q, hole)
  {
    hide Inside;
    var all := rings + [hole];
    assert all[|rings|] == hole && forall i :: 0 <= i < |rings| ==> all[i] == rings[i];
  }

  datatype Country = Country(name: string, polygons: seq<seq<seq<Point>>>)

  predicate InCountry(q: Point, c: Country)
  {
    exists i :: 0 <= i < |c.polygons| && InPolygon(q, c.polygons[i])
  }

  predicate FirstAt(q: Point, countries: seq<Country>, c: int)
    requires 0 <= c < |countries|
  {
    InCountry(q, countries[c]) && forall d :: 0 <= d < c ==> !InCountry(q, countries[d])
  }

  // The first country, in order, that has a polygon around the point.
  method CountryAt(q: Point, countries: seq<Country>) returns (name: Option<string>)
    ensures name.None? ==> forall c :: 0 <= c < |countries| ==> !InCountry(q, countries[c])
    ensures name.Some? ==>
              exists c :: 0 <= c < |countries| && FirstAt(q, countries, c) && countries[c].name == name.value
  {
    for c := 0 to |countries|
      invariant forall d :: 0 <= d < c ==> !InCountry(q, countries[d])
    {
      for i := 0 to |countries[c].polygons|
        invariant forall k :: 0 <= k < i ==> !InPolygon(q, countries[c].polygons[k])
      {
        var inside := PolygonContains(q, countries[c].polygons[i]);
        if inside {
          assert InPolygon(q, countries[c].polygons[i]) && FirstAt(q, countries, c);
          return Some(countries[c].name);
        }
      }
    }
    return None;
  }

  // ---- edges --------------------------------------------------------------------------

  lemma DivideBack(u: real, d: real)
    requires d != 0.0
    ensures u / d * d == u
  {
  }

  // The crossing point does not depend on the direction of the edge.
  lemma MeetsSymmetric(y: real, a: Point, b: Point)
    requires a.y != b.y
    ensures MeetsAt(y, a, b) == MeetsAt(y, b, a)
  {
    var d := b.y - a.y;
    var u, v := (b.x - a.x) * (y - a.y), (a.x - b.x) * (y - b.y);
    DivideBack(u, d);
    DivideBack(v, -d);
    var e := u / d + a.x - (v / (-d) + b.x);
    assert e * d == u + a.x * d + v - b.x * d;
    assert u + v == (b.x - a.x) * d by {
      assert u + v == (b.x - a.x) * ((y - a.y) - (y - b.y));
    }
    assert e * d == 0.0;
  }

  lemma CrossesSymmetric(q: Point, a: Point, b: Point)
    ensures Crosses(q, a, b) == Crosses(q, b, a)
  {
    if Straddles(q.y, a, b) {
      MeetsSymmetric(q.y, a, b);
    }
  }

  // An edge that straddles the ray's height meets it between its own ends.
  lemma MeetsBetween(y: real, a: Point, b: Point, lo: real, hi: real)
    requires Straddles(y, a, b) && lo <= a.x <= hi && lo <= b.x <= hi
    ensures lo <= MeetsAt(y, a, b) <= hi
  {
    if a.y < b.y {
      MeetsBetweenUp(y, a, b, lo, hi);
    } else {
      MeetsSymmetric(y, a, b);
      MeetsBetweenUp(y, b, a, lo, hi);
    }
  }

  lemma MeetsBetweenUp(y: real, a: Point, b: Point, lo: real, hi: real)
    requires a.y <= y < b.y && lo <= a.x <= hi && lo <= b.x <= hi
    ensures lo <= MeetsAt(y, a, b) <= hi
  {
    var d, s := b.y - a.y, y - a.y;
    var u := (b.x - a.x) * s;
    DivideBack(u, d);
    var m := u / d + a.x;
    Distribute(b.x - a.x, a.x, s, d);
    Mix(lo, hi, b.x, a.x, s, d - s);
    assert m * d == u + a.x * d;
    ScaleDown(lo, m, d);
    ScaleDown(m, hi, d);
  }

  lemma Distribute(w: real, x: real, s: real, d: real)
    ensures w * s + x * d == (w + x) * s + x * (d - s)
  {
  }

  lemma Mix(lo: real, hi: real, x: real, y: real, s: real, k: real)
    requires lo <= x <= hi && lo <= y <= hi && 0.0 <= s && 0.0 <= k
    ensures lo * (s + k) <= x * s + y * k <= hi * (s + k)
  {
    MixBelow(hi, x, y, s, k);
    MixBelow(-lo, -x, -y, s, k);
    assert -x * s + -y * k == -(x * s + y * k);
    assert -lo * (s + k) == -(lo * (s + k));
  }

  lemma MixBelow(hi: real, x: real, y: real, s: real, k: real)
    requires x <= hi && y <= hi && 0.0 <= s && 0.0 <= k
    ensures x * s + y * k <= hi * (s + k)
  {
    ScaleUp(x, hi, s);
    ScaleUp(y, hi, k);
    Spread(hi, s, k);
  }

  lemma Spread(x: real, s: real, k: real)
    ensures x * (s + k) == x * s + x * k
  {
  }

  lemma ScaleUp(x: real, y: real, k: real)
    requires x <= y && 0.0 <= k
    ensures x * k <= y * k
  {
  }

  lemma ScaleDown(x: real, y: real, k: real)
    requires x * k <= y * k && 0.0 < k
    ensures x <= y
  {
  }

  // ---- paths --------------------------------------------------------------------------

  // Parity is additive where two paths meet.
  lemma {:induction false} PathJoin(q: Point, left: seq<Point>, v: Point, right: seq<Point>)
    ensures PathParity(q, left + [v] + right) == (PathParity(q, left + [v]) != PathParity(q, [v] + right))
  {
    if right == [] {
      assert left + [v] + right == left + [v];
    } else {
      var n := |right| - 1;
      PathJoin(q, left, v, right[..n]);
      var whole, tail := left + [v] + right, [v] + right;
      assert whole[..|whole| - 1] == left + [v] + right[..n];
      assert tail[..|tail| - 1] == [v] + right[..n];
      assert whole[|whole| - 2] == tail[|tail| - 2];
    }
  }

  function Reversed(path: seq<Point>): (r: seq<Point>)
    ensures |r| == |path|
  {
    if path == [] then [] else [path[|path| - 1]] + Reversed(path[..|path| - 1])
  }

  lemma EdgeParity(q: Point, a: Point, b: Point)
    ensures PathParity(q, [a, b]) == Crosses(q, b, a)
  {
    assert [a, b][..1] == [a];
  }

  // ... and independent of the direction of travel.
  lemma {:induction false} PathReversed(q: Point, path: seq<Point>)
    ensures PathParity(q, Reversed(path)) == PathParity(q, path)
  {
    if |path| >= 2 {
      var n := |path| - 1;
      var (front, a, b) := (path[..n], path[n - 1], path[n]);
      PathReversed(q, front);
      var back := Reversed(front);
      assert back == [a] + back[1..];
      assert Reversed(path) == [b] + [a] + back[1..];
      PathJoin(q, [b], a, back[1..]);
      assert [b] + [a] == [b, a];
      EdgeParity(q, b, a);
      CrossesSymmetric(q, a, b);
    }
  }

  lemma {:induction false} ReversedAppend(xs: seq<Point>, ys: seq<Point>)
    ensures Reversed(xs + ys) == Reversed(ys) + Reversed(xs)
  {
    if ys == [] {
      assert xs + ys == xs;
    } else {
      var n := |ys| - 1;
      assert (xs + ys)[..|xs| + n] == xs + ys[..n] && (xs + ys)[|xs| + n] == ys[n];
      ReversedAppend(xs, ys[..n]);
      assert Reversed(xs + ys) == [ys[n]] + (Reversed(ys[..n]) + Reversed(xs));
    }
  }

  // ---- rings --------------------------------------------------------------------------

  // A ring seen as a closed path from its first vertex.
  lemma InsideIsClosedPath(q: Point, ring: seq<Point>)
    requires ring != []
    ensures Inside(q, ring) == PathParity(q, ring + [ring[0]])
  {
    var n := |ring| - 1;
    var first, last := ring[0], ring[n];
    assert [last] + ring == [last] + [first] + ring[1..] && ring == [first] + ring[1..];
    PathJoin(q, [last], first, ring[1..]);
    assert ring + [first] == ring[..n] + [last] + [first] && ring == ring[..n] + [last];
    PathJoin(q, ring[..n], last, [first]);
    assert [last] + [first] == [last, first];
  }

  // The closed path splits at any vertex into the way out and the way back.
  lemma ClosedSplit(q: Point, ring: seq<Point>, j: nat)
    requires j < |ring|
    ensures Inside(q, ring) == (PathParity(q, ring[..j + 1]) != PathParity(q, ring[j..] + [ring[0]]))
  {
    InsideIsClosedPath(q, ring);
    assert ring + [ring[0]] == ring[..j] + [ring[j]] + (ring[j + 1..] + [ring[0]]);
    assert ring[..j + 1] == ring[..j] + [ring[j]];
    assert ring[j..] + [ring[0]] == [ring[j]] + (ring[j + 1..] + [ring[0]]);
    PathJoin(q, ring[..j], ring[j], ring[j + 1..] + [ring[0]]);
  }

  /** The answer does not depend on which vertex the ring starts from ... */
  lemma RotationInvariant(q: Point, ring: seq<Point>, i: nat)
    requires i < |ring|
    ensures Inside(q, ring[i..] + ring[..i]) == Inside(q, ring)
  {
    if i > 0 {
      var turned, j := ring[i..] + ring[..i], |ring| - i;
      ClosedSplit(q, ring, i);
      ClosedSplit(q, turned, j);
      assert turned[..j + 1] == ring[i..] + [ring[0]];
      assert turned[j..] + [turned[0]] == ring[..i + 1];
    } else {
      assert ring[0..] + ring[..0] == ring;
    }
  }

  /** ... nor on its orientation. */
  lemma OrientationInvariant(q: Point, ring: seq<Point>)
    ensures Inside(q, Reversed(ring)) == Inside(q, ring)
  {
    if ring != [] {
      var n := |ring| - 1;
      PathReversed(q, [ring[n]] + ring);
      ReversedAppend([ring[n]], ring);
      assert Reversed([ring[n]]) == [ring[n]];
      assert Reversed(ring)[0] == ring[n];
      InsideIsClosedPath(q, Reversed(ring));
    }
  }

  /** Cutting a closed ring along any border between two of its vertices - a straight chord
      when `border` is empty, any polyline otherwise - leaves every point inside the ring
      exactly when it is inside one and only one of the two parts. */
  lemma CutAdditive(q: Point, ring: seq<Point>, i: nat, j: nat, border: seq<Point>)
    requires i <= j < |ring|
    ensures var partA := ring[i..j + 1] + Reversed(border);
            var partB := ring[j..] + ring[..i + 1] + border;
            Inside(q, ring) == (Inside(q, partA) != Inside(q, partB))
  {
    var (u, v) := (ring[i], ring[j]);
    var (near, far) := (ring[i..j + 1], ring[j..] + ring[..i + 1]);
    // the ring is the two arcs between the cut vertices
    TwoArcs(q, ring, i, j);
    // each part is one arc plus the border, walked in opposite directions
    ArcClosed(q, near, u, v, Reversed(border));
    ArcClosed(q, far, v, u, border);
    assert PathParity(q, [v] + Reversed(border) + [u]) == PathParity(q, [u] + border + [v]) by {
      PathReversed(q, [u] + border + [v]);
      ReversedAppend([u] + border, [v]);
      ReversedAppend([u], border);
      assert Reversed([u]) == [u] && Reversed([v]) == [v];
      assert Reversed([u] + border + [v]) == [v] + Reversed(border) + [u];
    }
  }

  lemma TwoArcs(q: Point, ring: seq<Point>, i: nat, j: nat)
    requires i <= j < |ring|
    ensures Inside(q, ring) == (PathParity(q, ring[i..j + 1]) != PathParity(q, ring[j..] + ring[..i + 1]))
  {
    hide PathParity, Inside;
    RotationInvariant(q, ring, i);
    ClosedSplit(q, ring[i..] + ring[..i], j - i);
    TurnedArcs(ring, i, j);
  }

  lemma TurnedArcs(ring: seq<Point>, i: nat, j: nat)
    requires i <= j < |ring|
    ensures var turned := ring[i..] + ring[..i];
            && turned[..j - i + 1] == ring[i..j + 1]
            && turned[j - i..] + [turned[0]] == ring[j..] + ring[..i + 1]
  {
    var turned := ring[i..] + ring[..i];
    assert turned[j - i..] == ring[j..] + ring[..i];
    assert ring[..i] + [ring[i]] == ring[..i + 1];
  }

  lemma ArcClosed(q: Point, arc: seq<Point>, from: Point, to: Point, border: seq<Point>)
    requires arc != [] && arc[0] == from && arc[|arc| - 1] == to
    ensures Inside(q, arc + border) == (PathParity(q, arc) != PathParity(q, [to] + border + [from]))
  {
    var n := |arc| - 1;
    InsideIsClosedPath(q, arc + border);
    assert arc + border + [from] == arc[..n] + [to] + (border + [from]);
    assert arc[..n] + [to] == arc;
    assert [to] + (border + [from]) == [to] + border + [from];
    PathJoin(q, arc[..n], to, border + [from]);
  }

  // ---- the bounding box ---------------------------------------------------------------

  // A path changes side of a horizontal line once per straddling edge, so a closed one does
  // it an even number of times.
  function StraddleParity(y: real, path: seq<Point>): bool
  {
    if |path| < 2 then false
    else
      var n := |path| - 1;
      StraddleParity(y, path[..n]) != Straddles(y, path[n], path[n - 1])
  }

  lemma {:induction false} StraddleEnds(y: real, path: seq<Point>)
    requires path != []
    ensures StraddleParity(y, path) == ((path[0].y > y) != (path[|path| - 1].y > y))
  {
    if |path| >= 2 {
      StraddleEnds(y, path[..|path| - 1]);
    }
  }

  // Seen from the far left every straddling edge is a crossing.
  lemma {:induction false} LeftOfPath(q: Point, path: seq<Point>)
    requires forall k :: 0 <= k < |path| ==> q.x < path[k].x
    ensures PathParity(q, path) == StraddleParity(q.y, path)
  {
    if |path| >= 2 {
      var n := |path| - 1;
      LeftOfPath(q, path[..n]);
      var (a, b) := (path[n], path[n - 1]);
      if Straddles(q.y, a, b) {
        var (lo, hi) := if a.x <= b.x then (a.x, b.x) else (b.x, a.x);
        MeetsBetween(q.y, a, b, lo, hi);
      }
    }
  }

  // An edge wholly above, wholly below or wholly to the left of the point is never crossed.
  lemma {:induction false} ClearOfPath(q: Point, path: seq<Point>)
    requires || (forall k :: 0 <= k < |path| ==> path[k].x <= q.x)
             || (forall k :: 0 <= k < |path| ==> path[k].y <= q.y)
             || (forall k :: 0 <= k < |path| ==> path[k].y > q.y)
    ensures !PathParity(q, path)
  {
    if |path| >= 2 {
      var n := |path| - 1;
      ClearOfPath(q, path[..n]);
      var (a, b) := (path[n], path[n - 1]);
      if Straddles(q.y, a, b) {
        var lo := if a.x <= b.x then a.x else b.x;
        MeetsBetween(q.y, a, b, lo, q.x);
      }
    }
  }

  /** A point outside the bounding box of a ring, on any side, is never inside it. */
  lemma OutsideBox(q: Point, ring: seq<Point>)
    requires || (forall k :: 0 <= k < |ring| ==> ring[k].x <= q.x)
             || (forall k :: 0 <= k < |ring| ==> q.x < ring[k].x)
             || (forall k :: 0 <= k < |ring| ==> ring[k].y <= q.y)
             || (forall k :: 0 <= k < |ring| ==> ring[k].y > q.y)
    ensures !Inside(q, ring)
  {
    if ring != [] {
      var walk := [ring[|ring| - 1]] + ring;
      if forall k :: 0 <= k < |ring| ==> q.x < ring[k].x {
        LeftOfPath(q, walk);
        StraddleEnds(q.y, walk);
      } else {
        ClearOfPath(q, walk);
      }
    }
  }

  // ---- what being inside means --------------------------------------------------------

  // Positive when q lies to the left of the line from a to b, negative to the right of it,
  // zero on it; it is twice the area of the triangle a, b, q.
  function Side(a: Point, b: Point, q: Point): real { (b.x - a.x) * (q.y - a.y) - (b.y - a.y) * (q.x - a.x) }

  // An upward edge with the ray's start on its left, or a downward one with it on its right.
  predicate Hit(ya: real, yb: real, side: real)
  {
    (ya <= 0.0 < yb && side > 0.0) || (yb <= 0.0 < ya && side < 0.0)
  }

  lemma QuotientSign(w: real, d: real, s: real)
    requires d != 0.0 && w * d == s
    ensures w > 0.0 <==> (d > 0.0 && s > 0.0) || (d < 0.0 && s < 0.0)
  {
    if w > 0.0 && d > 0.0 {
      assert w * d > 0.0;
    } else if w > 0.0 {
      assert w * -d > 0.0;
    } else if d > 0.0 {
      assert -w * d >= 0.0;
    } else {
      assert -w * -d >= 0.0;
    }
  }

  // The ray crosses an edge exactly when the edge passes the ray's height on the right.
  lemma CrossesIffHit(q: Point, a: Point, b: Point)
    ensures Crosses(q, a, b) <==> Hit(a.y - q.y, b.y - q.y, Side(a, b, q))
  {
    if Straddles(q.y, a, b) {
      var d := b.y - a.y;
      var u := (b.x - a.x) * (q.y - a.y);
      DivideBack(u, d);
      var w := u / d + a.x - q.x;
      Distribute(u / d, a.x - q.x, d, d);
      assert w * d == u / d * d + (a.x - q.x) * d;
      assert (a.x - q.x) * d == -((q.x - a.x) * d);
      QuotientSign(w, d, Side(a, b, q));
    }
  }

  lemma SideReversed(a: Point, b: Point, q: Point)
    ensures Side(b, a, q) == -Side(a, b, q)
  {
    SideCross(a, b, q);
    SideCross(b, a, q);
  }

  // Seen from q.
  lemma SideCross(a: Point, b: Point, q: Point)
    ensures Side(a, b, q) == (a.x - q.x) * (b.y - q.y) - (b.x - q.x) * (a.y - q.y)
  {
  }

  // The triangle's three sides balance around q.
  lemma SidesBalance(a: Point, b: Point, c: Point, q: Point)
    ensures Side(b, c, q) * (a.y - q.y) + Side(c, a, q) * (b.y - q.y) + Side(a, b, q) * (c.y - q.y) == 0.0
  {
    SideCross(a, b, q);
    SideCross(b, c, q);
    SideCross(c, a, q);
    CrossBalance(a.x - q.x, a.y - q.y, b.x - q.x, b.y - q.y, c.x - q.x, c.y - q.y);
  }

  lemma CrossBalance(x1: real, y1: real, x2: real, y2: real, x3: real, y3: real)
    ensures (x2 * y3 - x3 * y2) * y1 + (x3 * y1 - x1 * y3) * y2 + (x1 * y2 - x2 * y1) * y3 == 0.0
  {
  }

  lemma SidesAddUp(a: Point, b: Point, c: Point, q: Point)
    ensures Side(a, b, q) + Side(b, c, q) + Side(c, a, q) == Side(a, b, c)
  {
    SideCross(a, b, q);
    SideCross(b, c, q);
    SideCross(c, a, q);
  }

  lemma TriangleHits(q: Point, a: Point, b: Point, c: Point)
    ensures Inside(q, [a, b, c])
         == ((Hit(a.y - q.y, b.y - q.y, Side(a, b, q)) != Hit(b.y - q.y, c.y - q.y, Side(b, c, q)))
             != Hit(c.y - q.y, a.y - q.y, Side(c, a, q)))
  {
    hide Crosses, Hit, Side;
    var walk := [c, a, b, c];
    assert [[a, b, c][2]] + [a, b, c] == walk;
    assert walk[..3] == [c, a, b] && [c, a, b][..2] == [c, a] && [c, a][..1] == [c];
    assert PathParity(q, [c, a]) == Crosses(q, a, c);
    assert PathParity(q, [c, a, b]) == (Crosses(q, a, c) != Crosses(q, b, a));
    CrossesSymmetric(q, a, c);
    CrossesSymmetric(q, b, a);
    CrossesSymmetric(q, c, b);
    CrossesIffHit(q, a, b);
    CrossesIffHit(q, b, c);
    CrossesIffHit(q, c, a);
  }

  lemma Product(x: real, y: real)
    ensures x > 0.0 && y > 0.0 ==> x * y > 0.0
    ensures x >= 0.0 && y >= 0.0 ==> x * y >= 0.0
    ensures x <= 0.0 && y <= 0.0 ==> x * y >= 0.0
    ensures x < 0.0 && y < 0.0 ==> x * y > 0.0
    ensures x <= 0.0 && y >= 0.0 ==> x * y <= 0.0
    ensures x >= 0.0 && y <= 0.0 ==> x * y <= 0.0
    ensures x < 0.0 && y > 0.0 ==> x * y < 0.0
    ensures x > 0.0 && y < 0.0 ==> x * y < 0.0
  {
  }

  // With all three sides on the left exactly one of the edges that pass the ray is upward.
  lemma AllLeft(ya: real, yb: real, yc: real, s1: real, s2: real, s3: real)
    requires s1 > 0.0 && s2 > 0.0 && s3 > 0.0 && (ya != 0.0 || yb != 0.0 || yc != 0.0)
    requires s2 * ya + s3 * yb + s1 * yc == 0.0
    ensures (Hit(ya, yb, s1) != Hit(yb, yc, s2)) != Hit(yc, ya, s3)
  {
    Product(s2, ya);
    Product(s3, yb);
    Product(s1, yc);
  }

  // Beyond one side of a triangle that is not turned the other way, the hits cancel.
  lemma OneRight(ya: real, yb: real, yc: real, s1: real, s2: real, s3: real)
    requires s1 < 0.0 <= s1 + s2 + s3
    requires s2 * ya + s3 * yb + s1 * yc == 0.0
    ensures (Hit(ya, yb, s1) != Hit(yb, yc, s2)) == Hit(yc, ya, s3)
  {
    Product(s2, ya);
    Product(s3, yb);
    Product(s1, yc);
  }

  // Strictly on the same side of all three edges.
  predicate Around(q: Point, a: Point, b: Point, c: Point)
  {
    || (Side(a, b, q) > 0.0 && Side(b, c, q) > 0.0 && Side(c, a, q) > 0.0)
    || (Side(a, b, q) < 0.0 && Side(b, c, q) < 0.0 && Side(c, a, q) < 0.0)
  }

  lemma LeftInside(q: Point, a: Point, b: Point, c: Point)
    requires Side(a, b, q) > 0.0 && Side(b, c, q) > 0.0 && Side(c, a, q) > 0.0
    ensures Inside(q, [a, b, c])
  {
    SideCross(a, b, q);
    hide Inside;
    TriangleHits(q, a, b, c);
    SidesBalance(a, b, c, q);
    AllLeft(a.y - q.y, b.y - q.y, c.y - q.y, Side(a, b, q), Side(b, c, q), Side(c, a, q));
  }

  lemma RightOutside(q: Point, a: Point, b: Point, c: Point)
    requires Side(a, b, q) < 0.0 <= Side(a, b, c)
    ensures !Inside(q, [a, b, c])
  {
    hide Inside, Side, Hit;
    TriangleHits(q, a, b, c);
    SidesBalance(a, b, c, q);
    SidesAddUp(a, b, c, q);
    OneRight(a.y - q.y, b.y - q.y, c.y - q.y, Side(a, b, q), Side(b, c, q), Side(c, a, q));
  }

  lemma TriangleTurned(q: Point, a: Point, b: Point, c: Point)
    ensures Inside(q, [b, c, a]) == Inside(q, [a, b, c]) && Inside(q, [b, a, c]) == Inside(q, [a, b, c])
  {
    hide Inside;
    RotationInvariant(q, [a, b, c], 1);
    assert [a, b, c][1..] + [a, b, c][..1] == [b, c, a];
    OrientationInvariant(q, [a, b, c]);
    RotationInvariant(q, [c, b, a], 1);
    assert [c, b, a][1..] + [c, b, a][..1] == [b, a, c];
    ReversedTriple(a, b, c);
  }

  lemma ReversedTriple(a: Point, b: Point, c: Point)
    ensures Reversed([a, b, c]) == [c, b, a]
  {
    assert [a, b, c][..2] == [a, b] && [a, b][..1] == [a] && [a][..0] == [];
    assert Reversed([a]) == [a];
    assert Reversed([a, b]) == [b, a];
  }

  // Strictly beyond the edge from a to b, seen from c.
  predicate Beyond(q: Point, a: Point, b: Point, c: Point)
  {
    (Side(a, b, q) < 0.0 <= Side(a, b, c)) || (Side(a, b, q) > 0.0 >= Side(a, b, c))
  }

  lemma BeyondOutside(q: Point, a: Point, b: Point, c: Point)
    requires Beyond(q, a, b, c)
    ensures !Inside(q, [a, b, c])
  {
    hide Inside, Side;
    if Side(a, b, q) < 0.0 {
      RightOutside(q, a, b, c);
    } else {
      SideReversed(a, b, q);
      SideReversed(a, b, c);
      RightOutside(q, b, a, c);
      TriangleTurned(q, a, b, c);
    }
  }

  lemma AroundInside(q: Point, a: Point, b: Point, c: Point)
    requires Around(q, a, b, c)
    ensures Inside(q, [a, b, c])
  {
    hide Inside, Side;
    if Side(a, b, q) > 0.0 {
      LeftInside(q, a, b, c);
    } else {
      SideReversed(a, b, q);
      SideReversed(b, c, q);
      SideReversed(c, a, q);
      LeftInside(q, b, a, c);
      TriangleTurned(q, a, b, c);
    }
  }

  // A point of the plane strictly beyond any edge of a triangle is outside it.
  lemma TriangleOutside(q: Point, a: Point, b: Point, c: Point)
    requires Beyond(q, a, b, c) || Beyond(q, b, c, a) || Beyond(q, c, a, b)
    ensures !Inside(q, [a, b, c])
  {
    hide Inside, Beyond;
    TriangleTurned(q, a, b, c);
    TriangleTurned(q, b, c, a);
    if Beyond(q, a, b, c) {
      BeyondOutside(q, a, b, c);
    } else if Beyond(q, b, c, a) {
      BeyondOutside(q, b, c, a);
    } else {
      BeyondOutside(q, c, a, b);
    }
  }

  lemma SideTurned(a: Point, b: Point, c: Point)
    ensures Side(b, c, a) == Side(a, b, c)
  {
    SideCross(b, c, a);
  }

  // A weighted mean of the corners lies on each side in proportion to the opposite weight.
  lemma MeanSide(a: Point, b: Point, c: Point, q: Point, u: real, v: real, w: real)
    requires u + v + w == 1.0
    requires q == Point(u * a.x + v * b.x + w * c.x, u * a.y + v * b.y + w * c.y)
    ensures Side(a, b, q) == w * Side(a, b, c)
  {
    MeanFrom(a.x, b.x, c.x, u, v, w);
    MeanFrom(a.y, b.y, c.y, u, v, w);
    MeanCross(b.x - a.x, b.y - a.y, c.x - a.x, c.y - a.y, v, w);
  }

  lemma MeanFrom(x: real, y: real, z: real, u: real, v: real, w: real)
    requires u + v + w == 1.0
    ensures u * x + v * y + w * z - x == v * (y - x) + w * (z - x)
  {
    assert u == 1.0 - v - w;
  }

  lemma MeanCross(x1: real, y1: real, x2: real, y2: real, v: real, w: real)
    ensures x1 * (v * y1 + w * y2) - y1 * (v * x1 + w * x2) == w * (x1 * y2 - y1 * x2)
  {
  }

  /** Every mean of the corners of a triangle with positive weights is inside it. */
  lemma TriangleInside(q: Point, a: Point, b: Point, c: Point, u: real, v: real, w: real)
    requires Side(a, b, c) != 0.0 && u > 0.0 && v > 0.0 && w > 0.0 && u + v + w == 1.0
    requires q == Point(u * a.x + v * b.x + w * c.x, u * a.y + v * b.y + w * c.y)
    ensures Inside(q, [a, b, c])
  {
    hide Inside, Side;
    var area := Side(a, b, c);
    MeanSide(a, b, c, q, u, v, w);
    MeanSide(b, c, a, q, v, w, u);
    MeanSide(c, a, b, q, w, u, v);
    SideTurned(a, b, c);
    SideTurned(b, c, a);
    Product(u, area);
    Product(v, area);
    Product(w, area);
    AroundInside(q, a, b, c);
  }

  // q lies on none of the three lines.
  predicate Clear(q: Point, a: Point, b: Point, c: Point)
  {
    Side(a, b, q) != 0.0 && Side(b, c, q) != 0.0 && Side(c, a, q) != 0.0
  }

  /** Off the three lines, being inside a triangle, thin ones included, is being strictly on
      the same side of all three. */
  lemma TriangleIff(q: Point, a: Point, b: Point, c: Point)
    requires Clear(q, a, b, c)
    ensures Inside(q, [a, b, c]) <==> Around(q, a, b, c)
  {
    hide Inside, Side;
    if Around(q, a, b, c) {
      AroundInside(q, a, b, c);
    } else {
      SideTurned(a, b, c);
      SideTurned(b, c, a);
      SidesAddUp(a, b, c, q);
      TriangleOutside(q, a, b, c);
    }
  }

  // ---- rings of any size --------------------------------------------------------------

  // The triangles from the first corner to each later edge.
  ghost predicate ClearOfFan(q: Point, ring: seq<Point>)
  {
    forall i, j :: 0 < i < j < |ring| && j == i + 1 ==> Clear(q, ring[0], ring[i], ring[j])
  }

  // Whether an odd number of those triangles lie around q.
  function FanParity(q: Point, ring: seq<Point>): bool
  {
    if |ring| < 3 then false
    else
      var n := |ring| - 1;
      FanParity(q, ring[..n]) != Around(q, ring[0], ring[n - 1], ring[n])
  }

  lemma ThinRing(q: Point, ring: seq<Point>)
    requires |ring| < 3
    ensures !Inside(q, ring)
  {
    if |ring| == 1 {
      EdgeParity(q, ring[0], ring[0]);
      assert [ring[0]] + ring == [ring[0], ring[0]];
    } else if |ring| == 2 {
      var (a, b) := (ring[0], ring[1]);
      assert [b] + ring == [b, a, b] && [b, a, b][..2] == [b, a];
      EdgeParity(q, b, a);
      CrossesSymmetric(q, a, b);
    }
  }

  // The last corner adds one triangle.
  lemma FanStep(q: Point, ring: seq<Point>)
    requires |ring| >= 3
    ensures var n := |ring| - 1; Inside(q, ring) == (Inside(q, ring[..n]) != Inside(q, [ring[0], ring[n - 1], ring[n]]))
  {
    hide Inside;
    var n := |ring| - 1;
    CutAdditive(q, ring, 0, n - 1, []);
    assert ring[0..n] + Reversed([]) == ring[..n];
    var (a, b, c) := (ring[0], ring[n - 1], ring[n]);
    assert ring[n - 1..] + ring[..1] + [] == [b, c, a];
    TriangleTurned(q, a, b, c);
  }

  /** A point is inside a ring, of any size and shape, exactly when an odd number of the
      triangles from its first corner lie around the point, provided it is on none of their
      lines. */
  lemma {:induction false} RingIff(q: Point, ring: seq<Point>)
    requires ClearOfFan(q, ring)
    ensures Inside(q, ring) <==> FanParity(q, ring)
  {
    hide Inside, Around, Clear;
    if |ring| < 3 {
      ThinRing(q, ring);
    } else {
      var n := |ring| - 1;
      RingIff(q, ring[..n]);
      FanStep(q, ring);
      TriangleIff(q, ring[0], ring[n - 1], ring[n]);
    }
  }
}
