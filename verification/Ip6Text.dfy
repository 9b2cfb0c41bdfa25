/** IPv6 text forms: eight colon-separated groups, or "::" for a run of zero groups. */
module Ip6Text {
  import opened Options
  import opened Powers

  // ---- splitting and joining ----------------------------------------------------------

  function Split(s: string): (parts: seq<string>)
    ensures parts != []
  {
    if s == "" then [""]
    else
      var (front, c) := (Split(s[..|s| - 1]), s[|s| - 1]);
      if c == ':' then front + [""] else front[..|front| - 1] + [front[|front| - 1] + [c]]
  }

  function Join(parts: seq<string>): string
  {
    if parts == [] then ""
    else if |parts| == 1 then parts[0]
    else Join(parts[..|parts| - 1]) + ":" + parts[|parts| - 1]
  }

  // The last piece grown by `t`.
  function Extend(parts: seq<string>, t: string): seq<string>
    requires parts != []
  {
    parts[..|parts| - 1] + [parts[|parts| - 1] + t]
  }

  lemma SplitChar(s: string, c: char)
    ensures Split(s + [c]) == if c == ':' then Split(s) + [""] else Extend(Split(s), [c])
  {
    assert (s + [c])[..|s|] == s;
  }

  lemma ExtendTwice(parts: seq<string>, t: string, u: string)
    requires parts != []
    ensures Extend(Extend(parts, t), u) == Extend(parts, t + u)
  {
    var n := |parts| - 1;
    assert Extend(parts, t)[..n] == parts[..n];
    assert parts[n] + t + u == parts[n] + (t + u);
  }

  lemma {:induction false} SplitGrows(s: string, t: string)
    requires ':' !in t
    ensures Split(s + t) == Extend(Split(s), t)
  {
    hide Split, Extend;
    if t == "" {
      assert s + t == s;
      ExtendNothing(Split(s));
    } else {
      var n := |t| - 1;
      SplitGrows(s, t[..n]);
      assert s + t == s + t[..n] + [t[n]] && t == t[..n] + [t[n]];
      assert t[n] in t;
      SplitChar(s + t[..n], t[n]);
      ExtendTwice(Split(s), t[..n], [t[n]]);
    }
  }

  lemma ExtendNothing(parts: seq<string>)
    requires parts != []
    ensures Extend(parts, "") == parts
  {
    assert parts[|parts| - 1] + "" == parts[|parts| - 1];
  }

  lemma SplitAfterColon(s: string, t: string)
    requires ':' !in t
    ensures Split(s + ":" + t) == Split(s) + [t]
  {
    hide Split;
    assert s + ":" == s + [':'];
    SplitChar(s, ':');
    SplitGrows(s + ":", t);
    assert "" + t == t;
    assert Extend(Split(s) + [""], t) == Split(s) + [t];
  }

  lemma SplitOne(t: string)
    requires ':' !in t
    ensures Split(t) == [t]
  {
    SplitGrows("", t);
    assert "" + t == t;
  }

  lemma {:induction false} SplitJoin(parts: seq<string>)
    requires parts != [] && forall i :: 0 <= i < |parts| ==> ':' !in parts[i]
    ensures Split(Join(parts)) == parts
  {
    hide Split;
    var n := |parts| - 1;
    if n == 0 {
      SplitOne(parts[0]);
    } else {
      SplitJoin(parts[..n]);
      SplitAfterColon(Join(parts[..n]), parts[n]);
      assert parts[..n] + [parts[n]] == parts;
    }
  }

  // ---- the first "::" -----------------------------------------------------------------

  predicate PairAt(s: string, k: nat) { k + 1 < |s| && s[k] == ':' && s[k + 1] == ':' }

  // Where "::" first occurs at or after k; |s| when it does not.
  function FirstPair(s: string, k: nat): nat
    requires k <= |s|
    decreases |s| - k
  {
    if k == |s| then |s| else if PairAt(s, k) then k else FirstPair(s, k + 1)
  }

  lemma {:induction false} FirstPairIs(s: string, k: nat, at: nat)
    requires k <= at <= |s| && (at == |s| || PairAt(s, at))
    requires forall m: nat :: k <= m < at ==> !PairAt(s, m)
    ensures FirstPair(s, k) == at
    decreases at - k
  {
    if k < at {
      FirstPairIs(s, k + 1, at);
    }
  }

  // ---- groups -------------------------------------------------------------------------

  function HexDigit(c: char): Option<nat>
  {
    if '0' <= c <= '9' then Some(c as int - '0' as int)
    else if 'a' <= c <= 'f' then Some(c as int - 'a' as int + 10)
    else if 'A' <= c <= 'F' then Some(c as int - 'A' as int + 10)
    else None
  }

  // A run of hexadecimal digits as a number.
  function Hex(s: string): Option<nat>
  {
    if s == "" then Some(0)
    else
      var (high, low) := (Hex(s[..|s| - 1]), HexDigit(s[|s| - 1]));
      if high.Some? && low.Some? then Some(16 * high.value + low.value) else None
  }

  function Or(a: nat, b: nat): nat
  {
    if a == 0 then b
    else if b == 0 then a
    else 2 * Or(a / 2, b / 2) + if a % 2 == 1 || b % 2 == 1 then 1 else 0
  }

  // Each bit is set when either of the two is.
  lemma {:induction false} OrBits(a: nat, b: nat, k: nat)
    ensures Bit(Or(a, b), k) == if Bit(a, k) == 1 || Bit(b, k) == 1 then 1 else 0
    decreases k
  {
    hide Or;
    OrUnfold(a, b);
    BitIsBit(a, k);
    BitIsBit(b, k);
    if a == 0 || b == 0 {
      BitOfZero(k);
    } else if k > 0 {
      OrBits(a / 2, b / 2, k - 1);
    }
  }

  lemma OrUnfold(a: nat, b: nat)
    ensures a == 0 ==> Or(a, b) == b
    ensures b == 0 ==> Or(a, b) == a
    ensures a != 0 && b != 0 ==>
              Or(a, b) / 2 == Or(a / 2, b / 2) && Or(a, b) % 2 == if a % 2 == 1 || b % 2 == 1 then 1 else 0
  {
  }

  // (v << 16) | group, over all parts; an empty part counts as zero.
  function Fold(parts: seq<string>): Option<nat>
  {
    if parts == [] then Some(0)
    else
      var (v, g) := (Fold(parts[..|parts| - 1]), Hex(parts[|parts| - 1]));
      if v.Some? && g.Some? then Some(Or(v.value * 65536, g.value)) else None
  }

  function NonEmpty(parts: seq<string>): seq<string>
  {
    if parts == [] then []
    else
      var (front, p) := (NonEmpty(parts[..|parts| - 1]), parts[|parts| - 1]);
      if p != "" then front + [p] else front
  }

  function Zeros(n: int): seq<string> { if n <= 0 then [] else Zeros(n - 1) + ["0"] }

  function Parts(s: string): seq<string>
  {
    var at := FirstPair(s, 0);
    if at < |s| then
      var (left, right) := (NonEmpty(Split(s[..at])), NonEmpty(Split(if at + 2 <= |s| then s[at + 2..] else "")));
      left + Zeros(8 - |left| - |right|) + right
    else Split(s)
  }

  method Ip6(s: string) returns (r: Option<nat>)
    ensures r == Fold(Parts(s))
  {
    var parts := Parts(s);
    var v := 0;
    for i := 0 to |parts|
      invariant Fold(parts[..i]) == Some(v)
    {
      assert parts[..i + 1][..i] == parts[..i];
      var g := Hex(parts[i]);
      if g.None? {
        FoldFails(parts, i + 1);
        return None;
      }
      v := Or(v * 65536, g.value);
    }
    assert parts[..|parts|] == parts;
    return Some(v);
  }

  lemma {:induction false} FoldFails(parts: seq<string>, n: nat)
    requires n <= |parts| && Fold(parts[..n]).None?
    ensures Fold(parts).None?
  {
    if n == |parts| {
      assert parts[..n] == parts;
    } else {
      var m := |parts| - 1;
      assert parts[..m][..n] == parts[..n];
      FoldFails(parts[..m], n);
    }
  }

  /** The text is refused exactly when one of its parts is not hexadecimal. */
  lemma {:induction false} FoldReadsIff(parts: seq<string>)
    ensures Fold(parts).Some? <==> forall i :: 0 <= i < |parts| ==> Hex(parts[i]).Some?
  {
    hide Hex, Or;
    if parts != [] {
      var n := |parts| - 1;
      FoldReadsIff(parts[..n]);
      if Fold(parts[..n]).None? {
        var i :| 0 <= i < n && Hex(parts[..n][i]).None?;
        assert Hex(parts[i]).None?;
      }
    }
  }

  lemma {:induction false} BitsMoved(v: nat, k: nat)
    ensures Bit(v * 65536, k) == if k < 16 then 0 else Bit(v, k - 16)
  {
    hide Bit, Pow2;
    Pow2Of16();
    ShiftedBits(v, 16, k);
  }

  lemma {:induction false} ShiftedBits(v: nat, n: nat, k: nat)
    ensures Bit(v * Pow2(n), k) == if k < n then 0 else Bit(v, k - n)
  {
    if n > 0 {
      var half := v * Pow2(n - 1);
      assert v * Pow2(n) == 2 * half by { assert v * (2 * Pow2(n - 1)) == 2 * (v * Pow2(n - 1)); }
      assert (2 * half) / 2 == half && (2 * half) % 2 == 0;
      if k > 0 {
        ShiftedBits(v, n - 1, k - 1);
      }
    } else {
      assert v * Pow2(0) == v;
    }
  }

  /** A further part moves the number up by sixteen bits and sets its own, however long it is. */
  lemma FoldBits(parts: seq<string>, part: string, k: nat)
    requires Fold(parts).Some? && Hex(part).Some?
    ensures Fold(parts + [part]).Some?
    ensures Bit(Fold(parts + [part]).value, k) == 1
       <==> (k >= 16 && Bit(Fold(parts).value, k - 16) == 1) || Bit(Hex(part).value, k) == 1
  {
    hide Or, Hex, Bit;
    assert (parts + [part])[..|parts|] == parts;
    var v := Fold(parts).value;
    OrBits(v * 65536, Hex(part).value, k);
    BitsMoved(v, k);
  }

  // ---- what the number means ----------------------------------------------------------

  // The number eight (or any number of) 16-bit groups stand for.
  function Number(groups: seq<nat>): nat
  {
    if groups == [] then 0 else Number(groups[..|groups| - 1]) * 65536 + groups[|groups| - 1]
  }

  // Below a cleared 16-bit field, "or" is addition.
  lemma OrIsSum(v: nat, g: nat)
    requires g < 65536
    ensures Or(v * 65536, g) == v * 65536 + g
  {
    hide Or, Pow2;
    Pow2Of16();
    OrBelow(v, g, 16);
  }

  lemma {:induction false} OrBelow(v: nat, g: nat, n: nat)
    requires g < Pow2(n)
    ensures Or(v * Pow2(n), g) == v * Pow2(n) + g
  {
    if n > 0 && v > 0 && g > 0 {
      var a, half := v * Pow2(n), v * Pow2(n - 1);
      assert a == 2 * half by { assert v * (2 * Pow2(n - 1)) == 2 * (v * Pow2(n - 1)); }
      OrBelow(v, g / 2, n - 1);
      assert a / 2 == half && a % 2 == 0;
    } else if v == 0 {
      assert v * Pow2(n) == 0;
    }
  }

  const LOWER: string := "0123456789abcdef"
  const UPPER: string := "0123456789ABCDEF"

  // The last digit of the text spells the last hexadecimal digit of g, and the rest the rest.
  ghost predicate HexText(t: string, g: nat)
  {
    if t == "" then g == 0
    else
      var n := |t| - 1;
      (t[n] == LOWER[g % 16] || t[n] == UPPER[g % 16]) && HexText(t[..n], g / 16)
  }

  lemma HexDigitIff(c: char, d: nat)
    requires d < 16
    ensures HexDigit(c) == Some(d) <==> c == LOWER[d] || c == UPPER[d]
  {
  }

  lemma HexDigitBelow(c: char)
    ensures HexDigit(c).Some? ==> HexDigit(c).value < 16
  {
  }

  /** A part is accepted exactly when it spells a number in hexadecimal, in either case and
      with any leading zeros, and it is read as that number. */
  lemma {:induction false} HexIff(t: string, g: nat)
    ensures Hex(t) == Some(g) <==> HexText(t, g)
  {
    hide HexDigit;
    if t != "" {
      var n := |t| - 1;
      HexIff(t[..n], g / 16);
      HexDigitIff(t[n], g % 16);
      HexDigitBelow(t[n]);
    }
  }

  // A group's text: one to four hexadecimal digits, in either case, leading zeros allowed.
  ghost predicate GroupText(t: string, g: nat) { 1 <= |t| <= 4 && HexText(t, g) }

  lemma {:induction false} HexNoColon(t: string)
    requires Hex(t).Some?
    ensures ':' !in t
  {
    if t != "" {
      HexNoColon(t[..|t| - 1]);
      assert t == t[..|t| - 1] + [t[|t| - 1]];
    }
  }

  lemma GroupTextReads(t: string, g: nat)
    requires GroupText(t, g)
    ensures t != "" && ':' !in t && Hex(t) == Some(g)
  {
    HexIff(t, g);
    HexNoColon(t);
  }

  lemma {:induction false} HexBelow(t: string, n: nat)
    requires Hex(t).Some? && |t| <= n
    ensures Hex(t).value < Pow2(4 * n)
  {
    if t != "" {
      HexBelow(t[..|t| - 1], n - 1);
      assert Pow2(4 * n) == 16 * Pow2(4 * (n - 1)) by { Pow2Sum(4 * (n - 1), 4); }
    } else {
      Pow2Positive(4 * n);
    }
  }

  ghost predicate Spells(texts: seq<string>, groups: seq<nat>)
  {
    |texts| == |groups| && forall i :: 0 <= i < |texts| ==> GroupText(texts[i], groups[i])
  }

  lemma {:induction false} FoldNumber(texts: seq<string>, groups: seq<nat>)
    requires Spells(texts, groups)
    ensures Fold(texts) == Some(Number(groups))
  {
    hide Or, Hex, HexText, Pow2;
    if texts != [] {
      var n := |texts| - 1;
      FoldNumber(texts[..n], groups[..n]);
      GroupTextReads(texts[n], groups[n]);
      HexBelow(texts[n], 4);
      Pow2Of16();
      OrIsSum(Number(groups[..n]), groups[n]);
    }
  }

  // ---- texts without "::" -------------------------------------------------------------

  ghost predicate Solid(texts: seq<string>)
  {
    forall i :: 0 <= i < |texts| ==> texts[i] != "" && ':' !in texts[i]
  }

  // Joining solid texts never puts two colons side by side, nor one at either end.
  lemma {:induction false} JoinSolid(texts: seq<string>)
    requires Solid(texts)
    ensures forall k: nat :: !PairAt(Join(texts), k)
    ensures if texts == [] then Join(texts) == ""
            else var j := Join(texts); j != "" && j[0] != ':' && j[|j| - 1] != ':'
  {
    if |texts| == 1 {
      assert texts[0] != "" && ':' !in texts[0];
      NoColonNoPair(texts[0]);
    } else if texts != [] {
      var n := |texts| - 1;
      JoinSolid(texts[..n]);
      var (j, t) := (Join(texts[..n]), texts[n]);
      assert t != "" && ':' !in t;
      forall k: nat ensures !PairAt(Join(texts), k) {
        JoinedPair(j, t, k);
      }
    }
  }

  lemma NoColonNoPair(t: string)
    requires ':' !in t
    ensures forall k: nat :: !PairAt(t, k)
    ensures t != "" ==> t[0] != ':' && t[|t| - 1] != ':'
  {
    forall k: nat ensures !PairAt(t, k) {
      if k < |t| {
        assert t[k] in t;
      }
    }
    if t != "" {
      assert t[0] in t && t[|t| - 1] in t;
    }
  }

  lemma JoinedPair(j: string, t: string, k: nat)
    requires j != "" && j[|j| - 1] != ':' && t != "" && ':' !in t
    requires !PairAt(j, k)
    ensures !PairAt(j + ":" + t, k)
  {
    var s := j + ":" + t;
    if k + 1 < |s| {
      if k + 1 < |j| {
        assert s[k] == j[k] && s[k + 1] == j[k + 1];
      } else if k + 1 == |j| {
        assert s[k] == j[k];
      } else if k >= |j| {
        assert s[k + 1] == t[k - |j|] && t[k - |j|] in t;
      }
    }
  }

  lemma {:induction false} NonEmptySolid(texts: seq<string>)
    requires Solid(texts)
    ensures NonEmpty(texts) == texts
  {
    if texts != [] {
      NonEmptySolid(texts[..|texts| - 1]);
      assert texts[..|texts| - 1] + [texts[|texts| - 1]] == texts;
    }
  }

  // Splitting a joined list and dropping empty pieces gives the list, the empty one included.
  lemma PiecesOf(texts: seq<string>)
    requires Solid(texts)
    ensures NonEmpty(Split(Join(texts))) == texts
  {
    if texts == [] {
      assert [""][..0] == [];
    } else {
      SplitJoin(texts);
      NonEmptySolid(texts);
    }
  }

  // ---- the two spellings --------------------------------------------------------------

  lemma SpelledSolid(texts: seq<string>, groups: seq<nat>)
    requires Spells(texts, groups)
    ensures Solid(texts)
  {
    forall i | 0 <= i < |texts| ensures texts[i] != "" && ':' !in texts[i] {
      GroupTextReads(texts[i], groups[i]);
    }
  }

  /** The full form evaluates to the number its groups stand for. */
  lemma FullForm(texts: seq<string>, groups: seq<nat>)
    requires Spells(texts, groups) && texts != []
    ensures Fold(Parts(Join(texts))) == Some(Number(groups))
  {
    SpelledSolid(texts, groups);
    JoinSolid(texts);
    FirstPairIs(Join(texts), 0, |Join(texts)|);
    SplitJoin(texts);
    FoldNumber(texts, groups);
  }

  lemma {:induction false} ZerosAre(n: int)
    ensures Zeros(n) == seq(if n > 0 then n else 0, i => "0")
  {
    if n > 0 {
      ZerosAre(n - 1);
    }
  }

  lemma {:induction false} NonEmptyDrops(parts: seq<string>, more: seq<string>)
    ensures NonEmpty(parts + [""] + more) == NonEmpty(parts + more)
  {
    if more == [] {
      assert parts + [""] + more == parts + [""] && parts + more == parts;
      assert (parts + [""])[..|parts|] == parts;
    } else {
      var n := |more| - 1;
      NonEmptyDrops(parts, more[..n]);
      var (long, short) := (parts + [""] + more, parts + more);
      assert long[..|long| - 1] == parts + [""] + more[..n] && short[..|short| - 1] == parts + more[..n];
    }
  }

  lemma FirstPairAfter(l: string, r: string)
    requires forall k: nat :: !PairAt(l + ":", k)
    ensures FirstPair(l + "::" + r, 0) == |l|
  {
    var s := l + "::" + r;
    forall m: nat | m < |l| ensures !PairAt(s, m) {
      assert !PairAt(l + ":", m);
      assert s[m] == (l + ":")[m] && s[m + 1] == (l + ":")[m + 1];
    }
    FirstPairIs(s, 0, |l|);
  }

  /** Any text with "::" in it, well formed or not, is cut at the first one; the non-empty
      pieces on either side keep their place and zeros fill up to eight. */
  lemma PartsLaw(l: string, r: string)
    requires forall k: nat :: !PairAt(l + ":", k)
    ensures var (left, right) := (NonEmpty(Split(l)), NonEmpty(Split(r)));
            var n := 8 - |left| - |right|;
            Parts(l + "::" + r) == left + seq(if n > 0 then n else 0, i => "0") + right
  {
    hide Split, NonEmpty, FirstPair, Zeros, PairAt;
    var s := l + "::" + r;
    FirstPairAfter(l, r);
    assert s[..|l|] == l && s[|l| + 2..] == r;
    ZerosAre(8 - |NonEmpty(Split(l))| - |NonEmpty(Split(r))|);
  }

  function Compressed(left: seq<string>, right: seq<string>): string { Join(left) + "::" + Join(right) }

  lemma CompressedParts(left: seq<string>, right: seq<string>)
    requires Solid(left) && Solid(right)
    ensures Parts(Compressed(left, right)) == left + Zeros(8 - |left| - |right|) + right
  {
    hide Join, Split, NonEmpty, Zeros, FirstPair, PairAt, Solid;
    var (l, r) := (Join(left), Join(right));
    JoinSolid(left);
    PairOfCompressed(l, r);
    FirstPairIs(l + "::" + r, 0, |l|);
    assert (l + "::" + r)[..|l|] == l && (l + "::" + r)[|l| + 2..] == r;
    PiecesOf(left);
    PiecesOf(right);
  }

  lemma PairOfCompressed(l: string, r: string)
    requires forall k: nat :: !PairAt(l, k)
    requires l != "" ==> l[|l| - 1] != ':'
    ensures PairAt(l + "::" + r, |l|) && forall m: nat :: m < |l| ==> !PairAt(l + "::" + r, m)
  {
    var s := l + "::" + r;
    forall m: nat | m < |l| ensures !PairAt(s, m) {
      assert !PairAt(l, m);
      assert s[m] == l[m];
      if m + 1 < |l| {
        assert s[m + 1] == l[m + 1];
      }
    }
  }

  lemma {:induction false} ZerosSpell(n: nat)
    ensures Spells(Zeros(n), seq(n, i => 0))
  {
    if n > 0 {
      ZerosSpell(n - 1);
      var (texts, groups) := (Zeros(n), seq(n, i => 0));
      forall i | 0 <= i < n ensures GroupText(texts[i], groups[i]) {
        if i < n - 1 {
          assert GroupText(Zeros(n - 1)[i], seq(n - 1, i => 0)[i]);
        } else {
          assert texts[i] == "0" && "0"[..0] == "";
        }
      }
    }
  }

  /** Every "::" compression of a run of zero groups in an eight-group address evaluates to
      the same number as the full form, wherever the run lies and however long it is. */
  lemma CompressionKeepsValue(texts: seq<string>, groups: seq<nat>, i: nat, j: nat)
    requires |texts| == 8 && Spells(texts, groups) && i < j <= 8
    requires forall k :: i <= k < j ==> groups[k] == 0
    ensures Fold(Parts(Compressed(texts[..i], texts[j..]))) == Some(Number(groups)) == Fold(Parts(Join(texts)))
  {
    hide Spells, Fold, Parts, Number, Zeros, Compressed, Solid;
    FullForm(texts, groups);
    SpelledSolid(texts, groups);
    SolidSlices(texts, i, j);
    CompressedParts(texts[..i], texts[j..]);
    FilledSpells(texts, groups, i, j);
    FoldNumber(texts[..i] + Zeros(j - i) + texts[j..], groups);
  }

  lemma SolidSlices(texts: seq<string>, i: nat, j: nat)
    requires Solid(texts) && i <= j <= |texts|
    ensures Solid(texts[..i]) && Solid(texts[j..])
  {
  }

  // Putting plain zeros where the zero groups were spells the same groups.
  lemma FilledSpells(texts: seq<string>, groups: seq<nat>, i: nat, j: nat)
    requires Spells(texts, groups) && i < j <= |texts|
    requires forall k :: i <= k < j ==> groups[k] == 0
    ensures Spells(texts[..i] + Zeros(j - i) + texts[j..], groups)
  {
    hide GroupText, Zeros;
    ZerosSpell(j - i);
    var parts := texts[..i] + Zeros(j - i) + texts[j..];
    forall k | 0 <= k < |texts| ensures GroupText(parts[k], groups[k]) {
      if i <= k < j {
        assert GroupText(Zeros(j - i)[k - i], seq(j - i, x => 0)[k - i]);
      } else {
        assert parts[k] == texts[k];
      }
    }
  }

  // ---- numbers and groups -------------------------------------------------------------

  lemma {:induction false} NumberBound(groups: seq<nat>)
    requires forall i :: 0 <= i < |groups| ==> groups[i] < 65536
    ensures Number(groups) < Pow2(16 * |groups|)
  {
    if groups != [] {
      var n := |groups| - 1;
      NumberBound(groups[..n]);
      Pow2Sum(16 * n, 16);
      Pow2Of16();
    }
  }

  /** Different group lists are different numbers, all below 2^128. */
  lemma {:induction false} NumberInjective(xs: seq<nat>, ys: seq<nat>)
    requires |xs| == |ys| && Number(xs) == Number(ys)
    requires forall i :: 0 <= i < |xs| ==> xs[i] < 65536 && ys[i] < 65536
    ensures xs == ys
  {
    if xs != [] {
      var n := |xs| - 1;
      assert xs[n] == ys[n] && Number(xs[..n]) == Number(ys[..n]);
      NumberInjective(xs[..n], ys[..n]);
      assert xs == xs[..n] + [xs[n]] && ys == ys[..n] + [ys[n]];
    }
  }
}
