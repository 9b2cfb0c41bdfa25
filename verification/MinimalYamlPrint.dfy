/** Printing two-level mappings in the shape the minimal parser reads, and the round trip. */
module MinimalYamlPrint {
  import opened Options
  import opened MinimalYaml
  import opened MinimalYamlRead

  // A value under a key, and the text it is written as.
  datatype Entry = Entry(key: string, text: string, value: Scalar)

  datatype Item = Top(entry: Entry) | Group(name: string, entries: seq<Entry>)

  // ---- the printer --------------------------------------------------------------------

  function Digit(d: nat): char
    requires d < 10
  {
    '0' + d as char
  }

  function ShowNat(n: nat): string
  {
    if n < 10 then [Digit(n)] else ShowNat(n / 10) + [Digit(n % 10)]
  }

  // One way to write each scalar.
  function Show(v: Scalar): string
  {
    match v
    case Bool(b) => if b then "true" else "false"
    case Null => "null"
    case Int(n) => if n < 0 then "-" + ShowNat(-n) else ShowNat(n)
    case Str(s) => "\"" + s + "\""
  }

  function TopLine(key: string, text: string): string { key + ": " + text }

  function SubLine(key: string, text: string): string { "  " + key + ": " + text }

  function HeadLine(key: string): string { key + ":" }

  function SubLines(entries: seq<Entry>): seq<string>
  {
    if entries == [] then []
    else SubLines(entries[..|entries| - 1]) + [SubLine(entries[|entries| - 1].key, entries[|entries| - 1].text)]
  }

  function ItemLines(item: Item): seq<string>
  {
    match item
    case Top(e) => [TopLine(e.key, e.text)]
    case Group(name, entries) => [HeadLine(name)] + SubLines(entries)
  }

  function PrintLines(items: seq<Item>): seq<string>
  {
    if items == [] then [] else PrintLines(items[..|items| - 1]) + ItemLines(items[|items| - 1])
  }

  function Unlines(lines: seq<string>): string
  {
    if lines == [] then "" else lines[0] + "\n" + Unlines(lines[1..])
  }

  function Print(items: seq<Item>): string { Unlines(PrintLines(items)) }

  // ---- what the items mean ------------------------------------------------------------

  function EntriesOf(entries: seq<Entry>): map<string, Scalar>
  {
    if entries == [] then map[]
    else EntriesOf(entries[..|entries| - 1])[entries[|entries| - 1].key := entries[|entries| - 1].value]
  }

  function KeyOf(item: Item): string { if item.Top? then item.entry.key else item.name }

  function NodeOf(item: Item): Node
  {
    if item.Top? then Leaf(item.entry.value) else Section(EntriesOf(item.entries))
  }

  // A later item replaces an earlier one with the same key.
  function DocOf(items: seq<Item>): Doc
  {
    if items == [] then map[]
    else
      var (doc, item) := (DocOf(items[..|items| - 1]), items[|items| - 1]);
      doc[KeyOf(item) := NodeOf(item)]
  }

  // ---- what can be printed ------------------------------------------------------------

  // No white space directly before '#'.
  ghost predicate Uncommented(s: string)
  {
    forall i, j :: 0 <= i < j < |s| && j == i + 1 ==> !(IsSpace(s[i]) && s[j] == '#')
  }

  ghost predicate Spaceless(s: string) { forall i :: 0 <= i < |s| ==> !IsSpace(s[i]) }

  // Keys: non-empty, free of white space and colons, not starting a comment.
  ghost predicate GoodKey(k: string) { k != "" && Spaceless(k) && ':' !in k && k[0] != '#' }

  // A printed scalar is tight, stays on one line, holds no comment and does not begin one.
  ghost predicate Printable(s: string) { Tight(s) && Unbroken(s) && Uncommented(s) && s[0] != '#' }

  // The text can stand on a line, and spells the value.
  ghost predicate GoodEntry(e: Entry) { GoodKey(e.key) && Printable(e.text) && Spelling(e.text, e.value) }

  ghost predicate GoodEntries(entries: seq<Entry>) { forall i :: 0 <= i < |entries| ==> GoodEntry(entries[i]) }

  ghost predicate GoodItem(item: Item)
  {
    match item
    case Top(e) => GoodEntry(e)
    case Group(name, entries) => GoodKey(name) && GoodEntries(entries)
  }

  // ---- splitting lines ----------------------------------------------------------------

  lemma {:induction false} SplitUnlines(lines: seq<string>)
    requires forall i :: 0 <= i < |lines| ==> Unbroken(lines[i])
    ensures SplitLines(Unlines(lines)) == lines
  {
    if lines != [] {
      SplitLaw(lines[0], "\n", Unlines(lines[1..]));
      SplitUnlines(lines[1..]);
    }
  }

  // ---- stripping ----------------------------------------------------------------------

  lemma StripTight(s: string)
    requires Tight(s)
    ensures Strip(s) == s && Strip(" " + s) == s && Strip("  " + s) == s
    ensures StripLeft(s) == s && StripLeft("  " + s) == s
  {
    assert (" " + s)[1..] == s;
    assert ("  " + s)[1..] == " " + s;
  }

  // ---- comments -----------------------------------------------------------------------

  lemma {:induction false} NoHashAhead(s: string, i: nat)
    requires Uncommented(s) && i < |s| && IsSpace(s[i])
    ensures !HashAhead(s, i + 1)
    decreases |s| - i
  {
    if i + 1 < |s| && IsSpace(s[i + 1]) {
      NoHashAhead(s, i + 1);
    }
  }

  lemma {:induction false} NoComment(s: string, i: nat)
    requires Uncommented(s) && i <= |s|
    ensures CommentFrom(s, i) == |s|
    decreases |s| - i
  {
    if i < |s| {
      if IsSpace(s[i]) {
        NoHashAhead(s, i);
      }
      NoComment(s, i + 1);
    }
  }

  lemma BodyWhole(line: string)
    requires Uncommented(line)
    requires StripLeft(line) != "" ==> StripLeft(line)[0] != '#'
    ensures Body(line) == line
  {
    NoComment(line, 0);
    assert line[..|line|] == line;
  }

  lemma UncommentedJoin(a: string, b: string)
    requires Uncommented(a) && Uncommented(b)
    requires a != "" && b != "" ==> !IsSpace(a[|a| - 1]) || b[0] != '#'
    ensures Uncommented(a + b)
  {
    var s := a + b;
    forall i, j | 0 <= i < j < |s| && j == i + 1 ensures !(IsSpace(s[i]) && s[j] == '#') {
      if j < |a| {
        assert s[i] == a[i] && s[j] == a[j];
      } else if i >= |a| {
        assert s[i] == b[i - |a|] && s[j] == b[j - |a|];
      }
    }
  }

  lemma UnbrokenJoin(a: string, b: string)
    requires Unbroken(a) && Unbroken(b)
    ensures Unbroken(a + b)
  {
  }

  // ---- scalars ------------------------------------------------------------------------

  lemma DigitValue(d: nat)
    requires d < 10
    ensures IsDigit(Digit(d)) && Digit(d) as int - '0' as int == d
  {
  }

  lemma {:induction false} ShowNatDigits(n: nat)
    ensures var s := ShowNat(n);
            && s != "" && Digits(s) == Some(n)
            && forall i :: 0 <= i < |s| ==> IsDigit(s[i])
  {
    if n < 10 {
      DigitValue(n);
      assert [Digit(n)][..0] == "";
    } else {
      ShowNatDigits(n / 10);
      DigitValue(n % 10);
      var (high, s) := (ShowNat(n / 10), ShowNat(n));
      assert s[..|s| - 1] == high && s[|s| - 1] == Digit(n % 10);
    }
  }

  lemma NumberPrintable(s: string)
    requires s != "" && forall i :: 0 <= i < |s| ==> IsDigit(s[i]) || s[i] == '-'
    ensures Printable(s)
  {
  }

  lemma QuotedPrintable(q: string, s: string)
    requires (q == "\"" || q == "'") && Unbroken(s) && Uncommented(s)
    ensures Printable(q + s + q)
  {
    UncommentedJoin(q, s);
    UncommentedJoin(q + s, q);
    UnbrokenJoin(q, s);
    UnbrokenJoin(q + s, q);
  }

  lemma ShowNumber(n: int)
    ensures Integer(Show(Int(n))) == Some(n) && Printable(Show(Int(n)))
  {
    var m: nat := if n < 0 then -n else n;
    var s := Show(Int(n));
    ShowNatDigits(m);
    NumberPrintable(s);
    hide Digits, ShowNat, Printable;
    if n < 0 {
      assert s[1..] == ShowNat(m);
    } else {
      assert s == ShowNat(m) && IsDigit(s[0]);
    }
  }

  lemma WordPrintable(v: Scalar)
    requires v.Bool? || v.Null?
    ensures Printable(Show(v)) && Spelling(Show(v), v)
  {
    assert Spaceless(Show(v));
  }

  /** Every scalar has a text that can be printed, as long as a string is free of line breaks
      and of white space followed by '#'. */
  lemma ShowSpells(v: Scalar)
    requires v.Str? ==> Unbroken(v.s) && Uncommented(v.s)
    ensures Printable(Show(v)) && Spelling(Show(v), v)
  {
    hide Printable, Unbroken, Uncommented, Numeral;
    match v {
      case Bool(_) => WordPrintable(v);
      case Null => WordPrintable(v);
      case Int(n) =>
        ShowNumber(n);
        NumeralIff(Show(v));
      case Str(s) => QuotedPrintable("\"", s);
    }
  }

  /** Every text that spells a scalar, in whatever way, is read back as that scalar. */
  lemma ScalarRoundTrip(t: string, v: Scalar)
    requires Printable(t) && Spelling(t, v)
    ensures ScalarOf(" " + t) == v && Strip(" " + t) != ""
  {
    hide ScalarText, Spelling;
    StripTight(t);
    ReadingLaw(t, v);
  }

  // ---- lines --------------------------------------------------------------------------

  lemma {:induction false} ColonAfterKey(k: string, rest: string)
    requires ':' !in k
    ensures ColonAt(k + ":" + rest) == |k|
  {
    var s := k + ":" + rest;
    if k != "" {
      assert k[0] in k && s[0] == k[0] && s[1..] == k[1..] + ":" + rest;
      ColonAfterKey(k[1..], rest);
    }
  }

  // A key, a colon and a printable remainder, as one text.
  lemma PairText(k: string, shown: string)
    requires GoodKey(k) && Printable(shown)
    ensures Printable(k + ": " + shown)
  {
    UncommentedJoin(k, ": ");
    UncommentedJoin(k + ": ", shown);
    UnbrokenJoin(k, ": ");
    UnbrokenJoin(k + ": ", shown);
  }

  // What the parser reads off a line whose parts are known.
  lemma ReadPair(line: string, k: string, rest: string, indent: nat)
    requires Body(line) == line && Strip(line) == k + ":" + rest && Indent(line) == indent < |line|
    requires k != "" && ':' !in k && '\t' !in line[..indent + 1]
    ensures Read(line) == Pair(indent > 0, k, rest)
  {
    hide Body, Strip, Indent;
    var text := k + ":" + rest;
    ColonAfterKey(k, rest);
    assert text[..|k|] == k && text[|k| + 1..] == rest;
  }

  lemma TopReading(k: string, shown: string)
    requires GoodKey(k) && Printable(shown)
    ensures Unbroken(k + ": " + shown) && Read(k + ": " + shown) == Pair(false, k, " " + shown)
  {
    var text := k + ": " + shown;
    PairText(k, shown);
    PlainBody(text);
    assert text == k + ":" + (" " + shown);
    hide Body, Strip, Indent, Read;
    ReadPair(text, k, " " + shown, 0);
  }

  lemma SubReading(k: string, shown: string)
    requires GoodKey(k) && Printable(shown)
    ensures Unbroken("  " + (k + ": " + shown)) && Read("  " + (k + ": " + shown)) == Pair(true, k, " " + shown)
  {
    var text := k + ": " + shown;
    PairText(k, shown);
    IndentedBody(text);
    assert text == k + ":" + (" " + shown);
    hide Body, Strip, Indent, Read;
    ReadPair("  " + text, k, " " + shown, 2);
  }

  lemma PlainBody(text: string)
    requires Printable(text)
    ensures Body(text) == text && Strip(text) == text && Indent(text) == 0 && '\t' !in text[..1]
  {
    hide Uncommented;
    StripTight(text);
    BodyWhole(text);
    assert text[..1] == [text[0]];
  }

  lemma IndentedBody(text: string)
    requires Printable(text)
    ensures var line := "  " + text;
            && Unbroken(line) && Body(line) == line && Strip(line) == text && Indent(line) == 2
            && '\t' !in line[..3]
  {
    var line := "  " + text;
    UncommentedJoin("  ", text);
    UnbrokenJoin("  ", text);
    StripTight(text);
    BodyWhole(line);
    hide Uncommented, Unbroken, Body, Strip;
    assert line[1..] == " " + text && (" " + text)[1..] == text;
    assert Indent(text) == 0;
    assert Indent(" " + text) == 1;
    assert line[..3] == [' ', ' ', text[0]];
  }

  lemma HeadReading(k: string)
    requires GoodKey(k)
    ensures Unbroken(HeadLine(k)) && Read(HeadLine(k)) == Pair(false, k, "")
  {
    var line := HeadLine(k);
    UncommentedJoin(k, ":");
    UnbrokenJoin(k, ":");
    assert Printable(line);
    PlainBody(line);
    assert line == k + ":" + "";
    hide Body, Strip, Indent, Read;
    ReadPair(line, k, "", 0);
  }

  // ---- documents ----------------------------------------------------------------------

  ghost predicate AllUnbroken(lines: seq<string>) { forall i :: 0 <= i < |lines| ==> Unbroken(lines[i]) }

  lemma AllUnbrokenJoin(xs: seq<string>, ys: seq<string>)
    requires AllUnbroken(xs) && AllUnbroken(ys)
    ensures AllUnbroken(xs + ys)
  {
    hide Unbroken;
  }

  lemma ParseAppend(lines: seq<string>, line: string, p: Progress, q: Progress)
    requires ParseLines(lines) == Ok(p) && Apply(p, Read(line)) == Ok(q)
    ensures ParseLines(lines + [line]) == Ok(q)
  {
    assert (lines + [line])[..|lines|] == lines;
  }

  lemma TopParsed(lines: seq<string>, p: Progress, e: Entry)
    requires ParseLines(lines) == Ok(p) && GoodEntry(e)
    ensures ParseLines(lines + [TopLine(e.key, e.text)]) == Ok(Progress(p.root[e.key := Leaf(e.value)], None))
    ensures Unbroken(TopLine(e.key, e.text))
  {
    hide Read, ScalarOf, Strip, GoodKey, Printable, Spelling;
    TopReading(e.key, e.text);
    ScalarRoundTrip(e.text, e.value);
    ParseAppend(lines, TopLine(e.key, e.text), p, Progress(p.root[e.key := Leaf(e.value)], None));
  }

  lemma SubParsed(lines: seq<string>, p: Progress, name: string, e: Entry)
    requires ParseLines(lines) == Ok(p) && GoodEntry(e)
    requires p.current == Some(name) && name in p.root && p.root[name].Section?
    ensures ParseLines(lines + [SubLine(e.key, e.text)])
         == Ok(p.(root := p.root[name := Section(p.root[name].entries[e.key := e.value])]))
    ensures Unbroken(SubLine(e.key, e.text))
  {
    hide Read, ScalarOf, Strip, GoodKey, Printable, Spelling;
    SubReading(e.key, e.text);
    assert "  " + (e.key + ": " + e.text) == SubLine(e.key, e.text);
    ScalarRoundTrip(e.text, e.value);
    var root := p.root[name := Section(p.root[name].entries[e.key := e.value])];
    ParseAppend(lines, SubLine(e.key, e.text), p, p.(root := root));
  }

  lemma HeadParsed(lines: seq<string>, p: Progress, k: string)
    requires ParseLines(lines) == Ok(p) && GoodKey(k)
    ensures ParseLines(lines + [HeadLine(k)]) == Ok(Progress(p.root[k := Section(map[])], Some(k)))
    ensures Unbroken(HeadLine(k))
  {
    HeadReading(k);
    hide Read;
    ParseAppend(lines, HeadLine(k), p, Progress(p.root[k := Section(map[])], Some(k)));
  }

  lemma {:induction false} SubLinesParsed(lines: seq<string>, root: Doc, name: string, entries: seq<Entry>)
    requires ParseLines(lines) == Ok(Progress(root[name := Section(map[])], Some(name))) && GoodEntries(entries)
    ensures ParseLines(lines + SubLines(entries)) == Ok(Progress(root[name := Section(EntriesOf(entries))], Some(name)))
    ensures AllUnbroken(SubLines(entries))
  {
    hide ParseLines, SubLine, GoodEntry, Unbroken;
    if entries == [] {
      assert lines + [] == lines;
    } else {
      var n := |entries| - 1;
      var (front, e) := (entries[..n], entries[n]);
      SubLinesParsed(lines, root, name, front);
      var p := Progress(root[name := Section(EntriesOf(front))], Some(name));
      SubParsed(lines + SubLines(front), p, name, e);
      assert lines + SubLines(entries) == lines + SubLines(front) + [SubLine(e.key, e.text)];
      assert p.root[name := Section(EntriesOf(front)[e.key := e.value])] == root[name := Section(EntriesOf(entries))];
    }
  }

  lemma ItemParsed(lines: seq<string>, p: Progress, item: Item)
    requires ParseLines(lines) == Ok(p) && GoodItem(item)
    ensures var r := ParseLines(lines + ItemLines(item));
            r.Ok? && r.value.root == p.root[KeyOf(item) := NodeOf(item)]
    ensures AllUnbroken(ItemLines(item))
  {
    hide ParseLines, TopLine, HeadLine, SubLines, GoodKey, GoodEntry, GoodEntries, Unbroken;
    match item {
      case Top(e) => TopParsed(lines, p, e);
      case Group(name, entries) =>
        HeadParsed(lines, p, name);
        SubLinesParsed(lines + [HeadLine(name)], p.root, name, entries);
        assert lines + ([HeadLine(name)] + SubLines(entries)) == lines + [HeadLine(name)] + SubLines(entries);
    }
  }

  lemma {:induction false} LinesParsed(items: seq<Item>)
    requires forall i :: 0 <= i < |items| ==> GoodItem(items[i])
    ensures ParseLines(PrintLines(items)).Ok? && ParseLines(PrintLines(items)).value.root == DocOf(items)
    ensures AllUnbroken(PrintLines(items))
  {
    if items == [] {
      assert ParseLines([]) == Ok(Progress(map[], None));
    } else {
      hide ParseLines, ItemLines, GoodItem, AllUnbroken, NodeOf;
      var n := |items| - 1;
      var (lines, item) := (PrintLines(items[..n]), items[n]);
      LinesParsed(items[..n]);
      ItemParsed(lines, ParseLines(lines).value, item);
      AllUnbrokenJoin(lines, ItemLines(item));
      assert PrintLines(items) == lines + ItemLines(item);
    }
  }

  /** Parsing undoes printing, for every list of printable items: scalars, each in any of its
      spellings, and sections, in any order, duplicate keys included. */
  lemma RoundTrip(items: seq<Item>)
    requires forall i :: 0 <= i < |items| ==> GoodItem(items[i])
    ensures Parse(Print(items)) == Ok(DocOf(items))
  {
    LinesParsed(items);
    SplitUnlines(PrintLines(items));
  }

  // ---- the exact limit for strings ----------------------------------------------------

  lemma {:induction false} StripLeftShape(s: string)
    ensures var t := StripLeft(s); |t| <= |s| && (t != "" ==> !IsSpace(t[0])) && (s != "" && !IsSpace(s[0]) ==> t == s)
  {
    if s != "" && IsSpace(s[0]) {
      StripLeftShape(s[1..]);
    }
  }

  lemma {:induction false} StripRightShape(s: string)
    ensures StripRight(s) <= s
  {
    if s != "" && IsSpace(s[|s| - 1]) {
      StripRightShape(s[..|s| - 1]);
    }
  }

  // Stripping never lengthens a text, and shortens one that begins with white space.
  lemma StripShape(s: string)
    ensures |Strip(s)| <= |s|
    ensures s != "" && IsSpace(s[0]) ==> |Strip(s)| < |s|
    ensures s != "" && !IsSpace(s[0]) ==> Strip(s) <= s
  {
    StripLeftShape(s);
    StripRightShape(StripLeft(s));
    if s != "" && IsSpace(s[0]) {
      StripLeftShape(s[1..]);
    }
  }

  lemma ScalarNoLonger(v: string, s: string)
    requires ScalarText(v) == Str(s)
    ensures |s| <= |v|
  {
  }

  lemma {:induction false} CommentFound(s: string, i: nat, at: nat)
    requires i <= at && at + 1 < |s| && IsSpace(s[at]) && s[at + 1] == '#'
    ensures CommentFrom(s, i) <= at
    decreases at - i
  {
    if i < at {
      CommentFound(s, i + 1, at);
    } else {
      assert HashAhead(s, at + 1);
    }
  }

  // A quoted string that holds white space and then '#' loses everything from there on.
  lemma CutShort(k: string, q: string, s: string, at: nat, rest: string)
    requires GoodKey(k) && |q| == 1 && at + 1 < |s| && IsSpace(s[at]) && s[at + 1] == '#'
    requires Read(TopLine(k, q + s + q)) == Pair(false, k, rest)
    ensures ScalarOf(rest) != Str(s)
  {
    var line := TopLine(k, q + s + q);
    var hole := |k| + 3 + at;
    assert line[hole] == s[at] && line[hole + 1] == s[at + 1];
    CommentFound(line, 0, hole);
    var body := Body(line);
    assert body <= line && |body| <= hole;
    hide Body, CommentFrom, HashAhead;
    assert body != "" && body[0] == line[0] == k[0];
    StripShape(body);
    var text := Strip(body);
    assert text == k + ":" + rest by { ReadShape(line, k, rest); }
    assert |rest| <= at + 2;
    if rest != "" {
      assert rest[0] == text[|k| + 1] == line[|k| + 1] == ' ';
    }
    StripShape(rest);
    if ScalarText(Strip(rest)) == Str(s) {
      ScalarNoLonger(Strip(rest), s);
    }
  }

  lemma ReadShape(line: string, k: string, rest: string)
    requires Read(line) == Pair(false, k, rest)
    ensures Strip(Body(line)) == k + ":" + rest
  {
    ReadLaw(line);
  }

  lemma OneLine(line: string)
    requires Unbroken(line)
    ensures ParseLines(SplitLines(Unlines([line]))) == ParseLines([line])
  {
    SplitUnlines([line]);
  }

  lemma OneItem(e: Entry)
    ensures PrintLines([Top(e)]) == [TopLine(e.key, e.text)]
  {
    assert [Top(e)][..0] == [];
  }

  // A single printed entry is parsed from a single line.
  lemma OnePrinted(k: string, q: string, s: string)
    requires GoodKey(k) && (q == "\"" || q == "'") && Unbroken(s)
    ensures var r := Apply(Progress(map[], None), Read(TopLine(k, q + s + q)));
            Parse(Print([Quote(k, q, s)])) == if r.Ok? then Ok(r.value.root) else Err(Error(r.error, 1))
  {
    hide Read, Apply, TopLine, PrintLines, SplitLines, Unlines, Unbroken, GoodKey;
    var line := TopLine(k, q + s + q);
    OneItem(Entry(k, q + s + q, Str(s)));
    UnbrokenLine(k, q, s);
    OneLine(line);
    assert [line][..0] == [];
  }

  // A string under a key, in quotes of either kind.
  function Quote(k: string, q: string, s: string): Item { Top(Entry(k, q + s + q, Str(s))) }

  lemma CommentedLost(k: string, q: string, s: string, at: nat)
    requires GoodKey(k) && (q == "\"" || q == "'") && Unbroken(s)
    requires at + 1 < |s| && IsSpace(s[at]) && s[at + 1] == '#'
    ensures Parse(Print([Quote(k, q, s)])) != Ok(map[k := Leaf(Str(s))])
  {
    hide Read, ScalarOf, Strip, Parse, Print, TopLine, GoodKey, Unbroken;
    var reading := Read(TopLine(k, q + s + q));
    OnePrinted(k, q, s);
    var r := Apply(Progress(map[], None), reading);
    if r.Ok? && r.value.root == map[k := Leaf(Str(s))] {
      OneEntry(reading, k, s);
      CutShort(k, q, s, at, reading.rest);
    }
  }

  lemma UncommentedKept(k: string, q: string, s: string)
    requires GoodKey(k) && (q == "\"" || q == "'") && Unbroken(s) && Uncommented(s)
    ensures Parse(Print([Quote(k, q, s)])) == Ok(map[k := Leaf(Str(s))])
  {
    var items := [Quote(k, q, s)];
    assert Spelling(q + s + q, Str(s));
    hide Parse, Print, GoodKey, Unbroken, Uncommented, Printable, Spelling;
    QuotedPrintable(q, s);
    assert GoodItem(items[0]);
    RoundTrip(items);
    assert items[..0] == [];
    assert DocOf(items[..0]) == map[];
    assert DocOf(items) == map[k := Leaf(Str(s))];
  }

  /** A one-line string in quotes of either kind survives printing and parsing exactly when it
      has no white space directly before '#': quotes do not protect it. */
  lemma StringSurvivesIff(k: string, q: string, s: string)
    requires GoodKey(k) && (q == "\"" || q == "'") && Unbroken(s)
    ensures Parse(Print([Quote(k, q, s)])) == Ok(map[k := Leaf(Str(s))]) <==> Uncommented(s)
  {
    hide Parse, Print, GoodKey, Unbroken;
    if Uncommented(s) {
      UncommentedKept(k, q, s);
    } else {
      var i, j :| 0 <= i < j < |s| && j == i + 1 && IsSpace(s[i]) && s[j] == '#';
      CommentedLost(k, q, s, i);
    }
  }

  lemma UnbrokenLine(k: string, q: string, s: string)
    requires GoodKey(k) && (q == "\"" || q == "'") && Unbroken(s)
    ensures Unbroken(TopLine(k, q + s + q))
  {
    UnbrokenJoin(q, s);
    UnbrokenJoin(q + s, q);
    UnbrokenJoin(k, ": ");
    UnbrokenJoin(k + ": ", q + s + q);
  }

  // From an empty document, only a plain pair with the right key and value gives one entry.
  lemma OneEntry(r: Reading, k: string, s: string)
    requires Apply(Progress(map[], None), r).Ok?
    requires Apply(Progress(map[], None), r).value.root == map[k := Leaf(Str(s))]
    ensures r.Pair? && !r.indented && r.key == k && ScalarOf(r.rest) == Str(s)
  {
    var root := map[k := Leaf(Str(s))];
    assert k in root;
    if r.Pair? {
      assert r.key in root;
    }
  }
}
