/** The fallback config parser: two-level mappings of scalars. */
module MinimalYaml {
  import opened Options

  // ---- characters ---------------------------------------------------------------------

  // Where `splitlines` ends a line.
  predicate IsBreak(c: char)
  {
    '\n' <= c <= '\r' || '\U{1C}' <= c <= '\U{1E}' || c == '\U{85}' || c == '\U{2028}' || c == '\U{2029}'
  }

  // What `strip` and `\s` take for white space; every line break is white space.
  predicate IsSpace(c: char)
  {
    || IsBreak(c) || c == ' ' || c == '\t' || c == '\U{1F}' || c == '\U{A0}' || c == '\U{1680}'
    || '\U{2000}' <= c <= '\U{200A}' || c == '\U{202F}' || c == '\U{205F}' || c == '\U{3000}'
  }

  predicate IsDigit(c: char) { '0' <= c <= '9' }

  type OtherZero = z: nat | z >= 0x660 witness 0x660

  // The zeros of the other decimal digit blocks of Unicode 14, each followed by its one to nine.
  const OTHER_ZEROS: seq<OtherZero> := [
    0x660, 0x6F0, 0x7C0, 0x966, 0x9E6, 0xA66, 0xAE6, 0xB66, 0xBE6, 0xC66, 0xCE6, 0xD66, 0xDE6,
    0xE50, 0xED0, 0xF20, 0x1040, 0x1090, 0x17E0, 0x1810, 0x1946, 0x19D0, 0x1A80, 0x1A90, 0x1B50,
    0x1BB0, 0x1C40, 0x1C50, 0xA620, 0xA8D0, 0xA900, 0xA9D0, 0xA9F0, 0xAA50, 0xABF0, 0xFF10,
    0x104A0, 0x10D30, 0x11066, 0x110F0, 0x11136, 0x111D0, 0x112F0, 0x11450, 0x114D0, 0x11650,
    0x116C0, 0x11730, 0x118E0, 0x11950, 0x11C50, 0x11D50, 0x11DA0, 0x16A60, 0x16AC0, 0x16B50,
    0x1D7CE, 0x1D7D8, 0x1D7E2, 0x1D7EC, 0x1D7F6, 0x1E140, 0x1E2F0, 0x1E950, 0x1FBF0
  ]

  // The value of a decimal digit in any script.
  function Decimal(c: char): Option<nat>
  {
    if IsDigit(c) then Some(c as int - '0' as int) else DecimalAmong(c as int, OTHER_ZEROS)
  }

  function DecimalAmong(code: nat, zeros: seq<OtherZero>): Option<nat>
  {
    if zeros == [] then None
    else if zeros[0] <= code < zeros[0] + 10 then Some(code - zeros[0])
    else DecimalAmong(code, zeros[1..])
  }

  // No other letter folds into the words compared below.
  function Lower(c: char): char { if 'A' <= c <= 'Z' then c - 'A' + 'a' else c }

  function LowerAll(s: string): string { seq(|s|, i requires 0 <= i < |s| => Lower(s[i])) }

  // ---- lines and white space ----------------------------------------------------------

  function SplitLines(text: string): seq<string> { LinesFrom(text, "") }

  // The lines of `text`, the first of them already begun with `line`.
  function LinesFrom(text: string, line: string): seq<string>
    decreases |text|
  {
    if text == "" then (if line == "" then [] else [line])
    else if !IsBreak(text[0]) then LinesFrom(text[1..], line + [text[0]])
    else if text[0] == '\r' && |text| > 1 && text[1] == '\n' then [line] + LinesFrom(text[2..], "")
    else [line] + LinesFrom(text[1..], "")
  }

  function StripLeft(s: string): string
  {
    if s != "" && IsSpace(s[0]) then StripLeft(s[1..]) else s
  }

  function StripRight(s: string): string
  {
    if s != "" && IsSpace(s[|s| - 1]) then StripRight(s[..|s| - 1]) else s
  }

  function Strip(s: string): string { StripRight(StripLeft(s)) }

  // White space, possibly none, and then '#'.
  predicate HashAhead(s: string, i: nat)
    requires i <= |s|
    decreases |s| - i
  {
    i < |s| && (s[i] == '#' || (IsSpace(s[i]) && HashAhead(s, i + 1)))
  }

  // Where a trailing comment begins: the first white space that leads up to '#'.
  function CommentFrom(s: string, i: nat): (n: nat)
    requires i <= |s|
    ensures i <= n <= |s|
    decreases |s| - i
  {
    if i == |s| then i
    else if IsSpace(s[i]) && HashAhead(s, i + 1) then i
    else CommentFrom(s, i + 1)
  }

  // A line without its comment.
  function Body(line: string): string
  {
    var t := StripLeft(line);
    if t != "" && t[0] == '#' then "" else line[..CommentFrom(line, 0)]
  }

  function Indent(s: string): (n: nat)
    ensures n <= |s|
  {
    if s != "" && s[0] == ' ' then 1 + Indent(s[1..]) else 0
  }

  // The position of the first colon, or the length.
  function ColonAt(s: string): (n: nat)
    ensures n <= |s|
  {
    if s == "" || s[0] == ':' then 0 else 1 + ColonAt(s[1..])
  }

  // ---- scalars ------------------------------------------------------------------------

  datatype Scalar = Bool(b: bool) | Null | Int(n: int) | Str(s: string)

  function Digits(s: string): Option<nat>
  {
    if s == "" then Some(0)
    else
      var (high, low) := (Digits(s[..|s| - 1]), Decimal(s[|s| - 1]));
      if high.Some? && low.Some? then Some(10 * high.value + low.value) else None
  }

  // An optional minus sign and at least one digit.
  function Integer(s: string): Option<int>
  {
    if s == "" then None
    else if s[0] == '-' then
      match Digits(s[1..])
      case Some(n) => if |s| > 1 then Some(0 - n as int) else None
      case None => None
    else
      match Digits(s)
      case Some(n) => Some(n as int)
      case None => None
  }

  function ScalarOf(raw: string): Scalar { ScalarText(Strip(raw)) }

  function ScalarText(v: string): Scalar
  {
    if |v| >= 2 && (v[0] == '"' || v[0] == '\'') && v[|v| - 1] == v[0] then Str(v[1..|v| - 1])
    else
      var low := LowerAll(v);
      if low == "true" || low == "yes" || low == "on" then Bool(true)
      else if low == "false" || low == "no" || low == "off" then Bool(false)
      else if low == "" || low == "null" || low == "~" then Null
      else if Integer(v).Some? then Int(Integer(v).value)
      else Str(v)
  }

  // ---- the parser ---------------------------------------------------------------------

  datatype Node = Leaf(value: Scalar) | Section(entries: map<string, Scalar>)

  type Doc = map<string, Node>

  datatype Problem = Tabs | NoPair | BadIndent

  datatype Error = Error(problem: Problem, line: nat)

  // The document so far, and the section an indented line would extend.
  datatype Progress = Progress(root: Doc, current: Option<string>)

  // What one line means: nothing, a problem, or an entry at its level.
  datatype Reading = Blank | Bad(problem: Problem) | Pair(indented: bool, key: string, rest: string)

  function Read(line: string): Reading
  {
    var body := Body(line);
    if Strip(body) == "" then Blank
    else
      var (indent, text) := (Indent(body), Strip(body));
      var colon := ColonAt(text);
      if '\t' in body[..if indent < |body| then indent + 1 else indent] then Bad(Tabs)
      else if colon == |text| || colon == 0 then Bad(NoPair)
      else Pair(indent > 0, text[..colon], text[colon + 1..])
  }

  function Apply(p: Progress, r: Reading): Result<Progress, Problem>
  {
    match r
    case Blank => Ok(p)
    case Bad(problem) => Err(problem)
    case Pair(indented, key, rest) =>
      if !indented then
        if Strip(rest) != "" then Ok(Progress(p.root[key := Leaf(ScalarOf(rest))], None))
        else Ok(Progress(p.root[key := Section(map[])], Some(key)))
      else if p.current.Some? && p.current.value in p.root && p.root[p.current.value].Section? then
        var (name, entries) := (p.current.value, p.root[p.current.value].entries);
        Ok(Progress(p.root[name := Section(entries[key := ScalarOf(rest)])], p.current))
      else Err(BadIndent)
  }

  function ParseLines(lines: seq<string>): Result<Progress, Error>
  {
    if lines == [] then Ok(Progress(map[], None))
    else
      var before := ParseLines(lines[..|lines| - 1]);
      if before.Err? then before
      else
        match Apply(before.value, Read(lines[|lines| - 1]))
        case Ok(p) => Ok(p)
        case Err(problem) => Err(Error(problem, |lines|))
  }

  function Parse(text: string): Result<Doc, Error>
  {
    match ParseLines(SplitLines(text))
    case Ok(p) => Ok(p.root)
    case Err(e) => Err(e)
  }

  // The open section is always there, so an indented line fails only when no section is open.
  ghost predicate Anchored(p: Progress)
  {
    p.current.Some? ==> p.current.value in p.root && p.root[p.current.value].Section?
  }

  lemma ApplyAnchored(p: Progress, r: Reading)
    requires Anchored(p)
    ensures Apply(p, r).Ok? ==> Anchored(Apply(p, r).value)
    ensures r.Pair? ==> (Apply(p, r).Err? <==> r.indented && p.current.None?)
  {
  }

  lemma {:induction false} ParseAnchored(lines: seq<string>)
    requires ParseLines(lines).Ok?
    ensures Anchored(ParseLines(lines).value)
  {
    if lines != [] {
      ParseAnchored(lines[..|lines| - 1]);
      ApplyAnchored(ParseLines(lines[..|lines| - 1]).value, Read(lines[|lines| - 1]));
    }
  }

  lemma {:induction false} ParseFails(lines: seq<string>, n: nat)
    requires n <= |lines| && ParseLines(lines[..n]).Err?
    ensures ParseLines(lines) == ParseLines(lines[..n])
  {
    if n == |lines| {
      assert lines[..n] == lines;
    } else {
      var m := |lines| - 1;
      assert lines[..m][..n] == lines[..n];
      ParseFails(lines[..m], n);
    }
  }

  // The line loop over `root` and `current`.
  method ParseMinimalYaml(text: string) returns (r: Result<Doc, Error>)
    ensures r == Parse(text)
  {
    var lines := SplitLines(text);
    var root: Doc := map[];
    var current: Option<string> := None;
    for i := 0 to |lines|
      invariant ParseLines(lines[..i]) == Ok(Progress(root, current))
    {
      hide Read, ScalarOf, Strip;
      ParseAnchored(lines[..i]);
      assert lines[..i + 1][..i] == lines[..i];
      match Read(lines[i]) {
        case Blank =>
        case Bad(problem) =>
          ParseFails(lines, i + 1);
          return Err(Error(problem, i + 1));
        case Pair(indented, key, rest) =>
          if !indented {
            if Strip(rest) != "" {
              root := root[key := Leaf(ScalarOf(rest))];
              current := None;
            } else {
              root := root[key := Section(map[])];
              current := Some(key);
            }
          } else if current.Some? {
            root := root[current.value := Section(root[current.value].entries[key := ScalarOf(rest)])];
          } else {
            ParseFails(lines, i + 1);
            return Err(Error(BadIndent, i + 1));
          }
      }
    }
    assert lines[..|lines|] == lines;
    return Ok(root);
  }

  // ---- blank and comment lines --------------------------------------------------------

  ghost predicate AllSpace(s: string) { forall i :: 0 <= i < |s| ==> IsSpace(s[i]) }

  lemma {:induction false} StripAllSpace(s: string)
    requires AllSpace(s)
    ensures StripLeft(s) == ""
  {
    if s != "" {
      StripAllSpace(s[1..]);
    }
  }

  lemma {:induction false} StrippedAway(s: string)
    requires StripLeft(s) == ""
    ensures AllSpace(s)
  {
    if s != "" {
      StrippedAway(s[1..]);
      assert s == [s[0]] + s[1..];
    }
  }

  // White space only, or '#' as the first thing that is not white space: nothing to read.
  lemma BlankOrComment(line: string)
    requires StripLeft(line) == "" || StripLeft(line)[0] == '#'
    ensures Read(line) == Blank
  {
    if StripLeft(line) == "" {
      StrippedAway(line);
      StripAllSpace(Body(line));
    }
  }

  // Equal results, except that an error may name another line number.
  ghost predicate Alike(x: Result<Progress, Error>, y: Result<Progress, Error>)
  {
    if x.Ok? then x == y else y.Err? && x.error.problem == y.error.problem
  }

  lemma {:induction false} NothingReadIgnored(before: seq<string>, blank: string, after: seq<string>)
    requires Read(blank) == Blank
    ensures Alike(ParseLines(before + [blank] + after), ParseLines(before + after))
  {
    hide Read, ScalarOf, Strip;
    if after == [] {
      assert before + [blank] + after == before + [blank] && before + after == before;
      assert (before + [blank])[..|before|] == before;
    } else {
      var n := |after| - 1;
      NothingReadIgnored(before, blank, after[..n]);
      var (long, short) := (before + [blank] + after, before + after);
      assert long[..|long| - 1] == before + [blank] + after[..n];
      assert short[..|short| - 1] == before + after[..n];
    }
  }

  /** Inserting a blank or comment line anywhere never changes the result. */
  lemma BlankLineIgnored(before: seq<string>, blank: string, after: seq<string>)
    requires StripLeft(blank) == "" || StripLeft(blank)[0] == '#'
    ensures Alike(ParseLines(before + [blank] + after), ParseLines(before + after))
  {
    hide ParseLines, Alike;
    BlankOrComment(blank);
    NothingReadIgnored(before, blank, after);
  }
}
