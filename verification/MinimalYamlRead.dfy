/** What the minimal parser reads: scalars by their spelling, lines by their shape, texts by
    their line ends - each law stated on the characters alone. */
module MinimalYamlRead {
  import opened Options
  import opened MinimalYaml

  // ---- words --------------------------------------------------------------------------

  // The word in any mix of cases.
  predicate SameWord(t: string, word: string)
  {
    && |t| == |word|
    && forall i :: 0 <= i < |t| ==>
         t[i] == word[i] || ('a' <= word[i] <= 'z' && t[i] as int + 32 == word[i] as int)
  }

  predicate TrueWord(t: string) { SameWord(t, "true") || SameWord(t, "yes") || SameWord(t, "on") }

  predicate FalseWord(t: string) { SameWord(t, "false") || SameWord(t, "no") || SameWord(t, "off") }

  predicate NullWord(t: string) { t == "" || SameWord(t, "null") || t == "~" }

  lemma LowerIff(c: char, w: char)
    requires w == '~' || 'a' <= w <= 'z'
    ensures Lower(c) == w <==> c == w || ('a' <= w <= 'z' && c as int + 32 == w as int)
  {
  }

  lemma WordIff(t: string, word: string)
    requires forall i :: 0 <= i < |word| ==> word[i] == '~' || 'a' <= word[i] <= 'z'
    ensures LowerAll(t) == word <==> SameWord(t, word)
  {
    hide Lower;
    forall i | 0 <= i < |t| && i < |word|
      ensures Lower(t[i]) == word[i] <==>
                t[i] == word[i] || ('a' <= word[i] <= 'z' && t[i] as int + 32 == word[i] as int)
    {
      LowerIff(t[i], word[i]);
    }
    if SameWord(t, word) {
      assert LowerAll(t) == word;
    } else if |t| == |word| {
      var i :| 0 <= i < |t| && !(t[i] == word[i] || ('a' <= word[i] <= 'z' && t[i] as int + 32 == word[i] as int));
      assert LowerAll(t)[i] != word[i];
    }
  }

  lemma WordsIff(t: string)
    ensures TrueWord(t) <==> LowerAll(t) == "true" || LowerAll(t) == "yes" || LowerAll(t) == "on"
    ensures FalseWord(t) <==> LowerAll(t) == "false" || LowerAll(t) == "no" || LowerAll(t) == "off"
    ensures NullWord(t) <==> LowerAll(t) == "" || LowerAll(t) == "null" || LowerAll(t) == "~"
  {
    hide LowerAll, SameWord;
    WordIff(t, "true");
    WordIff(t, "yes");
    WordIff(t, "on");
    WordIff(t, "false");
    WordIff(t, "no");
    WordIff(t, "off");
    WordIff(t, "");
    WordIff(t, "null");
    WordIff(t, "~");
    SameShort(t);
  }

  lemma SameShort(t: string)
    ensures SameWord(t, "") <==> t == ""
    ensures SameWord(t, "~") <==> t == "~"
  {
  }

  // ---- numerals -----------------------------------------------------------------------

  predicate AllDigits(s: string) { s != "" && forall i :: 0 <= i < |s| ==> Decimal(s[i]).Some? }

  // An optional minus sign and at least one decimal digit.
  predicate Numeral(t: string) { AllDigits(t) || (t != "" && t[0] == '-' && AllDigits(t[1..])) }

  function Pow10(n: nat): nat { if n == 0 then 1 else 10 * Pow10(n - 1) }

  // The value of the digits, the first one counting most.
  function Value(s: string): int
    requires forall i :: 0 <= i < |s| ==> Decimal(s[i]).Some?
  {
    if s == "" then 0 else Decimal(s[0]).value * Pow10(|s| - 1) + Value(s[1..])
  }

  function NumeralValue(t: string): int
    requires Numeral(t)
  {
    if t[0] == '-' then 0 - Value(t[1..]) else Value(t)
  }

  lemma {:induction false} ValueAppend(s: string, c: char)
    requires forall i :: 0 <= i < |s| ==> Decimal(s[i]).Some?
    requires Decimal(c).Some?
    ensures Value(s + [c]) == 10 * Value(s) + Decimal(c).value
  {
    hide Decimal;
    if s == "" {
      assert ([c])[1..] == "";
      assert s + [c] == [c];
    } else {
      var all := s + [c];
      assert all[1..] == s[1..] + [c];
      ValueAppend(s[1..], c);
      TenTimes(Decimal(s[0]).value, Pow10(|s| - 1));
    }
  }

  lemma TenTimes(d: nat, p: nat)
    ensures d * (10 * p) == 10 * (d * p)
  {
  }

  lemma {:induction false} DigitsIsValue(s: string)
    ensures Digits(s).Some? <==> forall i :: 0 <= i < |s| ==> Decimal(s[i]).Some?
    ensures Digits(s).Some? ==> Digits(s).value == Value(s)
  {
    hide Decimal;
    if s != "" {
      var n := |s| - 1;
      DigitsIsValue(s[..n]);
      assert s == s[..n] + [s[n]];
      if Digits(s).Some? {
        assert Decimal(s[n]).Some?;
        ValueAppend(s[..n], s[n]);
      } else if Digits(s[..n]).None? {
        var i :| 0 <= i < n && Decimal(s[..n][i]).None?;
        assert Decimal(s[i]).None?;
      }
    }
  }

  lemma {:induction false} LowCode(code: nat, zeros: seq<OtherZero>)
    requires code < 0x660
    ensures DecimalAmong(code, zeros).None?
  {
    if zeros != [] {
      LowCode(code, zeros[1..]);
    }
  }

  // The character with this code is digit d of one of the blocks.
  ghost predicate DigitAmong(code: nat, zeros: seq<OtherZero>, d: nat)
  {
    d < 10 && exists i :: 0 <= i < |zeros| && code == zeros[i] + d
  }

  lemma {:induction false} AmongIff(code: nat, zeros: seq<OtherZero>)
    ensures DecimalAmong(code, zeros).Some? <==> exists d: nat :: DigitAmong(code, zeros, d)
    ensures DecimalAmong(code, zeros).Some? ==> DigitAmong(code, zeros, DecimalAmong(code, zeros).value)
  {
    if zeros != [] {
      AmongIff(code, zeros[1..]);
      forall d: nat
        ensures DigitAmong(code, zeros, d) <==> (d < 10 && code == zeros[0] + d) || DigitAmong(code, zeros[1..], d)
      {
        AmongStep(code, zeros, d);
      }
      if zeros[0] <= code < zeros[0] + 10 {
        assert DigitAmong(code, zeros, code - zeros[0]);
      }
    }
  }

  lemma AmongStep(code: nat, zeros: seq<OtherZero>, d: nat)
    requires zeros != []
    ensures DigitAmong(code, zeros, d) <==> (d < 10 && code == zeros[0] + d) || DigitAmong(code, zeros[1..], d)
  {
    assert forall i :: 0 < i < |zeros| ==> zeros[i] == zeros[1..][i - 1];
    if DigitAmong(code, zeros[1..], d) {
      var i :| 0 <= i < |zeros[1..]| && code == zeros[1..][i] + d;
      assert code == zeros[i + 1] + d;
    }
  }

  // Digit d of a script other than ASCII.
  ghost predicate OtherDigit(c: char, d: nat) { DigitAmong(c as int, OTHER_ZEROS, d) }

  /** A character is a decimal digit exactly when it is an ASCII one or one of ten in a row from
      the zero of another script, and its value is its distance from that zero. */
  lemma DecimalIff(c: char)
    ensures Decimal(c).Some? <==> '0' <= c <= '9' || exists d: nat :: OtherDigit(c, d)
    ensures '0' <= c <= '9' ==> Decimal(c) == Some(c as int - '0' as int)
    ensures Decimal(c).Some? && !('0' <= c <= '9') ==> OtherDigit(c, Decimal(c).value)
  {
    hide DigitAmong, DecimalAmong;
    var code: nat := c as int;
    AmongIff(code, OTHER_ZEROS);
    forall d: nat ensures OtherDigit(c, d) <==> DigitAmong(code, OTHER_ZEROS, d) {
    }
  }

  lemma AsciiNotDecimal(c: char)
    requires c as int < 0x660 && !IsDigit(c)
    ensures Decimal(c).None?
  {
    LowCode(c as int, OTHER_ZEROS);
  }

  lemma NumeralIff(t: string)
    ensures Integer(t).Some? <==> Numeral(t)
    ensures Numeral(t) ==> Integer(t).value == NumeralValue(t)
  {
    AsciiNotDecimal('-');
    hide Decimal, Digits;
    if t != "" {
      DigitsIsValue(t);
      DigitsIsValue(t[1..]);
      if t[0] == '-' {
        assert |t| > 1 <==> t[1..] != "";
      }
    }
  }

  // ---- scalars ------------------------------------------------------------------------

  predicate InQuotes(t: string, q: char, s: string) { t == [q] + s + [q] }

  predicate Quoted(t: string) { |t| >= 2 && t[0] == t[|t| - 1] && (t[0] == '"' || t[0] == '\'') }

  // Text that stands for itself: not in quotes, none of the words, no number.
  predicate Bare(t: string) { !Quoted(t) && !TrueWord(t) && !FalseWord(t) && !NullWord(t) && !Numeral(t) }

  // The texts that spell a scalar.
  predicate Spelling(t: string, v: Scalar)
  {
    match v
    case Bool(b) => if b then TrueWord(t) else FalseWord(t)
    case Null => NullWord(t)
    case Int(n) => Numeral(t) && n == NumeralValue(t)
    case Str(s) => InQuotes(t, '"', s) || InQuotes(t, '\'', s) || (t == s && Bare(t))
  }

  lemma QuotedIff(t: string, s: string)
    ensures InQuotes(t, '"', s) || InQuotes(t, '\'', s) <==> Quoted(t) && s == t[1..|t| - 1]
  {
    if Quoted(t) {
      assert t == [t[0]] + t[1..|t| - 1] + [t[0]];
    }
    if InQuotes(t, '"', s) || InQuotes(t, '\'', s) {
      assert t[1..|t| - 1] == s;
    }
  }

  lemma WordStart(t: string)
    requires TrueWord(t) || FalseWord(t) || NullWord(t)
    ensures !Quoted(t) && !Numeral(t)
  {
    if t != "" {
      assert t[0] == '~' || 'a' <= t[0] <= 'z' || 'A' <= t[0] <= 'Z';
      AsciiNotDecimal(t[0]);
    }
  }

  lemma NumeralStart(t: string)
    requires Numeral(t)
    ensures !Quoted(t)
  {
    AsciiNotDecimal('"');
    AsciiNotDecimal('\'');
  }

  lemma WordsApart(t: string)
    ensures !(TrueWord(t) && FalseWord(t)) && !(TrueWord(t) && NullWord(t)) && !(FalseWord(t) && NullWord(t))
  {
    WordsIff(t);
  }

  /** The full reading law: a stripped text is read as a scalar exactly when it spells it. */
  lemma ReadingLaw(t: string, v: Scalar)
    ensures ScalarText(t) == v <==> Spelling(t, v)
  {
    WordsIff(t);
    NumeralIff(t);
    hide LowerAll, Integer, Numeral, TrueWord, FalseWord, NullWord;
    if TrueWord(t) || FalseWord(t) || NullWord(t) {
      WordStart(t);
      WordsApart(t);
    }
    if Numeral(t) {
      NumeralStart(t);
    }
    if v.Str? {
      QuotedIff(t, v.s);
    }
  }

  // ---- white space --------------------------------------------------------------------

  // The code points that Python's `str.isspace` accepts.
  lemma SpaceIff(c: char)
    ensures IsSpace(c) <==>
              c as int in {0x9, 0xA, 0xB, 0xC, 0xD, 0x1C, 0x1D, 0x1E, 0x1F, 0x20, 0x85, 0xA0, 0x1680,
                           0x2000, 0x2001, 0x2002, 0x2003, 0x2004, 0x2005, 0x2006, 0x2007, 0x2008, 0x2009,
                           0x200A, 0x2028, 0x2029, 0x202F, 0x205F, 0x3000}
  {
  }

  // Neither begins nor ends with white space.
  ghost predicate Tight(s: string) { s != "" && !IsSpace(s[0]) && !IsSpace(s[|s| - 1]) }

  lemma {:induction false} StripLeftLaw(pre: string, s: string)
    requires AllSpace(pre) && (s != "" ==> !IsSpace(s[0]))
    ensures StripLeft(pre + s) == s
  {
    if pre == "" {
      assert pre + s == s;
    } else {
      assert (pre + s)[1..] == pre[1..] + s;
      StripLeftLaw(pre[1..], s);
    }
  }

  lemma {:induction false} StripRightLaw(s: string, post: string)
    requires AllSpace(post) && (s != "" ==> !IsSpace(s[|s| - 1]))
    ensures StripRight(s + post) == s
  {
    if post == "" {
      assert s + post == s;
    } else {
      var n := |post| - 1;
      assert (s + post)[..|s| + n] == s + post[..n];
      StripRightLaw(s, post[..n]);
    }
  }

  /** Stripping takes the white space off both ends and nothing else. */
  lemma StripLaw(pre: string, s: string, post: string)
    requires AllSpace(pre) && AllSpace(post) && (s == "" || Tight(s))
    ensures Strip(pre + s + post) == s
  {
    if s == "" {
      assert pre + s + post == pre + post + "";
      StripLeftLaw(pre + post, "");
    } else {
      assert pre + s + post == pre + (s + post);
      StripLeftLaw(pre, s + post);
      StripRightLaw(s, post);
    }
  }

  lemma {:induction false} Stripped(s: string) returns (pre: string, post: string)
    ensures AllSpace(pre) && AllSpace(post) && s == pre + Strip(s) + post
    ensures Strip(s) == "" || Tight(Strip(s))
  {
    var left := StripLeft(s);
    pre := LeftPart(s);
    post := RightPart(left);
    assert s == pre + (Strip(s) + post);
  }

  lemma {:induction false} LeftPart(s: string) returns (pre: string)
    ensures AllSpace(pre) && s == pre + StripLeft(s)
    ensures StripLeft(s) != "" ==> !IsSpace(StripLeft(s)[0])
  {
    pre := "";
    if s != "" && IsSpace(s[0]) {
      var rest := LeftPart(s[1..]);
      pre := [s[0]] + rest;
      assert s == [s[0]] + s[1..];
    }
  }

  lemma {:induction false} RightPart(s: string) returns (post: string)
    requires s != "" ==> !IsSpace(s[0])
    ensures AllSpace(post) && s == StripRight(s) + post
    ensures StripRight(s) == "" || Tight(StripRight(s))
  {
    post := "";
    if s != "" && IsSpace(s[|s| - 1]) {
      var n := |s| - 1;
      var rest := RightPart(s[..n]);
      post := rest + [s[n]];
      assert s == s[..n] + [s[n]];
    }
  }

  lemma BlankIff(s: string)
    ensures Strip(s) == "" <==> AllSpace(s)
  {
    var pre, post := Stripped(s);
    if Strip(s) == "" {
      assert s == pre + post;
    } else {
      assert s[|pre|] == Strip(s)[0];
    }
  }

  /** A scalar is read from any text that spells it, whatever white space is around it. */
  lemma ScalarLaw(pre: string, t: string, post: string, v: Scalar)
    requires AllSpace(pre) && AllSpace(post) && (t == "" || Tight(t))
    ensures ScalarOf(pre + t + post) == v <==> Spelling(t, v)
  {
    hide ScalarText, Spelling;
    StripLaw(pre, t, post);
    ReadingLaw(t, v);
  }

  // ---- comments -----------------------------------------------------------------------

  // White space that begins at i and runs up to '#'.
  ghost predicate CommentAt(s: string, i: nat)
  {
    exists j :: i < j < |s| && s[j] == '#' && AllSpace(s[i..j])
  }

  lemma {:induction false} HashAheadIff(s: string, i: nat)
    requires i <= |s|
    ensures HashAhead(s, i) <==> exists j :: i <= j < |s| && s[j] == '#' && AllSpace(s[i..j])
    decreases |s| - i
  {
    if i < |s| {
      HashAheadIff(s, i + 1);
      if s[i] == '#' {
        assert AllSpace(s[i..i]);
      }
      forall j | i < j < |s| ensures AllSpace(s[i..j]) <==> IsSpace(s[i]) && AllSpace(s[i + 1..j]) {
        assert s[i..j] == [s[i]] + s[i + 1..j];
      }
    }
  }

  lemma CommentAtIff(s: string, i: nat)
    requires i < |s|
    ensures CommentAt(s, i) <==> IsSpace(s[i]) && HashAhead(s, i + 1)
  {
    HashAheadIff(s, i + 1);
    forall j | i < j < |s| ensures AllSpace(s[i..j]) <==> IsSpace(s[i]) && AllSpace(s[i + 1..j]) {
      assert s[i..j] == [s[i]] + s[i + 1..j];
    }
  }

  lemma {:induction false} CommentFromLaw(s: string, i: nat)
    requires i <= |s|
    ensures var n := CommentFrom(s, i);
            && (n < |s| ==> CommentAt(s, n)) && (forall k: nat :: i <= k < n ==> !CommentAt(s, k))
    decreases |s| - i
  {
    hide CommentAt, HashAhead;
    if i < |s| {
      CommentAtIff(s, i);
      CommentFromLaw(s, i + 1);
    }
  }

  // The first thing on the line that is not white space is '#'.
  ghost predicate CommentLine(line: string)
  {
    exists i :: 0 <= i < |line| && line[i] == '#' && AllSpace(line[..i])
  }

  lemma CommentLineIff(line: string)
    ensures CommentLine(line) <==> StripLeft(line) != "" && StripLeft(line)[0] == '#'
  {
    var pre := LeftPart(line);
    if StripLeft(line) != "" && StripLeft(line)[0] == '#' {
      assert line[|pre|] == '#' && line[..|pre|] == pre;
    }
    if CommentLine(line) {
      var i :| 0 <= i < |line| && line[i] == '#' && AllSpace(line[..i]);
      assert line == line[..i] + line[i..];
      StripLeftLaw(line[..i], line[i..]);
    }
  }

  /** A comment line is empty; any other line loses what follows the first white space that
      runs up to '#'. */
  lemma BodyLaw(line: string)
    ensures CommentLine(line) ==> Body(line) == ""
    ensures !CommentLine(line) ==>
              && Body(line) <= line
              && (Body(line) == line || CommentAt(line, |Body(line)|))
              && forall k: nat :: k < |Body(line)| ==> !CommentAt(line, k)
  {
    hide CommentAt, CommentLine, StripLeft, CommentFrom;
    CommentLineIff(line);
    CommentFromLaw(line, 0);
    assert line[..|line|] == line;
  }

  // ---- lines --------------------------------------------------------------------------

  // Spaces only, and then a tab.
  ghost predicate TabIndented(s: string)
  {
    exists n :: 0 <= n < |s| && s[n] == '\t' && forall i :: 0 <= i < n ==> s[i] == ' '
  }

  lemma {:induction false} IndentLaw(s: string)
    ensures var n := Indent(s); (forall i :: 0 <= i < n ==> s[i] == ' ') && (n < |s| ==> s[n] != ' ')
  {
    if s != "" && s[0] == ' ' {
      IndentLaw(s[1..]);
    }
  }

  lemma TabIff(s: string)
    ensures var n := Indent(s); '\t' in s[..if n < |s| then n + 1 else n] <==> TabIndented(s)
  {
    hide Indent;
    var n := Indent(s);
    IndentLaw(s);
    TabAtIndent(s, n);
    if n < |s| {
      assert s[..n + 1] == s[..n] + [s[n]];
    }
    assert forall i :: 0 <= i < n ==> s[..n][i] == ' ';
  }

  lemma TabAtIndent(s: string, n: nat)
    requires n <= |s| && (forall i :: 0 <= i < n ==> s[i] == ' ') && (n < |s| ==> s[n] != ' ')
    ensures TabIndented(s) <==> n < |s| && s[n] == '\t'
  {
    if TabIndented(s) {
      var m :| 0 <= m < |s| && s[m] == '\t' && forall i :: 0 <= i < m ==> s[i] == ' ';
      assert !(n < m) && !(m < n);
    }
  }

  lemma {:induction false} ColonLaw(s: string)
    ensures var n := ColonAt(s); ':' !in s[..n] && (n < |s| ==> s[n] == ':')
  {
    if s != "" && s[0] != ':' {
      ColonLaw(s[1..]);
      assert s[..ColonAt(s)] == [s[0]] + s[1..][..ColonAt(s[1..])];
    }
  }

  lemma ColonMissing(s: string)
    ensures ColonAt(s) == |s| <==> ':' !in s
    ensures ColonAt(s) == 0 <==> s == "" || s[0] == ':'
  {
    ColonLaw(s);
    assert s[..|s|] == s;
  }

  // A key without a colon, and the rest after it.
  ghost predicate PairOf(text: string, key: string, rest: string)
  {
    key != "" && ':' !in key && text == key + ":" + rest
  }

  /** What a line is read as, comments aside: blank if only white space is left, refused for a
      tab after its leading spaces, refused without a colon or with nothing before it, and
      otherwise the pair around its first colon, indented if it begins with a space. */
  lemma ReadLaw(line: string)
    ensures var (r, body, text) := (Read(line), Body(line), Strip(Body(line)));
            && (r == Blank <==> AllSpace(body))
            && (r == Bad(Tabs) <==> !AllSpace(body) && TabIndented(body))
            && (r == Bad(NoPair) <==> !AllSpace(body) && !TabIndented(body) && (':' !in text || text[0] == ':'))
            && (r.Pair? ==> PairOf(text, r.key, r.rest) && body != "" && (r.indented <==> body[0] == ' '))
            && r != Bad(BadIndent)
  {
    var (body, text) := (Body(line), Strip(Body(line)));
    BlankIff(body);
    TabIff(body);
    ColonMissing(text);
    ColonLaw(text);
    IndentLaw(body);
    hide Strip, Body, TabIndented, Indent, ColonAt, IsSpace;
    if ColonAt(text) < |text| {
      assert text == text[..ColonAt(text)] + ":" + text[ColonAt(text) + 1..];
    }
  }

  // ---- line ends ----------------------------------------------------------------------

  ghost predicate Unbroken(s: string) { forall i :: 0 <= i < |s| ==> !IsBreak(s[i]) }

  // What ends a line in front of `rest`: a carriage return takes a line feed with it.
  predicate LineEnd(end: string, rest: string)
  {
    || end == "\r\n"
    || end in ["\n", "\U{0B}", "\U{0C}", "\U{1C}", "\U{1D}", "\U{1E}", "\U{85}", "\U{2028}", "\U{2029}"]
    || (end == "\r" && !("\n" <= rest))
  }

  /** Every line end ends exactly one line. */
  lemma {:induction false} LineTaken(line: string, end: string, begun: string, rest: string)
    requires Unbroken(line) && LineEnd(end, rest)
    ensures LinesFrom(line + end + rest, begun) == [begun + line] + LinesFrom(rest, "")
    decreases |line|
  {
    var text := line + end + rest;
    if line == "" {
      assert begun + line == begun && text == end + rest && text[0] == end[0] && text[|end|..] == rest;
    } else {
      assert text[0] == line[0] && text[1..] == line[1..] + end + rest;
      LineTaken(line[1..], end, begun + [line[0]], rest);
      assert begun + [line[0]] + line[1..] == begun + line;
    }
  }

  lemma {:induction false} LastLineTaken(line: string, begun: string)
    requires Unbroken(line)
    ensures LinesFrom(line, begun) == if begun + line == "" then [] else [begun + line]
    decreases |line|
  {
    if line == "" {
      assert begun + line == begun;
    } else {
      LastLineTaken(line[1..], begun + [line[0]]);
      assert begun + [line[0]] + line[1..] == begun + line;
    }
  }

  /** Splitting takes a text apart at its first line end; a text without one is one line, or
      none if it is empty. */
  lemma SplitLaw(line: string, end: string, rest: string)
    requires Unbroken(line)
    ensures LineEnd(end, rest) ==> SplitLines(line + end + rest) == [line] + SplitLines(rest)
    ensures SplitLines(line) == if line == "" then [] else [line]
  {
    assert "" + line == line;
    if LineEnd(end, rest) {
      LineTaken(line, end, "", rest);
    }
    LastLineTaken(line, "");
  }

  // ---- documents ----------------------------------------------------------------------

  /** What one pair does to the document: a value or an empty section under a top-level key, a
      value in the open section under an indented one; nothing else changes, and only an
      empty top-level pair leaves a section open. */
  lemma ApplyLaw(p: Progress, indented: bool, key: string, rest: string)
    requires Anchored(p)
    ensures var r := Apply(p, Pair(indented, key, rest));
            && (r.Err? <==> indented && p.current.None?)
            && (r.Err? ==> r.error == BadIndent)
            && (r.Ok? && !indented ==>
                  && (forall k :: k != key ==> (k in r.value.root <==> k in p.root))
                  && (forall k :: k in p.root && k != key ==> r.value.root[k] == p.root[k])
                  && key in r.value.root
                  && if AllSpace(rest) then r.value.root[key] == Section(map[]) && r.value.current == Some(key)
                     else r.value.root[key] == Leaf(ScalarOf(rest)) && r.value.current == None)
            && (r.Ok? && indented ==>
                  && r.value.current == p.current
                  && var name := p.current.value;
                     r.value.root == p.root[name := Section(p.root[name].entries[key := ScalarOf(rest)])])
  {
    BlankIff(rest);
  }

  /** An error names the first line that is refused, counting from one, and its problem. */
  lemma {:induction false} ErrorLaw(lines: seq<string>)
    requires ParseLines(lines).Err?
    ensures var e := ParseLines(lines).error;
            && 1 <= e.line <= |lines|
            && ParseLines(lines[..e.line - 1]).Ok?
            && Apply(ParseLines(lines[..e.line - 1]).value, Read(lines[e.line - 1])) == Err(e.problem)
  {
    hide Apply, Read;
    var n := |lines| - 1;
    if ParseLines(lines[..n]).Err? {
      ErrorLaw(lines[..n]);
      var e := ParseLines(lines).error;
      assert lines[..n][..e.line - 1] == lines[..e.line - 1];
    }
  }
}
