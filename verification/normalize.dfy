/**
 * `cleanText`: the fixed chain of global rewrites applied to the OCR text
 * before chunking, each pass written as a left-to-right scanner that
 * behaves like the JavaScript `replace` with a global regular expression.
 *
 *   1. `\r\n` becomes `\n`;
 *   2. a page-marker line `— 42 —` becomes the tag `[[PAGE:42]]`;
 *   3. every run of spaces and tabs becomes one space;
 *   4. a standalone `k` becomes `à` (OCR fix);
 *   5. `(\w)'(\w)` is rewritten to itself;
 *   6. every run of three or more newlines becomes two;
 *   7. the result is trimmed.
 */
module Normalize {
  import opened Strings
  import opened Types
  import opened PageTags

  const EmDash: char := '\U{2014}'
  const Agrave: char := '\U{00E0}'

  /** No tab character. */
  predicate NoTab(s: string) {
    forall i :: 0 <= i < |s| ==> s[i] != '\t'
  }

  /** No two adjacent spaces. */
  predicate NoDoubleSpace(s: string) {
    forall i :: 0 <= i < |s| - 1 ==> !(s[i] == ' ' && s[i + 1] == ' ')
  }

  /** No run of three newlines. */
  predicate NoTripleNewline(s: string) {
    forall i :: 0 <= i < |s| - 2 ==> !(s[i] == '\n' && s[i + 1] == '\n' && s[i + 2] == '\n')
  }

  /** The three shape properties survive taking a piece of the text. */
  lemma ShapeSlice(s: string, lo: nat, hi: nat)
    requires lo <= hi <= |s|
    ensures NoTab(s) ==> NoTab(s[lo..hi])
    ensures NoDoubleSpace(s) ==> NoDoubleSpace(s[lo..hi])
    ensures NoTripleNewline(s) ==> NoTripleNewline(s[lo..hi])
  {
    var t := s[lo..hi];
    forall i | 0 <= i < |t|
      ensures t[i] == s[lo + i]
    {
    }
  }

  // ---------------------------------------------------------------------
  // 1. text.replace(/\r\n/g, '\n')

  function CrlfToLf(s: string): string
  {
    if |s| >= 2 && s[0] == '\r' && s[1] == '\n' then "\n" + CrlfToLf(s[2..])
    else if s == [] then ""
    else [s[0]] + CrlfToLf(s[1..])
  }

  /** Writing every line ending as `\r\n`: the Windows form of a text. */
  function LfToCrlf(s: string): (r: string)
    ensures |r| >= |s|
  {
    if s == [] then ""
    else if s[0] == '\n' then "\r\n" + LfToCrlf(s[1..])
    else [s[0]] + LfToCrlf(s[1..])
  }

  /** Normalising the Windows form of a text without `\r` gives the text back. */
  lemma {:induction false} CrlfRoundTrip(s: string)
    requires '\r' !in s
    ensures CrlfToLf(LfToCrlf(s)) == s
  {
    if s != [] {
      assert '\r' !in s[1..] by {
        forall i | 0 <= i < |s[1..]| ensures s[1..][i] != '\r' {
          assert s[1..][i] == s[i + 1];
        }
      }
      CrlfRoundTrip(s[1..]);
      var w := LfToCrlf(s);
      if s[0] == '\n' {
        assert w[2..] == LfToCrlf(s[1..]);
      } else {
        assert w[1..] == LfToCrlf(s[1..]);
        assert s == [s[0]] + s[1..];
      }
    }
  }

  // ---------------------------------------------------------------------
  // 2. text.replace(/^—\s*(\d+)\s*—\s*$/gm, '[[PAGE:$1]]'), line by line

  /** `line` is `—`, spaces, the digits `ds`, spaces, `—`, spaces. */
  predicate MarkerShape(line: string, ws1: string, ds: string, ws2: string, ws3: string) {
    && AllSpace(ws1) && AllSpace(ws2) && AllSpace(ws3)
    && |ds| > 0 && AllDigits(ds)
    && line == [EmDash] + ws1 + ds + ws2 + [EmDash] + ws3
  }

  /**
   * The digits of a page-marker line. `\d` and `—` are not whitespace, so
   * each `\s*` takes the whole run of spaces in front of it and `\d+` the
   * whole run of digits: the match needs no backtracking.
   */
  function MarkerDigits(line: string): Option<string>
  {
    if line == [] || line[0] != EmDash then None
    else DigitsAfterDash(line[1..])
  }

  /** `\s*(\d+)\s*—\s*$` on the text after the opening dash. */
  function DigitsAfterDash(r: string): Option<string>
  {
    var a := LeadingSpaces(r);
    var k := DigitRun(r, a);
    if k > 0 && ClosingDash(r[a + k..]) then Some(r[a..a + k]) else None
  }

  /** `\s*—\s*$`. */
  predicate ClosingDash(rest: string)
  {
    var b := LeadingSpaces(rest);
    b < |rest| && rest[b] == EmDash && AllSpace(rest[b + 1..])
  }

  /** Spaces in front of a non-space: the leading run is exactly those spaces. */
  lemma LeadingSpacesConcat(w: string, t: string)
    requires AllSpace(w) && (t == [] || !IsSpace(t[0]))
    ensures LeadingSpaces(w + t) == |w|
  {
    var s := w + t;
    assert s[..|w|] == w;
    LeadingSpacesAt(s, |w|);
  }

  /** Digits in front of a non-digit: the digit run is exactly those digits. */
  lemma DigitRunConcat(w: string, d: string, t: string)
    requires AllDigits(d) && (t == [] || !IsDigit(t[0]))
    ensures DigitRun(w + d + t, |w|) == |d|
  {
    var s := w + d + t;
    forall m | |w| <= m < |w| + |d| ensures IsDigit(s[m]) {
      assert s[m] == d[m - |w|];
    }
    assert |w| + |d| < |s| ==> s[|w| + |d|] == t[0];
    DigitRunAt(s, |w|, |d|);
  }

  /** Every line of the marker shape is recognised, with its digits. */
  lemma MarkerComplete(ws1: string, ds: string, ws2: string, ws3: string)
    requires MarkerShape([EmDash] + ws1 + ds + ws2 + [EmDash] + ws3, ws1, ds, ws2, ws3)
    ensures MarkerDigits([EmDash] + ws1 + ds + ws2 + [EmDash] + ws3) == Some(ds)
  {
    var line := [EmDash] + ws1 + ds + ws2 + [EmDash] + ws3;
    var rest := ws2 + [EmDash] + ws3;
    assert line[1..] == ws1 + ds + rest;
    ClosingDashOf(ws2, ws3);
    DigitsAfterDashOf(ws1, ds, rest);
  }

  lemma ClosingDashOf(ws2: string, ws3: string)
    requires AllSpace(ws2) && AllSpace(ws3)
    ensures ClosingDash(ws2 + [EmDash] + ws3)
    ensures IsSpace((ws2 + [EmDash] + ws3)[0]) || (ws2 + [EmDash] + ws3)[0] == EmDash
  {
    var rest := ws2 + [EmDash] + ws3;
    assert rest == ws2 + ([EmDash] + ws3);
    LeadingSpacesConcat(ws2, [EmDash] + ws3);
    assert rest[|ws2|] == EmDash;
    assert rest[|ws2| + 1..] == ws3;
  }

  lemma DigitsAfterDashOf(ws1: string, ds: string, rest: string)
    requires AllSpace(ws1) && |ds| > 0 && AllDigits(ds) && ClosingDash(rest)
    requires IsSpace(rest[0]) || rest[0] == EmDash
    ensures DigitsAfterDash(ws1 + ds + rest) == Some(ds)
  {
    var r := ws1 + ds + rest;
    assert r == ws1 + (ds + rest);
    assert (ds + rest)[0] == ds[0];
    LeadingSpacesConcat(ws1, ds + rest);
    DigitRunConcat(ws1, ds, rest);
    assert r[|ws1| + |ds|..] == rest;
    assert r[|ws1|..|ws1| + |ds|] == ds;
  }

  /** A line cut at the positions `MarkerDigits` reads is the concatenation of its pieces. */
  lemma MarkerPieces(line: string, r: string, a: nat, k: nat, rest: string, b: nat)
    requires |line| > 0 && line[0] == EmDash && r == line[1..]
    requires a + k <= |r| && rest == r[a + k..] && b < |rest| && rest[b] == EmDash
    ensures line == [EmDash] + r[..a] + r[a..a + k] + rest[..b] + [EmDash] + rest[b + 1..]
  {
    assert rest == rest[..b] + [EmDash] + rest[b + 1..];
    assert r == r[..a] + r[a..a + k] + rest;
    assert line == [EmDash] + r;
  }

  /** The digit run, read off as a string, is all digits. */
  lemma DigitRunDigits(r: string, a: nat)
    requires a <= |r|
    ensures AllDigits(r[a..a + DigitRun(r, a)])
  {
    var ds := r[a..a + DigitRun(r, a)];
    forall m | 0 <= m < |ds| ensures IsDigit(ds[m]) {
      assert ds[m] == r[a + m];
    }
  }

  /** Where `MarkerDigits` cuts a line it accepts, and what it checked about each piece. */
  lemma MarkerRead(line: string) returns (r: string, a: nat, k: nat, rest: string, b: nat)
    requires MarkerDigits(line).Some?
    ensures |line| > 0 && line[0] == EmDash && r == line[1..]
    ensures a + k <= |r| && k > 0 && rest == r[a + k..] && b < |rest| && rest[b] == EmDash
    ensures AllSpace(r[..a]) && AllDigits(r[a..a + k]) && AllSpace(rest[..b]) && AllSpace(rest[b + 1..])
    ensures MarkerDigits(line).value == r[a..a + k]
  {
    r := line[1..];
    a, k, rest := DigitsRead(r);
    b := ClosingRead(rest);
  }

  lemma DigitsRead(r: string) returns (a: nat, k: nat, rest: string)
    requires DigitsAfterDash(r).Some?
    ensures a + k <= |r| && k > 0 && rest == r[a + k..] && ClosingDash(rest)
    ensures AllSpace(r[..a]) && AllDigits(r[a..a + k])
    ensures DigitsAfterDash(r).value == r[a..a + k]
  {
    a := LeadingSpaces(r);
    k := DigitRun(r, a);
    rest := r[a + k..];
    DigitRunDigits(r, a);
  }

  lemma ClosingRead(rest: string) returns (b: nat)
    requires ClosingDash(rest)
    ensures b < |rest| && rest[b] == EmDash && AllSpace(rest[..b]) && AllSpace(rest[b + 1..])
  {
    b := LeadingSpaces(rest);
  }

  /** The pieces `MarkerDigits` reads off an accepted line have the marker shape. */
  lemma MarkerAccepted(line: string) returns (ws1: string, ws2: string, ws3: string)
    requires MarkerDigits(line).Some?
    ensures MarkerShape(line, ws1, MarkerDigits(line).value, ws2, ws3)
  {
    var r, a, k, rest, b := MarkerRead(line);
    MarkerPieces(line, r, a, k, rest, b);
    ws1, ws2, ws3 := r[..a], rest[..b], rest[b + 1..];
  }

  /** Only lines of the marker shape are recognised. */
  lemma MarkerSound(line: string)
    ensures MarkerDigits(line).Some? ==>
      exists ws1, ws2, ws3 :: MarkerShape(line, ws1, MarkerDigits(line).value, ws2, ws3)
  {
    if MarkerDigits(line).Some? {
      var ws1, ws2, ws3 := MarkerAccepted(line);
    }
  }

  /** A page-marker line becomes its tag; every other line is kept. */
  function MarkLine(line: string): (r: string)
  {
    match MarkerDigits(line)
    case Some(ds) => TagOpen + ds + "]]"
    case None => line
  }

  /** The tag written for a marker line is found again, with the marker's number. */
  lemma MarkLineTag(line: string)
    requires MarkerDigits(line).Some?
    ensures FindPageTag(MarkLine(line)) == Some(ParseDecimal(MarkerDigits(line).value))
  {
    MarkerSound(line);
    var ds := MarkerDigits(line).value;
    var t := MarkLine(line);
    assert t == TagOpen + ds + "]]";
    assert t[..7] == TagOpen;
    forall m | 7 <= m < 7 + |ds| ensures IsDigit(t[m]) {
      assert t[m] == ds[m - 7];
    }
    DigitRunAt(t, 7, |ds|);
    assert TagAt(t, 0);
    assert t[7..7 + |ds|] == ds;
  }

  /** `MarkLine` applied to every line. */
  function MarkLines(ls: seq<string>): (r: seq<string>)
    ensures |r| == |ls|
    ensures forall i :: 0 <= i < |ls| ==> r[i] == MarkLine(ls[i])
  {
    if ls == [] then [] else [MarkLine(ls[0])] + MarkLines(ls[1..])
  }

  function MarkPages(s: string): string
  {
    Join(MarkLines(Split(s, '\n')), "\n")
  }

  /** Marking keeps the lines apart: the lines of the result are the marked lines. */
  lemma MarkPagesLines(s: string)
    ensures Split(MarkPages(s), '\n') == MarkLines(Split(s, '\n'))
  {
    var ls := Split(s, '\n');
    var ms := MarkLines(ls);
    forall i | 0 <= i < |ms| ensures '\n' !in ms[i] {
      MarkLineNoNewline(ls[i]);
    }
    SplitJoin(ms, '\n');
  }

  /** Marking a line adds no newline to it. */
  lemma MarkLineNoNewline(line: string)
    requires '\n' !in line
    ensures '\n' !in MarkLine(line)
  {
    match MarkerDigits(line)
    case None =>
    case Some(ds) =>
      MarkerSound(line);
      TagTextNoNewline(ds);
  }

  lemma TagTextNoNewline(ds: string)
    requires AllDigits(ds)
    ensures '\n' !in TagOpen + ds + "]]"
  {
    var t := TagOpen + ds + "]]";
    forall m | 0 <= m < |t| ensures t[m] != '\n' {
      if 7 <= m < 7 + |ds| {
        assert t[m] == ds[m - 7];
      }
    }
  }

  // ---------------------------------------------------------------------
  // 3. text.replace(/[ \t]+/g, ' ')

  predicate IsBlank(c: char) {
    c == ' ' || c == '\t'
  }

  /** Length of the run of spaces and tabs that starts `s`. */
  function BlankRun(s: string): (n: nat)
    ensures n <= |s|
    ensures forall i :: 0 <= i < n ==> IsBlank(s[i])
    ensures n < |s| ==> !IsBlank(s[n])
  {
    if s != [] && IsBlank(s[0]) then 1 + BlankRun(s[1..]) else 0
  }

  function CollapseBlanks(s: string): (r: string)
    ensures NoTab(r) && NoDoubleSpace(r)
    ensures r == [] <==> s == []
    ensures r != [] ==> (r[0] == ' ' <==> IsBlank(s[0]))
  {
    if s == [] then ""
    else if IsBlank(s[0]) then " " + CollapseBlanks(s[BlankRun(s)..])
    else [s[0]] + CollapseBlanks(s[1..])
  }

  /** `s` without its spaces and tabs. */
  function Unblanked(s: string): string
  {
    if s == [] then ""
    else if IsBlank(s[0]) then Unblanked(s[1..])
    else [s[0]] + Unblanked(s[1..])
  }

  lemma {:induction false} UnblankedBlankRun(s: string, n: nat)
    requires n <= |s| && forall i :: 0 <= i < n ==> IsBlank(s[i])
    ensures Unblanked(s) == Unblanked(s[n..])
  {
    if n > 0 {
      UnblankedBlankRun(s[1..], n - 1);
      assert s[1..][n - 1..] == s[n..];
    }
  }

  /** Collapsing only touches spaces and tabs: every other character stays, in order. */
  lemma {:induction false} CollapseBlanksKeepsText(s: string)
    ensures Unblanked(CollapseBlanks(s)) == Unblanked(s)
  {
    if s != [] {
      if IsBlank(s[0]) {
        var n := BlankRun(s);
        CollapseBlanksKeepsText(s[n..]);
        UnblankedBlankRun(s, n);
        assert (" " + CollapseBlanks(s[n..]))[1..] == CollapseBlanks(s[n..]);
      } else {
        CollapseBlanksKeepsText(s[1..]);
        assert ([s[0]] + CollapseBlanks(s[1..]))[1..] == CollapseBlanks(s[1..]);
      }
    }
  }

  /** A text already without tabs and double spaces is left unchanged. */
  lemma {:induction false} CollapseBlanksFixed(s: string)
    requires NoTab(s) && NoDoubleSpace(s)
    ensures CollapseBlanks(s) == s
  {
    if s != [] {
      ShapeSlice(s, 1, |s|);
      CollapseBlanksFixed(s[1..]);
      if IsBlank(s[0]) {
        assert s[0] == ' ';
        assert |s| > 1 ==> s[1] != ' ' && s[1] != '\t';
        assert BlankRun(s) == 1;
      }
      assert s == [s[0]] + s[1..];
    }
  }

  // ---------------------------------------------------------------------
  // 4. text.replace(/\bk\b/g, 'à')

  /** `k` at index `i` stands alone between `\b` boundaries. */
  predicate Standalone(s: string, i: nat)
    requires i < |s|
  {
    && s[i] == 'k'
    && (i == 0 || !IsWordChar(s[i - 1]))
    && (i + 1 == |s| || !IsWordChar(s[i + 1]))
  }

  /**
   * The left-to-right scan of the replacement. `prevWord` says whether the
   * character before `s` (in the original text) is a word character.
   */
  function FixKScan(s: string, prevWord: bool): (r: string)
    ensures |r| == |s|
  {
    if s == [] then ""
    else
      var hit := s[0] == 'k' && !prevWord && (|s| == 1 || !IsWordChar(s[1]));
      [if hit then Agrave else s[0]] + FixKScan(s[1..], IsWordChar(s[0]))
  }

  function FixK(s: string): string
  {
    FixKScan(s, false)
  }

  lemma {:induction false} FixKScanAt(s: string, lo: nat, i: nat)
    requires lo <= i < |s|
    ensures FixKScan(s[lo..], lo > 0 && IsWordChar(s[lo - 1]))[i - lo] ==
            if Standalone(s, i) then Agrave else s[i]
    decreases i - lo
  {
    if lo < i {
      assert s[lo..][1..] == s[lo + 1..];
      FixKScanAt(s, lo + 1, i);
    } else {
      assert |s[lo..]| > 1 ==> s[lo..][1] == s[i + 1];
    }
  }

  /** Exactly the standalone `k`s become `à`; every other character stays. */
  lemma FixKSpec(s: string)
    ensures |FixK(s)| == |s|
    ensures forall i :: 0 <= i < |s| ==> FixK(s)[i] == if Standalone(s, i) then Agrave else s[i]
  {
    forall i | 0 <= i < |s|
      ensures FixK(s)[i] == if Standalone(s, i) then Agrave else s[i]
    {
      FixKScanAt(s, 0, i);
      assert s[0..] == s;
    }
  }

  /** The OCR fix keeps the shape the blank pass established. */
  lemma FixKKeepsShape(s: string)
    ensures NoTab(s) ==> NoTab(FixK(s))
    ensures NoDoubleSpace(s) ==> NoDoubleSpace(FixK(s))
    ensures forall i :: 0 <= i < |s| ==> (FixK(s)[i] == '\n' <==> s[i] == '\n')
  {
    FixKSpec(s);
  }

  // ---------------------------------------------------------------------
  // 5. text.replace(/(\w)'(\w)/g, "$1'$2")

  /** The scan of the apostrophe rewrite: each match is replaced by its own groups. */
  function RewriteApostrophes(s: string): string
  {
    if |s| >= 3 && IsWordChar(s[0]) && s[1] == '\'' && IsWordChar(s[2]) then
      [s[0], '\'', s[2]] + RewriteApostrophes(s[3..])
    else if s == [] then ""
    else [s[0]] + RewriteApostrophes(s[1..])
  }

  /** The replacement rebuilds exactly what it matched: the pass changes nothing. */
  lemma {:induction false} RewriteApostrophesIdentity(s: string)
    ensures RewriteApostrophes(s) == s
  {
    if |s| >= 3 && IsWordChar(s[0]) && s[1] == '\'' && IsWordChar(s[2]) {
      RewriteApostrophesIdentity(s[3..]);
      assert s == [s[0], s[1], s[2]] + s[3..];
    } else if s != [] {
      RewriteApostrophesIdentity(s[1..]);
      assert s == [s[0]] + s[1..];
    }
  }

  // ---------------------------------------------------------------------
  // 6. text.replace(/\n{3,}/g, '\n\n')

  /** Length of the run of newlines that starts `s`. */
  function NewlineRun(s: string): (n: nat)
    ensures n <= |s|
    ensures forall i :: 0 <= i < n ==> s[i] == '\n'
    ensures n < |s| ==> s[n] != '\n'
  {
    if s != [] && s[0] == '\n' then 1 + NewlineRun(s[1..]) else 0
  }

  function CollapseNewlines(s: string): (r: string)
    ensures r == [] <==> s == []
    ensures r != [] ==> r[0] == s[0]
  {
    if s == [] then ""
    else if s[0] == '\n' then
      var k := NewlineRun(s);
      (if k >= 3 then "\n\n" else s[..k]) + CollapseNewlines(s[k..])
    else
      [s[0]] + CollapseNewlines(s[1..])
  }

  /**
   * A piece glued in front of a text without three newlines in a row: a
   * character other than a newline, or at most two newlines before a
   * character other than a newline.
   */
  lemma GlueShape(seg: string, rest: string)
    requires NoTripleNewline(rest) && 0 < |seg|
    requires (|seg| == 1 && seg[0] != '\n')
          || (|seg| <= 2 && (forall i :: 0 <= i < |seg| ==> seg[i] == '\n') && (rest == [] || rest[0] != '\n'))
    ensures NoTripleNewline(seg + rest)
    ensures NoTab(seg) && NoTab(rest) ==> NoTab(seg + rest)
    ensures NoDoubleSpace(seg) && NoDoubleSpace(rest) && (rest == [] || seg[|seg| - 1] != ' ' || rest[0] != ' ')
        ==> NoDoubleSpace(seg + rest)
  {
    var t := seg + rest;
    forall i | 0 <= i < |rest| ensures t[|seg| + i] == rest[i] {}
  }

  /** What `CollapseNewlinesShape` states about one text. */
  predicate CollapsedShape(s: string, r: string) {
    && NoTripleNewline(r)
    && (NoTab(s) ==> NoTab(r))
    && (NoDoubleSpace(s) ==> NoDoubleSpace(r))
  }

  /** The result has no run of three newlines, and adds no tab and no double space. */
  lemma {:induction false} CollapseNewlinesShape(s: string)
    ensures NoTripleNewline(CollapseNewlines(s))
    ensures NoTab(s) ==> NoTab(CollapseNewlines(s))
    ensures NoDoubleSpace(s) ==> NoDoubleSpace(CollapseNewlines(s))
    decreases |s|
  {
    if s != [] {
      if s[0] == '\n' {
        var k := NewlineRun(s);
        CollapseNewlinesShape(s[k..]);
        NewlineRunShape(s, k);
      } else {
        CollapseNewlinesShape(s[1..]);
        CharShape(s);
      }
    }
  }

  lemma NewlineRunShape(s: string, k: nat)
    requires s != [] && s[0] == '\n' && k == NewlineRun(s)
    requires CollapsedShape(s[k..], CollapseNewlines(s[k..]))
    ensures CollapsedShape(s, CollapseNewlines(s))
  {
    var seg := NewlineSegment(s, k);
    ShapeSlice(s, k, |s|);
    GlueShape(seg, CollapseNewlines(s[k..]));
  }

  /** The newlines a leading run of `k` newlines is rewritten to. */
  lemma NewlineSegment(s: string, k: nat) returns (seg: string)
    requires s != [] && s[0] == '\n' && k == NewlineRun(s)
    ensures CollapseNewlines(s) == seg + CollapseNewlines(s[k..])
    ensures 0 < |seg| <= 2 && forall i :: 0 <= i < |seg| ==> seg[i] == '\n'
    ensures NoTab(seg) && NoDoubleSpace(seg)
    ensures CollapseNewlines(s[k..]) == [] || CollapseNewlines(s[k..])[0] != '\n'
  {
    seg := if k >= 3 then "\n\n" else s[..k];
  }

  lemma CharShape(s: string)
    requires s != [] && s[0] != '\n'
    requires CollapsedShape(s[1..], CollapseNewlines(s[1..]))
    ensures CollapsedShape(s, CollapseNewlines(s))
  {
    var rest := CollapseNewlines(s[1..]);
    assert CollapseNewlines(s) == [s[0]] + rest;
    ShapeSlice(s, 1, |s|);
    if NoDoubleSpace(s) && rest != [] {
      assert rest[0] == s[1];
      assert !(s[0] == ' ' && s[1] == ' ');
    }
    GlueShape([s[0]], rest);
  }

  /** `s` without its newlines. */
  function Unbroken(s: string): string
  {
    if s == [] then ""
    else if s[0] == '\n' then Unbroken(s[1..])
    else [s[0]] + Unbroken(s[1..])
  }

  lemma {:induction false} UnbrokenAppend(a: string, b: string)
    ensures Unbroken(a + b) == Unbroken(a) + Unbroken(b)
  {
    if a != [] {
      assert (a + b)[1..] == a[1..] + b;
      UnbrokenAppend(a[1..], b);
    } else {
      assert a + b == b;
    }
  }

  lemma {:induction false} UnbrokenNewlines(s: string)
    requires forall i :: 0 <= i < |s| ==> s[i] == '\n'
    ensures Unbroken(s) == ""
  {
    if s != [] {
      UnbrokenNewlines(s[1..]);
    }
  }

  /** Only newlines are removed: every other character stays, in order. */
  lemma {:induction false} CollapseNewlinesKeepsText(s: string)
    ensures Unbroken(CollapseNewlines(s)) == Unbroken(s)
  {
    if s != [] {
      if s[0] == '\n' {
        var k := NewlineRun(s);
        var seg := if k >= 3 then "\n\n" else s[..k];
        CollapseNewlinesKeepsText(s[k..]);
        UnbrokenAppend(seg, CollapseNewlines(s[k..]));
        UnbrokenNewlines(seg);
        UnbrokenAppend(s[..k], s[k..]);
        UnbrokenNewlines(s[..k]);
        assert s == s[..k] + s[k..];
      } else {
        CollapseNewlinesKeepsText(s[1..]);
        assert ([s[0]] + CollapseNewlines(s[1..]))[1..] == CollapseNewlines(s[1..]);
      }
    }
  }

  /** A text without a run of three newlines is left unchanged. */
  lemma {:induction false} CollapseNewlinesFixed(s: string)
    requires NoTripleNewline(s)
    ensures CollapseNewlines(s) == s
  {
    if s != [] {
      if s[0] == '\n' {
        var k := NewlineRun(s);
        assert |s| >= 3 ==> !(s[0] == '\n' && s[1] == '\n' && s[2] == '\n');
        ShapeSlice(s, k, |s|);
        CollapseNewlinesFixed(s[k..]);
        assert s == s[..k] + s[k..];
      } else {
        ShapeSlice(s, 1, |s|);
        CollapseNewlinesFixed(s[1..]);
        assert s == [s[0]] + s[1..];
      }
    }
  }

  // ---------------------------------------------------------------------
  // cleanText

  function CleanText(text: string): string
  {
    Trim(CollapseNewlines(RewriteApostrophes(FixK(CollapseBlanks(MarkPages(CrlfToLf(text)))))))
  }

  /**
   * The cleaned text has no tab, no two adjacent spaces, no run of three
   * newlines, and no whitespace at either end.
   */
  lemma CleanTextShape(text: string)
    ensures NoTab(CleanText(text))
    ensures NoDoubleSpace(CleanText(text))
    ensures NoTripleNewline(CleanText(text))
    ensures IsTrimmed(CleanText(text))
  {
    var b := CollapseBlanks(MarkPages(CrlfToLf(text)));
    var f := FixK(b);
    FixKKeepsShape(b);
    RewriteApostrophesIdentity(f);
    var n := CollapseNewlines(f);
    CollapseNewlinesShape(f);
    var lo := LeadingSpaces(n);
    ShapeSlice(n, lo, lo + |Trim(n)|);
  }
}
