/**
 * `detectStructure`, which classifies one line of the cleaned text as a
 * book heading, a chapter heading, a `§` section heading or ordinary text,
 * and `splitIntoParagraphs`, which cuts a buffer at blank lines.
 *
 * The three anchored patterns are
 *   LIVRE_REGEX    `^LIVRE\s+([IVX]+)`
 *   CHAPITRE_REGEX `^CHAPITRE\s+([IVX]+)`
 *   SECTION_REGEX  `^§\s*(\d+(?:er)?)\.\s*[—-]?\s*(.+)$`
 * and are tried in that order.
 */
module Segment {
  import opened Strings
  import opened Types
  import opened PageTags
  import opened Normalize

  /** What `detectStructure` reports for a line. */
  datatype Structure =
    | Livre(value: string)
    | Chapitre(value: string)
    | Section(value: string, titre: string)
    | NoStructure

  predicate IsRoman(c: char) {
    c == 'I' || c == 'V' || c == 'X'
  }

  predicate AllRoman(s: string) {
    forall i :: 0 <= i < |s| ==> IsRoman(s[i])
  }

  /** Number of consecutive `I`, `V`, `X` in `s` from index `j` on. */
  function RomanRun(s: string, j: nat): (k: nat)
    requires j <= |s|
    ensures j + k <= |s|
    ensures forall m :: j <= m < j + k ==> IsRoman(s[m])
    ensures j + k < |s| ==> !IsRoman(s[j + k])
    decreases |s| - j
  {
    if j < |s| && IsRoman(s[j]) then 1 + RomanRun(s, j + 1) else 0
  }

  lemma {:induction false} RomanRunAt(s: string, j: nat, k: nat)
    requires j + k <= |s|
    requires forall m :: j <= m < j + k ==> IsRoman(s[m])
    requires j + k < |s| ==> !IsRoman(s[j + k])
    ensures RomanRun(s, j) == k
    decreases k
  {
    if k > 0 {
      RomanRunAt(s, j + 1, k - 1);
    }
  }

  // ---------------------------------------------------------------------
  // ^WORD\s+([IVX]+)

  /**
   * The numeral captured by `^word\s+([IVX]+)`. No roman letter is
   * whitespace, so `\s+` takes the whole run of spaces after the word and
   * the greedy `[IVX]+` the whole run of numerals after it. Nothing is
   * required after the numeral.
   */
  function HeadingValue(line: string, word: string): Option<string>
  {
    if |word| <= |line| && line[..|word|] == word then NumeralAfter(line[|word|..]) else None
  }

  /** `\s+([IVX]+)` at the start of the text after the word. */
  function NumeralAfter(r: string): Option<string>
  {
    var a := LeadingSpaces(r);
    var n := RomanRun(r, a);
    if a > 0 && n > 0 then Some(r[a..a + n]) else None
  }

  /** `line` is `word`, at least one space, the numeral `v`, then anything not starting with a numeral letter. */
  predicate HeadingShape(line: string, word: string, ws: string, v: string, tail: string) {
    && |ws| > 0 && AllSpace(ws)
    && |v| > 0 && AllRoman(v)
    && (tail == [] || !IsRoman(tail[0]))
    && line == word + ws + v + tail
  }

  /** Every line of the heading shape is recognised, with its numeral. */
  lemma HeadingComplete(word: string, ws: string, v: string, tail: string)
    requires HeadingShape(word + ws + v + tail, word, ws, v, tail)
    ensures HeadingValue(word + ws + v + tail, word) == Some(v)
  {
    var line := word + ws + v + tail;
    assert line[..|word|] == word;
    assert line[|word|..] == ws + v + tail;
    NumeralAfterOf(ws, v, tail);
  }

  lemma NumeralAfterOf(ws: string, v: string, tail: string)
    requires |ws| > 0 && AllSpace(ws) && |v| > 0 && AllRoman(v) && (tail == [] || !IsRoman(tail[0]))
    ensures NumeralAfter(ws + v + tail) == Some(v)
  {
    var r := ws + v + tail;
    assert r == ws + (v + tail);
    LeadingSpacesConcat(ws, v + tail);
    forall m | |ws| <= m < |ws| + |v| ensures IsRoman(r[m]) {
      assert r[m] == v[m - |ws|];
    }
    assert |ws| + |v| < |r| ==> r[|ws| + |v|] == tail[0];
    RomanRunAt(r, |ws|, |v|);
    assert r[|ws|..|ws| + |v|] == v;
  }

  /** The pieces `HeadingValue` reads off an accepted line have the heading shape. */
  lemma HeadingAccepted(line: string, word: string) returns (ws: string, tail: string)
    requires HeadingValue(line, word).Some?
    ensures HeadingShape(line, word, ws, HeadingValue(line, word).value, tail)
  {
    var r := line[|word|..];
    assert line == line[..|word|] + r;
    ws, tail := NumeralRead(r);
  }

  lemma NumeralRead(r: string) returns (ws: string, tail: string)
    requires NumeralAfter(r).Some?
    ensures var v := NumeralAfter(r).value;
      |ws| > 0 && AllSpace(ws) && |v| > 0 && AllRoman(v) && (tail == [] || !IsRoman(tail[0]))
      && r == ws + v + tail
  {
    var a := LeadingSpaces(r);
    var n := RomanRun(r, a);
    var v := r[a..a + n];
    assert AllRoman(v) by {
      forall m | 0 <= m < |v| ensures IsRoman(v[m]) {
        assert v[m] == r[a + m];
      }
    }
    ws, tail := r[..a], r[a + n..];
    assert r == ws + v + tail;
    assert tail != [] ==> tail[0] == r[a + n];
  }

  /** Only lines of the heading shape are recognised. */
  lemma HeadingSound(line: string, word: string)
    ensures HeadingValue(line, word).Some? ==>
      exists ws, tail :: HeadingShape(line, word, ws, HeadingValue(line, word).value, tail)
  {
    if HeadingValue(line, word).Some? {
      var ws, tail := HeadingAccepted(line, word);
    }
  }

  // ---------------------------------------------------------------------
  // ^§\s*(\d+(?:er)?)\.\s*[—-]?\s*(.+)$

  predicate IsDash(c: char) {
    c == EmDash || c == '-'
  }

  /** No line terminator: what `.` accepts. */
  predicate NoLineTerminator(s: string) {
    forall i :: 0 <= i < |s| ==> !IsLineTerminator(s[i])
  }

  /**
   * The raw title captured by `\s*[—-]?\s*(.+)$` on the text `t` that
   * follows the `.`, with the backtracking of the regular expression
   * written out. Each `\s*` is greedy, so the title is tried from the
   * rightmost possible start leftwards; a shorter title is a suffix of a
   * longer one, so the first start that works is the one with the fewest
   * characters before it that keeps the title non-empty.
   */
  function SectionTitle(t: string): Option<string>
  {
    var a := LeadingSpaces(t);
    if a < |t| && IsDash(t[a]) then DashTitle(t, a)
    else if a < |t| then TitleFrom(t, a)
    else if a > 0 then LastCharTitle(t)
    else None
  }

  /** The title after the dash at index `a`. */
  function DashTitle(t: string, a: nat): Option<string>
    requires a < |t|
  {
    var b := LeadingSpaces(t[a + 1..]);
    var p := a + 1 + b;
    if p < |t| then TitleFrom(t, p)
    // only spaces after the dash: `.+` takes the last one
    else if b > 0 then LastCharTitle(t)
    // the dash ends the line: `[—-]?` gives it up and `.+` takes it
    else Some([t[a]])
  }

  /** `(.+)$` from index `p` to the end of the line. */
  function TitleFrom(t: string, p: nat): Option<string>
    requires p < |t|
  {
    if NoLineTerminator(t[p..]) then Some(t[p..]) else None
  }

  /** `(.+)$` when only the last character is left for it. */
  function LastCharTitle(t: string): Option<string>
    requires |t| > 0
  {
    if !IsLineTerminator(t[|t| - 1]) then Some([t[|t| - 1]]) else None
  }

  /**
   * The section number of a `§` line, and the text after the `.` that
   * follows it, where `SectionTitle` looks for the title.
   */
  function SectionNumber(line: string): Option<(string, string)>
  {
    if line == [] || line[0] != '§' then None else NumberAfterSign(line[1..])
  }

  /** `\s*(\d+(?:er)?)\.` on the text after `§`, and what follows the `.`. */
  function NumberAfterSign(r: string): Option<(string, string)>
  {
    var a := LeadingSpaces(r);
    var k := DigitRun(r, a);
    var p := a + k;
    // `(?:er)?` is greedy; giving it up cannot help, since `.` must follow
    var q := if p + 2 <= |r| && r[p] == 'e' && r[p + 1] == 'r' then p + 2 else p;
    if k > 0 && q < |r| && r[q] == '.' then Some((r[a..q], r[q + 1..])) else None
  }

  /** The section number and raw title of a `§` line. */
  function SectionMatch(line: string): Option<(string, string)>
  {
    match SectionNumber(line)
    case None => None
    case Some((v, rest)) =>
      match SectionTitle(rest)
      case Some(title) => Some((v, title))
      case None => None
  }

  /** `detectStructure(line)`: the first of the three patterns that matches. */
  function DetectStructure(line: string): (r: Structure)
  {
    match HeadingValue(line, "LIVRE")
    case Some(v) => Livre(v)
    case None =>
      match HeadingValue(line, "CHAPITRE")
      case Some(v) => Chapitre(v)
      case None =>
        match SectionMatch(line)
        case Some((v, title)) => Section(v, Trim(title))
        case None => NoStructure
  }

  /** A `LIVRE` heading is a book, whatever follows its numeral. */
  lemma DetectLivre(ws: string, v: string, tail: string)
    requires HeadingShape("LIVRE" + ws + v + tail, "LIVRE", ws, v, tail)
    ensures DetectStructure("LIVRE" + ws + v + tail) == Livre(v)
  {
    HeadingComplete("LIVRE", ws, v, tail);
  }

  /** A `CHAPITRE` heading is a chapter, whatever follows its numeral. */
  lemma DetectChapitre(ws: string, v: string, tail: string)
    requires HeadingShape("CHAPITRE" + ws + v + tail, "CHAPITRE", ws, v, tail)
    ensures DetectStructure("CHAPITRE" + ws + v + tail) == Chapitre(v)
  {
    var line := "CHAPITRE" + ws + v + tail;
    assert line[0] == 'C';
    assert line[..5] != "LIVRE" by {
      assert line[..5][0] == 'C';
    }
    HeadingComplete("CHAPITRE", ws, v, tail);
  }

  /**
   * A `§` line with a dash: `§`, spaces, the number (with or without
   * `er`), `.`, spaces, a dash, spaces, and a title on one line that does
   * not start with a space, gives that number and the trimmed title.
   */
  lemma DetectSectionDash(ws1: string, ds: string, er: string, ws2: string, d: char, ws3: string, title: string)
    requires AllSpace(ws1) && AllSpace(ws2) && AllSpace(ws3)
    requires |ds| > 0 && AllDigits(ds) && (er == "" || er == "er")
    requires IsDash(d)
    requires |title| > 0 && !IsSpace(title[0]) && NoLineTerminator(title)
    ensures DetectStructure("§" + ws1 + ds + er + "." + ws2 + [d] + ws3 + title) == Section(ds + er, Trim(title))
  {
    var t := ws2 + [d] + ws3 + title;
    var line := "§" + ws1 + ds + er + "." + t;
    assert "§" + ws1 + ds + er + "." + ws2 + [d] + ws3 + title == line;
    SectionTitleDash(ws2, d, ws3, title);
    SectionPrefix(ws1, ds, er, t);
    DetectSectionAt(line, ds + er, t, title);
  }

  /** The same without a dash: the title starts right after the spaces. */
  lemma DetectSectionNoDash(ws1: string, ds: string, er: string, ws2: string, title: string)
    requires AllSpace(ws1) && AllSpace(ws2)
    requires |ds| > 0 && AllDigits(ds) && (er == "" || er == "er")
    requires |title| > 0 && !IsSpace(title[0]) && !IsDash(title[0]) && NoLineTerminator(title)
    ensures DetectStructure("§" + ws1 + ds + er + "." + ws2 + title) == Section(ds + er, Trim(title))
  {
    var t := ws2 + title;
    var line := "§" + ws1 + ds + er + "." + t;
    assert "§" + ws1 + ds + er + "." + ws2 + title == line;
    LeadingSpacesConcat(ws2, title);
    assert t[|ws2|..] == title;
    SectionPrefix(ws1, ds, er, t);
    DetectSectionAt(line, ds + er, t, title);
  }

  /** A `§` line whose number and title are found is a section. */
  lemma DetectSectionAt(line: string, v: string, t: string, title: string)
    requires |line| > 0 && line[0] == '§'
    requires SectionNumber(line) == Some((v, t)) && SectionTitle(t) == Some(title)
    ensures DetectStructure(line) == Section(v, Trim(title))
  {
    NotHeading(line);
  }

  /** After spaces and a dash, spaces and then the title: the title is what is captured. */
  lemma SectionTitleDash(ws2: string, d: char, ws3: string, title: string)
    requires AllSpace(ws2) && AllSpace(ws3) && IsDash(d)
    requires |title| > 0 && !IsSpace(title[0]) && NoLineTerminator(title)
    ensures SectionTitle(ws2 + [d] + ws3 + title) == Some(title)
  {
    var t := ws2 + [d] + ws3 + title;
    DashStart(t, ws2, d, ws3, title);
    DashRest(t, ws2, d, ws3, title);
    LeadingSpacesConcat(ws3, title);
    TitleAfterDash(t, |ws2|, |ws3|, title);
  }

  lemma DashStart(t: string, ws2: string, d: char, ws3: string, title: string)
    requires AllSpace(ws2) && IsDash(d) && t == ws2 + [d] + ws3 + title
    ensures LeadingSpaces(t) == |ws2|
  {
    assert t == ws2 + ([d] + ws3 + title);
    assert !IsSpace(d);
    LeadingSpacesConcat(ws2, [d] + ws3 + title);
  }

  lemma DashRest(t: string, ws2: string, d: char, ws3: string, title: string)
    requires t == ws2 + [d] + ws3 + title
    ensures |ws2| < |t| && t[|ws2|] == d
    ensures t[|ws2| + 1..] == ws3 + title && t[|ws2| + 1 + |ws3|..] == title
  {
  }

  lemma DashTitleAt(t: string, a: nat)
    requires LeadingSpaces(t) == a && a < |t| && IsDash(t[a])
    ensures SectionTitle(t) == DashTitle(t, a)
  {
  }

  lemma DashTitleFrom(t: string, a: nat, p: nat)
    requires a < |t| && p == a + 1 + LeadingSpaces(t[a + 1..]) && p < |t|
    ensures DashTitle(t, a) == TitleFrom(t, p)
  {
  }

  lemma TitleFromAt(t: string, p: nat, title: string)
    requires p < |t| && t[p..] == title && NoLineTerminator(title)
    ensures TitleFrom(t, p) == Some(title)
  {
  }

  /** `SectionTitle` from the positions of the dash and of the title. */
  lemma TitleAfterDash(t: string, a: nat, b: nat, title: string)
    requires LeadingSpaces(t) == a && a < |t| && IsDash(t[a])
    requires a + 1 + b <= |t| && LeadingSpaces(t[a + 1..]) == b && t[a + 1 + b..] == title
    requires |title| > 0 && NoLineTerminator(title)
    ensures SectionTitle(t) == Some(title)
  {
    var p := a + 1 + b;
    assert |t| - p == |title|;
    DashTitleAt(t, a);
    DashTitleFrom(t, a, p);
    TitleFromAt(t, p, title);
  }

  /** `SectionNumber` from the positions it reads off the text `r` after `§`. */
  lemma SectionNumberAt(line: string, r: string, a: nat, k: nat, q: nat)
    requires |line| > 0 && line[0] == '§' && r == line[1..]
    requires LeadingSpaces(r) == a && a <= |r|
    requires DigitRun(r, a) == k && k > 0
    requires q == if a + k + 2 <= |r| && r[a + k] == 'e' && r[a + k + 1] == 'r' then a + k + 2 else a + k
    requires q < |r| && r[q] == '.'
    ensures SectionNumber(line) == Some((r[a..q], r[q + 1..]))
  {
    SignThenNumber(line);
    NumberAt(r, a, k, q);
  }

  lemma SignThenNumber(line: string)
    requires |line| > 0 && line[0] == '§'
    ensures SectionNumber(line) == NumberAfterSign(line[1..])
  {
  }

  lemma NumberAt(r: string, a: nat, k: nat, q: nat)
    requires LeadingSpaces(r) == a && a <= |r|
    requires DigitRun(r, a) == k && k > 0
    requires q == if a + k + 2 <= |r| && r[a + k] == 'e' && r[a + k + 1] == 'r' then a + k + 2 else a + k
    requires q < |r| && r[q] == '.'
    ensures NumberAfterSign(r) == Some((r[a..q], r[q + 1..]))
  {
  }

  /** The text before the title: `§`, spaces, number, optional `er`, `.`. */
  lemma SectionPrefix(ws1: string, ds: string, er: string, t: string)
    requires AllSpace(ws1) && |ds| > 0 && AllDigits(ds) && (er == "" || er == "er")
    ensures SectionNumber("§" + ws1 + ds + er + "." + t) == Some((ds + er, t))
  {
    var line := "§" + ws1 + ds + er + "." + t;
    var r := ws1 + ds + (er + "." + t);
    AfterSection(line, r, ws1, ds, er, t);
    assert (er + "." + t)[0] in "e.";
    NumberStart(r, ws1, ds, er + "." + t);
    NumberEnd(r, ws1, ds, er, t);
    SectionNumberAt(line, r, |ws1|, |ds|, |ws1| + |ds| + |er|);
  }

  lemma AfterSection(line: string, r: string, ws1: string, ds: string, er: string, t: string)
    requires line == "§" + ws1 + ds + er + "." + t
    requires r == ws1 + ds + (er + "." + t)
    ensures line[0] == '§' && line[1..] == r
  {
    assert line == "§" + r;
  }

  /** Spaces then digits: where the digit run of the number starts and stops. */
  lemma NumberStart(r: string, ws1: string, ds: string, after: string)
    requires AllSpace(ws1) && |ds| > 0 && AllDigits(ds) && r == ws1 + ds + after
    requires after == [] || !IsDigit(after[0])
    ensures LeadingSpaces(r) == |ws1| && DigitRun(r, |ws1|) == |ds|
  {
    NumberSpaces(r, ws1, ds, after);
    DigitRunConcat(ws1, ds, after);
  }

  lemma NumberSpaces(r: string, ws1: string, ds: string, after: string)
    requires AllSpace(ws1) && |ds| > 0 && AllDigits(ds) && r == ws1 + ds + after
    ensures LeadingSpaces(r) == |ws1|
  {
    assert r == ws1 + (ds + after);
    LeadingSpacesConcat(ws1, ds + after);
  }

  lemma NumberEnd(r: string, ws1: string, ds: string, er: string, t: string)
    requires (er == "" || er == "er") && r == ws1 + ds + (er + "." + t)
    ensures var p := |ws1| + |ds|;
      p + |er| == (if p + 2 <= |r| && r[p] == 'e' && r[p + 1] == 'r' then p + 2 else p)
    ensures var q := |ws1| + |ds| + |er|;
      q < |r| && r[q] == '.' && r[|ws1|..q] == ds + er && r[q + 1..] == t
  {
    var p := |ws1| + |ds|;
    assert r[|ws1|..p] == ds && r[p..] == er + "." + t;
    AfterNumber(r, p, er, t);
    SliceSplit(r, |ws1|, p, p + |er|);
  }

  lemma AfterNumber(r: string, p: nat, er: string, t: string)
    requires p <= |r| && r[p..] == er + "." + t && (er == "" || er == "er")
    ensures p + |er| == (if p + 2 <= |r| && r[p] == 'e' && r[p + 1] == 'r' then p + 2 else p)
    ensures p + |er| < |r| && r[p + |er|] == '.' && r[p + |er| + 1..] == t && r[p..p + |er|] == er
  {
    assert r[p..][|er|] == '.';
    assert r[p..][|er| + 1..] == t;
    if er == "er" {
      assert r[p..][0] == 'e' && r[p..][1] == 'r';
    }
  }

  /** A line that starts with `§` is neither a book nor a chapter heading. */
  lemma NotHeading(line: string)
    requires |line| > 0 && line[0] == '§'
    ensures HeadingValue(line, "LIVRE").None? && HeadingValue(line, "CHAPITRE").None?
  {
    assert |line| >= 5 ==> line[..5][0] == '§';
    assert |line| >= 8 ==> line[..8][0] == '§';
  }

  /** A book is a `LIVRE` heading with its numeral. */
  lemma DetectLivreSound(line: string)
    ensures DetectStructure(line).Livre? ==>
      exists ws, tail :: HeadingShape(line, "LIVRE", ws, DetectStructure(line).value, tail)
  {
    HeadingSound(line, "LIVRE");
  }

  /** A chapter is a `CHAPITRE` heading on a line that is not a book heading. */
  lemma DetectChapitreSound(line: string)
    ensures DetectStructure(line).Chapitre? ==>
      HeadingValue(line, "LIVRE").None? &&
      exists ws, tail :: HeadingShape(line, "CHAPITRE", ws, DetectStructure(line).value, tail)
  {
    HeadingSound(line, "CHAPITRE");
  }

  /**
   * A section starts with `§`, has a number of digits with an optional
   * `er`, and a trimmed title.
   */
  lemma DetectSectionSound(line: string)
    ensures DetectStructure(line).Section? ==>
      && line[0] == '§'
      && var v := DetectStructure(line).value;
         && |v| > 0
         && (AllDigits(v) || (|v| > 2 && AllDigits(v[..|v| - 2]) && v[|v| - 2..] == "er"))
         && IsTrimmed(DetectStructure(line).titre)
  {
    if DetectStructure(line).Section? {
      SectionNumberShape(line);
    }
  }

  /** The number `SectionNumber` reads: digits, possibly followed by `er`. */
  lemma SectionNumberShape(line: string)
    requires SectionNumber(line).Some?
    ensures line[0] == '§'
    ensures var v := SectionNumber(line).value.0;
      && |v| > 0
      && (AllDigits(v) || (|v| > 2 && AllDigits(v[..|v| - 2]) && v[|v| - 2..] == "er"))
  {
    NumberShape(line[1..]);
  }

  lemma NumberShape(r: string)
    requires NumberAfterSign(r).Some?
    ensures var v := NumberAfterSign(r).value.0;
      && |v| > 0
      && (AllDigits(v) || (|v| > 2 && AllDigits(v[..|v| - 2]) && v[|v| - 2..] == "er"))
  {
    var a := LeadingSpaces(r);
    var k := DigitRun(r, a);
    var v := NumberAfterSign(r).value.0;
    assert r[a..a + k] == v[..k];
    forall m | 0 <= m < k ensures IsDigit(v[m]) {
      assert v[m] == r[a + m];
    }
    if |v| > k {
      assert v[k..] == "er";
    }
  }

  /** `§`, spaces, the number, `.`, spaces, a dash, spaces and a title on one line. */
  predicate SectionDashShape(line: string, ws1: string, ds: string, er: string, ws2: string, d: char, ws3: string, title: string) {
    && AllSpace(ws1) && AllSpace(ws2) && AllSpace(ws3)
    && |ds| > 0 && AllDigits(ds) && (er == "" || er == "er")
    && IsDash(d)
    && |title| > 0 && !IsSpace(title[0]) && NoLineTerminator(title)
    && line == "§" + ws1 + ds + er + "." + ws2 + [d] + ws3 + title
  }

  /** `§`, spaces, the number, `.`, spaces and a title that does not start with a dash. */
  predicate SectionPlainShape(line: string, ws1: string, ds: string, er: string, ws2: string, title: string) {
    && AllSpace(ws1) && AllSpace(ws2)
    && |ds| > 0 && AllDigits(ds) && (er == "" || er == "er")
    && |title| > 0 && !IsSpace(title[0]) && !IsDash(title[0]) && NoLineTerminator(title)
    && line == "§" + ws1 + ds + er + "." + ws2 + title
  }

  /**
   * A line reported as no structure has none of the shapes the three
   * patterns accept: it is no `LIVRE` or `CHAPITRE` heading and no `§`
   * line with or without a dash.
   */
  lemma DetectNoneSound(line: string)
    ensures DetectStructure(line).NoStructure? ==>
      && (forall ws, v, tail :: !HeadingShape(line, "LIVRE", ws, v, tail))
      && (forall ws, v, tail :: !HeadingShape(line, "CHAPITRE", ws, v, tail))
      && (forall ws1, ds, er, ws2, d, ws3, title :: !SectionDashShape(line, ws1, ds, er, ws2, d, ws3, title))
      && (forall ws1, ds, er, ws2, title :: !SectionPlainShape(line, ws1, ds, er, ws2, title))
  {
    forall ws, v, tail ensures HeadingShape(line, "LIVRE", ws, v, tail) ==> DetectStructure(line).Livre? {
      if HeadingShape(line, "LIVRE", ws, v, tail) {
        DetectLivre(ws, v, tail);
      }
    }
    forall ws, v, tail ensures HeadingShape(line, "CHAPITRE", ws, v, tail) ==> !DetectStructure(line).NoStructure? {
      if HeadingShape(line, "CHAPITRE", ws, v, tail) {
        HeadingComplete("CHAPITRE", ws, v, tail);
      }
    }
    forall ws1, ds, er, ws2, d, ws3, title
      ensures SectionDashShape(line, ws1, ds, er, ws2, d, ws3, title) ==> DetectStructure(line).Section?
    {
      if SectionDashShape(line, ws1, ds, er, ws2, d, ws3, title) {
        DetectSectionDash(ws1, ds, er, ws2, d, ws3, title);
      }
    }
    forall ws1, ds, er, ws2, title
      ensures SectionPlainShape(line, ws1, ds, er, ws2, title) ==> DetectStructure(line).Section?
    {
      if SectionPlainShape(line, ws1, ds, er, ws2, title) {
        DetectSectionNoDash(ws1, ds, er, ws2, title);
      }
    }
  }

  /** A section line whose title is nothing but the dash: number 2, a period, a space and an em dash. */
  const DashOnlyLine: string := "\U{00A7} 2. \U{2014}"

  /** Where the backtracking shows: a `§` line whose only title is the dash. */
  lemma DetectSectionDashOnly()
    ensures DetectStructure(DashOnlyLine) == Section("2", "—")
  {
    DashOnlyNumber();
    DashOnlyTitle();
    DashTrimmed();
    DetectSectionAt(DashOnlyLine, "2", " —", [EmDash]);
  }

  lemma DashTrimmed()
    ensures Trim([EmDash]) == "—"
  {
    TrimTrimmed([EmDash]);
  }

  lemma DashOnlyNumber()
    ensures SectionNumber(DashOnlyLine) == Some(("2", " —"))
  {
    SectionPrefix(" ", "2", "", " —");
    assert "§" + " " + "2" + "" + "." + " —" == DashOnlyLine;
    assert "2" + "" == "2";
  }

  /** `\s*[—-]?\s*(.+)$` on a lone dash: the dash is the title. */
  lemma DashOnlyTitle()
    ensures SectionTitle(" —") == Some([EmDash])
  {
    var t := " —";
    LeadingSpacesConcat(" ", [EmDash]);
    assert t[2..] == "";
  }

  // ---------------------------------------------------------------------
  // splitIntoParagraphs: text.split(/\n\n+/).filter(p => p.trim().length > 0)

  /** No two adjacent newlines. */
  predicate NoBlankLine(s: string) {
    forall i :: 0 <= i < |s| - 1 ==> !(s[i] == '\n' && s[i + 1] == '\n')
  }

  /**
   * `s.split(/\n\n+/)`. The leftmost match of `\n\n+` starts at the first
   * newline of a run of two or more and, being greedy, takes the whole
   * run; a lone newline stays inside its piece.
   */
  function SplitBlank(s: string): (r: seq<string>)
    ensures |r| >= 1
    ensures forall i :: 0 <= i < |r| ==> NoBlankLine(r[i])
    ensures |r[0]| <= |s| && r[0] == s[..|r[0]|]
    ensures r[0] != [] && r[0][0] == '\n' ==> |s| < 2 || s[1] != '\n'
  {
    if s == [] then [""]
    else if |s| >= 2 && s[0] == '\n' && s[1] == '\n' then [""] + SplitBlank(s[NewlineRun(s)..])
    else
      var rest := SplitBlank(s[1..]);
      [[s[0]] + rest[0]] + rest[1..]
  }

  /** Joining the pieces with one blank line restores a text without runs of three newlines. */
  lemma {:induction false} SplitBlankJoin(s: string)
    requires NoTripleNewline(s)
    ensures Join(SplitBlank(s), "\n\n") == s
    decreases |s|
  {
    if s == [] {
    } else if |s| >= 2 && s[0] == '\n' && s[1] == '\n' {
      ShapeSlice(s, 2, |s|);
      SplitBlankJoin(s[2..]);
      JoinAfterBlank(s);
    } else {
      ShapeSlice(s, 1, |s|);
      SplitBlankJoin(s[1..]);
      JoinAfterChar(s);
    }
  }

  /** The step of `SplitBlankJoin` at a blank line, which is exactly two newlines. */
  lemma JoinAfterBlank(s: string)
    requires |s| >= 2 && s[0] == '\n' && s[1] == '\n' && NoTripleNewline(s)
    requires Join(SplitBlank(s[2..]), "\n\n") == s[2..]
    ensures Join(SplitBlank(s), "\n\n") == s
  {
    assert NewlineRun(s) == 2 by {
      assert |s| >= 3 ==> !(s[0] == '\n' && s[1] == '\n' && s[2] == '\n');
    }
    var rest := SplitBlank(s[2..]);
    assert SplitBlank(s) == [""] + rest;
    assert ([""] + rest)[1..] == rest;
    assert s == "\n\n" + s[2..];
  }

  /** The step of `SplitBlankJoin` at any other character, which joins the first piece. */
  lemma JoinAfterChar(s: string)
    requires s != [] && !(|s| >= 2 && s[0] == '\n' && s[1] == '\n')
    requires Join(SplitBlank(s[1..]), "\n\n") == s[1..]
    ensures Join(SplitBlank(s), "\n\n") == s
  {
    var rest := SplitBlank(s[1..]);
    SplitBlankCons(s);
    JoinRebuild(s, rest, SplitBlank(s));
  }

  lemma JoinRebuild(s: string, rest: seq<string>, r: seq<string>)
    requires s != [] && |rest| >= 1
    requires Join(rest, "\n\n") == s[1..]
    requires r == [[s[0]] + rest[0]] + rest[1..]
    ensures Join(r, "\n\n") == s
  {
    JoinConsFirst(s[0], rest, "\n\n");
    assert s == [s[0]] + s[1..];
  }

  lemma SplitBlankCons(s: string)
    requires s != [] && !(|s| >= 2 && s[0] == '\n' && s[1] == '\n')
    ensures SplitBlank(s) == [[s[0]] + SplitBlank(s[1..])[0]] + SplitBlank(s[1..])[1..]
  {
  }

  /** Putting a character in front of the first piece puts it in front of the joined text. */
  lemma JoinConsFirst(c: char, xs: seq<string>, sep: string)
    requires |xs| >= 1
    ensures Join([[c] + xs[0]] + xs[1..], sep) == [c] + Join(xs, sep)
  {
    var ys := [[c] + xs[0]] + xs[1..];
    if |xs| > 1 {
      assert ys[1..] == xs[1..];
    }
  }

  /** Every piece of a tag-free text is tag-free. */
  lemma {:induction false} SplitBlankNoTag(s: string)
    requires NoTag(s)
    ensures forall i :: 0 <= i < |SplitBlank(s)| ==> NoTag(SplitBlank(s)[i])
  {
    var r := SplitBlank(s);
    NoTagSlice(s, 0, |r[0]|);
    if s == [] {
    } else if |s| >= 2 && s[0] == '\n' && s[1] == '\n' {
      var k := NewlineRun(s);
      NoTagSlice(s, k, |s|);
      assert s[k..|s|] == s[k..];
      SplitBlankNoTag(s[k..]);
      assert r[1..] == SplitBlank(s[k..]);
    } else {
      NoTagSlice(s, 1, |s|);
      assert s[1..|s|] == s[1..];
      SplitBlankNoTag(s[1..]);
      var rest := SplitBlank(s[1..]);
      assert r[1..] == rest[1..];
      forall i | 1 <= i < |r| ensures NoTag(r[i]) {
        assert r[i] == rest[i];
      }
    }
  }

  /** A piece with something besides whitespace. */
  predicate NotBlank(p: string) {
    |Trim(p)| > 0
  }

  /** `.filter(p => p.trim().length > 0)`, order kept. */
  function NonBlank(ps: seq<string>): (r: seq<string>)
    ensures |r| <= |ps|
    ensures forall i :: 0 <= i < |r| ==> NotBlank(r[i])
    ensures forall i :: 0 <= i < |r| ==> r[i] in ps
    ensures forall p :: p in ps && NotBlank(p) ==> p in r
  {
    if ps == [] then []
    else if NotBlank(ps[0]) then [ps[0]] + NonBlank(ps[1..])
    else NonBlank(ps[1..])
  }

  function Paragraphs(text: string): (r: seq<string>)
  {
    NonBlank(SplitBlank(text))
  }

  /** Every paragraph is non-blank and has no blank line inside. */
  lemma ParagraphsShape(text: string)
    ensures forall i :: 0 <= i < |Paragraphs(text)| ==>
      NotBlank(Paragraphs(text)[i]) && NoBlankLine(Paragraphs(text)[i])
  {
    var ps := SplitBlank(text);
    forall i | 0 <= i < |Paragraphs(text)|
      ensures NoBlankLine(Paragraphs(text)[i])
    {
      var p := Paragraphs(text)[i];
      var j :| 0 <= j < |ps| && ps[j] == p;
    }
  }

  /** Every paragraph of a tag-free text is tag-free. */
  lemma ParagraphsNoTag(text: string)
    requires NoTag(text)
    ensures forall i :: 0 <= i < |Paragraphs(text)| ==> NoTag(Paragraphs(text)[i])
  {
    SplitBlankNoTag(text);
    var ps := SplitBlank(text);
    forall i | 0 <= i < |Paragraphs(text)|
      ensures NoTag(Paragraphs(text)[i])
    {
      var p := Paragraphs(text)[i];
      var j :| 0 <= j < |ps| && ps[j] == p;
    }
  }
}
