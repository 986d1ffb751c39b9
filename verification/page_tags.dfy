/**
 * The inline page tag `[[PAGE:n]]` that the cleaner writes in place of a
 * page-marker line, and the two scanners the chunker runs over it: the
 * first-match search `line.match(/\[\[PAGE:(\d+)\]\]/)` and
 * `extractPageNumbers`, which collects every tag and deletes it (with one
 * following newline) from the text.
 */
module PageTags {
  import opened Strings
  import opened Types

  const TagOpen: string := "[[PAGE:"

  /** Number of consecutive ASCII digits in `s` from index `j` on. */
  function DigitRun(s: string, j: nat): (k: nat)
    requires j <= |s|
    ensures j + k <= |s|
    ensures forall m :: j <= m < j + k ==> IsDigit(s[m])
    ensures j + k < |s| ==> !IsDigit(s[j + k])
    decreases |s| - j
  {
    if j < |s| && IsDigit(s[j]) then 1 + DigitRun(s, j + 1) else 0
  }

  /** A digit run is determined by where it stops. */
  lemma {:induction false} DigitRunAt(s: string, j: nat, k: nat)
    requires j + k <= |s|
    requires forall m :: j <= m < j + k ==> IsDigit(s[m])
    requires j + k < |s| ==> !IsDigit(s[j + k])
    ensures DigitRun(s, j) == k
    decreases k
  {
    if k > 0 {
      DigitRunAt(s, j + 1, k - 1);
    }
  }

  /**
   * `/\[\[PAGE:(\d+)\]\]/` matches at index `i`. `\d+` is greedy and `]`
   * is not a digit, so the match, when there is one, uses the whole digit
   * run.
   */
  predicate TagAt(s: string, i: nat) {
    && i + 7 <= |s|
    && s[i..i + 7] == TagOpen
    && var k := DigitRun(s, i + 7);
       k > 0 && i + 9 + k <= |s| && s[i + 7 + k] == ']' && s[i + 8 + k] == ']'
  }

  /** Index just past the tag that starts at `i`. */
  function TagEnd(s: string, i: nat): (e: nat)
    requires TagAt(s, i)
    ensures i + 10 <= e <= |s|
  {
    i + 9 + DigitRun(s, i + 7)
  }

  /** `parseInt` of the tag's digits. */
  function TagValue(s: string, i: nat): nat
    requires TagAt(s, i)
  {
    ParseDecimal(s[i + 7..i + 7 + DigitRun(s, i + 7)])
  }

  /** No page tag anywhere in `s`. */
  predicate NoTag(s: string) {
    forall i :: 0 <= i < |s| ==> !TagAt(s, i)
  }

  // ---------------------------------------------------------------------
  // locality of a tag

  /** A tag never spans a newline. */
  lemma TagHasNoNewline(s: string, i: nat)
    requires TagAt(s, i)
    ensures forall m :: i <= m < TagEnd(s, i) ==> s[m] != '\n'
  {
    forall m | i <= m < i + 7
      ensures s[m] != '\n'
    {
      assert s[m] == s[i..i + 7][m - i];
    }
  }

  /**
   * A tag depends only on the characters it covers: the same characters
   * anywhere else form the same tag with the same value.
   */
  lemma TagTransfer(s: string, i: nat, t: string, j: nat)
    requires TagAt(s, i)
    requires j + (TagEnd(s, i) - i) <= |t|
    requires t[j..j + (TagEnd(s, i) - i)] == s[i..TagEnd(s, i)]
    ensures TagAt(t, j) && TagEnd(t, j) - j == TagEnd(s, i) - i
    ensures TagValue(t, j) == TagValue(s, i)
  {
    var k := DigitRun(s, i + 7);
    var n := 9 + k;
    forall p | j <= p < j + n
      ensures t[p] == s[i + (p - j)]
    {
      assert t[p] == t[j..j + n][p - j];
      assert s[i + (p - j)] == s[i..i + n][p - j];
    }
    assert t[j..j + 7] == s[i..i + 7];
    forall p | j + 7 <= p < j + 7 + k
      ensures IsDigit(t[p])
    {
      assert t[p] == s[i + 7 + (p - j - 7)];
    }
    assert t[j + 7 + k] == s[i + 7 + k];
    DigitRunAt(t, j + 7, k);
    assert t[j + 7..j + 7 + k] == s[i + 7..i + 7 + k];
  }

  /** A tag found in `a + "\n" + b` before the newline lies inside `a`. */
  lemma TagInLeft(a: string, b: string, i: nat)
    requires i < |a|
    ensures TagAt(a + "\n" + b, i) ==> TagAt(a, i)
  {
    var s := a + "\n" + b;
    if TagAt(s, i) {
      TagHasNoNewline(s, i);
      assert s[|a|] == '\n';
      var e := TagEnd(s, i);
      assert e <= |a|;
      assert a[i..e] == s[i..e];
      TagTransfer(s, i, a, i);
    }
  }

  /** A tag found in `a + "\n" + b` after the newline lies inside `b`. */
  lemma TagInRight(a: string, b: string, i: nat)
    requires |a| < i
    ensures TagAt(a + "\n" + b, i) ==> TagAt(b, i - |a| - 1)
  {
    var s := a + "\n" + b;
    if TagAt(s, i) {
      var e := TagEnd(s, i);
      var j := i - |a| - 1;
      assert s[|a| + 1..] == b;
      assert b[j..e - |a| - 1] == s[|a| + 1..][j..e - |a| - 1] == s[i..e];
      TagTransfer(s, i, b, j);
    }
  }

  /** Gluing two tag-free texts with a newline creates no tag. */
  lemma NoTagGlue(a: string, b: string)
    requires NoTag(a) && NoTag(b)
    ensures NoTag(a + "\n" + b)
  {
    var s := a + "\n" + b;
    forall i | 0 <= i < |s|
      ensures !TagAt(s, i)
    {
      if i < |a| {
        TagInLeft(a, b, i);
      } else if i > |a| {
        TagInRight(a, b, i);
      } else {
        assert s[i] == '\n';
        assert i + 7 <= |s| ==> s[i..i + 7][0] == '\n';
      }
    }
  }

  /** A tag inside a slice is a tag of the whole text. */
  lemma TagInSlice(s: string, lo: nat, hi: nat, m: nat)
    requires lo <= hi <= |s|
    ensures TagAt(s[lo..hi], m) ==> TagAt(s, lo + m)
  {
    var t := s[lo..hi];
    if TagAt(t, m) {
      var e := TagEnd(t, m);
      forall p | lo + m <= p < lo + e
        ensures s[p] == t[p - lo]
      {
      }
      assert s[lo + m..lo + e] == t[m..e];
      TagTransfer(t, m, s, lo + m);
    }
  }

  /** A piece of a tag-free text is tag-free. */
  lemma NoTagSlice(s: string, lo: nat, hi: nat)
    requires lo <= hi <= |s| && NoTag(s)
    ensures NoTag(s[lo..hi])
  {
    forall m | 0 <= m < hi - lo
      ensures !TagAt(s[lo..hi], m)
    {
      TagInSlice(s, lo, hi, m);
    }
  }

  lemma NoTagEmpty()
    ensures NoTag("")
  {
  }

  // ---------------------------------------------------------------------
  // the first-match search of the chunking loop

  /** Index of the leftmost tag at or after `i`. */
  function FirstTagFrom(s: string, i: nat): (r: Option<nat>)
    requires i <= |s|
    ensures r.Some? ==> i <= r.value < |s| && TagAt(s, r.value)
    ensures r.Some? ==> forall j :: i <= j < r.value ==> !TagAt(s, j)
    ensures r.None? ==> forall j :: i <= j < |s| ==> !TagAt(s, j)
    decreases |s| - i
  {
    if i == |s| then None
    else if TagAt(s, i) then Some(i)
    else FirstTagFrom(s, i + 1)
  }

  /**
   * `line.match(/\[\[PAGE:(\d+)\]\]/)` followed by `parseInt(m[1], 10)`:
   * the number in the leftmost tag of the line, if any.
   */
  function FindPageTag(line: string): Option<nat>
  {
    match FirstTagFrom(line, 0)
    case None => None
    case Some(i) => Some(TagValue(line, i))
  }

  /**
   * The search finds nothing exactly when the line holds no tag, and
   * otherwise reports the value of the leftmost tag only.
   */
  lemma FindPageTagSpec(line: string)
    ensures FindPageTag(line).None? <==> NoTag(line)
    ensures FindPageTag(line).Some? ==>
      exists i :: 0 <= i < |line| && TagAt(line, i) && FindPageTag(line).value == TagValue(line, i)
               && (forall j :: 0 <= j < i ==> !TagAt(line, j))
  {
    var r := FirstTagFrom(line, 0);
    if r.Some? {
      assert TagAt(line, r.value);
    }
  }

  // ---------------------------------------------------------------------
  // extractPageNumbers

  /**
   * The scan of `extractPageNumbers` from index `i`: every tag is removed
   * together with one newline right after it (`/\[\[PAGE:\d+\]\]\n?/g`)
   * and its number is collected (`matchAll` of the same tag).
   */
  function ExtractFrom(s: string, i: nat): (string, seq<nat>)
    requires i <= |s|
    decreases |s| - i
  {
    if i == |s| then ("", [])
    else if TagAt(s, i) then
      var rest := ExtractFrom(s, AfterTag(s, i));
      (rest.0, [TagValue(s, i)] + rest.1)
    else
      var rest := ExtractFrom(s, i + 1);
      ([s[i]] + rest.0, rest.1)
  }

  /** Where the scan resumes after the tag at `i`: past the tag and one newline, if there is one. */
  function AfterTag(s: string, i: nat): (next: nat)
    requires TagAt(s, i)
    ensures i < next <= |s|
  {
    var e := TagEnd(s, i);
    if e < |s| && s[e] == '\n' then e + 1 else e
  }

  /** `extractPageNumbers(text)`: the text without its tags, and their numbers in order. */
  function ExtractPageNumbers(text: string): (string, seq<nat>)
  {
    ExtractFrom(text, 0)
  }

  lemma {:induction false} ExtractFromNoTag(s: string, i: nat)
    requires i <= |s| && NoTag(s)
    ensures ExtractFrom(s, i) == (s[i..], [])
    decreases |s| - i
  {
    if i < |s| {
      ExtractFromNoTag(s, i + 1);
      assert s[i..] == [s[i]] + s[i + 1..];
    }
  }

  /** On a tag-free text, `extractPageNumbers` changes nothing and finds no page. */
  lemma ExtractNoTag(s: string)
    requires NoTag(s)
    ensures ExtractPageNumbers(s) == (s, [])
  {
    ExtractFromNoTag(s, 0);
  }

  /** The tag `[[PAGE:ds]]` as the cleaner writes it. */
  function TagText(ds: string): string {
    TagOpen + ds + "]]"
  }

  /** The text after a removed tag, without the one newline `\n?` takes with it. */
  function DropNewline(r: string): string {
    if r != [] && r[0] == '\n' then r[1..] else r
  }

  /**
   * `extractPageNumbers` on a tag-free prefix `a`, a tag and the rest `r`:
   * the prefix is kept as it is, the tag and one newline after it are
   * removed, its number comes first among the pages, and the rest is
   * scanned as if it stood alone. With `ExtractNoTag` this describes the
   * result on any text, tag by tag from the left.
   */
  lemma ExtractTag(a: string, ds: string, r: string)
    requires NoTag(a) && |ds| > 0 && AllDigits(ds)
    ensures var rest := ExtractPageNumbers(DropNewline(r));
      ExtractPageNumbers(a + TagText(ds) + r) == (a + rest.0, [ParseDecimal(ds)] + rest.1)
  {
    ExtractOverPrefix(a, ds, r);
    ExtractAtTag(a, ds, r);
  }

  /** The scan copies the tag-free prefix and then goes on from the tag. */
  lemma ExtractOverPrefix(a: string, ds: string, r: string)
    requires NoTag(a) && |ds| > 0 && AllDigits(ds)
    ensures var s := a + TagText(ds) + r;
      ExtractFrom(s, 0) == (a + ExtractFrom(s, |a|).0, ExtractFrom(s, |a|).1)
  {
    var s := a + TagText(ds) + r;
    forall j | 0 <= j < |a| ensures !TagAt(s, j) {
      NoTagBeforeTag(a, ds, r, j);
    }
    ExtractSkip(s, 0, |a|);
    assert s[0..|a|] == a;
  }

  /** At the written tag the scan takes its number and goes on after it and its newline. */
  lemma ExtractAtTag(a: string, ds: string, r: string)
    requires |ds| > 0 && AllDigits(ds)
    ensures var s := a + TagText(ds) + r;
      var rest := ExtractPageNumbers(DropNewline(r));
      ExtractFrom(s, |a|) == (rest.0, [ParseDecimal(ds)] + rest.1)
  {
    var s := a + TagText(ds) + r;
    TagTextAt(a, ds, r);
    AfterTextTag(a, ds, r);
    ExtractSuffix(s, AfterTag(s, |a|));
  }

  /** What is left after the written tag and its newline is the rest without its first newline. */
  lemma AfterTextTag(a: string, ds: string, r: string)
    requires |ds| > 0 && AllDigits(ds)
    requires TagAt(a + TagText(ds) + r, |a|)
    requires TagEnd(a + TagText(ds) + r, |a|) == |a| + |TagText(ds)|
    ensures var s := a + TagText(ds) + r;
      s[AfterTag(s, |a|)..] == DropNewline(r)
  {
    var s := a + TagText(ds) + r;
    var e := |a| + |TagText(ds)|;
    assert s[e..] == r;
    assert e < |s| ==> s[e] == r[0];
  }

  /** The tag written after `a` is found where it starts, with its length and its number. */
  lemma TagTextAt(a: string, ds: string, r: string)
    requires |ds| > 0 && AllDigits(ds)
    ensures TagAt(a + TagText(ds) + r, |a|)
    ensures TagEnd(a + TagText(ds) + r, |a|) == |a| + |TagText(ds)|
    ensures TagValue(a + TagText(ds) + r, |a|) == ParseDecimal(ds)
  {
    var t := TagText(ds);
    var s := a + t + r;
    TagTextAlone(ds);
    assert s[|a|..|a| + |t|] == t[0..|t|];
    TagTransfer(t, 0, s, |a|);
  }

  /** The written tag on its own is a tag of its whole length. */
  lemma TagTextAlone(ds: string)
    requires |ds| > 0 && AllDigits(ds)
    ensures TagAt(TagText(ds), 0) && TagEnd(TagText(ds), 0) == |TagText(ds)|
    ensures TagValue(TagText(ds), 0) == ParseDecimal(ds)
  {
    var t := TagText(ds);
    assert t[0..7] == TagOpen;
    forall m | 7 <= m < 7 + |ds| ensures IsDigit(t[m]) {
      assert t[m] == ds[m - 7];
    }
    assert t[7 + |ds|] == ']' && t[8 + |ds|] == ']';
    DigitRunAt(t, 7, |ds|);
    assert t[7..7 + |ds|] == ds;
  }

  /** Where no tag starts, the scan copies each character. */
  lemma {:induction false} ExtractSkip(s: string, i: nat, k: nat)
    requires i <= k <= |s|
    requires forall j :: i <= j < k ==> !TagAt(s, j)
    ensures ExtractFrom(s, i) == (s[i..k] + ExtractFrom(s, k).0, ExtractFrom(s, k).1)
    decreases k - i
  {
    var x := ExtractFrom(s, k);
    if i < k {
      ExtractSkip(s, i + 1, k);
      ExtractPlain(s, i);
      CopyFront(s, i, k, x.0);
    } else {
      assert s[i..k] + x.0 == x.0;
    }
  }

  /** One character where no tag starts is copied. */
  lemma ExtractPlain(s: string, i: nat)
    requires i < |s| && !TagAt(s, i)
    ensures ExtractFrom(s, i) == ([s[i]] + ExtractFrom(s, i + 1).0, ExtractFrom(s, i + 1).1)
  {
  }

  lemma CopyFront(s: string, i: nat, k: nat, t: string)
    requires i < k <= |s|
    ensures [s[i]] + (s[i + 1..k] + t) == s[i..k] + t
  {
    assert s[i..k] == [s[i]] + s[i + 1..k];
  }

  /** No tag starts inside the tag-free prefix: it would need a `[` where the written tag has one. */
  lemma NoTagBeforeTag(a: string, ds: string, r: string, i: nat)
    requires NoTag(a) && |ds| > 0 && AllDigits(ds) && i < |a|
    ensures !TagAt(a + TagText(ds) + r, i)
  {
    var s := a + TagText(ds) + r;
    assert s[..|a|] == a;
    assert s[|a|] == '[' && s[|a| + 1] == '[';
    TagWithin(s, i, |a|);
    if i + 2 <= |a| {
      TagBracketAt(s, i, |a|);
    } else {
      TagBracketAt(s, i, |a| + 1);
    }
  }

  /** A tag that ends by `hi` is a tag of the text cut at `hi`. */
  lemma TagWithin(s: string, i: nat, hi: nat)
    requires i < hi <= |s|
    ensures TagAt(s, i) && TagEnd(s, i) <= hi ==> TagAt(s[..hi], i)
  {
    if TagAt(s, i) && TagEnd(s, i) <= hi {
      var e := TagEnd(s, i);
      assert s[..hi][i..e] == s[i..e];
      TagTransfer(s, i, s[..hi], i);
    }
  }

  /** `TagBracket`, for any start. */
  lemma TagBracketAt(s: string, i: nat, m: nat)
    requires i + 2 <= m
    ensures TagAt(s, i) && m < TagEnd(s, i) ==> s[m] != '['
  {
    if TagAt(s, i) && m < TagEnd(s, i) {
      TagBracket(s, i, m);
    }
  }

  /** Past its first two characters a tag holds no `[`. */
  lemma TagBracket(s: string, i: nat, m: nat)
    requires TagAt(s, i) && i + 2 <= m < TagEnd(s, i)
    ensures s[m] != '['
  {
    var k := DigitRun(s, i + 7);
    if m < i + 7 {
      assert s[m] == s[i..i + 7][m - i];
    }
  }

  /** A tag is read from where it starts on: the scan from `i` is the scan of the text from `i`. */
  lemma {:induction false} ExtractSuffix(s: string, i: nat)
    requires i <= |s|
    ensures ExtractFrom(s, i) == ExtractFrom(s[i..], 0)
    decreases |s| - i, 1
  {
    if i < |s| {
      if TagAt(s, i) {
        SuffixAtTag(s, i);
      } else {
        SuffixPlain(s, i);
      }
    }
  }

  lemma {:induction false} SuffixAtTag(s: string, i: nat)
    requires i < |s| && TagAt(s, i)
    ensures ExtractFrom(s, i) == ExtractFrom(s[i..], 0)
    decreases |s| - i, 0
  {
    var t := s[i..];
    var next := AfterTag(s, i);
    TagSuffix(s, i);
    ExtractSuffix(s, next);
    ExtractSuffix(t, next - i);
    assert t[next - i..] == s[next..];
  }

  /** The tag at `i` is the tag at the start of the text from `i`. */
  lemma TagSuffix(s: string, i: nat)
    requires i < |s| && TagAt(s, i)
    ensures TagAt(s[i..], 0) && TagValue(s[i..], 0) == TagValue(s, i)
    ensures AfterTag(s[i..], 0) == AfterTag(s, i) - i
  {
    var t := s[i..];
    var e := TagEnd(s, i);
    assert t[0..e - i] == s[i..e];
    TagTransfer(s, i, t, 0);
    assert e < |s| ==> t[e - i] == s[e];
  }

  lemma {:induction false} SuffixPlain(s: string, i: nat)
    requires i < |s| && !TagAt(s, i)
    ensures ExtractFrom(s, i) == ExtractFrom(s[i..], 0)
    decreases |s| - i, 0
  {
    var t := s[i..];
    TagInSlice(s, i, |s|, 0);
    ExtractSuffix(s, i + 1);
    ExtractSuffix(t, 1);
    assert t[1..] == s[i + 1..];
  }
}
