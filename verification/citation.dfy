/**
 * How a chunk's metadata is cited: the long location of the context
 * prompt (`buildContextPrompt`), the short location of the source list and
 * the chat panel (`formatSources`, `SourcesPanel`), the page label both
 * share, and the `livre-chapitre-page_debut` key both deduplicate by.
 */
module Citation {
  import opened Strings
  import opened Types

  // ---------------------------------------------------------------------
  // the page label

  /** `p. a` for a single page, `p. a-b` for a range. */
  function PageLabel(a: nat, b: nat): (r: string)
    ensures |r| > 3 && r[..3] == "p. "
    ensures '-' in r <==> a != b
  {
    var pa := NatToString(a);
    assert '-' !in pa by { NoDashInNumber(a); }
    if a == b then
      assert "p. " + pa == "p. " + pa;
      "p. " + pa
    else
      var pb := NatToString(b);
      assert '-' !in pb by { NoDashInNumber(b); }
      var r := "p. " + pa + "-" + pb;
      assert r[3 + |pa|] == '-';
      r
  }

  lemma NoDashInNumber(n: nat)
    ensures '-' !in NatToString(n)
  {
  }

  /** Reads a page label back: the pages it names, first and last. */
  function ReadPageLabel(s: string): Option<(nat, nat)>
  {
    if |s| < 3 || s[..3] != "p. " then None
    else
      var ps := Split(s[3..], '-');
      if |ps| == 1 && |ps[0]| > 0 && AllDigits(ps[0]) then
        Some((ParseDecimal(ps[0]), ParseDecimal(ps[0])))
      else if |ps| == 2 && |ps[0]| > 0 && AllDigits(ps[0]) && |ps[1]| > 0 && AllDigits(ps[1]) then
        Some((ParseDecimal(ps[0]), ParseDecimal(ps[1])))
      else None
  }

  /** The label gives back the page range it was printed from. */
  lemma PageLabelRoundTrip(a: nat, b: nat)
    ensures ReadPageLabel(PageLabel(a, b)) == Some((a, b))
  {
    var pa := NatToString(a);
    NoDashInNumber(a);
    ParsePrinted(a);
    var s := PageLabel(a, b);
    if a == b {
      assert s[3..] == pa;
      SplitJoin([pa], '-');
      assert Join([pa], "-") == pa;
    } else {
      var pb := NatToString(b);
      NoDashInNumber(b);
      ParsePrinted(b);
      assert s[3..] == pa + "-" + pb;
      assert Join([pa, pb], "-") == pa + "-" + Join([pb], "-");
      SplitJoin([pa, pb], '-');
    }
  }

  /** The page part of a location: omitted when `page_debut` is 0. */
  function PagePart(m: ChunkMetadata): seq<string>
  {
    if m.pageDebut != 0 then [PageLabel(m.pageDebut, m.pageFin)] else []
  }

  // ---------------------------------------------------------------------
  // the two locations

  /** The pieces of the context-prompt location, before `.filter(Boolean).join(', ')`. */
  function LongParts(m: ChunkMetadata): seq<string>
  {
    ["Livre " + m.livre]
    + (if m.chapitre != "" then ["Chapitre " + m.chapitre] else [])
    + (if m.section.Some? && m.section.value != "" then [m.section.value] else [])
    + PagePart(m)
  }

  /** `Livre X, Chapitre Y, section, p. a-b` as `buildContextPrompt` writes it. */
  function LongLocation(m: ChunkMetadata): string
  {
    Join(LongParts(m), ", ")
  }

  /** The pieces of the short location: no section, `Chap.` for the chapter. */
  function ShortParts(m: ChunkMetadata): seq<string>
  {
    ["Livre " + m.livre]
    + (if m.chapitre != "" then ["Chap. " + m.chapitre] else [])
    + PagePart(m)
  }

  /** `Livre X, Chap. Y, p. a-b` as `formatSources` and `SourcesPanel` write it. */
  function ShortLocation(m: ChunkMetadata): string
  {
    Join(ShortParts(m), ", ")
  }

  /** The first piece of a join starts it, the last one ends it. */
  lemma JoinEnds(xs: seq<string>, sep: string)
    requires |xs| >= 1
    ensures |Join(xs, sep)| >= |xs[0]| && Join(xs, sep)[..|xs[0]|] == xs[0]
    ensures |Join(xs, sep)| >= |xs[|xs| - 1]|
    ensures Join(xs, sep)[|Join(xs, sep)| - |xs[|xs| - 1]|..] == xs[|xs| - 1]
  {
    if |xs| > 1 {
      var init := xs[..|xs| - 1];
      JoinSnoc(init, xs[|xs| - 1], sep);
      assert init + [xs[|xs| - 1]] == xs;
      assert Join(xs, sep) == xs[0] + sep + Join(xs[1..], sep);
    }
  }

  /** A location and its pieces: how it starts, and how it ends. */
  lemma LocationEnds(parts: seq<string>, m: ChunkMetadata)
    requires |parts| >= 1 && parts[0] == "Livre " + m.livre
    requires m.pageDebut != 0 ==> parts[|parts| - 1] == PageLabel(m.pageDebut, m.pageFin)
    ensures var loc := Join(parts, ", ");
      && |loc| >= 6 + |m.livre| && loc[..6 + |m.livre|] == "Livre " + m.livre
      && (m.pageDebut != 0 ==>
            var p := PageLabel(m.pageDebut, m.pageFin);
            |loc| >= |p| && loc[|loc| - |p|..] == p)
  {
    JoinEnds(parts, ", ");
  }

  /**
   * The long location always starts with `Livre X`; when `page_debut` is
   * not 0 it ends with the page label, which reads back as the page
   * range; a chapter, a section and a page are each there only when set.
   */
  lemma LongLocationShape(m: ChunkMetadata)
    ensures var loc := LongLocation(m);
      && |loc| >= 6 + |m.livre| && loc[..6 + |m.livre|] == "Livre " + m.livre
      && (m.pageDebut != 0 ==>
            var p := PageLabel(m.pageDebut, m.pageFin);
            |loc| >= |p| && loc[|loc| - |p|..] == p
            && ReadPageLabel(loc[|loc| - |p|..]) == Some((m.pageDebut, m.pageFin)))
    ensures |LongParts(m)| == 1 + (if m.chapitre != "" then 1 else 0)
                                + (if m.section.Some? && m.section.value != "" then 1 else 0)
                                + (if m.pageDebut != 0 then 1 else 0)
  {
    LocationEnds(LongParts(m), m);
    PageLabelRoundTrip(m.pageDebut, m.pageFin);
  }

  /** The same for the short location, which never shows the section. */
  lemma ShortLocationShape(m: ChunkMetadata)
    ensures var loc := ShortLocation(m);
      && |loc| >= 6 + |m.livre| && loc[..6 + |m.livre|] == "Livre " + m.livre
      && (m.pageDebut != 0 ==>
            var p := PageLabel(m.pageDebut, m.pageFin);
            |loc| >= |p| && loc[|loc| - |p|..] == p
            && ReadPageLabel(loc[|loc| - |p|..]) == Some((m.pageDebut, m.pageFin)))
    ensures |ShortParts(m)| == 1 + (if m.chapitre != "" then 1 else 0) + (if m.pageDebut != 0 then 1 else 0)
    ensures ShortLocation(m) == ShortLocation(m.(section := None))
  {
    LocationEnds(ShortParts(m), m);
    PageLabelRoundTrip(m.pageDebut, m.pageFin);
  }

  /** Without a section the long location is the short one with `Chapitre` spelled out. */
  lemma LongWithoutSection(m: ChunkMetadata)
    requires m.section.None? || m.section.value == ""
    ensures m.chapitre == "" ==> LongLocation(m) == ShortLocation(m)
  {
  }

  // ---------------------------------------------------------------------
  // the deduplication key

  /** `${livre}-${chapitre}-${page_debut}`. */
  function Key(m: ChunkMetadata): string
  {
    m.livre + "-" + m.chapitre + "-" + NatToString(m.pageDebut)
  }

  /**
   * Book and chapter numerals contain no `-`, so the key names exactly one
   * book, chapter and first page: equal keys mean equal locations.
   */
  lemma KeyInjective(m1: ChunkMetadata, m2: ChunkMetadata)
    requires '-' !in m1.livre && '-' !in m1.chapitre && '-' !in m2.livre && '-' !in m2.chapitre
    ensures Key(m1) == Key(m2) <==>
      (m1.livre, m1.chapitre, m1.pageDebut) == (m2.livre, m2.chapitre, m2.pageDebut)
  {
    if Key(m1) == Key(m2) {
      var xs1 := KeyPieces(m1);
      var xs2 := KeyPieces(m2);
      ParsePrinted(m1.pageDebut);
      ParsePrinted(m2.pageDebut);
      assert xs1[2] == xs2[2];
    }
  }

  /** The key split at its dashes. */
  lemma KeyPieces(m: ChunkMetadata) returns (xs: seq<string>)
    requires '-' !in m.livre && '-' !in m.chapitre
    ensures xs == [m.livre, m.chapitre, NatToString(m.pageDebut)]
    ensures Split(Key(m), '-') == xs
  {
    xs := [m.livre, m.chapitre, NatToString(m.pageDebut)];
    NoDashInNumber(m.pageDebut);
    assert xs[1..][1..] == [NatToString(m.pageDebut)];
    assert Join(xs[1..], "-") == m.chapitre + "-" + NatToString(m.pageDebut);
    assert Join(xs, "-") == m.livre + "-" + (m.chapitre + "-" + NatToString(m.pageDebut));
    assert Key(m) == Join(xs, ['-']);
    assert forall i :: 0 <= i < |xs| ==> '-' !in xs[i];
    SplitJoin(xs, '-');
  }
}
