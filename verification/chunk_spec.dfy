/**
 * `createChunks` as a state machine over its closure variables. One call of
 * `Feed` is one turn of the `for (const line of lines)` loop, `Save` is
 * `saveChunk`, and `ChunksOf` is the whole function: the loop over
 * `text.split('\n')` followed by the final `saveChunk()`.
 *
 * Besides the variables of the source, the state carries a trace of what
 * happened: the pages, headings and emissions in order. The trace is what
 * the invariant `Core` ties every emitted chunk to.
 */
module ChunkSpec {
  import opened Strings
  import opened Types
  import opened PageTags
  import opened Normalize
  import opened Segment

  const MinChunkSize: nat := 1500
  const MaxChunkSize: nat := 2500
  const OverlapSize: nat := 300
  /** `saveChunk` ignores a buffer whose trimmed length is below this. */
  const MinSaved: nat := 100

  /** `LIVRE_TITRES[livre] || ''`. */
  function LivreTitle(livre: string): (r: string)
    ensures livre in {"I", "II", "III", "IV"} ==> |r| > 0
    ensures livre !in {"I", "II", "III", "IV"} ==> r == ""
  {
    if livre == "I" then "Histoire et généalogie"
    else if livre == "II" then "Organisation administrative"
    else if livre == "III" then "Culte et Bienfaisance"
    else if livre == "IV" then "Institutions scientifiques"
    else ""
  }

  // ---------------------------------------------------------------------
  // Math.min(...pages) / Math.max(...pages), 0 for no page

  function Min(ps: seq<nat>): (m: nat)
    requires |ps| > 0
    ensures m in ps && forall p :: p in ps ==> m <= p
  {
    if |ps| == 1 then ps[0]
    else
      var m := Min(ps[1..]);
      assert forall p :: p in ps ==> p == ps[0] || p in ps[1..];
      if ps[0] <= m then ps[0] else m
  }

  function Max(ps: seq<nat>): (m: nat)
    requires |ps| > 0
    ensures m in ps && forall p :: p in ps ==> p <= m
  {
    if |ps| == 1 then ps[0]
    else
      var m := Max(ps[1..]);
      assert forall p :: p in ps ==> p == ps[0] || p in ps[1..];
      if ps[0] >= m then ps[0] else m
  }

  function MinOr0(ps: seq<nat>): nat {
    if |ps| > 0 then Min(ps) else 0
  }

  function MaxOr0(ps: seq<nat>): nat {
    if |ps| > 0 then Max(ps) else 0
  }

  /**
   * The page range of a chunk: 0 and 0 when no page was recorded,
   * otherwise the smallest and the largest recorded page, in that order.
   */
  lemma PageRange(ps: seq<nat>)
    ensures MinOr0(ps) <= MaxOr0(ps)
    ensures ps == [] ==> MinOr0(ps) == 0 && MaxOr0(ps) == 0
    ensures ps != [] ==> MinOr0(ps) in ps && MaxOr0(ps) in ps
    ensures forall p :: p in ps ==> MinOr0(ps) <= p <= MaxOr0(ps)
  {
    if ps != [] {
      assert ps[0] in ps;
    }
  }

  // ---------------------------------------------------------------------
  // the trace

  datatype Event =
    | Page(n: nat)             // a page-tag line
    | Book(livre: string)      // a LIVRE heading
    | Chap(chapitre: string)   // a CHAPITRE heading
    | Sect(heading: string)    // a § heading, with the label it sets
    | Line(line: string)       // a line appended to the buffer
    | CutHead                  // the size cut keeps all paragraphs but the last in the buffer
    | Emit(body: string)       // saveChunk emitted a chunk with this trimmed body
    | Reseed                   // the size cut puts the last paragraph back in the buffer

  /** The events that come from the input lines rather than from the chunker's decisions. */
  predicate IsInput(e: Event) {
    !e.CutHead? && !e.Emit? && !e.Reseed?
  }

  /** All paragraphs but the last. */
  function Front(ps: seq<string>): seq<string> {
    if ps == [] then [] else ps[..|ps| - 1]
  }

  /** The last paragraph, `''` if there is none. */
  function LastOf(ps: seq<string>): string {
    if ps == [] then "" else ps[|ps| - 1]
  }

  /**
   * The buffer after the events: the lines appended since the last
   * emission, each with its newline, as the size cut leaves them.
   */
  function Buffer(tr: seq<Event>): string
    decreases |tr|
  {
    if tr == [] then ""
    else
      var p := tr[..|tr| - 1];
      match tr[|tr| - 1]
      case Line(s) => Buffer(p) + s + "\n"
      case CutHead => Join(Front(Paragraphs(Buffer(p))), "\n\n")
      case Emit(_) => ""
      case Reseed => Kept(p) + "\n"
      case _ => Buffer(p)
  }

  /** The paragraph the last size cut set aside. */
  function Kept(tr: seq<Event>): string
    decreases |tr|
  {
    if tr == [] then ""
    else
      var p := tr[..|tr| - 1];
      if tr[|tr| - 1].CutHead? then LastOf(Paragraphs(Buffer(p))) else Kept(p)
  }

  /** The book in force after the events: the last LIVRE heading, `'I'` before any. */
  function CurrentLivre(tr: seq<Event>): string {
    if tr == [] then "I"
    else match tr[|tr| - 1]
      case Book(v) => v
      case _ => CurrentLivre(tr[..|tr| - 1])
  }

  /** The chapter in force: the last CHAPITRE heading after the last LIVRE heading, `''` if none. */
  function CurrentChapitre(tr: seq<Event>): string {
    if tr == [] then ""
    else match tr[|tr| - 1]
      case Book(_) => ""
      case Chap(v) => v
      case _ => CurrentChapitre(tr[..|tr| - 1])
  }

  /** The section in force: the last § label after the last book or chapter heading. */
  function CurrentSection(tr: seq<Event>): Option<string> {
    if tr == [] then None
    else match tr[|tr| - 1]
      case Book(_) => None
      case Chap(_) => None
      case Sect(l) => Some(l)
      case _ => CurrentSection(tr[..|tr| - 1])
  }

  /** The pages recorded since the last emission, in order. */
  function PagesSince(tr: seq<Event>): seq<nat> {
    if tr == [] then []
    else match tr[|tr| - 1]
      case Page(n) => PagesSince(tr[..|tr| - 1]) + [n]
      case Emit(_) => []
      case _ => PagesSince(tr[..|tr| - 1])
  }

  /**
   * The overlap put in front of the next chunk: the last 300 characters of
   * the last emitted body and a blank line, or nothing when no chunk was
   * emitted since the start or since the last LIVRE heading.
   */
  function Tail(tr: seq<Event>): string {
    if tr == [] then ""
    else match tr[|tr| - 1]
      case Book(_) => ""
      case Emit(b) => LastN(b, OverlapSize) + "\n\n"
      case _ => Tail(tr[..|tr| - 1])
  }

  /** The metadata of chunk number `k` when it is emitted after the events `before`. */
  function MetaAt(before: seq<Event>, k: nat): ChunkMetadata {
    var livre := CurrentLivre(before);
    var pages := PagesSince(before);
    ChunkMetadata(livre, LivreTitle(livre), CurrentChapitre(before), CurrentSection(before),
                  MinOr0(pages), MaxOr0(pages), k)
  }

  /**
   * The chunks are exactly one per emission, in order. Each is the overlap
   * in force followed by the trimmed buffer of the moment, which is
   * tag-free and at least 100 characters long, with the metadata in force
   * when it was emitted.
   */
  predicate Matches(tr: seq<Event>, cs: seq<Chunk>) {
    if tr == [] then cs == []
    else match tr[|tr| - 1]
      case Emit(b) =>
        && |cs| > 0
        && Matches(tr[..|tr| - 1], cs[..|cs| - 1])
        && cs[|cs| - 1] == Chunk(Tail(tr[..|tr| - 1]) + b, MetaAt(tr[..|tr| - 1], |cs| - 1))
        && b == Trim(Buffer(tr[..|tr| - 1])) && |b| >= MinSaved && NoTag(b)
      case _ => Matches(tr[..|tr| - 1], cs)
  }

  /** The lines of the events, each followed by a newline. */
  function LinesText(tr: seq<Event>): string {
    if tr == [] then ""
    else match tr[|tr| - 1]
      case Line(s) => LinesText(tr[..|tr| - 1]) + s + "\n"
      case _ => LinesText(tr[..|tr| - 1])
  }

  /** Between two size cuts and emissions the buffer only grows, by the appended lines in order. */
  lemma {:induction false} BufferAppends(tr: seq<Event>, rest: seq<Event>)
    requires forall i :: 0 <= i < |rest| ==> IsInput(rest[i])
    ensures Buffer(tr + rest) == Buffer(tr) + LinesText(rest)
    decreases |rest|
  {
    if rest == [] {
      assert tr + rest == tr;
    } else {
      var q, e := rest[..|rest| - 1], rest[|rest| - 1];
      assert forall i :: 0 <= i < |q| ==> q[i] == rest[i];
      BufferAppends(tr, q);
      assert rest == q + [e];
      assert tr + rest == (tr + q) + [e];
      BufferAppendsStep(Buffer(tr), tr + q, q, e);
    }
  }

  lemma BufferAppendsStep(b: string, x: seq<Event>, q: seq<Event>, e: Event)
    requires IsInput(e) && Buffer(x) == b + LinesText(q)
    ensures Buffer(x + [e]) == b + LinesText(q + [e])
  {
    InputText(x, e);
    InputText(q, e);
    var add := if e.Line? then e.line + "\n" else "";
    assert b + LinesText(q) + add == b + (LinesText(q) + add);
  }

  /** Right after an emission the buffer is exactly the lines appended since. */
  lemma BufferAfterEmit(tr: seq<Event>, b: string, rest: seq<Event>)
    requires forall i :: 0 <= i < |rest| ==> IsInput(rest[i])
    ensures Buffer(tr + [Emit(b)] + rest) == LinesText(rest)
  {
    BufferAppends(tr + [Emit(b)], rest);
    assert (tr + [Emit(b)])[..|tr|] == tr;
  }

  /** What one input event adds to the buffer and to the lines' text. */
  lemma InputText(p: seq<Event>, e: Event)
    requires IsInput(e)
    ensures Buffer(p + [e]) == Buffer(p) + (if e.Line? then e.line + "\n" else "")
    ensures LinesText(p + [e]) == LinesText(p) + (if e.Line? then e.line + "\n" else "")
  {
    assert (p + [e])[..|p|] == p;
  }

  /** The events that come from the input lines, in order. */
  function Inputs(tr: seq<Event>): seq<Event> {
    if tr == [] then []
    else if IsInput(tr[|tr| - 1]) then Inputs(tr[..|tr| - 1]) + [tr[|tr| - 1]]
    else Inputs(tr[..|tr| - 1])
  }

  // ---------------------------------------------------------------------
  // when the chunker acts

  /** A line was just appended and the size cut has something to do. */
  predicate Overfull(p: seq<Event>) {
    && |p| > 0 && p[|p| - 1].Line?
    && |Buffer(p)| > MaxChunkSize
    && (|Paragraphs(Buffer(p))| > 1 || |Trim(Buffer(p))| >= MinSaved)
  }

  /** Inside a paragraph cut, before the last paragraph is put back. */
  predicate Cutting(p: seq<Event>) {
    && |p| > 0
    && (p[|p| - 1].CutHead? || (p[|p| - 1].Emit? && |p| > 1 && p[|p| - 2].CutHead?))
  }

  /** The last event is an emission that no size cut asked for: a heading or the end asked for it. */
  predicate Flushed(p: seq<Event>) {
    && |p| > 0 && p[|p| - 1].Emit?
    && !Overfull(p[..|p| - 1])
    && !(|p| > 1 && p[|p| - 2].CutHead?)
  }

  /** No size cut is pending. */
  predicate Settled(p: seq<Event>) {
    !Overfull(p) && !Cutting(p)
  }

  /** Between two lines: no size cut pending and no emission waiting for its heading. */
  predicate Between(p: seq<Event>) {
    Settled(p) && !Flushed(p)
  }

  /**
   * When each event may follow the events `p`:
   * - a page tag or a line comes between two lines;
   * - a LIVRE or CHAPITRE heading comes once the buffer cannot be saved,
   *   so a buffer of 100 trimmed characters or more is emitted before it;
   * - a § heading comes once the buffer is at most 1500 characters long
   *   or cannot be saved, and an emission just before it is one of a
   *   buffer over 1500 characters;
   * - an emission takes a buffer of at least 100 trimmed characters, and
   *   right after an overfull line only when the buffer is one paragraph;
   * - the paragraph cut takes an overfull buffer of several paragraphs;
   * - the last paragraph goes back once the rest is emitted or too short.
   */
  predicate Step(p: seq<Event>, e: Event) {
    match e
    case Page(_) => Between(p)
    case Line(_) => Between(p)
    case Book(_) => Settled(p) && |Trim(Buffer(p))| < MinSaved
    case Chap(_) => Settled(p) && |Trim(Buffer(p))| < MinSaved
    case Sect(_) =>
      && Settled(p)
      && (|Buffer(p)| <= MinChunkSize || |Trim(Buffer(p))| < MinSaved)
      && (Flushed(p) ==> |Buffer(p[..|p| - 1])| > MinChunkSize)
    case Emit(_) =>
      && |Trim(Buffer(p))| >= MinSaved
      && (Overfull(p) ==> |Paragraphs(Buffer(p))| <= 1)
    case CutHead => Overfull(p) && |Paragraphs(Buffer(p))| > 1
    case Reseed => Cutting(p) && |Trim(Buffer(p))| < MinSaved
  }

  /** Every event comes when `Step` allows it. */
  predicate Lawful(tr: seq<Event>) {
    tr == [] || (Lawful(tr[..|tr| - 1]) && Step(tr[..|tr| - 1], tr[|tr| - 1]))
  }

  /** At the end nothing is pending and what is left in the buffer cannot be saved. */
  predicate Final(tr: seq<Event>) {
    Settled(tr) && |Trim(Buffer(tr))| < MinSaved
  }

  /** `§ ${value}. — ${titre}`. */
  function SectionLabel(v: string, titre: string): string {
    "§ " + v + ". " + [EmDash] + " " + titre
  }

  function HeadingEvents(s: Structure): seq<Event> {
    match s
    case Livre(v) => [Book(v)]
    case Chapitre(v) => [Chap(v)]
    case Section(v, t) => [Sect(SectionLabel(v, t))]
    case NoStructure => []
  }

  /** The input events of one line: its first page tag, else its heading, if any, and the line itself. */
  function LineEvents(line: string): seq<Event> {
    match FindPageTag(line)
    case Some(n) => [Page(n)]
    case None => HeadingEvents(DetectStructure(line)) + [Line(line)]
  }

  function AllLineEvents(lines: seq<string>): seq<Event> {
    if lines == [] then []
    else AllLineEvents(lines[..|lines| - 1]) + LineEvents(lines[|lines| - 1])
  }

  // ---------------------------------------------------------------------
  // the state machine

  datatype State = State(
    livre: string,
    chapitre: string,
    section: Option<string>,
    content: string,
    pages: seq<nat>,
    index: nat,
    lastEnd: string,
    chunks: seq<Chunk>,
    trace: seq<Event>)

  /** The closure variables before the first line. */
  const Init: State := State("I", "", None, "", [], 0, "", [], [])

  /** `saveChunk()`. */
  function Save(st: State): State
  {
    if |Trim(st.content)| < MinSaved then st
    else
      var ex := ExtractPageNumbers(st.content);
      Push(st.(pages := st.pages + ex.1), Trim(ex.0))
  }

  /**
   * `saveChunk` does nothing to a buffer whose trimmed text is under 100
   * characters; otherwise it appends exactly one chunk, keeps the earlier
   * ones, empties the buffer and the page list and advances the index.
   * On a tag-free buffer, which is what the loop gives it, the new chunk
   * is the overlap followed by the trimmed buffer, with the book, chapter,
   * section, pages and index in force, and the trace records its body.
   */
  lemma SaveEffect(st: State)
    ensures |Trim(st.content)| < MinSaved ==> Save(st) == st
    ensures |Trim(st.content)| >= MinSaved ==>
      && |Save(st).chunks| == |st.chunks| + 1 && Save(st).chunks[..|st.chunks|] == st.chunks
      && Save(st).content == "" && Save(st).pages == [] && Save(st).index == st.index + 1
    ensures |Trim(st.content)| >= MinSaved && NoTag(st.content) ==>
      && Save(st).chunks == st.chunks + [Chunk(st.lastEnd + Trim(st.content), MetaOf(st))]
      && Save(st).lastEnd == LastN(Trim(st.content), OverlapSize) + "\n\n"
      && Save(st).trace == st.trace + [Emit(Trim(st.content))]
  {
    if |Trim(st.content)| >= MinSaved {
      var ex := ExtractPageNumbers(st.content);
      PushEffect(st.(pages := st.pages + ex.1), Trim(ex.0));
      if NoTag(st.content) {
        ExtractNoTag(st.content);
        assert st.(pages := st.pages + ex.1) == st;
      }
    }
  }

  /** `Push` appends one chunk and keeps the earlier ones. */
  lemma PushEffect(st: State, body: string)
    ensures |Push(st, body).chunks| == |st.chunks| + 1
    ensures Push(st, body).chunks[..|st.chunks|] == st.chunks
  {
    var r := Push(st, body);
    assert r.chunks == st.chunks + [r.chunks[|st.chunks|]];
  }

  /** `Save` of a buffer long enough to be saved, in terms of `Push`. */
  lemma SaveLong(st: State)
    requires |Trim(st.content)| >= MinSaved
    ensures var ex := ExtractPageNumbers(st.content);
      Save(st) == Push(st.(pages := st.pages + ex.1), Trim(ex.0))
  {
  }

  /**
   * The second half of `saveChunk`: push the overlap and the body with the
   * metadata in force, keep the end of the body for the next overlap, and
   * empty the buffer and the page list.
   */
  function Push(st: State, body: string): State
  {
    var c := Chunk(st.lastEnd + body, MetaOf(st));
    st.(chunks := st.chunks + [c],
        lastEnd := LastN(body, OverlapSize) + "\n\n",
        index := st.index + 1,
        content := "",
        pages := [],
        trace := st.trace + [Emit(body)])
  }

  /** The metadata `saveChunk` writes from the closure variables. */
  function MetaOf(st: State): ChunkMetadata {
    ChunkMetadata(st.livre, LivreTitle(st.livre), st.chapitre, st.section,
                  MinOr0(st.pages), MaxOr0(st.pages), st.index)
  }

  /** A page-tag line: its number is recorded and the line is skipped. */
  function RecordPage(st: State, n: nat): State {
    st.(pages := st.pages + [n], trace := st.trace + [Page(n)])
  }

  /** What a heading does before its line is appended. */
  function Heading(st: State, s: Structure): State {
    match s
    case Livre(v) =>
      var s1 := Save(st);
      s1.(livre := v, chapitre := "", section := None, lastEnd := "", trace := s1.trace + [Book(v)])
    case Chapitre(v) =>
      var s1 := Save(st);
      s1.(chapitre := v, section := None, trace := s1.trace + [Chap(v)])
    case Section(v, titre) =>
      var s1 := if |st.content| > MinChunkSize then Save(st) else st;
      var heading := SectionLabel(v, titre);
      s1.(section := Some(heading), trace := s1.trace + [Sect(heading)])
    case NoStructure => st
  }

  /**
   * The cut after a line is appended: past 2500 characters, everything but
   * the last paragraph is offered to `saveChunk` and the buffer becomes the
   * last paragraph; with a single paragraph the whole buffer is offered.
   */
  function Cut(st: State): State {
    if |st.content| <= MaxChunkSize then st
    else
      var ps := Paragraphs(st.content);
      if |ps| > 1 then
        var s1 := Save(st.(content := Join(ps[..|ps| - 1], "\n\n"), trace := st.trace + [CutHead]));
        s1.(content := ps[|ps| - 1] + "\n", trace := s1.trace + [Reseed])
      else Save(st)
  }

  /** One turn of the loop. */
  function Feed(st: State, line: string): State {
    match FindPageTag(line)
    case Some(n) => RecordPage(st, n)
    case None =>
      var s1 := Heading(st, DetectStructure(line));
      Cut(s1.(content := s1.content + line + "\n", trace := s1.trace + [Line(line)]))
  }

  function Run(st: State, lines: seq<string>): State {
    if lines == [] then st
    else Feed(Run(st, lines[..|lines| - 1]), lines[|lines| - 1])
  }

  /** A turn on a line without a page tag: its heading, the append, the cut. */
  lemma FeedText(st: State, line: string)
    requires FindPageTag(line).None?
    ensures var s1 := Heading(st, DetectStructure(line));
      Feed(st, line) == Cut(s1.(content := s1.content + line + "\n", trace := s1.trace + [Line(line)]))
  {
  }

  /** Running one more line is one more turn. */
  lemma RunStep(st: State, lines: seq<string>, i: nat)
    requires i < |lines|
    ensures Run(st, lines[..i + 1]) == Feed(Run(st, lines[..i]), lines[i])
  {
    assert lines[..i + 1][..i] == lines[..i];
  }

  /** `createChunks(text)`. */
  function ChunksOf(text: string): seq<Chunk> {
    Save(Run(Init, Split(text, '\n'))).chunks
  }

  // ---------------------------------------------------------------------
  // the invariant

  predicate Core(st: State) {
    && |st.chunks| == st.index
    && st.livre == CurrentLivre(st.trace)
    && st.chapitre == CurrentChapitre(st.trace)
    && st.section == CurrentSection(st.trace)
    && st.pages == PagesSince(st.trace)
    && st.lastEnd == Tail(st.trace)
    && st.content == Buffer(st.trace)
    && Matches(st.trace, st.chunks)
    && Lawful(st.trace)
  }

  /** The buffer holds whole lines and no page tag. */
  predicate Whole(st: State) {
    NoTag(st.content) && (st.content == [] || st.content[|st.content| - 1] == '\n')
  }

  /** Between lines. */
  predicate Inv(st: State) {
    Core(st) && Whole(st) && Between(st.trace)
  }

  /** Right after a line is appended, before the size cut. */
  predicate Appended(st: State) {
    Core(st) && Whole(st) && |st.trace| > 0 && st.trace[|st.trace| - 1].Line?
  }

  lemma InitInv()
    ensures Inv(Init) && Init.trace == []
  {
  }

  /** What one more event does to the trace functions it passes through. */
  lemma Snoc(tr: seq<Event>, e: Event)
    ensures (tr + [e])[..|tr|] == tr
    ensures Lawful(tr + [e]) == (Lawful(tr) && Step(tr, e))
    ensures Inputs(tr + [e]) == if IsInput(e) then Inputs(tr) + [e] else Inputs(tr)
  {
    assert (tr + [e])[..|tr|] == tr;
  }

  /** An event other than an emission leaves the chunks matched. */
  lemma NonEmitStep(tr: seq<Event>, cs: seq<Chunk>, e: Event)
    requires !e.Emit?
    ensures Matches(tr + [e], cs) == Matches(tr, cs)
    ensures (tr + [e])[..|tr|] == tr
  {
    assert (tr + [e])[..|tr|] == tr;
  }

  /**
   * `saveChunk` keeps the invariant: the chunk it pushes is the overlap
   * and the trimmed buffer, with the pages recorded since the last
   * emission; the tags `extractPageNumbers` looks for are never there.
   */
  lemma SaveKeeps(st: State)
    requires Core(st) && NoTag(st.content)
    requires Overfull(st.trace) ==> |Paragraphs(st.content)| <= 1
    ensures Core(Save(st)) && NoTag(Save(st).content) && (Whole(st) ==> Whole(Save(st)))
    ensures Inputs(Save(st).trace) == Inputs(st.trace)
    ensures |Trim(st.content)| < MinSaved ==> Save(st) == st
    ensures |Trim(st.content)| >= MinSaved ==>
      Save(st).content == "" && Save(st).trace == st.trace + [Emit(Trim(st.content))]
  {
    SaveEffect(st);
    if |Trim(st.content)| >= MinSaved {
      ExtractNoTag(st.content);
      assert st.pages + [] == st.pages;
      assert st.(pages := st.pages) == st;
      TrimSliceNoTag(st.content);
      PushKeeps(st, Trim(st.content));
    }
  }

  /** Pushing the trimmed buffer, when it may be emitted, keeps the invariant. */
  lemma PushKeeps(st: State, body: string)
    requires Core(st) && body == Trim(st.content) && |body| >= MinSaved && NoTag(body)
    requires Overfull(st.trace) ==> |Paragraphs(st.content)| <= 1
    ensures Core(Push(st, body)) && Inputs(Push(st, body).trace) == Inputs(st.trace)
  {
    EmitStep(st.trace, body);
    MatchesEmit(st.trace, st.chunks, body);
    Snoc(st.trace, Emit(body));
  }

  /** What an emission does to the trace functions. */
  lemma EmitStep(tr: seq<Event>, b: string)
    ensures CurrentLivre(tr + [Emit(b)]) == CurrentLivre(tr)
    ensures CurrentChapitre(tr + [Emit(b)]) == CurrentChapitre(tr)
    ensures CurrentSection(tr + [Emit(b)]) == CurrentSection(tr)
    ensures PagesSince(tr + [Emit(b)]) == []
    ensures Tail(tr + [Emit(b)]) == LastN(b, OverlapSize) + "\n\n"
    ensures Buffer(tr + [Emit(b)]) == ""
    ensures Inputs(tr + [Emit(b)]) == Inputs(tr)
  {
    assert (tr + [Emit(b)])[..|tr|] == tr;
  }

  lemma MatchesEmit(tr: seq<Event>, cs: seq<Chunk>, b: string)
    requires Matches(tr, cs) && b == Trim(Buffer(tr)) && |b| >= MinSaved && NoTag(b)
    ensures Matches(tr + [Emit(b)], cs + [Chunk(Tail(tr) + b, MetaAt(tr, |cs|))])
  {
    var c := Chunk(Tail(tr) + b, MetaAt(tr, |cs|));
    assert (tr + [Emit(b)])[..|tr|] == tr;
    assert (cs + [c])[..|cs|] == cs;
  }

  lemma TrimSliceNoTag(s: string)
    requires NoTag(s)
    ensures NoTag(Trim(s))
  {
    var lo := LeadingSpaces(s);
    NoTagSlice(s, lo, lo + |Trim(s)|);
  }

  /**
   * `saveChunk` between lines: afterwards no size cut is pending, the
   * buffer cannot be saved, and an emission it made is the trimmed buffer.
   */
  lemma SaveSettles(st: State)
    requires Inv(st)
    ensures Core(Save(st)) && Whole(Save(st)) && Inputs(Save(st).trace) == Inputs(st.trace)
    ensures Settled(Save(st).trace) && |Trim(Save(st).content)| < MinSaved
    ensures Save(st) == st || Save(st).trace == st.trace + [Emit(Trim(st.content))]
  {
    SaveKeeps(st);
    if |Trim(st.content)| >= MinSaved {
      Snoc(st.trace, Emit(Trim(st.content)));
    }
  }

  /** An input event that leaves the buffer alone keeps the invariant. */
  lemma InputStep(st: State, e: Event, s2: State)
    requires Core(st) && Whole(st) && Step(st.trace, e)
    requires e.Page? || e.Book? || e.Chap? || e.Sect?
    requires s2.trace == st.trace + [e] && s2.content == st.content && s2.chunks == st.chunks
    requires s2.index == st.index
    requires s2.livre == CurrentLivre(s2.trace) && s2.chapitre == CurrentChapitre(s2.trace)
    requires s2.section == CurrentSection(s2.trace) && s2.pages == PagesSince(s2.trace)
    requires s2.lastEnd == Tail(s2.trace)
    ensures Inv(s2) && Inputs(s2.trace) == Inputs(st.trace) + [e]
  {
    Snoc(st.trace, e);
    NonEmitStep(st.trace, st.chunks, e);
  }

  lemma RecordPageKeeps(st: State, n: nat)
    requires Inv(st)
    ensures Inv(RecordPage(st, n))
    ensures Inputs(RecordPage(st, n).trace) == Inputs(st.trace) + [Page(n)]
  {
    Snoc(st.trace, Page(n));
    InputStep(st, Page(n), RecordPage(st, n));
  }

  lemma HeadingKeeps(st: State, s: Structure)
    requires Inv(st)
    ensures Inv(Heading(st, s))
    ensures Inputs(Heading(st, s).trace) == Inputs(st.trace) + HeadingEvents(s)
  {
    match s
    case Livre(v) => BookKeeps(st, v);
    case Chapitre(v) => ChapKeeps(st, v);
    case Section(v, titre) => SectionKeeps(st, v, titre);
    case NoStructure =>
  }

  lemma BookKeeps(st: State, v: string)
    requires Inv(st)
    ensures Inv(Heading(st, Livre(v)))
    ensures Inputs(Heading(st, Livre(v)).trace) == Inputs(st.trace) + [Book(v)]
  {
    var s1 := Save(st);
    SaveSettles(st);
    AfterInput(s1.trace, Book(v));
    var s2 := s1.(livre := v, chapitre := "", section := None, lastEnd := "", trace := s1.trace + [Book(v)]);
    assert Heading(st, Livre(v)) == s2;
    assert Step(s1.trace, Book(v));
    InputStep(s1, Book(v), s2);
  }

  lemma ChapKeeps(st: State, v: string)
    requires Inv(st)
    ensures Inv(Heading(st, Chapitre(v)))
    ensures Inputs(Heading(st, Chapitre(v)).trace) == Inputs(st.trace) + [Chap(v)]
  {
    var s1 := Save(st);
    SaveSettles(st);
    AfterInput(s1.trace, Chap(v));
    var s2 := s1.(chapitre := v, section := None, trace := s1.trace + [Chap(v)]);
    assert Heading(st, Chapitre(v)) == s2;
    assert Step(s1.trace, Chap(v));
    InputStep(s1, Chap(v), s2);
  }

  /** What a page tag or a heading does to the trace functions. */
  lemma AfterInput(tr: seq<Event>, e: Event)
    requires e.Page? || e.Book? || e.Chap? || e.Sect?
    ensures CurrentLivre(tr + [e]) == if e.Book? then e.livre else CurrentLivre(tr)
    ensures CurrentChapitre(tr + [e]) ==
      if e.Book? then "" else if e.Chap? then e.chapitre else CurrentChapitre(tr)
    ensures CurrentSection(tr + [e]) ==
      if e.Book? || e.Chap? then None else if e.Sect? then Some(e.heading) else CurrentSection(tr)
    ensures PagesSince(tr + [e]) == if e.Page? then PagesSince(tr) + [e.n] else PagesSince(tr)
    ensures Tail(tr + [e]) == if e.Book? then "" else Tail(tr)
    ensures Buffer(tr + [e]) == Buffer(tr)
    ensures (tr + [e])[..|tr|] == tr
  {
    assert (tr + [e])[..|tr|] == tr;
  }

  lemma SectionKeeps(st: State, v: string, titre: string)
    requires Inv(st)
    ensures Inv(Heading(st, Section(v, titre)))
    ensures Inputs(Heading(st, Section(v, titre)).trace) == Inputs(st.trace) + [Sect(SectionLabel(v, titre))]
  {
    var e := Sect(SectionLabel(v, titre));
    var s1 := if |st.content| > MinChunkSize then Save(st) else st;
    if |st.content| > MinChunkSize {
      SectionAfterSave(st, e);
    } else {
      assert Step(st.trace, e);
    }
    SectionLabelKeeps(s1, v, titre);
    assert Heading(st, Section(v, titre)) == s1.(section := Some(SectionLabel(v, titre)), trace := s1.trace + [e]);
  }

  /** The label of a § heading, once the save it may trigger is done. */
  lemma SectionLabelKeeps(s1: State, v: string, titre: string)
    requires Core(s1) && Whole(s1) && Step(s1.trace, Sect(SectionLabel(v, titre)))
    ensures var e := Sect(SectionLabel(v, titre));
      Inv(s1.(section := Some(SectionLabel(v, titre)), trace := s1.trace + [e]))
      && Inputs(s1.trace + [e]) == Inputs(s1.trace) + [e]
  {
    var e := Sect(SectionLabel(v, titre));
    AfterInput(s1.trace, e);
    InputStep(s1, e, s1.(section := Some(SectionLabel(v, titre)), trace := s1.trace + [e]));
  }

  /** A § heading after a buffer over 1500 characters follows its save. */
  lemma SectionAfterSave(st: State, e: Event)
    requires Inv(st) && e.Sect? && |st.content| > MinChunkSize
    ensures Core(Save(st)) && Whole(Save(st)) && Inputs(Save(st).trace) == Inputs(st.trace)
    ensures Step(Save(st).trace, e)
  {
    SaveSettles(st);
    if Save(st) != st {
      Snoc(st.trace, Emit(Trim(st.content)));
    }
  }

  /** Appending a tag-free line and its newline keeps the buffer tag-free and line-ended. */
  lemma AppendKeeps(st: State, line: string)
    requires Inv(st) && NoTag(line)
    ensures Appended(st.(content := st.content + line + "\n", trace := st.trace + [Line(line)]))
    ensures Inputs(st.trace + [Line(line)]) == Inputs(st.trace) + [Line(line)]
  {
    Snoc(st.trace, Line(line));
    NonEmitStep(st.trace, st.chunks, Line(line));
    NoTagGlue(line, "");
    assert line + "\n" + "" == line + "\n";
    var c := st.content;
    if c != [] {
      var p := c[..|c| - 1];
      NoTagSlice(c, 0, |c| - 1);
      NoTagGlue(p, line + "\n");
      assert c == p + "\n";
      assert c + line + "\n" == p + "\n" + (line + "\n");
    } else {
      assert c + line + "\n" == line + "\n";
    }
  }

  /** Paragraphs of tag-free text joined with a blank line are tag-free. */
  lemma {:induction false} NoTagJoin(xs: seq<string>)
    requires forall i :: 0 <= i < |xs| ==> NoTag(xs[i])
    ensures NoTag(Join(xs, "\n\n"))
    decreases |xs|
  {
    if |xs| == 0 {
      NoTagEmpty();
    } else if |xs| > 1 {
      var j := Join(xs[1..], "\n\n");
      NoTagJoin(xs[1..]);
      NoTagGlue("", j);
      assert "" + "\n" + j == "\n" + j;
      NoTagGlue(xs[0], "\n" + j);
      assert xs[0] + "\n\n" + j == xs[0] + "\n" + ("\n" + j);
    }
  }

  lemma CutKeeps(st: State)
    requires Appended(st)
    ensures Inv(Cut(st)) && Inputs(Cut(st).trace) == Inputs(st.trace)
  {
    if |st.content| > MaxChunkSize {
      if |Paragraphs(st.content)| > 1 {
        CutParagraphKeeps(st);
      } else {
        SaveKeeps(st);
        if |Trim(st.content)| >= MinSaved {
          Snoc(st.trace, Emit(Trim(st.content)));
        }
      }
    }
  }

  /** What the paragraph cut's events do to the trace functions. */
  lemma AfterCut(tr: seq<Event>, e: Event)
    requires e.CutHead? || e.Reseed?
    ensures CurrentLivre(tr + [e]) == CurrentLivre(tr)
    ensures CurrentChapitre(tr + [e]) == CurrentChapitre(tr)
    ensures CurrentSection(tr + [e]) == CurrentSection(tr)
    ensures PagesSince(tr + [e]) == PagesSince(tr)
    ensures Tail(tr + [e]) == Tail(tr)
    ensures Buffer(tr + [e]) ==
      if e.CutHead? then Join(Front(Paragraphs(Buffer(tr))), "\n\n") else Kept(tr) + "\n"
    ensures e.CutHead? ==> Kept(tr + [e]) == LastOf(Paragraphs(Buffer(tr)))
    ensures Inputs(tr + [e]) == Inputs(tr)
  {
    assert (tr + [e])[..|tr|] == tr;
  }

  /** The head of the paragraph cut: the buffer becomes all paragraphs but the last. */
  lemma CutHeadKeeps(st: State)
    requires Appended(st) && |st.content| > MaxChunkSize && |Paragraphs(st.content)| > 1
    ensures var ps := Paragraphs(st.content);
      var s1 := st.(content := Join(ps[..|ps| - 1], "\n\n"), trace := st.trace + [CutHead]);
      Core(s1) && NoTag(s1.content) && !Overfull(s1.trace) && Inputs(s1.trace) == Inputs(st.trace)
      && Kept(s1.trace) == ps[|ps| - 1]
  {
    var ps := Paragraphs(st.content);
    CutHeadNoTag(st.content);
    AfterCut(st.trace, CutHead);
    Snoc(st.trace, CutHead);
    NonEmitStep(st.trace, st.chunks, CutHead);
    assert Step(st.trace, CutHead);
  }

  lemma CutHeadNoTag(text: string)
    requires NoTag(text) && |Paragraphs(text)| > 1
    ensures var ps := Paragraphs(text);
      NoTag(Join(ps[..|ps| - 1], "\n\n")) && NoTag(ps[|ps| - 1])
  {
    var ps := Paragraphs(text);
    ParagraphsNoTag(text);
    var init := ps[..|ps| - 1];
    assert forall i :: 0 <= i < |init| ==> init[i] == ps[i];
    NoTagJoin(init);
  }

  lemma CutParagraphKeeps(st: State)
    requires Appended(st) && |st.content| > MaxChunkSize && |Paragraphs(st.content)| > 1
    ensures Inv(Cut(st)) && Inputs(Cut(st).trace) == Inputs(st.trace)
  {
    var ps := Paragraphs(st.content);
    var s0 := st.(content := Join(ps[..|ps| - 1], "\n\n"), trace := st.trace + [CutHead]);
    CutHeadKeeps(st);
    CutHeadNoTag(st.content);
    SaveKeeps(s0);
    var s1 := Save(s0);
    CutSaved(s0);
    ReseedKeeps(s1, ps[|ps| - 1]);
    CutByParagraphs(st);
  }

  /** The paragraph cut, event by event. */
  lemma CutByParagraphs(st: State)
    requires |st.content| > MaxChunkSize && |Paragraphs(st.content)| > 1
    ensures var ps := Paragraphs(st.content);
      var s1 := Save(st.(content := Join(ps[..|ps| - 1], "\n\n"), trace := st.trace + [CutHead]));
      Cut(st) == s1.(content := ps[|ps| - 1] + "\n", trace := s1.trace + [Reseed])
  {
  }

  /** After the head of the cut is offered to `saveChunk`, the cut is still under way. */
  lemma CutSaved(s0: State)
    requires |s0.trace| > 0 && s0.trace[|s0.trace| - 1].CutHead?
    requires |Trim(s0.content)| < MinSaved ==> Save(s0) == s0
    requires |Trim(s0.content)| >= MinSaved ==>
      Save(s0).content == "" && Save(s0).trace == s0.trace + [Emit(Trim(s0.content))]
    ensures Kept(Save(s0).trace) == Kept(s0.trace) && Cutting(Save(s0).trace)
    ensures |Trim(Save(s0).content)| < MinSaved
  {
    if |Trim(s0.content)| >= MinSaved {
      Snoc(s0.trace, Emit(Trim(s0.content)));
    }
  }

  /** The tail of the paragraph cut: the set-aside paragraph goes back into the buffer. */
  lemma ReseedKeeps(s1: State, last: string)
    requires Core(s1) && Cutting(s1.trace) && |Trim(s1.content)| < MinSaved
    requires Kept(s1.trace) == last && NoTag(last)
    ensures Inv(s1.(content := last + "\n", trace := s1.trace + [Reseed]))
    ensures Inputs(s1.trace + [Reseed]) == Inputs(s1.trace)
  {
    ReseedCore(s1, last);
    NoTagGlue(last, "");
    assert last + "\n" + "" == last + "\n";
    assert Between(s1.trace + [Reseed]);
  }

  lemma ReseedCore(s1: State, last: string)
    requires Core(s1) && Cutting(s1.trace) && |Trim(s1.content)| < MinSaved && Kept(s1.trace) == last
    ensures Core(s1.(content := last + "\n", trace := s1.trace + [Reseed]))
    ensures Inputs(s1.trace + [Reseed]) == Inputs(s1.trace)
  {
    AfterCut(s1.trace, Reseed);
    Snoc(s1.trace, Reseed);
    NonEmitStep(s1.trace, s1.chunks, Reseed);
    assert Step(s1.trace, Reseed);
  }

  /** One turn of the loop keeps the invariant and adds the line's own events to the inputs. */
  lemma FeedKeeps(st: State, line: string)
    requires Inv(st)
    ensures Inv(Feed(st, line))
    ensures Inputs(Feed(st, line).trace) == Inputs(st.trace) + LineEvents(line)
  {
    match FindPageTag(line)
    case Some(n) =>
      RecordPageKeeps(st, n);
    case None =>
      FeedTextKeeps(st, line);
  }

  lemma FeedTextKeeps(st: State, line: string)
    requires Inv(st) && FindPageTag(line).None?
    ensures Inv(Feed(st, line))
    ensures Inputs(Feed(st, line).trace) == Inputs(st.trace) + LineEvents(line)
  {
    NoTagOfTextLine(line);
    var s := DetectStructure(line);
    HeadingKeeps(st, s);
    var s1 := Heading(st, s);
    AppendAndCut(s1, line);
    FeedText(st, line);
    TextLineEvents(line);
    InputsChain(Inputs(st.trace), HeadingEvents(s), Line(line), Inputs(s1.trace), Inputs(Feed(st, line).trace));
  }

  lemma InputsChain(a: seq<Event>, b: seq<Event>, e: Event, ab: seq<Event>, abe: seq<Event>)
    requires ab == a + b && abe == ab + [e]
    ensures abe == a + (b + [e])
  {
  }

  lemma NoTagOfTextLine(line: string)
    requires FindPageTag(line).None?
    ensures NoTag(line)
  {
    FindPageTagSpec(line);
  }

  lemma TextLineEvents(line: string)
    requires FindPageTag(line).None?
    ensures LineEvents(line) == HeadingEvents(DetectStructure(line)) + [Line(line)]
  {
  }

  /** The append and the size cut that follows it. */
  lemma AppendAndCut(s1: State, line: string)
    requires Inv(s1) && NoTag(line)
    ensures var s2 := s1.(content := s1.content + line + "\n", trace := s1.trace + [Line(line)]);
      Inv(Cut(s2)) && Inputs(Cut(s2).trace) == Inputs(s1.trace) + [Line(line)]
  {
    AppendKeeps(s1, line);
    CutKeeps(s1.(content := s1.content + line + "\n", trace := s1.trace + [Line(line)]));
  }

  lemma {:induction false} RunKeeps(st: State, lines: seq<string>)
    requires Inv(st)
    ensures Inv(Run(st, lines))
    ensures Inputs(Run(st, lines).trace) == Inputs(st.trace) + AllLineEvents(lines)
    decreases |lines|
  {
    if lines != [] {
      var init := lines[..|lines| - 1];
      var last := lines[|lines| - 1];
      RunKeeps(st, init);
      FeedKeeps(Run(st, init), last);
      var a, b, c := Inputs(st.trace), AllLineEvents(init), LineEvents(last);
      assert AllLineEvents(lines) == b + c;
      assert Inputs(Run(st, lines).trace) == a + b + c;
      assert a + b + c == a + (b + c);
    }
  }

  // ---------------------------------------------------------------------
  // what createChunks returns

  /** The events of the whole call, final `saveChunk()` included. */
  function TraceOf(text: string): seq<Event> {
    Save(Run(Init, Split(text, '\n'))).trace
  }

  /**
   * The run of `createChunks(text)`: its input events are exactly the page
   * tags, headings and lines of `text`, in order; every cut, emission and
   * reseed comes where `Step` says it must; nothing saveable is left at the
   * end; and the chunks are those of the emissions, each the overlap and
   * the trimmed buffer of its moment.
   */
  lemma ChunksOfTrace(text: string)
    ensures Matches(TraceOf(text), ChunksOf(text))
    ensures Inputs(TraceOf(text)) == AllLineEvents(Split(text, '\n'))
    ensures Lawful(TraceOf(text)) && Final(TraceOf(text))
  {
    var lines := Split(text, '\n');
    var st := Run(Init, lines);
    RunFromInit(lines);
    SaveSettles(st);
    assert TraceOf(text) == Save(st).trace && ChunksOf(text) == Save(st).chunks;
  }

  /** From the initial state, the input events of a run are those of its lines. */
  lemma RunFromInit(lines: seq<string>)
    ensures Inv(Run(Init, lines))
    ensures Inputs(Run(Init, lines).trace) == AllLineEvents(lines)
  {
    InitInv();
    RunKeeps(Init, lines);
    EmptyInputs(Init.trace, AllLineEvents(lines));
  }

  lemma EmptyInputs(tr: seq<Event>, ev: seq<Event>)
    requires tr == []
    ensures Inputs(tr) + ev == ev
  {
    assert Inputs(tr) == [];
  }

  /** What every chunk carries: its position, its book title, a page range and 100 characters. */
  predicate ChunkOk(c: Chunk, k: nat) {
    && c.metadata.chunkIndex == k
    && c.metadata.livreTitre == LivreTitle(c.metadata.livre)
    && c.metadata.pageDebut <= c.metadata.pageFin
    && |c.content| >= MinSaved
  }

  /** The chunk of an emission is well formed. */
  lemma EmittedChunkOk(init: seq<Event>, b: string, cs: seq<Chunk>)
    requires |cs| > 0
    requires cs[|cs| - 1] == Chunk(Tail(init) + b, MetaAt(init, |cs| - 1)) && |b| >= MinSaved
    ensures ChunkOk(cs[|cs| - 1], |cs| - 1)
  {
    PageRange(PagesSince(init));
  }

  /**
   * Every emitted chunk: its index is its position, its book title is
   * the title of its book, its first page is at most its last page, and
   * it holds at least 100 characters.
   */
  lemma {:induction false} MatchedChunks(tr: seq<Event>, cs: seq<Chunk>)
    requires Matches(tr, cs)
    ensures forall k :: 0 <= k < |cs| ==> ChunkOk(cs[k], k)
    decreases |tr|
  {
    if tr != [] {
      var init := tr[..|tr| - 1];
      match tr[|tr| - 1]
      case Emit(b) =>
        var front := cs[..|cs| - 1];
        MatchedChunks(init, front);
        EmittedChunkOk(init, b, cs);
        forall k | 0 <= k < |cs| - 1 ensures ChunkOk(cs[k], k) {
          assert cs[k] == front[k];
        }
      case _ =>
        MatchedChunks(init, cs);
    }
  }

  lemma ChunksOfFacts(text: string)
    ensures forall k :: 0 <= k < |ChunksOf(text)| ==>
      && ChunksOf(text)[k].metadata.chunkIndex == k
      && ChunksOf(text)[k].metadata.livreTitre == LivreTitle(ChunksOf(text)[k].metadata.livre)
      && ChunksOf(text)[k].metadata.pageDebut <= ChunksOf(text)[k].metadata.pageFin
      && |ChunksOf(text)[k].content| >= MinSaved
  {
    ChunksOfTrace(text);
    MatchedChunks(TraceOf(text), ChunksOf(text));
  }

  // ---------------------------------------------------------------------
  // the overlap and the page range, read off the events

  predicate NoEmit(tr: seq<Event>) {
    forall i :: 0 <= i < |tr| ==> !tr[i].Emit?
  }

  /** Before the first emission there is no overlap: the first chunk starts with its own body. */
  lemma {:induction false} TailNoEmit(tr: seq<Event>)
    requires NoEmit(tr)
    ensures Tail(tr) == ""
    decreases |tr|
  {
    if tr != [] {
      var init := tr[..|tr| - 1];
      assert NoEmit(init) by {
        forall i | 0 <= i < |init| ensures !init[i].Emit? {
          assert init[i] == tr[i];
        }
      }
      TailNoEmit(init);
    }
  }

  /** After a LIVRE heading and until the next emission, there is no overlap. */
  lemma {:induction false} TailAfterBook(tr: seq<Event>, v: string, rest: seq<Event>)
    requires NoEmit(rest)
    ensures Tail(tr + [Book(v)] + rest) == ""
    decreases |rest|
  {
    var all := tr + [Book(v)] + rest;
    if rest == [] {
      assert all == tr + [Book(v)];
    } else {
      var init := rest[..|rest| - 1];
      assert all[..|all| - 1] == tr + [Book(v)] + init;
      assert NoEmit(init) by {
        forall i | 0 <= i < |init| ensures !init[i].Emit? {
          assert init[i] == rest[i];
        }
      }
      assert all[|all| - 1] == rest[|rest| - 1];
      TailAfterBook(tr, v, init);
    }
  }

  /**
   * After an emission, with no LIVRE heading and no other emission since,
   * the overlap is the last 300 characters of that body and a blank line.
   */
  lemma {:induction false} TailAfterEmit(tr: seq<Event>, b: string, rest: seq<Event>)
    requires forall i :: 0 <= i < |rest| ==> !rest[i].Emit? && !rest[i].Book?
    ensures Tail(tr + [Emit(b)] + rest) == LastN(b, OverlapSize) + "\n\n"
    decreases |rest|
  {
    var all := tr + [Emit(b)] + rest;
    if rest == [] {
      assert all == tr + [Emit(b)];
      assert all[..|all| - 1] == tr;
    } else {
      var init := rest[..|rest| - 1];
      assert all[..|all| - 1] == tr + [Emit(b)] + init;
      assert all[|all| - 1] == rest[|rest| - 1];
      TailAfterEmit(tr, b, init);
    }
  }

  /** The numbers of all page events, in order. */
  function PagesOf(tr: seq<Event>): seq<nat> {
    if tr == [] then []
    else if tr[|tr| - 1].Page? then PagesOf(tr[..|tr| - 1]) + [tr[|tr| - 1].n]
    else PagesOf(tr[..|tr| - 1])
  }

  /** The pages pending after an emission are the page events since then. */
  lemma {:induction false} PagesSinceAfterEmit(tr: seq<Event>, b: string, rest: seq<Event>)
    requires NoEmit(rest)
    ensures PagesSince(tr + [Emit(b)] + rest) == PagesOf(rest)
    decreases |rest|
  {
    var all := tr + [Emit(b)] + rest;
    if rest == [] {
      assert all == tr + [Emit(b)];
    } else {
      var init := rest[..|rest| - 1];
      assert all[..|all| - 1] == tr + [Emit(b)] + init;
      assert NoEmit(init) by {
        forall i | 0 <= i < |init| ensures !init[i].Emit? {
          assert init[i] == rest[i];
        }
      }
      assert all[|all| - 1] == rest[|rest| - 1];
      PagesSinceAfterEmit(tr, b, init);
    }
  }

  /** Before the first emission, the pending pages are all page events so far. */
  lemma {:induction false} PagesSinceNoEmit(tr: seq<Event>)
    requires NoEmit(tr)
    ensures PagesSince(tr) == PagesOf(tr)
    decreases |tr|
  {
    if tr != [] {
      var init := tr[..|tr| - 1];
      assert NoEmit(init) by {
        forall i | 0 <= i < |init| ensures !init[i].Emit? {
          assert init[i] == tr[i];
        }
      }
      PagesSinceNoEmit(init);
    }
  }

  /** The pages recorded are those of the input: emissions add none. */
  lemma {:induction false} PagesOfInputs(tr: seq<Event>)
    ensures PagesOf(Inputs(tr)) == PagesOf(tr)
    decreases |tr|
  {
    if tr != [] {
      var init := tr[..|tr| - 1];
      PagesOfInputs(init);
      if !tr[|tr| - 1].Emit? {
        var xs := Inputs(init) + [tr[|tr| - 1]];
        assert xs[..|xs| - 1] == Inputs(init);
      }
    }
  }

  // ---------------------------------------------------------------------
  // the quirks of the flush

  /**
   * A chapter heading "forces" a new chunk only when the buffer can be
   * saved: with a trimmed buffer under 100 characters nothing is emitted
   * and the buffer, heading line added, runs on into the new chapter.
   */
  lemma ShortBufferCrossesChapter(st: State, line: string)
    requires FindPageTag(line).None? && DetectStructure(line).Chapitre?
    requires |Trim(st.content)| < MinSaved && |st.content| + |line| + 1 <= MaxChunkSize
    ensures Feed(st, line).content == st.content + line + "\n"
    ensures Feed(st, line).chunks == st.chunks
    ensures Feed(st, line).chapitre == DetectStructure(line).value
  {
  }

  /**
   * The partner of the lemma above: when the buffer can be saved, a LIVRE
   * or CHAPITRE heading makes it a chunk of its own, with the book and
   * chapter in force before the heading, and the heading's event follows
   * that emission.
   */
  lemma HeadingFlushes(st: State, line: string)
    requires NoTag(st.content) && FindPageTag(line).None?
    requires DetectStructure(line).Livre? || DetectStructure(line).Chapitre?
    requires |Trim(st.content)| >= MinSaved
    ensures var f := Feed(st, line);
      && |f.chunks| > |st.chunks|
      && f.chunks[..|st.chunks| + 1] == st.chunks + [Chunk(st.lastEnd + Trim(st.content), MetaOf(st))]
      && |f.trace| >= |st.trace| + 2
      && f.trace[..|st.trace| + 2] == st.trace + [Emit(Trim(st.content))] + HeadingEvents(DetectStructure(line))
  {
    var h, f := Heading(st, DetectStructure(line)), Feed(st, line);
    HeadingSaves(st, DetectStructure(line));
    FeedAfterHeading(st, line);
    assert |h.chunks| == |st.chunks| + 1 && |h.trace| == |st.trace| + 2;
  }

  /** A turn keeps the chunks and the events its heading left. */
  lemma FeedAfterHeading(st: State, line: string)
    requires FindPageTag(line).None?
    ensures var h := Heading(st, DetectStructure(line));
      && |Feed(st, line).chunks| >= |h.chunks| && Feed(st, line).chunks[..|h.chunks|] == h.chunks
      && |Feed(st, line).trace| >= |h.trace| && Feed(st, line).trace[..|h.trace|] == h.trace
  {
    var s1 := Heading(st, DetectStructure(line));
    var s2 := s1.(content := s1.content + line + "\n", trace := s1.trace + [Line(line)]);
    CutGrows(s2);
    FeedText(st, line);
    PrefixOfPrefix(s1.trace, s2.trace, Feed(st, line).trace);
  }

  /** A book or chapter heading over a buffer that can be saved: the chunk, then the heading's event. */
  lemma HeadingSaves(st: State, s: Structure)
    requires NoTag(st.content) && |Trim(st.content)| >= MinSaved && (s.Livre? || s.Chapitre?)
    ensures Heading(st, s).chunks == st.chunks + [Chunk(st.lastEnd + Trim(st.content), MetaOf(st))]
    ensures Heading(st, s).trace == st.trace + [Emit(Trim(st.content))] + HeadingEvents(s)
  {
    SaveEffect(st);
  }

  /** A prefix of a prefix is a prefix. */
  lemma PrefixOfPrefix<T>(a: seq<T>, b: seq<T>, c: seq<T>)
    requires |a| <= |b| <= |c| && b[..|a|] == a && c[..|b|] == b
    ensures c[..|a|] == a
  {
    assert forall i :: 0 <= i < |a| ==> c[i] == b[i];
  }

  /** `saveChunk` keeps the chunks and the events before it. */
  lemma SaveGrows(st: State)
    ensures |Save(st).chunks| >= |st.chunks| && Save(st).chunks[..|st.chunks|] == st.chunks
    ensures |Save(st).trace| >= |st.trace| && Save(st).trace[..|st.trace|] == st.trace
  {
    SaveEffect(st);
  }

  /** The size cut keeps the chunks and the events before it. */
  lemma CutGrows(st: State)
    ensures |Cut(st).chunks| >= |st.chunks| && Cut(st).chunks[..|st.chunks|] == st.chunks
    ensures |Cut(st).trace| >= |st.trace| && Cut(st).trace[..|st.trace|] == st.trace
  {
    if |st.content| > MaxChunkSize {
      var ps := Paragraphs(st.content);
      if |ps| > 1 {
        var s0 := st.(content := Join(ps[..|ps| - 1], "\n\n"), trace := st.trace + [CutHead]);
        SaveGrows(s0);
        var s1 := Save(s0);
        PrefixOfPrefix(st.trace, s0.trace, s1.trace);
        PrefixOfPrefix(st.trace, s1.trace, s1.trace + [Reseed]);
      } else {
        SaveGrows(st);
      }
    }
  }

  /**
   * The paragraph cut: the buffer becomes the last paragraph and a
   * newline; the paragraphs before it make one chunk when their trimmed
   * text reaches 100 characters, and are otherwise lost.
   */
  lemma CutParagraphs(st: State)
    requires Appended(st) && |st.content| > MaxChunkSize && |Paragraphs(st.content)| > 1
    ensures var ps := Paragraphs(st.content);
      var head := Trim(Join(ps[..|ps| - 1], "\n\n"));
      && Cut(st).content == ps[|ps| - 1] + "\n"
      && (|head| < MinSaved ==> Cut(st).chunks == st.chunks)
      && (|head| >= MinSaved ==>
            && |Cut(st).chunks| == |st.chunks| + 1
            && Cut(st).chunks[..|st.chunks|] == st.chunks
            && Cut(st).chunks[|st.chunks|].content == st.lastEnd + head)
  {
    var ps := Paragraphs(st.content);
    ParagraphsNoTag(st.content);
    var init := ps[..|ps| - 1];
    assert forall i :: 0 <= i < |init| ==> init[i] == ps[i];
    NoTagJoin(init);
    ExtractNoTag(Join(init, "\n\n"));
  }
}
