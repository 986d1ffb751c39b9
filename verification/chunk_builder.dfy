/**
 * `createChunks` as the source writes it: the closure variables become the
 * fields of a `Chunker`, `saveChunk` and the body of the line loop become
 * methods that update them, and `CreateChunks` runs the loop. Each method
 * is proved to do what the state machine of `ChunkSpec` says.
 */
module ChunkBuilder {
  import opened Strings
  import opened Types
  import opened PageTags
  import opened Segment
  import opened ChunkSpec

  class Chunker {
    var livre: string
    var chapitre: string
    var section: Option<string>
    var content: string
    var pages: seq<nat>
    var index: nat
    var lastEnd: string
    var chunks: seq<Chunk>
    /** What happened so far; only the proofs read it. */
    ghost var trace: seq<Event>

    ghost function Snap(): State
      reads this
    {
      State(livre, chapitre, section, content, pages, index, lastEnd, chunks, trace)
    }

    constructor()
      ensures Snap() == Init
    {
      livre := "I";
      chapitre := "";
      section := None;
      content := "";
      pages := [];
      index := 0;
      lastEnd := "";
      chunks := [];
      trace := [];
    }

    /** `saveChunk()`. */
    method SaveChunk()
      modifies this
      ensures Snap() == Save(old(Snap()))
    {
      ghost var s0 := Snap();
      if |Trim(content)| < MinSaved {
        return;
      }
      var ex := ExtractPageNumbers(content);
      var allPages := pages + ex.1;
      var pageDebut := if |allPages| > 0 then Min(allPages) else 0;
      var pageFin := if |allPages| > 0 then Max(allPages) else 0;
      var body := Trim(ex.0);
      SaveLong(s0);
      ghost var s1 := Save(s0);
      var newChunks := chunks + [Chunk(lastEnd + body,
        ChunkMetadata(livre, LivreTitle(livre), chapitre, section, pageDebut, pageFin, index))];
      var newLastEnd := LastN(body, OverlapSize) + "\n\n";
      ghost var newTrace := trace + [Emit(body)];
      assert s1
          == State(livre, chapitre, section, "", [], index + 1, newLastEnd, newChunks, newTrace);
      chunks, lastEnd, index, content, pages := newChunks, newLastEnd, index + 1, "", [];
      trace := newTrace;
    }

    /** A `livre` heading: save, switch book, forget the chapter, section and overlap. */
    method StartLivre(v: string)
      modifies this
      ensures Snap() == Heading(old(Snap()), Livre(v))
    {
      SaveChunk();
      livre := v;
      chapitre := "";
      section := None;
      lastEnd := "";
      trace := trace + [Book(v)];
    }

    /** A `chapitre` heading: save, switch chapter, forget the section. */
    method StartChapitre(v: string)
      modifies this
      ensures Snap() == Heading(old(Snap()), Chapitre(v))
    {
      SaveChunk();
      chapitre := v;
      section := None;
      trace := trace + [Chap(v)];
    }

    /** A `section` heading: save only past 1500 characters, then relabel. */
    method StartSection(v: string, titre: string)
      modifies this
      ensures Snap() == Heading(old(Snap()), Section(v, titre))
    {
      if |content| > MinChunkSize {
        SaveChunk();
      }
      section := Some(SectionLabel(v, titre));
      trace := trace + [Sect(SectionLabel(v, titre))];
    }

    /** The cut that follows the append, past 2500 characters. */
    method CutIfLong()
      modifies this
      ensures Snap() == Cut(old(Snap()))
    {
      if |content| > MaxChunkSize {
        var paragraphs := Paragraphs(content);
        if |paragraphs| > 1 {
          var lastParagraph := paragraphs[|paragraphs| - 1];
          content := Join(paragraphs[..|paragraphs| - 1], "\n\n");
          trace := trace + [CutHead];
          SaveChunk();
          content := lastParagraph + "\n";
          trace := trace + [Reseed];
        } else {
          SaveChunk();
        }
      }
    }

    /** One turn of `for (const line of lines)`. */
    method ProcessLine(line: string)
      modifies this
      ensures Snap() == Feed(old(Snap()), line)
    {
      var pageMatch := FindPageTag(line);
      if pageMatch.Some? {
        pages := pages + [pageMatch.value];
        trace := trace + [Page(pageMatch.value)];
        return;
      }
      FeedText(Snap(), line);
      var structure := DetectStructure(line);
      match structure {
        case Livre(v) => StartLivre(v);
        case Chapitre(v) => StartChapitre(v);
        case Section(v, titre) => StartSection(v, titre);
        case NoStructure =>
      }
      content := content + line + "\n";
      trace := trace + [Line(line)];
      CutIfLong();
    }
  }

  /** `createChunks(text)`. */
  method CreateChunks(text: string) returns (chunks: seq<Chunk>)
    ensures chunks == ChunksOf(text)
    ensures forall k :: 0 <= k < |chunks| ==>
      && chunks[k].metadata.chunkIndex == k
      && chunks[k].metadata.livreTitre == LivreTitle(chunks[k].metadata.livre)
      && chunks[k].metadata.pageDebut <= chunks[k].metadata.pageFin
      && |chunks[k].content| >= MinSaved
  {
    var lines := Split(text, '\n');
    var c := new Chunker();
    for i := 0 to |lines|
      invariant c.Snap() == Run(Init, lines[..i])
    {
      c.ProcessLine(lines[i]);
      RunStep(Init, lines, i);
    }
    assert lines[..|lines|] == lines;
    c.SaveChunk();
    chunks := c.chunks;
    ChunksOfFacts(text);
  }
}
