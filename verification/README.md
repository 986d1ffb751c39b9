# Enghien RAG — a verified model of the chunking, retrieval and ingestion core

The Enghien RAG system answers questions about Ernest Matthieu's *Histoire de
la ville d'Enghien* (1876). Its core has three parts:

- The chunking script (`scripts/01_clean_and_chunk.ts`) cleans the OCR text.
  It turns page markers such as `— 12 —` into `[[PAGE:12]]` tags and finds
  the `LIVRE`, `CHAPITRE` and `§` headings. It then cuts the text into
  chunks of about 1500–2500 characters. Each chunk carries its book,
  chapter, section and page range, plus a 300-character overlap taken from
  the chunk before it.
- The ingestion script (`scripts/03_ingest.ts`) sends the chunks to the
  embedding service in batches of 20. A failed call is retried up to three
  times, with a longer wait after an HTTP 429. The script then inserts one
  row per chunk into `enghien_documents`. It stops at the first batch that
  fails.
- The retrieval side (`lib/rag.ts`, `components/chat/SourcesPanel.tsx`)
  does four things:
  - It builds the pgvector search query and its parameters, with the
    optional `livre` and `chapitre` filters.
  - It numbers the retrieved passages into the context prompt and wraps
    the prompt and the question into the user message.
  - It lists the sources, deduplicated by book, chapter and first page.
    For a duplicate key it keeps the most similar result, and it sorts by
    location.
  - The chat panel shows the same sources. There the first result with a
    key wins, and rows are sorted by similarity.

The project has one Dafny module per concern:

| module | what it models |
|---|---|
| `Strings` | The JavaScript string operations the code relies on: `\s` and `trim()`, `split` and `join`, decimal printing and `parseInt`, `slice(-n)`, and string order. |
| `Types` | The records of `lib/types.ts`. |
| `Normalize` | `cleanText`, pass by pass. |
| `PageTags` | The `[[PAGE:n]]` tag scanner and `extractPageNumbers`. |
| `Segment` | `detectStructure` and `splitIntoParagraphs`. |
| `ChunkSpec` | `createChunks` as a state machine over a snapshot of its local variables. Every step appends events to a trace: pages, headings and emitted chunks. The chunks it returns are then described through that trace. |
| `ChunkBuilder` | `createChunks` in the source's imperative form. A class holds the closure's mutable variables. Each method is proved to take the snapshot to the `ChunkSpec` state that the corresponding step of the source produces. |
| `Citation` | The location strings and the deduplication key. |
| `Rag` | `searchDocuments` (the query text, its parameters and the row mapping), `buildContextPrompt` and `buildUserMessage`. |
| `FormatSources` | `formatSources`: the `Map` loop, then the location sort. |
| `SourcesPanel` | The panel's first-wins fold and its similarity sort. |
| `Ingest` | The retry policy, `insertBatch` over a `Table` class, and `main`'s batch loop. |

Nothing here talks to a network, a database or a clock:
- The embedding service is a function from a batch's texts and an attempt
  number to a reply: vectors, or an error with its HTTP status.
- Whether the database accepts an `INSERT` is a function of the row's
  position in the table.
- Sleeps are returned as values: the retry waits, and the number of 500 ms
  pauses between batches.

Where the source's own comments say more than the code does, the model
follows the code:

- The chat panel's comment (`components/chat/SourcesPanel.tsx:22`) speaks of
  deduplicating by relevance, but the panel keeps the FIRST source with a
  given key, not the most similar one (`SourcesPanel.LaterDuplicateDropped`).
  `formatSources` does keep the most similar one
  (`FormatSources.MaxWinsKeepsBest`).
- The comments at `scripts/01_clean_and_chunk.ts:153` and `:160` say a book
  or chapter heading forces a new chunk. It does so only when the trimmed
  buffer reaches 100 characters (`ChunkSpec.HeadingFlushes`). Under that,
  `saveChunk` does nothing, and the text before the heading joins the next
  chunk under the new chapter (`ChunkSpec.ShortBufferCrossesChapter`).
- When a buffer over 2500 characters is cut at its last paragraph and the
  earlier paragraphs trim to under 100 characters, those paragraphs are
  dropped: the buffer is overwritten by the last paragraph
  (`ChunkSpec.CutParagraphs`).
- A chunk whose only recorded page is 0 gets `page_debut` 0. Its citations
  then show no page at all, just like a chunk with no page
  (`Citation.LongLocationShape`).

## Model

| member | source | states |
|---|---|---|
| `Strings.Trim` | scripts/01_clean_and_chunk.ts:55 | `trim()` returns a slice of its input with no surrounding whitespace, and everything cut off on either side is whitespace. |
| `Strings.TrimUnique` | scripts/01_clean_and_chunk.ts:55 | Whitespace around a trimmed core trims to exactly that core. |
| `Strings.TrimIdempotent` | scripts/01_clean_and_chunk.ts:55 | Trimming twice is trimming once. |
| `Strings.SplitJoin` | scripts/01_clean_and_chunk.ts:98 | Pieces without the separator, joined with it and split again, come back unchanged. |
| `Strings.JoinSplit` | scripts/01_clean_and_chunk.ts:98 | Splitting at `\n` and joining with `\n` gives back the text. |
| `Strings.LastN` | scripts/01_clean_and_chunk.ts:134 | `slice(-n)` is the suffix of length `min(n, length)`. |
| `Strings.ParsePrinted` | scripts/01_clean_and_chunk.ts:145 | `parseInt` reads back any page number as printed. |
| `Normalize.CrlfRoundTrip` | scripts/01_clean_and_chunk.ts:40 | Normalising line ends undoes turning every `\n` into `\r\n`. |
| `Normalize.MarkerAccepted` | scripts/01_clean_and_chunk.ts:28 | A line taken as a page marker is an em dash, spaces, the digits returned, spaces, an em dash, and trailing spaces. |
| `Normalize.MarkerComplete` | scripts/01_clean_and_chunk.ts:28 | Conversely, every line of that shape is taken as a marker, with its digits. |
| `Normalize.MarkLineTag` | scripts/01_clean_and_chunk.ts:43 | A marker line becomes a `[[PAGE:n]]` tag whose number the tag scanner reads back as the marker's number. |
| `Normalize.MarkPagesLines` | scripts/01_clean_and_chunk.ts:43 | The marker replacement works line by line: the lines of the result are the lines of the input, each marked on its own. |
| `Normalize.CollapseBlanks` | scripts/01_clean_and_chunk.ts:46 | After `/[ \t]+/g → ' '` there is no tab and no two adjacent spaces; the result is empty only for empty input, and starts with a space exactly when the input starts with a blank. |
| `Normalize.CollapseBlanksKeepsText` | scripts/01_clean_and_chunk.ts:46 | Only blanks change: with blanks removed, input and output are the same text. |
| `Normalize.CollapseBlanksFixed` | scripts/01_clean_and_chunk.ts:46 | Text with no tab and no double space is left unchanged, so the pass is idempotent. |
| `Normalize.FixKSpec` | scripts/01_clean_and_chunk.ts:49 | Each `k` standing alone between word boundaries becomes `à`; every other character is kept, in place. |
| `Normalize.FixKKeepsShape` | scripts/01_clean_and_chunk.ts:49 | The `k` fix keeps the blank-space shape and every line break where it was. |
| `Normalize.RewriteApostrophesIdentity` | scripts/01_clean_and_chunk.ts:50 | The apostrophe rewrite replaces each match by itself: it is the identity. |
| `Normalize.CollapseNewlinesShape` | scripts/01_clean_and_chunk.ts:53 | After `/\n{3,}/g → '\n\n'` no three newlines are adjacent, and the earlier passes' shape is kept. |
| `Normalize.CollapseNewlinesKeepsText` | scripts/01_clean_and_chunk.ts:53 | Only newlines change: with newlines removed, input and output are the same text. |
| `Normalize.CollapseNewlinesFixed` | scripts/01_clean_and_chunk.ts:53 | Text without three adjacent newlines is left unchanged. |
| `Normalize.CleanTextShape` | scripts/01_clean_and_chunk.ts:38-56 | `cleanText` returns trimmed text with no tab, no double space and no run of three newlines. |
| `PageTags.FirstTagFrom` | scripts/01_clean_and_chunk.ts:143 | The scan finds the first `[[PAGE:digits]]` tag from a position, or proves there is none. |
| `PageTags.FindPageTagSpec` | scripts/01_clean_and_chunk.ts:143-145 | A line yields a page number exactly when it holds a tag, and then the number is the value of its first tag. |
| `PageTags.ExtractNoTag` | scripts/01_clean_and_chunk.ts:58-70 | `extractPageNumbers` of tag-free text returns the text unchanged and no pages. |
| `PageTags.ExtractTag` | scripts/01_clean_and_chunk.ts:58-70 | For tag-free text, a `[[PAGE:digits]]` tag and any rest: the text before the tag is kept as is, the tag and one newline right after it are dropped, the tag's number comes first among the pages, and the rest is scanned the same way. |
| `Segment.HeadingAccepted` | scripts/01_clean_and_chunk.ts:29-30 | A line read as a `LIVRE`/`CHAPITRE` heading is the word, whitespace, and the Roman numeral returned, followed by anything that does not extend the numeral. |
| `Segment.HeadingComplete` | scripts/01_clean_and_chunk.ts:29-30 | Conversely, every line of that shape is read as a heading, with its numeral. |
| `Segment.DetectLivre` | scripts/01_clean_and_chunk.ts:73-76 | A `LIVRE` heading is classified as a book with its numeral. |
| `Segment.DetectChapitre` | scripts/01_clean_and_chunk.ts:78-81 | A `CHAPITRE` heading is classified as a chapter with its numeral. |
| `Segment.DetectSectionDash` | scripts/01_clean_and_chunk.ts:83-86 | `§ n. — title` (optional `er`, either dash) is a section with label `n` and the trimmed title. |
| `Segment.DetectSectionNoDash` | scripts/01_clean_and_chunk.ts:83-86 | `§ n. title` without a dash is a section too. |
| `Segment.DetectSectionDashOnly` | scripts/01_clean_and_chunk.ts:31 | Through backtracking, a section line whose title is only the dash (number 2, a period, an em dash) is a section titled by the dash itself. |
| `Segment.DetectLivreSound` | scripts/01_clean_and_chunk.ts:73-76 | A line classified as a book has the heading shape, with the value as its numeral. |
| `Segment.DetectChapitreSound` | scripts/01_clean_and_chunk.ts:78-81 | A line classified as a chapter is no book heading and has the chapter heading shape. |
| `Segment.DetectSectionSound` | scripts/01_clean_and_chunk.ts:83-86 | A section line starts with `§`, its label is digits with an optional `er`, and its title is trimmed. |
| `Segment.DetectNoneSound` | scripts/01_clean_and_chunk.ts:73-88 | A line classified as nothing has none of the accepted shapes: no `LIVRE` heading, no `CHAPITRE` heading, and no `§ n. — title` or `§ n. title` line. |
| `Segment.SplitBlank` | scripts/01_clean_and_chunk.ts:93 | `split(/\n\n+/)` gives at least one piece, none holding a blank line, the first a prefix of the text. |
| `Segment.SplitBlankJoin` | scripts/01_clean_and_chunk.ts:93 | For text with no three adjacent newlines, the pieces joined with `\n\n` give back the text. |
| `Segment.NonBlank` | scripts/01_clean_and_chunk.ts:93 | The filter keeps exactly the pieces with a non-whitespace character. |
| `Segment.ParagraphsShape` | scripts/01_clean_and_chunk.ts:91-94 | Every paragraph has visible text and no blank line. |
| `Segment.ParagraphsNoTag` | scripts/01_clean_and_chunk.ts:91-94 | Paragraphs of tag-free text are tag-free. |
| `ChunkSpec.LivreTitle` | scripts/01_clean_and_chunk.ts:20-25 | Books I–IV have a title; any other book gets `''`. |
| `ChunkSpec.PageRange` | scripts/01_clean_and_chunk.ts:114-115 | `page_debut <= page_fin`, both 0 without pages, else both among the pages and bounding them all. |
| `ChunkSpec.SaveEffect` | scripts/01_clean_and_chunk.ts:108-139 | `saveChunk` changes nothing when the trimmed buffer is under 100 characters. Otherwise it appends exactly one chunk, keeps the earlier ones, empties the buffer and the pages, and advances the index. On a tag-free buffer the new chunk is the overlap followed by the trimmed buffer, with the book, chapter, section, pages and index in force; the next overlap is the last 300 characters of that text and a blank line. |
| `ChunkSpec.RecordPageKeeps` | scripts/01_clean_and_chunk.ts:143-146 | A page-tag line records its page, keeps the invariant, and adds one page event. |
| `ChunkSpec.HeadingKeeps` | scripts/01_clean_and_chunk.ts:152-170 | A heading keeps the invariant and adds its heading event to the trace. |
| `ChunkSpec.CutKeeps` | scripts/01_clean_and_chunk.ts:176-189 | The size cut keeps the invariant and adds no input event. |
| `ChunkSpec.FeedKeeps` | scripts/01_clean_and_chunk.ts:141-190 | One line keeps the invariant and adds exactly that line's events. |
| `ChunkSpec.RunKeeps` | scripts/01_clean_and_chunk.ts:141-190 | The loop keeps the invariant, and its input events are exactly those of its lines, in order. |
| `ChunkSpec.ChunksOfTrace` | scripts/01_clean_and_chunk.ts:96-196 | There is one chunk per emission, in order. Each is the overlap in force plus the trimmed buffer of that moment, at least 100 characters and tag-free, with the book, chapter, section and pages in force. The input events are exactly the page tags, headings and lines of the text, in order. Every cut and emission comes when the code allows it: no book or chapter heading while the buffer could be saved. At the end nothing that could be saved is left in the buffer. |
| `ChunkSpec.BufferAppends` | scripts/01_clean_and_chunk.ts:172-173 | Page tags and headings leave the buffer alone, and each appended line adds itself and a newline. |
| `ChunkSpec.BufferAfterEmit` | scripts/01_clean_and_chunk.ts:137-173 | After an emission and until the next cut or emission, the buffer is exactly the lines appended since, each with its newline; so a chunk's body is the trimmed text of its lines. |
| `ChunkSpec.MatchedChunks` | scripts/01_clean_and_chunk.ts:108-139 | Every emitted chunk has its position as index, its book's title, `page_debut <= page_fin`, and at least 100 characters. |
| `ChunkSpec.ChunksOfFacts` | scripts/01_clean_and_chunk.ts:96-196 | The same facts for every chunk `createChunks` returns. |
| `ChunkSpec.TailAfterBook` | scripts/01_clean_and_chunk.ts:158 | After a `LIVRE` heading and before the next emission, the overlap is empty. |
| `ChunkSpec.TailAfterEmit` | scripts/01_clean_and_chunk.ts:134 | After an emission, the overlap is the last 300 characters of its body and a blank line, until the next book or emission. |
| `ChunkSpec.PagesSinceAfterEmit` | scripts/01_clean_and_chunk.ts:138-145 | A chunk's pages are exactly the page tags seen since the previous emission. |
| `ChunkSpec.PagesOfInputs` | scripts/01_clean_and_chunk.ts:143-146 | Emissions carry no page: the page events of a run are those of its input events. |
| `ChunkSpec.HeadingFlushes` | scripts/01_clean_and_chunk.ts:152-163 | When the trimmed buffer reaches 100 characters, a `LIVRE` or `CHAPITRE` line first emits the buffer as a chunk, with the book and chapter in force before the heading, and only then switches book or chapter. |
| `ChunkSpec.HeadingSaves` | scripts/01_clean_and_chunk.ts:152-163 | The heading's own step: the chunk, then the heading's event. |
| `ChunkSpec.CutGrows` | scripts/01_clean_and_chunk.ts:176-189 | The size cut keeps every chunk and event before it. |
| `ChunkSpec.ShortBufferCrossesChapter` | scripts/01_clean_and_chunk.ts:159-162 | A chapter heading after a buffer under 100 trimmed characters emits nothing, and the buffer goes on under the new chapter. |
| `ChunkSpec.CutParagraphs` | scripts/01_clean_and_chunk.ts:176-188 | The paragraph cut leaves the last paragraph in the buffer. The earlier paragraphs become one chunk (overlap plus their trimmed text) when that text reaches 100 characters, and are otherwise lost. |
| `ChunkBuilder.Chunker.constructor` | scripts/01_clean_and_chunk.ts:97-106 | The locals start as book `I`, no chapter or section, an empty buffer, no pages, index 0 and no overlap. |
| `ChunkBuilder.Chunker.SaveChunk` | scripts/01_clean_and_chunk.ts:108-139 | The method takes the state to `saveChunk`'s state. |
| `ChunkBuilder.Chunker.StartLivre` | scripts/01_clean_and_chunk.ts:152-158 | A book heading saves, then resets chapter, section and overlap. |
| `ChunkBuilder.Chunker.StartChapitre` | scripts/01_clean_and_chunk.ts:159-163 | A chapter heading saves, then resets the section. |
| `ChunkBuilder.Chunker.StartSection` | scripts/01_clean_and_chunk.ts:164-170 | A section heading saves only a buffer over 1500 characters, then sets the `§ n. — title` label. |
| `ChunkBuilder.Chunker.CutIfLong` | scripts/01_clean_and_chunk.ts:175-189 | A buffer over 2500 characters is cut at its last paragraph, or saved whole. |
| `ChunkBuilder.Chunker.ProcessLine` | scripts/01_clean_and_chunk.ts:141-190 | One loop round: a page tag, a heading, the line appended, the size cut. |
| `ChunkBuilder.CreateChunks` | scripts/01_clean_and_chunk.ts:96-196 | The loop's chunks are the specification's chunks: indexed by position, titled by book, with ordered page ranges and at least 100 characters. |
| `Citation.PageLabel` | lib/rag.ts:91-95 | The label starts `p. ` and holds a dash exactly when the first and last pages differ. |
| `Citation.PageLabelRoundTrip` | lib/rag.ts:91-95 | The label reads back as the page range it was printed from. |
| `Citation.LongLocationShape` | lib/rag.ts:86-98 | The prompt location starts `Livre X`. When `page_debut` is not 0 it ends with the page label, which reads back as the range. Chapter, section and page each appear only when set. |
| `Citation.LongWithoutSection` | lib/rag.ts:86-98 | Without a section or a chapter, the prompt location equals the short location. |
| `Citation.ShortLocationShape` | lib/rag.ts:161-172 | The listing location has the same start and end and never shows the section. |
| `Citation.KeyInjective` | lib/rag.ts:144 | For dash-free book and chapter numerals, two keys are equal exactly when book, chapter and first page are equal. |
| `Rag.BuildSearch` | lib/rag.ts:24-64 | The parameters are the vector literal, the threshold, one value per filter condition and the count. The query is the template, the conditions numbered from `$3`, and a limit naming the last parameter. |
| `Rag.AddFilter` | lib/rag.ts:52-61 | One filter field adds its condition, its value and one to the index, or nothing when the field is not a non-empty string. |
| `Rag.SearchDefaults` | lib/rag.ts:28-32 | With no options there is no condition, the threshold is 0.4 and the count 8; there are never more than two conditions. |
| `Rag.ConditionsFollowFilter` | lib/rag.ts:51-61 | A field adds a condition on its own column exactly when it is a non-empty string; every condition is on `livre` or `chapitre`, with a non-empty value. |
| `Rag.ResultsRoundTrip` | lib/rag.ts:68-73 | The row mapping keeps every field and the database's order: it has an exact inverse. |
| `Rag.ContextPromptEmpty` | lib/rag.ts:79-83 | The fallback sentence is the prompt of the empty list and of no other; any other prompt starts with the first extract. |
| `Rag.ContextPromptSnoc` | lib/rag.ts:84-102 | One more result appends the separator and one more extract, numbered after the others. |
| `Rag.BlockNumbered` | lib/rag.ts:100 | The extract header starts `[Extrait ` followed by a number that reads back as the 1-based position. |
| `Rag.UserMessageParts` | lib/rag.ts:127-134 | The message is the fixed head, the context, the fixed middle and the question, each recoverable at known offsets. |
| `FormatSources.MaxWinsKeepsBest` | lib/rag.ts:140-148 | The deduplicated list has one entry per distinct key of the input, and each entry is the result its key should keep. |
| `FormatSources.BestIsFirstMax` | lib/rag.ts:145 | The kept result is as similar as any with its key, and strictly more similar than every earlier one: ties keep the first. |
| `FormatSources.Offer` | lib/rag.ts:143-148 | One `Map` update keeps the map's shape and equals offering the result to the deduplicated list. |
| `FormatSources.NewKeyAppends` | lib/rag.ts:145-146 | Setting a new key appends its result at the end of the `Map`'s order. |
| `FormatSources.KnownKeyReplaces` | lib/rag.ts:145-146 | Setting a known key replaces its value in place, keeping the key's first position. |
| `FormatSources.LocationBeforeTransitive` | lib/rag.ts:151-160 | The comparator (book, chapter, first page) is transitive. |
| `FormatSources.LocationBeforeTotal` | lib/rag.ts:151-160 | The comparator orders any two different locations one way or the other. |
| `FormatSources.SortByLocationCorrect` | lib/rag.ts:150-160 | The sort returns a permutation of its input in location order. |
| `FormatSources.SortKeepsDistinct` | lib/rag.ts:150-160 | Sorting keeps the keys distinct and the same key set. |
| `FormatSources.FormatSourcesText` | lib/rag.ts:139-175 | The loop over a `Map`, then sort, map and join, returns the listing. |
| `FormatSources.ListingCorrect` | lib/rag.ts:139-175 | The listing has one line per distinct key, in strictly increasing location order, each for the result its key keeps; it is empty exactly for no results. |
| `SourcesPanel.FirstWinsKeys` | components/chat/SourcesPanel.tsx:23-29 | The fold keeps exactly one item per distinct key of its input. |
| `SourcesPanel.FirstWinsKeepsFirst` | components/chat/SourcesPanel.tsx:23-29 | Each kept item is the first item with its key, and the items stay in the order their keys first appear. |
| `SourcesPanel.FirstWinsLength` | components/chat/SourcesPanel.tsx:23-29 | The number kept is the number of distinct keys, at most the number of sources. |
| `SourcesPanel.SortBySimilarityCorrect` | components/chat/SourcesPanel.tsx:31-33 | The sort is a permutation, ordered by non-increasing similarity, and stable: items of equal similarity keep their order. |
| `SourcesPanel.DisplayedCorrect` | components/chat/SourcesPanel.tsx:20-58 | No sources, no panel. Otherwise there is one row per distinct key, no more rows than sources, the most similar first, and each row is the first source with its key. |
| `SourcesPanel.LaterDuplicateDropped` | components/chat/SourcesPanel.tsx:23-29 | Of two sources with the same key, the panel shows the earlier even when the later is more similar. |
| `Ingest.BatchCountIff` | scripts/03_ingest.ts:145 | Batch `b` exists exactly when `b < ⌈n / 20⌉`. |
| `Ingest.BatchesPartition` | scripts/03_ingest.ts:150-152 | The slices are `⌈n / 20⌉` non-empty batches of at most 20, batch `b` starting at `20 b`, and together they are the chunks in order. |
| `Ingest.Texts` | scripts/03_ingest.ts:153 | The texts are the batch's contents, position by position. |
| `Ingest.EmbedFromAttempts` | scripts/03_ingest.ts:68-90 | From any attempt on, every wait follows a failed attempt with the policy's delay. The result is the first successful reply, or the error of the last attempt. |
| `Ingest.EmbeddingOutcome` | scripts/03_ingest.ts:68-90 | At most four attempts. The call succeeds exactly when one attempt does, with the first success. Otherwise it throws the fourth error after three waits. Every wait is between 5 s and 20 s. |
| `Ingest.RateLimitedThroughout` | scripts/03_ingest.ts:80-85 | Four 429s in a row give waits of 10 s, 15 s and 20 s, then the 429 is thrown. |
| `Ingest.GenerateEmbeddings` | scripts/03_ingest.ts:68-90 | The retry loop returns the reply and waits of the recursive definition. |
| `Ingest.Reach` | scripts/03_ingest.ts:99-108 | The insert loop stores chunks up to the first one with no vector or whose `INSERT` fails. |
| `Ingest.Table.Insert` | scripts/03_ingest.ts:104-108 | One `INSERT` appends its row or changes nothing. |
| `Ingest.Table.Truncate` | scripts/03_ingest.ts:116-118 | `TRUNCATE` empties the table. |
| `Ingest.Table.InsertBatch` | scripts/03_ingest.ts:93-113 | The new rows are those of the longest prefix of the batch that has vectors and whose inserts succeed; success means the whole batch; the client is released on both paths. |
| `Ingest.InsertFromReach` | scripts/03_ingest.ts:99-109 | The insert loop as a value appends exactly the rows of that prefix. |
| `Ingest.RepliesIndex` | scripts/03_ingest.ts:150-160 | There is one reply per batch, and batch `c`'s reply is the embedding call on its texts. |
| `Ingest.CountsDone` | scripts/03_ingest.ts:145-176 | Past the last batch every chunk is counted, and there were `⌈n / 20⌉ - 1` pauses. |
| `Ingest.CountsNext` | scripts/03_ingest.ts:165-170 | A batch stored whole adds its size to `processedChunks`, and a pause only when another batch follows. |
| `Ingest.RunFromCounted` | scripts/03_ingest.ts:150-176 | A finished run counts every chunk and row, with one pause between each two batches. When batch `b + 1` fails, only the earlier batches are counted, and the table holds them plus a prefix of the failed batch. |
| `Ingest.RunFromFailed` | scripts/03_ingest.ts:150-176 | The batch a run reports as failed is the first batch that does not go through. |
| `Ingest.FirstFailureVerdict` | scripts/03_ingest.ts:150-176 | The first failure is absent exactly when every batch goes through. Otherwise the batch it names fails, and all earlier ones go through. |
| `Ingest.RunFromRows` | scripts/03_ingest.ts:158-165 | Row `j` of the table is chunk `j` with vector `j mod 20` of its batch's reply. |
| `Ingest.RunCorrect` | scripts/03_ingest.ts:140-176 | After the truncation, every row is its chunk with its vector, the counters are right, and the reported failure is the first failing batch, if any. |
| `Ingest.EmbedAndStore` | scripts/03_ingest.ts:158-163 | Embedding then inserting a batch stores the rows and reports success as the batch step defines them. |
| `Ingest.IngestBatch` | scripts/03_ingest.ts:150-170 | One loop round takes the table and counters to the next state of the run. |
| `Ingest.Ingest` | scripts/03_ingest.ts:138-176 | `main`'s loop leaves the table, `processedChunks`, the failing batch number (`i / 20 + 1`) and the pauses exactly as the run defines them. |

## Left out

- Reading and writing files, `console` output, `progressBar`, timing, and the environment-variable checks at startup. None of them affects the data.
- `sleep`: the waits and pauses are returned or counted, not slept.
- The network and the embedding model. The service is a deterministic function of a batch's texts and the attempt number. Two batches with the same texts therefore get the same replies.
- The query embedding in `searchDocuments`: it is a parameter, and `generateEmbedding` is not part of this model.
- Vector components are kept as the strings `join(',')` prints. Float formatting is not modelled.
- SQL semantics: how pgvector ranks rows, the threshold comparison, `LIMIT`, and `JSON.stringify` of the metadata. The database is reduced to a row list and an accept-or-fail answer per `INSERT`.
- A failure of `pool.connect` is not modelled on its own. It leaves the table as a refused first `INSERT` would.
- Row ids and `RESTART IDENTITY`.
- `SYSTEM_PROMPT` (`lib/rag.ts:108-122`): a constant text with no logic.
- The panel's expand/collapse state, the `toFixed` similarity display and the preview text. Only the list of rows the panel renders is modelled.
- `localeCompare` is taken as plain code-point order of the strings. Locale collation is not modelled.
- `|| 0` and `|| ''` fallbacks on numbers and strings that the types already guarantee are left out. A NaN similarity is not modelled.
- String lengths count Unicode code points, not UTF-16 units. The two differ only for characters outside the Basic Multilingual Plane.
- Normalize.MarkPagesLines: the page-marker regular expression is matched line by line. It does not model `\s*` matching across a newline, which could join a marker with the blank lines after it. Nor does it model a lone `\r` ending a line.
- Ingest.Ingest: the retry waits inside each batch are proved in `GenerateEmbeddings`, but not collected in `main`'s report.
