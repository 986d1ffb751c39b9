/**
 * The records shared by the chunking script, the retrieval library and the
 * chat panel (`ChunkMetadata`, `Chunk`, `SearchResult`), and an Option for
 * the values the source leaves `undefined`.
 */
module Types {

  datatype Option<T> = None | Some(value: T)

  /**
   * Metadata stored with every chunk. `section` is `undefined` outside a
   * `§` section; page numbers are 0 when no page marker was seen.
   */
  datatype ChunkMetadata = ChunkMetadata(
    livre: string,
    livreTitre: string,
    chapitre: string,
    section: Option<string>,
    pageDebut: nat,
    pageFin: nat,
    chunkIndex: nat)

  datatype Chunk = Chunk(content: string, metadata: ChunkMetadata)

  /** One retrieved passage; `similarity` is only ever compared. */
  datatype SearchResult = SearchResult(
    id: int,
    content: string,
    metadata: ChunkMetadata,
    similarity: real)
}
