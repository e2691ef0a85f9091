/** The metadata record every chunk carries. */
module ChunkMeta {
  import opened Wrappers

  /**
   * `ChunkMetadata`: source document name, heading path (outermost first), optional caption,
   * byte offsets into the source and the chunk's 0-based sequential index. The Rust fields are
   * `usize`; they are naturals here.
   */
  datatype ChunkMetadata = ChunkMetadata(
    docName: string,
    headings: seq<string>,
    caption: Option<string>,
    startOffset: nat,
    endOffset: nat,
    index: nat)
  {
    /** A well-formed chunk does not end before it starts. */
    predicate WellFormed()
    {
      startOffset <= endOffset
    }
  }
}
