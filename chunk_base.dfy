/** The chunk value and the chunking error type shared by every chunker. */
module ChunkBase {
  import opened ChunkMeta

  /** `BaseChunk`: one text plus one metadata record. */
  datatype BaseChunk = BaseChunk(text: string, meta: ChunkMetadata)

  /** `ChunkingError`: exactly four kinds, each carrying a message. */
  datatype ChunkingError =
    | TokenizerLoad(detail: string)
    | InvalidConfig(detail: string)
    | ProcessingError(detail: string)
    | SerializationError(detail: string)
  {
    /** The fixed text the error's `Display` puts before its message. */
    function Prefix(): string
    {
      match this
      case TokenizerLoad(_) => "Failed to load tokenizer: "
      case InvalidConfig(_) => "Invalid configuration: "
      case ProcessingError(_) => "Document processing error: "
      case SerializationError(_) => "Serialization error: "
    }

    /** The error's `Display` text: its kind's prefix, then its message. */
    function Message(): (m: string)
      ensures |m| == |Prefix()| + |detail| && m[..|Prefix()|] == Prefix() && m[|Prefix()|..] == detail
    {
      Prefix() + detail
    }
  }

  /** The displayed text determines the error: kind and message can both be read back. */
  lemma MessageDeterminesError(e1: ChunkingError, e2: ChunkingError)
    requires e1.Message() == e2.Message()
    ensures e1 == e2
  {
    var m := e1.Message();
    assert m[0] == e1.Prefix()[0] && m[0] == e2.Prefix()[0];
    assert e1.Prefix() == e2.Prefix();
  }

  /** Chunks carry the indices 0, 1, 2, ... in the order they are returned. */
  predicate SequentiallyIndexed(chunks: seq<BaseChunk>)
  {
    forall i | 0 <= i < |chunks| :: chunks[i].meta.index == i
  }
}
