# docling-rs core, modelled in Dafny

docling-rs converts documents (Markdown, HTML, CSV, DOCX, PDF) into a `DoclingDocument`:
a named, ordered list of typed nodes with a metadata map. For retrieval pipelines it then
cuts the document into chunks, and it writes the document out as Markdown or plain text.
This project models the parts of that pipeline that are logic rather than I/O, and proves
what they promise:

- **Data model**.
  - `Node`: node types, source positions and nodes.
  - `Document`: a class, because `add_node` mutates it.
  - `DataTable`: the table value of the data model.
- **Formats**.
  - `Format`: input formats and their case-insensitive extension lookup.
  - `CliArgs`: the command line's own format enums and the chunk-size validator.
- **Markdown backend** (`MarkdownBackend`). It turns every non-blank line into one node of
  the trimmed line, typed by its first character.
- **Chunking**.
  - `ChunkMeta`, `ChunkBase`: chunk metadata, the chunk value and the error type.
  - `Tokenizers`: the token counter.
  - `Hierarchical`: one chunk per node with non-blank text, with offsets copied from the
    node's position or computed in sequence.
  - `Hybrid`: the hierarchical chunks, cut by words to a token budget, then adjacent peers
    merged while they fit.
- **Output** (`Output`). The CLI's Markdown and plain-text serializers.
- **PDF backend records and algorithms**.
  - `PdfLayout`: columns and layout information, both classes.
  - `PdfTable`: PDF tables, cells and structure. The tables and structures are classes.
  - `PdfImage`: image regions and metadata, formats with their extensions and MIME types.
  - `PdfImageExtractor`: magic-byte format detection and the minimum-size filter.
  - `TableDetector`: the grid-based table detector.
    - It groups blocks into rows by vertical alignment.
    - It sorts the rows by y and each row by x, with a stable sort.
    - It checks the grid shape and builds one cell per block.

## Modelling choices

- **Strings.** A Rust `String` is a Dafny `string`, a sequence of Unicode scalar values.
  - Rust's `str::len` counts UTF-8 bytes. Here that is `Text.ByteLen`, so the byte offsets of
    chunks and the 4-bytes-per-token mock counter agree with the Rust code on non-ASCII text.
- **Standard-library string functions** are written out in the `Text` module:
  - `trim`, `trim_start` and `trim_end`;
  - `split_whitespace`;
  - `split(sep)`;
  - `lines`, including its dropped final empty piece and its stripped `\r`;
  - the pairwise `format!("{} {}", a, b)` join.
  - Whitespace is the Unicode White_Space property, as `char::is_whitespace` uses it.
- **Lower-casing.** `to_lowercase` is modelled only as far as the extension lookups can
  observe it:
  - ASCII capitals become lower-case;
  - KELVIN SIGN becomes `k`;
  - every other character is kept, and none of them can match an extension.
- **Tokenizer.** It is a value holding a total function `string -> nat` and a limit. So
  "deterministic" (src/chunking/tokenizer/base.rs:12) holds by construction. The reference
  tokenizer of the tests counts `ceil(bytes / 4)`.
- **Floating point.**
  - `f64` and `f32` are `real`. Rounding, NaN and infinities are not modelled.
  - The table detector's alignment test `(y - y0).abs() < tolerance` is a parameter `near`. Every
    detector property holds for any such test, and one example uses the exact test.
- **Integer widths.** `u32` and `u8` are subset types. `usize` is `nat`; the Rust code never
  comes near `usize::MAX` except in the chunk-size parser, where the bound is modelled.
- **Loops and iterators.** Functions that loop in Rust are methods with loops here. Each one is
  proved equal to a recursive specification function, and the lemmas are about those functions.
  Iterator adaptors (`filter_map`, `find`) are modelled as recursive functions.
- **Hybrid indices.** With `merge_peers` off, the hybrid chunker returns the split pieces with
  the indices they were given, and those repeat across chunks.
  `Hybrid.IndicesRepeatWithoutMerge` exhibits this. The trait's promise of sequential indices
  (src/chunking/base.rs:74) holds only with merging on (`Hybrid.HybridChunker.ChunksIndexed`).

## Model

| member | source | states |
|---|---|---|
| Format.ToLower | src/format.rs:29 | same length; ASCII capitals and KELVIN SIGN lowered, every other character kept, no ASCII capital remains |
| Format.ToLowerIdempotent | src/format.rs:29 | lower-casing twice is lower-casing once |
| Format.FromExtension | src/format.rs:28-37 | a format is returned only when the lower-cased extension is one of its spellings; None only when no format has that spelling |
| Format.SpellingsDisjoint | src/format.rs:30-34 | no extension names two formats |
| Format.FromExtensionOfSpelling | src/format.rs:28-37 | every spelling of a format, in any case, finds that format |
| Format.FromExtensionIgnoresCase | src/format.rs:29 | an extension and its lower case find the same format |
| Format.ExtensionRoundTrip | src/format.rs:17-37 | a format's canonical extension is one of its spellings and looks up to that format |
| Format.ExtensionInjective | src/format.rs:17-25 | distinct formats have distinct extensions |
| Format.UpperCasePdf | src/format.rs:29-34 | "PDF" is looked up as PDF |
| Format.MixedCaseHtm | src/format.rs:29-31 | "Htm" is looked up as Html |
| CliArgs.ParseUsize | src/cli/args.rs:8-10 | a parsed value never exceeds `usize::MAX` |
| CliArgs.Decimal | src/cli/args.rs:8-10 | the decimal rendering is all digits and denotes `n` |
| CliArgs.ParseDecimal | src/cli/args.rs:8-10 | every `usize` parses back from its decimal rendering, with or without a leading '+' |
| CliArgs.ParseOverflow | src/cli/args.rs:8-10 | a number past `usize::MAX` does not parse |
| CliArgs.ValidateChunkSize | src/cli/args.rs:7-15 | Ok exactly for a parsable positive size, which is returned; the "invalid chunk size" error for unparsable text, the "must be greater than 0" error for zero |
| CliArgs.ValidateDecimal | src/cli/args.rs:7-15 | every positive size is accepted unchanged |
| CliArgs.ValidateExamples | src/cli/args.rs:7-15 | "0", "abc" and "-5" get their error messages |
| CliArgs.FromDocling | src/cli/args.rs:110-118 | the CLI format mapped to a given converter format |
| CliArgs.ToDoclingFormatBijective | src/cli/args.rs:110-118 | `to_docling_format` is one-to-one, with `FromDocling` as its inverse |
| CliArgs.FromExtensionAgrees | src/cli/args.rs:98-107 | the CLI lookup accepts exactly the converter's extensions and maps to the same format |
| CliArgs.OutputFormatNamesDistinct | src/cli/args.rs:132-150 | output formats have distinct extensions and distinct display names |
| CliArgs.MarkdownOutputReadsBack | src/cli/args.rs:144-150 | the Markdown output extension is read back as Markdown input |
| Node.AllNodeTypes | src/datamodel/node.rs:130-139 | eight node types, pairwise distinct |
| Node.AllNodeTypesComplete | src/datamodel/node.rs:130-139 | every node type is among the eight |
| Node.NewSourcePosition | src/datamodel/node.rs:98-105 | the accessors return the four arguments |
| Node.NodeItem.WithPosition | src/datamodel/node.rs:75-78 | position set; type and text unchanged |
| Node.NewNodeItem | src/datamodel/node.rs:51-57 | given type, text present, no position |
| Node.DocumentNode.WithPosition | src/datamodel/node.rs:35-38 | position set; type and text unchanged |
| Node.NewDocumentNode | src/datamodel/node.rs:13-17 | given type, text present, no position |
| Document.DoclingDocument.constructor | src/datamodel/document.rs:19-25 | given name, no nodes, empty metadata |
| Document.DoclingDocument.WithMetadata | src/datamodel/document.rs:43-46 | one key inserted or overwritten, name and nodes unchanged, same document returned |
| Document.DoclingDocument.AddNode | src/datamodel/document.rs:49-51 | node appended at the end; name and metadata unchanged |
| Document.DoclingDocument.WithNodes | src/datamodel/document.rs:54-57 | node list replaced; name and metadata unchanged; same document returned |
| DataTable.TableCell.WithColSpan | src/datamodel/table.rs:80-83 | column span set, all else unchanged |
| DataTable.TableCell.WithRowSpan | src/datamodel/table.rs:86-89 | row span set, all else unchanged |
| DataTable.NewTableCell | src/datamodel/table.rs:56-62 | given content, spans of one |
| DataTable.SpansCommute | src/datamodel/table.rs:80-89 | the two span builders commute |
| DataTable.NewTableRow | src/datamodel/table.rs:100-102 | a row holding the given cells |
| DataTable.TableData.WithRow | src/datamodel/table.rs:29-32 | one row appended, earlier rows unchanged |
| DataTable.NewTableData | src/datamodel/table.rs:19-21 | no rows, zero columns |
| DataTable.NumColsAfterWithRow | src/datamodel/table.rs:29-37 | the column count is the first row's cell count: the new row's when it is first, unchanged otherwise |
| DataTable.WithRowsKeepsRows | src/datamodel/table.rs:24-37 | adding rows one by one keeps them all in order; the column count is the first row's |
| DataTable.TwoRowsExample | tests/contract_table.rs:13-22 | two rows of two cells give 2 rows and 2 columns |
| DataTable.SpanExample | tests/contract_table.rs:33-39 | a cell with spans set to 2 and 3 keeps them |
| MarkdownBackend.NodesOf | src/backend/markdown.rs:54-68 | at most one node per line |
| MarkdownBackend.NodesOfAppend | src/backend/markdown.rs:54-68 | one more line adds that line's nodes at the end |
| MarkdownBackend.Convert | src/backend/markdown.rs:35-71 | a fresh document with the given name, no metadata and the nodes of the content |
| MarkdownBackend.TrimmedLines | src/backend/markdown.rs:55-56 | at most one trimmed line per line |
| MarkdownBackend.TrimmedLinesOfBlank | src/backend/markdown.rs:56 | blank lines give no nodes |
| MarkdownBackend.TrimmedLinesUnpadded | src/backend/markdown.rs:55-56 | every node text is non-empty with no whitespace at either end |
| MarkdownBackend.TrimmedLinesAreTrimmed | src/backend/markdown.rs:55 | every node text is its own trim |
| MarkdownBackend.NodesOfCharacterized | src/backend/markdown.rs:54-67 | one node per non-blank line, in order: text the trimmed line, no position, Heading iff '#', ListItem iff '-', '*' or '+', Paragraph otherwise |
| MarkdownBackend.MarkdownNodesChunkable | src/backend/markdown.rs:54-67 | converted nodes have no positions and every one yields a chunk |
| MarkdownBackend.MarkdownChunks | src/backend/markdown.rs:54-67 | convert then hierarchical chunking gives one chunk per non-blank trimmed line, indexed 0.., offsets synthesized from 0, strictly ordered |
| MarkdownBackend.SupportsOnlyMarkdown | src/backend/markdown.rs:73-75 | exactly the format owning ".md" is supported |
| Output.MarkdownBlocksConcat | src/cli/output.rs:14-30 | the blocks of a concatenation are the blocks of its parts |
| Output.TextBlocksConcat | src/cli/output.rs:48-54 | the same for plain text |
| Output.MarkdownOfStep | src/cli/output.rs:14-30 | one more node appends its block |
| Output.TextOfStep | src/cli/output.rs:48-54 | one more node appends its block |
| Output.NodeMarkdown | src/cli/output.rs:15-29 | the block chosen by node type: "## " heading, "(Table content)" for tables, the text otherwise, each ending in a blank line |
| Output.ToMarkdown | src/cli/output.rs:7-33 | the title line, then every node's block in order |
| Output.ToText | src/cli/output.rs:41-57 | the name, then every present non-empty text, each followed by a blank line |
| Output.MarkdownBlocksLength | src/cli/output.rs:14-30 | at least two characters per node |
| Output.MarkdownTitle | src/cli/output.rs:11 | the Markdown starts with the name as a level-one heading |
| Output.MarkdownBlockText | src/cli/output.rs:15-25 | a table's block ignores its text; absent text reads as empty |
| Output.TextKeepsBlank | src/cli/output.rs:49-52 | a blank but non-empty text is kept; absent and empty ones are dropped |
| Output.TextOfConvertedLines | src/cli/output.rs:41-57 | plain text of converted lines is the name, then each trimmed non-blank line followed by a blank line |
| Output.ConvertedText | src/cli/output.rs:41-57 | a converted Markdown file's plain text is its trimmed non-blank lines under the name |
| Text.CharByteLen | src/chunking/hierarchical.rs:94 | a character takes one to four UTF-8 bytes, and one exactly when it is ASCII |
| Text.ByteLenAppend | src/chunking/hybrid.rs:170 | byte length is additive |
| Text.ByteLenBounds | src/chunking/hierarchical.rs:94 | between one and four bytes per character |
| Text.TrimStartSpec | src/chunking/hierarchical.rs:82 | `trim_start` removes a whitespace-only prefix and keeps the rest, which does not start with whitespace |
| Text.TrimEndSpec | src/chunking/hierarchical.rs:82 | `trim_end` removes a whitespace-only suffix and keeps the rest, which does not end with whitespace |
| Text.Trim | src/chunking/hierarchical.rs:82 | empty exactly when the text is blank; otherwise neither end is whitespace |
| Text.TrimIsInfix | src/backend/markdown.rs:55 | the trim is an unchanged infix after a whitespace prefix |
| Text.TrimOfTrimmed | src/backend/markdown.rs:55 | an unpadded string is its own trim |
| Text.WordsAreWords | src/chunking/hybrid.rs:142 | `split_whitespace` yields non-empty runs without whitespace |
| Text.WordsEmptyIffBlank | src/chunking/hybrid.rs:142 | no words exactly when the text is blank |
| Text.WordsOfSpaced | src/chunking/hybrid.rs:157 | the words of `a + " " + b` are a's words, then b's |
| Text.WordsOfJoin | src/chunking/hybrid.rs:142-157 | splitting words joined by single spaces gives them back |
| Text.JoinOfWordsNotBlank | src/chunking/hybrid.rs:157 | a non-empty list of words joins to a non-blank text |
| Text.ByteLenOfJoin | src/chunking/hybrid.rs:157-170 | the byte length of a join is the words' byte lengths plus one per space |
| Text.JoinedWordsNoLonger | src/chunking/hybrid.rs:142-157 | re-joining a text's words with single spaces never makes it longer |
| Text.SplitOn | src/backend/markdown.rs:54 | at least one piece, none holding the separator |
| Text.JoinOnSplitOn | src/backend/markdown.rs:54 | splitting and re-joining on a separator gives the string back |
| Text.SplitOnPiece | src/backend/markdown.rs:54 | a separator-free piece followed by a separator is split off whole |
| Text.StripCR | src/backend/markdown.rs:54 | one trailing carriage return removed, or the line unchanged |
| Text.Lines | src/backend/markdown.rs:54 | no line holds a newline |
| Tokenizers.DivCeil | tests/chunking_tokenizer.rs:21-24 | the least quotient whose product covers `a` |
| Tokenizers.MockCount | tests/chunking_tokenizer.rs:21-24 | one token per started block of four bytes |
| Tokenizers.Mock | src/chunking/tokenizer/base.rs:14-32 | the limit given, and every count the mock count |
| Tokenizers.MockCountIsRoundedQuarter | tests/chunking_hybrid.rs:18-21 | the `(len + 3) / 4` counter is the same function |
| Tokenizers.MockCountZeroIffEmpty | tests/chunking_tokenizer.rs:21-24 | zero tokens exactly for the empty text |
| Tokenizers.MockCountIgnoresLimit | src/chunking/tokenizer/base.rs:24-31 | the count does not depend on the limit |
| Tokenizers.MockCountMonotone | tests/chunking_tokenizer.rs:21-24 | more bytes never means fewer tokens |
| Tokenizers.MockCountHelloWorld | tests/chunking_tokenizer.rs:33-42 | "Hello world" counts 3 tokens, within the test's bounds |
| ChunkBase.ChunkingError.Message | src/chunking/base.rs:12-24 | the kind's prefix followed by the message |
| ChunkBase.MessageDeterminesError | src/chunking/base.rs:12-24 | the displayed text determines kind and message |
| Hierarchical.Contributing | src/chunking/hierarchical.rs:77-84 | no more kept nodes than nodes, and every kept node has non-blank text |
| Hierarchical.ContributingAppend | src/chunking/hierarchical.rs:79-84 | one more node is kept exactly when it has non-blank text |
| Hierarchical.AllContributing | src/chunking/hierarchical.rs:79-84 | when every node has non-blank text, none is skipped |
| Hierarchical.ChunkFromUnfold | src/chunking/hierarchical.rs:77-113 | the chunks from node i on are node i's chunk, if any, then those from node i+1 |
| Hierarchical.ChunkFromCharacterized | src/chunking/hierarchical.rs:75-114 | one chunk per contributing node in order: text unchanged, document name, no headings or caption, consecutive indices, offsets copied or synthesized |
| Hierarchical.ChunksOfCons | src/chunking/hierarchical.rs:77-113 | a node's chunk followed by the chunks laid out from the cursor after it |
| Hierarchical.ChunkIndicesSequential | src/chunking/hierarchical.rs:73-111 | indices are 0, 1, ..., n-1 in emission order |
| Hierarchical.ChunkPerContributingNode | src/chunking/hierarchical.rs:77-109 | one chunk per node with non-blank text, in order, text untrimmed, with the document's name, no headings and no caption |
| Hierarchical.PositionedOffsetsCopied | src/chunking/hierarchical.rs:87-91 | a positioned node's chunk copies its start and end offsets |
| Hierarchical.ContributingUnpositioned | src/chunking/hierarchical.rs:87 | the kept nodes of an unpositioned document are unpositioned |
| Hierarchical.SynthesizedOffsets | src/chunking/hierarchical.rs:92-97 | without positions the first chunk starts at 0, each spans its text's bytes and the next starts one byte later |
| Hierarchical.ChainOrdered | src/chunking/hierarchical.rs:92-97 | chunks laid out that way are well formed and strictly ordered |
| Hierarchical.SynthesizedOffsetsOrdered | src/chunking/hierarchical.rs:92-97 | chunks of an unpositioned document are well formed and strictly ordered |
| Hierarchical.HeadingLinesAppend | src/chunking/hierarchical.rs:123-126 | one more heading adds its line at the end |
| Hierarchical.ContextualizedEndsWithText | src/chunking/hierarchical.rs:135 | the contextualized text ends with the chunk's text |
| Hierarchical.ContextualizedBare | src/chunking/hierarchical.rs:119-138 | without headings or caption it is the text itself |
| Hierarchical.SplitOffLine | src/chunking/hierarchical.rs:124-125 | a newline-free line and its newline are split off whole |
| Hierarchical.CaptionSplits | src/chunking/hierarchical.rs:129-132 | the caption line is split off whole ahead of the text |
| Hierarchical.HeadingsSplit | src/chunking/hierarchical.rs:123-126 | newline-free heading lines are split off whole and in order |
| Hierarchical.ContextualizedSplits | src/chunking/hierarchical.rs:119-138 | splitting at newlines gives the headings, the caption, then the text's own lines, when headings and caption hold no newline |
| Hierarchical.HierarchicalChunker.Chunk | src/chunking/hierarchical.rs:63-117 | the loop returns exactly the specified chunk sequence of the document |
| Hierarchical.HierarchicalChunker.Contextualize | src/chunking/hierarchical.rs:119-138 | headings, caption and text, one per line |
| Hierarchical.New | src/chunking/hierarchical.rs:37-41 | list-item merging on |
| Hierarchical.WithMergeListItems | src/chunking/hierarchical.rs:49-53 | the flag set as given |
| Hybrid.Texts | src/chunking/hybrid.rs:130-268 | one text per chunk |
| Hybrid.LaidOutCons | src/chunking/hybrid.rs:168-184 | a first piece followed by a run laid out after it is laid out |
| Hybrid.LaidOutTail | src/chunking/hybrid.rs:168-184 | without its first piece a laid-out run starts one byte past that piece's end |
| Hybrid.LaidOutSpan | src/chunking/hybrid.rs:168-204 | the last piece ends as far from the first start as the joined text is long |
| Hybrid.JoinFirstTwo | src/chunking/hybrid.rs:157 | joining the first two strings does not change the list's join |
| Hybrid.CombineAll | src/chunking/hybrid.rs:230-242 | one combined chunk per run |
| Hybrid.CombineSingle | src/chunking/hybrid.rs:258-260 | a single chunk is its own run |
| Hybrid.CombineAbsorb | src/chunking/hybrid.rs:230-242 | absorbing the next chunk is combining the longer run |
| Hybrid.Reindexed | src/chunking/hybrid.rs:263-265 | same chunks numbered 0, 1, ... |
| Hybrid.TextsReindexed | src/chunking/hybrid.rs:263-265 | re-indexing keeps the texts |
| Hybrid.WordsOfJoinedTexts | src/chunking/hybrid.rs:230 | the words of texts joined with spaces are each text's words in turn |
| Hybrid.ContextFreeAppend | src/chunking/hybrid.rs:272-290 | concatenations of chunks without context stay without context |
| Hybrid.HybridChunker.SplitOversizedChunk | src/chunking/hybrid.rs:130-207 | the word loop returns exactly the specified split |
| Hybrid.HybridChunker.PackNonEmpty | src/chunking/hybrid.rs:153-204 | packing always emits the gathered text and never a piece from nothing |
| Hybrid.HybridChunker.PackJoin | src/chunking/hybrid.rs:153-204 | the pieces' texts joined are the gathered text and the words joined |
| Hybrid.HybridChunker.PackLaidOut | src/chunking/hybrid.rs:168-204 | pieces are laid out from the start offset and index |
| Hybrid.HybridChunker.CountBare | src/chunking/hybrid.rs:131-137 | without context the count is the text's own |
| Hybrid.HybridChunker.CountOfPeers | src/chunking/hybrid.rs:131-137 | the count depends on text, headings and caption only |
| Hybrid.HybridChunker.PackPieces | src/chunking/hybrid.rs:153-204 | every piece is non-blank and one word or within budget |
| Hybrid.HybridChunker.SplitKeeps | src/chunking/hybrid.rs:131-146 | a fitting chunk, or one without words, is returned alone and unchanged |
| Hybrid.HybridChunker.SplitPreservesWords | src/chunking/hybrid.rs:142-204 | the pieces joined are the chunk's words joined, so the same words |
| Hybrid.HybridChunker.SplitPieces | src/chunking/hybrid.rs:153-204 | no piece of a non-blank chunk is blank; pieces of several words fit |
| Hybrid.HybridChunker.SplitLayout | src/chunking/hybrid.rs:168-204 | pieces copy name, headings and caption, take consecutive indices, start at the chunk's start, span their text, one byte apart, ending within the chunk |
| Hybrid.HybridChunker.MergeFrom | src/chunking/hybrid.rs:218-260 | never more chunks than held plus remaining |
| Hybrid.HybridChunker.MergeUndersizedPeers | src/chunking/hybrid.rs:210-268 | the loop returns exactly the specified merge |
| Hybrid.HybridChunker.MergeFromJoin | src/chunking/hybrid.rs:218-260 | joined with spaces, output texts equal input texts |
| Hybrid.HybridChunker.Runs | src/chunking/hybrid.rs:218-260 | every run is non-empty |
| Hybrid.HybridChunker.MergeFromRuns | src/chunking/hybrid.rs:218-260 | the loop emits exactly the combined runs |
| Hybrid.HybridChunker.RunsFlatten | src/chunking/hybrid.rs:218-260 | the runs, flattened, are the input |
| Hybrid.HybridChunker.RunsHead | src/chunking/hybrid.rs:218-260 | the first run starts with the held chunks |
| Hybrid.HybridChunker.GoodRunExtend | src/chunking/hybrid.rs:225-242 | a good run absorbing a mergeable peer stays good |
| Hybrid.HybridChunker.RunsGood | src/chunking/hybrid.rs:225-242 | runs are peers only, runs of two or more fit, and no run could absorb the next run's first chunk |
| Hybrid.HybridChunker.MergeRuns | src/chunking/hybrid.rs:210-268 | the runs cut a non-empty input into consecutive non-empty pieces |
| Hybrid.HybridChunker.MergeCharacterized | src/chunking/hybrid.rs:210-268 | merging on: input cut into maximal fitting peer runs, each combined, results numbered 0.. |
| Hybrid.HybridChunker.MergeOffIsIdentity | src/chunking/hybrid.rs:211-213 | merging off or no chunks: input returned untouched |
| Hybrid.HybridChunker.MergeKeepsText | src/chunking/hybrid.rs:210-268 | no chunks added, output numbered when on, texts joined unchanged |
| Hybrid.HybridChunker.Chunk | src/chunking/hybrid.rs:272-290 | the passes return exactly `Chunks`; every chunk is non-blank, carries the document name and fits the budget unless a lone word; the words of the hierarchical chunks are kept in order; with merging on the indices are 0..n-1; for an unpositioned document every chunk has start ≤ end and ends before the next starts |
| Hybrid.HybridChunker.Contextualize | src/chunking/hybrid.rs:292-295 | the hierarchical chunker's contextualization |
| Hybrid.HybridChunker.SplitAllBudgeted | src/chunking/hybrid.rs:272-290 | after the split pass every chunk fits or is one word |
| Hybrid.HybridChunker.MergeBudgeted | src/chunking/hybrid.rs:225-242 | merging keeps every chunk within budget or one word |
| Hybrid.HybridChunker.SplitAllWords | src/chunking/hybrid.rs:272-290 | the split pass keeps all words in order |
| Hybrid.HybridChunker.MergeWords | src/chunking/hybrid.rs:230 | merging keeps all words in order |
| Hybrid.HybridChunker.SplitContextFree | src/chunking/hybrid.rs:168-204 | pieces carry their chunk's headings and caption |
| Hybrid.HybridChunker.SplitAllContextFree | src/chunking/hybrid.rs:272-290 | context-free chunks split into context-free pieces |
| Hybrid.HybridChunker.MergeContextFree | src/chunking/hybrid.rs:230-242 | merging context-free chunks keeps them context-free |
| Hybrid.HybridChunker.ChunksIndexed | src/chunking/hybrid.rs:263-265 | merging on: chunks numbered 0, 1, 2, ... |
| Hybrid.HybridChunker.ChunksPreserveWords | src/chunking/hybrid.rs:272-290 | the chunks' words are the hierarchical chunks' words, in order |
| Hybrid.HybridChunker.ChunksBudgeted | src/chunking/hybrid.rs:272-290 | every chunk fits the budget unless it is a single word |
| Hybrid.HybridChunker.ChunksContextFree | src/chunking/hybrid.rs:272-290 | no chunk has headings or caption |
| Hybrid.HybridChunker.SplitSound | src/chunking/hybrid.rs:144-204 | the pieces of a non-blank chunk are non-blank and carry its document name |
| Hybrid.HybridChunker.SplitOrdered | src/chunking/hybrid.rs:150-204 | pieces are ordered, the first starts at the chunk's start and the last ends no later than the chunk's end |
| Hybrid.HybridChunker.SplitAllSound | src/chunking/hybrid.rs:280-284 | the split pass keeps every chunk non-blank with the document name |
| Hybrid.HybridChunker.SplitAllOrdered | src/chunking/hybrid.rs:280-284 | the split pass keeps an ordered, text-covering sequence ordered, from the same start |
| Hybrid.HybridChunker.MergeFromSound | src/chunking/hybrid.rs:218-260 | a merged text keeps the held chunk's non-blank prefix and its document name |
| Hybrid.HybridChunker.MergeFromOrdered | src/chunking/hybrid.rs:218-260 | the merge loop keeps the chunks ordered: a merged chunk runs from its first member's start to its last member's end |
| Hybrid.HybridChunker.MergeSound | src/chunking/hybrid.rs:210-268 | merging keeps every chunk non-blank with the document name |
| Hybrid.HybridChunker.MergeOrdered | src/chunking/hybrid.rs:210-268 | merging keeps an ordered sequence ordered |
| Hybrid.HybridChunker.ChunksWellFormed | src/chunking/hybrid.rs:272-290 | every chunk non-blank with the document name; for an unpositioned document start ≤ end and each chunk ends before the next starts |
| Hybrid.ExampleWords | src/chunking/hybrid.rs:142 | the example paragraphs' words |
| Hybrid.ExampleHierarchical | src/chunking/hierarchical.rs:63-117 | the hierarchical chunks of the example |
| Hybrid.ExampleCounts | tests/chunking_hybrid.rs:18-21 | the example token counts |
| Hybrid.ExampleSplitLong | src/chunking/hybrid.rs:130-207 | the long paragraph is cut into two pieces |
| Hybrid.ExampleSplitShort | src/chunking/hybrid.rs:131-137 | the short paragraph is kept |
| Hybrid.ExampleSplitAll | src/chunking/hybrid.rs:272-290 | the split pass over the example |
| Hybrid.IndicesRepeatWithoutMerge | src/chunking/hybrid.rs:272-290 | merging off: "ab cd", "c" give "ab", "cd", "c" indexed 0, 1, 1 |
| Hybrid.New | src/chunking/hybrid.rs:53-61 | the tokenizer's limit, merging on |
| Hybrid.Built | src/chunking/hybrid.rs:106-125 | a chunker exactly when a tokenizer is set and the limit in force is positive; the two invalid-configuration errors otherwise |
| Hybrid.BuildDefaultsAgreeWithNew | src/chunking/hybrid.rs:53-125 | builder with only a tokenizer builds what `new` makes for a positive limit and refuses a zero one |
| Hybrid.HybridChunkerBuilder.constructor | src/chunking/hybrid.rs:79-85 | no tokenizer, no limit, merging on |
| Hybrid.HybridChunkerBuilder.SetTokenizer | src/chunking/hybrid.rs:88-91 | tokenizer set, rest unchanged |
| Hybrid.HybridChunkerBuilder.SetMaxTokens | src/chunking/hybrid.rs:94-97 | limit set, rest unchanged |
| Hybrid.HybridChunkerBuilder.SetMergePeers | src/chunking/hybrid.rs:100-103 | flag set, rest unchanged |
| Hybrid.HybridChunkerBuilder.Build | src/chunking/hybrid.rs:106-125 | returns the specified build result |
| PdfLayout.DefaultColumnType | src/backend/pdf/layout.rs:119-123 | MainContent |
| PdfLayout.Column.constructor | src/backend/pdf/layout.rs:77-84 | given id and box, no blocks, MainContent |
| PdfLayout.Column.AddTextBlock | src/backend/pdf/layout.rs:87-89 | index appended, count up by one, rest unchanged |
| PdfLayout.Column.WithType | src/backend/pdf/layout.rs:97-100 | type set, same column returned, rest unchanged |
| PdfLayout.LayoutInfo.constructor | src/backend/pdf/layout.rs:24-31 | no columns, no order, given page size |
| PdfLayout.LayoutInfo.AddColumn | src/backend/pdf/layout.rs:34-36 | column appended; single-column exactly after the first, multi-column after later ones |
| PdfLayout.LayoutInfo.SetReadingOrder | src/backend/pdf/layout.rs:39-41 | order replaced, rest unchanged |
| PdfLayout.ColumnKinds | src/backend/pdf/layout.rs:44-56 | single iff one column, multi iff more, never both, neither iff none |
| PdfLayout.SingleColumnExample | src/backend/pdf/layout.rs:139-149 | one column: single, not multi |
| PdfLayout.MultiColumnExample | src/backend/pdf/layout.rs:151-161 | two columns: multi, not single |
| PdfLayout.ReadingOrderExample | src/backend/pdf/layout.rs:163-171 | the order set is the order read |
| PdfLayout.ColumnTextBlocksExample | src/backend/pdf/layout.rs:173-184 | three blocks added, three counted |
| PdfLayout.ColumnTypeExample | src/backend/pdf/layout.rs:186-192 | a sidebar column keeps its type |
| PdfTable.TableCell.WithHeader | src/backend/pdf/table.rs:105-108 | header flag set, all else unchanged |
| PdfTable.TableCell.WithRowspan | src/backend/pdf/table.rs:111-114 | row span set, all else unchanged |
| PdfTable.TableCell.WithColspan | src/backend/pdf/table.rs:117-120 | column span set, all else unchanged |
| PdfTable.NewTableCell | src/backend/pdf/table.rs:92-102 | given position, text and box; spans of one; not a header |
| PdfTable.MergedIffSpans | src/backend/pdf/table.rs:123-135 | merged iff a span exceeds one; new cells are not merged; the header flag does not matter |
| PdfTable.FindCell | src/backend/pdf/table.rs:60-62 | the first cell at the position, or None exactly when no cell is there |
| PdfTable.TableStructure.constructor | src/backend/pdf/table.rs:153-159 | given size, no merged cells |
| PdfTable.TableStructure.AddMergedCell | src/backend/pdf/table.rs:162-166 | recorded only when a span exceeds one; size unchanged |
| PdfTable.TableStructure.TotalCells | src/backend/pdf/table.rs:169-171 | the number of valid grid positions |
| PdfTable.RowPositionCount | src/backend/pdf/table.rs:174-176 | a row has `cols` positions |
| PdfTable.ValidPositionCount | src/backend/pdf/table.rs:169-176 | a grid has rows × cols valid positions |
| PdfTable.Table.constructor | src/backend/pdf/table.rs:27-35 | no cells, no header rows, no confidence |
| PdfTable.Table.AddCell | src/backend/pdf/table.rs:38-40 | cell appended, count up by one, rest unchanged |
| PdfTable.Table.WithHeaderRows | src/backend/pdf/table.rs:43-46 | header-row count set, same table returned |
| PdfTable.Table.WithConfidence | src/backend/pdf/table.rs:49-52 | confidence set, same table returned |
| PdfTable.Table.GetCell | src/backend/pdf/table.rs:60-62 | the first cell in insertion order at the position, or None exactly when there is none |
| PdfImage.DefaultImageType | src/backend/pdf/image.rs:75-79 | Unknown |
| PdfImage.DefaultImageFormat | src/backend/pdf/image.rs:160-164 | Unknown |
| PdfImage.ExtensionInjective | src/backend/pdf/image.rs:168-178 | distinct formats have distinct extensions |
| PdfImage.MimeTypes | src/backend/pdf/image.rs:181-191 | octet-stream exactly for Raw and Unknown; image types otherwise, named by extension except JPEG |
| PdfImage.ImageMetadata.WithDpi | src/backend/pdf/image.rs:113-116 | DPI set, all else unchanged |
| PdfImage.ImageMetadata.WithColorSpace | src/backend/pdf/image.rs:119-122 | colour space set, all else unchanged |
| PdfImage.ImageMetadata.Area | src/backend/pdf/image.rs:125-127 | width × height, which fits in a `u64` |
| PdfImage.ProductFits | src/backend/pdf/image.rs:125-127 | two `u32` values multiply below 2^64 |
| PdfImage.NewImageMetadata | src/backend/pdf/image.rs:102-110 | given size and format, no DPI or colour space |
| PdfImage.ImageRegion.WithType | src/backend/pdf/image.rs:38-41 | type set, all else unchanged |
| PdfImage.ImageRegion.WithBitmap | src/backend/pdf/image.rs:44-47 | bitmap set, all else unchanged |
| PdfImage.ImageRegion.WithConfidence | src/backend/pdf/image.rs:50-53 | confidence set, all else unchanged |
| PdfImage.NewImageRegion | src/backend/pdf/image.rs:27-35 | given box and metadata, Unknown type, no bitmap or confidence |
| PdfImage.BuildersCommute | src/backend/pdf/image.rs:38-53 | the builders commute pairwise |
| PdfImageExtractor.PdfiumImageExtractor.LargeEnough | src/backend/pdf/image_extractor.rs:109-111 | never more regions than candidates |
| PdfImageExtractor.PdfiumImageExtractor.LargeEnoughKeeps | src/backend/pdf/image_extractor.rs:109-111 | exactly the candidates of at least the minimum area are kept |
| PdfImageExtractor.PdfiumImageExtractor.LargeEnoughIdempotent | src/backend/pdf/image_extractor.rs:109-111 | filtering twice is filtering once |
| PdfImageExtractor.PdfiumImageExtractor.FilterRegions | src/backend/pdf/image_extractor.rs:67-116 | the loop keeps exactly the large-enough regions, in order |
| PdfImageExtractor.NewExtractor | src/backend/pdf/image_extractor.rs:42-48 | 100-pixel minimum, bitmaps and classification on |
| PdfImageExtractor.DefaultMinimumArea | src/backend/pdf/image_extractor.rs:109-111 | by default a region needs 10000 pixels |
| PdfImageExtractor.DetectFormat | src/backend/pdf/image_extractor.rs:120-152 | Unknown exactly for fewer than four bytes |
| PdfImageExtractor.SignaturesDisjoint | src/backend/pdf/image_extractor.rs:127-147 | no data matches two formats' signatures |
| PdfImageExtractor.DetectedHasSignature | src/backend/pdf/image_extractor.rs:127-147 | a detected format's signature is at the start |
| PdfImageExtractor.RawHasNoSignature | src/backend/pdf/image_extractor.rs:127-151 | Raw only when no signature matches |
| PdfImageExtractor.DetectFormatBySignature | src/backend/pdf/image_extractor.rs:120-152 | four or more bytes: the format whose signature matches, Raw iff none |
| PdfImageExtractor.DetectFormatExamples | src/backend/pdf/image_extractor.rs:236-254 | JPEG and PNG headers, and three bytes giving Unknown |
| TableDetector.Insert | src/backend/pdf/table_detector.rs:105-120 | one element more |
| TableDetector.InsertPermutes | src/backend/pdf/table_detector.rs:105-120 | insertion adds exactly that element |
| TableDetector.InsertSorted | src/backend/pdf/table_detector.rs:105-120 | insertion keeps a sorted sequence sorted |
| TableDetector.InsertStable | src/backend/pdf/table_detector.rs:105-120 | insertion keeps the order within every key class |
| TableDetector.SortByKeySorted | src/backend/pdf/table_detector.rs:105-120 | the sort is ordered by key |
| TableDetector.SortByKeyPermutes | src/backend/pdf/table_detector.rs:105-120 | the sort is a permutation |
| TableDetector.SortByKeyStable | src/backend/pdf/table_detector.rs:105-120 | equal keys keep input order |
| TableDetector.FlattenSortByKey | src/backend/pdf/table_detector.rs:105-110 | sorting rows keeps the grouped blocks |
| TableDetector.FlattenSortWithin | src/backend/pdf/table_detector.rs:113-120 | sorting inside rows keeps the grouped blocks |
| TableDetector.SortedGroupsBelow | src/backend/pdf/table_detector.rs:105-110 | sorted rows stay in range and non-empty |
| TableDetector.WithinGroupsBelow | src/backend/pdf/table_detector.rs:113-120 | so do rows sorted inside |
| TableDetector.IndicesOnce | src/backend/pdf/table_detector.rs:83 | each index 0..n-1 appears once |
| TableDetector.MaxLen | src/backend/pdf/table_detector.rs:154 | the longest row's length, 0 for none |
| TableDetector.MinOr | src/backend/pdf/table_detector.rs:157-187 | the least coordinate, 0.0 for none |
| TableDetector.MaxOr | src/backend/pdf/table_detector.rs:157-187 | the greatest coordinate, 0.0 for none |
| TableDetector.TableBoxCovers | src/backend/pdf/table_detector.rs:157-187 | the table's box contains every grouped block's box |
| TableDetector.MakeCell | src/backend/pdf/table_detector.rs:192-200 | the block's text and box at its position, header iff row 0 |
| TableDetector.CellsOfCount | src/backend/pdf/table_detector.rs:192-200 | one cell per grouped block |
| TableDetector.CellsOfSound | src/backend/pdf/table_detector.rs:192-200 | every cell is a grouped block's cell at its position |
| TableDetector.CellsOfComplete | src/backend/pdf/table_detector.rs:192-200 | every grouped block's cell is there |
| TableDetector.AddRowCells | src/backend/pdf/table_detector.rs:193-199 | one row's cells appended in order, rest unchanged |
| TableDetector.BuiltCells | src/backend/pdf/table_detector.rs:147-203 | one cell per block, each at a valid position, single-span, header iff first row |
| TableDetector.GridBasedTableDetector.FirstAligned | src/backend/pdf/table_detector.rs:86-95 | the first row the block aligns with, or None when none does |
| TableDetector.GridBasedTableDetector.Place | src/backend/pdf/table_detector.rs:84-101 | indices stay in range |
| TableDetector.GridBasedTableDetector.GridGroups | src/backend/pdf/table_detector.rs:75-123 | indices stay in range |
| TableDetector.GridBasedTableDetector.FindGridGroups | src/backend/pdf/table_detector.rs:75-123 | the loops return exactly the specified groups |
| TableDetector.GridBasedTableDetector.PlaceAddsIndex | src/backend/pdf/table_detector.rs:84-101 | placing adds exactly the block's index |
| TableDetector.GridBasedTableDetector.PlaceKeepsRows | src/backend/pdf/table_detector.rs:84-101 | rows keep following their leaders, leaders stay apart |
| TableDetector.GridBasedTableDetector.GroupedPartition | src/backend/pdf/table_detector.rs:83-102 | each block index is in exactly one row |
| TableDetector.GridBasedTableDetector.GroupedRows | src/backend/pdf/table_detector.rs:83-102 | rows non-empty, members near their leader, leaders not near earlier leaders |
| TableDetector.GridBasedTableDetector.GridGroupsPartition | src/backend/pdf/table_detector.rs:75-123 | above the guard, the groups partition the block indices |
| TableDetector.GridBasedTableDetector.GridGroupsOrdered | src/backend/pdf/table_detector.rs:105-120 | rows ordered by leader y, each row by x |
| TableDetector.GridBasedTableDetector.GridGroupsEmpty | src/backend/pdf/table_detector.rs:76-78 | no groups exactly when the guard fires or there are no blocks |
| TableDetector.GridBasedTableDetector.LengthsNear | src/backend/pdf/table_detector.rs:136-141 | every row within two blocks of the first |
| TableDetector.GridBasedTableDetector.IsTableGrid | src/backend/pdf/table_detector.rs:126-144 | enough rows, a wide enough first row, every row within two of it |
| TableDetector.GridBasedTableDetector.BuildTable | src/backend/pdf/table_detector.rs:147-203 | None exactly when not a grid; otherwise the built table |
| TableDetector.GridBasedTableDetector.DetectTables | src/backend/pdf/table_detector.rs:213-234 | nothing for no blocks; at most one table, found exactly when the groups form a grid, built from them |
| TableDetector.NewDetector | src/backend/pdf/table_detector.rs:50-57 | 2 rows, 2 columns, tolerance 5.0, confidence 0.5 |
| TableDetector.DefaultNeedsFourBlocks | src/backend/pdf/table_detector.rs:76-78 | by default fewer than four blocks never make a table |
| TableDetector.TwoByTwoGroups | src/backend/pdf/table_detector.rs:260-277 | the 2 x 2 example groups into its two rows |
| TableDetector.TwoByTwoSorted | src/backend/pdf/table_detector.rs:260-277 | those rows are already in order |
| TableDetector.TwoByTwoTable | src/backend/pdf/table_detector.rs:260-277 | the 2 x 2 example forms a table of 2 rows and 2 columns |

## Left out

- Hybrid.HybridChunker.ChunksWellFormed: start ≤ end and non-overlap are proved for documents whose nodes carry no source position. A position's offsets are copied unchecked (src/chunking/hierarchical.rs:87-91), so with positions neither holds in general, and the source does not promise them.
- I/O:
  - file reading and UTF-8 decoding in `MarkdownBackend::get_content`;
  - the name taken from a path.
  `MarkdownBackend.Convert` receives the name and content.
- `InputFormat::from_bytes`: it relies on the `infer` crate's magic-number tables, which are not part of this model.
- `to_json` and all serde derives: JSON serialization is not modelled.
- The HuggingFace tokenizer: only the abstract tokenizer and the tests' reference counter are modelled.
- PDF parsing with pdfium and OCR with tesseract:
  - `extract_from_page` is modelled only for its minimum-area filter;
  - the candidate regions are given as input.
- `classify_image`, `estimate_dpi` and `ImageMetadata::aspect_ratio`: they rest on floating-point division and thresholds, and the model does not cover f64 arithmetic.
- `DetectTables` takes the page width and height as parameters and does not use them, as in the source.
- `minConfidence`, `extractBitmaps` and `classifyImages` are kept as fields, but nothing modelled reads them.
- `TableDetector.GridBasedTableDetector.IsTableGrid` / `LengthsNear`: the `as i32` casts of the row counts are not modelled; counts are compared as unbounded integers, which agrees for any row shorter than 2^31 blocks.
- `TableDetector.TableBox`: the f64 rounding of the box coordinates is not modelled; the coordinates are exact reals.
- `TableDetector.TextBlock`: only the text and the box of a text block are modelled. Its other fields are not read by the detector.
- The `with_settings` constructors of the table detector and the image extractor are the datatypes' own constructors, and have no separate member.
- Getters that return a field are datatype fields here.
- `usize` overflow of offsets and indices is not modelled: they are naturals.
- The CLI orchestration, clap's parsing, the converter pipeline, batch processing and logging: they are I/O and argument plumbing around the modelled functions.
- Iterator laziness (src/chunking/base.rs:67): chunkers return sequences.
- `Send`/`Sync` and threading.
- `PdfLayout.LayoutInfo.AddColumn` stores a reference to the column, whereas Rust moves the column into the layout's vector; aliasing between the stored column and the caller's is not ruled out.
- `Table`, `TableMetadata`, `NodeMetadata` and the other placeholder types of the data model: empty structs with no behaviour.
- `merge_list_items` of the hierarchical chunker: it is stored but never read by `chunk`.
- `Hybrid.HybridChunker.ChunksIndexed`: stated only for merging on, because with merging off the indices repeat (`Hybrid.IndicesRepeatWithoutMerge`).
