/**
 * `HierarchicalChunker`: one chunk per document node whose text is present and not blank,
 * with dense indices and byte offsets either copied from the node's source position or
 * synthesized from a running cursor.
 */
module Hierarchical {
  import opened Wrappers
  import opened Text
  import opened Node
  import opened Document
  import opened ChunkMeta
  import opened ChunkBase

  /**
   * A node yields a chunk when it has text and that text is not blank (by `Text.Trim`'s
   * contract, exactly when the trimmed text is not empty).
   */
  predicate Contributes(n: DocumentNode)
  {
    n.TextContent().Some? && !IsBlank(n.TextContent().value)
  }

  /** The nodes that yield chunks, in document order. */
  function Contributing(nodes: seq<DocumentNode>): (ks: seq<DocumentNode>)
    ensures |ks| <= |nodes|
    ensures forall i | 0 <= i < |ks| :: Contributes(ks[i])
  {
    if nodes == [] then []
    else (if Contributes(nodes[0]) then [nodes[0]] else []) + Contributing(nodes[1..])
  }

  /** Appending a node appends it to the contributing nodes exactly when it contributes. */
  lemma {:induction false} ContributingAppend(nodes: seq<DocumentNode>, n: DocumentNode)
    ensures Contributing(nodes + [n]) == Contributing(nodes) + (if Contributes(n) then [n] else [])
  {
    if nodes == [] {
      assert ([] + [n])[1..] == [];
    } else {
      assert (nodes + [n])[1..] == nodes[1..] + [n];
      ContributingAppend(nodes[1..], n);
    }
  }

  /** When every node contributes, every node yields a chunk. */
  lemma {:induction false} AllContributing(nodes: seq<DocumentNode>)
    requires forall i | 0 <= i < |nodes| :: Contributes(nodes[i])
    ensures Contributing(nodes) == nodes
  {
    if nodes != [] {
      AllContributing(nodes[1..]);
    }
  }

  /**
   * Start offset, end offset and the cursor afterwards for a contributing node: a positioned
   * node's offsets are copied and the cursor moves to its end; otherwise the chunk starts at
   * the cursor, spans the text's bytes and the cursor moves one past its end.
   */
  function Offsets(n: DocumentNode, cursor: nat): (nat, nat, nat)
    requires n.TextContent().Some?
  {
    match n.Position()
    case Some(p) => (p.startOffset, p.endOffset, p.endOffset)
    case None =>
      var e := cursor + ByteLen(n.TextContent().value);
      (cursor, e, e + 1)
  }

  /** The chunks of `nodes`, given the cursor and the next index. */
  function ChunkFrom(docName: string, nodes: seq<DocumentNode>, cursor: nat, index: nat): seq<BaseChunk>
    decreases |nodes|
  {
    if nodes == [] then []
    else if !Contributes(nodes[0]) then ChunkFrom(docName, nodes[1..], cursor, index)
    else
      var text := nodes[0].TextContent().value;
      var (s, e, next) := Offsets(nodes[0], cursor);
      [BaseChunk(text, ChunkMetadata(docName, [], None, s, e, index))]
        + ChunkFrom(docName, nodes[1..], next, index + 1)
  }

  /** The chunks from node `i` on: node `i`'s chunk, if it yields one, then those from node `i + 1` on. */
  lemma ChunkFromUnfold(docName: string, nodes: seq<DocumentNode>, i: nat, cursor: nat, index: nat)
    requires i < |nodes|
    ensures var n := nodes[i];
      ChunkFrom(docName, nodes[i..], cursor, index)
        == if !Contributes(n) then ChunkFrom(docName, nodes[i + 1..], cursor, index)
           else
             var (s, e, next) := Offsets(n, cursor);
             [BaseChunk(n.TextContent().value, ChunkMetadata(docName, [], None, s, e, index))]
               + ChunkFrom(docName, nodes[i + 1..], next, index + 1)
  {
    assert nodes[i..][0] == nodes[i] && nodes[i..][1..] == nodes[i + 1..];
  }

  /** The chunks of a document with nodes `nodes`. */
  function ChunkNodes(docName: string, nodes: seq<DocumentNode>): seq<BaseChunk>
  {
    ChunkFrom(docName, nodes, 0, 0)
  }

  /** The cursor after chunk `c` of node `n`. */
  function CursorAfter(c: BaseChunk, n: DocumentNode): nat
  {
    if n.Position().Some? then c.meta.endOffset else c.meta.endOffset + 1
  }

  /** `c` is the chunk node `n` yields at cursor `cursor` with index `index`. */
  predicate ChunkOf(c: BaseChunk, n: DocumentNode, docName: string, cursor: nat, index: nat)
  {
    && n.TextContent() == Some(c.text)
    && c.meta.docName == docName && c.meta.headings == [] && c.meta.caption == None
    && c.meta.index == index
    && match n.Position()
       case Some(p) => c.meta.startOffset == p.startOffset && c.meta.endOffset == p.endOffset
       case None => c.meta.startOffset == cursor && c.meta.endOffset == cursor + ByteLen(c.text)
  }

  /** The cursor before chunk `i`, starting from `cursor`. */
  function CursorBefore(cs: seq<BaseChunk>, ks: seq<DocumentNode>, cursor: nat, i: nat): nat
    requires i <= |cs| && i <= |ks|
  {
    if i == 0 then cursor else CursorAfter(cs[i - 1], ks[i - 1])
  }

  /** Chunk `i` of `cs` is the one node `i` of `ks` yields, with index `index + i`. */
  predicate ChunksOf(cs: seq<BaseChunk>, ks: seq<DocumentNode>, docName: string, cursor: nat, index: nat)
  {
    && |cs| == |ks|
    && forall i: nat {:trigger CursorBefore(cs, ks, cursor, i)} :: i < |cs| ==>
         ChunkOf(cs[i], ks[i], docName, CursorBefore(cs, ks, cursor, i), index + i)
  }

  /**
   * The chunk sequence, described chunk by chunk: one chunk per contributing node, in order,
   * with its text unchanged, the document's name, no headings, no caption, consecutive
   * indices and the offset rule of `Offsets`.
   */
  lemma {:induction false} ChunkFromCharacterized(docName: string, nodes: seq<DocumentNode>, cursor: nat, index: nat)
    ensures ChunksOf(ChunkFrom(docName, nodes, cursor, index), Contributing(nodes), docName, cursor, index)
    decreases |nodes|
  {
    if nodes != [] {
      var n := nodes[0];
      if !Contributes(n) {
        assert Contributing(nodes) == Contributing(nodes[1..]);
        ChunkFromCharacterized(docName, nodes[1..], cursor, index);
      } else {
        var (s, e, next) := Offsets(n, cursor);
        var c := BaseChunk(n.TextContent().value, ChunkMetadata(docName, [], None, s, e, index));
        var rest := ChunkFrom(docName, nodes[1..], next, index + 1);
        var ks := Contributing(nodes[1..]);
        ChunkFromCharacterized(docName, nodes[1..], next, index + 1);
        assert ChunkFrom(docName, nodes, cursor, index) == [c] + rest;
        assert Contributing(nodes) == [n] + ks;
        assert ChunkOf(c, n, docName, cursor, index) && next == CursorAfter(c, n);
        ChunksOfCons(c, n, rest, ks, docName, cursor, index);
      }
    }
  }

  /** A chunk of its node, followed by chunks of further nodes laid out from the cursor after it. */
  lemma ChunksOfCons(c: BaseChunk, n: DocumentNode, rest: seq<BaseChunk>, ks: seq<DocumentNode>,
                     docName: string, cursor: nat, index: nat)
    requires ChunkOf(c, n, docName, cursor, index)
    requires ChunksOf(rest, ks, docName, CursorAfter(c, n), index + 1)
    ensures ChunksOf([c] + rest, [n] + ks, docName, cursor, index)
  {
    var cs, ns, next := [c] + rest, [n] + ks, CursorAfter(c, n);
    forall i: nat | i < |cs|
      ensures ChunkOf(cs[i], ns[i], docName, CursorBefore(cs, ns, cursor, i), index + i)
    {
      if i == 0 {
        assert cs[0] == c && ns[0] == n;
      } else {
        var j: nat := i - 1;
        assert cs[i] == rest[j] && ns[i] == ks[j];
        assert CursorBefore(cs, ns, cursor, i) == CursorBefore(rest, ks, next, j) by {
          if j == 0 {
            assert cs[0] == c && ns[0] == n;
          } else {
            assert cs[i - 1] == rest[j - 1] && ns[i - 1] == ks[j - 1];
          }
        }
        assert ChunkOf(rest[j], ks[j], docName, CursorBefore(rest, ks, next, j), index + 1 + j);
      }
    }
  }

  /** Indices are exactly 0, 1, ..., n-1 in emission order. */
  lemma ChunkIndicesSequential(docName: string, nodes: seq<DocumentNode>)
    ensures SequentiallyIndexed(ChunkNodes(docName, nodes))
  {
    var cs, ks := ChunkNodes(docName, nodes), Contributing(nodes);
    ChunkFromCharacterized(docName, nodes, 0, 0);
    forall i | 0 <= i < |cs|
      ensures cs[i].meta.index == i
    {
      assert ChunkOf(cs[i], ks[i], docName, CursorBefore(cs, ks, 0, i), i);
    }
  }

  /**
   * One chunk per contributing node, in node order, whose text is the node's text,
   * untrimmed; every chunk carries the document's name, no headings and no caption.
   */
  lemma ChunkPerContributingNode(docName: string, nodes: seq<DocumentNode>)
    ensures var cs, ks := ChunkNodes(docName, nodes), Contributing(nodes);
      && |cs| == |ks|
      && forall i | 0 <= i < |cs| ::
           && Some(cs[i].text) == ks[i].TextContent()
           && cs[i].meta.docName == docName && cs[i].meta.headings == [] && cs[i].meta.caption == None
  {
    var cs, ks := ChunkNodes(docName, nodes), Contributing(nodes);
    ChunkFromCharacterized(docName, nodes, 0, 0);
    forall i | 0 <= i < |cs|
      ensures Some(cs[i].text) == ks[i].TextContent()
      ensures cs[i].meta.docName == docName && cs[i].meta.headings == [] && cs[i].meta.caption == None
    {
      assert ChunkOf(cs[i], ks[i], docName, CursorBefore(cs, ks, 0, i), i);
    }
  }

  /** A positioned node's chunk copies the position's offsets. */
  lemma PositionedOffsetsCopied(docName: string, nodes: seq<DocumentNode>, i: nat)
    requires i < |Contributing(nodes)| && Contributing(nodes)[i].Position().Some?
    ensures |ChunkNodes(docName, nodes)| == |Contributing(nodes)|
    ensures var c, p := ChunkNodes(docName, nodes)[i], Contributing(nodes)[i].Position().value;
      c.meta.startOffset == p.startOffset && c.meta.endOffset == p.endOffset
  {
    var cs, ks := ChunkNodes(docName, nodes), Contributing(nodes);
    ChunkFromCharacterized(docName, nodes, 0, 0);
    assert ChunkOf(cs[i], ks[i], docName, CursorBefore(cs, ks, 0, i), i);
  }

  /** No node carries a source position. */
  predicate Unpositioned(nodes: seq<DocumentNode>)
  {
    forall i | 0 <= i < |nodes| :: nodes[i].Position() == None
  }

  lemma {:induction false} ContributingUnpositioned(nodes: seq<DocumentNode>)
    requires Unpositioned(nodes)
    ensures Unpositioned(Contributing(nodes))
  {
    if nodes != [] {
      ContributingUnpositioned(nodes[1..]);
    }
  }

  /**
   * In a document without positions every offset is synthesized: the first chunk starts at 0,
   * each chunk spans its text's bytes (so it ends after it starts) and the next one starts one
   * byte after its end.
   */
  lemma SynthesizedOffsets(docName: string, nodes: seq<DocumentNode>)
    requires Unpositioned(nodes)
    ensures var cs := ChunkNodes(docName, nodes);
      && (cs != [] ==> cs[0].meta.startOffset == 0)
      && (forall i | 0 <= i < |cs| ::
            cs[i].meta.endOffset == cs[i].meta.startOffset + ByteLen(cs[i].text)
            && cs[i].meta.startOffset < cs[i].meta.endOffset)
      && (forall i | 0 < i < |cs| :: cs[i].meta.startOffset == cs[i - 1].meta.endOffset + 1)
  {
    var cs, ks := ChunkNodes(docName, nodes), Contributing(nodes);
    ChunkFromCharacterized(docName, nodes, 0, 0);
    ContributingUnpositioned(nodes);
    forall i | 0 <= i < |cs|
      ensures cs[i].meta.endOffset == cs[i].meta.startOffset + ByteLen(cs[i].text)
      ensures cs[i].meta.startOffset < cs[i].meta.endOffset
      ensures i == 0 ==> cs[i].meta.startOffset == 0
      ensures i > 0 ==> cs[i].meta.startOffset == cs[i - 1].meta.endOffset + 1
    {
      assert ChunkOf(cs[i], ks[i], docName, CursorBefore(cs, ks, 0, i), i);
      assert Contributes(ks[i]);
      ByteLenBounds(cs[i].text);
    }
  }

  /** Chunks that each end after they start, and each start right after the previous one ends. */
  lemma {:induction false} ChainOrdered(cs: seq<BaseChunk>, i: nat, j: nat)
    requires i < j < |cs|
    requires forall k | 0 <= k < |cs| :: cs[k].meta.startOffset < cs[k].meta.endOffset
    requires forall k | 0 < k < |cs| :: cs[k].meta.startOffset == cs[k - 1].meta.endOffset + 1
    ensures cs[i].meta.endOffset < cs[j].meta.startOffset
    decreases j - i
  {
    if j > i + 1 {
      ChainOrdered(cs, i, j - 1);
    }
  }

  /** Hence chunks of an unpositioned document are well formed and strictly ordered. */
  lemma SynthesizedOffsetsOrdered(docName: string, nodes: seq<DocumentNode>)
    requires Unpositioned(nodes)
    ensures var cs := ChunkNodes(docName, nodes);
      && (forall i | 0 <= i < |cs| :: cs[i].meta.WellFormed())
      && (forall i, j | 0 <= i < j < |cs| :: cs[i].meta.endOffset < cs[j].meta.startOffset)
  {
    var cs := ChunkNodes(docName, nodes);
    SynthesizedOffsets(docName, nodes);
    forall i, j | 0 <= i < j < |cs|
      ensures cs[i].meta.endOffset < cs[j].meta.startOffset
    {
      ChainOrdered(cs, i, j);
    }
  }

  /** `contextualize`'s heading block: each heading followed by a newline. */
  function HeadingLines(headings: seq<string>): string
  {
    if headings == [] then [] else headings[0] + "\n" + HeadingLines(headings[1..])
  }

  lemma {:induction false} HeadingLinesAppend(headings: seq<string>, h: string)
    ensures HeadingLines(headings + [h]) == HeadingLines(headings) + h + "\n"
  {
    if headings == [] {
      assert ([] + [h])[1..] == [];
    } else {
      assert (headings + [h])[1..] == headings[1..] + [h];
      HeadingLinesAppend(headings[1..], h);
    }
  }

  /** The caption line, if any. */
  function CaptionLine(caption: Option<string>): string
  {
    match caption
    case Some(c) => c + "\n"
    case None => []
  }

  /** The string `contextualize` builds: headings, then caption, one per line, then the text. */
  function Contextualized(chunk: BaseChunk): string
  {
    HeadingLines(chunk.meta.headings) + CaptionLine(chunk.meta.caption) + chunk.text
  }

  /** The chunk's text is what the contextualized string ends with. */
  lemma ContextualizedEndsWithText(chunk: BaseChunk)
    ensures var s := Contextualized(chunk);
      |chunk.text| <= |s| && s[|s| - |chunk.text|..] == chunk.text
  {
  }

  /** Without headings and caption the contextualized string is the text itself. */
  lemma ContextualizedBare(chunk: BaseChunk)
    requires chunk.meta.headings == [] && chunk.meta.caption == None
    ensures Contextualized(chunk) == chunk.text
  {
  }

  /** No string in `ss` contains a newline. */
  predicate SingleLines(ss: seq<string>)
  {
    forall i | 0 <= i < |ss| :: '\n' !in ss[i]
  }

  /** A line without a newline, then a newline, is split off whole. */
  lemma SplitOffLine(line: string, rest: string)
    requires '\n' !in line
    ensures SplitOn(line + "\n" + rest, '\n') == [line] + SplitOn(rest, '\n')
  {
    assert line + "\n" + rest == line + ['\n'] + rest;
    SplitOnPiece(line, '\n', rest);
  }

  /** The caption line, when there is one, is split off whole ahead of the text. */
  lemma CaptionSplits(caption: Option<string>, text: string)
    requires caption.Some? ==> '\n' !in caption.value
    ensures SplitOn(CaptionLine(caption) + text, '\n')
         == (if caption.Some? then [caption.value] else []) + SplitOn(text, '\n')
  {
    if caption.Some? {
      SplitOffLine(caption.value, text);
    } else {
      assert CaptionLine(caption) + text == text;
    }
  }

  /** Heading lines without newlines of their own are split off whole, in order, ahead of what follows. */
  lemma {:induction false} HeadingsSplit(headings: seq<string>, after: string)
    requires SingleLines(headings)
    ensures SplitOn(HeadingLines(headings) + after, '\n') == headings + SplitOn(after, '\n')
  {
    if headings == [] {
      assert HeadingLines(headings) + after == after;
    } else {
      var h, tl := headings[0], headings[1..];
      var rest := HeadingLines(tl) + after;
      assert HeadingLines(headings) + after == h + "\n" + rest;
      SplitOffLine(h, rest);
      assert SingleLines(tl);
      HeadingsSplit(tl, after);
      assert headings == [h] + tl;
      ConcatAssoc([h], tl, SplitOn(after, '\n'));
    }
  }

  /**
   * Splitting the contextualized string at newlines gives back the headings in order, then
   * the caption, then the text's own pieces: the metadata prefix is recoverable as long as no
   * heading or caption holds a newline.
   */
  lemma ContextualizedSplits(headings: seq<string>, caption: Option<string>, text: string)
    requires SingleLines(headings)
    requires caption.Some? ==> '\n' !in caption.value
    ensures SplitOn(HeadingLines(headings) + CaptionLine(caption) + text, '\n')
         == headings + (if caption.Some? then [caption.value] else []) + SplitOn(text, '\n')
  {
    var cap := if caption.Some? then [caption.value] else [];
    var after := CaptionLine(caption) + text;
    assert HeadingLines(headings) + CaptionLine(caption) + text == HeadingLines(headings) + after;
    HeadingsSplit(headings, after);
    CaptionSplits(caption, text);
    ConcatAssoc(headings, cap, SplitOn(text, '\n'));
  }

  /** `HierarchicalChunker`; `mergeListItems` is stored but never read by `Chunk`. */
  datatype HierarchicalChunker = HierarchicalChunker(mergeListItems: bool)
  {
    /** `chunk`: a loop over the document's nodes threading the cursor and the next index. */
    method Chunk(doc: DoclingDocument) returns (chunks: seq<BaseChunk>)
      ensures chunks == ChunkNodes(doc.name, doc.nodes)
    {
      var docName := doc.name;
      var nodes := doc.nodes;
      var currentOffset: nat := 0;
      var chunkIndex: nat := 0;
      chunks := [];
      for i := 0 to |nodes|
        invariant chunks + ChunkFrom(docName, nodes[i..], currentOffset, chunkIndex) == ChunkNodes(docName, nodes)
      {
        var node := nodes[i];
        ChunkFromUnfold(docName, nodes, i, currentOffset, chunkIndex);
        ghost var before, cursor, index := chunks, currentOffset, chunkIndex;
        match node.TextContent() {
          case None =>
          case Some(text) =>
            if Trim(text) != [] {
              var startOffset, endOffset;
              match node.Position() {
                case Some(pos) =>
                  startOffset, endOffset := pos.startOffset, pos.endOffset;
                  currentOffset := endOffset;
                case None =>
                  startOffset, endOffset := currentOffset, currentOffset + ByteLen(text);
                  currentOffset := endOffset + 1;
              }
              assert Offsets(node, cursor) == (startOffset, endOffset, currentOffset);
              var chunk := BaseChunk(text, ChunkMetadata(docName, [], None, startOffset, endOffset, chunkIndex));
              chunks := chunks + [chunk];
              chunkIndex := chunkIndex + 1;
              assert ChunkFrom(docName, nodes[i..], cursor, index)
                  == [chunk] + ChunkFrom(docName, nodes[i + 1..], currentOffset, chunkIndex);
              ConcatAssoc(before, [chunk], ChunkFrom(docName, nodes[i + 1..], currentOffset, chunkIndex));
            }
        }
      }
    }

    /** `contextualize`: appends each heading and a newline, then the caption line, then the text. */
    method Contextualize(chunk: BaseChunk) returns (result: string)
      ensures result == Contextualized(chunk)
    {
      var headings := chunk.meta.headings;
      result := [];
      for i := 0 to |headings|
        invariant result == HeadingLines(headings[..i])
      {
        HeadingLinesAppend(headings[..i], headings[i]);
        assert headings[..i + 1] == headings[..i] + [headings[i]];
        result := result + headings[i] + "\n";
      }
      assert headings[..|headings|] == headings;
      match chunk.meta.caption {
        case Some(caption) => result := result + caption + "\n";
        case None =>
      }
      result := result + chunk.text;
    }
  }

  /** `HierarchicalChunker::new`: list-item merging on. */
  function New(): (c: HierarchicalChunker)
    ensures c.mergeListItems
  {
    HierarchicalChunker(true)
  }

  /** `with_merge_list_items`. */
  function WithMergeListItems(merge: bool): (c: HierarchicalChunker)
    ensures c.mergeListItems == merge
  {
    HierarchicalChunker(merge)
  }
}
