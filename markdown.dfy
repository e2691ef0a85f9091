/**
 * The Markdown backend's conversion of text into document nodes: every line that is not blank
 * becomes one node holding the trimmed line, typed by its first character.
 */
module MarkdownBackend {
  import opened Wrappers
  import opened Text
  import opened Node
  import opened Document
  import opened ChunkMeta
  import opened ChunkBase
  import Format
  import Hierarchical

  /** The node type `convert` gives a trimmed, non-empty line. */
  function Classify(t: string): NodeType
    requires t != []
  {
    if t[0] == '#' then Heading
    else if t[0] == '-' || t[0] == '*' || t[0] == '+' then ListItem
    else NodeType.Paragraph
  }

  /** What `convert` adds for one line: nothing when it is blank, else one node of its trim. */
  function LineNodes(line: string): seq<DocumentNode>
  {
    var t := Trim(line);
    if t == [] then [] else [NewDocumentNode(Classify(t), t)]
  }

  /** The nodes `convert` adds for `lines`, in order. */
  function NodesOf(lines: seq<string>): (ns: seq<DocumentNode>)
    ensures |ns| <= |lines|
  {
    if lines == [] then [] else LineNodes(lines[0]) + NodesOf(lines[1..])
  }

  lemma {:induction false} NodesOfAppend(lines: seq<string>, line: string)
    ensures NodesOf(lines + [line]) == NodesOf(lines) + LineNodes(line)
  {
    if lines == [] {
      assert [] + [line] == [line];
    } else {
      assert (lines + [line])[1..] == lines[1..] + [line];
      NodesOfAppend(lines[1..], line);
    }
  }

  /** The nodes of a Markdown text. */
  function MarkdownNodes(content: string): seq<DocumentNode>
  {
    NodesOf(Lines(content))
  }

  /**
   * `MarkdownBackend::convert`, given the document's name and its decoded content: a new
   * document with that name, no metadata and the nodes of the content.
   */
  method Convert(name: string, content: string) returns (doc: DoclingDocument)
    ensures fresh(doc)
    ensures doc.name == name && doc.nodes == MarkdownNodes(content) && doc.metadata == map[]
  {
    doc := new DoclingDocument(name);
    var lines := Lines(content);
    for i := 0 to |lines|
      invariant doc.name == name && doc.metadata == map[]
      invariant doc.nodes == NodesOf(lines[..i])
    {
      var trimmed := Trim(lines[i]);
      if trimmed != [] {
        var nodeType := if trimmed[0] == '#' then Heading
          else if trimmed[0] == '-' || trimmed[0] == '*' || trimmed[0] == '+' then ListItem
          else NodeType.Paragraph;
        assert nodeType == Classify(trimmed);
        doc.AddNode(NewDocumentNode(nodeType, trimmed));
      }
      assert doc.nodes == NodesOf(lines[..i + 1]) by {
        NodesOfAppend(lines[..i], lines[i]);
        TakeOneMore(lines, i);
      }
    }
    assert lines[..|lines|] == lines;
  }

  /** The trims of the lines that are not blank, in line order. */
  function TrimmedLines(lines: seq<string>): (ts: seq<string>)
    ensures |ts| <= |lines|
  {
    if lines == [] then []
    else (if Trim(lines[0]) == [] then [] else [Trim(lines[0])]) + TrimmedLines(lines[1..])
  }

  /** Blank lines contribute nothing; a line that is not blank contributes its trim. */
  lemma TrimmedLinesOfBlank(lines: seq<string>)
    requires forall i | 0 <= i < |lines| :: IsBlank(lines[i])
    ensures TrimmedLines(lines) == []
  {
  }

  /** Non-empty strings that start and end with a character that is not whitespace. */
  predicate Unpadded(ts: seq<string>)
  {
    forall i | 0 <= i < |ts| ::
      ts[i] != [] && !IsWhitespace(ts[i][0]) && !IsWhitespace(ts[i][|ts[i]| - 1])
  }

  /** Each trimmed line is non-empty and has no whitespace at either end. */
  lemma {:induction false} TrimmedLinesUnpadded(lines: seq<string>)
    ensures Unpadded(TrimmedLines(lines))
  {
    if lines != [] {
      TrimmedLinesUnpadded(lines[1..]);
      var t := Trim(lines[0]);
      var ts := TrimmedLines(lines);
      var rest := TrimmedLines(lines[1..]);
      var head := if t == [] then [] else [t];
      assert ts == head + rest;
      forall i | 0 <= i < |ts|
        ensures ts[i] != [] && !IsWhitespace(ts[i][0]) && !IsWhitespace(ts[i][|ts[i]| - 1])
      {
        if i < |head| {
          assert ts[i] == t;
        } else {
          assert ts[i] == rest[i - |head|];
        }
      }
    }
  }

  /** Hence each trimmed line is its own trim: no node text is padded. */
  lemma TrimmedLinesAreTrimmed(lines: seq<string>)
    ensures var ts := TrimmedLines(lines); forall i | 0 <= i < |ts| :: Trim(ts[i]) == ts[i]
  {
    var ts := TrimmedLines(lines);
    TrimmedLinesUnpadded(lines);
    forall i | 0 <= i < |ts|
      ensures Trim(ts[i]) == ts[i]
    {
      TrimOfTrimmed(ts[i]);
    }
  }

  /**
   * One node per line that is not blank, in line order: the node's text is the trimmed line,
   * it has no position, and its type is Heading when that text starts with '#', ListItem when
   * it starts with '-', '*' or '+', and Paragraph otherwise.
   */
  lemma {:induction false} NodesOfCharacterized(lines: seq<string>)
    ensures var ns, ts := NodesOf(lines), TrimmedLines(lines);
      && |ns| == |ts|
      && forall i | 0 <= i < |ns| ::
           && ts[i] != []
           && ns[i].TextContent() == Some(ts[i])
           && ns[i].Position() == None
           && (ns[i].Type() == Heading <==> ts[i][0] == '#')
           && (ns[i].Type() == ListItem <==> ts[i][0] == '-' || ts[i][0] == '*' || ts[i][0] == '+')
           && (ns[i].Type() == NodeType.Paragraph <==> ts[i][0] !in "#-*+")
  {
    if lines != [] {
      NodesOfCharacterized(lines[1..]);
      var t := Trim(lines[0]);
      var ns, ts := NodesOf(lines), TrimmedLines(lines);
      assert ns == LineNodes(lines[0]) + NodesOf(lines[1..]);
      assert ts == (if t == [] then [] else [t]) + TrimmedLines(lines[1..]);
    }
  }

  /** No node of a converted text has a position, and every node yields a chunk. */
  lemma MarkdownNodesChunkable(content: string)
    ensures Hierarchical.Unpositioned(MarkdownNodes(content))
    ensures Hierarchical.Contributing(MarkdownNodes(content)) == MarkdownNodes(content)
  {
    var lines := Lines(content);
    var ns, ts := NodesOf(lines), TrimmedLines(lines);
    NodesOfCharacterized(lines);
    TrimmedLinesUnpadded(lines);
    forall i | 0 <= i < |ns|
      ensures Hierarchical.Contributes(ns[i])
    {
      assert !IsWhitespace(ts[i][0]);
    }
    Hierarchical.AllContributing(ns);
  }

  /**
   * Converting a Markdown text and chunking it hierarchically gives one chunk per line that
   * is not blank, holding the trimmed line, indexed 0, 1, 2, ..., with offsets synthesized
   * from 0: each chunk spans its text's bytes, the next starts one byte after, so the chunks
   * are well formed and strictly ordered.
   */
  lemma MarkdownChunks(name: string, content: string)
    ensures var cs, ts := Hierarchical.ChunkNodes(name, MarkdownNodes(content)), TrimmedLines(Lines(content));
      && |cs| == |ts|
      && (forall i | 0 <= i < |cs| :: cs[i].text == ts[i] && cs[i].meta.index == i)
      && (cs != [] ==> cs[0].meta.startOffset == 0)
      && (forall i | 0 <= i < |cs| :: cs[i].meta.endOffset == cs[i].meta.startOffset + ByteLen(ts[i]))
      && (forall i | 0 < i < |cs| :: cs[i].meta.startOffset == cs[i - 1].meta.endOffset + 1)
      && (forall i, j | 0 <= i < j < |cs| :: cs[i].meta.endOffset < cs[j].meta.startOffset)
  {
    var ns := MarkdownNodes(content);
    var cs := Hierarchical.ChunkNodes(name, ns);
    MarkdownNodesChunkable(content);
    NodesOfCharacterized(Lines(content));
    Hierarchical.ChunkPerContributingNode(name, ns);
    Hierarchical.ChunkIndicesSequential(name, ns);
    Hierarchical.SynthesizedOffsets(name, ns);
    Hierarchical.SynthesizedOffsetsOrdered(name, ns);
  }

  /** `supports_format`. */
  predicate SupportsFormat(f: Format.InputFormat)
  {
    f == Format.Markdown
  }

  /** The backend accepts exactly the format that owns the ".md" extension. */
  lemma SupportsOnlyMarkdown(f: Format.InputFormat)
    ensures SupportsFormat(f) <==> "md" in Format.Spellings(f)
  {
  }
}
