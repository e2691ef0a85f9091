/**
 * The command line's document serializers: Markdown (a title, then one block per node) and
 * plain text (the name, then each present, non-empty node text), each block closed by a
 * blank line.
 */
module Output {
  import opened Wrappers
  import opened Text
  import opened Node
  import opened Document
  import MarkdownBackend

  /** A node's text, with absent text read as the empty string. */
  function TextOr(n: DocumentNode): string
  {
    if n.TextContent().Some? then n.TextContent().value else ""
  }

  /** The Markdown block `to_markdown` writes for one node. */
  function MarkdownBlock(n: DocumentNode): string
  {
    match n.Type()
    case Heading => "## " + TextOr(n) + "\n\n"
    case Table => "(Table content)\n\n"
    case _ => TextOr(n) + "\n\n"
  }

  /** The blocks of `nodes`, in order. */
  function MarkdownBlocks(nodes: seq<DocumentNode>): string
  {
    if nodes == [] then [] else MarkdownBlock(nodes[0]) + MarkdownBlocks(nodes[1..])
  }

  /** What `to_markdown` returns for a document named `name` with nodes `nodes`. */
  function MarkdownOf(name: string, nodes: seq<DocumentNode>): string
  {
    "# " + name + "\n\n" + MarkdownBlocks(nodes)
  }

  /** The block `to_text` writes for one node: its text when present and not empty. */
  function TextBlock(n: DocumentNode): string
  {
    if n.TextContent().Some? && n.TextContent().value != [] then n.TextContent().value + "\n\n" else []
  }

  function TextBlocks(nodes: seq<DocumentNode>): string
  {
    if nodes == [] then [] else TextBlock(nodes[0]) + TextBlocks(nodes[1..])
  }

  /** What `to_text` returns for a document named `name` with nodes `nodes`. */
  function TextOf(name: string, nodes: seq<DocumentNode>): string
  {
    name + "\n\n" + TextBlocks(nodes)
  }

  /** A serialization of a list of nodes is the serializations of its parts, one after the other. */
  lemma {:induction false} MarkdownBlocksConcat(a: seq<DocumentNode>, b: seq<DocumentNode>)
    ensures MarkdownBlocks(a + b) == MarkdownBlocks(a) + MarkdownBlocks(b)
  {
    if a == [] {
      assert a + b == b;
    } else {
      assert (a + b)[1..] == a[1..] + b;
      MarkdownBlocksConcat(a[1..], b);
      ConcatAssoc(MarkdownBlock(a[0]), MarkdownBlocks(a[1..]), MarkdownBlocks(b));
    }
  }

  lemma {:induction false} TextBlocksConcat(a: seq<DocumentNode>, b: seq<DocumentNode>)
    ensures TextBlocks(a + b) == TextBlocks(a) + TextBlocks(b)
  {
    if a == [] {
      assert a + b == b;
    } else {
      assert (a + b)[1..] == a[1..] + b;
      TextBlocksConcat(a[1..], b);
      ConcatAssoc(TextBlock(a[0]), TextBlocks(a[1..]), TextBlocks(b));
    }
  }

  lemma MarkdownBlocksSingle(n: DocumentNode)
    ensures MarkdownBlocks([n]) == MarkdownBlock(n)
  {
    assert [n][1..] == [];
  }

  lemma TextBlocksSingle(n: DocumentNode)
    ensures TextBlocks([n]) == TextBlock(n)
  {
    assert [n][1..] == [];
  }

  /** One more node adds its block at the end of the Markdown. */
  lemma MarkdownOfStep(name: string, nodes: seq<DocumentNode>, i: nat)
    requires i < |nodes|
    ensures MarkdownOf(name, nodes[..i + 1]) == MarkdownOf(name, nodes[..i]) + MarkdownBlock(nodes[i])
  {
    TakeOneMore(nodes, i);
    MarkdownBlocksConcat(nodes[..i], [nodes[i]]);
    MarkdownBlocksSingle(nodes[i]);
    ConcatAssoc("# " + name + "\n\n", MarkdownBlocks(nodes[..i]), MarkdownBlock(nodes[i]));
  }

  /** One more node adds its block at the end of the plain text. */
  lemma TextOfStep(name: string, nodes: seq<DocumentNode>, i: nat)
    requires i < |nodes|
    ensures TextOf(name, nodes[..i + 1]) == TextOf(name, nodes[..i]) + TextBlock(nodes[i])
  {
    TakeOneMore(nodes, i);
    TextBlocksConcat(nodes[..i], [nodes[i]]);
    TextBlocksSingle(nodes[i]);
    ConcatAssoc(name + "\n\n", TextBlocks(nodes[..i]), TextBlock(nodes[i]));
  }

  /** The body of `to_markdown`'s loop: the block written for one node, chosen by its type. */
  method NodeMarkdown(node: DocumentNode) returns (block: string)
    ensures block == MarkdownBlock(node)
  {
    var text := if node.TextContent().Some? then node.TextContent().value else "";
    match node.Type() {
      case Heading => block := "## " + text + "\n\n";
      case Paragraph => block := text + "\n\n";
      case Text => block := text + "\n\n";
      case Table => block := "(Table content)\n\n";
      case _ => block := text + "\n\n";
    }
  }

  /** `to_markdown`. */
  method ToMarkdown(doc: DoclingDocument) returns (output: string)
    ensures output == MarkdownOf(doc.name, doc.nodes)
  {
    output := "# " + doc.name + "\n\n";
    var nodes := doc.nodes;
    for i := 0 to |nodes|
      invariant output == MarkdownOf(doc.name, nodes[..i])
    {
      var block := NodeMarkdown(nodes[i]);
      output := output + block;
      MarkdownOfStep(doc.name, nodes, i);
    }
    assert nodes[..|nodes|] == nodes;
  }

  /** `to_text`. */
  method ToText(doc: DoclingDocument) returns (output: string)
    ensures output == TextOf(doc.name, doc.nodes)
  {
    output := doc.name + "\n\n";
    var nodes := doc.nodes;
    for i := 0 to |nodes|
      invariant output == TextOf(doc.name, nodes[..i])
    {
      var node := nodes[i];
      if node.TextContent().Some? {
        var text := node.TextContent().value;
        if text != [] {
          output := output + (text + "\n\n");
        }
      }
      TextOfStep(doc.name, nodes, i);
    }
    assert nodes[..|nodes|] == nodes;
  }

  /** Every block ends with a blank line, so the Markdown has at least two newlines per node. */
  lemma {:induction false} MarkdownBlocksLength(nodes: seq<DocumentNode>)
    ensures |MarkdownBlocks(nodes)| >= 2 * |nodes|
  {
    if nodes != [] {
      MarkdownBlocksLength(nodes[1..]);
    }
  }

  /** The Markdown title is the document's name as a level-one heading. */
  lemma MarkdownTitle(name: string, nodes: seq<DocumentNode>)
    ensures var t := "# " + name + "\n\n"; |t| <= |MarkdownOf(name, nodes)| && MarkdownOf(name, nodes)[..|t|] == t
  {
  }

  /** A table node's block does not depend on its text; an absent text reads as an empty one. */
  lemma MarkdownBlockText(n: DocumentNode, m: DocumentNode)
    ensures n.Type() == Table && m.Type() == Table ==> MarkdownBlock(n) == MarkdownBlock(m)
    ensures n.Type() == m.Type() && n.TextContent() == None && m.TextContent() == Some("")
            ==> MarkdownBlock(n) == MarkdownBlock(m)
  {
  }

  /**
   * The plain text keeps a blank but non-empty text and drops an absent or empty one: a node
   * whose text is " " contributes " " and a blank line.
   */
  lemma TextKeepsBlank(t: NodeType)
    ensures TextBlock(NewDocumentNode(t, " ")) == " \n\n"
    ensures TextBlock(NewDocumentNode(t, "")) == []
    ensures TextBlock(DocumentNode(NodeItem(t, None, None))) == []
  {
  }

  /** The blocks of a converted Markdown text: each trimmed line followed by a blank line. */
  function LinesText(ts: seq<string>): string
  {
    if ts == [] then [] else ts[0] + "\n\n" + LinesText(ts[1..])
  }

  /**
   * Converting a Markdown text and writing it out as plain text gives the name, then every
   * line that is not blank, trimmed, each followed by a blank line.
   */
  lemma {:induction false} TextOfConvertedLines(lines: seq<string>)
    ensures TextBlocks(MarkdownBackend.NodesOf(lines)) == LinesText(MarkdownBackend.TrimmedLines(lines))
  {
    if lines != [] {
      TextOfConvertedLines(lines[1..]);
      var t := Trim(lines[0]);
      var ns := MarkdownBackend.LineNodes(lines[0]);
      var rest := MarkdownBackend.NodesOf(lines[1..]);
      assert MarkdownBackend.NodesOf(lines) == ns + rest;
      TextBlocksConcat(ns, rest);
      if t != [] {
        TextBlocksSingle(ns[0]);
        assert MarkdownBackend.TrimmedLines(lines) == [t] + MarkdownBackend.TrimmedLines(lines[1..]);
        assert ([t] + MarkdownBackend.TrimmedLines(lines[1..]))[1..] == MarkdownBackend.TrimmedLines(lines[1..]);
        ConcatAssoc(t, "\n\n", LinesText(MarkdownBackend.TrimmedLines(lines[1..])));
      } else {
        assert TextBlocks(ns) == [];
        assert MarkdownBackend.TrimmedLines(lines) == MarkdownBackend.TrimmedLines(lines[1..]);
      }
    }
  }

  lemma ConvertedText(name: string, content: string)
    ensures TextOf(name, MarkdownBackend.MarkdownNodes(content))
         == name + "\n\n" + LinesText(MarkdownBackend.TrimmedLines(Lines(content)))
  {
    TextOfConvertedLines(Lines(content));
  }
}
