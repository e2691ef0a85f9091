/** The document tree's building blocks: typed nodes with optional text and source position. */
module Node {
  import opened Wrappers

  /** The eight kinds of document node. */
  datatype NodeType = Text | Heading | Paragraph | List | ListItem | Table | TableRow | TableCell

  /** The node types, once each. */
  function AllNodeTypes(): (ts: seq<NodeType>)
    ensures |ts| == 8
    ensures forall i, j | 0 <= i < j < |ts| :: ts[i] != ts[j]
  {
    [Text, Heading, Paragraph, List, ListItem, Table, TableRow, TableCell]
  }

  /** `AllNodeTypes` lists every node type, so there are exactly eight. */
  lemma AllNodeTypesComplete(t: NodeType)
    ensures t in AllNodeTypes()
  {
    var ts := AllNodeTypes();
    match t
    case Text => assert ts[0] == t;
    case Heading => assert ts[1] == t;
    case Paragraph => assert ts[2] == t;
    case List => assert ts[3] == t;
    case ListItem => assert ts[4] == t;
    case Table => assert ts[5] == t;
    case TableRow => assert ts[6] == t;
    case TableCell => assert ts[7] == t;
  }

  /** Where a node came from in its source file: byte offsets and line numbers. */
  datatype SourcePosition = SourcePosition(startOffset: nat, endOffset: nat, startLine: nat, endLine: nat)

  /** `SourcePosition::new`: the four accessors give back the four arguments. */
  function NewSourcePosition(startOffset: nat, endOffset: nat, startLine: nat, endLine: nat): (p: SourcePosition)
    ensures p.startOffset == startOffset && p.endOffset == endOffset
    ensures p.startLine == startLine && p.endLine == endLine
  {
    SourcePosition(startOffset, endOffset, startLine, endLine)
  }

  datatype NodeItem = NodeItem(nodeType: NodeType, textContent: Option<string>, position: Option<SourcePosition>)
  {
    /** `NodeItem::with_position`: sets the position; type and text stay. */
    function WithPosition(p: SourcePosition): (n: NodeItem)
      ensures n.position == Some(p)
      ensures n.nodeType == nodeType && n.textContent == textContent
    {
      this.(position := Some(p))
    }
  }

  /** `NodeItem::new`: a node of the given type whose text is present and whose position is not. */
  function NewNodeItem(nodeType: NodeType, text: string): (n: NodeItem)
    ensures n.nodeType == nodeType && n.textContent == Some(text) && n.position == None
  {
    NodeItem(nodeType, Some(text), None)
  }

  datatype DocumentNode = DocumentNode(item: NodeItem)
  {
    function TextContent(): Option<string> { item.textContent }

    function Type(): NodeType { item.nodeType }

    function Position(): Option<SourcePosition> { item.position }

    /** `DocumentNode::with_position`: sets the position; type and text stay. */
    function WithPosition(p: SourcePosition): (n: DocumentNode)
      ensures n.Position() == Some(p)
      ensures n.Type() == Type() && n.TextContent() == TextContent()
    {
      DocumentNode(item.WithPosition(p))
    }
  }

  /** `DocumentNode::new`. */
  function NewDocumentNode(nodeType: NodeType, text: string): (n: DocumentNode)
    ensures n.Type() == nodeType && n.TextContent() == Some(text) && n.Position() == None
  {
    DocumentNode(NewNodeItem(nodeType, text))
  }
}
