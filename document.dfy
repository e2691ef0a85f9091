/** The converted document: a name, its nodes in order and a string-keyed metadata map. */
module Document {
  import opened Node

  /** A JSON value, the type of a metadata entry. Numbers are kept as reals. */
  datatype JsonValue =
    | Null
    | Bool(b: bool)
    | Number(r: real)
    | Str(s: string)
    | Array(items: seq<JsonValue>)
    | Object(fields: map<string, JsonValue>)

  class DoclingDocument {
    var name: string
    var nodes: seq<DocumentNode>
    var metadata: map<string, JsonValue>

    /** `DoclingDocument::new`: the given name, no nodes and no metadata. */
    constructor (name: string)
      ensures this.name == name && nodes == [] && metadata == map[]
    {
      this.name := name;
      nodes := [];
      metadata := map[];
    }

    /** `with_metadata`: inserts or overwrites one key, nothing else changes, and the document is handed back. */
    method WithMetadata(key: string, value: JsonValue) returns (d: DoclingDocument)
      modifies this
      ensures d == this && metadata == old(metadata)[key := value]
      ensures name == old(name) && nodes == old(nodes)
    {
      metadata := metadata[key := value];
      d := this;
    }

    /** `add_node`: appends one node at the end; nothing else changes. */
    method AddNode(node: DocumentNode)
      modifies this
      ensures nodes == old(nodes) + [node]
      ensures name == old(name) && metadata == old(metadata)
    {
      nodes := nodes + [node];
    }

    /** `with_nodes`: replaces the whole node list, nothing else changes, and the document is handed back. */
    method WithNodes(nodes: seq<DocumentNode>) returns (d: DoclingDocument)
      modifies this
      ensures d == this && this.nodes == nodes
      ensures name == old(name) && metadata == old(metadata)
    {
      this.nodes := nodes;
      d := this;
    }
  }
}
