/**
 The portable HNSW hierarchy snapshot (crates/context-index/src/hnsw_hierarchy.rs).

 Vector components are kept as the bits of a 32-bit float, which is what is persisted. Every
 rejection is the one error `InvalidSnapshot`; its reason text is not modelled. `usize` has 64 bits.
 */
module Snapshot {
  import opened Policy
  import opened Wrappers
  import opened LittleEndian
  import opened ListCodec

  const MAGIC: seq<byte> := [0x48, 0x53, 0x47, 0x31]
  const VERSION: nat := 1
  const MAX_GRAPH_LAYERS: nat := 64
  const MAX_GRAPH_NEIGHBORS_PER_LAYER: nat := 256
  const U64_MAX: nat := 0xffff_ffff_ffff_ffff
  const U32_MAX: nat := 0xffff_ffff
  const U16_MAX: nat := 0xffff

  datatype Node = Node(nodeId: nat, pointId: nat, vector: seq<nat>, layers: seq<seq<nat>>)

  datatype Graph = Graph(levelSeed: nat, entryPoint: Option<nat>, nodes: seq<Node>)

  /** The bits of a 32-bit float that is neither infinite nor a NaN. */
  predicate Finite(bits: nat) {
    (bits / 0x80_0000) % 0x100 != 0xff
  }

  /** Finite floats lie below the infinity of their sign. */
  lemma FiniteRanges(bits: nat)
    requires bits <= U32_MAX
    ensures Finite(bits) <==> bits < 0x7f80_0000 || 0x8000_0000 <= bits < 0xff80_0000
  {
  }

  // ---------- what the source's own types already guarantee ----------

  predicate IsId(x: nat) { x <= U64_MAX }

  predicate IsFloat(x: nat) { x <= U32_MAX }

  predicate TypedNode(n: Node) {
    && IsId(n.nodeId) && IsId(n.pointId)
    && 1 <= |n.vector| <= MAX_VECTOR_DIMENSIONS
    && (forall x :: x in n.vector ==> IsFloat(x) && Finite(x))
    && (forall layer :: layer in n.layers ==> forall x :: x in layer ==> IsId(x))
  }

  predicate Typed(g: Graph) {
    && IsId(g.levelSeed) && IsId(|g.nodes|)
    && (g.entryPoint.Some? ==> IsId(g.entryPoint.value))
    && (forall n :: n in g.nodes ==> TypedNode(n))
  }

  // ---------- the policy bounds ----------

  predicate LayerInPolicy(layer: seq<nat>) {
    |layer| <= MAX_GRAPH_NEIGHBORS_PER_LAYER && forall x :: x in layer ==> IsId(x)
  }

  predicate NodeInPolicy(n: Node) {
    && TypedNode(n)
    && 1 <= |n.layers| <= MAX_GRAPH_LAYERS
    && forall layer :: layer in n.layers ==> LayerInPolicy(layer)
  }

  predicate InPolicy(g: Graph) {
    && Typed(g)
    && g.entryPoint != Some(U64_MAX)
    && forall n :: n in g.nodes ==> NodeInPolicy(n)
  }

  // ---------- the format ----------

  function WriteId(x: nat): seq<byte> { Encode(x, 8) }

  function WriteFloat(x: nat): seq<byte> { Encode(x, 4) }

  function WriteLayer(layer: seq<nat>): seq<byte> {
    Encode(|layer|, 2) + WriteList(WriteId, layer)
  }

  function NodeHeader(n: Node): (r: seq<byte>)
    ensures |r| == 24
  {
    Encode(n.nodeId, 8) + Encode(n.pointId, 8) + Encode(|n.vector|, 4) + Encode(|n.layers|, 2) + Encode(0, 2)
  }

  function WriteNode(n: Node): seq<byte> {
    NodeHeader(n) + (WriteList(WriteFloat, n.vector) + WriteList(WriteLayer, n.layers))
  }

  function GraphHeader(g: Graph): (r: seq<byte>)
    ensures |r| == 32
  {
    MAGIC + Encode(VERSION, 2) + Encode(0, 2) + Encode(g.levelSeed, 8)
    + Encode(if g.entryPoint.Some? then g.entryPoint.value else U64_MAX, 8) + Encode(|g.nodes|, 8)
  }

  function WriteGraph(g: Graph): seq<byte> {
    GraphHeader(g) + WriteList(WriteNode, g.nodes)
  }

  function ReadField(w: nat, bs: seq<byte>): Option<Parsed<nat>> {
    if |bs| < w then None else Some(Parsed(Decode(bs[..w]), bs[w..]))
  }

  function ReadId(bs: seq<byte>): Option<Parsed<nat>> { ReadField(8, bs) }

  function ReadFloat(bs: seq<byte>): Option<Parsed<nat>> { ReadField(4, bs) }

  function ReadLayer(bs: seq<byte>): Option<Parsed<seq<nat>>> {
    match ReadField(2, bs)
    case None => None
    case Some(Parsed(n, rest)) =>
      if n > MAX_GRAPH_NEIGHBORS_PER_LAYER then None else ReadList(ReadId, n, rest)
  }

  /** The fixed fields of a node: ids, dimension, layer count and reserved bits. */
  datatype NodeFields = NodeFields(nodeId: nat, pointId: nat, dimensions: nat, layers: nat, reserved: nat)

  function ReadNodeFields(h: seq<byte>): NodeFields
    requires |h| == 24
  {
    NodeFields(Decode(h[..8]), Decode(h[8..16]), Decode(h[16..20]), Decode(h[20..22]), Decode(h[22..]))
  }

  predicate NodeFieldsInPolicy(f: NodeFields) {
    1 <= f.dimensions <= MAX_VECTOR_DIMENSIONS && 1 <= f.layers <= MAX_GRAPH_LAYERS && f.reserved == 0
  }

  function ReadNode(bs: seq<byte>): Option<Parsed<Node>> {
    if |bs| < 24 then
      None
    else
      var f := ReadNodeFields(bs[..24]);
      if !NodeFieldsInPolicy(f) then None else ReadNodeBody(f, bs[24..])
  }

  function ReadNodeBody(f: NodeFields, bs: seq<byte>): Option<Parsed<Node>> {
    match ReadList(ReadFloat, f.dimensions, bs)
    case None => None
    case Some(Parsed(vector, afterVector)) =>
      if exists x :: x in vector && !Finite(x) then
        None
      else
        match ReadList(ReadLayer, f.layers, afterVector)
        case None => None
        case Some(Parsed(layers, rest)) => Some(Parsed(Node(f.nodeId, f.pointId, vector, layers), rest))
  }

  datatype GraphFields = GraphFields(magic: seq<byte>, version: nat, reserved: nat, levelSeed: nat, entry: nat,
                                     nodes: nat)

  function ReadGraphFields(h: seq<byte>): GraphFields
    requires |h| == 32
  {
    GraphFields(h[..4], Decode(h[4..6]), Decode(h[6..8]), Decode(h[8..16]), Decode(h[16..24]), Decode(h[24..]))
  }

  predicate GraphFieldsSupported(f: GraphFields) {
    f.magic == MAGIC && f.version == VERSION && f.reserved == 0
  }

  function ReadGraph(bs: seq<byte>): Option<Graph> {
    if |bs| < 32 then
      None
    else
      var f := ReadGraphFields(bs[..32]);
      if !GraphFieldsSupported(f) then
        None
      else
        match ReadList(ReadNode, f.nodes, bs[32..])
        case None => None
        case Some(Parsed(nodes, rest)) => if rest == [] then Some(GraphOf(f, nodes)) else None
  }

  function GraphOf(f: GraphFields, nodes: seq<Node>): Graph {
    Graph(f.levelSeed, if f.entry == U64_MAX then None else Some(f.entry), nodes)
  }

  // ---------- one item at a time ----------

  lemma FieldReadsBack(x: nat, w: nat, rest: seq<byte>)
    requires x < Pow256(w)
    ensures ReadField(w, Encode(x, w) + rest) == Some(Parsed(x, rest))
  {
    DecodeEncode(x, w);
    assert (Encode(x, w) + rest)[..w] == Encode(x, w);
    assert (Encode(x, w) + rest)[w..] == rest;
  }

  lemma FieldWritesBack(w: nat, bs: seq<byte>)
    requires |bs| >= w
    ensures Decode(bs[..w]) < Pow256(w) && bs == Encode(Decode(bs[..w]), w) + bs[w..]
  {
    hide Encode, Decode, Pow256;
    EncodeDecode(bs[..w]);
    assert bs == bs[..w] + bs[w..];
  }

  lemma IdsAndFloats()
    ensures ReadsBack(ReadId, WriteId, IsId) && WritesBack(ReadId, WriteId, IsId)
    ensures ReadsBack(ReadFloat, WriteFloat, IsFloat) && WritesBack(ReadFloat, WriteFloat, IsFloat)
  {
    hide Encode, Decode, Pow256;
    Widths();
    forall x: nat, rest: seq<byte> | IsId(x) ensures ReadId(WriteId(x) + rest) == Some(Parsed(x, rest)) {
      FieldReadsBack(x, 8, rest);
    }
    forall x: nat, rest: seq<byte> | IsFloat(x) ensures ReadFloat(WriteFloat(x) + rest) == Some(Parsed(x, rest)) {
      FieldReadsBack(x, 4, rest);
    }
    forall bs: seq<byte> | ReadId(bs).Some?
      ensures IsId(ReadId(bs).value.value) && bs == WriteId(ReadId(bs).value.value) + ReadId(bs).value.rest
    {
      FieldWritesBack(8, bs);
    }
    forall bs: seq<byte> | ReadFloat(bs).Some?
      ensures IsFloat(ReadFloat(bs).value.value)
              && bs == WriteFloat(ReadFloat(bs).value.value) + ReadFloat(bs).value.rest
    {
      FieldWritesBack(4, bs);
    }
  }

  lemma LayerReadsBack(layer: seq<nat>, rest: seq<byte>)
    requires LayerInPolicy(layer)
    ensures ReadLayer(WriteLayer(layer) + rest) == Some(Parsed(layer, rest))
  {
    hide Encode, Decode, ReadList, WriteList;
    Widths();
    IdsAndFloats();
    var body := WriteList(WriteId, layer) + rest;
    assert WriteLayer(layer) + rest == Encode(|layer|, 2) + body;
    FieldReadsBack(|layer|, 2, body);
    ListReadsBack(ReadId, WriteId, IsId, layer, rest);
  }

  lemma LayerWritesBack(bs: seq<byte>)
    requires ReadLayer(bs).Some?
    ensures var Parsed(layer, rest) := ReadLayer(bs).value;
            LayerInPolicy(layer) && bs == WriteLayer(layer) + rest
  {
    hide Encode, Decode, ReadList, WriteList;
    IdsAndFloats();
    FieldWritesBack(2, bs);
    var n := Decode(bs[..2]);
    ListWritesBack(ReadId, WriteId, IsId, n, bs[2..]);
    var Parsed(layer, rest) := ReadLayer(bs).value;
    assert Encode(n, 2) + (WriteList(WriteId, layer) + rest) == WriteLayer(layer) + rest;
  }

  lemma Layers()
    ensures ReadsBack(ReadLayer, WriteLayer, LayerInPolicy) && WritesBack(ReadLayer, WriteLayer, LayerInPolicy)
  {
    hide ReadLayer, WriteLayer, LayerInPolicy;
    forall layer: seq<nat>, rest: seq<byte> | LayerInPolicy(layer)
      ensures ReadLayer(WriteLayer(layer) + rest) == Some(Parsed(layer, rest))
    {
      LayerReadsBack(layer, rest);
    }
    forall bs: seq<byte> | ReadLayer(bs).Some?
      ensures LayerInPolicy(ReadLayer(bs).value.value)
              && bs == WriteLayer(ReadLayer(bs).value.value) + ReadLayer(bs).value.rest
    {
      LayerWritesBack(bs);
    }
  }

  // ---------- fixed headers ----------

  lemma NodeHeaderReadsBack(n: Node)
    requires NodeInPolicy(n)
    ensures ReadNodeFields(NodeHeader(n)) == NodeFields(n.nodeId, n.pointId, |n.vector|, |n.layers|, 0)
  {
    hide Encode, Decode, Pow256;
    Widths();
    DecodeEncode(n.nodeId, 8);
    DecodeEncode(n.pointId, 8);
    DecodeEncode(|n.vector|, 4);
    DecodeEncode(|n.layers|, 2);
    DecodeEncode(0, 2);
    var h := NodeHeader(n);
    assert h[..8] == Encode(n.nodeId, 8) && h[8..16] == Encode(n.pointId, 8);
    assert h[16..20] == Encode(|n.vector|, 4) && h[20..22] == Encode(|n.layers|, 2) && h[22..] == Encode(0, 2);
  }

  lemma NodeHeaderWritesBack(h: seq<byte>, n: Node)
    requires |h| == 24
    requires ReadNodeFields(h) == NodeFields(n.nodeId, n.pointId, |n.vector|, |n.layers|, 0)
    ensures NodeHeader(n) == h && IsId(n.nodeId) && IsId(n.pointId)
  {
    hide Encode, Decode, Pow256;
    Widths();
    EncodeDecode(h[..8]);
    EncodeDecode(h[8..16]);
    EncodeDecode(h[16..20]);
    EncodeDecode(h[20..22]);
    EncodeDecode(h[22..]);
    assert h == h[..8] + h[8..16] + h[16..20] + h[20..22] + h[22..];
  }

  lemma GraphHeaderReadsBack(g: Graph)
    requires Typed(g)
    ensures ReadGraphFields(GraphHeader(g)) ==
            GraphFields(MAGIC, VERSION, 0, g.levelSeed,
                        if g.entryPoint.Some? then g.entryPoint.value else U64_MAX, |g.nodes|)
  {
    hide Encode, Decode, Pow256;
    Widths();
    var entry := if g.entryPoint.Some? then g.entryPoint.value else U64_MAX;
    DecodeEncode(VERSION, 2);
    DecodeEncode(0, 2);
    DecodeEncode(g.levelSeed, 8);
    DecodeEncode(entry, 8);
    DecodeEncode(|g.nodes|, 8);
    var h := GraphHeader(g);
    assert h[..4] == MAGIC && h[4..6] == Encode(VERSION, 2) && h[6..8] == Encode(0, 2);
    assert h[8..16] == Encode(g.levelSeed, 8) && h[16..24] == Encode(entry, 8) && h[24..] == Encode(|g.nodes|, 8);
  }

  lemma GraphHeaderWritesBack(h: seq<byte>, g: Graph)
    requires |h| == 32 && GraphFieldsSupported(ReadGraphFields(h))
    requires var f := ReadGraphFields(h);
             && g.levelSeed == f.levelSeed && |g.nodes| == f.nodes
             && g.entryPoint == if f.entry == U64_MAX then None else Some(f.entry)
    ensures GraphHeader(g) == h && IsId(g.levelSeed) && IsId(|g.nodes|)
            && (g.entryPoint.Some? ==> IsId(g.entryPoint.value))
  {
    hide Encode, Decode, Pow256;
    Widths();
    EncodeDecode(h[4..6]);
    EncodeDecode(h[6..8]);
    EncodeDecode(h[8..16]);
    EncodeDecode(h[16..24]);
    EncodeDecode(h[24..]);
    assert h == h[..4] + h[4..6] + h[6..8] + h[8..16] + h[16..24] + h[24..];
  }

  // ---------- nodes ----------

  lemma NodeReadsBack(n: Node, rest: seq<byte>)
    requires NodeInPolicy(n)
    ensures ReadNode(WriteNode(n) + rest) == Some(Parsed(n, rest))
  {
    hide Encode, Decode, ReadList, WriteList, NodeHeader, ReadNodeFields, ReadLayer, WriteLayer;
    var layers := WriteList(WriteLayer, n.layers) + rest;
    var body := WriteList(WriteFloat, n.vector) + layers;
    var whole := WriteNode(n) + rest;
    assert whole == NodeHeader(n) + body;
    assert whole[..24] == NodeHeader(n) && whole[24..] == body;
    NodeHeaderReadsBack(n);
    IdsAndFloats();
    Layers();
    ListReadsBack(ReadFloat, WriteFloat, IsFloat, n.vector, layers);
    ListReadsBack(ReadLayer, WriteLayer, LayerInPolicy, n.layers, rest);
  }

  lemma NodeWritesBack(bs: seq<byte>)
    requires ReadNode(bs).Some?
    ensures var Parsed(n, rest) := ReadNode(bs).value;
            NodeInPolicy(n) && bs == WriteNode(n) + rest
  {
    hide Encode, Decode, ReadList, WriteList, NodeHeader, ReadNodeFields, ReadLayer, WriteLayer;
    var f := ReadNodeFields(bs[..24]);
    var Parsed(n, rest) := ReadNode(bs).value;
    var afterVector := ReadList(ReadFloat, f.dimensions, bs[24..]).value.rest;
    IdsAndFloats();
    Layers();
    ListWritesBack(ReadFloat, WriteFloat, IsFloat, f.dimensions, bs[24..]);
    ListWritesBack(ReadLayer, WriteLayer, LayerInPolicy, f.layers, afterVector);
    NodeHeaderWritesBack(bs[..24], n);
    Rejoin(bs, NodeHeader(n), WriteList(WriteFloat, n.vector), WriteList(WriteLayer, n.layers), rest);
  }

  lemma Rejoin(bs: seq<byte>, a: seq<byte>, b: seq<byte>, c: seq<byte>, rest: seq<byte>)
    requires |bs| >= 24 && bs[..24] == a && bs[24..] == b + (c + rest)
    ensures bs == (a + (b + c)) + rest
  {
    assert bs == bs[..24] + bs[24..];
  }

  lemma Nodes()
    ensures ReadsBack(ReadNode, WriteNode, NodeInPolicy) && WritesBack(ReadNode, WriteNode, NodeInPolicy)
  {
    hide ReadNode, WriteNode, NodeInPolicy;
    forall n: Node, rest: seq<byte> | NodeInPolicy(n) ensures ReadNode(WriteNode(n) + rest) == Some(Parsed(n, rest)) {
      NodeReadsBack(n, rest);
    }
    forall bs: seq<byte> | ReadNode(bs).Some?
      ensures NodeInPolicy(ReadNode(bs).value.value)
              && bs == WriteNode(ReadNode(bs).value.value) + ReadNode(bs).value.rest
    {
      NodeWritesBack(bs);
    }
  }

  // ---------- whole snapshots ----------

  /** Every byte string the decoder accepts re-encodes to itself, and what it decodes to is within policy. */
  lemma AcceptedBytesReencode(bs: seq<byte>)
    requires ReadGraph(bs).Some?
    ensures InPolicy(ReadGraph(bs).value)
    ensures WriteGraph(ReadGraph(bs).value) == bs
  {
    hide Encode, Decode, ReadList, WriteList, GraphHeader, ReadGraphFields, ReadNode, WriteNode;
    var g := ReadGraph(bs).value;
    var f := ReadGraphFields(bs[..32]);
    Nodes();
    ListWritesBack(ReadNode, WriteNode, NodeInPolicy, f.nodes, bs[32..]);
    GraphHeaderWritesBack(bs[..32], g);
    assert WriteList(WriteNode, g.nodes) + [] == WriteList(WriteNode, g.nodes);
    assert bs == bs[..32] + bs[32..];
  }

  /** Exactly the snapshots within policy survive a round trip. */
  lemma DecodesToItselfIffInPolicy(g: Graph)
    requires Typed(g)
    ensures ReadGraph(WriteGraph(g)) == Some(g) <==> InPolicy(g)
  {
    hide Encode, Decode, ReadList, WriteList, GraphHeader, ReadGraphFields, ReadNode, WriteNode;
    var bs := WriteGraph(g);
    if ReadGraph(bs) == Some(g) {
      AcceptedBytesReencode(bs);
    }
    if InPolicy(g) {
      var nodes := WriteList(WriteNode, g.nodes);
      assert bs[..32] == GraphHeader(g) && bs[32..] == nodes && nodes + [] == nodes;
      GraphHeaderReadsBack(g);
      Nodes();
      ListReadsBack(ReadNode, WriteNode, NodeInPolicy, g.nodes, []);
    }
  }

  /** Encoding is injective on snapshots within policy. */
  lemma EncodingIsInjective(g: Graph, h: Graph)
    requires InPolicy(g) && InPolicy(h) && WriteGraph(g) == WriteGraph(h)
    ensures g == h
  {
    hide ReadGraph, WriteGraph;
    DecodesToItselfIffInPolicy(g);
    DecodesToItselfIffInPolicy(h);
  }
}
