/** The snapshot encoder and decoder as the source runs them: a growing buffer and a moving cursor. */
module SnapshotCodec {
  import opened Wrappers
  import opened LittleEndian
  import opened ListCodec
  import opened Policy
  import opened Snapshot

  // ---------- encoding ----------

  /** Every length fits the field it is written to. */
  predicate LengthsFit(g: Graph) {
    forall n :: n in g.nodes ==> NodeLengthsFit(n)
  }

  predicate NodeLengthsFit(n: Node) {
    |n.layers| <= U16_MAX && forall layer :: layer in n.layers ==> |layer| <= U16_MAX
  }

  method ToBytes(g: Graph) returns (r: Option<seq<byte>>)
    requires Typed(g)
    ensures r.Some? <==> LengthsFit(g)
    ensures r.Some? ==> r.value == WriteGraph(g)
  {
    hide Encode, WriteNode, NodeLengthsFit;
    var output := MAGIC + Encode(VERSION, 2) + Encode(0, 2) + Encode(g.levelSeed, 8);
    var entry := if g.entryPoint.Some? then g.entryPoint.value else U64_MAX;
    output := output + Encode(entry, 8) + Encode(|g.nodes|, 8);
    assert output == GraphHeader(g);
    for i := 0 to |g.nodes|
      invariant output == GraphHeader(g) + WriteList(WriteNode, g.nodes[..i])
      invariant forall n :: n in g.nodes[..i] ==> NodeLengthsFit(n)
    {
      assert g.nodes[..i + 1][..i] == g.nodes[..i];
      var node := NodeToBytes(g.nodes[i]);
      if node.None? {
        return None;
      }
      output := output + node.value;
    }
    assert g.nodes[..|g.nodes|] == g.nodes;
    return Some(output);
  }

  method NodeToBytes(n: Node) returns (r: Option<seq<byte>>)
    requires TypedNode(n)
    ensures r.Some? <==> NodeLengthsFit(n)
    ensures r.Some? ==> r.value == WriteNode(n)
  {
    hide Encode, WriteFloat, WriteLayer;
    if |n.layers| > U16_MAX {
      return None;
    }
    var header := Encode(n.nodeId, 8) + Encode(n.pointId, 8) + Encode(|n.vector|, 4) + Encode(|n.layers|, 2)
      + Encode(0, 2);
    var vector := [];
    for i := 0 to |n.vector|
      invariant vector == WriteList(WriteFloat, n.vector[..i])
    {
      assert n.vector[..i + 1][..i] == n.vector[..i];
      vector := vector + WriteFloat(n.vector[i]);
    }
    assert n.vector[..|n.vector|] == n.vector;
    var layers := [];
    for i := 0 to |n.layers|
      invariant layers == WriteList(WriteLayer, n.layers[..i])
      invariant forall layer :: layer in n.layers[..i] ==> |layer| <= U16_MAX
    {
      assert n.layers[..i + 1][..i] == n.layers[..i];
      if |n.layers[i]| > U16_MAX {
        return None;
      }
      var layer := LayerToBytes(n.layers[i]);
      layers := layers + layer;
    }
    assert n.layers[..|n.layers|] == n.layers;
    return Some(header + (vector + layers));
  }

  method LayerToBytes(layer: seq<nat>) returns (r: seq<byte>)
    ensures r == WriteLayer(layer)
  {
    hide Encode, WriteId;
    var ids := [];
    for i := 0 to |layer|
      invariant ids == WriteList(WriteId, layer[..i])
    {
      assert layer[..i + 1][..i] == layer[..i];
      ids := ids + WriteId(layer[i]);
    }
    assert layer[..|layer|] == layer;
    r := Encode(|layer|, 2) + ids;
  }

  // ---------- decoding ----------

  /** A position in an encoded snapshot. */
  class SnapshotCursor {
    const bytes: seq<byte>
    var offset: nat

    ghost predicate Valid()
      reads this
    {
      offset <= |bytes|
    }

    ghost function Rest(): seq<byte>
      requires Valid()
      reads this
    {
      bytes[offset..]
    }

    constructor (bytes: seq<byte>)
      ensures Valid() && this.bytes == bytes && Rest() == bytes
    {
      this.bytes := bytes;
      this.offset := 0;
    }

    method Remaining() returns (n: nat)
      requires Valid()
      ensures n == |Rest()|
    {
      n := |bytes| - offset;
    }

    method ReadArray(size: nat) returns (r: Option<seq<byte>>)
      requires Valid()
      modifies this`offset
      ensures Valid()
      ensures r.Some? <==> size <= |old(Rest())|
      ensures r.Some? ==> r.value == old(Rest())[..size] && Rest() == old(Rest())[size..]
      ensures r.None? ==> offset == old(offset)
    {
      var end := offset + size;
      if end > |bytes| {
        return None;
      }
      r := Some(bytes[offset..end]);
      offset := end;
    }

    method ReadUint(size: nat) returns (r: Option<nat>)
      requires Valid()
      modifies this`offset
      ensures Valid()
      ensures r.Some? <==> ReadField(size, old(Rest())).Some?
      ensures r.Some? ==> ReadField(size, old(Rest())) == Some(Parsed(r.value, Rest()))
    {
      var a := ReadArray(size);
      if a.None? {
        return None;
      }
      r := Some(Decode(a.value));
    }

    method ReadIds(count: nat) returns (r: Option<seq<nat>>)
      requires Valid()
      modifies this`offset
      ensures Valid()
      ensures r.Some? <==> ReadList(ReadId, count, old(Rest())).Some?
      ensures r.Some? ==> ReadList(ReadId, count, old(Rest())) == Some(Parsed(r.value, Rest()))
    {
      var ids: seq<nat> := [];
      for i := 0 to count
        invariant Valid()
        invariant ReadList(ReadId, i, old(Rest())) == Some(Parsed(ids, Rest()))
      {
        var id := ReadUint(8);
        if id.None? {
          ListFails(ReadId, i + 1, count, old(Rest()));
          return None;
        }
        ids := ids + [id.value];
      }
      return Some(ids);
    }

    method ReadFloats(count: nat) returns (r: Option<seq<nat>>)
      requires Valid()
      modifies this`offset
      ensures Valid()
      ensures r.Some? <==> ReadList(ReadFloat, count, old(Rest())).Some?
      ensures r.Some? ==> ReadList(ReadFloat, count, old(Rest())) == Some(Parsed(r.value, Rest()))
    {
      var values: seq<nat> := [];
      for i := 0 to count
        invariant Valid()
        invariant ReadList(ReadFloat, i, old(Rest())) == Some(Parsed(values, Rest()))
      {
        var value := ReadUint(4);
        if value.None? {
          ListFails(ReadFloat, i + 1, count, old(Rest()));
          return None;
        }
        values := values + [value.value];
      }
      return Some(values);
    }

    method ReadNeighbors() returns (r: Option<seq<nat>>)
      requires Valid()
      modifies this`offset
      ensures Valid()
      ensures r.Some? <==> ReadLayer(old(Rest())).Some?
      ensures r.Some? ==> ReadLayer(old(Rest())) == Some(Parsed(r.value, Rest()))
    {
      hide ReadList;
      var count := ReadUint(2);
      if count.None? {
        return None;
      }
      var remaining := Remaining();
      if count.value > MAX_GRAPH_NEIGHBORS_PER_LAYER {
        return None;
      }
      IdListNeeds(count.value, Rest());
      if count.value > remaining / 8 {
        return None;
      }
      r := ReadIds(count.value);
    }

    method ReadLayers(count: nat) returns (r: Option<seq<seq<nat>>>)
      requires Valid()
      modifies this`offset
      ensures Valid()
      ensures r.Some? <==> ReadList(ReadLayer, count, old(Rest())).Some?
      ensures r.Some? ==> ReadList(ReadLayer, count, old(Rest())) == Some(Parsed(r.value, Rest()))
    {
      hide ReadLayer;
      var layers: seq<seq<nat>> := [];
      for i := 0 to count
        invariant Valid()
        invariant ReadList(ReadLayer, i, old(Rest())) == Some(Parsed(layers, Rest()))
      {
        var layer := ReadNeighbors();
        if layer.None? {
          ListFails(ReadLayer, i + 1, count, old(Rest()));
          return None;
        }
        layers := layers + [layer.value];
      }
      return Some(layers);
    }

    method ReadNodeHeader() returns (r: Option<NodeFields>)
      requires Valid()
      modifies this`offset
      ensures Valid()
      ensures r.Some? <==> |old(Rest())| >= 24 && NodeFieldsInPolicy(ReadNodeFields(old(Rest())[..24]))
      ensures r.Some? ==> r.value == ReadNodeFields(old(Rest())[..24]) && Rest() == old(Rest())[24..]
    {
      hide Decode;
      ghost var start := Rest();
      assert |start| >= 24 ==>
          && start[..24][..8] == start[..8] && start[..24][8..16] == start[8..][..8]
          && start[..24][16..20] == start[16..][..4]
          && start[..24][20..22] == start[20..][..2] && start[..24][22..] == start[22..][..2];
      var nodeId := ReadUint(8);
      if nodeId.None? { return None; }
      var pointId := ReadUint(8);
      if pointId.None? { return None; }
      assert Rest() == start[16..];
      var dimensions := ReadUint(4);
      if dimensions.None? || dimensions.value == 0 || dimensions.value > MAX_VECTOR_DIMENSIONS { return None; }
      assert Rest() == start[20..];
      var layers := ReadUint(2);
      if layers.None? { return None; }
      assert Rest() == start[22..];
      var reserved := ReadUint(2);
      if reserved.None? || reserved.value != 0 || layers.value == 0 || layers.value > MAX_GRAPH_LAYERS { return None; }
      return Some(NodeFields(nodeId.value, pointId.value, dimensions.value, layers.value, reserved.value));
    }

    method ReadOneNode() returns (r: Option<Node>)
      requires Valid()
      modifies this`offset
      ensures Valid()
      ensures r.Some? <==> ReadNode(old(Rest())).Some?
      ensures r.Some? ==> ReadNode(old(Rest())) == Some(Parsed(r.value, Rest()))
    {
      hide ReadList, ReadNodeFields, NodeFieldsInPolicy;
      var header := ReadNodeHeader();
      if header.None? {
        return None;
      }
      var f := header.value;
      FloatListNeeds(f.dimensions, Rest());
      var remaining := Remaining();
      if f.dimensions * 4 > remaining {
        return None;
      }
      var values := ReadFloats(f.dimensions);
      if values.None? {
        return None;
      }
      if exists x :: x in values.value && !Finite(x) {
        return None;
      }
      var layers := ReadLayers(f.layers);
      if layers.None? {
        return None;
      }
      return Some(Node(f.nodeId, f.pointId, values.value, layers.value));
    }

    method ReadNodes(count: nat) returns (r: Option<seq<Node>>)
      requires Valid()
      modifies this`offset
      ensures Valid()
      ensures r.Some? <==> ReadList(ReadNode, count, old(Rest())).Some?
      ensures r.Some? ==> ReadList(ReadNode, count, old(Rest())) == Some(Parsed(r.value, Rest()))
    {
      hide ReadNode;
      var nodes: seq<Node> := [];
      for i := 0 to count
        invariant Valid()
        invariant ReadList(ReadNode, i, old(Rest())) == Some(Parsed(nodes, Rest()))
      {
        var node := ReadOneNode();
        if node.None? {
          ListFails(ReadNode, i + 1, count, old(Rest()));
          return None;
        }
        nodes := nodes + [node.value];
      }
      return Some(nodes);
    }

    method ReadGraphHeader() returns (r: Option<GraphFields>)
      requires Valid()
      modifies this`offset
      ensures Valid()
      ensures r.Some? <==> |old(Rest())| >= 32 && GraphFieldsSupported(ReadGraphFields(old(Rest())[..32]))
      ensures r.Some? ==> r.value == ReadGraphFields(old(Rest())[..32]) && Rest() == old(Rest())[32..]
    {
      hide Decode;
      ghost var start := Rest();
      assert |start| >= 32 ==>
          && start[..32][..4] == start[..4] && start[..32][4..6] == start[4..][..2]
          && start[..32][6..8] == start[6..][..2]
          && start[..32][8..16] == start[8..][..8] && start[..32][16..24] == start[16..][..8]
          && start[..32][24..] == start[24..][..8];
      var magic := ReadArray(4);
      if magic.None? || magic.value != MAGIC { return None; }
      var version := ReadUint(2);
      if version.None? || version.value != VERSION { return None; }
      assert Rest() == start[6..];
      var reserved := ReadUint(2);
      if reserved.None? || reserved.value != 0 { return None; }
      assert Rest() == start[8..];
      var levelSeed := ReadUint(8);
      if levelSeed.None? { return None; }
      assert Rest() == start[16..];
      var entry := ReadUint(8);
      if entry.None? { return None; }
      assert Rest() == start[24..];
      var nodes := ReadUint(8);
      if nodes.None? { return None; }
      return Some(GraphFields(magic.value, version.value, reserved.value, levelSeed.value, entry.value, nodes.value));
    }
  }

  /** The early bounds on counts refuse nothing that would decode. */
  lemma IdListNeeds(n: nat, bs: seq<byte>)
    ensures ReadList(ReadId, n, bs).Some? ==> n * 8 <= |bs|
  {
    hide ReadList, WriteList, ReadField;
    if ReadList(ReadId, n, bs).Some? {
      IdsAndFloats();
      ListWritesBack(ReadId, WriteId, IsId, n, bs);
      ListSize(WriteId, ReadList(ReadId, n, bs).value.value, 8);
    }
  }

  lemma FloatListNeeds(n: nat, bs: seq<byte>)
    ensures ReadList(ReadFloat, n, bs).Some? ==> n * 4 <= |bs|
  {
    hide ReadList, WriteList, ReadField;
    if ReadList(ReadFloat, n, bs).Some? {
      IdsAndFloats();
      ListWritesBack(ReadFloat, WriteFloat, IsFloat, n, bs);
      ListSize(WriteFloat, ReadList(ReadFloat, n, bs).value.value, 4);
    }
  }

  lemma NodeListNeeds(n: nat, bs: seq<byte>)
    ensures ReadList(ReadNode, n, bs).Some? ==> n * 24 <= |bs|
  {
    hide ReadList, WriteList, ReadNode, NodeInPolicy;
    if ReadList(ReadNode, n, bs).Some? {
      Nodes();
      ListWritesBack(ReadNode, WriteNode, NodeInPolicy, n, bs);
      ListSize(WriteNode, ReadList(ReadNode, n, bs).value.value, 24);
    }
  }

  method FromBytes(bs: seq<byte>) returns (r: Option<Graph>)
    ensures r == ReadGraph(bs)
  {
    hide ReadList, ReadGraphFields, ReadNode, GraphFieldsSupported, Decode, GraphOf;
    var cursor := new SnapshotCursor(bs);
    var header := cursor.ReadGraphHeader();
    if header.None? {
      return None;
    }
    var f := header.value;
    var nodes := ReadAllNodes(cursor, f.nodes);
    if nodes.None? {
      return None;
    }
    return Some(GraphOf(f, nodes.value));
  }

  /** The nodes, which must use up the rest of the bytes. */
  method ReadAllNodes(cursor: SnapshotCursor, count: nat) returns (r: Option<seq<Node>>)
    requires cursor.Valid()
    modifies cursor`offset
    ensures cursor.Valid()
    ensures var read := ReadList(ReadNode, count, old(cursor.Rest()));
            r == if read.Some? && read.value.rest == [] then Some(read.value.value) else None
  {
    hide ReadList, ReadNode;
    NodeListNeeds(count, cursor.Rest());
    var remaining := cursor.Remaining();
    if count > remaining / 24 {
      return None;
    }
    r := cursor.ReadNodes(count);
    if r.Some? {
      remaining := cursor.Remaining();
      if remaining != 0 {
        return None;
      }
    }
  }
}
