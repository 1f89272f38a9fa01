/** What compressing and decompressing a trace does. JSON, zstd, the hash and the sort are parameters. */
module CompressionModel {
  import opened Options
  import opened Bytes
  import opened SpanTree
  import opened SubtreeStructure
  import opened SubtreeMeasures

  datatype Codec = Codec(
    marshal: Span -> Option<Bytes>, unmarshal: Bytes -> Option<Span>,
    encode: Bytes -> Bytes, decode: Bytes -> Option<Bytes>,
    hash: string -> string, order: Order, ratioText: real -> string)

  /** Decoding undoes encoding, and what JSON keeps of a tree is all but, perhaps, the tags. */
  ghost predicate Faithful(codec: Codec) {
    && (forall d: Bytes :: codec.decode(codec.encode(d)) == Some(d))
    && forall t: Span :: codec.marshal(t).Some? ==>
         codec.unmarshal(codec.marshal(t).value).Some? && EqualButTags(t, codec.unmarshal(codec.marshal(t).value).value)
  }

  datatype Packed = Packed(data: Bytes, originalSize: nat, ratio: Option<real>)

  /** Whether a span is stored compressed: its JSON has at least 256 bytes and shrinks by a factor of 1.2 at
      least. The ratio to no bytes at all is infinite. */
  function Pack(codec: Codec, t: Span): Option<Packed> {
    match codec.marshal(t)
    case None => None
    case Some(data) =>
      if |data| < 256 then None
      else
        var packed := codec.encode(data);
        if |packed| == 0 then Some(Packed(packed, |data|, None))
        else
          var ratio := |data| as real / |packed| as real;
          if ratio < 1.2 then None else Some(Packed(packed, |data|, Some(ratio)))
  }

  /** The program panics when it writes to tags that are nil. */
  datatype Outcome<+T> = Done(value: T) | Panic

  function RatioText(codec: Codec, ratio: Option<real>): string {
    if ratio.Some? then codec.ratioText(ratio.value) else "+Inf"
  }

  function PackedTags(codec: Codec, tags: map<string, TagValue>, packed: Packed): map<string, TagValue> {
    tags["compressed" := BoolTag(true)]
        ["compression_ratio" := TextTag(RatioText(codec, packed.ratio))]
        ["original_size" := IntTag(packed.originalSize)]
        ["compressed_size" := IntTag(|packed.data|)]
  }

  /** The span afterwards, and its compressed form if it is stored so. */
  function CompressSpan(codec: Codec, t: Span): Outcome<(Span, Option<Packed>)> {
    match Pack(codec, t)
    case None => Done((t, None))
    case Some(packed) =>
      match t.tags
      case None => Panic
      case Some(tags) => Done((t.(tags := Some(PackedTags(codec, tags, packed))), Some(packed)))
  }

  lemma CompressSpanKeeps(codec: Codec, t: Span)
    requires CompressSpan(codec, t).Done?
    ensures var s := CompressSpan(codec, t).value.0; s == t.(tags := s.tags)
  {
    hide Pack;
  }

  /** The children are lower than the tree, sorted or not. */
  lemma SortedLower(order: Order, t: Span, s: Span)
    requires Sorts(order) && s == t.(tags := s.tags)
    ensures HeightAll(SortTree(order, s).children) < Height(t)
  {
    SortTreeHeight(order, s);
  }

  datatype Signature = Signature(hash: string, structure: string, operations: seq<string>, depth: nat, count: nat)

  /** The signature of a tree that is sorted already. */
  function SignatureOf(codec: Codec, t: Span): Signature {
    var structure := Print(t, "");
    Signature(codec.hash(structure), structure, Operations(t), Height(t), 1)
  }

  function SetTag(tags: Tags, key: string, value: TagValue): Tags {
    match tags
    case None => Some(map[key := value])
    case Some(m) => Some(m[key := value])
  }

  function SignatureTags(tags: Tags, sig: Signature): Tags {
    var tags1 := SetTag(tags, "subtree_hash", TextTag(sig.hash));
    var tags2 := SetTag(tags1, "subtree_depth", IntTag(sig.depth));
    var tags3 := SetTag(tags2, "subtree_operations", IntTag(|sig.operations|));
    if sig.count > 1 then SetTag(tags3, "subtree_duplicate_count", IntTag(sig.count)) else tags3
  }

  /** A compressed span; it shares its span with the trace, whose tags and order of children it shows. */
  datatype Node = Node(span: Span, children: seq<Node>, packed: Option<Packed>, signatureHash: string)

  function SpansOf(nodes: seq<Node>): seq<Span> {
    seq(|nodes|, i requires 0 <= i < |nodes| => nodes[i].span)
  }

  /** The node for a sorted span, when its children have been compressed. */
  function Assemble(codec: Codec, sorted: Span, packed: Option<Packed>, nodes: seq<Node>): Node {
    var sig := SignatureOf(codec, sorted);
    Node(Span(sorted.info, SignatureTags(sorted.tags, sig), SpansOf(nodes)), nodes, packed, sig.hash)
  }

  function CompressTrace(codec: Codec, t: Span): Outcome<Node>
    requires Sorts(codec.order)
    decreases Height(t), 0
  {
    var r := CompressSpan(codec, t);
    if r.Panic? then Panic
    else
      var (s, packed) := r.value;
      CompressSpanKeeps(codec, t);
      SortedLower(codec.order, t, s);
      var sorted := SortTree(codec.order, s);
      var kids := CompressAll(codec, sorted.children);
      if kids.Panic? then Panic else Done(Assemble(codec, sorted, packed, kids.value))
  }

  function CompressAll(codec: Codec, ts: seq<Span>): Outcome<seq<Node>>
    requires Sorts(codec.order)
    decreases HeightAll(ts), |ts| + 1
  {
    if ts == [] then Done([])
    else
      var n := |ts| - 1;
      var front, last := CompressAll(codec, ts[..n]), CompressTrace(codec, ts[n]);
      if front.Panic? || last.Panic? then Panic else Done(front.value + [last.value])
  }

  function DecompressSpan(codec: Codec, node: Node): Option<Span> {
    if node.packed.None? || |node.packed.value.data| == 0 then Some(node.span)
    else
      var data := codec.decode(node.packed.value.data);
      if data.None? then None else codec.unmarshal(data.value)
  }

  /** None stands for an error. */
  function DecompressTrace(codec: Codec, node: Node): Option<Span>
    decreases node
  {
    var t := DecompressSpan(codec, node);
    if t.None? then None
    else if node.children == [] then t
    else
      var kids := DecompressAll(codec, node.children);
      if kids.None? then None else Some(t.value.(children := kids.value))
  }

  function DecompressAll(codec: Codec, nodes: seq<Node>): Option<seq<Span>>
    decreases nodes
  {
    if nodes == [] then Some([])
    else
      var n := |nodes| - 1;
      var front := DecompressAll(codec, nodes[..n]);
      var last := DecompressTrace(codec, nodes[n]);
      if front.None? || last.None? then None else Some(front.value + [last.value])
  }
}
