/** What is stored of each span of a trace: at every depth, whether it is compressed, and every tag. */
module StoredSpans {
  import opened Options
  import opened Bytes
  import opened Permutations
  import opened SpanTree
  import opened SubtreeStructure
  import opened SubtreeMeasures
  import opened CompressionModel
  import opened CompressionLaws

  function TagsOf(tags: Tags): map<string, TagValue> { if tags.Some? then tags.value else map[] }

  /** The tags that compression writes. */
  const PACKED_TAGS: set<string> := {"compressed", "compression_ratio", "original_size", "compressed_size"}
  const TREE_TAGS: set<string> := {"subtree_hash", "subtree_depth", "subtree_operations"}

  predicate Holds(tags: map<string, TagValue>, key: string, value: TagValue) { key in tags && tags[key] == value }

  /** How a ratio is written; a span that encodes to nothing has an infinite one. */
  function Ratio(codec: Codec, size: nat, packed: nat): string {
    if packed == 0 then "+Inf" else codec.ratioText(size as real / packed as real)
  }

  /** A span that is worth it is stored compressed, with its sizes in its tags. */
  predicate StoresData(codec: Codec, t: Span, node: Node) {
    if !WorthPacking(codec, t) then node.packed.None?
    else
      var data := codec.marshal(t).value; var packed := codec.encode(data); var tags := TagsOf(node.span.tags);
      && node.packed.Some? && node.packed.value.data == packed && node.packed.value.originalSize == |data|
      && Holds(tags, "compressed", BoolTag(true)) && Holds(tags, "compression_ratio", TextTag(Ratio(codec, |data|, |packed|)))
      && Holds(tags, "original_size", IntTag(|data|)) && Holds(tags, "compressed_size", IntTag(|packed|))
  }

  /** Every span is tagged with the hash, the height and the size of the tree under it. */
  predicate StoresTree(codec: Codec, t: Span, node: Node)
    requires Sorts(codec.order)
  {
    var hash, tags := codec.hash(Print(SortTree(codec.order, t), "")), TagsOf(node.span.tags);
    && node.span.info == t.info && node.signatureHash == hash && node.span.tags.Some?
    && Holds(tags, "subtree_hash", TextTag(hash)) && Holds(tags, "subtree_depth", IntTag(Height(t)))
    && Holds(tags, "subtree_operations", IntTag(Size(t)))
  }

  /** All other tags are left as they were. */
  ghost predicate KeepsTags(codec: Codec, t: Span, node: Node) {
    forall key :: key !in TREE_TAGS && (key !in PACKED_TAGS || !WorthPacking(codec, t)) ==>
      (key in TagsOf(node.span.tags) <==> key in TagsOf(t.tags)) &&
      (key in TagsOf(t.tags) ==> Holds(TagsOf(node.span.tags), key, TagsOf(t.tags)[key]))
  }

  /** The node was made from this tree: span by span, with the children sorted. */
  ghost predicate Stored(codec: Codec, t: Span, node: Node)
    requires Sorts(codec.order)
    decreases node
  {
    var sorted := SortTree(codec.order, t).children;
    && StoresData(codec, t, node) && StoresTree(codec, t, node) && KeepsTags(codec, t, node)
    && |node.children| == |sorted| && node.span.children == SpansOf(node.children)
    && forall i :: 0 <= i < |node.children| ==> Stored(codec, sorted[i], node.children[i])
  }

  // ---------- the tags of one span ----------

  lemma TagNames()
    ensures "compressed" != "compression_ratio" && "compressed" != "original_size" && "compressed" != "compressed_size"
    ensures "compression_ratio" != "original_size" && "compression_ratio" != "compressed_size"
    ensures "original_size" != "compressed_size"
    ensures "subtree_hash" != "subtree_depth" && "subtree_hash" != "subtree_operations" && "subtree_depth" != "subtree_operations"
    ensures PACKED_TAGS !! TREE_TAGS
  {
    assert "compressed"[1] == 'o' && "compression_ratio"[1] == 'o' && "original_size"[1] == 'r' && "compressed_size"[1] == 'o';
    assert "subtree_hash"[1] == 'u' && "subtree_depth"[1] == 'u' && "subtree_operations"[1] == 'u';
    assert |"compressed"| == 10 && |"compression_ratio"| == 17 && |"original_size"| == 13 && |"compressed_size"| == 15;
    assert |"subtree_hash"| == 12 && |"subtree_depth"| == 13 && |"subtree_operations"| == 18;
    forall key | key in PACKED_TAGS
      ensures key[1] != 'u'
    {
    }
  }

  lemma {:induction false} SortKeepsHeight(order: Order, t: Span)
    requires Sorts(order)
    ensures Height(SortTree(order, t)) == Height(t)
    decreases t
  {
    hide SortTree, Sorts;
    SortTreeHeight(order, t);
    var p := SortTreeIs(order, t);
    var s := SortTree(order, t);
    forall j | 0 <= j < |t.children|
      ensures Height(t.children[j]) <= HeightAll(s.children)
    {
      SortKeepsHeight(order, t.children[j]);
      CountMember(j, p);
      var i :| 0 <= i < |p| && p[i] == j;
      HeightOfMember(s.children, i);
    }
    HeightBound(t.children, HeightAll(s.children));
  }

  lemma LabelOnly(t: Span, tags: Tags)
    ensures Print(t.(tags := tags), "") == Print(t, "") && Operations(t.(tags := tags)) == Operations(t)
    ensures Height(t.(tags := tags)) == Height(t)
  {
    hide PrintAll, OperationsAll;
  }

  /** The signature of a sorted tree, whatever its tags. */
  lemma SignatureIs(codec: Codec, t: Span, tags: Tags)
    requires Sorts(codec.order)
    ensures var sig := SignatureOf(codec, SortTree(codec.order, t).(tags := tags));
            && sig.hash == codec.hash(Print(SortTree(codec.order, t), ""))
            && sig.depth == Height(t) && |sig.operations| == Size(t) && sig.count == 1
  {
    hide SortTree, Sorts, Print, Operations, Height, Size;
    SortKeepsSize(codec.order, t);
    SortKeepsHeight(codec.order, t);
    OperationsCount(SortTree(codec.order, t));
    LabelOnly(SortTree(codec.order, t), tags);
  }

  lemma PackedTagsAre(codec: Codec, data: Bytes, packed: Packed, tags: map<string, TagValue>)
    requires packed.originalSize == |data|
    requires packed.ratio == if packed.data == [] then None else Some(|data| as real / |packed.data| as real)
    ensures var all := PackedTags(codec, tags, packed);
            && Holds(all, "compressed", BoolTag(true))
            && Holds(all, "compression_ratio", TextTag(Ratio(codec, |data|, |packed.data|)))
            && Holds(all, "original_size", IntTag(|data|)) && Holds(all, "compressed_size", IntTag(|packed.data|))
            && forall key :: key !in PACKED_TAGS ==> (key in all <==> key in tags) && (key in tags ==> all[key] == tags[key])
  {
    TagNames();
  }

  lemma SignatureTagsAre(tags: Tags, sig: Signature)
    requires sig.count == 1
    ensures var r := SignatureTags(tags, sig); var all := TagsOf(r);
            && r.Some? && Holds(all, "subtree_hash", TextTag(sig.hash)) && Holds(all, "subtree_depth", IntTag(sig.depth))
            && Holds(all, "subtree_operations", IntTag(|sig.operations|))
            && forall key :: key !in TREE_TAGS ==>
                 (key in all <==> key in TagsOf(tags)) && (key in all ==> all[key] == TagsOf(tags)[key])
  {
    TagNames();
  }

  /** One span. */
  lemma OwnStored(codec: Codec, t: Span, nodes: seq<Node>)
    requires Sorts(codec.order) && CompressSpan(codec, t).Done?
    ensures var (s, packed) := CompressSpan(codec, t).value;
            var node := Assemble(codec, SortTree(codec.order, t).(tags := s.tags), packed, nodes);
            && StoresData(codec, t, node) && StoresTree(codec, t, node) && KeepsTags(codec, t, node)
            && node.children == nodes && node.span.children == SpansOf(nodes)
  {
    hide Sorts, SortTree, Pack, PackedTags, SignatureTags, SignatureOf, Print, Height, Size, Ratio;
    var (s, packed) := CompressSpan(codec, t).value;
    SortTreeShape(codec.order, t);
    PackIff(codec, t);
    if WorthPacking(codec, t) {
      PackedTagsAre(codec, codec.marshal(t).value, packed.value, t.tags.value);
    }
    SignatureIs(codec, t, s.tags);
    SignatureTagsAre(s.tags, SignatureOf(codec, SortTree(codec.order, t).(tags := s.tags)));
    TagNames();
  }

  // ---------- the whole trace ----------

  ghost predicate StoredAll(codec: Codec, ts: seq<Span>, nodes: seq<Node>)
    requires Sorts(codec.order)
  {
    |nodes| == |ts| && forall i :: 0 <= i < |ts| ==> Stored(codec, ts[i], nodes[i])
  }

  /** Every span of a compressed trace is stored as this says, at every depth. */
  lemma {:induction false} TraceStored(codec: Codec, t: Span)
    requires Sorts(codec.order)
    ensures CompressTrace(codec, t).Done? ==> Stored(codec, t, CompressTrace(codec, t).value)
    decreases Height(t), 0
  {
    hide Sorts, SortTree, CompressSpan, CompressAll, Assemble, StoresData, StoresTree, KeepsTags;
    if CompressTrace(codec, t).Done? {
      var (s, packed) := CompressSpan(codec, t).value;
      CompressSpanKeeps(codec, t);
      SortedLower(codec.order, t, s);
      UntaggedSort(codec.order, t, s.tags);
      var kids := SortTree(codec.order, t).children;
      TracesStored(codec, kids);
      OwnStored(codec, t, CompressAll(codec, kids).value);
    }
  }

  lemma {:induction false} TracesStored(codec: Codec, ts: seq<Span>)
    requires Sorts(codec.order)
    ensures CompressAll(codec, ts).Done? ==> StoredAll(codec, ts, CompressAll(codec, ts).value)
    decreases HeightAll(ts), |ts| + 1
  {
    hide Sorts, CompressTrace, Stored;
    if ts != [] && CompressAll(codec, ts).Done? {
      TracesStored(codec, ts[..|ts| - 1]);
      TraceStored(codec, ts[|ts| - 1]);
    }
  }
}
