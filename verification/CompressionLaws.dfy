/** A trace survives compression. */
module CompressionLaws {
  import opened Options
  import opened RealAlgebra
  import opened SpanTree
  import opened CompressionModel

  lemma UntaggedSort(order: Order, t: Span, tags: Tags)
    requires Sorts(order)
    ensures SortTree(order, t.(tags := tags)) == SortTree(order, t).(tags := tags)
  {
  }

  lemma SortTreeShape(order: Order, t: Span)
    requires Sorts(order)
    ensures var s := SortTree(order, t);
            s.info == t.info && s.tags == t.tags && |s.children| == |t.children| && StartSorted(s.children)
  {
    hide SortTree, Sorts;
    var q := SortTreeIs(order, t);
    SameInfoLawful();
    SortTreeIsCopy(SameInfo, order, t);
    var p: seq<nat> :| Matches(SameInfo, t, SortTree(order, t), p);
  }

  lemma AssembledChildren(codec: Codec, sorted: Span, packed: Option<Packed>, nodes: seq<Node>)
    ensures Assemble(codec, sorted, packed, nodes).children == nodes
  {
    hide SignatureOf, SignatureTags;
  }

  lemma PackRoundTrip(codec: Codec, t: Span, packed: Packed)
    requires Faithful(codec) && Pack(codec, t) == Some(packed)
    ensures var data := codec.decode(packed.data);
            data.Some? && codec.unmarshal(data.value).Some? && EqualButTags(t, codec.unmarshal(data.value).value)
  {
    var data := codec.marshal(t).value;
    assert codec.decode(codec.encode(data)) == Some(data);
  }

  lemma SpanRoundTrip(codec: Codec, t: Span, sorted: Span, nodes: seq<Node>)
    requires Faithful(codec) && CompressSpan(codec, t).Done?
    requires sorted.info == t.info && |nodes| == |sorted.children| == |t.children|
    ensures var u := DecompressSpan(codec, Assemble(codec, sorted, CompressSpan(codec, t).value.1, nodes));
            u.Some? && u.value.info == t.info && (nodes == [] ==> u.value.children == [])
  {
    hide SignatureOf, SignatureTags, Faithful, Pack;
    var packed := CompressSpan(codec, t).value.1;
    if packed.Some? {
      PackRoundTrip(codec, t, packed.value);
    }
  }

  lemma {:induction false} CompressedRoundTrip(codec: Codec, t: Span) returns (u: Span)
    requires Faithful(codec) && Sorts(codec.order) && CompressTrace(codec, t).Done?
    ensures DecompressTrace(codec, CompressTrace(codec, t).value) == Some(u) && SortedCopy(t, u)
    decreases Height(t), 0
  {
    hide Faithful, Sorts, Matches, Pack, CompressSpan, Assemble, DecompressSpan, CompressAll, SortTree, CopyOf, Lawful;
    var (s, packed) := CompressSpan(codec, t).value;
    CompressSpanKeeps(codec, t);
    SortedLower(codec.order, t, s);
    SameInfoLawful();
    SortTreeIsCopy(SameInfo, codec.order, t);
    UntaggedSort(codec.order, t, s.tags);
    var sorted := SortTree(codec.order, s);
    var nodes := CompressAll(codec, sorted.children).value;
    var kids := TracesRoundTrip(codec, sorted.children);
    SortTreeShape(codec.order, s);
    SpanRoundTrip(codec, t, sorted, nodes);
    u := DecompressSpan(codec, Assemble(codec, sorted, packed, nodes)).value;
    u := if nodes == [] then u else u.(children := kids);
    AssembledChildren(codec, sorted, packed, nodes);
    CopyAtEachPosition(SameInfo, SortTree(codec.order, t), u);
    CopyOfCopy(SameInfo, t, SortTree(codec.order, t), u);
  }

  lemma {:induction false} TracesRoundTrip(codec: Codec, ts: seq<Span>) returns (us: seq<Span>)
    requires Faithful(codec) && Sorts(codec.order) && CompressAll(codec, ts).Done?
    ensures DecompressAll(codec, CompressAll(codec, ts).value) == Some(us) && |us| == |ts| == |CompressAll(codec, ts).value|
    ensures forall i :: 0 <= i < |ts| ==> SortedCopy(ts[i], us[i])
    decreases HeightAll(ts), |ts| + 1
  {
    hide Faithful, Sorts, CopyOf, CompressTrace, DecompressTrace;
    if ts == [] {
      us := [];
    } else {
      var n := |ts| - 1;
      var front := TracesRoundTrip(codec, ts[..n]);
      var last := CompressedRoundTrip(codec, ts[n]);
      us := front + [last];
      var nodes := CompressAll(codec, ts).value;
      assert nodes[..n] == CompressAll(codec, ts[..n]).value && nodes[n] == CompressTrace(codec, ts[n]).value;
    }
  }

  /** Decompressing a compressed trace succeeds and gives the same trace in everything but tags, with every
      list of children permuted into the order of start times. It does not matter which of the spans were stored
      compressed. */
  lemma TraceRoundTrip(codec: Codec, t: Span) returns (u: Span)
    requires Faithful(codec) && Sorts(codec.order)
    ensures CompressTrace(codec, t).Done? ==>
              DecompressTrace(codec, CompressTrace(codec, t).value) == Some(u) && SortedCopy(t, u)
  {
    u := t;
    if CompressTrace(codec, t).Done? {
      u := CompressedRoundTrip(codec, t);
    }
  }

  // ---------- panics ----------

  predicate AllTagged(t: Span) {
    t.tags.Some? && forall kid <- t.children :: AllTagged(kid)
  }

  lemma {:induction false} SortKeepsTags(order: Order, t: Span)
    requires Sorts(order) && AllTagged(t)
    ensures AllTagged(SortTree(order, t))
    decreases t
  {
    hide SortTree, Sorts;
    var p := SortTreeIs(order, t);
    var s := SortTree(order, t);
    forall i | 0 <= i < |p|
      ensures AllTagged(s.children[i])
    {
      assert t.children[p[i]] in t.children;
      SortKeepsTags(order, t.children[p[i]]);
    }
  }

  /** A trace whose spans all have tags, be there none in them, is compressed without a panic. */
  lemma {:induction false} TaggedNeverPanics(codec: Codec, t: Span)
    requires Sorts(codec.order) && AllTagged(t)
    ensures CompressTrace(codec, t).Done?
    decreases Height(t), 0
  {
    hide Pack, Assemble, CompressAll, SortTree, Sorts;
    var s := CompressSpan(codec, t).value.0;
    UntaggedSort(codec.order, t, s.tags);
    SortKeepsTags(codec.order, t);
    SortedLower(codec.order, t, s);
    TaggedNeverPanicsAll(codec, SortTree(codec.order, t).children);
  }

  lemma {:induction false} TaggedNeverPanicsAll(codec: Codec, ts: seq<Span>)
    requires Sorts(codec.order) && forall t <- ts :: AllTagged(t)
    ensures CompressAll(codec, ts).Done?
    decreases HeightAll(ts), |ts| + 1
  {
    hide CompressTrace, AllTagged, Sorts;
    if ts != [] {
      var n := |ts| - 1;
      assert ts[n] in ts;
      TaggedNeverPanicsAll(codec, ts[..n]);
      TaggedNeverPanics(codec, ts[n]);
    }
  }

  /** The JSON has at least 256 bytes, and encoding it saves a sixth of them. */
  predicate WorthPacking(codec: Codec, t: Span) {
    && codec.marshal(t).Some?
    && var data := codec.marshal(t).value; |data| >= 256 && 10 * |data| >= 12 * |codec.encode(data)|
  }

  lemma RatioIff(size: nat, packed: nat)
    requires packed > 0
    ensures size as real / packed as real >= 1.2 <==> 10 * size >= 12 * packed
  {
    QuotientBelow(size as real, packed as real, 1.2);
    assert size as real < packed as real * 1.2 <==> 10 * size < 12 * packed;
  }

  lemma PackIff(codec: Codec, t: Span)
    ensures Pack(codec, t).Some? <==> WorthPacking(codec, t)
    ensures Pack(codec, t).Some? ==>
              var data, packed := codec.marshal(t).value, Pack(codec, t).value;
              && packed.data == codec.encode(data) && packed.originalSize == |data|
              && packed.ratio == if packed.data == [] then None else Some(|data| as real / |packed.data| as real)
  {
    if codec.marshal(t).Some? {
      var data := codec.marshal(t).value;
      if |codec.encode(data)| > 0 {
        RatioIff(|data|, |codec.encode(data)|);
      }
    }
  }

  /** Whether writing the tags of this span itself panics. */
  predicate WritesToNil(codec: Codec, t: Span) { t.tags.None? && WorthPacking(codec, t) }

  /** Whether it does for some span of the tree, each one with the children of its ancestors sorted, as it is
      when its turn comes. */
  predicate SomeWritesToNil(codec: Codec, t: Span)
    requires Sorts(codec.order)
    decreases Height(t), 0
  {
    SortedLower(codec.order, t, t);
    WritesToNil(codec, t) || SomeOfWritesToNil(codec, SortTree(codec.order, t).children)
  }

  predicate SomeOfWritesToNil(codec: Codec, ts: seq<Span>)
    requires Sorts(codec.order)
    decreases HeightAll(ts), |ts| + 1
  {
    ts != [] && (SomeOfWritesToNil(codec, ts[..|ts| - 1]) || SomeWritesToNil(codec, ts[|ts| - 1]))
  }

  lemma CompressSpanPanics(codec: Codec, t: Span)
    ensures CompressSpan(codec, t).Panic? <==> WritesToNil(codec, t)
  {
    hide Pack, WorthPacking;
    PackIff(codec, t);
  }

  /** Compressing a trace panics exactly when some span with nil tags is worth packing. */
  lemma {:induction false} PanicsIff(codec: Codec, t: Span)
    requires Sorts(codec.order)
    ensures CompressTrace(codec, t).Panic? <==> SomeWritesToNil(codec, t)
    decreases Height(t), 0
  {
    hide Sorts, Pack, WritesToNil, CompressSpan, Assemble, CompressAll, SortTree, SomeOfWritesToNil;
    CompressSpanPanics(codec, t);
    SortedLower(codec.order, t, t);
    PanicsIffAll(codec, SortTree(codec.order, t).children);
    if CompressSpan(codec, t).Done? {
      CompressSpanKeeps(codec, t);
      UntaggedSort(codec.order, t, CompressSpan(codec, t).value.0.tags);
    }
  }

  lemma {:induction false} PanicsIffAll(codec: Codec, ts: seq<Span>)
    requires Sorts(codec.order)
    ensures CompressAll(codec, ts).Panic? <==> SomeOfWritesToNil(codec, ts)
    decreases HeightAll(ts), |ts| + 1
  {
    hide Sorts, CompressTrace, SomeWritesToNil;
    if ts != [] {
      PanicsIffAll(codec, ts[..|ts| - 1]);
      PanicsIff(codec, ts[|ts| - 1]);
    }
  }

  // ---------- tags ----------

  const DUPLICATES := "subtree_duplicate_count"

  predicate Tagged(tags: Tags, key: string) { tags.Some? && key in tags.value }

  /** The same data, and both with a tag for duplicates or both without. */
  predicate SameDuplicates(t: Span, u: Span) {
    u.info == t.info && (Tagged(u.tags, DUPLICATES) <==> Tagged(t.tags, DUPLICATES))
  }

  lemma SameDuplicatesLawful()
    ensures Lawful(SameDuplicates)
  {
  }

  lemma PackedTagsAdd(codec: Codec, tags: map<string, TagValue>, packed: Packed)
    ensures DUPLICATES in PackedTags(codec, tags, packed) <==> DUPLICATES in tags
  {
    assert |DUPLICATES| == 23;
  }

  /** Among the signature's tags is the one for duplicates exactly if the signature counts more than one. */
  lemma SignatureTagsAdd(tags: Tags, sig: Signature)
    ensures Tagged(SignatureTags(tags, sig), DUPLICATES) <==> sig.count > 1 || Tagged(tags, DUPLICATES)
  {
    assert |DUPLICATES| == 23;
  }

  lemma OwnTags(codec: Codec, t: Span, sorted: Span, nodes: seq<Node>)
    requires CompressSpan(codec, t).Done?
    requires sorted.info == t.info && sorted.tags == CompressSpan(codec, t).value.0.tags
    ensures SameDuplicates(t, Assemble(codec, sorted, CompressSpan(codec, t).value.1, nodes).span)
    ensures Assemble(codec, sorted, CompressSpan(codec, t).value.1, nodes).span.children == SpansOf(nodes)
  {
    hide Pack, SignatureTags, PackedTags;
    var packed := CompressSpan(codec, t).value.1;
    if packed.Some? {
      PackedTagsAdd(codec, t.tags.value, packed.value);
    }
    SignatureTagsAdd(sorted.tags, SignatureOf(codec, sorted));
  }

  /** A call that runs alone gives no span of the trace, at any depth, a tag for duplicates: afterwards each span
      has one exactly if it had one before. */
  lemma {:induction false} DuplicatesNotTaggedAlone(codec: Codec, t: Span)
    requires Sorts(codec.order)
    ensures CompressTrace(codec, t).Done? ==> CopyOf(SameDuplicates, t, CompressTrace(codec, t).value.span)
    decreases Height(t), 0
  {
    hide Sorts, Matches, Pack, CompressSpan, Assemble, CompressAll, SortTree, CopyOf, Lawful, SameDuplicates;
    if CompressTrace(codec, t).Done? {
      var (s, packed) := CompressSpan(codec, t).value;
      CompressSpanKeeps(codec, t);
      SortedLower(codec.order, t, s);
      SameDuplicatesLawful();
      SortTreeIsCopy(SameDuplicates, codec.order, t);
      UntaggedSort(codec.order, t, s.tags);
      SortTreeShape(codec.order, t);
      var sorted := SortTree(codec.order, t);
      var nodes := CompressAll(codec, sorted.children).value;
      DuplicatesNotTaggedAmong(codec, sorted.children);
      OwnTags(codec, t, SortTree(codec.order, s), nodes);
      var u := CompressTrace(codec, t).value.span;
      LikeWithChildren(t, sorted, u);
      CopyAtEachPosition(SameDuplicates, sorted, u);
      CopyOfCopy(SameDuplicates, t, sorted, u);
    }
  }

  lemma LikeWithChildren(t: Span, s: Span, u: Span)
    requires SameDuplicates(t, u) && s.info == t.info && s.tags == t.tags
    ensures SameDuplicates(s, u)
  {
  }

  lemma {:induction false} DuplicatesNotTaggedAmong(codec: Codec, ts: seq<Span>)
    requires Sorts(codec.order)
    ensures CompressAll(codec, ts).Done? ==>
              var us := SpansOf(CompressAll(codec, ts).value);
              |us| == |ts| && forall i :: 0 <= i < |ts| ==> CopyOf(SameDuplicates, ts[i], us[i])
    decreases HeightAll(ts), |ts| + 1
  {
    hide Sorts, CopyOf, CompressTrace, SameDuplicates;
    if ts != [] {
      DuplicatesNotTaggedAmong(codec, ts[..|ts| - 1]);
      DuplicatesNotTaggedAlone(codec, ts[|ts| - 1]);
    }
  }
}
