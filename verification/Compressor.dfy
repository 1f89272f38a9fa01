/** The compressor as the program has it: a bounded cache of signatures and counters, which every call
    updates. Spans are values here: a method returns the tree as the program leaves it, with its lists of
    children sorted and its tags written. */
module Compressor {
  import opened Options
  import opened SpanTree
  import opened SubtreeStructure
  import opened SubtreeMeasures
  import opened CompressionModel
  import opened SignatureCache

  lemma LeafSorted(order: Order, t: Span, indent: string)
    requires Sorts(order) && t.children == []
    ensures SortTree(order, t) == t && Print(t, indent) == indent + Label(t) + "\n" && Operations(t) == [t.info.operation]
  {
    assert SortTree(order, t).children == [];
    assert indent + Label(t) + "" == indent + Label(t);
  }

  lemma NodeSorted(order: Order, t: Span, kids: seq<Span>, indent: string)
    requires Sorts(order) && t.children != [] && |kids| == |t.children|
    requires var p := OrderOf(order, t); forall i :: 0 <= i < |kids| ==> kids[i] == SortTree(order, t.children[p[i]])
    ensures var s := SortTree(order, t);
            && s == t.(children := kids)
            && Print(s, indent) == indent + Label(t) + ("[\n" + PrintAll(kids, indent + STEP) + indent + "]") + "\n"
            && Operations(s) == [t.info.operation] + OperationsAll(kids)
  {
    SortedNode(order, t, kids);
    NodePrints(t.(children := kids), indent);
    hide Print, PrintAll, Operations, OperationsAll, SortTree, Sorts, Label;
  }

  lemma SortedNode(order: Order, t: Span, kids: seq<Span>)
    requires Sorts(order) && |kids| == |t.children|
    requires var p := OrderOf(order, t); forall i :: 0 <= i < |kids| ==> kids[i] == SortTree(order, t.children[p[i]])
    ensures SortTree(order, t) == t.(children := kids)
  {
    hide *;
    var p := SortTreeIs(order, t);
    assert SortTree(order, t).children == kids;
  }

  lemma NodePrints(t: Span, indent: string)
    requires t.children != []
    ensures Print(t, indent) == indent + Label(t) + ("[\n" + PrintAll(t.children, indent + STEP) + indent + "]") + "\n"
    ensures Operations(t) == [t.info.operation] + OperationsAll(t.children)
  {
    hide PrintAll, OperationsAll, Label;
  }

  lemma NothingPrinted(indent: string)
    ensures PrintAll([], indent) == "" && OperationsAll([]) == []
  {
  }

  lemma NextOperations(head: seq<string>, kids: seq<Span>, kid: Span)
    ensures head + OperationsAll(kids) + Operations(kid) == head + OperationsAll(kids + [kid])
  {
    assert (kids + [kid])[..|kids|] == kids;
  }

  /** Sorts every list of children from the top down, and appends the operations in preorder. */
  method BuildSubtreeStructure(order: Order, t: Span, indent: string, operations: seq<string>)
    returns (text: string, sorted: Span, operations': seq<string>)
    requires Sorts(order)
    ensures sorted == SortTree(order, t) && text == Print(sorted, indent)
    ensures operations' == operations + Operations(sorted)
    decreases t
  {
    hide Print, PrintAll, Operations, OperationsAll, SortTree, Sorts, Label;
    text := indent + Label(t);
    operations' := operations + [t.info.operation];
    sorted := t;
    if |t.children| > 0 {
      var p := OrderOf(order, t);
      var kids: seq<Span>, printed := [], "";
      ghost var head := operations';
      assert PrintAll([], indent + STEP) == "" && OperationsAll([]) == [] by {
        NothingPrinted(indent + STEP);
      }
      for k := 0 to |p|
        invariant |kids| == k && forall i :: 0 <= i < k ==> kids[i] == SortTree(order, t.children[p[i]])
        invariant printed == PrintAll(kids, indent + STEP)
        invariant operations' == head + OperationsAll(kids)
      {
        var line, kid;
        line, kid, operations' := BuildSubtreeStructure(order, t.children[p[k]], indent + STEP, operations');
        PrintAllSnoc(kids, kid, indent + STEP);
        NextOperations(head, kids, kid);
        kids := kids + [kid];
        printed := printed + line;
      }
      NodeSorted(order, t, kids, indent);
      sorted := t.(children := kids);
      text := text + ("[\n" + printed + indent + "]");
      assert operations' == operations + ([t.info.operation] + OperationsAll(kids));
    } else {
      LeafSorted(order, t, indent);
    }
    text := text + "\n";
  }

  method CountDepth(t: Span) returns (depth: nat)
    ensures depth == Height(t)
    decreases t
  {
    if |t.children| == 0 {
      return 1;
    }
    var maxChild := 0;
    for k := 0 to |t.children|
      invariant maxChild == HeightAll(t.children[..k])
    {
      var d := CountDepth(t.children[k]);
      assert t.children[..k + 1][..k] == t.children[..k];
      if d > maxChild {
        maxChild := d;
      }
    }
    assert t.children[..|t.children|] == t.children;
    return maxChild + 1;
  }

  /** A signature as an object. The cache and the caller that computed it may share one. */
  class SubtreeSignature {
    const hash: string
    const structure: string
    const operations: seq<string>
    const depth: nat
    var count: nat

    ghost function Value(): Signature
      reads this
    {
      Signature(hash, structure, operations, depth, count)
    }

    constructor (hash: string, structure: string, operations: seq<string>, depth: nat)
      ensures Value() == Signature(hash, structure, operations, depth, 1)
    {
      this.hash, this.structure, this.operations, this.depth := hash, structure, operations, depth;
      count := 1;
    }

    /** The tags of a span with this signature, at the time the signature is looked at. */
    method AddTags(tags: Tags) returns (tagged: Tags)
      ensures tagged == SignatureTags(tags, Value())
    {
      tagged := SetTag(tags, "subtree_hash", TextTag(hash));
      tagged := SetTag(tagged, "subtree_depth", IntTag(depth));
      tagged := SetTag(tagged, "subtree_operations", IntTag(|operations|));
      if count > 1 {
        tagged := SetTag(tagged, "subtree_duplicate_count", IntTag(count));
      }
    }
  }

  /** How many spans are stored compressed, and their sizes before and after. */
  datatype Load = Load(spans: nat, original: nat, compressed: nat)

  function Joined(a: Load, b: Load): Load {
    Load(a.spans + b.spans, a.original + b.original, a.compressed + b.compressed)
  }

  function PackedLoad(packed: Option<Packed>): Load {
    if packed.Some? then Load(1, packed.value.originalSize, |packed.value.data|) else Load(0, 0, 0)
  }

  /** The load of all spans in a compressed trace. */
  function NodeLoad(node: Node): Load
    decreases node, 0
  {
    Joined(PackedLoad(node.packed), NodesLoad(node.children))
  }

  function NodesLoad(nodes: seq<Node>): Load
    decreases nodes, 1
  {
    if nodes == [] then Load(0, 0, 0) else Joined(NodesLoad(nodes[..|nodes| - 1]), NodeLoad(nodes[|nodes| - 1]))
  }

  function LoadOf(st: CompressionStats): Load { Load(st.compressedSpans, st.totalOriginal, st.totalCompressed) }

  /** What compressing a tree gives; that each of its spans is counted once and looked up once; and that the totals
      grow by what is stored compressed. */
  ghost predicate Compresses(codec: Codec, t: Span, r: Outcome<Node>, before: CompressionStats, after: CompressionStats)
    requires Sorts(codec.order)
  {
    && r == CompressionModel.CompressTrace(codec, t)
    && (r.Done? ==> Counted(before, after, Size(t)) && LoadOf(after) == Joined(LoadOf(before), NodeLoad(r.value)))
  }

  ghost predicate CompressesAll(codec: Codec, ts: seq<Span>, r: Outcome<seq<Node>>, before: CompressionStats, after: CompressionStats)
    requires Sorts(codec.order)
  {
    && r == CompressAll(codec, ts)
    && (r.Done? ==> Counted(before, after, SizeAll(ts)) && LoadOf(after) == Joined(LoadOf(before), NodesLoad(r.value)))
  }

  lemma CompressesNone(codec: Codec, ts: seq<Span>, st: CompressionStats)
    requires Sorts(codec.order)
    ensures CompressesAll(codec, ts[..0], Done([]), st, st)
  {
    assert ts[..0] == [];
  }

  lemma CompressesNext(codec: Codec, ts: seq<Span>, k: nat, nodes: seq<Node>, r: Outcome<Node>,
                       before: CompressionStats, mid: CompressionStats, after: CompressionStats)
    requires Sorts(codec.order) && k < |ts|
    requires CompressesAll(codec, ts[..k], Done(nodes), before, mid) && Compresses(codec, ts[k], r, mid, after)
    ensures r.Done? ==> CompressesAll(codec, ts[..k + 1], Done(nodes + [r.value]), before, after)
    ensures r.Panic? ==> CompressesAll(codec, ts, Panic, before, after)
  {
    hide CompressionModel.CompressTrace, Sorts;
    assert ts[..k + 1][..k] == ts[..k];
    if r.Panic? {
      PanicSpreads(codec, ts, k + 1);
    } else {
      assert (nodes + [r.value])[..|nodes|] == nodes;
    }
  }

  /** A span compressed by itself, with its children sorted and its signature's tags. */
  datatype Own = Own(sorted: Span, tags: Tags, packed: Option<Packed>, hash: string)

  ghost predicate CompressesOwn(codec: Codec, t: Span, r: Outcome<Own>, before: CompressionStats, after: CompressionStats)
    requires Sorts(codec.order)
  {
    match CompressionModel.CompressSpan(codec, t)
    case Panic => r.Panic?
    case Done((s, packed)) =>
      var sorted := SortTree(codec.order, s);
      var sig := SignatureOf(codec, sorted);
      && r == Done(Own(sorted, SignatureTags(sorted.tags, sig), packed, sig.hash))
      && Counted(before, after, 1) && LoadOf(after) == Joined(LoadOf(before), PackedLoad(packed))
  }

  lemma OwnOf(codec: Codec, t: Span, first: Outcome<(Span, Option<Packed>)>, hit: bool,
              before: CompressionStats, after: CompressionStats)
    requires Sorts(codec.order) && first == CompressionModel.CompressSpan(codec, t)
    requires first.Done? ==> after == LookupStats(SpanStats(before, first), hit)
    ensures first.Panic? ==> CompressesOwn(codec, t, Panic, before, after)
    ensures first.Done? ==>
              var sorted := SortTree(codec.order, first.value.0);
              var sig := SignatureOf(codec, sorted);
              CompressesOwn(codec, t, Done(Own(sorted, SignatureTags(sorted.tags, sig), first.value.1, sig.hash)), before, after)
  {
    hide CompressionModel.CompressSpan, Sorts, SortTree, SignatureOf, SignatureTags;
  }

  /** If the span by itself panics, so does its tree; otherwise its children are lower. */
  lemma OwnFirst(codec: Codec, t: Span, own: Outcome<Own>, before: CompressionStats, mid: CompressionStats)
    requires Sorts(codec.order) && CompressesOwn(codec, t, own, before, mid)
    ensures own.Panic? ==> Compresses(codec, t, Panic, before, mid)
    ensures own.Done? ==> HeightAll(own.value.sorted.children) < Height(t)
  {
    hide CompressionModel.CompressSpan, Sorts, SortTree, CompressAll, SignatureOf, SignatureTags, NodeLoad;
    if own.Done? {
      var s := CompressionModel.CompressSpan(codec, t).value.0;
      CompressSpanKeeps(codec, t);
      SortedLower(codec.order, t, s);
    }
  }

  lemma TreeCounted(order: Order, t: Span, s: Span, before: CompressionStats, mid: CompressionStats, after: CompressionStats)
    requires Sorts(order) && s == t.(tags := s.tags)
    requires Counted(before, mid, 1) && Counted(mid, after, SizeAll(SortTree(order, s).children))
    ensures Counted(before, after, Size(t))
  {
    hide Sorts, SortTree;
    SortKeepsSize(order, s);
    SizeOf(SortTree(order, s));
    SizeOf(t);
    SizeOf(s);
  }

  lemma NodeLoadIs(span: Span, kids: seq<Node>, packed: Option<Packed>, hash: string)
    ensures NodeLoad(Node(span, kids, packed, hash)) == Joined(PackedLoad(packed), NodesLoad(kids))
  {
  }

  lemma JoinedTwice(a: Load, b: Load, c: Load)
    ensures Joined(Joined(a, b), c) == Joined(a, Joined(b, c))
  {
  }

  lemma TreeIs(codec: Codec, t: Span, o: Own, kids: Outcome<seq<Node>>)
    requires Sorts(codec.order) && CompressionModel.CompressSpan(codec, t).Done?
    requires var (s, packed) := CompressionModel.CompressSpan(codec, t).value; var sorted := SortTree(codec.order, s);
             var sig := SignatureOf(codec, sorted);
             o == Own(sorted, SignatureTags(sorted.tags, sig), packed, sig.hash) && kids == CompressAll(codec, sorted.children)
    ensures CompressionModel.CompressTrace(codec, t) == NodeWith(o, kids)
  {
    hide CompressionModel.CompressSpan, Sorts, SortTree, CompressAll, SignatureOf, SignatureTags;
  }

  /** The span by itself and its children together. */
  lemma CompressesTree(codec: Codec, t: Span, o: Own, kids: Outcome<seq<Node>>,
                       before: CompressionStats, mid: CompressionStats, after: CompressionStats)
    requires Sorts(codec.order) && CompressesOwn(codec, t, Done(o), before, mid)
    requires CompressesAll(codec, o.sorted.children, kids, mid, after)
    ensures Compresses(codec, t, NodeWith(o, kids), before, after)
  {
    hide CompressionModel.CompressSpan, CompressionModel.CompressTrace, Sorts, SortTree, CompressAll, SignatureOf, SignatureTags,
      NodeLoad, NodesLoad, Joined, Counted, Size, SizeAll, PackedLoad, LoadOf;
    TreeIs(codec, t, o, kids);
    if kids.Done? {
      CompressSpanKeeps(codec, t);
      TreeCounted(codec.order, t, CompressionModel.CompressSpan(codec, t).value.0, before, mid, after);
      var node := NodeWith(o, kids).value;
      NodeLoadIs(node.span, kids.value, o.packed, o.hash);
      JoinedTwice(LoadOf(before), PackedLoad(o.packed), NodesLoad(kids.value));
    }
  }

  function NodeWith(o: Own, kids: Outcome<seq<Node>>): Outcome<Node> {
    if kids.Panic? then Panic
    else Done(Node(Span(o.sorted.info, o.tags, SpansOf(kids.value)), kids.value, o.packed, o.hash))
  }

  lemma SizeOf(t: Span)
    ensures Size(t) == 1 + SizeAll(t.children)
  {
  }

  /** The objects in the cache hold these values. */
  ghost predicate Represents(cache: map<string, SubtreeSignature>, cached: Cache)
    reads cache.Values
  {
    cache.Keys == cached.Keys && forall k <- cache :: cache[k].Value() == cached[k] && cache[k].hash == k
  }

  lemma SameSize(cache: map<string, SubtreeSignature>, cached: Cache)
    requires Represents(cache, cached)
    ensures |cache| == |cached|
  {
    assert |cache| == |cache.Keys| && |cached| == |cached.Keys|;
  }

  lemma SameKeys(cache: map<string, SubtreeSignature>, cached: Cache)
    requires Represents(cache, cached)
    ensures cache.Keys == cached.Keys
  {
  }

  lemma CountsRead(cache: map<string, SubtreeSignature>, cached: Cache)
    requires Represents(cache, cached)
    ensures cache.Keys == cached.Keys && forall k <- cache :: cache[k].count == cached[k].count
  {
  }

  /** What is read through a pointer is the cached value. */
  lemma Represented(cache: map<string, SubtreeSignature>, cached: Cache)
    requires Represents(cache, cached)
    ensures cache.Keys == cached.Keys && forall k <- cache :: cache[k].Value() == cached[k] && cache[k].hash == k
  {
  }

  /** The one signature object of a hash holds a new value. */
  lemma Renewed(cache: map<string, SubtreeSignature>, cached: Cache, hash: string)
    requires cache.Keys == cached.Keys && hash in cache && cache[hash].hash == hash
    requires forall k <- cache :: k != hash ==> cache[k].Value() == cached[k] && cache[k].hash == k
    ensures Represents(cache, cached[hash := cache[hash].Value()])
  {
  }

  lemma AddSignature(cache: map<string, SubtreeSignature>, cached: Cache, sig: SubtreeSignature)
    requires Represents(cache, cached)
    ensures Represents(cache[sig.hash := sig], cached[sig.hash := sig.Value()])
  {
  }

  lemma ValuesWithin(cache: map<string, SubtreeSignature>, sig: SubtreeSignature, repr: set<SubtreeSignature>)
    requires cache.Values <= repr
    ensures cache[sig.hash := sig].Values <= repr + {sig}
  {
  }

  lemma RemoveSignature(cache: map<string, SubtreeSignature>, cached: Cache, k: string)
    requires Represents(cache, cached)
    ensures Represents(cache - {k}, cached - {k})
  {
  }

  datatype CompressionStats = CompressionStats(
    totalSpans: nat, compressedSpans: nat, totalOriginal: nat, totalCompressed: nat, cacheHits: nat, cacheMisses: nat)

  const NO_STATS := CompressionStats(0, 0, 0, 0, 0, 0)

  /** Between the two, n spans were counted, and n signatures looked up in the cache. */
  predicate Counted(before: CompressionStats, after: CompressionStats, n: nat) {
    && after.totalSpans == before.totalSpans + n
    && after.cacheHits + after.cacheMisses == before.cacheHits + before.cacheMisses + n
  }

  function SpanStats(st: CompressionStats, r: Outcome<(Span, Option<Packed>)>): CompressionStats {
    var st1 := st.(totalSpans := st.totalSpans + 1);
    if r.Panic? || r.value.1.None? then st1
    else
      var packed := r.value.1.value;
      st1.(compressedSpans := st.compressedSpans + 1, totalOriginal := st.totalOriginal + packed.originalSize,
           totalCompressed := st.totalCompressed + |packed.data|)
  }

  function LookupStats(st: CompressionStats, hit: bool): CompressionStats {
    if hit then st.(cacheHits := st.cacheHits + 1) else st.(cacheMisses := st.cacheMisses + 1)
  }

  class Compressor {
    const codec: Codec
    const maxCacheSize: int
    var signatureCache: map<string, SubtreeSignature>
    var stats: CompressionStats
    /** Every signature that is or was in the cache, and the values of those that are. */
    ghost var repr: set<SubtreeSignature>
    ghost var cached: Cache

    ghost predicate Keyed()
      reads this`signatureCache, this`cached, this`repr, repr
    {
      signatureCache.Values <= repr && Represents(signatureCache, cached)
    }

    ghost predicate Valid()
      reads this`signatureCache, this`cached, this`repr, repr
    {
      Sorts(codec.order) && Keyed() && CacheFits(cached, maxCacheSize)
    }

    constructor (codec: Codec, maxCacheSize: int)
      requires Sorts(codec.order)
      ensures Valid() && this.codec == codec && this.maxCacheSize == maxCacheSize
      ensures cached == map[] && repr == {} && stats == NO_STATS
    {
      this.codec, this.maxCacheSize := codec, maxCacheSize;
      signatureCache, cached, repr := map[], map[], {};
      stats := NO_STATS;
    }

    method CompressSpan(t: Span) returns (r: Outcome<(Span, Option<Packed>)>)
      modifies this`stats
      ensures r == CompressionModel.CompressSpan(codec, t)
      ensures stats == SpanStats(old(stats), r)
    {
      stats := stats.(totalSpans := stats.totalSpans + 1);
      var data := codec.marshal(t);
      if data.None? {
        return Done((t, None));
      }
      var originalSize := |data.value|;
      if originalSize < 256 {
        return Done((t, None));
      }
      var compressedData := codec.encode(data.value);
      var compressedSize := |compressedData|;
      var ratio := None;
      if compressedSize != 0 {
        ratio := Some(originalSize as real / compressedSize as real);
        if ratio.value < 1.2 {
          return Done((t, None));
        }
      }
      if t.tags.None? {
        return Panic;
      }
      var packed := Packed(compressedData, originalSize, ratio);
      stats := stats.(compressedSpans := stats.compressedSpans + 1,
                      totalOriginal := stats.totalOriginal + originalSize,
                      totalCompressed := stats.totalCompressed + compressedSize);
      var tags := t.tags.value;
      tags := tags["compressed" := BoolTag(true)];
      tags := tags["compression_ratio" := TextTag(RatioText(codec, ratio))];
      tags := tags["original_size" := IntTag(originalSize)];
      tags := tags["compressed_size" := IntTag(compressedSize)];
      return Done((t.(tags := Some(tags)), Some(packed)));
    }

    /** Makes room for one signature: one that was seen once goes if there is any, otherwise any one. */
    method EvictOldCache() returns (evicted: Option<string>)
      requires Keyed()
      modifies this`signatureCache, this`cached
      ensures Keyed() && cached == Without(old(cached), evicted)
      ensures if old(cached) == map[] then evicted.None? else evicted.Some? && MayGo(old(cached), evicted.value)
    {
      hide Represents;
      CountsRead(signatureCache, cached);
      evicted := None;
      var once := set k | k in signatureCache && signatureCache[k].count == 1;
      if once != {} {
        var k :| k in once;
        evicted := Some(k);
      } else if signatureCache.Keys != {} {
        var k :| k in signatureCache.Keys;
        assert forall j <- cached :: cached[j].count == 1 ==> j in once;
        evicted := Some(k);
      }
      if evicted.Some? {
        RemoveSignature(signatureCache, cached, evicted.value);
        signatureCache := signatureCache - {evicted.value};
        cached := cached - {evicted.value};
      }
    }

    /** A signature that the cache does not have enters it. */
    method Insert(sig: SubtreeSignature) returns (ghost evicted: Option<string>)
      requires Keyed() && sig.hash !in cached
      modifies this`signatureCache, this`cached, this`repr
      ensures Keyed() && repr == old(repr) + {sig}
      ensures Evicts(old(cached), maxCacheSize, evicted)
      ensures cached == Without(old(cached), evicted)[sig.hash := sig.Value()]
    {
      hide Represents, MayGo, Evicts, Without;
      SameSize(signatureCache, cached);
      evicted := None;
      if |signatureCache| >= maxCacheSize {
        evicted := EvictOldCache();
      }
      EvictedIf(old(cached), maxCacheSize, evicted);
      AddSignature(signatureCache, cached, sig);
      ValuesWithin(signatureCache, sig, repr);
      signatureCache, cached, repr := signatureCache[sig.hash := sig], cached[sig.hash := sig.Value()], repr + {sig};
    }

    /** A signature that the cache has is counted once more. */
    method CountAgain(hash: string) returns (again: bool)
      requires Keyed() && hash in cached
      modifies this`cached, repr
      ensures Keyed() && cached == CountedAgain(old(cached), hash) && (again <==> cached[hash].count > 1)
    {
      hide Represents;
      Represented(signatureCache, cached);
      var existing := signatureCache[hash];
      existing.count := existing.count + 1;
      Renewed(signatureCache, cached, hash);
      cached := CountedAgain(cached, hash);
      again := existing.count > 1;
    }

    /** A signature that the cache has already is a hit, a new one a miss. */
    method Remember(sig: SubtreeSignature) returns (ghost evicted: Option<string>)
      requires Valid() && sig !in repr && sig.count == 1
      modifies this`signatureCache, this`cached, this`repr, this`stats, repr
      ensures Valid() && sig.count == 1 && repr <= old(repr) + {sig}
      ensures Remembered(old(cached), cached, maxCacheSize, sig.Value(), evicted)
      ensures stats == LookupStats(old(stats), sig.hash in old(cached))
      ensures stats.cacheHits == old(stats.cacheHits) + if sig.hash in old(cached) then 1 else 0
      ensures stats.cacheMisses == old(stats.cacheMisses) + if sig.hash in old(cached) then 0 else 1
    {
      hide Sorts, CacheFits, Evicts, Represents;
      assert sig.hash in signatureCache <==> sig.hash in cached by {
        SameKeys(signatureCache, cached);
      }
      var isDuplicate := false;
      evicted := None;
      if sig.hash in signatureCache {
        CachedOnce(cached, maxCacheSize, sig.hash);
        isDuplicate := CountAgain(sig.hash);
      } else {
        evicted := Insert(sig);
      }
      RememberedFits(old(cached), cached, maxCacheSize, sig.Value(), evicted);
      if isDuplicate {
        stats := stats.(cacheHits := stats.cacheHits + 1);
      } else {
        stats := stats.(cacheMisses := stats.cacheMisses + 1);
      }
    }

    /** The signature of the sorted tree, as a new object, which the cache shares if it did not have an equal one. */
    method ComputeSubtreeSignature(t: Span) returns (sig: SubtreeSignature, sorted: Span, ghost evicted: Option<string>)
      requires Valid()
      modifies this`signatureCache, this`cached, this`repr, this`stats, repr
      ensures Valid() && fresh(sig) && repr <= old(repr) + {sig}
      ensures sorted == SortTree(codec.order, t)
      ensures sig.Value() == SignatureOf(codec, sorted) && sig.hash == SignatureOf(codec, sorted).hash
      ensures Remembered(old(cached), cached, maxCacheSize, sig.Value(), evicted)
      ensures stats == LookupStats(old(stats), sig.hash in old(cached))
      ensures stats.cacheHits == old(stats.cacheHits) + if sig.hash in old(cached) then 1 else 0
      ensures stats.cacheMisses == old(stats.cacheMisses) + if sig.hash in old(cached) then 0 else 1
    {
      hide Represents, CacheFits, Remembered, SortTree, Sorts, Print, Operations;
      var structure, operations;
      structure, sorted, operations := BuildSubtreeStructure(codec.order, t, "", []);
      assert [] + Operations(sorted) == Operations(sorted);
      var depth := CountDepth(sorted);
      sig := new SubtreeSignature(codec.hash(structure), structure, operations, depth);
      evicted := Remember(sig);
    }

    /** One child more. */
    method CompressNext(ts: seq<Span>, k: nat, nodes: seq<Node>, ghost before: CompressionStats)
      returns (r: Outcome<seq<Node>>)
      requires Valid() && k < |ts| && CompressesAll(codec, ts[..k], Done(nodes), before, stats)
      modifies this, repr
      ensures Valid() && fresh(repr - old(repr))
      ensures CompressesAll(codec, if r.Done? then ts[..k + 1] else ts, r, before, stats)
      decreases HeightAll(ts), 1
    {
      assert Sorts(codec.order);
      hide *;
      HeightOfMember(ts, k);
      var child := CompressTrace(ts[k]);
      CompressesNext(codec, ts, k, nodes, child, before, old(stats), stats);
      r := if child.Panic? then Panic else Done(nodes + [child.value]);
    }

    method CompressChildren(ts: seq<Span>) returns (r: Outcome<seq<Node>>)
      requires Valid()
      modifies this, repr
      ensures Valid() && fresh(repr - old(repr))
      ensures CompressesAll(codec, ts, r, old(stats), stats)
      decreases HeightAll(ts), 2
    {
      assert Sorts(codec.order);
      hide *;
      var nodes := [];
      CompressesNone(codec, ts, stats);
      for k := 0 to |ts|
        invariant Valid() && fresh(repr - old(repr))
        invariant CompressesAll(codec, ts[..k], Done(nodes), old(stats), stats)
      {
        var next := CompressNext(ts, k, nodes, old(stats));
        if next.Panic? {
          return Panic;
        }
        nodes := next.value;
      }
      assert ts[..|ts|] == ts;
      return Done(nodes);
    }

    /** The span without its children. */
    method CompressOwn(t: Span) returns (r: Outcome<Own>)
      requires Valid()
      modifies this, repr
      ensures Valid() && fresh(repr - old(repr))
      ensures CompressesOwn(codec, t, r, old(stats), stats)
    {
      assert Sorts(codec.order);
      hide *;
      var first := CompressSpan(t);
      if first.Panic? {
        OwnOf(codec, t, first, false, old(stats), stats);
        r := Panic;
      } else {
        var (s, packed) := first.value;
        ghost var known := cached;
        var sig, sorted, evicted := ComputeSubtreeSignature(s);
        OwnOf(codec, t, first, sig.hash in known, old(stats), stats);
        var tags := sig.AddTags(sorted.tags);
        r := Done(Own(sorted, tags, packed, sig.hash));
      }
    }

    method CompressTrace(t: Span) returns (r: Outcome<Node>)
      requires Valid()
      modifies this, repr
      ensures Valid() && fresh(repr - old(repr))
      ensures Compresses(codec, t, r, old(stats), stats)
      decreases Height(t), 0
    {
      assert Sorts(codec.order);
      hide *;
      var own := CompressOwn(t);
      OwnFirst(codec, t, own, old(stats), stats);
      r := Panic;
      if own.Done? {
        ghost var mid := stats;
        var kids := CompressChildren(own.value.sorted.children);
        CompressesTree(codec, t, own.value, kids, old(stats), mid, stats);
        r := NodeWith(own.value, kids);
      }
    }

    /** None stands for an error. */
    method DecompressTrace(node: Node) returns (r: Option<Span>)
      ensures r == CompressionModel.DecompressTrace(codec, node)
      decreases node
    {
      var root := DecompressSpan(codec, node);
      if root.None? {
        return None;
      }
      if |node.children| == 0 {
        return root;
      }
      var kids := [];
      for k := 0 to |node.children|
        invariant DecompressAll(codec, node.children[..k]) == Some(kids)
      {
        assert node.children[..k + 1][..k] == node.children[..k];
        var kid := DecompressTrace(node.children[k]);
        if kid.None? {
          ErrorSpreads(codec, node.children, k + 1);
          return None;
        }
        kids := kids + [kid.value];
      }
      assert node.children[..|node.children|] == node.children;
      return Some(root.value.(children := kids));
    }
  }

  lemma CachedOnce(cache: Cache, maxCacheSize: int, hash: string)
    requires CacheFits(cache, maxCacheSize) && hash in cache
    ensures cache[hash].count >= 1
  {
  }

  lemma {:induction false} PanicSpreads(codec: Codec, ts: seq<Span>, k: nat)
    requires Sorts(codec.order) && k <= |ts| && CompressAll(codec, ts[..k]).Panic?
    ensures CompressAll(codec, ts).Panic?
    decreases |ts| - k
  {
    hide Sorts, CompressionModel.CompressTrace;
    if k < |ts| {
      assert ts[..k + 1][..k] == ts[..k];
      PanicSpreads(codec, ts, k + 1);
    } else {
      assert ts[..k] == ts;
    }
  }

  lemma {:induction false} ErrorSpreads(codec: Codec, nodes: seq<Node>, k: nat)
    requires k <= |nodes| && DecompressAll(codec, nodes[..k]).None?
    ensures DecompressAll(codec, nodes).None?
    decreases |nodes| - k
  {
    hide CompressionModel.DecompressTrace;
    if k < |nodes| {
      assert nodes[..k + 1][..k] == nodes[..k];
      ErrorSpreads(codec, nodes, k + 1);
    } else {
      assert nodes[..k] == nodes;
    }
  }
}
