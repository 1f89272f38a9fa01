/** The bounded cache of signatures: what looking one up does to it. */
module SignatureCache {
  import opened Options
  import opened CompressionModel

  type Cache = map<string, Signature>

  /** At most maxCacheSize signatures, or one if that is less, each under its hash. */
  ghost predicate CacheFits(cache: Cache, maxCacheSize: int) {
    && |cache| <= (if maxCacheSize > 1 then maxCacheSize else 1)
    && forall k <- cache :: cache[k].hash == k && cache[k].count >= 1
  }

  /** The choice of the signature that makes room, if it is needed and there is any: one that was seen once
      goes first. */
  ghost predicate Evicts(cache: Cache, maxCacheSize: int, evicted: Option<string>) {
    if |cache| < maxCacheSize || cache == map[] then evicted.None?
    else evicted.Some? && MayGo(cache, evicted.value)
  }

  ghost predicate MayGo(cache: Cache, k: string) {
    k in cache && (cache[k].count == 1 || forall j <- cache :: cache[j].count != 1)
  }

  function Without(cache: Cache, evicted: Option<string>): Cache {
    if evicted.Some? then cache - {evicted.value} else cache
  }

  lemma EvictedIf(cache: Cache, maxCacheSize: int, evicted: Option<string>)
    ensures evicted.None? && (|cache| < maxCacheSize || cache == map[]) ==>
              Evicts(cache, maxCacheSize, evicted) && Without(cache, evicted) == cache
    ensures evicted.Some? && |cache| >= maxCacheSize && cache != map[] && MayGo(cache, evicted.value) ==>
              Evicts(cache, maxCacheSize, evicted)
  {
  }

  function CountedAgain(cache: Cache, hash: string): Cache
    requires hash in cache
  {
    cache[hash := cache[hash].(count := cache[hash].count + 1)]
  }

  /** The cache after a signature has been looked up: a known one is counted once more, and nothing else changes;
      a new one enters, at the cost of at most one other. */
  ghost predicate Remembered(cache: Cache, cache': Cache, maxCacheSize: int, sig: Signature, evicted: Option<string>) {
    if sig.hash in cache then evicted.None? && cache' == CountedAgain(cache, sig.hash)
    else Evicts(cache, maxCacheSize, evicted) && cache' == Without(cache, evicted)[sig.hash := sig]
  }

  lemma RemovedSize<K, V>(m: map<K, V>, k: K)
    requires k in m
    ensures |m - {k}| == |m| - 1
  {
    assert (m - {k}).Keys == m.Keys - {k};
  }

  lemma AddedSize<K, V>(m: map<K, V>, k: K, v: V)
    requires k !in m
    ensures |m[k := v]| == |m| + 1
  {
    assert m[k := v].Keys == m.Keys + {k};
  }

  lemma ReplacedSize<K, V>(m: map<K, V>, k: K, v: V)
    requires k in m
    ensures |m[k := v]| == |m|
  {
    assert m[k := v].Keys == m.Keys;
  }

  lemma CountedAgainFits(cache: Cache, maxCacheSize: int, hash: string)
    requires CacheFits(cache, maxCacheSize) && hash in cache
    ensures CacheFits(CountedAgain(cache, hash), maxCacheSize)
  {
    ReplacedSize(cache, hash, cache[hash].(count := cache[hash].count + 1));
  }

  lemma WithoutFits(cache: Cache, maxCacheSize: int, evicted: Option<string>)
    requires CacheFits(cache, maxCacheSize) && Evicts(cache, maxCacheSize, evicted)
    ensures var rest := Without(cache, evicted);
            CacheFits(rest, maxCacheSize) && |rest| < if maxCacheSize > 1 then maxCacheSize else 1
  {
    if evicted.Some? {
      RemovedSize(cache, evicted.value);
    }
  }

  lemma AddedFits(cache: Cache, maxCacheSize: int, sig: Signature)
    requires CacheFits(cache, maxCacheSize) && sig.count == 1 && sig.hash !in cache
    requires |cache| < if maxCacheSize > 1 then maxCacheSize else 1
    ensures CacheFits(cache[sig.hash := sig], maxCacheSize)
  {
    AddedSize(cache, sig.hash, sig);
  }

  /** The cache keeps its bound and its keys. */
  lemma RememberedFits(cache: Cache, cache': Cache, maxCacheSize: int, sig: Signature, evicted: Option<string>)
    requires CacheFits(cache, maxCacheSize) && sig.count == 1 && Remembered(cache, cache', maxCacheSize, sig, evicted)
    ensures CacheFits(cache', maxCacheSize)
  {
    hide CacheFits, Evicts;
    if sig.hash in cache {
      CountedAgainFits(cache, maxCacheSize, sig.hash);
    } else {
      WithoutFits(cache, maxCacheSize, evicted);
      AddedFits(Without(cache, evicted), maxCacheSize, sig);
    }
  }

  /** Every signature but the new one and the one that goes is there afterwards as it was before; nothing else is. */
  lemma OthersStay(cache: Cache, cache': Cache, maxCacheSize: int, sig: Signature, evicted: Option<string>, k: string)
    requires Remembered(cache, cache', maxCacheSize, sig, evicted) && k != sig.hash && evicted != Some(k)
    ensures (k in cache' <==> k in cache) && (k in cache ==> cache'[k] == cache[k])
  {
  }

  /** A signature goes exactly when a new one meets a full cache, and one that was seen once goes if there is any. */
  lemma OnceSeenGoesFirst(cache: Cache, cache': Cache, maxCacheSize: int, sig: Signature, evicted: Option<string>)
    requires Remembered(cache, cache', maxCacheSize, sig, evicted)
    ensures evicted.Some? <==> sig.hash !in cache && |cache| >= maxCacheSize && |cache| > 0
    ensures evicted.Some? ==> evicted.value in cache
    ensures evicted.Some? && (exists k <- cache :: cache[k].count == 1) ==> cache[evicted.value].count == 1
  {
  }
}
