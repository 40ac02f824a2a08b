/** The dataset cache over the browser's indexed store: a keyed store of datasets
    with a size budget, least-recently-used eviction in timestamp order, usage
    statistics, and the cache key derived from a parquet file and a gene list. The
    store itself is modelled as a sequence of records with distinct keys; the clock
    and the size estimate are parameters. */
module DatasetCache {
  import opened Common
  import opened ScoreOrder
  import opened AnnotationList

  /** One stored dataset. `data` stands for the rows as stored. */
  datatype CachedDataset = CachedDataset(key: string, data: seq<string>, timestamp: real, size: nat, query: string)

  /** The cache's budget: 500 MiB. */
  const MaxSize: nat := 500 * 1024 * 1024

  predicate DistinctKeys(items: seq<CachedDataset>) {
    forall i, j :: 0 <= i < j < |items| ==> items[i].key != items[j].key
  }

  /** The record stored under `key`, if any. */
  function Lookup(items: seq<CachedDataset>, key: string): (r: Option<CachedDataset>)
    ensures r.None? <==> forall i :: 0 <= i < |items| ==> items[i].key != key
    ensures r.Some? ==> r.value in items && r.value.key == key
  {
    if items == [] then None
    else if items[0].key == key then Some(items[0])
    else
      var rest := Lookup(items[1..], key);
      assert forall i :: 1 <= i < |items| ==> items[1..][i - 1] == items[i];
      rest
  }

  /** `updateTimestamp`: the record under `key` (if any) gets the new timestamp;
      nothing else changes. */
  function Touch(items: seq<CachedDataset>, key: string, now: real): (r: seq<CachedDataset>)
    ensures |r| == |items|
    ensures forall i :: 0 <= i < |items| ==>
      r[i] == if items[i].key == key then items[i].(timestamp := now) else items[i]
  {
    seq(|items|, i requires 0 <= i < |items| =>
      if items[i].key == key then items[i].(timestamp := now) else items[i])
  }

  /** `store.put`: the record replaces the one with its key, or is added. */
  function Put(items: seq<CachedDataset>, d: CachedDataset): (r: seq<CachedDataset>)
    requires DistinctKeys(items)
    ensures DistinctKeys(r)
    ensures Lookup(r, d.key) == Some(d)
    ensures forall k :: k != d.key ==> Lookup(r, k) == Lookup(items, k)
  {
    if items == [] then [d]
    else if items[0].key == d.key then
      assert forall i :: 1 <= i < |items| ==> items[i].key != d.key;
      [d] + items[1..]
    else
      var rest := Put(items[1..], d);
      assert forall i :: 1 <= i < |items| ==> items[1..][i - 1] == items[i];
      var r := [items[0]] + rest;
      assert forall i :: 1 <= i < |r| ==> r[i] == rest[i - 1];
      forall j | 1 <= j < |r| ensures r[0].key != r[j].key {
        var k := r[j].key;
        if k != d.key {
          assert Lookup(rest, k) == Lookup(items[1..], k);
        }
      }
      r
  }

  /** The store without the records whose key is listed. */
  function Without(items: seq<CachedDataset>, keys: seq<string>): seq<CachedDataset> {
    Filter(items, (d: CachedDataset) => d.key !in keys)
  }

  /** The store without the record under `k` (`store.delete(key)`). */
  function Remove(items: seq<CachedDataset>, k: string): seq<CachedDataset> {
    Filter(items, (d: CachedDataset) => d.key != k)
  }

  /** Removing no keys removes nothing. */
  lemma WithoutNothing(items: seq<CachedDataset>)
    ensures Without(items, []) == items
  {
    FilterKeepsAllIff(items, (d: CachedDataset) => d.key !in []);
  }

  /** Removing keys keeps the remaining records' keys distinct. */
  lemma {:induction false} WithoutDistinct(items: seq<CachedDataset>, keys: seq<string>)
    requires DistinctKeys(items)
    ensures DistinctKeys(Without(items, keys))
  {
    if items != [] {
      var init := items[..|items| - 1];
      assert forall i :: 0 <= i < |init| ==> init[i] == items[i];
      WithoutDistinct(init, keys);
      var last := items[|items| - 1];
      forall d | d in Without(init, keys) ensures d.key != last.key {
        var k :| 0 <= k < |init| && init[k] == d;
      }
    }
  }

  /** Deleting one more key is filtering by the longer key list. */
  lemma WithoutSnoc(items: seq<CachedDataset>, keys: seq<string>, k: string)
    ensures Remove(Without(items, keys), k) == Without(items, keys + [k])
  {
    var f := (d: CachedDataset) => d.key !in keys;
    var g := (d: CachedDataset) => d.key != k;
    FilterFilter(items, f, g);
    FilterExt(items, Both(f, g), (d: CachedDataset) => d.key !in keys + [k]);
  }

  // ---------------------------------------------------------------------------
  // Statistics

  /** The sum of the record sizes. */
  function SumSizes(items: seq<CachedDataset>): nat {
    if items == [] then 0 else SumSizes(items[..|items| - 1]) + items[|items| - 1].size
  }

  function Timestamps(items: seq<CachedDataset>): (r: seq<real>)
    ensures |r| == |items| && forall i :: 0 <= i < |items| ==> r[i] == items[i].timestamp
  {
    seq(|items|, i requires 0 <= i < |items| => items[i].timestamp)
  }

  datatype Stats = Stats(totalItems: nat, totalSize: nat, oldestItem: real, newestItem: real)

  /** `getStats`: the number of records, the sum of their sizes, and the least and
      greatest timestamp (both `0` for an empty store). */
  function StatsOf(items: seq<CachedDataset>): (s: Stats)
    ensures s.totalItems == |items| && s.totalSize == SumSizes(items)
    ensures items == [] ==> s.oldestItem == 0.0 && s.newestItem == 0.0
    ensures forall i :: 0 <= i < |items| ==> s.oldestItem <= items[i].timestamp <= s.newestItem
    ensures items != [] ==>
      (exists i :: 0 <= i < |items| && items[i].timestamp == s.oldestItem) &&
      (exists i :: 0 <= i < |items| && items[i].timestamp == s.newestItem)
  {
    var ts := Timestamps(items);
    if |ts| > 0 then Stats(|items|, SumSizes(items), SeqMin(ts), SeqMax(ts))
    else Stats(|items|, SumSizes(items), 0.0, 0.0)
  }

  /** The sizes of the records an eviction keeps and of those it drops add up to the
      size before. */
  lemma {:induction false} SumSizesAppend(a: seq<CachedDataset>, b: seq<CachedDataset>)
    ensures SumSizes(a + b) == SumSizes(a) + SumSizes(b)
  {
    if b != [] {
      assert (a + b)[..|a + b| - 1] == a + b[..|b| - 1];
      SumSizesAppend(a, b[..|b| - 1]);
    } else {
      assert a + b == a;
    }
  }

  // ---------------------------------------------------------------------------
  // Eviction

  /** The timestamp index's cursor order: the records by ascending timestamp. */
  function CursorOrder(items: seq<CachedDataset>): (r: seq<CachedDataset>)
    ensures Ordered(r, (d: CachedDataset) => d.timestamp, true)
    ensures multiset(r) == multiset(items)
  {
    SortByKey(items, (d: CachedDataset) => d.timestamp, true)
  }

  /** The keys of a sequence of records. */
  function Keys(items: seq<CachedDataset>): (r: seq<string>)
    ensures |r| == |items| && forall i :: 0 <= i < |items| ==> r[i] == items[i].key
  {
    seq(|items|, i requires 0 <= i < |items| => items[i].key)
  }

  /** How many records, from position `i` of the cursor on, the eviction walk takes:
      it stops at the first position where the store (less the records taken) plus
      the new dataset fits, or when the cursor runs out. */
  function EvictCount(cursor: seq<CachedDataset>, total: int, required: int, i: nat): (n: nat)
    requires i <= |cursor|
    ensures i <= n <= |cursor|
    decreases |cursor| - i
  {
    if i < |cursor| && total - SumSizes(cursor[..i]) + required > MaxSize then
      EvictCount(cursor, total, required, i + 1)
    else i
  }

  /** The walk takes exactly the shortest prefix after which the new dataset fits,
      or every record when none does. */
  lemma {:induction false} EvictCountMinimal(cursor: seq<CachedDataset>, total: int, required: int, i: nat)
    requires i <= |cursor|
    ensures var n := EvictCount(cursor, total, required, i);
      forall m :: i <= m < n ==> total - SumSizes(cursor[..m]) + required > MaxSize
    ensures var n := EvictCount(cursor, total, required, i);
      n == |cursor| || total - SumSizes(cursor[..n]) + required <= MaxSize
    decreases |cursor| - i
  {
    if i < |cursor| && total - SumSizes(cursor[..i]) + required > MaxSize {
      EvictCountMinimal(cursor, total, required, i + 1);
    }
  }

  /** Taking one more record off the cursor adds its size and its key. */
  lemma TakeOneMore(records: seq<CachedDataset>, i: nat)
    requires i < |records|
    ensures SumSizes(records[..i + 1]) == SumSizes(records[..i]) + records[i].size
    ensures Keys(records[..i + 1]) == Keys(records[..i]) + [records[i].key]
  {
    assert records[..i + 1][..i] == records[..i];
  }

  /** The walk of `ensureSpace` over records in cursor order: keys are collected,
      each record's size taken off `total`, until `required` fits or the records
      run out. */
  method EvictionKeys(records: seq<CachedDataset>, total: int, required: int)
    returns (keys: seq<string>)
    ensures keys == Keys(records[..EvictCount(records, total, required, 0)])
  {
    keys := [];
    var currentSize := total;
    var i := 0;
    while i < |records| && currentSize + required > MaxSize
      invariant 0 <= i <= |records|
      invariant currentSize == total - SumSizes(records[..i])
      invariant keys == Keys(records[..i])
      invariant EvictCount(records, total, required, 0) == EvictCount(records, total, required, i)
      decreases |records| - i
    {
      TakeOneMore(records, i);
      keys := keys + [records[i].key];
      currentSize := currentSize - records[i].size;
      i := i + 1;
    }
    assert EvictCount(records, total, required, i) == i;
  }

  /** A dataset that already fits evicts nothing. */
  lemma FitsEvictsNothing(items: seq<CachedDataset>, required: int)
    requires SumSizes(items) + required <= MaxSize
    ensures EvictCount(CursorOrder(items), SumSizes(items), required, 0) == 0
  {
    assert CursorOrder(items)[..0] == [];
  }

  // ---------------------------------------------------------------------------
  // Cache key

  /** `ToInt32`: the integer in `[-2^31, 2^31)` congruent to `x` modulo `2^32`. */
  function ToInt32(x: int): (r: int)
    ensures -0x8000_0000 <= r < 0x8000_0000
    ensures (r - x) % 0x1_0000_0000 == 0
  {
    var m := x % 0x1_0000_0000;
    if m >= 0x8000_0000 then m - 0x1_0000_0000 else m
  }

  /** Two integers congruent modulo `2^32` convert alike. */
  lemma ToInt32Congruent(x: int, y: int)
    requires (x - y) % 0x1_0000_0000 == 0
    ensures ToInt32(x) == ToInt32(y)
  {
    var k := (x - y) / 0x1_0000_0000;
    assert x == y + k * 0x1_0000_0000;
    assert x % 0x1_0000_0000 == y % 0x1_0000_0000;
  }

  /** One step of the key hash on a 32-bit `hash`: `((hash << 5) - hash) + char`,
      then `hash & hash`, each bitwise operator converting to a signed 32-bit value. */
  function HashStep(hash: int, c: char): int {
    var shifted := ToInt32(hash * 32);
    var sum := (shifted - hash) + c as int;
    ToInt32(sum)
  }

  /** The step is `31 * hash + char` wrapped to 32 bits. */
  lemma HashStepIsTimes31(hash: int, c: char)
    ensures HashStep(hash, c) == ToInt32(31 * hash + c as int)
  {
    var shifted := ToInt32(hash * 32);
    var sum := (shifted - hash) + c as int;
    assert (sum - (31 * hash + c as int)) % 0x1_0000_0000 == (shifted - hash * 32) % 0x1_0000_0000;
    ToInt32Congruent(sum, 31 * hash + c as int);
  }

  /** The hash of a string: `0`, then one step per character code. */
  function Hash(s: string): (h: int)
    ensures -0x8000_0000 <= h < 0x8000_0000
  {
    if s == [] then 0 else HashStep(Hash(s[..|s| - 1]), s[|s| - 1])
  }

  /** Strings in the default sort order (code-unit lexicographic). */
  predicate SortedStrings(s: seq<string>) {
    forall i, j :: 0 <= i < j < |s| ==> LexLe(s[i], s[j])
  }

  function InsertString(x: string, s: seq<string>): (r: seq<string>)
    requires SortedStrings(s)
    ensures SortedStrings(r)
    ensures multiset(r) == multiset(s) + multiset{x}
  {
    if s == [] then [x]
    else if LexLe(x, s[0]) then
      SortedCons(x, s);
      [x] + s
    else
      LexTotal(x, s[0]);
      var rest := InsertString(x, s[1..]);
      assert s == [s[0]] + s[1..];
      HeadBeforeRest(x, s, rest);
      SortedCons(s[0], rest);
      [s[0]] + rest
  }

  /** A string ordered before the first of a sorted list may be put in front. */
  lemma SortedCons(y: string, r: seq<string>)
    requires SortedStrings(r)
    requires r == [] || LexLe(y, r[0])
    ensures SortedStrings([y] + r)
  {
    forall i, j | 0 <= i < j < |[y] + r| ensures LexLe(([y] + r)[i], ([y] + r)[j]) {
      assert ([y] + r)[j] == r[j - 1];
      if i > 0 {
        assert ([y] + r)[i] == r[i - 1];
      } else if j > 1 {
        LexTrans(y, r[0], r[j - 1]);
      }
    }
  }

  /** When `x` goes behind the head, the head is ordered before everything the
      insert into the tail holds. */
  lemma HeadBeforeRest(x: string, s: seq<string>, rest: seq<string>)
    requires s != [] && SortedStrings(s) && LexLe(s[0], x)
    requires multiset(rest) == multiset(s[1..]) + multiset{x}
    ensures forall j :: 0 <= j < |rest| ==> LexLe(s[0], rest[j])
  {
    forall j | 0 <= j < |rest| ensures LexLe(s[0], rest[j]) {
      assert rest[j] in multiset(rest);
      if rest[j] != x {
        assert rest[j] in multiset(s[1..]);
        var k :| 0 <= k < |s[1..]| && s[1..][k] == rest[j];
        assert s[k + 1] == rest[j];
      }
    }
  }

  /** `[...genes].sort()`: a sorted copy with the same strings. */
  function SortStrings(s: seq<string>): (r: seq<string>)
    ensures SortedStrings(r)
    ensures multiset(r) == multiset(s)
  {
    if s == [] then []
    else
      assert s == [s[0]] + s[1..];
      InsertString(s[0], SortStrings(s[1..]))
  }

  /** The tail of a sorted sequence is sorted. */
  lemma SortedTail(s: seq<string>)
    requires SortedStrings(s) && s != []
    ensures SortedStrings(s[1..])
  {
    forall i, j | 0 <= i < j < |s[1..]| ensures LexLe(s[1..][i], s[1..][j]) {
      assert s[1..][i] == s[i + 1] && s[1..][j] == s[j + 1];
    }
  }

  /** The head of a sorted sequence is no later than any of its strings. */
  lemma SortedHeadFirst(s: seq<string>, x: string)
    requires SortedStrings(s) && x in s
    ensures LexLe(s[0], x)
  {
    var i :| 0 <= i < |s| && s[i] == x;
    if i == 0 {
      LexTotal(x, x);
    }
  }

  /** Two sorted sequences of the same strings are equal. */
  lemma {:induction false} SortedUnique(a: seq<string>, b: seq<string>)
    requires SortedStrings(a) && SortedStrings(b) && multiset(a) == multiset(b)
    ensures a == b
  {
    if a != [] {
      assert a[0] in multiset(a);
      assert b != [];
      assert b[0] in multiset(b);
      SortedHeadFirst(b, a[0]);
      SortedHeadFirst(a, b[0]);
      LexAntisym(a[0], b[0]);
      assert a == [a[0]] + a[1..] && b == [b[0]] + b[1..];
      assert multiset(a[1..]) == multiset(b[1..]) by {
        assert multiset(a) == multiset{a[0]} + multiset(a[1..]);
        assert multiset(b) == multiset{a[0]} + multiset(b[1..]);
        forall y ensures multiset(a[1..])[y] == multiset(b[1..])[y] {
          assert multiset(a)[y] == multiset(b)[y];
        }
      }
      SortedTail(a);
      SortedTail(b);
      SortedUnique(a[1..], b[1..]);
    }
  }

  /** The text the key hashes: file, sorted genes joined by `_`, highlighted gene. */
  function KeyData(parquetFile: string, genes: seq<string>, highlightedGene: string): string {
    parquetFile + "_" + Join(SortStrings(genes), "_") + "_" + highlightedGene
  }

  /** `generateCacheKey`: `dataset_` followed by the base-36 spelling of the absolute
      value of the hash of the key text. */
  function CacheKey(parquetFile: string, genes: seq<string>, highlightedGene: string): (key: string)
    ensures |key| > 8 && key[..8] == "dataset_"
    ensures var h := Hash(KeyData(parquetFile, genes, highlightedGene));
      FromDigits(key[8..], 36) == Some(if h < 0 then -h else h)
  {
    var h := Hash(KeyData(parquetFile, genes, highlightedGene));
    var n: nat := if h < 0 then -h else h;
    DigitsRoundTrip(n, 36);
    var key := "dataset_" + ToDigits(n, 36);
    assert key[8..] == ToDigits(n, 36);
    key
  }

  /** The key does not depend on the order in which the genes are listed. */
  lemma CacheKeyIgnoresGeneOrder(parquetFile: string, g1: seq<string>, g2: seq<string>, highlightedGene: string)
    requires multiset(g1) == multiset(g2)
    ensures CacheKey(parquetFile, g1, highlightedGene) == CacheKey(parquetFile, g2, highlightedGene)
  {
    SortedUnique(SortStrings(g1), SortStrings(g2));
  }

  /** The key computation: the hash loop over the key text's character codes. */
  method GenerateCacheKey(parquetFile: string, genes: seq<string>, highlightedGene: string) returns (key: string)
    ensures key == CacheKey(parquetFile, genes, highlightedGene)
  {
    var sortedGenes := SortStrings(genes);
    var keyData := parquetFile + "_" + Join(sortedGenes, "_") + "_" + highlightedGene;
    var hash := HashLoop(keyData);
    var n: nat := if hash < 0 then -hash else hash;
    key := "dataset_" + ToDigits(n, 36);
  }

  /** The hashing loop of `generateCacheKey`: `((hash << 5) - hash) + char`, then
      `hash & hash`, once per character. */
  method HashLoop(keyData: string) returns (hash: int)
    ensures hash == Hash(keyData)
  {
    hash := 0;
    for i := 0 to |keyData|
      invariant hash == Hash(keyData[..i])
    {
      assert keyData[..i + 1][..i] == keyData[..i];
      var c := keyData[i];
      hash := ToInt32(ToInt32(hash * 32) - hash + c as int);
    }
    assert keyData[..|keyData|] == keyData;
  }

  // ---------------------------------------------------------------------------
  // The cache

  class Cache {
    /** Whether the database has been opened. */
    var initialized: bool
    /** The object store's records. */
    var items: seq<CachedDataset>

    ghost predicate Valid()
      reads this
    {
      DistinctKeys(items)
    }

    constructor ()
      ensures Valid() && !initialized && items == []
    {
      initialized := false;
      items := [];
    }

    /** `initialize`: opens the database; the records are those already stored. */
    method Initialize()
      modifies this
      ensures initialized && items == old(items)
    {
      initialized := true;
    }

    /** `get`: a miss gives nothing and changes nothing; a hit gives the stored rows
        and marks the record as used now. */
    method Get(key: string, now: real) returns (r: Option<seq<string>>)
      requires Valid()
      modifies this
      ensures Valid() && initialized
      ensures Lookup(old(items), key).None? ==> r.None? && items == old(items)
      ensures Lookup(old(items), key).Some? ==>
        r == Some(Lookup(old(items), key).value.data) && items == Touch(old(items), key, now)
    {
      if !initialized {
        Initialize();
      }
      var result := Lookup(items, key);
      if result.Some? {
        UpdateTimestamp(key, now);
        r := Some(result.value.data);
      } else {
        r := None;
      }
    }

    /** `updateTimestamp`: the record under `key`, if any, gets the timestamp `now`. */
    method UpdateTimestamp(key: string, now: real)
      requires Valid()
      modifies this
      ensures Valid() && initialized == old(initialized)
      ensures !old(initialized) ==> items == old(items)
      ensures old(initialized) ==> items == Touch(old(items), key, now)
    {
      if !initialized {
        return;
      }
      ghost var before := items;
      items := Touch(items, key, now);
      assert Keys(items) == Keys(before);
    }

    /** `getStats` over the current records. */
    method GetStats() returns (s: Stats)
      requires Valid()
      modifies this
      ensures Valid() && initialized && items == old(items)
      ensures s == StatsOf(items)
    {
      if !initialized {
        Initialize();
      }
      s := StatsOf(items);
    }

    /** `deleteMultiple`: nothing for no keys; otherwise each listed key is deleted. */
    method DeleteMultiple(keys: seq<string>)
      requires Valid()
      modifies this
      ensures Valid() && initialized == old(initialized)
      ensures items == Without(old(items), keys)
    {
      if |keys| == 0 {
        WithoutNothing(items);
        return;
      }
      ghost var start := items;
      WithoutNothing(start);
      for j := 0 to |keys|
        invariant items == Without(start, keys[..j])
        invariant initialized == old(initialized)
      {
        WithoutSnoc(start, keys[..j], keys[j]);
        assert keys[..j + 1] == keys[..j] + [keys[j]];
        items := Remove(items, keys[j]);
      }
      assert keys[..|keys|] == keys;
      WithoutDistinct(start, keys);
    }

    /** `ensureSpace`: nothing when the store plus the new dataset fits the budget;
        otherwise the walk over the records by ascending timestamp collects keys,
        taking each record's size off, until the new dataset fits or the records run
        out, and the collected records are deleted. */
    method EnsureSpace(requiredSize: nat)
      requires Valid()
      modifies this
      ensures Valid() && initialized
      ensures var cursor := CursorOrder(old(items));
        items == Without(old(items), Keys(cursor[..EvictCount(cursor, SumSizes(old(items)), requiredSize, 0)]))
    {
      var stats := GetStats();
      ghost var cursor := CursorOrder(items);
      if stats.totalSize + requiredSize <= MaxSize {
        FitsEvictsNothing(items, requiredSize);
        assert Keys(cursor[..0]) == [];
        WithoutNothing(items);
        return;
      }
      var records := CursorOrder(items);
      var itemsToRemove := EvictionKeys(records, stats.totalSize, requiredSize);
      DeleteMultiple(itemsToRemove);
    }

    /** `set`: makes room for the dataset by the eviction of `ensureSpace`, then
        stores it under its key with the current time; nothing else changes. */
    method Set(key: string, data: seq<string>, query: string, now: real, size: nat)
      requires Valid()
      modifies this
      ensures Valid() && initialized
      ensures Lookup(items, key) == Some(CachedDataset(key, data, now, size, query))
      ensures var cursor := CursorOrder(old(items));
        var kept := Without(old(items), Keys(cursor[..EvictCount(cursor, SumSizes(old(items)), size, 0)]));
        DistinctKeys(kept) && items == Put(kept, CachedDataset(key, data, now, size, query))
    {
      if !initialized {
        Initialize();
      }
      var cachedDataset := CachedDataset(key, data, now, size, query);
      EnsureSpace(cachedDataset.size);
      items := Put(items, cachedDataset);
    }

    /** `delete`: the record under `key` is removed. */
    method Delete(key: string)
      requires Valid()
      modifies this
      ensures Valid() && initialized
      ensures items == Without(old(items), [key])
      ensures Lookup(items, key).None?
    {
      if !initialized {
        Initialize();
      }
      WithoutDistinct(items, [key]);
      WithoutNothing(items);
      WithoutSnoc(items, [], key);
      assert [] + [key] == [key];
      items := Remove(items, key);
    }

    /** `clear`: every record is removed. */
    method Clear()
      modifies this
      ensures Valid() && initialized && items == []
    {
      if !initialized {
        Initialize();
      }
      items := [];
    }
  }
}
