/** The pipeline's result cache (pipeline/PipelineCache.js): entries
    expire after a time-to-live and the least recently used one is evicted
    when the cache is full. `Date.now()` is the parameter `now`; the map
    keeps its keys in insertion order, as a JavaScript `Map` does. */
module PipelineCache {
  import opened Wrappers
  import opened Seqs

  /** A cached pipeline result: its payload and its error list (empty when
      the result carries none). */
  datatype Data = Data(payload: string, errors: seq<string>)

  datatype Entry = Entry(data: Data, timestamp: int, expiry: int, lastAccessed: int)

  /** The keys in insertion order and the entry of each. */
  datatype Cache = Cache(order: seq<string>, entries: map<string, Entry>, hitCount: nat, missCount: nat)

  const MaxSize: nat := 100
  const Ttl: nat := 30 * 60 * 1000

  /** The order lists each key of the map once. */
  ghost predicate Valid(c: Cache)
  {
    Distinct(c.order) && (forall k :: k in c.entries <==> k in c.order)
  }

  function Size(c: Cache): nat
  {
    |c.order|
  }

  const Empty: Cache := Cache([], map[], 0, 0)

  lemma EmptyValid()
    ensures Valid(Empty) && Size(Empty) == 0
  {
  }

  // ---------------------------------------------------------------------
  // Removing keys
  // ---------------------------------------------------------------------

  /** The order without `key`. */
  function RemoveKey(order: seq<string>, key: string): (r: seq<string>)
    ensures forall k :: k in r <==> k in order && k != key
    ensures |r| <= |order|
    ensures Distinct(order) ==> Distinct(r)
    ensures Distinct(order) && key in order ==> |r| == |order| - 1
    ensures key !in order ==> r == order
  {
    if |order| == 0 then []
    else
      var rest := RemoveKey(order[1..], key);
      if order[0] == key then
        assert Distinct(order) ==> key !in order[1..] by {
          if Distinct(order) {
            forall j | 0 <= j < |order[1..]|
              ensures order[1..][j] != key
            {
              assert order[1..][j] == order[j + 1];
            }
          }
        }
        rest
      else
        assert order == [order[0]] + order[1..];
        DistinctCons(order[0], rest, order[1..]);
        [order[0]] + rest
  }

  lemma DistinctCons(x: string, rest: seq<string>, tail: seq<string>)
    requires forall k :: k in rest ==> k in tail
    ensures Distinct([x] + tail) && Distinct(rest) ==> Distinct([x] + rest)
  {
    if Distinct([x] + tail) && Distinct(rest) {
      var s := [x] + rest;
      forall i, j | 0 <= i < j < |s|
        ensures s[i] != s[j]
      {
        if i == 0 {
          assert s[0] == x && s[j] == rest[j - 1] && s[j] in tail;
          var m :| 0 <= m < |tail| && tail[m] == s[j];
          assert ([x] + tail)[0] == x && ([x] + tail)[m + 1] == tail[m];
        } else {
          assert s[i] == rest[i - 1] && s[j] == rest[j - 1];
        }
      }
    }
  }

  /** `this.cache.delete(key)`. */
  function Delete(c: Cache, key: string): (r: Cache)
    requires Valid(c)
    ensures Valid(r)
    ensures r.entries == c.entries - {key}
    ensures Size(r) == if key in c.entries then Size(c) - 1 else Size(c)
    ensures r.hitCount == c.hitCount && r.missCount == c.missCount
  {
    c.(order := RemoveKey(c.order, key), entries := c.entries - {key})
  }

  // ---------------------------------------------------------------------
  // get
  // ---------------------------------------------------------------------

  datatype Lookup = Lookup(cache: Cache, data: Option<Data>)

  /** `get(key)` at time `now`. */
  function Get(c: Cache, key: string, now: int): (r: Lookup)
    requires Valid(c)
    ensures Valid(r.cache)
    ensures key !in c.entries ==> r == Lookup(c.(missCount := c.missCount + 1), None)
    ensures key in c.entries && now > c.entries[key].expiry ==>
      r.data.None? && r.cache.entries == c.entries - {key} && r.cache.missCount == c.missCount + 1
      && r.cache.hitCount == c.hitCount
    ensures key in c.entries && now <= c.entries[key].expiry ==>
      && r.data == Some(c.entries[key].data)
      && r.cache.hitCount == c.hitCount + 1 && r.cache.missCount == c.missCount
      && r.cache.order == c.order
      && r.cache.entries == c.entries[key := c.entries[key].(lastAccessed := now)]
  {
    if key !in c.entries then Lookup(c.(missCount := c.missCount + 1), None)
    else
      var e := c.entries[key];
      if now > e.expiry then
        var d := Delete(c, key);
        Lookup(d.(missCount := d.missCount + 1), None)
      else
        Lookup(c.(entries := c.entries[key := e.(lastAccessed := now)], hitCount := c.hitCount + 1), Some(e.data))
  }

  /** A value stored at time `t` is served until `t + Ttl` and not after. */
  lemma GetAfterSet(c: Cache, key: string, data: Data, t: int, now: int)
    requires Valid(c) && |data.errors| == 0
    ensures var s := Set(c, key, data, t);
      key in s.entries &&
      (Get(s, key, now).data.Some? <==> now <= t + Ttl) &&
      (now <= t + Ttl ==> Get(s, key, now).data == Some(data))
  {
  }

  // ---------------------------------------------------------------------
  // evictLRU and set
  // ---------------------------------------------------------------------

  /** The scan of `evictLRU`: the first key whose `lastAccessed` is below
      every earlier candidate, starting from the bound `oldestTime`. */
  function OldestFrom(order: seq<string>, entries: map<string, Entry>, oldest: Option<string>, oldestTime: int): (r: Option<string>)
    requires forall k :: k in order ==> k in entries
    requires oldest.Some? ==> oldest.value in entries && entries[oldest.value].lastAccessed == oldestTime
    ensures r.Some? ==> r.value in entries
    ensures r.Some? ==> entries[r.value].lastAccessed <= oldestTime
    ensures r.Some? ==> forall k :: k in order ==> entries[r.value].lastAccessed <= entries[k].lastAccessed
    ensures r.Some? ==> r == oldest || r.value in order
    ensures r.Some? && r != oldest ==> entries[r.value].lastAccessed < oldestTime
    ensures r.None? ==> oldest.None? && forall k :: k in order ==> entries[k].lastAccessed >= oldestTime
  {
    if |order| == 0 then oldest
    else
      var k := order[0];
      assert order == [k] + order[1..];
      if entries[k].lastAccessed < oldestTime then OldestFrom(order[1..], entries, Some(k), entries[k].lastAccessed)
      else OldestFrom(order[1..], entries, oldest, oldestTime)
  }

  /** `evictLRU()` as written: the bound starts at `now`, so only an entry
      last used strictly before `now` can go, and `if (oldestKey)` skips the
      empty key. */
  function EvictLru(c: Cache, now: int): (r: Cache)
    requires Valid(c)
    ensures Valid(r)
    ensures Size(c) - 1 <= Size(r) <= Size(c)
    ensures Size(r) == Size(c) - 1 ==>
      exists k :: k in c.entries && k != "" && c.entries[k].lastAccessed < now &&
        r.entries == c.entries - {k} &&
        (forall j :: j in c.entries ==> c.entries[k].lastAccessed <= c.entries[j].lastAccessed)
    ensures "" !in c.entries && (exists k :: k in c.entries && c.entries[k].lastAccessed < now) ==>
      Size(r) == Size(c) - 1
    ensures Size(r) == Size(c) ==> r == c
  {
    match OldestFrom(c.order, c.entries, None, now)
    case Some(k) =>
      if k != "" then
        var r := Delete(c, k);
        assert k in c.order && c.entries[k].lastAccessed < now;
        assert forall j :: j in c.entries ==> j in c.order;
        r
      else c
    case None => c
  }

  /** `set(key, data)` at time `now` as written. */
  function Set(c: Cache, key: string, data: Data, now: int): (r: Cache)
    requires Valid(c)
    ensures Valid(r)
    ensures |data.errors| > 0 ==> r == c
    ensures |data.errors| == 0 ==> key in r.entries && r.entries[key] == Entry(data, now, now + Ttl, now)
    ensures |data.errors| == 0 ==> forall k :: k in r.entries && k != key ==> k in c.entries && r.entries[k] == c.entries[k]
  {
    if |data.errors| > 0 then c
    else
      var c1 := if Size(c) >= MaxSize then EvictLru(c, now) else c;
      var order := if key in c1.entries then c1.order else c1.order + [key];
      DistinctSnoc(c1.order, key);
      c1.(order := order, entries := c1.entries[key := Entry(data, now, now + Ttl, now)])
  }

  lemma DistinctSnoc(s: seq<string>, x: string)
    ensures Distinct(s) && x !in s ==> Distinct(s + [x])
  {
  }

  /** A full cache whose every entry was used at time `now`, all under
      non-empty keys: `evictLRU` finds nothing strictly older than `now`. */
  function FullAt(now: int): (c: Cache)
    ensures Valid(c) && Size(c) == MaxSize
    ensures forall k :: k in c.entries ==> c.entries[k].lastAccessed == now && k != ""
    ensures "new" !in c.entries
  {
    var order := seq(MaxSize, i requires 0 <= i < MaxSize => KeyOf(i));
    KeysDistinct(order);
    assert "new" !in order by {
      forall i | 0 <= i < |order|
        ensures order[i] != "new"
      {
        assert order[i][0] == 'k' && "new"[0] == 'n';
      }
    }
    Cache(order, map k | k in order :: Entry(Data("", []), now, now + Ttl, now), 0, 0)
  }

  /** The key of the `i`-th filler entry: `i + 1` copies of 'k'. */
  function KeyOf(i: nat): (k: string)
    ensures |k| == i + 1 && forall j :: 0 <= j < |k| ==> k[j] == 'k'
  {
    seq(i + 1, _ => 'k')
  }

  lemma KeysDistinct(order: seq<string>)
    requires forall i :: 0 <= i < |order| ==> order[i] == KeyOf(i)
    ensures Distinct(order)
  {
    forall i, j | 0 <= i < j < |order|
      ensures order[i] != order[j]
    {
      assert |order[i]| != |order[j]|;
    }
  }

  /** As written, `set` can overfill the cache: storing a new key into a
      full cache whose entries were all used in the current millisecond
      evicts nothing and leaves 101 entries. */
  lemma SetOverfills(now: int)
    ensures Size(Set(FullAt(now), "new", Data("", []), now)) == MaxSize + 1
  {
    var c := FullAt(now);
    var r := EvictLru(c, now);
    assert Size(r) == Size(c);
  }

  /** The evidently intended eviction: the least recently used entry goes,
      however recent it is. */
  function EvictLruFixed(c: Cache): (r: Cache)
    requires Valid(c)
    ensures Valid(r)
    ensures Size(c) > 0 ==> Size(r) == Size(c) - 1
    ensures Size(c) > 0 ==>
      exists k :: k in c.entries && r.entries == c.entries - {k} &&
        (forall j :: j in c.entries ==> c.entries[k].lastAccessed <= c.entries[j].lastAccessed)
    ensures Size(c) == 0 ==> r == c
  {
    if |c.order| == 0 then c
    else
      var first := c.order[0];
      assert c.order == [first] + c.order[1..];
      match OldestFrom(c.order[1..], c.entries, Some(first), c.entries[first].lastAccessed)
      case Some(k) => Delete(c, k)
  }

  /** `set` with the corrected eviction. */
  function SetFixed(c: Cache, key: string, data: Data, now: int): (r: Cache)
    requires Valid(c)
    ensures Valid(r)
    ensures |data.errors| > 0 ==> r == c
    ensures |data.errors| == 0 ==> key in r.entries && r.entries[key] == Entry(data, now, now + Ttl, now)
    ensures |data.errors| == 0 ==> forall k :: k in r.entries && k != key ==> k in c.entries && r.entries[k] == c.entries[k]
  {
    if |data.errors| > 0 then c
    else
      var c1 := if Size(c) >= MaxSize then EvictLruFixed(c) else c;
      var order := if key in c1.entries then c1.order else c1.order + [key];
      DistinctSnoc(c1.order, key);
      c1.(order := order, entries := c1.entries[key := Entry(data, now, now + Ttl, now)])
  }

  /** With the corrected eviction the cache never holds more than
      `MaxSize` entries. */
  lemma SetFixedBounded(c: Cache, key: string, data: Data, now: int)
    requires Valid(c) && Size(c) <= MaxSize
    ensures Size(SetFixed(c, key, data, now)) <= MaxSize
  {
    var c1 := if Size(c) >= MaxSize then EvictLruFixed(c) else c;
    assert Size(c1) < MaxSize || key in c1.entries;
  }

  // ---------------------------------------------------------------------
  // cleanup
  // ---------------------------------------------------------------------

  predicate Expired(e: Entry, now: int)
  {
    now > e.expiry
  }

  /** The keys of the order whose entries have not expired. */
  function LiveKeys(order: seq<string>, entries: map<string, Entry>, now: int): (r: seq<string>)
    requires forall k :: k in order ==> k in entries
    ensures forall k :: k in r <==> k in order && !Expired(entries[k], now)
    ensures |r| <= |order|
    ensures Distinct(order) ==> Distinct(r)
  {
    if |order| == 0 then []
    else
      var rest := LiveKeys(order[1..], entries, now);
      assert order == [order[0]] + order[1..];
      if Expired(entries[order[0]], now) then rest
      else
        DistinctCons(order[0], rest, order[1..]);
        [order[0]] + rest
  }

  /** `cleanup()` at time `now`: the cache without its expired entries, and
      how many were removed. */
  function Cleanup(c: Cache, now: int): (r: (Cache, nat))
    requires Valid(c)
    ensures Valid(r.0)
    ensures r.0.entries == map k | k in c.entries && !Expired(c.entries[k], now) :: c.entries[k]
    ensures r.1 + Size(r.0) == Size(c)
    ensures r.0.hitCount == c.hitCount && r.0.missCount == c.missCount
  {
    var live := LiveKeys(c.order, c.entries, now);
    var order := c.order;
    SubsetLength(live, order);
    (c.(order := live, entries := map k | k in c.entries && !Expired(c.entries[k], now) :: c.entries[k]), |order| - |live|)
  }

  /** A repetition-free list whose members all occur in another
      repetition-free list is no longer. */
  lemma SubsetLength(a: seq<string>, b: seq<string>)
    requires Distinct(a) && Distinct(b) && forall k :: k in a ==> k in b
    ensures |a| <= |b|
  {
    var sa := set k | k in a;
    var sb := set k | k in b;
    assert sa <= sb;
    DistinctCard(a);
    DistinctCard(b);
    SubsetCard(sa, sb);
  }

  lemma {:induction false} SubsetCard(a: set<string>, b: set<string>)
    requires a <= b
    ensures |a| <= |b|
    decreases |a|
  {
    if a != {} {
      var x :| x in a;
      SubsetCard(a - {x}, b - {x});
    }
  }

  lemma {:induction false} DistinctCard(s: seq<string>)
    requires Distinct(s)
    ensures |set k | k in s| == |s|
    decreases |s|
  {
    if |s| > 0 {
      var t := s[1..];
      assert Distinct(t) by {
        forall i, j | 0 <= i < j < |t|
          ensures t[i] != t[j]
        {
          assert t[i] == s[i + 1] && t[j] == s[j + 1];
        }
      }
      DistinctCard(t);
      assert s[0] !in t by {
        forall j | 0 <= j < |t|
          ensures t[j] != s[0]
        {
          assert t[j] == s[j + 1];
        }
      }
      assert (set k | k in s) == (set k | k in t) + {s[0]} by {
        assert s == [s[0]] + t;
      }
    }
  }

  /** Cleaning twice at the same time removes nothing the second time. */
  lemma CleanupIdempotent(c: Cache, now: int)
    requires Valid(c)
    ensures Cleanup(Cleanup(c, now).0, now).0 == Cleanup(c, now).0
    ensures Cleanup(Cleanup(c, now).0, now).1 == 0
  {
    var c1 := Cleanup(c, now).0;
    LiveKeysAll(c1.order, c1.entries, now);
  }

  lemma {:induction false} LiveKeysAll(order: seq<string>, entries: map<string, Entry>, now: int)
    requires forall k :: k in order ==> k in entries && !Expired(entries[k], now)
    ensures LiveKeys(order, entries, now) == order
    decreases |order|
  {
    if |order| > 0 {
      assert order[0] in order;
      LiveKeysAll(order[1..], entries, now);
    }
  }

  // ---------------------------------------------------------------------
  // sanitizeOptions
  // ---------------------------------------------------------------------

  const KeysToKeep: seq<string> := ["chunkMethod", "chunkSize", "qualityThreshold", "temperature"]

  /** `sanitizeOptions(options)`: the kept options present, in the fixed
      order of `keysToKeep`, so that the cache key does not depend on the
      order or on any other option. Values are abstract strings. */
  function SanitizeOptions(options: Option<map<string, string>>): (r: seq<(string, string)>)
    ensures forall i :: 0 <= i < |r| ==> r[i].0 in KeysToKeep && options.Some? && r[i].0 in options.value && r[i].1 == options.value[r[i].0]
    ensures options.Some? ==> forall k :: k in KeysToKeep && k in options.value ==> exists i :: 0 <= i < |r| && r[i].0 == k
  {
    if options.None? then [] else KeepFrom(KeysToKeep, options.value)
  }

  function KeepFrom(keys: seq<string>, options: map<string, string>): (r: seq<(string, string)>)
    ensures forall i :: 0 <= i < |r| ==> r[i].0 in keys && r[i].0 in options && r[i].1 == options[r[i].0]
    ensures forall k :: k in keys && k in options ==> exists i :: 0 <= i < |r| && r[i].0 == k
  {
    if |keys| == 0 then []
    else
      var rest := KeepFrom(keys[1..], options);
      var r := if keys[0] in options then [(keys[0], options[keys[0]])] + rest else rest;
      forall k | k in keys && k in options
        ensures exists i :: 0 <= i < |r| && r[i].0 == k
      {
        if k == keys[0] {
          assert r[0].0 == k;
        } else {
          assert k in keys[1..];
          var i :| 0 <= i < |rest| && rest[i].0 == k;
          if keys[0] in options { assert r[i + 1] == rest[i]; } else { assert r[i] == rest[i]; }
        }
      }
      r
  }

  /** Options that agree on the four kept keys give the same sanitized
      options, hence the same cache key. */
  lemma SanitizeIgnoresOthers(a: map<string, string>, b: map<string, string>)
    requires forall k :: k in KeysToKeep ==> (k in a <==> k in b) && (k in a ==> a[k] == b[k])
    ensures SanitizeOptions(Some(a)) == SanitizeOptions(Some(b))
  {
    KeepAgree(KeysToKeep, a, b);
  }

  lemma {:induction false} KeepAgree(keys: seq<string>, a: map<string, string>, b: map<string, string>)
    requires forall k :: k in keys ==> (k in a <==> k in b) && (k in a ==> a[k] == b[k])
    ensures KeepFrom(keys, a) == KeepFrom(keys, b)
    decreases |keys|
  {
    if |keys| > 0 {
      assert keys[0] in keys;
      KeepAgree(keys[1..], a, b);
    }
  }

  // ---------------------------------------------------------------------
  // Clearing and statistics

  /** `clear()`: no entries and both counters back to zero. */
  function Clear(c: Cache): (r: Cache)
    ensures Valid(r) && Size(r) == 0 && r.entries == map[]
    ensures r.hitCount == 0 && r.missCount == 0
  {
    Empty
  }

  /** The hit rate of `getStats()` as a percentage, absent before any
      lookup. */
  function HitPercent(c: Cache): (p: Option<real>)
    ensures p.None? <==> c.hitCount + c.missCount == 0
    ensures p.Some? ==> 0.0 <= p.value <= 100.0
    ensures p.Some? && c.missCount == 0 ==> p.value == 100.0
  {
    var total := c.hitCount + c.missCount;
    if total > 0 then
      RatioBounds(c.hitCount, c.missCount);
      Some(c.hitCount as real / total as real * 100.0)
    else None
  }

  /** Hits over lookups lies between none and all, and is all when nothing
      was missed. */
  lemma RatioBounds(hits: nat, misses: nat)
    requires hits + misses > 0
    ensures var q := hits as real / (hits + misses) as real;
      0.0 <= q <= 1.0 && (misses == 0 ==> q == 1.0)
  {
    var t := (hits + misses) as real;
    var q := hits as real / t;
    assert q * t == hits as real;
    assert (1.0 - q) * t == misses as real;
  }

  /** `hitRate`: "0%" before any lookup, otherwise the percentage with two
      decimals (`toFixed` stands for `Number.prototype.toFixed(2)`). */
  function HitRate(c: Cache, toFixed: real -> string): (r: string)
    ensures c.hitCount + c.missCount == 0 ==> r == "0%"
    ensures c.hitCount + c.missCount > 0 ==> r == toFixed(HitPercent(c).value) + "%"
  {
    match HitPercent(c)
    case None => "0%"
    case Some(p) => toFixed(p) + "%"
  }

  /** A lookup of a key counts exactly one hit or one miss, so after any
      lookup the rate is defined. */
  lemma GetCounts(c: Cache, key: string, now: int)
    requires Valid(c)
    ensures var r := Get(c, key, now);
      && r.cache.hitCount + r.cache.missCount == c.hitCount + c.missCount + 1
      && HitPercent(r.cache).Some?
      && (r.data.Some? <==> r.cache.hitCount == c.hitCount + 1)
  {
  }
}
