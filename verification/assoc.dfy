/** Insertion-ordered dictionaries from strings to lists, as Python's `dict`
    keeps them: a key appears once, in the order it was first inserted. */
module Assoc {
  import opened Wrappers
  import opened Seqs

  datatype Entry<V> = Entry(key: string, values: seq<V>)

  function Keys<V>(d: seq<Entry<V>>): (r: seq<string>)
    ensures |r| == |d|
    ensures forall i :: 0 <= i < |d| ==> r[i] == d[i].key
  {
    if |d| == 0 then [] else [d[0].key] + Keys(d[1..])
  }

  lemma KeysCons<V>(e: Entry<V>, d: seq<Entry<V>>)
    ensures Keys([e] + d) == [e.key] + Keys(d)
  {
    assert ([e] + d)[1..] == d;
  }

  /** The list stored under `key`, empty when the key is absent. */
  function Lookup<V>(d: seq<Entry<V>>, key: string): seq<V>
  {
    if |d| == 0 then []
    else if d[0].key == key then d[0].values
    else Lookup(d[1..], key)
  }

  /** Every key appears once and every stored list is non-empty. */
  predicate WellFormed<V>(d: seq<Entry<V>>)
  {
    Distinct(Keys(d)) && forall i :: 0 <= i < |d| ==> |d[i].values| > 0
  }

  /** `d.setdefault(key, []).append(v)`. */
  function AppendValue<V>(d: seq<Entry<V>>, key: string, v: V): (r: seq<Entry<V>>)
    ensures Keys(r) == if key in Keys(d) then Keys(d) else Keys(d) + [key]
    ensures forall i :: 0 <= i < |d| ==> r[i].key == d[i].key
    ensures forall i :: 0 <= i < |d| && d[i].key != key ==> r[i] == d[i]
    ensures forall i :: 0 <= i < |r| ==> (i < |d| && r[i] == d[i]) || |r[i].values| > 0
  {
    if |d| == 0 then [Entry(key, [v])]
    else if d[0].key == key then [Entry(key, d[0].values + [v])] + d[1..]
    else
      var rest := AppendValue(d[1..], key, v);
      KeysCons(d[0], d[1..]);
      KeysCons(d[0], rest);
      assert d == [d[0]] + d[1..];
      [d[0]] + rest
  }

  /** `if key not in d: d[key] = [v]`. */
  function PutIfAbsent<V>(d: seq<Entry<V>>, key: string, v: V): (r: seq<Entry<V>>)
    ensures Keys(r) == if key in Keys(d) then Keys(d) else Keys(d) + [key]
    ensures key in Keys(d) ==> r == d
  {
    if key in Keys(d) then d else d + [Entry(key, [v])]
  }

  lemma {:induction false} LookupAppend<V>(d: seq<Entry<V>>, key: string, v: V, k: string)
    ensures Lookup(AppendValue(d, key, v), k) == if k == key then Lookup(d, k) + [v] else Lookup(d, k)
    decreases |d|
  {
    if |d| > 0 && d[0].key != key {
      LookupAppend(d[1..], key, v, k);
    }
  }

  lemma {:induction false} LookupPut<V>(d: seq<Entry<V>>, key: string, v: V, k: string)
    ensures Lookup(PutIfAbsent(d, key, v), k) ==
      if k == key && key !in Keys(d) then [v] else Lookup(d, k)
    decreases |d|
  {
    if key !in Keys(d) {
      LookupSnoc(d, Entry(key, [v]), k);
    }
  }

  lemma {:induction false} LookupSnoc<V>(d: seq<Entry<V>>, e: Entry<V>, k: string)
    requires e.key !in Keys(d)
    ensures Lookup(d + [e], k) == if k == e.key then e.values else Lookup(d, k)
    decreases |d|
  {
    if |d| == 0 {
      assert d + [e] == [e];
    } else {
      assert (d + [e])[1..] == d[1..] + [e];
      assert Keys(d) == [d[0].key] + Keys(d[1..]);
      LookupSnoc(d[1..], e, k);
    }
  }

  /** An absent key has the empty list; a present key has its entry's list. */
  lemma LookupKeys<V>(d: seq<Entry<V>>, k: string)
    ensures k !in Keys(d) ==> Lookup(d, k) == []
    ensures forall i :: 0 <= i < |d| && d[i].key == k && Distinct(Keys(d)) ==> Lookup(d, k) == d[i].values
  {
    LookupAbsent(d, k);
    forall i | 0 <= i < |d| && d[i].key == k && Distinct(Keys(d))
      ensures Lookup(d, k) == d[i].values
    {
      LookupPresent(d, k, i);
    }
  }

  lemma {:induction false} LookupAbsent<V>(d: seq<Entry<V>>, k: string)
    ensures k !in Keys(d) ==> Lookup(d, k) == []
    decreases |d|
  {
    if |d| > 0 {
      assert Keys(d) == [d[0].key] + Keys(d[1..]);
      LookupAbsent(d[1..], k);
    }
  }

  lemma {:induction false} LookupPresent<V>(d: seq<Entry<V>>, k: string, i: nat)
    requires i < |d| && d[i].key == k && Distinct(Keys(d))
    ensures Lookup(d, k) == d[i].values
    decreases |d|
  {
    if i > 0 {
      assert Keys(d)[0] != Keys(d)[i];
      assert d[1..][i - 1] == d[i];
      DistinctKeysTail(d);
      LookupPresent(d[1..], k, i - 1);
    }
  }

  lemma DistinctKeysTail<V>(d: seq<Entry<V>>)
    requires |d| > 0 && Distinct(Keys(d))
    ensures Distinct(Keys(d[1..]))
  {
    KeysTail(d);
    DistinctTail(Keys(d));
  }

  lemma KeysTail<V>(d: seq<Entry<V>>)
    requires |d| > 0
    ensures Keys(d[1..]) == Keys(d)[1..]
  {
  }

  lemma DistinctTail<T>(s: seq<T>)
    requires |s| > 0 && Distinct(s)
    ensures Distinct(s[1..])
  {
    var t := s[1..];
    forall a, b | 0 <= a < b < |t|
      ensures t[a] != t[b]
    {
      assert t[a] == s[a + 1] && t[b] == s[b + 1];
    }
  }

  lemma AppendKeepsWellFormed<V>(d: seq<Entry<V>>, key: string, v: V)
    requires WellFormed(d)
    ensures WellFormed(AppendValue(d, key, v))
  {
    DistinctSnoc(Keys(d), key);
  }

  lemma DistinctSnoc(s: seq<string>, x: string)
    requires Distinct(s)
    ensures x !in s ==> Distinct(s + [x])
  {
  }

  // ---------------------------------------------------------------------
  // Dictionaries built by a loop over a sequence
  // ---------------------------------------------------------------------

  /** `for x in xs: d.setdefault(key(x), []).append(val(x))`. */
  function CollectAll<X, V>(xs: seq<X>, key: X -> string, val: X -> V, d: seq<Entry<V>>): (r: seq<Entry<V>>)
    requires WellFormed(d)
    ensures WellFormed(r)
    decreases |xs|
  {
    if |xs| == 0 then d
    else
      AppendKeepsWellFormed(d, key(xs[0]), val(xs[0]));
      CollectAll(xs[1..], key, val, AppendValue(d, key(xs[0]), val(xs[0])))
  }

  /** Reference definition: the values of the members of `xs` whose key is `k`, in order. */
  function ValuesWithKey<X, V>(xs: seq<X>, key: X -> string, val: X -> V, k: string): seq<V>
  {
    if |xs| == 0 then []
    else (if key(xs[0]) == k then [val(xs[0])] else []) + ValuesWithKey(xs[1..], key, val, k)
  }

  lemma {:induction false} CollectAllLookup<X, V>(xs: seq<X>, key: X -> string, val: X -> V, d: seq<Entry<V>>, k: string)
    requires WellFormed(d)
    ensures Lookup(CollectAll(xs, key, val, d), k) == Lookup(d, k) + ValuesWithKey(xs, key, val, k)
    decreases |xs|
  {
    if |xs| > 0 {
      AppendKeepsWellFormed(d, key(xs[0]), val(xs[0]));
      CollectAllLookup(xs[1..], key, val, AppendValue(d, key(xs[0]), val(xs[0])), k);
      LookupAppend(d, key(xs[0]), val(xs[0]), k);
    }
  }

  /** `for x in xs: if key(x) not in d: d[key(x)] = [val(x)]`. */
  function CollectFirst<X, V>(xs: seq<X>, key: X -> string, val: X -> V, d: seq<Entry<V>>): (r: seq<Entry<V>>)
    requires Distinct(Keys(d))
    ensures Distinct(Keys(r))
    decreases |xs|
  {
    if |xs| == 0 then d
    else
      DistinctSnoc(Keys(d), key(xs[0]));
      CollectFirst(xs[1..], key, val, PutIfAbsent(d, key(xs[0]), val(xs[0])))
  }

  /** Reference definition: the first member of `xs` whose key is `k`. */
  function FirstWithKey<X>(xs: seq<X>, key: X -> string, k: string): Option<X>
  {
    if |xs| == 0 then None
    else if key(xs[0]) == k then Some(xs[0])
    else FirstWithKey(xs[1..], key, k)
  }

  lemma {:induction false} CollectFirstLookup<X, V>(xs: seq<X>, key: X -> string, val: X -> V, d: seq<Entry<V>>, k: string)
    requires Distinct(Keys(d))
    ensures Lookup(CollectFirst(xs, key, val, d), k) ==
      if k in Keys(d) then Lookup(d, k)
      else match FirstWithKey(xs, key, k)
        case None => []
        case Some(x) => [val(x)]
    decreases |xs|
  {
    if |xs| > 0 {
      DistinctSnoc(Keys(d), key(xs[0]));
      var d2 := PutIfAbsent(d, key(xs[0]), val(xs[0]));
      CollectFirstLookup(xs[1..], key, val, d2, k);
      LookupPut(d, key(xs[0]), val(xs[0]), k);
      LookupKeys(d, k);
    } else {
      LookupKeys(d, k);
    }
  }
}
