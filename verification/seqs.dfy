/** Sequence helpers used across the model: flattening grouped output,
    index ranges, sums and order-preserving filters. */
module Seqs {

  /** Concatenation of a list of groups (Python's `sum(groups, [])`). */
  function Flatten<T>(groups: seq<seq<T>>): seq<T>
  {
    if |groups| == 0 then [] else groups[0] + Flatten(groups[1..])
  }

  lemma {:induction false} FlattenAppend<T>(a: seq<seq<T>>, b: seq<seq<T>>)
    ensures Flatten(a + b) == Flatten(a) + Flatten(b)
    decreases |a|
  {
    if |a| == 0 {
      assert a + b == b;
    } else {
      assert (a + b)[1..] == a[1..] + b;
      FlattenAppend(a[1..], b);
    }
  }

  lemma FlattenSingle<T>(g: seq<T>)
    ensures Flatten([g]) == g
  {
    assert [g][1..] == [];
  }

  lemma FlattenCons<T>(g: seq<T>, rest: seq<seq<T>>)
    ensures Flatten([g] + rest) == g + Flatten(rest)
  {
    assert ([g] + rest)[1..] == rest;
  }

  /** Where group `k` begins in the concatenation of `gs`. */
  function RunStart<T>(gs: seq<seq<T>>, k: nat): nat
    requires k <= |gs|
  {
    |Flatten(gs[..k])|
  }

  /** Group `k` sits in the concatenation between its own start and the
      next group's. */
  lemma FlattenRun<T>(gs: seq<seq<T>>, k: nat)
    requires k < |gs|
    ensures RunStart(gs, k) + |gs[k]| == RunStart(gs, k + 1) <= |Flatten(gs)|
    ensures Flatten(gs)[RunStart(gs, k)..RunStart(gs, k + 1)] == gs[k]
  {
    assert gs[..k + 1] == gs[..k] + [gs[k]];
    FlattenAppend(gs[..k], [gs[k]]);
    FlattenSingle(gs[k]);
    assert gs == gs[..k + 1] + gs[k + 1..];
    FlattenAppend(gs[..k + 1], gs[k + 1..]);
  }

  /** The multiset of a sequence is its head's and its tail's. */
  lemma MultisetCons<T>(s: seq<T>)
    requires |s| > 0
    ensures multiset(s) == multiset{s[0]} + multiset(s[1..])
  {
    assert s == [s[0]] + s[1..];
  }

  lemma AppendAssoc<T>(a: seq<T>, b: seq<T>, c: seq<T>)
    ensures (a + b) + c == a + (b + c)
  {
  }

  /** A member of the concatenation comes from one of the groups. */
  lemma {:induction false} FlattenMember<T>(groups: seq<seq<T>>, x: T) returns (g: seq<T>)
    requires x in Flatten(groups)
    ensures g in groups && x in g
    decreases |groups|
  {
    if x in groups[0] {
      g := groups[0];
    } else {
      g := FlattenMember(groups[1..], x);
    }
  }

  /** Every member of every group is in the concatenation. */
  lemma {:induction false} FlattenHas<T>(groups: seq<seq<T>>, i: nat, x: T)
    requires i < |groups| && x in groups[i]
    ensures x in Flatten(groups)
    decreases i
  {
    if i > 0 {
      FlattenHas(groups[1..], i - 1, x);
    }
  }

  /** A property of every member of every group holds of the concatenation. */
  lemma {:induction false} FlattenForall<T>(groups: seq<seq<T>>, p: T -> bool)
    requires forall i, k :: 0 <= i < |groups| && 0 <= k < |groups[i]| ==> p(groups[i][k])
    ensures forall k :: 0 <= k < |Flatten(groups)| ==> p(Flatten(groups)[k])
    decreases |groups|
  {
    if |groups| > 0 {
      FlattenForall(groups[1..], p);
      var f := Flatten(groups);
      assert f == groups[0] + Flatten(groups[1..]);
      forall k | 0 <= k < |f|
        ensures p(f[k])
      {
        if k >= |groups[0]| {
          assert f[k] == Flatten(groups[1..])[k - |groups[0]|];
        }
      }
    }
  }

  /** Concatenating non-empty groups yields at least one element per group. */
  lemma {:induction false} FlattenLength<T>(groups: seq<seq<T>>)
    requires forall i :: 0 <= i < |groups| ==> |groups[i]| >= 1
    ensures |Flatten(groups)| >= |groups|
    decreases |groups|
  {
    if |groups| > 0 {
      FlattenLength(groups[1..]);
    }
  }

  /** Concatenating groups of at most `m` elements yields at most `m` per group. */
  lemma {:induction false} FlattenBound<T>(groups: seq<seq<T>>, m: nat)
    requires forall i :: 0 <= i < |groups| ==> |groups[i]| <= m
    ensures |Flatten(groups)| <= m * |groups|
    decreases |groups|
  {
    if |groups| > 0 {
      FlattenBound(groups[1..], m);
    }
  }

  /** The integers `lo, lo+1, ..., hi-1` (Python's `range(lo, hi)`). */
  function Range(lo: nat, hi: nat): (r: seq<nat>)
    ensures |r| == if lo <= hi then hi - lo else 0
    ensures forall k :: 0 <= k < |r| ==> r[k] == lo + k
    decreases hi - lo
  {
    if lo >= hi then [] else [lo] + Range(lo + 1, hi)
  }

  lemma InRange(lo: nat, hi: nat, x: nat)
    ensures x in Range(lo, hi) <==> lo <= x < hi
  {
    if lo <= x < hi {
      assert Range(lo, hi)[x - lo] == x;
    }
  }

  /** The elements of `s` that satisfy `keep`, in their original order
      (JavaScript's `Array.prototype.filter`). */
  function Filter<T>(s: seq<T>, keep: T -> bool): (r: seq<T>)
    ensures |r| <= |s|
    ensures forall x :: x in r ==> x in s && keep(x)
    ensures forall x :: x in s && keep(x) ==> x in r
    ensures forall k :: 0 <= k < |r| ==> keep(r[k])
  {
    if |s| == 0 then [] else (if keep(s[0]) then [s[0]] else []) + Filter(s[1..], keep)
  }

  lemma {:induction false} FilterAppend<T>(a: seq<T>, b: seq<T>, keep: T -> bool)
    ensures Filter(a + b, keep) == Filter(a, keep) + Filter(b, keep)
    decreases |a|
  {
    if |a| == 0 {
      assert a + b == b;
    } else {
      assert (a + b)[1..] == a[1..] + b;
      FilterAppend(a[1..], b, keep);
    }
  }

  lemma {:induction false} FilterNoneKept<T>(s: seq<T>, keep: T -> bool)
    requires forall k :: 0 <= k < |s| ==> !keep(s[k])
    ensures Filter(s, keep) == []
    decreases |s|
  {
    if |s| > 0 {
      FilterNoneKept(s[1..], keep);
    }
  }

  lemma {:induction false} FilterAllKept<T>(s: seq<T>, keep: T -> bool)
    requires forall k :: 0 <= k < |s| ==> keep(s[k])
    ensures Filter(s, keep) == s
    decreases |s|
  {
    if |s| > 0 {
      FilterAllKept(s[1..], keep);
      assert Filter(s, keep) == [s[0]] + Filter(s[1..], keep);
      ConsTail(s);
    }
  }

  lemma ConsTail<T>(s: seq<T>)
    requires |s| > 0
    ensures [s[0]] + s[1..] == s
  {
  }

  /** `Map` of JavaScript and Python list comprehensions. */
  function Map<T, U>(s: seq<T>, f: T -> U): (r: seq<U>)
    ensures |r| == |s|
    ensures forall i :: 0 <= i < |s| ==> r[i] == f(s[i])
  {
    if |s| == 0 then [] else [f(s[0])] + Map(s[1..], f)
  }

  /** `a` is obtained from `b` by deleting elements: an order-preserving subsequence. */
  predicate IsSubsequence<T(==)>(a: seq<T>, b: seq<T>)
    decreases |b|
  {
    if |a| == 0 then true
    else if |b| == 0 then false
    else if a[0] == b[0] then IsSubsequence(a[1..], b[1..])
    else IsSubsequence(a, b[1..])
  }

  /** The values of `Map(s, f)` are exactly the images of the members of `s`. */
  lemma MapMembers<T, U>(s: seq<T>, f: T -> U, y: U)
    ensures y in Map(s, f) <==> exists x :: x in s && y == f(x)
  {
    if y in Map(s, f) {
      var m :| 0 <= m < |s| && Map(s, f)[m] == y;
      assert s[m] in s;
    }
    if exists x :: x in s && y == f(x) {
      var x :| x in s && y == f(x);
      var m :| 0 <= m < |s| && s[m] == x;
      assert Map(s, f)[m] == y;
    }
  }

  lemma {:induction false} FilterIsSubsequence<T>(s: seq<T>, keep: T -> bool)
    ensures IsSubsequence(Filter(s, keep), s)
    decreases |s|
  {
    if |s| > 0 {
      FilterIsSubsequence(s[1..], keep);
      var rest := Filter(s[1..], keep);
      if keep(s[0]) {
        assert Filter(s, keep) == [s[0]] + rest;
        assert ([s[0]] + rest)[1..] == rest;
      } else {
        assert Filter(s, keep) == rest;
        SubsequenceDropHead(rest, s);
      }
    }
  }

  /** `r` is `s` with the elements failing `keep` removed: an
      order-preserving subsequence that holds only kept elements and every
      kept value exactly as often as `s` does. */
  predicate FilteredFrom<T(==)>(r: seq<T>, s: seq<T>, keep: T -> bool)
  {
    && IsSubsequence(r, s)
    && (forall k :: 0 <= k < |r| ==> keep(r[k]))
    && (forall x :: x in s && keep(x) ==> multiset(r)[x] == multiset(s)[x])
  }

  /** `Filter` removes exactly the elements failing `keep`. */
  lemma FilterFiltered<T>(s: seq<T>, keep: T -> bool)
    ensures FilteredFrom(Filter(s, keep), s, keep)
  {
    FilterIsSubsequence(s, keep);
    forall x | x in s && keep(x)
      ensures multiset(Filter(s, keep))[x] == multiset(s)[x]
    {
      FilterCount(s, keep, x);
    }
  }

  /** A kept value occurs in the filtered sequence as often as in `s`, a
      removed one not at all. */
  lemma {:induction false} FilterCount<T>(s: seq<T>, keep: T -> bool, x: T)
    ensures multiset(Filter(s, keep))[x] == if keep(x) then multiset(s)[x] else 0
    decreases |s|
  {
    if |s| > 0 {
      FilterCount(s[1..], keep, x);
      var head: seq<T> := if keep(s[0]) then [s[0]] else [];
      assert Filter(s, keep) == head + Filter(s[1..], keep);
      assert multiset(Filter(s, keep)) == multiset(head) + multiset(Filter(s[1..], keep));
      MultisetCons(s);
    }
  }

  /** The characterisation is exact: only `Filter(s, keep)` satisfies it. */
  lemma {:induction false} FilteredIsFilter<T>(r: seq<T>, s: seq<T>, keep: T -> bool)
    requires FilteredFrom(r, s, keep)
    ensures r == Filter(s, keep)
    decreases |s|
  {
    if |s| > 0 {
      var a, t := s[0], s[1..];
      MultisetCons(s);
      if keep(a) {
        assert a in s;
        assert multiset(r)[a] == multiset(t)[a] + 1;
        if |r| > 0 && r[0] == a {
          MultisetCons(r);
          forall x | x in t && keep(x)
            ensures multiset(r[1..])[x] == multiset(t)[x]
          {
            assert x in s;
          }
          FilteredIsFilter(r[1..], t, keep);
          ConsTail(r);
        } else {
          assert IsSubsequence(r, t);
          SubsequenceMultiset(r, t);
          assert false;
        }
      } else {
        assert |r| > 0 ==> r[0] != a;
        assert IsSubsequence(r, t);
        forall x | x in t && keep(x)
          ensures multiset(r)[x] == multiset(t)[x]
        {
          assert x != a && x in s;
        }
        FilteredIsFilter(r, t, keep);
      }
    }
  }

  /** A subsequence holds no value more often than the sequence. */
  lemma {:induction false} SubsequenceMultiset<T>(a: seq<T>, b: seq<T>)
    requires IsSubsequence(a, b)
    ensures multiset(a) <= multiset(b)
    decreases |b|
  {
    if |a| > 0 {
      MultisetCons(b);
      if a[0] == b[0] {
        SubsequenceMultiset(a[1..], b[1..]);
        MultisetCons(a);
      } else {
        SubsequenceMultiset(a, b[1..]);
      }
    }
  }

  /** Skipping the head of the longer sequence keeps the subsequence relation. */
  lemma {:induction false} SubsequenceDropHead<T>(a: seq<T>, b: seq<T>)
    requires |b| > 0
    requires IsSubsequence(a, b[1..])
    ensures IsSubsequence(a, b)
    decreases |b|, 0
  {
    if |a| > 0 && a[0] == b[0] {
      SubsequenceWeaken(a, b[1..]);
    }
  }

  /** Dropping the head of the shorter sequence keeps the subsequence relation. */
  lemma {:induction false} SubsequenceWeaken<T>(a: seq<T>, b: seq<T>)
    requires |a| > 0
    requires IsSubsequence(a, b)
    ensures IsSubsequence(a[1..], b)
    decreases |b|, 1
  {
    if a[0] == b[0] {
      SubsequenceDropHead(a[1..], b);
    } else {
      SubsequenceWeaken(a, b[1..]);
      SubsequenceDropHead(a[1..], b);
    }
  }

  /** The loop `for x in xs: if mark(x): if key(x) in seen: continue;
      seen.add(key(x)); if keep(x): out.append(x)`. */
  function FirstVisits<X, K>(xs: seq<X>, mark: X -> bool, key: X -> K, keep: X -> bool, seen: set<K>): (r: seq<X>)
    ensures forall x :: x in r ==> x in xs && mark(x) && keep(x) && key(x) !in seen
    decreases |xs|
  {
    if |xs| == 0 then []
    else if !mark(xs[0]) || key(xs[0]) in seen then FirstVisits(xs[1..], mark, key, keep, seen)
    else
      var rest := FirstVisits(xs[1..], mark, key, keep, seen + {key(xs[0])});
      if keep(xs[0]) then [xs[0]] + rest else rest
  }

  /** With a one-to-one key, every marked member of `xs` is visited once:
      it is output exactly when it is kept and its key was not seen
      before, and nothing is output twice. */
  lemma {:induction false} FirstVisitsExact<X, K>(xs: seq<X>, mark: X -> bool, key: X -> K, keep: X -> bool, seen: set<K>)
    requires forall a, b :: key(a) == key(b) ==> a == b
    ensures Distinct(FirstVisits(xs, mark, key, keep, seen))
    ensures forall x :: x in FirstVisits(xs, mark, key, keep, seen) <==>
      x in xs && mark(x) && keep(x) && key(x) !in seen
    decreases |xs|
  {
    if |xs| > 0 {
      var t := xs[0];
      assert forall x :: x in xs <==> x == t || x in xs[1..];
      if !mark(t) || key(t) in seen {
        FirstVisitsExact(xs[1..], mark, key, keep, seen);
      } else {
        var s2 := seen + {key(t)};
        FirstVisitsExact(xs[1..], mark, key, keep, s2);
        var rest := FirstVisits(xs[1..], mark, key, keep, s2);
        assert t !in rest;
        if keep(t) {
          var r := [t] + rest;
          forall a, b | 0 <= a < b < |r|
            ensures r[a] != r[b]
          {
            if a == 0 {
              assert r[b] in rest;
            } else {
              assert r[a] == rest[a - 1] && r[b] == rest[b - 1];
            }
          }
        }
      }
    }
  }

  predicate Distinct<T(==)>(s: seq<T>)
  {
    forall i, j :: 0 <= i < j < |s| ==> s[i] != s[j]
  }

  /** The members of `xs` in order of first occurrence, each once (the keys
      of a dictionary built from `xs`, or `[...new Set(xs)]`). */
  function Dedup<T(==)>(xs: seq<T>): (r: seq<T>)
    ensures Distinct(r)
    ensures forall k :: 0 <= k < |xs| ==> xs[k] in r
    ensures forall k :: 0 <= k < |r| ==> r[k] in xs
    ensures |r| <= |xs|
    decreases |xs|
  {
    if |xs| == 0 then []
    else
      var rest := Dedup(xs[..|xs| - 1]);
      assert forall k :: 0 <= k < |xs| - 1 ==> xs[k] == xs[..|xs| - 1][k];
      if xs[|xs| - 1] in rest then rest else rest + [xs[|xs| - 1]]
  }

}
