/** Cutting a run of positions into consecutive groups: the shape shared by
    the segmenters that walk a sequence and start a new group whenever a
    condition holds at the current position. */
module Grouping {
  import opened Seqs

  /** Groups that are non-empty, each later one starting where `cut`
      holds, with `cut` false everywhere else inside a group. */
  predicate CutShape(r: seq<seq<nat>>, cut: nat -> bool)
  {
    && (forall k :: 0 <= k < |r| ==> |r[k]| > 0)
    && (forall k :: 1 <= k < |r| ==> cut(r[k][0]))
    && (forall k, j :: 0 <= k < |r| && 1 <= j < |r[k]| ==> !cut(r[k][j]))
  }

  /** The groups of `cur + [i, n)`: a new group starts at every later
      position where `cut` holds. */
  function CutRunsFrom(i: nat, n: nat, cut: nat -> bool, cur: seq<nat>): (r: seq<seq<nat>>)
    requires forall j :: 1 <= j < |cur| ==> !cut(cur[j])
    ensures CutShape(r, cut)
    ensures |cur| > 0 ==> |r| > 0 && |r[0]| >= |cur| && r[0][..|cur|] == cur
    decreases n - i
  {
    if i >= n then
      if |cur| > 0 then [cur] else []
    else if |cur| > 0 && cut(i) then
      var rest := CutRunsFrom(i + 1, n, cut, [i]);
      CutShapeCons(cur, rest, cut);
      [cur] + rest
    else
      NoCutSnoc(cur, i, cut);
      var r := CutRunsFrom(i + 1, n, cut, cur + [i]);
      PrefixSnoc(r[0], cur, i);
      r
  }

  /** The groups hold exactly the positions, in order. */
  lemma {:induction false} CutRunsFromFlatten(i: nat, n: nat, cut: nat -> bool, cur: seq<nat>)
    requires forall j :: 1 <= j < |cur| ==> !cut(cur[j])
    ensures Flatten(CutRunsFrom(i, n, cut, cur)) == cur + Range(i, n)
    decreases n - i
  {
    if i >= n {
      assert Range(i, n) == [];
      if |cur| > 0 {
        FlattenSingle(cur);
      }
    } else {
      assert Range(i, n) == [i] + Range(i + 1, n);
      if |cur| > 0 && cut(i) {
        var rest := CutRunsFrom(i + 1, n, cut, [i]);
        CutRunsFromFlatten(i + 1, n, cut, [i]);
        FlattenCons(cur, rest);
      } else {
        NoCutSnoc(cur, i, cut);
        CutRunsFromFlatten(i + 1, n, cut, cur + [i]);
        AppendAssoc(cur, [i], Range(i + 1, n));
      }
    }
  }

  lemma NoCutSnoc(cur: seq<nat>, i: nat, cut: nat -> bool)
    requires forall j :: 1 <= j < |cur| ==> !cut(cur[j])
    requires |cur| > 0 ==> !cut(i)
    ensures forall j :: 1 <= j < |cur + [i]| ==> !cut((cur + [i])[j])
  {
    forall j | 1 <= j < |cur + [i]|
      ensures !cut((cur + [i])[j])
    {
      if j < |cur| {
        assert (cur + [i])[j] == cur[j];
      }
    }
  }

  lemma PrefixSnoc(a: seq<nat>, cur: seq<nat>, i: nat)
    requires |a| >= |cur| + 1 && a[..|cur| + 1] == cur + [i]
    ensures |a| >= |cur| && a[..|cur|] == cur
  {
    assert a[..|cur|] == a[..|cur| + 1][..|cur|];
  }

  lemma CutShapeCons(g: seq<nat>, rest: seq<seq<nat>>, cut: nat -> bool)
    requires |g| > 0 && forall j :: 1 <= j < |g| ==> !cut(g[j])
    requires CutShape(rest, cut) && (|rest| > 0 ==> cut(rest[0][0]))
    ensures CutShape([g] + rest, cut)
  {
    var r := [g] + rest;
    assert forall k :: 1 <= k < |r| ==> r[k] == rest[k - 1];
  }

  /** The positions `0 .. n-1` cut before every position `i >= 1` where `cut(i)` holds. */
  function CutRuns(n: nat, cut: nat -> bool): (r: seq<seq<nat>>)
    ensures Flatten(r) == Range(0, n)
    ensures CutShape(r, cut)
  {
    CutRunsFromFlatten(0, n, cut, []);
    assert [] + Range(0, n) == Range(0, n);
    CutRunsFrom(0, n, cut, [])
  }
}
