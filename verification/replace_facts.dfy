/** How global replacement (`ReplaceAll`) behaves on concatenations. */
module ReplaceFacts {
  import opened Strings

  /** `ReplaceAll` passes over a prefix in which no occurrence starts. */
  lemma {:induction false} ReplaceAllSkip(x: string, s: string, p: string, v: string)
    requires |p| > 0
    requires forall j :: 0 <= j < |x| ==> !OccursAt(x + s, p, j)
    ensures ReplaceAll(x + s, p, v) == x + ReplaceAll(s, p, v)
    decreases |x|
  {
    if |x| > 0 {
      var xs := x + s;
      assert !OccursAt(xs, p, 0);
      assert xs[1..] == x[1..] + s;
      forall j | 0 <= j < |x| - 1
        ensures !OccursAt(x[1..] + s, p, j)
      {
        OccursTail(xs, p, j);
      }
      ReplaceAllSkip(x[1..], s, p, v);
      if |xs| < |p| {
        assert ReplaceAll(s, p, v) == s;
      } else {
        assert ReplaceAll(xs, p, v) == [xs[0]] + ReplaceAll(xs[1..], p, v);
      }
      assert x == [x[0]] + x[1..];
    } else {
      assert x + s == s;
    }
  }

  /** `ReplaceAll` replaces an occurrence at the very start. */
  lemma ReplaceAllHead(p: string, s: string, v: string)
    requires |p| > 0
    ensures ReplaceAll(p + s, p, v) == v + ReplaceAll(s, p, v)
  {
    var ps := p + s;
    assert ps[0..|p|] == p;
    assert ps[|p|..] == s;
  }
}
