/** Walks over the dependency tree: `extract_clause`, `token.subtree` and
    `split_by_conjunctions` of Flashgen/server.py. Tokens are named by their
    index in the document. */
module Clauses {
  import opened Seqs
  import opened Strings
  import opened Sorting
  import opened Annotation

  /** A child that starts a coordinated clause: dependency `cc` or `conj`
      with part of speech `CCONJ`. `extract_clause` does not descend into it;
      `token.subtree` (`coordinating == false`) skips nothing. */
  predicate Skipped(doc: Doc, c: nat, coordinating: bool)
  {
    coordinating && c < |doc.tokens|
    && (doc.tokens[c].dep == "cc" || doc.tokens[c].dep == "conj")
    && doc.tokens[c].pos == "CCONJ"
  }

  /** The nodes the recursive `get_subtree(t)` appends, in the order it
      appends them, exploring at most `fuel` levels below `t`. */
  function Below(doc: Doc, t: nat, fuel: nat, coordinating: bool): seq<nat>
    decreases fuel, 0
  {
    if fuel == 0 then [] else BelowAll(doc, Children(doc, t), fuel - 1, coordinating)
  }

  /** `for child in cs: if not skipped: append(child); get_subtree(child)`. */
  function BelowAll(doc: Doc, cs: seq<nat>, fuel: nat, coordinating: bool): seq<nat>
    decreases fuel, 1, |cs|
  {
    if |cs| == 0 then []
    else
      (if Skipped(doc, cs[0], coordinating) then [] else [cs[0]] + Below(doc, cs[0], fuel, coordinating))
        + BelowAll(doc, cs[1..], fuel, coordinating)
  }

  /** Going up from `x` through `k` heads reaches `v`, and no node left
      behind on the way (every node but `v`) is skipped. */
  predicate Path(doc: Doc, x: nat, k: nat, v: nat, coordinating: bool)
    decreases k
  {
    if k == 0 then x == v
    else
      x < |doc.tokens| && IsChildOf(doc, x, doc.tokens[x].head)
      && !Skipped(doc, x, coordinating)
      && Path(doc, doc.tokens[x].head, k - 1, v, coordinating)
  }

  lemma {:induction false} BelowAllMember(doc: Doc, cs: seq<nat>, fuel: nat, coordinating: bool, x: nat)
    ensures x in BelowAll(doc, cs, fuel, coordinating) <==>
      exists c :: c in cs && !Skipped(doc, c, coordinating) && (x == c || x in Below(doc, c, fuel, coordinating))
    decreases |cs|
  {
    if |cs| > 0 {
      BelowAllMember(doc, cs[1..], fuel, coordinating, x);
      assert forall c :: c in cs <==> c == cs[0] || c in cs[1..];
    }
  }

  /** A path that ends at a child `c` of `v` extends by one step to `v`. */
  lemma {:induction false} PathExtend(doc: Doc, x: nat, k: nat, c: nat, v: nat, coordinating: bool)
    requires Path(doc, x, k, c, coordinating)
    requires IsChildOf(doc, c, v) && !Skipped(doc, c, coordinating)
    ensures Path(doc, x, k + 1, v, coordinating)
    decreases k
  {
    if k > 0 {
      PathExtend(doc, doc.tokens[x].head, k - 1, c, v, coordinating);
    }
  }

  /** The last step of a non-empty path goes through a child of `v`. */
  lemma {:induction false} PathSplit(doc: Doc, x: nat, k: nat, v: nat, coordinating: bool)
    returns (c: nat)
    requires Path(doc, x, k + 1, v, coordinating)
    ensures IsChildOf(doc, c, v) && !Skipped(doc, c, coordinating)
    ensures Path(doc, x, k, c, coordinating)
    decreases k
  {
    if k == 0 {
      c := x;
    } else {
      c := PathSplit(doc, doc.tokens[x].head, k - 1, v, coordinating);
    }
  }

  /** Every node `get_subtree(v)` collects lies on a path up to `v`. */
  lemma {:induction false} BelowHasPath(doc: Doc, v: nat, fuel: nat, coordinating: bool, x: nat)
    returns (k: nat)
    requires x in Below(doc, v, fuel, coordinating)
    ensures 1 <= k <= fuel && Path(doc, x, k, v, coordinating)
    decreases fuel
  {
    var c := BelowChild(doc, v, fuel, coordinating, x);
    var j: nat := 0;
    if x != c {
      j := BelowHasPath(doc, c, fuel - 1, coordinating, x);
    }
    PathExtend(doc, x, j, c, v, coordinating);
    k := j + 1;
  }

  /** A node collected below `v` is a child of `v` that is not skipped, or
      is collected below one. */
  lemma BelowChild(doc: Doc, v: nat, fuel: nat, coordinating: bool, x: nat) returns (c: nat)
    requires x in Below(doc, v, fuel, coordinating)
    ensures fuel > 0 && IsChildOf(doc, c, v) && !Skipped(doc, c, coordinating)
    ensures x == c || x in Below(doc, c, fuel - 1, coordinating)
  {
    var cs := Children(doc, v);
    BelowAllMember(doc, cs, fuel - 1, coordinating, x);
    c :| c in cs && !Skipped(doc, c, coordinating) && (x == c || x in Below(doc, c, fuel - 1, coordinating));
  }

  /** Every node on a path of 1 to `fuel` steps up to `v` is collected. */
  lemma {:induction false} PathInBelow(doc: Doc, v: nat, fuel: nat, coordinating: bool, x: nat, k: nat)
    requires 1 <= k <= fuel && Path(doc, x, k, v, coordinating)
    ensures x in Below(doc, v, fuel, coordinating)
    decreases fuel
  {
    var c := PathSplit(doc, x, k - 1, v, coordinating);
    var cs := Children(doc, v);
    assert c in cs;
    if k > 1 {
      PathInBelow(doc, c, fuel - 1, coordinating, x, k - 1);
    }
    BelowAllMember(doc, cs, fuel - 1, coordinating, x);
  }

  /** The nodes `get_subtree(v)` collects within `fuel` levels are exactly
      the nodes a path of 1 to `fuel` steps leads up from to `v`. */
  lemma {:induction false} BelowIff(doc: Doc, v: nat, fuel: nat, coordinating: bool, x: nat)
    ensures x in Below(doc, v, fuel, coordinating) <==>
      exists k: nat :: 1 <= k <= fuel && Path(doc, x, k, v, coordinating)
  {
    if x in Below(doc, v, fuel, coordinating) {
      var k := BelowHasPath(doc, v, fuel, coordinating, x);
      assert 1 <= k <= fuel && Path(doc, x, k, v, coordinating);
      assert exists k: nat :: 1 <= k <= fuel && Path(doc, x, k, v, coordinating);
    } else if exists k: nat :: 1 <= k <= fuel && Path(doc, x, k, v, coordinating) {
      var k: nat :| 1 <= k <= fuel && Path(doc, x, k, v, coordinating);
      PathInBelow(doc, v, fuel, coordinating, x, k);
    }
  }

  /** `extract_clause(verb)`: the verb followed by what `get_subtree`
      appends. The recursion of the source is bounded by the number of
      tokens, the height of any dependency tree of the document. */
  function ExtractClause(doc: Doc, v: nat): (r: seq<nat>)
    ensures |r| >= 1 && r[0] == v
  {
    [v] + Below(doc, v, |doc.tokens|, true)
  }

  /** The clause of `v` holds `v` and every descendant reached without
      passing through a coordinating child, and nothing else. */
  lemma ExtractClauseMembers(doc: Doc, v: nat, x: nat)
    ensures x in ExtractClause(doc, v) <==>
      x == v || exists k :: 1 <= k <= |doc.tokens| && Path(doc, x, k, v, true)
  {
    BelowIff(doc, v, |doc.tokens|, true, x);
  }

  /** `token.subtree`: the token and all its descendants, in document order. */
  function Subtree(doc: Doc, t: nat): (r: seq<nat>)
    ensures StrictlySorted(r)
    ensures forall x :: x in r <==> x == t || x in Below(doc, t, |doc.tokens|, false)
  {
    SortUnique([t] + Below(doc, t, |doc.tokens|, false))
  }

  lemma SubtreeMembers(doc: Doc, t: nat, x: nat)
    ensures x in Subtree(doc, t) <==>
      x == t || exists k :: 1 <= k <= |doc.tokens| && Path(doc, x, k, t, false)
  {
    BelowIff(doc, t, |doc.tokens|, false, x);
  }

  // ---------------------------------------------------------------------
  // split_by_conjunctions
  // ---------------------------------------------------------------------

  const Conjunctions: seq<string> := ["y", "pero", "mas", "sino", "o", "and", "but", "or", "yet"]

  /** The token's lower-cased text is one of the coordinating conjunctions. */
  predicate IsConjunction(doc: Doc, t: nat)
  {
    t < |doc.tokens| && ToLower(doc.tokens[t].text) in Conjunctions
  }

  /** What the grouping loop promises for the tokens `ts` still to read
      and the open group `cur`: groups are non-empty, all but the last have
      more than five tokens, they keep the tokens in order, only
      conjunctions are dropped, and the open group starts the first one. */
  predicate Grouped(doc: Doc, r: seq<seq<nat>>, ts: seq<nat>, cur: seq<nat>)
  {
    && (forall k :: 0 <= k < |r| ==> |r[k]| > 0)
    && (forall k :: 0 <= k < |r| - 1 ==> |r[k]| > 5)
    && IsSubsequence(Flatten(r), cur + ts)
    && (forall x :: x in ts && x !in Flatten(r) ==> IsConjunction(doc, x))
    && (forall x :: x in cur ==> x in Flatten(r))
    && (|cur| > 0 ==> |r| > 0 && |r[0]| >= |cur| && r[0][..|cur|] == cur)
  }

  /** The grouping loop over the sorted tokens, with the open group `cur`. */
  function GroupAtConjunctions(doc: Doc, ts: seq<nat>, cur: seq<nat>): (r: seq<seq<nat>>)
    ensures Grouped(doc, r, ts, cur)
    decreases |ts|
  {
    if |ts| == 0 then
      GroupedAtEnd(doc, cur);
      if |cur| > 0 then [cur] else []
    else
      var t := ts[0];
      if IsConjunction(doc, t) && |cur| > 5 then
        var rest := GroupAtConjunctions(doc, ts[1..], []);
        GroupedCut(doc, ts, cur, rest);
        [cur] + rest
      else
        var r := GroupAtConjunctions(doc, ts[1..], cur + [t]);
        GroupedKeep(doc, ts, cur, r);
        r
  }

  /** With no tokens left, the open group, when non-empty, is the last group. */
  lemma GroupedAtEnd(doc: Doc, cur: seq<nat>)
    ensures Grouped(doc, if |cur| > 0 then [cur] else [], [], cur)
  {
    assert cur + [] == cur;
    if |cur| > 0 {
      FlattenSingle(cur);
      SubsequenceRefl(cur);
    }
  }

  /** A conjunction met when the open group is long enough closes it. */
  lemma GroupedCut(doc: Doc, ts: seq<nat>, cur: seq<nat>, rest: seq<seq<nat>>)
    requires |ts| > 0 && IsConjunction(doc, ts[0]) && |cur| > 5
    requires Grouped(doc, rest, ts[1..], [])
    ensures Grouped(doc, [cur] + rest, ts, cur)
  {
    FlattenAppend([cur], rest);
    FlattenSingle(cur);
    assert [] + ts[1..] == ts[1..];
    SubsequenceSkip(cur, Flatten(rest), ts);
  }

  /** Any other token joins the open group. */
  lemma GroupedKeep(doc: Doc, ts: seq<nat>, cur: seq<nat>, r: seq<seq<nat>>)
    requires |ts| > 0
    requires Grouped(doc, r, ts[1..], cur + [ts[0]])
    ensures Grouped(doc, r, ts, cur)
  {
    var t := ts[0];
    assert cur + [t] + ts[1..] == cur + ts;
    assert t in cur + [t];
    assert |cur| > 0 ==> r[0][..|cur|] == (cur + [t])[..|cur|];
  }

  lemma {:induction false} SubsequenceRefl<T>(s: seq<T>)
    ensures IsSubsequence(s, s)
    decreases |s|
  {
    if |s| > 0 {
      SubsequenceRefl(s[1..]);
    }
  }

  /** Keeping a prefix and dropping the head of the remainder keeps a subsequence. */
  lemma {:induction false} SubsequenceSkip<T>(p: seq<T>, a: seq<T>, ts: seq<T>)
    requires |ts| > 0
    requires IsSubsequence(a, ts[1..])
    ensures IsSubsequence(p + a, p + ts)
    decreases |p|
  {
    if |p| == 0 {
      assert p + a == a && p + ts == ts;
      SubsequenceDropHead(a, ts);
    } else {
      SubsequenceSkip(p[1..], a, ts);
      assert (p + a)[1..] == p[1..] + a;
      assert (p + ts)[1..] == p[1..] + ts;
    }
  }

  /** The groups `r` with the dropped tokens `cuts` put back between them:
      `cuts[k]` follows `r[k]`. */
  function Interleave(r: seq<seq<nat>>, cuts: seq<nat>): seq<nat>
    decreases |r|
  {
    if |r| == 0 then []
    else if |cuts| == 0 then r[0] + Interleave(r[1..], cuts)
    else r[0] + [cuts[0]] + Interleave(r[1..], cuts[1..])
  }

  /** `r` cuts `input` at exactly the conjunctions `cuts`: putting them
      back gives the input; every cut is a conjunction that came after more
      than five tokens of its group; and no group holds a conjunction after
      its sixth token, so every conjunction met once the open group had
      more than five tokens was a cut. */
  ghost predicate CutAtConjunctions(doc: Doc, r: seq<seq<nat>>, cuts: seq<nat>, input: seq<nat>)
  {
    && |cuts| <= |r| <= |cuts| + 1
    && Interleave(r, cuts) == input
    && (forall k :: 0 <= k < |r| ==> |r[k]| > 0)
    && (forall k :: 0 <= k < |cuts| ==> IsConjunction(doc, cuts[k]) && |r[k]| > 5)
    && (forall k, j :: 0 <= k < |r| && 5 < j < |r[k]| ==> !IsConjunction(doc, r[k][j]))
  }

  /** The open group holds no conjunction after its sixth token. */
  predicate OpenGroupUncut(doc: Doc, cur: seq<nat>)
  {
    forall j :: 5 < j < |cur| ==> !IsConjunction(doc, cur[j])
  }

  /** The grouping loop cuts the open group followed by the remaining
      tokens at exactly the conjunctions the rule names; `cuts` are the
      dropped conjunctions. */
  lemma {:induction false} GroupAtConjunctionsCuts(doc: Doc, ts: seq<nat>, cur: seq<nat>) returns (cuts: seq<nat>)
    requires OpenGroupUncut(doc, cur)
    ensures CutAtConjunctions(doc, GroupAtConjunctions(doc, ts, cur), cuts, cur + ts)
    decreases |ts|
  {
    if |ts| == 0 {
      EndCuts(doc, ts, cur);
      cuts := [];
    } else if IsConjunction(doc, ts[0]) && |cur| > 5 {
      var rest := GroupAtConjunctions(doc, ts[1..], []);
      var cuts' := GroupAtConjunctionsCuts(doc, ts[1..], []);
      CutStep(doc, cur, ts[0], rest, cuts', ts);
      assert GroupAtConjunctions(doc, ts, cur) == [cur] + rest;
      cuts := [ts[0]] + cuts';
    } else {
      assert OpenGroupUncut(doc, cur + [ts[0]]);
      var r := GroupAtConjunctions(doc, ts[1..], cur + [ts[0]]);
      cuts := GroupAtConjunctionsCuts(doc, ts[1..], cur + [ts[0]]);
      KeepStep(doc, ts, cur, r, cuts);
      assert GroupAtConjunctions(doc, ts, cur) == r;
    }
  }

  lemma EndCuts(doc: Doc, ts: seq<nat>, cur: seq<nat>)
    requires |ts| == 0 && OpenGroupUncut(doc, cur)
    ensures CutAtConjunctions(doc, GroupAtConjunctions(doc, ts, cur), [], cur + ts)
  {
    var r := GroupAtConjunctions(doc, ts, cur);
    assert cur + ts == cur;
    if |cur| > 0 {
      assert Interleave([cur], []) == cur + Interleave([], []);
    }
  }

  lemma KeepStep(doc: Doc, ts: seq<nat>, cur: seq<nat>, r: seq<seq<nat>>, cuts: seq<nat>)
    requires |ts| > 0
    requires CutAtConjunctions(doc, r, cuts, cur + [ts[0]] + ts[1..])
    ensures CutAtConjunctions(doc, r, cuts, cur + ts)
  {
    assert cur + [ts[0]] + ts[1..] == cur + ts;
  }

  lemma CutStep(doc: Doc, cur: seq<nat>, t: nat, rest: seq<seq<nat>>, cuts': seq<nat>, ts: seq<nat>)
    requires |ts| > 0 && ts[0] == t
    requires IsConjunction(doc, t) && |cur| > 5 && OpenGroupUncut(doc, cur)
    requires CutAtConjunctions(doc, rest, cuts', [] + ts[1..])
    ensures CutAtConjunctions(doc, [cur] + rest, [t] + cuts', cur + ts)
  {
    var r := [cur] + rest;
    assert r[1..] == rest && ([t] + cuts')[1..] == cuts';
    assert Interleave(r, [t] + cuts') == cur + [t] + Interleave(rest, cuts');
    assert cur + [t] + ts[1..] == cur + ts;
    forall k | 1 <= k < |r|
      ensures r[k] == rest[k - 1]
    {
    }
  }

  lemma GroupsCutSorted(doc: Doc, sorted: seq<nat>)
    ensures exists cuts :: CutAtConjunctions(doc, GroupAtConjunctions(doc, sorted, []), cuts, sorted)
  {
    var cuts := GroupAtConjunctionsCuts(doc, sorted, []);
    assert [] + sorted == sorted;
  }

  /** `split_by_conjunctions(tokens)`: the tokens in document order, cut
      before every conjunction met once the open group has more than five
      tokens (the conjunction itself is dropped); when that yields at most
      one group, the single group holds the tokens as given. */
  function SplitByConjunctions(doc: Doc, tokens: seq<nat>): (r: seq<seq<nat>>)
    ensures |r| >= 1
    ensures |r| == 1 ==> r[0] == tokens
    ensures |r| > 1 ==> forall k :: 0 <= k < |r| - 1 ==> |r[k]| > 5
    ensures |r| > 1 ==> forall k :: 0 <= k < |r| ==> |r[k]| > 0
    ensures |r| > 1 ==> IsSubsequence(Flatten(r), Sort(tokens))
    ensures |r| > 1 ==> forall x :: x in tokens && x !in Flatten(r) ==> IsConjunction(doc, x)
    ensures |r| > 1 ==> exists cuts :: CutAtConjunctions(doc, r, cuts, Sort(tokens))
  {
    var sorted := Sort(tokens);
    var groups := GroupAtConjunctions(doc, sorted, []);
    GroupsCutSorted(doc, sorted);
    assert forall x :: x in tokens <==> x in sorted by {
      assert forall x :: x in tokens <==> x in multiset(tokens);
      assert forall x :: x in sorted <==> x in multiset(sorted);
    }
    if |groups| > 1 then groups else [tokens]
  }
}
