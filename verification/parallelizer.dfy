/** Dependency grouping of pipeline steps (pipeline/PipelineParallelizer.js):
    `canParallelize` splits the steps into groups that can run together,
    each group after the groups holding its dependencies; plus the tests
    and the merge used for post-processing groups. Execution, timeouts and
    metrics are left out. */
module Parallelizer {
  import opened Wrappers
  import opened Seqs

  datatype Step = Step(id: string, name: string)

  /** The fixed `dependencyMap`; unknown steps depend on nothing. */
  function Deps(id: string): seq<string>
  {
    if id == "chunk" then ["preprocess"]
    else if id == "context-inject" then ["chunk"]
    else if id == "generate" then ["context-inject"]
    else if id == "quality" || id == "difficulty-balance" || id == "cloze-generator" then ["generate"]
    else if id == "score" then ["quality", "difficulty-balance", "cloze-generator"]
    else if id == "dedupe" then ["score"]
    else []
  }

  /** The length of the longest dependency chain below a step. */
  function Depth(id: string): nat
  {
    if id == "chunk" then 1
    else if id == "context-inject" then 2
    else if id == "generate" then 3
    else if id == "quality" || id == "difficulty-balance" || id == "cloze-generator" then 4
    else if id == "score" then 5
    else if id == "dedupe" then 6
    else 0
  }

  /** The dependency map has no cycle: every dependency sits lower. */
  lemma DepsShallower(id: string, d: string)
    requires d in Deps(id)
    ensures Depth(d) < Depth(id)
  {
  }

  function IdSet(steps: seq<Step>): set<string>
  {
    set s | s in steps :: s.id
  }

  /** No two steps share an id. */
  predicate DistinctIds(steps: seq<Step>)
  {
    forall i, j :: 0 <= i < j < |steps| ==> steps[i].id != steps[j].id
  }

  /** A step may run once each of its dependencies is processed or absent
      from the step list. */
  predicate CanRun(deps: string -> seq<string>, id: string, processed: set<string>, present: set<string>)
  {
    forall d :: d in deps(id) ==> d in processed || d !in present
  }

  /** The steps whose id is not yet processed. */
  function Unprocessed(xs: seq<Step>, processed: set<string>): (r: seq<Step>)
    ensures forall s :: s in r <==> s in xs && s.id !in processed
  {
    if |xs| == 0 then []
    else (if xs[0].id in processed then [] else [xs[0]]) + Unprocessed(xs[1..], processed)
  }

  /** One pass of the `for (const step of steps)` loop: the unprocessed
      steps that may run, in list order. */
  function Round(deps: string -> seq<string>, xs: seq<Step>, processed: set<string>, present: set<string>): (r: seq<Step>)
    ensures forall s :: s in r <==> s in xs && s.id !in processed && CanRun(deps, s.id, processed, present)
    ensures |r| <= |xs|
  {
    if |xs| == 0 then []
    else
      var head := if xs[0].id !in processed && CanRun(deps, xs[0].id, processed, present) then [xs[0]] else [];
      head + Round(deps, xs[1..], processed, present)
  }

  /** The `while` loop from the processed ids `processed`: the groups, or
      `None` when a pass finds nothing to run. */
  function GroupsFrom(deps: string -> seq<string>, steps: seq<Step>, processed: set<string>): (r: Option<seq<seq<Step>>>)
    requires processed <= IdSet(steps)
    decreases |IdSet(steps) - processed|
  {
    if |processed| >= |steps| then Some([])
    else
      var g := Round(deps, steps, processed, IdSet(steps));
      if |g| == 0 then None
      else
        var next := processed + IdSet(g);
        assert g[0].id in next - processed;
        ProperSubsetCard(IdSet(steps) - next, IdSet(steps) - processed);
        match GroupsFrom(deps, steps, next)
        case None => None
        case Some(rest) => Some([g] + rest)
  }

  /** `canParallelize(steps)`: the groups, or the whole list as a single
      group when the dependencies cannot be resolved. */
  function CanParallelize(steps: seq<Step>): seq<seq<Step>>
  {
    match GroupsFrom(Deps, steps, {})
    case None => [steps]
    case Some(groups) => groups
  }

  // ---------------------------------------------------------------------
  // Cardinality facts
  // ---------------------------------------------------------------------

  lemma {:induction false} ProperSubsetCard(a: set<string>, b: set<string>)
    requires a < b
    ensures |a| < |b|
  {
    var x :| x in b && x !in a;
    SubsetCard(a, b - {x});
  }

  lemma {:induction false} SubsetCard(a: set<string>, b: set<string>)
    requires a <= b
    ensures |a| <= |b|
    decreases |a|
  {
    if a != {} {
      var x :| x in a;
      SubsetCard(a - {x}, b - {x});
    }
  }

  lemma IdSetCons(steps: seq<Step>)
    requires |steps| > 0
    ensures IdSet(steps) == {steps[0].id} + IdSet(steps[1..])
  {
    assert steps == [steps[0]] + steps[1..];
  }

  lemma DistinctTail(steps: seq<Step>)
    requires |steps| > 0 && DistinctIds(steps)
    ensures DistinctIds(steps[1..]) && steps[0].id !in IdSet(steps[1..])
  {
    var t := steps[1..];
    forall i, j | 0 <= i < j < |t|
      ensures t[i].id != t[j].id
    {
      assert t[i] == steps[i + 1] && t[j] == steps[j + 1];
    }
    forall s | s in t
      ensures s.id != steps[0].id
    {
      var j :| 0 <= j < |t| && t[j] == s;
      assert steps[j + 1] == s;
    }
  }

  /** There are at most as many ids as steps, exactly as many when the ids
      are distinct. */
  lemma {:induction false} IdSetCard(steps: seq<Step>)
    ensures |IdSet(steps)| <= |steps|
    ensures DistinctIds(steps) ==> |IdSet(steps)| == |steps|
    decreases |steps|
  {
    if |steps| > 0 {
      IdSetCard(steps[1..]);
      IdSetCons(steps);
      if DistinctIds(steps) {
        DistinctTail(steps);
      }
    }
  }

  // ---------------------------------------------------------------------
  // Partition
  // ---------------------------------------------------------------------

  /** One pass splits the unprocessed steps into the pass's group and the
      steps still unprocessed after it. */
  lemma {:induction false} RoundSplit(deps: string -> seq<string>, xs: seq<Step>, processed: set<string>,
                                      present: set<string>, grouped: set<string>)
    requires forall i :: 0 <= i < |xs| && xs[i].id !in processed ==>
      (xs[i].id in grouped <==> CanRun(deps, xs[i].id, processed, present))
    ensures multiset(Unprocessed(xs, processed))
         == multiset(Round(deps, xs, processed, present)) + multiset(Unprocessed(xs, processed + grouped))
    decreases |xs|
  {
    if |xs| > 0 {
      var x, t := xs[0], xs[1..];
      assert forall i :: 0 <= i < |t| ==> t[i] == xs[i + 1];
      RoundSplit(deps, t, processed, present, grouped);
      var c := CanRun(deps, x.id, processed, present);
      assert x.id !in processed ==> (x.id in grouped <==> c) by {
        assert xs[0] == x;
      }
      UnprocessedCons(xs, processed);
      UnprocessedCons(xs, processed + grouped);
      RoundCons(deps, xs, processed, present);
      HeadSplit(x, processed, grouped, c);
      MultisetShuffle(if x.id in processed then [] else [x],
                      if x.id !in processed && c then [x] else [],
                      if x.id in processed + grouped then [] else [x],
                      Unprocessed(t, processed), Round(deps, t, processed, present),
                      Unprocessed(t, processed + grouped));
    }
  }

  lemma MultisetShuffle<T>(u: seq<T>, g: seq<T>, v: seq<T>, a: seq<T>, b: seq<T>, c: seq<T>)
    requires multiset(u) == multiset(g) + multiset(v) && multiset(a) == multiset(b) + multiset(c)
    ensures multiset(u + a) == multiset(g + b) + multiset(v + c)
  {
    calc {
      multiset(u + a);
      multiset(u) + multiset(a);
      multiset(g) + multiset(v) + multiset(b) + multiset(c);
      multiset(g + b) + multiset(v + c);
    }
  }

  lemma UnprocessedCons(xs: seq<Step>, processed: set<string>)
    requires |xs| > 0
    ensures Unprocessed(xs, processed) == (if xs[0].id in processed then [] else [xs[0]]) + Unprocessed(xs[1..], processed)
  {
  }

  lemma RoundCons(deps: string -> seq<string>, xs: seq<Step>, processed: set<string>, present: set<string>)
    requires |xs| > 0
    ensures Round(deps, xs, processed, present)
         == (if xs[0].id !in processed && CanRun(deps, xs[0].id, processed, present) then [xs[0]] else [])
          + Round(deps, xs[1..], processed, present)
  {
  }

  /** The head step is unprocessed exactly when it joins the pass or stays
      unprocessed after it. */
  lemma HeadSplit(x: Step, processed: set<string>, grouped: set<string>, canRun: bool)
    requires x.id !in processed ==> (x.id in grouped <==> canRun)
    ensures multiset(if x.id in processed then [] else [x])
         == multiset(if x.id !in processed && canRun then [x] else [])
          + multiset(if x.id in processed + grouped then [] else [x])
  {
  }

  /** A pass's ids are exactly the unprocessed ids that may run. */
  lemma Grouped(deps: string -> seq<string>, steps: seq<Step>, processed: set<string>)
    ensures var grouped := IdSet(Round(deps, steps, processed, IdSet(steps)));
      forall i :: 0 <= i < |steps| && steps[i].id !in processed ==>
        (steps[i].id in grouped <==> CanRun(deps, steps[i].id, processed, IdSet(steps)))
  {
    var g := Round(deps, steps, processed, IdSet(steps));
    forall i | 0 <= i < |steps| && steps[i].id !in processed
      ensures steps[i].id in IdSet(g) <==> CanRun(deps, steps[i].id, processed, IdSet(steps))
    {
      if CanRun(deps, steps[i].id, processed, IdSet(steps)) {
        assert steps[i] in g;
      }
    }
  }

  /** When as many ids are processed as there are steps, none is left. */
  lemma AllProcessed(steps: seq<Step>, processed: set<string>)
    requires processed <= IdSet(steps) && |processed| >= |steps|
    ensures Unprocessed(steps, processed) == []
  {
    IdSetCard(steps);
    SubsetCardEqual(processed, IdSet(steps));
    forall i | 0 <= i < |steps|
      ensures steps[i].id in processed
    {
      assert steps[i] in steps;
    }
    NoneUnprocessed(steps, processed);
  }

  /** A subset at least as large as its superset is the superset. */
  lemma SubsetCardEqual(a: set<string>, b: set<string>)
    requires a <= b && |a| >= |b|
    ensures a == b
  {
    if a != b {
      ProperSubsetCard(a, b);
    }
  }

  lemma {:induction false} NoneUnprocessed(xs: seq<Step>, processed: set<string>)
    requires forall i :: 0 <= i < |xs| ==> xs[i].id in processed
    ensures Unprocessed(xs, processed) == []
    decreases |xs|
  {
    if |xs| > 0 {
      assert forall i :: 0 <= i < |xs[1..]| ==> xs[1..][i] == xs[i + 1];
      NoneUnprocessed(xs[1..], processed);
    }
  }

  /** The next set of processed ids after a non-empty pass is closer to
      all ids. */
  lemma Advance(deps: string -> seq<string>, steps: seq<Step>, processed: set<string>)
    requires processed <= IdSet(steps)
    requires |Round(deps, steps, processed, IdSet(steps))| > 0
    ensures var next := processed + IdSet(Round(deps, steps, processed, IdSet(steps)));
      next <= IdSet(steps) && |IdSet(steps) - next| < |IdSet(steps) - processed|
  {
    var g := Round(deps, steps, processed, IdSet(steps));
    var next := processed + IdSet(g);
    assert g[0].id in next - processed;
    ProperSubsetCard(IdSet(steps) - next, IdSet(steps) - processed);
  }

  /** The groups hold exactly the unprocessed steps, each once. */
  lemma {:induction false} GroupsPartition(deps: string -> seq<string>, steps: seq<Step>, processed: set<string>)
    requires processed <= IdSet(steps)
    ensures GroupsFrom(deps, steps, processed).Some? ==>
      multiset(Flatten(GroupsFrom(deps, steps, processed).value)) == multiset(Unprocessed(steps, processed))
    decreases |IdSet(steps) - processed|
  {
    if |processed| >= |steps| {
      AllProcessed(steps, processed);
    } else {
      var g := Round(deps, steps, processed, IdSet(steps));
      if |g| > 0 {
        var next := processed + IdSet(g);
        Advance(deps, steps, processed);
        var r := GroupsFrom(deps, steps, next);
        if r.Some? {
          GroupsPartition(deps, steps, next);
          assert GroupsFrom(deps, steps, processed) == Some([g] + r.value);
          Grouped(deps, steps, processed);
          RoundSplit(deps, steps, processed, IdSet(steps), IdSet(g));
          FlattenCons(g, r.value);
        }
      }
    }
  }

  lemma {:induction false} UnprocessedNone(xs: seq<Step>)
    ensures Unprocessed(xs, {}) == xs
    decreases |xs|
  {
    if |xs| > 0 {
      UnprocessedNone(xs[1..]);
      assert xs == [xs[0]] + xs[1..];
    }
  }

  /** Every step lands in exactly one group, as often as it occurs. */
  lemma ParallelizePartition(steps: seq<Step>)
    ensures multiset(Flatten(CanParallelize(steps))) == multiset(steps)
  {
    GroupsPartition(Deps, steps, {});
    UnprocessedNone(steps);
    if GroupsFrom(Deps, steps, {}).None? {
      FlattenSingle(steps);
    }
  }

  // ---------------------------------------------------------------------
  // Dependency order and progress
  // ---------------------------------------------------------------------

  /** Every dependency of a grouped step that is in the list is processed
      before, or sits in an earlier group. */
  predicate DepsBefore(deps: string -> seq<string>, groups: seq<seq<Step>>, processed: set<string>, present: set<string>)
  {
    forall i, k, d :: 0 <= i < |groups| && 0 <= k < |groups[i]| && d in deps(groups[i][k].id) && d in present ==>
      d in processed || exists j :: 0 <= j < i && d in IdSet(groups[j])
  }

  predicate NonEmptyGroups(groups: seq<seq<Step>>)
  {
    forall i :: 0 <= i < |groups| ==> |groups[i]| > 0
  }

  lemma {:induction false} GroupsOrdered(deps: string -> seq<string>, steps: seq<Step>, processed: set<string>)
    requires processed <= IdSet(steps)
    ensures var r := GroupsFrom(deps, steps, processed);
      r.Some? ==> DepsBefore(deps, r.value, processed, IdSet(steps)) && NonEmptyGroups(r.value)
    decreases |IdSet(steps) - processed|
  {
    if |processed| < |steps| {
      var g := Round(deps, steps, processed, IdSet(steps));
      if |g| > 0 {
        var next := processed + IdSet(g);
        Advance(deps, steps, processed);
        var r := GroupsFrom(deps, steps, next);
        if r.Some? {
          GroupsOrdered(deps, steps, next);
          ConsDepsBefore(deps, g, r.value, processed, IdSet(steps));
        }
      }
    }
  }

  lemma ConsDepsBefore(deps: string -> seq<string>, g: seq<Step>, rest: seq<seq<Step>>,
                       processed: set<string>, present: set<string>)
    requires |g| > 0 && NonEmptyGroups(rest)
    requires forall k :: 0 <= k < |g| ==> CanRun(deps, g[k].id, processed, present)
    requires DepsBefore(deps, rest, processed + IdSet(g), present)
    ensures DepsBefore(deps, [g] + rest, processed, present) && NonEmptyGroups([g] + rest)
  {
    var groups: seq<seq<Step>> := [g] + rest;
    forall i: int, k: int, d: string | 0 <= i < |groups| && 0 <= k < |groups[i]| && d in deps(groups[i][k].id) && d in present
      ensures d in processed || exists j :: 0 <= j < i && d in IdSet(groups[j])
    {
      if i > 0 {
        assert groups[i] == rest[i - 1];
        if d !in processed && d in IdSet(g) {
          assert groups[0] == g;
        } else if d !in processed {
          var j :| 0 <= j < i - 1 && d in IdSet(rest[j]);
          assert groups[j + 1] == rest[j];
        }
      }
    }
    forall i | 0 <= i < |groups|
      ensures |groups[i]| > 0
    {
      if i > 0 {
        assert groups[i] == rest[i - 1];
      }
    }
  }

  /** `depth` ranks the dependency map: every dependency ranks lower. */
  ghost predicate Ranked(deps: string -> seq<string>, depth: string -> nat)
  {
    forall id, d :: d in deps(id) ==> depth(d) < depth(id)
  }

  /** Some step can always run while a step is unprocessed: follow
      unprocessed dependencies down the ranked map. */
  lemma {:induction false} Runnable(deps: string -> seq<string>, depth: string -> nat, steps: seq<Step>,
                                    processed: set<string>, s: Step)
    requires Ranked(deps, depth)
    requires s in steps && s.id !in processed
    ensures |Round(deps, steps, processed, IdSet(steps))| > 0
    decreases depth(s.id)
  {
    if CanRun(deps, s.id, processed, IdSet(steps)) {
      assert s in Round(deps, steps, processed, IdSet(steps));
    } else {
      var d :| d in deps(s.id) && d !in processed && d in IdSet(steps);
      var t :| t in steps && t.id == d;
      Runnable(deps, depth, steps, processed, t);
    }
  }

  /** With distinct ids and a ranked map the dependencies always resolve. */
  lemma {:induction false} GroupsProgress(deps: string -> seq<string>, depth: string -> nat, steps: seq<Step>,
                                          processed: set<string>)
    requires Ranked(deps, depth)
    requires processed <= IdSet(steps) && DistinctIds(steps)
    ensures GroupsFrom(deps, steps, processed).Some?
    decreases |IdSet(steps) - processed|
  {
    if |processed| < |steps| {
      var s := SomeUnprocessed(steps, processed);
      Runnable(deps, depth, steps, processed, s);
      var g := Round(deps, steps, processed, IdSet(steps));
      Advance(deps, steps, processed);
      GroupsProgress(deps, depth, steps, processed + IdSet(g));
    }
  }

  lemma SomeUnprocessed(steps: seq<Step>, processed: set<string>) returns (s: Step)
    requires processed <= IdSet(steps) && DistinctIds(steps) && |processed| < |steps|
    ensures s in steps && s.id !in processed
  {
    IdSetCard(steps);
    assert processed != IdSet(steps);
    var x :| x in IdSet(steps) && x !in processed;
    s :| s in steps && s.id == x;
  }

  /** The fixed dependency map is acyclic: `Depth` ranks it. */
  lemma DepsRanked()
    ensures Ranked(Deps, Depth)
  {
    forall id, d | d in Deps(id)
      ensures Depth(d) < Depth(id)
    {
      DepsShallower(id, d);
    }
  }

  /** With distinct ids, the groups are non-empty and every dependency of a
      step that is in the list lies in an earlier group; absent
      dependencies are ignored. */
  lemma ParallelizeOrdered(steps: seq<Step>)
    requires DistinctIds(steps)
    ensures GroupsFrom(Deps, steps, {}).Some?
    ensures DepsBefore(Deps, CanParallelize(steps), {}, IdSet(steps))
    ensures NonEmptyGroups(CanParallelize(steps))
  {
    DepsRanked();
    GroupsProgress(Deps, Depth, steps, {});
    GroupsOrdered(Deps, steps, {});
  }

  /** When a pass finds nothing to run, the whole list is one group. */
  lemma ParallelizeFallback(steps: seq<Step>)
    requires |steps| > 0 && |Round(Deps, steps, {}, IdSet(steps))| == 0
    ensures CanParallelize(steps) == [steps]
  {
  }

  /** Two steps with the same id: after the first pass both are processed,
      yet fewer ids than steps are processed, the next pass is empty and
      the list falls back to a single group. */
  lemma DuplicateFallback()
    ensures CanParallelize([Step("preprocess", "a"), Step("preprocess", "b")])
         == [[Step("preprocess", "a"), Step("preprocess", "b")]]
  {
    var steps := [Step("preprocess", "a"), Step("preprocess", "b")];
    var ids := {"preprocess"};
    assert IdSet(steps) == ids;
    assert Deps("preprocess") == [];
    assert CanRun(Deps, "preprocess", {}, ids);
    var g := Round(Deps, steps, {}, ids);
    assert g == steps;
    assert IdSet(g) == ids;
    assert Round(Deps, steps, ids, ids) == [];
    assert GroupsFrom(Deps, steps, ids) == None;
  }

  // ---------------------------------------------------------------------
  // Post-processing groups
  // ---------------------------------------------------------------------

  predicate IsPostProcessingId(id: string)
  {
    id == "quality" || id == "difficulty-balance" || id == "cloze-generator"
  }

  /** `isPostProcessingGroup(group)`. */
  function IsPostProcessingGroup(group: seq<Step>): (b: bool)
    ensures b <==> forall k :: 0 <= k < |group| ==> IsPostProcessingId(group[k].id)
  {
    if |group| == 0 then true
    else
      var rest := IsPostProcessingGroup(group[1..]);
      assert forall k :: 1 <= k < |group| ==> group[k] == group[1..][k - 1];
      IsPostProcessingId(group[0].id) && rest
  }

  /** A step's result: an array of cards or anything else. */
  datatype Value<C> = Cards(cards: seq<C>) | Other

  /** `combinePostProcessingResults(results, group, originalData)`: the
      last array result, or the original data when there is none. */
  function Combine<C>(results: seq<Value<C>>, original: Value<C>): (r: Value<C>)
    ensures r == original || r in results
  {
    if |results| == 0 then original
    else if results[|results| - 1].Cards? then results[|results| - 1]
    else Combine(results[..|results| - 1], original)
  }

  /** Entry `k` is the last array result. */
  predicate IsLastCards<C>(results: seq<Value<C>>, k: int)
  {
    0 <= k < |results| && results[k].Cards? && forall j :: k < j < |results| ==> !results[j].Cards?
  }

  /** The last array result wins; with none, the original data stays. */
  lemma {:induction false} CombineLast<C>(results: seq<Value<C>>, original: Value<C>)
    ensures (forall k :: 0 <= k < |results| ==> !results[k].Cards?) ==> Combine(results, original) == original
    ensures forall k :: IsLastCards(results, k) ==> Combine(results, original) == results[k]
    decreases |results|
  {
    if |results| > 0 {
      var n := |results| - 1;
      var init := results[..n];
      CombineLast(init, original);
      forall k | IsLastCards(results, k)
        ensures Combine(results, original) == results[k]
      {
        if k < n {
          assert init[k] == results[k];
          assert IsLastCards(init, k);
        }
      }
      if forall k :: 0 <= k < |results| ==> !results[k].Cards? {
        assert forall k :: 0 <= k < n ==> init[k] == results[k];
      }
    }
  }
}
