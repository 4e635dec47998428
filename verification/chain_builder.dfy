/** The flashcard chain (chain/chain_builder.js, `buildFlashcardChain`):
    the configuration read from the call's options and the GUI options, the
    seven nodes, the direct edges, and the refinement condition after the
    quality evaluation. The node handlers are parameters (they call the
    language model); the availability checks on `window` and the logging are
    left out. */
module ChainBuilder {
  import opened Wrappers
  import opened LangChain

  /** The options passed to the builder; every one may be missing. */
  datatype CallOptions = CallOptions(
    qualityThreshold: Option<int>, maxRefinements: Option<int>,
    enableCloze: Option<bool>, strictMode: Option<bool>)

  /** The pipeline options of the GUI. */
  datatype GuiOptions = GuiOptions(
    qualityThreshold: Option<int>, maxRefinements: Option<int>,
    enableCloze: Option<bool>, strictQuality: Option<bool>,
    chainBypassQuality: Option<bool>, chainDebugMode: Option<bool>)

  datatype Config = Config(
    qualityThreshold: int, maxRefinements: int, enableCloze: bool,
    strictMode: bool, bypassQuality: bool, debugMode: bool)

  const NoCallOptions := CallOptions(None, None, None, None)
  const NoGuiOptions := GuiOptions(None, None, None, None, None, None)

  /** `a || b` on numbers: a missing value and zero both fall through. */
  function NumberOr(a: Option<int>, b: int): int
  {
    if a.Some? && a.value != 0 then a.value else b
  }

  /** `x !== false`: only an explicit `false` switches a flag off. */
  predicate NotFalse(x: Option<bool>)
  {
    x != Some(false)
  }

  /** `x || false` on a flag. */
  predicate IsSet(x: Option<bool>)
  {
    x == Some(true)
  }

  function BuildConfig(o: CallOptions, g: GuiOptions): (r: Config)
    ensures r.qualityThreshold != 0 && r.maxRefinements != 0
    ensures r.qualityThreshold in {70} + (if o.qualityThreshold.Some? then {o.qualityThreshold.value} else {})
                                      + (if g.qualityThreshold.Some? then {g.qualityThreshold.value} else {})
    ensures r.maxRefinements in {2} + (if o.maxRefinements.Some? then {o.maxRefinements.value} else {})
                                    + (if g.maxRefinements.Some? then {g.maxRefinements.value} else {})
    ensures o.qualityThreshold.Some? && o.qualityThreshold.value != 0 ==> r.qualityThreshold == o.qualityThreshold.value
    ensures o.maxRefinements.Some? && o.maxRefinements.value != 0 ==> r.maxRefinements == o.maxRefinements.value
    ensures r.enableCloze <==> o.enableCloze != Some(false) && g.enableCloze != Some(false)
    ensures r.strictMode <==> o.strictMode != Some(false) && g.strictQuality != Some(false)
    ensures r.bypassQuality <==> g.chainBypassQuality == Some(true)
    ensures r.debugMode <==> g.chainDebugMode == Some(true)
  {
    Config(
      NumberOr(o.qualityThreshold, NumberOr(g.qualityThreshold, 70)),
      NumberOr(o.maxRefinements, NumberOr(g.maxRefinements, 2)),
      NotFalse(o.enableCloze) && NotFalse(g.enableCloze),
      NotFalse(o.strictMode) && NotFalse(g.strictQuality),
      IsSet(g.chainBypassQuality),
      IsSet(g.chainDebugMode))
  }

  /** With no options at all: threshold 70, two refinements, cloze and
      strict mode on, bypass and debug off. */
  lemma ConfigDefaults()
    ensures BuildConfig(NoCallOptions, NoGuiOptions) == Config(70, 2, true, true, false, false)
  {
  }

  /** A zero threshold or refinement count is not a setting: it falls
      through to the GUI value and then to the default. */
  lemma ZeroFallsThrough(o: CallOptions, g: GuiOptions)
    requires o.qualityThreshold == Some(0) && o.maxRefinements == Some(0)
    requires g.qualityThreshold.None? && g.maxRefinements == Some(0)
    ensures BuildConfig(o, g).qualityThreshold == 70 && BuildConfig(o, g).maxRefinements == 2
  {
  }

  const Approved := "approved"
  const NeedsRefinement := "needs_refinement"
  const MaxAttempts := "max_attempts"

  /** Where each outcome of the quality condition leads. */
  const RefinementTargets: map<string, string> :=
    map[Approved := "generate_cloze", NeedsRefinement := "refine_with_feedback", MaxAttempts := "generate_cloze"]

  /** `state.generation || 1`: a missing or zero generation counts as the
      first. */
  function GenerationOr(generation: Option<int>): int
  {
    if generation.Some? && generation.value != 0 then generation.value else 1
  }

  /** The condition after `evaluate_quality`. */
  function RefinementRoute(needsRefinement: bool, generation: Option<int>, maxRefinements: int): (r: string)
    ensures r in RefinementTargets
    ensures r == Approved <==> !needsRefinement
    ensures r == NeedsRefinement <==> needsRefinement && GenerationOr(generation) < maxRefinements
    ensures r == MaxAttempts <==> needsRefinement && GenerationOr(generation) >= maxRefinements
  {
    if !needsRefinement then Approved
    else if GenerationOr(generation) >= maxRefinements then MaxAttempts
    else NeedsRefinement
  }

  /** What the condition reads of a state: whether it needs refinement
      (a missing flag is false) and its generation. */
  datatype StateView<!S> = StateView(needsRefinement: S -> bool, generation: S -> Option<int>)

  function RefinementCondition<S>(view: StateView<S>, maxRefinements: int): S -> CondOutcome
  {
    s => Key(RefinementRoute(view.needsRefinement(s), view.generation(s), maxRefinements))
  }

  /** The handlers of the seven nodes. */
  datatype Handlers<!S> = Handlers(
    contentTypeAnalysis: S -> Exec<S>, qualityFilter: S -> Exec<S>,
    generateInitial: S -> Exec<S>, evaluateQuality: S -> Exec<S>,
    refineWithFeedback: S -> Exec<S>, generateClozeVariants: S -> Exec<S>,
    finalize: S -> Exec<S>)

  /** The `.addEdge` calls of one stretch of the fluent chain: a thrown
      error skips the rest. */
  function AddEdges<S>(c: Result<Chain<S>>, es: seq<Edge>): (r: Result<Chain<S>>)
    ensures c.Err? ==> r == c
    ensures c.Ok? && (forall i :: 0 <= i < |es| ==> es[i].from in c.value.nodes && es[i].to in c.value.nodes)
      ==> r == Ok(c.value.(edges := c.value.edges + es))
    decreases |es|
  {
    if c.Err? then c
    else if |es| == 0 then
      assert c.value.edges + es == c.value.edges;
      c
    else
      var next := AddEdge(c.value, es[0].from, es[0].to);
      assert c.Ok? && next.Ok? ==> c.value.edges + es == next.value.edges + es[1..];
      AddEdges(next, es[1..])
  }

  /** An `addEdge` after a failed call is not reached, and one whose ends
      are unknown throws. */
  lemma {:induction false} AddEdgesFailure<S>(c: Chain<S>, es: seq<Edge>, k: nat)
    requires k < |es| && (es[k].from !in c.nodes || es[k].to !in c.nodes)
    ensures AddEdges(Ok(c), es).Err?
    decreases k
  {
    var next := AddEdge(c, es[0].from, es[0].to);
    if k > 0 && next.Ok? {
      assert es[1..][k - 1] == es[k];
      AddEdgesFailure(next.value, es[1..], k - 1);
    }
  }

  /** The ids of the seven nodes. */
  datatype NodeNames = NodeNames(
    contentAnalysis: string, qualityFilter: string, generateInitial: string,
    evaluateQuality: string, refineWithFeedback: string, generateCloze: string,
    finalize: string)

  const FlashcardNodes := NodeNames(
    "content_analysis", "quality_filter", "generate_initial", "evaluate_quality",
    "refine_with_feedback", "generate_cloze", "finalize")

  function NodeSet(n: NodeNames): set<string>
  {
    {n.contentAnalysis, n.qualityFilter, n.generateInitial, n.evaluateQuality,
     n.refineWithFeedback, n.generateCloze, n.finalize}
  }

  /** No two nodes share an id. */
  predicate Distinct(n: NodeNames)
  {
    && n.contentAnalysis !in {n.qualityFilter, n.generateInitial, n.evaluateQuality, n.refineWithFeedback, n.generateCloze, n.finalize}
    && n.qualityFilter !in {n.generateInitial, n.evaluateQuality, n.refineWithFeedback, n.generateCloze, n.finalize}
    && n.generateInitial !in {n.evaluateQuality, n.refineWithFeedback, n.generateCloze, n.finalize}
    && n.evaluateQuality !in {n.refineWithFeedback, n.generateCloze, n.finalize}
    && n.refineWithFeedback !in {n.generateCloze, n.finalize}
    && n.generateCloze != n.finalize
  }

  lemma FlashcardNodesDistinct()
    ensures Distinct(FlashcardNodes)
  {
    var n := FlashcardNodes;
    assert n.contentAnalysis[0] == 'c' && n.generateInitial[0] == 'g' && n.evaluateQuality[0] == 'e';
    assert n.qualityFilter[0] == 'q' && n.generateCloze[0] == 'g';
  }

  function Nodes<S>(n: NodeNames, h: Handlers<S>): (r: Chain<S>)
    ensures n.contentAnalysis in r.nodes && n.qualityFilter in r.nodes && n.generateInitial in r.nodes
    ensures n.evaluateQuality in r.nodes && n.refineWithFeedback in r.nodes
    ensures n.generateCloze in r.nodes && n.finalize in r.nodes
    ensures r.edges == [] && r.conditionals == map[] && r.entry.None?
  {
    var c := AddNode(NewChain(), n.contentAnalysis, h.contentTypeAnalysis);
    var c := AddNode(c, n.qualityFilter, h.qualityFilter);
    var c := AddNode(c, n.generateInitial, h.generateInitial);
    var c := AddNode(c, n.evaluateQuality, h.evaluateQuality);
    var c := AddNode(c, n.refineWithFeedback, h.refineWithFeedback);
    var c := AddNode(c, n.generateCloze, h.generateClozeVariants);
    AddNode(c, n.finalize, h.finalize)
  }

  /** The direct edges into the evaluation, in the order they are added ... */
  function EdgesBefore(n: NodeNames): seq<Edge>
  {
    [Edge(n.contentAnalysis, n.qualityFilter),
     Edge(n.qualityFilter, n.generateInitial),
     Edge(n.generateInitial, n.evaluateQuality)]
  }

  /** ... and those added after the conditional edge. */
  function EdgesAfter(n: NodeNames): seq<Edge>
  {
    [Edge(n.refineWithFeedback, n.evaluateQuality),
     Edge(n.generateCloze, n.finalize)]
  }

  /** The direct edges into the evaluation. */
  function WireBefore<S>(c: Chain<S>, n: NodeNames): (r: Result<Chain<S>>)
    requires n.contentAnalysis in c.nodes && n.qualityFilter in c.nodes
    requires n.generateInitial in c.nodes && n.evaluateQuality in c.nodes
    ensures r == Ok(c.(edges := c.edges + EdgesBefore(n)))
  {
    AddEdges(Ok(c), EdgesBefore(n))
  }

  /** The direct edges after the conditional edge. */
  function WireAfter<S>(c: Chain<S>, n: NodeNames): (r: Result<Chain<S>>)
    requires n.refineWithFeedback in c.nodes && n.evaluateQuality in c.nodes
    requires n.generateCloze in c.nodes && n.finalize in c.nodes
    ensures r == Ok(c.(edges := c.edges + EdgesAfter(n)))
  {
    AddEdges(Ok(c), EdgesAfter(n))
  }

  /** The edges of the chain, the conditional one between the two
      stretches of direct edges. */
  function Wire<S>(c: Chain<S>, n: NodeNames, cond: Conditional<S>): (r: Result<Chain<S>>)
    requires n.contentAnalysis in c.nodes && n.qualityFilter in c.nodes && n.generateInitial in c.nodes
    requires n.evaluateQuality in c.nodes && n.refineWithFeedback in c.nodes
    requires n.generateCloze in c.nodes && n.finalize in c.nodes
    ensures r.Ok? && r.value.nodes == c.nodes && r.value.entry == c.entry
    ensures r.value.edges == c.edges + EdgesBefore(n) + EdgesAfter(n)
    ensures r.value.conditionals.Keys == c.conditionals.Keys + {n.evaluateQuality}
    ensures r.value.conditionals[n.evaluateQuality] == cond
  {
    var c1 := WireBefore(c, n);
    var c2 := AddConditionalEdge(c1.value, n.evaluateQuality, cond);
    WireAfter(c2, n)
  }

  /** The entry point and the edges on a chain holding the seven nodes. */
  function Assemble<S>(n: NodeNames, base: Chain<S>, cond: Conditional<S>): (r: Result<Chain<S>>)
    requires n.contentAnalysis in base.nodes && n.qualityFilter in base.nodes && n.generateInitial in base.nodes
    requires n.evaluateQuality in base.nodes && n.refineWithFeedback in base.nodes
    requires n.generateCloze in base.nodes && n.finalize in base.nodes
    requires base.edges == [] && base.conditionals == map[]
    ensures r.Ok? && r.value.nodes == base.nodes
    ensures r.value.entry == Some(n.contentAnalysis)
    ensures r.value.edges == EdgesBefore(n) + EdgesAfter(n)
    ensures r.value.conditionals.Keys == {n.evaluateQuality}
    ensures r.value.conditionals[n.evaluateQuality] == cond
  {
    var c0 := SetEntryPoint(base, n.contentAnalysis);
    if c0.Err? then c0 else Wire(c0.value, n, cond)
  }

  /** The chain with the node ids `n`: every `addEdge` and the entry point
      name known nodes, so building never throws. */
  function BuildChain<S>(n: NodeNames, h: Handlers<S>, view: StateView<S>, config: Config): (r: Result<Chain<S>>)
    ensures r.Ok?
    ensures r.value.entry == Some(n.contentAnalysis)
    ensures r.value.nodes == Nodes(n, h).nodes
    ensures r.value.edges == EdgesBefore(n) + EdgesAfter(n)
    ensures r.value.conditionals.Keys == {n.evaluateQuality}
    ensures r.value.conditionals[n.evaluateQuality]
         == Conditional(RefinementCondition(view, config.maxRefinements), RefinementTargets)
  {
    Assemble(n, Nodes(n, h), Conditional(RefinementCondition(view, config.maxRefinements), RefinementTargets))
  }

  /** `buildFlashcardChain(options)`. */
  function BuildFlashcardChain<S>(h: Handlers<S>, view: StateView<S>, o: CallOptions, g: GuiOptions): (r: Result<Chain<S>>)
    ensures r.Ok? && r.value.entry == Some("content_analysis")
  {
    BuildChain(FlashcardNodes, h, view, BuildConfig(o, g))
  }

  /** The direct routes into the evaluation of a chain with the flashcard
      chain's edges ... */
  lemma RoutesBefore<S>(c: Chain<S>, n: NodeNames, s: S)
    requires Distinct(n)
    requires c.edges == EdgesBefore(n) + EdgesAfter(n) && c.conditionals.Keys == {n.evaluateQuality}
    ensures NextNode(c, n.contentAnalysis, s) == Some(n.qualityFilter)
    ensures NextNode(c, n.qualityFilter, s) == Some(n.generateInitial)
    ensures NextNode(c, n.generateInitial, s) == Some(n.evaluateQuality)
  {
    var es := c.edges;
    assert es[0] == Edge(n.contentAnalysis, n.qualityFilter);
    assert es[1] == Edge(n.qualityFilter, n.generateInitial);
    assert es[2] == Edge(n.generateInitial, n.evaluateQuality);
    DirectRoute(c, n.contentAnalysis, 0, s);
    DirectRoute(c, n.qualityFilter, 1, s);
    DirectRoute(c, n.generateInitial, 2, s);
  }

  /** ... and after it. */
  lemma RoutesAfter<S>(c: Chain<S>, n: NodeNames, s: S)
    requires Distinct(n)
    requires c.edges == EdgesBefore(n) + EdgesAfter(n) && c.conditionals.Keys == {n.evaluateQuality}
    ensures NextNode(c, n.refineWithFeedback, s) == Some(n.evaluateQuality)
    ensures NextNode(c, n.generateCloze, s) == Some(n.finalize)
    ensures NextNode(c, n.finalize, s) == None
  {
    var es := c.edges;
    assert es[0].from == n.contentAnalysis && es[1].from == n.qualityFilter && es[2].from == n.generateInitial;
    assert es[3] == Edge(n.refineWithFeedback, n.evaluateQuality);
    assert es[4] == Edge(n.generateCloze, n.finalize);
    assert |es| == 5;
    DirectRoute(c, n.refineWithFeedback, 3, s);
    DirectRoute(c, n.generateCloze, 4, s);
  }

  /** The routes of the chain: a straight line into the evaluation, then
      back through refinement or on to the cloze variants and the end. */
  lemma Routes<S>(n: NodeNames, h: Handlers<S>, view: StateView<S>, config: Config, s: S)
    requires Distinct(n)
    ensures var c := BuildChain(n, h, view, config).value;
      && NextNode(c, n.contentAnalysis, s) == Some(n.qualityFilter)
      && NextNode(c, n.qualityFilter, s) == Some(n.generateInitial)
      && NextNode(c, n.generateInitial, s) == Some(n.evaluateQuality)
      && NextNode(c, n.refineWithFeedback, s) == Some(n.evaluateQuality)
      && NextNode(c, n.generateCloze, s) == Some(n.finalize)
      && NextNode(c, n.finalize, s) == None
  {
    RoutesBefore(BuildChain(n, h, view, config).value, n, s);
    RoutesAfter(BuildChain(n, h, view, config).value, n, s);
  }

  /** The step out of a node carrying the refinement condition. */
  lemma RefinementStep<S>(c: Chain<S>, id: string, view: StateView<S>, maxRefinements: int, s: S)
    requires id in c.conditionals
    requires c.conditionals[id] == Conditional(RefinementCondition(view, maxRefinements), RefinementTargets)
    ensures NextNode(c, id, s)
         == if view.needsRefinement(s) && GenerationOr(view.generation(s)) < maxRefinements
            then Some("refine_with_feedback") else Some("generate_cloze")
  {
    var k := RefinementRoute(view.needsRefinement(s), view.generation(s), maxRefinements);
    assert c.conditionals[id].condition(s) == Key(k);
  }

  /** After the evaluation, a state is refined exactly when it needs it and
      its generation is below the configured maximum; otherwise the chain
      moves on to the cloze variants. */
  lemma EvaluationRoute<S>(n: NodeNames, h: Handlers<S>, view: StateView<S>, config: Config, s: S)
    ensures var c := BuildChain(n, h, view, config).value;
      NextNode(c, n.evaluateQuality, s)
        == if view.needsRefinement(s) && GenerationOr(view.generation(s)) < config.maxRefinements
           then Some("refine_with_feedback") else Some("generate_cloze")
  {
    var c := BuildChain(n, h, view, config).value;
    RefinementStep(c, n.evaluateQuality, view, config.maxRefinements, s);
  }

  /** The flashcard chain's own routes: from the entry to the evaluation
      and from the cloze variants to the end, and the refinement decision
      with the configured maximum. */
  lemma FlashcardRoutes<S>(h: Handlers<S>, view: StateView<S>, o: CallOptions, g: GuiOptions, s: S)
    ensures var c := BuildFlashcardChain(h, view, o, g).value;
      && NextNode(c, "content_analysis", s) == Some("quality_filter")
      && NextNode(c, "generate_initial", s) == Some("evaluate_quality")
      && NextNode(c, "refine_with_feedback", s) == Some("evaluate_quality")
      && NextNode(c, "evaluate_quality", s)
         == (if view.needsRefinement(s) && GenerationOr(view.generation(s)) < BuildConfig(o, g).maxRefinements
             then Some("refine_with_feedback") else Some("generate_cloze"))
      && NextNode(c, "generate_cloze", s) == Some("finalize")
      && NextNode(c, "finalize", s) == None
  {
    FlashcardNodesDistinct();
    Routes(FlashcardNodes, h, view, BuildConfig(o, g), s);
    EvaluationRoute(FlashcardNodes, h, view, BuildConfig(o, g), s);
  }
}
