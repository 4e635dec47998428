/** The `/generate_cloze` endpoint of Flashgen/server.py: cloze variants of
    each card's answer, built from its named entities, noun phrases, verb
    phrases and sentence heads. The language model is the `annotate`
    parameter. */
module ServerCloze {
  import opened Wrappers
  import opened Seqs
  import opened Strings
  import opened Sorting
  import opened Annotation
  import opened Clauses
  import opened ServerSyntax

  datatype Card = Card(question: string, answer: string)

  /** The `config` of the request; an absent key is `None` and takes the
      endpoint's default (a missing `config` is the default dictionary,
      which holds the same values). */
  datatype ClozeConfig = ClozeConfig(
    nounPhrases: Option<bool>,
    verbPhrases: Option<bool>,
    namedEntities: Option<bool>,
    syntacticHeads: Option<bool>)

  datatype VariantKind = NamedEntity | NounPhrase | VerbPhrase | SyntacticHead

  /** A candidate cloze: the answer with its target marked. */
  datatype Variant = Variant(text: string, kind: VariantKind, target: string)

  /** A generated card; its `type` is always "cloze". */
  datatype ClozeCard = ClozeCard(
    question: string,
    answer: string,
    clozeType: VariantKind,
    target: string,
    original: Card)

  datatype ClozeStats = ClozeStats(originalCards: nat, generatedCloze: nat, variantsPerCard: real)

  datatype ClozeResponse = ClozeResponse(clozeCards: seq<ClozeCard>, stats: ClozeStats)

  const ClozeLanguages: seq<string> := ["en", "es", "fr"]
  const DefaultLanguage: string := "es"

  /** The entity labels that make a variant. */
  const ClozeLabels: seq<string> := ["PERSON", "ORG", "GPE", "LOC", "DATE", "EVENT"]

  /** At most this many variants are kept per card. */
  const MaxVariants: nat := 3

  const ClozeOpen: string := "{{c1::"
  const ClozeClose: string := "}}"

  function KindName(k: VariantKind): string
  {
    match k
    case NamedEntity => "named_entity"
    case NounPhrase => "noun_phrase"
    case VerbPhrase => "verb_phrase"
    case SyntacticHead => "syntactic_head"
  }

  /** Whether the configuration turns a kind of variant on; syntactic heads
      are off unless asked for, the other kinds on. */
  predicate Enabled(cfg: ClozeConfig, k: VariantKind)
  {
    match k
    case NamedEntity => cfg.namedEntities.GetOr(true)
    case NounPhrase => cfg.nounPhrases.GetOr(true)
    case VerbPhrase => cfg.verbPhrases.GetOr(true)
    case SyntacticHead => cfg.syntacticHeads.GetOr(false)
  }

  /** The position of a kind in the order the endpoint tries them. */
  function Rank(k: VariantKind): nat
  {
    match k
    case NamedEntity => 0
    case NounPhrase => 1
    case VerbPhrase => 2
    case SyntacticHead => 3
  }

  /** `answer.replace(target, "{{c1::" + target + "}}", 1)`. */
  function Wrap(answer: string, target: string): string
  {
    ReplaceFirst(answer, target, ClozeOpen + target + ClozeClose)
  }

  /** The cloze marks the first occurrence of the target and nothing else:
      taking the markers out around that occurrence gives the answer back.
      An answer without the target is left as it is. */
  lemma WrapFirst(answer: string, target: string)
    ensures !Contains(answer, target) ==> Wrap(answer, target) == answer
    ensures Contains(answer, target) ==>
      var i := IndexOf(answer, target).value;
      var r := Wrap(answer, target);
      && OccursAt(answer, target, i)
      && (forall j :: 0 <= j < i ==> !OccursAt(answer, target, j))
      && r == answer[..i] + ClozeOpen + target + ClozeClose + answer[i + |target|..]
      && r[..i] + target + r[i + |ClozeOpen| + |target| + |ClozeClose|..] == answer
  {
    if Contains(answer, target) {
      var i := IndexOf(answer, target).value;
      var r := Wrap(answer, target);
      assert OccursAt(answer, target, i);
      assert r[..i] == answer[..i];
      assert r[i + |ClozeOpen| + |target| + |ClozeClose|..] == answer[i + |target|..];
      assert answer[..i] + target + answer[i + |target|..] == answer by {
        assert answer[i..i + |target|] == target;
        assert answer == answer[..i] + answer[i..i + |target|] + answer[i + |target|..];
      }
    }
  }

  function MakeVariant(answer: string, kind: VariantKind, target: string): Variant
  {
    Variant(Wrap(answer, target), kind, target)
  }

  // ---------------------------------------------------------------------
  // The four sources of variants
  // ---------------------------------------------------------------------

  predicate ClozeEntity(e: Span)
  {
    e.tag in ClozeLabels
  }

  function EntityVariants(doc: Doc, answer: string): seq<Variant>
  {
    Map(Filter(doc.ents, ClozeEntity),
      (e: Span) => MakeVariant(answer, NamedEntity, SpanText(doc, e.start, e.end)))
  }

  /** A noun chunk of two or more words. */
  predicate ClozePhrase(doc: Doc, nc: Span)
  {
    |Words(SpanText(doc, nc.start, nc.end))| >= 2
  }

  function NounPhraseVariants(doc: Doc, answer: string): seq<Variant>
  {
    Map(Filter(doc.nounChunks, (nc: Span) => ClozePhrase(doc, nc)),
      (nc: Span) => MakeVariant(answer, NounPhrase, SpanText(doc, nc.start, nc.end)))
  }

  predicate IsObject(doc: Doc, c: nat)
  {
    c < |doc.tokens| && doc.tokens[c].dep in ["obj", "dobj"]
  }

  function Objects(doc: Doc, t: nat): seq<nat>
  {
    Filter(Children(doc, t), (c: nat) => IsObject(doc, c))
  }

  /** `vp_tokens`: the verb followed by the subtree of each object child. */
  function ObjectTokens(doc: Doc, t: nat): seq<nat>
  {
    [t] + Flatten(Map(Objects(doc, t), (c: nat) => Subtree(doc, c)))
  }

  /** The verb has a phrase (`len(vp_tokens) > 1`) exactly when it has an
      object child, since every subtree holds its own root. */
  lemma ObjectTokensLong(doc: Doc, t: nat)
    ensures |ObjectTokens(doc, t)| > 1 <==> |Objects(doc, t)| > 0
  {
    var parts := Map(Objects(doc, t), (c: nat) => Subtree(doc, c));
    forall i | 0 <= i < |parts|
      ensures |parts[i]| >= 1
    {
      SubtreeMembers(doc, Objects(doc, t)[i], Objects(doc, t)[i]);
    }
    FlattenLength(parts);
  }

  /** The phrase tokens of a verb, each once, in document order: the verb
      and every token under one of its objects. */
  function VerbPhraseTokens(doc: Doc, t: nat): (r: seq<nat>)
    ensures StrictlySorted(r)
    ensures forall x :: x in r <==> x in ObjectTokens(doc, t)
  {
    SortUnique(ObjectTokens(doc, t))
  }

  predicate HasObjectPhrase(doc: Doc, t: nat)
  {
    IsVerbToken(doc, t) && |ObjectTokens(doc, t)| > 1
  }

  predicate IsVerbToken(doc: Doc, t: nat)
  {
    t < |doc.tokens| && doc.tokens[t].pos == "VERB"
  }

  function VerbPhraseVariants(doc: Doc, answer: string): seq<Variant>
  {
    Map(Filter(Range(0, |doc.tokens|), (t: nat) => HasObjectPhrase(doc, t)),
      (t: nat) => MakeVariant(answer, VerbPhrase, JoinTokenTexts(doc, VerbPhraseTokens(doc, t))))
  }

  predicate IsHeadChild(doc: Doc, c: nat)
  {
    c < |doc.tokens| && doc.tokens[c].dep in ["nsubj", "obj", "dobj"]
  }

  /** The head of sentence `k`: its first root, with the subject and object
      children, in document order. */
  function HeadTokens(doc: Doc, root: nat): (r: seq<nat>)
    ensures Sorted(r)
    ensures forall x :: x in r <==> x == root || (IsChildOf(doc, x, root) && IsHeadChild(doc, x))
  {
    var cs := Filter(Children(doc, root), (c: nat) => IsHeadChild(doc, c));
    var r := Sort([root] + cs);
    assert forall x :: x in r <==> x in [root] + cs by {
      forall x
        ensures x in r <==> x in [root] + cs
      {
        assert x in r <==> x in multiset(r);
        assert x in [root] + cs <==> x in multiset([root] + cs);
      }
    }
    r
  }

  function HeadVariant(doc: Doc, answer: string, k: nat): seq<Variant>
  {
    var roots := RootsOf(doc, k);
    if |roots| == 0 then []
    else [MakeVariant(answer, SyntacticHead, JoinTokenTexts(doc, HeadTokens(doc, roots[0])))]
  }

  function HeadVariants(doc: Doc, answer: string): seq<Variant>
  {
    Flatten(Map(Range(0, |doc.sents|), (k: nat) => HeadVariant(doc, answer, k)))
  }

  // ---------------------------------------------------------------------
  // Assembling the variants of one card
  // ---------------------------------------------------------------------

  /** Every variant is of kind `k` and wraps its target in the answer. */
  predicate Uniform(vs: seq<Variant>, answer: string, k: VariantKind)
  {
    forall i :: 0 <= i < |vs| ==> vs[i].kind == k && vs[i].text == Wrap(answer, vs[i].target)
  }

  /** The variants wrap their targets, come from enabled kinds only and are
      grouped by kind in the order entities, noun phrases, verb phrases,
      heads. */
  predicate WellOrdered(vs: seq<Variant>, answer: string, cfg: ClozeConfig)
  {
    && (forall i :: 0 <= i < |vs| ==> vs[i].text == Wrap(answer, vs[i].target) && Enabled(cfg, vs[i].kind))
    && (forall i, j :: 0 <= i < j < |vs| ==> Rank(vs[i].kind) <= Rank(vs[j].kind))
  }

  function Block(on: bool, vs: seq<Variant>): seq<Variant>
  {
    if on then vs else []
  }

  /** Appending a block of one enabled kind ranked after everything so far
      keeps the variants well ordered. */
  lemma AppendBlock(a: seq<Variant>, b: seq<Variant>, answer: string, cfg: ClozeConfig, k: VariantKind, on: bool)
    requires WellOrdered(a, answer, cfg)
    requires forall i :: 0 <= i < |a| ==> Rank(a[i].kind) <= Rank(k)
    requires on ==> Enabled(cfg, k)
    requires Uniform(b, answer, k)
    ensures WellOrdered(a + Block(on, b), answer, cfg)
    ensures forall i :: 0 <= i < |a + Block(on, b)| ==> Rank((a + Block(on, b))[i].kind) <= Rank(k)
  {
  }

  lemma EntityVariantsUniform(doc: Doc, answer: string)
    ensures Uniform(EntityVariants(doc, answer), answer, NamedEntity)
  {
  }

  lemma NounPhraseVariantsUniform(doc: Doc, answer: string)
    ensures Uniform(NounPhraseVariants(doc, answer), answer, NounPhrase)
  {
  }

  lemma VerbPhraseVariantsUniform(doc: Doc, answer: string)
    ensures Uniform(VerbPhraseVariants(doc, answer), answer, VerbPhrase)
  {
  }

  lemma HeadVariantsUniform(doc: Doc, answer: string)
    ensures Uniform(HeadVariants(doc, answer), answer, SyntacticHead)
  {
    var groups := Map(Range(0, |doc.sents|), (k: nat) => HeadVariant(doc, answer, k));
    FlattenForall(groups, (v: Variant) => v.kind == SyntacticHead && v.text == Wrap(answer, v.target));
  }

  /** All candidate variants, in the order the endpoint produces them. */
  function AllVariants(doc: Doc, answer: string, cfg: ClozeConfig): seq<Variant>
  {
    Block(Enabled(cfg, NamedEntity), EntityVariants(doc, answer))
    + Block(Enabled(cfg, NounPhrase), NounPhraseVariants(doc, answer))
    + Block(Enabled(cfg, VerbPhrase), VerbPhraseVariants(doc, answer))
    + Block(Enabled(cfg, SyntacticHead), HeadVariants(doc, answer))
  }

  /** The candidates wrap their targets, come from enabled kinds only and
      keep the endpoint's order of kinds. */
  lemma AllVariantsWellOrdered(doc: Doc, answer: string, cfg: ClozeConfig)
    ensures WellOrdered(AllVariants(doc, answer, cfg), answer, cfg)
  {
    EntityVariantsUniform(doc, answer);
    NounPhraseVariantsUniform(doc, answer);
    VerbPhraseVariantsUniform(doc, answer);
    HeadVariantsUniform(doc, answer);
    FourBlocks(EntityVariants(doc, answer), NounPhraseVariants(doc, answer),
      VerbPhraseVariants(doc, answer), HeadVariants(doc, answer), answer, cfg);
  }

  lemma FourBlocks(e: seq<Variant>, n: seq<Variant>, v: seq<Variant>, h: seq<Variant>, answer: string, cfg: ClozeConfig)
    requires Uniform(e, answer, NamedEntity) && Uniform(n, answer, NounPhrase)
    requires Uniform(v, answer, VerbPhrase) && Uniform(h, answer, SyntacticHead)
    ensures WellOrdered(
      Block(Enabled(cfg, NamedEntity), e) + Block(Enabled(cfg, NounPhrase), n)
      + Block(Enabled(cfg, VerbPhrase), v) + Block(Enabled(cfg, SyntacticHead), h), answer, cfg)
  {
    var a := Block(Enabled(cfg, NamedEntity), e) + Block(Enabled(cfg, NounPhrase), n)
      + Block(Enabled(cfg, VerbPhrase), v);
    ThreeBlocks(e, n, v, answer, cfg);
    AppendBlock(a, h, answer, cfg, SyntacticHead, Enabled(cfg, SyntacticHead));
  }

  lemma ThreeBlocks(e: seq<Variant>, n: seq<Variant>, v: seq<Variant>, answer: string, cfg: ClozeConfig)
    requires Uniform(e, answer, NamedEntity) && Uniform(n, answer, NounPhrase) && Uniform(v, answer, VerbPhrase)
    ensures var a := Block(Enabled(cfg, NamedEntity), e) + Block(Enabled(cfg, NounPhrase), n)
      + Block(Enabled(cfg, VerbPhrase), v);
      WellOrdered(a, answer, cfg) && forall i :: 0 <= i < |a| ==> Rank(a[i].kind) <= Rank(VerbPhrase)
  {
    var a := Block(Enabled(cfg, NamedEntity), e) + Block(Enabled(cfg, NounPhrase), n);
    TwoBlocks(e, n, answer, cfg);
    AppendBlock(a, v, answer, cfg, VerbPhrase, Enabled(cfg, VerbPhrase));
  }

  lemma TwoBlocks(e: seq<Variant>, n: seq<Variant>, answer: string, cfg: ClozeConfig)
    requires Uniform(e, answer, NamedEntity) && Uniform(n, answer, NounPhrase)
    ensures var a := Block(Enabled(cfg, NamedEntity), e) + Block(Enabled(cfg, NounPhrase), n);
      WellOrdered(a, answer, cfg) && forall i :: 0 <= i < |a| ==> Rank(a[i].kind) <= Rank(NounPhrase)
  {
    var be := Block(Enabled(cfg, NamedEntity), e);
    AppendBlock([], e, answer, cfg, NamedEntity, Enabled(cfg, NamedEntity));
    assert [] + be == be;
    AppendBlock(be, n, answer, cfg, NounPhrase, Enabled(cfg, NounPhrase));
  }

  /** `variants[:3]`. */
  function Kept(vs: seq<Variant>): (r: seq<Variant>)
    ensures |r| <= MaxVariants
    ensures |r| == if |vs| < MaxVariants then |vs| else MaxVariants
    ensures r == vs[..|r|]
  {
    if |vs| <= MaxVariants then vs else vs[..MaxVariants]
  }

  function ToCard(card: Card, v: Variant): ClozeCard
  {
    ClozeCard(card.question + " (Cloze - " + KindName(v.kind) + ")", v.text, v.kind, v.target, card)
  }

  /** The cloze cards of one card: none for an empty answer, otherwise one
      per kept variant, each wrapping the first occurrence of its target. */
  function CardClozes(card: Card, doc: Doc, cfg: ClozeConfig): (r: seq<ClozeCard>)
    ensures |r| <= MaxVariants
    ensures card.answer == "" ==> r == []
    ensures forall i :: 0 <= i < |r| ==>
      && r[i].original == card
      && r[i].answer == Wrap(card.answer, r[i].target)
      && r[i].question == card.question + " (Cloze - " + KindName(r[i].clozeType) + ")"
      && Enabled(cfg, r[i].clozeType)
    ensures forall i, j :: 0 <= i < j < |r| ==> Rank(r[i].clozeType) <= Rank(r[j].clozeType)
  {
    if card.answer == "" then []
    else
      AllVariantsWellOrdered(doc, card.answer, cfg);
      var vs := Kept(AllVariants(doc, card.answer, cfg));
      Map(vs, (v: Variant) => ToCard(card, v))
  }

  /** The cards of a card with a non-empty answer are the first three
      candidate variants, in order. */
  lemma CardClozesAreFirstVariants(card: Card, doc: Doc, cfg: ClozeConfig)
    requires card.answer != ""
    ensures var r := CardClozes(card, doc, cfg);
      var all := AllVariants(doc, card.answer, cfg);
      && |r| == (if |all| < MaxVariants then |all| else MaxVariants)
      && forall i :: 0 <= i < |r| ==> r[i].answer == all[i].text && r[i].target == all[i].target && r[i].clozeType == all[i].kind
  {
  }

  function RequestLanguage(lang: Option<string>): string
  {
    lang.GetOr(DefaultLanguage)
  }

  function ClozesOf(cards: seq<Card>, annotate: string -> Doc, cfg: ClozeConfig): (r: seq<seq<ClozeCard>>)
    ensures |r| == |cards|
    ensures forall i :: 0 <= i < |cards| ==> r[i] == CardClozes(cards[i], annotate(cards[i].answer), cfg)
  {
    Map(cards, (c: Card) => CardClozes(c, annotate(c.answer), cfg))
  }

  /** `generate_cloze(payload)`. The average number of variants per card is
      kept as an exact ratio. */
  function GenerateCloze(cards: seq<Card>, lang: Option<string>, cfg: ClozeConfig,
                         annotate: (string, string) -> Doc): (r: Result<ClozeResponse>)
    ensures RequestLanguage(lang) !in ClozeLanguages <==> r.Err?
    ensures r.Err? ==> r.message == "Idioma no soportado: " + RequestLanguage(lang)
    ensures r.Ok? ==> r.value.stats.originalCards == |cards|
    ensures r.Ok? ==> r.value.stats.generatedCloze == |r.value.clozeCards|
    ensures r.Ok? ==> r.value.clozeCards == Flatten(ClozesOf(cards, t => annotate(RequestLanguage(lang), t), cfg))
  {
    var l := RequestLanguage(lang);
    if l !in ClozeLanguages then Err("Idioma no soportado: " + l)
    else
      var out := Flatten(ClozesOf(cards, t => annotate(l, t), cfg));
      var ratio: real := if |cards| == 0 then 0.0 else (|out| as real) / (|cards| as real);
      Ok(ClozeResponse(out, ClozeStats(|cards|, |out|, ratio)))
  }

  /** At most three cloze cards per input card, and every cloze card comes
      from an input card with a non-empty answer. */
  lemma GenerateClozeBounds(cards: seq<Card>, lang: Option<string>, cfg: ClozeConfig,
                            annotate: (string, string) -> Doc)
    requires RequestLanguage(lang) in ClozeLanguages
    ensures var r := GenerateCloze(cards, lang, cfg, annotate);
      && r.Ok?
      && |r.value.clozeCards| <= MaxVariants * |cards|
      && forall i :: 0 <= i < |r.value.clozeCards| ==>
           r.value.clozeCards[i].original in cards && r.value.clozeCards[i].original.answer != ""
  {
    var l := RequestLanguage(lang);
    var groups: seq<seq<ClozeCard>> := ClozesOf(cards, t => annotate(l, t), cfg);
    FlattenBound(groups, MaxVariants);
    forall i, k | 0 <= i < |groups| && 0 <= k < |groups[i]|
      ensures groups[i][k].original in cards && groups[i][k].original.answer != ""
    {
      assert groups[i] == CardClozes(cards[i], annotate(l, cards[i].answer), cfg);
    }
    FlattenForall(groups, (c: ClozeCard) => c.original in cards && c.original.answer != "");
  }
}
