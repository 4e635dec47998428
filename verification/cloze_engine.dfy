/** The client-side cloze engine (processing/cloze_engine.js): turn a
    phrase of an answer into a `{{c1::…}}` gap, and add such variants after
    each card. The phrase extractors (named entities from the NLP library,
    the number and keyword regular expressions) are parameters. */
module ClozeEngine {
  import opened Wrappers
  import opened Seqs
  import opened Strings

  const ClozeOpen: string := "{{c1::"
  const ClozeClose: string := "}}"

  /** Answers shorter than this get no variants. */
  const MinAnswerLength: nat := 10
  const DefaultMaxVariants: int := 2

  datatype Card = Card(id: string, question: string, answer: string, cardType: string)

  /** The options `apply` reads; `None` stands for an absent option. */
  datatype Config = Config(
    maxVariantsPerCard: Option<int>,
    clozeEntities: Option<bool>,
    clozeNumbers: Option<bool>,
    clozeDates: Option<bool>,
    clozeKeywords: Option<bool>)

  /** The three phrase extractors, from an answer to candidate phrases. */
  datatype Extractors = Extractors(
    entities: string -> seq<string>,
    numbers: string -> seq<string>,
    keywords: string -> seq<string>)

  /** `createCloze(answer, phrase)`: the first case-insensitive occurrence
      of `phrase` becomes `{{c1::phrase}}`; `None` for an empty phrase or
      when there is no occurrence. */
  function CreateCloze(answer: string, phrase: string): (r: Option<string>)
    ensures r.None? <==> phrase == "" || forall j :: !MatchesIgnoreCaseAt(answer, phrase, j)
  {
    if phrase == "" then None
    else
      match IndexOfIgnoreCase(answer, phrase)
      case None => None
      case Some(i) => Some(answer[..i] + ClozeOpen + phrase + ClozeClose + answer[i + |phrase|..])
  }

  /** Only the first occurrence is replaced: the text before it is kept,
      the gap holds the phrase as given, and everything after the matched
      text follows unchanged. */
  lemma CreateClozeFirstOnly(answer: string, phrase: string)
    requires CreateCloze(answer, phrase).Some?
    ensures exists i: nat ::
      && MatchesIgnoreCaseAt(answer, phrase, i)
      && (forall j :: 0 <= j < i ==> !MatchesIgnoreCaseAt(answer, phrase, j))
      && GapAt(answer, phrase, CreateCloze(answer, phrase).value, i)
  {
    var i := IndexOfIgnoreCase(answer, phrase).value;
    var r := CreateCloze(answer, phrase).value;
    assert r == answer[..i] + (ClozeOpen + phrase + ClozeClose) + answer[i + |phrase|..];
    GapSplice(answer, phrase, i);
    assert MatchesIgnoreCaseAt(answer, phrase, i) && forall j :: 0 <= j < i ==> !MatchesIgnoreCaseAt(answer, phrase, j);
  }

  /** `r` is `answer` with the gap for `phrase` in place of the text at
      `i`: the text before is kept, the gap holds the phrase as given, and
      everything after the replaced text follows unchanged. */
  predicate GapAt(answer: string, phrase: string, r: string, i: nat)
  {
    var gap := ClozeOpen + phrase + ClozeClose;
    && i + |phrase| <= |answer|
    && |r| == |answer| + |ClozeOpen| + |ClozeClose|
    && r[..i] == answer[..i]
    && OccursAt(r, gap, i)
    && r[i + |gap|..] == answer[i + |phrase|..]
  }

  lemma GapSplice(answer: string, phrase: string, i: nat)
    requires i + |phrase| <= |answer|
    ensures GapAt(answer, phrase, answer[..i] + (ClozeOpen + phrase + ClozeClose) + answer[i + |phrase|..], i)
  {
    var gap := ClozeOpen + phrase + ClozeClose;
    var r := answer[..i] + gap + answer[i + |phrase|..];
    assert r[i..i + |gap|] == gap;
  }

  /** `config.maxVariantsPerCard || 2`. */
  function MaxVariants(c: Config): int
  {
    if c.maxVariantsPerCard.None? || c.maxVariantsPerCard.value == 0 then DefaultMaxVariants
    else c.maxVariantsPerCard.value
  }

  /** `config.x !== false`: on unless switched off. */
  function OnUnlessFalse(o: Option<bool>): bool
  {
    o != Some(false)
  }

  /** `!!config.x`: off unless switched on. */
  function OnIfTrue(o: Option<bool>): bool
  {
    o == Some(true)
  }

  /** `v` is the cloze variant of `card` for `phrase`. */
  predicate ClozeFor(v: Card, card: Card, tag: string, phrase: string)
  {
    CreateCloze(card.answer, phrase) == Some(v.question) && v.id == card.id + tag + phrase
  }

  /** The variant of `card` for one phrase, if the phrase occurs. */
  ghost predicate IsClozeOf(v: Card, card: Card, tag: string, phrases: seq<string>)
  {
    && v.answer == card.answer
    && v.cardType == "cloze"
    && exists k :: 0 <= k < |phrases| && ClozeFor(v, card, tag, phrases[k])
  }

  lemma IsClozeOfTail(v: Card, card: Card, tag: string, phrases: seq<string>)
    requires |phrases| > 0 && IsClozeOf(v, card, tag, phrases[1..])
    ensures IsClozeOf(v, card, tag, phrases)
  {
    var m :| 0 <= m < |phrases[1..]| && ClozeFor(v, card, tag, phrases[1..][m]);
    assert phrases[1..][m] == phrases[m + 1];
  }

  /** The variants for a list of phrases, in order, skipping phrases that
      give no cloze. */
  function VariantsFrom(card: Card, phrases: seq<string>, tag: string): (r: seq<Card>)
    ensures |r| <= |phrases|
    ensures forall k :: 0 <= k < |r| ==> IsClozeOf(r[k], card, tag, phrases)
  {
    if |phrases| == 0 then []
    else
      var rest := VariantsFrom(card, phrases[1..], tag);
      forall k | 0 <= k < |rest|
        ensures IsClozeOf(rest[k], card, tag, phrases)
      {
        IsClozeOfTail(rest[k], card, tag, phrases);
      }
      var c := CreateCloze(card.answer, phrases[0]);
      if c.None? then rest
      else
        var v := Card(card.id + tag + phrases[0], c.value, card.answer, "cloze");
        assert ClozeFor(v, card, tag, phrases[0]);
        [v] + rest
  }

  /** Every phrase that gives a cloze gives a variant. */
  lemma {:induction false} VariantsFromComplete(card: Card, phrases: seq<string>, tag: string, k: nat)
    requires k < |phrases| && CreateCloze(card.answer, phrases[k]).Some?
    ensures Card(card.id + tag + phrases[k], CreateCloze(card.answer, phrases[k]).value, card.answer, "cloze")
            in VariantsFrom(card, phrases, tag)
    decreases k
  {
    var v := Card(card.id + tag + phrases[k], CreateCloze(card.answer, phrases[k]).value, card.answer, "cloze");
    var first := VariantHead(card, phrases[0], tag);
    VariantsFromCons(card, phrases, tag);
    if k > 0 {
      assert phrases[1..][k - 1] == phrases[k];
      VariantsFromComplete(card, phrases[1..], tag, k - 1);
      assert v in VariantsFrom(card, phrases[1..], tag);
    } else {
      assert first == [v];
    }
  }

  /** The variant for one phrase, as a list of zero or one cards. */
  function VariantHead(card: Card, phrase: string, tag: string): seq<Card>
  {
    var c := CreateCloze(card.answer, phrase);
    if c.None? then [] else [Card(card.id + tag + phrase, c.value, card.answer, "cloze")]
  }

  lemma VariantsFromCons(card: Card, phrases: seq<string>, tag: string)
    requires |phrases| > 0
    ensures VariantsFrom(card, phrases, tag) == VariantHead(card, phrases[0], tag) + VariantsFrom(card, phrases[1..], tag)
  {
  }

  const EntityTag: string := "_cloze_entity_"
  const NumberTag: string := "_cloze_num_"
  const KeywordTag: string := "_cloze_kw_"

  /** All candidate variants of a card with a long enough answer: entities,
      then numbers (for numbers or dates), then keywords. */
  function Candidates(card: Card, c: Config, ex: Extractors): seq<Card>
  {
    var a := card.answer;
    (if OnUnlessFalse(c.clozeEntities) then VariantsFrom(card, ex.entities(a), EntityTag) else [])
    + (if OnIfTrue(c.clozeNumbers) || OnIfTrue(c.clozeDates) then VariantsFrom(card, ex.numbers(a), NumberTag) else [])
    + (if OnIfTrue(c.clozeKeywords) then VariantsFrom(card, ex.keywords(a), KeywordTag) else [])
  }

  /** A variant of the card from one of the enabled extractors. */
  ghost predicate IsVariantOf(v: Card, card: Card, c: Config, ex: Extractors)
  {
    var a := card.answer;
    || (OnUnlessFalse(c.clozeEntities) && IsClozeOf(v, card, EntityTag, ex.entities(a)))
    || ((OnIfTrue(c.clozeNumbers) || OnIfTrue(c.clozeDates)) && IsClozeOf(v, card, NumberTag, ex.numbers(a)))
    || (OnIfTrue(c.clozeKeywords) && IsClozeOf(v, card, KeywordTag, ex.keywords(a)))
  }

  lemma CandidatesAreVariants(card: Card, c: Config, ex: Extractors)
    ensures forall k :: 0 <= k < |Candidates(card, c, ex)| ==> IsVariantOf(Candidates(card, c, ex)[k], card, c, ex)
  {
  }

  /** `end` of `xs.slice(0, end)` for a list of length `n`: a negative end
      counts from the back. */
  function SliceEnd(n: nat, end: int): (r: nat)
    ensures r <= n
    ensures 0 <= end ==> r == MinNat(n, end)
  {
    if end < 0 then (if n + end < 0 then 0 else n + end) else MinNat(n, end)
  }

  function MinNat(a: nat, b: int): nat
  {
    if b < 0 then 0 else if a <= b then a else b
  }

  /** The outputs for one card: the card itself followed by its variants,
      `slice(0, 1 + maxVariants)`; short answers pass alone. */
  function CardOutputs(card: Card, c: Config, ex: Extractors): (r: seq<Card>)
    ensures |card.answer| < MinAnswerLength ==> r == [card]
    ensures MaxVariants(c) >= 0 ==> 1 <= |r| <= 1 + MaxVariants(c) && r[0] == card
    ensures forall k :: 1 <= k < |r| ==> IsVariantOf(r[k], card, c, ex)
    ensures |card.answer| >= MinAnswerLength ==>
      && r <= [card] + Candidates(card, c, ex)
      && |r| == SliceEnd(1 + |Candidates(card, c, ex)|, 1 + MaxVariants(c))
    ensures |card.answer| >= MinAnswerLength && MaxVariants(c) >= 0 ==>
      && |r| == 1 + MinNat(|Candidates(card, c, ex)|, MaxVariants(c))
      && r[1..] == Candidates(card, c, ex)[..|r| - 1]
  {
    if |card.answer| < MinAnswerLength then [card]
    else
      var cs := Candidates(card, c, ex);
      var e := SliceEnd(1 + |cs|, 1 + MaxVariants(c));
      CandidatesAreVariants(card, c, ex);
      ConsPrefix(card, cs, e);
      ([card] + cs)[..e]
  }

  /** A prefix of `[x] + xs` of length `e`: `x` first, when there is
      room, and then the first `e - 1` elements of `xs`. */
  lemma ConsPrefix<T>(x: T, xs: seq<T>, e: nat)
    requires e <= 1 + |xs|
    ensures var p := ([x] + xs)[..e];
      && p <= [x] + xs && |p| == e
      && (e >= 1 ==> p[0] == x && p[1..] == xs[..e - 1])
      && forall k :: 1 <= k < e ==> p[k] == xs[k - 1]
  {
  }

  /** When fewer variants than the limit exist, all of them are kept. */
  lemma AllVariantsKept(card: Card, c: Config, ex: Extractors)
    requires |card.answer| >= MinAnswerLength
    requires 0 <= MaxVariants(c) && |Candidates(card, c, ex)| <= MaxVariants(c)
    ensures CardOutputs(card, c, ex) == [card] + Candidates(card, c, ex)
  {
  }

  /** `apply(cards, config)`; `None` stands for an input that is not an
      array, which is returned as it is, like an empty list. */
  function Apply(cards: Option<seq<Card>>, c: Config, ex: Extractors): (r: Option<seq<Card>>)
    ensures cards.None? || cards.value == [] ==> r == cards
    ensures cards.Some? ==> r.Some?
  {
    if cards.None? || cards.value == [] then cards
    else Some(Flatten(Map(cards.value, (card: Card) => CardOutputs(card, c, ex))))
  }

  /** With a non-negative limit (the default is 2), every card appears
      followed by at most that many variants: the output is the cards'
      groups in order, each group starting with its card, and the total is
      between one and `1 + maxVariants` outputs per card. */
  lemma ApplyGroups(cards: seq<Card>, c: Config, ex: Extractors)
    requires |cards| > 0 && MaxVariants(c) >= 0
    ensures var groups := Map(cards, (card: Card) => CardOutputs(card, c, ex));
      && Apply(Some(cards), c, ex) == Some(Flatten(groups))
      && |groups| == |cards|
      && (forall k :: 0 <= k < |cards| ==> |groups[k]| >= 1 && groups[k][0] == cards[k])
      && |cards| <= |Flatten(groups)| <= (1 + MaxVariants(c)) * |cards|
  {
    var groups := Map(cards, (card: Card) => CardOutputs(card, c, ex));
    FlattenBound(groups, 1 + MaxVariants(c));
    FlattenLength(groups);
  }

  /** Leaving every option at its default gives up to two entity variants
      per card. */
  lemma DefaultLimitIsTwo(cards: seq<Card>, ex: Extractors)
    requires |cards| > 0
    ensures var c := Config(None, None, None, None, None);
      MaxVariants(c) == 2 &&
      forall k :: 0 <= k < |cards| ==> |CardOutputs(cards[k], c, ex)| <= 3
  {
  }
}
