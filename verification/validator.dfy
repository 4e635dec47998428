/** The `/validate` endpoint of Flashgen/server.py: linguistic checks on
    question/answer cards. The question and the answer of a card are
    annotated by the language model (the `annotate` parameter) and the
    similarity of the two documents is the `docSim` oracle. */
module Validator {
  import opened Wrappers
  import opened Seqs
  import opened Strings
  import opened Annotation

  /** A card as the client sends it; a missing field reads as "". */
  datatype Card = Card(question: string, answer: string)

  datatype IssueKind = Grammar | Coherence | EntityConsistency | SemanticCoherence | Syntax

  datatype Issue = Issue(kind: IssueKind, message: string)

  datatype Validation = Validation(
    isValid: bool,
    issues: seq<Issue>,
    semanticCoherence: real,
    questionEntities: seq<string>,
    answerEntities: seq<string>)

  datatype ValidatedCard = ValidatedCard(card: Card, validation: Validation)

  datatype ValidateStats = ValidateStats(totalCards: nat, validCards: nat, cardsWithIssues: nat)

  datatype ValidateResponse = ValidateResponse(validatedCards: seq<ValidatedCard>, stats: ValidateStats)

  /** The language of a request without one. */
  const DefaultLanguage: string := "es"
  const ValidatorLanguages: seq<string> := ["en", "es", "fr"]

  /** Thresholds of the checks. */
  const MinCoherence: real := 0.3
  const MinAnswerWords: nat := 3
  const MaxVerblessWords: nat := 5

  /** The stripped question ends with `?` or `¿`. */
  predicate EndsWithQuestionMark(q: string)
  {
    var t := Trim(q);
    |t| > 0 && (t[|t| - 1] == '?' || t[|t| - 1] == '¿')
  }

  /** `{ent.text.lower(): ent.label_ for ent in doc.ents}.keys()`: the
      lower-cased entity texts in order of first occurrence. */
  function EntityKeys(doc: Doc): (r: seq<string>)
    ensures Distinct(r)
  {
    Dedup(Map(doc.ents, (e: Span) => ToLower(SpanText(doc, e.start, e.end))))
  }

  /** The question entities that neither are answer entities nor occur in
      the lower-cased answer. */
  function MissingEntities(qKeys: seq<string>, aKeys: seq<string>, answer: string): (r: seq<string>)
    ensures forall k :: k in r <==> k in qKeys && k !in aKeys && !Contains(ToLower(answer), k)
  {
    Filter(qKeys, (k: string) => k !in aKeys && !Contains(ToLower(answer), k))
  }

  function EntityIssue(k: string): Issue
  {
    Issue(EntityConsistency, "Entidad '" + k + "' en pregunta no aparece en respuesta")
  }

  /** The outcome of the five checks on one card, before it is turned into
      messages. `lowCoherence` holds the similarity when it was computed
      and fell below the threshold. */
  datatype Findings = Findings(
    unmarkedQuestion: bool,
    shortAnswer: bool,
    missing: seq<string>,
    lowCoherence: Option<real>,
    noVerb: bool)

  /** The issues the checks raise, with their messages. */
  const GrammarIssue: Issue := Issue(Grammar, "Pregunta sin signo de interrogacion")
  const ShortAnswerIssue: Issue := Issue(Coherence, "Respuesta demasiado corta")
  const CoherenceIssue: Issue := Issue(SemanticCoherence, "Baja coherencia semantica")
  const NoVerbIssue: Issue := Issue(Syntax, "Respuesta sin verbo principal")

  /** The issue list, in the order the checks run. */
  function Issues(f: Findings): seq<Issue>
  {
    IssueIf(f.unmarkedQuestion, GrammarIssue)
    + IssueIf(f.shortAnswer, ShortAnswerIssue)
    + Map(f.missing, EntityIssue)
    + IssueIf(f.lowCoherence.Some?, CoherenceIssue)
    + IssueIf(f.noVerb, NoVerbIssue)
  }

  /** The issue when its check fails, nothing otherwise. */
  function IssueIf(failed: bool, i: Issue): seq<Issue>
  {
    if failed then [i] else []
  }

  /** How many of the issues are of kind `k`. */
  function CountKind(issues: seq<Issue>, k: IssueKind): nat
  {
    if |issues| == 0 then 0 else Indicator(issues[0].kind == k) + CountKind(issues[1..], k)
  }

  function Indicator(b: bool): nat { if b then 1 else 0 }

  /** Reference definition: how many issues of each kind the findings
      call for, one per failed check and one per missing entity. */
  function Expected(f: Findings, k: IssueKind): nat
  {
    Indicator(f.unmarkedQuestion && k == Grammar)
    + Indicator(f.shortAnswer && k == Coherence)
    + (if k == EntityConsistency then |f.missing| else 0)
    + Indicator(f.lowCoherence.Some? && k == SemanticCoherence)
    + Indicator(f.noVerb && k == Syntax)
  }

  lemma {:induction false} CountAppend(a: seq<Issue>, b: seq<Issue>, k: IssueKind)
    ensures CountKind(a + b, k) == CountKind(a, k) + CountKind(b, k)
    decreases |a|
  {
    if |a| == 0 {
      assert a + b == b;
    } else {
      assert (a + b)[1..] == a[1..] + b;
      CountAppend(a[1..], b, k);
    }
  }

  lemma CountSingle(i: Issue, k: IssueKind)
    ensures CountKind([i], k) == Indicator(i.kind == k)
  {
    assert [i][1..] == [];
  }

  lemma CountIssueIf(failed: bool, i: Issue, k: IssueKind)
    ensures CountKind(IssueIf(failed, i), k) == Indicator(failed && i.kind == k)
  {
    if failed {
      CountSingle(i, k);
    }
  }

  lemma {:induction false} CountEntityIssues(ms: seq<string>, k: IssueKind)
    ensures CountKind(Map(ms, EntityIssue), k) == if k == EntityConsistency then |ms| else 0
    decreases |ms|
  {
    if |ms| > 0 {
      assert Map(ms, EntityIssue) == [EntityIssue(ms[0])] + Map(ms[1..], EntityIssue);
      CountAppend([EntityIssue(ms[0])], Map(ms[1..], EntityIssue), k);
      CountSingle(EntityIssue(ms[0]), k);
      CountEntityIssues(ms[1..], k);
    }
  }

  /** Each check contributes exactly one issue when it fails and none when
      it passes; the entity check contributes one per missing entity. */
  lemma IssuesExact(f: Findings, k: IssueKind)
    ensures CountKind(Issues(f), k) == Expected(f, k)
  {
    var g := IssueIf(f.unmarkedQuestion, GrammarIssue);
    var c := IssueIf(f.shortAnswer, ShortAnswerIssue);
    var e := Map(f.missing, EntityIssue);
    var s := IssueIf(f.lowCoherence.Some?, CoherenceIssue);
    var v := IssueIf(f.noVerb, NoVerbIssue);
    CountFive(g, c, e, s, v, k);
    CountEntityIssues(f.missing, k);
    CountIssueIf(f.unmarkedQuestion, GrammarIssue, k);
    CountIssueIf(f.shortAnswer, ShortAnswerIssue, k);
    CountIssueIf(f.lowCoherence.Some?, CoherenceIssue, k);
    CountIssueIf(f.noVerb, NoVerbIssue, k);
  }

  lemma CountFive(g: seq<Issue>, c: seq<Issue>, e: seq<Issue>, s: seq<Issue>, v: seq<Issue>, k: IssueKind)
    ensures CountKind(g + c + e + s + v, k)
      == CountKind(g, k) + CountKind(c, k) + CountKind(e, k) + CountKind(s, k) + CountKind(v, k)
  {
    CountAppend(g + c + e + s, v, k);
    CountAppend(g + c + e, s, k);
    CountAppend(g + c, e, k);
    CountAppend(g, c, k);
  }

  /** There is no issue exactly when every check passes. */
  lemma NoIssuesIff(f: Findings)
    ensures |Issues(f)| == 0 <==>
      !f.unmarkedQuestion && !f.shortAnswer && |f.missing| == 0 && f.lowCoherence.None? && !f.noVerb
  {
  }

  /** Every missing entity is named by an issue of its own. */
  lemma EntityIssuesNamed(f: Findings, m: string)
    requires m in f.missing
    ensures EntityIssue(m) in Issues(f)
  {
    var j :| 0 <= j < |f.missing| && f.missing[j] == m;
    var e := Map(f.missing, EntityIssue);
    assert e[j] == EntityIssue(m);
    assert EntityIssue(m) in e;
  }

  /** The part of the answer that has a token tagged `VERB`. */
  predicate HasVerb(doc: Doc)
  {
    exists k :: 0 <= k < |doc.tokens| && doc.tokens[k].pos == "VERB"
  }

  /** The five checks on one card. */
  function CheckCard(card: Card, qDoc: Doc, aDoc: Doc, coherence: real): (r: Findings)
    ensures r.unmarkedQuestion <==> card.question != "" && !EndsWithQuestionMark(card.question)
    ensures r.shortAnswer <==> |Words(card.answer)| < MinAnswerWords
    ensures forall k :: k in r.missing <==>
      k in EntityKeys(qDoc) && k !in EntityKeys(aDoc) && !Contains(ToLower(card.answer), k)
    ensures r.lowCoherence.Some? <==> qDoc.hasVector && aDoc.hasVector && coherence < MinCoherence
    ensures r.noVerb <==> !HasVerb(aDoc) && |Words(card.answer)| > MaxVerblessWords
  {
    var words := |Words(card.answer)|;
    Findings(
      card.question != "" && !EndsWithQuestionMark(card.question),
      words < MinAnswerWords,
      MissingEntities(EntityKeys(qDoc), EntityKeys(aDoc), card.answer),
      if qDoc.hasVector && aDoc.hasVector && coherence < MinCoherence then Some(coherence) else None,
      !HasVerb(aDoc) && words > MaxVerblessWords)
  }

  /** The similarity reported for a card: the oracle's value when both
      documents have vectors, 0 otherwise. */
  function CardCoherence(qDoc: Doc, aDoc: Doc, docSim: (Doc, Doc) -> real): real
  {
    if qDoc.hasVector && aDoc.hasVector then docSim(qDoc, aDoc) else 0.0
  }

  /** One card of the loop in `validate_flashcards`. */
  function ValidateCard(card: Card, qDoc: Doc, aDoc: Doc, docSim: (Doc, Doc) -> real): (r: ValidatedCard)
    ensures r.card == card
    ensures r.validation.isValid <==> |r.validation.issues| == 0
    ensures r.validation.questionEntities == EntityKeys(qDoc)
    ensures r.validation.answerEntities == EntityKeys(aDoc)
  {
    var coherence := CardCoherence(qDoc, aDoc, docSim);
    var issues := Issues(CheckCard(card, qDoc, aDoc, coherence));
    ValidatedCard(card, Validation(|issues| == 0, issues, coherence, EntityKeys(qDoc), EntityKeys(aDoc)))
  }

  /** A card passes validation exactly when every check passes. */
  lemma ValidCardIff(card: Card, qDoc: Doc, aDoc: Doc, docSim: (Doc, Doc) -> real)
    ensures ValidateCard(card, qDoc, aDoc, docSim).validation.isValid <==>
      && (card.question == "" || EndsWithQuestionMark(card.question))
      && |Words(card.answer)| >= MinAnswerWords
      && (forall k :: k in EntityKeys(qDoc) ==> k in EntityKeys(aDoc) || Contains(ToLower(card.answer), k))
      && !(qDoc.hasVector && aDoc.hasVector && docSim(qDoc, aDoc) < MinCoherence)
      && (HasVerb(aDoc) || |Words(card.answer)| <= MaxVerblessWords)
  {
    var coherence := CardCoherence(qDoc, aDoc, docSim);
    var f := CheckCard(card, qDoc, aDoc, coherence);
    NoIssuesIff(f);
    if |f.missing| > 0 {
      assert f.missing[0] in f.missing;
    }
  }

  predicate IsValidCard(v: ValidatedCard) { v.validation.isValid }
  predicate HasIssues(v: ValidatedCard) { !v.validation.isValid }

  /** The validated cards and the counts of valid and invalid ones. */
  function ValidateAll(cards: seq<Card>, annotate: string -> Doc, docSim: (Doc, Doc) -> real): (r: ValidateResponse)
    ensures |r.validatedCards| == |cards| == r.stats.totalCards
    ensures forall k :: 0 <= k < |cards| ==> r.validatedCards[k].card == cards[k]
    ensures r.stats.validCards == |Filter(r.validatedCards, IsValidCard)|
    ensures r.stats.cardsWithIssues == |Filter(r.validatedCards, HasIssues)|
  {
    var vs := Map(cards, (c: Card) => ValidateCard(c, annotate(c.question), annotate(c.answer), docSim));
    assert forall k :: 0 <= k < |cards| ==> vs[k] == ValidateCard(cards[k], annotate(cards[k].question), annotate(cards[k].answer), docSim);
    ValidateResponse(vs, ValidateStats(|vs|, |Filter(vs, IsValidCard)|, |Filter(vs, HasIssues)|))
  }

  /** Every card is counted once: as valid or as having issues. */
  lemma ValidPlusIssuesIsTotal(cards: seq<Card>, annotate: string -> Doc, docSim: (Doc, Doc) -> real)
    ensures var s := ValidateAll(cards, annotate, docSim).stats;
      s.validCards + s.cardsWithIssues == s.totalCards
  {
    FilterComplement(ValidateAll(cards, annotate, docSim).validatedCards, IsValidCard, HasIssues);
  }

  /** Splitting by a predicate and its negation loses and duplicates nothing. */
  lemma {:induction false} FilterComplement<T>(s: seq<T>, p: T -> bool, q: T -> bool)
    requires forall x :: q(x) == !p(x)
    ensures |Filter(s, p)| + |Filter(s, q)| == |s|
    decreases |s|
  {
    if |s| > 0 {
      FilterComplement(s[1..], p, q);
    }
  }

  /** `payload.get("lang", "es")`. */
  function RequestLanguage(lang: Option<string>): string
  {
    lang.GetOr(DefaultLanguage)
  }

  /** `validate_flashcards(payload)`: an unsupported language is an error,
      otherwise every card is validated with that language's model. */
  function ValidateFlashcards(cards: seq<Card>, lang: Option<string>, annotate: (string, string) -> Doc,
                              docSim: (Doc, Doc) -> real): (r: Result<ValidateResponse>)
    ensures RequestLanguage(lang) !in ValidatorLanguages <==> r.Err?
    ensures r.Err? ==> r.message == "Idioma no soportado: " + RequestLanguage(lang)
    ensures r.Ok? ==> r.value == ValidateAll(cards, t => annotate(RequestLanguage(lang), t), docSim)
  {
    var l := RequestLanguage(lang);
    if l !in ValidatorLanguages then Err("Idioma no soportado: " + l)
    else Ok(ValidateAll(cards, t => annotate(l, t), docSim))
  }
}
