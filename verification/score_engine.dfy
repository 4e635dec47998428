/** Scoring of generated card variants (processing/ScoreEngine.js): the
    clamped normalisation, the token overlap with the source chunk, the
    answer-length score, the format score and their weighted sum. Scores are
    real numbers; floating-point rounding is not modelled. */
module ScoreEngine {
  import opened Wrappers
  import opened Seqs
  import opened Strings

  /** `Math.max(lo, Math.min(hi, x))`. */
  function Clamp(x: real, lo: real, hi: real): real
    requires lo <= hi
  {
    if x < lo then lo else if x > hi then hi else x
  }

  /** `normalize(value, min, max)`: where `value` lies between `min` and
      `max`, clamped to [0, 1]; 0 when the interval is a single point. */
  function Normalize(value: real, min: real, max: real): (r: real)
    ensures max == min ==> r == 0.0
    ensures 0.0 <= r <= 1.0
    ensures min < max && min <= value <= max ==> r * (max - min) == value - min
    ensures min < max && value <= min ==> r == 0.0
    ensures min < max && max <= value ==> r == 1.0
  {
    if max == min then 0.0
    else
      QuotientFacts(value - min, max - min);
      Clamp((value - min) / (max - min), 0.0, 1.0)
  }

  lemma QuotientFacts(a: real, d: real)
    requires d != 0.0
    ensures (a / d) * d == a
    ensures d > 0.0 && a <= 0.0 ==> a / d <= 0.0
    ensures d > 0.0 && a >= d ==> a / d >= 1.0
  {
    DivMul(a, d);
    if d > 0.0 && a <= 0.0 { DivNonPositive(a, d); }
    if d > 0.0 && a >= d { DivAtLeastOne(a, d); }
  }

  lemma DivMul(a: real, d: real)
    requires d != 0.0
    ensures (a / d) * d == a
  {
  }

  lemma DivNonPositive(a: real, d: real)
    requires d > 0.0 && a <= 0.0
    ensures a / d <= 0.0
  {
  }

  lemma DivAtLeastOne(a: real, d: real)
    requires d > 0.0 && a >= d
    ensures a / d >= 1.0
  {
  }

  lemma DivMonotone(a: real, b: real, d: real)
    requires d > 0.0 && a <= b
    ensures a / d <= b / d
  {
  }

  /** On a proper interval the normalisation keeps the order of its inputs. */
  lemma NormalizeMonotone(a: real, b: real, min: real, max: real)
    requires min < max && a <= b
    ensures Normalize(a, min, max) <= Normalize(b, min, max)
  {
    DivMonotone(a - min, b - min, max - min);
  }

  // ---------------------------------------------------------------------
  // overlapScore
  // ---------------------------------------------------------------------

  predicate IsNonWordChar(c: char)
  {
    !IsWordChar(c)
  }

  /** `s.toLowerCase().split(/\W+/).filter(Boolean)`. */
  function WordTokens(s: string): (r: seq<string>)
    ensures forall k :: 0 <= k < |r| ==> |r[k]| > 0
  {
    Filter(SplitRuns(ToLower(s), IsNonWordChar), NonEmpty)
  }

  /** How many entries of `xs` belong to `vocabulary`, repetitions counted. */
  function CountIn(xs: seq<string>, vocabulary: set<string>): (n: nat)
    ensures n <= |xs|
  {
    if |xs| == 0 then 0 else (if xs[0] in vocabulary then 1 else 0) + CountIn(xs[1..], vocabulary)
  }

  lemma {:induction false} CountInAll(xs: seq<string>, vocabulary: set<string>)
    requires forall k :: 0 <= k < |xs| ==> xs[k] in vocabulary
    ensures CountIn(xs, vocabulary) == |xs|
    decreases |xs|
  {
    if |xs| > 0 {
      CountInAll(xs[1..], vocabulary);
    }
  }

  lemma {:induction false} CountInNone(xs: seq<string>, vocabulary: set<string>)
    requires forall k :: 0 <= k < |xs| ==> xs[k] !in vocabulary
    ensures CountIn(xs, vocabulary) == 0
    decreases |xs|
  {
    if |xs| > 0 {
      CountInNone(xs[1..], vocabulary);
    }
  }

  function TokenSet(tokens: seq<string>): set<string>
  {
    set k | 0 <= k < |tokens| :: tokens[k]
  }

  lemma TokenSetMember(tokens: seq<string>, x: string)
    ensures x in TokenSet(tokens) <==> x in tokens
  {
    if x in tokens {
      var k :| 0 <= k < |tokens| && tokens[k] == x;
      assert tokens[k] in TokenSet(tokens);
    }
  }

  /** The share of the content's tokens that occur in the chunk, normalised
      against 0.6: a share of 60 % or more scores 1. */
  const OverlapSaturation: real := 0.6

  function OverlapScore(content: string, chunkText: string): (r: real)
    ensures 0.0 <= r <= 1.0
    ensures content == "" || chunkText == "" ==> r == 0.0
    ensures |WordTokens(content)| == 0 || |WordTokens(chunkText)| == 0 ==> r == 0.0
  {
    if content == "" || chunkText == "" then 0.0
    else
      var chunkTokens := TokenSet(WordTokens(chunkText));
      var contentTokens := WordTokens(content);
      if |contentTokens| == 0 || |WordTokens(chunkText)| == 0 then 0.0
      else
        var matches := CountIn(contentTokens, chunkTokens);
        Normalize(matches as real / |contentTokens| as real, 0.0, OverlapSaturation)
  }

  /** Content all of whose words occur in the chunk gets the full overlap score. */
  lemma OverlapFull(content: string, chunkText: string)
    requires |WordTokens(content)| > 0 && |WordTokens(chunkText)| > 0
    requires forall k :: 0 <= k < |WordTokens(content)| ==> WordTokens(content)[k] in WordTokens(chunkText)
    ensures OverlapScore(content, chunkText) == 1.0
  {
    var tokens := WordTokens(content);
    var vocabulary := TokenSet(WordTokens(chunkText));
    forall k | 0 <= k < |tokens|
      ensures tokens[k] in vocabulary
    {
      TokenSetMember(WordTokens(chunkText), tokens[k]);
    }
    CountInAll(tokens, vocabulary);
    DivMul(|tokens| as real, |tokens| as real);
  }

  /** Content none of whose words occur in the chunk scores 0. */
  lemma OverlapNone(content: string, chunkText: string)
    requires forall k :: 0 <= k < |WordTokens(content)| ==> WordTokens(content)[k] !in WordTokens(chunkText)
    ensures OverlapScore(content, chunkText) == 0.0
  {
    var tokens := WordTokens(content);
    var vocabulary := TokenSet(WordTokens(chunkText));
    forall k | 0 <= k < |tokens|
      ensures tokens[k] !in vocabulary
    {
      TokenSetMember(WordTokens(chunkText), tokens[k]);
    }
    CountInNone(tokens, vocabulary);
  }

  // ---------------------------------------------------------------------
  // lengthScore
  // ---------------------------------------------------------------------

  const ShortLength: nat := 80
  const LongLength: nat := 400

  /** `lengthScore(answer)`: full marks from 80 to 400 characters, at most a
      half below, falling to 0 at 500 above. A missing answer is "". */
  function LengthScore(answer: string): (r: real)
    ensures 0.0 <= r <= 1.0
    ensures |answer| == 0 ==> r == 0.0
    ensures ShortLength <= |answer| <= LongLength ==> r == 1.0
    ensures |answer| < ShortLength ==> r <= 0.5
    ensures |answer| >= 500 ==> r == 0.0
  {
    var len := |answer|;
    if len == 0 then 0.0
    else if len < ShortLength then Normalize(len as real, 0.0, 80.0) * 0.5
    else if len > LongLength then Normalize((500 - len) as real, 0.0, 100.0)
    else 1.0
  }

  /** Up to 400 characters, a longer answer never scores less. */
  lemma LengthScoreRises(a: string, b: string)
    requires |a| <= |b| <= LongLength
    ensures LengthScore(a) <= LengthScore(b)
  {
    if 0 < |a| && |b| < ShortLength {
      NormalizeMonotone(|a| as real, |b| as real, 0.0, 80.0);
    }
  }

  /** From 80 characters on, a longer answer never scores more. */
  lemma LengthScoreFalls(a: string, b: string)
    requires ShortLength <= |a| <= |b|
    ensures LengthScore(b) <= LengthScore(a)
  {
    if LongLength < |a| {
      NormalizeMonotone((500 - |b|) as real, (500 - |a|) as real, 0.0, 100.0);
    }
  }

  // ---------------------------------------------------------------------
  // formatScore and scoreVariant
  // ---------------------------------------------------------------------

  /** A case-insensitive search for a literal (`/literal/i.test(s)`). */
  predicate HasIgnoreCase(s: string, p: string)
  {
    IndexOfIgnoreCase(s, p).Some?
  }

  const QuestionLabel: string := "pregunta:"
  const AnswerLabel: string := "respuesta:"
  const RelevanceLabel: string := "relevancia:"
  const ListItem: string := "\n- "

  function Bonus(present: bool, weight: real): real
  {
    if present then weight else 0.0
  }

  /** `formatScore(content)`: 0.4 each for the question and answer labels,
      0.2 for the relevance label, 0.1 for a list item, capped at 1. */
  function FormatScore(content: string): (r: real)
    ensures 0.0 <= r <= 1.0
    ensures r == 0.0 <==>
      (content == "" ||
       (!HasIgnoreCase(content, QuestionLabel) && !HasIgnoreCase(content, AnswerLabel) &&
        !HasIgnoreCase(content, RelevanceLabel) && !Contains(content, ListItem)))
    ensures content != "" && HasIgnoreCase(content, QuestionLabel) && HasIgnoreCase(content, AnswerLabel) ==> r >= 0.8
  {
    if content == "" then 0.0
    else
      var score := Bonus(HasIgnoreCase(content, QuestionLabel), 0.4)
        + Bonus(HasIgnoreCase(content, AnswerLabel), 0.4)
        + Bonus(HasIgnoreCase(content, RelevanceLabel), 0.2)
        + Bonus(Contains(content, ListItem), 0.1);
      if score < 1.0 then score else 1.0
  }

  /** The weights of `scoreVariant`; an absent weight takes its default. */
  datatype Weights = Weights(overlap: Option<real>, length: Option<real>, format: Option<real>)

  function WeightOr(w: Option<real>, default: real): real
  {
    if w.Some? then w.value else default
  }

  /** `scoreVariant({card, rawContent, chunkText}, weights)`; a card
      without an answer is given the answer "". */
  function ScoreVariant(answer: string, rawContent: string, chunkText: string, weights: Weights): (r: real)
    ensures
      var wo := WeightOr(weights.overlap, 0.5);
      var wl := WeightOr(weights.length, 0.2);
      var wf := WeightOr(weights.format, 0.3);
      wo >= 0.0 && wl >= 0.0 && wf >= 0.0 ==> 0.0 <= r <= wo + wl + wf
  {
    var wo := WeightOr(weights.overlap, 0.5);
    var wl := WeightOr(weights.length, 0.2);
    var wf := WeightOr(weights.format, 0.3);
    Combine(OverlapScore(rawContent, chunkText), LengthScore(answer), FormatScore(rawContent), wo, wl, wf)
  }

  /** The weighted sum of three scores in [0, 1]. */
  function Combine(o: real, l: real, f: real, wo: real, wl: real, wf: real): (r: real)
    requires 0.0 <= o <= 1.0 && 0.0 <= l <= 1.0 && 0.0 <= f <= 1.0
    ensures wo >= 0.0 && wl >= 0.0 && wf >= 0.0 ==> 0.0 <= r <= wo + wl + wf
  {
    var a := o * wo;
    var b := l * wl;
    var c := f * wf;
    ScaleBound(o, wo);
    ScaleBound(l, wl);
    ScaleBound(f, wf);
    assert wo >= 0.0 && wl >= 0.0 && wf >= 0.0 ==> 0.0 <= a <= wo && 0.0 <= b <= wl && 0.0 <= c <= wf;
    a + b + c
  }

  lemma ScaleBound(x: real, w: real)
    requires 0.0 <= x <= 1.0
    ensures w >= 0.0 ==> 0.0 <= x * w <= w
  {
    if w >= 0.0 {
      assert w - x * w == (1.0 - x) * w;
    }
  }

  /** With the default weights a variant's score lies in [0, 1]. */
  lemma DefaultScoreUnit(answer: string, rawContent: string, chunkText: string)
    ensures 0.0 <= ScoreVariant(answer, rawContent, chunkText, Weights(None, None, None)) <= 1.0
  {
  }
}
