/** `ParserManager.parse` and the decision of `ParserManager.test`
    (managers/parser_manager.js): a question and an answer cut out of a
    free-text reply by user-chosen markers. Each marker is escaped before it
    is put in a regular expression, so it matches literally; the expressions
    carry the `i` and `s` flags, so case is ignored and `.` matches line
    breaks. */
module ParserManager {
  import opened Wrappers
  import opened Seqs
  import opened Strings

  /** The markers used when the fields are left empty. */
  const DefaultQuestionPattern := "Q:|Pregunta:"
  const DefaultAnswerPattern := "A:|Respuesta:"

  /** `{ question, answer }`, `None` standing for `undefined`. */
  datatype Parsed = Parsed(question: Option<string>, answer: Option<string>)

  /** `pattern.split('|').map(p => p.trim())`. */
  function Patterns(pattern: string): (r: seq<string>)
    ensures |r| == |Split(pattern, '|')| && |r| >= 1
    ensures forall k :: 0 <= k < |r| ==> |r[k]| == 0 || (!IsSpace(r[k][0]) && !IsSpace(r[k][|r[k]| - 1]))
    ensures '|' !in pattern ==> r == [Trim(pattern)]
  {
    assert '|' !in pattern ==> Split(pattern, '|') == [pattern] by {
      if '|' !in pattern {
        SplitJoin([pattern], '|');
      }
    }
    Map(Split(pattern, '|'), Trim)
  }

  // ---------------------------------------------------------------------
  // Where a marker starts a match
  // ---------------------------------------------------------------------

  /** A match can start at `p` with `pattern`: the marker is there, case
      ignored, and at least one character follows it for the capture, which
      `(.+?)` and `(.+)` both require. */
  predicate MarkerAt(content: string, pattern: string, p: nat)
  {
    p + |pattern| < |content| && MatchesIgnoreCaseAt(content, pattern, p)
  }

  /** The leftmost start at or after `from`, as `content.match` finds it. */
  function FirstMarkerFrom(content: string, pattern: string, from: nat): (r: Option<nat>)
    ensures r.Some? ==>
              && from <= r.value && MarkerAt(content, pattern, r.value)
              && forall j :: from <= j < r.value ==> !MarkerAt(content, pattern, j)
    ensures r.None? ==> forall j :: from <= j ==> !MarkerAt(content, pattern, j)
    decreases |content| - from
  {
    if from + |pattern| >= |content| then None
    else if MatchesIgnoreCaseAt(content, pattern, from) then Some(from)
    else FirstMarkerFrom(content, pattern, from + 1)
  }

  /** The first pattern, in the order given, that matches somewhere, and the
      leftmost place it matches: the loops stop at the first success. */
  datatype Hit = Hit(pattern: nat, position: nat)

  function FirstHit(content: string, patterns: seq<string>, k: nat): (r: Option<Hit>)
    requires k <= |patterns|
    ensures r.None? <==> forall m, j: nat :: k <= m < |patterns| ==> !MarkerAt(content, patterns[m], j)
    ensures r.Some? ==>
              && k <= r.value.pattern < |patterns|
              && MarkerAt(content, patterns[r.value.pattern], r.value.position)
              && (forall j: nat :: j < r.value.position ==> !MarkerAt(content, patterns[r.value.pattern], j))
              && (forall m, j: nat :: k <= m < r.value.pattern ==> !MarkerAt(content, patterns[m], j))
    decreases |patterns| - k
  {
    if k == |patterns| then None
    else match FirstMarkerFrom(content, patterns[k], 0)
      case Some(p) => Some(Hit(k, p))
      case None => FirstHit(content, patterns, k + 1)
  }

  // ---------------------------------------------------------------------
  // The question: `marker\s*(.+?)(?=a1|a2|...|$)`
  // ---------------------------------------------------------------------

  /** The first index at or after `i` that is not whitespace (`\s*` taken
      greedily). */
  function SkipSpace(content: string, i: nat): (r: nat)
    requires i <= |content|
    ensures i <= r <= |content|
    ensures forall m :: i <= m < r ==> IsSpace(content[m])
    ensures r == |content| || !IsSpace(content[r])
    decreases |content| - i
  {
    if i < |content| && IsSpace(content[i]) then SkipSpace(content, i + 1) else i
  }

  /** The lookahead `(?=a1|a2|...|$)` holds at `e`. */
  predicate StopsQuestion(content: string, answers: seq<string>, e: nat)
  {
    e == |content| || exists k :: 0 <= k < |answers| && MatchesIgnoreCaseAt(content, answers[k], e)
  }

  /** The lazy `(.+?)` ends at the first `e` at or after `j` where the
      lookahead holds. */
  function QuestionEnd(content: string, answers: seq<string>, j: nat): (r: nat)
    requires j <= |content|
    ensures j <= r <= |content|
    ensures StopsQuestion(content, answers, r)
    ensures forall e :: j <= e < r ==> !StopsQuestion(content, answers, e)
    decreases |content| - j
  {
    if StopsQuestion(content, answers, j) then j else QuestionEnd(content, answers, j + 1)
  }

  datatype Span = Span(start: nat, end: nat)

  /** The capture of the question expression once its marker has matched
      and ended at `q`: after the greedy whitespace, up to the first stop
      past its first character. When only whitespace follows the marker,
      `\s*` gives back the last character and the capture is that one
      character. */
  function QuestionSpan(content: string, answers: seq<string>, q: nat): (r: Span)
    requires q < |content|
    ensures q <= r.start < r.end <= |content|
    ensures forall m :: q <= m < r.start ==> IsSpace(content[m])
    ensures !IsSpace(content[r.start]) || forall m :: r.start <= m < |content| ==> IsSpace(content[m])
    ensures StopsQuestion(content, answers, r.end)
    ensures forall e :: r.start < e < r.end ==> !StopsQuestion(content, answers, e)
  {
    var s := SkipSpace(content, q);
    if s < |content| then Span(s, QuestionEnd(content, answers, s + 1))
    else Span(|content| - 1, |content|)
  }

  function QuestionText(content: string, answers: seq<string>, q: nat): string
    requires q < |content|
  {
    var span := QuestionSpan(content, answers, q);
    Trim(content[span.start..span.end])
  }

  /** The question is everything between its marker and the first answer
      marker (or the end) past the question's first character, trimmed. */
  lemma QuestionIsRegionTrimmed(content: string, answers: seq<string>, q: nat)
    requires q < |content|
    ensures QuestionText(content, answers, q) == Trim(content[q..QuestionSpan(content, answers, q).end])
  {
    var span := QuestionSpan(content, answers, q);
    var region := content[q..span.end];
    assert content[span.start..span.end] == region[span.start - q..];
    TrimSkipsLeadingSpace(region, span.start - q);
    calc {
      QuestionText(content, answers, q);
      Trim(content[span.start..span.end]);
      Trim(region[span.start - q..]);
      Trim(region);
    }
  }

  // ---------------------------------------------------------------------
  // The answer: `marker\s*(.+)$`
  // ---------------------------------------------------------------------

  /** Where the capture of the answer expression starts once its marker
      has matched and ended at `q`: after the greedy whitespace, or at the
      last character when only whitespace is left; `(.+)$` then runs to
      the end. */
  function AnswerStart(content: string, q: nat): (r: nat)
    requires q < |content|
    ensures q <= r < |content|
    ensures forall m :: q <= m < r ==> IsSpace(content[m])
  {
    var s := SkipSpace(content, q);
    if s < |content| then s else |content| - 1
  }

  function AnswerText(content: string, q: nat): string
    requires q < |content|
  {
    Trim(content[AnswerStart(content, q)..])
  }

  /** The answer is the rest of the reply after its marker, trimmed. */
  lemma AnswerIsRestTrimmed(content: string, q: nat)
    requires q < |content|
    ensures AnswerText(content, q) == Trim(content[q..])
  {
    var start := AnswerStart(content, q);
    var rest := content[q..];
    assert content[start..] == rest[start - q..];
    TrimSkipsLeadingSpace(rest, start - q);
    calc {
      AnswerText(content, q);
      Trim(content[start..]);
      Trim(rest[start - q..]);
      Trim(rest);
    }
  }

  // ---------------------------------------------------------------------
  // parse
  // ---------------------------------------------------------------------

  /** The first loop of `parse`: the first question marker that matches
      gives the question; none gives `undefined`. */
  function ParseQuestion(content: string, qs: seq<string>, answers: seq<string>): (r: Option<string>)
    ensures r.None? <==> forall k, j: nat :: 0 <= k < |qs| ==> !MarkerAt(content, qs[k], j)
    ensures r.Some? ==> exists k, p: nat :: 0 <= k < |qs| && MarkerAt(content, qs[k], p) &&
                                           r.value == Trim(content[p + |qs[k]|..QuestionSpan(content, answers, p + |qs[k]|).end])
  {
    match FirstHit(content, qs, 0)
    case None => None
    case Some(h) =>
      var q := h.position + |qs[h.pattern]|;
      QuestionIsRegionTrimmed(content, answers, q);
      Some(QuestionText(content, answers, q))
  }

  /** The second loop: the first answer marker that matches gives the
      answer, the rest of the reply after it. */
  function ParseAnswer(content: string, answers: seq<string>): (r: Option<string>)
    ensures r.None? <==> forall k, j: nat :: 0 <= k < |answers| ==> !MarkerAt(content, answers[k], j)
    ensures r.Some? ==> exists k, p: nat :: 0 <= k < |answers| && MarkerAt(content, answers[k], p) &&
                                           r.value == Trim(content[p + |answers[k]|..])
  {
    match FirstHit(content, answers, 0)
    case None => None
    case Some(h) =>
      var q := h.position + |answers[h.pattern]|;
      AnswerIsRestTrimmed(content, q);
      Some(AnswerText(content, q))
  }

  /** `parse(content, qPattern, aPattern)`: the two loops run
      independently over the same reply. */
  function Parse(content: string, qPattern: string, aPattern: string): (r: Parsed)
    ensures r.question == ParseQuestion(content, Patterns(qPattern), Patterns(aPattern))
    ensures r.answer == ParseAnswer(content, Patterns(aPattern))
  {
    Parsed(ParseQuestion(content, Patterns(qPattern), Patterns(aPattern)), ParseAnswer(content, Patterns(aPattern)))
  }

  /** What `parse` finds, in terms of the markers: the question is missing
      exactly when no question marker matches, the answer exactly when no
      answer marker matches, and a found answer is the trimmed rest of the
      reply after a matching answer marker. */
  lemma ParseFinds(content: string, qPattern: string, aPattern: string)
    ensures var qs, answers, r := Patterns(qPattern), Patterns(aPattern), Parse(content, qPattern, aPattern);
      && (r.question.None? <==> forall k, j: nat :: 0 <= k < |qs| ==> !MarkerAt(content, qs[k], j))
      && (r.answer.None? <==> forall k, j: nat :: 0 <= k < |answers| ==> !MarkerAt(content, answers[k], j))
      && (r.answer.Some? ==> exists k, p: nat :: 0 <= k < |answers| && MarkerAt(content, answers[k], p) &&
                                                 r.answer.value == Trim(content[p + |answers[k]|..]))
  {
    var qs, answers := Patterns(qPattern), Patterns(aPattern);
    var question := ParseQuestion(content, qs, answers);
    var answer := ParseAnswer(content, answers);
    assert Parse(content, qPattern, aPattern) == Parsed(question, answer);
  }

  // ---------------------------------------------------------------------
  // A reply in the expected shape
  // ---------------------------------------------------------------------

  /** Lower-casing never produces a colon from anything but a colon. */
  lemma LowerNotColon(c: char)
    requires c != ':'
    ensures LowerChar(c) != ':'
  {
  }

  /** In `Q:<question>A:<answer>` with no colon in the question, the answer
      marker matches nowhere before the `A:` that follows the question. */
  lemma NoAnswerMarkerBefore(q: string, a: string, j: nat)
    requires ':' !in q && j < 2 + |q|
    ensures !MatchesIgnoreCaseAt("Q:" + q + "A:" + a, "A:", j)
  {
    var c := "Q:" + q + "A:" + a;
    var w := ToLower(c[j..j + 2]);
    assert w[0] == LowerChar(c[j]) && w[1] == LowerChar(c[j + 1]);
    assert ToLower("A:") == "a:";
    if j == 0 {
      assert w[0] == 'q';
    } else {
      assert c[j + 1] != ':' by {
        if j + 1 < 2 + |q| {
          assert c[j + 1] == q[j - 1];
          assert q[j - 1] in q;
        }
      }
      LowerNotColon(c[j + 1]);
    }
  }

  /** `Q:` and `A:` are single markers. */
  lemma SingleMarkers()
    ensures Patterns("Q:") == ["Q:"] && Patterns("A:") == ["A:"]
  {
    var q, a := "Q:", "A:";
    assert q[0] == 'Q' && q[1] == ':' && a[0] == 'A' && a[1] == ':';
    TwoCharMarker(q);
    TwoCharMarker(a);
  }

  /** A two-character pattern without a bar or whitespace is one marker. */
  lemma TwoCharMarker(m: string)
    requires |m| == 2 && m[0] != '|' && m[1] != '|' && !IsSpace(m[0]) && !IsSpace(m[1])
    ensures Patterns(m) == [m]
  {
    assert '|' !in m by {
      assert m == [m[0], m[1]];
    }
    TrimUnchanged(m);
  }

  /** The question runs from its first non-blank character to the answer
      marker that follows it. */
  lemma QuestionSpanEnd(q: string, a: string)
    requires ':' !in q && !IsBlank(q) && |a| > 0
    ensures QuestionSpan("Q:" + q + "A:" + a, ["A:"], 2).end == 2 + |q|
    ensures ("Q:" + q + "A:" + a)[2..2 + |q|] == q
  {
    var c := "Q:" + q + "A:" + a;
    var n := |q|;
    var answers := ["A:"];
    var span := QuestionSpan(c, answers, 2);
    var i :| 0 <= i < n && !IsSpace(q[i]);
    assert c[2 + i] == q[i];
    assert span.start <= 2 + i;
    assert c[2 + n..4 + n] == "A:";
    assert MatchesIgnoreCaseAt(c, answers[0], 2 + n);
    assert StopsQuestion(c, answers, 2 + n);
    if span.end < 2 + n {
      NoAnswerMarkerBefore(q, a, span.end);
    }
  }

  /** The question half of the round trip. */
  lemma QuestionRoundTrip(q: string, a: string)
    requires ':' !in q && !IsBlank(q) && |a| > 0
    ensures ParseQuestion("Q:" + q + "A:" + a, ["Q:"], ["A:"]) == Some(Trim(q))
  {
    var c := "Q:" + q + "A:" + a;
    assert c[0..2] == "Q:";
    assert MarkerAt(c, "Q:", 0);
    FirstHitSingle(c, "Q:", 0);
    QuestionSpanEnd(q, a);
    QuestionIsRegionTrimmed(c, ["A:"], 2);
    var text := QuestionText(c, ["A:"], 2);
    assert ParseQuestion(c, ["Q:"], ["A:"]) == Some(text);
    assert text == Trim(q) by {
      assert c[2..QuestionSpan(c, ["A:"], 2).end] == q;
    }
  }

  /** With one pattern, the hit is that pattern's first marker. */
  lemma FirstHitSingle(content: string, p: string, pos: nat)
    requires MarkerAt(content, p, pos)
    requires forall j: nat :: j < pos ==> !MarkerAt(content, p, j)
    ensures FirstHit(content, [p], 0) == Some(Hit(0, pos))
  {
    var r := FirstHit(content, [p], 0);
    assert [p][0] == p;
    assert r.Some?;
    var h := r.value;
    assert h.pattern == 0;
    assert MarkerAt(content, p, h.position);
    assert !(h.position < pos);
    assert !(pos < h.position);
  }

  /** The answer half of the round trip. */
  lemma AnswerRoundTrip(q: string, a: string)
    requires ':' !in q && |a| > 0
    ensures ParseAnswer("Q:" + q + "A:" + a, ["A:"]) == Some(Trim(a))
  {
    var c := "Q:" + q + "A:" + a;
    var n := |q|;
    assert c[2 + n..4 + n] == "A:";
    assert MarkerAt(c, "A:", 2 + n);
    forall j: nat | j < 2 + n ensures !MarkerAt(c, "A:", j) {
      NoAnswerMarkerBefore(q, a, j);
    }
    FirstHitSingle(c, "A:", 2 + n);
    AnswerIsRestTrimmed(c, 4 + n);
    assert c[4 + n..] == a;
  }

  /** A reply `Q:<question>A:<answer>` parsed with the markers `Q:` and
      `A:` gives back the question and the answer, trimmed, as long as the
      question is not blank and has no colon, and an answer follows. */
  lemma ParseRoundTrip(q: string, a: string)
    requires ':' !in q && !IsBlank(q) && |a| > 0
    ensures Parse("Q:" + q + "A:" + a, "Q:", "A:") == Parsed(Some(Trim(q)), Some(Trim(a)))
  {
    SingleMarkers();
    QuestionRoundTrip(q, a);
    AnswerRoundTrip(q, a);
  }
}
