/** The pure parts of the pipeline step handlers
    (pipeline/pipeline_step_handlers.js): chunk configuration resolution,
    `dedupe`, `estimateDifficulty`, `generateClozeVariant` and the
    `parseFlashcard` fallback. Logging and the shared `State` object are
    left out; the clock and `JSON.parse` become parameters. */
module StepHandlers {
  import opened Wrappers
  import opened Seqs
  import opened Strings
  import ClozeEngine

  datatype Card = Card(question: string, answer: string, cardType: string)

  // ---------------------------------------------------------------------
  // Chunk configuration
  // ---------------------------------------------------------------------

  /** The chunk step's own `config`, each field possibly unset; `methodName`
      is its `method` field. */
  datatype StepChunkConfig = StepChunkConfig(
    methodName: Option<string>, chunkMethod: Option<string>,
    size: Option<int>, chunkSize: Option<int>,
    overlap: Option<int>, chunkOverlap: Option<int>,
    minSize: Option<int>, minChunkSize: Option<int>,
    semanticThreshold: Option<real>,
    engine: Option<string>, segmentationEngine: Option<string>)

  /** The pipeline-wide options, each field possibly unset. */
  datatype PipelineOptions = PipelineOptions(
    chunkMethod: Option<string>, chunkSize: Option<int>, chunkOverlap: Option<int>,
    minChunkSize: Option<int>, semanticThreshold: Option<real>, segmentationEngine: Option<string>)

  datatype ChunkConfig = ChunkConfig(
    methodName: string, chunkSize: int, chunkOverlap: int, minChunkSize: int,
    semanticThreshold: Option<real>, engine: string)

  const NoStepConfig := StepChunkConfig(None, None, None, None, None, None, None, None, None, None, None)
  const NoOptions := PipelineOptions(None, None, None, None, None, None)

  /** A string is truthy for `||` when it is set and not empty. */
  predicate Truthy(o: Option<string>)
  {
    o.Some? && o.value != ""
  }

  /** `a || b` on strings. */
  function Or(a: Option<string>, b: string): string
  {
    if Truthy(a) then a.value else b
  }

  /** `a ?? b`: only an unset value falls through, zero does not. */
  function Coalesce<T>(a: Option<T>, b: T): T
  {
    if a.Some? then a.value else b
  }

  function CoalesceOpt<T>(a: Option<T>, b: Option<T>): Option<T>
  {
    if a.Some? then a else b
  }

  /** The first truthy string of a priority list, or the default. */
  function FirstTruthy(sources: seq<Option<string>>, default: string): string
  {
    if |sources| == 0 then default
    else if Truthy(sources[0]) then sources[0].value
    else FirstTruthy(sources[1..], default)
  }

  /** The first set value of a priority list, or the default. */
  function FirstSet<T>(sources: seq<Option<T>>, default: T): T
  {
    if |sources| == 0 then default
    else if sources[0].Some? then sources[0].value
    else FirstSet(sources[1..], default)
  }

  lemma FirstTruthy3(a: Option<string>, b: Option<string>, c: Option<string>, d: string)
    ensures FirstTruthy([a, b, c], d) == Or(a, Or(b, Or(c, d)))
  {
    assert [a, b, c][1..] == [b, c] && [b, c][1..] == [c] && [c][1..] == [];
    assert FirstTruthy([c], d) == Or(c, d);
    assert FirstTruthy([b, c], d) == Or(b, Or(c, d));
  }

  lemma FirstSet3<T>(a: Option<T>, b: Option<T>, c: Option<T>, d: T)
    ensures FirstSet([a, b, c], d) == Coalesce(a, Coalesce(b, Coalesce(c, d)))
  {
    assert [a, b, c][1..] == [b, c] && [b, c][1..] == [c] && [c][1..] == [];
    assert FirstSet([c], d) == Coalesce(c, d);
    assert FirstSet([b, c], d) == Coalesce(b, Coalesce(c, d));
  }

  /** The resolved configuration: for each field the step's own setting
      first (under either of its two names), then the pipeline option,
      then the default. */
  function ResolveChunkConfig(cfg: StepChunkConfig, opts: PipelineOptions): (r: ChunkConfig)
    ensures r.methodName == FirstTruthy([cfg.methodName, cfg.chunkMethod, opts.chunkMethod], "sentence")
    ensures r.chunkSize == FirstSet([cfg.size, cfg.chunkSize, opts.chunkSize], 500)
    ensures r.chunkOverlap == FirstSet([cfg.overlap, cfg.chunkOverlap, opts.chunkOverlap], 0)
    ensures r.minChunkSize == FirstSet([cfg.minSize, cfg.minChunkSize, opts.minChunkSize], 50)
    ensures r.semanticThreshold == (if cfg.semanticThreshold.Some? then cfg.semanticThreshold else opts.semanticThreshold)
    ensures r.engine == FirstTruthy([cfg.engine, cfg.segmentationEngine, opts.segmentationEngine], "default")
  {
    FirstTruthy3(cfg.methodName, cfg.chunkMethod, opts.chunkMethod, "sentence");
    FirstTruthy3(cfg.engine, cfg.segmentationEngine, opts.segmentationEngine, "default");
    FirstSet3(cfg.size, cfg.chunkSize, opts.chunkSize, 500);
    FirstSet3(cfg.overlap, cfg.chunkOverlap, opts.chunkOverlap, 0);
    FirstSet3(cfg.minSize, cfg.minChunkSize, opts.minChunkSize, 50);
    ChunkConfig(
      Or(cfg.methodName, Or(cfg.chunkMethod, Or(opts.chunkMethod, "sentence"))),
      Coalesce(cfg.size, Coalesce(cfg.chunkSize, Coalesce(opts.chunkSize, 500))),
      Coalesce(cfg.overlap, Coalesce(cfg.chunkOverlap, Coalesce(opts.chunkOverlap, 0))),
      Coalesce(cfg.minSize, Coalesce(cfg.minChunkSize, Coalesce(opts.minChunkSize, 50))),
      CoalesceOpt(cfg.semanticThreshold, opts.semanticThreshold),
      Or(cfg.engine, Or(cfg.segmentationEngine, Or(opts.segmentationEngine, "default"))))
  }

  /** With nothing configured anywhere, the defaults apply. */
  lemma ResolveDefaults()
    ensures ResolveChunkConfig(NoStepConfig, NoOptions) == ChunkConfig("sentence", 500, 0, 50, None, "default")
  {
  }

  /** A step that sets every field under its first name ignores the
      pipeline options; a step that sets nothing takes them. */
  lemma ResolvePriority(cfg: StepChunkConfig, o1: PipelineOptions, o2: PipelineOptions)
    ensures Truthy(cfg.methodName) && cfg.size.Some? && cfg.overlap.Some? && cfg.minSize.Some?
         && cfg.semanticThreshold.Some? && Truthy(cfg.engine)
         ==> ResolveChunkConfig(cfg, o1) == ResolveChunkConfig(cfg, o2)
    ensures var r := ResolveChunkConfig(NoStepConfig, o1);
      && r.chunkSize == Coalesce(o1.chunkSize, 500)
      && r.methodName == Or(o1.chunkMethod, "sentence")
      && r.semanticThreshold == o1.semanticThreshold
  {
  }

  /** `??` keeps an explicit zero while `||` skips an empty string. */
  lemma ResolveZeroAndEmpty(opts: PipelineOptions)
    requires opts.chunkMethod == Some("paragraph")
    ensures var cfg := NoStepConfig.(size := Some(0), methodName := Some(""));
      && ResolveChunkConfig(cfg, opts).chunkSize == 0
      && ResolveChunkConfig(cfg, opts).methodName == "paragraph"
  {
  }

  /** The enabled `chunk` handler: a missing or empty text yields `""` and
      no configuration; otherwise the text passes through unchanged and the
      resolved configuration is recorded. */
  function ChunkHandler(processed: Option<string>, cfg: StepChunkConfig, opts: PipelineOptions): (r: (string, Option<ChunkConfig>))
    ensures r.0 == processed.GetOr("")
    ensures r.1.Some? <==> processed.Some? && processed.value != ""
  {
    if processed.None? || processed.value == "" then ("", None)
    else (processed.value, Some(ResolveChunkConfig(cfg, opts)))
  }

  // ---------------------------------------------------------------------
  // dedupe
  // ---------------------------------------------------------------------

  /** `card.question.toLowerCase().trim()`. */
  function DedupKey(c: Card): string
  {
    Trim(ToLower(c.question))
  }

  function KeysOf<T(==)>(xs: seq<T>, key: T -> string): set<string>
  {
    set x | x in xs :: key(x)
  }

  predicate UniqueKeys<T>(xs: seq<T>, key: T -> string)
  {
    forall i, j :: 0 <= i < j < |xs| ==> key(xs[i]) != key(xs[j])
  }

  /** The `filter` with the `seen` set: an entry is kept when its key has
      not been seen, and its key is then recorded. */
  function DedupeFrom<T(==)>(xs: seq<T>, key: T -> string, seen: set<string>): (r: seq<T>)
    ensures forall k :: 0 <= k < |r| ==> key(r[k]) !in seen
    ensures UniqueKeys(r, key)
    ensures IsSubsequence(r, xs)
    decreases |xs|
  {
    if |xs| == 0 then []
    else if key(xs[0]) in seen then
      var rest := DedupeFrom(xs[1..], key, seen);
      SubsequenceDropHead(rest, xs);
      rest
    else
      var rest := DedupeFrom(xs[1..], key, seen + {key(xs[0])});
      ConsUnique(xs[0], rest, key, seen);
      var r := [xs[0]] + rest;
      assert r[1..] == rest;
      r
  }

  lemma ConsUnique<T>(x: T, rest: seq<T>, key: T -> string, seen: set<string>)
    requires key(x) !in seen
    requires forall k :: 0 <= k < |rest| ==> key(rest[k]) !in seen + {key(x)}
    requires UniqueKeys(rest, key)
    ensures UniqueKeys([x] + rest, key)
    ensures forall k :: 0 <= k < |[x] + rest| ==> key(([x] + rest)[k]) !in seen
  {
    var r := [x] + rest;
    forall k | 1 <= k < |r|
      ensures r[k] == rest[k - 1]
    {
    }
  }

  /** `dedupe(cards, step)`: the identity when the step is disabled. */
  function Dedupe(cards: seq<Card>, enabled: bool): (r: seq<Card>)
    ensures !enabled ==> r == cards
    ensures enabled ==> UniqueKeys(r, DedupKey) && IsSubsequence(r, cards)
  {
    if enabled then DedupeFrom(cards, DedupKey, {}) else cards
  }

  /** The reference: an entry is kept exactly when no earlier entry has its key. */
  function FirstOfEachKey<T(==)>(xs: seq<T>, key: T -> string): seq<T>
  {
    if |xs| == 0 then []
    else
      var init := xs[..|xs| - 1];
      var last := xs[|xs| - 1];
      FirstOfEachKey(init, key) + (if key(last) in KeysOf(init, key) then [] else [last])
  }

  lemma KeysOfCons<T>(xs: seq<T>, key: T -> string)
    requires |xs| > 0
    ensures KeysOf(xs, key) == {key(xs[0])} + KeysOf(xs[1..], key)
  {
    assert xs == [xs[0]] + xs[1..];
  }

  lemma {:induction false} DedupeFromSnoc<T>(xs: seq<T>, x: T, key: T -> string, seen: set<string>)
    ensures DedupeFrom(xs + [x], key, seen)
         == DedupeFrom(xs, key, seen) + (if key(x) in seen + KeysOf(xs, key) then [] else [x])
    decreases |xs|
  {
    if |xs| == 0 {
      assert xs + [x] == [x];
      assert [x][1..] == [];
    } else {
      var h := xs[0];
      assert (xs + [x])[0] == h && (xs + [x])[1..] == xs[1..] + [x];
      KeysOfCons(xs, key);
      if key(h) in seen {
        DedupeFromSnoc(xs[1..], x, key, seen);
      } else {
        DedupeFromSnoc(xs[1..], x, key, seen + {key(h)});
      }
    }
  }

  /** Deduplication keeps the first entry for each key, in order. */
  lemma {:induction false} DedupeFirstOfEach<T>(xs: seq<T>, key: T -> string)
    ensures DedupeFrom(xs, key, {}) == FirstOfEachKey(xs, key)
    decreases |xs|
  {
    if |xs| > 0 {
      var init := xs[..|xs| - 1];
      DedupeFirstOfEach(init, key);
      assert xs == init + [xs[|xs| - 1]];
      DedupeFromSnoc(init, xs[|xs| - 1], key, {});
    }
  }

  /** `dedupe` keeps the first card for each lower-cased, trimmed question. */
  lemma DedupeFirstOfEachKey(cards: seq<Card>)
    ensures Dedupe(cards, true) == FirstOfEachKey(cards, DedupKey)
  {
    DedupeFirstOfEach(cards, DedupKey);
  }

  /** Entries with distinct keys, none seen, all pass. */
  lemma {:induction false} DedupeFromUnique<T>(xs: seq<T>, key: T -> string, seen: set<string>)
    requires UniqueKeys(xs, key)
    requires forall k :: 0 <= k < |xs| ==> key(xs[k]) !in seen
    ensures DedupeFrom(xs, key, seen) == xs
    decreases |xs|
  {
    if |xs| > 0 {
      var t := xs[1..];
      forall k | 0 <= k < |t|
        ensures key(t[k]) !in seen + {key(xs[0])}
      {
        assert t[k] == xs[k + 1];
      }
      assert UniqueKeys(t, key) by {
        forall i, j | 0 <= i < j < |t|
          ensures key(t[i]) != key(t[j])
        {
          assert t[i] == xs[i + 1] && t[j] == xs[j + 1];
        }
      }
      DedupeFromUnique(t, key, seen + {key(xs[0])});
      assert xs == [xs[0]] + t;
    }
  }

  /** Deduplicating twice is deduplicating once. */
  lemma DedupeIdempotent(cards: seq<Card>, enabled: bool)
    ensures Dedupe(Dedupe(cards, enabled), enabled) == Dedupe(cards, enabled)
  {
    if enabled {
      DedupeFromUnique(Dedupe(cards, true), DedupKey, {});
    }
  }

  /** No key is lost: every unseen input key has an entry in the output. */
  lemma {:induction false} DedupeKeepsKeys<T>(xs: seq<T>, key: T -> string, seen: set<string>)
    ensures KeysOf(DedupeFrom(xs, key, seen), key) == KeysOf(xs, key) - seen
    decreases |xs|
  {
    if |xs| > 0 {
      var h, t := xs[0], xs[1..];
      KeysOfCons(xs, key);
      if key(h) in seen {
        DedupeKeepsKeys(t, key, seen);
      } else {
        DedupeKeepsKeys(t, key, seen + {key(h)});
        var rest := DedupeFrom(t, key, seen + {key(h)});
        KeysOfCons([h] + rest, key);
        assert ([h] + rest)[1..] == rest;
      }
    }
  }

  /** Every question key of the input survives `dedupe`. */
  lemma DedupeKeepsQuestions(cards: seq<Card>)
    ensures KeysOf(Dedupe(cards, true), DedupKey) == KeysOf(cards, DedupKey)
  {
    DedupeKeepsKeys(cards, DedupKey, {});
  }

  // ---------------------------------------------------------------------
  // estimateDifficulty
  // ---------------------------------------------------------------------

  /** `(card.answer || '').split(/\s+/).length`: empty pieces count, so a
      leading or trailing space adds one and the empty answer counts one. */
  function PieceCount(answer: string): (n: nat)
    ensures n >= 1
  {
    |SplitRuns(answer, IsSpace)|
  }

  /** `estimateDifficulty(card, method)`: 1 (easy) up to 10 pieces, 2 up to
      20, 3 beyond, for `wordCount`; 2 for any other method. */
  function EstimateDifficulty(answer: string, estimation: string): (d: nat)
    ensures 1 <= d <= 3
    ensures estimation != "wordCount" ==> d == 2
    ensures estimation == "wordCount" && PieceCount(answer) <= 10 ==> d == 1
    ensures estimation == "wordCount" && 10 < PieceCount(answer) <= 20 ==> d == 2
    ensures estimation == "wordCount" && PieceCount(answer) > 20 ==> d == 3
  {
    if estimation == "wordCount" then
      var n := PieceCount(answer);
      if n <= 10 then 1 else if n <= 20 then 2 else 3
    else 2
  }

  /** Parts of a text that neither ends with a separator: every part after
      the first is non-empty, and the first is empty only when the text is
      or starts with a separator. */
  lemma {:induction false} SplitRunsInnerParts(s: string, sep: char -> bool)
    requires |s| == 0 || !sep(s[|s| - 1])
    ensures var r := SplitRuns(s, sep);
      && (forall k :: 1 <= k < |r| ==> |r[k]| > 0)
      && (|r[0]| == 0 <==> |s| == 0 || sep(s[0]))
    decreases |s|
  {
    if |s| > 0 {
      SplitRunsInnerParts(s[1..], sep);
    }
  }

  lemma {:induction false} FilterAllKept<T>(s: seq<T>, keep: T -> bool)
    requires forall k :: 0 <= k < |s| ==> keep(s[k])
    ensures Filter(s, keep) == s
    decreases |s|
  {
    if |s| > 0 {
      FilterAllKept(s[1..], keep);
      assert s == [s[0]] + s[1..];
    }
  }

  /** For a trimmed, non-empty answer the pieces are its words, so the
      estimate counts words. */
  lemma PiecesAreWords(answer: string)
    requires answer != "" && Trim(answer) == answer
    ensures PieceCount(answer) == |Words(answer)|
  {
    var r := SplitRuns(answer, IsSpace);
    assert !IsSpace(answer[0]) && !IsSpace(answer[|answer| - 1]);
    SplitRunsInnerParts(answer, IsSpace);
    FilterAllKept(r, NonEmpty);
  }

  // ---------------------------------------------------------------------
  // generateClozeVariant
  // ---------------------------------------------------------------------

  /** The `clozeEntities` and `clozeNumbers` switches. */
  datatype VariantConfig = VariantConfig(clozeEntities: bool, clozeNumbers: bool)

  /** `'{{c1::' + t + '}}'`. */
  function Wrap(t: string): string
  {
    ClozeEngine.ClozeOpen + t + ClozeEngine.ClozeClose
  }

  /** The end of the run of digits that starts at `i`. */
  function DigitRunEnd(s: string, i: nat): (j: nat)
    requires i <= |s|
    ensures i <= j <= |s|
    ensures forall k :: i <= k < j ==> IsDigit(s[k])
    ensures j == |s| || !IsDigit(s[j])
    decreases |s| - i
  {
    if i < |s| && IsDigit(s[i]) then DigitRunEnd(s, i + 1) else i
  }

  /** A match of `\b\d+\b` starts at `i`: a run of digits with no word
      character right before or right after it. (A shorter run cannot end
      at a word boundary, since a digit follows it.) */
  predicate NumberAt(s: string, i: nat)
  {
    && i < |s| && IsDigit(s[i])
    && (i == 0 || !IsWordChar(s[i - 1]))
    && (DigitRunEnd(s, i) == |s| || !IsWordChar(s[DigitRunEnd(s, i)]))
  }

  /** The start of the first match at or after `from`. */
  function FirstNumberFrom(s: string, from: nat): (r: Option<nat>)
    ensures r.Some? ==> from <= r.value && NumberAt(s, r.value)
    ensures forall i :: from <= i && (r.None? || i < r.value) ==> !NumberAt(s, i)
    decreases |s| - from
  {
    if from >= |s| then None
    else if NumberAt(s, from) then Some(from)
    else FirstNumberFrom(s, from + 1)
  }

  /** `answer.match(/\b\d+\b/g)[0]`, when there is a match. */
  function FirstNumber(s: string): (r: Option<string>)
    ensures r.Some? ==> exists i: nat :: NumberAt(s, i) && r.value == s[i..DigitRunEnd(s, i)]
    ensures r.None? <==> forall i :: !NumberAt(s, i)
  {
    match FirstNumberFrom(s, 0)
    case None => None
    case Some(i) => Some(s[i..DigitRunEnd(s, i)])
  }

  /** The text to wrap: the first number when numbers are enabled and one
      is present (it overrides the entity), otherwise the first person when
      entities are enabled and the library found one. */
  function Target(answer: string, config: VariantConfig, people: Option<seq<string>>): Option<string>
  {
    if config.clozeNumbers && FirstNumber(answer).Some? then FirstNumber(answer)
    else if config.clozeEntities && people.Some? && |people.value| > 0 then Some(people.value[0])
    else None
  }

  /** `generateClozeVariant(card, config)` as written. `people` is what the
      NLP library reports (`None` when it is not loaded). The target is
      wrapped at the first occurrence of its text in the answer. No change,
      or no answer, gives `None`. */
  function GenerateClozeVariant(card: Card, config: VariantConfig, people: Option<seq<string>>): (r: Option<Card>)
    ensures card.answer == "" ==> r.None?
    ensures r.Some? ==> r.value.question == card.question && r.value.cardType == "cloze"
    ensures r.Some? ==> r.value.answer != card.answer
  {
    VariantFor(card, Target(card.answer, config, people))
  }

  /** The card with its target wrapped; no change, or no answer, gives
      `None`. */
  function VariantFor(card: Card, target: Option<string>): (r: Option<Card>)
    ensures card.answer == "" ==> r.None?
    ensures r.Some? ==> r.value.question == card.question && r.value.cardType == "cloze"
    ensures r.Some? ==> r.value.answer != card.answer
  {
    if card.answer == "" then None
    else
      var clozeText := ClozeText(card.answer, target);
      if clozeText != card.answer then Some(Card(card.question, clozeText, "cloze")) else None
  }

  /** The answer with the first occurrence of the target wrapped. */
  function ClozeText(answer: string, target: Option<string>): string
  {
    match target
    case None => answer
    case Some(t) => ReplaceFirst(answer, t, Wrap(t))
  }

  /** `r` is `a` with one occurrence of `t` wrapped as a gap. */
  predicate WrapsOccurrence(a: string, t: string, r: string)
  {
    exists i: nat :: i + |t| <= |a| && a[i..i + |t|] == t && r == a[..i] + Wrap(t) + a[i + |t|..]
  }

  /** Without a target there is no variant; a variant wraps one
      occurrence of the target. */
  lemma VariantShape(card: Card, target: Option<string>)
    ensures target.None? ==> VariantFor(card, target).None?
    ensures VariantFor(card, target).Some? ==> target.Some?
    ensures VariantFor(card, target).Some? ==> WrapsOccurrence(card.answer, target.value, VariantFor(card, target).value.answer)
  {
    var a := card.answer;
    if target.Some? && VariantFor(card, target).Some? {
      ReplaceFirstChanged(a, target.value, Wrap(target.value));
    }
  }

  /** A variant wraps one occurrence of its target and keeps the rest of
      the answer around it, so erasing the gap markers gives the answer
      back; without a target there is no variant. */
  lemma ClozeVariantShape(card: Card, config: VariantConfig, people: Option<seq<string>>)
    ensures Target(card.answer, config, people).None? ==> GenerateClozeVariant(card, config, people).None?
    ensures GenerateClozeVariant(card, config, people).Some? ==>
      WrapsOccurrence(card.answer, Target(card.answer, config, people).value, GenerateClozeVariant(card, config, people).value.answer)
  {
    VariantShape(card, Target(card.answer, config, people));
  }

  /** The number's own position, with its text: the match is wrapped where
      it was found. */
  function WrapNumberAt(s: string): (r: Option<string>)
    ensures r.None? <==> FirstNumber(s).None?
    ensures r.Some? ==> exists i: nat ::
      (NumberAt(s, i) && (forall j: nat :: j < i ==> !NumberAt(s, j)) &&
       r.value == s[..i] + Wrap(s[i..DigitRunEnd(s, i)]) + s[DigitRunEnd(s, i)..])
  {
    match FirstNumberFrom(s, 0)
    case None => None
    case Some(i) => Some(s[..i] + Wrap(s[i..DigitRunEnd(s, i)]) + s[DigitRunEnd(s, i)..])
  }

  /** `generateClozeVariant` with the number wrapped where the regular
      expression matched it. */
  function GenerateClozeVariantFixed(card: Card, config: VariantConfig, people: Option<seq<string>>): (r: Option<Card>)
    ensures card.answer == "" ==> r.None?
    ensures r.Some? ==> r.value.question == card.question && r.value.cardType == "cloze"
    ensures r.Some? ==> r.value.answer != card.answer
  {
    if card.answer == "" then None
    else
      var answer := card.answer;
      var byEntity :=
        if config.clozeEntities && people.Some? && |people.value| > 0
        then ReplaceFirst(answer, people.value[0], Wrap(people.value[0]))
        else answer;
      var clozeText :=
        if config.clozeNumbers && WrapNumberAt(answer).Some? then WrapNumberAt(answer).value
        else byEntity;
      if clozeText != answer then Some(Card(card.question, clozeText, "cloze")) else None
  }

  /** With numbers enabled, the corrected variant wraps a whole number:
      the digits between two non-word characters (or the ends). */
  lemma FixedWrapsWholeNumber(card: Card, config: VariantConfig, people: Option<seq<string>>)
    requires config.clozeNumbers && card.answer != "" && FirstNumber(card.answer).Some?
    ensures var v := GenerateClozeVariantFixed(card, config, people);
      && v.Some?
      && exists i: nat :: NumberAt(card.answer, i) &&
           v.value.answer == card.answer[..i] + Wrap(card.answer[i..DigitRunEnd(card.answer, i)])
                             + card.answer[DigitRunEnd(card.answer, i)..]
  {
    var a := card.answer;
    var i := FirstNumberFrom(a, 0).value;
    var w := WrapNumberAt(a).value;
    assert |w| == |a| + |ClozeEngine.ClozeOpen| + |ClozeEngine.ClozeClose|;
  }

  lemma FirstNumberExample()
    ensures FirstNumber("x12 12") == Some("12")
  {
    var s := "x12 12";
    assert s[0] == 'x' && s[1] == '1' && s[2] == '2' && s[3] == ' ' && s[4] == '1' && s[5] == '2';
    assert DigitRunEnd(s, 6) == 6;
    assert DigitRunEnd(s, 5) == 6;
    assert DigitRunEnd(s, 4) == 6;
    assert NumberAt(s, 4);
    assert FirstNumberFrom(s, 4) == Some(4);
    assert !NumberAt(s, 3);
    assert !NumberAt(s, 2);
    assert !NumberAt(s, 1);
    assert !NumberAt(s, 0);
    assert FirstNumberFrom(s, 0) == Some(4);
    assert s[4..6] == "12";
  }

  /** As written, the digits of the first number are wrapped where they
      first occur, which can be inside an earlier word: in "x12 12" the
      number is the second "12", but the "12" of "x12" is wrapped. */
  lemma NumberWrappedInsideWord()
    ensures GenerateClozeVariant(Card("q", "x12 12", "basic"), VariantConfig(false, true), None)
         == Some(Card("q", "x{{c1::12}} 12", "cloze"))
  {
    var s := "x12 12";
    FirstNumberExample();
    assert Target(s, VariantConfig(false, true), None) == Some("12");
    TwelveFirstInsideWord();
    assert ReplaceFirst(s, "12", Wrap("12")) == s[..1] + Wrap("12") + s[3..];
    assert s[..1] == "x" && s[3..] == " 12";
    WrappedTwelve();
  }

  /** The digits "12" first occur in "x12 12" at position 1. */
  lemma TwelveFirstInsideWord()
    ensures IndexOf("x12 12", "12") == Some(1)
  {
    var s := "x12 12";
    assert s[1..3] == "12";
    assert OccursAt(s, "12", 1);
    assert s[0..2][0] == 'x';
    assert !OccursAt(s, "12", 0);
  }

  lemma WrappedTwelve()
    ensures "x" + Wrap("12") + " 12" == "x{{c1::12}} 12"
  {
  }

  // ---------------------------------------------------------------------
  // parseFlashcard
  // ---------------------------------------------------------------------

  /** What `JSON.parse` made of the cleaned reply: not JSON at all, or an
      object whose `question` and `answer` are given (`""` when missing). */
  datatype JsonReply = NotJson | Json(question: string, answer: string)

  /** The parsed card; its id is the clock reading plus the chunk index. */
  datatype Flashcard = Flashcard(id: int, question: string, answer: string, chunkIndex: int, sourceText: string)

  const SourcePrefixLength: nat := 200

  /** `sourceText.substring(0, 200)`. */
  function SourcePrefix(s: string): (r: string)
    ensures |r| <= SourcePrefixLength && |r| <= |s| && r == s[..|r|]
    ensures |s| <= SourcePrefixLength ==> r == s
  {
    if |s| <= SourcePrefixLength then s else s[..SourcePrefixLength]
  }

  datatype Field = QuestionField | AnswerField

  /** `/^(Q|Pregunta|Question):/i` and `/^(A|Respuesta|Answer):/i`. */
  function Markers(f: Field): seq<string>
  {
    match f
    case QuestionField => ["q:", "pregunta:", "question:"]
    case AnswerField => ["a:", "respuesta:", "answer:"]
  }

  /** The length of the first marker the line starts with, ignoring case. */
  function MarkerLength(line: string, markers: seq<string>): (r: Option<nat>)
    ensures r.Some? ==> r.value <= |line|
    ensures r.Some? ==> exists k :: 0 <= k < |markers| && |markers[k]| == r.value && MatchesIgnoreCaseAt(line, markers[k], 0)
    ensures r.None? <==> forall k :: 0 <= k < |markers| ==> !MatchesIgnoreCaseAt(line, markers[k], 0)
  {
    if |markers| == 0 then None
    else if MatchesIgnoreCaseAt(line, markers[0], 0) then Some(|markers[0]|)
    else
      var r := MarkerLength(line, markers[1..]);
      assert forall k :: 1 <= k < |markers| ==> markers[k] == markers[1..][k - 1];
      r
  }

  /** The field a line sets and the trimmed text after its marker; a
      question marker is tested first. */
  function Classify(line: string): Option<(Field, string)>
  {
    match MarkerLength(line, Markers(QuestionField))
    case Some(n) => Some((QuestionField, Trim(line[n..])))
    case None =>
      match MarkerLength(line, Markers(AnswerField))
      case Some(n) => Some((AnswerField, Trim(line[n..])))
      case None => None
  }

  /** One iteration of the `for (const line of lines)` loop for field `f`. */
  function Assign(cur: string, line: string, classify: string -> Option<(Field, string)>, f: Field): string
  {
    match classify(line)
    case Some(c) => if c.0 == f then c.1 else cur
    case None => cur
  }

  /** The loop, for field `f`, from the value `cur`. */
  function ScanField(lines: seq<string>, classify: string -> Option<(Field, string)>, f: Field, cur: string): string
    decreases |lines|
  {
    if |lines| == 0 then cur else ScanField(lines[1..], classify, f, Assign(cur, lines[0], classify, f))
  }

  /** The reference: the value from the last line that sets `f`, `""` when
      none does. */
  function LastField(lines: seq<string>, classify: string -> Option<(Field, string)>, f: Field): (r: string)
    ensures r != "" ==> exists k :: 0 <= k < |lines| && classify(lines[k]) == Some((f, r))
  {
    if |lines| == 0 then ""
    else
      var init := lines[..|lines| - 1];
      var c := classify(lines[|lines| - 1]);
      if c.Some? && c.value.0 == f then c.value.1
      else
        var r := LastField(init, classify, f);
        assert forall k :: 0 <= k < |init| ==> init[k] == lines[k];
        r
  }

  lemma {:induction false} ScanFieldSnoc(lines: seq<string>, x: string, classify: string -> Option<(Field, string)>, f: Field, cur: string)
    ensures ScanField(lines + [x], classify, f, cur) == Assign(ScanField(lines, classify, f, cur), x, classify, f)
    decreases |lines|
  {
    if |lines| == 0 {
      assert [x][1..] == [];
    } else {
      assert (lines + [x])[1..] == lines[1..] + [x];
      ScanFieldSnoc(lines[1..], x, classify, f, Assign(cur, lines[0], classify, f));
    }
  }

  /** The loop leaves each field with the value of the last line that sets it. */
  lemma {:induction false} ScanIsLast(lines: seq<string>, classify: string -> Option<(Field, string)>, f: Field)
    ensures ScanField(lines, classify, f, "") == LastField(lines, classify, f)
    decreases |lines|
  {
    if |lines| > 0 {
      var init := lines[..|lines| - 1];
      ScanIsLast(init, classify, f);
      assert lines == init + [lines[|lines| - 1]];
      ScanFieldSnoc(init, lines[|lines| - 1], classify, f, "");
    }
  }

  predicate NotBlank(line: string)
  {
    !IsBlank(line)
  }

  /** `content.split('\n').filter(l => l.trim())`. */
  function ReplyLines(content: string): seq<string>
  {
    Filter(Split(content, '\n'), NotBlank)
  }

  /** `parseFlashcard(content, chunkIndex, sourceText)` with the clock
      reading `now`. A JSON object yields a card exactly when it has both
      fields and never falls back to the text form; text yields a card
      exactly when both a question and an answer were found. */
  function ParseFlashcard(content: string, reply: JsonReply, now: int, chunkIndex: int, sourceText: string): (r: Option<Flashcard>)
    ensures r.Some? ==> r.value.question != "" && r.value.answer != ""
    ensures r.Some? ==> r.value.id == now + chunkIndex && r.value.chunkIndex == chunkIndex
    ensures r.Some? ==> r.value.sourceText == SourcePrefix(sourceText)
    ensures reply.Json? ==> (r.Some? <==> reply.question != "" && reply.answer != "")
    ensures reply.Json? && r.Some? ==> r.value.question == reply.question && r.value.answer == reply.answer
  {
    match reply
    case Json(q, a) =>
      if q != "" && a != "" then Some(Flashcard(now + chunkIndex, q, a, chunkIndex, SourcePrefix(sourceText)))
      else None
    case NotJson =>
      var lines := ReplyLines(content);
      var q := ScanField(lines, Classify, QuestionField, "");
      var a := ScanField(lines, Classify, AnswerField, "");
      if q != "" && a != "" then Some(Flashcard(now + chunkIndex, q, a, chunkIndex, SourcePrefix(sourceText)))
      else None
  }

  /** For a text reply, a card comes out exactly when the last question
      line and the last answer line carry text, and it holds those texts. */
  lemma ParseTextFallback(content: string, now: int, chunkIndex: int, sourceText: string)
    ensures var lines := ReplyLines(content);
      var r := ParseFlashcard(content, NotJson, now, chunkIndex, sourceText);
      && (r.Some? <==> LastField(lines, Classify, QuestionField) != "" && LastField(lines, Classify, AnswerField) != "")
      && (r.Some? ==> (r.value.question == LastField(lines, Classify, QuestionField)
                      && r.value.answer == LastField(lines, Classify, AnswerField)))
  {
    ScanIsLast(ReplyLines(content), Classify, QuestionField);
    ScanIsLast(ReplyLines(content), Classify, AnswerField);
  }

  /** Removing one leading space from trimmed text trims back to it. */
  lemma TrimAfterSpace(t: string)
    requires t != "" && Trim(t) == t
    ensures Trim(" " + t) == t
  {
    assert !IsSpace(t[0]) && !IsSpace(t[|t| - 1]);
    assert (" " + t)[1..] == t;
    assert TrimStart(" " + t) == TrimStart(t) == t;
  }

  /** A text that starts with a spelling of the marker matches it. */
  lemma PrefixMatches(p: string, rest: string, marker: string)
    requires ToLower(p) == ToLower(marker)
    ensures MatchesIgnoreCaseAt(p + rest, marker, 0)
  {
    assert (p + rest)[0..|marker|] == p;
  }

  lemma ClassifyQuestionLine(q: string)
    requires q != "" && Trim(q) == q
    ensures Classify("Q: " + q) == Some((QuestionField, q))
  {
    var l := "Q: " + q;
    assert l == "Q:" + (" " + q);
    assert ToLower("Q:") == ToLower("q:") by {
      assert LowerChar('Q') == 'q';
    }
    PrefixMatches("Q:", " " + q, "q:");
    assert MarkerLength(l, Markers(QuestionField)) == Some(2);
    assert l[2..] == " " + q;
    TrimAfterSpace(q);
  }

  /** A line starting with 'A' matches none of the question markers,
      which start with 'q' or 'p'. */
  lemma NoMarkerAt(l: string, markers: seq<string>)
    requires |l| > 0 && l[0] == 'A'
    requires forall k :: 0 <= k < |markers| ==> |markers[k]| > 0 && markers[k][0] in {'q', 'p'}
    ensures forall k :: 0 <= k < |markers| ==> !MatchesIgnoreCaseAt(l, markers[k], 0)
  {
    forall k | 0 <= k < |markers|
      ensures !MatchesIgnoreCaseAt(l, markers[k], 0)
    {
      var m := markers[k];
      if |m| <= |l| {
        assert ToLower(l[0..|m|])[0] == 'a';
        assert ToLower(m)[0] == m[0];
      }
    }
  }

  lemma ClassifyAnswerLine(a: string)
    requires a != "" && Trim(a) == a
    ensures Classify("A: " + a) == Some((AnswerField, a))
  {
    var l := "A: " + a;
    NoMarkerAt(l, Markers(QuestionField));
    assert MarkerLength(l, Markers(QuestionField)) == None;
    assert l == "A:" + (" " + a);
    assert ToLower("A:") == ToLower("a:") by {
      assert LowerChar('A') == 'a';
    }
    PrefixMatches("A:", " " + a, "a:");
    assert MarkerLength(l, Markers(AnswerField)) == Some(2);
    assert l[2..] == " " + a;
    TrimAfterSpace(a);
  }

  lemma RenderedLines(lq: string, la: string)
    requires '\n' !in lq && '\n' !in la
    requires |lq| > 0 && |la| > 0 && !IsSpace(lq[0]) && !IsSpace(la[0])
    ensures ReplyLines(lq + "\n" + la) == [lq, la]
  {
    assert Join([lq, la], "\n") == lq + "\n" + la;
    SplitJoin([lq, la], '\n');
    assert NotBlank(lq) && NotBlank(la);
    FilterAllKept([lq, la], NotBlank);
  }

  /** A card written as a "Q: …" line and an "A: …" line parses back. */
  lemma ParseRendered(q: string, a: string, now: int, chunkIndex: int, sourceText: string)
    requires q != "" && Trim(q) == q && '\n' !in q
    requires a != "" && Trim(a) == a && '\n' !in a
    ensures var r := ParseFlashcard("Q: " + q + "\n" + "A: " + a, NotJson, now, chunkIndex, sourceText);
      r.Some? && r.value.question == q && r.value.answer == a
  {
    var lq, la := "Q: " + q, "A: " + a;
    assert lq[0] == 'Q' && la[0] == 'A';
    assert "Q: " + q + "\n" + "A: " + a == lq + "\n" + la;
    RenderedLines(lq, la);
    ClassifyQuestionLine(q);
    ClassifyAnswerLine(a);
    ScanTwoLines(lq, la, q, a, Classify);
  }

  lemma ScanTwoLines(lq: string, la: string, q: string, a: string, classify: string -> Option<(Field, string)>)
    requires classify(lq) == Some((QuestionField, q)) && classify(la) == Some((AnswerField, a))
    ensures ScanField([lq, la], classify, QuestionField, "") == q
    ensures ScanField([lq, la], classify, AnswerField, "") == a
  {
    assert [lq, la][1..] == [la] && [la][1..] == [];
    assert Assign("", lq, classify, QuestionField) == q;
    assert Assign(q, la, classify, QuestionField) == q;
    assert ScanField([la], classify, QuestionField, q) == ScanField([], classify, QuestionField, q);
    assert Assign("", lq, classify, AnswerField) == "";
    assert Assign("", la, classify, AnswerField) == a;
    assert ScanField([la], classify, AnswerField, "") == ScanField([], classify, AnswerField, a);
  }
}
