/** The client-side chunkers of processing/chunk_strategies.js: fixed-size
    windows, paragraphs, sentence packing, word lists, Jaccard-similarity
    grouping, and the context passed along with a chunk. Option values are
    integers (chunk sizes and overlap percentages). Where the source writes
    a default with `||` (the sentence packer's `chunkSize || 1000`, the
    semantic threshold), a missing or zero option takes that default; the
    fixed and paragraph chunkers use `chunkSize` and `chunkOverlap` as
    given. */
module ChunkStrategies {
  import opened Wrappers
  import opened Seqs
  import opened Strings
  import opened Grouping

  function MinInt(a: int, b: int): int { if a <= b then a else b }
  function MaxInt(a: int, b: int): int { if a >= b then a else b }

  /** `x` clipped to `[0, n]`. */
  function Clamp(x: int, n: nat): (r: nat)
    ensures r <= n
  {
    if x < 0 then 0 else if x > n then n else x
  }

  /** `s.substring(a, b)`: both ends clipped to the string, swapped when
      the first is the larger. */
  function Substring(s: string, a: int, b: int): string
  {
    var x := Clamp(a, |s|);
    var y := Clamp(b, |s|);
    if x <= y then s[x..y] else s[y..x]
  }

  // ---------------------------------------------------------------------
  // fixed
  // ---------------------------------------------------------------------

  /** `Math.max(1, size - Math.floor(size * (overlap / 100)))`: the
      distance between the starts of consecutive windows, with the overlap
      computed exactly on integers. */
  function Step(size: int, overlap: int): (r: nat)
    ensures r >= 1
  {
    MaxInt(1, size - (size * overlap) / 100)
  }

  /** Reference definition: the windows of `size` characters starting at
      `i`, `i + step`, ... while the start is inside the text. */
  function WindowsFrom(text: string, i: nat, size: int, step: nat): (r: seq<string>)
    requires step >= 1
    decreases |text| - i
  {
    if i >= |text| then [] else [Substring(text, i, i + size)] + WindowsFrom(text, i + step, size, step)
  }

  /** There are just enough windows to reach the end of the text: the
      last one starts before the end and one more would start past it. */
  lemma {:induction false} WindowsFromCount(text: string, i: nat, size: int, step: nat)
    requires step >= 1
    ensures var n := |WindowsFrom(text, i, size, step)|;
      if i >= |text| then n == 0 else (n - 1) * step < |text| - i <= n * step
    decreases |text| - i
  {
    if i < |text| {
      WindowsFromCount(text, i + step, size, step);
      var n := |WindowsFrom(text, i + step, size, step)|;
      assert (n + 1) * step == n * step + step;
      if n > 0 {
        assert n * step == (n - 1) * step + step;
      }
    }
  }

  /** The `k`-th window starts at `i + k * step`. */
  lemma {:induction false} WindowAt(text: string, i: nat, size: int, step: nat, k: nat)
    requires step >= 1 && k < |WindowsFrom(text, i, size, step)|
    ensures i + k * step < |text|
    ensures WindowsFrom(text, i, size, step)[k] == Substring(text, i + k * step, i + k * step + size)
    decreases k
  {
    var w := WindowsFrom(text, i, size, step);
    var rest := WindowsFrom(text, i + step, size, step);
    assert i < |text| && w == [Substring(text, i, i + size)] + rest;
    if k > 0 {
      WindowAt(text, i + step, size, step, k - 1);
      StepShift(i, step, k);
    } else {
      assert k * step == 0;
    }
  }

  lemma StepShift(i: nat, step: nat, k: nat)
    requires k > 0
    ensures i + step + (k - 1) * step == i + k * step
  {
    assert k * step == (k - 1) * step + step;
  }

  /** A window is at most `size` characters long. */
  lemma WindowLength(text: string, a: int, size: nat)
    ensures |Substring(text, a, a + size)| <= size
  {
  }

  /** `fixed(text, {chunkSize: size, chunkOverlap: overlap})`: the loop
      computes the windows of the reference definition. */
  method Fixed(text: string, size: int, overlap: int) returns (chunks: seq<string>)
    ensures chunks == WindowsFrom(text, 0, size, Step(size, overlap))
  {
    var step := Step(size, overlap);
    chunks := [];
    var i: nat := 0;
    while i < |text|
      invariant chunks + WindowsFrom(text, i, size, step) == WindowsFrom(text, 0, size, step)
      decreases |text| - i
    {
      chunks := chunks + [Substring(text, i, i + size)];
      i := i + step;
    }
  }

  /** The shape of `fixed`'s output: window `k` is the `size` characters
      from `k * step`, every window starts inside the text, there are just
      enough windows to reach its end, and none is longer than `size`. */
  lemma FixedShape(text: string, size: int, step: nat)
    requires step >= 1
    ensures var w := WindowsFrom(text, 0, size, step);
      && (|text| == 0 ==> |w| == 0)
      && (|text| > 0 ==> (|w| - 1) * step < |text| <= |w| * step)
      && (forall k :: 0 <= k < |w| ==> k * step < |text| && w[k] == Substring(text, k * step, k * step + size))
      && (size >= 0 ==> forall k :: 0 <= k < |w| ==> |w[k]| <= size)
  {
    var w := WindowsFrom(text, 0, size, step);
    WindowsFromCount(text, 0, size, step);
    forall k | 0 <= k < |w|
      ensures k * step < |text| && w[k] == Substring(text, k * step, k * step + size)
    {
      WindowAt(text, 0, size, step, k);
    }
    if size >= 0 {
      forall k | 0 <= k < |w|
        ensures |w[k]| <= size
      {
        WindowAt(text, 0, size, step, k);
        WindowLength(text, k * step, size);
      }
    }
  }

  /** Without overlap, windows of at least one character tile the text:
      concatenated they give it back. */
  lemma {:induction false} WindowsTile(text: string, i: nat, size: nat)
    requires size >= 1 && i <= |text|
    ensures Flatten(WindowsFrom(text, i, size, size)) == text[i..]
    decreases |text| - i
  {
    if i < |text| {
      WindowsTile(text, MinInt(i + size, |text|), size);
      if i + size >= |text| {
        assert WindowsFrom(text, i + size, size, size) == [];
      }
      assert Substring(text, i, i + size) == text[i..MinInt(i + size, |text|)];
      assert text[i..] == text[i..MinInt(i + size, |text|)] + text[MinInt(i + size, |text|)..];
    }
  }

  /** `fixed` with no overlap loses and repeats nothing. */
  lemma FixedNoOverlap(text: string, size: nat)
    requires size >= 1
    ensures Flatten(WindowsFrom(text, 0, size, Step(size, 0))) == text
  {
    assert Step(size, 0) == size;
    WindowsTile(text, 0, size);
  }

  // ---------------------------------------------------------------------
  // paragraph
  // ---------------------------------------------------------------------

  /** Two newlines in a row start at `i`. */
  predicate BreakAt(s: string, i: nat)
  {
    i + 1 < |s| && s[i] == '\n' && s[i + 1] == '\n'
  }

  predicate HasBreak(s: string)
  {
    exists i :: 0 <= i < |s| && BreakAt(s, i)
  }

  function FirstBreakFrom(s: string, from: nat): (r: Option<nat>)
    ensures r.Some? ==> from <= r.value && BreakAt(s, r.value) && forall j :: from <= j < r.value ==> !BreakAt(s, j)
    ensures r.None? ==> forall j :: from <= j ==> !BreakAt(s, j)
    decreases |s| - from
  {
    if from + 1 >= |s| then None
    else if BreakAt(s, from) then Some(from)
    else FirstBreakFrom(s, from + 1)
  }

  /** The end of the run of newlines that starts at `i`. */
  function NewlineRunEnd(s: string, i: nat): (r: nat)
    requires i <= |s|
    ensures i <= r <= |s|
    ensures forall j :: i <= j < r ==> s[j] == '\n'
    ensures r == |s| || s[r] != '\n'
    decreases |s| - i
  {
    if i == |s| || s[i] != '\n' then i else NewlineRunEnd(s, i + 1)
  }

  /** `s.split(/\n\n+/)`: runs of two or more newlines separate the parts;
      no part contains two newlines in a row. */
  function SplitParagraphs(s: string): (r: seq<string>)
    ensures |r| >= 1
    ensures forall k :: 0 <= k < |r| ==> !HasBreak(r[k])
    decreases |s|
  {
    match FirstBreakFrom(s, 0)
    case None => [s]
    case Some(i) =>
      var part := s[..i];
      assert !HasBreak(part) by {
        forall j | BreakAt(part, j)
          ensures false
        {
          assert BreakAt(s, j);
        }
      }
      [part] + SplitParagraphs(s[NewlineRunEnd(s, i)..])
  }

  /** A text without a double newline is a single paragraph. */
  lemma SplitParagraphsSingle(s: string)
    ensures SplitParagraphs(s) == [s] <==> !HasBreak(s)
  {
    if HasBreak(s) {
      var j :| BreakAt(s, j);
      assert FirstBreakFrom(s, 0).Some?;
    }
  }

  /** `p.trim()` is not empty. */
  predicate NotBlank(p: string)
  {
    !IsBlank(p)
  }

  /** The chunks of one paragraph: the paragraph itself when it is at most
      twice the chunk size, its `fixed` windows otherwise. */
  function ParagraphPieces(p: string, size: int, overlap: int): seq<string>
  {
    if |p| <= size * 2 then [p] else WindowsFrom(p, 0, size, Step(size, overlap))
  }

  /** `paragraph(text, options)`. */
  function Paragraph(text: string, size: int, overlap: int): seq<string>
  {
    Flatten(Map(Filter(SplitParagraphs(text), NotBlank), (p: string) => ParagraphPieces(p, size, overlap)))
  }

  /** With a non-negative chunk size no paragraph chunk exceeds twice the
      chunk size, and no chunk holds a double newline. */
  lemma ParagraphBounds(text: string, size: int, overlap: int)
    requires size >= 0
    ensures forall k :: 0 <= k < |Paragraph(text, size, overlap)| ==>
      |Paragraph(text, size, overlap)[k]| <= 2 * size && !HasBreak(Paragraph(text, size, overlap)[k])
  {
    var paras := Filter(SplitParagraphs(text), NotBlank);
    var groups := Map(paras, (p: string) => ParagraphPieces(p, size, overlap));
    forall i, k | 0 <= i < |groups| && 0 <= k < |groups[i]|
      ensures |groups[i][k]| <= 2 * size && !HasBreak(groups[i][k])
    {
      var p := paras[i];
      assert p in SplitParagraphs(text);
      assert !HasBreak(p);
      if |p| > size * 2 {
        FixedShape(p, size, Step(size, overlap));
        var w := groups[i][k];
        assert w == Substring(p, k * Step(size, overlap), k * Step(size, overlap) + size);
        InfixNoBreak(p, Clamp(k * Step(size, overlap), |p|), Clamp(k * Step(size, overlap) + size, |p|));
      }
    }
    FlattenForall(groups, (c: string) => |c| <= 2 * size && !HasBreak(c));
  }

  /** A piece of a text without double newlines has none either. */
  lemma InfixNoBreak(s: string, a: nat, b: nat)
    requires a <= b <= |s| && !HasBreak(s)
    ensures !HasBreak(s[a..b])
  {
    forall j | BreakAt(s[a..b], j)
      ensures false
    {
      assert BreakAt(s, a + j);
    }
  }

  /** When every paragraph is short, the paragraphs are the chunks. */
  lemma {:induction false} ShortParagraphsKept(paras: seq<string>, size: int, overlap: int)
    requires forall k :: 0 <= k < |paras| ==> |paras[k]| <= size * 2
    ensures Flatten(Map(paras, (p: string) => ParagraphPieces(p, size, overlap))) == paras
    decreases |paras|
  {
    if |paras| > 0 {
      ShortParagraphsKept(paras[1..], size, overlap);
      assert Map(paras, (p: string) => ParagraphPieces(p, size, overlap))
        == [[paras[0]]] + Map(paras[1..], (p: string) => ParagraphPieces(p, size, overlap));
    }
  }

  /** Without overlap, the chunks of a long paragraph concatenate back to it. */
  lemma LongParagraphTiled(p: string, size: nat)
    requires size >= 1
    ensures Flatten(ParagraphPieces(p, size, 0)) == p
  {
    if |p| <= size * 2 {
      FlattenSingle(p);
    } else {
      FixedNoOverlap(p, size);
    }
  }

  // ---------------------------------------------------------------------
  // wordlist
  // ---------------------------------------------------------------------

  /** `text.split(/\n/).map(w => w.trim()).filter(w => w)`. */
  function Wordlist(text: string): (r: seq<string>)
    ensures forall k :: 0 <= k < |r| ==> |r[k]| > 0 && '\n' !in r[k]
  {
    var lines := Split(text, '\n');
    var trimmed := Map(lines, Trim);
    forall k | 0 <= k < |trimmed|
      ensures '\n' !in trimmed[k]
    {
      TrimInfix(lines[k]);
    }
    Filter(trimmed, NonEmpty)
  }

  /** The trimmed text is a piece of the text. */
  lemma TrimInfix(s: string)
    ensures forall c :: c in Trim(s) ==> c in s
  {
    var a, b :| 0 <= a <= b <= |s| && Trim(s) == s[a..b];
  }

  /** A list of trimmed, non-empty terms without newlines, written one per
      line, reads back as the same list. */
  lemma WordlistRoundTrip(terms: seq<string>)
    requires |terms| >= 1
    requires forall k :: 0 <= k < |terms| ==> |terms[k]| > 0 && '\n' !in terms[k] && Trim(terms[k]) == terms[k]
    ensures Wordlist(Join(terms, "\n")) == terms
  {
    SplitJoin(terms, '\n');
    var trimmed := Map(terms, Trim);
    assert trimmed == terms;
    FilterAllNonEmpty(terms);
  }

  lemma {:induction false} FilterAllNonEmpty(s: seq<string>)
    requires forall k :: 0 <= k < |s| ==> |s[k]| > 0
    ensures Filter(s, NonEmpty) == s
    decreases |s|
  {
    if |s| > 0 {
      FilterAllNonEmpty(s[1..]);
    }
  }

  // ---------------------------------------------------------------------
  // Sentences: the regular expression /[^.!?]+[.!?]+(?:\s|$)/g
  // ---------------------------------------------------------------------

  predicate IsTerminator(c: char)
  {
    c == '.' || c == '!' || c == '?'
  }

  predicate NotTerminator(c: char)
  {
    !IsTerminator(c)
  }

  /** The end of the run of `inRun` characters that starts at `i`. */
  function RunEnd(s: string, i: nat, inRun: char -> bool): (r: nat)
    requires i <= |s|
    ensures i <= r <= |s|
    ensures forall j :: i <= j < r ==> inRun(s[j])
    ensures r == |s| || !inRun(s[r])
    decreases |s| - i
  {
    if i == |s| || !inRun(s[i]) then i else RunEnd(s, i + 1, inRun)
  }

  /** `m` is non-terminators up to `a`, terminators up to `b`, then at most
      one whitespace character. */
  predicate ShapedAt(m: string, a: nat, b: nat)
  {
    && 0 < a < b <= |m|
    && (forall j :: 0 <= j < a ==> NotTerminator(m[j]))
    && (forall j :: a <= j < b ==> IsTerminator(m[j]))
    && (b == |m| || (b + 1 == |m| && IsSpace(m[b])))
  }

  /** A text the sentence expression matches. */
  predicate SentenceShaped(m: string)
  {
    exists a, b :: 0 <= a <= |m| && 0 <= b <= |m| && ShapedAt(m, a, b)
  }

  /** The successive matches from position `p`, as the regular expression
      engine finds them: a match starts at a non-terminator, takes the
      longest run of non-terminators and of terminators after it, and needs
      whitespace or the end of the text next; where it fails the engine
      moves one character on. */
  function MatchesFrom(s: string, p: nat): (r: seq<string>)
    ensures forall k :: 0 <= k < |r| ==> SentenceShaped(r[k])
    decreases |s| - p
  {
    if p >= |s| then []
    else if IsTerminator(s[p]) then MatchesFrom(s, p + 1)
    else
      var a := RunEnd(s, p, NotTerminator);
      if a == |s| then []
      else
        var b := RunEnd(s, a, IsTerminator);
        if b == |s| then
          assert ShapedAt(s[p..b], a - p, b - p);
          [s[p..b]]
        else if IsSpace(s[b]) then
          assert ShapedAt(s[p..b + 1], a - p, b - p);
          [s[p..b + 1]] + MatchesFrom(s, b + 1)
        else MatchesFrom(s, p + 1)
  }

  /** The regular-expression fallback for splitting sentences: the trimmed
      matches, or the whole text when nothing matches. */
  function SplitSentences(text: string): (r: seq<string>)
    ensures |r| >= 1
  {
    var m := MatchesFrom(text, 0);
    if |m| == 0 then [text] else Map(m, Trim)
  }

  /** A text without `.`, `!` or `?` is a single sentence. */
  lemma NoTerminatorOneSentence(text: string)
    requires forall j :: 0 <= j < |text| ==> NotTerminator(text[j])
    ensures SplitSentences(text) == [text]
  {
    if |text| > 0 {
      assert !IsTerminator(text[0]);
    }
  }

  // ---------------------------------------------------------------------
  // computeSimilarity: Jaccard similarity of the word sets
  // ---------------------------------------------------------------------

  predicate NotWordChar(c: char)
  {
    !IsWordChar(c)
  }

  /** `new Set(text.toLowerCase().match(/\b\w+\b/g) || [])`: the maximal
      runs of word characters of the lower-cased text. */
  function WordSet(text: string): set<string>
  {
    var ws := Filter(SplitRuns(ToLower(text), NotWordChar), NonEmpty);
    set w | w in ws
  }

  lemma SubsetCard<T>(a: set<T>, b: set<T>)
    requires a <= b
    ensures |a| <= |b|
  {
    assert b == a + (b - a);
  }

  lemma RatioAtMostOne(x: real, y: real)
    requires 0.0 <= x <= y && y > 0.0
    ensures 0.0 <= x / y <= 1.0
  {
    assert x / y * y == x;
  }

  /** Reference definition: intersection over union of two finite sets,
      0 when both are empty. */
  function JaccardOf(a: set<string>, b: set<string>): real
  {
    if |a + b| == 0 then 0.0 else (|a * b| as real) / (|a + b| as real)
  }

  /** `computeSimilarity(text1, text2)`. */
  function ComputeSimilarity(text1: string, text2: string): (r: real)
    ensures 0.0 <= r <= 1.0
    ensures r == JaccardOf(WordSet(text1), WordSet(text2))
  {
    var a := WordSet(text1);
    var b := WordSet(text2);
    SubsetCard(a * b, a + b);
    if |a + b| > 0 then
      RatioAtMostOne(|a * b| as real, |a + b| as real);
      JaccardOf(a, b)
    else JaccardOf(a, b)
  }

  /** The similarity does not depend on the order of its arguments. */
  lemma SimilaritySymmetric(text1: string, text2: string)
    ensures ComputeSimilarity(text1, text2) == ComputeSimilarity(text2, text1)
  {
    var a := WordSet(text1);
    var b := WordSet(text2);
    assert a + b == b + a && a * b == b * a;
  }

  /** Texts without words are dissimilar; texts with the same non-empty
      word set are identical. */
  lemma SimilarityExtremes(text1: string, text2: string)
    ensures WordSet(text1) == {} && WordSet(text2) == {} ==> ComputeSimilarity(text1, text2) == 0.0
    ensures WordSet(text1) == WordSet(text2) != {} ==> ComputeSimilarity(text1, text2) == 1.0
  {
    var a := WordSet(text1);
    var b := WordSet(text2);
    assert ComputeSimilarity(text1, text2) == JaccardOf(a, b);
    if a == b && a != {} {
      JaccardSelf(a);
    } else if a == {} && b == {} {
      assert a + b == {};
    }
  }

  /** A non-empty set is fully similar to itself. */
  lemma JaccardSelf(a: set<string>)
    requires a != {}
    ensures JaccardOf(a, a) == 1.0
  {
    assert a + a == a && a * a == a;
  }

  // ---------------------------------------------------------------------
  // semantic
  // ---------------------------------------------------------------------

  /** `options.semanticThreshold || 0.75`. */
  function SemanticThreshold(t: Option<real>): real
  {
    if t.None? || t.value == 0.0 then 0.75 else t.value
  }

  /** A new group starts at sentence `i` when it is too dissimilar to the
      sentence before it. */
  predicate SemanticCut(sents: seq<string>, th: real, i: nat)
  {
    1 <= i < |sents| && ComputeSimilarity(sents[i - 1], sents[i]) < th
  }

  function SentenceAt(sents: seq<string>, i: nat): string
  {
    if i < |sents| then sents[i] else ""
  }

  /** The groups of sentence positions `semantic` joins. */
  function SemanticGroups(sents: seq<string>, th: real): (r: seq<seq<nat>>)
    ensures Flatten(r) == Range(0, |sents|)
    ensures forall k :: 0 <= k < |r| ==> |r[k]| > 0
    ensures forall k :: 1 <= k < |r| ==> SemanticCut(sents, th, r[k][0])
    ensures forall k, j :: 0 <= k < |r| && 1 <= j < |r[k]| ==> !SemanticCut(sents, th, r[k][j])
  {
    CutRuns(|sents|, (i: nat) => SemanticCut(sents, th, i))
  }

  /** Inside a group every sentence is at least `th` similar to the one
      before it, and every group after the first starts with a sentence
      less than `th` similar to the one before it. */
  lemma SemanticGroupsJoinIff(sents: seq<string>, th: real)
    ensures var g := SemanticGroups(sents, th);
      && (forall k, j :: 0 <= k < |g| && 1 <= j < |g[k]| ==>
            1 <= g[k][j] < |sents| && ComputeSimilarity(sents[g[k][j] - 1], sents[g[k][j]]) >= th)
      && (forall k :: 1 <= k < |g| ==>
            1 <= g[k][0] < |sents| && ComputeSimilarity(sents[g[k][0] - 1], sents[g[k][0]]) < th)
  {
    var g := SemanticGroups(sents, th);
    forall k, j | 0 <= k < |g| && 1 <= j < |g[k]|
      ensures 1 <= g[k][j] < |sents|
    {
      GroupMemberBounds(g, |sents|, k, j);
      GroupMemberBounds(g, |sents|, k, 0);
      GroupsIncrease(g, |sents|, k, j);
    }
  }

  /** A position in a group of a partition of `[0, n)` is below `n`. */
  lemma GroupMemberBounds(g: seq<seq<nat>>, n: nat, k: nat, j: nat)
    requires Flatten(g) == Range(0, n)
    requires k < |g| && j < |g[k]|
    ensures g[k][j] < n
  {
    FlattenHas(g, k, g[k][j]);
    InRange(0, n, g[k][j]);
  }

  /** Within a group of a partition of `[0, n)` into runs, a later member
      is not the first position. */
  lemma GroupsIncrease(g: seq<seq<nat>>, n: nat, k: nat, j: nat)
    requires Flatten(g) == Range(0, n)
    requires k < |g| && 1 <= j < |g[k]|
    ensures g[k][j] >= 1
  {
    FlattenHas(g, k, g[k][j]);
    if g[k][j] == 0 {
      FlattenDistinctPosition(g, n, k, j);
    }
  }

  /** Position 0 of `[0, n)` can only be the first element of the first group. */
  lemma FlattenDistinctPosition(g: seq<seq<nat>>, n: nat, k: nat, j: nat)
    requires Flatten(g) == Range(0, n)
    requires k < |g| && 1 <= j < |g[k]|
    ensures g[k][j] != 0
  {
    var before := Flatten(g[..k]);
    assert g == g[..k] + [g[k]] + g[k + 1..];
    FlattenAppend(g[..k] + [g[k]], g[k + 1..]);
    FlattenAppend(g[..k], [g[k]]);
    FlattenSingle(g[k]);
    assert Flatten(g)[|before| + j] == g[k][j];
    assert Range(0, n)[|before| + j] == |before| + j;
  }

  /** The sentences at the positions `grp`, in that order. */
  function GroupSentences(sents: seq<string>, grp: seq<nat>): (r: seq<string>)
    ensures |r| == |grp|
    ensures forall j :: 0 <= j < |grp| && grp[j] < |sents| ==> r[j] == sents[grp[j]]
  {
    Map(grp, (i: nat) => SentenceAt(sents, i))
  }

  /** One chunk of `semantic`: the group's sentences joined by a space. */
  function GroupChunk(sents: seq<string>, grp: seq<nat>): string
  {
    Join(GroupSentences(sents, grp), " ")
  }

  /** `semantic(text, options)`: fewer than two sentences are returned as
      they are; otherwise chunk `k` is the sentences of group `k` joined by
      a space, where adjacent sentences share a group exactly when their
      similarity reaches the threshold. */
  function Semantic(text: string, threshold: Option<real>): (r: seq<string>)
    ensures |SplitSentences(text)| < 2 ==> r == SplitSentences(text)
    ensures |SplitSentences(text)| >= 2 ==>
      var g := SemanticGroups(SplitSentences(text), SemanticThreshold(threshold));
      && |r| == |g|
      && forall k :: 0 <= k < |r| ==> r[k] == GroupChunk(SplitSentences(text), g[k])
  {
    var sents := SplitSentences(text);
    if |sents| < 2 then sents
    else
      Map(SemanticGroups(sents, SemanticThreshold(threshold)), (g: seq<nat>) => GroupChunk(sents, g))
  }

  /** Every group member names a sentence, so chunk `k` is exactly the
      sentences of group `k`, and no sentence is lost or repeated. */
  lemma SemanticChunkSentences(text: string, threshold: Option<real>, k: nat, j: nat)
    requires |SplitSentences(text)| >= 2
    requires k < |SemanticGroups(SplitSentences(text), SemanticThreshold(threshold))|
    requires j < |SemanticGroups(SplitSentences(text), SemanticThreshold(threshold))[k]|
    ensures var sents := SplitSentences(text);
      var g := SemanticGroups(sents, SemanticThreshold(threshold));
      && g[k][j] < |sents|
      && GroupSentences(sents, g[k])[j] == sents[g[k][j]]
  {
    var sents := SplitSentences(text);
    var g := SemanticGroups(sents, SemanticThreshold(threshold));
    GroupMemberBounds(g, |sents|, k, j);
  }

  // ---------------------------------------------------------------------
  // sentence: packing sentences up to the chunk size
  // ---------------------------------------------------------------------

  /** `options.chunkSize || 1000`. */
  function TargetSize(size: int): int
  {
    if size == 0 then 1000 else size
  }

  /** A sentence longer than one and a half times the target. */
  predicate Giant(sent: string, target: int)
  {
    2 * |sent| > 3 * target
  }

  datatype PackState = PackState(chunks: seq<string>, current: seq<string>, curLen: int)

  const Start := PackState([], [], 0)

  /** The pending group as a chunk, if there is one. */
  function Closed(current: seq<string>): seq<string>
  {
    if |current| > 0 then [Join(current, " ")] else []
  }

  /** A tail of the group short enough to carry over: its total length
      stays under `targetSize * (chunkOverlap / 100)`, compared here as
      `100 * length < bound` with `bound = target * overlap`. */
  predicate UnderOverlap(tail: seq<string>, bound: int)
  {
    |tail| == 0 || 100 * TotalLength(tail) < bound
  }

  /** The last `t` sentences of `cur` are the longest tail under the
      bound: they stay under it, and one more sentence would reach it. */
  predicate LongestUnder(cur: seq<string>, t: nat, bound: int)
    requires t <= |cur|
  {
    && UnderOverlap(cur[|cur| - t..], bound)
    && (t == |cur| || 100 * TotalLength(cur[|cur| - t - 1..]) >= bound)
  }

  /** The last sentence of `cur[..n]` alone reaches the bound. */
  predicate LastReaches(cur: seq<string>, n: nat, bound: int)
    requires n <= |cur|
  {
    n > 0 && 100 * |cur[n - 1]| >= bound
  }

  /** The sentences kept for overlap, walking back from the end of the
      group; `acc` holds the sentences from `n` on and `accLen` their total
      length. The result is the longest tail of the group under the bound,
      with its length; when even the last sentence alone reaches the bound,
      that sentence is kept on its own and the length stays 0. */
  function OverlapFrom(cur: seq<string>, n: nat, acc: seq<string>, accLen: int, bound: int): (r: (seq<string>, int))
    requires n <= |cur| && acc == cur[n..]
    requires accLen == TotalLength(acc) && UnderOverlap(acc, bound)
    ensures |acc| <= |r.0| <= |cur| && r.0 == cur[|cur| - |r.0|..]
    ensures n > 0 || |acc| > 0 ==> |r.0| > 0
    ensures |acc| == 0 && LastReaches(cur, n, bound) ==> r == ([cur[n - 1]], 0)
    ensures !(|acc| == 0 && LastReaches(cur, n, bound)) ==>
      r.1 == TotalLength(r.0) && LongestUnder(cur, |r.0|, bound)
    decreases n
  {
    if n == 0 then
      assert acc == cur;
      (acc, accLen)
    else
      var x := cur[n - 1];
      assert [x] + acc == cur[n - 1..];
      assert TotalLength([x] + acc) == |x| + accLen by { assert ([x] + acc)[1..] == acc; }
      if 100 * (accLen + |x|) < bound then
        OverlapFrom(cur, n - 1, [x] + acc, accLen + |x|, bound)
      else if |acc| == 0 then
        ([x], accLen)
      else
        assert |cur| - |acc| - 1 == n - 1;
        (acc, accLen)
  }

  /** One iteration of the loop over sentences. */
  function PackStep(st: PackState, sent: string, size: int, overlap: int): PackState
  {
    var target := TargetSize(size);
    if Giant(sent, target) then
      PackState(st.chunks + Closed(st.current) + WindowsFrom(sent, 0, size, Step(size, overlap)), [], 0)
    else if st.curLen + |sent| > target && |st.current| > 0 then
      var kept := if overlap > 0 then OverlapFrom(st.current, |st.current|, [], 0, target * overlap) else ([], 0);
      PackState(st.chunks + [Join(st.current, " ")], kept.0 + [sent], kept.1 + |sent| + 1)
    else
      PackState(st.chunks, st.current + [sent], st.curLen + |sent| + 1)
  }

  function PackAll(sents: seq<string>, st: PackState, size: int, overlap: int): PackState
    decreases |sents|
  {
    if |sents| == 0 then st else PackAll(sents[1..], PackStep(st, sents[0], size, overlap), size, overlap)
  }

  /** The chunks of `sentence` for a list of sentences. */
  function SentencePack(sents: seq<string>, size: int, overlap: int): seq<string>
  {
    var st := PackAll(sents, Start, size, overlap);
    st.chunks + Closed(st.current)
  }

  /** `sentence(text, options)`, with the regular-expression sentences. */
  function SentenceChunks(text: string, size: int, overlap: int): seq<string>
  {
    SentencePack(SplitSentences(text), size, overlap)
  }

  /** A giant sentence closes the pending group and is cut into `fixed`
      windows of its own, which without overlap concatenate back to it. */
  lemma GiantSentenceFlushed(st: PackState, sent: string, size: int, overlap: int)
    requires Giant(sent, TargetSize(size))
    ensures var r := PackStep(st, sent, size, overlap);
      && r.current == []
      && r.chunks[..|st.chunks| + |Closed(st.current)|] == st.chunks + Closed(st.current)
      && (size >= 1 && overlap == 0 ==> Flatten(r.chunks[|st.chunks| + |Closed(st.current)|..]) == sent)
  {
    var r := PackStep(st, sent, size, overlap);
    var pre := st.chunks + Closed(st.current);
    assert r.chunks == pre + WindowsFrom(sent, 0, size, Step(size, overlap));
    assert r.chunks[|pre|..] == WindowsFrom(sent, 0, size, Step(size, overlap));
    if size >= 1 && overlap == 0 {
      FixedNoOverlap(sent, size);
    }
  }

  /** What the loop has emitted so far, counting the pending group. */
  function Emitted(st: PackState): seq<string>
  {
    st.chunks + Closed(st.current)
  }

  /** Without overlap and without giant sentences, the pending group is
      never empty once a sentence was read, and the emitted chunks joined
      by spaces are the sentences read joined by spaces. */
  predicate RoundTripInv(st: PackState, read: seq<string>)
  {
    if |read| == 0 then st == Start
    else |st.current| > 0 && Join(Emitted(st), " ") == Join(read, " ")
  }

  lemma RoundTripStep(st: PackState, read: seq<string>, sent: string, size: int)
    requires RoundTripInv(st, read) && !Giant(sent, TargetSize(size))
    ensures RoundTripInv(PackStep(st, sent, size, 0), read + [sent])
  {
    var r := PackStep(st, sent, size, 0);
    if |read| == 0 {
      assert read + [sent] == [sent];
    } else {
      JoinSnoc(read, sent, " ");
      var j := Join(st.current, " ");
      if st.curLen + |sent| > TargetSize(size) {
        assert Emitted(r) == Emitted(st) + [sent];
        JoinSnoc(Emitted(st), sent, " ");
      } else {
        JoinSnoc(st.current, sent, " ");
        assert Emitted(r) == st.chunks + [j + " " + sent];
        if |st.chunks| > 0 {
          JoinSnoc(st.chunks, j + " " + sent, " ");
          JoinSnoc(st.chunks, j, " ");
        }
      }
    }
  }

  lemma {:induction false} RoundTripAll(sents: seq<string>, st: PackState, read: seq<string>, size: int)
    requires RoundTripInv(st, read)
    requires forall k :: 0 <= k < |sents| ==> !Giant(sents[k], TargetSize(size))
    ensures RoundTripInv(PackAll(sents, st, size, 0), read + sents)
    decreases |sents|
  {
    if |sents| == 0 {
      assert read + sents == read;
    } else {
      RoundTripStep(st, read, sents[0], size);
      assert read + sents == (read + [sents[0]]) + sents[1..];
      RoundTripAll(sents[1..], PackStep(st, sents[0], size, 0), read + [sents[0]], size);
    }
  }

  /** Without overlap and without giant sentences, `sentence` loses and
      repeats nothing: its chunks joined by spaces are the sentences
      joined by spaces. */
  lemma SentencePackRoundTrip(sents: seq<string>, size: int)
    requires |sents| >= 1
    requires forall k :: 0 <= k < |sents| ==> !Giant(sents[k], TargetSize(size))
    ensures Join(SentencePack(sents, size, 0), " ") == Join(sents, " ")
  {
    assert [] + sents == sents;
    RoundTripAll(sents, Start, [], size);
  }

  /** Without overlap: the pending group's joined length is `curLen - 1`,
      a group of two or more sentences fits the target, every pending
      sentence is an input sentence, and every emitted chunk either fits
      the chunk size or is a single input sentence. */
  predicate BoundInv(st: PackState, sents: seq<string>, size: int)
  {
    && (|st.current| > 0 ==> |Join(st.current, " ")| == st.curLen - 1)
    && (|st.current| == 0 ==> st.curLen == 0)
    && (|st.current| >= 2 ==> st.curLen - 1 <= size)
    && (forall k :: 0 <= k < |st.current| ==> st.current[k] in sents)
    && (forall k :: 0 <= k < |st.chunks| ==> |st.chunks[k]| <= size || st.chunks[k] in sents)
  }

  lemma ClosedBound(current: seq<string>, curLen: int, sents: seq<string>, size: int)
    requires |current| > 0 ==> |Join(current, " ")| == curLen - 1
    requires |current| >= 2 ==> curLen - 1 <= size
    requires forall k :: 0 <= k < |current| ==> current[k] in sents
    ensures forall k :: 0 <= k < |Closed(current)| ==> |Closed(current)[k]| <= size || Closed(current)[k] in sents
  {
    if |current| == 1 {
      assert Join(current, " ") == current[0];
    }
  }

  lemma BoundStep(st: PackState, sent: string, sents: seq<string>, size: int)
    requires size >= 1 && BoundInv(st, sents, size) && sent in sents
    ensures BoundInv(PackStep(st, sent, size, 0), sents, size)
  {
    var r := PackStep(st, sent, size, 0);
    ClosedBound(st.current, st.curLen, sents, size);
    if Giant(sent, size) {
      var w := WindowsFrom(sent, 0, size, Step(size, 0));
      FixedShape(sent, size, Step(size, 0));
      assert r.chunks == (st.chunks + Closed(st.current)) + w;
    } else if st.curLen + |sent| > size && |st.current| > 0 {
      assert r.current == [sent];
      assert Join([sent], " ") == sent;
    } else {
      if |st.current| > 0 {
        JoinSnoc(st.current, sent, " ");
      } else {
        assert st.current + [sent] == [sent];
      }
    }
  }

  lemma {:induction false} BoundAll(rest: seq<string>, st: PackState, sents: seq<string>, size: int)
    requires size >= 1 && BoundInv(st, sents, size)
    requires forall k :: 0 <= k < |rest| ==> rest[k] in sents
    ensures BoundInv(PackAll(rest, st, size, 0), sents, size)
    decreases |rest|
  {
    if |rest| > 0 {
      BoundStep(st, rest[0], sents, size);
      BoundAll(rest[1..], PackStep(st, rest[0], size, 0), sents, size);
    }
  }

  /** Without overlap, every chunk of `sentence` fits the chunk size unless
      it is a single sentence on its own. */
  lemma SentencePackBound(sents: seq<string>, size: int)
    requires size >= 1
    ensures forall k :: 0 <= k < |SentencePack(sents, size, 0)| ==>
      |SentencePack(sents, size, 0)[k]| <= size || SentencePack(sents, size, 0)[k] in sents
  {
    BoundAll(sents, Start, sents, size);
    var st := PackAll(sents, Start, size, 0);
    ClosedBound(st.current, st.curLen, sents, size);
  }

  // ---------------------------------------------------------------------
  // buildInjectedContext
  // ---------------------------------------------------------------------

  /** The context settings: the window (a number, or absent) and the
      label template ("" when absent). */
  datatype ContextConfig = ContextConfig(contextWindow: Option<int>, template: string)

  const DefaultContextWindow: int := 2
  const DefaultContextLabel: string := "Contexto relevante:"

  /** `xs.slice(lo, hi)` for a non-negative `lo`. */
  function Slice<T>(xs: seq<T>, lo: nat, hi: int): (r: seq<T>)
    ensures forall x :: x in r ==> x in xs
  {
    var a := if lo <= |xs| then lo else |xs|;
    var b := Clamp(hi, |xs|);
    if a < b then xs[a..b] else []
  }

  /** The non-empty chunk texts in `[max(0, index - window), index)`. */
  function ContextSlices(chunkTexts: seq<string>, index: nat, window: int): seq<string>
  {
    Filter(Slice(chunkTexts, MaxInt(0, index - window), index), NonEmpty)
  }

  /** `buildInjectedContext(chunkTexts, index, contextConfig)`. */
  function InjectedContext(chunkTexts: seq<string>, index: nat, config: Option<ContextConfig>): (r: string)
    ensures config.None? ==> r == ""
    ensures config.Some? ==>
      var window := config.value.contextWindow.GetOr(DefaultContextWindow);
      var heading := if config.value.template == "" then DefaultContextLabel else config.value.template;
      var summary := Trim(Join(ContextSlices(chunkTexts, index, window), "\n"));
      && (r != "" <==> summary != "")
      && (summary != "" ==> r == heading + "\n" + summary)
  {
    if config.None? then ""
    else
      var window := config.value.contextWindow.GetOr(DefaultContextWindow);
      var slices := ContextSlices(chunkTexts, index, window);
      if |slices| == 0 then ""
      else
        var heading := if config.value.template == "" then DefaultContextLabel else config.value.template;
        var summary := Trim(Join(slices, "\n"));
        if summary == "" then "" else heading + "\n" + summary
  }

  /** The context is drawn from exactly the non-empty chunks at positions
      `max(0, index - window) .. index - 1`. */
  lemma ContextSlicesExact(chunkTexts: seq<string>, index: nat, window: int, x: string)
    ensures x in ContextSlices(chunkTexts, index, window) <==>
      x != "" && exists j :: MaxInt(0, index - window) <= j < index && j < |chunkTexts| && chunkTexts[j] == x
  {
    var lo := MaxInt(0, index - window);
    var s := Slice(chunkTexts, lo, index);
    if x in s {
      var m :| 0 <= m < |s| && s[m] == x;
      assert chunkTexts[lo + m] == x;
    }
    if exists j :: lo <= j < index && j < |chunkTexts| && chunkTexts[j] == x {
      var j :| lo <= j < index && j < |chunkTexts| && chunkTexts[j] == x;
      assert s[j - lo] == x;
    }
  }

  /** Without a numeric window the last two chunks are used. */
  lemma DefaultWindowIsTwo(chunkTexts: seq<string>, index: nat, template: string)
    ensures InjectedContext(chunkTexts, index, Some(ContextConfig(None, template)))
         == InjectedContext(chunkTexts, index, Some(ContextConfig(Some(2), template)))
  {
  }
}
