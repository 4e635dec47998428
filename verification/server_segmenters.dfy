/** The segmentation strategies of Flashgen/server.py that cut the
    document's sentences or tokens into consecutive groups: `sentences`,
    `entities`, `noun_chunks`, `semantic_similarity`, `entity_context` and
    `semantic_blocks`. Sentence similarity is the `sim` oracle over sentence
    indices (spaCy's vector cosine, which this model does not compute). */
module ServerSegmenters {
  import opened Wrappers
  import opened Seqs
  import opened Strings
  import opened Annotation
  import opened Grouping
  import opened Chapters

  /** The metadata attached to a chunk by the advanced strategies. */
  datatype Meta =
    | NoMeta
    | ChapterMeta(chapter: string)
    | EntityMeta(entity: string, entityType: string, mainSentence: string)
    | ClosedBlockMeta(avgSimilarity: real, numSentences: nat)
    | LastBlockMeta
    | NounTermMeta(term: string, frequency: nat, examples: seq<string>)
    | VerbTermMeta(term: string)
    | NoVerbMeta
    | ClauseMeta(verb: string, verbPos: string, numTokens: nat)
    | SubClauseMeta(verb: string, verbPos: string, numTokens: nat)
    | VerbPhraseMeta(verb: string, verbText: string, verbPos: string, numWords: nat)

  datatype Chunk = Chunk(text: string, meta: Meta)

  function Min(a: int, b: int): int { if a <= b then a else b }
  function Max(a: int, b: int): int { if a >= b then a else b }

  /** Text of sentence `k`, or the empty text past the last sentence. */
  function SentTextOr(doc: Doc, k: nat): string
  {
    if k < |doc.sents| then SentText(doc, k) else ""
  }

  // ---------------------------------------------------------------------
  // sentences
  // ---------------------------------------------------------------------

  /** `segment_by_sentences`: the stripped sentence texts that are not empty. */
  function SegmentBySentences(doc: Doc): (r: seq<string>)
    ensures forall k :: 0 <= k < |r| ==> r[k] != ""
    ensures IsSubsequence(r, StrippedSentTexts(doc))
  {
    var all := StrippedSentTexts(doc);
    FilterIsSubsequence(all, NonEmpty);
    Filter(all, NonEmpty)
  }

  /** No non-empty sentence is lost: every sentence whose stripped text is
      not empty appears among the segments. */
  lemma SentencesKept(doc: Doc, k: nat)
    requires k < |doc.sents| && Trim(SentText(doc, k)) != ""
    ensures Trim(SentText(doc, k)) in SegmentBySentences(doc)
  {
    var all := StrippedSentTexts(doc);
    assert all[k] in all;
  }

  // ---------------------------------------------------------------------
  // entities
  // ---------------------------------------------------------------------

  predicate BeginsEntity(doc: Doc, i: nat)
  {
    i < |doc.tokens| && doc.tokens[i].entIob == "B"
  }

  /** The token groups of `segment_by_entities`: every token exactly once,
      in order, a new group starting at each token that begins an entity
      (unless it is the very first token). */
  function EntityGroups(doc: Doc): (r: seq<seq<nat>>)
    ensures Flatten(r) == Range(0, |doc.tokens|)
    ensures forall k :: 0 <= k < |r| ==> |r[k]| > 0
    ensures forall k :: 1 <= k < |r| ==> BeginsEntity(doc, r[k][0])
    ensures forall k, j :: 0 <= k < |r| && 1 <= j < |r[k]| ==> !BeginsEntity(doc, r[k][j])
  {
    CutRuns(|doc.tokens|, (i: nat) => BeginsEntity(doc, i))
  }

  function GroupText(doc: Doc, g: seq<nat>): string
  {
    Trim(JoinTokenTexts(doc, g))
  }

  /** The stripped text of every entity group, group by group. */
  function EntityTexts(doc: Doc): (r: seq<string>)
    ensures |r| == |EntityGroups(doc)|
    ensures forall k :: 0 <= k < |r| ==> r[k] == GroupText(doc, EntityGroups(doc)[k])
  {
    Map(EntityGroups(doc), g => GroupText(doc, g))
  }

  /** `segment_by_entities`: each group's token texts joined by spaces,
      stripped, empty ones dropped; the segments are the non-empty group
      texts, in group order, each as often as it occurs. */
  function SegmentByEntities(doc: Doc): (r: seq<string>)
    ensures forall k :: 0 <= k < |r| ==> r[k] != ""
    ensures |r| <= |EntityGroups(doc)|
    ensures FilteredFrom(r, EntityTexts(doc), NonEmpty)
  {
    var texts := EntityTexts(doc);
    FilterFiltered(texts, NonEmpty);
    assert |texts| == |EntityGroups(doc)|;
    Filter(texts, NonEmpty)
  }

  /** A text is a segment exactly when it is the non-empty text of some
      entity group. */
  lemma EntitySegments(doc: Doc, x: string)
    ensures x in SegmentByEntities(doc) <==>
      x != "" && exists k :: 0 <= k < |EntityGroups(doc)| && x == GroupText(doc, EntityGroups(doc)[k])
  {
    var groups := EntityGroups(doc);
    var texts := EntityTexts(doc);
    assert x in SegmentByEntities(doc) <==> x in texts && NonEmpty(x);
    if k :| 0 <= k < |groups| && x == GroupText(doc, groups[k]) {
      assert texts[k] == x;
    }
    if x in texts {
      var m :| 0 <= m < |texts| && texts[m] == x;
      assert x == GroupText(doc, groups[m]);
    }
  }

  // ---------------------------------------------------------------------
  // noun_chunks
  // ---------------------------------------------------------------------

  /** A noun chunk widened by three tokens of right context, clipped to the document. */
  function NounChunkWindow(doc: Doc, nc: Span): string
  {
    Trim(SpanText(doc, nc.start, Min(nc.end + 3, |doc.tokens|)))
  }

  /** `segment_by_noun_chunks`: each noun chunk's window, stripped, empty ones dropped. */
  function SegmentByNounChunks(doc: Doc): (r: seq<string>)
    ensures |r| <= |doc.nounChunks|
    ensures forall k :: 0 <= k < |r| ==> r[k] != ""
  {
    Filter(Map(doc.nounChunks, nc => NounChunkWindow(doc, nc)), NonEmpty)
  }

  /** Every segment is the window of some noun chunk, and every noun chunk
      whose window is not empty contributes its window. */
  lemma NounChunkSegments(doc: Doc, x: string)
    ensures x in SegmentByNounChunks(doc) <==>
      x != "" && exists c :: c in doc.nounChunks && x == NounChunkWindow(doc, c)
  {
    var windows := Map(doc.nounChunks, nc => NounChunkWindow(doc, nc));
    assert SegmentByNounChunks(doc) == Filter(windows, NonEmpty);
    MapMembers(doc.nounChunks, nc => NounChunkWindow(doc, nc), x);
  }

  // ---------------------------------------------------------------------
  // semantic_similarity
  // ---------------------------------------------------------------------

  /** Sentence `i` starts a new chunk: both it and its predecessor have
      vectors and their similarity is below the threshold. */
  predicate TopicShift(doc: Doc, sim: (nat, nat) -> real, threshold: real, i: nat)
  {
    1 <= i < |doc.sents| && doc.sents[i - 1].hasVector && doc.sents[i].hasVector
    && sim(i - 1, i) < threshold
  }

  function SimilarityGroups(doc: Doc, sim: (nat, nat) -> real, threshold: real): (r: seq<seq<nat>>)
    ensures Flatten(r) == Range(0, |doc.sents|)
    ensures forall k :: 0 <= k < |r| ==> |r[k]| > 0
    ensures forall k :: 1 <= k < |r| ==> TopicShift(doc, sim, threshold, r[k][0])
    ensures forall k, j :: 0 <= k < |r| && 1 <= j < |r[k]| ==> !TopicShift(doc, sim, threshold, r[k][j])
  {
    CutRuns(|doc.sents|, (i: nat) => TopicShift(doc, sim, threshold, i))
  }

  function JoinSentTexts(doc: Doc, g: seq<nat>): string
  {
    Join(Map(g, k => SentTextOr(doc, k)), " ")
  }

  /** The stripped text of every similarity group: its sentence texts
      joined by spaces. */
  function SimilarityTexts(doc: Doc, sim: (nat, nat) -> real, threshold: real): (r: seq<string>)
    ensures |r| == |SimilarityGroups(doc, sim, threshold)|
    ensures forall k :: 0 <= k < |r| ==> r[k] == Trim(JoinSentTexts(doc, SimilarityGroups(doc, sim, threshold)[k]))
  {
    Map(SimilarityGroups(doc, sim, threshold), g => Trim(JoinSentTexts(doc, g)))
  }

  /** `segment_by_semantic_similarity(doc, threshold)`: the sentence
      segmentation without vectors, the unstripped sentence texts for a
      document of at most one sentence, and otherwise the non-empty texts
      of the similarity groups, in group order. */
  function SegmentBySemanticSimilarity(doc: Doc, sim: (nat, nat) -> real, threshold: real): (r: seq<string>)
    ensures !doc.hasVector ==> r == SegmentBySentences(doc)
    ensures doc.hasVector && |doc.sents| <= 1 ==>
      |r| == |doc.sents| && forall k :: 0 <= k < |r| ==> r[k] == SentText(doc, k)
    ensures doc.hasVector && |doc.sents| > 1 ==>
      |r| <= |SimilarityGroups(doc, sim, threshold)| && forall k :: 0 <= k < |r| ==> r[k] != ""
    ensures doc.hasVector && |doc.sents| > 1 ==> FilteredFrom(r, SimilarityTexts(doc, sim, threshold), NonEmpty)
  {
    if !doc.hasVector then SegmentBySentences(doc)
    else if |doc.sents| <= 1 then Map(Range(0, |doc.sents|), k => SentTextOr(doc, k))
    else
      FilterFiltered(SimilarityTexts(doc, sim, threshold), NonEmpty);
      Filter(SimilarityTexts(doc, sim, threshold), NonEmpty)
  }

  // ---------------------------------------------------------------------
  // entity_context
  // ---------------------------------------------------------------------

  const ContextLabels: seq<string> := ["PERSON", "ORG", "GPE", "LOC", "DATE", "EVENT", "NORP"]

  /** An entity chosen by `segment_entity_context`, the index of its
      sentence, and the sentence window `[lo, hi)` around it. */
  datatype ContextHit = ContextHit(entity: Span, main: nat, lo: nat, hi: nat)

  /** The sentences of a window, added to the processed set. */
  function WindowSet(lo: nat, hi: nat): set<nat>
  {
    set k | k in Range(lo, hi)
  }

  /** The sentence of entity `e` when the loop takes it: its label is one
      of the context labels, it lies in a sentence, and that sentence is
      not yet processed. */
  function ChosenSentence(doc: Doc, e: Span, processed: set<nat>): Option<nat>
  {
    if e.tag !in ContextLabels then None
    else match SentenceIndexOf(doc, e.start)
      case None => None
      case Some(idx) => if idx in processed then None else Some(idx)
  }

  function MakeHit(doc: Doc, window: nat, e: Span, idx: nat): ContextHit
  {
    ContextHit(e, idx, Max(0, idx - window), Min(|doc.sents|, idx + window + 1))
  }

  /** The entity loop over `ents`, with the set of processed sentences. */
  function ContextHitsFrom(doc: Doc, window: nat, ents: seq<Span>, processed: set<nat>): (r: seq<ContextHit>)
    ensures |r| <= |ents|
    decreases |ents|
  {
    if |ents| == 0 then []
    else
      match ChosenSentence(doc, ents[0], processed)
      case None => ContextHitsFrom(doc, window, ents[1..], processed)
      case Some(idx) =>
        var h := MakeHit(doc, window, ents[0], idx);
        [h] + ContextHitsFrom(doc, window, ents[1..], processed + WindowSet(h.lo, h.hi))
  }

  /** What holds of every chosen entity: it is one of the entities, carries
      a context label, lies in sentence `main`, which was not processed
      before, and its window is `main` widened by `window` sentences on
      either side and clipped to the document. */
  predicate GoodHit(doc: Doc, window: nat, ents: seq<Span>, processed: set<nat>, h: ContextHit)
  {
    && h.entity in ents
    && h.entity.tag in ContextLabels
    && SentenceIndexOf(doc, h.entity.start) == Some(h.main)
    && h.main !in processed
    && h.lo == Max(0, h.main - window)
    && h.hi == Min(|doc.sents|, h.main + window + 1)
  }

  lemma {:induction false} ContextHitsGood(doc: Doc, window: nat, ents: seq<Span>, processed: set<nat>)
    ensures forall h :: h in ContextHitsFrom(doc, window, ents, processed) ==> GoodHit(doc, window, ents, processed, h)
    decreases |ents|
  {
    if |ents| > 0 {
      var rest := ents[1..];
      assert forall x :: x in rest ==> x in ents;
      match ChosenSentence(doc, ents[0], processed)
      case None =>
        ContextHitsGood(doc, window, rest, processed);
      case Some(idx) =>
        var h := MakeHit(doc, window, ents[0], idx);
        var p2 := processed + WindowSet(h.lo, h.hi);
        ContextHitsGood(doc, window, rest, p2);
        assert GoodHit(doc, window, ents, processed, h);
    }
  }

  /** No chosen entity lies in the window of an earlier chosen entity. */
  predicate Spread(r: seq<ContextHit>)
  {
    forall a, b :: 0 <= a < b < |r| ==> !(r[a].lo <= r[b].main < r[a].hi)
  }

  lemma {:induction false} ContextHitsSpread(doc: Doc, window: nat, ents: seq<Span>, processed: set<nat>)
    ensures Spread(ContextHitsFrom(doc, window, ents, processed))
    decreases |ents|
  {
    if |ents| > 0 {
      var rest := ents[1..];
      match ChosenSentence(doc, ents[0], processed)
      case None =>
        assert ContextHitsFrom(doc, window, ents, processed) == ContextHitsFrom(doc, window, rest, processed);
        ContextHitsSpread(doc, window, rest, processed);
      case Some(idx) =>
        var h := MakeHit(doc, window, ents[0], idx);
        var p2 := processed + WindowSet(h.lo, h.hi);
        var tail := ContextHitsFrom(doc, window, rest, p2);
        ContextHitsSpread(doc, window, rest, p2);
        ContextHitsGood(doc, window, rest, p2);
        var r := [h] + tail;
        assert r == ContextHitsFrom(doc, window, ents, processed);
        forall a, b | 0 <= a < b < |r|
          ensures !(r[a].lo <= r[b].main < r[a].hi)
        {
          var t := tail[b - 1];
          assert r[b] == t;
          assert t in tail;
          assert t.main !in p2;
          if a == 0 {
            InRange(h.lo, h.hi, t.main);
            assert t.main !in WindowSet(h.lo, h.hi);
            assert !(h.lo <= t.main < h.hi);
          } else {
            assert r[a] == tail[a - 1];
            assert !(tail[a - 1].lo <= tail[b - 1].main < tail[a - 1].hi);
          }
        }
    }
  }

  /** The main sentences of the chosen entities are distinct. */
  lemma ContextHitsDistinct(doc: Doc, window: nat)
    ensures var r := ContextHitsFrom(doc, window, doc.ents, {});
      forall a, b :: 0 <= a < b < |r| ==> r[a].main != r[b].main
  {
    var r := ContextHitsFrom(doc, window, doc.ents, {});
    ContextHitsSpread(doc, window, doc.ents, {});
    assert Spread(r);
    ContextHitsGood(doc, window, doc.ents, {});
    forall a, b | 0 <= a < b < |r|
      ensures r[a].main != r[b].main
    {
      assert r[a] in r;
      assert r[a].lo <= r[a].main < r[a].hi;
    }
  }

  /** With the default width 1, the window of each chosen entity is the
      sentence before, the sentence itself and the sentence after, clipped
      to the document. */
  lemma EntityContextWindow(doc: Doc, h: ContextHit)
    requires h in ContextHitsFrom(doc, 1, doc.ents, {})
    ensures h.main < |doc.sents|
    ensures h.lo == (if h.main == 0 then 0 else h.main - 1)
    ensures h.hi == (if h.main + 1 < |doc.sents| then h.main + 2 else |doc.sents|)
  {
    ContextHitsGood(doc, 1, doc.ents, {});
  }

  function StrippedSentRange(doc: Doc, lo: nat, hi: nat): seq<string>
  {
    Map(Range(lo, hi), k => Trim(SentTextOr(doc, k)))
  }

  function HitChunk(doc: Doc, h: ContextHit): Chunk
  {
    Chunk(
      Join(StrippedSentRange(doc, h.lo, h.hi), " "),
      EntityMeta(SpanText(doc, h.entity.start, h.entity.end), h.entity.tag, Trim(SentTextOr(doc, h.main))))
  }

  /** `segment_entity_context(doc, context_window)`: one chunk per chosen
      entity, the window's stripped sentences joined by spaces. */
  function SegmentEntityContext(doc: Doc, window: nat): (r: seq<Chunk>)
    ensures |r| <= |doc.ents|
    ensures forall k :: 0 <= k < |r| ==> r[k].meta.EntityMeta? && r[k].meta.entityType in ContextLabels
  {
    var hits := ContextHitsFrom(doc, window, doc.ents, {});
    ContextHitsGood(doc, window, doc.ents, {});
    assert forall k :: 0 <= k < |hits| ==> hits[k] in hits;
    Map(hits, (h: ContextHit) => HitChunk(doc, h))
  }

  // ---------------------------------------------------------------------
  // semantic_blocks
  // ---------------------------------------------------------------------

  /** A block of consecutive sentence indices; `closed` blocks were cut
      before a following sentence, the last block was not. */
  datatype Block = Block(sentences: seq<nat>, closed: bool)

  const BlockMaxChars: int := 600

  /** Similarity of sentence `i` to its predecessor, 1.0 when either lacks a vector. */
  function PairSimilarity(doc: Doc, sim: (nat, nat) -> real, i: nat): real
  {
    if 1 <= i < |doc.sents| && doc.sents[i - 1].hasVector && doc.sents[i].hasVector
    then sim(i - 1, i) else 1.0
  }

  /** Characters in the (unstripped) texts of the sentences of a block. */
  function BlockLength(doc: Doc, b: seq<nat>): nat
  {
    TotalLength(Map(b, k => SentTextOr(doc, k)))
  }

  lemma BlockLengthSnoc(doc: Doc, b: seq<nat>, i: nat)
    ensures BlockLength(doc, b + [i]) == BlockLength(doc, b) + |SentTextOr(doc, i)|
  {
    assert Map(b + [i], k => SentTextOr(doc, k)) == Map(b, k => SentTextOr(doc, k)) + [SentTextOr(doc, i)];
    TotalLengthSnoc(Map(b, k => SentTextOr(doc, k)), SentTextOr(doc, i));
  }

  /** Sentence `i` joins the open block `b`. */
  predicate Continues(doc: Doc, sim: (nat, nat) -> real, threshold: real, b: seq<nat>, i: nat)
  {
    PairSimilarity(doc, sim, i) >= threshold && BlockLength(doc, b) <= BlockMaxChars
  }

  /** Every sentence after the first of a block joined it: its similarity
      to its predecessor reached the threshold and the block so far was at
      most 600 characters long. */
  predicate WellGrown(doc: Doc, sim: (nat, nat) -> real, threshold: real, b: seq<nat>)
  {
    GrownBy((b': seq<nat>, i: nat) => Continues(doc, sim, threshold, b', i), b)
  }

  /** Every element after the first of `b` joined the elements before it. */
  predicate GrownBy(joins: (seq<nat>, nat) -> bool, b: seq<nat>)
  {
    forall j :: 1 <= j < |b| ==> joins(b[..j], b[j])
  }

  /** The loop of `segment_semantic_blocks` from sentence `i` (of `n`) on,
      with the open block `b`; `joins(b, i)` decides whether sentence `i`
      joins the open block. */
  function BlocksFrom(n: nat, joins: (seq<nat>, nat) -> bool, i: nat, b: seq<nat>): (r: seq<Block>)
    requires |b| > 0
    ensures |r| > 0 && !r[|r| - 1].closed
    ensures forall k :: 0 <= k < |r| - 1 ==> r[k].closed
    ensures forall k :: 0 <= k < |r| ==> |r[k].sentences| > 0
    decreases n - i
  {
    if i >= n then [Block(b, false)]
    else if !joins(b, i) then
      [Block(b, true)] + BlocksFrom(n, joins, i + 1, [i])
    else
      BlocksFrom(n, joins, i + 1, b + [i])
  }

  /** Every block of `r` grew only by elements that joined it. */
  predicate AllGrownBy(joins: (seq<nat>, nat) -> bool, r: seq<Block>)
  {
    |r| == 0 || (GrownBy(joins, r[0].sentences) && AllGrownBy(joins, r[1..]))
  }

  lemma {:induction false} AllGrownByAt(joins: (seq<nat>, nat) -> bool, r: seq<Block>, k: nat)
    requires AllGrownBy(joins, r) && k < |r|
    ensures GrownBy(joins, r[k].sentences)
  {
    if k > 0 {
      AllGrownByAt(joins, r[1..], k - 1);
    }
  }

  /** Every block grew only by elements that joined it. */
  lemma {:induction false} BlocksFromGrown(n: nat, joins: (seq<nat>, nat) -> bool, i: nat, b: seq<nat>)
    requires |b| > 0 && GrownBy(joins, b)
    ensures AllGrownBy(joins, BlocksFrom(n, joins, i, b))
    decreases n - i
  {
    var r := BlocksFrom(n, joins, i, b);
    if i >= n {
      assert r == [Block(b, false)];
      assert r[1..] == [];
    } else if !joins(b, i) {
      var rest := BlocksFrom(n, joins, i + 1, [i]);
      assert GrownBy(joins, [i]);
      BlocksFromGrown(n, joins, i + 1, [i]);
      assert r == [Block(b, true)] + rest;
      assert r[1..] == rest;
    } else {
      GrownBySnoc(joins, b, i);
      BlocksFromGrown(n, joins, i + 1, b + [i]);
    }
  }

  lemma GrownBySnoc(joins: (seq<nat>, nat) -> bool, b: seq<nat>, i: nat)
    requires GrownBy(joins, b) && joins(b, i)
    ensures GrownBy(joins, b + [i])
  {
    forall j | 1 <= j < |b + [i]|
      ensures joins((b + [i])[..j], (b + [i])[j])
    {
      if j < |b| {
        assert (b + [i])[..j] == b[..j];
      } else {
        assert (b + [i])[..j] == b;
      }
    }
  }

  /** Every block after the first opened on an element that did not join
      the block before it. */
  predicate AllCutBy(joins: (seq<nat>, nat) -> bool, r: seq<Block>)
  {
    |r| < 2 || (|r[1].sentences| > 0 && !joins(r[0].sentences, r[1].sentences[0]) && AllCutBy(joins, r[1..]))
  }

  lemma {:induction false} AllCutByAt(joins: (seq<nat>, nat) -> bool, r: seq<Block>, k: nat)
    requires AllCutBy(joins, r) && k + 1 < |r|
    ensures |r[k + 1].sentences| > 0 && !joins(r[k].sentences, r[k + 1].sentences[0])
  {
    if k > 0 {
      AllCutByAt(joins, r[1..], k - 1);
    }
  }

  /** The first block starts with the open block's first element. */
  lemma {:induction false} BlocksFromHead(n: nat, joins: (seq<nat>, nat) -> bool, i: nat, b: seq<nat>)
    requires |b| > 0
    ensures BlocksFrom(n, joins, i, b)[0].sentences[0] == b[0]
    decreases n - i
  {
    if i < n && joins(b, i) {
      BlocksFromHead(n, joins, i + 1, b + [i]);
    }
  }

  /** A block is closed exactly before an element that does not join it. */
  lemma {:induction false} BlocksFromCut(n: nat, joins: (seq<nat>, nat) -> bool, i: nat, b: seq<nat>)
    requires |b| > 0
    ensures AllCutBy(joins, BlocksFrom(n, joins, i, b))
    decreases n - i
  {
    var r := BlocksFrom(n, joins, i, b);
    if i >= n {
      assert |r| == 1;
    } else if !joins(b, i) {
      var rest := BlocksFrom(n, joins, i + 1, [i]);
      BlocksFromCut(n, joins, i + 1, [i]);
      BlocksFromHead(n, joins, i + 1, [i]);
      assert r == [Block(b, true)] + rest;
      assert r[1..] == rest;
    } else {
      BlocksFromCut(n, joins, i + 1, b + [i]);
    }
  }

  /** The sentences of the blocks, block after block. */
  function BlockSentences(r: seq<Block>): seq<nat>
  {
    if |r| == 0 then [] else r[0].sentences + BlockSentences(r[1..])
  }

  /** The blocks hold the open block and then every later sentence, in order. */
  lemma {:induction false} BlocksFromFlatten(n: nat, joins: (seq<nat>, nat) -> bool, i: nat, b: seq<nat>)
    requires |b| > 0
    ensures BlockSentences(BlocksFrom(n, joins, i, b)) == b + Range(i, n)
    decreases n - i
  {
    var r := BlocksFrom(n, joins, i, b);
    if i >= n {
      assert r[1..] == [];
      assert Range(i, n) == [];
    } else if !joins(b, i) {
      var rest := BlocksFrom(n, joins, i + 1, [i]);
      BlocksFromFlatten(n, joins, i + 1, [i]);
      assert r[1..] == rest;
      assert Range(i, n) == [i] + Range(i + 1, n);
    } else {
      BlocksFromFlatten(n, joins, i + 1, b + [i]);
      AppendAssoc(b, [i], Range(i + 1, n));
      assert Range(i, n) == [i] + Range(i + 1, n);
    }
  }

  /** Whether sentence `i` joins the open block `b` of `segment_semantic_blocks`. */
  function Joins(doc: Doc, sim: (nat, nat) -> real, threshold: real): (seq<nat>, nat) -> bool
  {
    (b: seq<nat>, i: nat) => Continues(doc, sim, threshold, b, i)
  }

  /** The blocks of `segment_semantic_blocks`, from the first sentence on. */
  function SemanticBlocks(doc: Doc, sim: (nat, nat) -> real, threshold: real): (r: seq<Block>)
    ensures |r| > 0 && !r[|r| - 1].closed
    ensures forall k :: 0 <= k < |r| - 1 ==> r[k].closed
  {
    BlocksFrom(|doc.sents|, Joins(doc, sim, threshold), 1, [0])
  }

  /** Mean of the similarities of adjacent sentences of a block that both
      have vectors; 0.0 for a single sentence or when no pair has vectors. */
  function AverageSimilarity(doc: Doc, sim: (nat, nat) -> real, b: seq<nat>): real
  {
    var sims := PairSims(doc, sim, b);
    if |b| > 1 && |sims| > 0 then SumReals(sims) / (|sims| as real) else 0.0
  }

  function PairSims(doc: Doc, sim: (nat, nat) -> real, b: seq<nat>): (r: seq<real>)
    ensures |r| <= |b|
  {
    if |b| < 2 then []
    else
      (if b[0] < |doc.sents| && b[1] < |doc.sents| && doc.sents[b[0]].hasVector && doc.sents[b[1]].hasVector
       then [sim(b[0], b[1])] else [])
        + PairSims(doc, sim, b[1..])
  }

  function SumReals(xs: seq<real>): real
  {
    if |xs| == 0 then 0.0 else xs[0] + SumReals(xs[1..])
  }

  /** With similarities in [0, 1], the block average also lies in [0, 1]. */
  lemma {:induction false} AverageSimilarityBounded(doc: Doc, sim: (nat, nat) -> real, b: seq<nat>)
    requires forall i, j :: 0.0 <= sim(i, j) <= 1.0
    ensures 0.0 <= AverageSimilarity(doc, sim, b) <= 1.0
  {
    var sims := PairSims(doc, sim, b);
    PairSimsBounded(doc, sim, b);
    SumRealsBounded(sims);
    if |b| > 1 && |sims| > 0 {
      RatioBounded(SumReals(sims), |sims| as real);
    }
  }

  lemma RatioBounded(x: real, n: real)
    requires 0.0 <= x <= n && n > 0.0
    ensures 0.0 <= x / n <= 1.0
  {
    assert x / n * n == x;
  }

  lemma {:induction false} PairSimsBounded(doc: Doc, sim: (nat, nat) -> real, b: seq<nat>)
    requires forall i, j :: 0.0 <= sim(i, j) <= 1.0
    ensures forall k :: 0 <= k < |PairSims(doc, sim, b)| ==> 0.0 <= PairSims(doc, sim, b)[k] <= 1.0
    decreases |b|
  {
    if |b| >= 2 {
      PairSimsBounded(doc, sim, b[1..]);
    }
  }

  lemma {:induction false} SumRealsBounded(xs: seq<real>)
    requires forall k :: 0 <= k < |xs| ==> 0.0 <= xs[k] <= 1.0
    ensures 0.0 <= SumReals(xs) <= |xs| as real
    decreases |xs|
  {
    if |xs| > 0 {
      SumRealsBounded(xs[1..]);
    }
  }

  /** The chunk of a block: its stripped sentences joined by spaces; a
      closed block carries its average similarity and sentence count. */
  function BlockChunk(doc: Doc, sim: (nat, nat) -> real, b: Block): (c: Chunk)
    ensures c.text == Join(StrippedTexts(doc, b.sentences), " ")
    ensures b.closed ==> c.meta == ClosedBlockMeta(AverageSimilarity(doc, sim, b.sentences), |b.sentences|)
    ensures !b.closed ==> c.meta == LastBlockMeta
  {
    Chunk(BlockText(doc, b.sentences), BlockMeta(doc, sim, b))
  }

  function BlockText(doc: Doc, b: seq<nat>): string
  {
    Join(StrippedTexts(doc, b), " ")
  }

  /** The stripped texts of the sentences `b`, in order. */
  function StrippedTexts(doc: Doc, b: seq<nat>): (r: seq<string>)
    ensures |r| == |b|
    ensures forall k :: 0 <= k < |r| ==> r[k] == Trim(SentTextOr(doc, b[k]))
  {
    Map(b, k => Trim(SentTextOr(doc, k)))
  }

  function BlockMeta(doc: Doc, sim: (nat, nat) -> real, b: Block): Meta
  {
    if b.closed
    then ClosedBlockMeta(AverageSimilarity(doc, sim, b.sentences), |b.sentences|)
    else LastBlockMeta
  }

  /** The chunks of the blocks built from the first sentence on. */
  function BlockChunks(doc: Doc, sim: (nat, nat) -> real, threshold: real): (r: seq<Chunk>)
    ensures |r| == |SemanticBlocks(doc, sim, threshold)|
    ensures forall k :: 0 <= k < |r| ==> r[k] == BlockChunk(doc, sim, SemanticBlocks(doc, sim, threshold)[k])
    ensures EndsWithOpenBlock(r)
    ensures forall k :: 0 <= k < |r| - 1 ==> r[k].meta.ClosedBlockMeta?
  {
    ChunksOf(doc, sim, SemanticBlocks(doc, sim, threshold))
  }

  /** One chunk per block, in order. */
  function ChunksOf(doc: Doc, sim: (nat, nat) -> real, blocks: seq<Block>): (r: seq<Chunk>)
    requires |blocks| > 0 && !blocks[|blocks| - 1].closed
    requires forall k :: 0 <= k < |blocks| - 1 ==> blocks[k].closed
    ensures |r| == |blocks| && forall k :: 0 <= k < |r| ==> r[k] == BlockChunk(doc, sim, blocks[k])
    ensures EndsWithOpenBlock(r)
    ensures forall k :: 0 <= k < |r| - 1 ==> r[k].meta.ClosedBlockMeta?
  {
    var r := Map(blocks, b => BlockChunk(doc, sim, b));
    assert r[|r| - 1] == BlockChunk(doc, sim, blocks[|blocks| - 1]);
    r
  }

  /** The last chunk is the open block, without statistics. */
  predicate EndsWithOpenBlock(r: seq<Chunk>)
  {
    |r| >= 1 && r[|r| - 1].meta == LastBlockMeta
  }

  /** The whole document as one last block. */
  function WholeDocumentChunk(doc: Doc): (r: seq<Chunk>)
    ensures |r| == 1 && EndsWithOpenBlock(r)
  {
    [Chunk(DocText(doc), LastBlockMeta)]
  }

  /** One chunk per sentence, each marked as a last block. */
  function SentenceChunks(doc: Doc): (r: seq<Chunk>)
    ensures |r| == |doc.sents|
    ensures forall k :: 0 <= k < |r| ==> r[k] == Chunk(SentText(doc, k), LastBlockMeta)
    ensures |r| >= 1 ==> EndsWithOpenBlock(r)
  {
    Map(Range(0, |doc.sents|), (k: nat) => Chunk(SentTextOr(doc, k), LastBlockMeta))
  }

  /** Each block chunk holds its block's stripped sentence texts. */
  lemma BlockChunkTexts(doc: Doc, sim: (nat, nat) -> real, threshold: real)
    ensures var r := BlockChunks(doc, sim, threshold); forall k :: 0 <= k < |r| ==>
      r[k].text == Join(StrippedTexts(doc, SemanticBlocks(doc, sim, threshold)[k].sentences), " ")
  {
  }

  /** `segment_semantic_blocks(doc, similarity_threshold)`: a document of
      fewer than two sentences is one chunk holding the document text;
      without vectors every sentence is its own chunk with its unstripped
      text; otherwise one chunk per block, holding the block's stripped
      sentence texts joined by spaces. */
  function SegmentSemanticBlocks(doc: Doc, sim: (nat, nat) -> real, threshold: real): (r: seq<Chunk>)
    ensures EndsWithOpenBlock(r)
    ensures |doc.sents| < 2 ==> r == [Chunk(DocText(doc), LastBlockMeta)]
    ensures !doc.hasVector && |doc.sents| >= 2 ==>
      |r| == |doc.sents| && forall k :: 0 <= k < |r| ==> r[k].text == SentText(doc, k)
    ensures doc.hasVector && |doc.sents| >= 2 ==> |r| == |SemanticBlocks(doc, sim, threshold)|
    ensures doc.hasVector && |doc.sents| >= 2 ==> forall k :: 0 <= k < |r| ==>
      r[k].text == Join(StrippedTexts(doc, SemanticBlocks(doc, sim, threshold)[k].sentences), " ")
    ensures doc.hasVector ==> forall k :: 0 <= k < |r| - 1 ==> r[k].meta.ClosedBlockMeta?
  {
    if |doc.sents| < 2 then WholeDocumentChunk(doc)
    else if !doc.hasVector then SentenceChunks(doc)
    else
      var r := BlockChunks(doc, sim, threshold);
      BlockChunkTexts(doc, sim, threshold);
      r
  }

  /** Every sentence lands in exactly one block, in order; a block grows
      while the similarity holds and it is at most 600 characters long, and
      it is cut exactly where one of the two fails. */
  lemma SemanticBlocksPartition(doc: Doc, sim: (nat, nat) -> real, threshold: real)
    requires |doc.sents| >= 2
    ensures var blocks := SemanticBlocks(doc, sim, threshold);
      && BlockSentences(blocks) == Range(0, |doc.sents|)
      && (forall k :: 0 <= k < |blocks| ==> WellGrown(doc, sim, threshold, blocks[k].sentences))
      && (forall k, m :: 0 <= k && m == k + 1 && m < |blocks| ==>
            |blocks[m].sentences| > 0 && !Continues(doc, sim, threshold, blocks[k].sentences, blocks[m].sentences[0]))
  {
    BlocksFromFlatten(|doc.sents|, Joins(doc, sim, threshold), 1, [0]);
    assert Range(0, |doc.sents|) == [0] + Range(1, |doc.sents|);
    SemanticBlocksGrown(doc, sim, threshold);
    SemanticBlocksCut(doc, sim, threshold);
  }

  lemma SemanticBlocksGrown(doc: Doc, sim: (nat, nat) -> real, threshold: real)
    ensures var blocks := SemanticBlocks(doc, sim, threshold);
      forall k :: 0 <= k < |blocks| ==> WellGrown(doc, sim, threshold, blocks[k].sentences)
  {
    var joins := Joins(doc, sim, threshold);
    assert GrownBy(joins, [0]);
    BlocksFromGrown(|doc.sents|, joins, 1, [0]);
    var blocks := SemanticBlocks(doc, sim, threshold);
    forall k | 0 <= k < |blocks|
      ensures WellGrown(doc, sim, threshold, blocks[k].sentences)
    {
      AllGrownByAt(joins, blocks, k);
    }
  }

  lemma SemanticBlocksCut(doc: Doc, sim: (nat, nat) -> real, threshold: real)
    ensures var blocks := SemanticBlocks(doc, sim, threshold);
      forall k, m :: 0 <= k && m == k + 1 && m < |blocks| ==>
        |blocks[m].sentences| > 0 && !Continues(doc, sim, threshold, blocks[k].sentences, blocks[m].sentences[0])
  {
    var joins := Joins(doc, sim, threshold);
    BlocksFromCut(|doc.sents|, joins, 1, [0]);
    var blocks := SemanticBlocks(doc, sim, threshold);
    forall k, m | 0 <= k && m == k + 1 && m < |blocks|
      ensures |blocks[m].sentences| > 0 && !Continues(doc, sim, threshold, blocks[k].sentences, blocks[m].sentences[0])
    {
      AllCutByAt(joins, blocks, k);
    }
  }
}
