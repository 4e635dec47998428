/** The `/process` endpoint of Flashgen/server.py: pick the language model,
    annotate the text, dispatch on the strategy name and normalise the
    chunks into parallel lists of texts and metadata. The language models
    are the `annotate` parameter (language code and text to `Doc`) and
    sentence similarity is the `sim` oracle. */
module ServerProcess {
  import opened Wrappers
  import opened Seqs
  import opened Strings
  import opened Annotation
  import opened Chapters
  import opened ServerSegmenters
  import opened ServerSyntax

  /** The languages with a loaded model. */
  const Languages: seq<string> := ["en", "es", "fr"]

  const DefaultStrategy: string := "sentences"

  /** Parameters the endpoint passes to the strategies. */
  const SimilarityThreshold: real := 0.7
  const ChapterChunkSize: int := 500
  const ContextWindow: nat := 1
  const BlockThreshold: real := 0.3
  const VocabMinFreq: int := 2
  const ClauseMaxTokens: int := 15
  const PhraseMinWords: int := 3

  datatype Stats = Stats(
    totalChunks: nat,
    totalSentences: nat,
    totalEntities: nat,
    totalTokens: nat,
    hasVectors: bool,
    strategyUsed: string)

  datatype Response = Response(
    chunks: seq<string>,
    metadata: seq<Meta>,
    sentences: seq<string>,
    entities: seq<(string, string)>,
    nounChunks: seq<string>,
    stats: Stats)

  /** What a strategy returns: plain texts (the basic strategies) or
      records of text and metadata (the advanced ones). */
  datatype Segments = Texts(texts: seq<string>) | Records(records: seq<Chunk>)

  datatype Strategy =
    | Sentences | Entities | NounChunks | SemanticSimilarity
    | ChapterSentences | EntityContext | SemanticBlocks | VocabExtract | ClauseSegment | VerbPhraseSegment

  /** The name a client sends for each strategy. */
  function StrategyName(s: Strategy): string
  {
    match s
    case Sentences => "sentences"
    case Entities => "entities"
    case NounChunks => "noun_chunks"
    case SemanticSimilarity => "semantic_similarity"
    case ChapterSentences => "chapter_sents"
    case EntityContext => "entity_context"
    case SemanticBlocks => "semantic_blocks"
    case VocabExtract => "vocab_extract"
    case ClauseSegment => "clause_segment"
    case VerbPhraseSegment => "verb_phrase_segment"
  }

  predicate IsBasic(s: Strategy)
  {
    s.Sentences? || s.Entities? || s.NounChunks? || s.SemanticSimilarity?
  }

  /** The `if`/`elif` chain on the strategy name; an unknown name falls
      back to sentences. */
  function ParseStrategy(name: string): (r: Strategy)
    ensures (exists s :: StrategyName(s) == name) ==> StrategyName(r) == name
    ensures !(exists s :: StrategyName(s) == name) ==> r == Sentences
  {
    if name == "sentences" then Sentences
    else if name == "entities" then Entities
    else if name == "noun_chunks" then NounChunks
    else if name == "semantic_similarity" then SemanticSimilarity
    else if name == "chapter_sents" then ChapterSentences
    else if name == "entity_context" then EntityContext
    else if name == "semantic_blocks" then SemanticBlocks
    else if name == "vocab_extract" then VocabExtract
    else if name == "clause_segment" then ClauseSegment
    else if name == "verb_phrase_segment" then VerbPhraseSegment
    else Sentences
  }

  /** Every strategy is selected by its own name. */
  lemma ParseStrategyName(s: Strategy)
    ensures ParseStrategy(StrategyName(s)) == s
  {
  }

  function ChapterRecords(text: string, annotate: (string, string) -> Doc): seq<Chunk>
  {
    Map(ChapterSents(text, t => annotate("es", t), ChapterChunkSize),
      (c: ChapterChunk) => Chunk(c.text, ChapterMeta(c.chapter)))
  }

  /** The strategy dispatch: the basic strategies return texts, the
      advanced ones records. */
  function Segment(s: Strategy, text: string, doc: Doc, annotate: (string, string) -> Doc,
                   sim: (nat, nat) -> real): (r: Segments)
    ensures IsBasic(s) <==> r.Texts?
  {
    match s
    case Sentences => Texts(SegmentBySentences(doc))
    case Entities => Texts(SegmentByEntities(doc))
    case NounChunks => Texts(SegmentByNounChunks(doc))
    case SemanticSimilarity => Texts(SegmentBySemanticSimilarity(doc, sim, SimilarityThreshold))
    case ChapterSentences => Records(ChapterRecords(text, annotate))
    case EntityContext => Records(SegmentEntityContext(doc, ContextWindow))
    case SemanticBlocks => Records(SegmentSemanticBlocks(doc, sim, BlockThreshold))
    case VocabExtract => Records(SegmentVocabExtract(doc, VocabMinFreq))
    case ClauseSegment => Records(SegmentClause(doc, ClauseMaxTokens))
    case VerbPhraseSegment => Records(SegmentVerbPhrase(doc, PhraseMinWords))
  }

  function ChunkText(c: Chunk): string { c.text }
  function ChunkMeta(c: Chunk): Meta { c.meta }

  /** Split the segments into parallel lists of texts and metadata; plain
      texts get empty metadata. */
  function Normalize(s: Segments): (r: (seq<string>, seq<Meta>))
    ensures |r.0| == |r.1|
    ensures s.Texts? ==> r.0 == s.texts && forall k :: 0 <= k < |r.1| ==> r.1[k] == NoMeta
    ensures s.Records? ==> (|r.0| == |s.records|
      && forall k :: 0 <= k < |r.0| ==> r.0[k] == s.records[k].text && r.1[k] == s.records[k].meta)
  {
    match s
    case Texts(ts) => (ts, seq(|ts|, _ => NoMeta))
    case Records(cs) => (Map(cs, ChunkText), Map(cs, ChunkMeta))
  }

  function EntityPair(doc: Doc, e: Span): (string, string)
  {
    (SpanText(doc, e.start, e.end), e.tag)
  }

  function NounChunkText(doc: Doc, nc: Span): string
  {
    SpanText(doc, nc.start, nc.end)
  }

  function UnsupportedLanguage(lang: string): string
  {
    "Idioma no soportado: " + lang + ". Disponibles: ['en', 'es', 'fr']"
  }

  /** `payload.strategy or "sentences"`. */
  function RequestedName(strategy: Option<string>): string
  {
    if strategy.None? || strategy.value == "" then DefaultStrategy else strategy.value
  }

  /** `process_text(payload)`. */
  function ProcessText(text: string, lang: string, strategy: Option<string>,
                       annotate: (string, string) -> Doc, sim: (nat, nat) -> real): (r: Result<Response>)
    ensures lang !in Languages <==> r.Err?
    ensures r.Err? ==> r.message == UnsupportedLanguage(lang)
    ensures r.Ok? ==> |r.value.chunks| == |r.value.metadata| == r.value.stats.totalChunks
    ensures r.Ok? ==> r.value.sentences == SegmentBySentences(annotate(lang, text))
    ensures r.Ok? ==> r.value.stats.totalSentences == |r.value.sentences|
    ensures r.Ok? ==> r.value.stats.totalTokens == |annotate(lang, text).tokens|
    ensures r.Ok? ==> r.value.stats.totalEntities == |annotate(lang, text).ents|
    ensures r.Ok? ==> r.value.stats.strategyUsed == RequestedName(strategy)
  {
    if lang !in Languages then Err(UnsupportedLanguage(lang))
    else
      var doc := annotate(lang, text);
      var name := RequestedName(strategy);
      var sentences := SegmentBySentences(doc);
      var norm := Normalize(Segment(ParseStrategy(name), text, doc, annotate, sim));
      Ok(Response(
        norm.0,
        norm.1,
        sentences,
        Map(doc.ents, (e: Span) => EntityPair(doc, e)),
        Map(doc.nounChunks, (nc: Span) => NounChunkText(doc, nc)),
        Stats(|norm.0|, |sentences|, |doc.ents|, |doc.tokens|, doc.hasVector, name)))
  }

  /** A strategy name the endpoint does not know produces the sentence
      segmentation, with empty metadata, while the statistics still report
      the name that was asked for. */
  lemma UnknownStrategyFallsBack(text: string, lang: string, name: string,
                                  annotate: (string, string) -> Doc, sim: (nat, nat) -> real)
    requires lang in Languages && name != ""
    requires forall s :: StrategyName(s) != name
    ensures var r := ProcessText(text, lang, Some(name), annotate, sim);
      && r.Ok?
      && r.value.chunks == SegmentBySentences(annotate(lang, text))
      && (forall k :: 0 <= k < |r.value.metadata| ==> r.value.metadata[k] == NoMeta)
      && r.value.stats.strategyUsed == name
  {
    assert ParseStrategy(name) == Sentences;
  }

  /** With no strategy given the endpoint segments by sentences. */
  lemma DefaultIsSentences(text: string, lang: string, annotate: (string, string) -> Doc, sim: (nat, nat) -> real)
    requires lang in Languages
    ensures var r := ProcessText(text, lang, None, annotate, sim);
      r.Ok? && r.value.chunks == r.value.sentences
  {
    assert ParseStrategy(DefaultStrategy) == Sentences;
  }

  /** A named strategy is the one applied: its texts become the chunks and,
      for the advanced strategies, its metadata the chunk metadata, side by
      side. */
  lemma StrategyApplied(text: string, lang: string, s: Strategy,
                        annotate: (string, string) -> Doc, sim: (nat, nat) -> real)
    requires lang in Languages
    ensures var r := ProcessText(text, lang, Some(StrategyName(s)), annotate, sim);
      var seg := Segment(s, text, annotate(lang, text), annotate, sim);
      && r.Ok?
      && (seg.Texts? ==> r.value.chunks == seg.texts)
      && (seg.Records? ==> (|r.value.chunks| == |seg.records|
            && forall k :: 0 <= k < |seg.records| ==>
                 r.value.chunks[k] == seg.records[k].text && r.value.metadata[k] == seg.records[k].meta))
  {
    ParseStrategyName(s);
    assert StrategyName(s) != "";
  }
}
