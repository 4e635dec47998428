# Flashgen segmentation and card transformations in Dafny

Flashgen turns study texts into flashcards. A Python server segments the
text with spaCy: ten segmentation strategies, chapter detection,
dependency-subtree clause extraction, conjunction splitting, card
validation and cloze generation. A browser client chunks text again,
calls a language model, and post-processes the cards it gets back.
Post-processing covers cloze variants, protected phrases, duplicate
removal, difficulty and quality scores, CSV and Anki export, prompt
templates and question/answer parsing. The client runs it through a
small pipeline: a chain graph, a retry manager with back-off, an LRU/TTL
cache, an observable state store, and a grouping of steps that may run in
parallel.

This project models that core as pure Dafny functions and proves what
the code promises of it. The spaCy document is an abstract datatype
(`Annotation.Doc`): tokens with text, lemma, part of speech, dependency
label, head and trailing-space flag, plus sentence, entity and noun-chunk
spans. Vector similarity is an oracle passed in as a function. Clocks,
`Math.random` and language-model replies are parameters too.

There is one module per source file or component:

- Shared helpers: `Wrappers`, `Seqs`, `Strings`, `Sorting`, `Assoc`, `ReplaceFacts`.
- Flashgen/server.py: `Annotation`, `Grouping`, `Chapters`, `Clauses`, `ServerSegmenters`, `ServerSyntax`, `ServerProcess`, `Validator`, `ServerCloze`.
- Client processing: `ChunkStrategies`, `ClozeEngine`, `EntityUtils`, `ProtectionRoundTrip`, `ScoreEngine`, `DifficultyEngine`, `ContextEngine`, `Processing`.
- Client pipeline: `Parallelizer`, `StepHandlers`, `RetryManager`, `PipelineCache`, `StateManager`.
- Chains: `LangChain`, `ChainBuilder`, `ChainHandlers`.
- Output and prompts: `Exporter`, `Templates`, `ParserManager`.

In every row below, a source path is relative to the repository root.

## Model

| member | source | states |
|---|---|---|
| Annotation.StrippedSentTexts | Flashgen/server.py:576 | one stripped text per sentence, sentence `k` giving the stripped text of its token range |
| Annotation.SentenceIndexOf | Flashgen/server.py:201-205 | `sentences.index(ent.sent)`: the first sentence whose range holds the token, and `None` (the `ValueError`) exactly when no sentence holds it |
| Annotation.Children | Flashgen/server.py:356 | `token.children`: exactly the tokens whose head is the token (other than itself), in ascending document order |
| Grouping.CutRuns | Flashgen/server.py:42-49 | cutting positions `0..n-1` into groups keeps every position exactly once and in order; groups are non-empty and a new one starts exactly where the cut condition holds |
| Grouping.CutRunsFromFlatten | Flashgen/server.py:42-49 | the groups of the walk, concatenated, are the open group followed by the remaining positions |
| ServerSegmenters.SegmentBySentences | Flashgen/server.py:33-35 | every segment is non-empty and the segments are the stripped sentence texts in order, with some dropped |
| ServerSegmenters.SentencesKept | Flashgen/server.py:33-35 | only empty sentences are dropped: every sentence whose stripped text is non-empty is among the segments |
| ServerSegmenters.EntityGroups | Flashgen/server.py:39-49 | every token lands in exactly one group, in order; a new group starts exactly at each later token whose IOB tag is `B` |
| ServerSegmenters.SegmentByEntities | Flashgen/server.py:37-51 | the segments are the texts of the entity groups in order, with exactly the empty ones dropped |
| ServerSegmenters.EntitySegments | Flashgen/server.py:37-51 | a text is a segment exactly when it is non-empty and is the text of some entity group |
| ServerSegmenters.SegmentByNounChunks | Flashgen/server.py:53-63 | at most one segment per noun chunk, none empty |
| ServerSegmenters.NounChunkSegments | Flashgen/server.py:56-63 | a text is a segment exactly when it is the non-empty stripped window (chunk plus three tokens, clipped to the document) of some noun chunk |
| ServerSegmenters.SimilarityGroups | Flashgen/server.py:75-99 | the sentences are cut into consecutive groups holding each sentence once, in order; a group starts exactly where both sentences have vectors and their similarity is below the threshold |
| ServerSegmenters.SegmentBySemanticSimilarity | Flashgen/server.py:65-101 | without vectors the result is the sentence segmentation; with at most one sentence one text per sentence; otherwise the stripped non-empty texts of the similarity groups |
| ServerSegmenters.ContextHitsFrom | Flashgen/server.py:195-228 | the entity loop takes at most one chunk per entity |
| ServerSegmenters.ContextHitsGood | Flashgen/server.py:195-214 | every chosen entity carries one of the seven labels, lies in a sentence not yet processed, and its window is that sentence widened by the context width on both sides, clipped to `[0, n)` |
| ServerSegmenters.ContextHitsSpread | Flashgen/server.py:207-228 | no chosen entity's sentence lies in the window of an earlier chosen entity |
| ServerSegmenters.ContextHitsDistinct | Flashgen/server.py:207-228 | the main sentences of the chunks are distinct |
| ServerSegmenters.EntityContextWindow | Flashgen/server.py:211-214 | with width 1 the window is `[idx-1, idx+1]` clipped to the sentences |
| ServerSegmenters.SegmentEntityContext | Flashgen/server.py:186-230 | at most one chunk per entity, each labelled with one of the seven context labels |
| ServerSegmenters.BlocksFrom | Flashgen/server.py:245-288 | the block loop yields non-empty blocks, all closed but the last |
| ServerSegmenters.BlocksFromFlatten | Flashgen/server.py:245-288 | the blocks hold the open block and then every later sentence, each once and in order |
| ServerSegmenters.BlocksFromGrown | Flashgen/server.py:258-281 | every sentence after the first of a block joined it under the loop's condition |
| ServerSegmenters.BlocksFromCut | Flashgen/server.py:258-262 | every block after the first starts with a sentence that failed to join the block before it, so a block closes exactly when the loop's condition fails |
| ServerSegmenters.AverageSimilarityBounded | Flashgen/server.py:263-269 | with similarities in [0, 1] the block average is in [0, 1], and 0.0 when no adjacent pair has vectors |
| ServerSegmenters.BlockChunk | Flashgen/server.py:271-288 | a closed block carries its average similarity and sentence count; the last block carries only its type |
| ServerSegmenters.SegmentSemanticBlocks | Flashgen/server.py:232-290 | fewer than two sentences give one chunk of the whole text; without vectors chunk k is sentence k; otherwise chunk k is the stripped sentences of block k joined by spaces, and every chunk but the last carries block statistics |
| ServerSegmenters.SemanticBlocksPartition | Flashgen/server.py:245-281 | every sentence lands in exactly one block, in order; a block grows only while the similarity reaches the threshold and the block is at most 600 characters, and each next block starts with a sentence that could not have continued the previous one |
| Chapters.RunDotHeadingIff | Flashgen/server.py:111-112 | the greedy scan for `^X+\.\s+[A-Z]` agrees, in both directions, with the backtracking reading of the pattern |
| Chapters.WordHeadingIff | Flashgen/server.py:110 | the scan for a chapter word followed by white space and an Arabic or Roman number agrees, in both directions, with the pattern's reading |
| Chapters.OpenKeepsInvariant | Flashgen/server.py:130-134 | a heading after some text closes the current chapter and opens one titled by the stripped line, keeping the chapter list ordered |
| Chapters.GrowKeepsInvariant | Flashgen/server.py:135-136 | any other non-blank line is appended with a newline to the current chapter |
| Chapters.ScanLines | Flashgen/server.py:118-140 | the scan keeps chapters in order: the opening chapter first, every other one opened by a heading on its start line, start lines ascending, every text ending in a newline |
| Chapters.DetectChapters | Flashgen/server.py:103-142 | at least one chapter; a single one is the whole text titled "Documento completo"; with two or more, in order, each chapter's text is the non-blank lines after its heading up to the next chapter, each followed by a newline, with headings met before any body line dropped |
| Chapters.NoHeadingsWholeDocument | Flashgen/server.py:142 | a text without heading lines is returned as one chapter holding the whole text |
| Chapters.PackSentences | Flashgen/server.py:157-182 | the packed groups are non-empty, every group of two or more sentences fits within the chunk size, and a group closes only when the next sentence would not fit |
| Chapters.PackSentencesFlatten | Flashgen/server.py:157-182 | packing keeps every sentence, in order |
| Chapters.ChapterSentences | Flashgen/server.py:160-163 | the sentences kept are exactly the chapter's stripped sentences that are not blank, in order, each as often as it occurs |
| Chapters.ChapterPackingProperties | Flashgen/server.py:157-182 | the packing of a chapter keeps sentence order and bounds every multi-sentence chunk by the chunk size |
| Chapters.ChapterSents | Flashgen/server.py:144-184 | every chunk is labelled with the title of a detected chapter |
| Chapters.ChapterSentsRun | Flashgen/server.py:144-184 | the chunks of each detected chapter form one contiguous run, in chapter order, starting at 0 for the first chapter and ending the result for the last: one chunk per packed group, its text the group joined by spaces and its label the chapter title, the groups holding exactly the chapter's non-blank sentences packed greedily within the chunk size |
| Chapters.ChaptersRun | Flashgen/server.py:150-182 | for any list of chapters, chapter k's chunks sit right after chapter k-1's, one per packed group of that chapter's sentences |
| Chapters.ChapterChunkLists | Flashgen/server.py:150-182 | one chunk list per chapter, every chunk labelled with its own chapter's title |
| Chapters.RunChunks | Flashgen/server.py:150-182 | a chapter's chunk list occupies its own run of the concatenated chunks, in order |
| Clauses.BelowIff | Flashgen/server.py:355-361 | `get_subtree(v)` collects exactly the nodes from which a chain of heads leads up to `v` without passing through a skipped coordinating child |
| Clauses.BelowAllMember | Flashgen/server.py:356-361 | a node is collected from a list of children exactly when it is an unskipped child or collected below one |
| Clauses.PathInBelow | Flashgen/server.py:355-361 | every node on an unskipped path up to `v` is collected |
| Clauses.BelowHasPath | Flashgen/server.py:355-361 | every collected node lies on an unskipped path up to `v` |
| Clauses.ExtractClause | Flashgen/server.py:348-364 | the clause starts with the verb itself |
| Clauses.ExtractClauseMembers | Flashgen/server.py:348-364 | the clause holds the verb and every descendant except those under a child with dependency `cc`/`conj` and part of speech `CCONJ`, and nothing else |
| Clauses.Subtree | Flashgen/server.py:472 | `token.subtree` is strictly ascending and holds the token and exactly its descendants |
| Clauses.SubtreeMembers | Flashgen/server.py:472 | membership in `token.subtree` is membership in the descendant relation |
| Clauses.GroupAtConjunctions | Flashgen/server.py:376-384 | groups are non-empty, every group but the last has more than five tokens, the groups keep token order, and only conjunctions are dropped |
| Clauses.SplitByConjunctions | Flashgen/server.py:366-386 | at least one group; a single group is the tokens as given; otherwise the groups keep document order, all but the last hold more than five tokens, and putting the dropped tokens back between the groups gives the sorted tokens, each dropped token a conjunction met once its group held more than five tokens and no later conjunction left inside a group |
| Clauses.GroupAtConjunctionsCuts | Flashgen/server.py:371-384 | the grouping loop cuts at exactly the conjunctions met once the open group holds more than five tokens, and the cut tokens put back give its input |
| ServerSyntax.VocabTerms | Flashgen/server.py:300-307 | the term dictionary has distinct keys |
| ServerSyntax.VocabTermsContexts | Flashgen/server.py:300-307 | each term maps exactly to the sentences of its multi-word noun chunks, in document order |
| ServerSyntax.NounTermChunks | Flashgen/server.py:316-327 | each noun-phrase chunk's text is its first context, its examples the first three and its frequency the number of contexts |
| ServerSyntax.FrequentChunkFor | Flashgen/server.py:316-317 | a key yields a chunk exactly when its context list reaches `min_freq` |
| ServerSyntax.NounVocabChunkFor | Flashgen/server.py:300-327 | a document term yields a chunk exactly when it has at least `min_freq` contexts, and the chunk's frequency is that count |
| ServerSyntax.VerbSentences | Flashgen/server.py:330-334 | the verb dictionary has distinct lemmas |
| ServerSyntax.VerbSentenceIsFirst | Flashgen/server.py:310-334 | a lemma maps to the sentence of its first important verb (VERB, not a stop word, longer than four characters), and has no entry without one |
| ServerSyntax.VerbTermChunks | Flashgen/server.py:336-344 | at most twenty verb chunks, taken from the first entries in order |
| ServerSyntax.VerbTermsDistinct | Flashgen/server.py:330-344 | the verb chunks carry distinct lemmas |
| ServerSyntax.VocabChunks | Flashgen/server.py:316-344 | every chunk is a frequent noun phrase or a verb |
| ServerSyntax.VocabVerbLimit | Flashgen/server.py:336 | at most twenty chunks are verbs |
| ServerSyntax.SegmentVocabExtract | Flashgen/server.py:292-346 | every chunk is a frequent noun phrase or a verb, and at most twenty are verbs |
| ServerSyntax.VerbClauseChunks | Flashgen/server.py:412-439 | each root verb yields at least one chunk, each a clause or a sub-clause |
| ServerSyntax.VerbClauseShape | Flashgen/server.py:413-439 | a clause within the limit is one chunk counting its tokens; a longer one becomes its sub-clauses |
| ServerSyntax.SentenceClauseChunks | Flashgen/server.py:396-439 | every sentence yields at least one chunk; a sentence without a root yields itself |
| ServerSyntax.SegmentClause | Flashgen/server.py:388-441 | at least one chunk per sentence, each of a clause shape |
| ServerSyntax.PhraseTokens | Flashgen/server.py:465-475 | the phrase is strictly ascending and holds the verb and exactly the subtrees of its object, oblique, adverbial, negation and auxiliary children |
| ServerSyntax.PhraseVerbs | Flashgen/server.py:452-479 | every kept verb is a VERB whose phrase is long enough |
| ServerSyntax.PhraseVerbsExact | Flashgen/server.py:452-479 | each verb yields at most one phrase, and yields one exactly when it lies in a sentence and its phrase has at least `min_words` words |
| ServerSyntax.PhraseChunk | Flashgen/server.py:480-489 | a phrase chunk records the word count of its phrase and the verb's part of speech |
| ServerSyntax.SegmentVerbPhrase | Flashgen/server.py:443-491 | every chunk is a verb phrase of at least `min_words` words headed by a VERB |
| ServerProcess.ParseStrategy | Flashgen/server.py:585-608 | a known strategy name selects that strategy and any other name falls back to sentences |
| ServerProcess.ParseStrategyName | Flashgen/server.py:585-606 | every strategy is selected by its own name (parsing inverts naming) |
| ServerProcess.Normalize | Flashgen/server.py:610-618 | texts and metadata come out side by side; plain texts get empty metadata, records are split into their texts and metadata |
| ServerProcess.UnknownStrategyFallsBack | Flashgen/server.py:581-632 | an unknown strategy name yields the sentence segmentation with empty metadata while the statistics report the requested name |
| ServerProcess.DefaultIsSentences | Flashgen/server.py:581 | with no strategy given, the chunks are the sentence segmentation |
| ServerProcess.StrategyApplied | Flashgen/server.py:581-634 | a named strategy is the one applied, its texts becoming the chunks and its metadata the chunk metadata, and the counts match the lists |
| ServerProcess.ProcessText | Flashgen/server.py:549-637 | an unsupported language is an error with its message, and only then; otherwise the sentences are the sentence segmentation, chunks and metadata have the same count as the stats say, the token and entity counts are the document's and the strategy reported is the one requested |
| Validator.EntityKeys | Flashgen/server.py:787-788 | the entity keys are distinct (dictionary keys) |
| Validator.MissingEntities | Flashgen/server.py:791-796 | a question entity is reported exactly when it is neither an answer entity nor in the lower-cased answer |
| Validator.IssuesExact | Flashgen/server.py:777-812 | each failed check contributes exactly one issue of its kind, the entity check one per missing entity, and a passed check none |
| Validator.NoIssuesIff | Flashgen/server.py:777-817 | a card has no issue exactly when every check passes |
| Validator.EntityIssuesNamed | Flashgen/server.py:791-796 | every missing entity has an issue of its own |
| Validator.CheckCard | Flashgen/server.py:779-812 | the grammar check fails exactly for a non-empty question not ending in `?`/`¿`, the length check for fewer than three words, the entity check for the missing entities |
| Validator.ValidateCard | Flashgen/server.py:814-823 | the card is kept, `is_valid` holds exactly when there is no issue, and the entity lists are the documents' keys |
| Validator.ValidCardIff | Flashgen/server.py:777-817 | a card is valid exactly when all five checks pass |
| Validator.ValidateAll | Flashgen/server.py:765-832 | one result per card, in order, with the valid and invalid counts being the sizes of the two filtered lists |
| Validator.ValidPlusIssuesIsTotal | Flashgen/server.py:827-831 | every card is counted once, as valid or as having issues |
| Validator.ValidateFlashcards | Flashgen/server.py:753-832 | an unsupported language is an error with its message, and only then; otherwise every card is validated with that language's model |
| ServerCloze.WrapFirst | Flashgen/server.py:867-921 | `replace(target, "{{c1::"+target+"}}", 1)` marks the first occurrence only: removing the markers gives the answer back, and an answer without the target is unchanged |
| ServerCloze.ObjectTokensLong | Flashgen/server.py:893-898 | a verb has a phrase exactly when it has an object child |
| ServerCloze.VerbPhraseTokens | Flashgen/server.py:899 | the phrase tokens are strictly ascending and are exactly the verb and its object subtrees |
| ServerCloze.HeadTokens | Flashgen/server.py:915-920 | the head tokens are ascending and are exactly the root and its `nsubj`/`obj`/`dobj` children |
| ServerCloze.AllVariantsWellOrdered | Flashgen/server.py:863-927 | the candidates wrap their targets, come from enabled kinds only and keep the order entities, noun phrases, verb phrases, heads |
| ServerCloze.Kept | Flashgen/server.py:930 | at most three variants, the first ones, in order |
| ServerCloze.CardClozes | Flashgen/server.py:855-944 | at most three cloze cards per card, none for an empty answer, each wrapping its target, ordered by kind |
| ServerCloze.CardClozesAreFirstVariants | Flashgen/server.py:930-944 | a card with a non-empty answer yields exactly the first three candidate variants, in order |
| ServerCloze.GenerateClozeBounds | Flashgen/server.py:853-953 | at most three cloze cards per input card, each coming from a card with a non-empty answer |
| ServerCloze.GenerateCloze | Flashgen/server.py:835-953 | an unsupported language is an error with its message, and only then; otherwise the cloze cards are each card's variants in order, and the stats count the input cards and the cloze cards |
| ChunkStrategies.Step | Flashgen/flashgen_refactored_v3/processing/chunk_strategies.js:459-460 | the distance between window starts is at least one character |
| ChunkStrategies.Fixed | Flashgen/flashgen_refactored_v3/processing/chunk_strategies.js:457-466 | the loop emits exactly the windows of the reference definition: one of `size` characters at each multiple of the step inside the text |
| ChunkStrategies.WindowsFromCount | Flashgen/flashgen_refactored_v3/processing/chunk_strategies.js:462-464 | the last window starts inside the text and one more step would leave it |
| ChunkStrategies.WindowAt | Flashgen/flashgen_refactored_v3/processing/chunk_strategies.js:462-464 | the `k`-th window is the substring starting at `k` steps |
| ChunkStrategies.FixedShape | Flashgen/flashgen_refactored_v3/processing/chunk_strategies.js:457-466 | no window for an empty text; just enough windows to reach the end; window `k` is the substring at `k * step`; none longer than the chunk size |
| ChunkStrategies.WindowsTile | Flashgen/flashgen_refactored_v3/processing/chunk_strategies.js:461-464 | without overlap the windows concatenate back to the text from the start position |
| ChunkStrategies.FixedNoOverlap | Flashgen/flashgen_refactored_v3/processing/chunk_strategies.js:457-466 | `fixed` with no overlap neither loses nor repeats a character |
| ChunkStrategies.FirstBreakFrom | Flashgen/flashgen_refactored_v3/processing/chunk_strategies.js:435 | finds the first double newline at or after a position, or reports that there is none |
| ChunkStrategies.NewlineRunEnd | Flashgen/flashgen_refactored_v3/processing/chunk_strategies.js:435 | the run of newlines ends at the first non-newline or at the end |
| ChunkStrategies.SplitParagraphs | Flashgen/flashgen_refactored_v3/processing/chunk_strategies.js:435 | `split(/\n\n+/)` gives at least one part and no part holds a double newline |
| ChunkStrategies.SplitParagraphsSingle | Flashgen/flashgen_refactored_v3/processing/chunk_strategies.js:435 | a text is a single paragraph exactly when it has no double newline |
| ChunkStrategies.ParagraphBounds | Flashgen/flashgen_refactored_v3/processing/chunk_strategies.js:434-450 | every paragraph chunk is at most twice the chunk size and holds no double newline |
| ChunkStrategies.ShortParagraphsKept | Flashgen/flashgen_refactored_v3/processing/chunk_strategies.js:438-439 | paragraphs within twice the chunk size are the chunks, unchanged and in order |
| ChunkStrategies.LongParagraphTiled | Flashgen/flashgen_refactored_v3/processing/chunk_strategies.js:441-448 | without overlap the windows of a long paragraph concatenate back to it |
| ChunkStrategies.Wordlist | Flashgen/flashgen_refactored_v3/processing/chunk_strategies.js:633-635 | every entry is non-empty and holds no newline |
| ChunkStrategies.WordlistRoundTrip | Flashgen/flashgen_refactored_v3/processing/chunk_strategies.js:633-635 | a list of trimmed non-empty lines written one per line reads back as the same list |
| ChunkStrategies.RunEnd | Flashgen/flashgen_refactored_v3/processing/chunk_strategies.js:195 | the run of a character class ends at the first character outside it or at the end |
| ChunkStrategies.OverlapFrom | Flashgen/flashgen_refactored_v3/processing/chunk_strategies.js:231-251 | the sentences carried into the next group are the longest suffix of the closed group whose total length stays under the bound (chunk size times the overlap percentage), and the new length is that total; when even the last sentence alone reaches the bound, that sentence alone is carried and the length restarts at 0 |
| ChunkStrategies.MatchesFrom | Flashgen/flashgen_refactored_v3/processing/chunk_strategies.js:195 | every match of the sentence expression is a run without end marks, then end marks, then a space or the end |
| ChunkStrategies.SplitSentences | Flashgen/flashgen_refactored_v3/processing/chunk_strategies.js:194-198 | the sentence fallback gives at least one sentence |
| ChunkStrategies.NoTerminatorOneSentence | Flashgen/flashgen_refactored_v3/processing/chunk_strategies.js:195 | a text without `.`, `!` or `?` is one sentence: the text itself |
| ChunkStrategies.ComputeSimilarity | Flashgen/flashgen_refactored_v3/processing/chunk_strategies.js:676-684 | the similarity is between 0 and 1 and is the Jaccard index of the two word sets (0 when both are empty) |
| ChunkStrategies.SimilaritySymmetric | Flashgen/flashgen_refactored_v3/processing/chunk_strategies.js:676-684 | the similarity does not depend on the order of the texts |
| ChunkStrategies.SimilarityExtremes | Flashgen/flashgen_refactored_v3/processing/chunk_strategies.js:676-684 | texts without words have similarity 0 and texts with the same non-empty word set have similarity 1 |
| ChunkStrategies.JaccardSelf | Flashgen/flashgen_refactored_v3/processing/chunk_strategies.js:683 | a non-empty set has Jaccard index 1 with itself |
| ChunkStrategies.SemanticGroups | Flashgen/flashgen_refactored_v3/processing/chunk_strategies.js:655-671 | the groups partition the sentence positions in order, each non-empty, each later group starting at a cut and no cut inside a group |
| ChunkStrategies.SemanticGroupsJoinIff | Flashgen/flashgen_refactored_v3/processing/chunk_strategies.js:659-670 | inside a group each sentence reaches the threshold against the previous one, and each later group starts with one that falls below it |
| ChunkStrategies.Semantic | Flashgen/flashgen_refactored_v3/processing/chunk_strategies.js:649-674 | fewer than two sentences are returned as they are; otherwise chunk k is the sentences of group k joined by a space, the groups cutting exactly where the similarity to the previous sentence falls below the threshold |
| ChunkStrategies.SemanticChunkSentences | Flashgen/flashgen_refactored_v3/processing/chunk_strategies.js:664-671 | every member of a group names a sentence of the text, and it is that sentence that goes into the group's chunk |
| ChunkStrategies.GiantSentenceFlushed | Flashgen/flashgen_refactored_v3/processing/chunk_strategies.js:215-224 | a sentence longer than 1.5 times the target closes the pending group and is cut into windows that, without overlap, concatenate back to it |
| ChunkStrategies.RoundTripStep | Flashgen/flashgen_refactored_v3/processing/chunk_strategies.js:211-261 | one loop step without overlap keeps the chunks-joined-by-spaces invariant |
| ChunkStrategies.RoundTripAll | Flashgen/flashgen_refactored_v3/processing/chunk_strategies.js:211-261 | the loop without overlap keeps that invariant over all sentences |
| ChunkStrategies.SentencePackRoundTrip | Flashgen/flashgen_refactored_v3/processing/chunk_strategies.js:200-267 | without overlap and giant sentences, the chunks joined by spaces are the sentences joined by spaces |
| ChunkStrategies.ClosedBound | Flashgen/flashgen_refactored_v3/processing/chunk_strategies.js:263-265 | the final pending group fits the chunk size or is a single input sentence |
| ChunkStrategies.BoundStep | Flashgen/flashgen_refactored_v3/processing/chunk_strategies.js:226-261 | one loop step without overlap keeps the size invariant |
| ChunkStrategies.BoundAll | Flashgen/flashgen_refactored_v3/processing/chunk_strategies.js:211-261 | the loop without overlap keeps the size invariant over all sentences |
| ChunkStrategies.SentencePackBound | Flashgen/flashgen_refactored_v3/processing/chunk_strategies.js:200-267 | without overlap every chunk fits the chunk size unless it is a single sentence |
| ChunkStrategies.Slice | Flashgen/flashgen_refactored_v3/processing/chunk_strategies.js:558 | a slice holds only elements of the list |
| ChunkStrategies.InjectedContext | Flashgen/flashgen_refactored_v3/processing/chunk_strategies.js:555-565 | no configuration gives no context; with one, the context is non-empty exactly when the trimmed non-empty preceding chunks joined by newlines are non-empty, and then it is the label (default "Contexto relevante:") over that summary |
| ChunkStrategies.ContextSlicesExact | Flashgen/flashgen_refactored_v3/processing/chunk_strategies.js:557-559 | the context holds exactly the non-empty chunks at positions max(0, index - window) up to index - 1 |
| ChunkStrategies.DefaultWindowIsTwo | Flashgen/flashgen_refactored_v3/processing/chunk_strategies.js:557 | a missing window is a window of two |
| ClozeEngine.CreateCloze | Flashgen/flashgen_refactored_v3/processing/cloze_engine.js:34-39 | no cloze exactly when the phrase is empty or occurs nowhere, ignoring case |
| ClozeEngine.CreateClozeFirstOnly | Flashgen/flashgen_refactored_v3/processing/cloze_engine.js:36-38 | a cloze replaces the first case-insensitive occurrence only: the text before it is kept, the gap holds the phrase as given, and the rest follows unchanged |
| ClozeEngine.GapSplice | Flashgen/flashgen_refactored_v3/processing/cloze_engine.js:38 | splicing the gap in at an occurrence gives that shape |
| ClozeEngine.IsClozeOfTail | Flashgen/flashgen_refactored_v3/processing/cloze_engine.js:56-93 | a variant for a later phrase is a variant for the whole list |
| ClozeEngine.VariantsFrom | Flashgen/flashgen_refactored_v3/processing/cloze_engine.js:56-93 | at most one variant per phrase, each the cloze of the card for one of the phrases |
| ClozeEngine.VariantsFromComplete | Flashgen/flashgen_refactored_v3/processing/cloze_engine.js:56-93 | every phrase that occurs gives its variant: the card with the tagged id, the cloze as question and type `cloze` |
| ClozeEngine.VariantsFromCons | Flashgen/flashgen_refactored_v3/processing/cloze_engine.js:56-93 | the variants of a list are the first phrase's variant followed by the rest's, in order |
| ClozeEngine.CandidatesAreVariants | Flashgen/flashgen_refactored_v3/processing/cloze_engine.js:55-94 | every candidate comes from an enabled extractor: entities unless switched off, numbers for numbers or dates, keywords when switched on |
| ClozeEngine.SliceEnd | Flashgen/flashgen_refactored_v3/processing/cloze_engine.js:95 | the end of `slice(0, end)` is within the list and is the end itself when non-negative and in range |
| ClozeEngine.CardOutputs | Flashgen/flashgen_refactored_v3/processing/cloze_engine.js:49-95 | an answer shorter than ten characters passes alone; otherwise the card comes first, followed by exactly the first `maxVariants` candidate variants (all of them when there are fewer), in order |
| ClozeEngine.AllVariantsKept | Flashgen/flashgen_refactored_v3/processing/cloze_engine.js:95 | with no more candidates than the limit, all of them are kept after the card |
| ClozeEngine.Apply | Flashgen/flashgen_refactored_v3/processing/cloze_engine.js:40-97 | a non-array or empty input is returned as it is; a list gives a list |
| ClozeEngine.ApplyGroups | Flashgen/flashgen_refactored_v3/processing/cloze_engine.js:47-97 | the output is the cards' groups in order, each starting with its card, between one and `1 + maxVariants` outputs per card |
| ClozeEngine.DefaultLimitIsTwo | Flashgen/flashgen_refactored_v3/processing/cloze_engine.js:42-46 | with every option at its default the limit is two: at most the card and two variants per card |
| EntityUtils.EscapeRoundTrip | Flashgen/flashgen_refactored_v3/processing/EntityUtils.js:11-13 | the escaped pattern matches exactly the string it was built from: reading every backslash escape as its character gives the string back |
| EntityUtils.EscapePlain | Flashgen/flashgen_refactored_v3/processing/EntityUtils.js:11-13 | a string without any regular-expression metacharacter is its own pattern |
| EntityUtils.FindFromSpec | Flashgen/flashgen_refactored_v3/processing/EntityUtils.js:23-24 | the left-to-right search returns a position where the phrase matches ignoring case, with no match between the start and it; or no position, and then the phrase matches nowhere from the start on |
| EntityUtils.FindFromIs | Flashgen/flashgen_refactored_v3/processing/EntityUtils.js:23-24 | conversely, the first case-insensitive match from the start on is the position the search returns |
| EntityUtils.FindPhraseIsIndexOf | Flashgen/flashgen_refactored_v3/processing/EntityUtils.js:23-24 | the search finds the same first occurrence as the case-insensitive search used elsewhere |
| EntityUtils.ProtectScan | Flashgen/flashgen_refactored_v3/processing/EntityUtils.js:24-28 | the replacements recorded before the phrase are kept, unchanged, at the front |
| EntityUtils.ProtectScanNumbered | Flashgen/flashgen_refactored_v3/processing/EntityUtils.js:24-28 | every replacement a phrase adds holds the placeholder numbered by its position in the list and a text that matches the phrase ignoring case |
| EntityUtils.ProtectScanFirst | Flashgen/flashgen_refactored_v3/processing/EntityUtils.js:24-28 | a phrase that does not occur changes nothing; otherwise the text before the first occurrence is kept, the occurrence becomes the next placeholder and is recorded as it was written, and the replacement continues after it |
| EntityUtils.ProtectFrom | Flashgen/flashgen_refactored_v3/processing/EntityUtils.js:18-29 | the replacements recorded before the remaining phrases are kept at the front |
| EntityUtils.ProtectFromNumbered | Flashgen/flashgen_refactored_v3/processing/EntityUtils.js:18-29 | over the remaining phrases, the placeholders stay numbered by position and each new replacement matches one of the phrases of two or more characters |
| EntityUtils.ProtectPhrasesNumbered | Flashgen/flashgen_refactored_v3/processing/EntityUtils.js:14-31 | placeholders are numbered 0, 1, 2, … in the order they were made, and every recorded value is a case-insensitive match of a phrase of two or more characters |
| EntityUtils.SkippedPhrase | Flashgen/flashgen_refactored_v3/processing/EntityUtils.js:19-22 | a phrase shorter than two characters, or one equal ignoring case to an earlier phrase, has no effect: leaving it out gives the same result |
| EntityUtils.InterleaveEmpty | Flashgen/flashgen_refactored_v3/processing/EntityUtils.js:34 | replacing the empty pattern inserts the value before every character and at the end |
| EntityUtils.RestoreTokens | Flashgen/flashgen_refactored_v3/processing/EntityUtils.js:32-35 | an empty text restores to the empty text, and with no replacements the text is returned as it is |
| ProtectionRoundTrip.TokenShape | Flashgen/flashgen_refactored_v3/processing/EntityUtils.js:25 | a placeholder is `__FG_ENTITY_`, the decimal digits of its number, and `__` |
| ProtectionRoundTrip.TokensDiffer | Flashgen/flashgen_refactored_v3/processing/EntityUtils.js:25 | two placeholders with different numbers differ at a position both have |
| ProtectionRoundTrip.NoTokenInside | Flashgen/flashgen_refactored_v3/processing/EntityUtils.js:34 | in a text made of clean literal stretches and placeholders, a placeholder's pattern can only match where that placeholder itself stands |
| ProtectionRoundTrip.ReplaceTokenRender | Flashgen/flashgen_refactored_v3/processing/EntityUtils.js:34 | in such a text, the global replacement of one placeholder replaces exactly the pieces that are that placeholder |
| ProtectionRoundTrip.RestoreFrom | Flashgen/flashgen_refactored_v3/processing/EntityUtils.js:32-35 | restoring the replacements numbered from `k` on, over a text whose placeholders are all numbered from `k` on, gives the text the placeholders stand for |
| ProtectionRoundTrip.ScanAppend | Flashgen/flashgen_refactored_v3/processing/EntityUtils.js:24-28 | when no match runs from `u` into `w`, replacing the phrase in `u + w` is replacing it in `u` and then in `w`, the numbering carried on |
| ProtectionRoundTrip.ScanLiteral | Flashgen/flashgen_refactored_v3/processing/EntityUtils.js:24-28 | replacing a phrase in text without `_` leaves literal stretches without `_` and new placeholders numbered on, standing for that text |
| ProtectionRoundTrip.ScanPieces | Flashgen/flashgen_refactored_v3/processing/EntityUtils.js:24-28 | replacing a protectable phrase in a protected text leaves the existing placeholders alone and changes nothing the text stands for |
| ProtectionRoundTrip.ProtectFold | Flashgen/flashgen_refactored_v3/processing/EntityUtils.js:18-29 | after each phrase the protected text is still clean literal stretches and numbered placeholders, standing for the same original text |
| ProtectionRoundTrip.ProtectableByLetter | Flashgen/flashgen_refactored_v3/processing/EntityUtils.js:25 | a phrase without `_` that holds a letter no placeholder holds in either case (anything but f, g, e, n, t, i, y, digits and `_`) never matches inside a placeholder |
| ProtectionRoundTrip.ProtectRestoreRoundTrip | Flashgen/flashgen_refactored_v3/processing/EntityUtils.js:14-35 | restoring the placeholders of a protected text gives back the text, when neither the text nor any phrase of two or more characters contains `_` and no such phrase matches inside a placeholder |
| Parallelizer.DepsShallower | Flashgen/flashgen_refactored_v3/pipeline/PipelineParallelizer.js:32-43 | every dependency in the fixed map sits strictly lower in the longest dependency chain: the map has no cycle |
| Parallelizer.DepsRanked | Flashgen/flashgen_refactored_v3/pipeline/PipelineParallelizer.js:32-43 | the chain depth ranks the fixed dependency map, every dependency ranking lower |
| Parallelizer.Unprocessed | Flashgen/flashgen_refactored_v3/pipeline/PipelineParallelizer.js:51-52 | the steps kept are exactly those whose id has not been processed |
| Parallelizer.Round | Flashgen/flashgen_refactored_v3/pipeline/PipelineParallelizer.js:51-62 | one pass collects exactly the unprocessed steps whose every dependency is processed or names no step in the list, and never more steps than it was given |
| Parallelizer.RoundSplit | Flashgen/flashgen_refactored_v3/pipeline/PipelineParallelizer.js:51-70 | a pass splits the unprocessed steps, as a multiset, into the pass's group and the steps still unprocessed once the group's ids are added |
| Parallelizer.Grouped | Flashgen/flashgen_refactored_v3/pipeline/PipelineParallelizer.js:51-62 | an unprocessed step's id is among the group's ids exactly when the step may run |
| Parallelizer.Advance | Flashgen/flashgen_refactored_v3/pipeline/PipelineParallelizer.js:64-70 | after a non-empty pass the processed ids stay among the steps' ids and strictly fewer ids are left, so the loop ends |
| Parallelizer.GroupsPartition | Flashgen/flashgen_refactored_v3/pipeline/PipelineParallelizer.js:48-73 | when the loop resolves, its groups hold exactly the unprocessed steps, each as often as it occurs |
| Parallelizer.GroupsOrdered | Flashgen/flashgen_refactored_v3/pipeline/PipelineParallelizer.js:48-73 | when the loop resolves, no group is empty and every dependency of a grouped step that is in the list was processed before or sits in an earlier group |
| Parallelizer.Runnable | Flashgen/flashgen_refactored_v3/pipeline/PipelineParallelizer.js:51-62 | under an acyclic map, some step can run whenever one is unprocessed |
| Parallelizer.GroupsProgress | Flashgen/flashgen_refactored_v3/pipeline/PipelineParallelizer.js:48-73 | with distinct ids and an acyclic map the loop never reaches the fallback |
| Parallelizer.ParallelizePartition | Flashgen/flashgen_refactored_v3/pipeline/PipelineParallelizer.js:22-74 | every step lands in the result, as often as it occurs in the list, whether grouped or in the fallback |
| Parallelizer.ParallelizeOrdered | Flashgen/flashgen_refactored_v3/pipeline/PipelineParallelizer.js:22-74 | with distinct ids the groups are non-empty and every dependency present in the list lies in an earlier group; absent dependencies are ignored |
| Parallelizer.ParallelizeFallback | Flashgen/flashgen_refactored_v3/pipeline/PipelineParallelizer.js:64-67 | when the first pass finds nothing to run, the result is the whole list as one group |
| Parallelizer.DuplicateFallback | Flashgen/flashgen_refactored_v3/pipeline/PipelineParallelizer.js:48-70 | two steps with the same id are both processed by the first pass, yet the size check still waits for a second id, the next pass is empty and the list falls back to one group |
| Parallelizer.IsPostProcessingGroup | Flashgen/flashgen_refactored_v3/pipeline/PipelineParallelizer.js:187-190 | a group is post-processing exactly when every step's id is quality, difficulty-balance or cloze-generator |
| Parallelizer.Combine | Flashgen/flashgen_refactored_v3/pipeline/PipelineParallelizer.js:193-206 | the combined data is the original data or one of the results |
| Parallelizer.CombineLast | Flashgen/flashgen_refactored_v3/pipeline/PipelineParallelizer.js:193-206 | the last array result wins; with no array result the original data is kept |
| StepHandlers.FirstTruthy3 | Flashgen/flashgen_refactored_v3/pipeline/pipeline_step_handlers.js:180 | the first non-empty of three string settings, else the default, is the chain of logical ors |
| StepHandlers.FirstSet3 | Flashgen/flashgen_refactored_v3/pipeline/pipeline_step_handlers.js:181 | the first set of three numeric settings, else the default, is the chain of `??` |
| StepHandlers.ResolveChunkConfig | Flashgen/flashgen_refactored_v3/pipeline/pipeline_step_handlers.js:179-186 | each resolved field takes the step's own setting first, under either of its two names, then the pipeline option, then the default (sentence, 500, 0, 50, none, default) |
| StepHandlers.ResolveDefaults | Flashgen/flashgen_refactored_v3/pipeline/pipeline_step_handlers.js:179-186 | with nothing configured the defaults apply |
| StepHandlers.ResolvePriority | Flashgen/flashgen_refactored_v3/pipeline/pipeline_step_handlers.js:179-186 | a step that sets every field ignores the pipeline options; a step that sets nothing takes them, then the defaults |
| StepHandlers.ResolveZeroAndEmpty | Flashgen/flashgen_refactored_v3/pipeline/pipeline_step_handlers.js:180-181 | an explicit size 0 is kept, while an empty method name falls through to the pipeline option |
| StepHandlers.ChunkHandler | Flashgen/flashgen_refactored_v3/pipeline/pipeline_step_handlers.js:160-196 | the text passes through, a missing text becoming the empty string, and a configuration is recorded exactly when the text is non-empty |
| StepHandlers.DedupeFrom | Flashgen/flashgen_refactored_v3/pipeline/pipeline_step_handlers.js:517-524 | the kept cards have keys never seen before and pairwise different, and appear in the input's order |
| StepHandlers.Dedupe | Flashgen/flashgen_refactored_v3/pipeline/pipeline_step_handlers.js:513-527 | disabled, the cards are returned as they are; enabled, the result has unique keys and is a subsequence of the input |
| StepHandlers.DedupeFirstOfEach | Flashgen/flashgen_refactored_v3/pipeline/pipeline_step_handlers.js:517-524 | the filter with the seen set keeps exactly the entries whose key no earlier entry has |
| StepHandlers.DedupeFirstOfEachKey | Flashgen/flashgen_refactored_v3/pipeline/pipeline_step_handlers.js:513-527 | dedupe keeps the first card for each lower-cased, trimmed question, in order |
| StepHandlers.DedupeFromUnique | Flashgen/flashgen_refactored_v3/pipeline/pipeline_step_handlers.js:517-524 | entries with distinct keys, none of them seen, all pass |
| StepHandlers.DedupeIdempotent | Flashgen/flashgen_refactored_v3/pipeline/pipeline_step_handlers.js:513-527 | deduplicating twice is deduplicating once |
| StepHandlers.DedupeKeepsKeys | Flashgen/flashgen_refactored_v3/pipeline/pipeline_step_handlers.js:517-524 | every unseen key of the input keeps an entry in the output |
| StepHandlers.DedupeKeepsQuestions | Flashgen/flashgen_refactored_v3/pipeline/pipeline_step_handlers.js:513-527 | no question key is lost |
| StepHandlers.PieceCount | Flashgen/flashgen_refactored_v3/pipeline/pipeline_step_handlers.js:536 | splitting on whitespace runs always yields at least one piece |
| StepHandlers.EstimateDifficulty | Flashgen/flashgen_refactored_v3/pipeline/pipeline_step_handlers.js:534-542 | for wordCount: 1 up to ten pieces, 3 beyond twenty, 2 in between; any other method gives 2 |
| StepHandlers.SplitRunsInnerParts | Flashgen/flashgen_refactored_v3/pipeline/pipeline_step_handlers.js:536 | when the text does not end with whitespace, every piece after the first is non-empty |
| StepHandlers.PiecesAreWords | Flashgen/flashgen_refactored_v3/pipeline/pipeline_step_handlers.js:536 | for a trimmed non-empty answer the pieces are exactly its words |
| StepHandlers.DigitRunEnd | Flashgen/flashgen_refactored_v3/pipeline/pipeline_step_handlers.js:560 | the run of digits starting at a position ends at the first non-digit or the end |
| StepHandlers.FirstNumberFrom | Flashgen/flashgen_refactored_v3/pipeline/pipeline_step_handlers.js:560 | the first start of a whole number at or after a position, none being earlier |
| StepHandlers.FirstNumber | Flashgen/flashgen_refactored_v3/pipeline/pipeline_step_handlers.js:560 | the first match of `\b\d+\b` is the digit run at a position where a whole number starts; there is none exactly when no such position exists |
| StepHandlers.GenerateClozeVariant | Flashgen/flashgen_refactored_v3/pipeline/pipeline_step_handlers.js:544-576 | no answer, no variant; a variant keeps the question, has type cloze and an answer different from the card's |
| StepHandlers.ClozeVariantShape | Flashgen/flashgen_refactored_v3/pipeline/pipeline_step_handlers.js:544-576 | without a number or person to wrap there is no variant; a variant wraps one occurrence of its target in the gap markers and keeps the rest of the answer around it |
| StepHandlers.NumberWrappedInsideWord | Flashgen/flashgen_refactored_v3/pipeline/pipeline_step_handlers.js:559-563 | as written, in "x12 12" the first whole number is the second "12", yet the "12" inside "x12" is wrapped |
| StepHandlers.WrapNumberAt | Flashgen/flashgen_refactored_v3/pipeline/pipeline_step_handlers.js:559-563 | wrapping the number where it was matched: none exactly when there is no number, else the digits at a number's start wrapped in place |
| StepHandlers.GenerateClozeVariantFixed | Flashgen/flashgen_refactored_v3/pipeline/pipeline_step_handlers.js:544-576 | the corrected variant keeps the same guarantees: no answer, no variant; a variant keeps the question, has type cloze and a changed answer |
| StepHandlers.FixedWrapsWholeNumber | Flashgen/flashgen_refactored_v3/pipeline/pipeline_step_handlers.js:559-563 | with numbers enabled and a number present, the corrected variant wraps a whole number where it stands |
| StepHandlers.SourcePrefix | Flashgen/flashgen_refactored_v3/pipeline/pipeline_step_handlers.js:838 | the source text kept is a prefix of at most 200 characters, and the whole text when it is no longer |
| StepHandlers.MarkerLength | Flashgen/flashgen_refactored_v3/pipeline/pipeline_step_handlers.js:853-856 | the length of a marker the line starts with, ignoring case; none exactly when the line starts with no marker |
| StepHandlers.LastField | Flashgen/flashgen_refactored_v3/pipeline/pipeline_step_handlers.js:852-858 | a non-empty field value comes from a line that sets that field |
| StepHandlers.ScanIsLast | Flashgen/flashgen_refactored_v3/pipeline/pipeline_step_handlers.js:852-858 | the loop leaves each field with the text of the last line that sets it, or empty when none does |
| StepHandlers.ParseFlashcard | Flashgen/flashgen_refactored_v3/pipeline/pipeline_step_handlers.js:825-876 | a card has a non-empty question and answer, the id clock plus chunk index, and the first 200 characters of the source; a JSON object yields a card exactly when both its fields are non-empty, and then holds them |
| StepHandlers.ParseTextFallback | Flashgen/flashgen_refactored_v3/pipeline/pipeline_step_handlers.js:845-871 | for a text reply a card comes out exactly when the last question line and the last answer line carry text, and it holds those texts |
| StepHandlers.ParseRendered | Flashgen/flashgen_refactored_v3/pipeline/pipeline_step_handlers.js:845-871 | a card written as a "Q: …" line and an "A: …" line parses back to that question and answer |
| Exporter.ParseFormat | Flashgen/flashgen_refactored_v3/ui/exporter.js:134-146 | `csv`, `anki` and `markdown` select their writers exactly when the name is that word; every other name falls to JSON |
| Exporter.EscapeCsv | Flashgen/flashgen_refactored_v3/ui/exporter.js:154-159 | a field without comma, line break or quote is written unchanged; any other is enclosed in quotes |
| Exporter.ParseFieldEscape | Flashgen/flashgen_refactored_v3/ui/exporter.js:154-159 | reading an escaped field as RFC 4180 section 2 reads it gives back the original value and stops right after the field, whatever it contains |
| Exporter.ParseRecordLine | Flashgen/flashgen_refactored_v3/ui/exporter.js:150-151 | one written line of comma-joined escaped fields reads back as exactly those fields |
| Exporter.ParseCsvLines | Flashgen/flashgen_refactored_v3/ui/exporter.js:151 | lines of records joined by line breaks read back as the records |
| Exporter.ToCsvRoundTrip | Flashgen/flashgen_refactored_v3/ui/exporter.js:148-152 | reading the CSV export gives the header row and then each card's question, answer and status, whatever characters they hold |
| Exporter.AnkiRoundTrip | Flashgen/flashgen_refactored_v3/ui/exporter.js:161-163 | with no tabs or line breaks in the fields, the Anki export has one line per card and each line splits at its tab into that card's question and answer |
| Exporter.MarkdownBlock | Flashgen/flashgen_refactored_v3/ui/exporter.js:165-167 | the block of card n starts with the heading numbering it |
| Exporter.BuildContent | Flashgen/flashgen_refactored_v3/ui/exporter.js:134-146 | the `csv` export reads back as header plus cards; an unknown format gives the JSON text |
| RetryManager.AnyOccurs | Flashgen/flashgen_refactored_v3/pipeline/PipelineRetryManager.js:35-37 | true exactly when some pattern occurs in the message |
| RetryManager.RetryableIff | Flashgen/flashgen_refactored_v3/pipeline/PipelineRetryManager.js:17-38 | with the default patterns an error is retryable exactly when its lower-cased message mentions network, timeout, rate limit, temporary or service unavailable |
| RetryManager.CalculateDelay | Flashgen/flashgen_refactored_v3/pipeline/PipelineRetryManager.js:41-44 | the delay never exceeds the maximum and is either the maximum or the base delay times the multiplier to the power of the earlier retries; the first delay is the base delay |
| RetryManager.DelayMonotone | Flashgen/flashgen_refactored_v3/pipeline/PipelineRetryManager.js:41-44 | with a multiplier of at least 1 a later attempt never waits less |
| RetryManager.DefaultSchedule | Flashgen/flashgen_refactored_v3/pipeline/PipelineRetryManager.js:12-44 | the default configuration waits 1, 2, 4 and 8 seconds, then is capped at 10 |
| RetryManager.RunFrom | Flashgen/flashgen_refactored_v3/pipeline/PipelineRetryManager.js:51-86 | the loop stays within `maxRetries + 1` attempts, sleeps once per failed attempt, counts one retry per sleep, and only retries after retryable failures |
| RetryManager.RunFromDelays | Flashgen/flashgen_refactored_v3/pipeline/PipelineRetryManager.js:76-82 | the sleeps already taken are kept, and the sleep after failed attempt `k` is the delay for attempt `k` |
| RetryManager.Merge | Flashgen/flashgen_refactored_v3/pipeline/PipelineRetryManager.js:48 | the custom options override the manager's retries and base delay when given and leave every other setting alone |
| RetryManager.AttemptsBounded | Flashgen/flashgen_refactored_v3/pipeline/PipelineRetryManager.js:47-87 | a run makes between 1 and `maxRetries + 1` attempts (none and throws `undefined` when `maxRetries` is negative), sleeps between consecutive attempts only, and each sleep follows the manager's back-off schedule |
| RetryManager.RunOutcome | Flashgen/flashgen_refactored_v3/pipeline/PipelineRetryManager.js:51-86 | a returned value is the last attempt's result and all earlier attempts failed retryably; a thrown error is the last attempt's, and it was not retryable unless the attempts ran out |
| RetryManager.NonRetryableImmediate | Flashgen/flashgen_refactored_v3/pipeline/PipelineRetryManager.js:68-74 | a non-retryable first failure is thrown after one attempt, without sleeping or touching the statistics |
| RetryManager.StatsAccounting | Flashgen/flashgen_refactored_v3/pipeline/PipelineRetryManager.js:57-76 | the retry counter grows by the number of sleeps and successful retries never outnumber retries |
| RetryManager.StepCustom | Flashgen/flashgen_refactored_v3/pipeline/PipelineRetryManager.js:108-111 | a step's retries and delay are used when set and non-zero, the manager's otherwise |
| RetryManager.StepDelayIgnored | Flashgen/flashgen_refactored_v3/pipeline/PipelineRetryManager.js:77 | as written the first sleep is the manager's base delay whatever retry delay the step asked for |
| RetryManager.StepDelayHonoured | Flashgen/flashgen_refactored_v3/pipeline/PipelineRetryManager.js:108-111 | with delays computed from the merged configuration the step's retry delay is the first sleep |
| RetryManager.RatePercent | Flashgen/flashgen_refactored_v3/pipeline/PipelineRetryManager.js:143 | the rate is absent exactly when nothing was retried, and lies between 0 and 100 for consistent statistics |
| RetryManager.SuccessRate | Flashgen/flashgen_refactored_v3/pipeline/PipelineRetryManager.js:134-145 | "0%" when nothing was retried, otherwise the formatted percentage followed by `%` |
| RetryManager.ResetStats | Flashgen/flashgen_refactored_v3/pipeline/PipelineRetryManager.js:148-155 | the reset statistics are consistent, count no retry and report "0%" |
| PipelineCache.RemoveKey | Flashgen/flashgen_refactored_v3/pipeline/PipelineCache.js:136-142 | the insertion order loses exactly the deleted key and keeps every other key once |
| PipelineCache.Delete | Flashgen/flashgen_refactored_v3/pipeline/PipelineCache.js:136-142 | the entry of the key is gone, the size drops by one exactly when the key was present, and the counters are untouched |
| PipelineCache.Get | Flashgen/flashgen_refactored_v3/pipeline/PipelineCache.js:54-73 | a missing key counts a miss; an expired entry is removed and counts a miss; a live entry is returned, counts a hit and has its last access set to now |
| PipelineCache.GetAfterSet | Flashgen/flashgen_refactored_v3/pipeline/PipelineCache.js:54-97 | a value stored without errors at time t is served until t plus the 30-minute time-to-live and not after |
| PipelineCache.OldestFrom | Flashgen/flashgen_refactored_v3/pipeline/PipelineCache.js:104-109 | the scan picks a key used no later than every key scanned and strictly earlier than the starting bound, or nothing when no key is older than the bound |
| PipelineCache.EvictLru | Flashgen/flashgen_refactored_v3/pipeline/PipelineCache.js:100-115 | at most one entry goes, and the one that goes was used no later than any other and strictly before now |
| PipelineCache.Set | Flashgen/flashgen_refactored_v3/pipeline/PipelineCache.js:76-97 | a result with errors leaves the cache unchanged; otherwise the key holds the new entry stamped now with expiry now plus the time-to-live, and every other remaining entry is unchanged |
| PipelineCache.FullAt | Flashgen/flashgen_refactored_v3/pipeline/PipelineCache.js:84-86 | a full cache of 100 entries all used at time now, without the key "new" |
| PipelineCache.SetOverfills | Flashgen/flashgen_refactored_v3/pipeline/PipelineCache.js:100-115 | storing a new key into that full cache evicts nothing and leaves 101 entries |
| PipelineCache.EvictLruFixed | Flashgen/flashgen_refactored_v3/pipeline/PipelineCache.js:100-115 | on a non-empty cache exactly one entry goes, one used no later than any other |
| PipelineCache.SetFixed | Flashgen/flashgen_refactored_v3/pipeline/PipelineCache.js:76-97 | the same stored-entry guarantees as `set`, with the corrected eviction |
| PipelineCache.SetFixedBounded | Flashgen/flashgen_refactored_v3/pipeline/PipelineCache.js:84-86 | with the corrected eviction the cache never grows beyond 100 entries |
| PipelineCache.LiveKeys | Flashgen/flashgen_refactored_v3/pipeline/PipelineCache.js:158-163 | exactly the keys whose entries have not expired, each once |
| PipelineCache.Cleanup | Flashgen/flashgen_refactored_v3/pipeline/PipelineCache.js:154-170 | the result holds exactly the unexpired entries, the count returned plus the remaining size is the former size, and the counters are untouched |
| PipelineCache.CleanupIdempotent | Flashgen/flashgen_refactored_v3/pipeline/PipelineCache.js:154-170 | a second cleanup at the same time changes nothing and removes nothing |
| PipelineCache.SanitizeOptions | Flashgen/flashgen_refactored_v3/pipeline/PipelineCache.js:41-51 | only the four kept options appear, with their values, and every kept option present appears |
| PipelineCache.SanitizeIgnoresOthers | Flashgen/flashgen_refactored_v3/pipeline/PipelineCache.js:41-51 | options that agree on the four kept keys give the same sanitized options, whatever else they hold |
| PipelineCache.Clear | Flashgen/flashgen_refactored_v3/pipeline/PipelineCache.js:145-151 | the cache is left empty with both counters at zero |
| PipelineCache.HitPercent | Flashgen/flashgen_refactored_v3/pipeline/PipelineCache.js:119-125 | the rate is absent exactly before any lookup, and lies between 0 and 100 |
| PipelineCache.HitRate | Flashgen/flashgen_refactored_v3/pipeline/PipelineCache.js:125 | "0%" before any lookup, otherwise the formatted percentage followed by `%` |
| PipelineCache.GetCounts | Flashgen/flashgen_refactored_v3/pipeline/PipelineCache.js:54-73 | every lookup counts exactly one hit or miss, a hit exactly when a value is returned |
| LangChain.AddNode | Flashgen/flashgen_refactored_v3/js/langchain-core.js:88-91 | the node is registered, an earlier node of the same id replaced, and nothing else of the chain changes |
| LangChain.AddEdge | Flashgen/flashgen_refactored_v3/js/langchain-core.js:93-103 | the edge is appended exactly when both ends are known nodes, and the call fails otherwise |
| LangChain.AddConditionalEdge | Flashgen/flashgen_refactored_v3/js/langchain-core.js:105-108 | the node's conditional edge is set without validation, replacing an earlier one, and every other part is unchanged |
| LangChain.SetEntryPoint | Flashgen/flashgen_refactored_v3/js/langchain-core.js:110-117 | the entry point is set exactly when the node is known, and the call fails otherwise |
| LangChain.FirstEdgeFrom | Flashgen/flashgen_refactored_v3/js/langchain-core.js:252 | a found target is the end of an edge leaving the node; nothing is found exactly when no edge leaves it |
| LangChain.FirstEdgeIsFirst | Flashgen/flashgen_refactored_v3/js/langchain-core.js:252 | the edge found is the earliest edge leaving the node |
| LangChain.NextNode | Flashgen/flashgen_refactored_v3/js/langchain-core.js:229-259 | a conditional edge decides first, and a key without a target ends the chain; a throwing condition or no conditional edge falls back to the first direct edge |
| LangChain.DirectRoute | Flashgen/flashgen_refactored_v3/js/langchain-core.js:251-255 | a node without a conditional edge moves along its earliest direct edge |
| LangChain.Rotate | Flashgen/flashgen_refactored_v3/js/langchain-core.js:161-169 | once more than 50 keys are stored, only the last 25 are kept |
| LangChain.RotationUnused | Flashgen/flashgen_refactored_v3/js/langchain-core.js:132-171 | with fewer than 50 keys stored the rotation keeps everything, and a run never stores more |
| LangChain.Loop | Flashgen/flashgen_refactored_v3/js/langchain-core.js:135-207 | a finished loop stays within 50 iterations, ends with a state, and counts at most one API call per iteration |
| LangChain.Run | Flashgen/flashgen_refactored_v3/js/langchain-core.js:119-227 | a finished run made at most 50 iterations and at most one API call each; without an entry point it returns the initial state untouched |
| LangChain.NullRestoresLastValid | Flashgen/flashgen_refactored_v3/js/langchain-core.js:188-199 | a node returning a falsy state ends the run with the last valid state and the early-stop flag set |
| LangChain.RepeatIsLoopError | Flashgen/flashgen_refactored_v3/js/langchain-core.js:148-158 | reaching a node again with a state of the same hash fails with the loop error |
| LangChain.SelfLoopDetected | Flashgen/flashgen_refactored_v3/js/langchain-core.js:135-158 | a node whose only edge returns to itself and whose handler keeps the state is caught as a loop on its second visit |
| ChainBuilder.BuildConfig | Flashgen/flashgen_refactored_v3/chain/chain_builder.js:33-40 | the threshold and refinement count are never zero, and the threshold is the caller's, the GUI's or 70 |
| ChainBuilder.ConfigDefaults | Flashgen/flashgen_refactored_v3/chain/chain_builder.js:33-40 | without options the threshold is 70 with two refinements, cloze and strict mode on, bypass and debug off |
| ChainBuilder.ZeroFallsThrough | Flashgen/flashgen_refactored_v3/chain/chain_builder.js:34-35 | a zero threshold or refinement count falls through to the GUI value and then to the default |
| ChainBuilder.RefinementRoute | Flashgen/flashgen_refactored_v3/chain/chain_builder.js:74-78 | the outcome is always a key of the targets: approved exactly when no refinement is needed, refinement exactly when needed below the maximum generation, max attempts exactly when needed at or above it |
| ChainBuilder.AddEdges | Flashgen/flashgen_refactored_v3/chain/chain_builder.js:68-89 | a failed chain stays failed, and edges between known nodes are all appended |
| ChainBuilder.AddEdgesFailure | Flashgen/flashgen_refactored_v3/chain/chain_builder.js:68-89 | one edge with an unknown end makes the whole fluent chain fail |
| ChainBuilder.FlashcardNodesDistinct | Flashgen/flashgen_refactored_v3/chain/chain_builder.js:43-64 | the seven node ids are pairwise different |
| ChainBuilder.Nodes | Flashgen/flashgen_refactored_v3/chain/chain_builder.js:42-64 | all seven nodes are registered, with no edges and no entry point yet |
| ChainBuilder.WireBefore | Flashgen/flashgen_refactored_v3/chain/chain_builder.js:68-70 | the three direct edges into the evaluation are added without failing |
| ChainBuilder.WireAfter | Flashgen/flashgen_refactored_v3/chain/chain_builder.js:87-89 | the two direct edges after the conditional edge are added without failing |
| ChainBuilder.Wire | Flashgen/flashgen_refactored_v3/chain/chain_builder.js:68-89 | all edges are added, and the evaluation node gets the conditional edge |
| ChainBuilder.Assemble | Flashgen/flashgen_refactored_v3/chain/chain_builder.js:66-89 | the entry point is the content analysis, and the chain holds exactly the five direct edges and one conditional edge |
| ChainBuilder.BuildChain | Flashgen/flashgen_refactored_v3/chain/chain_builder.js:42-89 | building never throws, and the chain has the seven nodes, the entry point, the five direct edges and the refinement condition |
| ChainBuilder.BuildFlashcardChain | Flashgen/flashgen_refactored_v3/chain/chain_builder.js:15-97 | the flashcard chain is built and starts at `content_analysis` |
| ChainBuilder.RoutesBefore | Flashgen/flashgen_refactored_v3/chain/chain_builder.js:68-70 | content analysis leads to the quality filter, then to the initial generation, then to the evaluation |
| ChainBuilder.RoutesAfter | Flashgen/flashgen_refactored_v3/chain/chain_builder.js:87-89 | refinement leads back to the evaluation, the cloze variants lead to the finalization, and the finalization ends the chain |
| ChainBuilder.Routes | Flashgen/flashgen_refactored_v3/chain/chain_builder.js:66-89 | the built chain runs straight into the evaluation, loops back through refinement, and ends after the cloze variants and the finalization |
| ChainBuilder.RefinementStep | Flashgen/flashgen_refactored_v3/chain/chain_builder.js:73-84 | out of the evaluation a state goes to refinement when it needs it below the maximum generation, and to the cloze variants otherwise |
| ChainBuilder.EvaluationRoute | Flashgen/flashgen_refactored_v3/chain/chain_builder.js:72-84 | after the evaluation a state is refined exactly when it needs it and its generation is below the configured maximum |
| ChainBuilder.FlashcardRoutes | Flashgen/flashgen_refactored_v3/chain/chain_builder.js:15-97 | the flashcard chain's routes use the configured maximum refinements |
| ScoreEngine.Normalize | Flashgen/flashgen_refactored_v3/processing/ScoreEngine.js:8-11 | the result lies in [0, 1]: 0 on a one-point interval, 0 at or below the minimum, 1 at or above the maximum, and in between it is the value's position in the interval |
| ScoreEngine.NormalizeMonotone | Flashgen/flashgen_refactored_v3/processing/ScoreEngine.js:8-11 | on a proper interval a larger value never normalises lower |
| ScoreEngine.WordTokens | Flashgen/flashgen_refactored_v3/processing/ScoreEngine.js:14-15 | splitting at non-word runs and dropping empties leaves only non-empty tokens |
| ScoreEngine.CountIn | Flashgen/flashgen_refactored_v3/processing/ScoreEngine.js:17 | the number of matching tokens never exceeds the number of tokens |
| ScoreEngine.TokenSetMember | Flashgen/flashgen_refactored_v3/processing/ScoreEngine.js:14 | the token set holds exactly the chunk's tokens |
| ScoreEngine.OverlapScore | Flashgen/flashgen_refactored_v3/processing/ScoreEngine.js:12-19 | the overlap lies in [0, 1], and is 0 for empty content or chunk or when either has no word |
| ScoreEngine.OverlapFull | Flashgen/flashgen_refactored_v3/processing/ScoreEngine.js:17-18 | content whose every word occurs in the chunk scores 1 |
| ScoreEngine.OverlapNone | Flashgen/flashgen_refactored_v3/processing/ScoreEngine.js:17-18 | content none of whose words occurs in the chunk scores 0 |
| ScoreEngine.LengthScore | Flashgen/flashgen_refactored_v3/processing/ScoreEngine.js:20-26 | the score lies in [0, 1]: 0 for no answer, 1 from 80 to 400 characters, at most a half below 80, and 0 from 500 on |
| ScoreEngine.LengthScoreRises | Flashgen/flashgen_refactored_v3/processing/ScoreEngine.js:21-25 | up to 400 characters a longer answer never scores less |
| ScoreEngine.LengthScoreFalls | Flashgen/flashgen_refactored_v3/processing/ScoreEngine.js:24-25 | from 80 characters on a longer answer never scores more |
| ScoreEngine.FormatScore | Flashgen/flashgen_refactored_v3/processing/ScoreEngine.js:27-35 | the score lies in [0, 1]; it is 0 exactly when the content is empty or shows none of the three labels and no list item; both the question and the answer labels give at least 0.8 |
| ScoreEngine.ScoreVariant | Flashgen/flashgen_refactored_v3/processing/ScoreEngine.js:36-41 | with non-negative weights, absent ones taking 0.5, 0.2 and 0.3, the score lies between 0 and the sum of the weights |
| ScoreEngine.Combine | Flashgen/flashgen_refactored_v3/processing/ScoreEngine.js:37-40 | the weighted sum of three unit scores lies between 0 and the sum of non-negative weights |
| ScoreEngine.DefaultScoreUnit | Flashgen/flashgen_refactored_v3/processing/ScoreEngine.js:36-41 | with the default weights a variant's score lies in [0, 1] |
| DifficultyEngine.ParseMethod | Flashgen/flashgen_refactored_v3/processing/DifficultyEngine.js:14-30 | sentence complexity and entity density are chosen exactly by their names; anything else counts words |
| DifficultyEngine.Split3 | Flashgen/flashgen_refactored_v3/processing/DifficultyEngine.js:16 | splitting at end marks gives at least one piece and no piece holds an end mark |
| DifficultyEngine.Estimate | Flashgen/flashgen_refactored_v3/processing/DifficultyEngine.js:12-31 | sentence complexity is a non-zero multiple of 10; entity density is a multiple of 15, zero exactly without entities; the word count is zero exactly for a blank answer |
| DifficultyEngine.WordCountEstimate | Flashgen/flashgen_refactored_v3/processing/DifficultyEngine.js:25-29 | the word count is the number of places in the answer where a word begins |
| DifficultyEngine.Insert | Flashgen/flashgen_refactored_v3/processing/DifficultyEngine.js:36 | inserting into a sorted list keeps it sorted and adds exactly the card |
| DifficultyEngine.SortByDifficulty | Flashgen/flashgen_refactored_v3/processing/DifficultyEngine.js:35-36 | the result is ordered by the estimate and is a permutation of the cards |
| DifficultyEngine.Pick | Flashgen/flashgen_refactored_v3/processing/DifficultyEngine.js:41 | a prefix of the array, of the requested length capped at the array's, and empty for a count below 1 |
| DifficultyEngine.Tercile | Flashgen/flashgen_refactored_v3/processing/DifficultyEngine.js:37 | at least 1, and for three or more cards the third rounded down |
| DifficultyEngine.Apply | Flashgen/flashgen_refactored_v3/processing/DifficultyEngine.js:32-33 | without a configuration or without cards the cards are unchanged |
| DifficultyEngine.SelectionSlices | Flashgen/flashgen_refactored_v3/processing/DifficultyEngine.js:37-46 | the selection is the start of each of the three consecutive thirds of the sorted list, each no longer than the count configured for it |
| DifficultyEngine.SlicesMultiset | Flashgen/flashgen_refactored_v3/processing/DifficultyEngine.js:42-46 | three ordered slices of a list hold no card more often than the list |
| DifficultyEngine.SlicesSorted | Flashgen/flashgen_refactored_v3/processing/DifficultyEngine.js:42-46 | three ordered slices of a sorted list, joined, stay sorted |
| DifficultyEngine.ApplySubset | Flashgen/flashgen_refactored_v3/processing/DifficultyEngine.js:32-55 | the balanced list holds only input cards, none more often than in the input, is empty only when the input is, and is ordered by the estimate unless nothing was selected |
| StateManager.DefaultsValid | Flashgen/flashgen_refactored_v3/core/state_manager.js:11-19 | the seven default keys are distinct and are exactly the keys of the default state |
| StateManager.Initial | Flashgen/flashgen_refactored_v3/core/state_manager.js:9-26 | the manager starts with the default keys and no observers |
| StateManager.GetAll | Flashgen/flashgen_refactored_v3/core/state_manager.js:97-99 | the copy lists every key of the state in order, each with the value `get` reads |
| StateManager.GetAllAgrees | Flashgen/flashgen_refactored_v3/core/state_manager.js:97-99 | a key is in the copy exactly when it is in the state, with the same value |
| StateManager.NotifyAll | Flashgen/flashgen_refactored_v3/core/state_manager.js:84-90 | every observer is called once, in order, with the new and the old value, and the failed calls are exactly those that threw |
| StateManager.NotifyIgnoresThrows | Flashgen/flashgen_refactored_v3/core/state_manager.js:81-92 | which observers run does not depend on which of them throw |
| StateManager.Store | Flashgen/flashgen_refactored_v3/core/state_manager.js:38-40 | the key reads the value afterwards, every other key is unchanged, and a new key is appended to the key order |
| StateManager.Set | Flashgen/flashgen_refactored_v3/core/state_manager.js:38-48 | the value is stored; observers are called exactly when the old value is not identical to the new one |
| StateManager.GetAfterSet | Flashgen/flashgen_refactored_v3/core/state_manager.js:31-48 | `get` after `set` gives the value set, and no other key moves |
| StateManager.SetNotifiesEachObserver | Flashgen/flashgen_refactored_v3/core/state_manager.js:43-45 | a change reaches every observer of the key, in subscription order, with the new and the old value |
| StateManager.Update | Flashgen/flashgen_refactored_v3/core/state_manager.js:53-57 | keys not updated keep their values and the observers are unchanged |
| StateManager.UpdateLastWins | Flashgen/flashgen_refactored_v3/core/state_manager.js:53-57 | the last entry for a key is the value it ends with |
| StateManager.Add | Flashgen/flashgen_refactored_v3/core/state_manager.js:67 | adding to an observer set adds exactly the callback, at the end when it is new, and keeps the set free of repetitions |
| StateManager.Remove | Flashgen/flashgen_refactored_v3/core/state_manager.js:73 | removing from an observer set removes exactly the callback |
| StateManager.RemoveAdded | Flashgen/flashgen_refactored_v3/core/state_manager.js:67-73 | removing a callback just added gives back the original set |
| StateManager.Subscribe | Flashgen/flashgen_refactored_v3/core/state_manager.js:62-68 | the key's observers gain exactly the callback; the state and other keys' observers are unchanged |
| StateManager.Unsubscribe | Flashgen/flashgen_refactored_v3/core/state_manager.js:70-75 | the key's observers lose exactly the callback; the state and other keys' observers are unchanged |
| StateManager.SubscribeRoundTrip | Flashgen/flashgen_refactored_v3/core/state_manager.js:62-76 | subscribing a new callback and unsubscribing it leaves every key's observers as they were |
| StateManager.FreshRef | Flashgen/flashgen_refactored_v3/core/state_manager.js:107-115 | the new arrays of a reset differ from every object the state held |
| StateManager.ResetCalls | Flashgen/flashgen_refactored_v3/core/state_manager.js:118-122 | every notification is for an old key whose value changed, with the old and new values, to one of that key's observers |
| StateManager.ResetCallsComplete | Flashgen/flashgen_refactored_v3/core/state_manager.js:118-122 | every observer of every changed key in the list is notified |
| StateManager.Reset | Flashgen/flashgen_refactored_v3/core/state_manager.js:104-125 | the state becomes the defaults in the default key order, observers are kept, and every notification reports a real change of an old key |
| StateManager.ResetNotifiesChanged | Flashgen/flashgen_refactored_v3/core/state_manager.js:104-125 | every observer of every old key that changed is called |
| StateManager.ResetRenewsArrays | Flashgen/flashgen_refactored_v3/core/state_manager.js:107-122 | the arrays are new objects, so their observers are always notified |
| StateManager.ResetOfDefaults | Flashgen/flashgen_refactored_v3/core/state_manager.js:104-125 | a reset of a state still holding default values notifies only the arrays' observers |
| ChainHandlers.Bucket | Flashgen/flashgen_refactored_v3/chain/chain_handlers.js:152-176 | a bucket is never longer than the lines it is drawn from |
| ChainHandlers.BucketMembers | Flashgen/flashgen_refactored_v3/chain/chain_handlers.js:152-176 | a bucket holds exactly the lines of its kind |
| ChainHandlers.BucketsPartition | Flashgen/flashgen_refactored_v3/chain/chain_handlers.js:78-111 | the four buckets of any line classification together hold every line exactly once |
| ChainHandlers.BucketSizes | Flashgen/flashgen_refactored_v3/chain/chain_handlers.js:76-111 | the four bucket sizes add up to the number of lines |
| ChainHandlers.Percent | Flashgen/flashgen_refactored_v3/chain/chain_handlers.js:120 | the percentage lies in [0, 100] and is the nearest integer to the exact ratio, halves rounded up |
| ChainHandlers.Classify | Flashgen/flashgen_refactored_v3/chain/chain_handlers.js:113-140 | a single type is chosen exactly when the largest count is more than 70% of the lines; HTML wins ties, then CSS, then JavaScript; the confidence is the rounded share of the largest count |
| ChainHandlers.AnalyzeBy | Flashgen/flashgen_refactored_v3/chain/chain_handlers.js:74-141 | the counts are the bucket sizes, they never exceed the line count, the confidence lies in [0, 100], and the type is not mixed exactly above 70% |
| ChainHandlers.AnalyzeContentType | Flashgen/flashgen_refactored_v3/chain/chain_handlers.js:74-141 | the text is split at every newline into at least one line, and the counts are the sizes of the HTML, CSS and JavaScript buckets |
| ChainHandlers.AllTagsIsHtml | Flashgen/flashgen_refactored_v3/chain/chain_handlers.js:113-124 | lines that all count as HTML are HTML with full confidence |
| ChainHandlers.PercentWhole | Flashgen/flashgen_refactored_v3/chain/chain_handlers.js:120 | the whole is 100% |
| ChainHandlers.SeparateContentByType | Flashgen/flashgen_refactored_v3/chain/chain_handlers.js:143-185 | the lines of the text are partitioned among the four buckets (each line, as often as it occurs, in exactly one); each field is its bucket's lines joined with newlines and splits back into them, and an empty bucket gives an empty field |
| ChainHandlers.SeparationMembers | Flashgen/flashgen_refactored_v3/chain/chain_handlers.js:152-176 | a line is in the bucket of a kind exactly when it is a line of the text classified as that kind |
| ChainHandlers.Kept | Flashgen/flashgen_refactored_v3/chain/chain_handlers.js:296-298 | the kept issues are exactly the issues without a removal verdict, each as often as in the input, in their original order |
| ChainHandlers.KeptAndRemoved | Flashgen/flashgen_refactored_v3/chain/chain_handlers.js:223-299 | kept plus removed issues make up the input, and the removals by reason add up to the removals |
| ChainHandlers.FilterIssuesBy | Flashgen/flashgen_refactored_v3/chain/chain_handlers.js:205-310 | kept issues stay in order; removed plus remaining equals the original count; the per-reason counters add up to the removals, and the CSS counter is never used |
| ChainHandlers.FilterQualityIssuesByContent | Flashgen/flashgen_refactored_v3/chain/chain_handlers.js:205-310 | the kept issues are those no rule removes, in order, and removed plus remaining equals the original count |
| ChainHandlers.GlobalTagAlwaysRemoved | Flashgen/flashgen_refactored_v3/chain/chain_handlers.js:232-240 | a global-variable issue whose code starts with `<` is removed whatever the content type |
| ChainHandlers.TagCodeRemovedOutsideHtml | Flashgen/flashgen_refactored_v3/chain/chain_handlers.js:243-249 | outside HTML content every issue whose code starts with `<` is removed, as a global-variable false positive or as an HTML tag |
| ChainHandlers.PlainIssueKeptInHtml | Flashgen/flashgen_refactored_v3/chain/chain_handlers.js:229-298 | in HTML content an issue with no code and an ordinary category survives every rule |
| ChainHandlers.TypeRule | Flashgen/flashgen_refactored_v3/chain/chain_handlers.js:324-370 | JavaScript gives +10, or -10 when the card looks like markup; HTML and CSS give -15, or -5 when the card is about them; mixed gives -10; any other type gives 0 |
| ChainHandlers.ConfidenceRule | Flashgen/flashgen_refactored_v3/chain/chain_handlers.js:372-379 | confidence below 70 costs 5, above 90 earns 5, and otherwise or when missing nothing changes |
| ChainHandlers.ApplyContentTypeRules | Flashgen/flashgen_refactored_v3/chain/chain_handlers.js:312-387 | without an analysis the adjustment is 0 with one explanatory detail; otherwise it is the type rule plus the confidence rule, always between -20 and 15 |
| ChainHandlers.ConfidenceMonotone | Flashgen/flashgen_refactored_v3/chain/chain_handlers.js:372-379 | a more confident analysis never lowers the adjustment |
| ChainHandlers.TemplateScore | Flashgen/flashgen_refactored_v3/chain/chain_handlers.js:547-563 | a language template scores 10 with a translation label and -10 without; otherwise a book template scores 10 exactly when the question names the book or chapter, and -15 otherwise; any other template scores 0 |
| ChainHandlers.AverageQuality | Flashgen/flashgen_refactored_v3/chain/chain_handlers.js:540-542 | the mean of the three scores, within [0, 100] when they are |
| ChainHandlers.HeuristicScore | Flashgen/flashgen_refactored_v3/chain/chain_handlers.js:565 | the score is clamped to [0, 100] and equals the plain sum whenever that already lies there |
| ChainHandlers.HeuristicScoreMonotone | Flashgen/flashgen_refactored_v3/chain/chain_handlers.js:565 | a better base quality never scores lower |
| ChainHandlers.DefaultRefinement | Flashgen/flashgen_refactored_v3/chain/chain_handlers.js:565-572 | without a threshold a card is refined exactly when it scores below 70, and never when the sum reaches 100 |
| Processing.DropJsonTags | Flashgen/flashgen_refactored_v3/processing/processing.js:25 | dropping the `json` tags never lengthens the reply |
| Processing.LeadingTicks | Flashgen/flashgen_refactored_v3/processing/processing.js:26 | the count is exactly the run of backticks the text starts with |
| Processing.RemoveFences | Flashgen/flashgen_refactored_v3/processing/processing.js:26 | after removing every fence no fence is left, and a leading run of fewer than three backticks is untouched |
| Processing.RemoveFencesKeepsText | Flashgen/flashgen_refactored_v3/processing/processing.js:26 | removing every triple-backtick fence leaves all non-backtick characters, in order |
| Processing.CleanJsonResponse | Flashgen/flashgen_refactored_v3/processing/processing.js:23-28 | the cleaned reply holds no code fence and neither starts nor ends with white space; it is a slice of the fence-free text, cut only at white space, and removing the fences loses no character other than backticks |
| Processing.CleanWithoutFences | Flashgen/flashgen_refactored_v3/processing/processing.js:23-28 | a reply without backticks is only trimmed |
| Processing.Tokenize | Flashgen/flashgen_refactored_v3/processing/processing.js:38-43 | every token is non-empty and made of lower-case token characters |
| Processing.FlattenSplitRuns | Flashgen/flashgen_refactored_v3/processing/processing.js:41 | the pieces of a split at separator runs concatenate to the kept characters |
| Processing.TokensCoverText | Flashgen/flashgen_refactored_v3/processing/processing.js:38-43 | the tokens, concatenated, are exactly the token characters of the lower-cased text |
| Processing.Overlap | Flashgen/flashgen_refactored_v3/processing/processing.js:49 | the overlap never exceeds the number of answer tokens; it is all of them when every token is known and 0 when none is |
| Processing.ValidateSourceFidelity | Flashgen/flashgen_refactored_v3/processing/processing.js:44-58 | a missing or empty answer or source passes; a rejection is marked with status and reason and happens exactly when the answer and source have tokens and fewer than 40% of the answer's tokens occur in the source |
| Processing.FidelityExtremes | Flashgen/flashgen_refactored_v3/processing/processing.js:44-58 | an answer whose every token is in the source passes; one with tokens none of which is in a source with tokens is rejected |
| Processing.SelfIsFaithful | Flashgen/flashgen_refactored_v3/processing/processing.js:44-58 | a text checked against itself always passes |
| Processing.ChunkOther | Flashgen/flashgen_refactored_v3/processing/processing.js:101-126 | `fixed` cuts windows stepping by the overlap-adjusted step, `wordlist` gives the trimmed non-empty lines, `headers` gives the non-blank pieces of the look-ahead split at heading lines, in order, `none` gives the JSON chunks or the whole text, and any other method gives the whole text |
| Processing.HeaderGroups | Flashgen/flashgen_refactored_v3/processing/processing.js:103 | the positions of the text are cut into non-empty consecutive runs; a run starts exactly where a `#`-heading or all-caps line begins after a line terminator, and nowhere else |
| Processing.HeaderSplitPieces | Flashgen/flashgen_refactored_v3/processing/processing.js:103 | the pieces of the `headers` split concatenate back to the text; each piece after the first begins at a heading line and no other position inside a piece starts one |
| Processing.ChunkSimple | Flashgen/flashgen_refactored_v3/processing/processing.js:89-128 | the `sentence` and `paragraph` cases throw a `TypeError`, and every other method chunks as above |
| Processing.SentenceChunkingThrows | Flashgen/flashgen_refactored_v3/processing/processing.js:91-95 | asking for sentence chunks of any text throws |
| Processing.ChunkSimpleFixed | Flashgen/flashgen_refactored_v3/processing/processing.js:89-128 | the `sentence` and `paragraph` cases give the chunk strategies' sentence and paragraph chunks; every other method agrees with the code as written |
| Processing.FixedChunksBounded | Flashgen/flashgen_refactored_v3/processing/processing.js:116-124 | the `fixed` windows are at most `size` long, window k is the text cut from k steps on, and there are just enough windows to reach the end |
| Processing.FixedChunksTile | Flashgen/flashgen_refactored_v3/processing/processing.js:116-124 | without overlap the `fixed` chunks of a positive size concatenate back to the text |
| ContextEngine.Window | Flashgen/flashgen_refactored_v3/processing/ContextEngine.js:9 | a missing or zero window means 2; any other value is used as given |
| ContextEngine.AllPeople | Flashgen/flashgen_refactored_v3/processing/ContextEngine.js:20-23 | a name is gathered exactly when some chunk of the window lists it among its people |
| ContextEngine.JoinOr | Flashgen/flashgen_refactored_v3/processing/ContextEngine.js:32-34 | the joined parts, or the fallback when there is nothing to join |
| ContextEngine.SummarizeContext | Flashgen/flashgen_refactored_v3/processing/ContextEngine.js:8-36 | characters and events switched off with `false` give their `N/A`/`Contexto no disponible` fallbacks, and themes give `N/A` unless switched on with `true` |
| ContextEngine.SummaryPeople | Flashgen/flashgen_refactored_v3/processing/ContextEngine.js:16-22 | with characters on, the people line joins a duplicate-free list holding exactly the people named by the window's chunks |
| ContextEngine.SummaryEvents | Flashgen/flashgen_refactored_v3/processing/ContextEngine.js:24-26 | with events on, the events line joins, with a spaced bar, the events of exactly the window's chunks that have one, in order |
| ContextEngine.SummaryThemes | Flashgen/flashgen_refactored_v3/processing/ContextEngine.js:27-29 | with themes on, the themes line joins the themes of exactly the window's chunks that have one, in order |
| ContextEngine.ContextWindowExact | Flashgen/flashgen_refactored_v3/processing/ContextEngine.js:13-14 | the chunks summarised are exactly those at positions from `max(0, index - window)` up to `index`, excluded |
| ContextEngine.PeopleDeduplicated | Flashgen/flashgen_refactored_v3/processing/ContextEngine.js:16-22 | the people listed are the people of the window, each once |
| ContextEngine.FirstChunkHasNoContext | Flashgen/flashgen_refactored_v3/processing/ContextEngine.js:31-35 | the first chunk gets `N/A`, `Contexto no disponible` and `N/A` |
| ContextEngine.ThemesNeedOptIn | Flashgen/flashgen_refactored_v3/processing/ContextEngine.js:12 | without `includeThemes` the themes are always `N/A` |
| ContextEngine.DefaultWindowIsTwo | Flashgen/flashgen_refactored_v3/processing/ContextEngine.js:9-14 | by default the window is the two chunks just before |
| Templates.Wrap | Flashgen/templates_module.js:777-785 | the result is the preamble when chain-of-thought is on, then the body, then the block when the negative prompt is on, and nothing else |
| Templates.Interpolate | Flashgen/templates_module.js:766-788 | the result is the substituted template without its placeholder lines, preceded by the chain-of-thought preamble and followed by the negative-prompt block exactly when those features are on |
| Templates.WrappedUnique | Flashgen/templates_module.js:777-785 | only one text is a given body so wrapped |
| Templates.PlaceholderLinesDropped | Flashgen/templates_module.js:772-775 | no line left is a lone placeholder, the lines kept stay in order, and every other line is kept |
| Templates.Substitute | Flashgen/templates_module.js:766-771 | with no variables, or in a template without braces, nothing is replaced |
| Templates.BraceFreeUnchanged | Flashgen/templates_module.js:770 | a brace-free text holds no placeholder, so replacing one leaves it as it is |
| Templates.NoPlaceholderLinesUnchanged | Flashgen/templates_module.js:772-775 | a text without lone-placeholder lines comes back unchanged |
| Templates.AbsentVariableIgnored | Flashgen/templates_module.js:768-771 | a variable whose placeholder does not occur changes nothing |
| Templates.MissingValueIsEmpty | Flashgen/templates_module.js:769 | a falsy value substitutes exactly as the empty string does |
| Templates.SingleVariableFilled | Flashgen/templates_module.js:768-771 | the only placeholder of a supplied variable in an otherwise brace-free template is replaced by its value |
| Templates.EveryOccurrenceFilled | Flashgen/templates_module.js:768-771 | the replace is global: a template of brace-free parts with a supplied variable's placeholder between them becomes the same parts with the value between them |
| Templates.FillingCanFormPlaceholder | Flashgen/templates_module.js:768-771 | filling can leave a placeholder behind: with the variable a missing, the template {a{a}} becomes {a} |
| Templates.ReplaceAtUnique | Flashgen/templates_module.js:770 | a global replace of a pattern occurring once replaces exactly that occurrence |
| Templates.ReplaceAfterPrefix | Flashgen/templates_module.js:770 | a global replace keeps a prefix without an opening brace, replaces the placeholder after it and goes on with the rest |
| Templates.ReplaceAtStart | Flashgen/templates_module.js:770 | a placeholder at the start of the text is replaced and the scan goes on after it |
| Templates.NoFeaturesNoWrapping | Flashgen/templates_module.js:766-788 | with both features off the result is the substituted template without its placeholder lines |
| ParserManager.Patterns | Flashgen/flashgen_refactored_v3/managers/parser_manager.js:47-48 | one marker per piece between bar characters, each trimmed, and the whole pattern trimmed when it has no bar |
| ParserManager.FirstMarkerFrom | Flashgen/flashgen_refactored_v3/managers/parser_manager.js:57 | a found start is a match at or after the starting point with none before it; nothing is found only when no match exists from there on |
| ParserManager.FirstHit | Flashgen/flashgen_refactored_v3/managers/parser_manager.js:53-62 | nothing is found exactly when no marker matches anywhere; otherwise it is the first marker, in the order given, that matches, at its leftmost match |
| ParserManager.SkipSpace | Flashgen/flashgen_refactored_v3/managers/parser_manager.js:56 | the index skips exactly the whitespace that follows |
| ParserManager.QuestionEnd | Flashgen/flashgen_refactored_v3/managers/parser_manager.js:56 | the lazy capture ends at the first place where an answer marker or the end follows |
| ParserManager.QuestionSpan | Flashgen/flashgen_refactored_v3/managers/parser_manager.js:56 | the question capture starts after the whitespace following its marker and ends at the first answer marker or the end past its first character |
| ParserManager.QuestionIsRegionTrimmed | Flashgen/flashgen_refactored_v3/managers/parser_manager.js:56-59 | the question is the text between its marker and that end, trimmed |
| ParserManager.AnswerStart | Flashgen/flashgen_refactored_v3/managers/parser_manager.js:66 | the answer capture starts after the whitespace following its marker, and before the end |
| ParserManager.AnswerIsRestTrimmed | Flashgen/flashgen_refactored_v3/managers/parser_manager.js:66-69 | the answer is the rest of the reply after its marker, trimmed |
| ParserManager.ParseQuestion | Flashgen/flashgen_refactored_v3/managers/parser_manager.js:50-62 | the question stays undefined exactly when no question marker matches; otherwise it comes from a matching marker |
| ParserManager.ParseAnswer | Flashgen/flashgen_refactored_v3/managers/parser_manager.js:64-74 | the answer stays undefined exactly when no answer marker matches; otherwise it is the trimmed rest after a matching marker |
| ParserManager.ParseFinds | Flashgen/flashgen_refactored_v3/managers/parser_manager.js:46-75 | the question stays undefined exactly when no question marker matches, the answer exactly when no answer marker matches, and a found answer is the trimmed rest of the reply after a matching answer marker |
| ParserManager.NoAnswerMarkerBefore | Flashgen/flashgen_refactored_v3/managers/parser_manager.js:56 | with no colon in the question, no answer marker matches before the one that follows it |
| ParserManager.SingleMarkers | Flashgen/flashgen_refactored_v3/managers/parser_manager.js:47-48 | `Q:` and `A:` are single markers |
| ParserManager.QuestionSpanEnd | Flashgen/flashgen_refactored_v3/managers/parser_manager.js:56 | the question capture runs to the `A:` that follows it |
| ParserManager.QuestionRoundTrip | Flashgen/flashgen_refactored_v3/managers/parser_manager.js:53-62 | the question of `Q:q A:a` is `q` trimmed |
| ParserManager.AnswerRoundTrip | Flashgen/flashgen_refactored_v3/managers/parser_manager.js:64-72 | the answer of `Q:q A:a` is `a` trimmed |
| ParserManager.ParseRoundTrip | Flashgen/flashgen_refactored_v3/managers/parser_manager.js:46-75 | a reply `Q:<question>A:<answer>` parses back to the trimmed question and answer when the question is not blank and has no colon and an answer follows |

## Left out

- spaCy itself: tokenisation, tagging, parsing and entity recognition are not modelled. A document is given already annotated (`Annotation.Doc`), and vector similarity is a function parameter.
- Character classes: `\s`, `\w`, `str.strip`, `toLowerCase` and the `i` flag of regular expressions are modelled on ASCII and Latin-1 letters, and `\d` (used by the chapter heading patterns of server.py) on the ASCII digits only, where Python also matches other Unicode digits. Unicode case folding and normalisation are not modelled.
- Regular expressions in general: each pattern the code uses is modelled as the literal or character-class scan it performs. A phrase escaped with `escapeRegExp` is matched literally, which is what the escaping is for.
- JavaScript `$` patterns in replacement strings: `String.prototype.replace` is modelled as inserting the value verbatim. This matters in `restoreTokens`, in `interpolate` and in the cloze replacements.
- Templates.Substitute: variable names are restricted to word characters (`Templates.IsPlainKey`), so that the pattern built from a name matches it literally.
- ProtectionRoundTrip.ProtectRestoreRoundTrip: the round trip is proved under stronger conditions than "no phrase occurs inside a token". The text must have no `_`, and no phrase may match inside any placeholder. `ProtectionRoundTrip.ProtectableByLetter` shows that many phrases qualify.
- Floating point: scores, rates, percentages and similarities are Dafny reals, computed exactly. Python's `round` and `:.2f` formatting are not modelled (the lines below name where they matter). In the modelled results JavaScript's `toFixed(2)` appears in the cache and retry statistics, where it is a function parameter (`PipelineCache.HitRate`, `RetryManager.SuccessRate`); its other uses format logs, UI text or prompts. NaN and infinities are not modelled.
- ChunkStrategies.Step: the overlap is computed exactly on integers. The code takes `Math.floor(size * (overlap / 100))` on doubles, so a size of 100 with an overlap of 29 gives a step of 72 there and 71 here.
- ChunkStrategies.OverlapFrom: the overlap bound is compared exactly on integers (100 times the carried length against chunk size times overlap). The code compares against the double `targetSize * (chunkOverlap / 100)`. With a size of 100 and an overlap of 7 that bound is 7.000000000000001, so after a group of an 80-character sentence, `Hi.` and `Yes.` the code carries both short sentences (length 7) and the model carries only `Yes.`.
- ServerSegmenters.BlockChunk: the block's average similarity is kept exact. The code reports `round(avg_sim, 3)` (Flashgen/server.py:274).
- Validator.ValidateCard: the reported coherence is kept exact, where the code reports `round(semantic_coherence, 3)` (Flashgen/server.py:819). The low-coherence message is the fixed text without the `({semantic_coherence:.2f})` suffix the code appends (Flashgen/server.py:805).
- ServerCloze.GenerateCloze: `variants_per_card` is the exact ratio, where the code rounds it to two decimals (Flashgen/server.py:951).
- String lengths: JavaScript counts `length`, `substring` and `slice` in UTF-16 code units, and the model counts characters. The two differ only on characters outside the Basic Multilingual Plane. This concerns the members below.
- ChunkStrategies.Substring: positions and window sizes are in characters, so ChunkStrategies.WindowsFrom and the `fixed` chunks of processing.js cut at character positions, not UTF-16 units.
- StepHandlers.SourcePrefix: the 200-character prefix counts characters, not UTF-16 units.
- ClozeEngine.CardOutputs: the `answer.length < 10` test counts characters, not UTF-16 units.
- ScoreEngine.LengthScore: the answer length counts characters, not UTF-16 units.
- ChunkStrategies.SplitSentences: this is the regular-expression fallback. When the compromise library is loaded, the code takes its `nlp(text).sentences()` instead (Flashgen/flashgen_refactored_v3/processing/chunk_strategies.js:184-190), which is not modelled.
- Integer widths: JavaScript numbers and Python integers are unbounded integers here.
- Clocks (`Date.now`, `time.time`), `Math.random`, timers and `await`/`setTimeout` are parameters or left out. The sleep between retries is recorded as a delay, not waited for.
- Timeouts and async execution: `executeStepWithTimeout`, `executeParallel`, `ChainNode.execute`'s timeout and `Promise.race` are not modelled.
- Language-model calls, including the LLM mode of `evaluateQuality`: a reply is a parameter of the model.
- JSON parsing: `JSON.parse` and Flask's request parsing are parameters. The model starts from the parsed value or from "not JSON".
- Logging (`DebugLogger`, `print`, `console`): it has no effect on results.
- The DOM and the UI: the Blob download in `exporter.js` and the DOM updates around processing are not modelled. `buildContent` is modelled, the download is not.
- The `process_text` exception path ("Error al procesar texto"): no modelled strategy raises.
- The `headers`, `scene`, `topic`, `nlp`, `tfidf` and `langchain` chunkers of chunk_strategies.js: they depend on compromise, TF-IDF vectors or a model call. The `headers` method of processing.js `chunkSimple` is a different split and is modelled (`Processing.HeaderSplit`).
- processing.js `generate`, `parseSchemaJson`, `handleGenerationCancel`, `chunk` and `chunkWithSpacy`: these are the network and UI paths.
- `hashString` and `generateKey` in PipelineCache.js: the cache is keyed by the key string itself.
- The cache entry listing in `getStats`: it reports key prefixes and ages, which are display only.
- The boolean result of `delete`.
- EntityUtils `extract`: it calls the compromise library.
- TrueLangChain `visualize`: its text follows map iteration order.
- `PipelineRetryManager.executeStep` handler dispatch: the handlers are the steps' own code.
- ChainHandlers: the `contentTypeAnalysis` and `qualityFilter` wrappers are only plumbing, and `_filterQualityIssues` is a placeholder that returns its input.
- Config-only step handlers, which just return their options.
- Echoed request fields and the `...metadata` spread: copied values are kept only where a property speaks about them.
- Observer re-entrancy in `state_manager.js`: an observer that calls `set` is not modelled. Whether an observer throws is a parameter.
- Clauses.Below: the dependency-subtree walk carries a fuel bound. It is set to the number of tokens, which is more than the depth of any parse tree. Only on a malformed document whose heads form a cycle does the walk stop early, where the Python recursion would not end.

## Findings

| source | as written | input that shows it | evidently intended | confidence | as-written member | corrected member |
|---|---|---|---|---|---|---|
| Flashgen/flashgen_refactored_v3/pipeline/PipelineRetryManager.js:77 | the delay is computed from the manager's own configuration, so a step's `retryDelay` passed through `customConfig` is never used | a step with `retryDelay` 200 whose first attempt fails with a retryable error sleeps 1000 ms | the delay follows the merged configuration, so the step's delay is the first sleep | not executed | RetryManager.StepDelayIgnored | RetryManager.StepDelayHonoured |
| Flashgen/flashgen_refactored_v3/pipeline/PipelineCache.js:100-115 | `evictLRU` starts its bound at the current time with a strict comparison, so an entry last used in the current millisecond is never evicted | 100 entries all used at time `now`, then `set` of a new key at `now` leaves 101 entries | the least recently used entry is evicted whatever its age, so the cache never exceeds its maximum size | not executed | PipelineCache.SetOverfills | PipelineCache.SetFixedBounded |
| Flashgen/flashgen_refactored_v3/pipeline/pipeline_step_handlers.js:559-563 | the first whole number found is then replaced at its first occurrence as plain text, which can fall inside an earlier word | answer "x12 12" becomes "x{{c1::12}} 12" | the whole number that was matched is the one wrapped | not executed | StepHandlers.NumberWrappedInsideWord | StepHandlers.FixedWrapsWholeNumber |
| Flashgen/flashgen_refactored_v3/processing/processing.js:91-100 | the `sentence` and `paragraph` cases call `this.sentence` and `this.paragraph`, which the object does not define | `chunkSimple(text, 'sentence', 500)` for any text throws a TypeError | the cases delegate to the sentence and paragraph chunkers with the given size and overlap | not executed | Processing.SentenceChunkingThrows | Processing.ChunkSimpleFixed |
