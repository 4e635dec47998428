/** The strategies of Flashgen/server.py that read the syntax of the
    document: `vocab_extract`, `clause_segment` and `verb_phrase_segment`. */
module ServerSyntax {
  import opened Wrappers
  import opened Seqs
  import opened Strings
  import opened Sorting
  import opened Annotation
  import opened Clauses
  import opened Assoc
  import opened ServerSegmenters

  // ---------------------------------------------------------------------
  // vocab_extract: noun phrases
  // ---------------------------------------------------------------------

  /** The key of a noun chunk: its text lower-cased and stripped. */
  function VocabTerm(doc: Doc, nc: Span): string
  {
    Trim(ToLower(SpanText(doc, nc.start, nc.end)))
  }

  /** Only terms of two or more words are collected. */
  predicate MultiWord(term: string)
  {
    |Words(term)| >= 2
  }

  /** The noun chunks the loop collects, in document order. */
  function TermChunks(doc: Doc): seq<Span>
  {
    Filter(doc.nounChunks, (nc: Span) => MultiWord(VocabTerm(doc, nc)))
  }

  /** `vocab_terms`: for each key, the stripped sentences of its noun chunks. */
  function VocabTerms(doc: Doc): (r: seq<Entry<string>>)
    ensures WellFormed(r)
  {
    CollectAll(TermChunks(doc), (nc: Span) => VocabTerm(doc, nc), (nc: Span) => EnclosingSentText(doc, nc.start), [])
  }

  /** The contexts of `term`, in document order: the sentence of every noun
      chunk of two or more words whose key is `term`. */
  function ContextsOf(doc: Doc, term: string): seq<string>
  {
    ValuesWithKey(TermChunks(doc), (nc: Span) => VocabTerm(doc, nc), (nc: Span) => EnclosingSentText(doc, nc.start), term)
  }

  /** `vocab_terms[term]` holds exactly the contexts of `term`. */
  lemma VocabTermsContexts(doc: Doc, term: string)
    ensures Lookup(VocabTerms(doc), term) == ContextsOf(doc, term)
  {
    CollectAllLookup(TermChunks(doc), (nc: Span) => VocabTerm(doc, nc), (nc: Span) => EnclosingSentText(doc, nc.start), [], term);
  }

  function NounTermChunk(e: Entry<string>): Chunk
  {
    var n := |e.values|;
    Chunk(if n > 0 then e.values[0] else "", NounTermMeta(e.key, n, e.values[..if n < 3 then n else 3]))
  }

  /** The noun-phrase chunks: the entries seen `minFreq` times or more, in
      insertion order, each with its first context as text and its first
      three contexts as examples. */
  function NounTermChunks(d: seq<Entry<string>>, minFreq: int): (r: seq<Chunk>)
    requires WellFormed(d)
    ensures forall k :: 0 <= k < |r| ==>
      && r[k].meta.NounTermMeta?
      && r[k].meta.frequency >= minFreq && r[k].meta.frequency >= 1
      && 1 <= |r[k].meta.examples| <= 3
      && r[k].text == r[k].meta.examples[0]
  {
    var kept := Filter(d, (e: Entry<string>) => |e.values| >= minFreq);
    assert forall k :: 0 <= k < |kept| ==> kept[k] in d && |kept[k].values| >= 1 by {
      forall k | 0 <= k < |kept|
        ensures kept[k] in d && |kept[k].values| >= 1
      {
        assert kept[k] in kept;
        var i :| 0 <= i < |d| && d[i] == kept[k];
      }
    }
    Map(kept, NounTermChunk)
  }

  /** A key has a noun-phrase chunk exactly when its list has at least one
      and at least `minFreq` entries, and the chunk's frequency is the
      length of that list. */
  lemma FrequentChunkFor(d: seq<Entry<string>>, minFreq: int, term: string)
    requires WellFormed(d)
    ensures var r := NounTermChunks(d, minFreq);
      var n := |Lookup(d, term)|;
      && ((exists k :: 0 <= k < |r| && r[k].meta.term == term) <==> n >= 1 && n >= minFreq)
      && forall k :: 0 <= k < |r| && r[k].meta.term == term ==> r[k].meta.frequency == n
  {
    var kept := Filter(d, (e: Entry<string>) => |e.values| >= minFreq);
    var r := NounTermChunks(d, minFreq);
    assert r == Map(kept, NounTermChunk);
    var n := |Lookup(d, term)|;
    LookupKeys(d, term);
    forall k | 0 <= k < |r| && r[k].meta.term == term
      ensures r[k].meta.frequency == n
    {
      assert kept[k] in kept;
      var i :| 0 <= i < |d| && d[i] == kept[k];
    }
    if n >= 1 && n >= minFreq {
      assert term in Keys(d);
      var i :| 0 <= i < |d| && Keys(d)[i] == term;
      assert d[i] in kept;
      var k :| 0 <= k < |kept| && kept[k] == d[i];
      assert r[k].meta.term == term;
    }
  }

  /** A term of the document has a noun-phrase chunk exactly when it has at
      least one and at least `minFreq` contexts, and that chunk's frequency
      is the number of its contexts. */
  lemma NounVocabChunkFor(doc: Doc, minFreq: int, term: string)
    ensures var r := NounTermChunks(VocabTerms(doc), minFreq);
      var n := |ContextsOf(doc, term)|;
      && ((exists k :: 0 <= k < |r| && r[k].meta.term == term) <==> n >= 1 && n >= minFreq)
      && forall k :: 0 <= k < |r| && r[k].meta.term == term ==> r[k].meta.frequency == n
  {
    VocabTermsContexts(doc, term);
    FrequentChunkFor(VocabTerms(doc), minFreq, term);
  }

  // ---------------------------------------------------------------------
  // vocab_extract: verbs
  // ---------------------------------------------------------------------

  /** A verb worth a vocabulary card: a `VERB`, not a stop word, of more
      than four characters. */
  predicate ImportantVerb(doc: Doc, t: nat)
  {
    t < |doc.tokens| && doc.tokens[t].pos == "VERB" && !doc.tokens[t].isStop
    && |doc.tokens[t].text| > 4
  }

  function TokenLemma(doc: Doc, t: nat): string
  {
    if t < |doc.tokens| then doc.tokens[t].lemmaText else ""
  }

  /** `important_verbs`, in document order. */
  function ImportantVerbs(doc: Doc): seq<nat>
  {
    Filter(Range(0, |doc.tokens|), (t: nat) => ImportantVerb(doc, t))
  }

  /** `verb_chunks`: for each lemma, the sentence of its first important verb. */
  function VerbSentences(doc: Doc): (r: seq<Entry<string>>)
    ensures Distinct(Keys(r))
  {
    CollectFirst(ImportantVerbs(doc), (t: nat) => TokenLemma(doc, t), (t: nat) => EnclosingSentText(doc, t), [])
  }

  /** The sentence kept for a lemma is the sentence of the first important
      verb with that lemma; a lemma without important verbs has no entry. */
  lemma VerbSentenceIsFirst(doc: Doc, l: string)
    ensures Lookup(VerbSentences(doc), l) ==
      match FirstWithKey(ImportantVerbs(doc), (t: nat) => TokenLemma(doc, t), l)
      case None => []
      case Some(t) => [EnclosingSentText(doc, t)]
  {
    CollectFirstLookup(ImportantVerbs(doc), (t: nat) => TokenLemma(doc, t), (t: nat) => EnclosingSentText(doc, t), [], l);
  }

  const MaxVerbTerms: nat := 20

  function VerbTermChunk(e: Entry<string>): Chunk
  {
    Chunk(if |e.values| > 0 then e.values[0] else "", VerbTermMeta(e.key))
  }

  /** The first twenty entries of `verb_chunks`, one chunk each. */
  function VerbTermChunks(d: seq<Entry<string>>): (r: seq<Chunk>)
    ensures |r| <= MaxVerbTerms && |r| <= |d|
    ensures forall k :: 0 <= k < |r| ==> r[k].meta == VerbTermMeta(d[k].key)
  {
    Map(if |d| <= MaxVerbTerms then d else d[..MaxVerbTerms], VerbTermChunk)
  }

  /** The verb chunks carry distinct lemmas. */
  lemma VerbTermsDistinct(doc: Doc)
    ensures var r := VerbTermChunks(VerbSentences(doc));
      forall a, b :: 0 <= a < b < |r| ==> r[a].meta.term != r[b].meta.term
  {
    var d := VerbSentences(doc);
    var r := VerbTermChunks(d);
    forall a, b | 0 <= a < b < |r|
      ensures r[a].meta.term != r[b].meta.term
    {
      assert Keys(d)[a] != Keys(d)[b];
    }
  }

  predicate IsVerbTerm(c: Chunk)
  {
    c.meta.VerbTermMeta?
  }

  /** A vocabulary chunk: a noun phrase at least `minFreq` times frequent, or a verb. */
  predicate VocabShaped(c: Chunk, minFreq: int)
  {
    (c.meta.NounTermMeta? && c.meta.frequency >= minFreq) || c.meta.VerbTermMeta?
  }

  /** The noun-phrase chunks of `nounTerms`, then the verb chunks of `verbSents`. */
  function VocabChunks(nounTerms: seq<Entry<string>>, verbSents: seq<Entry<string>>, minFreq: int): (r: seq<Chunk>)
    requires WellFormed(nounTerms)
    ensures forall k :: 0 <= k < |r| ==> VocabShaped(r[k], minFreq)
  {
    var nouns := NounTermChunks(nounTerms, minFreq);
    var verbs := VerbTermChunks(verbSents);
    assert forall k :: 0 <= k < |nouns| ==> VocabShaped(nouns[k], minFreq);
    assert forall k :: 0 <= k < |verbs| ==> VocabShaped(verbs[k], minFreq);
    VocabShapedAppend(nouns, verbs, minFreq);
    nouns + verbs
  }

  lemma VocabShapedAppend(a: seq<Chunk>, b: seq<Chunk>, minFreq: int)
    requires forall k :: 0 <= k < |a| ==> VocabShaped(a[k], minFreq)
    requires forall k :: 0 <= k < |b| ==> VocabShaped(b[k], minFreq)
    ensures forall k :: 0 <= k < |a + b| ==> VocabShaped((a + b)[k], minFreq)
  {
    forall k | 0 <= k < |a + b|
      ensures VocabShaped((a + b)[k], minFreq)
    {
      if k >= |a| {
        assert (a + b)[k] == b[k - |a|];
      }
    }
  }

  /** At most twenty of the vocabulary chunks are verbs. */
  lemma VocabVerbLimit(nounTerms: seq<Entry<string>>, verbSents: seq<Entry<string>>, minFreq: int)
    requires WellFormed(nounTerms)
    ensures |Filter(VocabChunks(nounTerms, verbSents, minFreq), IsVerbTerm)| <= MaxVerbTerms
  {
    var nouns := NounTermChunks(nounTerms, minFreq);
    var verbs := VerbTermChunks(verbSents);
    assert VocabChunks(nounTerms, verbSents, minFreq) == nouns + verbs;
    FilterAppend(nouns, verbs, IsVerbTerm);
    FilterNoneKept(nouns, IsVerbTerm);
  }

  /** `segment_vocab_extract(doc, min_freq)`: the frequent noun phrases,
      then at most twenty verbs. */
  function SegmentVocabExtract(doc: Doc, minFreq: int): (r: seq<Chunk>)
    ensures forall k :: 0 <= k < |r| ==> VocabShaped(r[k], minFreq)
    ensures |Filter(r, IsVerbTerm)| <= MaxVerbTerms
  {
    VocabVerbLimit(VocabTerms(doc), VerbSentences(doc), minFreq);
    VocabChunks(VocabTerms(doc), VerbSentences(doc), minFreq)
  }

  // ---------------------------------------------------------------------
  // clause_segment
  // ---------------------------------------------------------------------

  predicate IsRoot(doc: Doc, t: nat)
  {
    t < |doc.tokens| && doc.tokens[t].dep == "ROOT"
  }

  /** The token positions of sentence `k`, clipped to the document. */
  function SentTokens(doc: Doc, k: nat): seq<nat>
  {
    if k < |doc.sents| then Range(doc.sents[k].start, Min(doc.sents[k].end, |doc.tokens|)) else []
  }

  function TokenPos(doc: Doc, t: nat): string
  {
    if t < |doc.tokens| then doc.tokens[t].pos else ""
  }

  /** Token texts of the positions in document order, joined by spaces and stripped. */
  function OrderedText(doc: Doc, ts: seq<nat>): string
  {
    Trim(JoinTokenTexts(doc, Sort(ts)))
  }

  /** What every chunk of `segment_clause` is: a sentence without a root,
      a clause of at most `maxTokens` tokens, or a sub-clause. */
  predicate ClauseShaped(c: Chunk, maxTokens: int)
  {
    c.meta.NoVerbMeta? || c.meta.SubClauseMeta? || (c.meta.ClauseMeta? && c.meta.numTokens <= maxTokens)
  }

  function SubClauseChunk(doc: Doc, v: nat, sub: seq<nat>): Chunk
  {
    Chunk(OrderedText(doc, sub), SubClauseMeta(TokenLemma(doc, v), TokenPos(doc, v), |sub|))
  }

  /** The chunks of one root verb: its clause, or its sub-clauses when the
      clause has more than `maxTokens` tokens. */
  function VerbClauseChunks(doc: Doc, v: nat, maxTokens: int): (r: seq<Chunk>)
    ensures |r| >= 1
    ensures forall k :: 0 <= k < |r| ==> ClauseShaped(r[k], maxTokens)
  {
    var clause := ExtractClause(doc, v);
    if |clause| > maxTokens then
      Map(SplitByConjunctions(doc, clause), (sub: seq<nat>) => SubClauseChunk(doc, v, sub))
    else
      [Chunk(OrderedText(doc, clause), ClauseMeta(TokenLemma(doc, v), TokenPos(doc, v), |clause|))]
  }

  /** A clause within the limit is one chunk counting all its tokens; a
      longer one becomes sub-clauses, all but the last of more than five
      tokens, or a single sub-clause holding the whole clause. */
  lemma VerbClauseShape(doc: Doc, v: nat, maxTokens: int)
    ensures var clause := ExtractClause(doc, v);
      var r := VerbClauseChunks(doc, v, maxTokens);
      && (|clause| <= maxTokens ==> |r| == 1 && r[0].meta == ClauseMeta(TokenLemma(doc, v), TokenPos(doc, v), |clause|))
      && (|clause| > maxTokens ==> forall k :: 0 <= k < |r| ==> r[k].meta.SubClauseMeta?)
      && (|clause| > maxTokens && |r| > 1 ==> forall k :: 0 <= k < |r| - 1 ==> r[k].meta.numTokens > 5)
      && (|clause| > maxTokens && |r| == 1 ==> r[0].meta.numTokens == |clause|)
  {
    var clause := ExtractClause(doc, v);
    if |clause| > maxTokens {
      var subs := SplitByConjunctions(doc, clause);
      assert |subs| > 1 ==> forall k :: 0 <= k < |subs| - 1 ==> |subs[k]| > 5;
      SubClauseChunksShape(doc, v, clause, subs);
    }
  }

  lemma SubClauseChunksShape(doc: Doc, v: nat, clause: seq<nat>, subs: seq<seq<nat>>)
    requires |subs| >= 1 && (|subs| == 1 ==> subs[0] == clause)
    requires |subs| > 1 ==> forall k :: 0 <= k < |subs| - 1 ==> |subs[k]| > 5
    ensures var r := Map(subs, (sub: seq<nat>) => SubClauseChunk(doc, v, sub));
      && (forall k :: 0 <= k < |r| ==> r[k].meta.SubClauseMeta?)
      && (|r| > 1 ==> forall k :: 0 <= k < |r| - 1 ==> r[k].meta.numTokens > 5)
      && (|r| == 1 ==> r[0].meta.numTokens == |clause|)
  {
    var r := Map(subs, (sub: seq<nat>) => SubClauseChunk(doc, v, sub));
    assert forall k :: 0 <= k < |r| ==> r[k] == SubClauseChunk(doc, v, subs[k]);
  }

  function RootsOf(doc: Doc, k: nat): seq<nat>
  {
    Filter(SentTokens(doc, k), (t: nat) => IsRoot(doc, t))
  }

  /** The chunks of sentence `k`: those of each root verb, or the whole
      sentence when it has no root. */
  function SentenceClauseChunks(doc: Doc, k: nat, maxTokens: int): (r: seq<Chunk>)
    ensures |r| >= 1
    ensures forall j :: 0 <= j < |r| ==> ClauseShaped(r[j], maxTokens)
  {
    var roots := RootsOf(doc, k);
    if |roots| == 0 then [Chunk(Trim(SentTextOr(doc, k)), NoVerbMeta)]
    else
      var groups := Map(roots, (v: nat) => VerbClauseChunks(doc, v, maxTokens));
      forall i | 0 <= i < |groups|
        ensures |groups[i]| >= 1 && forall j :: 0 <= j < |groups[i]| ==> ClauseShaped(groups[i][j], maxTokens)
      {
        assert groups[i] == VerbClauseChunks(doc, roots[i], maxTokens);
      }
      FlattenForall(groups, (c: Chunk) => ClauseShaped(c, maxTokens));
      FlattenLength(groups);
      Flatten(groups)
  }

  /** `segment_clause(doc, max_tokens)`: the chunks of every sentence in
      order, at least one per sentence. */
  function SegmentClause(doc: Doc, maxTokens: int): (r: seq<Chunk>)
    ensures |r| >= |doc.sents|
    ensures forall j :: 0 <= j < |r| ==> ClauseShaped(r[j], maxTokens)
  {
    var groups := Map(Range(0, |doc.sents|), (k: nat) => SentenceClauseChunks(doc, k, maxTokens));
    FlattenForall(groups, (c: Chunk) => ClauseShaped(c, maxTokens));
    FlattenLength(groups);
    Flatten(groups)
  }

  // ---------------------------------------------------------------------
  // verb_phrase_segment
  // ---------------------------------------------------------------------

  const PhraseDeps: seq<string> := ["obj", "dobj", "iobj", "obl", "advmod", "neg", "aux", "auxpass"]

  /** A child that belongs to the verb phrase: an object, oblique,
      adverbial, negation or auxiliary. */
  predicate IsPhraseChild(doc: Doc, c: nat)
  {
    c < |doc.tokens| && doc.tokens[c].dep in PhraseDeps
  }

  /** The tokens of the verb phrase of `t`: the verb and the subtrees of
      its phrase children, each token once, in document order. */
  function PhraseTokens(doc: Doc, t: nat): (r: seq<nat>)
    ensures StrictlySorted(r)
    ensures forall x :: x in r <==>
      x == t || exists c :: IsChildOf(doc, c, t) && IsPhraseChild(doc, c) && x in Subtree(doc, c)
  {
    var cs := Filter(Children(doc, t), (c: nat) => IsPhraseChild(doc, c));
    var parts := Map(cs, (c: nat) => [c] + Subtree(doc, c));
    var r := SortUnique([t] + Flatten(parts));
    forall x | x in r
      ensures x == t || exists c :: IsChildOf(doc, c, t) && IsPhraseChild(doc, c) && x in Subtree(doc, c)
    {
      if x != t {
        var g := FlattenMember(parts, x);
        var i :| 0 <= i < |cs| && parts[i] == g;
        var c := cs[i];
        assert c in cs;
        assert x in Subtree(doc, c);
      }
    }
    forall x | x != t && exists c :: IsChildOf(doc, c, t) && IsPhraseChild(doc, c) && x in Subtree(doc, c)
      ensures x in r
    {
      var c :| IsChildOf(doc, c, t) && IsPhraseChild(doc, c) && x in Subtree(doc, c);
      assert c in cs;
      var i :| 0 <= i < |cs| && cs[i] == c;
      FlattenHas(parts, i, x);
    }
    r
  }

  function PhraseText(doc: Doc, t: nat): string
  {
    JoinTokenTexts(doc, PhraseTokens(doc, t))
  }

  predicate IsVerb(doc: Doc, t: nat)
  {
    t < |doc.tokens| && doc.tokens[t].pos == "VERB"
  }

  /** `(token.i, token.text)`, the key of `processed_verbs`. */
  function VerbKey(doc: Doc, t: nat): (nat, string)
  {
    (t, if t < |doc.tokens| then doc.tokens[t].text else "")
  }

  /** The phrase of verb `t` is long enough to keep. */
  predicate LongEnough(doc: Doc, minWords: int, t: nat)
  {
    |Words(PhraseText(doc, t))| >= minWords
  }

  /** The verbs that yield a phrase, in the order the loop meets them. */
  function PhraseVerbs(doc: Doc, minWords: int): (r: seq<nat>)
    ensures forall x :: x in r ==> IsVerb(doc, x) && LongEnough(doc, minWords, x)
  {
    FirstVisits(SentenceTokens(doc), (t: nat) => IsVerb(doc, t), (t: nat) => VerbKey(doc, t),
      (t: nat) => LongEnough(doc, minWords, t), {})
  }

  /** Every verb yields at most one phrase, and a verb yields one exactly
      when it lies in some sentence and its phrase has at least `minWords`
      words. */
  lemma PhraseVerbsExact(doc: Doc, minWords: int)
    ensures Distinct(PhraseVerbs(doc, minWords))
    ensures forall x :: x in PhraseVerbs(doc, minWords) <==>
      x in SentenceTokens(doc) && IsVerb(doc, x) && LongEnough(doc, minWords, x)
  {
    var key := (t: nat) => VerbKey(doc, t);
    assert forall a, b :: key(a) == key(b) ==> a == b;
    FirstVisitsExact(SentenceTokens(doc), (t: nat) => IsVerb(doc, t), key,
      (t: nat) => LongEnough(doc, minWords, t), {});
  }

  /** The tokens of every sentence, sentence after sentence. */
  function SentenceTokens(doc: Doc): seq<nat>
  {
    Flatten(Map(Range(0, |doc.sents|), (k: nat) => SentTokens(doc, k)))
  }

  /** The chunk of verb `t`: its stripped phrase, with the verb's lemma,
      text and part of speech and the phrase's word count. */
  function PhraseChunk(doc: Doc, t: nat): (c: Chunk)
    ensures c.meta.VerbPhraseMeta? && c.meta.numWords == |Words(PhraseText(doc, t))|
    ensures IsVerb(doc, t) ==> c.meta.verbPos == "VERB"
  {
    var text := PhraseText(doc, t);
    var tok := if t < |doc.tokens| then doc.tokens[t] else Token("", "", "", "", 0, "", false, "");
    Chunk(Trim(text), VerbPhraseMeta(tok.lemmaText, tok.text, tok.pos, |Words(text)|))
  }

  /** `segment_verb_phrase(doc, min_words)`. */
  function SegmentVerbPhrase(doc: Doc, minWords: int): (r: seq<Chunk>)
    ensures forall k :: 0 <= k < |r| ==> r[k].meta.VerbPhraseMeta? && r[k].meta.numWords >= minWords
    ensures forall k :: 0 <= k < |r| ==> r[k].meta.verbPos == "VERB"
  {
    var verbs := PhraseVerbs(doc, minWords);
    var r := Map(verbs, (t: nat) => PhraseChunk(doc, t));
    forall k | 0 <= k < |r|
      ensures r[k].meta.VerbPhraseMeta? && r[k].meta.numWords >= minWords && r[k].meta.verbPos == "VERB"
    {
      assert verbs[k] in verbs;
      assert r[k] == PhraseChunk(doc, verbs[k]);
    }
    r
  }
}
