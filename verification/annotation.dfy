/** The linguistic annotation the server's segmenters read: a spaCy `Doc`
    reduced to the attributes the segmenters use. Token texts, sentence
    boundaries, entities, noun chunks, dependency heads and vector flags are
    inputs; the language model that produces them is not part of this model. */
module Annotation {
  import opened Wrappers
  import opened Seqs
  import opened Strings

  /** One token: `text`, `lemma_` (`lemmaText`), `pos_`, `dep_`, the index of its syntactic
      head (a root is its own head), `ent_iob_`, `is_stop`, and the
      whitespace that follows it in the original text (`whitespace_`). */
  datatype Token = Token(
    text: string,
    lemmaText: string,
    pos: string,
    dep: string,
    head: nat,
    entIob: string,
    isStop: bool,
    ws: string)

  /** A sentence: the token range `[start, end)` and whether it has a vector. */
  datatype Sentence = Sentence(start: nat, end: nat, hasVector: bool)

  /** A named entity or a noun chunk: a token range with its label (`label_`). */
  datatype Span = Span(start: nat, end: nat, tag: string)

  datatype Doc = Doc(
    tokens: seq<Token>,
    sents: seq<Sentence>,
    ents: seq<Span>,
    nounChunks: seq<Span>,
    hasVector: bool)

  /** `token.text_with_ws`. */
  function TextWithWs(t: Token): string
  {
    t.text + t.ws
  }

  function ConcatWithWs(ts: seq<Token>): string
  {
    if |ts| == 0 then "" else TextWithWs(ts[0]) + ConcatWithWs(ts[1..])
  }

  /** `doc.text`: every token followed by its whitespace. */
  function DocText(doc: Doc): string
  {
    ConcatWithWs(doc.tokens)
  }

  /** `doc[start:end].text`: the tokens of the range with the whitespace
      between them, without the whitespace after the last one. Bounds are
      clipped to the document as Python slicing does. */
  function SpanText(doc: Doc, start: nat, end: nat): string
  {
    var e := if end <= |doc.tokens| then end else |doc.tokens|;
    if start >= e then ""
    else ConcatWithWs(doc.tokens[start..e - 1]) + doc.tokens[e - 1].text
  }

  /** `sent.text` for the `k`-th sentence. */
  function SentText(doc: Doc, k: nat): string
    requires k < |doc.sents|
  {
    SpanText(doc, doc.sents[k].start, doc.sents[k].end)
  }

  /** The sentence texts, stripped, in document order. */
  function StrippedSentTexts(doc: Doc): (r: seq<string>)
    ensures |r| == |doc.sents|
    ensures forall k :: 0 <= k < |r| ==> r[k] == Trim(SentText(doc, k))
  {
    seq(|doc.sents|, k requires 0 <= k < |doc.sents| => Trim(SentText(doc, k)))
  }

  /** `sentences.index(span.sent)`: the first sentence whose range holds
      token `t`; `None` stands for the `ValueError` raised when there is none. */
  function SentenceIndexOf(doc: Doc, t: nat): (r: Option<nat>)
    ensures r.Some? ==> r.value < |doc.sents| && doc.sents[r.value].start <= t < doc.sents[r.value].end
    ensures r.Some? ==> forall k :: 0 <= k < r.value ==> !(doc.sents[k].start <= t < doc.sents[k].end)
    ensures r.None? ==> forall k :: 0 <= k < |doc.sents| ==> !(doc.sents[k].start <= t < doc.sents[k].end)
  {
    SentenceIndexFrom(doc, t, 0)
  }

  function SentenceIndexFrom(doc: Doc, t: nat, from: nat): (r: Option<nat>)
    ensures r.Some? ==> from <= r.value < |doc.sents| && doc.sents[r.value].start <= t < doc.sents[r.value].end
    ensures r.Some? ==> forall k :: from <= k < r.value ==> !(doc.sents[k].start <= t < doc.sents[k].end)
    ensures r.None? ==> forall k :: from <= k < |doc.sents| ==> !(doc.sents[k].start <= t < doc.sents[k].end)
    decreases |doc.sents| - from
  {
    if from >= |doc.sents| then None
    else if doc.sents[from].start <= t < doc.sents[from].end then Some(from)
    else SentenceIndexFrom(doc, t, from + 1)
  }

  /** `span.sent.text.strip()`; a spaCy document assigns every token to a
      sentence, and a token outside every sentence reads as the empty text. */
  function EnclosingSentText(doc: Doc, t: nat): string
  {
    match SentenceIndexOf(doc, t)
    case Some(k) => Trim(SentText(doc, k))
    case None => ""
  }

  /** `j` is a syntactic child of `v`: its head is `v` and it is not `v`
      itself (a root is recorded as its own head). */
  predicate IsChildOf(doc: Doc, j: nat, v: nat)
  {
    j < |doc.tokens| && doc.tokens[j].head == v && j != v
  }

  function ChildrenFrom(doc: Doc, v: nat, from: nat): (r: seq<nat>)
    ensures forall c :: c in r <==> from <= c && IsChildOf(doc, c, v)
    ensures forall i, j :: 0 <= i < j < |r| ==> r[i] < r[j]
    decreases |doc.tokens| - from
  {
    if from >= |doc.tokens| then []
    else
      var rest := ChildrenFrom(doc, v, from + 1);
      assert forall k :: 0 <= k < |rest| ==> from < rest[k] by {
        forall k | 0 <= k < |rest|
          ensures from < rest[k]
        {
          assert rest[k] in rest;
        }
      }
      (if IsChildOf(doc, from, v) then [from] else []) + rest
  }

  /** `token.children`: the children of `v` in document order. */
  function Children(doc: Doc, v: nat): (r: seq<nat>)
    ensures forall c :: c in r <==> IsChildOf(doc, c, v)
    ensures forall i, j :: 0 <= i < j < |r| ==> r[i] < r[j]
  {
    ChildrenFrom(doc, v, 0)
  }

  /** Token texts of the given positions joined by single spaces. */
  function JoinTokenTexts(doc: Doc, positions: seq<nat>): string
  {
    Join(TokenTexts(doc, positions), " ")
  }

  function TokenTexts(doc: Doc, positions: seq<nat>): (r: seq<string>)
    ensures |r| == |positions|
  {
    if |positions| == 0 then []
    else
      (if positions[0] < |doc.tokens| then [doc.tokens[positions[0]].text] else [""])
        + TokenTexts(doc, positions[1..])
  }
}
