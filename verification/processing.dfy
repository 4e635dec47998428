/** The text helpers of processing/processing.js: the clean-up of a model's
    JSON reply, the tokenizer and the lexical source-fidelity filter built
    on it, and the simple chunker `chunkSimple`. */
module Processing {
  import opened Wrappers
  import opened Seqs
  import opened Strings
  import ChunkStrategies
  import opened Grouping

  // ---------------------------------------------------------------------
  // cleanJsonResponse
  // ---------------------------------------------------------------------

  const Fence := "```"

  /** The fence followed by `json` in any case. */
  predicate JsonFenceAt(s: string, i: nat)
  {
    i + 7 <= |s| && s[i..i + 3] == Fence && ToLower(s[i + 3..i + 7]) == "json"
  }

  /** `s.replace(/```json/gi, '```')`: the `json` tag of every fence is
      dropped, scanning from the left. */
  function DropJsonTags(s: string): (r: string)
    ensures |r| <= |s|
    decreases |s|
  {
    if |s| == 0 then ""
    else if JsonFenceAt(s, 0) then Fence + DropJsonTags(s[7..])
    else [s[0]] + DropJsonTags(s[1..])
  }

  /** The number of backticks `s` starts with. */
  function LeadingTicks(s: string): (r: nat)
    ensures r <= |s| && forall i :: 0 <= i < r ==> s[i] == '`'
    ensures r < |s| ==> s[r] != '`'
  {
    if |s| > 0 && s[0] == '`' then 1 + LeadingTicks(s[1..]) else 0
  }

  /** Removing every fence leaves no fence behind: a run of backticks loses
      whole fences and keeps fewer than three, and runs stay apart. */
  lemma {:induction false} RemoveFences(s: string)
    ensures forall j: nat :: !OccursAt(ReplaceAll(s, Fence, ""), Fence, j)
    ensures LeadingTicks(s) < 3 ==> LeadingTicks(ReplaceAll(s, Fence, "")) == LeadingTicks(s)
    decreases |s|
  {
    if |s| < 3 {
      RemoveFencesShort(s);
    } else if StartsWith(s, Fence) {
      RemoveFences(s[3..]);
      RemoveFencesAtFence(s);
    } else {
      RemoveFences(s[1..]);
      RemoveFencesCons(s);
    }
  }

  /** A text shorter than a fence holds none and is left alone. */
  lemma RemoveFencesShort(s: string)
    requires |s| < 3
    ensures forall j: nat :: !OccursAt(ReplaceAll(s, Fence, ""), Fence, j)
    ensures LeadingTicks(ReplaceAll(s, Fence, "")) == LeadingTicks(s)
  {
    var r := ReplaceAll(s, Fence, "");
    assert r == s;
    forall j: nat ensures !OccursAt(r, Fence, j) {
    }
  }

  /** The step of `RemoveFences` over a fence at the start. */
  lemma RemoveFencesAtFence(s: string)
    requires |s| >= 3 && StartsWith(s, Fence)
    requires forall j: nat :: !OccursAt(ReplaceAll(s[3..], Fence, ""), Fence, j)
    ensures forall j: nat :: !OccursAt(ReplaceAll(s, Fence, ""), Fence, j)
    ensures LeadingTicks(s) >= 3
  {
    var rest := ReplaceAll(s[3..], Fence, "");
    assert ReplaceAll(s, Fence, "") == "" + rest;
    assert "" + rest == rest;
    FenceTicks(s);
  }

  lemma FenceTicks(s: string)
    requires |s| >= 3 && s[..3] == Fence
    ensures LeadingTicks(s) >= 3
  {
    assert s[0] == '`' && s[1] == '`' && s[2] == '`';
    assert s[1..][1..] == s[2..];
    assert LeadingTicks(s) == 1 + LeadingTicks(s[1..]);
    assert LeadingTicks(s[1..]) == 1 + LeadingTicks(s[2..]);
  }

  /** The step of `RemoveFences` past a character that starts no fence. */
  lemma RemoveFencesCons(s: string)
    requires |s| >= 3 && !StartsWith(s, Fence)
    requires forall j: nat :: !OccursAt(ReplaceAll(s[1..], Fence, ""), Fence, j)
    requires LeadingTicks(s[1..]) < 3 ==> LeadingTicks(ReplaceAll(s[1..], Fence, "")) == LeadingTicks(s[1..])
    ensures forall j: nat :: !OccursAt(ReplaceAll(s, Fence, ""), Fence, j)
    ensures LeadingTicks(s) < 3 ==> LeadingTicks(ReplaceAll(s, Fence, "")) == LeadingTicks(s)
  {
    var t := s[1..];
    var rt := ReplaceAll(t, Fence, "");
    assert ReplaceAll(s, Fence, "") == [s[0]] + rt;
    if s[0] == '`' {
      assert LeadingTicks(t) <= 1 by {
        assert s[..3] != Fence;
        assert s[..3] == [s[0], t[0], t[1]];
      }
    }
    assert LeadingTicks(s) == if s[0] == '`' then 1 + LeadingTicks(t) else 0;
    NoFenceCons(s[0], rt);
  }

  /** A character put in front of a text without fences starts none
      unless it is a backtick in front of two more. */
  lemma NoFenceCons(c: char, rt: string)
    requires forall j: nat :: !OccursAt(rt, Fence, j)
    requires c == '`' ==> LeadingTicks(rt) <= 1
    ensures forall j: nat :: !OccursAt([c] + rt, Fence, j)
    ensures LeadingTicks([c] + rt) == if c == '`' then 1 + LeadingTicks(rt) else 0
  {
    var r := [c] + rt;
    assert r[1..] == rt;
    forall j: nat ensures !OccursAt(r, Fence, j)
    {
      if j == 0 {
        if |r| >= 3 {
          assert r[..3] == [c, rt[0], rt[1]];
          if c == '`' && rt[0] == '`' {
            assert LeadingTicks(rt) == 1 + LeadingTicks(rt[1..]);
            assert LeadingTicks(rt[1..]) == 0;
            assert rt[1..][0] == rt[1];
          }
        }
      } else {
        OccursTail(r, Fence, j - 1);
      }
    }
  }

  /** An occurrence inside a slice is an occurrence in the whole. */
  lemma OccursInSlice(s: string, a: nat, b: nat, p: string, j: nat)
    requires a <= b <= |s| && OccursAt(s[a..b], p, j)
    ensures OccursAt(s, p, a + j)
  {
    assert a + j + |p| <= b;
    var x, y := s[a..b][j..j + |p|], s[a + j..a + j + |p|];
    forall i | 0 <= i < |p|
      ensures x[i] == y[i]
    {
      assert x[i] == s[a + j + i];
    }
    assert x == y;
  }

  /** `cleanJsonResponse(content)`: the `json` tags and then every fence
      are removed and the result trimmed; no fence is left, and every
      character of the tag-free reply but the backticks survives, in order,
      inside the trimmed span. */
  function CleanJsonResponse(content: string): (r: string)
    ensures !Contains(r, Fence)
    ensures |r| == 0 || (!IsSpace(r[0]) && !IsSpace(r[|r| - 1]))
    ensures var u := ReplaceAll(DropJsonTags(content), Fence, "");
      && Untick(u) == Untick(DropJsonTags(content))
      && exists a, b :: 0 <= a <= b <= |u| && r == u[a..b]
           && (forall i :: 0 <= i < a ==> IsSpace(u[i]))
           && (forall i :: b <= i < |u| ==> IsSpace(u[i]))
  {
    var unfenced := ReplaceAll(DropJsonTags(content), Fence, "");
    RemoveFences(DropJsonTags(content));
    RemoveFencesKeepsText(DropJsonTags(content));
    TrimFenceFree(unfenced);
    Trim(unfenced)
  }

  /** Trimming a text without fences leaves none. */
  lemma TrimFenceFree(u: string)
    requires forall j: nat :: !OccursAt(u, Fence, j)
    ensures !Contains(Trim(u), Fence)
  {
    var r := Trim(u);
    var a, b :| 0 <= a <= b <= |u| && r == u[a..b];
    forall j: nat ensures !OccursAt(r, Fence, j) {
      if OccursAt(r, Fence, j) {
        OccursInSlice(u, a, b, Fence, j);
      }
    }
  }

  /** A character unless it is a backtick. */
  function Untick1(c: char): string
  {
    if c == '`' then "" else [c]
  }

  /** The characters of `s` other than backticks, in order. */
  function Untick(s: string): string
  {
    if |s| == 0 then "" else Untick1(s[0]) + Untick(s[1..])
  }

  lemma {:induction false} UntickAppend(a: string, b: string)
    ensures Untick(a + b) == Untick(a) + Untick(b)
    decreases |a|
  {
    if |a| == 0 {
      assert a + b == b;
    } else {
      var h := Untick1(a[0]);
      UntickAppend(a[1..], b);
      assert (a + b)[1..] == a[1..] + b;
      calc {
        Untick(a + b);
        h + Untick(a[1..] + b);
        h + (Untick(a[1..]) + Untick(b));
        (h + Untick(a[1..])) + Untick(b);
      }
    }
  }

  /** Removing fences removes backticks only: every other character stays,
      in order. */
  lemma {:induction false} RemoveFencesKeepsText(s: string)
    ensures Untick(ReplaceAll(s, Fence, "")) == Untick(s)
    decreases |s|
  {
    if |s| < 3 {
    } else if StartsWith(s, Fence) {
      RemoveFencesKeepsText(s[3..]);
      KeepsTextAtFence(s);
    } else {
      RemoveFencesKeepsText(s[1..]);
      KeepsTextCons(s);
    }
  }

  lemma KeepsTextAtFence(s: string)
    requires |s| >= 3 && StartsWith(s, Fence)
    requires Untick(ReplaceAll(s[3..], Fence, "")) == Untick(s[3..])
    ensures Untick(ReplaceAll(s, Fence, "")) == Untick(s)
  {
    assert ReplaceAll(s, Fence, "") == ReplaceAll(s[3..], Fence, "") by {
      assert ReplaceAll(s, Fence, "") == "" + ReplaceAll(s[3..], Fence, "");
    }
    assert Untick(s) == Untick(s[3..]) by {
      assert s == Fence + s[3..];
      UntickAppend(Fence, s[3..]);
      UntickFence();
    }
  }

  lemma UntickFence()
    ensures Untick(Fence) == ""
  {
    assert Fence[1..] == "``" && Fence[1..][1..] == "`" && Fence[1..][1..][1..] == "";
    assert Untick("`") == "" + Untick("");
  }

  lemma KeepsTextCons(s: string)
    requires |s| >= 3 && !StartsWith(s, Fence)
    requires Untick(ReplaceAll(s[1..], Fence, "")) == Untick(s[1..])
    ensures Untick(ReplaceAll(s, Fence, "")) == Untick(s)
  {
    var rest := ReplaceAll(s[1..], Fence, "");
    assert ReplaceAll(s, Fence, "") == [s[0]] + rest;
    assert ([s[0]] + rest)[1..] == rest;
  }

  /** A reply without backticks is only trimmed. */
  lemma CleanWithoutFences(content: string)
    requires '`' !in content
    ensures CleanJsonResponse(content) == Trim(content)
  {
    NoTicksNoTags(content);
    assert !Contains(content, Fence) by {
      forall j: nat ensures !OccursAt(content, Fence, j) {
        if j + 3 <= |content| {
          assert content[j..j + 3][0] == content[j];
          assert content[j] in content;
        }
      }
    }
    ReplaceAllAbsent(content, Fence, "");
  }

  lemma {:induction false} NoTicksNoTags(s: string)
    requires '`' !in s
    ensures DropJsonTags(s) == s
    decreases |s|
  {
    if |s| > 0 {
      assert !JsonFenceAt(s, 0) by {
        assert s[0] in s;
        if |s| >= 3 {
          assert s[0..3][0] == s[0];
        }
      }
      NoTicksNoTags(s[1..]);
      assert s == [s[0]] + s[1..];
    }
  }

  // ---------------------------------------------------------------------
  // tokenize
  // ---------------------------------------------------------------------

  /** The characters of `[a-zaeiouüñ0-9]` under the `i` flag. */
  predicate IsTokenChar(c: char)
  {
    IsLower(c) || IsUpper(c) || IsDigit(c) || c == 'ü' || c == 'Ü' || c == 'ñ' || c == 'Ñ'
  }

  predicate IsTokenSeparator(c: char)
  {
    !IsTokenChar(c)
  }

  /** `tokenize(text)`: the lower-cased text split at runs of non-token
      characters, empty pieces dropped. */
  function Tokenize(text: string): (r: seq<string>)
    ensures forall k :: 0 <= k < |r| ==> |r[k]| > 0
    ensures forall k, j :: 0 <= k < |r| && 0 <= j < |r[k]| ==> IsTokenChar(r[k][j]) && !HasLowerPartner(r[k][j])
  {
    var lowered := ToLower(text);
    var parts := SplitRuns(lowered, IsTokenSeparator);
    var r := Filter(parts, NonEmpty);
    forall k, j | 0 <= k < |r| && 0 <= j < |r[k]|
      ensures !HasLowerPartner(r[k][j])
    {
      assert r[k] in parts;
      var m :| 0 <= m < |parts| && parts[m] == r[k];
      SplitRunsChars(lowered, IsTokenSeparator, m, j);
    }
    r
  }

  /** Every character of a piece is a character of the split string. */
  lemma {:induction false} SplitRunsChars(s: string, sep: char -> bool, k: nat, j: nat)
    requires k < |SplitRuns(s, sep)| && j < |SplitRuns(s, sep)[k]|
    ensures SplitRuns(s, sep)[k][j] in s
    decreases |s|
  {
    var r := SplitRuns(s, sep);
    var rest := SplitRuns(s[1..], sep);
    if sep(s[0]) {
      if |s| > 1 && sep(s[1]) {
        SplitRunsChars(s[1..], sep, k, j);
      } else {
        assert r[k] == rest[k - 1];
        SplitRunsChars(s[1..], sep, k - 1, j);
      }
    } else if k == 0 && j == 0 {
    } else if k == 0 {
      assert r[0][j] == rest[0][j - 1];
      SplitRunsChars(s[1..], sep, 0, j - 1);
    } else {
      assert r[k] == rest[k];
      SplitRunsChars(s[1..], sep, k, j);
    }
  }

  /** The pieces of a split at runs concatenate to the kept characters. */
  lemma {:induction false} FlattenSplitRuns(s: string, sep: char -> bool, keep: char -> bool)
    requires forall c :: keep(c) == !sep(c)
    ensures Flatten(SplitRuns(s, sep)) == Filter(s, keep)
    decreases |s|
  {
    if |s| > 0 {
      FlattenSplitRuns(s[1..], sep, keep);
      var rest := SplitRuns(s[1..], sep);
      var pieces := SplitRuns(s, sep);
      if sep(s[0]) {
        assert Filter(s, keep) == Filter(s[1..], keep);
        if !(|s| > 1 && sep(s[1])) {
          assert pieces == [""] + rest;
          FlattenCons("", rest);
        }
      } else {
        assert Filter(s, keep) == [s[0]] + Filter(s[1..], keep);
        assert pieces == [[s[0]] + rest[0]] + rest[1..];
        FlattenGrowHead(s[0], rest);
      }
    }
  }

  /** Growing the first piece at its front grows the concatenation. */
  lemma FlattenGrowHead(c: char, pieces: seq<string>)
    requires |pieces| > 0
    ensures Flatten([[c] + pieces[0]] + pieces[1..]) == [c] + Flatten(pieces)
  {
    var h, tail := pieces[0], pieces[1..];
    FlattenCons([c] + h, tail);
    FlattenCons(h, tail);
    assert pieces == [h] + tail;
    AppendAssoc([c], h, Flatten(tail));
  }

  /** Dropping empty pieces does not change their concatenation. */
  lemma {:induction false} FlattenNonEmpty(parts: seq<string>)
    ensures Flatten(Filter(parts, NonEmpty)) == Flatten(parts)
    decreases |parts|
  {
    if |parts| > 0 {
      FlattenNonEmpty(parts[1..]);
      var rest := Filter(parts[1..], NonEmpty);
      FlattenCons(parts[0], parts[1..]);
      assert parts == [parts[0]] + parts[1..];
      if NonEmpty(parts[0]) {
        assert Filter(parts, NonEmpty) == [parts[0]] + rest;
        FlattenCons(parts[0], rest);
      } else {
        assert Filter(parts, NonEmpty) == rest;
        assert parts[0] == [];
      }
    }
  }

  /** The tokens, concatenated, are the token characters of the
      lower-cased text: nothing but separators is lost. */
  lemma TokensCoverText(text: string)
    ensures Flatten(Tokenize(text)) == Filter(ToLower(text), IsTokenChar)
  {
    var parts := SplitRuns(ToLower(text), IsTokenSeparator);
    FlattenNonEmpty(parts);
    FlattenSplitRuns(ToLower(text), IsTokenSeparator, IsTokenChar);
  }

  // ---------------------------------------------------------------------
  // validateSourceFidelity
  // ---------------------------------------------------------------------

  const RejectedStatus := "rejected"
  const RejectReason := "Alucinacion detectada (filtro lexico)"

  /** The verdict; a rejected card is marked with a status and a reason. */
  datatype Fidelity = Accepted | Rejected(status: string, reason: string)

  /** The number of `tokens` (with repetitions) found in `known`. */
  function Overlap(tokens: seq<string>, known: set<string>): (r: nat)
    ensures r <= |tokens|
    ensures (forall k :: 0 <= k < |tokens| ==> tokens[k] in known) ==> r == |tokens|
    ensures (forall k :: 0 <= k < |tokens| ==> tokens[k] !in known) ==> r == 0
  {
    if |tokens| == 0 then 0
    else (if tokens[0] in known then 1 else 0) + Overlap(tokens[1..], known)
  }

  function TokenSet(text: string): set<string>
  {
    set k | 0 <= k < |Tokenize(text)| :: Tokenize(text)[k]
  }

  /** `validateSourceFidelity(card, sourceText)`: a missing or empty answer
      or source, or one without tokens, passes; otherwise the card is
      rejected exactly when fewer than 40% of its answer tokens occur in the
      source. */
  function ValidateSourceFidelity(answer: Option<string>, source: Option<string>): (r: Fidelity)
    ensures (answer.None? || answer.value == "" || source.None? || source.value == "") ==> r == Accepted
    ensures r.Rejected? ==> r == Rejected(RejectedStatus, RejectReason)
    ensures r.Rejected? <==>
      && answer.Some? && answer.value != "" && source.Some? && source.value != ""
      && |Tokenize(answer.value)| > 0 && |TokenSet(source.value)| > 0
      && 5 * Overlap(Tokenize(answer.value), TokenSet(source.value)) < 2 * |Tokenize(answer.value)|
  {
    if answer.None? || answer.value == "" || source.None? || source.value == "" then Accepted
    else
      var known := TokenSet(source.value);
      var tokens := Tokenize(answer.value);
      if |tokens| == 0 || |known| == 0 then Accepted
      else if 5 * Overlap(tokens, known) < 2 * |tokens| then Rejected(RejectedStatus, RejectReason)
      else Accepted
  }

  /** An answer whose every token appears in the source is never rejected;
      an answer with tokens none of which appears in a source with tokens
      always is. */
  lemma FidelityExtremes(answer: string, source: string)
    requires answer != "" && source != ""
    ensures (forall k :: 0 <= k < |Tokenize(answer)| ==> Tokenize(answer)[k] in TokenSet(source)) ==>
      ValidateSourceFidelity(Some(answer), Some(source)) == Accepted
    ensures (|Tokenize(answer)| > 0 && |TokenSet(source)| > 0
             && forall k :: 0 <= k < |Tokenize(answer)| ==> Tokenize(answer)[k] !in TokenSet(source)) ==>
      ValidateSourceFidelity(Some(answer), Some(source)).Rejected?
  {
  }

  /** The source's own tokens always pass. */
  lemma SelfIsFaithful(text: string)
    requires text != ""
    ensures ValidateSourceFidelity(Some(text), Some(text)) == Accepted
  {
    var t := Tokenize(text);
    assert forall k :: 0 <= k < |t| ==> t[k] in TokenSet(text);
  }

  // ---------------------------------------------------------------------
  // chunkSimple
  // ---------------------------------------------------------------------

  /** The result of `chunkSimple`: the chunks, or the `TypeError` a call
      to a missing method throws. */
  datatype Chunked = Chunks(chunks: seq<string>) | TypeError(message: string)

  /** What the text-independent cases read: the pipeline's overlap
      percentage (`chunkOverlap || 0`) and the `chunks` of the text parsed
      as JSON (`None` when it does not parse or holds no `chunks` array;
      non-string entries already replaced by their text). */
  datatype Inputs = Inputs(overlapPercent: int, jsonChunks: Option<seq<string>>)

  // ---------------------------------------------------------------------
  // headers: text.split(/(?=^#{1,6}\s|^[A-Z][A-Z\s]+$)/m)
  // ---------------------------------------------------------------------

  /** The line terminators `^` and `$` look for in multi-line mode. */
  predicate LineTerminator(c: char)
  {
    c == '\n' || c == '\r' || c == '\U{2028}' || c == '\U{2029}'
  }

  /** `^` in multi-line mode holds at `q`. */
  predicate LineStartAt(s: string, q: nat)
  {
    q == 0 || (q <= |s| && LineTerminator(s[q - 1]))
  }

  /** `n` characters `#` from `q`, then a space. */
  predicate HashesThenSpace(s: string, q: nat, n: nat)
  {
    q + n < |s| && (forall i :: q <= i < q + n ==> s[i] == '#') && IsSpace(s[q + n])
  }

  /** `#{1,6}\s` matches at `q`: one to six `#` and then a space. */
  predicate HashHeadingAt(s: string, q: nat)
  {
    exists n :: 1 <= n <= 6 && HashesThenSpace(s, q, n)
  }

  /** `[A-Z][A-Z\s]+$` matches at `q`: a capital, then at least one
      capital or space, up to the end of a line (`\s` includes the line
      break, so the run may cross lines). */
  predicate CapsHeadingAt(s: string, q: nat)
  {
    && q < |s| && IsUpper(s[q])
    && exists e :: q + 2 <= e <= |s|
         && (forall i :: q < i < e ==> IsUpper(s[i]) || IsSpace(s[i]))
         && (e == |s| || LineTerminator(s[e]))
  }

  /** The look-ahead of the `headers` split matches at `q`. */
  predicate HeaderAt(s: string, q: nat)
  {
    LineStartAt(s, q) && (HashHeadingAt(s, q) || CapsHeadingAt(s, q))
  }

  /** The positions of each piece of the split: a new piece starts at every
      position after the first where the look-ahead matches (a match at
      the start of the text gives no empty first piece). */
  function HeaderGroups(s: string): (r: seq<seq<nat>>)
    ensures Flatten(r) == Range(0, |s|)
    ensures forall k :: 0 <= k < |r| ==> |r[k]| > 0
    ensures forall k :: 1 <= k < |r| ==> HeaderAt(s, r[k][0])
    ensures forall k, j :: 0 <= k < |r| && 1 <= j < |r[k]| ==> !HeaderAt(s, r[k][j])
  {
    CutRuns(|s|, (q: nat) => HeaderAt(s, q))
  }

  /** The characters of `s` at the positions `pos`. */
  function CharsAt(s: string, pos: seq<nat>): (r: string)
    ensures |r| == |pos|
    ensures forall j :: 0 <= j < |pos| && pos[j] < |s| ==> r[j] == s[pos[j]]
  {
    if |pos| == 0 then ""
    else [if pos[0] < |s| then s[pos[0]] else ' '] + CharsAt(s, pos[1..])
  }

  /** The text of each group. */
  function PiecesOf(s: string, gs: seq<seq<nat>>): (r: seq<string>)
    ensures |r| == |gs|
    ensures forall k :: 0 <= k < |gs| ==> r[k] == CharsAt(s, gs[k])
  {
    if |gs| == 0 then [] else [CharsAt(s, gs[0])] + PiecesOf(s, gs[1..])
  }

  /** `text.split(/(?=^#{1,6}\s|^[A-Z][A-Z\s]+$)/m)`: the empty text
      gives one empty piece; otherwise piece `k` is the text of group `k`. */
  function HeaderSplit(s: string): (r: seq<string>)
  {
    if |s| == 0 then [s] else PiecesOf(s, HeaderGroups(s))
  }

  lemma {:induction false} PiecesFlatten(s: string, gs: seq<seq<nat>>)
    ensures Flatten(PiecesOf(s, gs)) == CharsAt(s, Flatten(gs))
    decreases |gs|
  {
    if |gs| > 0 {
      PiecesFlatten(s, gs[1..]);
      CharsAtAppend(s, gs[0], Flatten(gs[1..]));
    }
  }

  lemma CharsAtAppend(s: string, a: seq<nat>, b: seq<nat>)
    ensures CharsAt(s, a + b) == CharsAt(s, a) + CharsAt(s, b)
  {
    var l := CharsAt(s, a + b);
    var m := CharsAt(s, a) + CharsAt(s, b);
    assert |l| == |m|;
    forall j | 0 <= j < |l|
      ensures l[j] == m[j]
    {
      CharsAtIndex(s, a + b, j);
      if j < |a| {
        CharsAtIndex(s, a, j);
      } else {
        CharsAtIndex(s, b, j - |a|);
      }
    }
  }

  lemma {:induction false} CharsAtIndex(s: string, pos: seq<nat>, j: nat)
    requires j < |pos|
    ensures CharsAt(s, pos)[j] == if pos[j] < |s| then s[pos[j]] else ' '
    decreases j
  {
    if j > 0 {
      CharsAtIndex(s, pos[1..], j - 1);
    }
  }

  /** The pieces of the `headers` split give the text back; each piece
      after the first begins at a line that the look-ahead matches, and no
      other position inside a piece does. */
  lemma HeaderSplitPieces(s: string)
    ensures Flatten(HeaderSplit(s)) == s
    ensures |s| > 0 ==> var g := HeaderGroups(s);
      && |HeaderSplit(s)| == |g|
      && (forall k :: 1 <= k < |g| ==> HeaderAt(s, g[k][0]))
      && (forall k, j :: 0 <= k < |g| && 1 <= j < |g[k]| ==> !HeaderAt(s, g[k][j]))
      && (forall k :: 0 <= k < |g| ==> HeaderSplit(s)[k] == CharsAt(s, g[k]))
  {
    if |s| == 0 {
      FlattenSingle(s);
    } else {
      PiecesFlatten(s, HeaderGroups(s));
      var all := CharsAt(s, Range(0, |s|));
      assert |all| == |s|;
      forall j | 0 <= j < |s|
        ensures all[j] == s[j]
      {
        CharsAtIndex(s, Range(0, |s|), j);
      }
    }
  }

  predicate NotBlankPart(p: string)
  {
    !IsBlank(p)
  }

  /** The cases that do not depend on the missing methods. */
  function ChunkOther(text: string, strategy: string, size: int, inputs: Inputs): (r: seq<string>)
    ensures strategy == "fixed" ==> r == ChunkStrategies.WindowsFrom(text, 0, size, ChunkStrategies.Step(size, inputs.overlapPercent))
    ensures strategy == "wordlist" ==> r == ChunkStrategies.Wordlist(text)
    ensures strategy == "headers" ==> FilteredFrom(r, HeaderSplit(text), NotBlankPart)
    ensures strategy == "none" ==> r == (if inputs.jsonChunks.Some? then inputs.jsonChunks.value else [text])
    ensures strategy !in {"fixed", "wordlist", "headers", "none"} ==> r == [text]
  {
    if strategy == "headers" then FilterFiltered(HeaderSplit(text), NotBlankPart); Filter(HeaderSplit(text), NotBlankPart)
    else if strategy == "wordlist" then ChunkStrategies.Wordlist(text)
    else if strategy == "none" then (if inputs.jsonChunks.Some? then inputs.jsonChunks.value else [text])
    else if strategy == "fixed" then
      ChunkStrategies.WindowsFrom(text, 0, size, ChunkStrategies.Step(size, inputs.overlapPercent))
    else [text]
  }

  /** `chunkSimple(text, method, size)` as written: the `sentence` and
      `paragraph` cases call `this.sentence` and `this.paragraph`, which the
      module does not define, so they throw. */
  function ChunkSimple(text: string, strategy: string, size: int, inputs: Inputs): (r: Chunked)
    ensures strategy == "sentence" ==> r == TypeError("this.sentence is not a function")
    ensures strategy == "paragraph" ==> r == TypeError("this.paragraph is not a function")
    ensures strategy !in {"sentence", "paragraph"} ==> r == Chunks(ChunkOther(text, strategy, size, inputs))
  {
    if strategy == "sentence" then TypeError("this.sentence is not a function")
    else if strategy == "paragraph" then TypeError("this.paragraph is not a function")
    else Chunks(ChunkOther(text, strategy, size, inputs))
  }

  /** The discrepancy: asking for sentence chunks of any text throws. */
  lemma SentenceChunkingThrows(text: string, size: int, inputs: Inputs)
    ensures ChunkSimple(text, "sentence", size, inputs).TypeError?
  {
  }

  /** `chunkSimple` with the two cases delegated to the chunk strategies
      of the same names, as the options object they are given is shaped
      for. */
  function ChunkSimpleFixed(text: string, strategy: string, size: int, inputs: Inputs): (r: seq<string>)
    ensures strategy == "sentence" ==> r == ChunkStrategies.SentenceChunks(text, size, inputs.overlapPercent)
    ensures strategy == "paragraph" ==> r == ChunkStrategies.Paragraph(text, size, inputs.overlapPercent)
    ensures strategy !in {"sentence", "paragraph"} ==> ChunkSimple(text, strategy, size, inputs) == Chunks(r)
  {
    if strategy == "sentence" then ChunkStrategies.SentenceChunks(text, size, inputs.overlapPercent)
    else if strategy == "paragraph" then ChunkStrategies.Paragraph(text, size, inputs.overlapPercent)
    else ChunkOther(text, strategy, size, inputs)
  }

  /** The `fixed` windows are at most `size` long, window `k` is the text
      from `k` steps on, and there are just enough to reach the end. */
  lemma FixedChunksBounded(text: string, size: nat, inputs: Inputs)
    ensures var step := ChunkStrategies.Step(size, inputs.overlapPercent);
      var r := ChunkSimpleFixed(text, "fixed", size, inputs);
      && (forall k :: 0 <= k < |r| ==> |r[k]| <= size && k * step < |text|)
      && (forall k :: 0 <= k < |r| ==> r[k] == ChunkStrategies.Substring(text, k * step, k * step + size))
      && (|text| > 0 ==> (|r| - 1) * step < |text| <= |r| * step)
  {
    ChunkStrategies.FixedShape(text, size, ChunkStrategies.Step(size, inputs.overlapPercent));
  }

  /** Without overlap the `fixed` chunks of a positive size give the text
      back. */
  lemma FixedChunksTile(text: string, size: nat, inputs: Inputs)
    requires size >= 1 && inputs.overlapPercent == 0
    ensures Flatten(ChunkSimpleFixed(text, "fixed", size, inputs)) == text
  {
    ChunkStrategies.FixedNoOverlap(text, size);
  }
}
