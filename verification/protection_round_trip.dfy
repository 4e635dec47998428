/** Why `restoreTokens` undoes `protectPhrases` (processing/EntityUtils.js).

    A protected text is read as a list of pieces: literal stretches of the
    original text and placeholders. The proof shows that each global
    replacement the two functions perform acts piece by piece, which holds
    when the text and the phrases contain no `_` (so no match can run into
    a placeholder) and no phrase matches inside a placeholder. */
module ProtectionRoundTrip {
  import opened Wrappers
  import opened Seqs
  import opened Strings
  import opened EntityUtils
  import opened ReplaceFacts

  datatype Piece = Lit(s: string) | Tok(n: nat)

  function PieceText(p: Piece): string
  {
    match p
    case Lit(s) => s
    case Tok(n) => Token(n)
  }

  /** The text the pieces spell. */
  function Render(ps: seq<Piece>): string
    decreases |ps|
  {
    if |ps| == 0 then "" else PieceText(ps[0]) + Render(ps[1..])
  }

  /** The text the pieces stand for: each placeholder read as the value
      recorded for it. */
  function Original(ps: seq<Piece>, reps: seq<Replacement>): string
    decreases |ps|
  {
    if |ps| == 0 then ""
    else
      (match ps[0]
       case Lit(s) => s
       case Tok(n) => if n < |reps| then reps[n].value else "")
      + Original(ps[1..], reps)
  }

  predicate NoUnderscore(s: string)
  {
    forall i :: 0 <= i < |s| ==> s[i] != '_'
  }

  predicate CleanLit(p: Piece)
  {
    p.Lit? ==> p.s != "" && NoUnderscore(p.s)
  }

  predicate LitsClean(ps: seq<Piece>)
  {
    forall k :: 0 <= k < |ps| ==> CleanLit(ps[k])
  }

  /** No two literal stretches side by side. */
  predicate Alternating(ps: seq<Piece>)
  {
    forall k :: 0 <= k < |ps| - 1 ==> ps[k].Tok? || ps[k + 1].Tok?
  }

  predicate ToksBelow(ps: seq<Piece>, lo: nat, hi: nat)
  {
    forall k :: 0 <= k < |ps| ==> ps[k].Tok? ==> lo <= ps[k].n < hi
  }

  predicate Wf(ps: seq<Piece>)
  {
    LitsClean(ps) && Alternating(ps)
  }

  // ---------------------------------------------------------------------
  // Concatenation
  // ---------------------------------------------------------------------

  lemma {:induction false} RenderAppend(a: seq<Piece>, b: seq<Piece>)
    ensures Render(a + b) == Render(a) + Render(b)
    decreases |a|
  {
    if |a| == 0 {
      assert a + b == b;
    } else {
      assert (a + b)[1..] == a[1..] + b;
      RenderAppend(a[1..], b);
    }
  }

  lemma {:induction false} OriginalAppend(a: seq<Piece>, b: seq<Piece>, reps: seq<Replacement>)
    ensures Original(a + b, reps) == Original(a, reps) + Original(b, reps)
    decreases |a|
  {
    if |a| == 0 {
      assert a + b == b;
    } else {
      assert (a + b)[1..] == a[1..] + b;
      OriginalAppend(a[1..], b, reps);
    }
  }

  /** More replacements do not change what pieces with known placeholders
      stand for. */
  lemma {:induction false} OriginalExtend(ps: seq<Piece>, reps: seq<Replacement>, more: seq<Replacement>)
    requires ToksBelow(ps, 0, |reps|)
    requires |more| >= |reps| && more[..|reps|] == reps
    ensures Original(ps, more) == Original(ps, reps)
    decreases |ps|
  {
    if |ps| > 0 {
      OriginalExtend(ps[1..], reps, more);
      if ps[0].Tok? {
        assert more[ps[0].n] == more[..|reps|][ps[0].n];
      }
    }
  }

  // ---------------------------------------------------------------------
  // The shape of a placeholder
  // ---------------------------------------------------------------------

  lemma TokenShape(n: nat)
    ensures var t := Token(n);
      var d := |NatToString(n)|;
      && d >= 1 && |t| == 14 + d
      && t[0] == '_' && t[1] == '_' && t[2] == 'F' && t[3] == 'G' && t[4] == '_' && t[5] == 'E'
      && (forall i :: 0 <= i < 12 ==> t[i] == TokenPrefix[i])
      && (forall i :: 12 <= i < 12 + d ==> t[i] == NatToString(n)[i - 12] && IsDigit(t[i]))
      && t[12 + d] == '_' && t[13 + d] == '_'
  {
    var t := Token(n);
    var ds := NatToString(n);
    assert t == TokenPrefix + ds + TokenSuffix;
    forall i | 12 <= i < 12 + |ds|
      ensures t[i] == ds[i - 12] && IsDigit(t[i])
    {
      assert t[i] == (TokenPrefix + ds)[i];
    }
  }

  /** Inside the fixed prefix `__FG_ENTITY_`, `_` sits at 0, 1, 4 and 11. */
  lemma PrefixUnderscores(i: nat)
    requires i < 12 && TokenPrefix[i] == '_'
    ensures i == 0 || i == 1 || i == 4 || i == 11
  {
  }

  lemma NatToStringInjective(m: nat, k: nat)
    requires NatToString(m) == NatToString(k)
    ensures m == k
  {
    ParseNatToString(m);
    ParseNatToString(k);
  }

  /** Two different placeholders differ at a position both have. */
  lemma TokensDiffer(m: nat, k: nat) returns (i: nat)
    requires m != k
    ensures i < |Token(m)| && i < |Token(k)| && Token(m)[i] != Token(k)[i]
  {
    TokenShape(m);
    TokenShape(k);
    var dm := NatToString(m);
    var dk := NatToString(k);
    if |dm| == |dk| {
      if dm == dk {
        NatToStringInjective(m, k);
      }
      var j :| 0 <= j < |dm| && dm[j] != dk[j];
      i := 12 + j;
    } else if |dm| < |dk| {
      i := 12 + |dm|;
      assert IsDigit(Token(k)[i]);
    } else {
      i := 12 + |dk|;
      assert IsDigit(Token(m)[i]);
    }
  }

  // ---------------------------------------------------------------------
  // Where a placeholder can occur in a rendered text
  // ---------------------------------------------------------------------

  lemma RenderCons(ps: seq<Piece>)
    requires |ps| > 0
    ensures Render(ps) == PieceText(ps[0]) + Render(ps[1..])
  {
  }

  /** A clean rendering that starts with `_` starts with a placeholder, so
      its second character is `_` as well. */
  lemma StartsUnderscore(ps: seq<Piece>)
    requires LitsClean(ps) && |Render(ps)| >= 2 && Render(ps)[0] == '_'
    ensures ps[0].Tok? && Render(ps)[1] == '_'
  {
    assert |ps| > 0 && CleanLit(ps[0]);
    if ps[0].Tok? {
      TokenShape(ps[0].n);
      assert Render(ps)[1] == Token(ps[0].n)[1];
    }
  }

  /** A well-formed rendering does not start with `FG_E`. */
  lemma NoFGUE(ps: seq<Piece>)
    requires Wf(ps) && |Render(ps)| >= 4
    ensures !(Render(ps)[0] == 'F' && Render(ps)[1] == 'G' && Render(ps)[2] == '_' && Render(ps)[3] == 'E')
  {
    var r := Render(ps);
    assert |ps| > 0;
    var a := PieceText(ps[0]);
    assert r == a + Render(ps[1..]);
    match ps[0]
    case Tok(n) =>
      TokenShape(n);
      assert r[0] == '_';
    case Lit(x) =>
      assert CleanLit(ps[0]);
      if |x| >= 3 {
        assert r[2] == x[2];
      } else {
        assert |ps| > 1 && ps[1].Tok?;
        var t := Token(ps[1].n);
        TokenShape(ps[1].n);
        assert Render(ps[1..]) == t + Render(ps[2..]);
        if |x| == 2 {
          assert r[3] == t[1];
        } else {
          assert r[1] == t[0];
        }
      }
  }

  lemma OccursChar(r: string, t: string, j: nat, i: nat)
    requires OccursAt(r, t, j) && i < |t|
    ensures j + i < |r| && r[j + i] == t[i]
  {
    assert r[j..j + |t|][i] == t[i];
  }

  /** What may follow a placeholder in a well-formed rendering. */
  predicate SafeAfterToken(b: string)
  {
    && (|b| >= 4 ==> !(b[0] == 'F' && b[1] == 'G' && b[2] == '_' && b[3] == 'E'))
    && (|b| >= 2 && b[0] == '_' ==> b[1] == '_')
  }

  lemma SafeAfter(ps: seq<Piece>)
    requires Wf(ps)
    ensures SafeAfterToken(Render(ps))
  {
    if |Render(ps)| >= 4 {
      NoFGUE(ps);
    }
    if |Render(ps)| >= 2 && Render(ps)[0] == '_' {
      StartsUnderscore(ps);
    }
  }

  /** `Token(k)` does not start at the first position of another
      placeholder. */
  lemma NotAtOtherToken(m: nat, k: nat, b: string)
    requires m != k
    ensures !OccursAt(Token(m) + b, Token(k), 0)
  {
    var i := TokensDiffer(m, k);
  }

  /** `Token(k)` does not start strictly inside a placeholder. */
  lemma NotInsideToken(m: nat, k: nat, b: string, j: nat)
    requires 0 < j < |Token(m)| && SafeAfterToken(b)
    ensures !OccursAt(Token(m) + b, Token(k), j)
  {
    var a := Token(m);
    var r := a + b;
    var t := Token(k);
    TokenShape(m);
    TokenShape(k);
    var d := |NatToString(m)|;
    if OccursAt(r, t, j) {
      OccursChar(r, t, j, 0);
      OccursChar(r, t, j, 1);
      OccursChar(r, t, j, 2);
      if j + 2 < |a| && j < 12 {
        PrefixUnderscores(j);
      }
    }
  }

  /** In a well-formed rendering, `Token(k)` can only start at a `Tok(k)`
      piece: not inside a literal and not inside another placeholder. */
  lemma NoTokenInside(ps: seq<Piece>, k: nat, j: nat)
    requires Wf(ps) && |ps| > 0 && ps[0] != Tok(k) && j < |PieceText(ps[0])|
    ensures !OccursAt(Render(ps), Token(k), j)
  {
    var b := Render(ps[1..]);
    assert Render(ps) == PieceText(ps[0]) + b;
    TokenShape(k);
    match ps[0]
    case Lit(x) =>
      assert CleanLit(ps[0]);
      if OccursAt(Render(ps), Token(k), j) {
        OccursChar(Render(ps), Token(k), j, 0);
      }
    case Tok(m) =>
      assert Wf(ps[1..]) by {
        assert forall i :: 0 <= i < |ps| - 1 ==> ps[1..][i] == ps[i + 1];
      }
      SafeAfter(ps[1..]);
      if j == 0 {
        NotAtOtherToken(m, k, b);
      } else {
        NotInsideToken(m, k, b, j);
      }
  }

  // ---------------------------------------------------------------------
  // Restoring one placeholder
  // ---------------------------------------------------------------------

  /** Every `Tok(k)` piece turned into the literal `v`. */
  function Subst(ps: seq<Piece>, k: nat, v: string): (r: seq<Piece>)
    ensures |r| == |ps|
    decreases |ps|
  {
    if |ps| == 0 then []
    else [if ps[0] == Tok(k) then Lit(v) else ps[0]] + Subst(ps[1..], k, v)
  }

  /** In a well-formed rendering, replacing `Token(k)` everywhere is the
      same as replacing the `Tok(k)` pieces. */
  lemma {:induction false} ReplaceTokenRender(ps: seq<Piece>, k: nat, v: string)
    requires Wf(ps)
    ensures ReplaceAll(Render(ps), Token(k), v) == Render(Subst(ps, k, v))
    decreases |ps|
  {
    TokenShape(k);
    if |ps| == 0 {
      assert IndexOf("", Token(k)).None?;
    } else {
      var rest := ps[1..];
      assert Wf(rest) by {
        assert forall i :: 0 <= i < |rest| ==> rest[i] == ps[i + 1];
      }
      ReplaceTokenRender(rest, k, v);
      var sub := Subst(ps, k, v);
      assert sub[1..] == Subst(rest, k, v);
      if ps[0] == Tok(k) {
        ReplaceAllHead(Token(k), Render(rest), v);
      } else {
        forall j | 0 <= j < |PieceText(ps[0])|
          ensures !OccursAt(PieceText(ps[0]) + Render(rest), Token(k), j)
        {
          NoTokenInside(ps, k, j);
        }
        ReplaceAllSkip(PieceText(ps[0]), Render(rest), Token(k), v);
      }
    }
  }

  lemma {:induction false} SubstProps(ps: seq<Piece>, k: nat, v: string, reps: seq<Replacement>, hi: nat)
    requires LitsClean(ps) && ToksBelow(ps, k, hi)
    requires v != "" && NoUnderscore(v)
    requires k < |reps| && reps[k].value == v
    ensures LitsClean(Subst(ps, k, v))
    ensures ToksBelow(Subst(ps, k, v), k + 1, hi)
    ensures Original(Subst(ps, k, v), reps) == Original(ps, reps)
    decreases |ps|
  {
    if |ps| > 0 {
      SubstProps(ps[1..], k, v, reps, hi);
      var sub := Subst(ps, k, v);
      assert sub[1..] == Subst(ps[1..], k, v);
      assert forall i :: 1 <= i < |sub| ==> sub[i] == Subst(ps[1..], k, v)[i - 1];
    }
  }

  // ---------------------------------------------------------------------
  // Merging neighbouring literals
  // ---------------------------------------------------------------------

  /** Neighbouring literal pieces merged into one. */
  function Normalize(ps: seq<Piece>): (r: seq<Piece>)
    ensures |ps| > 0 ==> |r| > 0 && r[0].Tok? == ps[0].Tok?
    ensures Alternating(r)
    decreases |ps|
  {
    if |ps| <= 1 then ps
    else
      var rest := Normalize(ps[1..]);
      if ps[0].Lit? && rest[0].Lit? then [Lit(ps[0].s + rest[0].s)] + rest[1..]
      else [ps[0]] + rest
  }

  /** Merging literal pieces keeps the text and what it stands for, and
      keeps literal pieces clean and placeholders in range. */
  lemma NormalizeProps(ps: seq<Piece>, reps: seq<Replacement>, lo: nat, hi: nat)
    requires LitsClean(ps) && ToksBelow(ps, lo, hi)
    ensures var r := Normalize(ps);
      && Render(r) == Render(ps)
      && Original(r, reps) == Original(ps, reps)
      && LitsClean(r)
      && ToksBelow(r, lo, hi)
  {
    NormalizeText(ps, reps);
    NormalizeClean(ps, lo, hi);
  }

  lemma NormalizeText(ps: seq<Piece>, reps: seq<Replacement>)
    ensures Render(Normalize(ps)) == Render(ps)
    ensures Original(Normalize(ps), reps) == Original(ps, reps)
  {
    NormalizeRender(ps);
    NormalizeOriginal(ps, reps);
  }

  lemma {:induction false} NormalizeRender(ps: seq<Piece>)
    ensures Render(Normalize(ps)) == Render(ps)
    decreases |ps|
  {
    if |ps| > 1 {
      var rest := Normalize(ps[1..]);
      NormalizeRender(ps[1..]);
      if ps[0].Lit? && rest[0].Lit? {
        assert rest == [rest[0]] + rest[1..];
        MergeLits(ps[0].s, rest[0].s, rest[1..], []);
      } else {
        assert ([ps[0]] + rest)[1..] == rest;
      }
    }
  }

  lemma {:induction false} NormalizeOriginal(ps: seq<Piece>, reps: seq<Replacement>)
    ensures Original(Normalize(ps), reps) == Original(ps, reps)
    decreases |ps|
  {
    if |ps| > 1 {
      var rest := Normalize(ps[1..]);
      NormalizeOriginal(ps[1..], reps);
      if ps[0].Lit? && rest[0].Lit? {
        assert rest == [rest[0]] + rest[1..];
        MergeLits(ps[0].s, rest[0].s, rest[1..], reps);
      } else {
        assert ([ps[0]] + rest)[1..] == rest;
      }
    }
  }

  /** One literal piece spells what two neighbouring ones spell. */
  lemma MergeLits(a: string, b: string, tail: seq<Piece>, reps: seq<Replacement>)
    ensures Render([Lit(a + b)] + tail) == a + Render([Lit(b)] + tail)
    ensures Original([Lit(a + b)] + tail, reps) == a + Original([Lit(b)] + tail, reps)
  {
    assert ([Lit(a + b)] + tail)[1..] == tail;
    assert ([Lit(b)] + tail)[1..] == tail;
    assert (a + b) + Render(tail) == a + (b + Render(tail));
    assert (a + b) + Original(tail, reps) == a + (b + Original(tail, reps));
  }

  lemma {:induction false} NormalizeClean(ps: seq<Piece>, lo: nat, hi: nat)
    requires LitsClean(ps) && ToksBelow(ps, lo, hi)
    ensures LitsClean(Normalize(ps)) && ToksBelow(Normalize(ps), lo, hi)
    decreases |ps|
  {
    if |ps| > 1 {
      var rest := Normalize(ps[1..]);
      NormalizeClean(ps[1..], lo, hi);
      if ps[0].Lit? && rest[0].Lit? {
        var r := [Lit(ps[0].s + rest[0].s)] + rest[1..];
        assert CleanLit(r[0]) by {
          assert CleanLit(ps[0]) && CleanLit(rest[0]);
        }
        assert forall i :: 1 <= i < |r| ==> r[i] == rest[i];
      } else {
        var r := [ps[0]] + rest;
        assert forall i :: 1 <= i < |r| ==> r[i] == rest[i - 1];
      }
    }
  }

  // ---------------------------------------------------------------------
  // Restoring every placeholder
  // ---------------------------------------------------------------------

  /** Replacements as `protectPhrases` records them: numbered placeholders
      and non-empty values without `_`. */
  predicate RepsGood(reps: seq<Replacement>)
  {
    forall n :: 0 <= n < |reps| ==>
      reps[n].token == Token(n) && reps[n].value != "" && NoUnderscore(reps[n].value)
  }

  lemma {:induction false} NoToksRender(ps: seq<Piece>, reps: seq<Replacement>, k: nat)
    requires ToksBelow(ps, k, k)
    ensures Render(ps) == Original(ps, reps)
    decreases |ps|
  {
    if |ps| > 0 {
      NoToksRender(ps[1..], reps, k);
    }
  }

  /** Restoring the replacements from number `k` on, over pieces whose
      placeholders are numbered from `k`, yields the text they stand for. */
  lemma {:induction false} RestoreFrom(ps: seq<Piece>, reps: seq<Replacement>, k: nat)
    requires Wf(ps) && k <= |reps| && ToksBelow(ps, k, |reps|) && RepsGood(reps)
    ensures RestoreFold(Render(ps), reps[k..]) == Original(ps, reps)
    decreases |reps| - k
  {
    if k == |reps| {
      NoToksRender(ps, reps, k);
    } else {
      var v := reps[k].value;
      assert reps[k..][0] == reps[k] && reps[k..][1..] == reps[k + 1..];
      TokenShape(k);
      ReplaceTokenRender(ps, k, v);
      var sub := Subst(ps, k, v);
      SubstProps(ps, k, v, reps, |reps|);
      NormalizeProps(sub, reps, k + 1, |reps|);
      var next := Normalize(sub);
      RestoreFrom(next, reps, k + 1);
    }
  }

  // ---------------------------------------------------------------------
  // Protecting: where a phrase can match in a protected text
  // ---------------------------------------------------------------------

  /** A phrase without `_` that matches nowhere inside a placeholder. */
  ghost predicate Protectable(p: string)
  {
    NoUnderscore(p) && forall n: nat, j: nat :: !MatchesIgnoreCaseAt(Token(n), p, j)
  }

  /** The lower-cased characters a placeholder is made of. */
  predicate PlaceholderLetter(c: char)
  {
    c == '_' || IsDigit(c) || c in "fgenity"
  }

  lemma TokenLetters(n: nat)
    ensures forall i :: 0 <= i < |Token(n)| ==> PlaceholderLetter(LowerChar(Token(n)[i]))
  {
    TokenShape(n);
    var t := Token(n);
    var d := |NatToString(n)|;
    forall i | 0 <= i < |t|
      ensures PlaceholderLetter(LowerChar(t[i]))
    {
      if i < 12 {
        assert t[i] == TokenPrefix[i];
        assert TokenPrefix == ['_', '_', 'F', 'G', '_', 'E', 'N', 'T', 'I', 'T', 'Y', '_'];
      } else if i >= 12 + d {
        assert t[i] == '_';
      }
    }
  }

  /** A phrase without `_` holding a character that no placeholder holds,
      in either case, is protectable: every name with an `a`, say. */
  lemma ProtectableByLetter(p: string, k: nat)
    requires NoUnderscore(p) && k < |p| && !PlaceholderLetter(LowerChar(p[k]))
    ensures Protectable(p)
  {
    forall n: nat, j: nat
      ensures !MatchesIgnoreCaseAt(Token(n), p, j)
    {
      if j + |p| <= |Token(n)| {
        TokenLetters(n);
        var w := Token(n)[j..j + |p|];
        assert w[k] == Token(n)[j + k];
        assert ToLower(w)[k] != ToLower(p)[k];
      }
    }
  }

  /** A phrase without `_` cannot match across a `_`. */
  lemma NoMatchOverUnderscore(s: string, p: string, i: nat, q: nat)
    requires NoUnderscore(p) && i <= q < i + |p| && q < |s| && s[q] == '_'
    ensures !MatchesIgnoreCaseAt(s, p, i)
  {
    if i + |p| <= |s| {
      var w := s[i..i + |p|];
      assert w[q - i] == '_';
      assert ToLower(w)[q - i] == '_';
      assert ToLower(p)[q - i] == LowerChar(p[q - i]) != '_';
    }
  }

  /** A protectable phrase does not match from inside a placeholder. */
  lemma NoMatchFromToken(n: nat, b: string, p: string, i: nat)
    requires |p| > 0 && Protectable(p) && i < |Token(n)|
    ensures !MatchesIgnoreCaseAt(Token(n) + b, p, i)
  {
    var t := Token(n);
    TokenShape(n);
    if i + |p| <= |t| {
      assert (t + b)[i..i + |p|] == t[i..i + |p|];
      assert !MatchesIgnoreCaseAt(t, p, i);
    } else {
      NoMatchOverUnderscore(t + b, p, i, |t| - 1);
    }
  }

  /** A match that runs from a literal into the placeholder after it
      would cover the placeholder's leading `_`. */
  lemma NoMatchIntoToken(x: string, n: nat, c: string, p: string, i: nat)
    requires NoUnderscore(p) && i < |x| < i + |p|
    ensures !MatchesIgnoreCaseAt(x + (Token(n) + c), p, i)
  {
    TokenShape(n);
    var s := x + (Token(n) + c);
    if i + |p| <= |s| {
      assert s[|x|] == Token(n)[0] == '_';
      NoMatchOverUnderscore(s, p, i, |x|);
    }
  }

  /** A match past the first `|u|` characters is a match in the rest. */
  lemma ShiftMatch(u: string, w: string, p: string, i: nat)
    requires |u| <= i
    ensures MatchesIgnoreCaseAt(u + w, p, i) <==> MatchesIgnoreCaseAt(w, p, i - |u|)
  {
    if i + |p| <= |u + w| {
      assert (u + w)[i..i + |p|] == w[i - |u|..i - |u| + |p|];
    }
  }

  /** A match that ends within the first `|u|` characters is a match in `u`. */
  lemma PrefixMatch(u: string, w: string, p: string, i: nat)
    requires i + |p| <= |u|
    ensures MatchesIgnoreCaseAt(u + w, p, i) <==> MatchesIgnoreCaseAt(u, p, i)
  {
    assert (u + w)[i..i + |p|] == u[i..i + |p|];
  }

  /** `FindPhrase` finds the first match. */
  lemma FindPhraseIs(s: string, p: string, i: nat)
    requires MatchesIgnoreCaseAt(s, p, i)
    requires forall j :: 0 <= j < i ==> !MatchesIgnoreCaseAt(s, p, j)
    ensures FindPhrase(s, p) == Some(i)
  {
    FindFromIs(s, p, 0, i);
  }

  lemma FindPhraseNone(s: string, p: string)
    requires forall j :: !MatchesIgnoreCaseAt(s, p, j)
    ensures FindPhrase(s, p) == None
  {
    FindFromNone(s, p, 0);
  }

  // ---------------------------------------------------------------------
  // Protecting: a scan over a concatenation
  // ---------------------------------------------------------------------

  /** No match of `p` in `u + w` starts in `u` and ends in `w`. */
  predicate NoCross(u: string, w: string, p: string)
  {
    forall j :: 0 <= j < |u| < j + |p| ==> !MatchesIgnoreCaseAt(u + w, p, j)
  }

  /** A scan that finds the phrase at `i` records it as the next
      placeholder and carries on after the match. */
  lemma ProtectScanAt(s: string, p: string, reps: seq<Replacement>, i: nat)
    requires |p| > 0 && FindPhrase(s, p) == Some(i)
    ensures var reps' := reps + [Replacement(Token(|reps|), s[i..i + |p|])];
      var rest := ProtectScan(s[i + |p|..], p, reps');
      ProtectScan(s, p, reps) == (s[..i] + Token(|reps|) + rest.0, rest.1)
  {
  }

  /** The first match in `u + w` is the first one in `u`, when `u` has one
      and no match crosses into `w`. */
  lemma FirstMatchInFront(u: string, w: string, p: string, i: nat)
    requires |p| > 0 && NoCross(u, w, p) && FindPhrase(u, p) == Some(i)
    ensures FindPhrase(u + w, p) == Some(i)
  {
    FindPhraseSpec(u, p);
    forall j | 0 <= j < i
      ensures !MatchesIgnoreCaseAt(u + w, p, j)
    {
      if j + |p| <= |u| {
        PrefixMatch(u, w, p, j);
      }
    }
    PrefixMatch(u, w, p, i);
    FindPhraseIs(u + w, p, i);
  }

  /** Without a match in `u` or across, no match of `u + w` starts in `u`. */
  lemma NoMatchInFront(u: string, w: string, p: string)
    requires |p| > 0 && NoCross(u, w, p) && FindPhrase(u, p).None?
    ensures forall j :: 0 <= j < |u| ==> !MatchesIgnoreCaseAt(u + w, p, j)
  {
    FindPhraseSpec(u, p);
    forall j | 0 <= j < |u|
      ensures !MatchesIgnoreCaseAt(u + w, p, j)
    {
      if j + |p| <= |u| {
        PrefixMatch(u, w, p, j);
      }
    }
  }

  /** Without a match in `u` or across, the matches of `u + w` are those of
      `w`, moved on by `|u|`. */
  lemma FirstMatchBehind(u: string, w: string, p: string)
    requires |p| > 0 && NoCross(u, w, p) && FindPhrase(u, p).None?
    ensures FindPhrase(w, p).None? ==> FindPhrase(u + w, p).None?
    ensures FindPhrase(w, p).Some? ==> FindPhrase(u + w, p) == Some(|u| + FindPhrase(w, p).value)
  {
    NoMatchInFront(u, w, p);
    FindPhraseSpec(w, p);
    match FindPhrase(w, p)
    case None =>
      NoMatchBehind(u, w, p);
    case Some(k) =>
      MatchBehind(u, w, p, k);
  }

  lemma NoMatchBehind(u: string, w: string, p: string)
    requires forall j :: 0 <= j < |u| ==> !MatchesIgnoreCaseAt(u + w, p, j)
    requires forall j :: !MatchesIgnoreCaseAt(w, p, j)
    ensures FindPhrase(u + w, p).None?
  {
    forall j: nat
      ensures !MatchesIgnoreCaseAt(u + w, p, j)
    {
      if j >= |u| {
        ShiftMatch(u, w, p, j);
      }
    }
    FindPhraseNone(u + w, p);
  }

  lemma MatchBehind(u: string, w: string, p: string, k: nat)
    requires forall j :: 0 <= j < |u| ==> !MatchesIgnoreCaseAt(u + w, p, j)
    requires MatchesIgnoreCaseAt(w, p, k) && forall j :: 0 <= j < k ==> !MatchesIgnoreCaseAt(w, p, j)
    ensures FindPhrase(u + w, p) == Some(|u| + k)
  {
    var s := u + w;
    ShiftMatch(u, w, p, |u| + k);
    forall j | 0 <= j < |u| + k
      ensures !MatchesIgnoreCaseAt(s, p, j)
    {
      if j >= |u| {
        ShiftMatch(u, w, p, j);
      }
    }
    FindPhraseIs(s, p, |u| + k);
  }

  /** What is left of `u` after a match still does not cross into `w`. */
  lemma NoCrossRest(u: string, w: string, p: string, e: nat)
    requires NoCross(u, w, p) && e <= |u|
    ensures NoCross(u[e..], w, p)
  {
    var u' := u[e..];
    assert u[..e] + (u' + w) == u + w;
    forall j | 0 <= j < |u'| < j + |p|
      ensures !MatchesIgnoreCaseAt(u' + w, p, j)
    {
      ShiftMatch(u[..e], u' + w, p, j + e);
    }
  }

  /** When no match crosses from `u` into `w`, scanning `u + w` is scanning
      `u` and then `w`, the placeholders numbered on. */
  lemma {:induction false} ScanAppend(u: string, w: string, p: string, reps: seq<Replacement>)
    requires |p| > 0 && NoCross(u, w, p)
    ensures var su := ProtectScan(u, p, reps);
      var sw := ProtectScan(w, p, su.1);
      ProtectScan(u + w, p, reps) == (su.0 + sw.0, sw.1)
    decreases |u|
  {
    match FindPhrase(u, p)
    case Some(i) =>
      var e := i + |p|;
      var reps' := reps + [Replacement(Token(|reps|), u[i..e])];
      NoCrossRest(u, w, p, e);
      ScanAppend(u[e..], w, p, reps');
      ScanAppendFront(u, w, p, reps, i);
    case None =>
      ScanAppendBehind(u, w, p, reps);
  }

  /** The step of `ScanAppend` without a match in `u`. */
  lemma ScanAppendBehind(u: string, w: string, p: string, reps: seq<Replacement>)
    requires |p| > 0 && NoCross(u, w, p) && FindPhrase(u, p).None?
    ensures var su := ProtectScan(u, p, reps);
      var sw := ProtectScan(w, p, su.1);
      ProtectScan(u + w, p, reps) == (su.0 + sw.0, sw.1)
  {
    FirstMatchBehind(u, w, p);
    match FindPhrase(w, p)
    case None =>
    case Some(k) =>
      ScanBehindAt(u, w, p, reps, k);
  }

  /** Scanning `u + w` when the first match is the one of `w`, behind `u`. */
  lemma ScanBehindAt(u: string, w: string, p: string, reps: seq<Replacement>, k: nat)
    requires |p| > 0 && FindPhrase(w, p) == Some(k) && FindPhrase(u + w, p) == Some(|u| + k)
    ensures var sw := ProtectScan(w, p, reps);
      ProtectScan(u + w, p, reps) == (u + sw.0, sw.1)
  {
    var e := k + |p|;
    var t := Token(|reps|);
    var rest := ProtectScan(w[e..], p, reps + [Replacement(t, w[k..e])]);
    ScanWhole(u, w, p, reps, k);
    ScanPart(w, p, reps, k);
    Reassociate3(u, w[..k], t, rest.0);
  }

  /** The scan of `u + w` at its first match, `k` into `w`. */
  lemma ScanWhole(u: string, w: string, p: string, reps: seq<Replacement>, k: nat)
    requires |p| > 0 && k + |p| <= |w| && FindPhrase(u + w, p) == Some(|u| + k)
    ensures var e := k + |p|;
      var rest := ProtectScan(w[e..], p, reps + [Replacement(Token(|reps|), w[k..e])]);
      ProtectScan(u + w, p, reps) == (u + w[..k] + Token(|reps|) + rest.0, rest.1)
  {
    var e := k + |p|;
    var s := u + w;
    BehindSlices(u, w, k, e);
    ProtectScanAt(s, p, reps, |u| + k);
    assert s[|u| + k + |p|..] == w[e..] && s[|u| + k..|u| + k + |p|] == w[k..e];
  }

  /** The scan of `w` at its first match `k`, with the cut written as
      `ScanWhole` writes it. */
  lemma ScanPart(w: string, p: string, reps: seq<Replacement>, k: nat)
    requires |p| > 0 && FindPhrase(w, p) == Some(k)
    ensures var e := k + |p|;
      var rest := ProtectScan(w[e..], p, reps + [Replacement(Token(|reps|), w[k..e])]);
      ProtectScan(w, p, reps) == (w[..k] + Token(|reps|) + rest.0, rest.1)
  {
    ProtectScanAt(w, p, reps, k);
  }

  lemma BehindSlices(u: string, w: string, k: nat, e: nat)
    requires k <= e <= |w|
    ensures (u + w)[..|u| + k] == u + w[..k]
    ensures (u + w)[|u| + k..|u| + e] == w[k..e]
    ensures (u + w)[|u| + e..] == w[e..]
  {
  }

  lemma Reassociate3(a: string, b: string, c: string, d: string)
    ensures a + b + c + d == a + (b + c + d)
  {
  }

  /** The step of `ScanAppend` for a match in `u`. */
  lemma ScanAppendFront(u: string, w: string, p: string, reps: seq<Replacement>, i: nat)
    requires |p| > 0 && NoCross(u, w, p) && FindPhrase(u, p) == Some(i)
    requires var e := i + |p|;
      var reps' := reps + [Replacement(Token(|reps|), u[i..e])];
      var su' := ProtectScan(u[e..], p, reps');
      var sw := ProtectScan(w, p, su'.1);
      ProtectScan(u[e..] + w, p, reps') == (su'.0 + sw.0, sw.1)
    ensures var su := ProtectScan(u, p, reps);
      var sw := ProtectScan(w, p, su.1);
      ProtectScan(u + w, p, reps) == (su.0 + sw.0, sw.1)
  {
    var e := i + |p|;
    var t := Token(|reps|);
    var reps' := reps + [Replacement(t, u[i..e])];
    var su' := ProtectScan(u[e..], p, reps');
    var sw := ProtectScan(w, p, su'.1);
    FirstMatchInFront(u, w, p, i);
    FrontSlices(u, w, i, e);
    ProtectScanAt(u + w, p, reps, i);
    ProtectScanAt(u, p, reps, i);
    Reassociate(u[..i], t, su'.0, sw.0);
  }

  lemma FrontSlices(u: string, w: string, i: nat, e: nat)
    requires i <= e <= |u|
    ensures (u + w)[..i] == u[..i] && (u + w)[i..e] == u[i..e] && (u + w)[e..] == u[e..] + w
  {
  }

  lemma Reassociate(a: string, b: string, c: string, d: string)
    ensures a + b + (c + d) == (a + b + c) + d
  {
  }

  // ---------------------------------------------------------------------
  // Protecting: one literal stretch
  // ---------------------------------------------------------------------

  /** The literal stretch before position `o`, if any. */
  function Before(x: string, o: nat): seq<Piece>
    requires o <= |x|
  {
    if o == 0 then [] else [Lit(x[..o])]
  }

  /** The pieces the scan of one phrase makes of a literal stretch: the
      text between matches stays literal, each match becomes the next
      placeholder. */
  function LitScan(x: string, p: string, reps: seq<Replacement>): seq<Piece>
    requires |p| > 0
    decreases |x|
  {
    match FindPhrase(x, p)
    case None => if x == "" then [] else [Lit(x)]
    case Some(i) =>
      var reps' := reps + [Replacement(Token(|reps|), x[i..i + |p|])];
      Before(x, i) + [Tok(|reps|)] + LitScan(x[i + |p|..], p, reps')
  }

  /** What the pieces around a match spell and stand for. */
  lemma AssembleText(x: string, i: nat, e: nat, n: nat, rest: seq<Piece>, reps: seq<Replacement>)
    requires i < e <= |x|
    requires n < |reps| && reps[n].value == x[i..e]
    requires Original(rest, reps) == x[e..]
    ensures var ls := Before(x, i) + [Tok(n)] + rest;
      && Render(ls) == x[..i] + Token(n) + Render(rest)
      && Original(ls, reps) == x
  {
    var b := Before(x, i);
    var t := [Tok(n)];
    BeforeFacts(x, i, reps);
    TokFacts(n, reps);
    RenderAppend(b, t);
    RenderAppend(b + t, rest);
    OriginalAppend(b, t, reps);
    OriginalAppend(b + t, rest, reps);
    SplitThree(x, i, e);
  }

  lemma BeforeFacts(x: string, o: nat, reps: seq<Replacement>)
    requires o <= |x|
    ensures Render(Before(x, o)) == x[..o] && Original(Before(x, o), reps) == x[..o]
  {
    if o > 0 {
      assert Before(x, o)[1..] == [];
    }
  }

  lemma TokFacts(n: nat, reps: seq<Replacement>)
    requires n < |reps|
    ensures Render([Tok(n)]) == Token(n) && Original([Tok(n)], reps) == reps[n].value
  {
    assert [Tok(n)][1..] == [];
  }

  lemma SplitThree(x: string, i: nat, e: nat)
    requires i <= e <= |x|
    ensures x == x[..i] + x[i..e] + x[e..]
  {
  }

  /** The pieces around a match keep literal stretches clean and
      placeholders in range. */
  lemma AssembleClean(x: string, i: nat, n: nat, rest: seq<Piece>, hi: nat)
    requires i <= |x| && NoUnderscore(x)
    requires LitsClean(rest) && ToksBelow(rest, n + 1, hi) && n < hi
    ensures var ls := Before(x, i) + [Tok(n)] + rest;
      LitsClean(ls) && ToksBelow(ls, n, hi)
  {
    var ls := Before(x, i) + [Tok(n)] + rest;
    var m := |Before(x, i)| + 1;
    forall k | m <= k < |ls|
      ensures ls[k] == rest[k - m]
    {
    }
  }

  /** A replacement recorded for a match in clean text keeps the
      replacements as `protectPhrases` records them. */
  lemma RecordMatch(x: string, i: nat, e: nat, reps: seq<Replacement>)
    requires i < e <= |x| && NoUnderscore(x) && RepsGood(reps)
    ensures RepsGood(reps + [Replacement(Token(|reps|), x[i..e])])
  {
    assert x[i..e][0] == x[i];
  }

  lemma NoUnderscoreSuffix(x: string, e: nat)
    requires e <= |x| && NoUnderscore(x)
    ensures NoUnderscore(x[e..])
  {
    assert forall k :: 0 <= k < |x| - e ==> x[e..][k] == x[e + k];
  }

  /** Scanning a clean literal stretch: the pieces spell the scanned text,
      stand for the stretch, and number their placeholders on from the
      replacements before. */
  lemma {:induction false} ScanLiteral(x: string, p: string, reps: seq<Replacement>)
    requires |p| > 0 && NoUnderscore(x) && RepsGood(reps)
    ensures var sc := ProtectScan(x, p, reps);
      var ls := LitScan(x, p, reps);
      && Render(ls) == sc.0
      && LitsClean(ls)
      && ToksBelow(ls, |reps|, |sc.1|)
      && RepsGood(sc.1)
      && Original(ls, sc.1) == x
    decreases |x|
  {
    match FindPhrase(x, p)
    case None =>
      assert ProtectScan(x, p, reps) == (x, reps);
      if x != "" {
        assert [Lit(x)][1..] == [];
      }
    case Some(i) =>
      ScanLiteralAt(x, p, reps, i);
  }

  lemma {:induction false} ScanLiteralAt(x: string, p: string, reps: seq<Replacement>, i: nat)
    requires |p| > 0 && NoUnderscore(x) && RepsGood(reps) && FindPhrase(x, p) == Some(i)
    ensures var sc := ProtectScan(x, p, reps);
      var ls := LitScan(x, p, reps);
      && Render(ls) == sc.0
      && LitsClean(ls)
      && ToksBelow(ls, |reps|, |sc.1|)
      && RepsGood(sc.1)
      && Original(ls, sc.1) == x
    decreases |x|, 0
  {
    var e := i + |p|;
    var n := |reps|;
    var reps' := reps + [Replacement(Token(n), x[i..e])];
    var rest := LitScan(x[e..], p, reps');
    var sr := ProtectScan(x[e..], p, reps');
    ProtectScanAt(x, p, reps, i);
    NoUnderscoreSuffix(x, e);
    RecordMatch(x, i, e, reps);
    ScanLiteral(x[e..], p, reps');
    assert sr.1[n] == sr.1[..|reps'|][n] == reps'[n];
    AssembleText(x, i, e, n, rest, sr.1);
    AssembleClean(x, i, n, rest, |sr.1|);
  }

  // ---------------------------------------------------------------------
  // Protecting: one phrase over a protected text
  // ---------------------------------------------------------------------

  /** The pieces the scan of one phrase makes of a protected text: literal
      stretches are scanned, placeholders stay. */
  function PiecesScan(ps: seq<Piece>, p: string, reps: seq<Replacement>): seq<Piece>
    requires |p| > 0
    decreases |ps|
  {
    if |ps| == 0 then []
    else
      HeadScanned(ps[0], p, reps) + PiecesScan(ps[1..], p, ProtectScan(PieceText(ps[0]), p, reps).1)
  }

  /** The pieces one piece becomes. */
  function HeadScanned(q: Piece, p: string, reps: seq<Replacement>): seq<Piece>
    requires |p| > 0
  {
    match q
    case Lit(x) => LitScan(x, p, reps)
    case Tok(n) => [Tok(n)]
  }

  lemma ToksBelowWiden(ps: seq<Piece>, lo: nat, hi: nat, lo': nat, hi': nat)
    requires ToksBelow(ps, lo, hi) && lo' <= lo && hi <= hi'
    ensures ToksBelow(ps, lo', hi')
  {
  }

  lemma ConcatClean(a: seq<Piece>, b: seq<Piece>, hi: nat)
    requires LitsClean(a) && LitsClean(b) && ToksBelow(a, 0, hi) && ToksBelow(b, 0, hi)
    ensures LitsClean(a + b) && ToksBelow(a + b, 0, hi)
  {
    assert forall k :: |a| <= k < |a + b| ==> (a + b)[k] == b[k - |a|];
  }

  lemma WfTail(ps: seq<Piece>)
    requires |ps| > 0 && Wf(ps)
    ensures Wf(ps[1..])
  {
    assert forall k :: 0 <= k < |ps| - 1 ==> ps[1..][k] == ps[k + 1];
  }

  /** No match runs from the first piece of a protected text into the
      rest. */
  lemma PieceNoCross(ps: seq<Piece>, p: string)
    requires |ps| > 0 && Wf(ps) && |p| > 0 && Protectable(p)
    ensures NoCross(PieceText(ps[0]), Render(ps[1..]), p)
  {
    var u := PieceText(ps[0]);
    var w := Render(ps[1..]);
    forall j | 0 <= j < |u| < j + |p|
      ensures !MatchesIgnoreCaseAt(u + w, p, j)
    {
      if ps[0].Tok? {
        NoMatchFromToken(ps[0].n, w, p, j);
      } else if |ps| == 1 {
        assert w == "";
        assert u + w == u;
      } else {
        assert ps[0].Tok? || ps[1].Tok?;
        assert ps[1..][1..] == ps[2..];
        assert w == Token(ps[1].n) + Render(ps[2..]);
        NoMatchIntoToken(u, ps[1].n, Render(ps[2..]), p, j);
      }
    }
  }

  /** Scanning the first piece: a literal stretch as `ScanLiteral` says, a
      placeholder untouched. */
  lemma HeadScan(q: Piece, p: string, reps: seq<Replacement>)
    requires |p| > 0 && Protectable(p) && CleanLit(q) && RepsGood(reps)
    requires q.Tok? ==> q.n < |reps|
    ensures var su := ProtectScan(PieceText(q), p, reps);
      var head := HeadScanned(q, p, reps);
      && Render(head) == su.0
      && LitsClean(head)
      && ToksBelow(head, 0, |su.1|)
      && RepsGood(su.1)
      && Original(head, su.1) == Original([q], reps)
  {
    match q
    case Lit(x) =>
      ScanLiteral(x, p, reps);
      ToksBelowWiden(LitScan(x, p, reps), |reps|, |ProtectScan(x, p, reps).1|, 0, |ProtectScan(x, p, reps).1|);
      assert [q][1..] == [];
    case Tok(n) =>
      FindPhraseNone(Token(n), p);
      assert ProtectScan(Token(n), p, reps) == (Token(n), reps);
      TokFacts(n, reps);
  }

  /** Scanning a protected text for one protectable phrase: the pieces
      spell the scanned text, keep literal stretches clean, number the new
      placeholders on, and stand for the same original text. */
  lemma {:induction false} ScanPieces(ps: seq<Piece>, p: string, reps: seq<Replacement>)
    requires |p| > 0 && Protectable(p) && Wf(ps) && ToksBelow(ps, 0, |reps|) && RepsGood(reps)
    ensures var sc := ProtectScan(Render(ps), p, reps);
      var qs := PiecesScan(ps, p, reps);
      && Render(qs) == sc.0
      && LitsClean(qs)
      && ToksBelow(qs, 0, |sc.1|)
      && RepsGood(sc.1)
      && Original(qs, sc.1) == Original(ps, reps)
    decreases |ps|
  {
    if |ps| == 0 {
      assert ProtectScan("", p, reps) == ("", reps);
    } else {
      var rest := ps[1..];
      var su := ProtectScan(PieceText(ps[0]), p, reps);
      HeadScan(ps[0], p, reps);
      WfTail(ps);
      assert ToksBelow(rest, 0, |su.1|) by {
        assert forall k :: 0 <= k < |rest| ==> rest[k] == ps[k + 1];
      }
      ScanPieces(rest, p, su.1);
      ScanPiecesJoin(ps, p, reps);
    }
  }

  /** The step of `ScanPieces`: the first piece's scan joined to the
      rest's. */
  lemma ScanPiecesJoin(ps: seq<Piece>, p: string, reps: seq<Replacement>)
    requires |p| > 0 && Protectable(p) && |ps| > 0 && Wf(ps) && ToksBelow(ps, 0, |reps|)
    requires var su := ProtectScan(PieceText(ps[0]), p, reps);
      var head := HeadScanned(ps[0], p, reps);
      && Render(head) == su.0
      && LitsClean(head)
      && ToksBelow(head, 0, |su.1|)
      && Original(head, su.1) == Original([ps[0]], reps)
    requires var su := ProtectScan(PieceText(ps[0]), p, reps);
      var sc := ProtectScan(Render(ps[1..]), p, su.1);
      var qs := PiecesScan(ps[1..], p, su.1);
      && Render(qs) == sc.0
      && LitsClean(qs)
      && ToksBelow(qs, 0, |sc.1|)
      && RepsGood(sc.1)
      && Original(qs, sc.1) == Original(ps[1..], su.1)
    ensures var sc := ProtectScan(Render(ps), p, reps);
      var qs := PiecesScan(ps, p, reps);
      && Render(qs) == sc.0
      && LitsClean(qs)
      && ToksBelow(qs, 0, |sc.1|)
      && RepsGood(sc.1)
      && Original(qs, sc.1) == Original(ps, reps)
  {
    var su := ProtectScan(PieceText(ps[0]), p, reps);
    var sw := ProtectScan(Render(ps[1..]), p, su.1);
    ScanFirstPiece(ps, p, reps);
    JoinFacts(HeadScanned(ps[0], p, reps), PiecesScan(ps[1..], p, su.1), su.1, sw.1);
    OriginalFirst(ps, reps, su.1);
  }

  /** The scan of a protected text is the scan of its first piece followed
      by the scan of the rest. */
  lemma ScanFirstPiece(ps: seq<Piece>, p: string, reps: seq<Replacement>)
    requires |p| > 0 && Protectable(p) && |ps| > 0 && Wf(ps)
    ensures var su := ProtectScan(PieceText(ps[0]), p, reps);
      var sw := ProtectScan(Render(ps[1..]), p, su.1);
      ProtectScan(Render(ps), p, reps) == (su.0 + sw.0, sw.1)
  {
    assert Render(ps) == PieceText(ps[0]) + Render(ps[1..]);
    PieceNoCross(ps, p);
    ScanAppend(PieceText(ps[0]), Render(ps[1..]), p, reps);
  }

  /** Joining the pieces of the first piece's scan to the rest's. */
  lemma JoinFacts(head: seq<Piece>, tail: seq<Piece>, su: seq<Replacement>, sw: seq<Replacement>)
    requires LitsClean(head) && ToksBelow(head, 0, |su|)
    requires LitsClean(tail) && ToksBelow(tail, 0, |sw|)
    requires |sw| >= |su| && sw[..|su|] == su
    ensures LitsClean(head + tail) && ToksBelow(head + tail, 0, |sw|)
    ensures Render(head + tail) == Render(head) + Render(tail)
    ensures Original(head + tail, sw) == Original(head, su) + Original(tail, sw)
  {
    RenderAppend(head, tail);
    ToksBelowWiden(head, 0, |su|, 0, |sw|);
    ConcatClean(head, tail, |sw|);
    OriginalAppend(head, tail, sw);
    OriginalExtend(head, su, sw);
  }

  /** What a protected text stands for, its first piece read with the
      replacements before and the rest with more. */
  lemma OriginalFirst(ps: seq<Piece>, reps: seq<Replacement>, more: seq<Replacement>)
    requires |ps| > 0 && ToksBelow(ps, 0, |reps|)
    requires |more| >= |reps| && more[..|reps|] == reps
    ensures Original(ps, reps) == Original([ps[0]], reps) + Original(ps[1..], more)
  {
    var rest := ps[1..];
    assert ToksBelow(rest, 0, |reps|) by {
      assert forall k :: 0 <= k < |rest| ==> rest[k] == ps[k + 1];
    }
    OriginalExtend(rest, reps, more);
    assert [ps[0]][1..] == [];
  }

  // ---------------------------------------------------------------------
  // Protecting: all the phrases, and the round trip
  // ---------------------------------------------------------------------

  /** The pieces of the protected text after each phrase of the fold in
      `ProtectFrom`. */
  ghost function FoldPieces(ps: seq<Piece>, phrases: seq<string>, reps: seq<Replacement>, seen: set<string>): seq<Piece>
    decreases |phrases|
  {
    if |phrases| == 0 then ps
    else
      var p := phrases[0];
      if |p| < 2 || ToLower(p) in seen then FoldPieces(ps, phrases[1..], reps, seen)
      else
        var sc := ProtectScan(Render(ps), p, reps);
        FoldPieces(Normalize(PiecesScan(ps, p, reps)), phrases[1..], sc.1, seen + {ToLower(p)})
  }

  /** Every phrase the fold scans for is protectable. */
  ghost predicate AllProtectable(phrases: seq<string>)
  {
    forall k :: 0 <= k < |phrases| && |phrases[k]| >= 2 ==> Protectable(phrases[k])
  }

  /** Each phrase of the fold keeps the protected text a well-formed
      rendering of pieces that stand for the same original text. */
  lemma {:induction false} ProtectFold(ps: seq<Piece>, phrases: seq<string>, reps: seq<Replacement>, seen: set<string>)
    requires Wf(ps) && ToksBelow(ps, 0, |reps|) && RepsGood(reps) && AllProtectable(phrases)
    ensures var r := ProtectFrom(Render(ps), phrases, reps, seen);
      var qs := FoldPieces(ps, phrases, reps, seen);
      && Wf(qs)
      && Render(qs) == r.text
      && ToksBelow(qs, 0, |r.replacements|)
      && RepsGood(r.replacements)
      && Original(qs, r.replacements) == Original(ps, reps)
    decreases |phrases|
  {
    if |phrases| > 0 {
      var p := phrases[0];
      assert AllProtectable(phrases[1..]) by {
        assert forall k :: 0 <= k < |phrases| - 1 ==> phrases[1..][k] == phrases[k + 1];
      }
      if |p| < 2 || ToLower(p) in seen {
        ProtectFold(ps, phrases[1..], reps, seen);
      } else {
        assert Protectable(phrases[0]);
        var sc := ProtectScan(Render(ps), p, reps);
        var qs := PiecesScan(ps, p, reps);
        ScanPieces(ps, p, reps);
        NormalizeProps(qs, sc.1, 0, |sc.1|);
        ProtectFold(Normalize(qs), phrases[1..], sc.1, seen + {ToLower(p)});
      }
    }
  }

  /** Clean pieces spell something unless there are none. */
  lemma RenderNonEmpty(qs: seq<Piece>)
    requires LitsClean(qs) && |qs| > 0
    ensures Render(qs) != ""
  {
    if qs[0].Tok? {
      TokenShape(qs[0].n);
    }
  }

  /** `restoreTokens` undoes `protectPhrases`: restoring the placeholders
      of a protected text yields the text, when neither the text nor the
      phrases of two or more characters contain `_` and no such phrase
      matches inside a placeholder. */
  lemma ProtectRestoreRoundTrip(text: string, phrases: seq<string>)
    requires NoUnderscore(text) && AllProtectable(phrases)
    ensures var r := ProtectPhrases(text, phrases);
      RestoreTokens(r.text, r.replacements) == text
  {
    var ps := if text == "" then [] else [Lit(text)];
    assert Render(ps) == text && Original(ps, []) == text by {
      if text != "" {
        assert ps[1..] == [];
      }
    }
    var r := ProtectPhrases(text, phrases);
    var qs := FoldPieces(ps, phrases, [], {});
    ProtectFold(ps, phrases, [], {});
    RestoreFrom(qs, r.replacements, 0);
    assert r.replacements[0..] == r.replacements;
    if |qs| > 0 {
      RenderNonEmpty(qs);
    }
  }
}
