/** Phrase protection (processing/EntityUtils.js): before a text is
    rewritten, every occurrence of the protected phrases is swapped for a
    numbered placeholder `__FG_ENTITY_<n>__`, and afterwards the
    placeholders are swapped back. */
module EntityUtils {
  import opened Wrappers
  import opened Seqs
  import opened Strings

  const TokenPrefix: string := "__FG_ENTITY_"
  const TokenSuffix: string := "__"

  /** The placeholder for the `n`-th replacement. */
  function Token(n: nat): string
  {
    TokenPrefix + NatToString(n) + TokenSuffix
  }

  datatype Replacement = Replacement(token: string, value: string)

  datatype Protection = Protection(text: string, replacements: seq<Replacement>)

  // ---------------------------------------------------------------------
  // escapeRegExp
  // ---------------------------------------------------------------------

  /** The characters of the class `[.*+?^${}()|[\]\\]`. */
  predicate IsRegExpSpecial(c: char)
  {
    c in ".*+?^${}()|[]\\"
  }

  /** `escapeRegExp(str)`: a backslash before every special character. */
  function EscapeRegExp(s: string): (r: string)
    ensures |r| >= |s|
  {
    if |s| == 0 then ""
    else (if IsRegExpSpecial(s[0]) then ['\\', s[0]] else [s[0]]) + EscapeRegExp(s[1..])
  }

  /** The literal text a pattern of plain characters and `\c` escapes
      matches. */
  function Unescape(p: string): string
    decreases |p|
  {
    if |p| == 0 then ""
    else if p[0] == '\\' && |p| >= 2 then [p[1]] + Unescape(p[2..])
    else [p[0]] + Unescape(p[1..])
  }

  /** The escaped pattern matches exactly the original string. */
  lemma {:induction false} EscapeRoundTrip(s: string)
    ensures Unescape(EscapeRegExp(s)) == s
  {
    if |s| > 0 {
      EscapeRoundTrip(s[1..]);
      var e := EscapeRegExp(s);
      if IsRegExpSpecial(s[0]) {
        assert e == ['\\', s[0]] + EscapeRegExp(s[1..]);
        assert e[2..] == EscapeRegExp(s[1..]);
      } else {
        assert e == [s[0]] + EscapeRegExp(s[1..]);
        assert e[1..] == EscapeRegExp(s[1..]);
      }
      assert s == [s[0]] + s[1..];
    }
  }

  /** A string without special characters is its own pattern. */
  lemma {:induction false} EscapePlain(s: string)
    requires forall i :: 0 <= i < |s| ==> !IsRegExpSpecial(s[i])
    ensures EscapeRegExp(s) == s
  {
    if |s| > 0 {
      EscapePlain(s[1..]);
      assert s == [s[0]] + s[1..];
    }
  }

  // ---------------------------------------------------------------------
  // protectPhrases
  // ---------------------------------------------------------------------

  /** `value` is what a case-insensitive match of `phrase` can cover. */
  predicate MatchesPhrase(value: string, phrase: string)
  {
    |value| == |phrase| && ToLower(value) == ToLower(phrase)
  }

  /** Replacements numbered from `from`: the `k`-th carries `Token(k)` and
      a match of `phrase`. */
  predicate NumberedFrom(reps: seq<Replacement>, from: nat, phrase: string)
  {
    forall k :: from <= k < |reps| ==> reps[k].token == Token(k) && MatchesPhrase(reps[k].value, phrase)
  }

  /** The first `k` from `j` to `last` with `at(k)`, scanning upwards. */
  function FirstAt(at: nat -> bool, last: int, j: nat): (r: Option<nat>)
    ensures r.Some? ==> j <= r.value <= last
    decreases last + 1 - j
  {
    if j > last then None
    else if at(j) then Some(j)
    else FirstAt(at, last, j + 1)
  }

  lemma {:induction false} FirstAtFound(at: nat -> bool, last: int, j: nat)
    ensures var r := FirstAt(at, last, j);
      r.Some? ==> at(r.value) && forall k :: j <= k < r.value ==> !at(k)
    decreases last + 1 - j
  {
    if j <= last && !at(j) {
      FirstAtFound(at, last, j + 1);
    }
  }

  lemma {:induction false} FirstAtMissing(at: nat -> bool, last: int, j: nat)
    requires forall k: nat :: k > last ==> !at(k)
    ensures FirstAt(at, last, j).None? ==> forall k :: j <= k ==> !at(k)
    decreases last + 1 - j
  {
    if j <= last && !at(j) {
      FirstAtMissing(at, last, j + 1);
    }
  }

  lemma {:induction false} FirstAtIs(at: nat -> bool, last: int, j: nat, i: nat)
    requires j <= i <= last && at(i)
    requires forall k :: j <= k < i ==> !at(k)
    ensures FirstAt(at, last, j) == Some(i)
    decreases i - j
  {
    if j < i {
      FirstAtIs(at, last, j + 1, i);
    }
  }

  lemma {:induction false} FirstAtNone(at: nat -> bool, last: int, j: nat)
    requires forall k :: j <= k ==> !at(k)
    ensures FirstAt(at, last, j) == None
    decreases last + 1 - j
  {
    if j <= last {
      FirstAtNone(at, last, j + 1);
    }
  }

  /** Where a case-insensitive match of `phrase` starts in `s`. */
  function MatchAt(s: string, phrase: string): nat -> bool
  {
    (k: nat) => MatchesIgnoreCaseAt(s, phrase, k)
  }

  /** The first case-insensitive occurrence of `phrase` in `s` at or
      after `j`, found left to right as the regular expression engine
      does; what that means is stated by `FindFromSpec`. */
  function FindFrom(s: string, phrase: string, j: nat): (r: Option<nat>)
    ensures r.Some? ==> j <= r.value && r.value + |phrase| <= |s|
  {
    FirstAt(MatchAt(s, phrase), |s| - |phrase|, j)
  }

  lemma FindFromSpec(s: string, phrase: string, j: nat)
    ensures var r := FindFrom(s, phrase, j);
      && (r.Some? ==> MatchesIgnoreCaseAt(s, phrase, r.value)
                      && forall k :: j <= k < r.value ==> !MatchesIgnoreCaseAt(s, phrase, k))
      && (r.None? ==> forall k :: j <= k ==> !MatchesIgnoreCaseAt(s, phrase, k))
  {
    var at := MatchAt(s, phrase);
    var r := FindFrom(s, phrase, j);
    FirstAtFound(at, |s| - |phrase|, j);
    if r.Some? {
      assert at(r.value);
      forall k | j <= k < r.value
        ensures !MatchesIgnoreCaseAt(s, phrase, k)
      {
        assert !at(k);
      }
    } else {
      forall k: nat | k > |s| - |phrase|
        ensures !at(k)
      {
      }
      FirstAtMissing(at, |s| - |phrase|, j);
      forall k | j <= k
        ensures !MatchesIgnoreCaseAt(s, phrase, k)
      {
        assert !at(k);
      }
    }
  }

  /** Conversely, the first match at or after `j` is what the scan finds. */
  lemma FindFromIs(s: string, phrase: string, j: nat, i: nat)
    requires j <= i && MatchesIgnoreCaseAt(s, phrase, i)
    requires forall k :: j <= k < i ==> !MatchesIgnoreCaseAt(s, phrase, k)
    ensures FindFrom(s, phrase, j) == Some(i)
  {
    var at := MatchAt(s, phrase);
    forall k | j <= k < i
      ensures !at(k)
    {
      assert !MatchesIgnoreCaseAt(s, phrase, k);
    }
    assert at(i);
    FirstAtIs(at, |s| - |phrase|, j, i);
  }

  lemma FindFromNone(s: string, phrase: string, j: nat)
    requires forall k :: j <= k ==> !MatchesIgnoreCaseAt(s, phrase, k)
    ensures FindFrom(s, phrase, j) == None
  {
    var at := MatchAt(s, phrase);
    forall k | j <= k
      ensures !at(k)
    {
      assert !MatchesIgnoreCaseAt(s, phrase, k);
    }
    FirstAtNone(at, |s| - |phrase|, j);
  }

  /** The first case-insensitive occurrence of `phrase` in `s`. */
  function FindPhrase(s: string, phrase: string): (r: Option<nat>)
    ensures r.Some? ==> r.value + |phrase| <= |s|
  {
    FindFrom(s, phrase, 0)
  }

  lemma FindPhraseSpec(s: string, phrase: string)
    ensures var r := FindPhrase(s, phrase);
      && (r.Some? ==> MatchesPhrase(s[r.value..r.value + |phrase|], phrase)
                      && forall j :: 0 <= j < r.value ==> !MatchesIgnoreCaseAt(s, phrase, j))
      && (r.None? ==> forall j :: !MatchesIgnoreCaseAt(s, phrase, j))
  {
    FindFromSpec(s, phrase, 0);
    var r := FindPhrase(s, phrase);
    if r.Some? {
      assert MatchesIgnoreCaseAt(s, phrase, r.value);
    }
  }

  /** The scan finds what the case-insensitive search finds. */
  lemma FindPhraseIsIndexOf(s: string, phrase: string)
    ensures FindPhrase(s, phrase) == IndexOfIgnoreCase(s, phrase)
  {
    FindPhraseSpec(s, phrase);
    var a := FindPhrase(s, phrase);
    var b := IndexOfIgnoreCase(s, phrase);
    if a.Some? {
      assert MatchesIgnoreCaseAt(s, phrase, a.value);
      assert b.Some?;
      assert b.value <= a.value;
      assert a.value <= b.value;
    } else {
      assert b.None?;
    }
  }

  /** `text.replace(new RegExp(escapeRegExp(phrase), 'gi'), …)`: every
      case-insensitive occurrence, left to right and without overlap,
      becomes the next numbered placeholder, and the matched text is
      recorded. */
  function ProtectScan(s: string, phrase: string, reps: seq<Replacement>): (r: (string, seq<Replacement>))
    requires |phrase| > 0
    ensures |r.1| >= |reps| && r.1[..|reps|] == reps
    decreases |s|
  {
    match FindPhrase(s, phrase)
    case None => (s, reps)
    case Some(i) =>
      var reps' := reps + [Replacement(Token(|reps|), s[i..i + |phrase|])];
      var rest := ProtectScan(s[i + |phrase|..], phrase, reps');
      assert rest.1[..|reps|] == reps'[..|reps|];
      (s[..i] + Token(|reps|) + rest.0, rest.1)
  }

  /** The replacements a scan adds are numbered on from the ones before and
      each records a match of the phrase. */
  lemma {:induction false} ProtectScanNumbered(s: string, phrase: string, reps: seq<Replacement>)
    requires |phrase| > 0
    ensures NumberedFrom(ProtectScan(s, phrase, reps).1, |reps|, phrase)
    decreases |s|
  {
    match FindPhrase(s, phrase)
    case None =>
    case Some(i) =>
      var m := s[i..i + |phrase|];
      FindPhraseSpec(s, phrase);
      var reps' := reps + [Replacement(Token(|reps|), m)];
      ProtectScanNumbered(s[i + |phrase|..], phrase, reps');
      var r := ProtectScan(s[i + |phrase|..], phrase, reps').1;
      assert r == ProtectScan(s, phrase, reps).1;
      assert r[|reps|] == r[..|reps'|][|reps|] == reps'[|reps|];
      forall k | |reps| <= k < |r|
        ensures r[k].token == Token(k) && MatchesPhrase(r[k].value, phrase)
      {
        if k > |reps| {
          assert NumberedFrom(r, |reps'|, phrase);
        }
      }
  }

  /** A scan records one replacement per occurrence: none when the phrase
      does not occur, and otherwise the first occurrence is the first new
      replacement, the text before it is kept, its placeholder follows,
      and the scan continues after the match. */
  lemma ProtectScanFirst(s: string, phrase: string, reps: seq<Replacement>)
    requires |phrase| > 0
    ensures FindPhrase(s, phrase).None? ==> ProtectScan(s, phrase, reps) == (s, reps)
    ensures FindPhrase(s, phrase).Some? ==>
      var i := FindPhrase(s, phrase).value;
      var r := ProtectScan(s, phrase, reps);
      && |r.1| > |reps|
      && r.1[|reps|] == Replacement(Token(|reps|), s[i..i + |phrase|])
      && r.0[..i] == s[..i]
      && OccursAt(r.0, Token(|reps|), i)
  {
    match FindPhrase(s, phrase)
    case None =>
    case Some(i) =>
      var r := ProtectScan(s, phrase, reps);
      var reps' := reps + [Replacement(Token(|reps|), s[i..i + |phrase|])];
      var rest := ProtectScan(s[i + |phrase|..], phrase, reps');
      assert r == (s[..i] + Token(|reps|) + rest.0, rest.1);
      SpliceAt(s[..i], Token(|reps|), rest.0);
      assert rest.1[|reps|] == rest.1[..|reps'|][|reps|];
  }

  /** `a + t + b` keeps `a` and holds `t` right after it. */
  lemma SpliceAt(a: string, t: string, b: string)
    ensures (a + t + b)[..|a|] == a && OccursAt(a + t + b, t, |a|)
  {
    assert (a + t + b)[|a|..|a| + |t|] == t;
  }

  /** The fold of `protectPhrases` over the phrases, with the lower-cased
      phrases seen so far. */
  function ProtectFrom(text: string, phrases: seq<string>, reps: seq<Replacement>, seen: set<string>): (r: Protection)
    ensures |r.replacements| >= |reps| && r.replacements[..|reps|] == reps
    decreases |phrases|
  {
    if |phrases| == 0 then Protection(text, reps)
    else
      var p := phrases[0];
      if |p| < 2 || ToLower(p) in seen then ProtectFrom(text, phrases[1..], reps, seen)
      else
        var sc := ProtectScan(text, p, reps);
        var r := ProtectFrom(sc.0, phrases[1..], sc.1, seen + {ToLower(p)});
        assert r.replacements[..|reps|] == r.replacements[..|sc.1|][..|reps|];
        r
  }

  /** Some phrase of two or more characters that `value` matches. */
  predicate MatchesSome(value: string, phrases: seq<string>)
  {
    exists j :: 0 <= j < |phrases| && |phrases[j]| >= 2 && MatchesPhrase(value, phrases[j])
  }

  lemma MatchesSomeTail(value: string, phrases: seq<string>)
    requires |phrases| > 0 && MatchesSome(value, phrases[1..])
    ensures MatchesSome(value, phrases)
  {
    var j :| 0 <= j < |phrases[1..]| && |phrases[1..][j]| >= 2 && MatchesPhrase(value, phrases[1..][j]);
    assert phrases[1..][j] == phrases[j + 1];
  }

  lemma {:induction false} ProtectFromNumbered(text: string, phrases: seq<string>, reps: seq<Replacement>, seen: set<string>)
    requires forall k :: 0 <= k < |reps| ==> reps[k].token == Token(k)
    ensures var r := ProtectFrom(text, phrases, reps, seen).replacements;
      && (forall k :: 0 <= k < |r| ==> r[k].token == Token(k))
      && (forall k :: |reps| <= k < |r| ==> MatchesSome(r[k].value, phrases))
    decreases |phrases|
  {
    if |phrases| > 0 {
      var p := phrases[0];
      var r := ProtectFrom(text, phrases, reps, seen).replacements;
      if |p| < 2 || ToLower(p) in seen {
        var r1 := ProtectFrom(text, phrases[1..], reps, seen).replacements;
        ProtectFromNumbered(text, phrases[1..], reps, seen);
        assert var rr := ProtectFrom(text, phrases[1..], reps, seen).replacements;
          && (forall k :: 0 <= k < |rr| ==> rr[k].token == Token(k))
          && (forall k :: |reps| <= k < |rr| ==> MatchesSome(rr[k].value, phrases[1..]));
        assert forall k :: |reps| <= k < |r1| ==> MatchesSome(r1[k].value, phrases[1..]);
        assert r == r1;
        forall k | |reps| <= k < |r|
          ensures MatchesSome(r[k].value, phrases)
        {
          assert r[k] == r1[k];
          assert MatchesSome(r1[k].value, phrases[1..]);
          MatchesSomeTail(r[k].value, phrases);
        }
      } else {
        var sc := ProtectScan(text, p, reps);
        ProtectScanTokens(text, p, reps);
        assert r == ProtectFrom(sc.0, phrases[1..], sc.1, seen + {ToLower(p)}).replacements;
        ProtectFromNumbered(sc.0, phrases[1..], sc.1, seen + {ToLower(p)});
        ScanThenRest(r, sc.1, reps, phrases);
      }
    }
  }

  /** After a scan, every placeholder so far is numbered by its position. */
  lemma ProtectScanTokens(text: string, p: string, reps: seq<Replacement>)
    requires |p| > 0
    requires forall k :: 0 <= k < |reps| ==> reps[k].token == Token(k)
    ensures var sc := ProtectScan(text, p, reps).1;
      && (forall k :: 0 <= k < |sc| ==> sc[k].token == Token(k))
      && (forall k :: |reps| <= k < |sc| ==> MatchesPhrase(sc[k].value, p))
  {
    var sc := ProtectScan(text, p, reps).1;
    ProtectScanNumbered(text, p, reps);
    forall k | 0 <= k < |sc|
      ensures sc[k].token == Token(k)
    {
      if k < |reps| {
        assert sc[k] == sc[..|reps|][k];
      }
    }
  }

  /** The replacements of the first phrase's scan followed by those of the
      remaining phrases each match some phrase. */
  lemma ScanThenRest(r: seq<Replacement>, sc: seq<Replacement>, reps: seq<Replacement>, phrases: seq<string>)
    requires |phrases| > 0 && |phrases[0]| >= 2
    requires |reps| <= |sc| <= |r| && r[..|sc|] == sc
    requires forall k :: |reps| <= k < |sc| ==> MatchesPhrase(sc[k].value, phrases[0])
    requires forall k :: |sc| <= k < |r| ==> MatchesSome(r[k].value, phrases[1..])
    ensures forall k :: |reps| <= k < |r| ==> MatchesSome(r[k].value, phrases)
  {
    forall k | |reps| <= k < |r|
      ensures MatchesSome(r[k].value, phrases)
    {
      if k < |sc| {
        assert r[k] == r[..|sc|][k];
        assert MatchesPhrase(r[k].value, phrases[0]);
      } else {
        MatchesSomeTail(r[k].value, phrases);
      }
    }
  }

  /** `protectPhrases(text, phrases)`. */
  function ProtectPhrases(text: string, phrases: seq<string>): Protection
  {
    ProtectFrom(text, phrases, [], {})
  }

  /** The placeholders are numbered 0, 1, 2, … in the order they were
      made, and each replacement records a case-insensitive match of one of
      the phrases of two or more characters. */
  lemma ProtectPhrasesNumbered(text: string, phrases: seq<string>)
    ensures var r := ProtectPhrases(text, phrases).replacements;
      && (forall k :: 0 <= k < |r| ==> r[k].token == Token(k))
      && (forall k :: 0 <= k < |r| ==> MatchesSome(r[k].value, phrases))
  {
    ProtectFromNumbered(text, phrases, [], {});
  }

  /** The lower-cased form of a phrase that was already protected. */
  predicate SeenBefore(phrases: seq<string>, k: nat, seen: set<string>)
    requires k < |phrases|
  {
    ToLower(phrases[k]) in seen
    || exists j :: 0 <= j < k && |phrases[j]| >= 2 && ToLower(phrases[j]) == ToLower(phrases[k])
  }

  /** A phrase shorter than two characters, or one equal ignoring case to
      an earlier phrase, has no effect: dropping it changes nothing. */
  lemma {:induction false} SkippedPhrase(text: string, phrases: seq<string>, reps: seq<Replacement>, seen: set<string>, k: nat)
    requires k < |phrases|
    requires |phrases[k]| < 2 || SeenBefore(phrases, k, seen)
    ensures ProtectFrom(text, phrases, reps, seen) == ProtectFrom(text, phrases[..k] + phrases[k + 1..], reps, seen)
    decreases k
  {
    var dropped := phrases[..k] + phrases[k + 1..];
    if k == 0 {
      assert dropped == phrases[1..];
    } else {
      var p := phrases[0];
      assert dropped[0] == p && dropped[1..] == phrases[1..][..k - 1] + phrases[1..][k..];
      var seen' := if |p| < 2 || ToLower(p) in seen then seen else seen + {ToLower(p)};
      assert |phrases[1..][k - 1]| < 2 || SeenBefore(phrases[1..], k - 1, seen') by {
        if |phrases[k]| >= 2 && ToLower(phrases[k]) !in seen {
          var j :| 0 <= j < k && |phrases[j]| >= 2 && ToLower(phrases[j]) == ToLower(phrases[k]);
          if j > 0 {
            assert phrases[1..][j - 1] == phrases[j];
          }
        }
      }
      if |p| < 2 || ToLower(p) in seen {
        SkippedPhrase(text, phrases[1..], reps, seen, k - 1);
      } else {
        var sc := ProtectScan(text, p, reps);
        SkippedPhrase(sc.0, phrases[1..], sc.1, seen', k - 1);
      }
    }
  }

  // ---------------------------------------------------------------------
  // restoreTokens
  // ---------------------------------------------------------------------

  /** `s.replace(/(?:)/g, v)`: the empty pattern matches before every
      character and at the end. */
  function InterleaveEmpty(s: string, v: string): (r: string)
    ensures |r| == |s| + (|s| + 1) * |v|
  {
    if |s| == 0 then v else v + [s[0]] + InterleaveEmpty(s[1..], v)
  }

  /** `s.replace(new RegExp(escapeRegExp(token), 'g'), value)`. */
  function ReplaceToken(s: string, token: string, value: string): string
  {
    if token == "" then InterleaveEmpty(s, value) else ReplaceAll(s, token, value)
  }

  /** The `reduce` of `restoreTokens`: each replacement in order. */
  function RestoreFold(text: string, reps: seq<Replacement>): string
    decreases |reps|
  {
    if |reps| == 0 then text
    else RestoreFold(ReplaceToken(text, reps[0].token, reps[0].value), reps[1..])
  }

  /** `restoreTokens(text, replacements)`. */
  function RestoreTokens(text: string, reps: seq<Replacement>): (r: string)
    ensures text == "" ==> r == ""
    ensures reps == [] ==> r == text
  {
    if text == "" then "" else RestoreFold(text, reps)
  }
}
