/** Text primitives shared by the Python server and the JavaScript client:
    character classes, case mapping, trimming, splitting, joining, search and
    replacement. Characters are Unicode scalar values; the character classes
    are the ASCII ones of the regular expressions the source writes (`\s`,
    `\w`, `\d`), with lower-casing extended to the Latin-1 capitals the
    Spanish texts use. */
module Strings {
  import opened Wrappers
  import opened Seqs

  // ---------------------------------------------------------------------
  // Character classes
  // ---------------------------------------------------------------------

  /** The whitespace class `\s` (and what `str.strip()` / `String.trim()` remove). */
  predicate IsSpace(c: char)
  {
    c == ' ' || c == '\t' || c == '\n' || c == '\r' || c == '\U{000B}' || c == '\U{000C}'
  }

  predicate IsDigit(c: char)
  {
    '0' <= c <= '9'
  }

  predicate IsUpper(c: char)
  {
    'A' <= c <= 'Z'
  }

  predicate IsLower(c: char)
  {
    'a' <= c <= 'z'
  }

  /** The word class `\w`: ASCII letters, digits and underscore. */
  predicate IsWordChar(c: char)
  {
    IsUpper(c) || IsLower(c) || IsDigit(c) || c == '_'
  }

  // ---------------------------------------------------------------------
  // Case mapping
  // ---------------------------------------------------------------------

  /** Capitals that have a lower-case partner 32 code points above them. */
  predicate HasLowerPartner(c: char)
  {
    IsUpper(c) || ('À' <= c <= 'Þ' && c != '×')
  }

  function LowerChar(c: char): (r: char)
    ensures HasLowerPartner(c) ==> r as int == c as int + 32
    ensures !HasLowerPartner(c) ==> r == c
    ensures !HasLowerPartner(r)
  {
    if HasLowerPartner(c) then (c as int + 32) as char else c
  }

  /** `str.lower()` / `String.prototype.toLowerCase()`. */
  function ToLower(s: string): (r: string)
    ensures |r| == |s|
    ensures forall i :: 0 <= i < |s| ==> r[i] == LowerChar(s[i])
  {
    Map(s, LowerChar)
  }

  // ---------------------------------------------------------------------
  // Trimming
  // ---------------------------------------------------------------------

  function TrimStart(s: string): (r: string)
    ensures |r| <= |s| && r == s[|s| - |r|..]
    ensures |r| == 0 || !IsSpace(r[0])
    ensures forall i :: 0 <= i < |s| - |r| ==> IsSpace(s[i])
  {
    if |s| > 0 && IsSpace(s[0]) then TrimStart(s[1..]) else s
  }

  function TrimEnd(s: string): (r: string)
    ensures |r| <= |s| && r == s[..|r|]
    ensures |r| == 0 || !IsSpace(r[|r| - 1])
    ensures forall i :: |r| <= i < |s| ==> IsSpace(s[i])
  {
    if |s| > 0 && IsSpace(s[|s| - 1]) then TrimEnd(s[..|s| - 1]) else s
  }

  /** `str.strip()` / `String.prototype.trim()`: the slice of `s` left once
      the leading and trailing whitespace is removed. */
  function Trim(s: string): (r: string)
    ensures exists a, b ::
              && 0 <= a <= b <= |s| && r == s[a..b]
              && (forall i :: 0 <= i < a ==> IsSpace(s[i]))
              && (forall i :: b <= i < |s| ==> IsSpace(s[i]))
    ensures |r| == 0 || (!IsSpace(r[0]) && !IsSpace(r[|r| - 1]))
  {
    var t := TrimStart(s);
    var r := TrimEnd(t);
    var a := |s| - |t|;
    assert r == s[a..a + |r|];
    r
  }

  /** A string is blank when it trims to the empty string. */
  predicate IsBlank(s: string)
  {
    forall i :: 0 <= i < |s| ==> IsSpace(s[i])
  }

  lemma TrimEmptyIffBlank(s: string)
    ensures Trim(s) == "" <==> IsBlank(s)
  {
    if Trim(s) != "" {
      var r := Trim(s);
      assert !IsSpace(r[0]);
    }
  }

  /** A string with no whitespace at either end trims to itself. */
  lemma TrimUnchanged(s: string)
    requires |s| == 0 || (!IsSpace(s[0]) && !IsSpace(s[|s| - 1]))
    ensures Trim(s) == s
  {
    assert TrimStart(s) == s;
    assert TrimEnd(s) == s;
  }

  /** Leading whitespace dropped before trimming makes no difference. */
  lemma {:induction false} TrimSkipsLeadingSpace(s: string, n: nat)
    requires n <= |s| && forall i :: 0 <= i < n ==> IsSpace(s[i])
    ensures Trim(s[n..]) == Trim(s)
  {
    TrimStartSkips(s, n);
  }

  lemma {:induction false} TrimStartSkips(s: string, n: nat)
    requires n <= |s| && forall i :: 0 <= i < n ==> IsSpace(s[i])
    ensures TrimStart(s[n..]) == TrimStart(s)
    decreases n
  {
    if n > 0 {
      TrimStartSkips(s[1..], n - 1);
      assert s[1..][n - 1..] == s[n..];
    }
  }

  // ---------------------------------------------------------------------
  // Splitting and joining
  // ---------------------------------------------------------------------

  /** `parts.join(sep)` / `sep.join(parts)`. */
  function Join(parts: seq<string>, sep: string): string
  {
    if |parts| == 0 then ""
    else if |parts| == 1 then parts[0]
    else parts[0] + sep + Join(parts[1..], sep)
  }

  /** Appending a part appends the separator and the part. */
  lemma {:induction false} JoinSnoc(parts: seq<string>, x: string, sep: string)
    requires |parts| >= 1
    ensures Join(parts + [x], sep) == Join(parts, sep) + sep + x
    decreases |parts|
  {
    if |parts| == 1 {
      assert (parts + [x])[1..] == [x];
    } else {
      assert (parts + [x])[1..] == parts[1..] + [x];
      JoinSnoc(parts[1..], x, sep);
    }
  }

  /** `s.split(d)` for a one-character separator `d`, as in `text.split('\n')`:
      every occurrence separates, so the result has one more part than `s`
      has occurrences of `d`, and joining the parts back gives `s`. */
  function Split(s: string, d: char): (r: seq<string>)
    ensures |r| >= 1
    ensures forall k :: 0 <= k < |r| ==> d !in r[k]
    ensures Join(r, [d]) == s
  {
    if |s| == 0 then [""]
    else
      var rest := Split(s[1..], d);
      if s[0] == d then
        assert Join([""] + rest, [d]) == [d] + Join(rest, [d]) by {
          assert ([""] + rest)[1..] == rest;
        }
        assert s == [d] + s[1..];
        [""] + rest
      else
        var r := [[s[0]] + rest[0]] + rest[1..];
        assert Join(r, [d]) == [s[0]] + Join(rest, [d]) by {
          assert r[1..] == rest[1..];
          if |rest| > 1 {
            assert Join(rest, [d]) == rest[0] + [d] + Join(rest[1..], [d]);
          }
        }
        assert s == [s[0]] + s[1..];
        r
  }

  /** Joining parts that do not contain the separator and splitting again
      gives the parts back: `Split` and `Join` are mutually inverse. */
  lemma {:induction false} SplitJoin(parts: seq<string>, d: char)
    requires |parts| >= 1
    requires forall k :: 0 <= k < |parts| ==> d !in parts[k]
    ensures Split(Join(parts, [d]), d) == parts
    decreases |parts|, |parts[0]|
  {
    var p := parts[0];
    if |p| == 0 {
      if |parts| == 1 {
      } else {
        var s := Join(parts, [d]);
        assert s == [d] + Join(parts[1..], [d]);
        assert s[1..] == Join(parts[1..], [d]);
        SplitJoin(parts[1..], d);
        assert parts == [""] + parts[1..];
      }
    } else {
      var tailParts := [p[1..]] + parts[1..];
      assert tailParts[1..] == parts[1..];
      var s := Join(parts, [d]);
      assert Join(tailParts, [d]) == s[1..] by {
        if |parts| > 1 {
          assert s == p + [d] + Join(parts[1..], [d]);
        }
      }
      assert s[0] == p[0];
      assert p[0] != d by { assert p[0] in p; }
      SplitJoin(tailParts, d);
      assert p == [p[0]] + tailParts[0];
      assert parts == [[p[0]] + tailParts[0]] + tailParts[1..];
    }
  }

  /** `s.split(/X+/)` for a character class `X`: maximal runs of separator
      characters separate; a leading or trailing run yields an empty part. */
  function SplitRuns(s: string, sep: char -> bool): (r: seq<string>)
    ensures |r| >= 1
    ensures forall k, j :: 0 <= k < |r| && 0 <= j < |r[k]| ==> !sep(r[k][j])
  {
    if |s| == 0 then [""]
    else
      var rest := SplitRuns(s[1..], sep);
      if sep(s[0]) then
        if |s| > 1 && sep(s[1]) then rest else [""] + rest
      else
        [[s[0]] + rest[0]] + rest[1..]
  }

  predicate NonEmpty(s: string)
  {
    |s| > 0
  }

  /** The whitespace-separated words of `s`: Python's `s.split()` and
      JavaScript's `s.split(/\s+/).filter(Boolean)`. */
  function Words(s: string): (r: seq<string>)
    ensures forall k :: 0 <= k < |r| ==> |r[k]| > 0
    ensures forall k, j :: 0 <= k < |r| && 0 <= j < |r[k]| ==> !IsSpace(r[k][j])
  {
    var w := Filter(SplitRuns(s, IsSpace), NonEmpty);
    assert forall k :: 0 <= k < |w| ==> w[k] in SplitRuns(s, IsSpace);
    w
  }

  lemma {:induction false} SplitRunsBlank(s: string, sep: char -> bool)
    requires forall i :: 0 <= i < |s| ==> sep(s[i])
    ensures forall k :: 0 <= k < |SplitRuns(s, sep)| ==> SplitRuns(s, sep)[k] == ""
    decreases |s|
  {
    if |s| > 0 {
      SplitRunsBlank(s[1..], sep);
    }
  }

  lemma {:induction false} SplitRunsHasNonEmpty(s: string, sep: char -> bool, i: nat)
    requires i < |s| && !sep(s[i])
    ensures exists k :: 0 <= k < |SplitRuns(s, sep)| && |SplitRuns(s, sep)[k]| > 0
    decreases |s|
  {
    if i == 0 {
      assert |SplitRuns(s, sep)[0]| > 0;
    } else {
      SplitRunsHasNonEmpty(s[1..], sep, i - 1);
      var rest := SplitRuns(s[1..], sep);
      var k :| 0 <= k < |rest| && |rest[k]| > 0;
      var r := SplitRuns(s, sep);
      if sep(s[0]) {
        if |s| > 1 && sep(s[1]) {
          assert r == rest;
          assert |r[k]| > 0;
        } else {
          assert r == [""] + rest;
          assert r[k + 1] == rest[k];
        }
      } else {
        assert r == [[s[0]] + rest[0]] + rest[1..];
        if k == 0 {
          assert |r[0]| > 0;
        } else {
          assert r[k] == rest[k];
        }
      }
    }
  }

  /** A text has no words exactly when it is blank. */
  lemma WordsEmptyIffBlank(s: string)
    ensures |Words(s)| == 0 <==> IsBlank(s)
  {
    var parts := SplitRuns(s, IsSpace);
    if IsBlank(s) {
      SplitRunsBlank(s, IsSpace);
      FilterNoneKept(parts, NonEmpty);
    } else {
      var i :| 0 <= i < |s| && !IsSpace(s[i]);
      SplitRunsHasNonEmpty(s, IsSpace, i);
      var k :| 0 <= k < |parts| && |parts[k]| > 0;
      assert parts[k] in parts && NonEmpty(parts[k]);
      assert parts[k] in Words(s);
    }
  }

  /** The number of places in `s` where a word begins: a non-space
      character at the start (when `afterSpace`) or after a space. */
  function WordStarts(s: string, afterSpace: bool): nat
  {
    if |s| == 0 then 0
    else (if afterSpace && !IsSpace(s[0]) then 1 else 0) + WordStarts(s[1..], IsSpace(s[0]))
  }

  /** The first part of a split is non-empty exactly when the text starts
      with a kept character. */
  lemma {:induction false} SplitRunsHead(s: string, sep: char -> bool)
    ensures |SplitRuns(s, sep)[0]| > 0 <==> |s| > 0 && !sep(s[0])
    decreases |s|
  {
    if |s| > 1 && sep(s[0]) && sep(s[1]) {
      SplitRunsHead(s[1..], sep);
    }
  }

  /** The words of a text are as many as the places where a word begins. */
  lemma {:induction false} WordsCountStarts(s: string)
    ensures |Words(s)| == WordStarts(s, true)
    decreases |s|
  {
    if |s| > 0 {
      var t := s[1..];
      var rest := SplitRuns(t, IsSpace);
      var r := SplitRuns(s, IsSpace);
      WordsCountStarts(t);
      if IsSpace(s[0]) {
        if |s| > 1 && IsSpace(s[1]) {
          assert r == rest;
        } else {
          assert r == [""] + rest;
          assert r[1..] == rest;
        }
      } else {
        assert r == [[s[0]] + rest[0]] + rest[1..];
        assert r[1..] == rest[1..];
        SplitRunsHead(t, IsSpace);
        assert Filter(rest, NonEmpty) == (if NonEmpty(rest[0]) then [rest[0]] else []) + Filter(rest[1..], NonEmpty);
        StartsAfterSpace(t);
      }
    }
  }

  /** Reading after a space counts one more start exactly when the text
      begins with a word. */
  lemma StartsAfterSpace(t: string)
    ensures WordStarts(t, true) == WordStarts(t, false) + (if |t| > 0 && !IsSpace(t[0]) then 1 else 0)
  {
  }

  // ---------------------------------------------------------------------
  // Search
  // ---------------------------------------------------------------------

  predicate OccursAt(s: string, p: string, i: nat)
  {
    i + |p| <= |s| && s[i..i + |p|] == p
  }

  predicate StartsWith(s: string, p: string)
  {
    OccursAt(s, p, 0)
  }

  /** The first position at or after `from` where `p` occurs in `s`. */
  function IndexOfFrom(s: string, p: string, from: nat): (r: Option<nat>)
    ensures r.Some? ==>
              && from <= r.value && OccursAt(s, p, r.value)
              && forall j :: from <= j < r.value ==> !OccursAt(s, p, j)
    ensures r.None? ==> forall j :: from <= j ==> !OccursAt(s, p, j)
    decreases |s| - from
  {
    if from + |p| > |s| then None
    else if s[from..from + |p|] == p then Some(from)
    else IndexOfFrom(s, p, from + 1)
  }

  /** `s.indexOf(p)` / `s.find(p)`, with `None` for -1. */
  function IndexOf(s: string, p: string): (r: Option<nat>)
    ensures r.Some? ==> OccursAt(s, p, r.value) && forall j :: 0 <= j < r.value ==> !OccursAt(s, p, j)
    ensures r.None? ==> forall j :: !OccursAt(s, p, j)
  {
    IndexOfFrom(s, p, 0)
  }

  /** `p in s` / `s.includes(p)`. */
  predicate Contains(s: string, p: string)
  {
    IndexOf(s, p).Some?
  }

  lemma ContainsIff(s: string, p: string)
    ensures Contains(s, p) <==> exists j :: OccursAt(s, p, j)
  {
  }

  /** `p` matches `s` at `j` when case is ignored. */
  predicate MatchesIgnoreCaseAt(s: string, p: string, j: nat)
  {
    j + |p| <= |s| && ToLower(s[j..j + |p|]) == ToLower(p)
  }

  /** The first case-insensitive occurrence of `p` in `s` (a regular
      expression with the `i` flag built from an escaped literal). */
  function IndexOfIgnoreCase(s: string, p: string): (r: Option<nat>)
    ensures r.Some? ==>
              && MatchesIgnoreCaseAt(s, p, r.value)
              && forall j :: 0 <= j < r.value ==> !MatchesIgnoreCaseAt(s, p, j)
    ensures r.None? ==> forall j :: !MatchesIgnoreCaseAt(s, p, j)
  {
    var r := IndexOf(ToLower(s), ToLower(p));
    forall j: nat
      ensures MatchesIgnoreCaseAt(s, p, j) <==> OccursAt(ToLower(s), ToLower(p), j)
    {
      if j + |p| <= |s| {
        assert ToLower(s[j..j + |p|]) == ToLower(s)[j..j + |p|];
      }
    }
    r
  }

  // ---------------------------------------------------------------------
  // Replacement
  // ---------------------------------------------------------------------

  /** `s.replace(p, v)` with a string pattern (JavaScript) or
      `s.replace(p, v, 1)` (Python): only the first occurrence is replaced. */
  function ReplaceFirst(s: string, p: string, v: string): (r: string)
    ensures !Contains(s, p) ==> r == s
    ensures Contains(s, p) ==> var i := IndexOf(s, p).value;
      r == s[..i] + v + s[i + |p|..]
  {
    match IndexOf(s, p)
    case None => s
    case Some(i) => s[..i] + v + s[i + |p|..]
  }

  /** A replacement that changed the text put `v` where `p` occurred. */
  lemma ReplaceFirstChanged(s: string, p: string, v: string)
    requires ReplaceFirst(s, p, v) != s
    ensures exists i: nat :: i + |p| <= |s| && s[i..i + |p|] == p && ReplaceFirst(s, p, v) == s[..i] + v + s[i + |p|..]
  {
    var i := IndexOf(s, p).value;
    assert s[i..i + |p|] == p;
  }

  /** Every leftmost, non-overlapping occurrence of a non-empty `p`
      replaced by `v` (a global regular expression built from a literal):
      the scan tries each position from the left, and after a match goes on
      right after it. */
  function ReplaceAll(s: string, p: string, v: string): (r: string)
    requires |p| > 0
    decreases |s|
  {
    if |s| < |p| then s
    else if StartsWith(s, p) then v + ReplaceAll(s[|p|..], p, v)
    else [s[0]] + ReplaceAll(s[1..], p, v)
  }

  /** An occurrence one position further in is an occurrence in the tail. */
  lemma OccursTail(s: string, p: string, j: nat)
    requires |s| > 0
    ensures OccursAt(s, p, j + 1) <==> OccursAt(s[1..], p, j)
  {
    if j + 1 + |p| <= |s| {
      assert s[j + 1..j + 1 + |p|] == s[1..][j..j + |p|];
    }
  }

  /** Without an occurrence, nothing is replaced. */
  lemma {:induction false} ReplaceAllAbsent(s: string, p: string, v: string)
    requires |p| > 0 && !Contains(s, p)
    ensures ReplaceAll(s, p, v) == s
    decreases |s|
  {
    if |s| >= |p| {
      assert !StartsWith(s, p);
      forall j | true
        ensures !OccursAt(s[1..], p, j)
      {
        OccursTail(s, p, j);
      }
      assert IndexOf(s[1..], p).None?;
      ReplaceAllAbsent(s[1..], p, v);
      assert s == [s[0]] + s[1..];
    }
  }

  /** Replacing a pattern by itself changes nothing. */
  lemma {:induction false} ReplaceAllSelf(s: string, p: string)
    requires |p| > 0
    ensures ReplaceAll(s, p, p) == s
    decreases |s|
  {
    if |s| >= |p| {
      if StartsWith(s, p) {
        ReplaceAllSelf(s[|p|..], p);
        assert s == s[..|p|] + s[|p|..];
      } else {
        ReplaceAllSelf(s[1..], p);
        assert s == [s[0]] + s[1..];
      }
    }
  }

  // ---------------------------------------------------------------------
  // Numbers
  // ---------------------------------------------------------------------

  function DigitChar(d: nat): (c: char)
    requires d < 10
    ensures IsDigit(c) && c as int - '0' as int == d
  {
    ('0' as int + d) as char
  }

  /** Decimal rendering of a natural number (`String(n)` / `str(n)`). */
  function NatToString(n: nat): (r: string)
    ensures |r| >= 1
    ensures forall i :: 0 <= i < |r| ==> IsDigit(r[i])
    decreases n
  {
    if n < 10 then [DigitChar(n)] else NatToString(n / 10) + [DigitChar(n % 10)]
  }

  /** Value of a string of decimal digits. */
  function ParseDigits(s: string): nat
    requires forall i :: 0 <= i < |s| ==> IsDigit(s[i])
  {
    if |s| == 0 then 0
    else
      assert IsDigit(s[|s| - 1]);
      10 * ParseDigits(s[..|s| - 1]) + (s[|s| - 1] as int - '0' as int)
  }

  lemma {:induction false} ParseNatToString(n: nat)
    ensures ParseDigits(NatToString(n)) == n
    decreases n
  {
    if n >= 10 {
      ParseNatToString(n / 10);
      var r := NatToString(n);
      assert r[..|r| - 1] == NatToString(n / 10);
    }
  }

  /** Total number of characters of a list of strings. */
  function TotalLength(xs: seq<string>): nat
  {
    if |xs| == 0 then 0 else |xs[0]| + TotalLength(xs[1..])
  }

  lemma {:induction false} TotalLengthSnoc(xs: seq<string>, x: string)
    ensures TotalLength(xs + [x]) == TotalLength(xs) + |x|
    decreases |xs|
  {
    if |xs| == 0 {
      assert [x][1..] == [];
    } else {
      assert (xs + [x])[1..] == xs[1..] + [x];
      TotalLengthSnoc(xs[1..], x);
    }
  }
}
