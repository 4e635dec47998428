/** The content helpers of the chain's handlers (chain/chain_handlers.js):
    the line-based content-type analysis, the separation of a text into
    HTML, CSS, JavaScript and unknown lines, the removal of quality issues
    that are false positives for the content type, the score adjustment per
    content type, and the clamped heuristic score. */
module ChainHandlers {
  import opened Wrappers
  import opened Seqs
  import opened Strings

  // ---------------------------------------------------------------------
  // Line classification
  // ---------------------------------------------------------------------

  datatype LineKind = HtmlLine | CssLine | JsLine | OtherLine

  /** `s.includes(m)` for some marker `m`. */
  predicate HasAny(s: string, markers: seq<string>)
    decreases |markers|
  {
    |markers| > 0 && (Contains(s, markers[0]) || HasAny(s, markers[1..]))
  }

  const AttributeMarkers: seq<string> := ["class=", "id=", "lang=", "charset=", "href=", "src="]
  const DeclarationMarkers: seq<string> := ["function", "var ", "let ", "const "]
  const StatementMarkers: seq<string> := DeclarationMarkers + ["if ", "for ", "return "]
  const ScriptMarkers: seq<string> := StatementMarkers + ["=>", "console.log", "addEventListener"]

  /** The characters `.` of a regular expression does not match. */
  predicate IsLineTerminator(c: char)
  {
    c == '\n' || c == '\r' || c == ' ' || c == ' '
  }

  /** `/^<\w+.*>$/` (which `/^<\w+.*\/>$/` implies). */
  predicate IsTagLine(t: string)
  {
    && |t| >= 3 && t[0] == '<' && IsWordChar(t[1]) && t[|t| - 1] == '>'
    && forall i :: 2 <= i < |t| - 1 ==> !IsLineTerminator(t[i])
  }

  /** How `_analyzeContentType` counts a line. A line shaped like a CSS
      rule that mentions a declaration keyword counts as nothing, not as
      JavaScript. */
  function AnalysisKind(line: string): LineKind
  {
    var t := Trim(line);
    if StartsWith(t, "<") && Contains(t, ">") then
      if IsTagLine(t) || HasAny(t, AttributeMarkers) then HtmlLine else OtherLine
    else if (StartsWith(t, ".") || StartsWith(t, "#") || Contains(t, "{")) && Contains(t, ":") && Contains(t, ";") then
      if !HasAny(t, DeclarationMarkers) then CssLine else OtherLine
    else if HasAny(t, ScriptMarkers) then JsLine
    else OtherLine
  }

  /** How `_separateContentByType` buckets a line. */
  function SeparationKind(line: string): LineKind
  {
    var t := Trim(line);
    if StartsWith(t, "<") && Contains(t, ">") && (Contains(t, "class=") || Contains(t, "id=") || IsTagLine(t)) then HtmlLine
    else if Contains(t, "{") && Contains(t, ":") && Contains(t, ";") && !Contains(t, "function") && !Contains(t, "var ") then CssLine
    else if HasAny(t, StatementMarkers) then JsLine
    else OtherLine
  }

  /** The lines of `lines` of kind `k`, in order. */
  function Bucket<K(==)>(lines: seq<string>, kind: string -> K, k: K): (r: seq<string>)
    ensures |r| <= |lines|
  {
    if |lines| == 0 then []
    else (if kind(lines[0]) == k then [lines[0]] else []) + Bucket(lines[1..], kind, k)
  }

  /** A bucket holds exactly the lines of its kind. */
  lemma {:induction false} BucketMembers<K>(lines: seq<string>, kind: string -> K, k: K, x: string)
    ensures x in Bucket(lines, kind, k) <==> x in lines && kind(x) == k
    decreases |lines|
  {
    if |lines| > 0 {
      BucketMembers(lines[1..], kind, k, x);
      assert x in lines <==> x == lines[0] || x in lines[1..] by {
        assert lines == [lines[0]] + lines[1..];
      }
    }
  }

  /** The first line goes to the bucket of its kind. */
  lemma BucketHead<K>(lines: seq<string>, kind: string -> K, k: K)
    requires |lines| > 0
    ensures multiset(Bucket(lines, kind, k))
         == (if kind(lines[0]) == k then multiset{lines[0]} else multiset{}) + multiset(Bucket(lines[1..], kind, k))
  {
    var rest := Bucket(lines[1..], kind, k);
    if kind(lines[0]) == k {
      assert multiset([lines[0]] + rest) == multiset{lines[0]} + multiset(rest);
    } else {
      assert [] + rest == rest;
    }
  }

  /** Four parts that add up to `x`, each put in front of its own rest. */
  lemma SumOfFour<T>(x: multiset<T>, e0: multiset<T>, e1: multiset<T>, e2: multiset<T>, e3: multiset<T>,
                     m0: multiset<T>, m1: multiset<T>, m2: multiset<T>, m3: multiset<T>)
    requires e0 + e1 + e2 + e3 == x
    ensures (e0 + m0) + (e1 + m1) + (e2 + m2) + (e3 + m3) == x + (m0 + m1 + m2 + m3)
  {
  }

  /** `x` when the kind is `want`, nothing otherwise. */
  function Part<T>(k: LineKind, want: LineKind, x: multiset<T>): multiset<T>
  {
    if k == want then x else multiset{}
  }

  /** Of the four kinds exactly one takes `x`. */
  lemma OneOfFour<T>(k: LineKind, x: multiset<T>)
    ensures Part(k, HtmlLine, x) + Part(k, CssLine, x) + Part(k, JsLine, x) + Part(k, OtherLine, x) == x
  {
    match k
    case HtmlLine =>
    case CssLine =>
    case JsLine =>
    case OtherLine =>
  }

  /** Each line lands in exactly one of the four buckets. */
  lemma {:induction false} BucketsPartition(lines: seq<string>, kind: string -> LineKind)
    ensures multiset(Bucket(lines, kind, HtmlLine)) + multiset(Bucket(lines, kind, CssLine))
          + multiset(Bucket(lines, kind, JsLine)) + multiset(Bucket(lines, kind, OtherLine))
         == multiset(lines)
    decreases |lines|
  {
    if |lines| > 0 {
      var rest := lines[1..];
      BucketsPartition(rest, kind);
      BucketHead(lines, kind, HtmlLine);
      BucketHead(lines, kind, CssLine);
      BucketHead(lines, kind, JsLine);
      BucketHead(lines, kind, OtherLine);
      var x := multiset{lines[0]};
      var k := kind(lines[0]);
      OneOfFour(k, x);
      SumOfFour(x, Part(k, HtmlLine, x), Part(k, CssLine, x), Part(k, JsLine, x), Part(k, OtherLine, x),
                multiset(Bucket(rest, kind, HtmlLine)), multiset(Bucket(rest, kind, CssLine)),
                multiset(Bucket(rest, kind, JsLine)), multiset(Bucket(rest, kind, OtherLine)));
      MultisetCons(lines);
    }
  }

  /** The sizes of the four buckets add up to the number of lines. */
  lemma BucketSizes(lines: seq<string>, kind: string -> LineKind)
    ensures |Bucket(lines, kind, HtmlLine)| + |Bucket(lines, kind, CssLine)|
          + |Bucket(lines, kind, JsLine)| + |Bucket(lines, kind, OtherLine)| == |lines|
  {
    BucketsPartition(lines, kind);
    assert |multiset(lines)| == |lines|;
  }

  // ---------------------------------------------------------------------
  // _analyzeContentType
  // ---------------------------------------------------------------------

  datatype ContentType = Html | Css | Javascript | Mixed

  function TypeName(t: ContentType): string
  {
    match t
    case Html => "html"
    case Css => "css"
    case Javascript => "javascript"
    case Mixed => "mixed"
  }

  datatype Analysis = Analysis(
    contentType: ContentType, confidence: int,
    htmlTags: nat, cssRules: nat, jsStatements: nat, totalLines: nat)

  function Max3(a: nat, b: nat, c: nat): (r: nat)
    ensures r >= a && r >= b && r >= c && (r == a || r == b || r == c)
  {
    if a >= b && a >= c then a else if b >= c then b else c
  }

  /** `Math.round(part / whole * 100)`, on exact ratios: the integer
      nearest to `100 * part / whole`, halves rounded up. */
  function Percent(part: nat, whole: nat): (r: int)
    requires whole > 0 && part <= whole
    ensures 0 <= r <= 100
    ensures r * (2 * whole) <= 200 * part + whole < (r + 1) * (2 * whole)
  {
    var n := 200 * part + whole;
    var d := 2 * whole;
    var q := n / d;
    assert q * d <= n < q * d + d;
    assert q >= 0;
    assert q <= 100 by {
      if q >= 101 {
        assert q * d >= 101 * d by { MulMono(101, q, d); }
      }
    }
    q
  }

  lemma MulMono(a: int, b: int, d: nat)
    requires a <= b
    ensures a * d <= b * d
  {
  }

  /** The type decision from the three counts: one type only when it holds
      more than 70% of the lines (HTML, then CSS, then JavaScript on a tie);
      the 40% band of the source also gives `mixed`. */
  function Classify(htmlTags: nat, cssRules: nat, jsStatements: nat, totalLines: nat): (r: Analysis)
    requires totalLines > 0 && htmlTags + cssRules + jsStatements <= totalLines
    ensures r.contentType != Mixed <==> 10 * Max3(htmlTags, cssRules, jsStatements) > 7 * totalLines
    ensures r.contentType == Html ==> htmlTags == Max3(htmlTags, cssRules, jsStatements)
    ensures r.contentType == Css ==> cssRules == Max3(htmlTags, cssRules, jsStatements) && htmlTags < cssRules
    ensures r.contentType == Javascript ==>
      jsStatements == Max3(htmlTags, cssRules, jsStatements) && htmlTags < jsStatements && cssRules < jsStatements
    ensures r.confidence == Percent(Max3(htmlTags, cssRules, jsStatements), totalLines)
    ensures (r.htmlTags, r.cssRules, r.jsStatements, r.totalLines) == (htmlTags, cssRules, jsStatements, totalLines)
  {
    var top := Max3(htmlTags, cssRules, jsStatements);
    var t := if 10 * top > 7 * totalLines then
               (if htmlTags == top then Html else if cssRules == top then Css else Javascript)
             else Mixed;
    Analysis(t, Percent(top, totalLines), htmlTags, cssRules, jsStatements, totalLines)
  }

  /** The analysis of lines counted by `kind`. */
  function AnalyzeBy(lines: seq<string>, kind: string -> LineKind): (r: Analysis)
    requires |lines| >= 1
    ensures r.totalLines == |lines|
    ensures r.htmlTags == |Bucket(lines, kind, HtmlLine)| && r.cssRules == |Bucket(lines, kind, CssLine)|
    ensures r.jsStatements == |Bucket(lines, kind, JsLine)|
    ensures r.htmlTags + r.cssRules + r.jsStatements <= r.totalLines
    ensures 0 <= r.confidence <= 100
    ensures r.contentType != Mixed <==> 10 * Max3(r.htmlTags, r.cssRules, r.jsStatements) > 7 * r.totalLines
  {
    BucketSizes(lines, kind);
    Classify(|Bucket(lines, kind, HtmlLine)|, |Bucket(lines, kind, CssLine)|, |Bucket(lines, kind, JsLine)|, |lines|)
  }

  /** `_analyzeContentType(text)`: the text is split at every newline and
      each line counted by `AnalysisKind`. */
  function AnalyzeContentType(text: string): (r: Analysis)
    ensures r.totalLines == |Split(text, '\n')| >= 1
    ensures r.htmlTags == |Bucket(Split(text, '\n'), AnalysisKind, HtmlLine)|
    ensures r.cssRules == |Bucket(Split(text, '\n'), AnalysisKind, CssLine)|
    ensures r.jsStatements == |Bucket(Split(text, '\n'), AnalysisKind, JsLine)|
    ensures 0 <= r.confidence <= 100
  {
    AnalyzeBy(Split(text, '\n'), AnalysisKind)
  }

  /** Lines that all count as HTML are HTML with full confidence. */
  lemma AllTagsIsHtml(lines: seq<string>, kind: string -> LineKind)
    requires |lines| >= 1
    requires forall i :: 0 <= i < |lines| ==> kind(lines[i]) == HtmlLine
    ensures AnalyzeBy(lines, kind).contentType == Html && AnalyzeBy(lines, kind).confidence == 100
  {
    BucketAll(lines, kind, HtmlLine);
    BucketSizes(lines, kind);
    var n := |lines|;
    assert |Bucket(lines, kind, CssLine)| == 0 && |Bucket(lines, kind, JsLine)| == 0;
    assert Max3(n, 0, 0) == n;
    PercentWhole(n);
  }

  /** All of the lines is 100%. */
  lemma PercentWhole(n: nat)
    requires n > 0
    ensures Percent(n, n) == 100
  {
    var r := Percent(n, n);
    if r <= 99 {
      MulMono(r + 1, 100, 2 * n);
    }
  }

  lemma {:induction false} BucketAll<K>(lines: seq<string>, kind: string -> K, k: K)
    requires forall i :: 0 <= i < |lines| ==> kind(lines[i]) == k
    ensures Bucket(lines, kind, k) == lines
    decreases |lines|
  {
    if |lines| > 0 {
      BucketAll(lines[1..], kind, k);
    }
  }

  // ---------------------------------------------------------------------
  // _separateContentByType
  // ---------------------------------------------------------------------

  datatype Separated = Separated(html: string, css: string, javascript: string, unknown: string)

  /** `_separateContentByType(text)`: the text is split at every newline
      and the lines of each kind are joined with newlines, in order. Every
      line lands in exactly the bucket of its kind, and a field with lines
      splits back into them. */
  function SeparateContentByType(text: string): (r: Separated)
    ensures var lines := Split(text, '\n');
      && (|Bucket(lines, SeparationKind, HtmlLine)| > 0 ==> Split(r.html, '\n') == Bucket(lines, SeparationKind, HtmlLine))
      && (|Bucket(lines, SeparationKind, CssLine)| > 0 ==> Split(r.css, '\n') == Bucket(lines, SeparationKind, CssLine))
      && (|Bucket(lines, SeparationKind, JsLine)| > 0 ==> Split(r.javascript, '\n') == Bucket(lines, SeparationKind, JsLine))
      && (|Bucket(lines, SeparationKind, OtherLine)| > 0 ==> Split(r.unknown, '\n') == Bucket(lines, SeparationKind, OtherLine))
    ensures var lines := Split(text, '\n');
      && (|Bucket(lines, SeparationKind, HtmlLine)| == 0 ==> r.html == "")
      && (|Bucket(lines, SeparationKind, CssLine)| == 0 ==> r.css == "")
      && (|Bucket(lines, SeparationKind, JsLine)| == 0 ==> r.javascript == "")
      && (|Bucket(lines, SeparationKind, OtherLine)| == 0 ==> r.unknown == "")
    ensures var lines := Split(text, '\n');
      multiset(Bucket(lines, SeparationKind, HtmlLine)) + multiset(Bucket(lines, SeparationKind, CssLine))
      + multiset(Bucket(lines, SeparationKind, JsLine)) + multiset(Bucket(lines, SeparationKind, OtherLine))
      == multiset(lines)
  {
    var lines := Split(text, '\n');
    BucketsPartition(lines, SeparationKind);
    BucketRejoins(lines, SeparationKind, HtmlLine);
    BucketRejoins(lines, SeparationKind, CssLine);
    BucketRejoins(lines, SeparationKind, JsLine);
    BucketRejoins(lines, SeparationKind, OtherLine);
    Separated(
      Join(Bucket(lines, SeparationKind, HtmlLine), "\n"),
      Join(Bucket(lines, SeparationKind, CssLine), "\n"),
      Join(Bucket(lines, SeparationKind, JsLine), "\n"),
      Join(Bucket(lines, SeparationKind, OtherLine), "\n"))
  }

  /** A line is in the bucket of a kind exactly when it is a line of the
      text of that kind. */
  lemma SeparationMembers(text: string, k: LineKind, x: string)
    ensures x in Bucket(Split(text, '\n'), SeparationKind, k) <==> x in Split(text, '\n') && SeparationKind(x) == k
  {
    BucketMembers(Split(text, '\n'), SeparationKind, k, x);
  }

  /** A non-empty bucket of lines without newlines splits back into its
      lines. */
  lemma BucketRejoins<K>(lines: seq<string>, kind: string -> K, k: K)
    requires forall j :: 0 <= j < |lines| ==> '\n' !in lines[j]
    ensures var b := Bucket(lines, kind, k);
      |b| > 0 ==> Split(Join(b, "\n"), '\n') == b
  {
    var b := Bucket(lines, kind, k);
    if |b| > 0 {
      assert forall i :: 0 <= i < |b| ==> '\n' !in b[i] by {
        forall i | 0 <= i < |b| ensures '\n' !in b[i] {
          BucketMembers(lines, kind, k, b[i]);
          var j :| 0 <= j < |lines| && lines[j] == b[i];
        }
      }
      SplitJoin(b, '\n');
    }
  }

  // ---------------------------------------------------------------------
  // _filterQualityIssuesByContent
  // ---------------------------------------------------------------------

  /** A quality issue; a missing field reads as the empty string. */
  datatype Issue = Issue(code: string, category: string, description: string)

  /** Why an issue was dropped (the counters of `removedByType`). */
  datatype Removal = GlobalVarsInHtml | HtmlTags | NonJavascript | MixedContentConfusion

  const GlobalVariables := "quality_global_variables"
  const TagMarkers: seq<string> := ["<html", "<meta", "<div", "<button", "<script", "<link"]
  const GlobalAttributeMarkers: seq<string> := AttributeMarkers + ["style="]
  const MixedKeepMarkers: seq<string> := DeclarationMarkers + ["if ", "for "]

  /** `contentAnalysis?.type || 'unknown'`. */
  function ContentTypeOf(analysisType: Option<string>): string
  {
    if analysisType.Some? && analysisType.value != "" then analysisType.value else "unknown"
  }

  /** The six rules in their order; `None` keeps the issue. */
  function Verdict(issue: Issue, contentType: string): Option<Removal>
  {
    var code := issue.code;
    var category := issue.category;
    if category == GlobalVariables && (StartsWith(code, "<") || HasAny(code, TagMarkers)) then Some(GlobalVarsInHtml)
    else if StartsWith(code, "<") && contentType != "html" then Some(HtmlTags)
    else if (contentType == "html" || contentType == "css")
         && (category == "quality_scope" || Contains(ToLower(issue.description), "alcance")) then Some(NonJavascript)
    else if category == GlobalVariables && HasAny(code, GlobalAttributeMarkers) then Some(HtmlTags)
    else if contentType == "mixed" && category == GlobalVariables && !HasAny(code, MixedKeepMarkers) then
      Some(MixedContentConfusion)
    else if Contains(issue.description, "Variable global implicita") && !HasAny(code, DeclarationMarkers) then
      Some(GlobalVarsInHtml)
    else None
  }

  /** The issues no rule removes. */
  function Unremoved(verdict: Issue -> Option<Removal>): Issue -> bool
  {
    (i: Issue) => verdict(i).None?
  }

  /** The issues kept: those no rule removes, each as often as in the
      input, in their order. */
  function Kept(issues: seq<Issue>, verdict: Issue -> Option<Removal>): (r: seq<Issue>)
    ensures FilteredFrom(r, issues, Unremoved(verdict))
    ensures forall x :: x in r <==> x in issues && verdict(x).None?
  {
    FilterFiltered(issues, Unremoved(verdict));
    Filter(issues, Unremoved(verdict))
  }

  /** The number of issues dropped for `why`. */
  function RemovedFor(issues: seq<Issue>, verdict: Issue -> Option<Removal>, why: Removal): nat
  {
    if |issues| == 0 then 0
    else (if verdict(issues[0]) == Some(why) then 1 else 0) + RemovedFor(issues[1..], verdict, why)
  }

  /** The number of issues dropped for any reason (`removedCount`). */
  function RemovedCount(issues: seq<Issue>, verdict: Issue -> Option<Removal>): nat
  {
    if |issues| == 0 then 0
    else (if verdict(issues[0]).Some? then 1 else 0) + RemovedCount(issues[1..], verdict)
  }

  /** Kept and removed issues make up the input, and the removals by reason
      add up to the removals. */
  lemma {:induction false} KeptAndRemoved(issues: seq<Issue>, verdict: Issue -> Option<Removal>)
    ensures |Kept(issues, verdict)| + RemovedCount(issues, verdict) == |issues|
    ensures RemovedFor(issues, verdict, GlobalVarsInHtml) + RemovedFor(issues, verdict, HtmlTags)
          + RemovedFor(issues, verdict, NonJavascript) + RemovedFor(issues, verdict, MixedContentConfusion)
         == RemovedCount(issues, verdict)
    decreases |issues|
  {
    if |issues| > 0 {
      KeptAndRemoved(issues[1..], verdict);
      match verdict(issues[0])
      case None =>
      case Some(why) =>
        assert why == GlobalVarsInHtml || why == HtmlTags || why == NonJavascript || why == MixedContentConfusion;
    }
  }

  datatype FilterStats = FilterStats(
    originalCount: nat, filteredCount: nat, removedCount: nat,
    htmlTags: nat, cssRules: nat, nonJavascript: nat, globalVarsInHtml: nat, mixedContentConfusion: nat)

  datatype FilterResult = FilterResult(filteredIssues: seq<Issue>, stats: FilterStats, removedCount: nat, remainingCount: nat)

  /** `_filterQualityIssuesByContent(issues, contentAnalysis)` for any
      verdict function. */
  function FilterIssuesBy(issues: seq<Issue>, verdict: Issue -> Option<Removal>): (r: FilterResult)
    ensures r.filteredIssues == Kept(issues, verdict) && IsSubsequence(r.filteredIssues, issues)
    ensures r.removedCount + r.remainingCount == |issues| == r.stats.originalCount
    ensures r.stats.removedCount == r.removedCount && r.stats.filteredCount == r.remainingCount == |r.filteredIssues|
    ensures r.stats.htmlTags + r.stats.cssRules + r.stats.nonJavascript + r.stats.globalVarsInHtml
          + r.stats.mixedContentConfusion == r.removedCount
    ensures r.stats.cssRules == 0
  {
    KeptAndRemoved(issues, verdict);
    FilterIsSubsequence(issues, i => verdict(i).None?);
    var kept := Kept(issues, verdict);
    var removed := RemovedCount(issues, verdict);
    var stats := FilterStats(|issues|, |kept|, removed,
      RemovedFor(issues, verdict, HtmlTags), 0, RemovedFor(issues, verdict, NonJavascript),
      RemovedFor(issues, verdict, GlobalVarsInHtml), RemovedFor(issues, verdict, MixedContentConfusion));
    FilterResult(kept, stats, removed, |kept|)
  }

  function FilterQualityIssuesByContent(issues: seq<Issue>, analysisType: Option<string>): (r: FilterResult)
    ensures r.filteredIssues == Kept(issues, i => Verdict(i, ContentTypeOf(analysisType)))
    ensures r.removedCount + r.remainingCount == |issues|
    ensures IsSubsequence(r.filteredIssues, issues)
  {
    FilterIssuesBy(issues, i => Verdict(i, ContentTypeOf(analysisType)))
  }

  /** A global-variable issue whose code starts with `<` is dropped
      whatever the content type. */
  lemma GlobalTagAlwaysRemoved(issues: seq<Issue>, analysisType: Option<string>, issue: Issue)
    requires issue.category == GlobalVariables && StartsWith(issue.code, "<")
    ensures issue !in FilterQualityIssuesByContent(issues, analysisType).filteredIssues
  {
    assert Verdict(issue, ContentTypeOf(analysisType)) == Some(GlobalVarsInHtml);
  }

  /** Outside HTML content, every issue whose code starts with a tag is
      dropped, as a global-variable false positive or as an HTML tag. */
  lemma TagCodeRemovedOutsideHtml(issues: seq<Issue>, analysisType: Option<string>, issue: Issue)
    requires StartsWith(issue.code, "<") && ContentTypeOf(analysisType) != "html"
    ensures issue !in FilterQualityIssuesByContent(issues, analysisType).filteredIssues
    ensures Verdict(issue, ContentTypeOf(analysisType)) == Some(if issue.category == GlobalVariables then GlobalVarsInHtml else HtmlTags)
  {
  }

  /** In HTML, an issue about a plain statement survives. */
  lemma PlainIssueKeptInHtml()
    ensures Verdict(Issue("", "quality_naming", ""), "html").None?
  {
    assert !StartsWith("", "<");
    assert !Contains(ToLower(""), "alcance");
    assert !Contains("", "Variable global implicita");
  }

  // ---------------------------------------------------------------------
  // _applyContentTypeRules and the heuristic score
  // ---------------------------------------------------------------------

  /** The fields of an analysis the rules read; the confidence may be
      missing, and then neither confidence rule applies. */
  datatype RulesInput = RulesInput(contentType: string, confidence: Option<int>)

  datatype RulesResult = RulesResult(scoreAdjustment: int, details: seq<string>)

  /** The detail messages of the rules. */
  const JavascriptBonus := "✅ Bonus por contenido JavaScript valido (+10)"
  const JavascriptLooksLikeMarkup := "❌ Penalizacion: contenido parece HTML/CSS en pregunta/respuesta (-20)"
  const HtmlPenalty := "⚠️ Penalizacion por contenido HTML: no es codigo ejecutable (-15)"
  const HtmlTopicBonus := "✅ Bonus por tratar especificamente sobre HTML (+10)"
  const CssPenalty := "⚠️ Penalizacion por contenido CSS: no es codigo ejecutable (-15)"
  const CssTopicBonus := "✅ Bonus por tratar especificamente sobre CSS (+10)"
  const MixedPenalty := "⚠️ Penalizacion por contenido mixto: analisis mas complejo (-10)"
  const UnknownType := "ℹ️ Tipo de contenido no reconocido"
  const LowConfidence := "⚠️ Baja confianza en deteccion de tipo (-5)"
  const HighConfidence := "✅ Alta confianza en deteccion de tipo (+5)"
  const NoAnalysis := "Sin analisis de contenido disponible"

  /** The `switch (contentAnalysis.type)` cases. */
  datatype RuleCase = JavascriptCase | HtmlCase | CssCase | MixedCase | DefaultCase

  function RuleCaseOf(contentType: string): RuleCase
  {
    if contentType == "javascript" then JavascriptCase
    else if contentType == "html" then HtmlCase
    else if contentType == "css" then CssCase
    else if contentType == "mixed" then MixedCase
    else DefaultCase
  }

  /** The adjustment for the content type and the card's wording. */
  function TypeRule(rule: RuleCase, question: string, answer: string): (r: RulesResult)
    ensures |r.details| >= 1
    ensures rule == JavascriptCase ==>
      r.scoreAdjustment == (if Contains(question, "<") || Contains(answer, "class=") then -10 else 10)
    ensures rule == HtmlCase ==>
      r.scoreAdjustment == (if Contains(ToLower(question), "html") || Contains(ToLower(answer), "etiqueta") then -5 else -15)
    ensures rule == CssCase ==>
      r.scoreAdjustment == (if Contains(ToLower(question), "css") || Contains(ToLower(answer), "estilo") then -5 else -15)
    ensures rule == MixedCase ==> r.scoreAdjustment == -10
    ensures rule == DefaultCase ==> r.scoreAdjustment == 0
  {
    match rule
    case JavascriptCase =>
      var bonus := [JavascriptBonus];
      if Contains(question, "<") || Contains(answer, "class=") then
        RulesResult(-10, bonus + [JavascriptLooksLikeMarkup])
      else RulesResult(10, bonus)
    case HtmlCase =>
      var penalty := [HtmlPenalty];
      if Contains(ToLower(question), "html") || Contains(ToLower(answer), "etiqueta") then
        RulesResult(-5, penalty + [HtmlTopicBonus])
      else RulesResult(-15, penalty)
    case CssCase =>
      var penalty := [CssPenalty];
      if Contains(ToLower(question), "css") || Contains(ToLower(answer), "estilo") then
        RulesResult(-5, penalty + [CssTopicBonus])
      else RulesResult(-15, penalty)
    case MixedCase => RulesResult(-10, [MixedPenalty])
    case DefaultCase => RulesResult(0, [UnknownType])
  }

  /** The adjustment for the confidence of the analysis. */
  function ConfidenceRule(confidence: Option<int>): (r: RulesResult)
    ensures confidence.Some? && confidence.value < 70 ==> r.scoreAdjustment == -5
    ensures confidence.Some? && confidence.value > 90 ==> r.scoreAdjustment == 5
    ensures (confidence.None? || 70 <= confidence.value <= 90) ==> r == RulesResult(0, [])
  {
    if confidence.Some? && confidence.value < 70 then RulesResult(-5, [LowConfidence])
    else if confidence.Some? && confidence.value > 90 then RulesResult(5, [HighConfidence])
    else RulesResult(0, [])
  }

  /** `_applyContentTypeRules(flashcard, contentAnalysis)`. */
  function ApplyContentTypeRules(question: string, answer: string, analysis: Option<RulesInput>): (r: RulesResult)
    ensures analysis.None? ==> r == RulesResult(0, [NoAnalysis])
    ensures -20 <= r.scoreAdjustment <= 15 && |r.details| >= 1
    ensures analysis.Some? ==>
      r.scoreAdjustment == TypeRule(RuleCaseOf(analysis.value.contentType), question, answer).scoreAdjustment
                         + ConfidenceRule(analysis.value.confidence).scoreAdjustment
  {
    if analysis.None? then RulesResult(0, [NoAnalysis])
    else
      var t := TypeRule(RuleCaseOf(analysis.value.contentType), question, answer);
      var c := ConfidenceRule(analysis.value.confidence);
      RulesResult(t.scoreAdjustment + c.scoreAdjustment, t.details + c.details)
  }

  /** A more confident analysis never lowers the adjustment. */
  lemma ConfidenceMonotone(question: string, answer: string, contentType: string, low: int, high: int)
    requires low <= high
    ensures ApplyContentTypeRules(question, answer, Some(RulesInput(contentType, Some(low)))).scoreAdjustment
         <= ApplyContentTypeRules(question, answer, Some(RulesInput(contentType, Some(high)))).scoreAdjustment
  {
  }

  /** The analysis of a text, as the rules read it. */
  function RulesInputOf(a: Analysis): RulesInput
  {
    RulesInput(TypeName(a.contentType), Some(a.confidence))
  }

  /** The template-specific score: a book template wants the question to
      name the book or its chapter (an absent chapter is searched for as the
      text `undefined`); a language template wants a translation label in
      the answer, and wins when a name mentions both. */
  function TemplateScore(templateName: string, question: string, answer: string,
                         bookTitle: Option<string>, chapter: Option<string>): (r: int)
    ensures IsLanguageTemplate(templateName) ==> r == (if HasTranslation(answer) then 10 else -10)
    ensures !IsLanguageTemplate(templateName) && IsBookTemplate(templateName) ==>
      (r == 10 <==> bookTitle.Some? && bookTitle.value != ""
                    && (Contains(question, bookTitle.value) || Contains(question, chapter.GetOr("undefined"))))
    ensures !IsLanguageTemplate(templateName) && IsBookTemplate(templateName) ==> r in {10, -15}
    ensures !IsLanguageTemplate(templateName) && !IsBookTemplate(templateName) ==> r == 0
  {
    if IsLanguageTemplate(templateName) then (if HasTranslation(answer) then 10 else -10)
    else if IsBookTemplate(templateName) then
      var hasReference := bookTitle.Some? && bookTitle.value != ""
                          && (Contains(question, bookTitle.value) || Contains(question, chapter.GetOr("undefined")));
      if hasReference then 10 else -15
    else 0
  }

  predicate IsBookTemplate(name: string)
  {
    Contains(name, "Libro") || Contains(name, "Book")
  }

  predicate IsLanguageTemplate(name: string)
  {
    Contains(name, "Idioma") || Contains(name, "Language")
  }

  /** `/traduccion:|translation:/i.test(answer)`. */
  predicate HasTranslation(answer: string)
  {
    Contains(ToLower(answer), "traduccion:") || Contains(ToLower(answer), "translation:")
  }

  /** The mean of the three quality scores. */
  function AverageQuality(clarity: real, relevance: real, conciseness: real): (r: real)
    ensures 3.0 * r == clarity + relevance + conciseness
    ensures (0.0 <= clarity <= 100.0 && 0.0 <= relevance <= 100.0 && 0.0 <= conciseness <= 100.0) ==> 0.0 <= r <= 100.0
  {
    (clarity + relevance + conciseness) / 3.0
  }

  /** `Math.max(0, Math.min(100, avgQuality + templateSpecificScore + contentTypeScore))`. */
  function HeuristicScore(avgQuality: real, templateScore: int, contentTypeScore: int): (r: real)
    ensures 0.0 <= r <= 100.0
    ensures 0.0 <= avgQuality + templateScore as real + contentTypeScore as real <= 100.0 ==>
      r == avgQuality + templateScore as real + contentTypeScore as real
  {
    var total := avgQuality + templateScore as real + contentTypeScore as real;
    if total > 100.0 then 100.0 else if total < 0.0 then 0.0 else total
  }

  /** The clamp is monotone: a better base quality never scores lower. */
  lemma HeuristicScoreMonotone(a: real, b: real, templateScore: int, contentTypeScore: int)
    requires a <= b
    ensures HeuristicScore(a, templateScore, contentTypeScore) <= HeuristicScore(b, templateScore, contentTypeScore)
  {
  }

  /** `needsRefinement: finalScore < (config.threshold || 70)`. */
  predicate NeedsRefinement(score: real, threshold: Option<real>)
  {
    score < (if threshold.Some? && threshold.value != 0.0 then threshold.value else 70.0)
  }

  /** Without a threshold, a card refines exactly when it scores below 70;
      a score clamped to 100 never needs refinement under the default. */
  lemma DefaultRefinement(avgQuality: real, templateScore: int, contentTypeScore: int)
    ensures var s := HeuristicScore(avgQuality, templateScore, contentTypeScore);
      NeedsRefinement(s, None) <==> s < 70.0
    ensures avgQuality + templateScore as real + contentTypeScore as real >= 100.0 ==>
      !NeedsRefinement(HeuristicScore(avgQuality, templateScore, contentTypeScore), None)
  {
  }
}
