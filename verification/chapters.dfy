/** Chapter detection and the `chapter_sents` strategy of the server
    (`detect_chapters` and `segment_chapter_sents` in Flashgen/server.py). */
module Chapters {
  import opened Seqs
  import opened Strings
  import opened Annotation

  // ---------------------------------------------------------------------
  // Heading patterns
  // ---------------------------------------------------------------------

  /** The upper-case Roman numeral letters of the class `[IVXLCDM]`. */
  predicate IsRoman(c: char)
  {
    c == 'I' || c == 'V' || c == 'X' || c == 'L' || c == 'C' || c == 'D' || c == 'M'
  }

  predicate IsDigitOrRoman(c: char)
  {
    IsDigit(c) || IsRoman(c)
  }

  /** The words the first heading pattern accepts before the number. */
  const ChapterWords: seq<string> :=
    ["Chapter", "CHAPTER", "Capitulo", "CAPiTULO", "Chapitre", "CHAPITRE"]

  /** Length of the longest prefix of `s` whose characters satisfy `p`. */
  function LeadingRun(s: string, p: char -> bool): (n: nat)
    ensures n <= |s|
    ensures forall i :: 0 <= i < n ==> p(s[i])
    ensures n == |s| || !p(s[n])
  {
    if |s| > 0 && p(s[0]) then 1 + LeadingRun(s[1..], p) else 0
  }

  /** `re.match(r'^W\s+(\d+|[IVXLCDM]+)', s)` for one chapter word `W`:
      the word, at least one space, then a digit or a Roman letter. */
  predicate MatchesWordHeading(s: string, w: string)
  {
    StartsWith(s, w) &&
    var rest := s[|w|..];
    var n := LeadingRun(rest, IsSpace);
    1 <= n < |rest| && IsDigitOrRoman(rest[n])
  }

  /** `re.match(r'^X+\.\s+[A-Z]', s)` for a character class `X`: a run of
      `X`, a dot, at least one space, then an ASCII capital. */
  predicate MatchesRunDotHeading(s: string, x: char -> bool)
  {
    var n := LeadingRun(s, x);
    1 <= n && n < |s| && s[n] == '.' &&
    var m := LeadingRun(s[n + 1..], IsSpace);
    1 <= m && n + 1 + m < |s| && IsUpper(s[n + 1 + m])
  }

  /** One of the three heading patterns matches at the start of the line. */
  predicate IsChapterHeading(s: string)
  {
    (exists k :: 0 <= k < |ChapterWords| && MatchesWordHeading(s, ChapterWords[k]))
    || MatchesRunDotHeading(s, IsDigit)
    || MatchesRunDotHeading(s, IsRoman)
  }

  /** The second and third patterns read as regular expressions: some
      non-empty run of `X` ends at a dot at `i`, spaces fill `(i, j)`, and
      `s[j]` is a capital. */
  ghost predicate RunDotHeadingAt(s: string, x: char -> bool, i: nat, j: nat)
  {
    && 1 <= i && i + 1 < j < |s|
    && (forall m :: 0 <= m < i ==> x(s[m]))
    && s[i] == '.'
    && (forall m :: i < m < j ==> IsSpace(s[m]))
    && IsUpper(s[j])
  }

  /** The greedy scan agrees with the backtracking reading of the pattern,
      for classes that contain neither the dot nor a capital-free space. */
  lemma RunDotHeadingIff(s: string, x: char -> bool)
    requires !x('.')
    ensures MatchesRunDotHeading(s, x) <==> exists i, j :: RunDotHeadingAt(s, x, i, j)
  {
    if MatchesRunDotHeading(s, x) {
      RunDotHeadingWitness(s, x);
    }
    if exists i, j :: RunDotHeadingAt(s, x, i, j) {
      var i: nat, j: nat :| RunDotHeadingAt(s, x, i, j);
      RunDotHeadingMatches(s, x, i, j);
    }
  }

  lemma RunDotHeadingWitness(s: string, x: char -> bool)
    requires MatchesRunDotHeading(s, x)
    ensures var n := LeadingRun(s, x);
      RunDotHeadingAt(s, x, n, n + 1 + LeadingRun(s[n + 1..], IsSpace))
  {
    var n := LeadingRun(s, x);
    var m := LeadingRun(s[n + 1..], IsSpace);
    forall k | n < k < n + 1 + m
      ensures IsSpace(s[k])
    {
      assert s[k] == s[n + 1..][k - n - 1];
    }
  }

  lemma RunDotHeadingMatches(s: string, x: char -> bool, i: nat, j: nat)
    requires !x('.') && RunDotHeadingAt(s, x, i, j)
    ensures MatchesRunDotHeading(s, x)
  {
    var n := LeadingRun(s, x);
    assert n == i;
    var rest := s[i + 1..];
    var m := LeadingRun(rest, IsSpace);
    assert forall k :: 0 <= k < j - i - 1 ==> rest[k] == s[i + 1 + k];
    assert rest[j - i - 1] == s[j];
    assert m == j - i - 1;
  }

  /** The first pattern read as a regular expression for one chapter word. */
  ghost predicate WordHeadingAt(s: string, w: string, j: nat)
  {
    && StartsWith(s, w)
    && |w| < j < |s|
    && (forall m :: |w| <= m < j ==> IsSpace(s[m]))
    && IsDigitOrRoman(s[j])
  }

  lemma WordHeadingIff(s: string, w: string)
    ensures MatchesWordHeading(s, w) <==> exists j :: WordHeadingAt(s, w, j)
  {
    if MatchesWordHeading(s, w) {
      var rest := s[|w|..];
      var n := LeadingRun(rest, IsSpace);
      assert forall m :: |w| <= m < |w| + n ==> IsSpace(s[m]) by {
        forall m | |w| <= m < |w| + n
          ensures IsSpace(s[m])
        {
          assert s[m] == rest[m - |w|];
        }
      }
      assert WordHeadingAt(s, w, |w| + n);
    }
    if exists j :: WordHeadingAt(s, w, j) {
      var j: nat :| WordHeadingAt(s, w, j);
      var rest := s[|w|..];
      var n := LeadingRun(rest, IsSpace);
      assert forall k :: 0 <= k < j - |w| ==> rest[k] == s[|w| + k];
      assert rest[j - |w|] == s[j];
      assert n == j - |w|;
    }
  }

  // ---------------------------------------------------------------------
  // detect_chapters
  // ---------------------------------------------------------------------

  /** A chapter: its title, the index of the line it starts at, and its text. */
  datatype Chapter = Chapter(title: string, start: nat, text: string)

  const OpeningTitle: string := "Inicio"
  const WholeDocumentTitle: string := "Documento completo"

  predicate EndsWithNewline(s: string)
  {
    |s| > 0 && s[|s| - 1] == '\n'
  }

  /** Chapter `c` was opened by a line on which `heading` holds, namely
      line `c.start`. */
  predicate OpenedBy(lines: seq<string>, c: Chapter, heading: string -> bool)
  {
    c.start < |lines| && c.title == Trim(lines[c.start]) && heading(c.title)
  }

  /** Chapter `c` was opened by the heading on line `c.start`. */
  predicate OpenedByHeading(lines: seq<string>, c: Chapter)
  {
    OpenedBy(lines, c, IsChapterHeading)
  }

  /** The shape of a chapter list for a heading test: the first is the
      opening chapter, the others were opened by headings, and their start
      lines ascend. */
  predicate ChapterOrderBy(lines: seq<string>, chs: seq<Chapter>, heading: string -> bool)
  {
    && (|chs| > 0 ==> chs[0].title == OpeningTitle && chs[0].start == 0)
    && (forall k :: 1 <= k < |chs| ==> OpenedBy(lines, chs[k], heading))
    && (forall a, b :: 0 <= a < b < |chs| ==> chs[a].start < chs[b].start)
  }

  /** The chapter list's shape for the three heading patterns. */
  predicate ChapterOrder(lines: seq<string>, chs: seq<Chapter>)
  {
    ChapterOrderBy(lines, chs, IsChapterHeading)
  }

  /** What holds of the chapters recorded so far, and of the current one,
      before line `i` is read. */
  predicate ScanInvariant(lines: seq<string>, i: nat, cur: Chapter, done: seq<Chapter>)
  {
    && i <= |lines|
    && ChapterOrder(lines, done + [cur])
    && (forall k :: 0 <= k < |done| ==> EndsWithNewline(done[k].text))
    && (cur.text == "" || EndsWithNewline(cur.text))
    && cur.start <= i
    && (cur.text != "" ==> cur.start < i)
  }

  lemma FinishKeepsOrder(lines: seq<string>, i: nat, cur: Chapter, done: seq<Chapter>)
    requires ScanInvariant(lines, i, cur, done)
    ensures ChapterOrder(lines, done)
  {
    var all := done + [cur];
    assert forall k :: 0 <= k < |done| ==> done[k] == all[k];
  }

  lemma ChapterOrderSnoc(lines: seq<string>, chs: seq<Chapter>, c: Chapter, heading: string -> bool)
    requires ChapterOrderBy(lines, chs, heading) && |chs| > 0
    requires OpenedBy(lines, c, heading)
    requires forall k :: 0 <= k < |chs| ==> chs[k].start < c.start
    ensures ChapterOrderBy(lines, chs + [c], heading)
  {
    OpenedSnoc(lines, chs, c, heading);
    AscendingSnoc(chs, c);
  }

  lemma OpenedSnoc(lines: seq<string>, chs: seq<Chapter>, c: Chapter, heading: string -> bool)
    requires forall k :: 1 <= k < |chs| ==> OpenedBy(lines, chs[k], heading)
    requires OpenedBy(lines, c, heading)
    ensures forall k :: 1 <= k < |chs + [c]| ==> OpenedBy(lines, (chs + [c])[k], heading)
  {
    var all := chs + [c];
    forall k | 1 <= k < |all|
      ensures OpenedBy(lines, all[k], heading)
    {
      if k < |chs| {
        assert all[k] == chs[k];
      }
    }
  }

  lemma AscendingSnoc(chs: seq<Chapter>, c: Chapter)
    requires forall a, b :: 0 <= a < b < |chs| ==> chs[a].start < chs[b].start
    requires forall k :: 0 <= k < |chs| ==> chs[k].start < c.start
    ensures forall a, b :: 0 <= a < b < |chs + [c]| ==> (chs + [c])[a].start < (chs + [c])[b].start
  {
    var all := chs + [c];
    forall a, b | 0 <= a < b < |all|
      ensures all[a].start < all[b].start
    {
      assert all[a] == chs[a];
      if b < |chs| {
        assert all[b] == chs[b];
      }
    }
  }

  lemma ChapterOrderSetText(lines: seq<string>, chs: seq<Chapter>, text: string, heading: string -> bool)
    requires ChapterOrderBy(lines, chs, heading) && |chs| > 0
    ensures ChapterOrderBy(lines, chs[..|chs| - 1] + [chs[|chs| - 1].(text := text)], heading)
  {
    var all := chs[..|chs| - 1] + [chs[|chs| - 1].(text := text)];
    forall k | 0 <= k < |chs|
      ensures all[k].start == chs[k].start && all[k].title == chs[k].title
    {
    }
    ChapterOrderSameLines(lines, chs, all, heading);
  }

  /** The shape of a chapter list depends only on titles and start lines. */
  lemma ChapterOrderSameLines(lines: seq<string>, chs: seq<Chapter>, all: seq<Chapter>, heading: string -> bool)
    requires ChapterOrderBy(lines, chs, heading) && |all| == |chs|
    requires forall k :: 0 <= k < |chs| ==> all[k].start == chs[k].start && all[k].title == chs[k].title
    ensures ChapterOrderBy(lines, all, heading)
  {
    forall k | 1 <= k < |all|
      ensures OpenedBy(lines, all[k], heading)
    {
      assert OpenedBy(lines, chs[k], heading);
    }
  }

  /** A heading line after some text closes the current chapter and opens one. */
  lemma OpenKeepsInvariant(lines: seq<string>, i: nat, cur: Chapter, done: seq<Chapter>)
    requires ScanInvariant(lines, i, cur, done)
    requires i < |lines| && IsChapterHeading(Trim(lines[i])) && cur.text != ""
    ensures ScanInvariant(lines, i + 1, Chapter(Trim(lines[i]), i, ""), done + [cur])
  {
    var chs := done + [cur];
    var next := Chapter(Trim(lines[i]), i, "");
    forall k | 0 <= k < |chs|
      ensures chs[k].start < next.start
    {
      if k < |chs| - 1 {
        assert chs[k].start < chs[|chs| - 1].start;
      }
    }
    assert OpenedByHeading(lines, next);
    ChapterOrderSnoc(lines, chs, next, IsChapterHeading);
    forall k | 0 <= k < |chs|
      ensures EndsWithNewline(chs[k].text)
    {
      if k < |done| {
        assert chs[k] == done[k];
      }
    }
  }

  /** Any other non-blank line is appended to the current chapter's text. */
  lemma GrowKeepsInvariant(lines: seq<string>, i: nat, cur: Chapter, done: seq<Chapter>)
    requires ScanInvariant(lines, i, cur, done)
    requires i < |lines|
    ensures ScanInvariant(lines, i + 1, cur.(text := cur.text + lines[i] + "\n"), done)
  {
    var chs := done + [cur];
    ChapterOrderSetText(lines, chs, cur.text + lines[i] + "\n", IsChapterHeading);
    assert chs[..|chs| - 1] == done;
  }

  /** The loop of `detect_chapters` from line `i` on. */
  function ScanLines(lines: seq<string>, i: nat, cur: Chapter, done: seq<Chapter>): (r: seq<Chapter>)
    requires ScanInvariant(lines, i, cur, done)
    ensures ChapterOrder(lines, r)
    ensures forall k :: 0 <= k < |r| ==> EndsWithNewline(r[k].text)
    ensures |r| >= |done|
    decreases |lines| - i
  {
    if i == |lines| then
      if cur.text != "" then done + [cur]
      else
        FinishKeepsOrder(lines, i, cur, done);
        done
    else
      var stripped := Trim(lines[i]);
      if stripped == "" then ScanLines(lines, i + 1, cur, done)
      else if IsChapterHeading(stripped) && cur.text != "" then
        OpenKeepsInvariant(lines, i, cur, done);
        ScanLines(lines, i + 1, Chapter(stripped, i, ""), done + [cur])
      else
        GrowKeepsInvariant(lines, i, cur, done);
        ScanLines(lines, i + 1, cur.(text := cur.text + lines[i] + "\n"), done)
  }

  /** The chapters the scan of `text` records, before the final fallback. */
  function FoundChapters(text: string): (r: seq<Chapter>)
    ensures ChapterOrder(Split(text, '\n'), r)
    ensures forall k :: 0 <= k < |r| ==> EndsWithNewline(r[k].text)
  {
    ScanLines(Split(text, '\n'), 0, Chapter(OpeningTitle, 0, ""), [])
  }

  /** `detect_chapters(text)`: the chapters found when there are at least
      two, otherwise one chapter holding the whole text. Each chapter found
      holds its non-blank lines, each followed by a newline, from its
      heading up to the next chapter's heading, and a heading line met
      after some text always opens a new chapter. */
  function DetectChapters(text: string): (r: seq<Chapter>)
    ensures |r| >= 1
    ensures |r| == 1 ==> r[0] == Chapter(WholeDocumentTitle, 0, text)
    ensures |r| > 1 ==> ChapterOrder(Split(text, '\n'), r)
    ensures |r| > 1 ==> forall k :: 0 <= k < |r| ==> EndsWithNewline(r[k].text)
    ensures |r| > 1 ==> ChapterTexts(Split(text, '\n'), r)
  {
    FoundChaptersTexts(text);
    var found := FoundChapters(text);
    if |found| > 1 then found else [Chapter(WholeDocumentTitle, 0, text)]
  }

  /** No line of `lines` from `i` on is a heading once stripped. */
  predicate NoHeadingFrom(lines: seq<string>, i: nat)
  {
    forall k :: i <= k < |lines| ==> !IsChapterHeading(Trim(lines[k]))
  }

  lemma {:induction false} ScanWithoutHeadings(lines: seq<string>, i: nat, cur: Chapter, done: seq<Chapter>)
    requires ScanInvariant(lines, i, cur, done)
    requires NoHeadingFrom(lines, i)
    ensures |ScanLines(lines, i, cur, done)| <= |done| + 1
    decreases |lines| - i
  {
    if i < |lines| {
      var stripped := Trim(lines[i]);
      if stripped == "" {
        ScanWithoutHeadings(lines, i + 1, cur, done);
      } else {
        var grown := cur.(text := cur.text + lines[i] + "\n");
        GrowKeepsInvariant(lines, i, cur, done);
        ScanWithoutHeadings(lines, i + 1, grown, done);
      }
    }
  }

  /** A text without any heading line is returned as one whole chapter. */
  lemma NoHeadingsWholeDocument(text: string)
    requires NoHeadingFrom(Split(text, '\n'), 0)
    ensures DetectChapters(text) == [Chapter(WholeDocumentTitle, 0, text)]
  {
    ScanWithoutHeadings(Split(text, '\n'), 0, Chapter(OpeningTitle, 0, ""), []);
  }

  /** What line `line` adds to a chapter's text: nothing when it is blank,
      otherwise the line and a newline. */
  function LineContribution(line: string): string
  {
    if IsBlank(line) then "" else line + "\n"
  }

  /** The text lines `lo` up to `hi` (exclusive) add to a chapter. */
  function Body(lines: seq<string>, lo: nat, hi: nat): string
    decreases hi
  {
    if hi <= lo || hi > |lines| then "" else Body(lines, lo, hi - 1) + LineContribution(lines[hi - 1])
  }

  /** The first line whose text chapter `k` collects: the opening chapter
      starts at the top, any other chapter just after its heading line. */
  function TextFrom(k: nat, c: Chapter): nat
  {
    if k == 0 then 0 else c.start + 1
  }

  /** Chapter `c` owns lines `lo` up to `hi`: its text is theirs, and a
      line on which `heading` holds was met while the chapter's text was
      still empty. */
  predicate SpanBy(lines: seq<string>, c: Chapter, lo: nat, hi: nat, heading: string -> bool)
  {
    && lo <= hi <= |lines|
    && c.text == Body(lines, lo, hi)
    && HeadingsLead(lines, lo, hi, heading)
  }

  /** Among lines `lo` up to `hi`, a line on which `heading` holds comes
      before any text. */
  predicate HeadingsLead(lines: seq<string>, lo: nat, hi: nat, heading: string -> bool)
    decreases hi
  {
    hi <= lo || hi > |lines| ||
    (HeadingsLead(lines, lo, hi - 1, heading) && (heading(lines[hi - 1]) ==> Body(lines, lo, hi - 1) == ""))
  }

  lemma {:induction false} HeadingsLeadAt(lines: seq<string>, lo: nat, hi: nat, heading: string -> bool, j: nat)
    requires hi <= |lines| && HeadingsLead(lines, lo, hi, heading)
    requires lo <= j < hi && heading(lines[j])
    ensures Body(lines, lo, j) == ""
    decreases hi
  {
    if j < hi - 1 {
      HeadingsLeadAt(lines, lo, hi - 1, heading, j);
    }
  }

  /** The line the chapter after chapter `k` starts at. */
  function NextStart(chs: seq<Chapter>, k: nat): nat
  {
    if k + 1 < |chs| then chs[k + 1].start else 0
  }

  /** The last chapter ends before heading line `s`, which opened a chapter
      that only blank lines followed and that was therefore dropped. */
  predicate DroppedHeadingAt(lines: seq<string>, chs: seq<Chapter>, s: nat, heading: string -> bool)
    requires |chs| > 0
  {
    var k := |chs| - 1;
    && s < |lines| && heading(lines[s])
    && SpanBy(lines, chs[k], TextFrom(k, chs[k]), s, heading)
    && chs[k].text != ""
    && Body(lines, s + 1, |lines|) == ""
  }

  /** The texts of a chapter list: every chapter owns the lines from its
      heading up to the next chapter's heading, and the last one owns the
      lines up to the end or up to a dropped trailing heading. */
  predicate ChapterTextsBy(lines: seq<string>, chs: seq<Chapter>, heading: string -> bool)
  {
    |chs| == 0 ||
    (&& (forall k :: 0 <= k < |chs| - 1 ==> SpanBy(lines, chs[k], TextFrom(k, chs[k]), NextStart(chs, k), heading))
     && LastSpan(lines, chs, heading))
  }

  /** The last chapter owns the lines up to the end, or up to a trailing
      heading that was dropped. */
  predicate LastSpan(lines: seq<string>, chs: seq<Chapter>, heading: string -> bool)
    requires |chs| > 0
  {
    || SpanBy(lines, chs[|chs| - 1], TextFrom(|chs| - 1, chs[|chs| - 1]), |lines|, heading)
    || exists s :: 0 <= s < |lines| && DroppedHeadingAt(lines, chs, s, heading)
  }

  /** What the scan has collected before line `i`: the closed chapters own
      their lines and the current one owns the lines read since it opened. */
  predicate TextInvariant(lines: seq<string>, i: nat, cur: Chapter, done: seq<Chapter>, heading: string -> bool)
  {
    var all := done + [cur];
    && (forall k :: 0 <= k < |done| ==> SpanBy(lines, done[k], TextFrom(k, done[k]), NextStart(all, k), heading))
    && SpanBy(lines, cur, TextFrom(|done|, cur), i, heading)
  }

  lemma BodySnoc(lines: seq<string>, lo: nat, i: nat)
    requires lo <= i < |lines|
    ensures Body(lines, lo, i + 1) == Body(lines, lo, i) + LineContribution(lines[i])
  {
  }

  /** A blank line adds nothing. */
  lemma TextInvariantBlank(lines: seq<string>, i: nat, cur: Chapter, done: seq<Chapter>, heading: string -> bool)
    requires TextInvariant(lines, i, cur, done, heading)
    requires i < |lines| && IsBlank(lines[i]) && !heading(lines[i])
    ensures TextInvariant(lines, i + 1, cur, done, heading)
  {
    var lo := TextFrom(|done|, cur);
    BodySnoc(lines, lo, i);
  }

  /** A heading after some text closes the current chapter at line `i`. */
  lemma TextInvariantOpen(lines: seq<string>, i: nat, cur: Chapter, done: seq<Chapter>, heading: string -> bool, title: string)
    requires TextInvariant(lines, i, cur, done, heading)
    requires i < |lines|
    ensures TextInvariant(lines, i + 1, Chapter(title, i, ""), done + [cur], heading)
  {
    var all := done + [cur];
    var next := Chapter(title, i, "");
    var all' := all + [next];
    forall k | 0 <= k < |all|
      ensures SpanBy(lines, all[k], TextFrom(k, all[k]), NextStart(all', k), heading)
    {
      if k < |done| {
        assert all[k] == done[k] && NextStart(all', k) == NextStart(all, k);
      }
    }
  }

  /** Any other non-blank line joins the current chapter's text. */
  lemma TextInvariantGrow(lines: seq<string>, i: nat, cur: Chapter, done: seq<Chapter>, heading: string -> bool)
    requires TextInvariant(lines, i, cur, done, heading)
    requires i < |lines| && !IsBlank(lines[i])
    requires heading(lines[i]) ==> cur.text == ""
    ensures TextInvariant(lines, i + 1, cur.(text := cur.text + lines[i] + "\n"), done, heading)
  {
    var grown := cur.(text := cur.text + lines[i] + "\n");
    SpanGrow(lines, cur, TextFrom(|done|, cur), i, heading);
    DoneSpansSame(lines, done, cur, grown, heading);
  }

  lemma SpanGrow(lines: seq<string>, c: Chapter, lo: nat, i: nat, heading: string -> bool)
    requires SpanBy(lines, c, lo, i, heading)
    requires i < |lines| && !IsBlank(lines[i])
    requires heading(lines[i]) ==> c.text == ""
    ensures SpanBy(lines, c.(text := c.text + lines[i] + "\n"), lo, i + 1, heading)
  {
    BodySnoc(lines, lo, i);
  }

  /** The closed chapters' spans do not depend on the current chapter's text. */
  lemma DoneSpansSame(lines: seq<string>, done: seq<Chapter>, cur: Chapter, cur': Chapter, heading: string -> bool)
    requires cur'.start == cur.start
    requires forall k :: 0 <= k < |done| ==> SpanBy(lines, done[k], TextFrom(k, done[k]), NextStart(done + [cur], k), heading)
    ensures forall k :: 0 <= k < |done| ==> SpanBy(lines, done[k], TextFrom(k, done[k]), NextStart(done + [cur'], k), heading)
  {
    forall k | 0 <= k < |done|
      ensures NextStart(done + [cur'], k) == NextStart(done + [cur], k)
    {
    }
  }

  /** A line that is a heading once stripped. */
  predicate HeadingLine(line: string)
  {
    IsChapterHeading(Trim(line))
  }

  /** The chapter texts for the three heading patterns. */
  predicate ChapterTexts(lines: seq<string>, chs: seq<Chapter>)
  {
    ChapterTextsBy(lines, chs, HeadingLine)
  }

  /** The empty line is no heading. */
  lemma EmptyNotHeading()
    ensures !IsChapterHeading("")
  {
  }

  /** At the end of the text the current chapter is kept when it has text,
      and otherwise its heading was a dropped trailing heading. */
  lemma FinishTexts(lines: seq<string>, cur: Chapter, done: seq<Chapter>, heading: string -> bool)
    requires TextInvariant(lines, |lines|, cur, done, heading)
    requires forall k :: 0 <= k < |done| ==> done[k].text != ""
    requires |done| > 0 && cur.text == "" ==> cur.start < |lines| && heading(lines[cur.start])
    ensures ChapterTextsBy(lines, if cur.text != "" then done + [cur] else done, heading)
  {
    if cur.text == "" && |done| > 0 {
      FinishDropped(lines, cur, done, heading);
    }
  }

  lemma FinishDropped(lines: seq<string>, cur: Chapter, done: seq<Chapter>, heading: string -> bool)
    requires TextInvariant(lines, |lines|, cur, done, heading)
    requires |done| > 0 && done[|done| - 1].text != ""
    requires cur.text == "" && cur.start < |lines| && heading(lines[cur.start])
    ensures ChapterTextsBy(lines, done, heading)
  {
    DroppedAtCurrent(lines, cur, done, heading);
    assert LastSpan(lines, done, heading);
    ClosedSpans(lines, cur, done, heading);
  }

  lemma DroppedAtCurrent(lines: seq<string>, cur: Chapter, done: seq<Chapter>, heading: string -> bool)
    requires TextInvariant(lines, |lines|, cur, done, heading)
    requires |done| > 0 && done[|done| - 1].text != ""
    requires cur.text == "" && cur.start < |lines| && heading(lines[cur.start])
    ensures DroppedHeadingAt(lines, done, cur.start, heading)
  {
    var k := |done| - 1;
    assert NextStart(done + [cur], k) == cur.start;
    assert SpanBy(lines, done[k], TextFrom(k, done[k]), cur.start, heading);
    assert SpanBy(lines, cur, cur.start + 1, |lines|, heading);
  }

  /** Without the current chapter, the closed chapters but the last still
      end where their successors start. */
  lemma ClosedSpans(lines: seq<string>, cur: Chapter, done: seq<Chapter>, heading: string -> bool)
    requires forall k :: 0 <= k < |done| ==> SpanBy(lines, done[k], TextFrom(k, done[k]), NextStart(done + [cur], k), heading)
    ensures forall k :: 0 <= k < |done| - 1 ==> SpanBy(lines, done[k], TextFrom(k, done[k]), NextStart(done, k), heading)
  {
    forall k | 0 <= k < |done| - 1
      ensures NextStart(done, k) == NextStart(done + [cur], k)
    {
    }
  }

  /** The texts of the chapters `r` the scan records from line `i` on. */
  lemma {:induction false} ScanLinesTexts(lines: seq<string>, i: nat, cur: Chapter, done: seq<Chapter>, r: seq<Chapter>)
    requires ScanInvariant(lines, i, cur, done)
    requires TextInvariant(lines, i, cur, done, HeadingLine)
    requires r == ScanLines(lines, i, cur, done)
    ensures ChapterTexts(lines, r)
    decreases |lines| - i
  {
    if i == |lines| {
      ScanEndTexts(lines, i, cur, done);
    } else {
      var cur', done' := ScanStep(lines, i, cur, done);
      ScanLinesTexts(lines, i + 1, cur', done', r);
    }
  }

  /** The scan's state after line `i`, with both invariants kept. */
  lemma ScanStep(lines: seq<string>, i: nat, cur: Chapter, done: seq<Chapter>) returns (cur': Chapter, done': seq<Chapter>)
    requires i < |lines|
    requires ScanInvariant(lines, i, cur, done)
    requires TextInvariant(lines, i, cur, done, HeadingLine)
    ensures ScanInvariant(lines, i + 1, cur', done')
    ensures TextInvariant(lines, i + 1, cur', done', HeadingLine)
    ensures ScanLines(lines, i, cur, done) == ScanLines(lines, i + 1, cur', done')
  {
    if Trim(lines[i]) == "" {
      ScanBlankStep(lines, i, cur, done);
      cur', done' := cur, done;
    } else if IsChapterHeading(Trim(lines[i])) && cur.text != "" {
      ScanOpenStep(lines, i, cur, done);
      cur', done' := Chapter(Trim(lines[i]), i, ""), done + [cur];
    } else {
      ScanGrowStep(lines, i, cur, done);
      cur', done' := cur.(text := cur.text + lines[i] + "\n"), done;
    }
  }

  lemma ScanEndTexts(lines: seq<string>, i: nat, cur: Chapter, done: seq<Chapter>)
    requires i == |lines|
    requires ScanInvariant(lines, i, cur, done)
    requires TextInvariant(lines, i, cur, done, HeadingLine)
    ensures ChapterTexts(lines, ScanLines(lines, i, cur, done))
  {
    var all := done + [cur];
    if |done| > 0 && cur.text == "" {
      assert OpenedByHeading(lines, all[|done|]);
    }
    forall k | 0 <= k < |done|
      ensures done[k].text != ""
    {
      assert EndsWithNewline(done[k].text);
    }
    FinishTexts(lines, cur, done, HeadingLine);
  }

  lemma ScanBlankStep(lines: seq<string>, i: nat, cur: Chapter, done: seq<Chapter>)
    requires ScanInvariant(lines, i, cur, done)
    requires TextInvariant(lines, i, cur, done, HeadingLine)
    requires i < |lines| && Trim(lines[i]) == ""
    ensures ScanInvariant(lines, i + 1, cur, done)
    ensures TextInvariant(lines, i + 1, cur, done, HeadingLine)
    ensures ScanLines(lines, i, cur, done) == ScanLines(lines, i + 1, cur, done)
  {
    TrimEmptyIffBlank(lines[i]);
    EmptyNotHeading();
    TextInvariantBlank(lines, i, cur, done, HeadingLine);
  }

  lemma ScanOpenStep(lines: seq<string>, i: nat, cur: Chapter, done: seq<Chapter>)
    requires ScanInvariant(lines, i, cur, done)
    requires TextInvariant(lines, i, cur, done, HeadingLine)
    requires i < |lines| && Trim(lines[i]) != "" && IsChapterHeading(Trim(lines[i])) && cur.text != ""
    ensures ScanInvariant(lines, i + 1, Chapter(Trim(lines[i]), i, ""), done + [cur])
    ensures TextInvariant(lines, i + 1, Chapter(Trim(lines[i]), i, ""), done + [cur], HeadingLine)
    ensures ScanLines(lines, i, cur, done) == ScanLines(lines, i + 1, Chapter(Trim(lines[i]), i, ""), done + [cur])
  {
    OpenKeepsInvariant(lines, i, cur, done);
    TextInvariantOpen(lines, i, cur, done, HeadingLine, Trim(lines[i]));
  }

  lemma ScanGrowStep(lines: seq<string>, i: nat, cur: Chapter, done: seq<Chapter>)
    requires ScanInvariant(lines, i, cur, done)
    requires TextInvariant(lines, i, cur, done, HeadingLine)
    requires i < |lines| && Trim(lines[i]) != "" && !(IsChapterHeading(Trim(lines[i])) && cur.text != "")
    ensures ScanInvariant(lines, i + 1, cur.(text := cur.text + lines[i] + "\n"), done)
    ensures TextInvariant(lines, i + 1, cur.(text := cur.text + lines[i] + "\n"), done, HeadingLine)
    ensures ScanLines(lines, i, cur, done) == ScanLines(lines, i + 1, cur.(text := cur.text + lines[i] + "\n"), done)
  {
    TrimEmptyIffBlank(lines[i]);
    GrowKeepsInvariant(lines, i, cur, done);
    TextInvariantGrow(lines, i, cur, done, HeadingLine);
  }

  /** The chapters the scan finds own their lines. */
  lemma FoundChaptersTexts(text: string)
    ensures ChapterTexts(Split(text, '\n'), FoundChapters(text))
  {
    var lines := Split(text, '\n');
    ScanLinesTexts(lines, 0, Chapter(OpeningTitle, 0, ""), [], ScanLines(lines, 0, Chapter(OpeningTitle, 0, ""), []));
  }

  // ---------------------------------------------------------------------
  // segment_chapter_sents
  // ---------------------------------------------------------------------

  /** The groups of a packing: none empty, every group of two or more
      sentences within `size`, and each group closed only because the next
      sentence would not have fitted. */
  predicate PackShape(r: seq<seq<string>>, size: int)
  {
    && (forall k :: 0 <= k < |r| ==> |r[k]| > 0)
    && (forall k :: 0 <= k < |r| && |r[k]| >= 2 ==> TotalLength(r[k]) <= size)
    && (forall k :: 0 <= k < |r| - 1 ==> TotalLength(r[k]) + |r[k + 1][0]| > size)
  }

  lemma PackShapeCons(cur: seq<string>, rest: seq<seq<string>>, size: int)
    requires |cur| > 0 && (|cur| >= 2 ==> TotalLength(cur) <= size)
    requires PackShape(rest, size)
    requires |rest| > 0 ==> TotalLength(cur) + |rest[0][0]| > size
    ensures PackShape([cur] + rest, size)
  {
    var r := [cur] + rest;
    forall k | 0 <= k < |r|
      ensures |r[k]| > 0 && (|r[k]| >= 2 ==> TotalLength(r[k]) <= size)
    {
      if k > 0 {
        assert r[k] == rest[k - 1];
      }
    }
    forall k | 0 <= k < |r| - 1
      ensures TotalLength(r[k]) + |r[k + 1][0]| > size
    {
      if k > 0 {
        assert r[k] == rest[k - 1] && r[k + 1] == rest[k];
      }
    }
  }

  /** The sentence-packing loop of `segment_chapter_sents`, with the group
      being built (`cur`, of size `curSize`) carried along. */
  function PackSentences(xs: seq<string>, size: int, cur: seq<string>, curSize: int): (r: seq<seq<string>>)
    requires curSize == TotalLength(cur)
    requires |cur| >= 2 ==> TotalLength(cur) <= size
    ensures PackShape(r, size)
    ensures |cur| > 0 ==> |r| > 0 && |cur| <= |r[0]| && r[0][..|cur|] == cur
    decreases |xs|
  {
    if |xs| == 0 then
      if |cur| > 0 then [cur] else []
    else
      var x := xs[0];
      if curSize + |x| > size && |cur| > 0 then
        assert TotalLength([x]) == |x| by { TotalLengthSnoc([], x); }
        var rest := PackSentences(xs[1..], size, [x], |x|);
        assert rest[0][0] == x by { assert rest[0][..1] == [x]; }
        PackShapeCons(cur, rest, size);
        [cur] + rest
      else
        TotalLengthSnoc(cur, x);
        var r := PackSentences(xs[1..], size, cur + [x], curSize + |x|);
        assert r[0][..|cur|] == (cur + [x])[..|cur|];
        r
  }

  /** Packing keeps every sentence, in order: the groups joined are the
      group being built followed by the remaining sentences. */
  lemma {:induction false} PackSentencesFlatten(xs: seq<string>, size: int, cur: seq<string>, curSize: int)
    requires curSize == TotalLength(cur)
    requires |cur| >= 2 ==> TotalLength(cur) <= size
    ensures Flatten(PackSentences(xs, size, cur, curSize)) == cur + xs
    decreases |xs|
  {
    if |xs| == 0 {
      if |cur| > 0 {
        FlattenSingle(cur);
      }
    } else {
      var x := xs[0];
      if curSize + |x| > size && |cur| > 0 {
        assert TotalLength([x]) == |x| by { TotalLengthSnoc([], x); }
        PackSentencesFlatten(xs[1..], size, [x], |x|);
        PackSplitFlatten(xs, size, cur, curSize);
      } else {
        TotalLengthSnoc(cur, x);
        PackSentencesFlatten(xs[1..], size, cur + [x], curSize + |x|);
        PackGrowFlatten(xs, size, cur, curSize);
      }
    }
  }

  /** The case of `PackSentencesFlatten` where the next sentence joins the
      group being built. */
  lemma PackGrowFlatten(xs: seq<string>, size: int, cur: seq<string>, curSize: int)
    requires curSize == TotalLength(cur) && (|cur| >= 2 ==> TotalLength(cur) <= size)
    requires |xs| > 0 && !(curSize + |xs[0]| > size && |cur| > 0)
    requires curSize + |xs[0]| == TotalLength(cur + [xs[0]])
    requires Flatten(PackSentences(xs[1..], size, cur + [xs[0]], curSize + |xs[0]|)) == cur + [xs[0]] + xs[1..]
    ensures Flatten(PackSentences(xs, size, cur, curSize)) == cur + xs
  {
    assert cur + [xs[0]] + xs[1..] == cur + xs;
  }

  /** The case of `PackSentencesFlatten` where the next sentence closes the
      group being built. */
  lemma {:induction false} PackSplitFlatten(xs: seq<string>, size: int, cur: seq<string>, curSize: int)
    requires curSize == TotalLength(cur) && (|cur| >= 2 ==> TotalLength(cur) <= size)
    requires |xs| > 0 && |cur| > 0 && curSize + |xs[0]| > size && TotalLength([xs[0]]) == |xs[0]|
    requires Flatten(PackSentences(xs[1..], size, [xs[0]], |xs[0]|)) == [xs[0]] + xs[1..]
    ensures Flatten(PackSentences(xs, size, cur, curSize)) == cur + xs
    decreases |xs|, 0
  {
    var rest := PackSentences(xs[1..], size, [xs[0]], |xs[0]|);
    assert PackSentences(xs, size, cur, curSize) == [cur] + rest;
    FlattenAppend([cur], rest);
    FlattenSingle(cur);
    assert [xs[0]] + xs[1..] == xs;
  }

  /** A chunk of `segment_chapter_sents` with its chapter title. */
  datatype ChapterChunk = ChapterChunk(text: string, chapter: string)

  /** The stripped, non-empty sentence texts of an annotated chapter. */
  function ChapterSentences(doc: Doc): (r: seq<string>)
    ensures forall k :: 0 <= k < |r| ==> r[k] != ""
    ensures FilteredFrom(r, StrippedSentTexts(doc), NonEmpty)
  {
    FilterFiltered(StrippedSentTexts(doc), NonEmpty);
    Filter(StrippedSentTexts(doc), NonEmpty)
  }

  function ChunksOfChapter(title: string, groups: seq<seq<string>>): (r: seq<ChapterChunk>)
    ensures |r| == |groups|
    ensures forall k :: 0 <= k < |r| ==> r[k] == ChapterChunk(Join(groups[k], " "), title)
  {
    seq(|groups|, k requires 0 <= k < |groups| => ChapterChunk(Join(groups[k], " "), title))
  }

  /** The packed sentence groups of one chapter; `annotate` stands for the
      language model run on the chapter's text. */
  function ChapterPacking(chapter: Chapter, annotate: string -> Doc, size: int): seq<seq<string>>
  {
    PackSentences(ChapterSentences(annotate(chapter.text)), size, [], 0)
  }

  /** The chunks of each chapter, in chapter order. */
  function ChapterChunkLists(chapters: seq<Chapter>, annotate: string -> Doc, size: int): (r: seq<seq<ChapterChunk>>)
    ensures |r| == |chapters|
    ensures forall k, i :: 0 <= k < |r| && 0 <= i < |r[k]| ==> r[k][i].chapter == chapters[k].title
  {
    seq(|chapters|, k requires 0 <= k < |chapters| =>
      ChunksOfChapter(chapters[k].title, ChapterPacking(chapters[k], annotate, size)))
  }

  function ChapterTitles(chapters: seq<Chapter>): set<string>
  {
    set k | 0 <= k < |chapters| :: chapters[k].title
  }

  /** `segment_chapter_sents(text, doc, chunk_size)`: each detected chapter
      is annotated again (`annotate` stands for the language model) and its
      sentences packed greedily into chunks of at most `size` characters.
      Every chunk is labelled with the title of a detected chapter;
      `ChapterSentsRun` gives the chunks of each chapter. */
  function ChapterSents(text: string, annotate: string -> Doc, size: int): (r: seq<ChapterChunk>)
    ensures forall i :: 0 <= i < |r| ==> r[i].chapter in ChapterTitles(DetectChapters(text))
  {
    var chapters := DetectChapters(text);
    var lists := ChapterChunkLists(chapters, annotate, size);
    var titles := ChapterTitles(chapters);
    assert forall k, i :: 0 <= k < |lists| && 0 <= i < |lists[k]| ==> lists[k][i].chapter in titles by {
      forall k, i | 0 <= k < |lists| && 0 <= i < |lists[k]|
        ensures lists[k][i].chapter in titles
      {
        assert lists[k][i].chapter == chapters[k].title;
      }
    }
    FlattenForall(lists, (c: ChapterChunk) => c.chapter in titles);
    Flatten(lists)
  }

  /** The chunks of chapter `k` are a contiguous run of the result, right
      after those of chapter `k - 1`: one chunk per packed group, its text
      the group's sentences joined by spaces and its label the chapter's
      title. The groups hold exactly the chapter's non-blank stripped
      sentences, in order, packed greedily within `size`. */
  lemma ChapterSentsRun(text: string, annotate: string -> Doc, size: int, k: nat) returns (groups: seq<seq<string>>)
    requires k < |DetectChapters(text)|
    ensures ChapterRun(DetectChapters(text), annotate, size, k, ChapterSents(text, annotate, size), groups)
  {
    var chapters := DetectChapters(text);
    groups := ChaptersRun(chapters, annotate, size, k);
  }

  /** `groups` are chapter `k`'s packed sentence groups and `r` holds one
      chunk per group, in order, from where chapter `k` begins. */
  predicate ChapterRun(chapters: seq<Chapter>, annotate: string -> Doc, size: int, k: nat,
                       r: seq<ChapterChunk>, groups: seq<seq<string>>)
    requires k < |chapters|
  {
    && RunPlaced(ChapterChunkLists(chapters, annotate, size), k, r, groups, chapters[k].title)
    && PackedChapter(chapters[k], annotate, size, groups)
  }

  /** The groups hold exactly the chapter's non-blank stripped sentences,
      in order, packed greedily within `size`. */
  predicate PackedChapter(chapter: Chapter, annotate: string -> Doc, size: int, groups: seq<seq<string>>)
  {
    Flatten(groups) == ChapterSentences(annotate(chapter.text)) && PackShape(groups, size)
  }

  /** Group list `k` of `lists` begins at `RunStart(lists, k)` in `r` and
      holds one chunk per group, labelled `title`. */
  predicate RunPlaced(lists: seq<seq<ChapterChunk>>, k: nat, r: seq<ChapterChunk>,
                      groups: seq<seq<string>>, title: string)
    requires k < |lists|
  {
    && RunStart(lists, k) + |groups| == RunStart(lists, k + 1) <= |r|
    && (k == 0 ==> RunStart(lists, k) == 0)
    && (k + 1 == |lists| ==> RunStart(lists, k + 1) == |r|)
    && (forall i :: 0 <= i < |groups| ==>
          r[RunStart(lists, k) + i] == ChapterChunk(Join(groups[i], " "), title))
  }

  /** `ChapterSentsRun` for any list of chapters. */
  lemma ChaptersRun(chapters: seq<Chapter>, annotate: string -> Doc, size: int, k: nat) returns (groups: seq<seq<string>>)
    requires k < |chapters|
    ensures ChapterRun(chapters, annotate, size, k, Flatten(ChapterChunkLists(chapters, annotate, size)), groups)
  {
    var lists := ChapterChunkLists(chapters, annotate, size);
    groups := ChapterPacking(chapters[k], annotate, size);
    ChapterPackingProperties(ChapterSentences(annotate(chapters[k].text)), size);
    assert PackedChapter(chapters[k], annotate, size, groups);
    RunChunks(lists, k, chapters[k].title, groups);
  }

  /** The chunks of one group list inside the concatenation of all. */
  lemma RunChunks(lists: seq<seq<ChapterChunk>>, k: nat, title: string, groups: seq<seq<string>>)
    requires k < |lists| && lists[k] == ChunksOfChapter(title, groups)
    ensures RunPlaced(lists, k, Flatten(lists), groups, title)
  {
    var r := Flatten(lists);
    var s := RunStart(lists, k);
    var e := RunStart(lists, k + 1);
    FlattenRun(lists, k);
    assert r[s..e] == lists[k];
    assert k + 1 == |lists| ==> e == |r| by { assert lists[..|lists|] == lists; }
    assert k == 0 ==> s == 0 by { assert lists[..0] == []; }
    forall i | 0 <= i < |groups|
      ensures r[s + i] == ChapterChunk(Join(groups[i], " "), title)
    {
      assert r[s + i] == lists[k][i];
    }
  }

  /** The packing of one chapter keeps every sentence, in order, and every
      chunk of two or more sentences fits within `size`. */
  lemma ChapterPackingProperties(sentences: seq<string>, size: int)
    ensures var groups := PackSentences(sentences, size, [], 0);
      && Flatten(groups) == sentences
      && (forall k :: 0 <= k < |groups| && |groups[k]| >= 2 ==> TotalLength(groups[k]) <= size)
      && (forall k :: 0 <= k < |groups| - 1 ==> TotalLength(groups[k]) + |groups[k + 1][0]| > size)
  {
    PackSentencesFlatten(sentences, size, [], 0);
    assert [] + sentences == sentences;
  }
}
