/** Export of the generated cards (ui/exporter.js): CSV as section 2 of
    RFC 4180 describes it, Anki's tab-separated import format, Markdown,
    and JSON for anything else. `JSON.stringify` is a parameter. */
module Exporter {
  import opened Seqs
  import opened Strings

  /** A card as the exporter reads it; a missing or empty field is "". */
  datatype Card = Card(question: string, answer: string, status: string)

  datatype Format = Csv | Anki | Markdown | Json

  /** The `switch` of `buildContent`: unknown names mean JSON. */
  function ParseFormat(name: string): (f: Format)
    ensures f == Csv <==> name == "csv"
    ensures f == Anki <==> name == "anki"
    ensures f == Markdown <==> name == "markdown"
  {
    if name == "csv" then Csv
    else if name == "anki" then Anki
    else if name == "markdown" then Markdown
    else Json
  }

  // ---------------------------------------------------------------------
  // escapeCSV and its reading
  // ---------------------------------------------------------------------

  /** A field must be quoted when it holds a comma, a line break or a quote. */
  predicate NeedsQuoting(v: string)
  {
    ',' in v || '\n' in v || '"' in v
  }

  /** `value.replace(/"/g, '""')`. */
  function DoubleQuotes(v: string): (r: string)
    ensures |r| >= |v|
  {
    if |v| == 0 then ""
    else (if v[0] == '"' then "\"\"" else [v[0]]) + DoubleQuotes(v[1..])
  }

  /** `escapeCSV(value)`. */
  function EscapeCsv(v: string): (r: string)
    ensures !NeedsQuoting(v) ==> r == v
    ensures NeedsQuoting(v) ==> |r| >= 2 && r[0] == '"' && r[|r| - 1] == '"'
  {
    if NeedsQuoting(v) then "\"" + DoubleQuotes(v) + "\"" else v
  }

  /** Reading the rest of a quoted field after its opening quote: a doubled
      quote stands for one quote, a single quote closes the field. This is
      the value read; `QuotedLength` is the number of characters read,
      closing quote included. */
  function QuotedValue(s: string): string
  {
    if |s| == 0 then ""
    else if s[0] == '"' then
      if |s| >= 2 && s[1] == '"' then "\"" + QuotedValue(s[2..]) else ""
    else [s[0]] + QuotedValue(s[1..])
  }

  function QuotedLength(s: string): (n: nat)
    ensures n <= |s|
  {
    if |s| == 0 then 0
    else if s[0] == '"' then
      if |s| >= 2 && s[1] == '"' then 2 + QuotedLength(s[2..]) else 1
    else 1 + QuotedLength(s[1..])
  }

  predicate IsFieldEnd(c: char)
  {
    c == ',' || c == '\n'
  }

  /** The length of an unquoted field: everything up to a comma or a line break. */
  function BareLength(s: string): (n: nat)
    ensures n <= |s|
    ensures n < |s| ==> IsFieldEnd(s[n])
  {
    if |s| == 0 || IsFieldEnd(s[0]) then 0 else 1 + BareLength(s[1..])
  }

  predicate StartsQuoted(s: string)
  {
    |s| > 0 && s[0] == '"'
  }

  /** The value of the field read from the start of `s`. */
  function FieldValue(s: string): string
  {
    if StartsQuoted(s) then QuotedValue(s[1..]) else s[..BareLength(s)]
  }

  /** The number of characters the field at the start of `s` takes. */
  function FieldLength(s: string): (n: nat)
    ensures n <= |s|
  {
    if StartsQuoted(s) then 1 + QuotedLength(s[1..]) else BareLength(s)
  }

  /** Whether the field at the start of `s` is followed by a comma. */
  predicate CommaAfterField(s: string)
  {
    FieldLength(s) < |s| && s[FieldLength(s)] == ','
  }

  /** The fields of the record read from the start of `s`. */
  function RecordFields(s: string): (r: seq<string>)
    ensures |r| >= 1
    decreases |s|
  {
    if CommaAfterField(s) then [FieldValue(s)] + RecordFields(s[FieldLength(s) + 1..])
    else [FieldValue(s)]
  }

  /** The number of characters that record takes, commas included. */
  function RecordLength(s: string): (n: nat)
    ensures n <= |s|
    decreases |s|
  {
    if CommaAfterField(s) then FieldLength(s) + 1 + RecordLength(s[FieldLength(s) + 1..])
    else FieldLength(s)
  }

  /** The records of a CSV text, one per line break outside quotes. */
  function ParseCsv(s: string): (r: seq<seq<string>>)
    ensures |r| >= 1
    decreases |s|
  {
    var n := RecordLength(s);
    if n < |s| && s[n] == '\n' then [RecordFields(s)] + ParseCsv(s[n + 1..])
    else [RecordFields(s)]
  }

  /** What may follow a field for the reading to stop right after it. */
  predicate FieldFollow(rest: string)
  {
    rest == [] || IsFieldEnd(rest[0])
  }

  lemma {:induction false} QuotedBodyDoubled(v: string, rest: string)
    requires rest == [] || rest[0] != '"'
    ensures QuotedValue(DoubleQuotes(v) + "\"" + rest) == v
    ensures QuotedLength(DoubleQuotes(v) + "\"" + rest) == |DoubleQuotes(v)| + 1
    decreases |v|
  {
    var s := DoubleQuotes(v) + "\"" + rest;
    if |v| == 0 {
      assert s == "\"" + rest;
    } else {
      var d := DoubleQuotes(v[1..]);
      QuotedBodyDoubled(v[1..], rest);
      if v[0] == '"' {
        assert s == "\"\"" + (d + "\"" + rest);
        assert s[2..] == d + "\"" + rest;
      } else {
        assert s == [v[0]] + (d + "\"" + rest);
        assert s[1..] == d + "\"" + rest;
      }
      assert v == [v[0]] + v[1..];
    }
  }

  lemma {:induction false} BareLengthPlain(v: string, rest: string)
    requires forall i :: 0 <= i < |v| ==> !IsFieldEnd(v[i])
    requires FieldFollow(rest)
    ensures BareLength(v + rest) == |v|
    decreases |v|
  {
    if |v| == 0 {
      assert v + rest == rest;
    } else {
      assert (v + rest)[1..] == v[1..] + rest;
      BareLengthPlain(v[1..], rest);
    }
  }

  /** Reading an escaped field gives the value back and stops right after
      it: `escapeCSV` produces fields as section 2 of RFC 4180 reads them. */
  lemma ParseFieldEscape(v: string, rest: string)
    requires FieldFollow(rest)
    ensures FieldValue(EscapeCsv(v) + rest) == v
    ensures FieldLength(EscapeCsv(v) + rest) == |EscapeCsv(v)|
  {
    var s := EscapeCsv(v) + rest;
    if NeedsQuoting(v) {
      QuotedBodyDoubled(v, rest);
      assert s[1..] == DoubleQuotes(v) + "\"" + rest;
    } else {
      forall i | 0 <= i < |v|
        ensures !IsFieldEnd(v[i]) && v[i] != '"'
      {
        assert v[i] in v;
      }
      BareLengthPlain(v, rest);
      assert s[..|v|] == v;
    }
  }

  /** One CSV line: the escaped fields joined by commas. */
  function Line(fields: seq<string>): string
  {
    Join(Map(fields, EscapeCsv), ",")
  }

  lemma LineCons(fields: seq<string>)
    requires |fields| >= 1
    ensures |fields| == 1 ==> Line(fields) == EscapeCsv(fields[0])
    ensures |fields| >= 2 ==> Line(fields) == EscapeCsv(fields[0]) + "," + Line(fields[1..])
  {
    var m := Map(fields, EscapeCsv);
    if |fields| >= 2 {
      assert m[1..] == Map(fields[1..], EscapeCsv);
    }
  }

  /** Reading a written line followed by nothing or a line break gives the
      fields back and stops at the end of the line. */
  lemma {:induction false} ParseRecordLine(fields: seq<string>, rest: string)
    requires |fields| >= 1
    requires rest == [] || rest[0] == '\n'
    ensures RecordFields(Line(fields) + rest) == fields
    ensures RecordLength(Line(fields) + rest) == |Line(fields)|
    decreases |fields|
  {
    LineCons(fields);
    if |fields| == 1 {
      ParseFieldEscape(fields[0], rest);
      assert fields == [fields[0]];
    } else {
      var tail := Line(fields[1..]);
      ParseRecordLine(fields[1..], rest);
      ParseRecordStep(fields[0], tail, rest);
      assert fields == [fields[0]] + fields[1..];
    }
  }

  /** Reading `escaped-field , tail` reads the field, then continues with the tail. */
  lemma ParseRecordStep(v: string, tail: string, rest: string)
    ensures RecordFields(EscapeCsv(v) + "," + tail + rest) == [v] + RecordFields(tail + rest)
    ensures RecordLength(EscapeCsv(v) + "," + tail + rest) == |EscapeCsv(v)| + 1 + RecordLength(tail + rest)
  {
    var e := EscapeCsv(v);
    var s := e + "," + tail + rest;
    var after := "," + tail + rest;
    assert s == e + after;
    ParseFieldEscape(v, after);
    assert s[|e|] == ',' && s[|e| + 1..] == tail + rest;
  }

  /** Reading the lines of records back gives the records: CSV reading
      inverts CSV writing. */
  lemma {:induction false} ParseCsvLines(records: seq<seq<string>>)
    requires |records| >= 1
    requires forall k :: 0 <= k < |records| ==> |records[k]| >= 1
    ensures ParseCsv(Join(Map(records, Line), "\n")) == records
    decreases |records|
  {
    var l := Line(records[0]);
    var s := Join(Map(records, Line), "\n");
    if |records| == 1 {
      assert s == l && s == l + [];
      ParseRecordLine(records[0], []);
      assert records == [records[0]];
    } else {
      var tail := Join(Map(records[1..], Line), "\n");
      assert Map(records, Line)[1..] == Map(records[1..], Line);
      assert s == l + ("\n" + tail);
      ParseRecordLine(records[0], "\n" + tail);
      assert s[|l| + 1..] == tail;
      ParseCsvLines(records[1..]);
      assert records == [records[0]] + records[1..];
    }
  }

  // ---------------------------------------------------------------------
  // toCSV, toAnki, toMarkdown, buildContent
  // ---------------------------------------------------------------------

  const Header: seq<string> := ["question", "answer", "status"]

  /** The fields `toCSV` writes for a card. */
  function Fields(c: Card): seq<string>
  {
    [c.question, c.answer, c.status]
  }

  /** `toCSV(cards)`: the unescaped header line, then one line per card. */
  function ToCsv(cards: seq<Card>): string
  {
    Join([Join(Header, ",")] + Map(cards, (c: Card) => Line(Fields(c))), "\n")
  }

  lemma HeaderLine()
    ensures Join(Header, ",") == Line(Header)
  {
    LettersPlain("question");
    LettersPlain("answer");
    LettersPlain("status");
    var m := Map(Header, EscapeCsv);
    assert m == Header;
  }

  lemma LettersPlain(s: string)
    requires forall i :: 0 <= i < |s| ==> 'a' <= s[i] <= 'z'
    ensures !NeedsQuoting(s)
  {
  }

  /** Reading the CSV back gives the header followed by each card's
      question, answer and status, whatever characters they hold. */
  lemma ToCsvRoundTrip(cards: seq<Card>)
    ensures ParseCsv(ToCsv(cards)) == [Header] + Map(cards, Fields)
  {
    var records := [Header] + Map(cards, Fields);
    HeaderLine();
    assert Map(records, Line) == [Join(Header, ",")] + Map(cards, (c: Card) => Line(Fields(c)));
    ParseCsvLines(records);
  }

  /** `toAnki(cards)`: question, tab, answer, one card per line. */
  function ToAnki(cards: seq<Card>): string
  {
    Join(Map(cards, AnkiLine), "\n")
  }

  function AnkiLine(c: Card): string
  {
    c.question + "\t" + c.answer
  }

  /** Fields free of tabs and line breaks can be read back: line `k` of the
      output splits at its tab into card `k`'s question and answer. */
  lemma AnkiRoundTrip(cards: seq<Card>)
    requires |cards| >= 1
    requires forall k :: 0 <= k < |cards| ==>
      '\t' !in cards[k].question && '\n' !in cards[k].question &&
      '\t' !in cards[k].answer && '\n' !in cards[k].answer
    ensures var lines := Split(ToAnki(cards), '\n');
      && |lines| == |cards|
      && forall k :: 0 <= k < |cards| ==> Split(lines[k], '\t') == [cards[k].question, cards[k].answer]
  {
    var lines := Map(cards, AnkiLine);
    forall k | 0 <= k < |lines|
      ensures '\n' !in lines[k]
    {
      assert lines[k] == cards[k].question + "\t" + cards[k].answer;
    }
    SplitJoin(lines, '\n');
    forall k | 0 <= k < |cards|
      ensures Split(lines[k], '\t') == [cards[k].question, cards[k].answer]
    {
      var parts := [cards[k].question, cards[k].answer];
      assert Join(parts, "\t") == lines[k] by {
        assert parts[1..] == [cards[k].answer];
      }
      SplitJoin(parts, '\t');
    }
  }

  /** `card.status || 'pending'`. */
  function StatusOrPending(s: string): string
  {
    if s == "" then "pending" else s
  }

  /** The Markdown block of the card numbered `n` (from 1). */
  function MarkdownBlock(n: nat, c: Card): (r: string)
    ensures StartsWith(r, "### Tarjeta " + NatToString(n) + "\n")
  {
    var head := "### Tarjeta " + NatToString(n) + "\n";
    var r := head + "- **Pregunta:** " + c.question + "\n- **Respuesta:** " + c.answer
      + "\n- **Estado:** " + StatusOrPending(c.status);
    assert r[..|head|] == head;
    r
  }

  /** `toMarkdown(cards)`: the numbered blocks separated by blank lines. */
  function ToMarkdown(cards: seq<Card>): string
  {
    Join(seq(|cards|, i requires 0 <= i < |cards| => MarkdownBlock(i + 1, cards[i])), "\n\n")
  }

  /** `buildContent(format, cards)`; `json` stands for
      `JSON.stringify(cards, null, 2)`. */
  function BuildContent(format: string, cards: seq<Card>, json: seq<Card> -> string): (r: string)
    ensures format == "csv" ==> ParseCsv(r) == [Header] + Map(cards, Fields)
    ensures format !in ["csv", "anki", "markdown"] ==> r == json(cards)
  {
    ToCsvRoundTrip(cards);
    match ParseFormat(format)
    case Csv => ToCsv(cards)
    case Anki => ToAnki(cards)
    case Markdown => ToMarkdown(cards)
    case Json => json(cards)
  }
}
