/** `interpolate(template, variables)` of Flashgen/templates_module.js:
    placeholder substitution, the removal of lines left holding only an
    unfilled placeholder, and the two prompt features (read from the
    application state, here passed in). */
module Templates {
  import opened Wrappers
  import opened Seqs
  import opened Strings

  /** A variable name as the templates use it: word characters, so the
      pattern `\{name\}` built from it matches it literally. */
  predicate IsPlainKey(key: string)
  {
    |key| > 0 && forall i :: 0 <= i < |key| ==> IsWordChar(key[i])
  }

  /** The variables in key order; a falsy value is `None` and is inserted
      as the empty string. */
  datatype Variable = Variable(key: string, value: Option<string>)

  datatype Features = Features(negativePrompt: bool, chainOfThought: bool)

  function Placeholder(key: string): string
  {
    "{" + key + "}"
  }

  /** Each variable's placeholder replaced everywhere, in key order. A
      template without braces holds no placeholder and comes back as it
      is. */
  function Substitute(template: string, vars: seq<Variable>): (r: string)
    requires forall k :: 0 <= k < |vars| ==> IsPlainKey(vars[k].key)
    ensures |vars| == 0 ==> r == template
    ensures '{' !in template ==> r == template
    decreases |vars|
  {
    if |vars| == 0 then template
    else
      var v := vars[0];
      BraceFreeUnchanged(template, Placeholder(v.key), v.value.GetOr(""));
      Substitute(ReplaceAll(template, Placeholder(v.key), v.value.GetOr("")), vars[1..])
  }

  /** A text without braces holds no placeholder, so replacing one leaves
      it as it is. */
  lemma BraceFreeUnchanged(template: string, p: string, v: string)
    requires |p| > 0 && p[0] == '{'
    ensures '{' !in template ==> ReplaceAll(template, p, v) == template
  {
    if '{' !in template {
      forall j: nat ensures !OccursAt(template, p, j) {
        if j + |p| <= |template| {
          assert template[j] in template;
          assert template[j..j + |p|][0] != p[0];
        }
      }
      ReplaceAllAbsent(template, p, v);
    }
  }

  /** A line that matches `^\s*\{\w+\}\s*$`. */
  predicate IsPlaceholderLine(line: string)
  {
    var t := Trim(line);
    |t| >= 3 && t[0] == '{' && t[|t| - 1] == '}' && IsPlainKey(t[1..|t| - 1])
  }

  predicate KeepLine(line: string)
  {
    !IsPlaceholderLine(line)
  }

  /** The lines of `text` without the placeholder lines. */
  function DropPlaceholderLines(text: string): string
  {
    Join(Filter(Split(text, '\n'), KeepLine), "\n")
  }

  const NegativePromptBlock :=
    "\n\nPROHIBIDO:\n- Inventar información no presente en el texto\n- Generalizar sin evidencia\n- Usar conocimiento externo\n\nOBLIGATORIO:\n- Citar el texto cuando sea relevante\n- Ser específico y concreto\n- Mantener brevedad (máx 40 palabras)"

  const ChainOfThoughtPreamble :=
    "Piensa paso a paso antes de responder:\n1. Identifica la información clave del texto\n2. Determina qué pregunta sería más útil\n3. Formula una respuesta concisa\n\n"

  /** `r` is `body` after `preamble` when the chain-of-thought feature is
      on and before `block` when the negative-prompt feature is on. */
  predicate Wrapped(r: string, body: string, features: Features, preamble: string, block: string)
  {
    var lo := if features.chainOfThought then |preamble| else 0;
    var tail := if features.negativePrompt then |block| else 0;
    && |r| == lo + |body| + tail
    && r[..lo] == (if features.chainOfThought then preamble else "")
    && r[lo..lo + |body|] == body
    && r[lo + |body|..] == (if features.negativePrompt then block else "")
  }

  /** The features around a body: the block is appended first, then the
      preamble put in front. */
  function Wrap(body: string, features: Features, preamble: string, block: string): (r: string)
    ensures Wrapped(r, body, features, preamble, block)
  {
    var withBlock := if features.negativePrompt then body + block else body;
    var r := if features.chainOfThought then preamble + withBlock else withBlock;
    assert features.chainOfThought ==> r[|preamble|..] == withBlock;
    r
  }

  /** `interpolate(template, variables)`: the substituted template without
      its placeholder lines, after the chain-of-thought preamble when that
      feature is on and before the negative-prompt block when that one is. */
  function Interpolate(template: string, vars: seq<Variable>, features: Features): (r: string)
    requires forall k :: 0 <= k < |vars| ==> IsPlainKey(vars[k].key)
    ensures Wrapped(r, DropPlaceholderLines(Substitute(template, vars)), features, ChainOfThoughtPreamble, NegativePromptBlock)
  {
    Wrap(DropPlaceholderLines(Substitute(template, vars)), features, ChainOfThoughtPreamble, NegativePromptBlock)
  }

  /** Wrapping determines the result: only one text is the body wrapped. */
  lemma WrappedUnique(r1: string, r2: string, body: string, features: Features, preamble: string, block: string)
    requires Wrapped(r1, body, features, preamble, block) && Wrapped(r2, body, features, preamble, block)
    ensures r1 == r2
  {
    var lo := if features.chainOfThought then |preamble| else 0;
    assert r1 == r1[..lo] + r1[lo..lo + |body|] + r1[lo + |body|..];
    assert r2 == r2[..lo] + r2[lo..lo + |body|] + r2[lo + |body|..];
  }

  /** No line of the body is a lone placeholder, and every other line is
      kept, in order. */
  lemma PlaceholderLinesDropped(text: string)
    ensures var kept := Filter(Split(text, '\n'), KeepLine);
      && (forall k :: 0 <= k < |kept| ==> !IsPlaceholderLine(kept[k]))
      && IsSubsequence(kept, Split(text, '\n'))
      && (forall k :: 0 <= k < |Split(text, '\n')| && !IsPlaceholderLine(Split(text, '\n')[k]) ==> Split(text, '\n')[k] in kept)
  {
    FilterIsSubsequence(Split(text, '\n'), KeepLine);
  }

  /** A text without placeholder lines keeps its line structure exactly. */
  lemma NoPlaceholderLinesUnchanged(text: string)
    requires forall k :: 0 <= k < |Split(text, '\n')| ==> !IsPlaceholderLine(Split(text, '\n')[k])
    ensures DropPlaceholderLines(text) == text
  {
    var lines := Split(text, '\n');
    FilterAllKept(lines, KeepLine);
  }

  /** A variable whose placeholder does not occur changes nothing. */
  lemma AbsentVariableIgnored(template: string, v: Variable, rest: seq<Variable>)
    requires IsPlainKey(v.key) && forall k :: 0 <= k < |rest| ==> IsPlainKey(rest[k].key)
    requires !Contains(template, Placeholder(v.key))
    ensures Substitute(template, [v] + rest) == Substitute(template, rest)
  {
    ReplaceAllAbsent(template, Placeholder(v.key), v.value.GetOr(""));
    assert ([v] + rest)[1..] == rest;
  }

  /** A falsy value empties its placeholder: it is the same as the empty
      string. */
  lemma MissingValueIsEmpty(template: string, key: string, rest: seq<Variable>)
    requires IsPlainKey(key) && forall k :: 0 <= k < |rest| ==> IsPlainKey(rest[k].key)
    ensures Substitute(template, [Variable(key, None)] + rest) == Substitute(template, [Variable(key, Some(""))] + rest)
  {
  }

  /** A placeholder of a supplied variable that occurs once in a template
      otherwise free of braces is replaced by its value. */
  lemma SingleVariableFilled(before: string, key: string, value: string, after: string)
    requires IsPlainKey(key)
    requires '{' !in before && '{' !in after
    ensures Substitute(before + Placeholder(key) + after, [Variable(key, Some(value))]) == before + value + after
  {
    var p := Placeholder(key);
    assert forall i :: 0 <= i < |before| ==> before[i] != '{' by {
      forall i | 0 <= i < |before| ensures before[i] != '{' {
        assert before[i] in before;
      }
    }
    ReplaceAtUnique(before, p, value, after);
  }

  /** `ReplaceAll` past a prefix without the pattern's first character and
      the pattern itself: the prefix is kept, the pattern becomes `v`, and
      the scan goes on after it. */
  lemma {:induction false} ReplaceAfterPrefix(before: string, p: string, v: string, after: string)
    requires |p| > 0 && p[0] == '{'
    requires forall i :: 0 <= i < |before| ==> before[i] != '{'
    ensures ReplaceAll(before + p + after, p, v) == before + v + ReplaceAll(after, p, v)
    decreases |before|
  {
    if |before| == 0 {
      ReplaceAtStart(p, v, after);
      assert before + p + after == p + after;
    } else {
      var s := before + p + after;
      var t := before[1..];
      assert forall i :: 0 <= i < |t| ==> t[i] == before[i + 1];
      calc {
        ReplaceAll(s, p, v);
        { ReplacePastFirst(s, p, v); }
        [s[0]] + ReplaceAll(s[1..], p, v);
        { assert s[1..] == t + p + after; }
        [before[0]] + ReplaceAll(t + p + after, p, v);
        { ReplaceAfterPrefix(t, p, v, after); }
        [before[0]] + (t + v + ReplaceAll(after, p, v));
        { assert before == [before[0]] + t; }
        before + v + ReplaceAll(after, p, v);
      }
    }
  }

  /** `ReplaceAll` on a text holding the pattern once, after a prefix
      without the pattern's first character. */
  lemma ReplaceAtUnique(before: string, p: string, v: string, after: string)
    requires |p| > 0 && p[0] == '{' && '{' !in after
    requires forall i :: 0 <= i < |before| ==> before[i] != '{'
    ensures ReplaceAll(before + p + after, p, v) == before + v + after
  {
    ReplaceAfterPrefix(before, p, v, after);
    BraceFreeUnchanged(after, p, v);
  }

  /** The pattern at the start of a text is replaced, and the scan goes on
      after it. */
  lemma ReplaceAtStart(p: string, v: string, after: string)
    requires |p| > 0
    ensures ReplaceAll(p + after, p, v) == v + ReplaceAll(after, p, v)
  {
    var s := p + after;
    assert StartsWith(s, p) by {
      assert s[..|p|] == p;
    }
    assert s[|p|..] == after;
  }

  /** Every occurrence of a placeholder is filled (the `g` flag): a
      template made of brace-free parts with the placeholder between them
      becomes the same parts with the value between them. */
  lemma {:induction false} EveryOccurrenceFilled(parts: seq<string>, key: string, value: string)
    requires IsPlainKey(key)
    requires forall k :: 0 <= k < |parts| ==> '{' !in parts[k]
    ensures Substitute(Join(parts, Placeholder(key)), [Variable(key, Some(value))]) == Join(parts, value)
    decreases |parts|
  {
    var p := Placeholder(key);
    if |parts| <= 1 {
      if |parts| == 1 {
        BraceFreeUnchanged(parts[0], p, value);
      }
    } else {
      var before := parts[0];
      assert forall i :: 0 <= i < |before| ==> before[i] != '{' by {
        forall i | 0 <= i < |before| ensures before[i] != '{' {
          assert before[i] in before;
        }
      }
      ReplaceAfterPrefix(before, p, value, Join(parts[1..], p));
      EveryOccurrenceFilled(parts[1..], key, value);
    }
  }

  /** A filled value can complete a new placeholder out of the text around
      the one it replaces, so brace-free values do not guarantee that no
      placeholder is left: with `a` missing, `{a{a}}` becomes `{a}`. */
  lemma FillingCanFormPlaceholder()
    ensures Substitute("{a{a}}", [Variable("a", None)]) == "{a}"
    ensures Contains(Substitute("{a{a}}", [Variable("a", None)]), Placeholder("a"))
  {
    var p := Placeholder("a");
    assert IsPlainKey("a") by { assert IsWordChar('a'); }
    var s := "{a{a}}";
    assert !StartsWith(s, p) by { assert s[..3][2] != p[2]; }
    assert s[1..] == "a" + p + "}";
    ReplaceAfterPrefix("a", p, "", "}");
    assert ReplaceAll("}", p, "") == "}";
    assert ReplaceAll(s, p, "") == "{a}";
    assert OccursAt("{a}", p, 0);
  }

  /** Past a first character that is not the pattern's first, the scan
      keeps it and goes on. */
  lemma ReplacePastFirst(s: string, p: string, v: string)
    requires |p| > 0 && |s| >= |p| && p[0] == '{' && s[0] != '{'
    ensures ReplaceAll(s, p, v) == [s[0]] + ReplaceAll(s[1..], p, v)
  {
    assert !StartsWith(s, p) by {
      assert s[..|p|][0] == s[0];
    }
  }

  /** Without features the body is the result. */
  lemma NoFeaturesNoWrapping(template: string, vars: seq<Variable>)
    requires forall k :: 0 <= k < |vars| ==> IsPlainKey(vars[k].key)
    ensures Interpolate(template, vars, Features(false, false)) == DropPlaceholderLines(Substitute(template, vars))
  {
    var body := DropPlaceholderLines(Substitute(template, vars));
    var r := Interpolate(template, vars, Features(false, false));
    assert r == r[0..|body|];
  }
}
