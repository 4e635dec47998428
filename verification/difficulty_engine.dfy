/** Difficulty balancing (processing/DifficultyEngine.js): a per-card
    difficulty estimate, and a selection of cards drawn from the easy,
    medium and hard thirds of the cards sorted by that estimate. */
module DifficultyEngine {
  import opened Wrappers
  import opened Seqs
  import opened Strings

  /** What the estimate reads of a card: its answer ("" when missing) and
      the sizes of its people, places and dates entity lists. */
  datatype Card = Card(answer: string, people: nat, places: nat, dates: nat)

  datatype Method = SentenceComplexity | EntityDensity | WordCount

  /** The `switch (method)`: unknown names count words. */
  function ParseMethod(name: string): (m: Method)
    ensures m == SentenceComplexity <==> name == "sentenceComplexity"
    ensures m == EntityDensity <==> name == "entityDensity"
  {
    if name == "sentenceComplexity" then SentenceComplexity
    else if name == "entityDensity" then EntityDensity
    else WordCount
  }

  predicate IsSentenceEnd(c: char)
  {
    c == '.' || c == '!' || c == '?'
  }

  /** `answer.split(/[.!?]/).filter(Boolean).length`. */
  function SentenceCount(answer: string): nat
  {
    |Filter(Split3(answer), NonEmpty)|
  }

  /** `answer.split(/[.!?]/)`: every end mark separates. */
  function Split3(s: string): (r: seq<string>)
    ensures |r| >= 1
    ensures forall k, j :: 0 <= k < |r| && 0 <= j < |r[k]| ==> !IsSentenceEnd(r[k][j])
  {
    if |s| == 0 then [""]
    else
      var rest := Split3(s[1..]);
      if IsSentenceEnd(s[0]) then [""] + rest else [[s[0]] + rest[0]] + rest[1..]
  }

  /** `estimate(card, method)`. */
  function Estimate(card: Card, m: Method): (d: nat)
    ensures m == SentenceComplexity ==> d >= 10 && d % 10 == 0
    ensures m == EntityDensity ==> d % 15 == 0 && (d == 0 <==> card.people + card.places + card.dates == 0)
    ensures m == WordCount ==> (d == 0 <==> IsBlank(card.answer))
  {
    match m
    case SentenceComplexity =>
      var n := SentenceCount(card.answer);
      (if n == 0 then 1 else n) * 10
    case EntityDensity => (card.people + card.places + card.dates) * 15
    case WordCount =>
      WordsEmptyIffBlank(card.answer);
      |Words(card.answer)|
  }

  /** The word-count estimate is the number of places in the answer where
      a word begins. */
  lemma WordCountEstimate(card: Card)
    ensures Estimate(card, WordCount) == WordStarts(card.answer, true)
  {
    WordsCountStarts(card.answer);
  }

  // ---------------------------------------------------------------------
  // Sorting by difficulty
  // ---------------------------------------------------------------------

  /** Ordered by the difficulty `key`, easiest first. */
  predicate SortedBy(s: seq<Card>, key: Card -> nat)
  {
    forall i, j :: 0 <= i < j < |s| ==> key(s[i]) <= key(s[j])
  }

  /** The difficulty of a card under the estimate `m`. */
  function KeyOf(m: Method): Card -> nat
  {
    (c: Card) => Estimate(c, m)
  }

  /** Inserting before the first card that is at least as hard keeps cards
      of equal difficulty in input order, as the stable
      `Array.prototype.sort` does. */
  function Insert(x: Card, s: seq<Card>, key: Card -> nat): (r: seq<Card>)
    requires SortedBy(s, key)
    ensures SortedBy(r, key)
    ensures multiset(r) == multiset(s) + multiset{x}
  {
    if |s| == 0 || key(x) <= key(s[0]) then [x] + s
    else
      var rest := Insert(x, s[1..], key);
      assert s == [s[0]] + s[1..];
      InsertHead(s[0], x, s[1..], rest, key);
      [s[0]] + rest
  }

  lemma InsertHead(h: Card, x: Card, t: seq<Card>, rest: seq<Card>, key: Card -> nat)
    requires SortedBy([h] + t, key) && key(h) < key(x)
    requires SortedBy(rest, key) && multiset(rest) == multiset(t) + multiset{x}
    ensures SortedBy([h] + rest, key)
  {
    forall j | 0 <= j < |rest|
      ensures key(h) <= key(rest[j])
    {
      assert rest[j] in multiset(rest);
      if rest[j] != x {
        assert rest[j] in multiset(t);
        var k :| 0 <= k < |t| && t[k] == rest[j];
        assert ([h] + t)[0] == h && ([h] + t)[k + 1] == t[k];
      }
    }
    var r := [h] + rest;
    forall i, j | 0 <= i < j < |r|
      ensures key(r[i]) <= key(r[j])
    {
      if i > 0 {
        assert r[i] == rest[i - 1] && r[j] == rest[j - 1];
      } else {
        assert r[j] == rest[j - 1];
      }
    }
  }

  /** `scored.sort((a, b) => a.difficulty - b.difficulty)`: the cards in
      ascending order of their estimate, each difficulty computed once per
      card in the source and recomputed here, which gives the same value. */
  function SortByDifficulty(s: seq<Card>, key: Card -> nat): (r: seq<Card>)
    ensures SortedBy(r, key)
    ensures multiset(r) == multiset(s)
  {
    if |s| == 0 then []
    else
      assert s == [s[0]] + s[1..];
      Insert(s[0], SortByDifficulty(s[1..], key), key)
  }

  // ---------------------------------------------------------------------
  // apply
  // ---------------------------------------------------------------------

  /** The balancing configuration; an absent or zero count means "a third". */
  datatype Config = Config(estimationMethod: string, easyCount: Option<int>,
                           mediumCount: Option<int>, hardCount: Option<int>)

  /** `config.xCount || tercile`. */
  function CountOr(c: Option<int>, tercile: nat): int
  {
    if c.None? || c.value == 0 then tercile else c.value
  }

  /** `pick(arr, count)`: the first `count` entries, none for a count below 1. */
  function Pick(arr: seq<Card>, count: int): (r: seq<Card>)
    ensures |r| <= |arr| && r == arr[..|r|]
    ensures count > 0 ==> |r| == if count < |arr| then count else |arr|
    ensures count <= 0 ==> r == []
  {
    if count > 0 then arr[..if count < |arr| then count else |arr|] else []
  }

  /** `Math.floor(scored.length / 3) || 1`. */
  function Tercile(n: nat): (t: nat)
    ensures t >= 1
    ensures n >= 3 ==> 3 * t <= n < 3 * t + 3
  {
    if n / 3 == 0 then 1 else n / 3
  }

  /** `slice` clips its bounds to the length. */
  function Bound(i: nat, n: nat): nat
  {
    if i < n then i else n
  }

  /** The cards drawn from the three thirds of the sorted list. */
  function Selection(sorted: seq<Card>, config: Config): (r: seq<Card>)
  {
    var n := |sorted|;
    var t := Tercile(n);
    var a := Bound(t, n);
    var b := Bound(2 * t, n);
    Pick(sorted[..a], CountOr(config.easyCount, t))
      + Pick(sorted[a..b], CountOr(config.mediumCount, t))
      + Pick(sorted[b..], CountOr(config.hardCount, t))
  }

  /** The method named by the configuration, `wordCount` when unnamed. */
  function MethodOf(config: Config): Method
  {
    ParseMethod(if config.estimationMethod == "" then "wordCount" else config.estimationMethod)
  }

  /** `apply(config)` on the card list: with no configuration or no cards
      nothing changes; otherwise the cards become the selection, unless it
      is empty. */
  function Apply(config: Option<Config>, cards: seq<Card>): (r: seq<Card>)
    ensures config.None? || |cards| == 0 ==> r == cards
  {
    if config.None? || |cards| == 0 then cards
    else
      var selection := Selection(SortByDifficulty(cards, KeyOf(MethodOf(config.value))), config.value);
      if |selection| > 0 then selection else cards
  }

  /** The selection is three slices of the list: the start of each third,
      no longer than the count configured for it. */
  lemma SelectionSlices(sorted: seq<Card>, config: Config) returns (a: nat, b: nat, x: nat, y: nat, z: nat)
    ensures x <= a && a + y <= b && b + z <= |sorted|
    ensures Selection(sorted, config) == sorted[..x] + sorted[a..a + y] + sorted[b..b + z]
    ensures a == Bound(Tercile(|sorted|), |sorted|) && b == Bound(2 * Tercile(|sorted|), |sorted|)
    ensures x > 0 ==> x <= CountOr(config.easyCount, Tercile(|sorted|))
    ensures y > 0 ==> y <= CountOr(config.mediumCount, Tercile(|sorted|))
    ensures z > 0 ==> z <= CountOr(config.hardCount, Tercile(|sorted|))
  {
    var n := |sorted|;
    var t := Tercile(n);
    a := Bound(t, n);
    b := Bound(2 * t, n);
    var e := Pick(sorted[..a], CountOr(config.easyCount, t));
    var m := Pick(sorted[a..b], CountOr(config.mediumCount, t));
    var h := Pick(sorted[b..], CountOr(config.hardCount, t));
    x, y, z := |e|, |m|, |h|;
    assert e == sorted[..x];
    assert m == sorted[a..a + y];
    assert h == sorted[b..b + z];
  }

  /** Three slices taken in order from a list are a sub-multiset of it. */
  lemma SlicesMultiset(s: seq<Card>, a: nat, b: nat, x: nat, y: nat, z: nat)
    requires x <= a && a + y <= b && b + z <= |s|
    ensures multiset(s[..x] + s[a..a + y] + s[b..b + z]) <= multiset(s)
  {
    assert s == s[..x] + s[x..a] + s[a..a + y] + s[a + y..b] + s[b..b + z] + s[b + z..];
  }

  /** Prefixes of three consecutive stretches of a sorted list, joined, are sorted. */
  lemma SlicesSorted(s: seq<Card>, key: Card -> nat, a: nat, b: nat, x: nat, y: nat, z: nat)
    requires SortedBy(s, key)
    requires x <= a && a + y <= b && b + z <= |s|
    ensures SortedBy(s[..x] + s[a..a + y] + s[b..b + z], key)
  {
    var r := s[..x] + s[a..a + y] + s[b..b + z];
    forall i, j | 0 <= i < j < |r|
      ensures key(r[i]) <= key(r[j])
    {
      assert r[i] == s[Origin(i, x, y, a, b)] && r[j] == s[Origin(j, x, y, a, b)];
    }
  }

  /** Where entry `i` of the joined slices sits in the list. */
  function Origin(i: nat, x: nat, y: nat, a: nat, b: nat): nat
  {
    if i < x then i else if i < x + y then a + (i - x) else b + (i - x - y)
  }

  /** A balanced list holds only input cards, each at most as often as it
      occurs in the input, and is empty only when the input is; unless
      nothing was selected, it is ordered by the configured estimate. */
  lemma ApplySubset(config: Config, cards: seq<Card>)
    ensures multiset(Apply(Some(config), cards)) <= multiset(cards)
    ensures |Apply(Some(config), cards)| == 0 <==> |cards| == 0
    ensures var r := Apply(Some(config), cards);
      r == cards || SortedBy(r, KeyOf(MethodOf(config)))
  {
    if |cards| > 0 {
      var sorted := SortByDifficulty(cards, KeyOf(MethodOf(config)));
      var a, b, x, y, z := SelectionSlices(sorted, config);
      SlicesMultiset(sorted, a, b, x, y, z);
      SlicesSorted(sorted, KeyOf(MethodOf(config)), a, b, x, y, z);
    }
  }
}
