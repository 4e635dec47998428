/** `ContextEngine.summarizeContext` (processing/ContextEngine.js): the
    people, events and themes of the chunks just before a chunk, as text. */
module ContextEngine {
  import opened Wrappers
  import opened Seqs
  import opened Strings
  import ChunkStrategies

  /** What a chunk contributes: its `entities.people` when that is an
      array, and its `metadata.events` and `metadata.themes` when truthy
      (`None` for a missing, empty or otherwise falsy value). */
  datatype Chunk = Chunk(people: Option<seq<string>>, events: Option<string>, themes: Option<string>)

  /** The options; an absent flag is `None`, and a `contextWindow` of 0 is
      as absent as a missing one. */
  datatype Config = Config(contextWindow: Option<int>, includeCharacters: Option<bool>,
                           includeEvents: Option<bool>, includeThemes: Option<bool>)

  const NoConfig := Config(None, None, None, None)

  datatype Summary = Summary(people: string, events: string, themes: string)

  const DefaultWindow: int := 2
  const NoPeople := "N/A"
  const NoEvents := "Contexto no disponible"
  const NoThemes := "N/A"

  /** `config.contextWindow || 2`. */
  function Window(config: Config): (r: int)
    ensures config.contextWindow.None? || config.contextWindow.value == 0 ==> r == DefaultWindow
    ensures config.contextWindow.Some? && config.contextWindow.value != 0 ==> r == config.contextWindow.value
  {
    if config.contextWindow.Some? && config.contextWindow.value != 0 then config.contextWindow.value else DefaultWindow
  }

  /** `chunks.slice(Math.max(0, index - window), index)`. */
  function ContextChunks(chunks: seq<Chunk>, index: nat, config: Config): seq<Chunk>
  {
    ChunkStrategies.Slice(chunks, ChunkStrategies.MaxInt(0, index - Window(config)), index)
  }

  /** The people of the chunks, in order, with repetitions. */
  function AllPeople(chunks: seq<Chunk>): (r: seq<string>)
    ensures forall p :: p in r <==> exists k :: 0 <= k < |chunks| && chunks[k].people.Some? && p in chunks[k].people.value
  {
    if |chunks| == 0 then []
    else
      var rest := AllPeople(chunks[1..]);
      assert forall k :: 1 <= k < |chunks| ==> chunks[k] == chunks[1..][k - 1];
      chunks[0].people.GetOr([]) + rest
  }

  predicate HasEvents(c: Chunk) { c.events.Some? }
  predicate HasThemes(c: Chunk) { c.themes.Some? }
  function EventsOf(c: Chunk): string { c.events.GetOr("") }
  function ThemesOf(c: Chunk): string { c.themes.GetOr("") }

  /** `parts.join(sep) || fallback`. */
  function JoinOr(parts: seq<string>, sep: string, fallback: string): (r: string)
    ensures r == fallback || r == Join(parts, sep)
    ensures |parts| == 0 ==> r == fallback
  {
    var j := Join(parts, sep);
    if j == "" then fallback else j
  }

  /** `summarizeContext(chunks, index, config)`: characters and events are
      included unless switched off with `false`, themes only when switched
      on; the people are listed once each, in order of first mention. */
  function SummarizeContext(chunks: seq<Chunk>, index: nat, config: Config): (r: Summary)
    ensures config.includeCharacters == Some(false) ==> r.people == NoPeople
    ensures config.includeEvents == Some(false) ==> r.events == NoEvents
    ensures config.includeThemes != Some(true) ==> r.themes == NoThemes
  {
    var window := ContextChunks(chunks, index, config);
    var people := if config.includeCharacters != Some(false) then Dedup(AllPeople(window)) else [];
    var events := if config.includeEvents != Some(false) then Map(Filter(window, HasEvents), EventsOf) else [];
    var themes := if config.includeThemes == Some(true) then Map(Filter(window, HasThemes), ThemesOf) else [];
    Summary(JoinOr(people, ", ", NoPeople), JoinOr(events, " | ", NoEvents), JoinOr(themes, ", ", NoThemes))
  }

  /** The people listed are the people of the window, each once. */
  lemma SummaryPeople(chunks: seq<Chunk>, index: nat, config: Config)
    requires config.includeCharacters != Some(false)
    ensures var window := ContextChunks(chunks, index, config);
      exists ps :: && Distinct(ps)
                   && (forall p :: p in ps <==> exists k :: 0 <= k < |window| && window[k].people.Some? && p in window[k].people.value)
                   && SummarizeContext(chunks, index, config).people == JoinOr(ps, ", ", NoPeople)
  {
    var window := ContextChunks(chunks, index, config);
    var ps := Dedup(AllPeople(window));
    assert SummarizeContext(chunks, index, config).people == JoinOr(ps, ", ", NoPeople);
    assert forall p :: p in ps <==> p in AllPeople(window);
  }

  /** The events listed are those of the window's chunks that have one, in
      order. */
  lemma SummaryEvents(chunks: seq<Chunk>, index: nat, config: Config)
    requires config.includeEvents != Some(false)
    ensures var window := ContextChunks(chunks, index, config);
      exists sel :: FilteredFrom(sel, window, HasEvents) && SummarizeContext(chunks, index, config).events == JoinOr(Map(sel, EventsOf), " | ", NoEvents)
  {
    var window := ContextChunks(chunks, index, config);
    var sel := Filter(window, HasEvents);
    FilterFiltered(window, HasEvents);
    assert SummarizeContext(chunks, index, config).events == JoinOr(Map(sel, EventsOf), " | ", NoEvents);
  }

  /** The themes listed, when switched on, are those of the window's
      chunks that have one, in order. */
  lemma SummaryThemes(chunks: seq<Chunk>, index: nat, config: Config)
    requires config.includeThemes == Some(true)
    ensures var window := ContextChunks(chunks, index, config);
      exists sel :: FilteredFrom(sel, window, HasThemes) && SummarizeContext(chunks, index, config).themes == JoinOr(Map(sel, ThemesOf), ", ", NoThemes)
  {
    var window := ContextChunks(chunks, index, config);
    var sel := Filter(window, HasThemes);
    FilterFiltered(window, HasThemes);
    assert SummarizeContext(chunks, index, config).themes == JoinOr(Map(sel, ThemesOf), ", ", NoThemes);
  }

  /** The chunks summarised are exactly those at positions
      `max(0, index - window) .. index - 1`. */
  lemma ContextWindowExact(chunks: seq<Chunk>, index: nat, config: Config, c: Chunk)
    ensures c in ContextChunks(chunks, index, config) <==>
      exists j :: ChunkStrategies.MaxInt(0, index - Window(config)) <= j < index && j < |chunks| && chunks[j] == c
  {
    var lo := ChunkStrategies.MaxInt(0, index - Window(config));
    var s := ContextChunks(chunks, index, config);
    if c in s {
      var m :| 0 <= m < |s| && s[m] == c;
      assert chunks[lo + m] == c;
    }
    if exists j :: lo <= j < index && j < |chunks| && chunks[j] == c {
      var j :| lo <= j < index && j < |chunks| && chunks[j] == c;
      assert s[j - lo] == c;
    }
  }

  /** The people listed are the people of the window, each once. */
  lemma PeopleDeduplicated(chunks: seq<Chunk>, index: nat, config: Config)
    requires config.includeCharacters != Some(false)
    ensures var people := Dedup(AllPeople(ContextChunks(chunks, index, config)));
      && Distinct(people)
      && (forall p :: p in people <==> p in AllPeople(ContextChunks(chunks, index, config)))
  {
  }

  /** Without the first chunk nothing precedes it: every field falls back. */
  lemma FirstChunkHasNoContext(chunks: seq<Chunk>, config: Config)
    ensures SummarizeContext(chunks, 0, config) == Summary(NoPeople, NoEvents, NoThemes)
  {
    assert ContextChunks(chunks, 0, config) == [];
  }

  /** Themes are left out unless asked for. */
  lemma ThemesNeedOptIn(chunks: seq<Chunk>, index: nat)
    ensures SummarizeContext(chunks, index, NoConfig).themes == NoThemes
  {
  }

  /** The default window is the two chunks before. */
  lemma DefaultWindowIsTwo(chunks: seq<Chunk>, index: nat)
    requires 2 <= index <= |chunks|
    ensures ContextChunks(chunks, index, NoConfig) == chunks[index - 2..index]
  {
  }
}
