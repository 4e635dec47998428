/** The chain-graph runner (js/langchain-core.js, `TrueLangChain`): nodes
    with handlers, direct and conditional edges, an entry point, and the
    `run` loop with its iteration cap, repeated-state detection and
    null-state fallback. Node handlers and condition functions are
    parameters; the wall clock, the execution log, timeouts and the logger
    are left out. `S` is the type of a (non-null) state. */
module LangChain {
  import opened Wrappers

  const MaxIterations: nat := 50
  /** The memory of visited (node, state hash) keys is rotated when it
      holds more than this many keys ... */
  const HashMemoryLimit: nat := 50
  /** ... keeping this many of the most recent. */
  const HashMemoryKeep: nat := 25

  /** What a node's `execute` gives: a state, a falsy state, or a thrown
      error (a timeout included). */
  datatype Exec<S> = Next(state: S) | Null | Throws(message: string)

  /** What a condition function gives: a target key, or a thrown error. */
  datatype CondOutcome = Key(key: string) | CondThrows

  datatype Conditional<!S> = Conditional(condition: S -> CondOutcome, targets: map<string, string>)

  datatype Edge = Edge(from: string, to: string)

  datatype Chain<!S> = Chain(
    nodes: map<string, S -> Exec<S>>,
    edges: seq<Edge>,
    conditionals: map<string, Conditional<S>>,
    entry: Option<string>)

  function NewChain<S>(): Chain<S>
  {
    Chain(map[], [], map[], None)
  }

  /** `addNode(id, ...)`: a node with the same id is replaced. */
  function AddNode<S>(c: Chain<S>, id: string, handler: S -> Exec<S>): (r: Chain<S>)
    ensures id in r.nodes && r.nodes.Keys == c.nodes.Keys + {id}
    ensures r.edges == c.edges && r.conditionals == c.conditionals && r.entry == c.entry
  {
    c.(nodes := c.nodes[id := handler])
  }

  /** `addEdge(from, to)`: both ends must be known nodes. */
  function AddEdge<S>(c: Chain<S>, from: string, to: string): (r: Result<Chain<S>>)
    ensures r.Ok? <==> from in c.nodes && to in c.nodes
    ensures r.Ok? ==> r.value == c.(edges := c.edges + [Edge(from, to)])
  {
    if from !in c.nodes then Err("❌ Nodo origen \"" + from + "\" no existe")
    else if to !in c.nodes then Err("❌ Nodo destino \"" + to + "\" no existe")
    else Ok(c.(edges := c.edges + [Edge(from, to)]))
  }

  /** `addConditionalEdge(from, conditionFn, targets)`: not validated; a
      later one for the same node replaces the earlier. */
  function AddConditionalEdge<S>(c: Chain<S>, from: string, cond: Conditional<S>): (r: Chain<S>)
    ensures from in r.conditionals && r.conditionals[from] == cond
    ensures r.conditionals.Keys == c.conditionals.Keys + {from}
    ensures forall k :: k in c.conditionals && k != from ==> r.conditionals[k] == c.conditionals[k]
    ensures r.nodes == c.nodes && r.edges == c.edges && r.entry == c.entry
  {
    c.(conditionals := c.conditionals[from := cond])
  }

  /** `setEntryPoint(nodeId)`: the node must be known. */
  function SetEntryPoint<S>(c: Chain<S>, id: string): (r: Result<Chain<S>>)
    ensures r.Ok? <==> id in c.nodes
    ensures r.Ok? ==> r.value.entry == Some(id) && r.value.nodes == c.nodes && r.value.edges == c.edges
  {
    if id !in c.nodes then Err("❌ Nodo de entrada \"" + id + "\" no existe en la cadena")
    else Ok(c.(entry := Some(id)))
  }

  /** `this.edges.find(e => e.from === id)`. */
  function FirstEdgeFrom(edges: seq<Edge>, id: string): (r: Option<string>)
    ensures r.Some? ==> Edge(id, r.value) in edges
    ensures r.None? <==> forall k :: 0 <= k < |edges| ==> edges[k].from != id
  {
    if |edges| == 0 then None
    else if edges[0].from == id then Some(edges[0].to)
    else
      assert forall k :: 1 <= k < |edges| ==> edges[k] == edges[1..][k - 1];
      FirstEdgeFrom(edges[1..], id)
  }

  /** The edge found is the earliest one leaving `id`. */
  lemma {:induction false} FirstEdgeIsFirst(edges: seq<Edge>, id: string, k: nat)
    requires k < |edges| && edges[k].from == id
    requires forall j :: 0 <= j < k ==> edges[j].from != id
    ensures FirstEdgeFrom(edges, id) == Some(edges[k].to)
  {
    if k > 0 {
      assert edges[1..][k - 1] == edges[k];
      FirstEdgeIsFirst(edges[1..], id, k - 1);
    }
  }

  /** `getNextNode(currentNodeId, state)`: a conditional edge decides
      first, even when its key has no target (which ends the run); a
      throwing condition falls back to the first direct edge; with neither,
      the chain ends. */
  function NextNode<S>(c: Chain<S>, id: string, s: S): (r: Option<string>)
    ensures id in c.conditionals && c.conditionals[id].condition(s).Key? ==>
      var k := c.conditionals[id].condition(s).key;
      r == (if k in c.conditionals[id].targets then Some(c.conditionals[id].targets[k]) else None)
    ensures id !in c.conditionals || c.conditionals[id].condition(s).CondThrows? ==>
      r == FirstEdgeFrom(c.edges, id)
  {
    if id in c.conditionals && c.conditionals[id].condition(s).Key? then
      var cond := c.conditionals[id];
      var k := cond.condition(s).key;
      if k in cond.targets then Some(cond.targets[k]) else None
    else FirstEdgeFrom(c.edges, id)
  }

  /** A node without a conditional edge moves along its earliest direct
      edge. */
  lemma DirectRoute<S>(c: Chain<S>, id: string, k: nat, s: S)
    requires id !in c.conditionals
    requires k < |c.edges| && c.edges[k].from == id
    requires forall j :: 0 <= j < k ==> c.edges[j].from != id
    ensures NextNode(c, id, s) == Some(c.edges[k].to)
  {
    FirstEdgeIsFirst(c.edges, id, k);
  }

  /** What `run` reads of a state: its hash (the JSON of `generation`,
      `qualityScore` and the start of the flashcard), whether it reports an
      API call, and the latency it reports (0 when none). */
  datatype Observers<!S> = Observers(hash: S -> string, apiCall: S -> bool, latency: S -> int)

  datatype Outcome<S> =
    | Finished(state: Option<S>, iterations: nat, apiCalls: nat, latency: int, nullStop: bool)
    | Failed(message: string)

  function LoopMessage(id: string): string
  {
    "Loop infinito detectado en nodo \"" + id + "\""
  }

  /** The rotation of the key memory: the last 25 keys once there are
      more than 50. */
  function Rotate(memory: seq<(string, string)>): (r: seq<(string, string)>)
    ensures |memory| > HashMemoryLimit ==> |r| == HashMemoryKeep && r == memory[|memory| - HashMemoryKeep..]
  {
    if |memory| > HashMemoryLimit then memory[|memory| - HashMemoryKeep..] else memory
  }

  /** Within one run at most 50 keys are ever stored, and the check comes
      before the key of the current iteration is added, so the rotation
      never fires. */
  lemma RotationUnused(memory: seq<(string, string)>)
    requires |memory| < MaxIterations
    ensures Rotate(memory) == memory
  {
  }

  /** The `while (currentNodeId && iterations < maxIterations)` loop from
      the node `current` and the state `state`, after `iterations`
      iterations that stored the keys `memory` and counted `api` calls and
      `lat` latency. */
  function Loop<S>(c: Chain<S>, obs: Observers<S>, current: Option<string>, state: S, iterations: nat,
                   memory: seq<(string, string)>, api: nat, lat: int): (r: Outcome<S>)
    requires iterations <= MaxIterations && |memory| == iterations
    ensures r.Finished? ==> iterations <= r.iterations <= MaxIterations && r.state.Some?
    ensures r.Finished? ==> api <= r.apiCalls <= api + (r.iterations - iterations)
    ensures r.Finished? && r.iterations == iterations ==> r.state == Some(state) && !r.nullStop
    decreases MaxIterations - iterations
  {
    if current.None? || current.value == "" || iterations >= MaxIterations then
      Finished(Some(state), iterations, api, lat, false)
    else
      var id := current.value;
      var key := (id, obs.hash(state));
      if key in memory then Failed(LoopMessage(id))
      else
        RotationUnused(memory);
        var stored := Rotate(memory) + [key];
        if id !in c.nodes then Finished(Some(state), iterations + 1, api, lat, false)
        else
          match c.nodes[id](state)
          case Throws(m) => Failed(m)
          case Null => Finished(Some(state), iterations + 1, api, lat, true)
          case Next(s) =>
            var api' := if obs.apiCall(s) then api + 1 else api;
            Loop(c, obs, NextNode(c, id, s), s, iterations + 1, stored, api', lat + obs.latency(s))
  }

  /** `run(initialState)`. A null initial state cannot be hashed and the
      first iteration throws; without an entry point nothing runs. */
  function Run<S>(c: Chain<S>, obs: Observers<S>, initial: Option<S>): (r: Outcome<S>)
    ensures r.Finished? ==> r.iterations <= MaxIterations
    ensures r.Finished? ==> r.apiCalls <= r.iterations
    ensures (c.entry.None? || c.entry.value == "") ==> r == Finished(initial, 0, 0, 0, false)
  {
    if c.entry.None? || c.entry.value == "" then Finished(initial, 0, 0, 0, false)
    else if initial.None? then Failed("TypeError: Cannot read properties of null (reading 'generation')")
    else Loop(c, obs, c.entry, initial.value, 0, [], 0, 0)
  }

  /** A node that returns a falsy state ends the run with the state it was
      given, the last valid one. */
  lemma NullRestoresLastValid<S>(c: Chain<S>, obs: Observers<S>, id: string, state: S, iterations: nat,
                                 memory: seq<(string, string)>, api: nat, lat: int)
    requires iterations < MaxIterations && |memory| == iterations
    requires id != "" && id in c.nodes && c.nodes[id](state).Null?
    requires (id, obs.hash(state)) !in memory
    ensures Loop(c, obs, Some(id), state, iterations, memory, api, lat)
         == Finished(Some(state), iterations + 1, api, lat, true)
  {
  }

  /** Reaching a node again with a state of the same hash is an error. */
  lemma RepeatIsLoopError<S>(c: Chain<S>, obs: Observers<S>, id: string, state: S, iterations: nat,
                             memory: seq<(string, string)>, api: nat, lat: int)
    requires iterations < MaxIterations && |memory| == iterations
    requires id != "" && (id, obs.hash(state)) in memory
    ensures Loop(c, obs, Some(id), state, iterations, memory, api, lat) == Failed(LoopMessage(id))
  {
  }

  /** A node whose only edge leads back to itself and whose handler keeps
      the state is caught on its second visit. */
  lemma SelfLoopDetected<S>(obs: Observers<S>, id: string, handler: S -> Exec<S>, s: S)
    requires id != "" && handler(s) == Next(s)
    ensures var c := Chain(map[id := handler], [Edge(id, id)], map[], Some(id));
      Run(c, obs, Some(s)) == Failed(LoopMessage(id))
  {
    var c := Chain(map[id := handler], [Edge(id, id)], map[], Some(id));
    assert FirstEdgeFrom(c.edges, id) == Some(id);
    assert NextNode(c, id, s) == Some(id);
    var key := (id, obs.hash(s));
    assert Loop(c, obs, Some(id), s, 0, [], 0, 0)
        == Loop(c, obs, Some(id), s, 1, [key], if obs.apiCall(s) then 1 else 0, obs.latency(s));
    RepeatIsLoopError(c, obs, id, s, 1, [key], if obs.apiCall(s) then 1 else 0, obs.latency(s));
  }
}
