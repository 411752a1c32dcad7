/**
 Service dependency resolution (quantra/src/services/dependency.rs).

 Services are identified by their position in the configured list.  `WaveSort`
 is Kahn's algorithm with level tracking, as the source runs it: an in-degree
 array, adjacency lists and a queue that are updated in place.  It is proved
 against `IsSchedule`, which does not mention the algorithm, and its error case
 is proved to be exactly the case of a dependency cycle.
 */
module Waves {
  import opened Sequences

  datatype Service = Service(name: string, after: seq<string>, dependencies: seq<string>)

  datatype Outcome = Waves(waves: seq<seq<nat>>) | Circular(unresolved: seq<nat>)

  // ------------------------------------------------------------------ graph

  /** Collected left to right, so the last service of a name wins. */
  function NameIndex(services: seq<Service>): (m: map<string, nat>)
    ensures forall k :: k in m ==> m[k] < |services|
  {
    if services == [] then map[]
    else
      var last := |services| - 1;
      NameIndex(services[..last])[services[last].name := last]
  }

  /** Unknown names are ignored; repeated names are kept. */
  function Resolve(names: seq<string>, index: map<string, nat>): (r: seq<nat>)
    ensures forall u :: u in r <==> exists k :: k in names && k in index && index[k] == u
  {
    if names == [] then []
    else
      var rest := Resolve(names[1..], index);
      assert names == [names[0]] + names[1..];
      if names[0] in index then [index[names[0]]] + rest else rest
  }

  /** What service v waits for: its `after` list, then its `dependencies`. */
  function Deps(services: seq<Service>, v: nat): (r: seq<nat>)
    requires v < |services|
    ensures forall u :: u in r ==> u < |services|
  {
    Resolve(services[v].after + services[v].dependencies, NameIndex(services))
  }

  type Graph = g: seq<seq<nat>> | forall v, u :: 0 <= v < |g| && u in g[v] ==> u < |g| witness []

  function DependencyGraph(services: seq<Service>): (g: Graph)
    ensures |g| == |services|
    ensures forall v :: 0 <= v < |g| ==> g[v] == Deps(services, v)
  {
    seq(|services|, v requires 0 <= v < |services| => Deps(services, v))
  }

  // ------------------------------------------------------- waiting, by names

  /** Of the services with one name, the last counts. */
  predicate LastNamed(services: seq<Service>, name: string, u: nat) {
    u < |services| && services[u].name == name && forall w :: u < w < |services| ==> services[w].name != name
  }

  /** Service v names service u in `after` or in `dependencies`. */
  ghost predicate WaitsFor(services: seq<Service>, v: nat, u: nat) {
    && v < |services|
    && exists name :: (name in services[v].after || name in services[v].dependencies) && LastNamed(services, name, u)
  }

  lemma {:induction false} IndexIsLast(services: seq<Service>, name: string, u: nat)
    ensures name in NameIndex(services) && NameIndex(services)[name] == u <==> LastNamed(services, name, u)
    decreases |services|
  {
    if services != [] {
      var front := services[..|services| - 1];
      IndexIsLast(front, name, u);
      assert forall w :: 0 <= w < |front| ==> front[w] == services[w];
    }
  }

  /** The edges of the graph are these waits. */
  lemma EdgesAreWaits(services: seq<Service>, v: nat, u: nat)
    requires v < |services|
    ensures u in DependencyGraph(services)[v] <==> WaitsFor(services, v, u)
  {
    var names, index := services[v].after + services[v].dependencies, NameIndex(services);
    forall name ensures name in names && name in index && index[name] == u <==>
        (name in services[v].after || name in services[v].dependencies) && LastNamed(services, name, u)
    {
      IndexIsLast(services, name, u);
    }
  }

  // ---------------------------------------------------------- specification

  ghost predicate InWave(waves: seq<seq<nat>>, k: nat, v: nat) {
    k < |waves| && v in waves[k]
  }

  /** In wave k, v starts after everything it waits for, and waits for something in the wave just before. */
  ghost predicate WellPlaced(g: Graph, waves: seq<seq<nat>>, k: nat, v: nat) {
    && v < |g|
    && (forall u: nat :: u in g[v] ==> exists j: nat :: j < k && InWave(waves, j, u))
    && (k > 0 ==> exists u: nat :: u in g[v] && InWave(waves, k - 1, u))
  }

  /** Waves over g in which nothing starts too early, too late or twice. */
  ghost predicate PartialSchedule(g: Graph, waves: seq<seq<nat>>) {
    && (forall k :: 0 <= k < |waves| ==> waves[k] != [] && Distinct(waves[k]))
    && (forall j: nat, k: nat, v: nat :: InWave(waves, j, v) && InWave(waves, k, v) ==> j == k)
    && (forall k: nat, v: nat {:trigger WellPlaced(g, waves, k, v)} :: InWave(waves, k, v) ==>
      WellPlaced(g, waves, k, v))
  }

  ghost predicate Placed(waves: seq<seq<nat>>, v: nat) {
    exists k: nat :: InWave(waves, k, v)
  }

  ghost predicate IsSchedule(g: Graph, waves: seq<seq<nat>>) {
    PartialSchedule(g, waves) && forall v :: 0 <= v < |g| ==> Placed(waves, v)
  }

  /** p is a chain: each element is waited for by the next. */
  ghost predicate Chain(g: Graph, p: seq<nat>) {
    && (forall i :: 0 <= i < |p| ==> p[i] < |g|)
    && (forall i :: 0 <= i < |p| - 1 ==> p[i] in g[p[i + 1]])
  }

  ghost predicate Cycle(g: Graph, c: seq<nat>) {
    |c| >= 2 && Chain(g, c) && c[0] == c[|c| - 1]
  }

  /** v is on a cycle, or waits, directly or not, for a service that is. */
  ghost predicate Blocked(g: Graph, v: nat) {
    exists p: seq<nat>, i: nat :: BlockedVia(g, v, p, i)
  }

  ghost predicate BlockedVia(g: Graph, v: nat, p: seq<nat>, i: nat) {
    Chain(g, p) && |p| > 0 && p[|p| - 1] == v && 1 <= i < |p| && Cycle(g, p[..i + 1])
  }

  // -------------------------------------------------------------- algorithm

  function Count(s: seq<nat>, v: nat): nat { multiset(s)[v] }

  /** How many entries of a wait list have not been started yet. */
  ghost function Waiting(deps: seq<nat>, started: set<nat>): nat {
    if deps == [] then 0
    else (if deps[0] in started then 0 else 1) + Waiting(deps[1..], started)
  }

  lemma {:induction false} WaitingZero(deps: seq<nat>, started: set<nat>)
    ensures Waiting(deps, started) == 0 <==> forall u :: u in deps ==> u in started
  {
    if deps != [] {
      WaitingZero(deps[1..], started);
      assert deps == [deps[0]] + deps[1..];
    }
  }

  lemma {:induction false} WaitingStep(deps: seq<nat>, started: set<nat>, node: nat)
    requires node !in started
    ensures Waiting(deps, started) == Waiting(deps, started + {node}) + Count(deps, node)
  {
    if deps != [] {
      WaitingStep(deps[1..], started, node);
      assert deps == [deps[0]] + deps[1..];
      assert Count(deps, node) == Count([deps[0]], node) + Count(deps[1..], node);
    }
  }

  lemma {:induction false} WaitingNone(deps: seq<nat>)
    ensures Waiting(deps, {}) == |deps|
  {
    if deps != [] { WaitingNone(deps[1..]); }
  }

  /** The two arrays the source fills while it reads the service list. */
  ghost predicate Built(g: Graph, adj: seq<seq<nat>>, degrees: seq<nat>) {
    && |adj| == |g| == |degrees|
    && (forall v :: 0 <= v < |g| ==> degrees[v] == |g[v]|)
    && (forall u, v :: 0 <= u < |g| && 0 <= v < |g| ==> Count(adj[u], v) == Count(g[v], u))
    && (forall u, v :: 0 <= u < |g| && v in adj[u] ==> v < |g|)
  }

  method BuildEdges(g: Graph) returns (adj: array<seq<nat>>, degrees: array<nat>)
    ensures fresh(adj) && fresh(degrees)
    ensures Built(g, adj[..], degrees[..])
  {
    var n := |g|;
    degrees := new nat[n](_ => 0);
    adj := new seq<nat>[n](_ => []);
    assert forall u :: 0 <= u < n ==> adj[u] == [];
    assert forall v: nat :: Count([], v) == 0;
    var idx := 0;
    while idx < n
      invariant 0 <= idx <= n
      invariant forall v :: 0 <= v < n ==> degrees[v] == if v < idx then |g[v]| else 0
      invariant forall u, v :: 0 <= u < n && 0 <= v < idx ==> Count(adj[u], v) == Count(g[v], u)
      invariant forall u, v :: 0 <= u < n && idx <= v < n ==> Count(adj[u], v) == 0
      invariant forall u, v :: 0 <= u < n && v in adj[u] ==> v < n
    {
      AddEdges(g, idx, adj, degrees);
      idx := idx + 1;
    }
  }

  method AddEdges(g: Graph, idx: nat, adj: array<seq<nat>>, degrees: array<nat>)
    requires idx < |g| == adj.Length == degrees.Length
    requires degrees[idx] == 0
    requires forall u :: 0 <= u < |g| ==> Count(adj[u], idx) == 0
    requires forall u, v :: 0 <= u < |g| && v in adj[u] ==> v < |g|
    modifies adj, degrees
    ensures degrees[idx] == |g[idx]|
    ensures forall v :: 0 <= v < |g| && v != idx ==> degrees[v] == old(degrees[v])
    ensures forall u :: 0 <= u < |g| ==> Count(adj[u], idx) == Count(g[idx], u)
    ensures forall u, v :: 0 <= u < |g| && v != idx ==> Count(adj[u], v) == old(Count(adj[u], v))
    ensures forall u, v :: 0 <= u < |g| && v in adj[u] ==> v < |g|
  {
    var deps := g[idx];
    var j := 0;
    while j < |deps|
      invariant 0 <= j <= |deps|
      invariant degrees[idx] == j
      invariant forall v :: 0 <= v < |g| && v != idx ==> degrees[v] == old(degrees[v])
      invariant forall u :: 0 <= u < |g| ==> Count(adj[u], idx) == Count(deps[..j], u)
      invariant forall u, v :: 0 <= u < |g| && v != idx ==> Count(adj[u], v) == old(Count(adj[u], v))
      invariant forall u, v :: 0 <= u < |g| && v in adj[u] ==> v < |g|
    {
      var dep := deps[j];
      assert dep in g[idx];
      assert deps[..j + 1] == deps[..j] + [dep];
      adj[dep] := adj[dep] + [idx];
      degrees[idx] := degrees[idx] + 1;
      j := j + 1;
    }
    assert deps[..j] == deps;
  }

  /** One dequeued node: its neighbours' degrees drop, and those that reach zero join the queue. */
  method Release(neighbors: seq<nat>, degrees: array<nat>, queue: seq<nat>) returns (queue': seq<nat>)
    requires forall v :: v in neighbors ==> v < degrees.Length
    requires forall v :: 0 <= v < degrees.Length ==> degrees[v] >= Count(neighbors, v)
    modifies degrees
    ensures forall v :: 0 <= v < degrees.Length ==> degrees[v] == old(degrees[v]) - Count(neighbors, v)
    ensures queue <= queue' && Distinct(queue'[|queue|..])
    ensures forall v :: v in queue'[|queue|..] <==> v in neighbors && v < degrees.Length && degrees[v] == 0
  {
    queue' := queue;
    var j := 0;
    while j < |neighbors|
      invariant 0 <= j <= |neighbors|
      invariant forall v :: 0 <= v < degrees.Length ==> degrees[v] == old(degrees[v]) - Count(neighbors[..j], v)
      invariant forall v :: 0 <= v < degrees.Length ==> degrees[v] >= Count(neighbors[j..], v)
      invariant queue <= queue' && Distinct(queue'[|queue|..])
      invariant forall v :: v in queue'[|queue|..] <==> v in neighbors[..j] && v < degrees.Length && degrees[v] == 0
    {
      var v := neighbors[j];
      assert neighbors[..j + 1] == neighbors[..j] + [v];
      assert neighbors[j..] == [v] + neighbors[j + 1..];
      assert v in neighbors;
      assert degrees[v] > 0;
      degrees[v] := degrees[v] - 1;
      if degrees[v] == 0 {
        assert (queue' + [v])[|queue|..] == queue'[|queue|..] + [v];
        queue' := queue' + [v];
      }
      j := j + 1;
    }
    assert neighbors[..j] == neighbors;
  }

  ghost function Started(waves: seq<seq<nat>>, n: nat): set<nat> {
    set v | 0 <= v < n && Placed(waves, v)
  }

  ghost function Elements(s: seq<nat>): set<nat> { set v | v in s }

  ghost predicate Ready(g: Graph, v: nat, started: set<nat>)
    requires v < |g|
  {
    forall u :: u in g[v] ==> u in started
  }

  ghost predicate Closed(g: Graph, started: set<nat>) {
    forall v :: v in started ==> v < |g| && Ready(g, v, started)
  }

  /** The queue at the top of the outer loop: everything that may start now, once. */
  ghost predicate Frontier(g: Graph, started: set<nat>, queue: seq<nat>) {
    && Distinct(queue)
    && forall v: nat :: v in queue <==> v < |g| && v !in started && Ready(g, v, started)
  }

  ghost predicate DegreesOf(g: Graph, started: set<nat>, degrees: seq<nat>) {
    |degrees| == |g| && forall v :: 0 <= v < |g| ==> degrees[v] == Waiting(g[v], started)
  }

  method ReleaseNode(g: Graph, adj: seq<seq<nat>>, degrees: array<nat>, queue: seq<nat>, node: nat,
                     ghost started: set<nat>, ghost done: set<nat>,
                     ghost cur: seq<nat>, ghost next: seq<nat>, ghost full: seq<nat>)
    returns (queue': seq<nat>, ghost added: seq<nat>)
    requires Built(g, adj, full) && Closed(g, started) && Frontier(g, started, cur)
    requires node in cur && node !in done && started <= done
    requires NextWave(g, started, done, cur, next) && DegreesOf(g, done, degrees[..])
    modifies degrees
    ensures queue' == queue + added
    ensures NextWave(g, started, done + {node}, cur, next + added) && DegreesOf(g, done + {node}, degrees[..])
  {
    DegreesBefore(g, adj, full, degrees[..], done, node);
    queue' := Release(adj[node], degrees, queue);
    added := queue'[|queue|..];
    NewlyReady(g, adj, full, degrees[..], started, done, cur, next, added, node);
  }

  /** Both lists of one wave after k of its nodes have been taken from the queue. */
  ghost predicate Midway(cur: seq<nat>, k: nat, next: seq<nat>, wave: seq<nat>, queue: seq<nat>) {
    k <= |cur| && wave == cur[..k] && queue == cur[k..] + next
  }

  lemma MidwayStep(cur: seq<nat>, k: nat, next: seq<nat>, wave: seq<nat>, queue: seq<nat>, added: seq<nat>)
    requires Midway(cur, k, next, wave, queue) && k < |cur|
    ensures queue != [] && queue[0] == cur[k]
    ensures Midway(cur, k + 1, next + added, wave + [queue[0]], queue[1..] + added)
  {
    assert cur[k..] == [cur[k]] + cur[k + 1..];
  }

  /** The inner loop of one wave: empties the current queue and refills it. */
  method RunWave(g: Graph, adj: seq<seq<nat>>, degrees: array<nat>, cur: seq<nat>, ghost started: set<nat>,
      ghost full: seq<nat>)
    returns (wave: seq<nat>, queue: seq<nat>)
    requires Built(g, adj, full)
    requires Closed(g, started) && Frontier(g, started, cur) && DegreesOf(g, started, degrees[..])
    modifies degrees
    ensures wave == cur
    ensures NextWave(g, started, started + Elements(cur), cur, queue)
    ensures DegreesOf(g, started + Elements(cur), degrees[..])
  {
    queue := cur;
    wave := [];
    ghost var next: seq<nat> := [];
    WaveBegins(g, started, cur);
    var waveSize := |queue|;
    for k := 0 to waveSize
      invariant Midway(cur, k, next, wave, queue)
      invariant DegreesOf(g, started + Elements(cur[..k]), degrees[..])
      invariant NextWave(g, started, started + Elements(cur[..k]), cur, next)
    {
      NotYetDone(g, started, cur, k);
      MidwayStep(cur, k, next, wave, queue, []);
      var node := queue[0];
      ghost var queue0 := queue;
      ghost var added;
      queue, added := ReleaseNode(g, adj, degrees, queue[1..], node, started, started + Elements(cur[..k]), cur,
          next, full);
      MidwayStep(cur, k, next, wave, queue0, added);
      assert started + Elements(cur[..k + 1]) == started + Elements(cur[..k]) + {node};
      wave := wave + [node];
      next := next + added;
    }
    assert cur[..waveSize] == cur && cur[waveSize..] == [];
    assert queue == next;
  }

  lemma WaveBegins(g: Graph, started: set<nat>, cur: seq<nat>)
    requires Frontier(g, started, cur)
    ensures NextWave(g, started, started, cur, [])
    ensures cur[..0] == [] && cur[0..] == cur && started + Elements([]) == started
  {
  }

  lemma NotYetDone(g: Graph, started: set<nat>, cur: seq<nat>, k: nat)
    requires Frontier(g, started, cur) && k < |cur|
    ensures cur[k] in cur && cur[k] !in started + Elements(cur[..k])
    ensures Elements(cur[..k + 1]) == Elements(cur[..k]) + {cur[k]}
  {
    assert cur[..k + 1] == cur[..k] + [cur[k]];
  }

  lemma WaveEnds(g: Graph, started: set<nat>, cur: seq<nat>, next: seq<nat>)
    requires NextWave(g, started, started + Elements(cur), cur, next)
    ensures Frontier(g, started + Elements(cur), next)
  {
  }

  /** What the running wave has added to the queue so far. */
  ghost predicate NextWave(g: Graph, started: set<nat>, done: set<nat>, cur: seq<nat>, next: seq<nat>) {
    && Distinct(next)
    && (forall v: nat :: v in next <==> v < |g| && v !in started && v !in cur && Ready(g, v, done))
    && (forall v :: v in next ==> exists u :: u in g[v] && u in cur)
  }

  lemma DegreesBefore(g: Graph, adj: seq<seq<nat>>, full: seq<nat>, degrees: seq<nat>, done: set<nat>, node: nat)
    requires Built(g, adj, full) && DegreesOf(g, done, degrees) && node < |g| && node !in done
    ensures forall v :: 0 <= v < |g| ==> degrees[v] == Waiting(g[v], done + {node}) + Count(adj[node], v)
  {
    forall v | 0 <= v < |g|
      ensures degrees[v] == Waiting(g[v], done + {node}) + Count(adj[node], v)
    {
      WaitingStep(g[v], done, node);
    }
  }

  lemma DistinctConcat(a: seq<nat>, b: seq<nat>)
    requires Distinct(a) && Distinct(b) && forall v :: v in b ==> v !in a
    ensures Distinct(a + b)
  {
    forall i, j | 0 <= i < j < |a + b|
      ensures (a + b)[i] != (a + b)[j]
    {
      if i < |a| <= j { assert b[j - |a|] in b; }
    }
  }

  /** What one dequeued node adds is exactly what became ready through it. */
  lemma NewlyReady(g: Graph, adj: seq<seq<nat>>, full: seq<nat>, degrees: seq<nat>, started: set<nat>, done: set<nat>,
                   cur: seq<nat>, next: seq<nat>, added: seq<nat>, node: nat)
    requires Built(g, adj, full) && Closed(g, started) && Frontier(g, started, cur)
    requires node in cur && node !in done && started <= done
    requires NextWave(g, started, done, cur, next)
    requires DegreesOf(g, done + {node}, degrees)
    requires Distinct(added)
    requires forall v :: v in added <==> v in adj[node] && v < |g| && degrees[v] == 0
    ensures NextWave(g, started, done + {node}, cur, next + added)
  {
    forall v: nat
      ensures v in added <==> v < |g| && node in g[v] && Ready(g, v, done + {node})
      ensures v in added ==> v !in started && v !in cur && v !in next
    {
      if v < |g| {
        WaitingZero(g[v], done + {node});
        assert Count(adj[node], v) == Count(g[v], node);
        assert v in adj[node] <==> Count(adj[node], v) > 0;
      }
    }
    DistinctConcat(next, added);
    forall v: nat
      ensures v in next + added <==> v < |g| && v !in started && v !in cur && Ready(g, v, done + {node})
    {
    }
  }

  // ------------------------------------------------------- schedule lemmas

  lemma AppendWave(g: Graph, waves: seq<seq<nat>>, wave: seq<nat>)
    requires PartialSchedule(g, waves) && wave != []
    requires Frontier(g, Started(waves, |g|), wave)
    requires waves != [] ==> forall v :: v in wave ==> exists u :: u in g[v] && u in waves[|waves| - 1]
    ensures PartialSchedule(g, waves + [wave])
    ensures Started(waves + [wave], |g|) == Started(waves, |g|) + Elements(wave)
  {
    var waves' := waves + [wave];
    AppendMember(waves, wave);
    forall k: nat, v: nat | InWave(waves', k, v)
      ensures WellPlaced(g, waves', k, v)
    {
      if k == |waves| {
        AppendNew(g, waves, wave, v);
      } else {
        assert WellPlaced(g, waves, k, v);
        AppendOld(g, waves, wave, k, v);
      }
    }
    assert forall v: nat :: v in wave ==> !Placed(waves, v);
    forall v: nat | v < |g|
      ensures Placed(waves', v) <==> Placed(waves, v) || v in wave
    {
      if v in wave { assert InWave(waves', |waves|, v); }
      if Placed(waves, v) {
        var k: nat :| InWave(waves, k, v);
        assert InWave(waves', k, v);
      }
    }
  }

  lemma AppendMember(waves: seq<seq<nat>>, wave: seq<nat>)
    ensures forall k: nat, v: nat :: InWave(waves + [wave], k, v) <==>
        InWave(waves, k, v) || (k == |waves| && v in wave)
  {
  }

  lemma AppendOld(g: Graph, waves: seq<seq<nat>>, wave: seq<nat>, k: nat, v: nat)
    requires k < |waves| && WellPlaced(g, waves, k, v)
    ensures WellPlaced(g, waves + [wave], k, v)
  {
    forall u: nat | u in g[v]
      ensures exists j: nat :: j < k && InWave(waves + [wave], j, u)
    {
      var j: nat :| j < k && InWave(waves, j, u);
      assert InWave(waves + [wave], j, u);
    }
    if k > 0 {
      var u: nat :| u in g[v] && InWave(waves, k - 1, u);
      assert InWave(waves + [wave], k - 1, u);
    }
  }

  lemma AppendNew(g: Graph, waves: seq<seq<nat>>, wave: seq<nat>, v: nat)
    requires v < |g| && Ready(g, v, Started(waves, |g|))
    requires waves != [] ==> exists u :: u in g[v] && u in waves[|waves| - 1]
    ensures WellPlaced(g, waves + [wave], |waves|, v)
  {
    forall u: nat | u in g[v]
      ensures exists j: nat :: j < |waves| && InWave(waves + [wave], j, u)
    {
      assert u in Started(waves, |g|);
      var j: nat :| InWave(waves, j, u);
      assert InWave(waves + [wave], j, u);
    }
    if waves != [] {
      var u :| u in g[v] && u in waves[|waves| - 1];
      assert InWave(waves + [wave], |waves| - 1, u);
    }
  }

  lemma StartedClosed(g: Graph, waves: seq<seq<nat>>)
    requires PartialSchedule(g, waves)
    ensures Closed(g, Started(waves, |g|))
  {
    forall v, u: nat | v in Started(waves, |g|) && u in g[v]
      ensures u in Started(waves, |g|)
    {
      var k: nat :| InWave(waves, k, v);
      assert WellPlaced(g, waves, k, v);
      var j: nat :| j < k && InWave(waves, j, u);
    }
  }

  /** Along a chain that ends in wave k, everything before the end was started in an earlier wave. */
  lemma {:induction false} ChainLevels(g: Graph, waves: seq<seq<nat>>, p: seq<nat>, k: nat, i: nat)
    requires PartialSchedule(g, waves) && Chain(g, p) && i < |p| && InWave(waves, k, p[|p| - 1])
    ensures exists j: nat :: InWave(waves, j, p[i]) && (i < |p| - 1 ==> j < k)
    decreases |p| - i
  {
    if i < |p| - 1 {
      ChainLevels(g, waves, p, k, i + 1);
      var j: nat :| InWave(waves, j, p[i + 1]) && (i + 1 < |p| - 1 ==> j < k);
      assert i + 1 == |p| - 1 ==> j == k;
      assert WellPlaced(g, waves, j, p[i + 1]) && p[i] in g[p[i + 1]];
      var j': nat :| j' < j && InWave(waves, j', p[i]);
    }
  }

  lemma PlacedNotBlocked(g: Graph, waves: seq<seq<nat>>, v: nat)
    requires PartialSchedule(g, waves) && Placed(waves, v)
    ensures !Blocked(g, v)
  {
    if Blocked(g, v) {
      var p: seq<nat>, i: nat :| BlockedVia(g, v, p, i);
      var c := p[..i + 1];
      var k: nat :| InWave(waves, k, v);
      ChainLevels(g, waves, p, k, i);
      var top: nat :| InWave(waves, top, p[i]);
      assert c[|c| - 1] == p[i];
      ChainLevels(g, waves, c, top, 0);
      assert false;
    }
  }

  ghost function Below(n: nat): (r: set<nat>)
    ensures |r| == n && forall x: nat :: x in r <==> x < n
  {
    if n == 0 then {} else Below(n - 1) + {n - 1}
  }

  lemma {:induction false} DistinctSize(s: seq<nat>)
    requires Distinct(s)
    ensures |Elements(s)| == |s|
  {
    if s != [] {
      var last := |s| - 1;
      DistinctSize(s[..last]);
      assert s == s[..last] + [s[last]];
      assert Elements(s) == Elements(s[..last]) + {s[last]};
    }
  }

  lemma SubsetSize(a: set<nat>, b: set<nat>)
    requires a <= b
    ensures |a| <= |b|
    ensures |a| == |b| ==> a == b
    ensures |a| != |b| ==> b - a != {}
  {
    assert b == a + (b - a);
    assert |b| == |a| + |b - a|;
  }

  lemma Pigeonhole(p: seq<nat>, n: nat) returns (i: nat, j: nat)
    requires |p| > n && forall x :: x in p ==> x < n
    ensures i < j < |p| && p[i] == p[j]
  {
    if Distinct(p) {
      DistinctSize(p);
      SubsetSize(Elements(p), Below(n));
      assert false;
    }
    i, j :| 0 <= i < j < |p| && p[i] == p[j];
  }

  ghost predicate WaitsWithin(g: Graph, stuck: set<nat>, w: nat) {
    w < |g| && exists u :: u in g[w] && u in stuck
  }

  ghost predicate AllWait(g: Graph, stuck: set<nat>) {
    forall w {:trigger WaitsWithin(g, stuck, w)} :: w in stuck ==> WaitsWithin(g, stuck, w)
  }

  /** Where every unplaced node waits for an unplaced one, there are unplaced chains of any length. */
  lemma {:induction false} BackChain(g: Graph, stuck: set<nat>, v: nat, len: nat) returns (p: seq<nat>)
    requires v in stuck && len > 0
    requires AllWait(g, stuck)
    ensures |p| == len && p[len - 1] == v && Chain(g, p) && forall x :: x in p ==> x in stuck
    decreases len
  {
    assert WaitsWithin(g, stuck, v);
    if len == 1 {
      p := [v];
    } else {
      var u :| u in g[v] && u in stuck;
      var q := BackChain(g, stuck, u, len - 1);
      p := q + [v];
    }
  }

  lemma StuckIsBlocked(g: Graph, stuck: set<nat>, v: nat)
    requires v in stuck
    requires AllWait(g, stuck)
    ensures Blocked(g, v)
  {
    var p := BackChain(g, stuck, v, |g| + 1);
    forall x | x in p ensures x < |g| { assert WaitsWithin(g, stuck, x); }
    var i, j := Pigeonhole(p, |g|);
    var q := p[i..];
    var c := q[..j - i + 1];
    assert Chain(g, q) && Cycle(g, c);
    assert BlockedVia(g, v, q, j - i);
  }

  lemma CycleBlocks(g: Graph, c: seq<nat>)
    requires Cycle(g, c)
    ensures Blocked(g, c[0])
  {
    assert c[..|c| - 1 + 1] == c;
    assert BlockedVia(g, c[0], c, |c| - 1);
  }

  // ------------------------------------------------------------ wave_sort

  /** The initial queue: nodes of degree zero, in index order. */
  method ZeroDegree(degrees: array<nat>) returns (queue: seq<nat>)
    ensures Distinct(queue)
    ensures forall v: nat :: v in queue <==> v < degrees.Length && degrees[v] == 0
  {
    queue := [];
    for i := 0 to degrees.Length
      invariant Distinct(queue)
      invariant forall v: nat :: v in queue <==> v < i && degrees[v] == 0
    {
      if degrees[i] == 0 { queue := queue + [i]; }
    }
  }

  method PositiveDegree(degrees: array<nat>) returns (unresolved: seq<nat>)
    ensures forall i, j :: 0 <= i < j < |unresolved| ==> unresolved[i] < unresolved[j]
    ensures forall v: nat :: v in unresolved <==> v < degrees.Length && degrees[v] > 0
  {
    unresolved := [];
    for i := 0 to degrees.Length
      invariant forall a, b :: 0 <= a < b < |unresolved| ==> unresolved[a] < unresolved[b]
      invariant forall a :: 0 <= a < |unresolved| ==> unresolved[a] < i
      invariant forall v: nat :: v in unresolved <==> v < i && degrees[v] > 0
    {
      if degrees[i] > 0 { unresolved := unresolved + [i]; }
    }
  }

  /** The queue only holds services that wait for the last wave. */
  ghost predicate Follows(g: Graph, waves: seq<seq<nat>>, queue: seq<nat>) {
    waves != [] ==> forall v :: v in queue ==> v < |g| && exists u :: u in g[v] && u in waves[|waves| - 1]
  }

  ghost predicate LoopInvariant(g: Graph, waves: seq<seq<nat>>, queue: seq<nat>, degrees: seq<nat>) {
    && PartialSchedule(g, waves)
    && Frontier(g, Started(waves, |g|), queue)
    && DegreesOf(g, Started(waves, |g|), degrees)
    && Follows(g, waves, queue)
  }

  method NextLevel(g: Graph, adj: seq<seq<nat>>, degrees: array<nat>, waves: seq<seq<nat>>, cur: seq<nat>,
      ghost full: seq<nat>)
    returns (wave: seq<nat>, queue: seq<nat>)
    requires Built(g, adj, full) && cur != []
    requires LoopInvariant(g, waves, cur, degrees[..])
    modifies degrees
    ensures wave == cur && LoopInvariant(g, waves + [wave], queue, degrees[..])
    ensures |Started(waves + [wave], |g|)| == |Started(waves, |g|)| + |wave| <= |g|
  {
    StartedClosed(g, waves);
    AppendWave(g, waves, cur);
    CountWave(g, Started(waves, |g|), cur);
    wave, queue := RunWave(g, adj, degrees, cur, Started(waves, |g|), full);
    WaveEnds(g, Started(waves, |g|), cur, queue);
    assert (waves + [wave])[|waves|] == cur;
  }

  /** Kahn's loop: a wave is whatever the queue holds when the wave begins. */
  method KahnLoop(g: Graph, adj: seq<seq<nat>>, degrees: array<nat>, initial: seq<nat>, ghost full: seq<nat>)
    returns (waves: seq<seq<nat>>, visited: nat)
    requires Built(g, adj, full)
    requires Frontier(g, {}, initial) && DegreesOf(g, {}, degrees[..])
    modifies degrees
    ensures LoopInvariant(g, waves, [], degrees[..])
    ensures visited == |Started(waves, |g|)|
  {
    var queue := initial;
    waves := [];
    visited := 0;
    assert Started(waves, |g|) == {};
    while queue != []
      invariant LoopInvariant(g, waves, queue, degrees[..])
      invariant visited == |Started(waves, |g|)| <= |g|
      decreases |g| - visited
    {
      var wave;
      wave, queue := NextLevel(g, adj, degrees, waves, queue, full);
      visited := visited + |wave|;
      waves := waves + [wave];
    }
  }

  /** The error names exactly the services on a cycle or downstream of one, in configuration order. */
  ghost predicate ReportsBlocked(g: Graph, unresolved: seq<nat>) {
    && unresolved != []
    && (forall i, j :: 0 <= i < j < |unresolved| ==> unresolved[i] < unresolved[j])
    && (forall v: nat :: v in unresolved <==> v < |g| && Blocked(g, v))
  }

  /** Every service once, after everything it waits for, and right after something it waits for. */
  ghost predicate StartsInOrder(services: seq<Service>, waves: seq<seq<nat>>) {
    && (forall v: nat :: v < |services| <==> Placed(waves, v))
    && (forall k :: 0 <= k < |waves| ==> waves[k] != [] && Distinct(waves[k]))
    && (forall j: nat, k: nat, v: nat :: InWave(waves, j, v) && InWave(waves, k, v) ==> j == k)
    && (forall k: nat, v: nat, u: nat :: InWave(waves, k, v) && WaitsFor(services, v, u) ==> EarlierThan(waves, k, u))
    && (forall k: nat, v: nat :: InWave(waves, k, v) && k > 0 ==> WaitsForWave(services, v, waves, k - 1))
  }

  ghost predicate EarlierThan(waves: seq<seq<nat>>, k: nat, u: nat) {
    exists j: nat :: j < k && InWave(waves, j, u)
  }

  ghost predicate WaitsForWave(services: seq<Service>, v: nat, waves: seq<seq<nat>>, k: nat) {
    exists u: nat :: WaitsFor(services, v, u) && InWave(waves, k, u)
  }

  /** Each service of p is waited for by the next. */
  ghost predicate WaitChain(services: seq<Service>, p: seq<nat>) {
    && (forall i :: 0 <= i < |p| ==> p[i] < |services|)
    && (forall i :: 0 <= i < |p| - 1 ==> WaitsFor(services, p[i + 1], p[i]))
  }

  /** Services that wait for each other in a circle. */
  ghost predicate WaitCycle(services: seq<Service>, c: seq<nat>) {
    |c| >= 2 && WaitChain(services, c) && c[0] == c[|c| - 1]
  }

  /** p leads from a circle of waits, its first i + 1 services, to v. */
  ghost predicate LeadsTo(services: seq<Service>, p: seq<nat>, i: nat, v: nat) {
    WaitChain(services, p) && 1 <= i < |p| && WaitCycle(services, p[..i + 1]) && p[|p| - 1] == v
  }

  lemma ChainByNames(services: seq<Service>, p: seq<nat>)
    ensures Chain(DependencyGraph(services), p) <==> WaitChain(services, p)
  {
    hide DependencyGraph, WaitsFor;
    var g := DependencyGraph(services);
    forall i | 0 <= i < |p| - 1 && p[i + 1] < |services|
      ensures p[i] in g[p[i + 1]] <==> WaitsFor(services, p[i + 1], p[i])
    {
      EdgesAreWaits(services, p[i + 1], p[i]);
    }
  }

  lemma BlockedByNames(services: seq<Service>, v: nat)
    ensures Blocked(DependencyGraph(services), v) <==> exists p: seq<nat>, i: nat :: LeadsTo(services, p, i, v)
  {
    hide Chain, WaitChain;
    var g := DependencyGraph(services);
    forall p: seq<nat>, i: nat ensures BlockedVia(g, v, p, i) <==> LeadsTo(services, p, i, v) {
      ChainByNames(services, p);
      if i < |p| { ChainByNames(services, p[..i + 1]); }
    }
  }

  lemma CyclesByNames(services: seq<Service>)
    ensures (exists c :: Cycle(DependencyGraph(services), c)) <==> (exists c :: WaitCycle(services, c))
  {
    hide Chain, WaitChain;
    forall c ensures Cycle(DependencyGraph(services), c) <==> WaitCycle(services, c) { ChainByNames(services, c); }
  }

  /** A schedule of the graph is a start order of the services. */
  lemma ScheduleByNames(services: seq<Service>, waves: seq<seq<nat>>)
    requires IsSchedule(DependencyGraph(services), waves)
    ensures StartsInOrder(services, waves)
  {
    hide DependencyGraph, WaitsFor;
    var g := DependencyGraph(services);
    forall v: nat, u: nat | v < |services| ensures u in g[v] <==> WaitsFor(services, v, u) {
      EdgesAreWaits(services, v, u);
    }
    forall k: nat, v: nat | InWave(waves, k, v) ensures v < |services| && WellPlaced(g, waves, k, v) {
      assert WellPlaced(g, waves, k, v);
    }
    forall k: nat, v: nat, u: nat | InWave(waves, k, v) && WaitsFor(services, v, u) ensures EarlierThan(waves, k, u) {
      assert WellPlaced(g, waves, k, v) && u in g[v];
    }
    forall k: nat, v: nat | InWave(waves, k, v) && k > 0 ensures WaitsForWave(services, v, waves, k - 1) {
      assert WellPlaced(g, waves, k, v);
      var u: nat :| u in g[v] && InWave(waves, k - 1, u);
      assert WaitsFor(services, v, u);
    }
  }

  method WaveSort(services: seq<Service>) returns (r: Outcome)
    ensures r.Waves? ==> StartsInOrder(services, r.waves)
    ensures r.Circular? <==> exists c :: WaitCycle(services, c)
    ensures r.Circular? ==> r.unresolved != []
    ensures r.Circular? ==> forall i, j :: 0 <= i < j < |r.unresolved| ==> r.unresolved[i] < r.unresolved[j]
    ensures r.Circular? ==> forall v: nat :: v in r.unresolved <==>
              v < |services| && exists p: seq<nat>, i: nat :: LeadsTo(services, p, i, v)
  {
    r := SortGraph(services);
    if r.Waves? { ScheduleByNames(services, r.waves); }
    CyclesByNames(services);
    forall v: nat
      ensures Blocked(DependencyGraph(services), v) <==> exists p: seq<nat>, i: nat :: LeadsTo(services, p, i, v)
    {
      BlockedByNames(services, v);
    }
    hide Blocked, StartsInOrder, IsSchedule, Cycle, LeadsTo, WaitCycle;
  }

  /** The same over the graph of waits. */
  method SortGraph(services: seq<Service>) returns (r: Outcome)
    ensures r.Waves? ==> IsSchedule(DependencyGraph(services), r.waves)
    ensures r.Circular? <==> exists c :: Cycle(DependencyGraph(services), c)
    ensures r.Circular? ==> ReportsBlocked(DependencyGraph(services), r.unresolved)
  {
    var g := DependencyGraph(services);
    if services == [] {
      return Waves([]);
    }
    var adjArray, degrees := BuildEdges(g);
    var queue := ZeroDegree(degrees);
    InitialFrontier(g, degrees[..], queue);
    var waves, visited := KahnLoop(g, adjArray[..], degrees, queue, degrees[..]);
    Finished(g, waves, degrees[..]);
    if visited != |services| {
      var unresolved := PositiveDegree(degrees);
      r := Circular(unresolved);
    } else {
      r := Waves(waves);
    }
  }

  lemma InitialFrontier(g: Graph, degrees: seq<nat>, queue: seq<nat>)
    requires |degrees| == |g| && forall v :: 0 <= v < |g| ==> degrees[v] == |g[v]|
    requires Distinct(queue) && forall v: nat :: v in queue <==> v < |g| && degrees[v] == 0
    ensures Frontier(g, {}, queue) && DegreesOf(g, {}, degrees)
  {
    forall v: nat | v < |g|
      ensures degrees[v] == Waiting(g[v], {}) && (degrees[v] == 0 <==> Ready(g, v, {}))
    {
      WaitingNone(g[v]);
      WaitingZero(g[v], {});
    }
  }

  lemma CountWave(g: Graph, started: set<nat>, cur: seq<nat>)
    requires Frontier(g, started, cur) && forall v :: v in started ==> v < |g|
    ensures |started + Elements(cur)| == |started| + |cur| <= |g|
  {
    DistinctSize(cur);
    assert started !! Elements(cur);
    SubsetSize(started + Elements(cur), Below(|g|));
  }

  /** When the queue is empty, an unplaced service waits for an unplaced one. */
  lemma StuckWait(g: Graph, started: set<nat>, stuck: set<nat>)
    requires Frontier(g, started, []) && stuck == Below(|g|) - started
    ensures AllWait(g, stuck)
  {
    forall w | w in stuck ensures WaitsWithin(g, stuck, w) {
      assert w !in [] && !Ready(g, w, started);
      var u :| u in g[w] && u !in started;
      assert u in stuck;
    }
  }

  /** When the queue is empty: what is unplaced is what has a positive degree, and what is blocked. */
  lemma FinishedNode(g: Graph, waves: seq<seq<nat>>, degrees: seq<nat>, v: nat)
    requires LoopInvariant(g, waves, [], degrees) && v < |g|
    ensures degrees[v] > 0 <==> Blocked(g, v)
    ensures v in Started(waves, |g|) <==> !Blocked(g, v)
  {
    var started := Started(waves, |g|);
    WaitingZero(g[v], started);
    if v in started {
      StartedClosed(g, waves);
      assert Ready(g, v, started);
      PlacedNotBlocked(g, waves, v);
    } else {
      assert v !in [] && !Ready(g, v, started);
      var stuck := Below(|g|) - started;
      StuckWait(g, started, stuck);
      StuckIsBlocked(g, stuck, v);
    }
  }

  lemma Finished(g: Graph, waves: seq<seq<nat>>, degrees: seq<nat>)
    requires LoopInvariant(g, waves, [], degrees)
    ensures forall v: nat :: v < |g| ==> (degrees[v] > 0 <==> Blocked(g, v))
    ensures |Started(waves, |g|)| == |g| ==> IsSchedule(g, waves) && forall c :: !Cycle(g, c)
    ensures |Started(waves, |g|)| != |g| ==> (exists c :: Cycle(g, c)) && exists v: nat :: v < |g| && degrees[v] > 0
  {
    forall v: nat | v < |g| ensures degrees[v] > 0 <==> Blocked(g, v) { FinishedNode(g, waves, degrees, v); }
    var started := Started(waves, |g|);
    SubsetSize(started, Below(|g|));
    if |started| == |g| {
      forall v: nat | v < |g| ensures Placed(waves, v) { assert v in Below(|g|); }
      forall c ensures !Cycle(g, c) { NoCycle(g, waves, c); }
    } else {
      var v: nat :| v in Below(|g|) - started;
      FinishedNode(g, waves, degrees, v);
      BlockedHasCycle(g, v);
    }
  }

  lemma BlockedHasCycle(g: Graph, v: nat)
    requires Blocked(g, v)
    ensures exists c :: Cycle(g, c)
  {
    var p: seq<nat>, i: nat :| BlockedVia(g, v, p, i);
  }

  lemma NoCycle(g: Graph, waves: seq<seq<nat>>, c: seq<nat>)
    requires IsSchedule(g, waves)
    ensures !Cycle(g, c)
  {
    if Cycle(g, c) {
      CycleBlocks(g, c);
      PlacedNotBlocked(g, waves, c[0]);
    }
  }

  // ----------------------------------------------------------- consequences

  /** The waves are forced: two schedules of one graph put every service in the same wave. */
  lemma {:induction false} SchedulesAgree(g: Graph, a: seq<seq<nat>>, b: seq<seq<nat>>, k: nat, l: nat, v: nat)
    requires PartialSchedule(g, a) && PartialSchedule(g, b)
    requires InWave(a, k, v) && InWave(b, l, v)
    ensures k == l
    decreases k + l
  {
    assert WellPlaced(g, a, k, v) && WellPlaced(g, b, l, v);
    if k > 0 {
      var u: nat :| u in g[v] && InWave(a, k - 1, u);
      var j: nat :| j < l && InWave(b, j, u);
      SchedulesAgree(g, a, b, k - 1, j, u);
    }
    if l > 0 {
      var u: nat :| u in g[v] && InWave(b, l - 1, u);
      var j: nat :| j < k && InWave(a, j, u);
      SchedulesAgree(g, a, b, j, l - 1, u);
    }
  }

  /** The wave of a service is the length of its longest dependency chain: no chain is longer ... */
  lemma LongestChainUpper(g: Graph, waves: seq<seq<nat>>, p: seq<nat>, k: nat)
    requires PartialSchedule(g, waves) && Chain(g, p) && |p| > 0 && InWave(waves, k, p[|p| - 1])
    ensures |p| - 1 <= k
    decreases |p|
  {
    if |p| > 1 {
      var q := p[..|p| - 1];
      assert p[|p| - 2] in g[p[|p| - 1]] && q[|q| - 1] == p[|p| - 2];
      assert WellPlaced(g, waves, k, p[|p| - 1]);
      var j: nat :| j < k && InWave(waves, j, p[|p| - 2]);
      LongestChainUpper(g, waves, q, j);
    }
  }

  /** ... and one of that length exists. */
  lemma {:induction false} LongestChainExists(g: Graph, waves: seq<seq<nat>>, k: nat, v: nat) returns (p: seq<nat>)
    requires PartialSchedule(g, waves) && InWave(waves, k, v)
    ensures Chain(g, p) && |p| == k + 1 && p[k] == v
    decreases k
  {
    assert WellPlaced(g, waves, k, v);
    if k == 0 {
      p := [v];
    } else {
      var u: nat :| u in g[v] && InWave(waves, k - 1, u);
      var q := LongestChainExists(g, waves, k - 1, u);
      p := q + [v];
    }
  }

  // ------------------------------------------------- what the error text promises

  ghost predicate OnCycle(g: Graph, v: nat) {
    exists c :: Cycle(g, c) && c[0] == v
  }

  /** Only services on a cycle wait for services on a cycle. */
  ghost predicate CyclesClosed(g: Graph) {
    forall v: nat, u: nat :: v < |g| && u in g[v] && OnCycle(g, u) ==> OnCycle(g, v)
  }

  lemma WaiterBlocked(g: Graph, u: nat, v: nat)
    requires v < |g| && u in g[v] && OnCycle(g, u)
    ensures Blocked(g, v)
  {
    var c :| Cycle(g, c) && c[0] == u;
    var p := c + [v];
    assert p[..|c| - 1 + 1] == c;
    assert Chain(g, p);
    assert BlockedVia(g, v, p, |c| - 1);
  }

  lemma {:induction false} CycleSpreads(g: Graph, p: seq<nat>, i: nat, j: nat)
    requires CyclesClosed(g) && Chain(g, p) && i <= j < |p| && OnCycle(g, p[i])
    ensures OnCycle(g, p[j])
    decreases j
  {
    if i < j {
      CycleSpreads(g, p, i, j - 1);
      assert p[j - 1] in g[p[j]];
    }
  }

  lemma BlockedOnCycle(g: Graph, v: nat)
    requires CyclesClosed(g) && Blocked(g, v)
    ensures OnCycle(g, v)
  {
    var p: seq<nat>, i: nat :| BlockedVia(g, v, p, i);
    var c := p[..i + 1];
    assert Cycle(g, c) && c[0] == p[i];
    CycleSpreads(g, p, i, |p| - 1);
  }

  /** "Services that form a cycle" is true of the reported list exactly when only such services wait for such
      services. */
  lemma ReportIsCyclesExactly(g: Graph, unresolved: seq<nat>)
    requires forall v: nat :: v in unresolved <==> v < |g| && Blocked(g, v)
    ensures (forall v: nat :: v in unresolved ==> OnCycle(g, v)) <==> CyclesClosed(g)
  {
    hide Blocked, OnCycle;
    if CyclesClosed(g) {
      forall v: nat | v in unresolved ensures OnCycle(g, v) { BlockedOnCycle(g, v); }
    } else {
      var v: nat, u: nat :| v < |g| && u in g[v] && OnCycle(g, u) && !OnCycle(g, v);
      WaiterBlocked(g, u, v);
    }
  }

  /** A service that waits for one that waits for itself: it is reported, and on no cycle. */
  lemma DownstreamIsReported()
    ensures var g := DependencyGraph([Service("a", ["a"], []), Service("b", ["a"], [])]);
            |g| == 2 && Blocked(g, 1) && !OnCycle(g, 1)
  {
    var services := [Service("a", ["a"], []), Service("b", ["a"], [])];
    var g := DependencyGraph(services);
    TwoNames(services[0], services[1]);
    assert services[0].after + services[0].dependencies == ["a"];
    assert services[1].after + services[1].dependencies == ["a"];
    assert Resolve(["a"], NameIndex(services)) == [0] by { assert ["a"][1..] == []; }
    assert g[0] == [0] && g[1] == [0];
    assert Cycle(g, [0, 0]) && [0, 0][0] == 0;
    WaiterBlocked(g, 0, 1);
    NobodyWaits(g, 1);
  }

  lemma NobodyWaits(g: Graph, v: nat)
    requires forall w :: 0 <= w < |g| ==> v !in g[w]
    ensures !OnCycle(g, v)
  {
    forall c | Cycle(g, c) ensures c[0] != v { assert c[0] in g[c[1]]; }
  }

  lemma TwoNames(a: Service, b: Service)
    ensures NameIndex([a, b]) == map[a.name := 0][b.name := 1]
  {
    assert [a, b][..1] == [a] && [a][..0] == [];
    assert NameIndex([a]) == map[a.name := 0];
  }
}
