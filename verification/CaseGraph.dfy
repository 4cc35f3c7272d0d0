/** Dependency checks of the acceptance catalog: a three-colour depth-first search. */
module CaseGraph {
  import opened Outcomes

  datatype Case = Case(id: string, dependencies: seq<string>)

  type Graph = map<string, seq<string>>

  datatype GraphError =
    | DuplicateId
    | UnknownDependency(id: string, dependency: string)
    | SelfDependency(id: string)
    | Cycle(id: string)

  datatype Colour = Grey | Black

  // ---------------------------------------------------------------- the graph-theoretic notions

  predicate Edge(g: Graph, a: string, b: string) {
    a in g && b in g[a]
  }

  /** A walk along at least one edge. */
  ghost predicate IsWalk(g: Graph, walk: seq<string>) {
    |walk| >= 2 && forall i :: 0 <= i < |walk| - 1 ==> Edge(g, walk[i], walk[i + 1])
  }

  ghost predicate IsCycle(g: Graph, walk: seq<string>) {
    IsWalk(g, walk) && walk[0] == walk[|walk| - 1]
  }

  ghost predicate Acyclic(g: Graph) {
    forall walk :: !IsCycle(g, walk)
  }

  /** A ranking under which every edge goes down. */
  ghost predicate Ranks(g: Graph, rank: map<string, nat>, nodes: set<string>) {
    && nodes <= rank.Keys
    && forall a, b :: a in nodes && Edge(g, a, b) ==> b in nodes && rank[b] < rank[a]
  }

  lemma {:induction false} WalkDescends(g: Graph, rank: map<string, nat>, nodes: set<string>, walk: seq<string>)
    requires Ranks(g, rank, nodes) && IsWalk(g, walk) && walk[0] in nodes
    ensures walk[|walk| - 1] in nodes && rank[walk[|walk| - 1]] < rank[walk[0]]
  {
    var n := |walk| - 1;
    if n > 1 {
      WalkDescends(g, rank, nodes, walk[..n]);
    }
    assert Edge(g, walk[n - 1], walk[n]);
  }

  lemma RankedIsAcyclic(g: Graph, rank: map<string, nat>)
    requires Ranks(g, rank, g.Keys)
    ensures Acyclic(g)
  {
    forall walk | IsWalk(g, walk)
      ensures walk[0] != walk[|walk| - 1]
    {
      assert Edge(g, walk[0], walk[1]);
      WalkDescends(g, rank, g.Keys, walk);
    }
  }

  // ---------------------------------------------------------------- the search

  function Greys(state: map<string, Colour>): set<string> {
    set n | n in state && state[n] == Grey
  }

  function Blacks(state: map<string, Colour>): set<string> {
    set n | n in state && state[n] == Black
  }

  /** The nodes being visited form a walk, each depending on the next. */
  ghost predicate IsStack(g: Graph, state: map<string, Colour>, stack: seq<string>) {
    && (forall i :: 0 <= i < |stack| ==> stack[i] in g)
    && (forall n :: n in stack <==> n in Greys(state))
    && (forall i :: 0 <= i < |stack| - 1 ==> Edge(g, stack[i], stack[i + 1]))
  }

  /** A node to visit is a neighbour of the innermost grey one. */
  ghost predicate Next(g: Graph, stack: seq<string>, node: string) {
    stack != [] ==> Edge(g, stack[|stack| - 1], node)
  }

  ghost predicate Closed(g: Graph) {
    forall a, b :: Edge(g, a, b) ==> b in g
  }

  /** What a visit keeps: finished nodes stay finished, and what is grey stays grey. */
  ghost predicate Advances(before: map<string, Colour>, after: map<string, Colour>) {
    Greys(after) == Greys(before) && Blacks(before) <= Blacks(after)
  }

  class Search {
    const graph: Graph
    var state: map<string, Colour>
    ghost var rank: map<string, nat>

    /** Finished nodes are closed under dependencies, and ranked above them. */
    ghost predicate Valid()
      reads this
    {
      && Closed(graph)
      && state.Keys <= graph.Keys
      && Ranks(graph, rank, Blacks(state))
    }

    constructor (graph: Graph)
      requires Closed(graph)
      ensures Valid() && this.graph == graph && state == map[]
    {
      this.graph := graph;
      state, rank := map[], map[];
    }

    method Visit(node: string, ghost stack: seq<string>) returns (r: Result<(), GraphError>)
      requires Valid() && node in graph && IsStack(graph, state, stack) && Next(graph, stack, node)
      modifies this
      ensures r.Ok? ==> Valid() && node in Blacks(state) && Advances(old(state), state)
      ensures r.Err? ==> r.error.Cycle? && exists walk :: IsCycle(graph, walk) && walk[0] == r.error.id
      decreases |graph.Keys - state.Keys|, 1
    {
      hide Ranks, IsStack, Next, Edge, Greys, Blacks, Closed, Advances, Finished, IsCycle;
      ColoursOf(state, node);
      if node in state && state[node] == Black {
        return Ok(());
      }
      if node in state && state[node] == Grey {
        GreyCloses(graph, state, stack, node);
        return Err(Cycle(node));
      }
      ghost var before := state;
      state := state[node := Grey];
      PushGrey(graph, before, stack, node);
      KeysLeft(graph.Keys, before.Keys, state.Keys);
      r := VisitChildren(node, stack + [node]);
      if r.Err? {
        return;
      }
      Finish(graph, rank, before, state, node);
      state := state[node := Black];
      rank := rank[node := Above(rank)];
    }

    /** Visits the dependencies of the innermost grey node in turn. */
    method VisitChildren(node: string, ghost stack: seq<string>) returns (r: Result<(), GraphError>)
      requires Valid() && node in graph && IsStack(graph, state, stack)
      requires stack != [] && stack[|stack| - 1] == node
      modifies this
      ensures r.Ok? ==> Valid() && Finished(state, graph[node], |graph[node]|) && Advances(old(state), state)
      ensures r.Err? ==> r.error.Cycle? && exists walk :: IsCycle(graph, walk) && walk[0] == r.error.id
      decreases |graph.Keys - state.Keys|, 2
    {
      hide Ranks, IsStack, Next, Edge, Greys, Blacks, Closed, Advances, Finished, IsCycle;
      ghost var before := state;
      var children := graph[node];
      NoneFinished(state, children);
      var k := 0;
      while k < |children|
        invariant k <= |children| && Valid()
        invariant Advances(before, state) && Finished(state, children, k)
        decreases |children| - k
      {
        ChildNext(graph, stack, node, k);
        SameGreys(graph, before, state, stack);
        ghost var mid := state;
        var visited := Visit(children[k], stack);
        if visited.Err? {
          return visited;
        }
        AfterChild(before, mid, state, children, k);
        k := k + 1;
      }
      return Ok(());
    }

    method VisitAll(order: seq<string>) returns (r: Result<(), GraphError>)
      requires Valid() && state == map[] && (forall i :: 0 <= i < |order| ==> order[i] in graph)
      requires forall n :: n in graph ==> n in order
      modifies this
      ensures r.Ok? <==> Acyclic(graph)
      ensures r.Err? ==> r.error.Cycle? && exists walk :: IsCycle(graph, walk) && walk[0] == r.error.id
    {
      var i := 0;
      while i < |order|
        invariant i <= |order| && Valid() && Greys(state) == {}
        invariant forall j :: 0 <= j < i ==> order[j] in Blacks(state)
        decreases |order| - i
      {
        var visited := Visit(order[i], []);
        if visited.Err? {
          return visited;
        }
        i := i + 1;
      }
      AllBlack(graph, rank, state, order);
      return Ok(());
    }
  }

  lemma ColoursOf(state: map<string, Colour>, node: string)
    ensures node in Blacks(state) <==> node in state && state[node] == Black
    ensures node in Greys(state) <==> node in state && state[node] == Grey
    ensures Advances(state, state)
  {
  }

  /** The first k children are black. */
  ghost predicate Finished(state: map<string, Colour>, children: seq<string>, k: nat) {
    k <= |children| && forall j :: 0 <= j < k ==> children[j] in Blacks(state)
  }

  lemma NoneFinished(state: map<string, Colour>, children: seq<string>)
    ensures Finished(state, children, 0) && Advances(state, state)
  {
  }

  lemma AfterChild(before: map<string, Colour>, mid: map<string, Colour>, after: map<string, Colour>,
                   children: seq<string>, k: nat)
    requires Advances(before, mid) && Advances(mid, after)
    requires Finished(mid, children, k) && k < |children| && children[k] in Blacks(after)
    ensures Advances(before, after) && Finished(after, children, k + 1)
  {
  }

  /** Meeting a grey node closes the walk on the stack to a cycle. */
  lemma GreyCloses(g: Graph, state: map<string, Colour>, stack: seq<string>, node: string)
    requires IsStack(g, state, stack) && Next(g, stack, node) && node in Greys(state)
    ensures exists walk :: IsCycle(g, walk) && walk[0] == node
  {
    assert node in stack;
    var i :| 0 <= i < |stack| && stack[i] == node;
    CloseWalk(g, state, stack, i, node);
    assert (stack[i..] + [node])[0] == node;
  }

  lemma ChildNext(g: Graph, stack: seq<string>, node: string, k: nat)
    requires Closed(g) && node in g && k < |g[node]| && stack != [] && stack[|stack| - 1] == node
    ensures Next(g, stack, g[node][k]) && g[node][k] in g
  {
    assert Edge(g, node, g[node][k]);
  }

  /** A rank above all the others. */
  ghost function Above(rank: map<string, nat>): (r: nat)
    ensures forall n :: n in rank ==> rank[n] < r
  {
    if rank == map[] then 0
    else
      var n :| n in rank;
      var rest := rank - {n};
      var below := Above(rest);
      assert forall m :: m in rank ==> m == n || m in rest;
      if rank[n] < below then below else rank[n] + 1
  }

  lemma CloseWalk(g: Graph, state: map<string, Colour>, stack: seq<string>, i: nat, node: string)
    requires IsStack(g, state, stack) && i < |stack| && stack[i] == node && Next(g, stack, node)
    ensures IsCycle(g, stack[i..] + [node])
  {
    var walk := stack[i..] + [node];
    forall k | 0 <= k < |walk| - 1
      ensures Edge(g, walk[k], walk[k + 1])
    {
      if k < |walk| - 2 {
        assert walk[k] == stack[i + k] && walk[k + 1] == stack[i + k + 1];
      } else {
        assert walk[k] == stack[|stack| - 1];
      }
    }
  }

  lemma PushGrey(g: Graph, state: map<string, Colour>, stack: seq<string>, node: string)
    requires IsStack(g, state, stack) && Next(g, stack, node) && node in g && node !in state
    ensures IsStack(g, state[node := Grey], stack + [node])
    ensures Greys(state[node := Grey]) == Greys(state) + {node} && Blacks(state[node := Grey]) == Blacks(state)
  {
    var pushed, grown := state[node := Grey], stack + [node];
    assert Greys(pushed) == Greys(state) + {node};
    forall i | 0 <= i < |grown| - 1
      ensures Edge(g, grown[i], grown[i + 1])
    {
      assert i < |stack| - 1 ==> Edge(g, stack[i], stack[i + 1]);
    }
  }

  lemma SameGreys(g: Graph, state: map<string, Colour>, state': map<string, Colour>, stack: seq<string>)
    requires IsStack(g, state, stack) && Advances(state, state') && state'.Keys <= g.Keys
    ensures IsStack(g, state', stack)
    ensures |g.Keys - state'.Keys| <= |g.Keys - state.Keys|
  {
    SameStack(g, state, state', stack);
    AdvancedKeys(state, state');
    hide IsStack, Advances;
    if state.Keys != state'.Keys {
      KeysLeft(g.Keys, state.Keys, state'.Keys);
    }
  }

  lemma SameStack(g: Graph, state: map<string, Colour>, state': map<string, Colour>, stack: seq<string>)
    requires IsStack(g, state, stack) && Advances(state, state')
    ensures IsStack(g, state', stack)
  {
    hide Greys, Blacks, Edge;
  }

  lemma AdvancedKeys(state: map<string, Colour>, state': map<string, Colour>)
    requires Advances(state, state')
    ensures state.Keys <= state'.Keys
  {
    assert state.Keys == Greys(state) + Blacks(state) && state'.Keys == Greys(state') + Blacks(state');
  }

  lemma KeysLeft(all: set<string>, before: set<string>, now: set<string>)
    requires before < now <= all
    ensures |all - now| < |all - before|
  {
    assert all - now < all - before by {
      var n :| n in now && n !in before;
      assert n in all - before && n !in all - now;
    }
    SmallerSet(all - now, all - before);
  }

  lemma SmallerSet(a: set<string>, b: set<string>)
    requires a < b
    ensures |a| < |b|
  {
    assert b == a + (b - a);
    assert b - a != {};
  }

  /** Colouring a node black whose dependencies are all black keeps the black nodes closed and ranked. */
  lemma Finish(g: Graph, rank: map<string, nat>, before: map<string, Colour>, state: map<string, Colour>, node: string)
    requires Ranks(g, rank, Blacks(state)) && node in g && node !in before
    requires Advances(before[node := Grey], state)
    requires Finished(state, g[node], |g[node]|)
    ensures Ranks(g, rank[node := Above(rank)], Blacks(state[node := Black]))
    ensures node in Blacks(state[node := Black])
    ensures Advances(before, state[node := Black])
  {
    var black, higher := Blacks(state[node := Black]), rank[node := Above(rank)];
    assert Greys(before[node := Grey]) == Greys(before) + {node} && Blacks(before[node := Grey]) == Blacks(before);
    assert node in Greys(state);
    assert black == Blacks(state) + {node};
    assert Greys(state[node := Black]) == Greys(state) - {node};
    forall a, b | a in black && Edge(g, a, b)
      ensures b in black && higher[b] < higher[a]
    {
      assert b in Blacks(state) && b != node;
    }
  }

  lemma AllBlack(g: Graph, rank: map<string, nat>, state: map<string, Colour>, order: seq<string>)
    requires Ranks(g, rank, Blacks(state)) && state.Keys <= g.Keys
    requires forall n :: n in g ==> n in order
    requires forall j :: 0 <= j < |order| ==> order[j] in Blacks(state)
    ensures Acyclic(g)
  {
    assert Blacks(state) == g.Keys;
    RankedIsAcyclic(g, rank);
  }

  // ---------------------------------------------------------------- the catalog's dependency checks

  function Ids(cases: seq<Case>): seq<string> {
    seq(|cases|, i requires 0 <= i < |cases| => cases[i].id)
  }

  ghost predicate DistinctIds(cases: seq<Case>) {
    forall i, j :: 0 <= i < j < |cases| ==> cases[i].id != cases[j].id
  }

  /** Every dependency names a case. */
  ghost predicate KnownDependencies(cases: seq<Case>) {
    forall i, d :: 0 <= i < |cases| && d in cases[i].dependencies ==> d in Ids(cases)
  }

  function GraphOf(cases: seq<Case>): Graph {
    if cases == [] then map[]
    else GraphOf(cases[..|cases| - 1])[cases[|cases| - 1].id := cases[|cases| - 1].dependencies]
  }

  lemma {:induction false} GraphHolds(cases: seq<Case>)
    requires DistinctIds(cases)
    ensures forall n :: n in GraphOf(cases) <==> n in Ids(cases)
    ensures forall i :: 0 <= i < |cases| ==>
              cases[i].id in GraphOf(cases) && GraphOf(cases)[cases[i].id] == cases[i].dependencies
  {
    if cases != [] {
      var n := |cases| - 1;
      GraphHolds(cases[..n]);
      assert Ids(cases) == Ids(cases[..n]) + [cases[n].id];
    }
  }

  method FindDuplicate(cases: seq<Case>) returns (distinct: bool)
    ensures distinct <==> DistinctIds(cases)
  {
    var seen: set<string> := {};
    for i := 0 to |cases|
      invariant seen == set k | 0 <= k < i :: cases[k].id
      invariant DistinctIds(cases[..i])
    {
      if cases[i].id in seen {
        return false;
      }
      seen := seen + {cases[i].id};
    }
    assert cases[..|cases|] == cases;
    return true;
  }

  method CheckDependencies(cases: seq<Case>) returns (r: Result<(), GraphError>)
    ensures r.Ok? <==> KnownDependencies(cases)
                       && forall i :: 0 <= i < |cases| ==> cases[i].id !in cases[i].dependencies
    ensures r.Err? ==> match r.error
                       case UnknownDependency(id, d) => d !in Ids(cases)
                         && exists i :: 0 <= i < |cases| && cases[i].id == id && d in cases[i].dependencies
                       case SelfDependency(id) =>
                         exists i :: 0 <= i < |cases| && cases[i].id == id && id in cases[i].dependencies
                       case _ => false
  {
    for i := 0 to |cases|
      invariant forall k, d :: 0 <= k < i && d in cases[k].dependencies ==> d in Ids(cases)
      invariant forall k :: 0 <= k < i ==> cases[k].id !in cases[k].dependencies
    {
      var dependencies := cases[i].dependencies;
      for j := 0 to |dependencies|
        invariant forall k :: 0 <= k < j ==> dependencies[k] in Ids(cases) && dependencies[k] != cases[i].id
      {
        if dependencies[j] !in Ids(cases) {
          return Err(UnknownDependency(cases[i].id, dependencies[j]));
        }
        if dependencies[j] == cases[i].id {
          return Err(SelfDependency(cases[i].id));
        }
      }
    }
    return Ok(());
  }

  /** Accepts exactly the catalogs with distinct case IDs, known dependencies and no dependency cycle. */
  method ValidateDependencies(cases: seq<Case>) returns (r: Result<(), GraphError>)
    ensures r.Ok? <==> DistinctIds(cases) && KnownDependencies(cases) && Acyclic(GraphOf(cases))
    ensures r.Err? && r.error.Cycle? ==>
              exists walk :: IsCycle(GraphOf(cases), walk) && walk[0] == r.error.id
  {
    hide Acyclic, IsCycle, KnownDependencies;
    var distinct := FindDuplicate(cases);
    if !distinct {
      return Err(DuplicateId);
    }
    var checked := CheckDependencies(cases);
    GraphHolds(cases);
    SelfIsCycle(cases);
    if checked.Err? {
      return checked;
    }
    KnownIsClosed(cases);
    var search := new Search(GraphOf(cases));
    r := search.VisitAll(Ids(cases));
  }

  lemma SelfIsCycle(cases: seq<Case>)
    requires DistinctIds(cases)
    ensures Acyclic(GraphOf(cases)) ==> forall i :: 0 <= i < |cases| ==> cases[i].id !in cases[i].dependencies
  {
    GraphHolds(cases);
    hide GraphOf;
    if Acyclic(GraphOf(cases)) {
      forall i | 0 <= i < |cases|
        ensures cases[i].id !in cases[i].dependencies
      {
        var walk := [cases[i].id, cases[i].id];
        assert !IsCycle(GraphOf(cases), walk);
        assert walk[0] == walk[1];
      }
    }
  }

  lemma KnownIsClosed(cases: seq<Case>)
    requires DistinctIds(cases) && KnownDependencies(cases)
    ensures Closed(GraphOf(cases))
  {
    GraphHolds(cases);
    hide GraphOf;
    var g := GraphOf(cases);
    forall a, b | Edge(g, a, b)
      ensures b in g
    {
      assert a in Ids(cases);
      var i :| 0 <= i < |cases| && Ids(cases)[i] == a;
      assert b in cases[i].dependencies;
    }
  }
}
