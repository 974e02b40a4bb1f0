/**
 * The node graph as the preview manager sees it, and the worklist closure
 * `PropagateNodeSet` that grows a set of node ids along the graph's edges.
 *
 * Slots are folded into edges: an edge runs from the node owning its output
 * slot (the producer) to the node owning its input slot (the consumer).
 */
module Graphs {
  import opened Wrappers

  /** A node's Guid. */
  type NodeId = nat

  datatype PreviewMode = Preview2D | Preview3D

  /**
   * What the preview manager asks of a node. The last four fields stand for
   * collaborators outside this model: `vertexStage` is whether the node's
   * effective shader stage is Vertex, and `previewShader`/`previewMode` are
   * what the graph's shader generator returns for the node (None for null).
   */
  datatype MaterialNode = MaterialNode(
    guid: NodeId,
    requiresTime: bool,
    isMaster: bool,
    hasPreview: bool,
    vertexStage: bool,
    previewShader: Option<string>,
    previewMode: PreviewMode)

  /** An edge from the output slot of `output` to the input slot of `input`. */
  datatype Edge = Edge(output: NodeId, input: NodeId)

  /** The live nodes, looked up by Guid, and the edges between slots. */
  datatype MaterialGraph = MaterialGraph(nodes: map<NodeId, MaterialNode>, edges: seq<Edge>)

  /** Every node is stored under its own Guid. */
  ghost predicate WellFormed(g: MaterialGraph) {
    forall id :: id in g.nodes ==> g.nodes[id].guid == id
  }

  /** The end of `e` a traversal starts from: the producer going forward. */
  function Near(e: Edge, forward: bool): NodeId {
    if forward then e.output else e.input
  }

  /** The end of `e` a traversal arrives at: the consumer going forward. */
  function Far(e: Edge, forward: bool): NodeId {
    if forward then e.input else e.output
  }

  /** One traversal step: forward from producer to consumer, backward the other way. */
  predicate Step(g: MaterialGraph, from: NodeId, to: NodeId, forward: bool) {
    if forward then Edge(from, to) in g.edges else Edge(to, from) in g.edges
  }

  /** Every id an edge mentions, at either end. */
  function Endpoints(edges: seq<Edge>): set<NodeId> {
    (set e | e in edges :: e.output) + (set e | e in edges :: e.input)
  }

  /**
   * `p` is a walk from a seed: it starts in `seeds` and every id it leaves
   * from resolves in the graph (ids that do not resolve are never expanded).
   */
  ghost predicate IsWalk(g: MaterialGraph, seeds: set<NodeId>, p: seq<NodeId>, forward: bool) {
    |p| > 0 && p[0] in seeds &&
    forall i :: 0 <= i < |p| - 1 ==> p[i] in g.nodes && Step(g, p[i], p[i + 1], forward)
  }

  ghost predicate Reaches(g: MaterialGraph, seeds: set<NodeId>, x: NodeId, forward: bool) {
    exists p :: IsWalk(g, seeds, p, forward) && p[|p| - 1] == x
  }

  /** Every member of `s` that resolves in the graph has all its neighbours in `s`. */
  ghost predicate Closed(g: MaterialGraph, s: set<NodeId>, forward: bool) {
    forall x, y :: x in s && x in g.nodes && Step(g, x, y, forward) ==> y in s
  }

  /** The ids reachable from `seeds` in the chosen direction. */
  ghost function Closure(g: MaterialGraph, seeds: set<NodeId>, forward: bool): set<NodeId> {
    set x | x in seeds + Endpoints(g.edges) && Reaches(g, seeds, x, forward)
  }

  lemma SeedReaches(g: MaterialGraph, seeds: set<NodeId>, x: NodeId, forward: bool)
    requires x in seeds
    ensures Reaches(g, seeds, x, forward)
  {
    assert IsWalk(g, seeds, [x], forward);
  }

  lemma StepReaches(g: MaterialGraph, seeds: set<NodeId>, x: NodeId, y: NodeId, forward: bool)
    requires Reaches(g, seeds, x, forward) && x in g.nodes && Step(g, x, y, forward)
    ensures Reaches(g, seeds, y, forward)
  {
    var p :| IsWalk(g, seeds, p, forward) && p[|p| - 1] == x;
    var q := p + [y];
    assert forall i :: 0 <= i < |q| - 1 ==> q[i] in g.nodes && Step(g, q[i], q[i + 1], forward) by {
      forall i | 0 <= i < |q| - 1
        ensures q[i] in g.nodes && Step(g, q[i], q[i + 1], forward)
      {
        if i < |p| - 1 {
          assert q[i] == p[i] && q[i + 1] == p[i + 1];
        }
      }
    }
    assert IsWalk(g, seeds, q, forward) && q[|q| - 1] == y;
  }

  lemma StepIsEdge(g: MaterialGraph, x: NodeId, y: NodeId, forward: bool)
    requires Step(g, x, y, forward)
    ensures y in Endpoints(g.edges)
    ensures exists k :: 0 <= k < |g.edges| && Near(g.edges[k], forward) == x && Far(g.edges[k], forward) == y
  {
    var e := if forward then Edge(x, y) else Edge(y, x);
    var k :| 0 <= k < |g.edges| && g.edges[k] == e;
    if forward {
      assert y in (set e | e in g.edges :: e.input);
    } else {
      assert y in (set e | e in g.edges :: e.output);
    }
  }

  /** The last id of a walk from `seeds` lies in every closed superset of `seeds`. */
  lemma {:induction false} WalkEndsInClosed(g: MaterialGraph, seeds: set<NodeId>, r: set<NodeId>, p: seq<NodeId>, forward: bool)
    requires seeds <= r && Closed(g, r, forward) && IsWalk(g, seeds, p, forward)
    ensures p[|p| - 1] in r
    decreases |p|
  {
    if |p| > 1 {
      var q := p[..|p| - 1];
      forall i | 0 <= i < |q| - 1
        ensures q[i] in g.nodes && Step(g, q[i], q[i + 1], forward)
      {
        assert q[i] == p[i] && q[i + 1] == p[i + 1];
      }
      assert IsWalk(g, seeds, q, forward);
      WalkEndsInClosed(g, seeds, r, q, forward);
      assert p[|p| - 2] in g.nodes && Step(g, p[|p| - 2], p[|p| - 1], forward);
    }
  }

  /** A reached id is a seed or the far end of an edge. */
  lemma ReachedIsSeedOrEndpoint(g: MaterialGraph, seeds: set<NodeId>, x: NodeId, forward: bool)
    requires Reaches(g, seeds, x, forward)
    ensures x in seeds + Endpoints(g.edges)
  {
    var p :| IsWalk(g, seeds, p, forward) && p[|p| - 1] == x;
    if |p| > 1 {
      StepIsEdge(g, p[|p| - 2], x, forward);
    }
  }

  lemma SeedsInClosure(g: MaterialGraph, seeds: set<NodeId>, forward: bool)
    ensures seeds <= Closure(g, seeds, forward)
  {
    forall x | x in seeds ensures x in Closure(g, seeds, forward) {
      SeedReaches(g, seeds, x, forward);
    }
  }

  lemma ClosureClosed(g: MaterialGraph, seeds: set<NodeId>, forward: bool)
    ensures Closed(g, Closure(g, seeds, forward), forward)
  {
    var c := Closure(g, seeds, forward);
    forall x, y | x in c && x in g.nodes && Step(g, x, y, forward) ensures y in c {
      StepReaches(g, seeds, x, y, forward);
      StepIsEdge(g, x, y, forward);
    }
  }

  lemma ClosureLeast(g: MaterialGraph, seeds: set<NodeId>, r: set<NodeId>, forward: bool)
    requires seeds <= r && Closed(g, r, forward)
    ensures Closure(g, seeds, forward) <= r
  {
    forall x | x in Closure(g, seeds, forward) ensures x in r {
      var p :| IsWalk(g, seeds, p, forward) && p[|p| - 1] == x;
      WalkEndsInClosed(g, seeds, r, p, forward);
    }
  }

  /**
   * The closure is the least closed superset of the seeds: it contains the
   * seeds, it is closed, and it lies inside every other closed superset.
   */
  lemma ClosureIsLeastClosedSuperset(g: MaterialGraph, seeds: set<NodeId>, forward: bool)
    ensures seeds <= Closure(g, seeds, forward)
    ensures Closed(g, Closure(g, seeds, forward), forward)
    ensures forall r :: seeds <= r && Closed(g, r, forward) ==> Closure(g, seeds, forward) <= r
  {
    SeedsInClosure(g, seeds, forward);
    ClosureClosed(g, seeds, forward);
    forall r | seeds <= r && Closed(g, r, forward) ensures Closure(g, seeds, forward) <= r {
      ClosureLeast(g, seeds, r, forward);
    }
  }

  /** A closed superset of the seeds that holds only reachable ids is the closure. */
  lemma ClosureUnique(g: MaterialGraph, seeds: set<NodeId>, r: set<NodeId>, forward: bool)
    requires seeds <= r && Closed(g, r, forward)
    requires forall x :: x in r ==> Reaches(g, seeds, x, forward)
    ensures r == Closure(g, seeds, forward)
  {
    ClosureLeast(g, seeds, r, forward);
    forall x | x in r ensures x in Closure(g, seeds, forward) {
      ReachedIsSeedOrEndpoint(g, seeds, x, forward);
    }
  }

  /** Propagating an already propagated set adds nothing. */
  lemma ClosureIdempotent(g: MaterialGraph, seeds: set<NodeId>, forward: bool)
    ensures Closure(g, Closure(g, seeds, forward), forward) == Closure(g, seeds, forward)
  {
    var c := Closure(g, seeds, forward);
    SeedsInClosure(g, c, forward);
    ClosureClosed(g, seeds, forward);
    ClosureLeast(g, c, c, forward);
  }

  /** A set that is already closed is its own closure. */
  lemma ClosedIsFixpoint(g: MaterialGraph, s: set<NodeId>, forward: bool)
    requires Closed(g, s, forward)
    ensures Closure(g, s, forward) == s
  {
    SeedsInClosure(g, s, forward);
    ClosureLeast(g, s, s, forward);
  }

  /** More seeds reach more ids. */
  lemma ClosureMonotone(g: MaterialGraph, s: set<NodeId>, t: set<NodeId>, forward: bool)
    requires s <= t
    ensures Closure(g, s, forward) <= Closure(g, t, forward)
  {
    SeedsInClosure(g, t, forward);
    ClosureClosed(g, t, forward);
    ClosureLeast(g, s, Closure(g, t, forward), forward);
  }

  /** Closing part of the seeds first does not change the closure of all of them. */
  lemma ClosureAbsorbs(g: MaterialGraph, s: set<NodeId>, t: set<NodeId>, forward: bool)
    ensures Closure(g, s + Closure(g, t, forward), forward) == Closure(g, s + t, forward)
  {
    var ct := Closure(g, t, forward);
    SeedsInClosure(g, t, forward);
    assert s + t <= s + ct;
    ClosureMonotone(g, s + t, s + ct, forward);
    ClosureHoldsClosure(g, s, t, forward);
    assert Closure(g, s + t, forward) == Closure(g, s + ct, forward);
  }

  /** The closure of `s + t` already holds the closure of `t`, so it bounds that of `s` plus it. */
  lemma ClosureHoldsClosure(g: MaterialGraph, s: set<NodeId>, t: set<NodeId>, forward: bool)
    ensures Closure(g, s + Closure(g, t, forward), forward) <= Closure(g, s + t, forward)
  {
    var c := Closure(g, s + t, forward);
    SeedsInClosure(g, s + t, forward);
    ClosureClosed(g, s + t, forward);
    ClosureLeast(g, t, c, forward);
    ClosureLeast(g, s + Closure(g, t, forward), c, forward);
  }

  /**
   * An edge A -> B whose producer resolves puts B in the forward closure of
   * {A}; when the consumer resolves, A is in the backward closure of {B}.
   */
  lemma EdgeInClosures(g: MaterialGraph, a: NodeId, b: NodeId)
    requires Edge(a, b) in g.edges
    ensures a in g.nodes ==> b in Closure(g, {a}, true)
    ensures b in g.nodes ==> a in Closure(g, {b}, false)
  {
    if a in g.nodes {
      SeedReaches(g, {a}, a, true);
      StepReaches(g, {a}, a, b, true);
      StepIsEdge(g, a, b, true);
    }
    if b in g.nodes {
      SeedReaches(g, {b}, b, false);
      StepReaches(g, {b}, b, a, false);
      StepIsEdge(g, b, a, false);
    }
  }

  /** Pushes every seed onto an empty stack, each exactly once. */
  method PushSeeds(s: set<NodeId>) returns (wavefront: seq<NodeId>)
    ensures forall z :: z in wavefront <==> z in s
    ensures forall i, j :: 0 <= i < j < |wavefront| ==> wavefront[i] != wavefront[j]
  {
    wavefront := [];
    var rest := s;
    while rest != {}
      invariant rest <= s
      invariant forall z :: z in wavefront <==> z in s - rest
      invariant forall i, j :: 0 <= i < j < |wavefront| ==> wavefront[i] != wavefront[j]
      decreases rest
    {
      var seed :| seed in rest;
      assert seed !in wavefront;
      wavefront := wavefront + [seed];
      rest := rest - {seed};
    }
  }

  /** A plain node with the given Guid: no time dependence, a 2D preview. */
  function PlainNode(id: NodeId): MaterialNode {
    MaterialNode(id, false, false, true, false, None, Preview2D)
  }

  /** The chain A -> B -> C (ids 0, 1, 2) beside a disconnected node D (id 3). */
  function ChainGraph(): MaterialGraph {
    MaterialGraph(map[0 := PlainNode(0), 1 := PlainNode(1), 2 := PlainNode(2), 3 := PlainNode(3)],
                  [Edge(0, 1), Edge(1, 2)])
  }

  /** The chain's only steps are its two edges. */
  lemma ChainSteps(x: NodeId, y: NodeId)
    ensures Step(ChainGraph(), x, y, true) <==> (x == 0 && y == 1) || (x == 1 && y == 2)
  {
    var g := ChainGraph();
    assert g.edges == [Edge(0, 1), Edge(1, 2)];
  }

  /** The ids 0, 1, 2 of the chain are closed in both directions. */
  lemma ChainClosed()
    ensures Closed(ChainGraph(), {0, 1, 2}, true) && Closed(ChainGraph(), {0, 1, 2}, false)
  {
    forall x, y | Step(ChainGraph(), x, y, true) ensures x in {0, 1, 2} && y in {0, 1, 2} {
      ChainSteps(x, y);
    }
    forall x, y | Step(ChainGraph(), x, y, false) ensures y in {0, 1, 2} {
      ChainSteps(y, x);
    }
  }

  /** Propagating a change of A reaches B and C but not the disconnected D. */
  lemma ChainDownstream()
    ensures Closure(ChainGraph(), {0}, true) == {0, 1, 2}
  {
    var g := ChainGraph();
    assert Step(g, 0, 1, true) && Step(g, 1, 2, true);
    SeedReaches(g, {0}, 0, true);
    StepReaches(g, {0}, 0, 1, true);
    StepReaches(g, {0}, 1, 2, true);
    ChainClosed();
    ClosureUnique(g, {0}, {0, 1, 2}, true);
  }

  /** Collecting the sources of C reaches back to A and B but not D. */
  lemma ChainUpstream()
    ensures Closure(ChainGraph(), {2}, false) == {0, 1, 2}
  {
    var g := ChainGraph();
    assert Step(g, 2, 1, false) && Step(g, 1, 0, false);
    SeedReaches(g, {2}, 2, false);
    StepReaches(g, {2}, 2, 1, false);
    StepReaches(g, {2}, 1, 0, false);
    ChainClosed();
    ClosureUnique(g, {2}, {0, 1, 2}, false);
  }

  /**
   * Expands one node: for every edge leaving `x` in the chosen direction,
   * the id at its far end that is not yet in `r` is added to `r` and pushed.
   */
  method Expand(g: MaterialGraph, x: NodeId, forward: bool, r: set<NodeId>, wavefront: seq<NodeId>)
    returns (r': set<NodeId>, wavefront': seq<NodeId>, ghost added: seq<NodeId>)
    ensures r <= r'
    ensures forall y :: Step(g, x, y, forward) ==> y in r'
    ensures forall y :: y in r' && y !in r ==> Step(g, x, y, forward)
    ensures wavefront' == wavefront + added
    ensures forall y :: y in added <==> y in r' && y !in r
    ensures forall i, j :: 0 <= i < j < |added| ==> added[i] != added[j]
    ensures added == [] <==> r' == r
  {
    r', wavefront', added := r, wavefront, [];
    var j := 0;
    while j < |g.edges|
      invariant 0 <= j <= |g.edges|
      invariant r <= r'
      invariant forall k :: 0 <= k < j && Near(g.edges[k], forward) == x ==> Far(g.edges[k], forward) in r'
      invariant forall y :: y in r' && y !in r ==> Step(g, x, y, forward)
      invariant wavefront' == wavefront + added
      invariant forall y :: y in added <==> y in r' && y !in r
      invariant forall i, i' :: 0 <= i < i' < |added| ==> added[i] != added[i']
      invariant added == [] <==> r' == r
    {
      var e := g.edges[j];
      if Near(e, forward) == x {
        var y := Far(e, forward);
        if y !in r' {
          assert Step(g, x, y, forward) by {
            assert e == Edge(e.output, e.input);
          }
          r' := r' + {y};
          wavefront' := wavefront' + [y];
          added := added + [y];
        }
      }
      j := j + 1;
    }
    forall y | Step(g, x, y, forward) ensures y in r' {
      StepIsEdge(g, x, y, forward);
    }
  }

  /**
   * The worklist invariant: `r` lies between the seeds and the ids the edges
   * mention, every stacked id is in `r`, every id of `r` is reachable, every
   * id of `r` that resolves and is no longer stacked has its neighbours in
   * `r`, and `pushed` lists each id of `r` exactly once.
   */
  ghost predicate Frontier(g: MaterialGraph, s: set<NodeId>, forward: bool, r: set<NodeId>,
                           wavefront: seq<NodeId>, pushed: seq<NodeId>)
  {
    s <= r <= s + Endpoints(g.edges) &&
    (forall x :: x in wavefront ==> x in r) &&
    (forall x :: x in r ==> Reaches(g, s, x, forward)) &&
    (forall x, y :: x in r && x !in wavefront && x in g.nodes && Step(g, x, y, forward) ==> y in r) &&
    (forall x :: x in pushed <==> x in r) &&
    (forall i, j :: 0 <= i < j < |pushed| ==> pushed[i] != pushed[j])
  }

  /** Expanding the popped id `x` restores the worklist invariant. */
  lemma ExpandKeepsFrontier(g: MaterialGraph, s: set<NodeId>, forward: bool, r: set<NodeId>,
                            rest: seq<NodeId>, x: NodeId, pushed: seq<NodeId>,
                            r': set<NodeId>, w': seq<NodeId>, added: seq<NodeId>)
    requires Frontier(g, s, forward, r, rest + [x], pushed)
    requires x in g.nodes
    requires r <= r'
    requires forall y :: Step(g, x, y, forward) ==> y in r'
    requires forall y :: y in r' && y !in r ==> Step(g, x, y, forward)
    requires w' == rest + added
    requires forall y :: y in added <==> y in r' && y !in r
    requires forall i, j :: 0 <= i < j < |added| ==> added[i] != added[j]
    requires added == [] <==> r' == r
    ensures Frontier(g, s, forward, r', w', pushed + added)
    ensures r' != r ==> s + Endpoints(g.edges) - r' < s + Endpoints(g.edges) - r
  {
    assert x in rest + [x];
    ExpandReaches(g, s, forward, r, x, r');
    ExpandClosed(g, forward, r, rest, x, r', w', added);
    AppendDistinct(pushed, added);
    if r' != r {
      var y := added[0];
      assert y in added;
      assert y in s + Endpoints(g.edges) - r && y !in s + Endpoints(g.edges) - r';
    }
  }

  /** The ids one expansion adds are reachable and mentioned by an edge. */
  lemma ExpandReaches(g: MaterialGraph, s: set<NodeId>, forward: bool, r: set<NodeId>, x: NodeId, r': set<NodeId>)
    requires x in r && x in g.nodes && r <= s + Endpoints(g.edges)
    requires forall z :: z in r ==> Reaches(g, s, z, forward)
    requires forall y :: y in r' && y !in r ==> Step(g, x, y, forward)
    ensures r' <= s + Endpoints(g.edges)
    ensures forall y :: y in r' ==> Reaches(g, s, y, forward)
  {
    forall y | y in r' ensures Reaches(g, s, y, forward) && y in s + Endpoints(g.edges) {
      if y !in r {
        StepReaches(g, s, x, y, forward);
        StepIsEdge(g, x, y, forward);
      }
    }
  }

  /** After expanding `x`, every id of `r'` off the stack has its neighbours in `r'`. */
  lemma ExpandClosed(g: MaterialGraph, forward: bool, r: set<NodeId>, rest: seq<NodeId>, x: NodeId,
                     r': set<NodeId>, w': seq<NodeId>, added: seq<NodeId>)
    requires forall z, y :: z in r && z !in rest + [x] && z in g.nodes && Step(g, z, y, forward) ==> y in r
    requires r <= r'
    requires forall y :: Step(g, x, y, forward) ==> y in r'
    requires w' == rest + added
    requires forall y :: y in added <==> y in r' && y !in r
    ensures forall z, y :: z in r' && z !in w' && z in g.nodes && Step(g, z, y, forward) ==> y in r'
  {
    forall z, y | z in r' && z !in w' && z in g.nodes && Step(g, z, y, forward) ensures y in r' {
      if z != x {
        assert z !in added && z !in rest;
        assert z in r && z !in rest + [x];
      }
    }
  }

  /** Two duplicate-free sequences with no common element concatenate to a duplicate-free one. */
  lemma AppendDistinct(p: seq<NodeId>, q: seq<NodeId>)
    requires forall i, j :: 0 <= i < j < |p| ==> p[i] != p[j]
    requires forall i, j :: 0 <= i < j < |q| ==> q[i] != q[j]
    requires forall z :: z in q ==> z !in p
    ensures forall i, j :: 0 <= i < j < |p + q| ==> (p + q)[i] != (p + q)[j]
  {
    var pq := p + q;
    forall i, j | 0 <= i < j < |pq| ensures pq[i] != pq[j] {
      if j >= |p| && i < |p| {
        assert pq[j] in q && pq[i] in p;
      } else if i >= |p| {
        assert pq[i] == q[i - |p|] && pq[j] == q[j - |p|];
      }
    }
  }

  /** Popping an id that does not resolve keeps the worklist invariant. */
  lemma SkipKeepsFrontier(g: MaterialGraph, s: set<NodeId>, forward: bool, r: set<NodeId>,
                          rest: seq<NodeId>, x: NodeId, pushed: seq<NodeId>)
    requires Frontier(g, s, forward, r, rest + [x], pushed)
    requires x !in g.nodes
    ensures Frontier(g, s, forward, r, rest, pushed)
  {
    assert forall z :: z in rest ==> z in rest + [x];
  }

  /** With the stack empty, the worklist holds the closure of the seeds. */
  lemma FrontierDone(g: MaterialGraph, s: set<NodeId>, forward: bool, r: set<NodeId>, pushed: seq<NodeId>)
    requires Frontier(g, s, forward, r, [], pushed)
    ensures r == Closure(g, s, forward) && s <= r && Closed(g, r, forward)
  {
    ClosureUnique(g, s, r, forward);
  }

  /** A non-empty stack is what lies below its top, then the top. */
  lemma SplitLast(w: seq<NodeId>)
    requires w != []
    ensures w == w[..|w| - 1] + [w[|w| - 1]]
  {
  }

  /**
   * Grows `s` to its closure with an explicit stack, expanding each id that
   * resolves in the graph through the edges of its output slots (forward) or
   * input slots (backward). `pushed` records every push onto the stack.
   */
  method PropagateNodeSet(g: MaterialGraph, s: set<NodeId>, forward: bool)
    returns (r: set<NodeId>, ghost pushed: seq<NodeId>)
    ensures r == Closure(g, s, forward)
    ensures s <= r && Closed(g, r, forward)
    ensures forall x :: x in r ==> Reaches(g, s, x, forward)
    ensures forall x :: x in pushed <==> x in r
    ensures forall i, j :: 0 <= i < j < |pushed| ==> pushed[i] != pushed[j]
  {
    r := s;
    var wavefront := PushSeeds(s);
    pushed := wavefront;
    forall x | x in r ensures Reaches(g, s, x, forward) {
      SeedReaches(g, s, x, forward);
    }
    while wavefront != []
      invariant Frontier(g, s, forward, r, wavefront, pushed)
      decreases s + Endpoints(g.edges) - r, |wavefront|
    {
      var x := wavefront[|wavefront| - 1];
      var rest := wavefront[..|wavefront| - 1];
      SplitLast(wavefront);
      if x in g.nodes {
        var r', w', added := Expand(g, x, forward, r, rest);
        ExpandKeepsFrontier(g, s, forward, r, rest, x, pushed, r', w', added);
        r, wavefront, pushed := r', w', pushed + added;
      } else {
        SkipKeepsFrontier(g, s, forward, r, rest, x, pushed);
        wavefront := rest;
      }
    }
    FrontierDone(g, s, forward, r, pushed);
  }
}
