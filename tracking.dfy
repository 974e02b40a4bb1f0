/**
 * The bookkeeping of the preview manager as a value: which node ids have a
 * preview record and which are shader-dirty, preview-dirty or
 * time-dependent. The functions here say what AddPreview, RemovePreview and
 * HandleGraphChanges do to these four sets; the manager's methods are proved
 * against them.
 */
module Tracking {
  import opened Graphs

  datatype Tracker = Tracker(
    records: set<NodeId>,
    dirtyShaders: set<NodeId>,
    dirtyPreviews: set<NodeId>,
    timeDependent: set<NodeId>)

  /** RemovePreview: the record goes and the id leaves all three sets. */
  function AfterRemove(t: Tracker, id: NodeId): Tracker {
    Tracker(t.records - {id}, t.dirtyShaders - {id}, t.dirtyPreviews - {id}, t.timeDependent - {id})
  }

  /** RemovePreview for every id of `ids` at once, in any order. */
  function ForgetAll(t: Tracker, ids: set<NodeId>): Tracker {
    Tracker(t.records - ids, t.dirtyShaders - ids, t.dirtyPreviews - ids, t.timeDependent - ids)
  }

  /** Forgetting one more id is RemovePreview of it. */
  lemma ForgetOneMore(t: Tracker, ids: set<NodeId>, id: NodeId)
    ensures AfterRemove(ForgetAll(t, ids), id) == ForgetAll(t, ids + {id})
  {
  }

  /**
   * AddPreview: an existing record for the id is first removed as by
   * RemovePreview; then the id gets a record, becomes shader-dirty, and
   * becomes time-dependent when the node requires time.
   */
  function AfterAdd(t: Tracker, n: MaterialNode): Tracker {
    var u := if n.guid in t.records then AfterRemove(t, n.guid) else t;
    Tracker(u.records + {n.guid}, u.dirtyShaders + {n.guid}, u.dirtyPreviews,
            if n.requiresTime then u.timeDependent + {n.guid} else u.timeDependent)
  }

  /** RemovePreview for each node, first to last. */
  function RemoveAll(t: Tracker, nodes: seq<MaterialNode>): Tracker {
    if nodes == [] then t
    else AfterRemove(RemoveAll(t, nodes[..|nodes| - 1]), nodes[|nodes| - 1].guid)
  }

  /** AddPreview for each node, first to last. */
  function AddAll(t: Tracker, nodes: seq<MaterialNode>): Tracker {
    if nodes == [] then t
    else AfterAdd(AddAll(t, nodes[..|nodes| - 1]), nodes[|nodes| - 1])
  }

  /** One more node of a list is one more AddPreview. */
  lemma AddAllNext(t: Tracker, nodes: seq<MaterialNode>, i: nat)
    requires i < |nodes|
    ensures AddAll(t, nodes[..i + 1]) == AfterAdd(AddAll(t, nodes[..i]), nodes[i])
  {
    assert nodes[..i + 1][..i] == nodes[..i];
  }

  function Guids(nodes: seq<MaterialNode>): set<NodeId> {
    set n | n in nodes :: n.guid
  }

  /** One more node of a list adds its Guid. */
  lemma GuidsNext(nodes: seq<MaterialNode>, i: nat)
    requires i < |nodes|
    ensures Guids(nodes[..i + 1]) == Guids(nodes[..i]) + {nodes[i].guid}
  {
    assert nodes[..i + 1] == nodes[..i] + [nodes[i]];
  }

  /** The consumer (input-slot) side of each edge. */
  function Inputs(edges: seq<Edge>): set<NodeId> {
    set e | e in edges :: e.input
  }

  /** Marks the consumer side of each edge shader-dirty. */
  function MarkInputs(t: Tracker, edges: seq<Edge>): Tracker {
    t.(dirtyShaders := t.dirtyShaders + Inputs(edges))
  }

  /**
   * HandleGraphChanges: removed nodes first, then added nodes, then the
   * consumers of removed edges, then the consumers of added edges.
   */
  function GraphChanged(t: Tracker, removedNodes: seq<MaterialNode>, addedNodes: seq<MaterialNode>,
                        removedEdges: seq<Edge>, addedEdges: seq<Edge>): Tracker {
    MarkInputs(MarkInputs(AddAll(RemoveAll(t, removedNodes), addedNodes), removedEdges), addedEdges)
  }

  /** `id` has the same membership in all four sets of `t` and `u`. */
  predicate SameFor(t: Tracker, u: Tracker, id: NodeId) {
    (id in t.records <==> id in u.records) &&
    (id in t.dirtyShaders <==> id in u.dirtyShaders) &&
    (id in t.dirtyPreviews <==> id in u.dirtyPreviews) &&
    (id in t.timeDependent <==> id in u.timeDependent)
  }

  /** After removing a list of nodes, none of their ids is tracked and every other id is as before. */
  lemma {:induction false} RemoveAllEffect(t: Tracker, nodes: seq<MaterialNode>)
    ensures var u := RemoveAll(t, nodes);
      forall id :: id in Guids(nodes) ==>
        id !in u.records && id !in u.dirtyShaders && id !in u.dirtyPreviews && id !in u.timeDependent
    ensures forall id :: id !in Guids(nodes) ==> SameFor(t, RemoveAll(t, nodes), id)
  {
    if nodes != [] {
      var init := nodes[..|nodes| - 1];
      RemoveAllEffect(t, init);
      assert Guids(nodes) == Guids(init) + {nodes[|nodes| - 1].guid} by {
        assert nodes == init + [nodes[|nodes| - 1]];
      }
    }
  }

  /**
   * After adding a list of nodes, each of their ids has a record and is
   * shader-dirty, and every other id is as before.
   */
  lemma {:induction false} AddAllEffect(t: Tracker, nodes: seq<MaterialNode>)
    ensures var u := AddAll(t, nodes);
      forall id :: id in Guids(nodes) ==> id in u.records && id in u.dirtyShaders
    ensures forall id :: id !in Guids(nodes) ==> SameFor(t, AddAll(t, nodes), id)
  {
    if nodes != [] {
      var init := nodes[..|nodes| - 1];
      AddAllEffect(t, init);
      assert Guids(nodes) == Guids(init) + {nodes[|nodes| - 1].guid} by {
        assert nodes == init + [nodes[|nodes| - 1]];
      }
    }
  }

  /** `nodes[i]` is the last node in `nodes` with its Guid. */
  predicate LastWithGuid(nodes: seq<MaterialNode>, i: nat) {
    i < |nodes| && forall j :: i < j < |nodes| ==> nodes[j].guid != nodes[i].guid
  }

  /** The last node added under a Guid decides: if it requires time, its id is time-dependent. */
  lemma {:induction false} AddAllTimeDependent(t: Tracker, nodes: seq<MaterialNode>)
    ensures forall i: nat :: LastWithGuid(nodes, i) && nodes[i].requiresTime ==>
      nodes[i].guid in AddAll(t, nodes).timeDependent
  {
    if nodes != [] {
      var init := nodes[..|nodes| - 1];
      AddAllTimeDependent(t, init);
      forall i: nat | LastWithGuid(nodes, i) && nodes[i].requiresTime
        ensures nodes[i].guid in AddAll(t, nodes).timeDependent
      {
        if i < |init| {
          assert LastWithGuid(init, i);
        }
      }
    }
  }

  /**
   * What HandleGraphChanges guarantees: every added node has a record and is
   * shader-dirty; a removed node that is not added back has no record, is
   * neither preview-dirty nor time-dependent, and is shader-dirty exactly
   * when it is the consumer of a changed edge; the consumer of every changed
   * edge is shader-dirty; the last added node under a Guid that requires
   * time leaves that id time-dependent; and an id that is none of these (a producer that
   * only lost or gained an edge, say) keeps its membership in every set.
   */
  lemma GraphChangedEffect(t: Tracker, removedNodes: seq<MaterialNode>, addedNodes: seq<MaterialNode>,
                           removedEdges: seq<Edge>, addedEdges: seq<Edge>)
    ensures var u := GraphChanged(t, removedNodes, addedNodes, removedEdges, addedEdges);
      forall n :: n in addedNodes ==> n.guid in u.records && n.guid in u.dirtyShaders
    ensures var u := GraphChanged(t, removedNodes, addedNodes, removedEdges, addedEdges);
      forall id :: id in Guids(removedNodes) && id !in Guids(addedNodes) ==>
        id !in u.records && id !in u.dirtyPreviews && id !in u.timeDependent &&
        (id in u.dirtyShaders <==> id in Inputs(removedEdges + addedEdges))
    ensures var u := GraphChanged(t, removedNodes, addedNodes, removedEdges, addedEdges);
      forall e :: e in removedEdges + addedEdges ==> e.input in u.dirtyShaders
    ensures var u := GraphChanged(t, removedNodes, addedNodes, removedEdges, addedEdges);
      forall i: nat :: LastWithGuid(addedNodes, i) && addedNodes[i].requiresTime ==> addedNodes[i].guid in u.timeDependent
    ensures var u := GraphChanged(t, removedNodes, addedNodes, removedEdges, addedEdges);
      forall id :: id !in Guids(removedNodes) + Guids(addedNodes) + Inputs(removedEdges + addedEdges) ==>
        SameFor(t, u, id)
  {
    var r := RemoveAll(t, removedNodes);
    RemoveAllEffect(t, removedNodes);
    AddAllEffect(r, addedNodes);
    AddAllTimeDependent(r, addedNodes);
    assert Inputs(removedEdges + addedEdges) == Inputs(removedEdges) + Inputs(addedEdges);
    forall n | n in addedNodes ensures n.guid in Guids(addedNodes) { }
  }
}
