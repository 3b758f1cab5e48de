/** Hierarchy, expansion, visibility and conversion helpers over a rendered mind
    map: nodes plus directed parent-to-child edges. */
module MindMapUtils {
  import opened Common

  datatype NodeType = Root | Topic | Subtopic | Detail

  /** A rendered node: its id and the `data` fields the helpers read or write
      (position and the renderer's node kind are constants and left out). */
  datatype MindMapNode = MindMapNode(
    id: string,
    nodeLabel: string,
    nodeType: NodeType,
    description: Option<string>,
    isExpanded: bool,
    childCount: nat)

  /** A rendered edge from a parent (`source`) to a child (`target`). */
  datatype MindMapEdge = MindMapEdge(id: string, source: string, target: string)

  // ---------------------------------------------------------------------------
  // Graph vocabulary
  // ---------------------------------------------------------------------------

  /** Some edge leads from `a` to `b`. */
  ghost predicate IsEdge(edges: seq<MindMapEdge>, a: string, b: string) {
    exists e :: e in edges && e.source == a && e.target == b
  }

  /** `p` is a walk along `edges` whose every node but the last satisfies `through`. */
  ghost predicate IsWalk(edges: seq<MindMapEdge>, p: seq<string>, through: string -> bool) {
    && |p| >= 1
    && forall i :: 0 <= i < |p| - 1 ==> through(p[i]) && IsEdge(edges, p[i], p[i + 1])
  }

  /** `b` can be reached from `a` (possibly `a` itself), leaving only nodes that satisfy `through`. */
  ghost predicate ReachableVia(edges: seq<MindMapEdge>, a: string, b: string, through: string -> bool) {
    exists p :: IsWalk(edges, p, through) && p[0] == a && p[|p| - 1] == b
  }

  /** Every node may be left. */
  function Anywhere(): string -> bool {
    (x: string) => true
  }

  /** Only the nodes of `s` may be left. */
  function InSet(s: set<string>): string -> bool {
    (x: string) => x in s
  }

  /** Every edge target, the only ids a walk can move to. */
  function Targets(edges: seq<MindMapEdge>): set<string> {
    set e | e in edges :: e.target
  }

  lemma ReachableSelf(edges: seq<MindMapEdge>, a: string, through: string -> bool)
    ensures ReachableVia(edges, a, a, through)
  {
    assert IsWalk(edges, [a], through);
  }

  /** Reachability extends by one edge out of a node that may be left. */
  lemma ReachableStep(edges: seq<MindMapEdge>, a: string, v: string, c: string, through: string -> bool)
    requires ReachableVia(edges, a, v, through) && through(v) && IsEdge(edges, v, c)
    ensures ReachableVia(edges, a, c, through)
  {
    var p :| IsWalk(edges, p, through) && p[0] == a && p[|p| - 1] == v;
    var q := p + [c];
    forall i | 0 <= i < |q| - 1 ensures through(q[i]) && IsEdge(edges, q[i], q[i + 1]) {
      if i < |p| - 1 {
        assert q[i] == p[i] && q[i + 1] == p[i + 1];
      } else {
        assert q[i] == v && q[i + 1] == c;
      }
    }
    assert IsWalk(edges, q, through);
  }

  /** A set that holds the start of a walk and is closed under the edges out of
      its nodes that may be left holds the walk's end. */
  lemma {:induction false} ClosedHoldsWalkEnd(edges: seq<MindMapEdge>, s: set<string>, p: seq<string>, through: string -> bool)
    requires IsWalk(edges, p, through) && p[0] in s
    requires forall v, c :: v in s && through(v) && IsEdge(edges, v, c) ==> c in s
    ensures p[|p| - 1] in s
    decreases |p|
  {
    if |p| > 1 {
      var q := p[..|p| - 1];
      forall i | 0 <= i < |q| - 1 ensures through(q[i]) && IsEdge(edges, q[i], q[i + 1]) {
        assert q[i] == p[i] && q[i + 1] == p[i + 1];
      }
      assert IsWalk(edges, q, through);
      ClosedHoldsWalkEnd(edges, s, q, through);
      assert through(p[|p| - 2]) && IsEdge(edges, p[|p| - 2], p[|p| - 1]);
    }
  }

  /** So such a set holds everything reachable from its members. */
  lemma ClosedHoldsReachable(edges: seq<MindMapEdge>, s: set<string>, a: string, b: string, through: string -> bool)
    requires a in s && ReachableVia(edges, a, b, through)
    requires forall v, c :: v in s && through(v) && IsEdge(edges, v, c) ==> c in s
    ensures b in s
  {
    var p :| IsWalk(edges, p, through) && p[0] == a && p[|p| - 1] == b;
    ClosedHoldsWalkEnd(edges, s, p, through);
  }

  // ---------------------------------------------------------------------------
  // Hierarchy queries
  // ---------------------------------------------------------------------------

  /** The edge leaves `nodeId`. */
  function SourceIs(nodeId: string): MindMapEdge -> bool {
    (e: MindMapEdge) => e.source == nodeId
  }

  /** `getNodeChildren`: the targets of the edges leaving `nodeId`, in edge order. */
  function Children(nodeId: string, edges: seq<MindMapEdge>): (r: seq<string>)
    ensures |r| <= |edges|
    ensures forall c :: c in r <==> IsEdge(edges, nodeId, c)
    decreases |edges|
  {
    if |edges| == 0 then []
    else
      assert forall e :: e in edges <==> e == edges[0] || e in edges[1..];
      (if edges[0].source == nodeId then [edges[0].target] else []) + Children(nodeId, edges[1..])
  }

  /** A node has one child entry per edge leaving it: its out-degree. */
  lemma {:induction false} ChildrenCount(nodeId: string, edges: seq<MindMapEdge>)
    ensures |Children(nodeId, edges)| == Count(edges, SourceIs(nodeId))
    decreases |edges|
  {
    if |edges| > 0 {
      ChildrenCount(nodeId, edges[1..]);
    }
  }

  /** Children of a concatenation are the children in each part. */
  lemma {:induction false} ChildrenAppend(nodeId: string, a: seq<MindMapEdge>, b: seq<MindMapEdge>)
    ensures Children(nodeId, a + b) == Children(nodeId, a) + Children(nodeId, b)
    decreases |a|
  {
    if |a| == 0 {
      assert a + b == b;
    } else {
      var head := if a[0].source == nodeId then [a[0].target] else [];
      assert (a + b)[0] == a[0];
      assert (a + b)[1..] == a[1..] + b;
      assert Children(nodeId, a + b) == head + Children(nodeId, a[1..] + b);
      ChildrenAppend(nodeId, a[1..], b);
      assert Children(nodeId, a) == head + Children(nodeId, a[1..]);
      var x, y := Children(nodeId, a[1..]), Children(nodeId, b);
      assert head + (x + y) == (head + x) + y;
    }
  }

  /** `getNodeParent`: the source of the first edge into `nodeId`, absent when
      there is none or when that source is the empty string. */
  function Parent(nodeId: string, edges: seq<MindMapEdge>): (r: Option<string>)
    ensures (forall e :: e in edges ==> e.target != nodeId) ==> r == None
    ensures r.Some? ==> r.value != "" && IsEdge(edges, r.value, nodeId)
    decreases |edges|
  {
    if |edges| == 0 then None
    else if edges[0].target == nodeId then
      if edges[0].source == "" then None else Some(edges[0].source)
    else
      assert forall e :: e in edges[1..] ==> e in edges;
      Parent(nodeId, edges[1..])
  }

  /** The parent is decided by the first edge into the node alone. */
  lemma {:induction false} ParentIsFirstEdgeSource(nodeId: string, edges: seq<MindMapEdge>, k: nat)
    requires k < |edges| && edges[k].target == nodeId
    requires forall j :: 0 <= j < k ==> edges[j].target != nodeId
    ensures Parent(nodeId, edges) == (if edges[k].source == "" then None else Some(edges[k].source))
    decreases k
  {
    if k > 0 {
      assert edges[1..][k - 1] == edges[k];
      assert forall j :: 0 <= j < k - 1 ==> edges[1..][j] == edges[j + 1];
      ParentIsFirstEdgeSource(nodeId, edges[1..], k - 1);
    }
  }

  // ---------------------------------------------------------------------------
  // Descendants
  // ---------------------------------------------------------------------------

  /** Every edge out of a visited node that may be left leads to a node already
      visited or still queued: the invariant of the breadth-first searches below. */
  ghost predicate Frontier(edges: seq<MindMapEdge>, visited: set<string>, queue: seq<string>, through: string -> bool) {
    forall v, c :: v in visited && through(v) && IsEdge(edges, v, c) ==> c in visited || c in queue
  }

  /** Dropping an already visited node from the queue keeps the frontier. */
  lemma FrontierSkip(edges: seq<MindMapEdge>, visited: set<string>, queue: seq<string>, through: string -> bool)
    requires |queue| > 0 && queue[0] in visited && Frontier(edges, visited, queue, through)
    ensures Frontier(edges, visited, queue[1..], through)
  {
    forall v, c | v in visited && through(v) && IsEdge(edges, v, c) ensures c in visited || c in queue[1..] {
      if c !in visited {
        assert c in queue && c != queue[0];
        var k :| 0 <= k < |queue| && queue[k] == c;
        assert queue[1..][k - 1] == c;
      }
    }
  }

  /** Visiting the queue's head and queueing its children (when it may be left) keeps the frontier. */
  lemma FrontierVisit(edges: seq<MindMapEdge>, visited: set<string>, queue: seq<string>, through: string -> bool)
    requires |queue| > 0 && Frontier(edges, visited, queue, through)
    ensures Frontier(edges, visited + {queue[0]}, queue[1..] + (if through(queue[0]) then Children(queue[0], edges) else []), through)
  {
    var current := queue[0];
    var next := queue[1..] + (if through(current) then Children(current, edges) else []);
    forall v, c | v in visited + {current} && through(v) && IsEdge(edges, v, c)
      ensures c in visited + {current} || c in next
    {
      if v == current {
        assert c in Children(current, edges);
      } else if c !in visited && c != current {
        assert c in queue;
        var k :| 0 <= k < |queue| && queue[k] == c;
        assert next[k - 1] == c;
      }
    }
  }

  /** The children of the visited nodes, after visiting one more. */
  lemma ChildrenOfVisited(edges: seq<MindMapEdge>, visited: set<string>, current: string, descendants: seq<string>)
    requires forall x :: x in descendants <==> exists v :: v in visited && IsEdge(edges, v, x)
    ensures forall x :: x in descendants + Children(current, edges) <==>
              exists v :: v in visited + {current} && IsEdge(edges, v, x)
  {
    forall x ensures x in descendants + Children(current, edges) <==>
                     exists v :: v in visited + {current} && IsEdge(edges, v, x)
    {
      if x in descendants {
        var v :| v in visited && IsEdge(edges, v, x);
        assert v in visited + {current};
      }
      if x in Children(current, edges) {
        assert current in visited + {current};
      }
    }
  }

  /** `getNodeDescendants`: a breadth-first search from `nodeId` that keeps a
      visited set and collects the children of every node it visits. The
      collected ids are exactly the children of the nodes reachable from
      `nodeId`, so the search ends even when the edges form a cycle. */
  method GetNodeDescendants(nodeId: string, edges: seq<MindMapEdge>) returns (descendants: seq<string>)
    ensures forall x :: x in descendants <==>
              exists v :: ReachableVia(edges, nodeId, v, Anywhere()) && IsEdge(edges, v, x)
  {
    descendants := [];
    var queue := [nodeId];
    var visited: set<string> := {};
    ghost var universe := {nodeId} + Targets(edges);
    ghost var through := Anywhere();
    ReachableSelf(edges, nodeId, through);
    while |queue| > 0
      invariant visited <= universe
      invariant forall q :: q in queue ==> q in universe && ReachableVia(edges, nodeId, q, through)
      invariant forall v :: v in visited ==> ReachableVia(edges, nodeId, v, through)
      invariant nodeId in visited || nodeId in queue
      invariant Frontier(edges, visited, queue, through)
      invariant forall x :: x in descendants <==> exists v :: v in visited && IsEdge(edges, v, x)
      decreases |universe - visited|, |queue|
    {
      var current := queue[0];
      if current in visited {
        FrontierSkip(edges, visited, queue, through);
        queue := queue[1..];
      } else {
        var children := Children(current, edges);
        FrontierVisit(edges, visited, queue, through);
        ChildrenOfVisited(edges, visited, current, descendants);
        ProperSubsetSmaller(universe - (visited + {current}), universe - visited);
        forall c | c in children ensures c in universe && ReachableVia(edges, nodeId, c, through) {
          var e :| e in edges && e.source == current && e.target == c;
          ReachableStep(edges, nodeId, current, c, through);
        }
        visited := visited + {current};
        descendants := descendants + children;
        queue := queue[1..] + children;
      }
    }
    forall x, v | ReachableVia(edges, nodeId, v, through) && IsEdge(edges, v, x)
      ensures x in descendants
    {
      ClosedHoldsReachable(edges, visited, nodeId, v, through);
    }
  }

  // ---------------------------------------------------------------------------
  // Ancestors
  // ---------------------------------------------------------------------------

  /** Following parent links from `nodeId` yields `chain` and then stops:
      `chain[0]` is `nodeId`'s parent, each next entry the parent of the one
      before, and the walk ends at an empty id or at a node without a parent. */
  ghost predicate ParentChain(edges: seq<MindMapEdge>, nodeId: string, chain: seq<string>)
    decreases |chain|
  {
    if |chain| == 0 then nodeId == "" || Parent(nodeId, edges) == None
    else nodeId != "" && Parent(nodeId, edges) == Some(chain[0]) && ParentChain(edges, chain[0], chain[1..])
  }

  /** `getNodeAncestors` follows parent links while the current id is non-empty.
      It keeps no visited set, so on a cyclic parent chain it never returns; the
      model takes a step budget and answers None when the chain has not ended
      within it. */
  function AncestorsWithin(nodeId: string, edges: seq<MindMapEdge>, fuel: nat): (r: Option<seq<string>>)
    ensures r.Some? ==> ParentChain(edges, nodeId, r.value) && |r.value| <= fuel
    decreases fuel
  {
    if nodeId == "" then Some([])
    else
      match Parent(nodeId, edges)
      case None => Some([])
      case Some(p) =>
        if fuel == 0 then None
        else
          match AncestorsWithin(p, edges, fuel - 1)
          case None => None
          case Some(rest) =>
            assert ([p] + rest)[1..] == rest;
            Some([p] + rest)
  }

  /** Conversely, a parent chain that ends is found by any budget at least its
      length: the loop returns exactly when the chain ends. */
  lemma {:induction false} AncestorsOfEndingChain(edges: seq<MindMapEdge>, nodeId: string, chain: seq<string>, fuel: nat)
    requires ParentChain(edges, nodeId, chain) && |chain| <= fuel
    ensures AncestorsWithin(nodeId, edges, fuel) == Some(chain)
    decreases |chain|
  {
    if |chain| > 0 {
      var p := chain[0];
      assert nodeId != "" && Parent(nodeId, edges) == Some(p);
      AncestorsOfEndingChain(edges, p, chain[1..], fuel - 1);
      assert [p] + chain[1..] == chain;
    }
  }

  /** Two nodes that are each other's parent. */
  function MutualParents(): seq<MindMapEdge> {
    [MindMapEdge("a-b", "a", "b"), MindMapEdge("b-a", "b", "a")]
  }

  /** On a cyclic parent chain no budget suffices: the source loop never ends. */
  lemma {:induction false} CyclicChainNeverEnds(fuel: nat)
    ensures AncestorsWithin("a", MutualParents(), fuel) == None
    ensures AncestorsWithin("b", MutualParents(), fuel) == None
    decreases fuel
  {
    var edges := MutualParents();
    ParentIsFirstEdgeSource("a", edges, 1);
    ParentIsFirstEdgeSource("b", edges, 0);
    if fuel > 0 {
      CyclicChainNeverEnds(fuel - 1);
    }
  }

  /** A parent chain is determined by its start: `Parent` is a function. */
  lemma {:induction false} ParentChainUnique(edges: seq<MindMapEdge>, nodeId: string, c1: seq<string>, c2: seq<string>)
    requires ParentChain(edges, nodeId, c1) && ParentChain(edges, nodeId, c2)
    ensures c1 == c2
    decreases |c1|
  {
    if |c1| > 0 && |c2| > 0 {
      ParentChainUnique(edges, c1[0], c1[1..], c2[1..]);
      assert c1 == [c1[0]] + c1[1..] && c2 == [c2[0]] + c2[1..];
    }
  }

  /** The chain from any entry onwards is that entry's own parent chain. */
  lemma {:induction false} ParentChainSuffix(edges: seq<MindMapEdge>, nodeId: string, chain: seq<string>, i: nat)
    requires ParentChain(edges, nodeId, chain) && i < |chain|
    ensures ParentChain(edges, chain[i], chain[i + 1..])
    decreases i
  {
    if i > 0 {
      ParentChainSuffix(edges, chain[0], chain[1..], i - 1);
      assert chain[1..][i - 1] == chain[i] && chain[1..][i..] == chain[i + 1..];
    }
  }

  /** A parent chain that ends never revisits a node: a repeat would make the
      walk go round for ever. */
  lemma ParentChainDistinct(edges: seq<MindMapEdge>, nodeId: string, chain: seq<string>)
    requires ParentChain(edges, nodeId, chain)
    ensures nodeId !in chain
    ensures forall i, j :: 0 <= i < j < |chain| ==> chain[i] != chain[j]
  {
    if nodeId in chain {
      var i :| 0 <= i < |chain| && chain[i] == nodeId;
      ParentChainSuffix(edges, nodeId, chain, i);
      ParentChainUnique(edges, nodeId, chain, chain[i + 1..]);
      assert false;
    }
    forall i, j | 0 <= i < j < |chain| ensures chain[i] != chain[j] {
      if chain[i] == chain[j] {
        ParentChainSuffix(edges, nodeId, chain, i);
        ParentChainSuffix(edges, nodeId, chain, j);
        ParentChainUnique(edges, chain[i], chain[i + 1..], chain[j + 1..]);
        assert false;
      }
    }
  }

  /** The ids parent links can lead to. */
  function SourceIds(edges: seq<MindMapEdge>): set<string> {
    set e | e in edges :: e.source
  }

  /** The corrected walk: it follows parent links but stops at a parent already
      in `seen`. */
  function AncestorsAvoiding(nodeId: string, edges: seq<MindMapEdge>, seen: set<string>): (r: seq<string>)
    ensures forall a :: a in r ==> a !in seen
    ensures forall i, j :: 0 <= i < j < |r| ==> r[i] != r[j]
    decreases |SourceIds(edges) - seen|
  {
    if nodeId == "" then []
    else
      match Parent(nodeId, edges)
      case None => []
      case Some(p) =>
        if p in seen then []
        else
          assert p in SourceIds(edges);
          ProperSubsetSmaller(SourceIds(edges) - (seen + {p}), SourceIds(edges) - seen);
          [p] + AncestorsAvoiding(p, edges, seen + {p})
  }

  /** `getNodeAncestors` with the visited check it lacks: on every graph it
      returns distinct ancestors, never the node itself. */
  function GetNodeAncestors(nodeId: string, edges: seq<MindMapEdge>): (r: seq<string>)
    ensures nodeId !in r
    ensures forall i, j :: 0 <= i < j < |r| ==> r[i] != r[j]
  {
    AncestorsAvoiding(nodeId, edges, {nodeId})
  }

  /** On a chain that ends, avoiding nodes off the chain changes nothing. */
  lemma {:induction false} AvoidingFollowsChain(edges: seq<MindMapEdge>, nodeId: string, chain: seq<string>, seen: set<string>)
    requires ParentChain(edges, nodeId, chain)
    requires forall a :: a in chain ==> a !in seen
    ensures AncestorsAvoiding(nodeId, edges, seen) == chain
    decreases |chain|
  {
    if |chain| > 0 {
      var p := chain[0];
      ParentChainDistinct(edges, p, chain[1..]);
      AvoidingFollowsChain(edges, p, chain[1..], seen + {p});
      assert [p] + chain[1..] == chain;
    }
  }

  /** The corrected walk returns what the source returns whenever the source
      returns at all. */
  lemma GetNodeAncestorsAgrees(nodeId: string, edges: seq<MindMapEdge>, fuel: nat)
    requires AncestorsWithin(nodeId, edges, fuel).Some?
    ensures GetNodeAncestors(nodeId, edges) == AncestorsWithin(nodeId, edges, fuel).value
  {
    var chain := AncestorsWithin(nodeId, edges, fuel).value;
    ParentChainDistinct(edges, nodeId, chain);
    AvoidingFollowsChain(edges, nodeId, chain, {nodeId});
  }

  /** On the two mutual parents the corrected walk stops after one step. */
  lemma CorrectedAncestorsStop()
    ensures GetNodeAncestors("a", MutualParents()) == ["b"]
    ensures GetNodeAncestors("b", MutualParents()) == ["a"]
  {
    var edges := MutualParents();
    ParentIsFirstEdgeSource("a", edges, 1);
    ParentIsFirstEdgeSource("b", edges, 0);
  }

  // ---------------------------------------------------------------------------
  // Root and node updates
  // ---------------------------------------------------------------------------

  /** `getRootNode`: the first node of type root, if any. */
  function GetRootNode(nodes: seq<MindMapNode>): (r: Option<MindMapNode>)
    ensures r.None? <==> forall n :: n in nodes ==> n.nodeType != Root
    ensures r.Some? ==> exists k :: 0 <= k < |nodes| && nodes[k] == r.value && r.value.nodeType == Root
                                    && forall j :: 0 <= j < k ==> nodes[j].nodeType != Root
    decreases |nodes|
  {
    if |nodes| == 0 then None
    else if nodes[0].nodeType == Root then Some(nodes[0])
    else
      var r := GetRootNode(nodes[1..]);
      assert forall n :: n in nodes <==> n == nodes[0] || n in nodes[1..];
      if r.Some? then
        var k :| 0 <= k < |nodes[1..]| && nodes[1..][k] == r.value && r.value.nodeType == Root
                 && forall j :: 0 <= j < k ==> nodes[1..][j].nodeType != Root;
        assert nodes[k + 1] == r.value;
        assert forall j :: 1 <= j < k + 1 ==> nodes[j] == nodes[1..][j - 1];
        r
      else r
  }

  /** Every node's child count, at once. */
  lemma ChildrenCountEverywhere(edges: seq<MindMapEdge>)
    ensures forall id :: |Children(id, edges)| == Count(edges, SourceIs(id))
  {
    forall id ensures |Children(id, edges)| == Count(edges, SourceIs(id)) {
      ChildrenCount(id, edges);
    }
  }

  /** `updateNodeChildCount`: every node's `childCount` becomes its out-degree;
      nothing else changes. */
  function UpdateNodeChildCount(nodes: seq<MindMapNode>, edges: seq<MindMapEdge>): (r: seq<MindMapNode>)
    ensures |r| == |nodes|
    ensures forall i :: 0 <= i < |nodes| ==> r[i].childCount == Count(edges, SourceIs(nodes[i].id))
    ensures forall i :: 0 <= i < |nodes| ==> r[i].(childCount := nodes[i].childCount) == nodes[i]
  {
    ChildrenCountEverywhere(edges);
    seq(|nodes|, i requires 0 <= i < |nodes| => nodes[i].(childCount := |Children(nodes[i].id, edges)|))
  }

  /** `toggleNodeExpanded`: exactly the nodes with id `nodeId` change, and only
      in their expanded flag. */
  function ToggleNodeExpanded(nodeId: string, nodes: seq<MindMapNode>): (r: seq<MindMapNode>)
    ensures |r| == |nodes|
    ensures forall i :: 0 <= i < |nodes| ==> (r[i] == nodes[i] <==> nodes[i].id != nodeId)
    ensures forall i :: 0 <= i < |nodes| ==> r[i].(isExpanded := nodes[i].isExpanded) == nodes[i]
  {
    seq(|nodes|, i requires 0 <= i < |nodes| =>
      if nodes[i].id == nodeId then nodes[i].(isExpanded := !nodes[i].isExpanded) else nodes[i])
  }

  /** `expandNode`: the nodes with id `nodeId` become expanded; nothing else changes. */
  function ExpandNode(nodeId: string, nodes: seq<MindMapNode>): (r: seq<MindMapNode>)
    ensures |r| == |nodes|
    ensures forall i :: 0 <= i < |nodes| ==> (nodes[i].id == nodeId ==> r[i].isExpanded)
    ensures forall i :: 0 <= i < |nodes| ==> (nodes[i].id != nodeId ==> r[i] == nodes[i])
    ensures forall i :: 0 <= i < |nodes| ==> r[i].(isExpanded := nodes[i].isExpanded) == nodes[i]
  {
    seq(|nodes|, i requires 0 <= i < |nodes| =>
      if nodes[i].id == nodeId then nodes[i].(isExpanded := true) else nodes[i])
  }

  /** `collapseNode`: the nodes with id `nodeId` become collapsed; nothing else changes. */
  function CollapseNode(nodeId: string, nodes: seq<MindMapNode>): (r: seq<MindMapNode>)
    ensures |r| == |nodes|
    ensures forall i :: 0 <= i < |nodes| ==> (nodes[i].id == nodeId ==> !r[i].isExpanded)
    ensures forall i :: 0 <= i < |nodes| ==> (nodes[i].id != nodeId ==> r[i] == nodes[i])
    ensures forall i :: 0 <= i < |nodes| ==> r[i].(isExpanded := nodes[i].isExpanded) == nodes[i]
  {
    seq(|nodes|, i requires 0 <= i < |nodes| =>
      if nodes[i].id == nodeId then nodes[i].(isExpanded := false) else nodes[i])
  }

  /** Toggling twice restores the nodes. */
  lemma ToggleInvolution(nodeId: string, nodes: seq<MindMapNode>)
    ensures ToggleNodeExpanded(nodeId, ToggleNodeExpanded(nodeId, nodes)) == nodes
  {
    var once := ToggleNodeExpanded(nodeId, nodes);
    var twice := ToggleNodeExpanded(nodeId, once);
    forall i | 0 <= i < |nodes| ensures twice[i] == nodes[i] {
      assert once[i].id == nodes[i].id;
    }
  }

  /** Toggling an expanded node collapses it; expanding or collapsing twice is
      doing it once. */
  lemma ToggleExpandedCollapses(nodeId: string, nodes: seq<MindMapNode>)
    requires forall i :: 0 <= i < |nodes| && nodes[i].id == nodeId ==> nodes[i].isExpanded
    ensures ToggleNodeExpanded(nodeId, nodes) == CollapseNode(nodeId, nodes)
    ensures ToggleNodeExpanded(nodeId, CollapseNode(nodeId, nodes)) == ExpandNode(nodeId, nodes)
    ensures ExpandNode(nodeId, ExpandNode(nodeId, nodes)) == ExpandNode(nodeId, nodes)
    ensures CollapseNode(nodeId, CollapseNode(nodeId, nodes)) == CollapseNode(nodeId, nodes)
  {
    var t, c, e := ToggleNodeExpanded(nodeId, nodes), CollapseNode(nodeId, nodes), ExpandNode(nodeId, nodes);
    forall i | 0 <= i < |nodes| ensures t[i] == c[i] {
      if nodes[i].id == nodeId {
        assert t[i].(isExpanded := true) == nodes[i];
      }
    }
    var tc := ToggleNodeExpanded(nodeId, c);
    forall i | 0 <= i < |nodes| ensures tc[i] == e[i] {
      assert c[i].id == nodes[i].id;
    }
    var ee, cc := ExpandNode(nodeId, e), CollapseNode(nodeId, c);
    forall i | 0 <= i < |nodes| ensures ee[i] == e[i] && cc[i] == c[i] {
      assert e[i].id == nodes[i].id && c[i].id == nodes[i].id;
    }
  }

  // ---------------------------------------------------------------------------
  // Visibility
  // ---------------------------------------------------------------------------

  /** The node's id is in `ids`. */
  function IdIn(ids: set<string>): MindMapNode -> bool {
    (n: MindMapNode) => n.id in ids
  }

  /** The breadth-first loop of `getVisibleNodes` as written: each step takes
      the queue's head, marks it visible and queues its children when it is
      expanded, with no check for ids already marked. On an expanded cycle the
      queue never empties; the model takes a step budget and answers None when
      the queue has not emptied within it. */
  function VisibleIdsWithin(queue: seq<string>, visible: set<string>, edges: seq<MindMapEdge>,
                            expanded: set<string>, fuel: nat): (r: Option<set<string>>)
    ensures r.Some? ==> visible <= r.value && forall q :: q in queue ==> q in r.value
    decreases fuel
  {
    if |queue| == 0 then Some(visible)
    else if fuel == 0 then None
    else
      var current := queue[0];
      var next := queue[1..] + (if current in expanded then Children(current, edges) else []);
      assert forall q :: q in queue ==> q == current || q in next;
      VisibleIdsWithin(next, visible + {current}, edges, expanded, fuel - 1)
  }

  /** When the as-written loop empties its queue, the ids it has marked are
      exactly those reachable from `root` through expanded nodes, provided the
      queue and the marked ids are reachable and every edge out of a marked
      expanded id leads to a marked or queued one, as at the start. */
  lemma {:induction false} VisibleIdsWithinReach(queue: seq<string>, visible: set<string>, edges: seq<MindMapEdge>,
                                                 expanded: set<string>, fuel: nat, root: string)
    requires forall q :: q in queue ==> ReachableVia(edges, root, q, InSet(expanded))
    requires forall v :: v in visible ==> ReachableVia(edges, root, v, InSet(expanded))
    requires root in visible || root in queue
    requires Frontier(edges, visible, queue, InSet(expanded))
    ensures var r := VisibleIdsWithin(queue, visible, edges, expanded, fuel);
            r.Some? ==> forall x :: x in r.value <==> ReachableVia(edges, root, x, InSet(expanded))
    decreases fuel
  {
    var through := InSet(expanded);
    if |queue| == 0 {
      forall x | ReachableVia(edges, root, x, through) ensures x in visible {
        ClosedHoldsReachable(edges, visible, root, x, through);
      }
    } else if fuel > 0 {
      var current := queue[0];
      var children := if current in expanded then Children(current, edges) else [];
      var next := queue[1..] + children;
      FrontierVisit(edges, visible, queue, through);
      forall c | c in children ensures ReachableVia(edges, root, c, through) {
        ReachableStep(edges, root, current, c, through);
      }
      assert forall q :: q in next ==> q in queue[1..] || q in children;
      assert forall q :: q in queue[1..] ==> q in queue;
      VisibleIdsWithinReach(next, visible + {current}, edges, expanded, fuel - 1, root);
    }
  }

  /** `getVisibleNodes` as written, under a step budget: with no root every node
      is visible; otherwise the nodes whose ids the loop marks, in their order. */
  function GetVisibleNodesWithin(nodes: seq<MindMapNode>, edges: seq<MindMapEdge>, expanded: set<string>,
                                 fuel: nat): (r: Option<seq<MindMapNode>>)
    ensures GetRootNode(nodes).None? ==> r == Some(nodes)
    ensures r.Some? ==> |r.value| <= |nodes| && forall n :: n in r.value ==> n in nodes
    ensures r.Some? && GetRootNode(nodes).Some? ==> GetRootNode(nodes).value in r.value
    ensures r.Some? && GetRootNode(nodes).Some? ==>
              forall n :: n in r.value <==>
                n in nodes && ReachableVia(edges, GetRootNode(nodes).value.id, n.id, InSet(expanded))
  {
    match GetRootNode(nodes)
    case None => Some(nodes)
    case Some(root) =>
      ReachableSelf(edges, root.id, InSet(expanded));
      VisibleIdsWithinReach([root.id], {}, edges, expanded, fuel, root.id);
      match VisibleIdsWithin([root.id], {}, edges, expanded, fuel)
      case None => None
      case Some(ids) => Some(Filter(nodes, IdIn(ids)))
  }

  /** A root that is its grandchild's child, with both on the cycle expanded. */
  function LoopNodes(): seq<MindMapNode> {
    [MindMapNode("r", "Topic", Root, None, true, 1)]
  }

  function LoopEdges(): seq<MindMapEdge> {
    [MindMapEdge("r-a", "r", "a"), MindMapEdge("a-r", "a", "r")]
  }

  /** On that map the as-written queue alternates between the two ids forever. */
  lemma {:induction false} LoopQueueNeverEmpties(visible: set<string>, fuel: nat)
    ensures VisibleIdsWithin(["r"], visible, LoopEdges(), {"r", "a"}, fuel) == None
    ensures VisibleIdsWithin(["a"], visible, LoopEdges(), {"r", "a"}, fuel) == None
    decreases fuel
  {
    var edges := LoopEdges();
    assert Children("r", edges) == ["a"];
    assert Children("a", edges) == ["r"];
    if fuel > 0 {
      LoopQueueNeverEmpties(visible + {"r"}, fuel - 1);
      LoopQueueNeverEmpties(visible + {"a"}, fuel - 1);
      assert ["r"][1..] + ["a"] == ["a"];
      assert ["a"][1..] + ["r"] == ["r"];
    }
  }

  /** So `getVisibleNodes` as written does not return on that map, whatever the budget. */
  lemma ExpandedCycleHangsVisibility(fuel: nat)
    ensures GetVisibleNodesWithin(LoopNodes(), LoopEdges(), {"r", "a"}, fuel) == None
  {
    assert GetRootNode(LoopNodes()) == Some(LoopNodes()[0]);
    LoopQueueNeverEmpties({}, fuel);
  }

  /** `getVisibleNodes` with the visited check the loop evidently intends (the
      one `getNodeDescendants` has): with no root every node is visible;
      otherwise exactly the nodes reachable from the root through expanded
      nodes, in their original order. It ends on every map. */
  method GetVisibleNodes(nodes: seq<MindMapNode>, edges: seq<MindMapEdge>, expanded: set<string>)
    returns (visible: seq<MindMapNode>)
    ensures GetRootNode(nodes).None? ==> visible == nodes
    ensures GetRootNode(nodes).Some? ==>
              forall n :: n in visible <==>
                n in nodes && ReachableVia(edges, GetRootNode(nodes).value.id, n.id, InSet(expanded))
    ensures |visible| <= |nodes|
  {
    var rootNode := GetRootNode(nodes);
    if rootNode.None? {
      return nodes;
    }
    var root := rootNode.value.id;
    var visibleIds: set<string> := {};
    var queue := [root];
    ghost var universe := {root} + Targets(edges);
    ghost var through := InSet(expanded);
    ReachableSelf(edges, root, through);
    while |queue| > 0
      invariant visibleIds <= universe
      invariant forall q :: q in queue ==> q in universe && ReachableVia(edges, root, q, through)
      invariant forall v :: v in visibleIds ==> ReachableVia(edges, root, v, through)
      invariant root in visibleIds || root in queue
      invariant Frontier(edges, visibleIds, queue, through)
      decreases |universe - visibleIds|, |queue|
    {
      var current := queue[0];
      if current in visibleIds {
        FrontierSkip(edges, visibleIds, queue, through);
        queue := queue[1..];
      } else {
        var children := if current in expanded then Children(current, edges) else [];
        FrontierVisit(edges, visibleIds, queue, through);
        ProperSubsetSmaller(universe - (visibleIds + {current}), universe - visibleIds);
        forall c | c in children ensures c in universe && ReachableVia(edges, root, c, through) {
          var e :| e in edges && e.source == current && e.target == c;
          ReachableStep(edges, root, current, c, through);
        }
        visibleIds := visibleIds + {current};
        queue := queue[1..] + children;
      }
    }
    forall x | ReachableVia(edges, root, x, through) ensures x in visibleIds {
      ClosedHoldsReachable(edges, visibleIds, root, x, through);
    }
    visible := Filter(nodes, IdIn(visibleIds));
  }

  /** The edge's two ends are in `ids`. */
  function BothEndsIn(ids: set<string>): MindMapEdge -> bool {
    (e: MindMapEdge) => e.source in ids && e.target in ids
  }

  /** `getVisibleEdges`: the edges whose two ends are visible, in their order. */
  function GetVisibleEdges(edges: seq<MindMapEdge>, visibleIds: set<string>): (r: seq<MindMapEdge>)
    ensures |r| <= |edges|
    ensures forall e :: e in r <==> e in edges && e.source in visibleIds && e.target in visibleIds
  {
    Filter(edges, BothEndsIn(visibleIds))
  }

  /** The visible edges are the subgraph the visible ids induce: a link survives
      exactly when it existed and both its ends are visible. */
  lemma VisibleEdgesInduced(edges: seq<MindMapEdge>, visibleIds: set<string>, a: string, b: string)
    ensures IsEdge(GetVisibleEdges(edges, visibleIds), a, b) <==>
              IsEdge(edges, a, b) && a in visibleIds && b in visibleIds
  {
    var r := GetVisibleEdges(edges, visibleIds);
    if IsEdge(edges, a, b) && a in visibleIds && b in visibleIds {
      var e :| e in edges && e.source == a && e.target == b;
      assert e in r;
    }
  }

  // ---------------------------------------------------------------------------
  // Conversion from generator output
  // ---------------------------------------------------------------------------

  /** A node as the generator produces it: an optional parent id and description. */
  datatype RawMindMapNode = RawMindMapNode(
    id: string,
    nodeLabel: string,
    nodeType: NodeType,
    parentId: Option<string>,
    description: Option<string>)

  /** `createMindMapEdge` without options: the id is `edge_<source>_<target>`. */
  function CreateMindMapEdge(sourceId: string, targetId: string): (r: MindMapEdge)
    ensures r.source == sourceId && r.target == targetId
    ensures StartsWith(r.id, "edge_") && |r.id| == 6 + |sourceId| + |targetId|
  {
    MindMapEdge("edge_" + sourceId + "_" + targetId, sourceId, targetId)
  }

  /** The raw node names a parent (a non-empty `parentId`). */
  function HasParent(): RawMindMapNode -> bool {
    (x: RawMindMapNode) => Truthy(x.parentId)
  }

  /** The raw node names `p` as its parent. */
  function ChildOf(p: string): RawMindMapNode -> bool {
    (x: RawMindMapNode) => Truthy(x.parentId) && x.parentId.value == p
  }

  /** One edge from parent to child per raw node that names a parent, in order. */
  function ParentEdges(raws: seq<RawMindMapNode>): (r: seq<MindMapEdge>)
    ensures |r| <= |raws|
    decreases |raws|
  {
    if |raws| == 0 then []
    else
      var x := raws[0];
      (if Truthy(x.parentId) then [CreateMindMapEdge(x.parentId.value, x.id)] else []) + ParentEdges(raws[1..])
  }

  /** A link from `a` to `b` exists exactly when some raw node `b` names `a` as parent. */
  lemma {:induction false} ParentEdgesLinks(raws: seq<RawMindMapNode>, a: string, b: string)
    ensures IsEdge(ParentEdges(raws), a, b) <==>
              exists x :: x in raws && Truthy(x.parentId) && x.parentId.value == a && x.id == b
    decreases |raws|
  {
    if |raws| > 0 {
      var x := raws[0];
      var head: seq<MindMapEdge> := if Truthy(x.parentId) then [CreateMindMapEdge(x.parentId.value, x.id)] else [];
      var rest := ParentEdges(raws[1..]);
      assert ParentEdges(raws) == head + rest;
      ParentEdgesLinks(raws[1..], a, b);
      if IsEdge(head + rest, a, b) {
        var e: MindMapEdge :| e in head + rest && e.source == a && e.target == b;
        if e in head {
          assert x in raws;
        } else {
          assert IsEdge(rest, a, b);
          var y :| y in raws[1..] && Truthy(y.parentId) && y.parentId.value == a && y.id == b;
          assert y in raws;
        }
      }
      if exists y :: y in raws && Truthy(y.parentId) && y.parentId.value == a && y.id == b {
        var y :| y in raws && Truthy(y.parentId) && y.parentId.value == a && y.id == b;
        if y == x {
          assert head[0] in head + rest;
        } else {
          assert y in raws[1..];
          var e: MindMapEdge :| e in rest && e.source == a && e.target == b;
          assert e in head + rest;
        }
      }
    }
  }

  /** The number of edges is the number of raw nodes that name a parent. */
  lemma {:induction false} ParentEdgesCount(raws: seq<RawMindMapNode>)
    ensures |ParentEdges(raws)| == Count(raws, HasParent())
    decreases |raws|
  {
    if |raws| > 0 {
      ParentEdgesCount(raws[1..]);
    }
  }

  /** A node's children in the converted edges are the raw nodes naming it as parent. */
  lemma {:induction false} ChildrenOfParentEdges(p: string, raws: seq<RawMindMapNode>)
    ensures |Children(p, ParentEdges(raws))| == Count(raws, ChildOf(p))
    decreases |raws|
  {
    if |raws| > 0 {
      var x := raws[0];
      var head: seq<MindMapEdge> := if Truthy(x.parentId) then [CreateMindMapEdge(x.parentId.value, x.id)] else [];
      assert ParentEdges(raws) == head + ParentEdges(raws[1..]);
      ChildrenAppend(p, head, ParentEdges(raws[1..]));
      ChildrenOfParentEdges(p, raws[1..]);
    }
  }

  /** A raw node rendered with no children counted yet: root and topic nodes start expanded. */
  function RawToNode(x: RawMindMapNode): MindMapNode {
    MindMapNode(x.id, x.nodeLabel, x.nodeType, x.description, x.nodeType == Root || x.nodeType == Topic, 0)
  }

  datatype Converted = Converted(nodes: seq<MindMapNode>, edges: seq<MindMapEdge>)

  /** `convertToReactFlowFormat`: one node per raw node, in order, keeping its
      id, label, type and description, expanded when root or topic, and with
      `childCount` the number of raw nodes naming it as parent; one edge per
      raw node that names a parent. */
  function ConvertToReactFlowFormat(raws: seq<RawMindMapNode>): (r: Converted)
    ensures |r.nodes| == |raws|
    ensures forall i :: 0 <= i < |raws| ==>
              && r.nodes[i].id == raws[i].id && r.nodes[i].nodeLabel == raws[i].nodeLabel
              && r.nodes[i].nodeType == raws[i].nodeType && r.nodes[i].description == raws[i].description
              && (r.nodes[i].isExpanded <==> raws[i].nodeType == Root || raws[i].nodeType == Topic)
    ensures forall i :: 0 <= i < |raws| ==> r.nodes[i].childCount == Count(raws, ChildOf(raws[i].id))
    ensures |r.edges| == Count(raws, HasParent())
    ensures forall a, b :: IsEdge(r.edges, a, b) <==>
              exists x :: x in raws && Truthy(x.parentId) && x.parentId.value == a && x.id == b
  {
    var nodes := seq(|raws|, i requires 0 <= i < |raws| => RawToNode(raws[i]));
    var edges := ParentEdges(raws);
    ParentEdgesCount(raws);
    forall a, b ensures IsEdge(edges, a, b) <==>
                          exists x :: x in raws && Truthy(x.parentId) && x.parentId.value == a && x.id == b {
      ParentEdgesLinks(raws, a, b);
    }
    ChildrenCountEverywhere(edges);
    forall i | 0 <= i < |raws| ensures Count(edges, SourceIs(raws[i].id)) == Count(raws, ChildOf(raws[i].id)) {
      ChildrenOfParentEdges(raws[i].id, raws);
    }
    Converted(UpdateNodeChildCount(nodes, edges), edges)
  }

  // ---------------------------------------------------------------------------
  // Cycle search
  // ---------------------------------------------------------------------------

  /** `c` is a cycle: a walk whose last node links back to its first. */
  ghost predicate IsCycle(edges: seq<MindMapEdge>, c: seq<string>) {
    IsWalk(edges, c, Anywhere()) && IsEdge(edges, c[|c| - 1], c[0])
  }

  /** Every edge's source, then its target, in edge order. */
  function Endpoints(edges: seq<MindMapEdge>): (r: seq<string>)
    ensures forall e :: e in edges ==> e.source in r && e.target in r
    decreases |edges|
  {
    if |edges| == 0 then []
    else
      assert forall e :: e in edges ==> e == edges[0] || e in edges[1..];
      [edges[0].source, edges[0].target] + Endpoints(edges[1..])
  }

  /** `seen` followed by the elements of `xs` not seen before, each once, in
      first-occurrence order: the iteration order of a JavaScript `Set`. */
  function InsertionOrder(xs: seq<string>, seen: seq<string>): (r: seq<string>)
    ensures forall x :: x in r <==> x in seen || x in xs
    decreases |xs|
  {
    if |xs| == 0 then seen
    else InsertionOrder(xs[1..], if xs[0] in seen then seen else seen + [xs[0]])
  }

  /** `Array.prototype.indexOf`: the first position of `x`, or -1. */
  function IndexOf(s: seq<string>, x: string): (r: int)
    ensures r >= -1 && (r == -1 <==> x !in s)
    ensures r >= 0 ==> r < |s| && s[r] == x
    decreases |s|
  {
    if |s| == 0 then -1
    else if s[0] == x then 0
    else
      assert forall y :: y in s <==> y == s[0] || y in s[1..];
      var k := IndexOf(s[1..], x);
      if k == -1 then -1 else k + 1
  }

  /** `Array.prototype.slice(start)`: a negative start counts from the end. */
  function SliceFrom(s: seq<string>, start: int): (r: seq<string>)
    ensures 0 <= start <= |s| ==> r == s[start..]
    ensures |r| <= |s|
  {
    if start < 0 then (if |s| + start < 0 then s else s[|s| + start..])
    else if start > |s| then []
    else s[start..]
  }

  /** `Array.prototype.pop` with its result dropped. */
  function DropLast(s: seq<string>): (r: seq<string>)
    ensures |s| > 0 ==> r + [s[|s| - 1]] == s
    ensures |s| == 0 ==> r == []
  {
    if |s| == 0 then [] else s[..|s| - 1]
  }

  /** The search state `findCycles` shares between calls of its inner `dfs`. */
  datatype DfsState = DfsState(visited: set<string>, stack: set<string>, path: seq<string>, cycles: seq<seq<string>>)

  datatype DfsOutcome = DfsOutcome(found: bool, state: DfsState)

  /** The state the corrected search keeps: the path is a walk, the recursion
      stack holds exactly the path's nodes, all of them visited, and every
      reported cycle is a cycle. */
  ghost predicate Tracked(edges: seq<MindMapEdge>, st: DfsState) {
    && (|st.path| > 0 ==> IsWalk(edges, st.path, Anywhere()))
    && (forall x :: x in st.stack <==> x in st.path)
    && st.stack <= st.visited
    && (forall c :: c in st.cycles ==> IsCycle(edges, c))
  }

  /** A walk extends by an edge out of its last node. */
  lemma WalkPush(edges: seq<MindMapEdge>, path: seq<string>, node: string)
    requires |path| > 0 ==> IsWalk(edges, path, Anywhere()) && IsEdge(edges, path[|path| - 1], node)
    ensures IsWalk(edges, path + [node], Anywhere())
  {
    var q := path + [node];
    forall i | 0 <= i < |q| - 1 ensures Anywhere()(q[i]) && IsEdge(edges, q[i], q[i + 1]) {
      if i < |path| - 1 {
        assert q[i] == path[i] && q[i + 1] == path[i + 1];
      } else {
        assert q[i] == path[|path| - 1] && q[i + 1] == node;
      }
    }
  }

  /** The tail of the path from an earlier visit of `nb` to the current node,
      closed by the edge back to `nb`, is a cycle. */
  lemma CycleFromPath(edges: seq<MindMapEdge>, path: seq<string>, k: int, nb: string)
    requires IsWalk(edges, path, Anywhere()) && 0 <= k < |path| && path[k] == nb
    requires IsEdge(edges, path[|path| - 1], nb)
    ensures IsCycle(edges, path[k..])
  {
    var c := path[k..];
    forall i | 0 <= i < |c| - 1 ensures Anywhere()(c[i]) && IsEdge(edges, c[i], c[i + 1]) {
      assert c[i] == path[k + i] && c[i + 1] == path[k + i + 1];
    }
    assert c[|c| - 1] == path[|path| - 1] && c[0] == nb;
  }

  /** Entering `node`: visited, on the recursion stack, at the end of the path. */
  function Enter(st: DfsState, node: string): DfsState {
    DfsState(st.visited + {node}, st.stack + {node}, st.path + [node], st.cycles)
  }

  /** Leaving `node`: off the path's end and off the recursion stack. */
  function Leave(st: DfsState, node: string): DfsState {
    st.(path := DropLast(st.path), stack := st.stack - {node})
  }

  /** Entering an unvisited node reached along an edge from the path's end keeps the state tracked. */
  lemma EnterTracked(edges: seq<MindMapEdge>, st: DfsState, node: string)
    requires Tracked(edges, st) && node !in st.visited
    requires |st.path| > 0 ==> IsEdge(edges, st.path[|st.path| - 1], node)
    ensures Tracked(edges, Enter(st, node))
  {
    WalkPush(edges, st.path, node);
  }

  /** Leaving the node just entered restores the path and the stack. */
  lemma LeaveRestores(edges: seq<MindMapEdge>, st: DfsState, scanned: DfsState, node: string)
    requires Tracked(edges, st) && node !in st.visited
    requires Tracked(edges, scanned) && scanned.path == st.path + [node] && scanned.stack == st.stack + {node}
    ensures Tracked(edges, Leave(scanned, node))
    ensures Leave(scanned, node).path == st.path && Leave(scanned, node).stack == st.stack
  {
    assert DropLast(scanned.path) == st.path;
    forall i | 0 <= i < |st.path| - 1 ensures IsEdge(edges, st.path[i], st.path[i + 1]) {
      assert st.path[i] == scanned.path[i] && st.path[i + 1] == scanned.path[i + 1];
    }
  }

  /** `dfs(node)` of `findCycles`: mark `node` visited, push it on the recursion
      stack and the path, and scan its neighbours. When the scan reports a
      cycle the source returns at once, leaving `node` on the path and the
      stack; `popOnFound` selects that behaviour (false) or the corrected one
      that unwinds in both cases (true). */
  function Dfs(edges: seq<MindMapEdge>, universe: set<string>, node: string, st: DfsState, popOnFound: bool): (r: DfsOutcome)
    requires forall e :: e in edges ==> e.target in universe
    requires node in universe && node !in st.visited && st.visited <= universe
    requires popOnFound ==> Tracked(edges, st) && (|st.path| > 0 ==> IsEdge(edges, st.path[|st.path| - 1], node))
    ensures st.visited + {node} <= r.state.visited <= universe
    ensures popOnFound ==> Tracked(edges, r.state) && r.state.path == st.path && r.state.stack == st.stack
    decreases |universe - st.visited|, 0
  {
    var entered := Enter(st, node);
    EnterStep(edges, universe, st, node, popOnFound);
    var scan := Neighbours(edges, universe, node, Children(node, edges), entered, popOnFound);
    if scan.found && !popOnFound then scan
    else
      LeaveStep(edges, st, node, scan.state, popOnFound);
      DfsOutcome(scan.found, Leave(scan.state, node))
  }

  /** Entering `node` shrinks the unvisited part of the universe and, in the
      corrected search, keeps the state tracked with `node` at the path's end. */
  lemma EnterStep(edges: seq<MindMapEdge>, universe: set<string>, st: DfsState, node: string, popOnFound: bool)
    requires node in universe && node !in st.visited && st.visited <= universe
    requires popOnFound ==> Tracked(edges, st) && (|st.path| > 0 ==> IsEdge(edges, st.path[|st.path| - 1], node))
    ensures Enter(st, node).visited <= universe
    ensures |universe - Enter(st, node).visited| < |universe - st.visited|
    ensures popOnFound ==> Tracked(edges, Enter(st, node)) && |Enter(st, node).path| > 0 && Enter(st, node).path[|Enter(st, node).path| - 1] == node
  {
    ProperSubsetSmaller(universe - Enter(st, node).visited, universe - st.visited);
    if popOnFound {
      EnterTracked(edges, st, node);
    }
  }

  /** In the corrected search, leaving `node` after its scan restores the path
      and the stack it was entered with. */
  lemma LeaveStep(edges: seq<MindMapEdge>, st: DfsState, node: string, scanned: DfsState, popOnFound: bool)
    requires popOnFound ==> Tracked(edges, st) && node !in st.visited
    requires popOnFound ==> Tracked(edges, scanned) && scanned.path == st.path + [node] && scanned.stack == st.stack + {node}
    ensures popOnFound ==> Tracked(edges, Leave(scanned, node)) && Leave(scanned, node).path == st.path && Leave(scanned, node).stack == st.stack
  {
    if popOnFound {
      LeaveRestores(edges, st, scanned, node);
    }
  }

  /** The state after meeting `nb` on the recursion stack: the path from `nb`'s
      position on is recorded as a cycle. */
  function Closed(st: DfsState, nb: string): DfsState {
    st.(cycles := st.cycles + [SliceFrom(st.path, IndexOf(st.path, nb))])
  }

  /** The neighbour loop of `dfs(node)`: an unvisited neighbour is searched in
      turn; a visited one still on the recursion stack closes a cycle, which is
      the path from that neighbour's position on; others are skipped. */
  function Neighbours(edges: seq<MindMapEdge>, universe: set<string>, node: string, neighbours: seq<string>,
                      st: DfsState, popOnFound: bool): (r: DfsOutcome)
    requires forall e :: e in edges ==> e.target in universe
    requires st.visited <= universe && forall n :: n in neighbours ==> IsEdge(edges, node, n)
    requires popOnFound ==> Tracked(edges, st) && |st.path| > 0 && st.path[|st.path| - 1] == node
    ensures st.visited <= r.state.visited <= universe
    ensures popOnFound ==> Tracked(edges, r.state) && r.state.path == st.path && r.state.stack == st.stack
    decreases |universe - st.visited|, |neighbours|
  {
    if |neighbours| == 0 then DfsOutcome(false, st)
    else
      var nb := neighbours[0];
      assert IsEdge(edges, node, nb);
      assert nb in universe by {
        var e :| e in edges && e.source == node && e.target == nb;
      }
      if nb !in st.visited then
        var sub := Dfs(edges, universe, nb, st, popOnFound);
        if sub.found then sub
        else
          SubsetNoLarger(universe - sub.state.visited, universe - st.visited);
          Neighbours(edges, universe, node, neighbours[1..], sub.state, popOnFound)
      else if nb in st.stack then
        var k := IndexOf(st.path, nb);
        assert popOnFound ==> IsCycle(edges, SliceFrom(st.path, k)) by {
          if popOnFound {
            CycleFromPath(edges, st.path, k, nb);
          }
        }
        DfsOutcome(true, st.(cycles := st.cycles + [SliceFrom(st.path, k)]))
      else Neighbours(edges, universe, node, neighbours[1..], st, popOnFound)
  }

  /** The outer loop of `findCycles`: start a search from every node not yet visited, in order. */
  function SearchAll(edges: seq<MindMapEdge>, universe: set<string>, ids: seq<string>, st: DfsState, popOnFound: bool): (r: DfsState)
    requires forall e :: e in edges ==> e.target in universe
    requires st.visited <= universe && forall x :: x in ids ==> x in universe
    requires popOnFound ==> Tracked(edges, st) && st.path == []
    ensures st.visited <= r.visited <= universe
    ensures popOnFound ==> Tracked(edges, r) && r.path == []
    decreases |ids|
  {
    if |ids| == 0 then st
    else if ids[0] in st.visited then SearchAll(edges, universe, ids[1..], st, popOnFound)
    else
      var r := Dfs(edges, universe, ids[0], st, popOnFound);
      SearchAll(edges, universe, ids[1..], r.state, popOnFound)
  }

  /** The elements of `s` as a set. */
  function Members(s: seq<string>): (r: set<string>)
    ensures forall x :: x in r <==> x in s
    decreases |s|
  {
    if |s| == 0 then {}
    else
      assert forall x :: x in s <==> x == s[0] || x in s[1..];
      {s[0]} + Members(s[1..])
  }

  /** `findCycles` with the given unwinding behaviour. */
  function FindCyclesWith(edges: seq<MindMapEdge>, popOnFound: bool): (r: seq<seq<string>>)
    ensures popOnFound ==> forall c :: c in r ==> IsCycle(edges, c)
  {
    var ids := InsertionOrder(Endpoints(edges), []);
    var universe := Members(ids);
    SearchAll(edges, universe, ids, DfsState({}, {}, [], []), popOnFound).cycles
  }

  /** `findCycles` as written: a search that found a cycle leaves its path on
      the shared path and recursion stack. */
  function FindCyclesAsWritten(edges: seq<MindMapEdge>): seq<seq<string>> {
    FindCyclesWith(edges, false)
  }

  /** `findCycles` with the unwinding the search evidently intends: every path
      it reports is a cycle of the edges. */
  function FindCycles(edges: seq<MindMapEdge>): (r: seq<seq<string>>)
    ensures forall c :: c in r ==> |c| > 0 && IsCycle(edges, c)
  {
    FindCyclesWith(edges, true)
  }

  /** A two-node cycle `a`, `b` and a node `c` that only links into it. */
  function TailIntoCycle(): seq<MindMapEdge> {
    [MindMapEdge("a-b", "a", "b"), MindMapEdge("b-a", "b", "a"), MindMapEdge("c-a", "c", "a")]
  }

  lemma TailIntoCycleChildren(id: string)
    requires id == "a" || id == "b" || id == "c"
    ensures Children(id, TailIntoCycle()) == (if id == "a" then ["b"] else ["a"])
  {
    var edges := TailIntoCycle();
    assert |edges[3..]| == 0;
    var last: seq<string> := if id == "c" then ["a"] else [];
    assert Children(id, edges[2..]) == last + Children(id, edges[3..]);
    var mid: seq<string> := if id == "b" then ["a"] else [];
    assert Children(id, edges[1..]) == mid + Children(id, edges[2..]);
  }

  lemma TailIntoCycleEndpoints()
    ensures Endpoints(TailIntoCycle()) == ["a", "b", "b", "a", "c", "a"]
  {
    var edges := TailIntoCycle();
    assert |edges[3..]| == 0;
    assert Endpoints(edges[2..]) == ["c", "a"];
    assert Endpoints(edges[1..]) == ["b", "a", "c", "a"];
  }

  lemma InsertionOrderTail()
    ensures InsertionOrder(["a", "c", "a"], ["a", "b"]) == ["a", "b", "c"]
  {
    var abc := ["a", "b", "c"];
    assert InsertionOrder([], abc) == abc;
    assert "a" in abc;
    assert InsertionOrder(["a"], abc) == abc;
    assert "c" !in ["a", "b"] && ["a", "b"] + ["c"] == abc;
    assert InsertionOrder(["c", "a"], ["a", "b"]) == abc;
    assert "a" in ["a", "b"];
  }

  lemma InsertionOrderHead()
    ensures InsertionOrder(["b", "b", "a", "c", "a"], ["a"]) == ["a", "b", "c"]
  {
    InsertionOrderTail();
    assert "b" in ["a", "b"];
    assert InsertionOrder(["b", "a", "c", "a"], ["a", "b"]) == ["a", "b", "c"];
    assert "b" !in ["a"] && ["a"] + ["b"] == ["a", "b"];
  }

  lemma InsertionOrderAll()
    ensures InsertionOrder(["a", "b", "b", "a", "c", "a"], []) == ["a", "b", "c"]
  {
    InsertionOrderHead();
    var xs := ["a", "b", "b", "a", "c", "a"];
    var none: seq<string> := [];
    assert xs[1..] == ["b", "b", "a", "c", "a"];
    assert xs[0] !in none && none + [xs[0]] == ["a"];
  }

  lemma TailIntoCycleIds()
    ensures InsertionOrder(Endpoints(TailIntoCycle()), []) == ["a", "b", "c"]
  {
    TailIntoCycleEndpoints();
    InsertionOrderAll();
  }

  lemma TailIntoCycleShape()
    ensures Children("a", TailIntoCycle()) == ["b"]
    ensures Children("b", TailIntoCycle()) == ["a"]
    ensures Children("c", TailIntoCycle()) == ["a"]
    ensures InsertionOrder(Endpoints(TailIntoCycle()), []) == ["a", "b", "c"]
  {
    TailIntoCycleChildren("a");
    TailIntoCycleChildren("b");
    TailIntoCycleChildren("c");
    TailIntoCycleIds();
  }

  lemma TailIntoCycleLinks()
    ensures forall e :: e in TailIntoCycle() ==> e.target in {"a", "b", "c"}
    ensures IsEdge(TailIntoCycle(), "a", "b") && IsEdge(TailIntoCycle(), "b", "a") && IsEdge(TailIntoCycle(), "c", "a")
    ensures "a" != "b" && "a" != "c" && "b" != "c"
  {
    var edges := TailIntoCycle();
    assert edges[0] in edges && edges[1] in edges && edges[2] in edges;
    assert "a"[0] != "b"[0] && "a"[0] != "c"[0] && "b"[0] != "c"[0];
  }

  /** What `dfs(node)` demands of its state. */
  ghost predicate DfsReady(edges: seq<MindMapEdge>, universe: set<string>, node: string, st: DfsState, popOnFound: bool) {
    && (forall e :: e in edges ==> e.target in universe)
    && node in universe && node !in st.visited && st.visited <= universe
    && (popOnFound ==> Tracked(edges, st) && (|st.path| > 0 ==> IsEdge(edges, st.path[|st.path| - 1], node)))
  }

  /** What the neighbour loop of `dfs(node)` demands of its state. */
  ghost predicate ScanReady(edges: seq<MindMapEdge>, universe: set<string>, node: string, neighbours: seq<string>,
                            st: DfsState, popOnFound: bool) {
    && (forall e :: e in edges ==> e.target in universe)
    && st.visited <= universe && (forall n :: n in neighbours ==> IsEdge(edges, node, n))
    && (popOnFound ==> Tracked(edges, st) && |st.path| > 0 && st.path[|st.path| - 1] == node)
  }

  /** What the outer loop demands of its state. */
  ghost predicate AllReady(edges: seq<MindMapEdge>, universe: set<string>, ids: seq<string>, st: DfsState, popOnFound: bool) {
    && (forall e :: e in edges ==> e.target in universe)
    && st.visited <= universe && (forall x :: x in ids ==> x in universe)
    && (popOnFound ==> Tracked(edges, st) && st.path == [])
  }

  /** `dfs(node)` applies to the state and yields `out`. */
  ghost predicate DfsGives(edges: seq<MindMapEdge>, universe: set<string>, node: string, st: DfsState, popOnFound: bool,
                           out: DfsOutcome) {
    DfsReady(edges, universe, node, st, popOnFound) && Dfs(edges, universe, node, st, popOnFound) == out
  }

  /** The neighbour loop applies to the state and yields `out`. */
  ghost predicate ScanGives(edges: seq<MindMapEdge>, universe: set<string>, node: string, neighbours: seq<string>,
                            st: DfsState, popOnFound: bool, out: DfsOutcome) {
    ScanReady(edges, universe, node, neighbours, st, popOnFound) && Neighbours(edges, universe, node, neighbours, st, popOnFound) == out
  }

  /** The outer loop applies to the state and yields `out`. */
  ghost predicate AllGives(edges: seq<MindMapEdge>, universe: set<string>, ids: seq<string>, st: DfsState, popOnFound: bool,
                           out: DfsState) {
    AllReady(edges, universe, ids, st, popOnFound) && SearchAll(edges, universe, ids, st, popOnFound) == out
  }

  /** One call of `dfs(node)` in terms of its neighbour scan. */
  lemma DfsStep(edges: seq<MindMapEdge>, universe: set<string>, node: string, st: DfsState, popOnFound: bool,
                scan: DfsOutcome)
    requires DfsReady(edges, universe, node, st, popOnFound)
    requires ScanGives(edges, universe, node, Children(node, edges), Enter(st, node), popOnFound, scan)
    ensures DfsGives(edges, universe, node, st, popOnFound,
                     if scan.found && !popOnFound then scan else DfsOutcome(scan.found, Leave(scan.state, node)))
  {
  }

  /** A scan whose first neighbour is unvisited and whose search from it reports a cycle. */
  lemma ScanFound(edges: seq<MindMapEdge>, universe: set<string>, node: string, neighbours: seq<string>,
                  st: DfsState, popOnFound: bool, sub: DfsOutcome)
    requires ScanReady(edges, universe, node, neighbours, st, popOnFound) && |neighbours| > 0
    requires DfsGives(edges, universe, neighbours[0], st, popOnFound, sub) && sub.found
    ensures ScanGives(edges, universe, node, neighbours, st, popOnFound, sub)
  {
  }

  /** A scan whose first neighbour is on the recursion stack reports the cycle. */
  lemma ScanOnStack(edges: seq<MindMapEdge>, universe: set<string>, node: string, neighbours: seq<string>,
                    st: DfsState, popOnFound: bool)
    requires ScanReady(edges, universe, node, neighbours, st, popOnFound)
    requires |neighbours| > 0 && neighbours[0] in st.visited && neighbours[0] in st.stack
    ensures ScanGives(edges, universe, node, neighbours, st, popOnFound, DfsOutcome(true, Closed(st, neighbours[0])))
  {
  }

  /** The outer loop skips a visited id and runs a search from an unvisited one. */
  lemma AllStep(edges: seq<MindMapEdge>, universe: set<string>, ids: seq<string>, st: DfsState, popOnFound: bool,
                next: DfsState, out: DfsState)
    requires AllReady(edges, universe, ids, st, popOnFound) && |ids| > 0
    requires ids[0] in st.visited ==> next == st
    requires ids[0] !in st.visited ==> exists found :: DfsGives(edges, universe, ids[0], st, popOnFound, DfsOutcome(found, next))
    requires AllGives(edges, universe, ids[1..], next, popOnFound, out)
    ensures AllGives(edges, universe, ids, st, popOnFound, out)
  {
  }

  /** The example's shape: `a` and `b` link to each other and `c` links only into `a`. */
  ghost predicate TailShape(edges: seq<MindMapEdge>) {
    && Children("a", edges) == ["b"] && Children("b", edges) == ["a"] && Children("c", edges) == ["a"]
    && (forall e :: e in edges ==> e.target in {"a", "b", "c"})
  }

  lemma TailIntoCycleShaped()
    ensures TailShape(TailIntoCycle())
  {
    TailIntoCycleLinks();
    TailIntoCycleShape();
  }

  /** The node set of the example. */
  function Abc(): set<string> {
    {"a", "b", "c"}
  }

  /** The search state before any node is entered. */
  function Start(): DfsState {
    DfsState({}, {}, [], [])
  }

  /** The search has entered `a`. */
  function AtA(): DfsState {
    Enter(Start(), "a")
  }

  /** The search has entered `a`, then `b`. */
  function AtB(): DfsState {
    Enter(AtA(), "b")
  }

  /** The example's ids are distinct. */
  lemma DistinctIds()
    ensures "a" != "b" && "a" != "c" && "b" != "c"
  {
    assert "a"[0] != "b"[0] && "a"[0] != "c"[0] && "b"[0] != "c"[0];
  }

  /** The edges of the example and the states on the way into `b`. */
  lemma IntoB(edges: seq<MindMapEdge>)
    requires TailShape(edges)
    ensures IsEdge(edges, "a", "b") && IsEdge(edges, "b", "a") && IsEdge(edges, "c", "a")
    ensures AtA().visited <= Abc() && AtB().visited <= Abc()
    ensures "b" !in AtA().visited && "a" in AtB().visited && "a" in AtB().stack
  {
    DistinctIds();
    assert "b" in Children("a", edges) && "a" in Children("b", edges) && "a" in Children("c", edges);
  }

  /** Scanning `b`'s neighbour `a`, which is on the stack, closes the cycle `a`, `b`;
      as written the search from `b` then returns at once. */
  lemma SearchFromB(edges: seq<MindMapEdge>)
    requires TailShape(edges)
    ensures DfsGives(edges, Abc(), "b", AtA(), false, DfsOutcome(true, Closed(AtB(), "a")))
  {
    IntoB(edges);
    ScanOnStack(edges, Abc(), "b", ["a"], AtB(), false);
    DfsStep(edges, Abc(), "b", AtA(), false, DfsOutcome(true, Closed(AtB(), "a")));
  }

  /** As written, the search from `a` returns as soon as the search from `b` does,
      leaving `a` and `b` on the path and the recursion stack. */
  lemma SearchFromA(edges: seq<MindMapEdge>)
    requires TailShape(edges)
    ensures DfsGives(edges, Abc(), "a", Start(), false, DfsOutcome(true, Closed(AtB(), "a")))
  {
    IntoB(edges);
    SearchFromB(edges);
    ScanFound(edges, Abc(), "a", ["b"], AtA(), false, DfsOutcome(true, Closed(AtB(), "a")));
    DfsStep(edges, Abc(), "a", Start(), false, DfsOutcome(true, Closed(AtB(), "a")));
  }

  /** The state once the search from `c` has entered `c`. */
  function AtC(): DfsState {
    Enter(Closed(AtB(), "a"), "c")
  }

  /** The state the search from `a` leaves behind, and the one the search from `c` enters. */
  lemma IntoC()
    ensures "b" in Closed(AtB(), "a").visited && "c" !in Closed(AtB(), "a").visited
    ensures Closed(AtB(), "a").visited <= Abc() && AtC().visited <= Abc()
    ensures "a" in AtC().visited && "a" in AtC().stack
  {
    DistinctIds();
  }

  /** ... so the scan from `c` meets `a` on the stale stack and reports `a`, `b`, `c`. */
  lemma ScanFromC(edges: seq<MindMapEdge>)
    requires TailShape(edges)
    ensures ScanGives(edges, Abc(), "c", ["a"], AtC(), false, DfsOutcome(true, Closed(AtC(), "a")))
  {
    IntoB(edges);
    IntoC();
    assert ScanReady(edges, Abc(), "c", ["a"], AtC(), false);
    ScanOnStack(edges, Abc(), "c", ["a"], AtC(), false);
  }

  lemma SearchFromC(edges: seq<MindMapEdge>)
    requires TailShape(edges)
    ensures DfsGives(edges, Abc(), "c", Closed(AtB(), "a"), false, DfsOutcome(true, Closed(AtC(), "a")))
  {
    IntoC();
    DistinctIds();
    ScanFromC(edges);
    DfsStep(edges, Abc(), "c", Closed(AtB(), "a"), false, DfsOutcome(true, Closed(AtC(), "a")));
  }

  /** The outer loop as written: `b` is already visited, the search from `c` reports the stale path. */
  lemma OuterLoop(edges: seq<MindMapEdge>)
    requires TailShape(edges)
    ensures SearchAll(edges, Abc(), ["a", "b", "c"], Start(), false) == Closed(AtC(), "a")
  {
    var t, t2 := Closed(AtB(), "a"), Closed(AtC(), "a");
    SearchFromA(edges);
    SearchFromC(edges);
    assert AllGives(edges, Abc(), [], t2, false, t2);
    assert ["c"][1..] == [] && ["b", "c"][1..] == ["c"] && ["a", "b", "c"][1..] == ["b", "c"];
    AllStep(edges, Abc(), ["c"], t, false, t2, t2);
    AllStep(edges, Abc(), ["b", "c"], t, false, t, t2);
    AllStep(edges, Abc(), ["a", "b", "c"], Start(), false, t, t2);
  }

  /** The cycles the search as written collects. */
  lemma CyclesCollected()
    ensures Closed(AtC(), "a").cycles == [["a", "b"], ["a", "b", "c"]]
  {
    var ab := AtB().path;
    assert ab == ["a", "b"] && IndexOf(ab, "a") == 0;
    assert AtC().path == ["a", "b", "c"] && IndexOf(AtC().path, "a") == 0;
  }

  lemma NoLinkFromBToC()
    ensures !IsEdge(TailIntoCycle(), "b", "c")
  {
    var edges := TailIntoCycle();
    forall e | e in edges ensures !(e.source == "b" && e.target == "c") {
      assert e == edges[0] || e == edges[1] || e == edges[2];
    }
  }

  /** The path `a`, `b`, `c` is not a cycle of the example. */
  lemma NotACycle()
    ensures !IsCycle(TailIntoCycle(), ["a", "b", "c"])
  {
    NoLinkFromBToC();
    var p := ["a", "b", "c"];
    assert p[1] == "b" && p[2] == "c";
  }

  /** The corrected search never reports a path that is not a cycle. */
  lemma NeverReported(edges: seq<MindMapEdge>, p: seq<string>)
    requires !IsCycle(edges, p)
    ensures p !in FindCycles(edges)
  {
  }

  /** On this map the outer loop runs over `a`, `b`, `c`. */
  lemma TailIntoCycleSearch(popOnFound: bool)
    ensures FindCyclesWith(TailIntoCycle(), popOnFound)
         == SearchAll(TailIntoCycle(), Abc(), ["a", "b", "c"], Start(), popOnFound).cycles
  {
    TailIntoCycleIds();
    TailIntoCycleMembers();
  }

  lemma TailIntoCycleMembers()
    ensures Members(["a", "b", "c"]) == Abc()
  {
    var ids := ["a", "b", "c"];
    assert Members(ids[2..]) == {"c"};
    assert Members(ids[1..]) == {"b", "c"};
  }

  /** `findCycles` as written reports `a`, `b`, `c` as a cycle although no edge
      leads from `b` to `c`. */
  lemma AsWrittenReportsNonCycle()
    ensures FindCyclesAsWritten(TailIntoCycle()) == [["a", "b"], ["a", "b", "c"]]
    ensures !IsCycle(TailIntoCycle(), ["a", "b", "c"])
  {
    TailIntoCycleSearch(false);
    TailIntoCycleShaped();
    OuterLoop(TailIntoCycle());
    CyclesCollected();
    NotACycle();
  }

  /** With the unwinding, the same map never yields `a`, `b`, `c`: every path the
      corrected search reports is a cycle. */
  lemma CorrectedRejectsNonCycle()
    ensures ["a", "b", "c"] !in FindCycles(TailIntoCycle())
  {
    NotACycle();
    NeverReported(TailIntoCycle(), ["a", "b", "c"]);
  }

}
