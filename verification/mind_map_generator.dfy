/** The server-side mind-map builder: a language model's JSON answer lists
    nodes with optional parent references; the builder keeps the first
    `max_nodes` of them, drops those deeper than `max_depth`, and links each
    kept node to the most recent kept node that carries its parent's id. */
module MindMapGenerator {
  import opened Common
  import opened LlmResponse

  /** One entry of the answer's `nodes` list; an absent key is `None`. */
  datatype RawNode = RawNode(
    id: Option<string>,
    nodeLabel: Option<string>,
    nodeType: Option<string>,
    description: Option<string>,
    parentId: Option<string>)

  /** The decoded answer: `title`, `description` and `nodes`, each optional. */
  datatype MapData = MapData(title: Option<string>, description: Option<string>, nodes: Option<seq<RawNode>>)

  /** `MindMapNode`: its children are the ids linked under it while building. */
  datatype MindMapNode = MindMapNode(
    id: string,
    nodeLabel: string,
    nodeType: string,
    description: string,
    parentId: Option<string>,
    children: seq<string>)

  /** `MindMapEdge` with its default label and style. */
  datatype MindMapEdge = MindMapEdge(id: string, source: string, target: string, edgeLabel: string, style: string)

  /** The dictionary form of a node handed to the client. */
  datatype NodeDict = NodeDict(
    id: string,
    nodeLabel: string,
    nodeType: string,
    description: string,
    parentId: Option<string>,
    childCount: nat,
    isExpanded: bool)

  /** `MindMapNode.to_dict`: the child count is the length of the children list,
      and every node starts expanded. */
  function ToDict(n: MindMapNode): (d: NodeDict)
    ensures d.childCount == |n.children| && d.isExpanded
    ensures d.id == n.id && d.parentId == n.parentId
  {
    NodeDict(n.id, n.nodeLabel, n.nodeType, n.description, n.parentId, |n.children|, true)
  }

  function ChildCount(n: MindMapNode): nat {
    |n.children|
  }

  function DictChildCount(d: NodeDict): nat {
    d.childCount
  }

  function ToDicts(ns: seq<MindMapNode>): (r: seq<NodeDict>)
    ensures |r| == |ns|
    ensures forall i :: 0 <= i < |ns| ==> r[i] == ToDict(ns[i])
    decreases |ns|
  {
    if |ns| == 0 then [] else [ToDict(ns[0])] + ToDicts(ns[1..])
  }

  /** The child counts handed to the client add up to the children recorded. */
  lemma {:induction false} ToDictsChildTotal(ns: seq<MindMapNode>)
    ensures SumOf(ToDicts(ns), DictChildCount) == SumOf(ns, ChildCount)
    decreases |ns|
  {
    if |ns| > 0 {
      ToDictsChildTotal(ns[1..]);
      assert ToDicts(ns)[1..] == ToDicts(ns[1..]);
    }
  }

  // ---------------------------------------------------------------------------
  // Parsing the answer
  // ---------------------------------------------------------------------------

  /** The structure `_parse_response` returns when the answer does not decode. */
  const FallbackNode := RawNode(Some("root"), Some("Main Topic"), Some("root"), None, None)
  const FallbackData := MapData(Some("Mind Map"), Some(""), Some([FallbackNode]))

  /** `_parse_response`: decode the unwrapped answer with `decode`, a stand-in
      for `json.loads`, or return the one-node fallback map. */
  function ParseMapResponse(response: string, decode: string -> Option<MapData>): (r: MapData)
    ensures decode(UnwrapFence(response)).None? ==> r == FallbackData
    ensures decode(UnwrapFence(response)).Some? ==> r == decode(UnwrapFence(response)).value
  {
    ParseResponse(response, decode, FallbackData)
  }

  // ---------------------------------------------------------------------------
  // Depth of a node
  // ---------------------------------------------------------------------------

  /** `next(n for n in all_nodes if n.get("id") == p)`: the first node whose own
      id key is `p`. */
  function FirstWithId(all: seq<RawNode>, p: string): (r: Option<RawNode>)
    ensures r.Some? ==> r.value in all && r.value.id == Some(p)
    ensures r.None? <==> forall n :: n in all ==> n.id != Some(p)
    decreases |all|
  {
    if |all| == 0 then None
    else if all[0].id == Some(p) then Some(all[0])
    else FirstWithId(all[1..], p)
  }

  /** Every parent reference made by some node of `all`. */
  ghost function ParentRefs(all: seq<RawNode>): set<string> {
    set n | n in all && n.parentId.Some? :: n.parentId.value
  }

  /** The steps `_calculate_depth` still takes from the reference `p`: look `p`
      up, and continue with its own parent unless that is missing, empty, or
      already seen (the cycle guard). */
  function Climb(p: string, all: seq<RawNode>, visited: set<string>): (r: nat)
    decreases |ParentRefs(all) - visited|
  {
    match FirstWithId(all, p)
    case None => 0
    case Some(n) =>
      if !Truthy(n.parentId) || n.parentId.value in visited then 0
      else
        var q := n.parentId.value;
        assert |ParentRefs(all) - (visited + {q})| < |ParentRefs(all) - visited| by {
          assert q in ParentRefs(all);
          ProperSubsetSmaller(ParentRefs(all) - (visited + {q}), ParentRefs(all) - visited);
        }
        1 + Climb(q, all, visited + {q})
  }

  /** `_calculate_depth`: the number of distinct parent references followed from
      `raw` up through `all`, counting a reference that names no node. A node
      without a (non-empty) parent reference has depth 0, and only it. */
  function Depth(raw: RawNode, all: seq<RawNode>): (r: nat)
    ensures r == 0 <==> !Truthy(raw.parentId)
  {
    if Truthy(raw.parentId) then 1 + Climb(raw.parentId.value, all, {raw.parentId.value}) else 0
  }

  /** Each step of the climb follows a reference not seen before. */
  lemma {:induction false} ClimbBounded(p: string, all: seq<RawNode>, visited: set<string>)
    ensures Climb(p, all, visited) <= |ParentRefs(all) - visited|
    decreases |ParentRefs(all) - visited|
  {
    match FirstWithId(all, p)
    case None =>
    case Some(n) =>
      if Truthy(n.parentId) && n.parentId.value !in visited {
        var q := n.parentId.value;
        assert q in ParentRefs(all);
        ProperSubsetSmaller(ParentRefs(all) - (visited + {q}), ParentRefs(all) - visited);
        ClimbBounded(q, all, visited + {q});
      }
  }

  /** The cycle guard bounds every depth by the number of distinct parent
      references in the list, so even a cyclic hierarchy has a finite depth. */
  lemma DepthBounded(raw: RawNode, all: seq<RawNode>)
    requires raw in all
    ensures Depth(raw, all) <= |ParentRefs(all)|
  {
    if Truthy(raw.parentId) {
      var p := raw.parentId.value;
      ClimbBounded(p, all, {p});
      assert p in ParentRefs(all);
      assert |ParentRefs(all) - {p}| == |ParentRefs(all)| - 1;
    }
  }

  /** `ids` is a well-formed line of ancestry in `all`: distinct non-empty ids,
      the first naming a top-level node, each later one naming a node whose
      parent is the previous id. */
  ghost predicate Lineage(all: seq<RawNode>, ids: seq<string>) {
    && |ids| > 0
    && (forall i :: 0 <= i < |ids| ==> ids[i] != "")
    && (forall i, j :: 0 <= i < j < |ids| ==> ids[i] != ids[j])
    && FirstWithId(all, ids[0]).Some? && !Truthy(FirstWithId(all, ids[0]).value.parentId)
    && (forall k :: 0 < k < |ids| ==>
          FirstWithId(all, ids[k]).Some? && FirstWithId(all, ids[k]).value.parentId == Some(ids[k - 1]))
  }

  lemma {:induction false} ClimbLineage(all: seq<RawNode>, ids: seq<string>, k: nat, visited: set<string>)
    requires Lineage(all, ids) && k < |ids|
    requires forall j :: 0 <= j < k ==> ids[j] !in visited
    ensures Climb(ids[k], all, visited) == k
    decreases k
  {
    if k > 0 {
      var q := ids[k - 1];
      assert FirstWithId(all, ids[k]).value.parentId == Some(q);
      forall j | 0 <= j < k - 1 ensures ids[j] !in visited + {q} {
        assert ids[j] != ids[k - 1];
      }
      ClimbLineage(all, ids, k - 1, visited + {q});
    }
  }

  /** On a well-formed hierarchy the depth is the level: a node under the last
      id of a lineage of length m sits at depth m. */
  lemma DepthOnLineage(raw: RawNode, all: seq<RawNode>, ids: seq<string>)
    requires Lineage(all, ids) && raw.parentId == Some(ids[|ids| - 1])
    ensures Depth(raw, all) == |ids|
  {
    var m := |ids| - 1;
    forall j | 0 <= j < m ensures ids[j] !in {ids[m]} {
      assert ids[j] != ids[m];
    }
    ClimbLineage(all, ids, m, {ids[m]});
  }

  /** A node that names itself as parent stops the climb at once: depth 1. */
  lemma SelfParentDepth()
    ensures var a := RawNode(Some("a"), None, None, None, Some("a"));
            Depth(a, [a]) == 1
  {
    var a := RawNode(Some("a"), None, None, None, Some("a"));
    assert FirstWithId([a], "a") == Some(a);
  }

  // ---------------------------------------------------------------------------
  // Building the graph
  // ---------------------------------------------------------------------------

  /** The id of the `i`-th entry: its own, or `node-i`. */
  function NodeId(raw: RawNode, i: nat): string {
    raw.id.GetOr("node-" + NatToString(i))
  }

  /** The node built from the `i`-th entry, with the source's defaults. */
  function FreshNode(raw: RawNode, i: nat): (n: MindMapNode)
    ensures n.children == [] && n.parentId == raw.parentId
  {
    MindMapNode(
      NodeId(raw, i),
      raw.nodeLabel.GetOr("Node " + NatToString(i)),
      raw.nodeType.GetOr("topic"),
      raw.description.GetOr(""),
      raw.parentId,
      [])
  }

  function EdgeId(source: string, target: string): string {
    "edge-" + source + "-" + target
  }

  /** The builder's state: the kept nodes, the edges, and `node_map`, which
      maps each id to the position of the last kept node carrying it. */
  datatype Graph = Graph(nodes: seq<MindMapNode>, edges: seq<MindMapEdge>, latest: map<string, nat>)

  /** One iteration of `_build_graph`'s loop over the `i`-th entry. */
  function Step(g: Graph, raw: RawNode, i: nat, all: seq<RawNode>, maxDepth: int): Graph {
    if Depth(raw, all) > maxDepth then g
    else
      var n := FreshNode(raw, i);
      var nodes := g.nodes + [n];
      var latest := g.latest[n.id := |g.nodes|];
      if Truthy(raw.parentId) && raw.parentId.value in latest && latest[raw.parentId.value] < |nodes| then
        var p := raw.parentId.value;
        var j := latest[p];
        Graph(
          nodes[j := nodes[j].(children := nodes[j].children + [n.id])],
          g.edges + [MindMapEdge(EdgeId(p, n.id), p, n.id, "", "solid")],
          latest)
      else Graph(nodes, g.edges, latest)
  }

  /** The state after the first `k` entries of `slice`. */
  function BuildPrefix(slice: seq<RawNode>, all: seq<RawNode>, maxDepth: int, k: nat): Graph
    requires k <= |slice|
  {
    if k == 0 then Graph([], [], map[])
    else Step(BuildPrefix(slice, all, maxDepth, k - 1), slice[k - 1], k - 1, all, maxDepth)
  }

  /** `_build_graph`: the nodes and edges built from the first `maxNodes`
      entries of the answer's node list (an absent list is empty). */
  function BuildGraph(data: MapData, maxDepth: int, maxNodes: int): (r: (seq<MindMapNode>, seq<MindMapEdge>))
    ensures var slice := PyPrefix(data.nodes.GetOr([]), maxNodes);
            && |r.0| == |Admitted(slice, data.nodes.GetOr([]), maxDepth, |slice|)|
            && SumOf(r.0, ChildCount) == |r.1|
  {
    var all := data.nodes.GetOr([]);
    var slice := PyPrefix(all, maxNodes);
    var g := BuildPrefix(slice, all, maxDepth, |slice|);
    BuildPrefixInvariant(slice, all, maxDepth, |slice|);
    (g.nodes, g.edges)
  }

  // ---------------------------------------------------------------------------
  // What the builder keeps
  // ---------------------------------------------------------------------------

  /** The positions among the first `k` entries of `slice` shallow enough to keep. */
  function Admitted(slice: seq<RawNode>, all: seq<RawNode>, maxDepth: int, k: nat): (r: seq<nat>)
    requires k <= |slice|
    ensures forall i :: 0 <= i < |r| ==> r[i] < k
    ensures forall x :: x in r <==> 0 <= x < k && Depth(slice[x], all) <= maxDepth
    ensures forall a, b :: 0 <= a < b < |r| ==> r[a] < r[b]
    ensures |r| <= k
  {
    if k == 0 then []
    else
      var pre := Admitted(slice, all, maxDepth, k - 1);
      if Depth(slice[k - 1], all) <= maxDepth then
        assert forall a :: 0 <= a < |pre| ==> pre[a] < k - 1;
        pre + [k - 1]
      else pre
  }

  /** Some node at or before position `k` carries id `s`, and node `k` carries
      id `t` and names `s` as its parent. */
  ghost predicate ChildRecord(nodes: seq<MindMapNode>, s: string, t: string) {
    exists j, k :: 0 <= j <= k < |nodes| && nodes[j].id == s && nodes[k].id == t && nodes[k].parentId == Some(s)
  }

  /** Node `k` names a non-empty parent carried by itself or an earlier node. */
  ghost predicate LinksBack(nodes: seq<MindMapNode>, k: int)
    requires 0 <= k < |nodes|
  {
    Truthy(nodes[k].parentId) && exists j :: 0 <= j <= k && nodes[j].id == nodes[k].parentId.value
  }

  ghost predicate HasEdge(edges: seq<MindMapEdge>, s: string, t: string) {
    exists e :: e in edges && e.source == s && e.target == t
  }

  /** `node_map` points at the last node carrying each id. */
  ghost predicate LatestOk(g: Graph) {
    && (forall id :: id in g.latest ==> g.latest[id] < |g.nodes| && g.nodes[g.latest[id]].id == id)
    && (forall j :: 0 <= j < |g.nodes| ==> g.nodes[j].id in g.latest && j <= g.latest[g.nodes[j].id])
  }

  /** Every edge links a node to an earlier-or-same node named as its parent. */
  ghost predicate EdgesSound(g: Graph) {
    forall e :: e in g.edges ==>
      e.id == EdgeId(e.source, e.target) && e.edgeLabel == "" && e.style == "solid"
      && ChildRecord(g.nodes, e.source, e.target)
  }

  /** Every node whose parent was kept no later than itself has its edge. */
  ghost predicate EdgesComplete(g: Graph) {
    forall k :: 0 <= k < |g.nodes| && LinksBack(g.nodes, k) ==>
      HasEdge(g.edges, g.nodes[k].parentId.value, g.nodes[k].id)
  }

  /** Every recorded child hangs below its node by an edge, and there are as
      many recorded children as edges. */
  ghost predicate ChildrenOk(g: Graph) {
    && (forall j, x :: 0 <= j < |g.nodes| && x in g.nodes[j].children ==> HasEdge(g.edges, g.nodes[j].id, x))
    && SumOf(g.nodes, ChildCount) == |g.edges|
  }

  /** The kept nodes are the admitted entries, in order, with their defaults. */
  ghost predicate NodesMatch(g: Graph, slice: seq<RawNode>, all: seq<RawNode>, maxDepth: int, k: nat)
    requires k <= |slice|
  {
    var adm := Admitted(slice, all, maxDepth, k);
    && |g.nodes| == |adm|
    && forall j :: 0 <= j < |adm| ==> g.nodes[j].(children := []) == FreshNode(slice[adm[j]], adm[j])
  }

  /** `b` extends `a` keeping every node's id and parent. */
  ghost predicate SameSkeleton(a: seq<MindMapNode>, b: seq<MindMapNode>) {
    |a| <= |b| && forall i :: 0 <= i < |a| ==> b[i].id == a[i].id && b[i].parentId == a[i].parentId
  }

  lemma SkeletonKeepsRecords(a: seq<MindMapNode>, b: seq<MindMapNode>, s: string, t: string)
    requires SameSkeleton(a, b) && ChildRecord(a, s, t)
    ensures ChildRecord(b, s, t)
  {
    var j, k :| 0 <= j <= k < |a| && a[j].id == s && a[k].id == t && a[k].parentId == Some(s);
    assert b[j].id == s && b[k].id == t && b[k].parentId == Some(s);
  }

  lemma SkeletonKeepsLinks(a: seq<MindMapNode>, b: seq<MindMapNode>, k: nat)
    requires SameSkeleton(a, b) && k < |a| && LinksBack(a, k)
    ensures LinksBack(b, k)
  {
    var j :| 0 <= j <= k && a[j].id == a[k].parentId.value;
    assert b[j].id == b[k].parentId.value;
  }

  lemma StepSkeleton(g: Graph, raw: RawNode, i: nat, all: seq<RawNode>, maxDepth: int)
    requires Depth(raw, all) <= maxDepth
    ensures var h := Step(g, raw, i, all, maxDepth);
            SameSkeleton(g.nodes, h.nodes) && |h.nodes| == |g.nodes| + 1
            && h.nodes[|g.nodes|].(children := []) == FreshNode(raw, i)
            && h.nodes[|g.nodes|].id == NodeId(raw, i) && h.nodes[|g.nodes|].parentId == raw.parentId
  {
  }

  lemma StepLatest(g: Graph, raw: RawNode, i: nat, all: seq<RawNode>, maxDepth: int)
    requires LatestOk(g)
    ensures LatestOk(Step(g, raw, i, all, maxDepth))
  {
    if Depth(raw, all) <= maxDepth {
      StepSkeleton(g, raw, i, all, maxDepth);
      var h := Step(g, raw, i, all, maxDepth);
      var k := |g.nodes|;
      assert h.latest == g.latest[NodeId(raw, i) := k];
      forall j | 0 <= j < |h.nodes| ensures h.nodes[j].id in h.latest && j <= h.latest[h.nodes[j].id] {
        if j < k && h.nodes[j].id != NodeId(raw, i) {
          assert h.nodes[j].id == g.nodes[j].id;
        }
      }
    }
  }

  lemma StepEdgesSound(g: Graph, raw: RawNode, i: nat, all: seq<RawNode>, maxDepth: int)
    requires LatestOk(g) && EdgesSound(g)
    ensures EdgesSound(Step(g, raw, i, all, maxDepth))
  {
    var h := Step(g, raw, i, all, maxDepth);
    if Depth(raw, all) <= maxDepth {
      StepSkeleton(g, raw, i, all, maxDepth);
      var k := |g.nodes|;
      forall e | e in h.edges
        ensures e.id == EdgeId(e.source, e.target) && e.edgeLabel == "" && e.style == "solid"
        ensures ChildRecord(h.nodes, e.source, e.target)
      {
        if e in g.edges {
          SkeletonKeepsRecords(g.nodes, h.nodes, e.source, e.target);
        } else {
          var p := raw.parentId.value;
          var j := h.latest[p];
          assert e.source == p && e.target == NodeId(raw, i);
          assert h.nodes[j].id == p;
          assert h.nodes[k].id == e.target && h.nodes[k].parentId == Some(p);
        }
      }
    }
  }

  lemma StepEdgesComplete(g: Graph, raw: RawNode, i: nat, all: seq<RawNode>, maxDepth: int)
    requires LatestOk(g) && EdgesComplete(g)
    ensures EdgesComplete(Step(g, raw, i, all, maxDepth))
  {
    var h := Step(g, raw, i, all, maxDepth);
    if Depth(raw, all) <= maxDepth {
      StepSkeleton(g, raw, i, all, maxDepth);
      StepLatest(g, raw, i, all, maxDepth);
      var k := |g.nodes|;
      forall m | 0 <= m < |h.nodes| && LinksBack(h.nodes, m)
        ensures HasEdge(h.edges, h.nodes[m].parentId.value, h.nodes[m].id)
      {
        if m < k {
          var j :| 0 <= j <= m && h.nodes[j].id == h.nodes[m].parentId.value;
          assert g.nodes[j].id == g.nodes[m].parentId.value;
          assert LinksBack(g.nodes, m);
          var e :| e in g.edges && e.source == g.nodes[m].parentId.value && e.target == g.nodes[m].id;
          assert e in h.edges;
        } else {
          var p := raw.parentId.value;
          var j :| 0 <= j <= m && h.nodes[j].id == p;
          assert p in h.latest;
          var e := MindMapEdge(EdgeId(p, NodeId(raw, i)), p, NodeId(raw, i), "", "solid");
          assert e in h.edges;
        }
      }
    }
  }

  lemma StepChildren(g: Graph, raw: RawNode, i: nat, all: seq<RawNode>, maxDepth: int)
    requires LatestOk(g) && ChildrenOk(g)
    ensures ChildrenOk(Step(g, raw, i, all, maxDepth))
  {
    var h := Step(g, raw, i, all, maxDepth);
    if Depth(raw, all) <= maxDepth {
      StepSkeleton(g, raw, i, all, maxDepth);
      var k := |g.nodes|;
      var n := FreshNode(raw, i);
      var nodes := g.nodes + [n];
      SumOfAppend(g.nodes, [n], ChildCount);
      assert SumOf([n], ChildCount) == 0;
      if h.edges == g.edges {
        assert h.nodes == nodes;
        forall j, x | 0 <= j < |h.nodes| && x in h.nodes[j].children ensures HasEdge(h.edges, h.nodes[j].id, x) {
          assert j < k;
        }
      } else {
        var p := raw.parentId.value;
        var j0 := h.latest[p];
        var e := MindMapEdge(EdgeId(p, n.id), p, n.id, "", "solid");
        assert h.edges == g.edges + [e];
        SumOfUpdate(nodes, j0, nodes[j0].(children := nodes[j0].children + [n.id]), ChildCount);
        forall j, x | 0 <= j < |h.nodes| && x in h.nodes[j].children ensures HasEdge(h.edges, h.nodes[j].id, x) {
          if j == j0 && x == n.id {
            assert e in h.edges;
          } else {
            assert j < k && x in g.nodes[j].children;
            var e' :| e' in g.edges && e'.source == g.nodes[j].id && e'.target == x;
            assert e' in h.edges;
          }
        }
      }
    }
  }

  lemma StepMatch(g: Graph, slice: seq<RawNode>, all: seq<RawNode>, maxDepth: int, k: nat)
    requires k < |slice| && NodesMatch(g, slice, all, maxDepth, k)
    ensures NodesMatch(Step(g, slice[k], k, all, maxDepth), slice, all, maxDepth, k + 1)
  {
    var h := Step(g, slice[k], k, all, maxDepth);
    var adm := Admitted(slice, all, maxDepth, k);
    var adm' := Admitted(slice, all, maxDepth, k + 1);
    if Depth(slice[k], all) <= maxDepth {
      StepSkeleton(g, slice[k], k, all, maxDepth);
      assert adm' == adm + [k];
      forall j | 0 <= j < |adm'| ensures h.nodes[j].(children := []) == FreshNode(slice[adm'[j]], adm'[j]) {
        if j < |adm| {
          assert h.nodes[j].(children := []) == g.nodes[j].(children := []);
        }
      }
    }
  }

  /** Everything the builder keeps true, after the first `k` entries. */
  lemma {:induction false} BuildPrefixInvariant(slice: seq<RawNode>, all: seq<RawNode>, maxDepth: int, k: nat)
    requires k <= |slice|
    ensures var g := BuildPrefix(slice, all, maxDepth, k);
            LatestOk(g) && EdgesSound(g) && EdgesComplete(g) && ChildrenOk(g)
            && NodesMatch(g, slice, all, maxDepth, k)
    decreases k
  {
    if k > 0 {
      var g := BuildPrefix(slice, all, maxDepth, k - 1);
      BuildPrefixInvariant(slice, all, maxDepth, k - 1);
      StepLatest(g, slice[k - 1], k - 1, all, maxDepth);
      StepEdgesSound(g, slice[k - 1], k - 1, all, maxDepth);
      StepEdgesComplete(g, slice[k - 1], k - 1, all, maxDepth);
      StepChildren(g, slice[k - 1], k - 1, all, maxDepth);
      StepMatch(g, slice, all, maxDepth, k - 1);
    }
  }

  /** `_build_graph`'s result: the kept nodes are exactly the entries among the
      first `maxNodes` whose depth is at most `maxDepth`, in order and with the
      source's defaults; an edge joins `s` to `t` exactly when node `t` names
      `s` as its parent and a node carrying `s` was kept no later than it (ids
      `edge-s-t`); every recorded child is the target of an edge from its
      node, and children and edges are equally many. */
  lemma BuildGraphShape(data: MapData, maxDepth: int, maxNodes: int)
    ensures var (nodes, edges) := BuildGraph(data, maxDepth, maxNodes);
            var all := data.nodes.GetOr([]);
            var slice := PyPrefix(all, maxNodes);
            var adm := Admitted(slice, all, maxDepth, |slice|);
            && |nodes| == |adm|
            && (forall j :: 0 <= j < |nodes| ==> nodes[j].(children := []) == FreshNode(slice[adm[j]], adm[j]))
            && (forall e :: e in edges ==> e.id == EdgeId(e.source, e.target) && ChildRecord(nodes, e.source, e.target))
            && (forall k :: 0 <= k < |nodes| && LinksBack(nodes, k) ==>
                  HasEdge(edges, nodes[k].parentId.value, nodes[k].id))
            && (forall j, x :: 0 <= j < |nodes| && x in nodes[j].children ==> HasEdge(edges, nodes[j].id, x))
            && SumOf(nodes, ChildCount) == |edges|
  {
    var all := data.nodes.GetOr([]);
    var slice := PyPrefix(all, maxNodes);
    BuildPrefixInvariant(slice, all, maxDepth, |slice|);
  }

  /** Whatever fails to decode yields a single root node and no edges, for any
      positive node budget and non-negative depth budget. */
  lemma FallbackGraph(maxDepth: int, maxNodes: int)
    requires maxDepth >= 0 && maxNodes >= 1
    ensures BuildGraph(FallbackData, maxDepth, maxNodes)
         == ([MindMapNode("root", "Main Topic", "root", "", None, [])], [])
  {
    var all := [FallbackNode];
    assert FallbackData.nodes.GetOr([]) == all;
    assert PyPrefix(all, maxNodes) == all;
    assert Depth(FallbackNode, all) == 0;
    var g0 := Graph([], [], map[]);
    assert BuildPrefix(all, all, maxDepth, 0) == g0;
    var n := MindMapNode("root", "Main Topic", "root", "", None, []);
    assert FreshNode(FallbackNode, 0) == n;
    assert Step(g0, FallbackNode, 0, all, maxDepth) == Graph([n], [], map["root" := 0]);
    assert BuildPrefix(all, all, maxDepth, 1) == Step(g0, FallbackNode, 0, all, maxDepth);
  }
}
