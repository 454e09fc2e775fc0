/** The layout of a built BVH in the shared buffers: breadth-first numbering
    of the tree (`traverse_bvh_nodes_bfs`), the eight direction-dependent
    link tables for stackless traversal (`save_traversal_links`), and the
    buffer stack that BVHs are pushed onto and popped from
    (`build_generic_bvh`, `build_blas`, `build_tlas`, `pop_bvh`). */
module BvhLayout {
  import opened MathCore
  import opened Bvh
  import opened MeshLoader

  // ---------------------------------------------------------------------
  // Breadth-first numbering

  /** A node of the tree once numbered: its box, leaf entry and split axis
      as in the tree, and its children as the `count` consecutive node
      indices starting at `first` (no children for a leaf). */
  datatype FlatNode = FlatNode(box: Aabb, leafCount: nat, axis: int, first: nat, count: nat)

  function Size(t: BuildNode): nat
    decreases t
  {
    1 + ForestSize(t.children)
  }

  function ForestSize(ts: seq<BuildNode>): nat
    decreases ts
  {
    if ts == [] then 0 else ForestSize(ts[..|ts| - 1]) + Size(ts[|ts| - 1])
  }

  lemma {:induction false} ForestSizeConcat(a: seq<BuildNode>, b: seq<BuildNode>)
    ensures ForestSize(a + b) == ForestSize(a) + ForestSize(b)
    decreases |b|
  {
    if b == [] {
      assert a + b == a;
    } else {
      assert (a + b)[..|a + b| - 1] == a + b[..|b| - 1];
      ForestSizeConcat(a, b[..|b| - 1]);
    }
  }

  /** A numbered node and the tree node it was made from agree. */
  ghost predicate Describes(f: FlatNode, t: BuildNode)
  {
    f.box == t.box && f.leafCount == t.leafCount && f.axis == t.axis && f.count == |t.children|
  }

  /** The layout of numbered nodes: the children of a node come after it
      and inside the layout, and the children of a node come before those
      of any later node. */
  ghost predicate Laid(flat: seq<FlatNode>)
  {
    (forall i | 0 <= i < |flat| && flat[i].count > 0 ::
       i < flat[i].first && flat[i].first + flat[i].count <= |flat|) &&
    RangesOrdered(flat) && Parented(flat, |flat|)
  }

  /** Node `j` is one of the children of node `i`. */
  ghost predicate ChildOf(flat: seq<FlatNode>, i: nat, j: nat)
  {
    i < |flat| && flat[i].first <= j < flat[i].first + flat[i].count
  }

  ghost predicate HasParent(flat: seq<FlatNode>, j: nat)
  {
    exists i: nat :: ChildOf(flat, i, j)
  }

  /** Every index below `upto` but the root's is a child of some node. */
  ghost predicate Parented(flat: seq<FlatNode>, upto: nat)
  {
    forall j: nat | 0 < j < upto :: HasParent(flat, j)
  }

  /** The children ranges follow each other in the order of their parents. */
  ghost predicate RangesOrdered(flat: seq<FlatNode>)
  {
    forall i, j {:trigger RangeBefore(flat, i, j)} | 0 <= i < j < |flat| :: RangeBefore(flat, i, j)
  }

  /** The children of node `i` end where those of node `j` start, or
      before; leaves have no children. */
  ghost predicate RangeBefore(flat: seq<FlatNode>, i: nat, j: nat)
    requires i < |flat| && j < |flat|
  {
    flat[i].count > 0 && flat[j].count > 0 ==> flat[i].first + flat[i].count <= flat[j].first
  }

  /** A numbering and a visiting order of tree nodes agree: node `i`
      describes tree node `i`, and the children of node `i`, in order, are
      the tree nodes at the indices `first`, `first + 1`, ... */
  ghost predicate Mirrors(flat: seq<FlatNode>, order: seq<BuildNode>)
  {
    |flat| == |order| &&
    (forall i | 0 <= i < |flat| :: Describes(flat[i], order[i])) &&
    (forall i, k | 0 <= i < |flat| && 0 <= k < flat[i].count ::
       flat[i].first + k < |order| && order[flat[i].first + k] == order[i].children[k])
  }

  /** `flat` is the breadth-first layout of the tree `root`: it mirrors a
      visiting order of the tree that starts at the root. */
  ghost predicate Flattens(flat: seq<FlatNode>, root: BuildNode)
  {
    exists order: seq<BuildNode> | |order| > 0 && order[0] == root :: Mirrors(flat, order)
  }

  /** The first node of the layout is the root, with its box and its
      number of children. */
  lemma FlattensRoot(flat: seq<FlatNode>, root: BuildNode)
    requires Flattens(flat, root)
    ensures |flat| > 0 && Describes(flat[0], root)
  {
    var order: seq<BuildNode> :| |order| > 0 && order[0] == root && Mirrors(flat, order);
  }

  /** The state between two layers of `traverse_bvh_nodes_bfs`: the nodes
      numbered so far describe `order`; their children are numbered, or
      are the pending `layer`, which gets the next indices; children ranges
      follow each other in the order of their parents. */
  ghost predicate Numbered(flat: seq<FlatNode>, order: seq<BuildNode>, layer: seq<BuildNode>)
  {
    NumberedNodes(flat, order, layer) && ChildrenFound(flat, order, layer) &&
    RangesOrdered(flat) && Parented(flat, |flat| + |layer|)
  }

  ghost predicate NumberedNodes(flat: seq<FlatNode>, order: seq<BuildNode>, layer: seq<BuildNode>)
  {
    |flat| == |order| &&
    (forall i | 0 <= i < |flat| :: Describes(flat[i], order[i])) &&
    (forall i | 0 <= i < |flat| && flat[i].count > 0 ::
       i < flat[i].first && flat[i].first + flat[i].count <= |flat| + |layer|)
  }

  ghost predicate ChildrenFound(flat: seq<FlatNode>, order: seq<BuildNode>, layer: seq<BuildNode>)
  {
    forall i, k | 0 <= i < |flat| && 0 <= k < flat[i].count ::
      flat[i].first + k < |order| + |layer| && i < |order| && k < |order[i].children| &&
      (order + layer)[flat[i].first + k] == order[i].children[k]
  }

  /** `traverse_bvh_nodes_bfs`: visits the tree layer by layer, appends each
      node's box to `out` and numbers the nodes in visiting order starting
      from 0. The numbered nodes are returned, node `i` as `flat[i]`, with
      the tree nodes in visiting order as `order`: every node of the tree
      is numbered once, the root first, node `i`'s box is appended as
      `out'[|out| + i]`, and the children of each node are numbered
      consecutively after it and after the children of earlier nodes,
      which is breadth-first order. */
  method TraverseBfs(root: BuildNode, out: seq<Aabb>) returns (flat: seq<FlatNode>, out': seq<Aabb>, ghost order: seq<BuildNode>)
    ensures Mirrors(flat, order) && Laid(flat)
    ensures |flat| == Size(root) && order[0] == root
    ensures |out'| == |out| + |flat| && out'[..|out|] == out
    ensures forall i | 0 <= i < |flat| :: out'[|out| + i] == flat[i].box
  {
    var layer := [root];
    flat := [];
    out' := out;
    order := [];
    assert ForestSize([root]) == Size(root) by {
      assert [root][..0] == [];
    }
    while layer != []
      invariant Visiting(root, out, flat, order, layer, out')
      decreases ForestSize(layer)
    {
      flat, out', order, layer := VisitLayer(root, out, flat, order, layer, out');
    }
    NumberedDone(flat, order);
    BoxesAt(flat);
  }

  /** The state of `traverse_bvh_nodes_bfs` between two layers: the nodes
      numbered so far and the pending layer account for the whole tree,
      the root first, and the boxes of the numbered nodes were appended. */
  ghost predicate Visiting(root: BuildNode, out: seq<Aabb>, flat: seq<FlatNode>, order: seq<BuildNode>,
                           layer: seq<BuildNode>, out': seq<Aabb>)
  {
    Numbered(flat, order, layer) &&
    order + layer != [] && (order + layer)[0] == root &&
    |flat| + ForestSize(layer) == Size(root) &&
    out' == out + Boxes(flat)
  }

  /** One pass of the outer loop of `traverse_bvh_nodes_bfs`. */
  method VisitLayer(root: BuildNode, out: seq<Aabb>, flat: seq<FlatNode>, ghost order: seq<BuildNode>,
                    layer: seq<BuildNode>, out': seq<Aabb>)
    returns (flat2: seq<FlatNode>, out2: seq<Aabb>, ghost order2: seq<BuildNode>, layer2: seq<BuildNode>)
    requires layer != [] && Visiting(root, out, flat, order, layer, out')
    ensures Visiting(root, out, flat2, order2, layer2, out2)
    ensures ForestSize(layer2) < ForestSize(layer)
  {
    var next;
    flat2, out2, next := NumberLayer(layer, flat, out');
    NumberedStep(flat, order, layer, flat2, next);
    PrefixSplit(flat2, flat);
    BoxesConcat(flat, flat2[|flat|..]);
    AppendAssoc(out, Boxes(flat), Boxes(flat2[|flat|..]));
    AppendAssoc(order, layer, next);
    order2, layer2 := order + layer, next;
    assert (order2 + layer2)[0] == (order + layer)[0];
  }

  lemma AppendAssoc<T>(a: seq<T>, b: seq<T>, c: seq<T>)
    ensures (a + b) + c == a + (b + c)
  {
  }

  lemma PrefixSplit<T>(s: seq<T>, p: seq<T>)
    requires |p| <= |s| && s[..|p|] == p
    ensures s == p + s[|p|..]
  {
  }

  /** Once no layer is pending, the numbering is a layout of the tree. */
  lemma NumberedDone(flat: seq<FlatNode>, order: seq<BuildNode>)
    requires Numbered(flat, order, [])
    ensures Mirrors(flat, order) && Laid(flat)
  {
    assert order + [] == order;
  }

  /** One pass of the outer loop of `traverse_bvh_nodes_bfs`: every node
      of the layer is numbered after the nodes numbered so far and its box
      appended, and the next layer is collected: the children of each node,
      in order, with the indices after the layer. */
  method NumberLayer(layer: seq<BuildNode>, flat: seq<FlatNode>, out: seq<Aabb>)
    returns (flat': seq<FlatNode>, out': seq<Aabb>, next: seq<BuildNode>)
    ensures |flat'| == |flat| + |layer| && flat'[..|flat|] == flat
    ensures LaysOut(flat'[|flat|..], |flat| + |layer|, layer, next)
    ensures out' == out + Boxes(flat'[|flat|..])
    ensures ForestSize(next) + |layer| == ForestSize(layer)
  {
    var nodeIndex := |flat|;
    next := [];
    flat' := flat;
    out' := out;
    ghost var nodes := [];
    for k := 0 to |layer|
      invariant flat' == flat + nodes
      invariant LaysOut(nodes, |flat| + |layer|, layer[..k], next)
      invariant out' == out + Boxes(nodes)
      invariant ForestSize(next) + k == ForestSize(layer[..k])
    {
      var node := layer[k];
      var f := FlatNode(node.box, node.leafCount, node.axis, nodeIndex + |layer| + |next|, |node.children|);
      LaysOutStep(nodes, |flat| + |layer|, layer, k, next, f);
      SizeStep(layer, k, next);
      assert Boxes(nodes + [f]) == Boxes(nodes) + [node.box];
      out' := out' + [node.box];
      flat' := flat' + [f];
      nodes := nodes + [f];
      next := next + node.children;
    }
    assert layer[..|layer|] == layer;
    assert flat'[|flat|..] == nodes;
  }

  /** Numbering one more node of a layer. */
  lemma LaysOutStep(nodes: seq<FlatNode>, nextStart: nat, layer: seq<BuildNode>, k: nat, next: seq<BuildNode>, f: FlatNode)
    requires k < |layer| && LaysOut(nodes, nextStart, layer[..k], next)
    requires f == FlatNode(layer[k].box, layer[k].leafCount, layer[k].axis, nextStart + |next|, |layer[k].children|)
    ensures LaysOut(nodes + [f], nextStart, layer[..k + 1], next + layer[k].children)
  {
    assert (nodes + [f])[..k] == nodes && (next + layer[k].children)[..|next|] == next;
    assert layer[..k + 1][..k] == layer[..k];
  }

  /** Collecting the children of one more node of a layer. */
  lemma SizeStep(layer: seq<BuildNode>, k: nat, next: seq<BuildNode>)
    requires k < |layer| && ForestSize(next) + k == ForestSize(layer[..k])
    ensures ForestSize(next + layer[k].children) + k + 1 == ForestSize(layer[..k + 1])
  {
    assert layer[..k + 1][..k] == layer[..k];
    ForestSizeConcat(next, layer[k].children);
  }

  /** `nodes` number `layer`, node by node, and `next` collects their
      children: each node describes its tree node and its children are the
      entries of `next` appended for it, numbered from `nextStart` on. */
  ghost predicate LaysOut(nodes: seq<FlatNode>, nextStart: nat, layer: seq<BuildNode>, next: seq<BuildNode>)
    decreases |nodes|
  {
    |nodes| == |layer| &&
    if nodes == [] then next == []
    else
      var n := |nodes| - 1;
      var m := |next| - |layer[n].children|;
      0 <= m &&
      nodes[n] == FlatNode(layer[n].box, layer[n].leafCount, layer[n].axis, nextStart + m, |layer[n].children|) &&
      next[m..] == layer[n].children &&
      LaysOut(nodes[..n], nextStart, layer[..n], next[..m])
  }

  /** `nodes` number `layer`, whose next layer `next` gets the indices from
      `nextStart` on: each describes its tree node, its children are the
      entries of `next` at their indices, and children ranges follow each
      other in layer order. */
  ghost predicate LayerNumbered(nodes: seq<FlatNode>, nextStart: nat, layer: seq<BuildNode>, next: seq<BuildNode>)
  {
    |nodes| == |layer| &&
    (forall j | 0 <= j < |nodes| ::
       Describes(nodes[j], layer[j]) && nextStart <= nodes[j].first && nodes[j].first + nodes[j].count <= nextStart + |next|) &&
    (forall j, c | 0 <= j < |nodes| && 0 <= c < nodes[j].count ::
       next[nodes[j].first - nextStart + c] == layer[j].children[c]) &&
    (forall j, j' | 0 <= j < j' < |nodes| :: nodes[j].first + nodes[j].count <= nodes[j'].first) &&
    (forall p: nat | nextStart <= p < nextStart + |next| :: HasParent(nodes, p))
  }

  /** What numbering a layer node by node amounts to. */
  lemma LaysOutNumbers(nodes: seq<FlatNode>, nextStart: nat, layer: seq<BuildNode>, next: seq<BuildNode>)
    requires LaysOut(nodes, nextStart, layer, next)
    ensures LayerNumbered(nodes, nextStart, layer, next)
  {
    LaysOutSpans(nodes, nextStart, layer, next);
    LaysOutChildren(nodes, nextStart, layer, next);
    LaysOutParents(nodes, nextStart, layer, next);
  }

  /** Each numbered node describes its tree node, and the children ranges
      lie inside the next layer, one after the other in layer order. */
  lemma {:induction false} LaysOutSpans(nodes: seq<FlatNode>, nextStart: nat, layer: seq<BuildNode>, next: seq<BuildNode>)
    requires LaysOut(nodes, nextStart, layer, next)
    ensures |nodes| == |layer|
    ensures forall j | 0 <= j < |nodes| ::
      Describes(nodes[j], layer[j]) && nextStart <= nodes[j].first && nodes[j].first + nodes[j].count <= nextStart + |next|
    ensures forall j, j' | 0 <= j < j' < |nodes| :: nodes[j].first + nodes[j].count <= nodes[j'].first
    decreases |nodes|
  {
    if nodes != [] {
      var n := |nodes| - 1;
      var m := |next| - |layer[n].children|;
      var nodes0, layer0, next0 := nodes[..n], layer[..n], next[..m];
      LaysOutSpans(nodes0, nextStart, layer0, next0);
      forall j | 0 <= j < n
        ensures nodes[j] == nodes0[j] && layer[j] == layer0[j]
      {
      }
    }
  }

  /** The children of each numbered node are the entries of the next layer
      at their indices. */
  lemma {:induction false} LaysOutChildren(nodes: seq<FlatNode>, nextStart: nat, layer: seq<BuildNode>, next: seq<BuildNode>)
    requires LaysOut(nodes, nextStart, layer, next)
    ensures |nodes| == |layer|
    ensures forall j, c | 0 <= j < |nodes| && 0 <= c < nodes[j].count ::
      c < |layer[j].children| && nextStart <= nodes[j].first && nodes[j].first - nextStart + c < |next| &&
      next[nodes[j].first - nextStart + c] == layer[j].children[c]
    decreases |nodes|
  {
    LaysOutSpans(nodes, nextStart, layer, next);
    if nodes != [] {
      var n := |nodes| - 1;
      var m := |next| - |layer[n].children|;
      var nodes0, layer0, next0 := nodes[..n], layer[..n], next[..m];
      LaysOutChildren(nodes0, nextStart, layer0, next0);
      forall j, c | 0 <= j < |nodes| && 0 <= c < nodes[j].count
        ensures c < |layer[j].children| && nextStart <= nodes[j].first && nodes[j].first - nextStart + c < |next|
        ensures next[nodes[j].first - nextStart + c] == layer[j].children[c]
      {
        if j < n {
          assert nodes[j] == nodes0[j] && layer[j] == layer0[j];
          assert next0[nodes0[j].first - nextStart + c] == layer0[j].children[c];
        } else {
          assert next[m..][c] == layer[n].children[c];
        }
      }
    }
  }

  /** Every index of the next layer is a child of some numbered node. */
  lemma {:induction false} LaysOutParents(nodes: seq<FlatNode>, nextStart: nat, layer: seq<BuildNode>, next: seq<BuildNode>)
    requires LaysOut(nodes, nextStart, layer, next)
    ensures forall p: nat | nextStart <= p < nextStart + |next| :: HasParent(nodes, p)
    decreases |nodes|
  {
    if nodes != [] {
      var n := |nodes| - 1;
      var m := |next| - |layer[n].children|;
      var nodes0, layer0, next0 := nodes[..n], layer[..n], next[..m];
      LaysOutParents(nodes0, nextStart, layer0, next0);
      forall p: nat | nextStart <= p < nextStart + |next|
        ensures HasParent(nodes, p)
      {
        if p < nextStart + m {
          assert HasParent(nodes0, p);
          var i: nat :| ChildOf(nodes0, i, p);
          assert ChildOf(nodes, i, p);
        } else {
          assert ChildOf(nodes, n, p);
        }
      }
    }
  }

  /** The numbered layer joins the nodes numbered before it. */
  lemma NumberedStep(flat: seq<FlatNode>, order: seq<BuildNode>, layer: seq<BuildNode>, flat': seq<FlatNode>, next: seq<BuildNode>)
    requires Numbered(flat, order, layer)
    requires |flat'| == |flat| + |layer| && flat'[..|flat|] == flat
    requires LaysOut(flat'[|flat|..], |flat| + |layer|, layer, next)
    ensures Numbered(flat', order + layer, next)
  {
    var nodes := flat'[|flat|..];
    LaysOutNumbers(nodes, |flat| + |layer|, layer, next);
    PrefixSplit(flat', flat);
    StepDescribed(flat, order, layer, nodes, next);
    StepChildren(flat, order, layer, nodes, next);
    StepOrdered(flat, layer, nodes, next);
    StepParented(flat, layer, nodes, next);
  }

  /** Every node numbered so far or pending has a parent. */
  lemma StepParented(flat: seq<FlatNode>, layer: seq<BuildNode>, nodes: seq<FlatNode>, next: seq<BuildNode>)
    requires Parented(flat, |flat| + |layer|)
    requires LayerNumbered(nodes, |flat| + |layer|, layer, next)
    ensures Parented(flat + nodes, |flat| + |nodes| + |next|)
  {
    var f := flat + nodes;
    forall j: nat | 0 < j < |f| + |next|
      ensures HasParent(f, j)
    {
      if j < |flat| + |layer| {
        assert HasParent(flat, j);
        var i: nat :| ChildOf(flat, i, j);
        assert f[i] == flat[i];
        assert ChildOf(f, i, j);
      } else {
        assert HasParent(nodes, j);
        var i: nat :| ChildOf(nodes, i, j);
        assert f[|flat| + i] == nodes[i];
        assert ChildOf(f, |flat| + i, j);
      }
    }
  }

  /** The nodes numbered so far and the new layer describe their tree
      nodes. */
  lemma StepDescribed(flat: seq<FlatNode>, order: seq<BuildNode>, layer: seq<BuildNode>, nodes: seq<FlatNode>, next: seq<BuildNode>)
    requires NumberedNodes(flat, order, layer)
    requires LayerNumbered(nodes, |flat| + |layer|, layer, next)
    ensures NumberedNodes(flat + nodes, order + layer, next)
  {
    var f, o := flat + nodes, order + layer;
    forall i | 0 <= i < |f|
      ensures Describes(f[i], o[i])
    {
      if i >= |flat| {
        assert f[i] == nodes[i - |flat|] && o[i] == layer[i - |flat|];
      }
    }
    forall i | 0 <= i < |f| && f[i].count > 0
      ensures i < f[i].first && f[i].first + f[i].count <= |f| + |next|
    {
      if i >= |flat| {
        assert f[i] == nodes[i - |flat|];
      }
    }
  }

  /** The children of the nodes numbered so far and of the new layer. */
  lemma StepChildren(flat: seq<FlatNode>, order: seq<BuildNode>, layer: seq<BuildNode>, nodes: seq<FlatNode>, next: seq<BuildNode>)
    requires NumberedNodes(flat, order, layer) && ChildrenFound(flat, order, layer)
    requires LayerNumbered(nodes, |flat| + |layer|, layer, next)
    ensures ChildrenFound(flat + nodes, order + layer, next)
  {
    var f, o := flat + nodes, order + layer;
    var nextStart := |flat| + |layer|;
    forall i, k | 0 <= i < |f| && 0 <= k < f[i].count
      ensures f[i].first + k < |o| + |next| && i < |o| && k < |o[i].children| && (o + next)[f[i].first + k] == o[i].children[k]
    {
      if i < |flat| {
        assert f[i] == flat[i] && o[i] == order[i];
        assert o[flat[i].first + k] == order[i].children[k];
      } else {
        var j := i - |flat|;
        assert f[i] == nodes[j] && o[i] == layer[j];
        var m := nodes[j].first - nextStart + k;
        assert next[m] == layer[j].children[k];
        assert (o + next)[|o| + m] == next[m];
      }
    }
  }

  /** Children ranges stay in the order of their parents. */
  lemma StepOrdered(flat: seq<FlatNode>, layer: seq<BuildNode>, nodes: seq<FlatNode>, next: seq<BuildNode>)
    requires forall i | 0 <= i < |flat| && flat[i].count > 0 :: flat[i].first + flat[i].count <= |flat| + |layer|
    requires RangesOrdered(flat)
    requires LayerNumbered(nodes, |flat| + |layer|, layer, next)
    ensures RangesOrdered(flat + nodes)
  {
    var f := flat + nodes;
    forall i, j | 0 <= i < j < |f| ensures RangeBefore(f, i, j) {
      if j < |flat| {
        assert RangeBefore(flat, i, j);
      } else if i >= |flat| {
        assert f[i] == nodes[i - |flat|] && f[j] == nodes[j - |flat|];
      } else if j >= |flat| {
        assert f[i] == flat[i] && f[j] == nodes[j - |flat|];
      }
    }
  }

  /** The boxes of numbered nodes, in index order. */
  function Boxes(flat: seq<FlatNode>): (r: seq<Aabb>)
    ensures |r| == |flat|
  {
    if flat == [] then [] else Boxes(flat[..|flat| - 1]) + [flat[|flat| - 1].box]
  }

  /** Entry `i` of the boxes is the box of node `i`. */
  lemma {:induction false} BoxesAt(flat: seq<FlatNode>)
    ensures forall i | 0 <= i < |flat| :: Boxes(flat)[i] == flat[i].box
    decreases |flat|
  {
    if flat != [] {
      BoxesAt(flat[..|flat| - 1]);
    }
  }

  lemma {:induction false} BoxesConcat(a: seq<FlatNode>, b: seq<FlatNode>)
    ensures Boxes(a + b) == Boxes(a) + Boxes(b)
    decreases |b|
  {
    if b == [] {
      assert a + b == a;
    } else {
      assert (a + b)[..|a + b| - 1] == a + b[..|b| - 1];
      BoxesConcat(a, b[..|b| - 1]);
    }
  }

  // ---------------------------------------------------------------------
  // Subtrees of the numbered tree

  /** Every node of a well-shaped tree is well-shaped. */
  lemma {:induction false} ShapedAt(flat: seq<FlatNode>, order: seq<BuildNode>, i: nat)
    requires Mirrors(flat, order) && Laid(flat) && |order| > 0 && WellShaped(order[0])
    requires i < |flat|
    ensures WellShaped(order[i])
    decreases i
  {
    if i > 0 {
      assert HasParent(flat, i);
      var p: nat :| ChildOf(flat, p, i);
      ShapedAt(flat, order, p);
      assert order[flat[p].first + (i - flat[p].first)] == order[p].children[i - flat[p].first];
    }
  }

  /** A numbered well-shaped tree: laid out, and every interior node has a
      split axis and at least two children. */
  ghost predicate Tree(flat: seq<FlatNode>)
  {
    Laid(flat) &&
    forall i | 0 <= i < |flat| && flat[i].count > 0 :: 0 <= flat[i].axis < 3 && flat[i].count >= 2
  }

  lemma NumberedTree(flat: seq<FlatNode>, order: seq<BuildNode>)
    requires Mirrors(flat, order) && Laid(flat) && |order| > 0 && WellShaped(order[0])
    ensures Tree(flat)
  {
    forall i | 0 <= i < |flat| && flat[i].count > 0
      ensures 0 <= flat[i].axis < 3 && flat[i].count >= 2
    {
      ShapedAt(flat, order, i);
    }
  }

  /** The indices of the subtree under node `idx`. */
  ghost function Sub(flat: seq<FlatNode>, idx: nat): set<nat>
    requires Laid(flat) && idx < |flat|
    decreases |flat| - idx, 1, 0
  {
    {idx} + if flat[idx].count == 0 then {} else SubRange(flat, flat[idx].first, flat[idx].first + flat[idx].count)
  }

  /** The indices of the subtrees under the nodes `lo` to `hi - 1`. */
  ghost function SubRange(flat: seq<FlatNode>, lo: nat, hi: nat): set<nat>
    requires Laid(flat) && 0 < lo <= hi <= |flat|
    decreases |flat| - lo + 1, 0, hi - lo
  {
    if lo == hi then {} else SubRange(flat, lo, hi - 1) + Sub(flat, hi - 1)
  }

  /** A subtree holds only its root and nodes numbered after it. */
  lemma {:induction false} SubBounds(flat: seq<FlatNode>, idx: nat)
    requires Laid(flat) && idx < |flat|
    ensures forall z | z in Sub(flat, idx) :: idx <= z < |flat|
    decreases |flat| - idx, 1, 0
  {
    if flat[idx].count > 0 {
      SubRangeBounds(flat, flat[idx].first, flat[idx].first + flat[idx].count);
    }
  }

  lemma {:induction false} SubRangeBounds(flat: seq<FlatNode>, lo: nat, hi: nat)
    requires Laid(flat) && 0 < lo <= hi <= |flat|
    ensures forall z | z in SubRange(flat, lo, hi) :: lo <= z < |flat|
    decreases |flat| - lo + 1, 0, hi - lo
  {
    if lo < hi {
      SubRangeBounds(flat, lo, hi - 1);
      SubBounds(flat, hi - 1);
    }
  }

  lemma {:induction false} SubRangeSplit(flat: seq<FlatNode>, lo: nat, hi: nat)
    requires Laid(flat) && 0 < lo < hi <= |flat|
    ensures SubRange(flat, lo, hi) == Sub(flat, lo) + SubRange(flat, lo + 1, hi)
    decreases hi - lo
  {
    if lo + 1 < hi {
      SubRangeSplit(flat, lo, hi - 1);
    }
  }

  /** The subtrees of a range of siblings are exactly their union. */
  lemma {:induction false} SubRangeMember(flat: seq<FlatNode>, lo: nat, hi: nat, z: nat)
    requires Laid(flat) && 0 < lo <= hi <= |flat|
    ensures z in SubRange(flat, lo, hi) <==> exists c: nat :: lo <= c < hi && z in Sub(flat, c)
    decreases hi - lo
  {
    if lo < hi {
      SubRangeMember(flat, lo, hi - 1, z);
      var c: nat := hi - 1;
      assert SubRange(flat, lo, hi) == SubRange(flat, lo, c) + Sub(flat, c);
      if z in Sub(flat, c) {
        assert lo <= c < hi && z in Sub(flat, c);
      } else if exists d: nat :: lo <= d < hi && z in Sub(flat, d) {
        var d: nat :| lo <= d < hi && z in Sub(flat, d);
        assert lo <= d < c;
      }
    }
  }

  /** A node's child starts a subtree of the node. */
  lemma ChildSub(flat: seq<FlatNode>, p: nat, c: nat)
    requires Laid(flat) && ChildOf(flat, p, c)
    ensures c < |flat| && Sub(flat, c) <= Sub(flat, p)
  {
    var f := flat[p];
    forall z | z in Sub(flat, c) ensures z in Sub(flat, p) {
      SubRangeMember(flat, f.first, f.first + f.count, z);
      assert exists d: nat :: f.first <= d < f.first + f.count && z in Sub(flat, d) by {
        assert f.first <= c < f.first + f.count && z in Sub(flat, c);
      }
      assert z in SubRange(flat, f.first, f.first + f.count);
    }
  }

  /** Every node of a subtree other than its root has its parent in it. */
  lemma {:induction false} SubParent(flat: seq<FlatNode>, a: nat, z: nat)
    requires Laid(flat) && a < |flat| && z in Sub(flat, a) && z != a
    ensures exists p: nat :: p in Sub(flat, a) && ChildOf(flat, p, z)
    decreases |flat| - a
  {
    var f := flat[a];
    SubRangeMember(flat, f.first, f.first + f.count, z);
    var c: nat :| f.first <= c < f.first + f.count && z in Sub(flat, c);
    ChildSub(flat, a, c);
    if z == c {
      assert ChildOf(flat, a, z);
    } else {
      SubParent(flat, c, z);
      var p: nat :| p in Sub(flat, c) && ChildOf(flat, p, z);
      assert p in Sub(flat, a);
    }
  }

  /** A subtree contains the subtrees of its nodes. */
  lemma {:induction false} SubNested(flat: seq<FlatNode>, a: nat, q: nat)
    requires Laid(flat) && a < |flat| && q in Sub(flat, a)
    ensures q < |flat| && Sub(flat, q) <= Sub(flat, a)
    decreases |flat| - a
  {
    SubBounds(flat, a);
    if q != a {
      var f := flat[a];
      SubRangeMember(flat, f.first, f.first + f.count, q);
      var c: nat :| f.first <= c < f.first + f.count && q in Sub(flat, c);
      ChildSub(flat, a, c);
      SubNested(flat, c, q);
    }
  }

  /** Child ranges never overlap, so a node has one parent. */
  lemma UniqueParent(flat: seq<FlatNode>, p: nat, q: nat, z: nat)
    requires Laid(flat) && ChildOf(flat, p, z) && ChildOf(flat, q, z)
    ensures p == q
  {
    assert p < q ==> RangeBefore(flat, p, q);
    assert q < p ==> RangeBefore(flat, q, p);
  }

  /** Two subtrees neither of whose roots lies in the other are disjoint. */
  lemma {:induction false} SubDisjointAt(flat: seq<FlatNode>, x: nat, y: nat, z: nat)
    requires Laid(flat) && x < |flat| && y < |flat|
    requires x !in Sub(flat, y) && y !in Sub(flat, x)
    requires z in Sub(flat, x) && z in Sub(flat, y)
    ensures false
    decreases z
  {
    assert z != x && z != y by { assert x in Sub(flat, x) && y in Sub(flat, y); }
    SubParent(flat, x, z);
    var p: nat :| p in Sub(flat, x) && ChildOf(flat, p, z);
    SubParent(flat, y, z);
    var q: nat :| q in Sub(flat, y) && ChildOf(flat, q, z);
    UniqueParent(flat, p, q, z);
    SubDisjointAt(flat, x, y, p);
  }

  /** The subtrees of two different children of a node are disjoint. */
  lemma SiblingsDisjoint(flat: seq<FlatNode>, p: nat, c: nat, d: nat)
    requires Laid(flat) && ChildOf(flat, p, c) && ChildOf(flat, p, d) && c != d
    ensures c < |flat| && d < |flat| && Sub(flat, c) !! Sub(flat, d)
  {
    forall x, y | ChildOf(flat, p, x) && ChildOf(flat, p, y) && x != y
      ensures x !in Sub(flat, y)
    {
      if x in Sub(flat, y) {
        SubParent(flat, y, x);
        var q: nat :| q in Sub(flat, y) && ChildOf(flat, q, x);
        UniqueParent(flat, p, q, x);
        SubBounds(flat, y);
      }
    }
    forall z | z in Sub(flat, c) && z in Sub(flat, d) ensures false {
      SubDisjointAt(flat, c, d, z);
    }
  }

  /** The whole table is the subtree of the root. */
  lemma {:induction false} SubRoot(flat: seq<FlatNode>, z: nat)
    requires Laid(flat) && z < |flat|
    ensures z in Sub(flat, 0)
    decreases z
  {
    if z > 0 {
      assert HasParent(flat, z);
      var p: nat :| ChildOf(flat, p, z);
      SubRoot(flat, p);
      ChildSub(flat, p, z);
      SubNested(flat, 0, p);
      assert z in Sub(flat, z);
    }
  }

  // ---------------------------------------------------------------------
  // Traversal links (save_traversal_links)

  /** A `bvh_link`: where traversal goes when the ray hits the node
      (`accept`) and when it misses it (`cancel`). */
  datatype Link = Link(accept: nat, cancel: nat)

  /** The top bit of `accept` marks a leaf. */
  const LeafBit: nat := 0x8000_0000
  /** The `cancel` of the last node of a traversal: past every node. */
  const EndOfTraversal: nat := 0xFFFF_FFFF

  /** The `accept` of a leaf: the top bit and the leaf's entry, as the
      32-bit `0x80000000u | leaf_count` keeps it. */
  function LeafTag(entry: nat): nat
  {
    LeafBit + entry % LeafBit
  }

  /** What traversal reads from an `accept`: whether it marks a leaf, and
      the low 31 bits (`accept & 0x7FFFFFFFu`). */
  predicate IsLeafTag(accept: nat) { accept >= LeafBit }
  function Low31(accept: nat): nat { accept % LeafBit }

  /** A leaf tag decodes to its entry (modulo the 31 bits kept), and an
      index below the top bit is never taken for a leaf. */
  lemma LeafTagDecodes(entry: nat, index: nat)
    ensures IsLeafTag(LeafTag(entry)) && Low31(LeafTag(entry)) == entry % LeafBit
    ensures LeafTag(entry) < 0x1_0000_0000
    ensures index < LeafBit ==> !IsLeafTag(index) && Low31(index) == index
  {
  }

  /** `signs[axis]` for the link table `dir`: bit `axis` of `dir`. */
  predicate SignBit(dir: nat, axis: nat)
    requires axis < 3
  {
    (if axis == 0 then dir else if axis == 1 then dir / 2 else dir / 4) % 2 == 1
  }

  /** The `k`-th child of an interior node in the order of the table `dir`:
      the stored order when the sign along the split axis is set, the
      reverse order otherwise. */
  function OrderedChild(f: FlatNode, dir: nat, k: nat): (c: nat)
    requires 0 <= f.axis < 3 && k < f.count
    ensures f.first <= c < f.first + f.count
  {
    if SignBit(dir, f.axis) then f.first + k else f.first + f.count - 1 - k
  }

  /** Where a miss of the `k`-th ordered child leads: its next sibling, or
      the parent's own `cancel` after the last child. */
  function NextCancel(f: FlatNode, dir: nat, k: nat, cancel: nat): nat
    requires 0 <= f.axis < 3 && k < f.count
  {
    if k + 1 < f.count then OrderedChild(f, dir, k + 1) else cancel
  }

  /** The links of the subtree under `x` in the table at `base` are those of
      `save_traversal_links`: a leaf accepts with its tag, an interior node
      accepts into its first ordered child; every node cancels to the next
      ordered sibling, the last one to its parent's cancel. */
  ghost predicate LinksOk(flat: seq<FlatNode>, dir: nat, links: seq<Link>, base: nat, x: nat, cancel: nat)
    requires Tree(flat) && x < |flat|
    decreases |flat| - x
  {
    var f := flat[x];
    base + x < |links| &&
    if f.count == 0 then links[base + x] == Link(LeafTag(f.leafCount), cancel)
    else
      links[base + x] == Link(OrderedChild(f, dir, 0), cancel) &&
      forall k | 0 <= k < f.count :: LinksOk(flat, dir, links, base, OrderedChild(f, dir, k), NextCancel(f, dir, k, cancel))
  }

  /** The links of a subtree depend only on the entries of that subtree,
      wherever its table is placed: links are node numbers of the BVH, not
      positions in the buffer. */
  lemma {:induction false} LinksFrame(flat: seq<FlatNode>, dir: nat, links: seq<Link>, base: nat,
                                      links': seq<Link>, base': nat, x: nat, cancel: nat)
    requires Tree(flat) && x < |flat| && LinksOk(flat, dir, links, base, x, cancel)
    requires forall z | z in Sub(flat, x) ::
      base + z < |links| && base' + z < |links'| && links'[base' + z] == links[base + z]
    ensures LinksOk(flat, dir, links', base', x, cancel)
    decreases |flat| - x
  {
    var f := flat[x];
    assert x in Sub(flat, x);
    if f.count > 0 {
      forall k | 0 <= k < f.count
        ensures LinksOk(flat, dir, links', base', OrderedChild(f, dir, k), NextCancel(f, dir, k, cancel))
      {
        var c := OrderedChild(f, dir, k);
        ChildSub(flat, x, c);
        LinksFrame(flat, dir, links, base, links', base', c, NextCancel(f, dir, k, cancel));
      }
    }
  }

  /** `links'` differs from `links` at most at the entries `base + z` for
      `z` in `s`. */
  ghost predicate WrittenOnly(links: seq<Link>, links': seq<Link>, base: nat, s: set<nat>)
  {
    |links'| == |links| &&
    forall i | 0 <= i < |links'| :: links'[i] == links[i] || (base <= i && i - base in s)
  }

  lemma WrittenOnlyTrans(a: seq<Link>, b: seq<Link>, c: seq<Link>, base: nat, s: set<nat>, t: set<nat>)
    requires WrittenOnly(a, b, base, s) && WrittenOnly(b, c, base, t)
    ensures WrittenOnly(a, c, base, s + t)
  {
  }

  /** The node `x` and the subtrees of its first `k` children in the order
      of `dir`. */
  ghost function Visited(flat: seq<FlatNode>, x: nat, dir: nat, k: nat): set<nat>
    requires Tree(flat) && x < |flat| && k <= flat[x].count
  {
    if k == 0 then {x} else Visited(flat, x, dir, k - 1) + Sub(flat, OrderedChild(flat[x], dir, k - 1))
  }

  /** The first `k` ordered children form a contiguous run of siblings: the
      first `k` when the sign is set, the last `k` otherwise. */
  ghost function Run(flat: seq<FlatNode>, x: nat, dir: nat, k: nat): set<nat>
    requires Tree(flat) && x < |flat| && 0 < flat[x].count && k <= flat[x].count
  {
    var f := flat[x];
    if SignBit(dir, f.axis) then SubRange(flat, f.first, f.first + k)
    else SubRange(flat, f.first + f.count - k, f.first + f.count)
  }

  lemma RunStep(flat: seq<FlatNode>, x: nat, dir: nat, k: nat)
    requires Tree(flat) && x < |flat| && 0 < flat[x].count && k < flat[x].count
    ensures Run(flat, x, dir, k + 1) == Run(flat, x, dir, k) + Sub(flat, OrderedChild(flat[x], dir, k))
  {
    var f := flat[x];
    if !SignBit(dir, f.axis) {
      SubRangeSplit(flat, f.first + f.count - k - 1, f.first + f.count);
    }
  }

  lemma {:induction false} VisitedRun(flat: seq<FlatNode>, x: nat, dir: nat, k: nat)
    requires Tree(flat) && x < |flat| && 0 < flat[x].count && k <= flat[x].count
    ensures Visited(flat, x, dir, k) == {x} + Run(flat, x, dir, k)
  {
    if k > 0 {
      VisitedRun(flat, x, dir, k - 1);
      RunStep(flat, x, dir, k - 1);
      var a, b := Run(flat, x, dir, k - 1), Sub(flat, OrderedChild(flat[x], dir, k - 1));
      assert ({x} + a) + b == {x} + (a + b);
    }
  }

  /** After the last child the whole subtree has been visited. */
  lemma VisitedAll(flat: seq<FlatNode>, x: nat, dir: nat)
    requires Tree(flat) && x < |flat|
    ensures Visited(flat, x, dir, flat[x].count) == Sub(flat, x)
  {
    if flat[x].count > 0 {
      VisitedRun(flat, x, dir, flat[x].count);
    }
  }

  lemma WrittenOnlyUpdate(links: seq<Link>, links': seq<Link>, i: nat, v: Link, base: nat, s: set<nat>)
    requires WrittenOnly(links, links', base, s) && base <= i < |links'| && i - base in s
    ensures WrittenOnly(links, links'[i := v], base, s)
  {
  }

  /** Linking the `k`-th ordered child leaves the earlier children's links
      and the parent's own link in place. */
  lemma ChildLinked(flat: seq<FlatNode>, dir: nat, x: nat, k: nat, cancel: nat, base: nat,
                    links: seq<Link>, links': seq<Link>)
    requires Tree(flat) && x < |flat| && k < flat[x].count && base + |flat| <= |links|
    requires forall j | 0 <= j < k ::
      LinksOk(flat, dir, links, base, OrderedChild(flat[x], dir, j), NextCancel(flat[x], dir, j, cancel))
    requires LinksOk(flat, dir, links', base, OrderedChild(flat[x], dir, k), NextCancel(flat[x], dir, k, cancel))
    requires WrittenOnly(links, links', base, Sub(flat, OrderedChild(flat[x], dir, k)))
    ensures forall j | 0 <= j < k + 1 ::
      LinksOk(flat, dir, links', base, OrderedChild(flat[x], dir, j), NextCancel(flat[x], dir, j, cancel))
    ensures links'[base + x] == links[base + x]
  {
    var f := flat[x];
    var c := OrderedChild(f, dir, k);
    assert ChildOf(flat, x, c);
    SubBounds(flat, c);
    forall j | 0 <= j < k
      ensures LinksOk(flat, dir, links', base, OrderedChild(f, dir, j), NextCancel(f, dir, j, cancel))
    {
      var d := OrderedChild(f, dir, j);
      assert ChildOf(flat, x, d) && ChildOf(flat, x, c);
      SiblingsDisjoint(flat, x, c, d);
      SubBounds(flat, d);
      UntouchedLinks(flat, dir, links, links', base, d, NextCancel(f, dir, j, cancel), Sub(flat, c));
    }
  }

  /** A subtree outside the entries written keeps its links. */
  lemma UntouchedLinks(flat: seq<FlatNode>, dir: nat, links: seq<Link>, links': seq<Link>,
                       base: nat, d: nat, cancel: nat, s: set<nat>)
    requires Tree(flat) && d < |flat| && base + |flat| <= |links|
    requires LinksOk(flat, dir, links, base, d, cancel)
    requires WrittenOnly(links, links', base, s) && Sub(flat, d) !! s
    requires forall z | z in Sub(flat, d) :: z < |flat|
    ensures LinksOk(flat, dir, links', base, d, cancel)
  {
    forall z | z in Sub(flat, d)
      ensures base + z < |links| && base + z < |links'| && links'[base + z] == links[base + z]
    {
      assert (base + z) - base == z;
    }
    LinksFrame(flat, dir, links, base, links', base, d, cancel);
  }

  /** An interior node whose own link and whose children's subtrees are
      linked is linked. */
  lemma InteriorLinked(flat: seq<FlatNode>, dir: nat, links: seq<Link>, base: nat, x: nat, cancel: nat)
    requires Tree(flat) && x < |flat| && flat[x].count > 0 && base + x < |links|
    requires links[base + x] == Link(OrderedChild(flat[x], dir, 0), cancel)
    requires forall j | 0 <= j < flat[x].count ::
      LinksOk(flat, dir, links, base, OrderedChild(flat[x], dir, j), NextCancel(flat[x], dir, j, cancel))
    ensures LinksOk(flat, dir, links, base, x, cancel)
  {
  }

  // ---------------------------------------------------------------------
  // build_generic_bvh

  /** The handle of one BVH in the buffers (`bvh`): how many nodes it has
      and where the first of them is. */
  datatype BvhHandle = BvhHandle(nodeCount: nat, nodeOffset: nat)

  /** The box the root starts from: minimum at `FLT_MAX`, maximum at
      `-FLT_MAX`. */
  const EmptyBox: Aabb := Aabb(Vec3(FltMax, FltMax, FltMax), Vec3(-FltMax, -FltMax, -FltMax))

  /** The root box after the first `k` leaves have been folded in. */
  function RootBox(s: seq<LeafNode>, k: nat): Aabb
    requires k <= |s|
  {
    if k == 0 then EmptyBox else Union(RootBox(s, k - 1), BoxOf(s[k - 1]))
  }

  /** The root box encloses every leaf folded into it. */
  lemma {:induction false} RootBoxEncloses(s: seq<LeafNode>, k: nat)
    requires k <= |s|
    ensures forall m | 0 <= m < k :: Encloses(RootBox(s, k), BoxOf(s[m]))
  {
    if k > 0 {
      RootBoxEncloses(s, k - 1);
      UnionEncloses(RootBox(s, k - 1), BoxOf(s[k - 1]));
      forall m | 0 <= m < k - 1
        ensures Encloses(RootBox(s, k), BoxOf(s[m]))
      {
        EnclosesTransitive(RootBox(s, k), RootBox(s, k - 1), BoxOf(s[m]));
      }
    }
  }

  /** A leaf box within the range of `float`. */
  predicate InFloatRange(b: Aabb)
  {
    b.min.x <= FltMax && b.min.y <= FltMax && b.min.z <= FltMax &&
    -FltMax <= b.max.x && -FltMax <= b.max.y && -FltMax <= b.max.z
  }

  /** Over leaves within the range of `float`, the root box is the tightest
      box around them, the one the split search accumulates. */
  lemma {:induction false} RootBoxTight(s: seq<LeafNode>, k: nat)
    requires 0 < k <= |s|
    requires forall m | 0 <= m < k :: InFloatRange(BoxOf(s[m]))
    ensures RootBox(s, k) == PrefixHull(s, k - 1)
  {
    if k > 1 {
      RootBoxTight(s, k - 1);
    }
  }

  /** Where table `d` of the BVH at node offset `offset` with `count`
      nodes starts: the eight tables follow each other from eight times the
      node offset. */
  function TableBase(offset: nat, d: nat, count: nat): nat
  {
    8 * offset + d * count
  }

  /** Table `d` of a BVH with `count` nodes lies before table `e` when
      `d < e`. */
  lemma TableOrder(d: nat, e: nat, count: nat)
    requires d < e
    ensures d * count + count <= e * count
  {
    var k := e - d - 1;
    assert e * count == d * count + count + k * count;
  }

  /** Writing table `d` keeps what lies before the BVH. */
  lemma PrefixKept(flat: seq<FlatNode>, d: nat, before: seq<Link>, after: seq<Link>, offset: nat)
    requires Tree(flat) && 0 < |flat| && |before| == 8 * (offset + |flat|)
    requires WrittenOnly(before, after, TableBase(offset, d, |flat|), Sub(flat, 0))
    ensures after[..8 * offset] == before[..8 * offset]
  {
    SubBounds(flat, 0);
  }

  /** Writing table `d` keeps table `e` before it. */
  lemma TableKept(flat: seq<FlatNode>, d: nat, e: nat, before: seq<Link>, after: seq<Link>, offset: nat)
    requires Tree(flat) && 0 < |flat| && e < d < 8 && |before| == 8 * (offset + |flat|)
    requires WrittenOnly(before, after, TableBase(offset, d, |flat|), Sub(flat, 0))
    requires LinksOk(flat, e, before, TableBase(offset, e, |flat|), 0, EndOfTraversal)
    ensures LinksOk(flat, e, after, TableBase(offset, e, |flat|), 0, EndOfTraversal)
  {
    SubBounds(flat, 0);
    TableOrder(e, d, |flat|);
    TableOrder(e, 8, |flat|);
    LinksFrame(flat, e, before, TableBase(offset, e, |flat|), after, TableBase(offset, e, |flat|), 0, EndOfTraversal);
  }

  /** The root box holds every leaf it was folded from. */
  lemma RootHoldsAll(s: seq<LeafNode>)
    ensures HoldsAll(RootBox(s, |s|), s)
  {
    RootBoxEncloses(s, |s|);
  }

  /** The first loop of `build_generic_bvh`: the root box grown by every
      leaf with `fmin`/`fmax`. */
  method FoldRootBox(leaves: array<LeafNode>) returns (box: Aabb)
    ensures box == RootBox(leaves[..], leaves.Length)
  {
    box := EmptyBox;
    for i := 0 to leaves.Length
      invariant box == RootBox(leaves[..], i)
    {
      box := Union(box, BoxOf(leaves[i]));
    }
  }

  // ---------------------------------------------------------------------
  // pop_bvh

  /** `std::vector::resize`: cut to `n` entries, or grown to `n` with
      `fill`. */
  function Resize<T>(s: seq<T>, n: nat, fill: T): (r: seq<T>)
    ensures |r| == n
    ensures forall i | 0 <= i < n && i < |s| :: r[i] == s[i]
    ensures forall i | |s| <= i < n :: r[i] == fill
  {
    if n <= |s| then s[..n] else s + seq(n - |s|, _ => fill)
  }

  /** Resizing back to the length a sequence had before something was
      appended to it gives the sequence back. */
  lemma ResizeUndoesAppend<T>(before: seq<T>, after: seq<T>, fill: T)
    requires |before| <= |after| && after[..|before|] == before
    ensures Resize(after, |before|, fill) == before
  {
  }

  /** A value-initialised `bvh_node` and `bvh_link`. */
  const ZeroBox: Aabb := Aabb(Vec3(0.0, 0.0, 0.0), Vec3(0.0, 0.0, 0.0))
  const ZeroLink: Link := Link(0, 0)

  // ---------------------------------------------------------------------
  // build_blas

  /** The indices of mesh `m` lie in `indices` and refer to vertices of
      `pos`. */
  ghost predicate MeshInBuffers(m: Mesh, indices: seq<nat>, pos: seq<Vec3>)
  {
    m.indexOffset + 3 * m.triangleCount <= |indices| &&
    forall k | m.indexOffset <= k < m.indexOffset + 3 * m.triangleCount :: m.baseVertexOffset + indices[k] < |pos|
  }

  /** The three corners of triangle `i` of mesh `m`. */
  function Corners(m: Mesh, indices: seq<nat>, pos: seq<Vec3>, i: nat): (c: (Vec3, Vec3, Vec3))
    requires MeshInBuffers(m, indices, pos) && i < m.triangleCount
  {
    (pos[m.baseVertexOffset + indices[m.indexOffset + i * 3 + 0]],
     pos[m.baseVertexOffset + indices[m.indexOffset + i * 3 + 1]],
     pos[m.baseVertexOffset + indices[m.indexOffset + i * 3 + 2]])
  }

  /** The leaf of triangle `i`: the box of its corners and its number. */
  function TriangleLeaf(m: Mesh, indices: seq<nat>, pos: seq<Vec3>, i: nat): LeafNode
    requires MeshInBuffers(m, indices, pos) && i < m.triangleCount
  {
    var c := Corners(m, indices, pos, i);
    LeafNode(Min3(c.0, Min3(c.1, c.2)), Max3(c.0, Max3(c.1, c.2)), i)
  }

  /** The leaves of all triangles of mesh `m`. */
  function TriangleLeaves(m: Mesh, indices: seq<nat>, pos: seq<Vec3>): (s: seq<LeafNode>)
    requires MeshInBuffers(m, indices, pos)
    ensures |s| == m.triangleCount && forall i | 0 <= i < |s| :: s[i] == TriangleLeaf(m, indices, pos, i)
  {
    seq(m.triangleCount, i requires 0 <= i < m.triangleCount => TriangleLeaf(m, indices, pos, i))
  }

  /** A point lies in a box. */
  predicate Inside(p: Vec3, b: Aabb)
  {
    b.min.x <= p.x <= b.max.x && b.min.y <= p.y <= b.max.y && b.min.z <= p.z <= b.max.z
  }

  /** A triangle's leaf box holds its three corners. */
  lemma TriangleLeafEncloses(m: Mesh, indices: seq<nat>, pos: seq<Vec3>, i: nat)
    requires MeshInBuffers(m, indices, pos) && i < m.triangleCount
    ensures var c := Corners(m, indices, pos, i);
      var b := BoxOf(TriangleLeaf(m, indices, pos, i));
      Inside(c.0, b) && Inside(c.1, b) && Inside(c.2, b)
    ensures TriangleLeaf(m, indices, pos, i).index == i
  {
  }

  /** The numbers `0` to `n - 1`, once each. */
  function Upto(n: nat): multiset<nat>
  {
    if n == 0 then multiset{} else Upto(n - 1) + multiset{n - 1}
  }

  /** Each of the numbers `0` to `n - 1` occurs once. */
  lemma {:induction false} UptoOnce(n: nat)
    ensures forall v | v in Upto(n) :: v < n && Upto(n)[v] == 1
  {
    if n > 0 {
      UptoOnce(n - 1);
    }
  }

  /** Leaves numbered by their position carry the numbers `0` to `n - 1`. */
  lemma {:induction false} IndicesNumbered(s: seq<LeafNode>)
    requires forall k | 0 <= k < |s| :: s[k].index == k
    ensures Indices(s) == Upto(|s|)
  {
    if s != [] {
      IndicesNumbered(s[..|s| - 1]);
    }
  }

  // ---------------------------------------------------------------------
  // build_tlas

  /** `tlas_instance`: a mesh, its BLAS and the instance's transform with
      its inverse. */
  datatype TlasInstance = TlasInstance(blas: BvhHandle, m: Mesh, transform: Mat4, invTransform: Mat4)

  /** Corner `a` of a box, as `build_tlas` enumerates them: `x` from the
      maximum when `a & 1`, `y` from the minimum when `a & 2`, `z` from the
      minimum when `a & 4`; `w` is 1. */
  function BoxCorner(b: Aabb, a: nat): Vec4
  {
    Vec4(if a % 2 == 1 then b.max.x else b.min.x,
         if a / 2 % 2 == 1 then b.min.y else b.max.y,
         if a / 4 % 2 == 1 then b.min.z else b.max.z,
         1.0)
  }

  /** Corner `a` of `b` moved by `t`. */
  function MovedCorner(t: Mat4, b: Aabb, a: nat): Vec3
  {
    var v := MulM4V4(t, BoxCorner(b, a));
    Vec3(v.x, v.y, v.z)
  }

  /** The eight corners of `b` moved by `t`, in the order `build_tlas`
      visits them. */
  function MovedCorners(t: Mat4, b: Aabb): (ps: seq<Vec3>)
    ensures |ps| == 8
  {
    seq(8, a requires 0 <= a < 8 => MovedCorner(t, b, a))
  }

  /** The box around the first `k` points (`k >= 1`), each new point folded
      in with `fmin(c, min)` and `fmax(c, max)`. */
  function PointHull(ps: seq<Vec3>, k: nat): Aabb
    requires 1 <= k <= |ps|
  {
    var c := ps[k - 1];
    if k == 1 then Aabb(c, c)
    else
      var h := PointHull(ps, k - 1);
      Aabb(Min3(c, h.min), Max3(c, h.max))
  }

  /** The eight values of `a` give the eight corners of the box. */
  lemma CornersCovered(b: Aabb, hiX: bool, loY: bool, loZ: bool)
    ensures var a := (if hiX then 1 else 0) + (if loY then 2 else 0) + (if loZ then 4 else 0);
      a < 8 &&
      BoxCorner(b, a) == Vec4(if hiX then b.max.x else b.min.x, if loY then b.min.y else b.max.y,
                              if loZ then b.min.z else b.max.z, 1.0)
  {
  }

  /** The hull holds every point folded into it. */
  lemma {:induction false} PointHullEncloses(ps: seq<Vec3>, k: nat)
    requires 1 <= k <= |ps|
    ensures forall a | 0 <= a < k :: Inside(ps[a], PointHull(ps, k))
  {
    if k > 1 {
      PointHullEncloses(ps, k - 1);
    }
  }

  /** The loop over the corners in `build_tlas`: the box around the eight
      corners of `node` moved by `transform`. */
  method InstanceBox(transform: Mat4, node: Aabb) returns (box: Aabb)
    ensures box == PointHull(MovedCorners(transform, node), 8)
  {
    box := ZeroBox;
    for a := 0 to 8
      invariant a > 0 ==> box == PointHull(MovedCorners(transform, node), a)
    {
      var v := MulM4V4(transform, BoxCorner(node, a));
      var c := Vec3(v.x, v.y, v.z);
      box := if a == 0 then Aabb(c, c) else Aabb(Min3(c, box.min), Max3(c, box.max));
    }
  }

  /** The leaf of entry `i` of the TLAS: the box of the instance's BLAS root
      moved by its transform, and the number given with the instance. */
  function InstanceLeaf(ti: (TlasInstance, nat), roots: seq<Aabb>): LeafNode
    requires ti.0.blas.nodeOffset < |roots|
  {
    var box := PointHull(MovedCorners(ti.0.transform, roots[ti.0.blas.nodeOffset]), 8);
    LeafNode(box.min, box.max, ti.1)
  }

  /** The leaves of the instances, their BLAS roots read from `roots`. */
  function InstanceLeaves(ti: seq<(TlasInstance, nat)>, roots: seq<Aabb>): (s: seq<LeafNode>)
    requires forall i | 0 <= i < |ti| :: ti[i].0.blas.nodeOffset < |roots|
    ensures |s| == |ti| && forall i | 0 <= i < |ti| :: s[i] == InstanceLeaf(ti[i], roots)
  {
    seq(|ti|, i requires 0 <= i < |ti| => InstanceLeaf(ti[i], roots))
  }

  /** The numbers given with the instances. */
  function Seconds(ti: seq<(TlasInstance, nat)>): multiset<nat>
  {
    if ti == [] then multiset{} else Seconds(ti[..|ti| - 1]) + multiset{ti[|ti| - 1].1}
  }

  lemma {:induction false} IndicesOfInstances(s: seq<LeafNode>, ti: seq<(TlasInstance, nat)>)
    requires |s| == |ti| && forall k | 0 <= k < |s| :: s[k].index == ti[k].1
    ensures Indices(s) == Seconds(ti)
  {
    if s != [] {
      IndicesOfInstances(s[..|s| - 1], ti[..|ti| - 1]);
    }
  }

  /** The node and link buffers that every BVH of a scene is appended to
      (`bvh_buffers`): one node per entry of `nodes` and eight link tables
      per BVH, so eight links per node. */
  class BvhBuffers {
    var nodes: seq<Aabb>
    var links: seq<Link>

    ghost predicate Valid()
      reads this
    {
      |links| == 8 * |nodes|
    }

    /** The BVH `b` was appended to buffers that held `oldNodes` and
        `oldLinks`: its nodes follow them in breadth-first order as `flat`
        numbers them, and each of its eight link tables links the whole
        tree from the root, cancelling past the last node. */
    ghost predicate Appended(oldNodes: seq<Aabb>, oldLinks: seq<Link>, b: BvhHandle, flat: seq<FlatNode>)
      reads this
    {
      Valid() && Tree(flat) && |flat| > 0 && b == BvhHandle(|flat|, |oldNodes|) &&
      |nodes| == |oldNodes| + |flat| && nodes[..|oldNodes|] == oldNodes &&
      (forall i | 0 <= i < |flat| :: nodes[b.nodeOffset + i] == flat[i].box) &&
      |links| == |oldLinks| + 8 * |flat| && links[..|oldLinks|] == oldLinks &&
      forall d | 0 <= d < 8 :: LinksOk(flat, d, links, TableBase(b.nodeOffset, d, b.nodeCount), 0, EndOfTraversal)
    }

    constructor ()
      ensures nodes == [] && links == [] && Valid()
    {
      nodes := [];
      links := [];
    }

    /** `save_traversal_links`: writes the links of the subtree under `x`
        into the table that starts at `base`, and nothing else. */
    method SaveTraversalLinks(flat: seq<FlatNode>, dir: nat, x: nat, cancel: nat, base: nat)
      requires Tree(flat) && x < |flat| && base + |flat| <= |links|
      modifies this
      ensures nodes == old(nodes)
      ensures LinksOk(flat, dir, links, base, x, cancel)
      ensures WrittenOnly(old(links), links, base, Sub(flat, x))
      decreases |flat| - x, 1
    {
      var f := flat[x];
      if f.count == 0 {
        links := links[base + x := Link(LeafTag(f.leafCount), cancel)];
        assert x in Sub(flat, x);
        return;
      }
      var k := 0;
      while k < f.count
        invariant k <= f.count && nodes == old(nodes) && |links| == |old(links)|
        invariant k > 0 ==> links[base + x] == Link(OrderedChild(f, dir, 0), cancel)
        invariant forall j | 0 <= j < k ::
          LinksOk(flat, dir, links, base, OrderedChild(f, dir, j), NextCancel(f, dir, j, cancel))
        invariant WrittenOnly(old(links), links, base, Visited(flat, x, dir, k))
      {
        if k == 0 {
          var c := OrderedChild(f, dir, 0);
          WrittenOnlyUpdate(old(links), links, base + x, Link(c, cancel), base, Visited(flat, x, dir, 0));
          links := links[base + x := Link(c, cancel)];
        }
        ghost var before := links;
        LinkChild(flat, dir, x, k, cancel, base);
        WrittenOnlyTrans(old(links), before, links, base, Visited(flat, x, dir, k),
                         Sub(flat, OrderedChild(f, dir, k)));
        k := k + 1;
      }
      VisitedAll(flat, x, dir);
      InteriorLinked(flat, dir, links, base, x, cancel);
    }

    /** One turn of the loop of `save_traversal_links`: the links of the
        `k`-th ordered child of `x`, cancelling to the next sibling. */
    method LinkChild(flat: seq<FlatNode>, dir: nat, x: nat, k: nat, cancel: nat, base: nat)
      requires Tree(flat) && x < |flat| && k < flat[x].count && base + |flat| <= |links|
      requires forall j | 0 <= j < k ::
        LinksOk(flat, dir, links, base, OrderedChild(flat[x], dir, j), NextCancel(flat[x], dir, j, cancel))
      modifies this
      ensures nodes == old(nodes) && |links| == |old(links)| && links[base + x] == old(links[base + x])
      ensures forall j | 0 <= j < k + 1 ::
        LinksOk(flat, dir, links, base, OrderedChild(flat[x], dir, j), NextCancel(flat[x], dir, j, cancel))
      ensures WrittenOnly(old(links), links, base, Sub(flat, OrderedChild(flat[x], dir, k)))
      decreases |flat| - x, 0
    {
      var f := flat[x];
      var c := OrderedChild(f, dir, k);
      var next := cancel;
      if k < f.count - 1 {
        next := OrderedChild(f, dir, k + 1);
      }
      SaveTraversalLinks(flat, dir, c, next, base);
      ChildLinked(flat, dir, x, k, cancel, base, old(links), links);
    }

    /** `build_generic_bvh`: folds the leaves into the root box, builds the
        tree over them (reordering them), appends its nodes breadth first
        and its eight link tables, and returns the handle. */
    method BuildGenericBvh(leaves: array<LeafNode>) returns (b: BvhHandle, ghost flat: seq<FlatNode>, ghost order: seq<BuildNode>)
      requires Valid() && leaves.Length >= 1
      modifies this, leaves
      ensures Appended(old(nodes), old(links), b, flat)
      ensures PermutedWithin(leaves[..], old(leaves[..]), 0, leaves.Length)
      ensures |order| > 0 && Builds(order[0], RootBox(old(leaves[..]), leaves.Length), leaves[..])
      ensures Mirrors(flat, order)
      ensures UniqueIndices(leaves[..]) ==> Nested(order[0])
    {
      var root := BuildTree(leaves);
      ghost var built := leaves[..];
      var offset := |nodes|;
      var tree;
      tree, order := AppendNodes(root);
      flat := tree;
      b := BvhHandle(|nodes| - offset, offset);
      SaveAllLinks(tree, offset);
      assert leaves[..] == built;
    }

    /** The first half of `build_generic_bvh`: the leaves are folded into
        the root box and the tree is built under it, reordering them. */
    method BuildTree(leaves: array<LeafNode>) returns (root: BuildNode)
      requires leaves.Length >= 1
      modifies leaves
      ensures PermutedWithin(leaves[..], old(leaves[..]), 0, leaves.Length)
      ensures Builds(root, RootBox(old(leaves[..]), leaves.Length), leaves[..])
      ensures UniqueIndices(leaves[..]) ==> Nested(root)
    {
      var box := FoldRootBox(leaves);
      ghost var run := leaves[..];
      RootHoldsAll(run);
      assert leaves[0..leaves.Length] == run;
      root := BuildRecursive(leaves, 0, leaves.Length, box);
      assert leaves[0..leaves.Length] == leaves[..];
      if UniqueIndices(leaves[..]) {
        UniquePermuted(run, leaves[..]);
      }
    }

    /** The `traverse_bvh_nodes_bfs` call of `build_generic_bvh`: the
        tree's boxes are appended to `nodes` breadth first. */
    method AppendNodes(root: BuildNode) returns (flat: seq<FlatNode>, ghost order: seq<BuildNode>)
      requires WellShaped(root)
      modifies this
      ensures links == old(links)
      ensures |order| > 0 && order[0] == root && Mirrors(flat, order) && Tree(flat) && |flat| > 0
      ensures |nodes| == |old(nodes)| + |flat| && nodes[..|old(nodes)|] == old(nodes)
      ensures forall i | 0 <= i < |flat| :: nodes[|old(nodes)| + i] == flat[i].box
    {
      var out;
      flat, out, order := TraverseBfs(root, nodes);
      nodes := out;
      NumberedTree(flat, order);
    }

    /** The link tables of `build_generic_bvh`: `links` grows by eight
        tables of `|flat|` links, and table `d`, at
        `8 * offset + d * |flat|`, is written by `save_traversal_links` with
        the signs `d & 1`, `d & 2`, `d & 4` from the root, which cancels
        past the last node. */
    method SaveAllLinks(flat: seq<FlatNode>, offset: nat)
      requires Tree(flat) && |flat| > 0 && |links| == 8 * offset
      modifies this
      ensures nodes == old(nodes)
      ensures |links| == |old(links)| + 8 * |flat| && links[..|old(links)|] == old(links)
      ensures forall d | 0 <= d < 8 :: LinksOk(flat, d, links, TableBase(offset, d, |flat|), 0, EndOfTraversal)
    {
      links := links + seq(8 * |flat|, _ => Link(0, 0));
      for d := 0 to 8
        invariant nodes == old(nodes) && |links| == 8 * (offset + |flat|)
        invariant links[..8 * offset] == old(links)
        invariant forall e | 0 <= e < d :: LinksOk(flat, e, links, TableBase(offset, e, |flat|), 0, EndOfTraversal)
      {
        SaveTable(flat, d, offset);
      }
    }

    /** One turn of the loop over the eight directions. */
    method SaveTable(flat: seq<FlatNode>, d: nat, offset: nat)
      requires Tree(flat) && |flat| > 0 && d < 8 && |links| == 8 * (offset + |flat|)
      requires forall e | 0 <= e < d :: LinksOk(flat, e, links, TableBase(offset, e, |flat|), 0, EndOfTraversal)
      modifies this
      ensures nodes == old(nodes) && |links| == |old(links)|
      ensures links[..8 * offset] == old(links[..8 * offset])
      ensures forall e | 0 <= e < d + 1 :: LinksOk(flat, e, links, TableBase(offset, e, |flat|), 0, EndOfTraversal)
    {
      TableOrder(d, 8, |flat|);
      SaveTraversalLinks(flat, d, 0, EndOfTraversal, TableBase(offset, d, |flat|));
      PrefixKept(flat, d, old(links), links, offset);
      forall e | 0 <= e < d
        ensures LinksOk(flat, e, links, TableBase(offset, e, |flat|), 0, EndOfTraversal)
      {
        TableKept(flat, d, e, old(links), links, offset);
      }
    }

    /** `pop_bvh`: unless the handle is already empty, cuts both buffers
        back to where the BVH started and empties the handle. */
    method PopBvh(b: BvhHandle) returns (b': BvhHandle)
      modifies this
      ensures b.nodeCount == 0 ==> nodes == old(nodes) && links == old(links) && b' == b
      ensures b.nodeCount != 0 ==>
        nodes == Resize(old(nodes), b.nodeOffset, ZeroBox) &&
        links == Resize(old(links), 8 * b.nodeOffset, ZeroLink) &&
        b' == b.(nodeCount := 0)
      ensures b.nodeCount != 0 ==> Valid()
    {
      b' := b;
      if b.nodeCount == 0 {
        return;
      }
      nodes := Resize(nodes, b.nodeOffset, ZeroBox);
      links := Resize(links, 8 * b.nodeOffset, ZeroLink);
      b' := b'.(nodeCount := 0);
    }

    /** `build_blas`: one leaf per triangle of the mesh, boxed around its
        three corners and numbered by the triangle, then
        `build_generic_bvh`. The tree's leaves are the triangles, once
        each. */
    method BuildBlas(m: Mesh, buffers: MeshBuffers) returns (b: BvhHandle, ghost flat: seq<FlatNode>, ghost root: BuildNode)
      requires Valid() && m.triangleCount >= 1 && MeshInBuffers(m, buffers.indices, buffers.pos)
      modifies this
      ensures Appended(old(nodes), old(links), b, flat)
      ensures Flattens(flat, root) && WellShaped(root) && LeafIndices(root) == Upto(m.triangleCount)
      ensures root.box == RootBox(TriangleLeaves(m, buffers.indices, buffers.pos), m.triangleCount)
      ensures Nested(root)
    {
      var leaves: seq<LeafNode> := [];
      for i := 0 to m.triangleCount
        invariant |leaves| == i
        invariant forall k | 0 <= k < i :: leaves[k] == TriangleLeaf(m, buffers.indices, buffers.pos, k)
      {
        var i0 := buffers.indices[m.indexOffset + i * 3 + 0];
        var i1 := buffers.indices[m.indexOffset + i * 3 + 1];
        var i2 := buffers.indices[m.indexOffset + i * 3 + 2];
        var pos0 := buffers.pos[m.baseVertexOffset + i0];
        var pos1 := buffers.pos[m.baseVertexOffset + i1];
        var pos2 := buffers.pos[m.baseVertexOffset + i2];
        leaves := leaves + [LeafNode(Min3(pos0, Min3(pos1, pos2)), Max3(pos0, Max3(pos1, pos2)), i)];
      }
      assert leaves == TriangleLeaves(m, buffers.indices, buffers.pos);
      IndicesNumbered(leaves);
      UptoOnce(m.triangleCount);
      b, flat, root := BuildFrom(leaves);
    }

    /** `build_tlas`: one leaf per instance, boxed around the eight corners
        of its BLAS root node moved by its transform and numbered by the
        number given with it, then `build_generic_bvh`. The nodes are read
        from `bcIn`, which may be these same buffers. */
    method BuildTlas(ti: seq<(TlasInstance, nat)>, bcIn: BvhBuffers) returns (b: BvhHandle, ghost flat: seq<FlatNode>, ghost root: BuildNode)
      requires Valid() && |ti| >= 1
      requires forall i | 0 <= i < |ti| :: ti[i].0.blas.nodeOffset < |bcIn.nodes|
      modifies this
      ensures Appended(old(nodes), old(links), b, flat)
      ensures Flattens(flat, root) && WellShaped(root) && LeafIndices(root) == Seconds(ti)
      ensures root.box == RootBox(InstanceLeaves(ti, old(bcIn.nodes)), |ti|)
      ensures (forall v | v in Seconds(ti) :: Seconds(ti)[v] == 1) ==> Nested(root)
    {
      var roots := bcIn.nodes;
      var leaves: seq<LeafNode> := [];
      for i := 0 to |ti|
        invariant nodes == old(nodes) && links == old(links)
        invariant |leaves| == i
        invariant forall k | 0 <= k < i :: leaves[k] == InstanceLeaf(ti[k], roots)
      {
        var inst := ti[i].0;
        var node := roots[inst.blas.nodeOffset];
        var box := InstanceBox(inst.transform, node);
        leaves := leaves + [LeafNode(box.min, box.max, ti[i].1)];
      }
      assert leaves == InstanceLeaves(ti, roots);
      IndicesOfInstances(leaves, ti);
      b, flat, root := BuildFrom(leaves);
    }

    /** The call of `build_generic_bvh` on the collected leaves, as an
        array it may reorder. */
    method BuildFrom(leaves: seq<LeafNode>) returns (b: BvhHandle, ghost flat: seq<FlatNode>, ghost root: BuildNode)
      requires Valid() && |leaves| >= 1
      modifies this
      ensures Appended(old(nodes), old(links), b, flat)
      ensures Flattens(flat, root) && WellShaped(root) && LeafIndices(root) == Indices(leaves)
      ensures root.box == RootBox(leaves, |leaves|)
      ensures UniqueIndices(leaves) ==> Nested(root)
    {
      var a := new LeafNode[|leaves|](k requires 0 <= k < |leaves| => leaves[k]);
      assert a[..] == leaves;
      ghost var order;
      b, flat, order := BuildGenericBvh(a);
      root := order[0];
      assert Mirrors(flat, order);
      assert a[..][0..a.Length] == a[..] && leaves[0..a.Length] == leaves;
      IndicesPermutation(a[..], leaves);
    }
  }
}
