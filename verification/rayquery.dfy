/** Ray queries (`ray_query.hh`): stackless traversal of the two-level BVH
    (a TLAS over instances, one BLAS over the triangles of each mesh) by
    following the direction-dependent accept/cancel links, and the
    candidate/closest bookkeeping of `ray_query_proceed` and
    `ray_query_confirm`. Floats are reals; the triangle intersection is an
    oracle passed in by the caller. */
module RayQuery {
  import opened MathCore
  import opened Bvh
  import opened BvhLayout
  import opened MeshLoader

  // ---------------------------------------------------------------------
  // Choosing a link table

  /** `directional_link_index`: bit 0 when the ray goes towards +x, bit 1
      towards +y, bit 2 towards +z. */
  function DirIndex(d: Vec3): (i: nat)
    ensures i < 8
  {
    (if d.x > 0.0 then 1 else 0) + (if d.y > 0.0 then 2 else 0) + (if d.z > 0.0 then 4 else 0)
  }

  /** The table a ray picks lists the children of a node split along
      `axis` in stored order exactly when the ray goes towards + along that
      axis. */
  lemma DirIndexSigns(d: Vec3, axis: nat)
    requires axis < 3
    ensures SignBit(DirIndex(d), axis) <==> Pick3(d, axis) > 0.0
  {
  }

  /** `link_offset`: where table `i` of BVH `h` starts in the link buffer. */
  function LinkOffset(h: BvhHandle, i: nat): (o: nat)
    requires i < 8
    ensures 8 * h.nodeOffset <= o && o + h.nodeCount <= 8 * (h.nodeOffset + h.nodeCount)
  {
    TableOrder(i, 8, h.nodeCount);
    TableBase(h.nodeOffset, i, h.nodeCount)
  }

  /** The value the source stores for `1 / 0`. */
  const Huge: real := 1e40

  /** `1.0f / c`, replaced by 1e40 for a zero component. */
  function InvComponent(c: real): (r: real)
    ensures c != 0.0 ==> r * c == 1.0
    ensures c == 0.0 ==> r == Huge
  {
    if c == 0.0 then Huge else 1.0 / c
  }

  function InvDir(d: Vec3): Vec3
  {
    Vec3(InvComponent(d.x), InvComponent(d.y), InvComponent(d.z))
  }

  // ---------------------------------------------------------------------
  // The slab test

  /** The distances at which the ray crosses the planes `lo` and `hi` of one
      axis, smaller first. */
  function Slab(lo: real, hi: real, o: real, inv: real): (real, real)
  {
    var t0 := Crossing(lo, o, inv);
    var t1 := Crossing(hi, o, inv);
    (Min(t0, t1), Max(t0, t1))
  }

  /** The distance along the ray at which it crosses the plane `x`, with
      `inv` the inverse of the ray's direction along the axis. */
  function Crossing(x: real, o: real, inv: real): real
  {
    (x - o) * inv
  }

  /** The slab test of `ray_query_traverse`: the interval in which the ray
      is inside the box is non-empty and overlaps `(tmin, tmax)`. */
  predicate SlabHit(b: Aabb, origin: Vec3, invDir: Vec3, tmin: real, tmax: real)
  {
    var sx := Slab(b.min.x, b.max.x, origin.x, invDir.x);
    var sy := Slab(b.min.y, b.max.y, origin.y, invDir.y);
    var sz := Slab(b.min.z, b.max.z, origin.z, invDir.z);
    var near := Max(sx.0, Max(sy.0, sz.0));
    var far := Min(sx.1, Min(sy.1, sz.1));
    near <= far && far > tmin && near < tmax
  }

  /** The crossings of two planes come in the order of the planes when
      the ray heads up the axis, in the reverse order otherwise. */
  lemma CrossingOrder(x: real, y: real, o: real, inv: real)
    requires x <= y
    ensures inv >= 0.0 ==> Crossing(x, o, inv) <= Crossing(y, o, inv)
    ensures inv < 0.0 ==> Crossing(y, o, inv) <= Crossing(x, o, inv)
  {
    if inv >= 0.0 {
      NonNegMul(y - x, inv);
    } else {
      NonNegMul(y - x, -inv);
    }
  }

  /** A slab around a smaller one is entered no later and left no
      earlier. */
  lemma SlabWidens(lo: real, hi: real, lo': real, hi': real, o: real, inv: real)
    requires lo <= lo' <= hi' <= hi
    ensures Slab(lo, hi, o, inv).0 <= Slab(lo', hi', o, inv).0
    ensures Slab(lo', hi', o, inv).1 <= Slab(lo, hi, o, inv).1
  {
    CrossingOrder(lo, lo', o, inv);
    CrossingOrder(lo', hi', o, inv);
    CrossingOrder(hi', hi, o, inv);
  }

  /** A ray that hits a box hits every box around it; so a ray that misses
      a box misses everything inside it. */
  lemma SlabHitEnclosing(outer: Aabb, inner: Aabb, origin: Vec3, invDir: Vec3, tmin: real, tmax: real)
    requires Encloses(outer, inner)
    requires inner.min.x <= inner.max.x && inner.min.y <= inner.max.y && inner.min.z <= inner.max.z
    ensures SlabHit(inner, origin, invDir, tmin, tmax) ==> SlabHit(outer, origin, invDir, tmin, tmax)
  {
    SlabWidens(outer.min.x, outer.max.x, inner.min.x, inner.max.x, origin.x, invDir.x);
    SlabWidens(outer.min.y, outer.max.y, inner.min.y, inner.max.y, origin.y, invDir.y);
    SlabWidens(outer.min.z, outer.max.z, inner.min.z, inner.max.z, origin.z, invDir.z);
  }

  /** `c` is the node `t` or one of the nodes below it. */
  ghost predicate Within(c: BuildNode, t: BuildNode)
    decreases t
  {
    c == t || exists d | d in t.children :: Within(c, d)
  }

  /** In a nested tree a ray that hits the box of some node hits the box
      of every node above it, up to the root; so pruning a subtree whose
      box is missed loses no hit below it. */
  lemma {:induction false} HitClimbs(t: BuildNode, c: BuildNode, origin: Vec3, invDir: Vec3, tmin: real, tmax: real)
    requires Nested(t) && Within(c, t)
    requires c.box.min.x <= c.box.max.x && c.box.min.y <= c.box.max.y && c.box.min.z <= c.box.max.z
    ensures t.box.min.x <= t.box.max.x && t.box.min.y <= t.box.max.y && t.box.min.z <= t.box.max.z
    ensures SlabHit(c.box, origin, invDir, tmin, tmax) ==> SlabHit(t.box, origin, invDir, tmin, tmax)
    decreases t
  {
    if c != t {
      var d :| d in t.children && Within(c, d);
      HitClimbs(d, c, origin, invDir, tmin, tmax);
      SlabHitEnclosing(t.box, d.box, origin, invDir, tmin, tmax);
    }
  }

  // ---------------------------------------------------------------------
  // Pending subtrees: what a stackless traversal has left to do

  /** The children of an interior node in the order of table `dir`. */
  ghost function Kids(flat: seq<FlatNode>, dir: nat, x: nat): (s: seq<nat>)
    requires Tree(flat) && x < |flat|
    ensures |s| == flat[x].count
    ensures forall k | 0 <= k < |s| :: s[k] == OrderedChild(flat[x], dir, k)
  {
    if flat[x].count == 0 then []
    else seq(flat[x].count, k requires 0 <= k < flat[x].count => OrderedChild(flat[x], dir, k))
  }

  /** Where a miss of the first of the pending subtrees leads. */
  function NextOf(p: seq<nat>): nat
  {
    if |p| >= 2 then p[1] else EndOfTraversal
  }

  /** The subtrees a traversal still has to visit, in the order the links
      reach them: each one's links lead out of it to the next, the last
      one's to the end. */
  ghost predicate Pending(flat: seq<FlatNode>, dir: nat, links: seq<Link>, base: nat, p: seq<nat>)
    requires Tree(flat)
    decreases |p|
  {
    p == [] ||
    (p[0] < |flat| && LinksOk(flat, dir, links, base, p[0], NextOf(p)) &&
     Pending(flat, dir, links, base, p[1..]))
  }

  /** `node_index` is the root of the first pending subtree, or lies past
      the nodes once nothing is pending. */
  predicate AtHead(nodeIndex: nat, count: nat, p: seq<nat>)
  {
    if p == [] then nodeIndex >= count else nodeIndex == p[0]
  }

  /** The number of nodes in the subtree under `x`. */
  ghost function SubSize(flat: seq<FlatNode>, dir: nat, x: nat): nat
    requires Tree(flat) && x < |flat|
    decreases |flat| - x, 1
  {
    1 + if flat[x].count == 0 then 0 else SizeRun(flat, dir, x, flat[x].count)
  }

  ghost function SizeRun(flat: seq<FlatNode>, dir: nat, x: nat, k: nat): nat
    requires Tree(flat) && x < |flat| && 0 < flat[x].count && k <= flat[x].count
    decreases |flat| - x, 0, k
  {
    if k == 0 then 0 else SizeRun(flat, dir, x, k - 1) + SubSize(flat, dir, OrderedChild(flat[x], dir, k - 1))
  }

  /** The number of nodes in the pending subtrees. */
  ghost function Total(flat: seq<FlatNode>, dir: nat, p: seq<nat>): nat
    requires Tree(flat)
  {
    if p == [] then 0
    else Total(flat, dir, p[..|p| - 1]) + (if p[|p| - 1] < |flat| then SubSize(flat, dir, p[|p| - 1]) else 0)
  }

  /** The nodes in the pending subtrees. */
  ghost function Covered(flat: seq<FlatNode>, p: seq<nat>): set<nat>
    requires Laid(flat)
  {
    if p == [] then {}
    else Covered(flat, p[..|p| - 1]) + (if p[|p| - 1] < |flat| then Sub(flat, p[|p| - 1]) else {})
  }

  lemma {:induction false} TotalConcat(flat: seq<FlatNode>, dir: nat, a: seq<nat>, b: seq<nat>)
    requires Tree(flat)
    ensures Total(flat, dir, a + b) == Total(flat, dir, a) + Total(flat, dir, b)
    decreases |b|
  {
    if b != [] {
      assert (a + b)[..|a + b| - 1] == a + b[..|b| - 1];
      TotalConcat(flat, dir, a, b[..|b| - 1]);
    } else {
      assert a + b == a;
    }
  }

  lemma {:induction false} CoveredConcat(flat: seq<FlatNode>, a: seq<nat>, b: seq<nat>)
    requires Laid(flat)
    ensures Covered(flat, a + b) == Covered(flat, a) + Covered(flat, b)
    decreases |b|
  {
    if b != [] {
      assert (a + b)[..|a + b| - 1] == a + b[..|b| - 1];
      CoveredConcat(flat, a, b[..|b| - 1]);
    } else {
      assert a + b == a;
    }
  }

  /** The first pending subtree and the rest. */
  lemma SplitHead(flat: seq<FlatNode>, dir: nat, p: seq<nat>)
    requires Tree(flat) && p != [] && p[0] < |flat|
    ensures Total(flat, dir, p) == SubSize(flat, dir, p[0]) + Total(flat, dir, p[1..])
    ensures Covered(flat, p) == Sub(flat, p[0]) + Covered(flat, p[1..])
  {
    assert p == [p[0]] + p[1..];
    TotalConcat(flat, dir, [p[0]], p[1..]);
    CoveredConcat(flat, [p[0]], p[1..]);
    assert [p[0]][..0] == [];
  }

  /** The children of a node hold all of its subtree but the node itself. */
  lemma {:induction false} KidsPrefix(flat: seq<FlatNode>, dir: nat, x: nat, k: nat)
    requires Tree(flat) && x < |flat| && 0 < flat[x].count && k <= flat[x].count
    ensures Total(flat, dir, Kids(flat, dir, x)[..k]) == SizeRun(flat, dir, x, k)
    ensures Covered(flat, Kids(flat, dir, x)[..k]) + {x} == Visited(flat, x, dir, k)
  {
    var s := Kids(flat, dir, x);
    if k > 0 {
      KidsPrefix(flat, dir, x, k - 1);
      assert s[..k][..k - 1] == s[..k - 1];
    }
  }

  lemma KidsCover(flat: seq<FlatNode>, dir: nat, x: nat)
    requires Tree(flat) && x < |flat| && 0 < flat[x].count
    ensures Total(flat, dir, Kids(flat, dir, x)) + 1 == SubSize(flat, dir, x)
    ensures Covered(flat, Kids(flat, dir, x)) + {x} == Sub(flat, x)
  {
    var s := Kids(flat, dir, x);
    KidsPrefix(flat, dir, x, flat[x].count);
    assert s[..flat[x].count] == s;
    VisitedAll(flat, x, dir);
  }

  /** The pending list after entering an interior node: its children, in
      table order, in front of the rest; their links lead from one to the
      next and the last one's to where the node's own cancel led. */
  lemma {:induction false} PendingKids(flat: seq<FlatNode>, dir: nat, links: seq<Link>, base: nat, p: seq<nat>, j: nat)
    requires Tree(flat) && Pending(flat, dir, links, base, p) && p != [] && p[0] < |flat|
    requires 0 < flat[p[0]].count && j <= flat[p[0]].count
    ensures Pending(flat, dir, links, base, Kids(flat, dir, p[0])[j..] + p[1..])
    decreases flat[p[0]].count - j
  {
    var x := p[0];
    var s := Kids(flat, dir, x);
    var q := s[j..] + p[1..];
    if j == flat[x].count {
      assert q == p[1..];
    } else {
      PendingKids(flat, dir, links, base, p, j + 1);
      assert q[0] == OrderedChild(flat[x], dir, j);
      assert q[1..] == s[j + 1..] + p[1..];
      assert NextOf(q) == NextCancel(flat[x], dir, j, NextOf(p));
      assert LinksOk(flat, dir, links, base, x, NextOf(p));
      assert LinksOk(flat, dir, links, base, q[0], NextOf(q));
    }
  }

  // ---------------------------------------------------------------------
  // ray_query_traverse

  /** The traversal state of one BVH (`ray_query_context`): the handle of
      the BVH, the ray in its space, the start of the link table in use and
      the next node. */
  datatype Context = Context(bvh: BvhHandle, origin: Vec3, dir: Vec3, invDir: Vec3, linkOffset: nat, nodeIndex: nat)

  /** The slab test of node `a` of the context's BVH. */
  predicate HitsNode(ctx: Context, nodes: seq<Aabb>, tmin: real, tmax: real, a: nat)
  {
    ctx.bvh.nodeOffset + a < |nodes| && SlabHit(nodes[ctx.bvh.nodeOffset + a], ctx.origin, ctx.invDir, tmin, tmax)
  }

  /** Node `z` lies under a node whose box the ray misses. */
  ghost predicate Culled(flat: seq<FlatNode>, ctx: Context, nodes: seq<Aabb>, tmin: real, tmax: real, z: nat)
    requires Laid(flat)
  {
    exists a | 0 <= a < |flat| :: z in Sub(flat, a) && ctx.bvh.nodeOffset + a < |nodes| && !HitsNode(ctx, nodes, tmin, tmax, a)
  }

  /** A context in the middle of a traversal of `flat` with table `dir`,
      `pending` the subtrees left. */
  ghost predicate Walk(ctx: Context, nodes: seq<Aabb>, links: seq<Link>, flat: seq<FlatNode>, dir: nat, pending: seq<nat>)
  {
    Tree(flat) && |flat| == ctx.bvh.nodeCount <= LeafBit && ctx.bvh.nodeOffset + |flat| <= |nodes| &&
    Pending(flat, dir, links, ctx.linkOffset, pending) && AtHead(ctx.nodeIndex, |flat|, pending)
  }

  /** Every node dropped from the pending subtrees was an interior node,
      the leaf `reached`, or under a node the ray misses. */
  ghost predicate OnlyCulled(flat: seq<FlatNode>, ctx: Context, nodes: seq<Aabb>, tmin: real, tmax: real,
                             before: seq<nat>, after: seq<nat>, reached: set<nat>)
    requires Laid(flat)
  {
    Covered(flat, after) <= Covered(flat, before) &&
    forall z | z in Covered(flat, before) - Covered(flat, after) ::
      z < |flat| && (flat[z].count > 0 || z in reached || Culled(flat, ctx, nodes, tmin, tmax, z))
  }

  /** A miss, or a leaf: the first pending subtree is dropped. `ray` is
      the context the traversal started from. */
  lemma DropHead(flat: seq<FlatNode>, ray: Context, ctx: Context, nodes: seq<Aabb>, links: seq<Link>, dir: nat,
                 tmin: real, tmax: real, p0: seq<nat>, p: seq<nat>)
    requires Walk(ctx, nodes, links, flat, dir, p) && p != [] && ctx == ray.(nodeIndex := ctx.nodeIndex)
    requires OnlyCulled(flat, ray, nodes, tmin, tmax, p0, p, {})
    requires !HitsNode(ray, nodes, tmin, tmax, p[0]) || flat[p[0]].count == 0
    ensures Walk(ctx.(nodeIndex := links[ctx.linkOffset + p[0]].cancel), nodes, links, flat, dir, p[1..])
    ensures Total(flat, dir, p[1..]) < Total(flat, dir, p)
    ensures OnlyCulled(flat, ray, nodes, tmin, tmax, p0, p[1..], if HitsNode(ray, nodes, tmin, tmax, p[0]) then {p[0]} else {})
  {
    SplitHead(flat, dir, p);
    SubBounds(flat, p[0]);
    assert links[ctx.linkOffset + p[0]].cancel == NextOf(p);
    var reached := if HitsNode(ray, nodes, tmin, tmax, p[0]) then {p[0]} else {};
    forall z | z in Covered(flat, p0) - Covered(flat, p[1..])
      ensures z < |flat| && (flat[z].count > 0 || z in reached || Culled(flat, ray, nodes, tmin, tmax, z))
    {
      if z in Sub(flat, p[0]) && !HitsNode(ray, nodes, tmin, tmax, p[0]) {
        assert z in Sub(flat, p[0]) && ray.bvh.nodeOffset + p[0] < |nodes| && !HitsNode(ray, nodes, tmin, tmax, p[0]);
      }
      if z in Sub(flat, p[0]) && HitsNode(ray, nodes, tmin, tmax, p[0]) {
        assert Sub(flat, p[0]) == {p[0]};
      }
    }
  }

  /** A hit of an interior node: its children become pending in its
      place. */
  lemma EnterKids(flat: seq<FlatNode>, ray: Context, ctx: Context, nodes: seq<Aabb>, links: seq<Link>, dir: nat,
                  tmin: real, tmax: real, p0: seq<nat>, p: seq<nat>)
    requires Walk(ctx, nodes, links, flat, dir, p) && p != [] && flat[p[0]].count > 0
    requires OnlyCulled(flat, ray, nodes, tmin, tmax, p0, p, {})
    ensures var q := Kids(flat, dir, p[0]) + p[1..];
      Walk(ctx.(nodeIndex := links[ctx.linkOffset + p[0]].accept), nodes, links, flat, dir, q) &&
      Total(flat, dir, q) < Total(flat, dir, p) &&
      OnlyCulled(flat, ray, nodes, tmin, tmax, p0, q, {})
  {
    var s := Kids(flat, dir, p[0]);
    var q := s + p[1..];
    SplitHead(flat, dir, p);
    KidsCover(flat, dir, p[0]);
    TotalConcat(flat, dir, s, p[1..]);
    CoveredConcat(flat, s, p[1..]);
    PendingKids(flat, dir, links, ctx.linkOffset, p, 0);
    assert s[0..] == s;
    assert q[0] == s[0];
    SubBounds(flat, p[0]);
  }

  /** The link of the first pending node tells a leaf from an interior
      node by its top bit; a leaf's low bits are its entry. */
  lemma HeadLink(flat: seq<FlatNode>, ctx: Context, nodes: seq<Aabb>, links: seq<Link>, dir: nat, p: seq<nat>)
    requires Walk(ctx, nodes, links, flat, dir, p) && p != []
    ensures var a := links[ctx.linkOffset + p[0]].accept;
      (a % LeafBit != a <==> flat[p[0]].count == 0) &&
      (flat[p[0]].count == 0 ==> a % LeafBit == flat[p[0]].leafCount % LeafBit)
  {
    var f := flat[p[0]];
    if f.count == 0 {
      LeafTagDecodes(f.leafCount, 0);
    } else {
      LeafTagDecodes(0, OrderedChild(f, dir, 0));
    }
  }

  /** `ray_query_traverse`: from `node_index`, a hit of a leaf returns its
      entry (`accept & 0x7FFFFFFF`) and moves on to its `cancel`; a hit of
      an interior node moves to its `accept`, a miss to its `cancel`; past
      the last node it returns 0xFFFFFFFF. The context comes back updated,
      as the source updates it in place. The traversal ends, and
      every node it leaves behind is an interior node, the leaf it returns,
      or under a node whose box the ray misses. */
  method Traverse(ctx: Context, nodes: seq<Aabb>, links: seq<Link>, tmin: real, tmax: real,
                  ghost flat: seq<FlatNode>, ghost dir: nat, ghost pending: seq<nat>)
    returns (ctx': Context, leaf: nat, ghost node: nat, ghost pending': seq<nat>)
    requires Walk(ctx, nodes, links, flat, dir, pending)
    ensures Walk(ctx', nodes, links, flat, dir, pending') && ctx' == ctx.(nodeIndex := ctx'.nodeIndex)
    ensures leaf == EndOfTraversal ==> pending' == []
    ensures leaf != EndOfTraversal ==>
      node < |flat| && flat[node].count == 0 && HitsNode(ctx, nodes, tmin, tmax, node) &&
      leaf == flat[node].leafCount % LeafBit && Total(flat, dir, pending') < Total(flat, dir, pending)
    ensures Total(flat, dir, pending') <= Total(flat, dir, pending)
    ensures OnlyCulled(flat, ctx, nodes, tmin, tmax, pending, pending', if leaf == EndOfTraversal then {} else {node})
  {
    ctx' := ctx;
    pending' := pending;
    node := 0;
    while ctx'.nodeIndex < ctx'.bvh.nodeCount
      invariant Walk(ctx', nodes, links, flat, dir, pending') && ctx' == ctx.(nodeIndex := ctx'.nodeIndex)
      invariant Total(flat, dir, pending') <= Total(flat, dir, pending)
      invariant OnlyCulled(flat, ctx, nodes, tmin, tmax, pending, pending', {})
      decreases Total(flat, dir, pending')
    {
      var found;
      ctx', found, leaf, node, pending' := Visit(ctx, ctx', nodes, links, tmin, tmax, flat, dir, pending, pending');
      if found {
        return;
      }
    }
    leaf := EndOfTraversal;
  }

  /** One turn of the loop of `ray_query_traverse`, at the first pending
      node; `found` when it returns. */
  method Visit(ray: Context, ctx: Context, nodes: seq<Aabb>, links: seq<Link>, tmin: real, tmax: real,
               ghost flat: seq<FlatNode>, ghost dir: nat, ghost p0: seq<nat>, ghost p: seq<nat>)
    returns (ctx': Context, found: bool, leaf: nat, ghost node: nat, ghost p': seq<nat>)
    requires Walk(ctx, nodes, links, flat, dir, p) && ctx == ray.(nodeIndex := ctx.nodeIndex)
    requires ctx.nodeIndex < ctx.bvh.nodeCount && OnlyCulled(flat, ray, nodes, tmin, tmax, p0, p, {})
    ensures Walk(ctx', nodes, links, flat, dir, p') && ctx' == ray.(nodeIndex := ctx'.nodeIndex)
    ensures Total(flat, dir, p') < Total(flat, dir, p)
    ensures found ==>
      node < |flat| && flat[node].count == 0 && HitsNode(ray, nodes, tmin, tmax, node) &&
      leaf == flat[node].leafCount % LeafBit && leaf != EndOfTraversal &&
      OnlyCulled(flat, ray, nodes, tmin, tmax, p0, p', {node})
    ensures !found ==> OnlyCulled(flat, ray, nodes, tmin, tmax, p0, p', {})
  {
    assert p != [] && ctx.nodeIndex == p[0];
    var no := nodes[ctx.bvh.nodeOffset + ctx.nodeIndex];
    var link := links[ctx.linkOffset + ctx.nodeIndex];
    found, leaf, node := false, 0, 0;
    if SlabHit(no, ctx.origin, ctx.invDir, tmin, tmax) {
      var accept := link.accept % LeafBit;
      HeadLink(flat, ctx, nodes, links, dir, p);
      if accept != link.accept {
        node := ctx.nodeIndex;
        DropHead(flat, ray, ctx, nodes, links, dir, tmin, tmax, p0, p);
        ctx' := ctx.(nodeIndex := link.cancel);
        p' := p[1..];
        found, leaf := true, accept;
      } else {
        EnterKids(flat, ray, ctx, nodes, links, dir, tmin, tmax, p0, p);
        ctx' := ctx.(nodeIndex := accept);
        p' := Kids(flat, dir, p[0]) + p[1..];
      }
    } else {
      DropHead(flat, ray, ctx, nodes, links, dir, tmin, tmax, p0, p);
      ctx' := ctx.(nodeIndex := link.cancel);
      p' := p[1..];
    }
  }

  // ---------------------------------------------------------------------
  // The ray query

  /** `ray_query_hit_info`: barycentrics of the hit, distance along the
      ray, instance and triangle, and whether the back face was hit. */
  datatype HitInfo = HitInfo(barycentrics: Vec3, thit: real, instanceId: nat, primitiveId: nat, backFace: bool)

  /** The hit a query starts with: distance -1, no instance. */
  const NoHit: HitInfo := HitInfo(Vec3(0.0, 0.0, 0.0), -1.0, 0xFFFF_FFFF, 0, false)

  /** What `ray_triangle_intersection` reports: whether the triangle was
      hit, (u, v, t) and whether its back face was hit. */
  datatype TriangleHit = TriangleHit(hit: bool, uvt: Vec3, backFace: bool)

  /** `ray_triangle_intersection(origin, axis, dir, p0, p1, p2)`: floating
      point arithmetic this model does not look into. */
  type Intersector = (Vec3, int, Vec3, Vec3, Vec3, Vec3) -> TriangleHit

  /** BVH `h` can be walked from its root with every table: its links are
      those `build_generic_bvh` saves, and it has fewer nodes than the top
      bit of a link can tell apart. */
  ghost predicate Traversable(nodes: seq<Aabb>, links: seq<Link>, h: BvhHandle, flat: seq<FlatNode>)
  {
    Tree(flat) && |flat| == h.nodeCount <= LeafBit && h.nodeOffset + h.nodeCount <= |nodes| &&
    (|flat| > 0 ==> forall d | 0 <= d < 8 :: LinksOk(flat, d, links, LinkOffset(h, d), 0, EndOfTraversal))
  }

  /** The leaves of `flat` hold entries below `n`. */
  ghost predicate LeavesBelow(flat: seq<FlatNode>, n: nat)
  {
    forall z | 0 <= z < |flat| && flat[z].count == 0 :: flat[z].leafCount < n
  }

  /** A leaf's entry fits below the top bit of a link, so the traversal
      hands it back whole. */
  lemma LeafEntry(flat: seq<FlatNode>, node: nat, n: nat)
    requires LeavesBelow(flat, n) && n <= LeafBit && node < |flat| && flat[node].count == 0
    ensures flat[node].leafCount % LeafBit == flat[node].leafCount < n
  {
  }

  /** The direction of a ray moved into the space of an instance. */
  function LocalDir(inst: TlasInstance, dir: Vec3): Vec3
  {
    MulM3V3(ExtractM4M3(inst.invTransform), dir)
  }

  /** The origin of a ray moved into the space of an instance. */
  function LocalOrigin(inst: TlasInstance, o: Vec3): Vec3
  {
    var v := MulM4V4(inst.invTransform, Vec4(o.x, o.y, o.z, 1.0));
    Vec3(v.x, v.y, v.z)
  }

  /** What a ray query reads: a TLAS whose leaves name instances, and for
      each instance a BLAS whose leaves name triangles of its mesh, which
      lies in the mesh buffers. The ray's direction does not vanish in the
      space of any instance. */
  ghost predicate SceneOk(nodes: seq<Aabb>, links: seq<Link>, instances: seq<TlasInstance>,
                          meshIndices: seq<nat>, meshPos: seq<Vec3>, tlas: BvhHandle, direction: Vec3,
                          tlasFlat: seq<FlatNode>, blasFlats: seq<seq<FlatNode>>)
  {
    Traversable(nodes, links, tlas, tlasFlat) && |instances| <= LeafBit && LeavesBelow(tlasFlat, |instances|) &&
    |blasFlats| == |instances| &&
    forall i | 0 <= i < |instances| ::
      Traversable(nodes, links, instances[i].blas, blasFlats[i]) &&
      instances[i].m.triangleCount <= LeafBit && LeavesBelow(blasFlats[i], instances[i].m.triangleCount) &&
      MeshInBuffers(instances[i].m, meshIndices, meshPos) &&
      LocalDir(instances[i], direction) != Vec3(0.0, 0.0, 0.0)
  }

  /** A walk from the root of a traversable BVH. */
  lemma StartWalk(nodes: seq<Aabb>, links: seq<Link>, h: BvhHandle, flat: seq<FlatNode>, ctx: Context, d: nat)
    requires Traversable(nodes, links, h, flat) && d < 8
    requires ctx.bvh == h && ctx.linkOffset == LinkOffset(h, d) && ctx.nodeIndex == 0
    ensures Walk(ctx, nodes, links, flat, d, if |flat| > 0 then [0] else [])
  {
  }

  /** The state of one ray query (`ray_query`): the buffers it reads, the
      TLAS and BLAS contexts, the mesh of the BLAS, the distance window,
      `blasAxis` (-1 outside a BLAS) and the candidate and closest hits.
      The ghost part follows each traversal: the BVH it walks, the table it
      uses and the subtrees it has left. */
  class Query {
    const nodes: seq<Aabb>
    const links: seq<Link>
    const instances: seq<TlasInstance>
    const meshIndices: seq<nat>
    const meshPos: seq<Vec3>
    ghost const tlasFlat: seq<FlatNode>
    ghost const blasFlats: seq<seq<FlatNode>>

    var tlasCtx: Context
    var blasCtx: Context
    var blasMesh: Mesh
    var tmin: real
    var tmax: real
    var blasAxis: int
    var candidate: HitInfo
    var closest: HitInfo

    ghost var tlasPending: seq<nat>
    ghost var blasPending: seq<nat>
    ghost var blasInstance: nat
    ghost var blasTable: nat

    /** The TLAS traversal: the scene is traversable and the TLAS context
        is walking it with the table of the ray's direction. */
    ghost predicate TlasOk()
      reads this`tlasCtx, this`tlasPending
    {
      SceneOk(nodes, links, instances, meshIndices, meshPos, tlasCtx.bvh, tlasCtx.dir, tlasFlat, blasFlats) &&
      Walk(tlasCtx, nodes, links, tlasFlat, DirIndex(tlasCtx.dir), tlasPending)
    }

    /** Inside a BLAS (`blasAxis >= 0`): the BLAS context is walking the
        BLAS of the instance the candidate names, and the mesh is that
        instance's. */
    ghost predicate BlasOk()
      reads this`blasAxis, this`blasInstance, this`candidate, this`blasCtx, this`blasMesh, this`blasPending, this`blasTable
    {
      -1 <= blasAxis < 3 &&
      (blasAxis >= 0 ==>
         blasInstance < |instances| && blasInstance < |blasFlats| && candidate.instanceId == blasInstance &&
         blasCtx.bvh == instances[blasInstance].blas && blasMesh == instances[blasInstance].m &&
         Walk(blasCtx, nodes, links, blasFlats[blasInstance], blasTable, blasPending))
    }

    ghost predicate Valid()
      reads this
    {
      TlasOk() && BlasOk()
    }

    /** The work left: the TLAS subtrees still pending, then those of the
        BLAS being walked. */
    ghost function TlasLeft(): nat
      reads this`tlasCtx, this`tlasPending
    {
      if Tree(tlasFlat) then Total(tlasFlat, DirIndex(tlasCtx.dir), tlasPending) else 0
    }

    ghost function BlasLeft(): nat
      reads this`blasAxis, this`blasInstance, this`blasPending, this`blasTable
    {
      if blasAxis >= 0 && blasInstance < |blasFlats| && Tree(blasFlats[blasInstance])
      then 1 + Total(blasFlats[blasInstance], blasTable, blasPending) else 0
    }

    /** `ray_query_initialize`: the TLAS context starts at the root with the
        table of the ray's direction; both hits start as `NoHit` and no
        BLAS is entered. The BLAS context, left uninitialised by the
        source, starts zeroed. */
    constructor Initialize(tlas: BvhHandle, instances: seq<TlasInstance>, nodes: seq<Aabb>, links: seq<Link>,
                           meshIndices: seq<nat>, meshPos: seq<Vec3>, origin: Vec3, direction: Vec3,
                           tmin: real, tmax: real, ghost tlasFlat: seq<FlatNode>, ghost blasFlats: seq<seq<FlatNode>>)
      requires SceneOk(nodes, links, instances, meshIndices, meshPos, tlas, direction, tlasFlat, blasFlats)
      ensures Valid()
      ensures this.nodes == nodes && this.links == links && this.instances == instances
      ensures this.meshIndices == meshIndices && this.meshPos == meshPos
      ensures tlasCtx == Context(tlas, origin, direction, InvDir(direction), LinkOffset(tlas, DirIndex(direction)), 0)
      ensures blasCtx.nodeIndex == 0 && blasAxis == -1
      ensures this.tmin == tmin && this.tmax == tmax && candidate == NoHit && closest == NoHit
    {
      this.nodes := nodes;
      this.links := links;
      this.instances := instances;
      this.meshIndices := meshIndices;
      this.meshPos := meshPos;
      this.tlasFlat := tlasFlat;
      this.blasFlats := blasFlats;
      var zero := Vec3(0.0, 0.0, 0.0);
      var d := DirIndex(direction);
      tlasCtx := Context(tlas, origin, direction, InvDir(direction), LinkOffset(tlas, d), 0);
      blasCtx := Context(BvhHandle(0, 0), zero, zero, zero, 0, 0);
      blasMesh := Mesh(0, 0, 0, 0);
      this.tmin := tmin;
      this.tmax := tmax;
      blasAxis := -1;
      candidate := NoHit;
      closest := NoHit;
      tlasPending := if |tlasFlat| > 0 then [0] else [];
      blasPending := [];
      blasInstance := 0;
      blasTable := 0;
      new;
      StartWalk(nodes, links, tlas, tlasFlat, tlasCtx, d);
    }

    /** `ray_query_enter_blas`: the BLAS context of instance `index` starts
        at its root, with the ray moved into the instance's space by the
        inverse transform and the table of the moved direction; the mesh is
        the instance's; `blasAxis` becomes the major axis of the moved
        direction and the context's direction the preprocessed one. */
    method EnterBlas(index: nat)
      requires Valid() && index < |instances| && candidate.instanceId == index
      modifies this`blasCtx, this`blasMesh, this`blasAxis, this`blasInstance, this`blasTable, this`blasPending
      ensures Valid()
      ensures var inst := instances[index];
        var dir := LocalDir(inst, old(tlasCtx.dir));
        blasCtx.bvh == inst.blas && blasCtx.origin == LocalOrigin(inst, old(tlasCtx.origin)) &&
        blasCtx.invDir == InvDir(dir) && blasCtx.linkOffset == LinkOffset(inst.blas, DirIndex(dir)) &&
        blasCtx.nodeIndex == 0 && blasMesh == inst.m &&
        0 <= blasAxis < 3 && blasAxis == MajorAxis(dir) && blasTable == DirIndex(dir)
      ensures var rd := SwapIntoZ(LocalDir(instances[index], old(tlasCtx.dir)), blasAxis);
        rd.z != 0.0 && blasCtx.dir == Vec3(rd.x / rd.z, rd.y / rd.z, 1.0 / rd.z)
      ensures blasInstance == index
    {
      var inst := instances[index];
      var dir := LocalDir(inst, tlasCtx.dir);
      var d := DirIndex(dir);
      blasCtx := Context(inst.blas, LocalOrigin(inst, tlasCtx.origin), dir, InvDir(dir), LinkOffset(inst.blas, d), 0);
      blasMesh := inst.m;
      var axis, s := RayTriangleIntersectionPreprocess(dir);
      blasAxis := axis;
      blasCtx := blasCtx.(dir := s);
      blasInstance := index;
      blasTable := d;
      blasPending := if |blasFlats[index]| > 0 then [0] else [];
      StartWalk(nodes, links, inst.blas, blasFlats[index], blasCtx, d);
    }

    /** `ray_query_test_triangle`: the candidate triangle of the BLAS mesh
        is handed to the intersection test in the BLAS's space; its
        distance, barycentrics and face are recorded in the candidate, and
        it counts only when hit strictly inside `(tmin, tmax)`. */
    method TestTriangle(intersect: Intersector) returns (r: bool)
      requires Valid() && blasAxis >= 0 && candidate.primitiveId < blasMesh.triangleCount
      modifies this`candidate
      ensures Valid()
      ensures var c := Corners(blasMesh, meshIndices, meshPos, old(candidate.primitiveId));
        var h := intersect(blasCtx.origin, blasAxis, blasCtx.dir, c.0, c.1, c.2);
        candidate == old(candidate).(thit := h.uvt.z, barycentrics := Vec3(h.uvt.x, h.uvt.y, 1.0 - h.uvt.x - h.uvt.y),
                                     backFace := h.backFace) &&
        (r <==> h.hit && tmin < h.uvt.z < tmax)
    {
      var m := blasMesh;
      var triOffset := m.indexOffset + candidate.primitiveId * 3;
      var i0 := meshIndices[triOffset + 0];
      var i1 := meshIndices[triOffset + 1];
      var i2 := meshIndices[triOffset + 2];
      var pos0 := meshPos[m.baseVertexOffset + i0];
      var pos1 := meshPos[m.baseVertexOffset + i1];
      var pos2 := meshPos[m.baseVertexOffset + i2];
      var h := intersect(blasCtx.origin, blasAxis, blasCtx.dir, pos0, pos1, pos2);
      candidate := candidate.(thit := h.uvt.z);
      candidate := candidate.(barycentrics := Vec3(h.uvt.x, h.uvt.y, 1.0 - h.uvt.x - h.uvt.y));
      candidate := candidate.(backFace := h.backFace);
      r := h.hit && candidate.thit < tmax && candidate.thit > tmin;
    }

    /** `ray_query_proceed`: traverses the TLAS, or the BLAS while one is
        entered. A TLAS leaf names an instance, whose BLAS is entered; a
        BLAS leaf names a triangle, which is intersected; a finished BLAS hands
        back to the TLAS, a finished TLAS ends the query. It returns once a
        triangle is hit inside the window, and always makes progress. */
    method Proceed(intersect: Intersector) returns (r: bool)
      requires Valid()
      modifies this`tlasCtx, this`tlasPending, this`candidate, this`blasCtx, this`blasMesh, this`blasAxis, this`blasInstance, this`blasTable, this`blasPending
      ensures Valid()
      ensures r ==> blasAxis >= 0 && tmin < candidate.thit < tmax && candidate.instanceId == blasInstance &&
                    candidate.primitiveId < blasMesh.triangleCount
      ensures !r ==> tlasPending == [] && blasAxis == -1
      ensures r ==> TlasLeft() < old(TlasLeft()) || (TlasLeft() == old(TlasLeft()) && BlasLeft() < old(BlasLeft()))
    {
      while true
        invariant Valid()
        invariant TlasLeft() < old(TlasLeft()) || (TlasLeft() == old(TlasLeft()) && BlasLeft() <= old(BlasLeft()))
        decreases TlasLeft(), BlasLeft()
      {
        if blasAxis < 0 {
          var more := TlasStep();
          if !more {
            return false;
          }
        } else {
          var hit := BlasStep(intersect);
          if hit {
            return true;
          }
        }
      }
    }

    /** One turn of `ray_query_proceed` outside a BLAS: the TLAS is
        traversed; a leaf enters the BLAS of the instance it names, and
        `more` is false once the TLAS is finished. */
    method TlasStep() returns (more: bool)
      requires Valid() && blasAxis < 0
      modifies this`tlasCtx, this`tlasPending, this`candidate, this`blasCtx, this`blasMesh, this`blasAxis, this`blasInstance, this`blasTable, this`blasPending
      ensures Valid()
      ensures more ==> blasAxis >= 0 && TlasLeft() < old(TlasLeft())
      ensures !more ==> tlasPending == [] && blasAxis == -1
    {
      var leaf: nat;
      ghost var node: nat;
      tlasCtx, leaf, node, tlasPending := Traverse(tlasCtx, nodes, links, tmin, tmax, tlasFlat, DirIndex(tlasCtx.dir), tlasPending);
      more := leaf != EndOfTraversal;
      if more {
        LeafEntry(tlasFlat, node, |instances|);
        candidate := candidate.(instanceId := leaf);
        EnterBlas(leaf);
      }
    }

    /** One turn of `ray_query_proceed` inside a BLAS: the BLAS is
        traversed; a leaf names a triangle, which is intersected; a finished
        BLAS hands back to the TLAS. */
    method BlasStep(intersect: Intersector) returns (hit: bool)
      requires Valid() && blasAxis >= 0
      modifies this`blasCtx, this`blasPending, this`candidate, this`blasAxis
      ensures Valid()
      ensures BlasLeft() < old(BlasLeft())
      ensures hit ==> blasAxis >= 0 && tmin < candidate.thit < tmax && candidate.instanceId == blasInstance &&
                      candidate.primitiveId < blasMesh.triangleCount
    {
      var leaf: nat;
      ghost var node: nat;
      ghost var flat := blasFlats[blasInstance];
      ghost var left := Total(flat, blasTable, blasPending);
      blasCtx, leaf, node, blasPending := Traverse(blasCtx, nodes, links, tmin, tmax, flat, blasTable, blasPending);
      hit := false;
      if leaf != EndOfTraversal {
        LeafEntry(flat, node, blasMesh.triangleCount);
        assert BlasLeft() < 1 + left;
        candidate := candidate.(primitiveId := leaf);
        hit := TestTriangle(intersect);
      } else {
        blasAxis := -1;
      }
    }

    /** `ray_query_confirm`: the candidate becomes the closest hit and its
        distance the new `tmax`, so a hit `Proceed` returns can only be
        confirmed closer than the one before. */
    method Confirm()
      requires Valid()
      modifies this`closest, this`tmax
      ensures Valid()
      ensures closest == old(candidate) && tmax == old(candidate.thit)
    {
      closest := closest.(barycentrics := candidate.barycentrics);
      closest := closest.(thit := candidate.thit);
      closest := closest.(instanceId := candidate.instanceId);
      closest := closest.(primitiveId := candidate.primitiveId);
      closest := closest.(backFace := candidate.backFace);
      tmax := candidate.thit;
    }

    /** The closest-hit pattern the header documents: proceed and confirm
        every reported hit until the query is exhausted. The whole TLAS
        gets walked; each confirmed hit lies strictly inside the window
        left by the one before, so `tmax` only shrinks, and `closest` is
        either untouched or the last hit confirmed, at distance `tmax`. */
    method ClosestHit(intersect: Intersector)
      requires Valid()
      modifies this`tlasCtx, this`tlasPending, this`candidate, this`closest, this`tmax
      modifies this`blasCtx, this`blasMesh, this`blasAxis, this`blasInstance, this`blasTable, this`blasPending
      ensures Valid() && tlasPending == [] && blasAxis == -1
      ensures tmax <= old(tmax)
      ensures (closest == old(closest) && tmax == old(tmax)) || (tmin < closest.thit && closest.thit == tmax < old(tmax))
    {
      while true
        invariant Valid()
        invariant tmax <= old(tmax)
        invariant (closest == old(closest) && tmax == old(tmax)) || (tmin < closest.thit && closest.thit == tmax < old(tmax))
        decreases TlasLeft(), BlasLeft()
      {
        var hit := Proceed(intersect);
        if !hit {
          return;
        }
        Confirm();
      }
    }
  }
}
