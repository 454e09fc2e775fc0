/** The bounding volume hierarchy builder of `bvh.cc`: leaves are sorted
    along an axis, partitioned recursively where the surface area heuristic
    (SAH) says a split pays off, numbered breadth first, and given eight
    direction-dependent link tables for stackless traversal. Coordinates,
    surface areas and SAH costs are exact reals: float rounding, which can
    change which split is cheapest, is not modelled. */
module Bvh {
  import opened MathCore

  /** An axis-aligned bounding box (`aabb`, and the six floats of a
      `bvh_node`). */
  datatype Aabb = Aabb(min: Vec3, max: Vec3)

  /** `leaf_node`: the box of one triangle or instance and its index. */
  datatype LeafNode = LeafNode(min: Vec3, max: Vec3, index: nat)

  /** `build_node`: a leaf has no children and keeps the index of its entry
      in `leafCount`; an interior node records the axis its children are
      ordered along. */
  datatype BuildNode = BuildNode(box: Aabb, leafCount: nat, axis: int, children: seq<BuildNode>)

  /** `FLT_MAX`, the starting value of the best cost. */
  const FltMax: real := 340282346638528859811704183484516925440.0

  function BoxOf(l: LeafNode): Aabb { Aabb(l.min, l.max) }

  /** `fmin`/`fmax` of two boxes: the smallest box around both. */
  function Union(a: Aabb, b: Aabb): Aabb
  {
    Aabb(Min3(a.min, b.min), Max3(a.max, b.max))
  }

  // ---------------------------------------------------------------------
  // sort_nodes

  /** Twice the centroid of a leaf on an axis (`max + min`). */
  function Centroid(l: LeafNode, axis: nat): real
    requires axis < 3
  {
    Pick3(l.max, axis) + Pick3(l.min, axis)
  }

  /** The comparator of `sort_nodes`: by centroid, ties broken by the
      smaller index. */
  predicate LeafBefore(a: LeafNode, b: LeafNode, axis: nat)
    requires axis < 3
  {
    Centroid(a, axis) < Centroid(b, axis) ||
    (Centroid(a, axis) == Centroid(b, axis) && a.index < b.index)
  }

  /** No leaf comes before an earlier one. */
  predicate SortedBy(s: seq<LeafNode>, axis: nat)
    requires axis < 3
  {
    forall i, j | 0 <= i < j < |s| :: !LeafBefore(s[j], s[i], axis)
  }

  /** The comparator is a strict order whose complement is total: of two
      leaves with different keys exactly one comes first, and not coming
      before is transitive. */
  lemma LeafBeforeOrder(a: LeafNode, b: LeafNode, c: LeafNode, axis: nat)
    requires axis < 3
    ensures !LeafBefore(a, a, axis)
    ensures LeafBefore(a, b, axis) ==> !LeafBefore(b, a, axis)
    ensures !LeafBefore(a, b, axis) && !LeafBefore(b, a, axis) ==>
      Centroid(a, axis) == Centroid(b, axis) && a.index == b.index
    ensures !LeafBefore(b, a, axis) && !LeafBefore(c, b, axis) ==> !LeafBefore(c, a, axis)
  {
  }

  /** `x` and `y` agree outside `[lo, hi)`. */
  ghost predicate SameOutside(x: seq<LeafNode>, y: seq<LeafNode>, lo: nat, hi: nat)
  {
    |x| == |y| && lo <= hi <= |x| && x[..lo] == y[..lo] && x[hi..] == y[hi..]
  }

  /** `x` is `y` with the leaves in `[lo, hi)` reordered. */
  ghost predicate PermutedWithin(x: seq<LeafNode>, y: seq<LeafNode>, lo: nat, hi: nat)
  {
    lo <= hi <= |x| && SameOutside(x, y, lo, hi) && multiset(x[lo..hi]) == multiset(y[lo..hi])
  }

  lemma PermutedTransitive(x: seq<LeafNode>, y: seq<LeafNode>, z: seq<LeafNode>, lo: nat, hi: nat)
    requires PermutedWithin(x, y, lo, hi) && PermutedWithin(y, z, lo, hi)
    ensures PermutedWithin(x, z, lo, hi)
  {
  }

  /** `x` placed into the sorted `s` before the first leaf it comes
      before. */
  function Insert(x: LeafNode, s: seq<LeafNode>, axis: nat): (r: seq<LeafNode>)
    requires axis < 3
    ensures |r| == |s| + 1 && multiset(r) == multiset(s) + multiset{x}
  {
    if |s| == 0 then [x]
    else if LeafBefore(x, s[0], axis) then [x] + s
    else
      assert s == [s[0]] + s[1..];
      [s[0]] + Insert(x, s[1..], axis)
  }

  /** Inserting into a sorted sequence keeps it sorted. */
  lemma {:induction false} InsertSorted(x: LeafNode, s: seq<LeafNode>, axis: nat)
    requires axis < 3 && SortedBy(s, axis)
    ensures SortedBy(Insert(x, s, axis), axis)
  {
    var r := Insert(x, s, axis);
    if |s| > 0 && !LeafBefore(x, s[0], axis) {
      var t := s[1..];
      assert SortedBy(t, axis) by {
        forall i, j | 0 <= i < j < |t| ensures !LeafBefore(t[j], t[i], axis) {
          assert t[j] == s[j + 1] && t[i] == s[i + 1];
        }
      }
      InsertSorted(x, t, axis);
      forall q | 1 <= q < |r| ensures !LeafBefore(r[q], r[0], axis) {
        assert r[q] in multiset(Insert(x, t, axis));
        if r[q] != x {
          assert r[q] in multiset(t);
          var k :| 0 <= k < |t| && t[k] == r[q];
          assert s[k + 1] == r[q];
        }
      }
    } else if |s| > 0 {
      forall q | 1 <= q < |r| ensures !LeafBefore(r[q], r[0], axis) {
        LeafBeforeOrder(x, s[0], r[q], axis);
      }
    }
  }

  /** The order `std::sort` leaves the range in under the comparator, as
      an insertion sort. */
  function SortLeaves(s: seq<LeafNode>, axis: nat): (r: seq<LeafNode>)
    requires axis < 3
    ensures |r| == |s| && multiset(r) == multiset(s)
  {
    if |s| == 0 then []
    else
      assert s == s[..|s| - 1] + [s[|s| - 1]];
      Insert(s[|s| - 1], SortLeaves(s[..|s| - 1], axis), axis)
  }

  lemma {:induction false} SortLeavesSorted(s: seq<LeafNode>, axis: nat)
    requires axis < 3
    ensures SortedBy(SortLeaves(s, axis), axis)
  {
    if |s| > 0 {
      SortLeavesSorted(s[..|s| - 1], axis);
      InsertSorted(s[|s| - 1], SortLeaves(s[..|s| - 1], axis), axis);
    }
  }

  /** `sort_nodes` on `a[lo..hi]`: the range ends up ordered by the
      comparator and holds the same leaves; the rest of the array is
      untouched. */
  method SortNodes(a: array<LeafNode>, lo: nat, hi: nat, axis: nat)
    requires lo <= hi <= a.Length && axis < 3
    modifies a
    ensures SortedBy(a[lo..hi], axis)
    ensures PermutedWithin(a[..], old(a[..]), lo, hi)
  {
    var r := SortLeaves(a[lo..hi], axis);
    SortLeavesSorted(a[lo..hi], axis);
    CopyInto(a, lo, r);
  }

  /** Writes `r` over `a[lo..lo + |r|]`. */
  method CopyInto(a: array<LeafNode>, lo: nat, r: seq<LeafNode>)
    requires lo + |r| <= a.Length
    modifies a
    ensures a[lo..lo + |r|] == r
    ensures SameOutside(a[..], old(a[..]), lo, lo + |r|)
  {
    for k := 0 to |r|
      invariant forall m | 0 <= m < a.Length && !(lo <= m < lo + k) :: a[m] == old(a[m])
      invariant forall m | 0 <= m < k :: a[lo + m] == r[m]
    {
      a[lo + k] := r[k];
    }
    assert a[lo..lo + |r|] == r;
  }

  // ---------------------------------------------------------------------
  // Split bounds and the surface area heuristic

  /** `outer` encloses `inner` on every axis. */
  predicate Encloses(outer: Aabb, inner: Aabb)
  {
    outer.min.x <= inner.min.x && outer.min.y <= inner.min.y && outer.min.z <= inner.min.z &&
    inner.max.x <= outer.max.x && inner.max.y <= outer.max.y && inner.max.z <= outer.max.z
  }

  /** `first_bounds[k]`: the box accumulated over `s[0..k + 1]`. */
  function PrefixHull(s: seq<LeafNode>, k: nat): Aabb
    requires k < |s|
  {
    if k == 0 then BoxOf(s[0]) else Union(PrefixHull(s, k - 1), BoxOf(s[k]))
  }

  /** `second_bounds[k - 1]`: the box accumulated over `s[k..]`, from the
      back. */
  function SuffixHull(s: seq<LeafNode>, k: nat): Aabb
    requires k < |s|
    decreases |s| - k
  {
    if k == |s| - 1 then BoxOf(s[k]) else Union(SuffixHull(s, k + 1), BoxOf(s[k]))
  }

  lemma UnionEncloses(a: Aabb, b: Aabb)
    ensures Encloses(Union(a, b), a) && Encloses(Union(a, b), b)
  {
  }

  lemma EnclosesTransitive(a: Aabb, b: Aabb, c: Aabb)
    requires Encloses(a, b) && Encloses(b, c)
    ensures Encloses(a, c)
  {
  }

  /** The prefix box encloses every leaf it was accumulated over. */
  lemma {:induction false} PrefixHullEncloses(s: seq<LeafNode>, k: nat)
    requires k < |s|
    ensures forall m | 0 <= m <= k :: Encloses(PrefixHull(s, k), BoxOf(s[m]))
  {
    if k > 0 {
      PrefixHullEncloses(s, k - 1);
      UnionEncloses(PrefixHull(s, k - 1), BoxOf(s[k]));
      forall m | 0 <= m <= k
        ensures Encloses(PrefixHull(s, k), BoxOf(s[m]))
      {
        if m < k {
          EnclosesTransitive(PrefixHull(s, k), PrefixHull(s, k - 1), BoxOf(s[m]));
        }
      }
    }
  }

  /** The suffix box encloses every leaf from `k` on. */
  lemma {:induction false} SuffixHullEncloses(s: seq<LeafNode>, k: nat)
    requires k < |s|
    ensures forall m | k <= m < |s| :: Encloses(SuffixHull(s, k), BoxOf(s[m]))
    decreases |s| - k
  {
    if k < |s| - 1 {
      SuffixHullEncloses(s, k + 1);
      UnionEncloses(SuffixHull(s, k + 1), BoxOf(s[k]));
      forall m | k < m < |s|
        ensures Encloses(SuffixHull(s, k), BoxOf(s[m]))
      {
        EnclosesTransitive(SuffixHull(s, k), SuffixHull(s, k + 1), BoxOf(s[m]));
      }
    }
  }

  /** The loop of `build_recursive_sah` that fills `first_bounds` from the
      front and `second_bounds` from the back at the same time, over the
      `n` leaves `a[lo..lo + n]`. */
  method SplitBounds(a: array<LeafNode>, lo: nat, n: nat) returns (first: seq<Aabb>, second: seq<Aabb>)
    requires 2 <= n && lo + n <= a.Length
    ensures |first| == n - 1 && |second| == n - 1
    ensures forall k | 0 <= k < n - 1 :: first[k] == PrefixHull(a[lo..lo + n], k)
    ensures forall k | 0 <= k < n - 1 :: second[k] == SuffixHull(a[lo..lo + n], k + 1)
  {
    var start := BoxOf(a[lo]);
    first := seq(n - 1, _ => start);
    second := seq(n - 1, _ => start);
    for i := 0 to n - 1
      invariant |first| == n - 1 && |second| == n - 1
      invariant forall k | 0 <= k < i :: first[k] == PrefixHull(a[lo..lo + n], k)
      invariant forall k | n - 1 - i <= k < n - 1 :: second[k] == SuffixHull(a[lo..lo + n], k + 1)
    {
      first, second := BoundsStep(a, lo, n, i, first, second);
    }
  }

  /** One iteration of the bounds loop: `first_bounds[i]` grows by leaf `i`
      and `second_bounds[n - 2 - i]` by leaf `n - 1 - i`. */
  method BoundsStep(a: array<LeafNode>, lo: nat, n: nat, i: nat, first: seq<Aabb>, second: seq<Aabb>)
    returns (first': seq<Aabb>, second': seq<Aabb>)
    requires 2 <= n && lo + n <= a.Length && i < n - 1
    requires |first| == n - 1 && |second| == n - 1
    requires forall k | 0 <= k < i :: first[k] == PrefixHull(a[lo..lo + n], k)
    requires forall k | n - 1 - i <= k < n - 1 :: second[k] == SuffixHull(a[lo..lo + n], k + 1)
    ensures |first'| == n - 1 && |second'| == n - 1
    ensures forall k | 0 <= k < i + 1 :: first'[k] == PrefixHull(a[lo..lo + n], k)
    ensures forall k | n - 1 - (i + 1) <= k < n - 1 :: second'[k] == SuffixHull(a[lo..lo + n], k + 1)
  {
    ghost var s := a[lo..lo + n];
    assert a[lo + i] == s[i];
    first' := first[i := if i == 0 then BoxOf(a[lo + i]) else Union(first[i - 1], BoxOf(a[lo + i]))];
    var inv := n - 1 - i;
    assert a[lo + inv] == s[inv];
    second' := second[inv - 1 := if i == 0 then BoxOf(a[lo + inv]) else Union(second[inv], BoxOf(a[lo + inv]))];
  }

  /** The surface measure of `build_recursive_sah`: half the surface area
      of the box. */
  function Area(b: Aabb): real
  {
    var sx := b.max.x - b.min.x;
    var sy := b.max.y - b.min.y;
    var sz := b.max.z - b.min.z;
    sx * sy + sz * sx + sy * sz
  }

  /** The cost of putting the first `i + 1` of `n` leaves into `b0` and the
      rest into `b1`. */
  function SplitCost(b0: Aabb, b1: Aabb, i: nat, n: nat): real
  {
    (i + 1) as real * Area(b0) + (n - 1 - i) as real * Area(b1)
  }

  /** The cost of the candidate split after `s[k]` in the order `s`. */
  function CandidateCost(s: seq<LeafNode>, k: nat): real
    requires k + 1 < |s|
  {
    SplitCost(PrefixHull(s, k), SuffixHull(s, k + 1), k, |s|)
  }

  /** The best split found so far: its cost, the number of leaves on the
      first side (0 while none was found), the axis it sorts along and the
      boxes of both sides. */
  datatype Best = Best(cost: real, split: nat, axis: int, b0: Aabb, b1: Aabb)

  /** The state `build_recursive_sah` starts the search from: `FLT_MAX`, no
      split and axis -1 (the source leaves the two boxes unset). */
  const NoSplit: Best := Best(FltMax, 0, -1, Aabb(Vec3(0.0, 0.0, 0.0), Vec3(0.0, 0.0, 0.0)), Aabb(Vec3(0.0, 0.0, 0.0), Vec3(0.0, 0.0, 0.0)))

  /** The scan over the candidate splits of one axis: a candidate replaces
      the best one only when it is strictly cheaper. */
  method ScanAxis(first: seq<Aabb>, second: seq<Aabb>, n: nat, axis: nat, best: Best) returns (r: Best)
    requires 2 <= n && |first| == n - 1 && |second| == n - 1
    ensures r.cost <= best.cost
    ensures forall k | 0 <= k < n - 1 :: r.cost <= SplitCost(first[k], second[k], k, n)
    ensures r == best || (r.cost < best.cost && r.axis == axis && 1 <= r.split < n &&
      r.b0 == first[r.split - 1] && r.b1 == second[r.split - 1] &&
      r.cost == SplitCost(r.b0, r.b1, r.split - 1, n))
  {
    r := best;
    for i := 0 to n - 1
      invariant r.cost <= best.cost
      invariant forall k | 0 <= k < i :: r.cost <= SplitCost(first[k], second[k], k, n)
      invariant r == best || (r.cost < best.cost && r.axis == axis && 1 <= r.split <= i &&
        r.b0 == first[r.split - 1] && r.b1 == second[r.split - 1] &&
        r.cost == SplitCost(r.b0, r.b1, r.split - 1, n))
    {
      var cost := SplitCost(first[i], second[i], i, n);
      if cost < r.cost {
        r := Best(cost, i + 1, axis, first[i], second[i]);
      }
    }
  }

  /** What the search has established after trying the axes `orders` was
      sorted along: `best` is no dearer than any candidate of those orders,
      and it is either the starting state or a candidate of one of them. */
  ghost predicate BestOf(best: Best, orders: seq<seq<LeafNode>>, n: nat)
  {
    |orders| <= 3 &&
    (forall ax | 0 <= ax < |orders| :: |orders[ax]| == n && SortedBy(orders[ax], ax)) &&
    (forall ax, k | 0 <= ax < |orders| && 0 <= k < n - 1 :: best.cost <= CandidateCost(orders[ax], k)) &&
    (best.split == 0 ==> best == NoSplit) &&
    (best.split != 0 ==>
      0 <= best.axis < |orders| && 1 <= best.split < n &&
      best.b0 == PrefixHull(orders[best.axis], best.split - 1) &&
      best.b1 == SuffixHull(orders[best.axis], best.split) &&
      best.cost == CandidateCost(orders[best.axis], best.split - 1) && best.cost < FltMax)
  }

  /** The three passes of `build_recursive_sah` over the axes: sort the
      leaves, compute the bounds of every split and keep the cheapest. The
      ghost `orders` are the three sorted orders the candidates came from. */
  method FindSplit(a: array<LeafNode>, lo: nat, n: nat) returns (best: Best, ghost orders: seq<seq<LeafNode>>)
    requires 2 <= n && lo + n <= a.Length
    modifies a
    ensures |orders| == 3 && BestOf(best, orders, n)
    ensures forall ax | 0 <= ax < 3 :: multiset(orders[ax]) == multiset(old(a[..])[lo..lo + n])
    ensures PermutedWithin(a[..], old(a[..]), lo, lo + n)
  {
    best := NoSplit;
    orders := [];
    for axis := 0 to 3
      invariant |orders| == axis && BestOf(best, orders, n)
      invariant forall ax | 0 <= ax < axis :: multiset(orders[ax]) == multiset(old(a[..])[lo..lo + n])
      invariant PermutedWithin(a[..], old(a[..]), lo, lo + n)
    {
      ghost var w := a[..];
      best, orders := TryAxis(a, lo, n, axis, best, orders);
      PermutedTransitive(a[..], w, old(a[..]), lo, lo + n);
    }
  }

  /** One pass of the search: sort along `axis`, compute the bounds, scan. */
  method TryAxis(a: array<LeafNode>, lo: nat, n: nat, axis: nat, best: Best, ghost orders: seq<seq<LeafNode>>)
    returns (best': Best, ghost orders': seq<seq<LeafNode>>)
    requires 2 <= n && lo + n <= a.Length && axis < 3
    requires |orders| == axis && BestOf(best, orders, n)
    modifies a
    ensures orders' == orders + [a[lo..lo + n]] && BestOf(best', orders', n)
    ensures PermutedWithin(a[..], old(a[..]), lo, lo + n)
  {
    SortNodes(a, lo, lo + n, axis);
    var first, second := SplitBounds(a, lo, n);
    best' := ScanAxis(first, second, n, axis, best);
    orders' := orders + [a[lo..lo + n]];
    CandidatesOfAxis(best, best', orders, orders', first, second, n, axis);
  }

  lemma CandidatesOfAxis(best: Best, best': Best, orders: seq<seq<LeafNode>>, orders': seq<seq<LeafNode>>,
                         first: seq<Aabb>, second: seq<Aabb>, n: nat, axis: nat)
    requires 2 <= n && axis < 3 && |orders| == axis && BestOf(best, orders, n)
    requires |orders'| == axis + 1 && orders'[..axis] == orders
    requires |orders'[axis]| == n && SortedBy(orders'[axis], axis)
    requires |first| == n - 1 && |second| == n - 1
    requires forall k | 0 <= k < n - 1 :: first[k] == PrefixHull(orders'[axis], k)
    requires forall k | 0 <= k < n - 1 :: second[k] == SuffixHull(orders'[axis], k + 1)
    requires best'.cost <= best.cost
    requires forall k | 0 <= k < n - 1 :: best'.cost <= SplitCost(first[k], second[k], k, n)
    requires best' == best || (best'.cost < best.cost && best'.axis == axis && 1 <= best'.split < n &&
      best'.b0 == first[best'.split - 1] && best'.b1 == second[best'.split - 1] &&
      best'.cost == SplitCost(best'.b0, best'.b1, best'.split - 1, n))
    ensures BestOf(best', orders', n)
  {
    forall ax | 0 <= ax < axis
      ensures orders'[ax] == orders[ax]
    {
      assert orders'[..axis][ax] == orders'[ax];
    }
    forall ax, k | 0 <= ax < |orders'| && 0 <= k < n - 1
      ensures best'.cost <= CandidateCost(orders'[ax], k)
    {
      if ax == axis {
        assert first[k] == PrefixHull(orders'[axis], k);
      }
    }
    if best' != best {
      assert best'.split != 0;
    }
  }

  // ---------------------------------------------------------------------
  // build_recursive_sah

  /** The shape `build_recursive_sah` gives a tree: a leaf has axis -1; an
      interior node has an axis and at least two children. */
  ghost predicate WellShaped(t: BuildNode)
    decreases t
  {
    if t.children == [] then t.axis == -1
    else 0 <= t.axis < 3 && |t.children| >= 2 && forall c | c in t.children :: WellShaped(c)
  }

  /** The entries of the leaves under `t` (a leaf keeps its entry in
      `leafCount`). */
  function LeafIndices(t: BuildNode): multiset<nat>
    decreases t
  {
    if t.children == [] then multiset{t.leafCount} else ForestIndices(t.children)
  }

  function ForestIndices(ts: seq<BuildNode>): multiset<nat>
    decreases ts
  {
    if ts == [] then multiset{} else ForestIndices(ts[..|ts| - 1]) + LeafIndices(ts[|ts| - 1])
  }

  /** The entries of a run of leaves. */
  function Indices(s: seq<LeafNode>): multiset<nat>
  {
    if s == [] then multiset{} else Indices(s[..|s| - 1]) + multiset{s[|s| - 1].index}
  }

  lemma {:induction false} IndicesConcat(s: seq<LeafNode>, t: seq<LeafNode>)
    ensures Indices(s + t) == Indices(s) + Indices(t)
    decreases |t|
  {
    if t != [] {
      assert (s + t)[..|s + t| - 1] == s + t[..|t| - 1];
      IndicesConcat(s, t[..|t| - 1]);
    } else {
      assert s + t == s;
    }
  }

  /** Reordering leaves does not change their entries. */
  lemma {:induction false} IndicesPermutation(s: seq<LeafNode>, t: seq<LeafNode>)
    requires multiset(s) == multiset(t)
    ensures Indices(s) == Indices(t)
    decreases |s|
  {
    if s == [] {
      assert |multiset(t)| == 0;
    } else {
      var x := s[|s| - 1];
      assert s == s[..|s| - 1] + [x];
      assert x in multiset(t);
      var m :| 0 <= m < |t| && t[m] == x;
      RemoveAt(t, m);
      assert multiset(s[..|s| - 1]) == multiset(s) - multiset{x};
      IndicesPermutation(s[..|s| - 1], t[..m] + t[m + 1..]);
    }
  }

  /** Taking out the leaf at `m` takes it out of the multiset and its entry
      out of the entries. */
  lemma RemoveAt(t: seq<LeafNode>, m: nat)
    requires m < |t|
    ensures multiset(t[..m] + t[m + 1..]) == multiset(t) - multiset{t[m]}
    ensures Indices(t) == Indices(t[..m] + t[m + 1..]) + multiset{t[m].index}
  {
    SplitAt(t, m);
    RemoveAtMultiset(t[..m], t[m], t[m + 1..]);
    RemoveAtIndices(t[..m], t[m], t[m + 1..]);
  }

  lemma SplitAt(t: seq<LeafNode>, m: nat)
    requires m < |t|
    ensures t == t[..m] + ([t[m]] + t[m + 1..])
  {
  }

  lemma RemoveAtMultiset(p: seq<LeafNode>, x: LeafNode, q: seq<LeafNode>)
    ensures multiset(p + q) == multiset(p + ([x] + q)) - multiset{x}
  {
    assert multiset(p + ([x] + q)) == multiset(p) + multiset([x] + q);
    assert multiset([x] + q) == multiset{x} + multiset(q);
  }

  lemma RemoveAtIndices(p: seq<LeafNode>, x: LeafNode, q: seq<LeafNode>)
    ensures Indices(p + ([x] + q)) == Indices(p + q) + multiset{x.index}
  {
    IndicesConcat(p, [x] + q);
    IndicesConcat([x], q);
    IndicesConcat(p, q);
    assert Indices([x]) == multiset{x.index} by {
      assert [x][..0] == [];
    }
  }

  /** The test of `build_recursive_sah` that splitting is not worth it:
      `leaf_count <= min_cost / area + 2`. A box of zero area divides to
      infinity for a positive cost and to NaN (never at most) otherwise. */
  function NothingToGain(minCost: real, box: Aabb, n: nat): (r: bool)
    ensures Area(box) > 0.0 ==> (r <==> (n as real - 2.0) * Area(box) <= minCost)
  {
    var a := Area(box);
    if a == 0.0 then 0.0 < minCost
    else
      assert a > 0.0 ==> (n as real <= minCost / a + 2.0 <==> (n as real - 2.0) * a <= minCost) by {
        if a > 0.0 {
          DivideByPositive(minCost, a, n as real - 2.0);
        }
      }
      n as real <= minCost / a + 2.0
  }

  /** For a positive `a`, `m / a` reaches `c` exactly when `m` reaches
      `c * a`. */
  lemma DivideByPositive(m: real, a: real, c: real)
    requires a > 0.0
    ensures c <= m / a <==> c * a <= m
  {
    var q := m / a;
    assert q * a == m;
    if c <= q {
      assert c * a <= q * a;
    } else {
      assert q * a < c * a;
    }
  }

  /** The axis along which the box is largest, preferring z, then y, on
      ties. */
  function LargestAxis(box: Aabb): (axis: nat)
    ensures axis < 3
    ensures forall k | 0 <= k < 3 :: Pick3(box.max, k) - Pick3(box.min, k) <= Pick3(box.max, axis) - Pick3(box.min, axis)
  {
    var sx := box.max.x - box.min.x;
    var sy := box.max.y - box.min.y;
    var sz := box.max.z - box.min.z;
    if sx > sy && sx > sz then 0 else if sy > sz then 1 else 2
  }

  /** A leaf of the tree made from one leaf entry. */
  function LeafOf(l: LeafNode): BuildNode
  {
    BuildNode(BoxOf(l), l.index, -1, [])
  }

  /** The "nothing to gain" branch: every leaf of the run becomes a child,
      in order. */
  method LeafChildren(entries: seq<LeafNode>) returns (cs: seq<BuildNode>)
    ensures |cs| == |entries|
    ensures forall k | 0 <= k < |cs| :: cs[k] == LeafOf(entries[k])
    ensures ForestIndices(cs) == Indices(entries)
  {
    cs := [];
    for i := 0 to |entries|
      invariant |cs| == i
      invariant forall k | 0 <= k < i :: cs[k] == LeafOf(entries[k])
      invariant ForestIndices(cs) == Indices(entries[..i])
    {
      assert entries[..i + 1][..i] == entries[..i];
      assert (cs + [LeafOf(entries[i])])[..i] == cs;
      cs := cs + [LeafOf(entries[i])];
    }
    assert entries[..|entries|] == entries;
  }

  /** Leaf children of a run of at least two entries make its tree. */
  lemma {:induction false} LeavesBuild(box: Aabb, axis: nat, cs: seq<BuildNode>, entries: seq<LeafNode>)
    requires axis < 3 && |entries| >= 2 && |cs| == |entries|
    requires forall k | 0 <= k < |cs| :: cs[k] == LeafOf(entries[k])
    requires ForestIndices(cs) == Indices(entries)
    ensures Builds(BuildNode(box, |entries|, axis, cs), box, entries)
  {
    var node := BuildNode(box, |entries|, axis, cs);
    forall c | c in cs ensures WellShaped(c) {
      var k :| 0 <= k < |cs| && cs[k] == c;
    }
    assert LeafRow(cs, entries);
  }

  /** `node` is what `build_recursive_sah` makes of the run of leaves
      `entries` under the box `box`: a single leaf keeps its entry; a run of
      several leaves becomes an interior node counting them whose children
      are either one leaf per entry, in order, or the trees of the two
      sides of a split. The tree is well shaped and its leaves are exactly
      the entries of the run. */
  ghost predicate Builds(node: BuildNode, box: Aabb, entries: seq<LeafNode>)
    decreases node, 1
  {
    node.box == box && WellShaped(node) && LeafIndices(node) == Indices(entries) &&
    (|entries| != 1 || node == BuildNode(box, entries[0].index, -1, [])) &&
    (|entries| > 1 ==>
       node.leafCount == |entries| && (LeafRow(node.children, entries) || SplitOf(node, entries)))
  }

  /** One leaf child per entry, in the order of the entries. */
  ghost predicate LeafRow(cs: seq<BuildNode>, entries: seq<LeafNode>)
  {
    |cs| == |entries| && forall k | 0 <= k < |entries| :: cs[k] == LeafOf(entries[k])
  }

  /** Two children, the trees of the entries before and from some split
      point `1 <= s < |entries|`. */
  ghost predicate SplitOf(node: BuildNode, entries: seq<LeafNode>)
    decreases node, 0
  {
    |node.children| == 2 &&
    exists s | 1 <= s < |entries| ::
      Builds(node.children[0], node.children[0].box, entries[..s]) &&
      Builds(node.children[1], node.children[1].box, entries[s..])
  }

  // ---------------------------------------------------------------------
  // Enclosure: every node's box contains its children's boxes

  /** The promise of a bounding volume hierarchy: the box of every node
      contains the boxes of its children, and so of every leaf below it. */
  ghost predicate Nested(t: BuildNode)
    decreases t
  {
    forall c | c in t.children :: Encloses(t.box, c.box) && Nested(c)
  }

  /** Every leaf of the run lies inside `box`. */
  ghost predicate HoldsAll(box: Aabb, s: seq<LeafNode>)
  {
    forall m | 0 <= m < |s| :: Encloses(box, BoxOf(s[m]))
  }

  /** No two leaves of the run carry the same entry. */
  ghost predicate UniqueIndices(s: seq<LeafNode>)
  {
    forall v | v in Indices(s) :: Indices(s)[v] == 1
  }

  /** `t`, built over the run `s` under `box`, is nested when `box` holds
      every leaf of the run and the run's entries are distinct. */
  ghost predicate NestedOver(box: Aabb, s: seq<LeafNode>, t: BuildNode)
  {
    HoldsAll(box, s) && UniqueIndices(s) ==> Nested(t)
  }

  /** `b0` and `b1` are the boxes of the two sides of the split after
      `split` leaves of `order`, the run `run` sorted along `axis`, and the
      run's entries are distinct. */
  ghost predicate SplitBoxes(order: seq<LeafNode>, run: seq<LeafNode>, axis: nat, split: nat, b0: Aabb, b1: Aabb)
  {
    axis < 3 && 1 <= split < |order| && SortedBy(order, axis) &&
    multiset(order) == multiset(run) && UniqueIndices(run) &&
    b0 == PrefixHull(order, split - 1) && b1 == SuffixHull(order, split)
  }

  lemma HoldsAllPermuted(box: Aabb, s: seq<LeafNode>, t: seq<LeafNode>)
    requires multiset(s) == multiset(t) && HoldsAll(box, t)
    ensures HoldsAll(box, s)
  {
    forall m | 0 <= m < |s|
      ensures Encloses(box, BoxOf(s[m]))
    {
      assert s[m] in multiset(t);
      var j :| 0 <= j < |t| && t[j] == s[m];
    }
  }

  /** A box around every leaf of the run is around their prefix hulls. */
  lemma {:induction false} PrefixHullWithin(box: Aabb, s: seq<LeafNode>, k: nat)
    requires k < |s| && HoldsAll(box, s)
    ensures Encloses(box, PrefixHull(s, k))
  {
    if k > 0 {
      PrefixHullWithin(box, s, k - 1);
    }
  }

  /** A box around every leaf of the run is around their suffix hulls. */
  lemma {:induction false} SuffixHullWithin(box: Aabb, s: seq<LeafNode>, k: nat)
    requires k < |s| && HoldsAll(box, s)
    ensures Encloses(box, SuffixHull(s, k))
    decreases |s| - k
  {
    if k < |s| - 1 {
      SuffixHullWithin(box, s, k + 1);
    }
  }

  lemma {:induction false} IndexIn(s: seq<LeafNode>, i: nat)
    requires i < |s|
    ensures s[i].index in Indices(s)
  {
    if i < |s| - 1 {
      IndexIn(s[..|s| - 1], i);
    }
  }

  lemma IndicesSplit(s: seq<LeafNode>, k: nat)
    requires k <= |s|
    ensures Indices(s) == Indices(s[..k]) + Indices(s[k..])
  {
    assert s == s[..k] + s[k..];
    IndicesConcat(s[..k], s[k..]);
  }

  /** Splitting distinct entries into two parts keeps each part's
      entries distinct. */
  lemma UniqueParts(s: seq<LeafNode>, t: seq<LeafNode>, u: seq<LeafNode>)
    requires Indices(s) == Indices(t) + Indices(u) && UniqueIndices(s)
    ensures UniqueIndices(t) && UniqueIndices(u)
  {
    forall v | v in Indices(t)
      ensures Indices(t)[v] == 1
    {
      assert Indices(s)[v] == Indices(t)[v] + Indices(u)[v];
    }
    forall v | v in Indices(u)
      ensures Indices(u)[v] == 1
    {
      assert Indices(s)[v] == Indices(t)[v] + Indices(u)[v];
    }
  }

  /** Both sides of a run with distinct entries have distinct entries. */
  lemma UniqueSplit(s: seq<LeafNode>, k: nat)
    requires k <= |s| && UniqueIndices(s)
    ensures UniqueIndices(s[..k]) && UniqueIndices(s[k..])
  {
    IndicesSplit(s, k);
    UniqueParts(s, s[..k], s[k..]);
  }

  /** Distinct entries stay distinct in any slice. */
  lemma UniqueSlice(s: seq<LeafNode>, lo: nat, hi: nat)
    requires lo <= hi <= |s| && UniqueIndices(s)
    ensures UniqueIndices(s[lo..hi])
  {
    UniqueSplit(s, lo);
    UniqueSplit(s[lo..], hi - lo);
    assert s[lo..][..hi - lo] == s[lo..hi];
  }

  /** Distinct entries stay distinct when the leaves are reordered. */
  lemma UniquePermuted(s: seq<LeafNode>, t: seq<LeafNode>)
    requires multiset(s) == multiset(t) && UniqueIndices(t)
    ensures UniqueIndices(s)
  {
    IndicesPermutation(s, t);
  }

  /** Two positions of a run with distinct entries hold different
      entries. */
  lemma UniqueApart(s: seq<LeafNode>, i: nat, j: nat)
    requires i < j < |s| && UniqueIndices(s)
    ensures s[i].index != s[j].index
  {
    var v := s[i].index;
    IndicesSplit(s, j);
    IndexIn(s[..j], i);
    IndexIn(s[j..], 0);
    assert s[..j][i] == s[i] && s[j..][0] == s[j];
    assert Indices(s)[v] == Indices(s[..j])[v] + Indices(s[j..])[v];
    assert Indices(s[j..])[v] == 0;
  }

  lemma SortedTail(s: seq<LeafNode>, axis: nat)
    requires axis < 3 && |s| > 0 && SortedBy(s, axis)
    ensures SortedBy(s[1..], axis)
  {
    forall i, j | 0 <= i < j < |s| - 1
      ensures !LeafBefore(s[1..][j], s[1..][i], axis)
    {
      assert s[1..][j] == s[j + 1] && s[1..][i] == s[i + 1];
    }
  }

  /** With distinct entries the comparator orders any two different
      leaves, so two sorted orders of the same run start with the same
      leaf. */
  lemma SortedHeads(x: seq<LeafNode>, y: seq<LeafNode>, axis: nat)
    requires axis < 3 && SortedBy(x, axis) && SortedBy(y, axis)
    requires multiset(x) == multiset(y) && UniqueIndices(x) && |x| > 0
    ensures |y| > 0 && x[0] == y[0]
  {
    assert |x| == |multiset(x)| == |multiset(y)| == |y|;
    assert y[0] in multiset(x);
    var j :| 0 <= j < |x| && x[j] == y[0];
    assert x[0] in multiset(y);
    var k :| 0 <= k < |y| && y[k] == x[0];
    if x[0] != y[0] {
      assert !LeafBefore(x[j], x[0], axis) && !LeafBefore(y[k], y[0], axis);
      LeafBeforeOrder(x[0], y[0], y[0], axis);
      UniqueApart(x, 0, j);
      assert false;
    }
  }

  /** Two arrangements of one run with distinct entries that start with
      the same leaf continue with arrangements of one run with distinct
      entries. */
  lemma SameTails(x: seq<LeafNode>, y: seq<LeafNode>)
    requires multiset(x) == multiset(y) && UniqueIndices(x) && |x| > 0 && |y| > 0 && x[0] == y[0]
    ensures multiset(x[1..]) == multiset(y[1..]) && UniqueIndices(x[1..])
  {
    assert multiset(x[1..]) == multiset(y[1..]) by {
      assert x == [x[0]] + x[1..] && y == [y[0]] + y[1..];
      assert multiset(x[1..]) == multiset(x) - multiset{x[0]};
      assert multiset(y[1..]) == multiset(y) - multiset{y[0]};
    }
    UniqueSlice(x, 1, |x|);
    assert x[1..|x|] == x[1..];
  }

  /** A run with distinct entries has only one sorted order: sorting it
      again gives back the order an earlier sort along the same axis
      produced. */
  lemma {:induction false} SortedOrderUnique(x: seq<LeafNode>, y: seq<LeafNode>, axis: nat)
    requires axis < 3 && SortedBy(x, axis) && SortedBy(y, axis)
    requires multiset(x) == multiset(y) && UniqueIndices(x)
    ensures x == y
    decreases |x|
  {
    if x == [] {
      assert |multiset(y)| == 0;
    } else {
      SortedHeads(x, y, axis);
      SameTails(x, y);
      SortedTail(x, axis);
      SortedTail(y, axis);
      SortedOrderUnique(x[1..], y[1..], axis);
      assert x == [x[0]] + x[1..] && y == [y[0]] + y[1..];
    }
  }

  /** Leaf children inside the box make a nested node. */
  lemma LeavesNested(box: Aabb, n: nat, axis: int, cs: seq<BuildNode>, entries: seq<LeafNode>)
    requires LeafRow(cs, entries) && HoldsAll(box, entries)
    ensures Nested(BuildNode(box, n, axis, cs))
  {
    forall c | c in cs
      ensures Encloses(box, c.box) && Nested(c)
    {
      var k :| 0 <= k < |cs| && cs[k] == c;
    }
  }

  /** Two nested children inside the box make a nested node. */
  lemma PairNested(box: Aabb, n: nat, axis: int, c0: BuildNode, c1: BuildNode)
    requires Encloses(box, c0.box) && Encloses(box, c1.box) && Nested(c0) && Nested(c1)
    ensures Nested(BuildNode(box, n, axis, [c0, c1]))
  {
  }

  /** Once the run is sorted again along the split's axis, each side lies
      inside the box computed for it during the search, and both boxes lie
      inside any box around the run. */
  lemma SplitSides(order: seq<LeafNode>, run: seq<LeafNode>, sorted: seq<LeafNode>,
                   axis: nat, split: nat, b0: Aabb, b1: Aabb, box: Aabb)
    requires SplitBoxes(order, run, axis, split, b0, b1) && HoldsAll(box, run)
    requires SortedBy(sorted, axis) && multiset(sorted) == multiset(run)
    ensures |sorted| == |order| && sorted == order
    ensures HoldsAll(b0, sorted[..split]) && UniqueIndices(sorted[..split])
    ensures HoldsAll(b1, sorted[split..]) && UniqueIndices(sorted[split..])
    ensures Encloses(box, b0) && Encloses(box, b1)
  {
    UniquePermuted(sorted, run);
    SortedOrderUnique(sorted, order, axis);
    PrefixHullEncloses(order, split - 1);
    SuffixHullEncloses(order, split);
    assert HoldsAll(b0, sorted[..split]) by {
      forall m | 0 <= m < split ensures Encloses(b0, BoxOf(sorted[..split][m])) {
        assert sorted[..split][m] == order[m];
      }
    }
    assert HoldsAll(b1, sorted[split..]) by {
      forall m | 0 <= m < |sorted| - split ensures Encloses(b1, BoxOf(sorted[split..][m])) {
        assert sorted[split..][m] == order[split + m];
      }
    }
    UniqueSlice(sorted, 0, split);
    UniqueSlice(sorted, split, |sorted|);
    assert sorted[0..split] == sorted[..split] && sorted[split..|sorted|] == sorted[split..];
    HoldsAllPermuted(box, order, run);
    PrefixHullWithin(box, order, split - 1);
    SuffixHullWithin(box, order, split);
  }

  /** The node over the two sides of a split is nested when its sides
      are, once the run re-sorted into `w[lo..hi]` is the order the split
      was found in. */
  lemma SplitNested(order: seq<LeafNode>, run: seq<LeafNode>, w: seq<LeafNode>, lo: nat, hi: nat,
                    axis: nat, split: nat, b0: Aabb, b1: Aabb, box: Aabb, c0: BuildNode, c1: BuildNode)
    requires lo < lo + split < hi <= |w| && axis < 3
    requires SortedBy(w[lo..hi], axis) && multiset(w[lo..hi]) == multiset(run)
    requires c0.box == b0 && c1.box == b1
    requires NestedOver(b0, w[lo..lo + split], c0) && NestedOver(b1, w[lo + split..hi], c1)
    ensures SplitBoxes(order, run, axis, split, b0, b1) && HoldsAll(box, run) ==>
      Nested(BuildNode(box, hi - lo, axis, [c0, c1]))
  {
    if SplitBoxes(order, run, axis, split, b0, b1) && HoldsAll(box, run) {
      var sorted := w[lo..hi];
      SplitSides(order, run, sorted, axis, split, b0, b1, box);
      assert sorted[..split] == w[lo..lo + split] && sorted[split..] == w[lo + split..hi];
      PairNested(box, hi - lo, axis, c0, c1);
    }
  }

  /** The split the search settled on is a split of the run it was searched
      over, whichever order the run is in now. */
  lemma SearchedSplit(best: Best, orders: seq<seq<LeafNode>>, n: nat, run0: seq<LeafNode>, run: seq<LeafNode>)
    requires |orders| == 3 && BestOf(best, orders, n) && best.split != 0
    requires forall ax | 0 <= ax < 3 :: multiset(orders[ax]) == multiset(run0)
    requires multiset(run) == multiset(run0) && UniqueIndices(run0)
    ensures 0 <= best.axis < 3
    ensures SplitBoxes(orders[best.axis], run, best.axis, best.split, best.b0, best.b1)
  {
    UniquePermuted(run, run0);
  }

  /** `build_recursive_sah` on the leaves `a[lo..hi]` under the box `box`.
      One leaf ends the recursion. Otherwise the cheapest split over the
      three axes is searched; when it does not pay off every leaf becomes a
      child, sorted along the largest extent of the box; otherwise the two
      sides are built recursively. When no candidate costs less than
      `FLT_MAX` the model also makes every leaf a child; the source does so
      only when the leaf test passes, and otherwise sorts along axis -1 and
      recurses on zero leaves. The range is reordered in place, nothing
      else is touched, and the tree describes the range in its new order.
      When `box` holds every leaf of the run and the entries are distinct,
      every node's box holds its children's boxes. */
  method BuildRecursive(a: array<LeafNode>, lo: nat, hi: nat, box: Aabb) returns (node: BuildNode)
    requires lo < hi <= a.Length
    modifies a
    ensures PermutedWithin(a[..], old(a[..]), lo, hi)
    ensures Builds(node, box, a[lo..hi])
    ensures NestedOver(box, old(a[lo..hi]), node)
    decreases hi - lo, 2
  {
    var n := hi - lo;
    if n == 1 {
      node := BuildNode(box, a[lo].index, -1, []);
      assert a[lo..hi] == [a[lo]] && a[lo..hi][..0] == [];
      return;
    }
    ghost var run0 := a[lo..hi];
    var best, orders := FindSplit(a, lo, n);
    ghost var w := a[..];
    assert multiset(w[lo..hi]) == multiset(run0);
    if NothingToGain(best.cost, box, n) || best.split == 0 {
      node := BuildLeaves(a, lo, hi, box);
      if HoldsAll(box, run0) {
        HoldsAllPermuted(box, w[lo..hi], run0);
      }
    } else {
      node := BuildSplit(a, lo, hi, box, best.axis, best.split, best.b0, best.b1, orders[best.axis]);
      if HoldsAll(box, run0) && UniqueIndices(run0) {
        HoldsAllPermuted(box, w[lo..hi], run0);
        SearchedSplit(best, orders, n, run0, w[lo..hi]);
      }
    }
    PermutedTransitive(a[..], w, old(a[..]), lo, hi);
  }

  /** The "nothing to gain" branch: the run is sorted along the largest
      extent of the box and every leaf becomes a child. */
  method BuildLeaves(a: array<LeafNode>, lo: nat, hi: nat, box: Aabb) returns (node: BuildNode)
    requires lo + 2 <= hi <= a.Length
    modifies a
    ensures PermutedWithin(a[..], old(a[..]), lo, hi)
    ensures Builds(node, box, a[lo..hi]) && node.axis == LargestAxis(box)
    ensures SortedBy(a[lo..hi], node.axis)
    ensures LeafRow(node.children, a[lo..hi])
    ensures HoldsAll(box, old(a[lo..hi])) ==> Nested(node)
  {
    var axis := LargestAxis(box);
    SortNodes(a, lo, hi, axis);
    var cs := LeafChildren(a[lo..hi]);
    node := BuildNode(box, hi - lo, axis, cs);
    LeavesBuild(box, axis, cs, a[lo..hi]);
    if HoldsAll(box, old(a[lo..hi])) {
      HoldsAllPermuted(box, a[lo..hi], old(a[lo..hi]));
      LeavesNested(box, hi - lo, axis, cs, a[lo..hi]);
    }
  }

  /** The splitting branch of `build_recursive_sah`: the run is sorted
      along the chosen axis, the first `split` leaves are built under `b0`
      and the rest under `b1`. */
  method BuildSplit(a: array<LeafNode>, lo: nat, hi: nat, box: Aabb, axis: nat, split: nat, b0: Aabb, b1: Aabb,
                    ghost order: seq<LeafNode>)
    returns (node: BuildNode)
    requires lo < lo + split < hi <= a.Length && axis < 3
    modifies a
    ensures PermutedWithin(a[..], old(a[..]), lo, hi)
    ensures Builds(node, box, a[lo..hi])
    ensures node.axis == axis && |node.children| == 2
    ensures Builds(node.children[0], b0, a[lo..lo + split]) && Builds(node.children[1], b1, a[lo + split..hi])
    ensures SplitBoxes(order, old(a[lo..hi]), axis, split, b0, b1) && HoldsAll(box, old(a[lo..hi])) ==> Nested(node)
    decreases hi - lo, 1
  {
    SortNodes(a, lo, hi, axis);
    ghost var w := a[..];
    var c0, c1 := BuildSides(a, lo, lo + split, hi, b0, b1, w[lo..lo + split], w[lo + split..hi]);
    node := BuildNode(box, hi - lo, axis, [c0, c1]);
    PermutedTransitive(a[..], w, old(a[..]), lo, hi);
    BuildsPair(c0, c1, box, axis, b0, b1, a[..], lo, lo + split, hi);
    SplitNested(order, old(a[lo..hi]), w, lo, hi, axis, split, b0, b1, box, c0, c1);
  }

  /** The two recursive calls of the splitting branch, one per side. */
  method BuildSides(a: array<LeafNode>, lo: nat, mid: nat, hi: nat, b0: Aabb, b1: Aabb,
                    ghost run0: seq<LeafNode>, ghost run1: seq<LeafNode>)
    returns (c0: BuildNode, c1: BuildNode)
    requires lo < mid < hi <= a.Length
    requires run0 == a[lo..mid] && run1 == a[mid..hi]
    modifies a
    ensures PermutedWithin(a[..], old(a[..]), lo, hi)
    ensures Builds(c0, b0, a[lo..mid]) && Builds(c1, b1, a[mid..hi])
    ensures NestedOver(b0, run0, c0) && NestedOver(b1, run1, c1)
    decreases hi - lo, 0
  {
    c0 := BuildRecursive(a, lo, mid, b0);
    ghost var s1 := a[..];
    assert a[mid..hi] == old(a[mid..hi]) by {
      assert s1[mid..] == old(a[..])[mid..];
      assert a[mid..hi] == s1[mid..][..hi - mid];
    }
    c1 := BuildRecursive(a, mid, hi, b1);
    SplitJoin(old(a[..]), s1, a[..], lo, mid, hi);
  }

  /** Two subtrees built from the two sides of a run make the tree of the
      whole run. */
  lemma BuildsPair(c0: BuildNode, c1: BuildNode, box: Aabb, axis: nat, b0: Aabb, b1: Aabb,
                   s: seq<LeafNode>, lo: nat, mid: nat, hi: nat)
    requires lo < mid < hi <= |s| && axis < 3
    requires Builds(c0, b0, s[lo..mid]) && Builds(c1, b1, s[mid..hi])
    ensures Builds(BuildNode(box, hi - lo, axis, [c0, c1]), box, s[lo..hi])
  {
    var node, run := BuildNode(box, hi - lo, axis, [c0, c1]), s[lo..hi];
    assert run == s[lo..mid] + s[mid..hi];
    assert WellShaped(node) by {
      assert WellShaped(c0) && WellShaped(c1);
    }
    assert LeafIndices(node) == Indices(run) by {
      IndicesConcat(s[lo..mid], s[mid..hi]);
      PairIndices(c0, c1);
    }
    assert SplitOf(node, run) by {
      assert run[..mid - lo] == s[lo..mid] && run[mid - lo..] == s[mid..hi];
      SplitAtPoint(node, run, mid - lo);
    }
  }

  /** Two children built from the two sides of split point `m` are a
      split of the run. */
  lemma SplitAtPoint(node: BuildNode, run: seq<LeafNode>, m: nat)
    requires 1 <= m < |run| && |node.children| == 2
    requires Builds(node.children[0], node.children[0].box, run[..m])
    requires Builds(node.children[1], node.children[1].box, run[m..])
    ensures SplitOf(node, run)
  {
  }

  lemma PairIndices(c0: BuildNode, c1: BuildNode)
    ensures ForestIndices([c0, c1]) == LeafIndices(c0) + LeafIndices(c1)
  {
    assert [c0, c1][..1] == [c0];
    assert ForestIndices([c0]) == LeafIndices(c0) by {
      assert [c0][..0] == [];
    }
  }

  /** Rebuilding the two sides of a split one after the other permutes
      each side and so the whole range; the entries of the range are those
      of the two sides. */
  lemma SplitJoin(s0: seq<LeafNode>, s1: seq<LeafNode>, s2: seq<LeafNode>, lo: nat, mid: nat, hi: nat)
    requires lo <= mid <= hi <= |s0|
    requires PermutedWithin(s1, s0, lo, mid) && PermutedWithin(s2, s1, mid, hi)
    ensures PermutedWithin(s2, s0, lo, hi)
    ensures s2[lo..mid] == s1[lo..mid]
  {
    assert s0[lo..hi] == s0[lo..mid] + s0[mid..hi];
    assert s2[lo..hi] == s2[lo..mid] + s2[mid..hi];
    assert s2[lo..mid] == s1[lo..mid];
    assert s1[mid..hi] == s0[mid..hi];
  }
}
