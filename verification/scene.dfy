/** Scene bookkeeping (`scene.cc`): colour gradients, the playback of the
    animation track, instance lists for the TLAS builds, and the per-frame
    reset and rebuild of the subframe TLASes in the shared BVH buffers.
    Floats are reals; matrix inversion and Euler rotations are passed in. */
module Scenes {
  import opened MathCore
  import opened Bvh
  import opened BvhLayout
  import opened MeshLoader
  import RayQuery
  import Config
  import Validator

  // ---------------------------------------------------------------------
  // get_gradient_value

  /** A stop of a colour gradient (`gradient_stop`). */
  datatype GradientStop = GradientStop(t: real, value: Vec4)

  /** Stops in non-decreasing order of `t`. */
  predicate StopsSorted(g: seq<GradientStop>)
  {
    forall i, j | 0 <= i < j < |g| :: g[i].t <= g[j].t
  }

  /** `std::lower_bound` with `stop.t < t`: the first stop that does not
      lie before `t`, or the number of stops. */
  function LowerBound(g: seq<GradientStop>, t: real): (k: nat)
    ensures k <= |g|
    ensures forall i | 0 <= i < k :: g[i].t < t
    ensures k < |g| ==> t <= g[k].t
  {
    if g == [] || t <= g[0].t then 0 else 1 + LowerBound(g[1..], t)
  }

  /** The share of the way from stop `k - 1` to stop `k` at which `t` lies. */
  function Ratio(g: seq<GradientStop>, k: nat, t: real): real
    requires 0 < k < |g| && g[k - 1].t < g[k].t
  {
    (t - g[k - 1].t) / (g[k].t - g[k - 1].t)
  }

  /** `get_gradient_value`: the first stop's value up to the first stop,
      the last stop's value past the last one, and in between the mix of
      the two stops around `t`. */
  function GetGradientValue(g: seq<GradientStop>, t: real): (r: Vec4)
    requires g != []
    ensures t <= g[0].t ==> r == g[0].value
    ensures StopsSorted(g) && g[|g| - 1].t < t ==> r == g[|g| - 1].value
  {
    var k := LowerBound(g, t);
    if k == 0 then g[0].value
    else if k == |g| then g[|g| - 1].value
    else Mix4(g[k - 1].value, g[k].value, Ratio(g, k, t))
  }

  /** Between two stops of a sorted gradient, the value is the mix of those
      two stops, at a share in (0, 1], and each component lies between
      theirs. */
  lemma GradientBetween(g: seq<GradientStop>, t: real, k: nat)
    requires StopsSorted(g) && 0 < k < |g| && g[k - 1].t < t <= g[k].t
    ensures 0.0 < Ratio(g, k, t) <= 1.0
    ensures GetGradientValue(g, t) == Mix4(g[k - 1].value, g[k].value, Ratio(g, k, t))
    ensures Min(g[k - 1].value.x, g[k].value.x) <= GetGradientValue(g, t).x <= Max(g[k - 1].value.x, g[k].value.x)
    ensures Min(g[k - 1].value.w, g[k].value.w) <= GetGradientValue(g, t).w <= Max(g[k - 1].value.w, g[k].value.w)
  {
    assert LowerBound(g, t) == k;
    RatioBounds(g, k, t);
    var a, b, s := g[k - 1].value, g[k].value, Ratio(g, k, t);
    MixBetween(a.x, b.x, s);
    MixBetween(a.w, b.w, s);
  }

  lemma RatioBounds(g: seq<GradientStop>, k: nat, t: real)
    requires 0 < k < |g| && g[k - 1].t < t <= g[k].t
    ensures 0.0 < Ratio(g, k, t) <= 1.0
  {
    var num, den := t - g[k - 1].t, g[k].t - g[k - 1].t;
    assert 0.0 < num <= den;
    assert Ratio(g, k, t) * den == num;
  }

  /** At a stop that lies strictly after the one before it, the gradient
      takes that stop's value. */
  lemma GradientAtStop(g: seq<GradientStop>, k: nat)
    requires StopsSorted(g) && k < |g| && (k == 0 || g[k - 1].t < g[k].t)
    ensures GetGradientValue(g, g[k].t) == g[k].value
  {
    if k > 0 {
      GradientBetween(g, g[k].t, k);
      assert Ratio(g, k, g[k].t) == 1.0;
    }
  }

  // ---------------------------------------------------------------------
  // play_animation_track

  /** A keyframe of the animation track (`animation_stop`): from `start`,
      over `duration`, the variable numbered `variable` moves from `from`
      to `to`. The variables a track drives are the cells of an array. */
  datatype AnimationStop = AnimationStop(start: real, duration: real, from: real, to: real, variable: nat)

  /** How far a started stop has come at time `t`: all the way for a zero
      duration, else the elapsed share of the duration, clamped to [0, 1]. */
  function Progress(s: AnimationStop, t: real): (lt: real)
    ensures 0.0 <= lt <= 1.0
    ensures s.duration == 0.0 || (0.0 < s.duration && s.start + s.duration <= t) ==> lt == 1.0
    ensures 0.0 < s.duration && t <= s.start ==> lt == 0.0
  {
    if s.duration == 0.0 then 1.0
    else
      var q := (t - s.start) / s.duration;
      assert 0.0 < s.duration && s.start + s.duration <= t ==> 1.0 <= q by {
        if 0.0 < s.duration && s.start + s.duration <= t {
          QuotientAtLeastOne(t - s.start, s.duration);
        }
      }
      assert 0.0 < s.duration && t <= s.start ==> q <= 0.0 by {
        if 0.0 < s.duration && t <= s.start {
          QuotientNotPositive(t - s.start, s.duration);
        }
      }
      Clamp(q, 0.0, 1.0)
  }

  lemma QuotientAtLeastOne(x: real, d: real)
    requires 0.0 < d <= x
    ensures 1.0 <= x / d
  {
    assert (x / d) * d == x;
  }

  lemma QuotientNotPositive(x: real, d: real)
    requires 0.0 < d && x <= 0.0
    ensures x / d <= 0.0
  {
    assert (x / d) * d == x;
  }

  /** The value a started stop gives its variable at time `t`. */
  function StopValue(s: AnimationStop, t: real): real
  {
    Mix(s.from, s.to, Progress(s, t))
  }

  /** A stop sets its variable to a value between `from` and `to`, and to
      `to` itself once its duration has passed. */
  lemma StopValueBounds(s: AnimationStop, t: real)
    ensures Min(s.from, s.to) <= StopValue(s, t) <= Max(s.from, s.to)
    ensures s.duration == 0.0 || (0.0 < s.duration && s.start + s.duration <= t) ==> StopValue(s, t) == s.to
  {
    MixBetween(s.from, s.to, Progress(s, t));
  }

  /** Every stop drives one of `n` variables. */
  predicate Targets(stops: seq<AnimationStop>, n: nat)
  {
    forall i | 0 <= i < |stops| :: stops[i].variable < n
  }

  /** The number of leading stops that have started by `t`: the stops the
      loop applies before it meets one that starts later. */
  function StartedPrefix(anim: seq<AnimationStop>, t: real): (n: nat)
    ensures n <= |anim|
    ensures forall i | 0 <= i < n :: anim[i].start <= t
    ensures n < |anim| ==> t < anim[n].start
  {
    if anim == [] || t < anim[0].start then 0 else 1 + StartedPrefix(anim[1..], t)
  }

  /** The variables `vals` after the stops were applied one after the
      other. */
  function Apply(vals: seq<real>, stops: seq<AnimationStop>, t: real): (r: seq<real>)
    requires Targets(stops, |vals|)
    ensures |r| == |vals|
  {
    if stops == [] then vals
    else
      var last := stops[|stops| - 1];
      Apply(vals, stops[..|stops| - 1], t)[last.variable := StopValue(last, t)]
  }

  /** The position of the last stop that drives variable `v`, or -1. */
  function LastSetting(stops: seq<AnimationStop>, v: nat): (k: int)
    ensures -1 <= k < |stops|
    ensures k >= 0 ==> stops[k].variable == v
    ensures forall j | k < j < |stops| :: stops[j].variable != v
  {
    if stops == [] then -1
    else if stops[|stops| - 1].variable == v then |stops| - 1
    else LastSetting(stops[..|stops| - 1], v)
  }

  /** Later stops override earlier ones: a variable ends with the value of
      the last stop that drives it, and keeps its value if none does. */
  lemma {:induction false} LaterStopsWin(vals: seq<real>, stops: seq<AnimationStop>, t: real, v: nat)
    requires Targets(stops, |vals|) && v < |vals|
    ensures var k := LastSetting(stops, v);
      Apply(vals, stops, t)[v] == if k < 0 then vals[v] else StopValue(stops[k], t)
  {
    if stops != [] {
      var init := stops[..|stops| - 1];
      LaterStopsWin(vals, init, t, v);
    }
  }

  /** `play_animation_track`, with the stop count checked before the stop is
      read (see `GuardReadsPastEnd` for the order as written): applies the
      leading stops that have started by `t`, each setting its variable. */
  method PlayAnimationTrack(anim: seq<AnimationStop>, vars: array<real>, t: real)
    requires Targets(anim, vars.Length)
    modifies vars
    ensures vars[..] == Apply(old(vars[..]), anim[..StartedPrefix(anim, t)], t)
  {
    ghost var init := vars[..];
    var i := 0;
    while i < |anim| && anim[i].start <= t
      invariant i <= |anim|
      invariant forall k | 0 <= k < i :: anim[k].start <= t
      invariant vars[..] == Apply(init, anim[..i], t)
    {
      var s := anim[i];
      var lt := if s.duration == 0.0 then 1.0 else Clamp((t - s.start) / s.duration, 0.0, 1.0);
      vars[s.variable] := Mix(s.from, s.to, lt);
      assert anim[..i + 1][..i] == anim[..i];
      i := i + 1;
    }
  }

  /** The stops whose `start` the loop condition reads from stop `i` on, as
      written: `start` is read before the count is checked, so once every
      stop has started it reads the entry one past the last stop. */
  function GuardReadsAsWritten(anim: seq<AnimationStop>, t: real, i: nat): set<nat>
    requires i <= |anim|
    decreases |anim| - i
  {
    if i == |anim| then {i}
    else if t < anim[i].start then {i}
    else {i} + GuardReadsAsWritten(anim, t, i + 1)
  }

  /** As written, the loop condition reads past the end of the track
      exactly when every remaining stop has started. */
  lemma {:induction false} GuardReadsPastEnd(anim: seq<AnimationStop>, t: real, i: nat)
    requires i <= |anim|
    ensures |anim| in GuardReadsAsWritten(anim, t, i) <==> forall k | i <= k < |anim| :: anim[k].start <= t
    decreases |anim| - i
  {
    if i < |anim| && anim[i].start <= t {
      GuardReadsPastEnd(anim, t, i + 1);
    }
  }

  /** The stops whose `start` the loop condition of `PlayAnimationTrack`
      reads from stop `i` on: the same stops, never the one past the end. */
  function GuardReads(anim: seq<AnimationStop>, t: real, i: nat): (r: set<nat>)
    requires i <= |anim|
    ensures forall k | k in r :: i <= k < |anim|
    ensures r == GuardReadsAsWritten(anim, t, i) - {|anim|}
    decreases |anim| - i
  {
    if i == |anim| then {}
    else if t < anim[i].start then {i}
    else {i} + GuardReads(anim, t, i + 1)
  }

  // ---------------------------------------------------------------------
  // pull_instance_list

  /** The instances numbered `b` up to `e`, each paired with its number;
      nothing when `e <= b`. */
  function Pairs(instances: seq<TlasInstance>, b: nat, e: nat): (r: seq<(TlasInstance, nat)>)
    requires e <= b || e <= |instances|
    ensures |r| == if b < e then e - b else 0
    decreases e
  {
    if e <= b then [] else Pairs(instances, b, e - 1) + [(instances[e - 1], e - 1)]
  }

  /** Entry `k` is instance `b + k` with its number. */
  lemma {:induction false} PairsAt(instances: seq<TlasInstance>, b: nat, e: nat, k: nat)
    requires b < e <= |instances| && k < e - b
    ensures Pairs(instances, b, e)[k] == (instances[b + k], b + k)
    decreases e
  {
    if k < e - 1 - b {
      PairsAt(instances, b, e - 1, k);
    }
  }

  /** Two runs of pairs name each instance by its own number. */
  lemma PairsNumbered(instances: seq<TlasInstance>, b: nat, e: nat, b': nat, e': nat)
    requires e <= b || e <= |instances|
    requires e' <= b' || e' <= |instances|
    ensures var r := Pairs(instances, b, e) + Pairs(instances, b', e');
      forall k | 0 <= k < |r| :: r[k].1 < |instances| && r[k].0 == instances[r[k].1]
  {
    var p, q := Pairs(instances, b, e), Pairs(instances, b', e');
    var r: seq<(TlasInstance, nat)> := p + q;
    forall k | 0 <= k < |r|
      ensures r[k].1 < |instances| && r[k].0 == instances[r[k].1]
    {
      if k < |p| {
        assert r[k] == p[k];
        PairsAt(instances, b, e, k);
      } else {
        assert r[k] == q[k - |p|];
        PairsAt(instances, b', e', k - |p|);
      }
    }
  }

  /** The list a subframe's TLAS is built over: the static instances
      `0` up to `staticEnd`, then the subframe's dynamic range. */
  function Pulled(instances: seq<TlasInstance>, staticEnd: nat, range: (nat, nat)): seq<(TlasInstance, nat)>
    requires staticEnd <= |instances| && range.0 <= range.1 <= |instances|
  {
    Pairs(instances, 0, staticEnd) + Pairs(instances, range.0, range.1)
  }

  /** The numbers `b` up to `e`. */
  function Span(b: nat, e: nat): multiset<nat>
    decreases e
  {
    if e <= b then multiset{} else Span(b, e - 1) + multiset{e - 1}
  }

  /** Each of the numbers `b` up to `e` occurs once. */
  lemma {:induction false} SpanOnce(b: nat, e: nat)
    ensures forall v | v in Span(b, e) :: b <= v < e && Span(b, e)[v] == 1
    decreases e
  {
    if b < e {
      SpanOnce(b, e - 1);
    }
  }

  /** `pull_instance_list` with a dynamic range that starts after the
      static instances numbers every instance once, which is what
      `build_tlas` needs for its tree to be nested. */
  lemma PulledApart(instances: seq<TlasInstance>, staticEnd: nat, range: (nat, nat))
    requires staticEnd <= range.0 <= range.1 <= |instances|
    ensures forall v | v in Seconds(Pulled(instances, staticEnd, range)) ::
      Seconds(Pulled(instances, staticEnd, range))[v] == 1
  {
    PulledNumbers(instances, staticEnd, range);
    SpanOnce(0, staticEnd);
    SpanOnce(range.0, range.1);
  }

  lemma SecondsSnoc(v: seq<(TlasInstance, nat)>, x: (TlasInstance, nat))
    ensures Seconds(v + [x]) == Seconds(v) + multiset{x.1}
  {
    assert (v + [x])[..|v|] == v;
  }

  /** Instances `b` up to `e`, paired with their numbers, carry those
      numbers. */
  lemma {:induction false} SecondsPairs(instances: seq<TlasInstance>, b: nat, e: nat)
    requires e <= b || e <= |instances|
    ensures Seconds(Pairs(instances, b, e)) == Span(b, e)
    decreases e
  {
    if b < e {
      calc {
        Seconds(Pairs(instances, b, e));
        { SecondsSnoc(Pairs(instances, b, e - 1), (instances[e - 1], e - 1)); }
        Seconds(Pairs(instances, b, e - 1)) + multiset{e - 1};
        { SecondsPairs(instances, b, e - 1); }
        Span(b, e - 1) + multiset{e - 1};
      }
    }
  }

  lemma {:induction false} SecondsAppend(s: seq<(TlasInstance, nat)>, t: seq<(TlasInstance, nat)>)
    ensures Seconds(s + t) == Seconds(s) + Seconds(t)
    decreases |t|
  {
    if t == [] {
      assert s + t == s;
    } else {
      var t' := t[..|t| - 1];
      assert Seconds(s + t) == Seconds(s + t') + multiset{t[|t| - 1].1} by {
        assert (s + t)[..|s + t| - 1] == s + t';
      }
      assert Seconds(s + t') == Seconds(s) + Seconds(t') by {
        SecondsAppend(s, t');
      }
      var m, n, x := Seconds(s), Seconds(t'), multiset{t[|t| - 1].1};
      assert Seconds(t) == n + x;
      assert m + n + x == m + (n + x);
    }
  }

  /** The list of a subframe's TLAS numbers each static instance and each
      instance of the dynamic range once, and no other. */
  lemma PulledNumbers(instances: seq<TlasInstance>, staticEnd: nat, range: (nat, nat))
    requires staticEnd <= |instances| && range.0 <= range.1 <= |instances|
    ensures Seconds(Pulled(instances, staticEnd, range)) == Span(0, staticEnd) + Span(range.0, range.1)
  {
    var p, q := Pairs(instances, 0, staticEnd), Pairs(instances, range.0, range.1);
    SecondsAppend(p, q);
    SecondsPairs(instances, 0, staticEnd);
    SecondsPairs(instances, range.0, range.1);
  }

  /** A TLAS built over the list of a subframe covers its instances. */
  lemma PulledCovers(instances: seq<TlasInstance>, staticEnd: nat, range: (nat, nat),
                     list: seq<(TlasInstance, nat)>, root: BuildNode)
    requires staticEnd <= |instances| && range.0 <= range.1 <= |instances|
    requires list == Pairs(instances, 0, staticEnd) + Pairs(instances, range.0, range.1)
    requires LeafIndices(root) == Seconds(list)
    ensures Covers(root, staticEnd, range)
  {
    PulledNumbers(instances, staticEnd, range);
  }

  /** One loop of `pull_instance_list`: the instances of `[b, e)`, each
      with its number, appended to `r0`. */
  method AppendPairs(r0: seq<(TlasInstance, nat)>, instances: seq<TlasInstance>, b: nat, e: nat)
    returns (r: seq<(TlasInstance, nat)>)
    requires e <= b || e <= |instances|
    ensures r == r0 + Pairs(instances, b, e)
  {
    r := r0;
    var i: nat := b;
    while i < e
      invariant b <= i && (i <= e || i == b)
      invariant r == r0 + Pairs(instances, b, i)
    {
      r := r + [(instances[i], i)];
      i := i + 1;
    }
  }

  /** `pull_instance_list`: the static range followed by the dynamic range,
      each instance with its own number. */
  method PullInstanceList(instances: seq<TlasInstance>, staticBegin: nat, staticEnd: nat,
                          dynamicBegin: nat, dynamicEnd: nat) returns (r: seq<(TlasInstance, nat)>)
    requires staticEnd <= staticBegin || staticEnd <= |instances|
    requires dynamicEnd <= dynamicBegin || dynamicEnd <= |instances|
    ensures r == Pairs(instances, staticBegin, staticEnd) + Pairs(instances, dynamicBegin, dynamicEnd)
    ensures forall k | 0 <= k < |r| :: r[k].1 < |instances| && r[k].0 == instances[r[k].1]
  {
    var first := AppendPairs([], instances, staticBegin, staticEnd);
    assert first == Pairs(instances, staticBegin, staticEnd);
    r := AppendPairs(first, instances, dynamicBegin, dynamicEnd);
    PairsNumbered(instances, staticBegin, staticEnd, dynamicBegin, dynamicEnd);
  }

  // ---------------------------------------------------------------------
  // get_animation_frame_count

  /** `get_animation_frame_count`: one minute of frames, the number of
      reference frames the validator compares. */
  function GetAnimationFrameCount(): (n: nat)
    ensures n == Validator.FrameCount
  {
    60 * Config.Framerate
  }

  // ---------------------------------------------------------------------
  // BVHs placed in the shared buffers

  /** The BVH `h` lies in the buffers as the tree `flat`: its nodes hold the
      tree's boxes in breadth-first order, and each of its eight link tables
      links the whole tree from the root. */
  ghost predicate Placed(nodes: seq<Aabb>, links: seq<Link>, h: BvhHandle, flat: seq<FlatNode>)
  {
    Tree(flat) && 0 < |flat| == h.nodeCount &&
    h.nodeOffset + h.nodeCount <= |nodes| && 8 * (h.nodeOffset + h.nodeCount) <= |links| &&
    (forall i | 0 <= i < |flat| :: nodes[h.nodeOffset + i] == flat[i].box) &&
    forall d | 0 <= d < 8 :: LinksOk(flat, d, links, TableBase(h.nodeOffset, d, h.nodeCount), 0, EndOfTraversal)
  }

  /** A placed BVH stays placed wherever its nodes and its eight tables are
      copied to, together: links name nodes of the BVH, not positions in
      the buffers. Keeping the BVH where it is is the case `h' == h`. */
  lemma PlacedMoved(nodes: seq<Aabb>, links: seq<Link>, h: BvhHandle, flat: seq<FlatNode>,
                    nodes': seq<Aabb>, links': seq<Link>, h': BvhHandle)
    requires Placed(nodes, links, h, flat) && h'.nodeCount == h.nodeCount
    requires h'.nodeOffset + h.nodeCount <= |nodes'| && 8 * (h'.nodeOffset + h.nodeCount) <= |links'|
    requires nodes'[h'.nodeOffset..h'.nodeOffset + h.nodeCount] == nodes[h.nodeOffset..h.nodeOffset + h.nodeCount]
    requires links'[8 * h'.nodeOffset..8 * (h'.nodeOffset + h.nodeCount)] ==
             links[8 * h.nodeOffset..8 * (h.nodeOffset + h.nodeCount)]
    ensures Placed(nodes', links', h', flat)
  {
    var n := h.nodeCount;
    forall i | 0 <= i < n
      ensures nodes'[h'.nodeOffset + i] == flat[i].box
    {
      assert nodes'[h'.nodeOffset + i] == nodes'[h'.nodeOffset..h'.nodeOffset + n][i];
    }
    forall d | 0 <= d < 8
      ensures LinksOk(flat, d, links', TableBase(h'.nodeOffset, d, n), 0, EndOfTraversal)
    {
      TableSlice(links, h.nodeOffset, links', h'.nodeOffset, n, d);
      LinksMoved(flat, d, links, TableBase(h.nodeOffset, d, n), links', TableBase(h'.nodeOffset, d, n));
    }
  }

  /** Table `d` of a BVH with `n` nodes, copied with the eight tables. */
  lemma TableSlice(links: seq<Link>, offset: nat, links': seq<Link>, offset': nat, n: nat, d: nat)
    requires d < 8 && 8 * (offset + n) <= |links| && 8 * (offset' + n) <= |links'|
    requires links'[8 * offset'..8 * (offset' + n)] == links[8 * offset..8 * (offset + n)]
    ensures TableBase(offset, d, n) + n <= |links| && TableBase(offset', d, n) + n <= |links'|
    ensures links'[TableBase(offset', d, n)..TableBase(offset', d, n) + n] == links[TableBase(offset, d, n)..TableBase(offset, d, n) + n]
  {
    TableOrder(d, 8, n);
    var start := TableBase(0, d, n);
    SubSlice(links, 8 * offset, 8 * (offset + n), links', 8 * offset', 8 * (offset' + n),
             TableBase(offset, d, n), TableBase(offset', d, n), n);
  }

  /** The links of a whole BVH, copied as one block. */
  lemma LinksMoved(flat: seq<FlatNode>, dir: nat, links: seq<Link>, base: nat, links': seq<Link>, base': nat)
    requires Tree(flat) && 0 < |flat|
    requires base + |flat| <= |links| && base' + |flat| <= |links'|
    requires links'[base'..base' + |flat|] == links[base..base + |flat|]
    requires LinksOk(flat, dir, links, base, 0, EndOfTraversal)
    ensures LinksOk(flat, dir, links', base', 0, EndOfTraversal)
  {
    SubBounds(flat, 0);
    forall z: nat | z in Sub(flat, 0)
      ensures base + z < |links| && base' + z < |links'| && links'[base' + z] == links[base + z]
    {
      SliceShift(links, base, links', base', |flat|, z);
    }
    LinksFrame(flat, dir, links, base, links', base', 0, EndOfTraversal);
  }

  /** A block inside two equal blocks is equal too. */
  lemma SubSlice<T>(s: seq<T>, a: nat, b: nat, s': seq<T>, a': nat, b': nat, c: nat, c': nat, m: nat)
    requires a <= b <= |s| && a' <= b' <= |s'| && s'[a'..b'] == s[a..b]
    requires a <= c && c - a == c' - a' && c + m <= b
    ensures c' + m <= |s'| && s'[c'..c' + m] == s[c..c + m]
  {
    forall j | c <= j < c + m
      ensures s'[j - c + c'] == s[j]
    {
      SliceShift(s, a, s', a', b - a, j - a);
    }
  }

  lemma SliceShift<T>(s: seq<T>, a: nat, s': seq<T>, a': nat, len: nat, j: nat)
    requires a + len <= |s| && a' + len <= |s'| && s'[a'..a' + len] == s[a..a + len] && j < len
    ensures s'[a' + j] == s[a + j]
  {
    assert s'[a' + j] == s'[a'..a' + len][j];
  }

  /** A BVH just appended to buffers is placed in them. */
  lemma AppendedPlaced(buf: BvhBuffers, oldNodes: seq<Aabb>, oldLinks: seq<Link>, b: BvhHandle, flat: seq<FlatNode>)
    requires buf.Appended(oldNodes, oldLinks, b, flat)
    ensures Placed(buf.nodes, buf.links, b, flat)
  {
  }

  /** A BVH built into buffers of its own is placed in the buffers it is
      appended to, at their node count, when they have eight links per
      node. */
  lemma RelocatedPlaced(local: BvhBuffers, h: BvhHandle, flat: seq<FlatNode>,
                        nodes: seq<Aabb>, links: seq<Link>, nodes': seq<Aabb>, links': seq<Link>)
    requires local.Appended([], [], h, flat) && |links| == 8 * |nodes|
    requires nodes' == nodes + local.nodes && links' == links + local.links
    ensures h.nodeOffset == 0
    ensures Placed(nodes', links', BvhHandle(h.nodeCount, |nodes|), flat)
  {
    var n := h.nodeCount;
    AppendedPlaced(local, [], [], h, flat);
    assert nodes'[|nodes|..|nodes| + n] == local.nodes[0..n];
    assert links'[8 * |nodes|..8 * (|nodes| + n)] == local.links[0..8 * n];
    PlacedMoved(local.nodes, local.links, h, flat, nodes', links', BvhHandle(n, |nodes|));
  }

  /** A placed BVH stays placed when the buffers keep their entries up to
      `k`, past its end, whatever happens above. */
  lemma PlacedKept(nodes: seq<Aabb>, links: seq<Link>, h: BvhHandle, flat: seq<FlatNode>,
                   nodes': seq<Aabb>, links': seq<Link>, k: nat)
    requires Placed(nodes, links, h, flat) && h.nodeOffset + h.nodeCount <= k
    requires k <= |nodes| && 8 * k <= |links| && k <= |nodes'| && 8 * k <= |links'|
    requires nodes'[..k] == nodes[..k] && links'[..8 * k] == links[..8 * k]
    ensures Placed(nodes', links', h, flat)
  {
    var o, n := h.nodeOffset, h.nodeCount;
    PrefixSlice(nodes, nodes', k, o, o + n);
    PrefixSlice(links, links', 8 * k, 8 * o, 8 * (o + n));
    PlacedMoved(nodes, links, h, flat, nodes', links', h);
  }

  lemma PrefixSlice<T>(s: seq<T>, s': seq<T>, k: nat, a: nat, b: nat)
    requires k <= |s| && k <= |s'| && s'[..k] == s[..k] && a <= b <= k
    ensures s'[a..b] == s[a..b]
  {
    forall j | a <= j < b
      ensures s'[j] == s[j]
    {
      assert s'[j] == s'[..k][j];
    }
  }

  /** A placed BVH small enough for the leaf tag can be walked by a ray
      query. */
  lemma PlacedTraversable(nodes: seq<Aabb>, links: seq<Link>, h: BvhHandle, flat: seq<FlatNode>)
    requires Placed(nodes, links, h, flat) && h.nodeCount <= LeafBit
    ensures RayQuery.Traversable(nodes, links, h, flat)
  {
  }

  // ---------------------------------------------------------------------
  // Subframes

  /** A subframe of the current frame; its camera and light are not part
      of this model. */
  datatype Subframe = Subframe(tlas: BvhHandle)

  /** The handle of a subframe whose TLAS is not built yet. */
  const Unbuilt: BvhHandle := BvhHandle(0, 0)

  /** The leaves of a subframe's TLAS `root` are the static instances
      `[0, staticEnd)` and the subframe's own dynamic `range`, each once. */
  ghost predicate Covers(root: BuildNode, staticEnd: nat, range: (nat, nat))
  {
    LeafIndices(root) == Span(0, staticEnd) + Span(range.0, range.1)
  }

  /** Subframe TLAS `h`, built into buffers of its own: the flattening of
      a well-shaped tree over the statics plus `range`. */
  ghost predicate LocalTlas(local: BvhBuffers, h: BvhHandle, flat: seq<FlatNode>, root: BuildNode,
                            staticEnd: nat, range: (nat, nat))
    reads local
  {
    local.Appended([], [], h, flat) && Flattens(flat, root) && WellShaped(root) && Covers(root, staticEnd, range)
  }

  /** The two halves of LocalTlas, for every subframe. */
  lemma LocalTlases(locals: seq<BvhBuffers>, subs: seq<Subframe>, flats: seq<seq<FlatNode>>, roots: seq<BuildNode>,
                    staticEnd: nat, entries: seq<(nat, nat)>)
    requires |locals| == |subs| == |flats| == |roots| == |entries|
    requires forall i | 0 <= i < |locals| :: LocalTlas(locals[i], subs[i].tlas, flats[i], roots[i], staticEnd, entries[i])
    ensures forall i | 0 <= i < |locals| :: locals[i].Appended([], [], subs[i].tlas, flats[i])
    ensures forall i | 0 <= i < |roots| ::
      Flattens(flats[i], roots[i]) && WellShaped(roots[i]) && Covers(roots[i], staticEnd, entries[i])
  {
  }

  /** `subframe_count`: enough motion-blur steps to cover the samples of a
      pixel, rounded up. */
  function SubframeCount(): (n: nat)
    ensures n * Config.SamplesPerMotionBlurStep >= Config.SamplesPerPixel
    ensures (n - 1) * Config.SamplesPerMotionBlurStep < Config.SamplesPerPixel
  {
    (Config.SamplesPerPixel + Config.SamplesPerMotionBlurStep - 1) / Config.SamplesPerMotionBlurStep
  }

  /** The TLASes of `subs` follow each other in the node buffer from `from`
      up to `to`, each non-empty. */
  ghost predicate Stacked(subs: seq<Subframe>, from: nat, to: nat)
    decreases |subs|
  {
    if subs == [] then from == to
    else 0 < subs[0].tlas.nodeCount && subs[0].tlas.nodeOffset == from &&
         Stacked(subs[1..], from + subs[0].tlas.nodeCount, to)
  }

  lemma {:induction false} StackedAppend(subs: seq<Subframe>, from: nat, to: nat, n: nat)
    requires Stacked(subs, from, to) && 0 < n
    ensures Stacked(subs + [Subframe(BvhHandle(n, to))], from, to + n)
    decreases |subs|
  {
    if subs != [] {
      assert (subs + [Subframe(BvhHandle(n, to))])[1..] == subs[1..] + [Subframe(BvhHandle(n, to))];
      StackedAppend(subs[1..], from + subs[0].tlas.nodeCount, to, n);
    }
  }

  /** Stacked TLASes are disjoint and in order, and lie between `from` and
      `to`. */
  lemma {:induction false} StackedOrdered(subs: seq<Subframe>, from: nat, to: nat)
    requires Stacked(subs, from, to)
    ensures from <= to
    ensures forall i | 0 <= i < |subs| :: from <= subs[i].tlas.nodeOffset && subs[i].tlas.nodeOffset + subs[i].tlas.nodeCount <= to
    ensures forall i, j | 0 <= i < j < |subs| :: subs[i].tlas.nodeOffset + subs[i].tlas.nodeCount <= subs[j].tlas.nodeOffset
    decreases |subs|
  {
    if subs != [] {
      StackedOrdered(subs[1..], from + subs[0].tlas.nodeCount, to);
      assert forall i | 1 <= i < |subs| :: subs[i] == subs[1..][i - 1];
    }
  }

  // ---------------------------------------------------------------------
  // The scene

  /** A request to add an instance of the named mesh with a transform. */
  datatype Placement = Placement(name: string, transform: Mat4)

  /** Every placement names a loaded mesh. */
  predicate Known(meshes: map<string, (Mesh, BvhHandle)>, ps: seq<Placement>)
  {
    forall i | 0 <= i < |ps| :: ps[i].name in meshes
  }

  /** The instance `add_instance` builds for a placement: the named mesh and
      its BLAS, the transform and its inverse. */
  function NewInstance(meshes: map<string, (Mesh, BvhHandle)>, p: Placement, inverse: Mat4 -> Mat4): TlasInstance
    requires p.name in meshes
  {
    TlasInstance(meshes[p.name].1, meshes[p.name].0, p.transform, inverse(p.transform))
  }

  /** The instances a run of `add_instance` calls appends. */
  function NewInstances(meshes: map<string, (Mesh, BvhHandle)>, ps: seq<Placement>, inverse: Mat4 -> Mat4): (r: seq<TlasInstance>)
    requires Known(meshes, ps)
    ensures |r| == |ps|
  {
    if ps == [] then [] else NewInstances(meshes, ps[..|ps| - 1], inverse) + [NewInstance(meshes, ps[|ps| - 1], inverse)]
  }

  /** The `i`-th new instance is the one built for the `i`-th placement. */
  lemma {:induction false} NewInstancesAt(meshes: map<string, (Mesh, BvhHandle)>, ps: seq<Placement>, inverse: Mat4 -> Mat4, i: nat)
    requires Known(meshes, ps) && i < |ps|
    ensures NewInstances(meshes, ps, inverse)[i] == NewInstance(meshes, ps[i], inverse)
    decreases |ps|
  {
    if i < |ps| - 1 {
      NewInstancesAt(meshes, ps[..|ps| - 1], inverse, i);
    }
  }

  /** Range `k` of `entries` holds the instances of the placements
      `groups[k]`, for every range. */
  ghost predicate Filled(instances: seq<TlasInstance>, entries: seq<(nat, nat)>,
                         meshes: map<string, (Mesh, BvhHandle)>, groups: seq<seq<Placement>>, inverse: Mat4 -> Mat4)
    requires |entries| <= |groups| && forall k | 0 <= k < |groups| :: Known(meshes, groups[k])
  {
    forall k | 0 <= k < |entries| ::
      entries[k].0 <= entries[k].1 <= |instances| &&
      instances[entries[k].0..entries[k].1] == NewInstances(meshes, groups[k], inverse)
  }

  /** Appending the instances of the next group keeps the earlier ranges
      filled and fills the new one. */
  lemma FilledAppend(instances: seq<TlasInstance>, instances': seq<TlasInstance>, entries: seq<(nat, nat)>, range: (nat, nat),
                     meshes: map<string, (Mesh, BvhHandle)>, groups: seq<seq<Placement>>, inverse: Mat4 -> Mat4)
    requires |entries| < |groups| && forall k | 0 <= k < |groups| :: Known(meshes, groups[k])
    requires Filled(instances, entries, meshes, groups, inverse)
    requires instances' == instances + NewInstances(meshes, groups[|entries|], inverse)
    requires range == (|instances|, |instances'|)
    ensures Filled(instances', entries + [range], meshes, groups, inverse)
  {
    var added := NewInstances(meshes, groups[|entries|], inverse);
    forall k | 0 <= k < |entries|
      ensures instances'[entries[k].0..entries[k].1] == instances[entries[k].0..entries[k].1]
    {
      PrefixSlice(instances, instances', |instances|, entries[k].0, entries[k].1);
    }
    assert instances'[range.0..range.1] == added;
  }

  /** The dynamic ranges of the subframes: the first starts at `from`, each
      starts where the one before it ended, the last ends at `to`. */
  predicate Contiguous(entries: seq<(nat, nat)>, from: nat, to: nat)
    decreases |entries|
  {
    if entries == [] then from == to
    else entries[0].0 == from && from <= entries[0].1 && Contiguous(entries[1..], entries[0].1, to)
  }

  lemma {:induction false} ContiguousAppend(entries: seq<(nat, nat)>, from: nat, to: nat, e: nat)
    requires Contiguous(entries, from, to) && to <= e
    ensures Contiguous(entries + [(to, e)], from, e)
    decreases |entries|
  {
    if entries != [] {
      assert (entries + [(to, e)])[1..] == entries[1..] + [(to, e)];
      ContiguousAppend(entries[1..], entries[0].1, to, e);
    }
  }

  lemma {:induction false} ContiguousBounds(entries: seq<(nat, nat)>, from: nat, to: nat)
    requires Contiguous(entries, from, to)
    ensures from <= to
    ensures forall i | 0 <= i < |entries| :: from <= entries[i].0 <= entries[i].1 <= to
    decreases |entries|
  {
    if entries != [] {
      ContiguousBounds(entries[1..], entries[0].1, to);
      assert forall i | 1 <= i < |entries| :: entries[i] == entries[1..][i - 1];
    }
  }

  /** Every mesh's BLAS is non-empty and ends at or below `base`. */
  ghost predicate MeshesBelow(meshes: map<string, (Mesh, BvhHandle)>, base: nat)
  {
    forall name | name in meshes ::
      0 < meshes[name].1.nodeCount && meshes[name].1.nodeOffset + meshes[name].1.nodeCount <= base
  }

  /** Every mesh's BLAS is placed in the buffers as its tree. */
  ghost predicate BlasesPlaced(meshes: map<string, (Mesh, BvhHandle)>, flats: map<string, seq<FlatNode>>,
                               nodes: seq<Aabb>, links: seq<Link>)
  {
    forall name | name in meshes :: name in flats && Placed(nodes, links, meshes[name].1, flats[name])
  }

  /** The BLASes stay placed when the buffers keep their entries up to
      `k`, where the BLASes end. */
  lemma BlasesKept(meshes: map<string, (Mesh, BvhHandle)>, flats: map<string, seq<FlatNode>>,
                   nodes: seq<Aabb>, links: seq<Link>, nodes': seq<Aabb>, links': seq<Link>, k: nat)
    requires BlasesPlaced(meshes, flats, nodes, links) && MeshesBelow(meshes, k)
    requires k <= |nodes| && 8 * k <= |links| && k <= |nodes'| && 8 * k <= |links'|
    requires nodes'[..k] == nodes[..k] && links'[..8 * k] == links[..8 * k]
    ensures BlasesPlaced(meshes, flats, nodes', links')
  {
    forall name | name in meshes
      ensures Placed(nodes', links', meshes[name].1, flats[name])
    {
      PlacedKept(nodes, links, meshes[name].1, flats[name], nodes', links', k);
    }
  }

  /** Filing a placed BLAS under a name keeps every BLAS placed and below
      `top`. */
  lemma BlasFiled(meshes: map<string, (Mesh, BvhHandle)>, flats: map<string, seq<FlatNode>>,
                  nodes: seq<Aabb>, links: seq<Link>, name: string, m: Mesh, b: BvhHandle, flat: seq<FlatNode>,
                  k: nat, top: nat)
    requires BlasesPlaced(meshes, flats, nodes, links) && MeshesBelow(meshes, k) && k <= top
    requires Placed(nodes, links, b, flat) && 0 < b.nodeCount && b.nodeOffset + b.nodeCount <= top
    ensures BlasesPlaced(meshes[name := (m, b)], flats[name := flat], nodes, links)
    ensures MeshesBelow(meshes[name := (m, b)], top)
  {
  }

  /** A scene (`scene`): meshes with their BLASes by name, the instances
      of the current frame (the first `staticInstanceCount` of them are
      kept from frame to frame), the subframes, and the shared buffers. */
  class Scene {
    const meshBuf: MeshBuffers
    const bvhBuf: BvhBuffers
    var meshes: map<string, (Mesh, BvhHandle)>
    var instances: seq<TlasInstance>
    var staticInstanceCount: nat
    var subframes: seq<Subframe>
    ghost var blasFlats: map<string, seq<FlatNode>>
    ghost var tlasFlats: seq<seq<FlatNode>>

    /** Where the TLASes of the subframes start: everything below is BLAS
        nodes. */
    ghost function Base(): nat
      reads this`subframes, bvhBuf`nodes
    {
      if subframes == [] then |bvhBuf.nodes| else subframes[0].tlas.nodeOffset
    }

    /** Every instance's BLAS root lies below `base`. */
    ghost predicate InstancesBelow(base: nat)
      reads this`instances
    {
      forall i | 0 <= i < |instances| :: instances[i].blas.nodeOffset < base
    }

    /** Every subframe's TLAS is placed in the shared buffers as its tree. */
    ghost predicate TlasesPlaced()
      reads this`subframes, this`tlasFlats, bvhBuf
    {
      |tlasFlats| == |subframes| &&
      forall i | 0 <= i < |subframes| :: Placed(bvhBuf.nodes, bvhBuf.links, subframes[i].tlas, tlasFlats[i])
    }

    /** The BLASes lie below `Base()`, the subframe TLASes are stacked from
        there to the end of the node buffer, each placed as its tree. */
    ghost predicate Valid()
      reads this, bvhBuf
    {
      bvhBuf.Valid() && staticInstanceCount <= |instances| &&
      MeshesBelow(meshes, Base()) &&
      BlasesPlaced(meshes, blasFlats, bvhBuf.nodes, bvhBuf.links) && InstancesBelow(Base()) &&
      Stacked(subframes, Base(), |bvhBuf.nodes|) && TlasesPlaced()
    }

    constructor ()
      ensures Valid() && fresh(meshBuf) && fresh(bvhBuf)
      ensures meshes == map[] && instances == [] && staticInstanceCount == 0 && subframes == []
    {
      meshBuf := new MeshBuffers();
      bvhBuf := new BvhBuffers();
      meshes := map[];
      blasFlats := map[];
      instances := [];
      staticInstanceCount := 0;
      subframes := [];
      tlasFlats := [];
    }

    /** `load_mesh_bvh_pair` once `load_mesh` has put the mesh in the mesh
        buffers: builds the mesh's BLAS on top of the node buffer and files
        the pair under the name. Meshes are loaded before the first
        frame. */
    method AddMeshBvhPair(name: string, m: Mesh) returns (ghost root: BuildNode)
      requires Valid() && subframes == []
      requires m.triangleCount >= 1 && MeshInBuffers(m, meshBuf.indices, meshBuf.pos)
      modifies this`meshes, this`blasFlats, bvhBuf
      ensures Valid() && subframes == []
      ensures name in meshes && meshes == old(meshes)[name := (m, meshes[name].1)]
      ensures meshes[name].1.nodeOffset == old(|bvhBuf.nodes|) && meshes[name].1.nodeOffset + meshes[name].1.nodeCount == |bvhBuf.nodes|
      ensures bvhBuf.nodes[..old(|bvhBuf.nodes|)] == old(bvhBuf.nodes)
      ensures name in blasFlats && Flattens(blasFlats[name], root) && WellShaped(root)
      ensures LeafIndices(root) == Upto(m.triangleCount)
      ensures root.box == RootBox(TriangleLeaves(m, meshBuf.indices, meshBuf.pos), m.triangleCount)
    {
      var b; ghost var flat;
      b, flat, root := bvhBuf.BuildBlas(m, meshBuf);
      AppendedPlaced(bvhBuf, old(bvhBuf.nodes), old(bvhBuf.links), b, flat);
      BlasesKept(meshes, blasFlats, old(bvhBuf.nodes), old(bvhBuf.links), bvhBuf.nodes, bvhBuf.links, old(|bvhBuf.nodes|));
      BlasFiled(meshes, blasFlats, bvhBuf.nodes, bvhBuf.links, name, m, b, flat, old(|bvhBuf.nodes|), |bvhBuf.nodes|);
      meshes := meshes[name := (m, b)];
      blasFlats := blasFlats[name := flat];
      assert Base() == |bvhBuf.nodes|;
      assert InstancesBelow(Base());
      assert Stacked(subframes, Base(), |bvhBuf.nodes|) && TlasesPlaced();
    }

    /** The end of `load_scene`: the instances placed so far stay in every
        frame. */
    method FreezeStaticInstances()
      requires Valid()
      modifies this`staticInstanceCount
      ensures Valid() && staticInstanceCount == |instances|
    {
      staticInstanceCount := |instances|;
    }

    /** `add_instance`: appends an instance of the named mesh with the
        transform and its inverse. An unknown name is an error
        (`std::out_of_range` from `at`): then nothing is added. */
    method AddInstance(name: string, transform: Mat4, inverse: Mat4 -> Mat4) returns (found: bool)
      modifies this`instances
      ensures found <==> name in meshes
      ensures found ==> instances == old(instances) + [NewInstance(meshes, Placement(name, transform), inverse)]
      ensures !found ==> instances == old(instances)
    {
      if name !in meshes {
        return false;
      }
      var pair := meshes[name];
      instances := instances + [TlasInstance(pair.1, pair.0, transform, inverse(transform))];
      found := true;
    }

    /** The overload of `add_instance` that takes a position, Euler angles
        in degrees and a scale: the transform scales, then rotates, then
        translates. `rotation` gives the rotation matrix of the angles. */
    method AddInstanceAt(name: string, pos: Vec3, pitchYawRoll: Vec3, scale: Vec3,
                         rotation: Vec3 -> Mat4, inverse: Mat4 -> Mat4) returns (found: bool)
      modifies this`instances
      ensures found <==> name in meshes
      ensures found ==>
        var transform := MulM4M4(Translation(pos), MulM4M4(rotation(pitchYawRoll), Scaling(scale)));
        instances == old(instances) + [NewInstance(meshes, Placement(name, transform), inverse)]
      ensures !found ==> instances == old(instances)
    {
      var transform := Scaling(scale);
      transform := MulM4M4(rotation(pitchYawRoll), transform);
      transform := MulM4M4(Translation(pos), transform);
      found := AddInstance(name, transform, inverse);
    }

    /** A run of `add_instance` calls for names that are all loaded. */
    method AddPlacements(ps: seq<Placement>, inverse: Mat4 -> Mat4)
      requires Known(meshes, ps) && MeshesBelow(meshes, |bvhBuf.nodes|) && InstancesBelow(|bvhBuf.nodes|)
      modifies this`instances
      ensures instances == old(instances) + NewInstances(meshes, ps, inverse)
      ensures InstancesBelow(|bvhBuf.nodes|)
    {
      for i := 0 to |ps|
        invariant instances == old(instances) + NewInstances(meshes, ps[..i], inverse)
        invariant InstancesBelow(|bvhBuf.nodes|)
      {
        var found := AddInstance(ps[i].name, ps[i].transform, inverse);
        assert ps[..i + 1][..i] == ps[..i];
      }
      assert ps[..|ps|] == ps;
    }

    /** The reset at the start of `setup_animation_frame`: pops the TLAS of
        the first subframe, which cuts both buffers back to where the
        TLASes of all subframes start, keeps only the static instances and
        drops the subframes. */
    method ClearFrame()
      requires Valid()
      modifies this`instances, this`subframes, this`tlasFlats, bvhBuf
      ensures Valid() && subframes == []
      ensures instances == old(instances)[..staticInstanceCount]
      ensures Base() == old(Base())
      ensures bvhBuf.nodes == old(bvhBuf.nodes)[..old(Base())]
      ensures bvhBuf.links == old(bvhBuf.links)[..8 * old(Base())]
    {
      ghost var base := Base();
      StackedOrdered(subframes, base, |bvhBuf.nodes|);
      if |subframes| != 0 {
        var popped := bvhBuf.PopBvh(subframes[0].tlas);
        subframes := subframes[0 := Subframe(popped)];
      }
      instances := instances[..staticInstanceCount];
      subframes := [];
      tlasFlats := [];
      BlasesKept(meshes, blasFlats, old(bvhBuf.nodes), old(bvhBuf.links), bvhBuf.nodes, bvhBuf.links, base);
    }

    /** One round of the subframe loop of `setup_animation_frame`: adds the
        subframe's dynamic instances, returns where they start and end, and
        pushes the subframe, whose TLAS is built later. */
    method AddSubframe(ps: seq<Placement>, inverse: Mat4 -> Mat4) returns (range: (nat, nat))
      requires Known(meshes, ps) && MeshesBelow(meshes, |bvhBuf.nodes|) && InstancesBelow(|bvhBuf.nodes|)
      modifies this`instances, this`subframes
      ensures range == (old(|instances|), |instances|)
      ensures instances == old(instances) + NewInstances(meshes, ps, inverse)
      ensures subframes == old(subframes) + [Subframe(Unbuilt)]
      ensures InstancesBelow(|bvhBuf.nodes|)
    {
      var dynamicBegin := |instances|;
      AddPlacements(ps, inverse);
      range := (dynamicBegin, |instances|);
      subframes := subframes + [Subframe(Unbuilt)];
    }

    /** The subframe loop of `setup_animation_frame`: per subframe, the
        range of its dynamic instances. */
    method AddSubframes(dynamics: seq<seq<Placement>>, inverse: Mat4 -> Mat4) returns (entries: seq<(nat, nat)>)
      requires subframes == [] && forall i | 0 <= i < |dynamics| :: Known(meshes, dynamics[i])
      requires MeshesBelow(meshes, |bvhBuf.nodes|) && InstancesBelow(|bvhBuf.nodes|)
      modifies this`instances, this`subframes
      ensures |subframes| == |dynamics| && forall i | 0 <= i < |subframes| :: subframes[i] == Subframe(Unbuilt)
      ensures |entries| == |dynamics| && Contiguous(entries, old(|instances|), |instances|)
      ensures Filled(instances, entries, meshes, dynamics, inverse)
      ensures old(|instances|) <= |instances| && instances[..old(|instances|)] == old(instances)
      ensures InstancesBelow(|bvhBuf.nodes|)
    {
      entries := [];
      for i := 0 to |dynamics|
        invariant |subframes| == i == |entries| && forall k | 0 <= k < i :: subframes[k] == Subframe(Unbuilt)
        invariant Contiguous(entries, old(|instances|), |instances|)
        invariant Filled(instances, entries, meshes, dynamics, inverse)
        invariant old(|instances|) <= |instances| && instances[..old(|instances|)] == old(instances)
        invariant InstancesBelow(|bvhBuf.nodes|)
      {
        ghost var before := instances;
        var range := AddSubframe(dynamics[i], inverse);
        ContiguousAppend(entries, old(|instances|), range.0, range.1);
        FilledAppend(before, instances, entries, range, meshes, dynamics, inverse);
        PrefixSlice(before, instances, |before|, 0, old(|instances|));
        entries := entries + [range];
      }
    }

    /** One round of the TLAS loop of `setup_animation_frame`: subframe
        `i`'s TLAS is built over the static instances and its own dynamic
        ones, into buffers of its own, reading the BLAS roots from the
        scene's buffers. */
    method BuildSubframeTlas(i: nat, staticEnd: nat, range: (nat, nat))
      returns (local: BvhBuffers, ghost flat: seq<FlatNode>, ghost root: BuildNode)
      requires i < |subframes| && staticEnd <= |instances| && range.0 <= range.1 <= |instances|
      requires 0 < staticEnd + (range.1 - range.0) && InstancesBelow(|bvhBuf.nodes|)
      modifies this`subframes
      ensures |subframes| == old(|subframes|) && subframes == old(subframes)[i := subframes[i]]
      ensures fresh(local) && local != bvhBuf
      ensures LocalTlas(local, subframes[i].tlas, flat, root, staticEnd, range)
    {
      var list := PullInstanceList(instances, 0, staticEnd, range.0, range.1);
      local := new BvhBuffers();
      var b;
      b, flat, root := local.BuildTlas(list, bvhBuf);
      PulledCovers(instances, staticEnd, range, list, root);
      subframes := subframes[i := Subframe(b)];
    }

    /** The TLAS loop of `setup_animation_frame`. */
    method BuildSubframeTlases(staticEnd: nat, entries: seq<(nat, nat)>)
      returns (locals: seq<BvhBuffers>, ghost flats: seq<seq<FlatNode>>, ghost roots: seq<BuildNode>)
      requires |subframes| == |entries| && staticEnd <= |instances|
      requires forall i | 0 <= i < |entries| :: entries[i].0 <= entries[i].1 <= |instances|
      requires forall i | 0 <= i < |entries| :: 0 < staticEnd + (entries[i].1 - entries[i].0)
      requires InstancesBelow(|bvhBuf.nodes|)
      modifies this`subframes
      ensures |locals| == |flats| == |roots| == |subframes| == |entries|
      ensures forall i | 0 <= i < |locals| :: fresh(locals[i]) && locals[i] != bvhBuf
      ensures forall i | 0 <= i < |locals| :: locals[i].Appended([], [], subframes[i].tlas, flats[i])
      ensures forall i | 0 <= i < |roots| ::
        Flattens(flats[i], roots[i]) && WellShaped(roots[i]) && Covers(roots[i], staticEnd, entries[i])
    {
      locals, flats, roots := [], [], [];
      for i := 0 to |entries|
        invariant |locals| == |flats| == |roots| == i && |subframes| == |entries|
        invariant forall k | 0 <= k < i :: fresh(locals[k]) && locals[k] != bvhBuf
        invariant forall k | 0 <= k < i ::
          LocalTlas(locals[k], subframes[k].tlas, flats[k], roots[k], staticEnd, entries[k])
      {
        var local, flat, root := BuildSubframeTlas(i, staticEnd, entries[i]);
        locals, flats, roots := locals + [local], flats + [flat], roots + [root];
      }
      LocalTlases(locals, subframes, flats, roots, staticEnd, entries);
    }

    method RelocateTlas(i: nat, local: BvhBuffers, ghost flat: seq<FlatNode>)
      requires bvhBuf.Valid() && i < |subframes| && local != bvhBuf
      requires local.Appended([], [], subframes[i].tlas, flat)
      modifies this`subframes, bvhBuf
      ensures bvhBuf.Valid()
      ensures subframes == old(subframes)[i := Subframe(BvhHandle(old(subframes[i].tlas.nodeCount), old(|bvhBuf.nodes|)))]
      ensures bvhBuf.nodes == old(bvhBuf.nodes) + local.nodes && bvhBuf.links == old(bvhBuf.links) + local.links
      ensures Placed(bvhBuf.nodes, bvhBuf.links, subframes[i].tlas, flat)
    {
      ghost var nodes0, links0, h := bvhBuf.nodes, bvhBuf.links, subframes[i].tlas;
      subframes := subframes[i := Subframe(subframes[i].tlas.(nodeOffset := |bvhBuf.nodes|))];
      bvhBuf.nodes := bvhBuf.nodes + local.nodes;
      bvhBuf.links := bvhBuf.links + local.links;
      RelocatedPlaced(local, h, flat, nodes0, links0, bvhBuf.nodes, bvhBuf.links);
    }

    /** The last loop of `setup_animation_frame`. */
    method RelocateTlases(locals: seq<BvhBuffers>, ghost flats: seq<seq<FlatNode>>)
      requires bvhBuf.Valid() && |locals| == |flats| == |subframes|
      requires forall i | 0 <= i < |locals| :: locals[i] != bvhBuf && locals[i].Appended([], [], subframes[i].tlas, flats[i])
      requires MeshesBelow(meshes, |bvhBuf.nodes|) && BlasesPlaced(meshes, blasFlats, bvhBuf.nodes, bvhBuf.links)
      requires InstancesBelow(|bvhBuf.nodes|) && staticInstanceCount <= |instances|
      modifies this`subframes, this`tlasFlats, bvhBuf
      ensures Valid() && |subframes| == old(|subframes|) && tlasFlats == flats && Base() == old(|bvhBuf.nodes|)
      ensures Base() <= |bvhBuf.nodes| && bvhBuf.nodes[..Base()] == old(bvhBuf.nodes)
      ensures 8 * Base() <= |bvhBuf.links| && bvhBuf.links[..8 * Base()] == old(bvhBuf.links)
    {
      for i := 0 to |locals|
        invariant bvhBuf.Valid() && |subframes| == |locals|
        invariant forall k | i <= k < |subframes| :: subframes[k] == old(subframes[k])
        invariant Stacked(subframes[..i], old(|bvhBuf.nodes|), |bvhBuf.nodes|)
        invariant forall k | 0 <= k < i :: Placed(bvhBuf.nodes, bvhBuf.links, subframes[k].tlas, flats[k])
        invariant old(|bvhBuf.nodes|) <= |bvhBuf.nodes| && bvhBuf.nodes[..old(|bvhBuf.nodes|)] == old(bvhBuf.nodes)
        invariant old(|bvhBuf.links|) <= |bvhBuf.links| && bvhBuf.links[..old(|bvhBuf.links|)] == old(bvhBuf.links)
      {
        ghost var nodes0, links0, subs0 := bvhBuf.nodes, bvhBuf.links, subframes;
        RelocateTlas(i, locals[i], flats[i]);
        forall k | 0 <= k < i
          ensures Placed(bvhBuf.nodes, bvhBuf.links, subframes[k].tlas, flats[k])
        {
          PlacedKept(nodes0, links0, subframes[k].tlas, flats[k], bvhBuf.nodes, bvhBuf.links, |nodes0|);
        }
        StackedAppend(subs0[..i], old(|bvhBuf.nodes|), |nodes0|, subs0[i].tlas.nodeCount);
        assert subframes[..i + 1] == subs0[..i] + [subframes[i]];
        PrefixSlice(nodes0, bvhBuf.nodes, |nodes0|, 0, old(|bvhBuf.nodes|));
        PrefixSlice(links0, bvhBuf.links, |links0|, 0, old(|bvhBuf.links|));
      }
      assert subframes[..|locals|] == subframes;
      tlasFlats := flats;
      BlasesKept(meshes, blasFlats, old(bvhBuf.nodes), old(bvhBuf.links), bvhBuf.nodes, bvhBuf.links, old(|bvhBuf.nodes|));
    }

    /** The first half of `setup_animation_frame`: the reset, the static
        instances of the frame, then the dynamic instances of each
        subframe. */
    method ResetFrame(statics: seq<Placement>, dynamics: seq<seq<Placement>>, inverse: Mat4 -> Mat4)
      returns (staticEnd: nat, entries: seq<(nat, nat)>)
      requires Valid() && Known(meshes, statics) && forall i | 0 <= i < |dynamics| :: Known(meshes, dynamics[i])
      modifies this`instances, this`subframes, this`tlasFlats, bvhBuf
      ensures bvhBuf.Valid() && |bvhBuf.nodes| == old(Base())
      ensures bvhBuf.nodes == old(bvhBuf.nodes)[..old(Base())] && bvhBuf.links == old(bvhBuf.links)[..8 * old(Base())]
      ensures MeshesBelow(meshes, |bvhBuf.nodes|) && BlasesPlaced(meshes, blasFlats, bvhBuf.nodes, bvhBuf.links)
      ensures InstancesBelow(|bvhBuf.nodes|)
      ensures |subframes| == |dynamics| && forall i | 0 <= i < |subframes| :: subframes[i] == Subframe(Unbuilt)
      ensures staticEnd == staticInstanceCount + |statics| <= |instances|
      ensures instances[..staticEnd] == old(instances)[..staticInstanceCount] + NewInstances(meshes, statics, inverse)
      ensures |entries| == |dynamics| && Contiguous(entries, staticEnd, |instances|)
      ensures Filled(instances, entries, meshes, dynamics, inverse)
    {
      ClearFrame();
      AddPlacements(statics, inverse);
      staticEnd := |instances|;
      ghost var withStatics := instances;
      entries := AddSubframes(dynamics, inverse);
      assert instances[..staticEnd] == withStatics;
    }

    /** The second half of `setup_animation_frame`: one TLAS per subframe,
        over the static instances and the subframe's dynamic range, stacked
        on top of the BLASes. */
    method BuildFrameTlases(staticEnd: nat, entries: seq<(nat, nat)>) returns (ghost roots: seq<BuildNode>)
      requires bvhBuf.Valid() && staticInstanceCount <= staticEnd <= |instances|
      requires MeshesBelow(meshes, |bvhBuf.nodes|) && BlasesPlaced(meshes, blasFlats, bvhBuf.nodes, bvhBuf.links)
      requires InstancesBelow(|bvhBuf.nodes|) && |subframes| == |entries|
      requires forall i | 0 <= i < |entries| :: entries[i].0 <= entries[i].1 <= |instances|
      requires forall i | 0 <= i < |entries| :: 0 < staticEnd + (entries[i].1 - entries[i].0)
      modifies this`subframes, this`tlasFlats, bvhBuf
      ensures Valid() && |subframes| == |entries| && Base() == old(|bvhBuf.nodes|) <= |bvhBuf.nodes|
      ensures bvhBuf.nodes[..Base()] == old(bvhBuf.nodes) && bvhBuf.links[..8 * Base()] == old(bvhBuf.links)
      ensures |roots| == |subframes| && forall i | 0 <= i < |roots| :: WellShaped(roots[i])
      ensures forall i | 0 <= i < |roots| :: Flattens(tlasFlats[i], roots[i]) && Covers(roots[i], staticEnd, entries[i])
    {
      var locals;
      ghost var flats;
      locals, flats, roots := BuildSubframeTlases(staticEnd, entries);
      RelocateTlases(locals, flats);
    }

    /** `setup_animation_frame` with the animation's output as inputs: the
        placements of the frame's static instances and of each subframe's
        dynamic instances. Resets the previous frame, adds the instances,
        builds one TLAS per subframe and relocates the TLASes into the
        scene's buffers, above the BLASes, which stay as they were. */
    method SetupAnimationFrame(statics: seq<Placement>, dynamics: seq<seq<Placement>>, inverse: Mat4 -> Mat4)
      returns (staticEnd: nat, entries: seq<(nat, nat)>, ghost roots: seq<BuildNode>)
      requires Valid() && Known(meshes, statics) && |dynamics| == SubframeCount()
      requires forall i | 0 <= i < |dynamics| ::
        Known(meshes, dynamics[i]) && 0 < staticInstanceCount + |statics| + |dynamics[i]|
      modifies this`instances, this`subframes, this`tlasFlats, bvhBuf
      ensures Valid() && |subframes| == SubframeCount()
      ensures Base() == old(Base()) && Base() <= |bvhBuf.nodes|
      ensures bvhBuf.nodes[..Base()] == old(bvhBuf.nodes)[..Base()]
      ensures bvhBuf.links[..8 * Base()] == old(bvhBuf.links)[..8 * Base()]
      ensures staticEnd == staticInstanceCount + |statics| <= |instances|
      ensures instances[..staticEnd] == old(instances)[..staticInstanceCount] + NewInstances(meshes, statics, inverse)
      ensures |entries| == |dynamics| && Contiguous(entries, staticEnd, |instances|)
      ensures Filled(instances, entries, meshes, dynamics, inverse)
      ensures |roots| == |subframes| && forall i | 0 <= i < |roots| :: WellShaped(roots[i])
      ensures forall i | 0 <= i < |roots| :: Flattens(tlasFlats[i], roots[i]) && Covers(roots[i], staticEnd, entries[i])
    {
      staticEnd, entries := ResetFrame(statics, dynamics, inverse);
      ContiguousBounds(entries, staticEnd, |instances|);
      roots := BuildFrameTlases(staticEnd, entries);
    }
  }
}
