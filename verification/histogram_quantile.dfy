/** The load generator's histogram quantile (server/cmd/loadgen/main.go), over the reals. */
module HistogramQuantile {
  import opened Options

  datatype Bound = Finite(x: real) | PlusInf

  datatype Bucket = Bucket(bound: Bound, count: real)

  /** One metric of a family: whether it carries the wanted label, and its histogram if it is one. */
  datatype Metric = Metric(matches: bool, histogram: Option<seq<Bucket>>)

  type Family = seq<Metric>

  type Counts = map<Bound, real>

  function At(counts: Counts, b: Bound): real {
    if b in counts then counts[b] else 0.0
  }

  predicate Before(a: Bound, b: Bound) {
    a.Finite? && (b.Finite? ==> a.x < b.x)
  }

  // ---- Collecting -------------------------------------------------------------------------------------

  /** The buckets of the metrics that match, in order. */
  function Selected(family: Family): seq<Bucket> {
    if family == [] then []
    else
      (if family[0].matches && family[0].histogram.Some? then family[0].histogram.value else [])
      + Selected(family[1..])
  }

  function Gather(buckets: seq<Bucket>, counts: Counts): Counts
    decreases |buckets|
  {
    if buckets == [] then counts
    else Gather(buckets[1..], counts[buckets[0].bound := At(counts, buckets[0].bound) + buckets[0].count])
  }

  function Largest(buckets: seq<Bucket>, last: real): real
    decreases |buckets|
  {
    if buckets == [] then last
    else
      var b := buckets[0].bound;
      Largest(buckets[1..], if b.Finite? && b.x > last then b.x else last)
  }

  method Collect(family: Family, dst: Counts, lastFinite: real) returns (counts: Counts, last: real)
    ensures counts == Gather(Selected(family), dst)
    ensures last == Largest(Selected(family), lastFinite)
  {
    counts, last := dst, lastFinite;
    for i := 0 to |family|
      invariant Gather(Selected(family[i..]), counts) == Gather(Selected(family), dst)
      invariant Largest(Selected(family[i..]), last) == Largest(Selected(family), lastFinite)
    {
      var m := family[i];
      ghost var rest, later := family[i..], Selected(family[i + 1..]);
      assert rest[0] == m && rest[1..] == family[i + 1..];
      assert [] + later == later;
      if m.matches && m.histogram.Some? {
        counts, last := CollectBuckets(m.histogram.value, counts, last, later);
      }
    }
  }

  /** The inner loop, over the buckets of one metric; `later` are the buckets of the metrics after it. */
  method CollectBuckets(buckets: seq<Bucket>, dst: Counts, lastFinite: real, ghost later: seq<Bucket>)
    returns (counts: Counts, last: real)
    ensures Gather(later, counts) == Gather(buckets + later, dst)
    ensures Largest(later, last) == Largest(buckets + later, lastFinite)
  {
    counts, last := dst, lastFinite;
    for j := 0 to |buckets|
      invariant Gather(buckets[j..] + later, counts) == Gather(buckets + later, dst)
      invariant Largest(buckets[j..] + later, last) == Largest(buckets + later, lastFinite)
    {
      var b := buckets[j];
      assert (buckets[j..] + later)[0] == b && (buckets[j..] + later)[1..] == buckets[j + 1..] + later;
      counts := counts[b.bound := At(counts, b.bound) + b.count];
      if b.bound.Finite? && b.bound.x > last {
        last := b.bound.x;
      }
    }
    assert [] + later == later;
  }

  /** The sum of the counts of a bound, whichever metrics they come from. */
  function SumAt(buckets: seq<Bucket>, b: Bound): real {
    if buckets == [] then 0.0
    else (if buckets[0].bound == b then buckets[0].count else 0.0) + SumAt(buckets[1..], b)
  }

  /** Collecting sums each bound over the metrics, adds no other bound, and finds the largest finite one. */
  lemma {:induction false} GatherSums(buckets: seq<Bucket>, counts: Counts, last: real, b: Bound)
    ensures At(Gather(buckets, counts), b) == At(counts, b) + SumAt(buckets, b)
    ensures b in Gather(buckets, counts) <==> b in counts || AmongBounds(buckets, b)
    ensures last <= Largest(buckets, last)
    ensures forall k | 0 <= k < |buckets| && buckets[k].bound.Finite? :: buckets[k].bound.x <= Largest(buckets, last)
    decreases |buckets|
  {
    if buckets != [] {
      var f := buckets[0];
      var next := if f.bound.Finite? && f.bound.x > last then f.bound.x else last;
      GatherSums(buckets[1..], counts[f.bound := At(counts, f.bound) + f.count], next, b);
      assert forall k | 0 < k < |buckets| :: buckets[k] == buckets[1..][k - 1];
      if exists k :: 0 <= k < |buckets[1..]| && buckets[1..][k].bound == b {
        var k :| 0 <= k < |buckets[1..]| && buckets[1..][k].bound == b;
        assert buckets[k + 1].bound == b;
      }
    }
  }

  /** The largest finite bound is one of them, unless none passes `last`. */
  lemma {:induction false} LargestIsBound(buckets: seq<Bucket>, last: real)
    ensures Largest(buckets, last) == last || AmongBounds(buckets, Finite(Largest(buckets, last)))
    decreases |buckets|
  {
    if buckets != [] {
      var f := buckets[0].bound;
      LargestIsBound(buckets[1..], if f.Finite? && f.x > last then f.x else last);
      assert forall k | 0 < k < |buckets| :: buckets[k] == buckets[1..][k - 1];
    }
  }

  predicate AmongBounds(buckets: seq<Bucket>, b: Bound) {
    exists k :: 0 <= k < |buckets| && buckets[k].bound == b
  }

  // ---- What the snapshots say --------------------------------------------------------------------------

  /** A metric that matches has a bucket of this bound. */
  predicate HasBucket(m: Metric, b: Bound) {
    m.matches && m.histogram.Some? && AmongBounds(m.histogram.value, b)
  }

  predicate HasBound(family: Family, b: Bound) {
    exists i :: 0 <= i < |family| && HasBucket(family[i], b)
  }

  /** The count of a bound, summed over the metrics that match. */
  function CountIn(family: Family, b: Bound): real {
    if family == [] then 0.0
    else
      (if family[0].matches && family[0].histogram.Some? then SumAt(family[0].histogram.value, b) else 0.0)
      + CountIn(family[1..], b)
  }

  /** What the count of a bound gained from the baseline, if there is one, to the final snapshot. */
  function Gained(baseline: Option<Family>, final: Family, b: Bound): real {
    CountIn(final, b) - if baseline.Some? then CountIn(baseline.value, b) else 0.0
  }

  lemma {:induction false} SumConcat(some: seq<Bucket>, more: seq<Bucket>, b: Bound)
    ensures SumAt(some + more, b) == SumAt(some, b) + SumAt(more, b)
    decreases |some|
  {
    if some == [] {
      assert some + more == more;
    } else {
      assert (some + more)[0] == some[0] && (some + more)[1..] == some[1..] + more;
      SumConcat(some[1..], more, b);
    }
  }

  lemma AmongConcat(some: seq<Bucket>, more: seq<Bucket>, b: Bound)
    ensures AmongBounds(some + more, b) <==> AmongBounds(some, b) || AmongBounds(more, b)
  {
    if AmongBounds(some, b) {
      var k :| 0 <= k < |some| && some[k].bound == b;
      assert (some + more)[k].bound == b;
    }
    if AmongBounds(more, b) {
      var k :| 0 <= k < |more| && more[k].bound == b;
      assert (some + more)[|some| + k].bound == b;
    }
  }

  lemma {:induction false} SelectedSays(family: Family, b: Bound)
    ensures SumAt(Selected(family), b) == CountIn(family, b)
    ensures AmongBounds(Selected(family), b) <==> HasBound(family, b)
  {
    if family != [] {
      var m, rest := family[0], family[1..];
      var own := if m.matches && m.histogram.Some? then m.histogram.value else [];
      SelectedSays(rest, b);
      SumConcat(own, Selected(rest), b);
      AmongConcat(own, Selected(rest), b);
      assert AmongBounds(own, b) <==> HasBucket(m, b);
      assert forall i | 0 < i < |family| :: family[i] == rest[i - 1];
      if HasBound(rest, b) {
        var i :| 0 <= i < |rest| && HasBucket(rest[i], b);
        assert HasBucket(family[i + 1], b);
      }
    }
  }

  // ---- Sorting ------------------------------------------------------------------------------------------

  ghost predicate Increasing(bounds: seq<Bound>) {
    forall i, j | 0 <= i < j < |bounds| :: Before(bounds[i], bounds[j])
  }

  ghost predicate IsLeast(b: Bound, bounds: set<Bound>) {
    b in bounds && forall c | c in bounds && c != b :: Before(b, c)
  }

  lemma {:induction false} LeastExists(bounds: set<Bound>) returns (b: Bound)
    requires bounds != {}
    ensures IsLeast(b, bounds)
    decreases |bounds|
  {
    var a :| a in bounds;
    var rest := bounds - {a};
    if rest == {} {
      b := a;
    } else {
      var least := LeastExists(rest);
      b := if Before(a, least) then a else least;
    }
    assert forall c | c in bounds :: c == a || c in rest;
  }

  /** sort.Float64s over the bounds of a map: +Inf, if there, comes last. */
  function Sorted(bounds: set<Bound>): (s: seq<Bound>)
    ensures Increasing(s)
    ensures forall b :: b in s <==> b in bounds
    decreases |bounds|
  {
    if bounds == {} then []
    else
      assert exists b :: b in bounds && forall c | c in bounds && c != b :: Before(b, c) by {
        var b := LeastExists(bounds);
        assert IsLeast(b, bounds);
      }
      var b :| b in bounds && forall c | c in bounds && c != b :: Before(b, c);
      [b] + Sorted(bounds - {b})
  }

  // ---- The estimate ---------------------------------------------------------------------------------------

  function BoundBefore(bounds: seq<Bound>, i: nat): real
    requires i <= |bounds|
  {
    if i == 0 || bounds[i - 1].PlusInf? then 0.0 else bounds[i - 1].x
  }

  function CountBefore(counts: seq<real>, i: nat): real
    requires i <= |counts|
  {
    if i == 0 then 0.0 else counts[i - 1]
  }

  /** The first bucket whose cumulative count reaches the target, from i on. */
  function Crossing(counts: seq<real>, target: real, i: nat): (k: nat)
    requires i <= |counts|
    ensures i <= k <= |counts|
    ensures k < |counts| ==> counts[k] >= target
    ensures forall j | i <= j < k :: counts[j] < target
    decreases |counts| - i
  {
    if i == |counts| || counts[i] >= target then i else Crossing(counts, target, i + 1)
  }

  /** The answer once the crossing bucket is known. */
  function Interpolated(bounds: seq<Bound>, counts: seq<real>, target: real, lastFinite: real, k: nat): real
    requires |bounds| == |counts| && k <= |bounds|
  {
    if k == |bounds| || bounds[k].PlusInf? then lastFinite
    else Between(BoundBefore(bounds, k), bounds[k].x, CountBefore(counts, k), counts[k], target)
  }

  /** The answer within the bucket from bound p to x, whose counts go from c to d. */
  function Between(p: real, x: real, c: real, d: real, target: real): real {
    if d - c <= 0.0 then x else Along(p, x, Share(target - c, d - c))
  }

  function Share(part: real, whole: real): real
    requires whole > 0.0
  {
    part / whole
  }

  /** The point a share r of the way from p to x. */
  function Along(p: real, x: real, r: real): real {
    p + r * (x - p)
  }

  function Estimate(bounds: seq<Bound>, counts: seq<real>, target: real, lastFinite: real): real
    requires |bounds| == |counts|
  {
    Interpolated(bounds, counts, target, lastFinite, Crossing(counts, target, 0))
  }

  function Deltas(bounds: seq<Bound>, final: Counts, base: Counts): (d: seq<real>)
    ensures |d| == |bounds| && forall i | 0 <= i < |d| :: d[i] == At(final, bounds[i]) - At(base, bounds[i])
  {
    if bounds == [] then [] else [At(final, bounds[0]) - At(base, bounds[0])] + Deltas(bounds[1..], final, base)
  }

  function Buckets(family: Option<Family>): seq<Bucket> {
    if family.None? then [] else Selected(family.value)
  }

  /** What the two snapshots collect to: the counts by bound, and the largest finite bound of either. */
  datatype Collected = Collected(final: Counts, base: Counts, last: real) {
    function Bounds(): seq<Bound> {
      Sorted(final.Keys)
    }

    function Cumulatives(): (d: seq<real>)
      ensures |d| == |Bounds()|
    {
      Deltas(Bounds(), final, base)
    }

    function Total(): real {
      At(final, PlusInf) - At(base, PlusInf)
    }
  }

  function CollectAll(baseline: Option<Family>, final: Family): Collected {
    Collected(
      Gather(Selected(final), map[]), Gather(Buckets(baseline), map[]),
      Largest(Buckets(baseline), Largest(Selected(final), 0.0)))
  }

  function Target(q: real, total: real): real {
    q * total
  }

  function QuantileOf(h: Collected, q: real): real {
    if h.Total() <= 0.0 then 0.0 else Estimate(h.Bounds(), h.Cumulatives(), Target(q, h.Total()), h.last)
  }

  method LabelHistogramQuantile(baseline: Option<Family>, final: Option<Family>, q: real) returns (r: real)
    ensures r == if final.None? then 0.0 else QuantileOf(CollectAll(baseline, final.value), q)
  {
    if final.None? {
      return 0.0;
    }
    var byFinal, last := Collect(final.value, map[], 0.0);
    var byBase: Counts := map[];
    if baseline.Some? {
      byBase, last := Collect(baseline.value, map[], last);
    }
    r := QuantileOfCounts(Collected(byFinal, byBase, last), q);
  }

  method QuantileOfCounts(h: Collected, q: real) returns (r: real)
    ensures r == QuantileOf(h, q)
  {
    var bounds := Sorted(h.final.Keys);
    var total := At(h.final, PlusInf) - At(h.base, PlusInf);
    if total <= 0.0 {
      return 0.0;
    }
    r := FindQuantile(bounds, h.final, h.base, Target(q, total), h.last);
  }

  method Interpolate(prevBound: real, b: real, prevCount: real, c: real, target: real) returns (r: real)
    ensures r == Between(prevBound, b, prevCount, c, target)
  {
    var span := c - prevCount;
    if span <= 0.0 {
      return b;
    }
    var ratio := (target - prevCount) / span;
    assert ratio == Share(target - prevCount, span);
    return prevBound + ratio * (b - prevBound);
  }

  /** The loop over the sorted bounds. */
  method FindQuantile(bounds: seq<Bound>, byFinal: Counts, byBase: Counts, target: real, last: real) returns (r: real)
    ensures r == Estimate(bounds, Deltas(bounds, byFinal, byBase), target, last)
  {
    var prevBound, prevCount := 0.0, 0.0;
    ghost var deltas := Deltas(bounds, byFinal, byBase);
    for i := 0 to |bounds|
      invariant prevBound == BoundBefore(bounds, i) && prevCount == CountBefore(deltas, i)
      invariant Crossing(deltas, target, 0) == Crossing(deltas, target, i)
    {
      var b := bounds[i];
      var c := At(byFinal, b) - At(byBase, b);
      assert c == deltas[i];
      if c >= target {
        if b.PlusInf? {
          return last;
        }
        r := Interpolate(prevBound, b.x, prevCount, c, target);
        return r;
      }
      prevBound := if b.Finite? then b.x else 0.0;
      prevCount := c;
    }
    return last;
  }

  // ---- Correctness --------------------------------------------------------------------------------------------

  /** Increasing non-negative bounds ending in +Inf, non-decreasing cumulative counts with a positive total,
      and a last finite bound no finite one exceeds. */
  ghost predicate WellFormed(bounds: seq<Bound>, counts: seq<real>, lastFinite: real) {
    && |bounds| == |counts| > 0 && Increasing(bounds) && bounds[|bounds| - 1].PlusInf?
    && (forall i | 0 <= i < |bounds| && bounds[i].Finite? :: 0.0 <= bounds[i].x <= lastFinite)
    && 0.0 <= lastFinite && 0.0 <= counts[0] && counts[|counts| - 1] > 0.0
    && (forall i, j | 0 <= i < j < |counts| :: counts[i] <= counts[j])
  }

  /** The piecewise-linear cumulative count at x: linear within each finite bucket, from 0 at 0. */
  function Cumulative(bounds: seq<Bound>, counts: seq<real>, x: real, i: nat): real
    requires |bounds| == |counts| && i <= |bounds|
    decreases |bounds| - i
  {
    if i == |bounds| || bounds[i].PlusInf? then CountBefore(counts, i)
    else if x > bounds[i].x then Cumulative(bounds, counts, x, i + 1)
    else CountWithin(BoundBefore(bounds, i), bounds[i].x, CountBefore(counts, i), counts[i], x)
  }

  /** The count at y in the bucket from bound p to x, whose counts go from c to d. */
  function CountWithin(p: real, x: real, c: real, d: real, y: real): real {
    if x <= p then d else Along(c, d, Share(y - p, x - p))
  }

  lemma ScaleOrder(r: real, s: real, w: real)
    requires r <= s && 0.0 <= w
    ensures r * w <= s * w
  {
    assert 0.0 <= (s - r) * w;
  }

  lemma ScaleStrict(r: real, s: real, w: real)
    requires r < s && 0.0 < w
    ensures r * w < s * w
  {
    assert 0.0 < (s - r) * w;
  }

  lemma Unscale(r: real, s: real, w: real)
    requires r * w <= s * w && 0.0 < w
    ensures r <= s
  {
    if s < r {
      ScaleStrict(s, r, w);
    }
  }

  /** The share of a part in a whole. */
  lemma ShareOf(t: real, whole: real)
    requires 0.0 <= t <= whole && 0.0 < whole
    ensures 0.0 <= Share(t, whole) <= 1.0 && (0.0 < t ==> 0.0 < Share(t, whole))
  {
    ShareScaled(t, whole);
    Unscale(0.0, Share(t, whole), whole);
    Unscale(Share(t, whole), 1.0, whole);
  }

  lemma ShareScaled(t: real, whole: real)
    requires 0.0 < whole
    ensures Share(t, whole) * whole == t
  {
  }

  lemma Shrinks(r: real, w: real)
    requires 0.0 <= r <= 1.0 && 0.0 <= w
    ensures 0.0 <= r * w <= w
    ensures 0.0 < r && 0.0 < w ==> 0.0 < r * w
  {
    ScaleOrder(0.0, r, w);
    ScaleOrder(r, 1.0, w);
  }

  lemma AlongSpan(p: real, x: real, r: real)
    requires p <= x && 0.0 <= r <= 1.0
    ensures p <= Along(p, x, r) <= x
    ensures p < x && 0.0 < r ==> p < Along(p, x, r)
  {
    var w := x - p;
    Shrinks(r, w);
    assert Along(p, x, r) == p + r * w;
  }

  lemma BetweenWithin(p: real, x: real, c: real, d: real, t: real)
    requires p <= x && c <= t <= d
    ensures p <= Between(p, x, c, d, t) <= x
    ensures p < x && c < t ==> p < Between(p, x, c, d, t)
  {
    if d - c > 0.0 {
      ShareOf(t - c, d - c);
      AlongSpan(p, x, Share(t - c, d - c));
    }
  }

  lemma SharesOrder(t: real, u: real, whole: real)
    requires t <= u && 0.0 < whole
    ensures Share(t, whole) <= Share(u, whole)
  {
    ShareScaled(t, whole);
    ShareScaled(u, whole);
    Unscale(Share(t, whole), Share(u, whole), whole);
  }

  lemma AlongOrder(p: real, x: real, r: real, s: real)
    requires p <= x && r <= s
    ensures Along(p, x, r) <= Along(p, x, s)
  {
    ScaleOrder(r, s, x - p);
  }

  lemma BetweenMonotone(p: real, x: real, c: real, d: real, t: real, u: real)
    requires p <= x && c <= t <= u <= d
    ensures Between(p, x, c, d, t) <= Between(p, x, c, d, u)
  {
    if d - c > 0.0 {
      SharesOrder(t - c, u - c, d - c);
      AlongOrder(p, x, Share(t - c, d - c), Share(u - c, d - c));
    }
  }

  /** Reading the count at the answer gives the target back. */
  lemma CountInverts(p: real, x: real, c: real, d: real, t: real)
    requires p < x && c <= t <= d
    ensures CountWithin(p, x, c, d, Between(p, x, c, d, t)) == t
  {
    if d - c > 0.0 {
      ShareAlong(p, x, Share(t - c, d - c));
      AlongShare(c, d, t);
    } else {
      AlongFlat(c, d, Share(x - p, x - p));
    }
  }

  lemma ShareAlong(p: real, x: real, r: real)
    requires p < x
    ensures Share(Along(p, x, r) - p, x - p) == r
  {
    var w := x - p;
    assert Along(p, x, r) - p == r * w;
  }

  lemma AlongShare(c: real, d: real, t: real)
    requires c < d
    ensures Along(c, d, Share(t - c, d - c)) == t
  {
    ShareScaled(t - c, d - c);
  }

  lemma AlongFlat(c: real, d: real, r: real)
    requires c == d
    ensures Along(c, d, r) == c
  {
  }

  /** The estimate lies within [0, lastFinite], and inside the bucket it crosses. */
  lemma EstimateInRange(bounds: seq<Bound>, counts: seq<real>, target: real, lastFinite: real)
    requires WellFormed(bounds, counts, lastFinite) && 0.0 <= target
    ensures var r, k := Estimate(bounds, counts, target, lastFinite), Crossing(counts, target, 0);
            && 0.0 <= r <= lastFinite
            && (k < |bounds| && bounds[k].Finite? ==> BoundBefore(bounds, k) <= r <= bounds[k].x)
  {
    var k := Crossing(counts, target, 0);
    if k < |bounds| && bounds[k].Finite? {
      InBucket(bounds, counts, target, lastFinite, k);
    }
  }

  lemma InBucket(bounds: seq<Bound>, counts: seq<real>, target: real, lastFinite: real, k: nat)
    requires WellFormed(bounds, counts, lastFinite) && 0.0 <= target
    requires k < |bounds| && bounds[k].Finite? && k == Crossing(counts, target, 0)
    ensures var p, c := BoundBefore(bounds, k), CountBefore(counts, k);
            && 0.0 <= p <= bounds[k].x && c <= target <= counts[k] && (k > 0 ==> p < bounds[k].x && c < target)
            && p <= Estimate(bounds, counts, target, lastFinite) <= bounds[k].x
  {
    var p, c := BoundBefore(bounds, k), CountBefore(counts, k);
    if k > 0 {
      assert Before(bounds[k - 1], bounds[k]);
    }
    BetweenWithin(p, bounds[k].x, c, counts[k], target);
  }

  lemma CrossingMonotone(counts: seq<real>, t: real, u: real)
    requires t <= u
    ensures Crossing(counts, t, 0) <= Crossing(counts, u, 0)
  {
  }

  lemma BoundsBefore(bounds: seq<Bound>, j: nat, k: nat)
    requires Increasing(bounds) && j < k < |bounds|
    ensures bounds[j].Finite? && bounds[j].x <= BoundBefore(bounds, k)
  {
    assert Before(bounds[j], bounds[k]);
    if j < k - 1 {
      assert Before(bounds[j], bounds[k - 1]);
    }
    assert Before(bounds[k - 1], bounds[k]);
  }

  /** A larger target never gives a smaller estimate. */
  lemma EstimateMonotone(bounds: seq<Bound>, counts: seq<real>, t: real, u: real, lastFinite: real)
    requires WellFormed(bounds, counts, lastFinite) && 0.0 <= t <= u
    ensures Estimate(bounds, counts, t, lastFinite) <= Estimate(bounds, counts, u, lastFinite)
  {
    var j, k := Crossing(counts, t, 0), Crossing(counts, u, 0);
    CrossingMonotone(counts, t, u);
    EstimateInRange(bounds, counts, t, lastFinite);
    EstimateInRange(bounds, counts, u, lastFinite);
    if k < |bounds| && bounds[k].Finite? {
      if j < k {
        BoundsBefore(bounds, j, k);
      } else {
        MonotoneInBucket(bounds, counts, t, u, lastFinite, k);
      }
    }
  }

  lemma MonotoneInBucket(bounds: seq<Bound>, counts: seq<real>, t: real, u: real, lastFinite: real, k: nat)
    requires WellFormed(bounds, counts, lastFinite) && 0.0 <= t <= u
    requires k < |bounds| && bounds[k].Finite? && k == Crossing(counts, t, 0) == Crossing(counts, u, 0)
    ensures Estimate(bounds, counts, t, lastFinite) <= Estimate(bounds, counts, u, lastFinite)
  {
    InBucket(bounds, counts, t, lastFinite, k);
    BetweenMonotone(BoundBefore(bounds, k), bounds[k].x, CountBefore(counts, k), counts[k], t, u);
  }

  lemma {:induction false} CumulativeSkips(bounds: seq<Bound>, counts: seq<real>, x: real, i: nat, k: nat)
    requires |bounds| == |counts|
    requires i <= k <= |bounds| && forall j | i <= j < k :: bounds[j].Finite? && bounds[j].x < x
    ensures Cumulative(bounds, counts, x, i) == Cumulative(bounds, counts, x, k)
    decreases k - i
  {
    if i < k {
      CumulativeSkips(bounds, counts, x, i + 1, k);
    }
  }

  /** The reference: between two bounds the cumulative count runs straight from the count of the one to the
      count of the other, and in a first bucket of some width from 0 at 0. */
  lemma CumulativeIsLinear(bounds: seq<Bound>, counts: seq<real>, lastFinite: real, k: nat, y: real)
    requires WellFormed(bounds, counts, lastFinite) && 0 < k < |bounds|
    requires bounds[k - 1].Finite? && bounds[k].Finite? && bounds[k - 1].x < y <= bounds[k].x
    ensures var (p, x, c, d) := (bounds[k - 1].x, bounds[k].x, counts[k - 1], counts[k]);
            Cumulative(bounds, counts, y, 0) == c + (y - p) / (x - p) * (d - c)
  {
    forall j | 0 <= j < k ensures bounds[j].Finite? && bounds[j].x < y {
      BoundsBefore(bounds, j, k);
    }
    CumulativeSkips(bounds, counts, y, 0, k);
    LinearWithin(bounds[k - 1].x, bounds[k].x, counts[k - 1], counts[k], y);
  }

  lemma LinearWithin(p: real, x: real, c: real, d: real, y: real)
    requires p < x
    ensures CountWithin(p, x, c, d, y) == c + (y - p) / (x - p) * (d - c)
  {
  }

  lemma FirstBucketIsLinear(bounds: seq<Bound>, counts: seq<real>, lastFinite: real, y: real)
    requires WellFormed(bounds, counts, lastFinite) && bounds[0].Finite? && y <= bounds[0].x
    ensures Cumulative(bounds, counts, y, 0)
            == if bounds[0].x == 0.0 then counts[0] else y / bounds[0].x * counts[0]
  {
    if bounds[0].x > 0.0 {
      LinearWithin(0.0, bounds[0].x, 0.0, counts[0], y);
    }
  }

  /** Within the bucket that holds x, the cumulative count is linear; r is such an x. */
  lemma CumulativeInBucket(bounds: seq<Bound>, counts: seq<real>, target: real, lastFinite: real, k: nat)
    requires WellFormed(bounds, counts, lastFinite) && 0.0 <= target
    requires k < |bounds| && bounds[k].Finite? && k == Crossing(counts, target, 0)
    requires BoundBefore(bounds, k) < bounds[k].x
    ensures var r := Estimate(bounds, counts, target, lastFinite);
            && Cumulative(bounds, counts, r, k) == target
            && (k > 0 ==> BoundBefore(bounds, k) < r)
  {
    var p, c := BoundBefore(bounds, k), CountBefore(counts, k);
    InBucket(bounds, counts, target, lastFinite, k);
    BetweenWithin(p, bounds[k].x, c, counts[k], target);
    CountInverts(p, bounds[k].x, c, counts[k], target);
  }

  /** The target falls short of the count of a first bucket that has no width. */
  predicate InZeroBucket(bounds: seq<Bound>, counts: seq<real>, target: real)
    requires |bounds| == |counts| > 0
  {
    bounds[0] == Finite(0.0) && target < counts[0]
  }

  /** Unless it lands in the +Inf bucket, the cumulative count at the estimate is the target: exactly, but
      for a target short of the count of a first bucket that has no width. */
  lemma EstimateExactly(bounds: seq<Bound>, counts: seq<real>, target: real, lastFinite: real)
    requires WellFormed(bounds, counts, lastFinite) && 0.0 <= target
    requires var k := Crossing(counts, target, 0); k < |bounds| && bounds[k].Finite?
    ensures Cumulative(bounds, counts, Estimate(bounds, counts, target, lastFinite), 0) == target
            <==> !InZeroBucket(bounds, counts, target)
  {
    var k := Crossing(counts, target, 0);
    var r := Estimate(bounds, counts, target, lastFinite);
    InBucket(bounds, counts, target, lastFinite, k);
    if BoundBefore(bounds, k) < bounds[k].x {
      CumulativeInBucket(bounds, counts, target, lastFinite, k);
    }
    if k > 0 {
      forall j | 0 <= j < k ensures bounds[j].Finite? && bounds[j].x < r {
        BoundsBefore(bounds, j, k);
      }
      CumulativeSkips(bounds, counts, r, 0, k);
      assert counts[0] < target;
    }
  }

  lemma ScaledOrder(q: real, q': real, total: real)
    requires 0.0 <= q <= q' && 0.0 < total
    ensures 0.0 <= Target(q, total) <= Target(q', total)
  {
  }

  /** The answer for no samples at all: the first bound when its bucket is empty, 0 when it is not. */
  lemma NoTarget(bounds: seq<Bound>, counts: seq<real>, lastFinite: real)
    requires WellFormed(bounds, counts, lastFinite) && bounds[0].Finite?
    ensures Estimate(bounds, counts, 0.0, lastFinite) == if counts[0] == 0.0 then bounds[0].x else 0.0
  {
    assert Crossing(counts, 0.0, 0) == 0;
    if counts[0] > 0.0 {
      ShareScaled(0.0, counts[0]);
      Unscale(Share(0.0, counts[0]), 0.0, counts[0]);
      Unscale(0.0, Share(0.0, counts[0]), counts[0]);
    }
  }

  /** Such a target: 1 of 5 samples that all lie at 0. */
  lemma ZeroBucketMisses() returns (bounds: seq<Bound>, counts: seq<real>, target: real)
    ensures WellFormed(bounds, counts, 0.0) && 0.0 < target
    ensures Crossing(counts, target, 0) == 0 && bounds[0].Finite?
    ensures Cumulative(bounds, counts, Estimate(bounds, counts, target, 0.0), 0) != target
  {
    bounds, counts, target := [Finite(0.0), PlusInf], [5.0, 5.0], 1.0;
    EstimateExactly(bounds, counts, target, 0.0);
  }

  /** What the answer r means for a target: in [0, last]; in a finite bucket within its bounds, and with
      exactly the target below it unless in a first bucket of no width; past them all, the last bound. */
  ghost predicate Answers(bounds: seq<Bound>, counts: seq<real>, target: real, last: real, r: real)
    requires |bounds| == |counts| > 0
  {
    var k := Crossing(counts, target, 0);
    && 0.0 <= r <= last
    && if k < |bounds| && bounds[k].Finite? then
         && BoundBefore(bounds, k) <= r <= bounds[k].x
         && (Cumulative(bounds, counts, r, 0) == target <==> !InZeroBucket(bounds, counts, target))
       else r == last
  }

  lemma EstimateAnswers(bounds: seq<Bound>, counts: seq<real>, t: real, last: real)
    requires WellFormed(bounds, counts, last) && 0.0 <= t
    ensures Answers(bounds, counts, t, last, Estimate(bounds, counts, t, last))
  {
    EstimateInRange(bounds, counts, t, last);
    var k := Crossing(counts, t, 0);
    if k < |bounds| && bounds[k].Finite? {
      EstimateExactly(bounds, counts, t, last);
    }
  }

  /** What the collected counts must be like: a +Inf bucket, no negative bound, and cumulative deltas that
      start at 0 or more, do not decrease and have a positive total. */
  ghost predicate Usable(h: Collected) {
    && PlusInf in h.final && (forall b | b in h.final && b.Finite? :: 0.0 <= b.x)
    && h.Total() > 0.0 && UsableCounts(h.Cumulatives())
  }

  ghost predicate UsableCounts(counts: seq<real>) {
    counts != [] && 0.0 <= counts[0] && forall i, j | 0 <= i < j < |counts| :: counts[i] <= counts[j]
  }

  /** No finite bound of the final snapshot exceeds lastFinite. */
  lemma LastIsLargest(baseline: Option<Family>, final: Family, b: Bound)
    requires b in CollectAll(baseline, final).final && b.Finite?
    ensures b.x <= CollectAll(baseline, final).last && 0.0 <= CollectAll(baseline, final).last
  {
    GatherSums(Selected(final), map[], 0.0, b);
    GatherSums(Buckets(baseline), map[], Largest(Selected(final), 0.0), b);
  }

  lemma LastNotNegative(baseline: Option<Family>, final: Family)
    ensures 0.0 <= CollectAll(baseline, final).last
  {
    GatherSums(Selected(final), map[], 0.0, PlusInf);
    GatherSums(Buckets(baseline), map[], Largest(Selected(final), 0.0), PlusInf);
  }

  /** +Inf sorts last. */
  lemma InfinityLast(bounds: seq<Bound>)
    requires Increasing(bounds) && PlusInf in bounds
    ensures bounds[|bounds| - 1] == PlusInf
  {
    var k :| 0 <= k < |bounds| && bounds[k] == PlusInf;
    assert k < |bounds| - 1 ==> Before(bounds[k], bounds[|bounds| - 1]);
  }

  lemma UsableIsWellFormed(baseline: Option<Family>, final: Family)
    requires Usable(CollectAll(baseline, final))
    ensures var h := CollectAll(baseline, final); WellFormed(h.Bounds(), h.Cumulatives(), h.last)
  {
    var h := CollectAll(baseline, final);
    LastNotNegative(baseline, final);
    forall b | b in h.final && b.Finite? ensures b.x <= h.last {
      LastIsLargest(baseline, final, b);
    }
    SortedIsWellFormed(h, h.Bounds(), h.Cumulatives());
  }

  lemma SortedIsWellFormed(h: Collected, bounds: seq<Bound>, counts: seq<real>)
    requires |bounds| == |counts| && Increasing(bounds) && forall b :: b in bounds <==> b in h.final.Keys
    requires forall i | 0 <= i < |bounds| :: counts[i] == At(h.final, bounds[i]) - At(h.base, bounds[i])
    requires PlusInf in h.final && forall b | b in h.final && b.Finite? :: 0.0 <= b.x <= h.last
    requires UsableCounts(counts) && h.Total() > 0.0 && 0.0 <= h.last
    ensures WellFormed(bounds, counts, h.last)
  {
    InfinityLast(bounds);
    assert counts[|bounds| - 1] == h.Total();
    assert forall i | 0 <= i < |bounds| :: bounds[i] in bounds;
  }

  /** These are the bounds of the final snapshot in order, what each count gained, and the largest finite
      bound of either snapshot (0 if there is none above it). */
  ghost predicate ReadOff(
    baseline: Option<Family>, final: Family, bounds: seq<Bound>, counts: seq<real>, last: real)
  {
    && |bounds| == |counts| && Increasing(bounds)
    && (forall b :: b in bounds <==> HasBound(final, b))
    && (forall i | 0 <= i < |bounds| :: counts[i] == Gained(baseline, final, bounds[i]))
    && 0.0 <= last
    && (forall b | InEither(baseline, final, b) && b.Finite? :: b.x <= last)
    && (last == 0.0 || InEither(baseline, final, Finite(last)))
  }

  predicate InEither(baseline: Option<Family>, final: Family, b: Bound) {
    HasBound(final, b) || (baseline.Some? && HasBound(baseline.value, b))
  }

  lemma CountsSay(baseline: Option<Family>, final: Family, b: Bound)
    ensures var h := CollectAll(baseline, final);
            && (b in h.final <==> HasBound(final, b))
            && At(h.final, b) - At(h.base, b) == Gained(baseline, final, b)
  {
    GatherSums(Selected(final), map[], 0.0, b);
    GatherSums(Buckets(baseline), map[], 0.0, b);
    SelectedSays(final, b);
    if baseline.Some? {
      SelectedSays(baseline.value, b);
    }
  }

  lemma BoundSays(baseline: Option<Family>, final: Family, b: Bound)
    ensures InEither(baseline, final, b) <==> AmongBounds(Selected(final), b) || AmongBounds(Buckets(baseline), b)
  {
    SelectedSays(final, b);
    if baseline.Some? {
      SelectedSays(baseline.value, b);
    }
  }

  lemma LastSays(baseline: Option<Family>, final: Family)
    ensures var last := CollectAll(baseline, final).last;
            && 0.0 <= last
            && (forall b | InEither(baseline, final, b) && b.Finite? :: b.x <= last)
            && (last == 0.0 || InEither(baseline, final, Finite(last)))
  {
    var one, other := Selected(final), Buckets(baseline);
    var middle := Largest(one, 0.0);
    var last := Largest(other, middle);
    LastNotNegative(baseline, final);
    forall b | InEither(baseline, final, b) && b.Finite? ensures b.x <= last {
      BoundSays(baseline, final, b);
      GatherSums(one, map[], 0.0, b);
      GatherSums(other, map[], middle, b);
    }
    LargestIsBound(one, 0.0);
    LargestIsBound(other, middle);
    BoundSays(baseline, final, Finite(last));
  }

  lemma CollectedReadOff(baseline: Option<Family>, final: Family)
    ensures var h := CollectAll(baseline, final); ReadOff(baseline, final, h.Bounds(), h.Cumulatives(), h.last)
  {
    var h := CollectAll(baseline, final);
    LastSays(baseline, final);
    forall b: Bound
      ensures b in h.final <==> HasBound(final, b)
      ensures At(h.final, b) - At(h.base, b) == Gained(baseline, final, b)
    {
      CountsSay(baseline, final, b);
    }
    SortedReadOff(baseline, final, h, h.Bounds(), h.Cumulatives());
  }

  lemma SortedReadOff(
    baseline: Option<Family>, final: Family, h: Collected, bounds: seq<Bound>, counts: seq<real>)
    requires |bounds| == |counts| && Increasing(bounds) && forall b :: b in bounds <==> b in h.final.Keys
    requires forall i | 0 <= i < |bounds| :: counts[i] == At(h.final, bounds[i]) - At(h.base, bounds[i])
    requires forall b :: b in h.final <==> HasBound(final, b)
    requires forall b :: At(h.final, b) - At(h.base, b) == Gained(baseline, final, b)
    requires 0.0 <= h.last && forall b | InEither(baseline, final, b) && b.Finite? :: b.x <= h.last
    requires h.last == 0.0 || InEither(baseline, final, Finite(h.last))
    ensures ReadOff(baseline, final, bounds, counts, h.last)
  {
  }

  /** Quantile correctness: for usable snapshots the result lies in [0, lastFinite] and in the bucket it
      crosses, and has exactly q times what the +Inf count gained below it by linear interpolation if and
      only if that target does not fall short of the count of a first bucket of no width. CollectedReadOff says
      what the bounds, counts and lastFinite are. */
  lemma QuantileCorrect(baseline: Option<Family>, final: Family, q: real, target: real)
    requires Usable(CollectAll(baseline, final)) && 0.0 <= q
    requires target == q * Gained(baseline, final, PlusInf)
    ensures var h := CollectAll(baseline, final);
            Answers(h.Bounds(), h.Cumulatives(), target, h.last, QuantileOf(h, q))
  {
    UsableIsWellFormed(baseline, final);
    CountsSay(baseline, final, PlusInf);
    CollectedAnswers(CollectAll(baseline, final), Gained(baseline, final, PlusInf), q, target);
  }

  lemma CollectedAnswers(h: Collected, gained: real, q: real, target: real)
    requires WellFormed(h.Bounds(), h.Cumulatives(), h.last) && h.Total() == gained > 0.0 && 0.0 <= q
    requires target == q * gained
    ensures Answers(h.Bounds(), h.Cumulatives(), target, h.last, QuantileOf(h, q))
  {
    TargetAnswers(h.Bounds(), h.Cumulatives(), h.last, gained, q, q);
  }

  /** And it never falls when q grows. */
  lemma QuantileMonotone(baseline: Option<Family>, final: Family, q: real, q': real)
    requires Usable(CollectAll(baseline, final)) && 0.0 <= q <= q'
    ensures QuantileOf(CollectAll(baseline, final), q) <= QuantileOf(CollectAll(baseline, final), q')
  {
    UsableIsWellFormed(baseline, final);
    CollectedMonotone(CollectAll(baseline, final), q, q');
  }

  lemma CollectedMonotone(h: Collected, q: real, q': real)
    requires WellFormed(h.Bounds(), h.Cumulatives(), h.last) && h.Total() > 0.0 && 0.0 <= q <= q'
    ensures QuantileOf(h, q) <= QuantileOf(h, q')
  {
    TargetAnswers(h.Bounds(), h.Cumulatives(), h.last, h.Total(), q, q');
  }

  lemma TargetAnswers(bounds: seq<Bound>, counts: seq<real>, last: real, gained: real, q: real, q': real)
    requires WellFormed(bounds, counts, last) && gained > 0.0 && 0.0 <= q <= q'
    ensures var r := Estimate(bounds, counts, Target(q, gained), last);
            && Answers(bounds, counts, q * gained, last, r)
            && r <= Estimate(bounds, counts, Target(q', gained), last)
  {
    ScaledOrder(q, q', gained);
    EstimateAnswers(bounds, counts, Target(q, gained), last);
    EstimateMonotone(bounds, counts, Target(q, gained), Target(q', gained), last);
  }

  /** When the +Inf count gained nothing the answer is 0. */
  lemma NothingGained(baseline: Option<Family>, final: Family, q: real)
    requires Gained(baseline, final, PlusInf) <= 0.0
    ensures QuantileOf(CollectAll(baseline, final), q) == 0.0
  {
    CountsSay(baseline, final, PlusInf);
  }
}
