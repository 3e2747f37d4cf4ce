/**
 The admission arithmetic of the queues: the thresholds of internal/queue/async_publisher.go
 and the per-source gate of internal/queue/bulkhead.go.  Ratios are exact rationals.
 */
module Admission {

  datatype Backpressure = Backpressure(enabled: bool, softLimitRatio: real, hardLimitRatio: real,
                                       failureRatioThreshold: real, failureWindow: int, minSamples: int)

  datatype Options = Options(backpressure: Backpressure, workerCount: int)

  datatype Snapshot = Snapshot(depth: nat, capacity: nat, usageRatio: real, failureRatio: real, recentSamples: nat)

  datatype Verdict = Admit | Full | Throttled

  function ClampRatio(value: real): real {
    if value < 0.0 then 0.0 else if value > 1.0 then 1.0 else value
  }

  function UsageRatio(depth: nat, capacity: nat): real {
    if capacity > 0 then ClampRatio(depth as real / capacity as real) else 0.0
  }

  /** The snapshot of a channel of the given depth and capacity. */
  function TakeSnapshot(depth: nat, capacity: nat, failureRatio: real, recentSamples: nat): Snapshot {
    Snapshot(depth, capacity, UsageRatio(depth, capacity), failureRatio, recentSamples)
  }

  function WithDefaults(o: Options): Options {
    var workers := if o.workerCount <= 0 then 1 else o.workerCount;
    var b := o.backpressure;
    var soft := if b.softLimitRatio <= 0.0 then 0.70 else b.softLimitRatio;
    var hard := if b.hardLimitRatio <= 0.0 then 0.90 else b.hardLimitRatio;
    var hard' := if hard <= soft then (if soft + 0.10 < 1.0 then soft + 0.10 else 1.0) else hard;
    var threshold := if b.failureRatioThreshold <= 0.0 then 0.15 else b.failureRatioThreshold;
    var window := if b.failureWindow <= 0 then 100 else b.failureWindow;
    var samples := if b.minSamples <= 0 then 20 else b.minSamples;
    Options(Backpressure(b.enabled, soft, hard', threshold, window, if samples > window then window else samples), workers)
  }

  function NormalizedPressure(value: real, low: real, high: real): real {
    if high <= low then (if value >= high then 1.0 else 0.0)
    else ClampRatio((value - low) / (high - low))
  }

  predicate IsHardLimited(bp: Backpressure, s: Snapshot) {
    bp.enabled && s.usageRatio >= bp.hardLimitRatio
  }

  predicate ShouldThrottle(bp: Backpressure, s: Snapshot) {
    && bp.enabled && s.capacity != 0
    && s.usageRatio > bp.softLimitRatio
    && s.recentSamples >= bp.minSamples && s.failureRatio >= bp.failureRatioThreshold
    && NormalizedPressure(s.usageRatio, bp.softLimitRatio, bp.hardLimitRatio)
       + NormalizedPressure(s.failureRatio, bp.failureRatioThreshold, 1.0) >= 1.0
  }

  /** The decision of AsyncPublisher.Publish on its snapshot. */
  function Decide(bp: Backpressure, s: Snapshot): Verdict {
    if IsHardLimited(bp, s) then Full else if ShouldThrottle(bp, s) then Throttled else Admit
  }

  function Ceil(x: real): int {
    -((-x).Floor)
  }

  /** The depth at which the bulkhead's gate closes. */
  function LimitFromRatio(capacity: int, ratio: real): int {
    if capacity <= 0 || ratio <= 0.0 then 1
    else
      var limit := Ceil(capacity as real * ratio);
      if limit < 1 then 1 else if limit > capacity then capacity else limit
  }

  /** What the bulkhead tells the caller before the inner queue is asked. */
  predicate BulkheadRejects(bp: Backpressure, capacity: int, depth: nat) {
    bp.enabled && depth >= LimitFromRatio(capacity, bp.hardLimitRatio)
  }

  // ------------------------------------------------------------------
  // Defaults

  /** Normalising twice is normalising once, so the bulkhead and its queues see the same limits. */
  lemma WithDefaultsIdempotent(o: Options)
    ensures WithDefaults(WithDefaults(o)) == WithDefaults(o)
  {
  }

  /** What the normalised options guarantee to everything below. */
  lemma DefaultsAreSane(o: Options)
    ensures var n := WithDefaults(o); var bp := n.backpressure;
            && n.workerCount >= 1
            && bp.softLimitRatio > 0.0 && bp.hardLimitRatio > 0.0 && bp.failureRatioThreshold > 0.0
            && 1 <= bp.minSamples <= bp.failureWindow
            && (bp.softLimitRatio < 1.0 ==> bp.softLimitRatio < bp.hardLimitRatio)
  {
  }

  /** Options are left alone exactly if every field is in its range and the limits are in order. */
  lemma WithDefaultsKeepsIff(o: Options)
    ensures WithDefaults(o) == o <==>
            var b := o.backpressure;
            && o.workerCount > 0
            && b.softLimitRatio > 0.0 && b.hardLimitRatio > 0.0
            && (b.softLimitRatio < b.hardLimitRatio || (b.hardLimitRatio == 1.0 <= b.softLimitRatio))
            && b.failureRatioThreshold > 0.0
            && 0 < b.minSamples <= b.failureWindow
  {
  }

  /** Each field is normalised by itself, but for the order of the limits and the samples within the window. */
  lemma DefaultsOfBlank(o: Options)
    ensures var b, n := o.backpressure, WithDefaults(o).backpressure;
            && n.enabled == b.enabled
            && n.softLimitRatio == (if b.softLimitRatio <= 0.0 then 0.7 else b.softLimitRatio)
            && (b.hardLimitRatio <= 0.0 && n.softLimitRatio < 0.9 ==> n.hardLimitRatio == 0.9)
            && (b.hardLimitRatio > n.softLimitRatio ==> n.hardLimitRatio == b.hardLimitRatio)
            && (0.0 < b.hardLimitRatio <= n.softLimitRatio <= 0.9 ==> n.hardLimitRatio == n.softLimitRatio + 0.1)
            && (b.failureRatioThreshold <= 0.0 ==> n.failureRatioThreshold == 0.15)
            && (b.failureWindow <= 0 ==> n.failureWindow == 100)
            && (b.minSamples <= 0 ==> n.minSamples == (if n.failureWindow < 20 then n.failureWindow else 20))
            && (b.minSamples > n.failureWindow ==> n.minSamples == n.failureWindow)
  {
  }

  // ------------------------------------------------------------------
  // Upward closure

  lemma DivMonotone(a: real, b: real, d: real)
    requires a <= b && d > 0.0
    ensures a / d <= b / d
  {
    var q, r := a / d, b / d;
    assert q * d == a && r * d == b;
    assert r < q ==> r * d < q * d;
  }

  lemma PressureMonotone(a: real, b: real, low: real, high: real)
    requires a <= b
    ensures NormalizedPressure(a, low, high) <= NormalizedPressure(b, low, high)
  {
    if high > low {
      DivMonotone(a - low, b - low, high - low);
    }
  }

  lemma UsageMonotone(a: nat, b: nat, capacity: nat)
    requires a <= b
    ensures UsageRatio(a, capacity) <= UsageRatio(b, capacity)
  {
    if capacity > 0 {
      DivMonotone(a as real, b as real, capacity as real);
    }
  }

  /** Once rejected, a queue that is fuller and has failed more often is rejected too. */
  lemma RejectionIsUpwardClosed(bp: Backpressure, capacity: nat, depth: nat, depth': nat,
                                failureRatio: real, failureRatio': real, samples: nat, samples': nat)
    requires depth <= depth' && failureRatio <= failureRatio' && samples <= samples'
    requires Decide(bp, TakeSnapshot(depth, capacity, failureRatio, samples)) != Admit
    ensures Decide(bp, TakeSnapshot(depth', capacity, failureRatio', samples')) != Admit
  {
    var s, s' := TakeSnapshot(depth, capacity, failureRatio, samples), TakeSnapshot(depth', capacity, failureRatio', samples');
    UsageMonotone(depth, depth', capacity);
    PressureMonotone(s.usageRatio, s'.usageRatio, bp.softLimitRatio, bp.hardLimitRatio);
    PressureMonotone(failureRatio, failureRatio', bp.failureRatioThreshold, 1.0);
  }

  // ------------------------------------------------------------------
  // When a queue throttles, in whole numbers of events

  lemma Positive(a: real, b: real)
    requires a > 0.0 && b > 0.0
    ensures a * b > 0.0
  {
  }

  lemma Scaling(x: real, y: real, k: real)
    requires k > 0.0
    ensures x >= y <==> x * k >= y * k
  {
    if x >= y {
      assert (x - y) * k >= 0.0;
    } else {
      assert (y - x) * k > 0.0;
    }
  }

  lemma Shares(p: real, d: real, q: real, e: real)
    ensures (p * d) * e + (q * e) * d == (p + q) * (d * e)
  {
  }

  /** Two shares make up a whole. */
  lemma SharesAddUp(x: real, d: real, y: real, e: real)
    requires d > 0.0 && e > 0.0
    ensures x / d + y / e >= 1.0 <==> x * e + y * d >= d * e
  {
    var p, q := x / d, y / e;
    assert p * d == x && q * e == y;
    Shares(p, d, q, e);
    Positive(d, e);
    Scaling(p + q, 1.0, d * e);
  }

  lemma Spread(u: real, soft: real, c: real, k: real, n: real)
    ensures ((u - soft) * k) * (c * n) == (u * c - soft * c) * k * n
  {
    calc {
      ((u - soft) * k) * (c * n);
      ((u - soft) * c) * (k * n);
      (u * c - soft * c) * (k * n);
      (u * c - soft * c) * k * n;
    }
  }

  /** The pressures of the two budgets, over common denominators. */
  function PressureSum(bp: Backpressure, depth: real, capacity: real, failures: real, samples: real): real {
    (depth - bp.softLimitRatio * capacity) * (1.0 - bp.failureRatioThreshold) * samples
    + (failures - bp.failureRatioThreshold * samples) * (bp.hardLimitRatio - bp.softLimitRatio) * capacity
  }

  function FullPressure(bp: Backpressure, capacity: real, samples: real): real {
    (bp.hardLimitRatio - bp.softLimitRatio) * (1.0 - bp.failureRatioThreshold) * (capacity * samples)
  }

  lemma PressuresScale(bp: Backpressure, u: real, c: real, r: real, n: real)
    requires c > 0.0 && n > 0.0
    ensures var k, h := 1.0 - bp.failureRatioThreshold, bp.hardLimitRatio - bp.softLimitRatio;
            (u - bp.softLimitRatio) * k + (r - bp.failureRatioThreshold) * h >= h * k <==>
            PressureSum(bp, u * c, c, r * n, n) >= FullPressure(bp, c, n)
  {
    var k, h := 1.0 - bp.failureRatioThreshold, bp.hardLimitRatio - bp.softLimitRatio;
    var x, y := (u - bp.softLimitRatio) * k, (r - bp.failureRatioThreshold) * h;
    Spread(u, bp.softLimitRatio, c, k, n);
    Spread(r, bp.failureRatioThreshold, n, h, c);
    Positive(c, n);
    Scaling(x + y, h * k, c * n);
    Sum(x, y, c, n);
  }

  lemma Sum(x: real, y: real, c: real, n: real)
    ensures (x + y) * (c * n) == x * (c * n) + y * (n * c)
  {
  }

  /** At least this share of the whole. */
  predicate Reaches(part: real, ratio: real, whole: real) {
    part >= ratio * whole
  }

  predicate Exceeds(part: real, ratio: real, whole: real) {
    part > ratio * whole
  }

  lemma ShareOf(part: real, whole: real, ratio: real)
    requires whole > 0.0
    ensures part / whole >= ratio <==> Reaches(part, ratio, whole)
    ensures part / whole > ratio <==> Exceeds(part, ratio, whole)
    ensures (part / whole) * whole == part
  {
    var q := part / whole;
    assert q * whole == part;
    Scaling(q, ratio, whole);
    Scaling(ratio, q, whole);
  }

  /** What the thresholds must be for throttling to be possible. */
  predicate Throttling(bp: Backpressure) {
    0.0 < bp.softLimitRatio < bp.hardLimitRatio && 0.0 < bp.failureRatioThreshold < 1.0
  }

  lemma PressureAbove(value: real, low: real, high: real)
    requires low <= value <= high && low < high
    ensures NormalizedPressure(value, low, high) == (value - low) / (high - low)
  {
    var width := high - low;
    assert width / width == 1.0 && 0.0 / width == 0.0;
    DivMonotone(value - low, width, width);
    DivMonotone(0.0, value - low, width);
  }

  /** Throttling without quotients of pressures. */
  lemma ThrottledByRatios(bp: Backpressure, s: Snapshot)
    requires bp.enabled && Throttling(bp) && s.capacity != 0
    requires s.usageRatio < bp.hardLimitRatio && s.failureRatio <= 1.0
    ensures var u, r, k, h := s.usageRatio, s.failureRatio, 1.0 - bp.failureRatioThreshold, bp.hardLimitRatio - bp.softLimitRatio;
            ShouldThrottle(bp, s) <==>
            && u > bp.softLimitRatio && s.recentSamples >= bp.minSamples && r >= bp.failureRatioThreshold
            && (u - bp.softLimitRatio) * k + (r - bp.failureRatioThreshold) * h >= h * k
  {
    var u, r := s.usageRatio, s.failureRatio;
    if u > bp.softLimitRatio && r >= bp.failureRatioThreshold {
      PressureAbove(u, bp.softLimitRatio, bp.hardLimitRatio);
      PressureAbove(r, bp.failureRatioThreshold, 1.0);
      SharesAddUp(u - bp.softLimitRatio, bp.hardLimitRatio - bp.softLimitRatio,
                  r - bp.failureRatioThreshold, 1.0 - bp.failureRatioThreshold);
      hide NormalizedPressure;
    }
  }

  lemma RatioAtMostOne(part: nat, whole: nat)
    requires part <= whole && 0 < whole
    ensures part as real / whole as real <= 1.0
  {
    assert whole as real / whole as real == 1.0;
    DivMonotone(part as real, whole as real, whole as real);
  }

  /** The counts at which a queue below its hard limit throttles. */
  predicate ThrottledCounts(bp: Backpressure, depth: nat, capacity: nat, failures: nat, samples: nat) {
    && Exceeds(depth as real, bp.softLimitRatio, capacity as real)
    && samples >= bp.minSamples
    && Reaches(failures as real, bp.failureRatioThreshold, samples as real)
    && PressureSum(bp, depth as real, capacity as real, failures as real, samples as real)
         >= FullPressure(bp, capacity as real, samples as real)
  }

  lemma PressuresByCounts(bp: Backpressure, depth: real, capacity: real, failures: real, samples: real)
    requires capacity > 0.0 && samples > 0.0
    ensures var k, h := 1.0 - bp.failureRatioThreshold, bp.hardLimitRatio - bp.softLimitRatio;
            (depth / capacity - bp.softLimitRatio) * k + (failures / samples - bp.failureRatioThreshold) * h >= h * k <==>
            PressureSum(bp, depth, capacity, failures, samples) >= FullPressure(bp, capacity, samples)
  {
    ShareOf(depth, capacity, 0.0);
    ShareOf(failures, samples, 0.0);
    hide PressureSum, FullPressure, Reaches, Exceeds;
    PressuresScale(bp, depth / capacity, capacity, failures / samples, samples);
  }

  lemma ThrottledByCounts(bp: Backpressure, depth: nat, capacity: nat, failures: nat, samples: nat)
    requires bp.enabled && Throttling(bp) && 0 < capacity && failures <= samples && 0 < samples
    requires !Reaches(depth as real, bp.hardLimitRatio, capacity as real) && depth <= capacity
    ensures ShouldThrottle(bp, TakeSnapshot(depth, capacity, failures as real / samples as real, samples)) <==>
            ThrottledCounts(bp, depth, capacity, failures, samples)
  {
    hide UsageRatio, PressureSum, FullPressure, ShouldThrottle, Reaches, Exceeds;
    var c, n := capacity as real, samples as real;
    var s := TakeSnapshot(depth, capacity, failures as real / n, samples);
    UsageIsShare(depth, capacity);
    ShareOf(depth as real, c, bp.softLimitRatio);
    ShareOf(depth as real, c, bp.hardLimitRatio);
    ShareOf(failures as real, n, bp.failureRatioThreshold);
    RatioAtMostOne(failures, samples);
    ThrottledByRatios(bp, s);
    PressuresByCounts(bp, depth as real, c, failures as real, n);
  }

  // ------------------------------------------------------------------
  // The two gates

  lemma CeilBound(x: real, n: int)
    ensures n >= Ceil(x) <==> n as real >= x
  {
  }

  lemma RatioReached(depth: nat, capacity: nat, ratio: real)
    requires capacity > 0
    ensures depth as real / capacity as real >= ratio <==> depth as real >= capacity as real * ratio
  {
    var q := depth as real / capacity as real;
    assert q * capacity as real == depth as real;
    if q >= ratio {
      assert (q - ratio) * capacity as real >= 0.0;
    } else {
      assert (ratio - q) * capacity as real > 0.0;
    }
  }

  /** Rounding the ratio up to a depth loses nothing: both gates close at the same depth. */
  lemma GatesAgreeAtDepth(bp: Backpressure, capacity: nat, depth: nat, failureRatio: real, samples: nat)
    requires capacity > 0 && depth <= capacity && 0.0 < bp.hardLimitRatio <= 1.0
    ensures BulkheadRejects(bp, capacity, depth) <==>
            IsHardLimited(bp, TakeSnapshot(depth, capacity, failureRatio, samples))
  {
    UsageIsShare(depth, capacity);
    LimitIsCeil(capacity, bp.hardLimitRatio);
    CeilBound(capacity as real * bp.hardLimitRatio, depth);
    RatioReached(depth, capacity, bp.hardLimitRatio);
    hide UsageRatio, LimitFromRatio, Ceil;
  }

  lemma UsageIsShare(depth: nat, capacity: nat)
    requires capacity > 0 && depth <= capacity
    ensures UsageRatio(depth, capacity) == depth as real / capacity as real
  {
    DivMonotone(depth as real, capacity as real, capacity as real);
    DivMonotone(0.0, depth as real, capacity as real);
  }

  lemma Scaled(c: real, r: real)
    requires c > 0.0 && 0.0 < r <= 1.0
    ensures 0.0 < c * r <= c
  {
  }

  lemma LimitIsCeil(capacity: nat, ratio: real)
    requires capacity > 0 && 0.0 < ratio <= 1.0
    ensures LimitFromRatio(capacity, ratio) == Ceil(capacity as real * ratio)
  {
    Scaled(capacity as real, ratio);
    CeilWithin(capacity as real * ratio, capacity);
    hide Ceil;
  }

  lemma CeilWithin(x: real, n: nat)
    requires 0.0 < x <= n as real
    ensures 1 <= Ceil(x) <= n
  {
    CeilBound(x, 0);
    CeilBound(x, n);
  }

  ghost predicate GatesAgree(bp: Backpressure, capacity: nat) {
    forall depth: nat, failureRatio, samples | depth <= capacity ::
      BulkheadRejects(bp, capacity, depth) <==>
      IsHardLimited(bp, TakeSnapshot(depth, capacity, failureRatio, samples))
  }

  /** On normalised options the gates agree at every depth exactly when the hard ratio is at most one. */
  lemma GatesAgreeIff(o: Options, capacity: nat)
    requires capacity > 0 && o.backpressure.enabled
    ensures var bp := WithDefaults(o).backpressure; GatesAgree(bp, capacity) <==> bp.hardLimitRatio <= 1.0
  {
    var bp := WithDefaults(o).backpressure;
    DefaultsAreSane(o);
    if bp.hardLimitRatio <= 1.0 {
      forall depth: nat, failureRatio, samples | depth <= capacity
        ensures BulkheadRejects(bp, capacity, depth) <==>
                IsHardLimited(bp, TakeSnapshot(depth, capacity, failureRatio, samples))
      {
        GatesAgreeAtDepth(bp, capacity, depth, failureRatio, samples);
      }
    } else {
      assert BulkheadRejects(bp, capacity, capacity);
      assert !IsHardLimited(bp, TakeSnapshot(capacity, capacity, 0.0, 0));
    }
  }

  /** The gate that the queue runs on is a depth: the least one that is rejected. */
  lemma HardLimitIsADepth(bp: Backpressure, capacity: nat, depth: nat, failureRatio: real, samples: nat)
    requires bp.enabled && capacity > 0 && depth <= capacity && 0.0 < bp.hardLimitRatio <= 1.0
    ensures IsHardLimited(bp, TakeSnapshot(depth, capacity, failureRatio, samples)) <==>
            depth >= LimitFromRatio(capacity, bp.hardLimitRatio)
    ensures 1 <= LimitFromRatio(capacity, bp.hardLimitRatio) <= capacity
  {
    GatesAgreeAtDepth(bp, capacity, depth, failureRatio, samples);
  }
}
