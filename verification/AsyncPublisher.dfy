/**
 One asynchronous publisher at a time of no contention (internal/queue/async_publisher.go):
 every call runs to its end before the next starts.  AsyncQueue has the interleavings;
 here the channel, the options and the failure window are put together.
 */
module AsyncPublisher {
  import opened Admission
  import opened PublishWindow
  import opened Sequences
  import Q = AsyncQueue

  datatype Outcome = Queued | QueueClosed | QueueFull | QueueThrottled

  /** The answer of Publish, from what the queue holds and every outcome it ever recorded. */
  function Answer(o: Options, capacity: nat, closed: bool, depth: nat, outcomes: seq<bool>): Outcome {
    var window := Suffix(outcomes, if o.backpressure.failureWindow < 1 then 1 else o.backpressure.failureWindow);
    if closed then QueueClosed
    else
      match Decide(o.backpressure, TakeSnapshot(depth, capacity, FailureRatio(window), |window|))
      case Full => QueueFull
      case Throttled => QueueThrottled
      case Admit => if depth < capacity then Queued else QueueFull
  }

  /** The hard limit as a depth, where there is one. */
  function DepthLimit(o: Options, capacity: nat): nat {
    var bp := o.backpressure;
    if bp.enabled && capacity > 0 && 0.0 < bp.hardLimitRatio <= 1.0 then
      var limit := LimitFromRatio(capacity, bp.hardLimitRatio);
      if 0 <= limit <= capacity then limit else capacity
    else capacity
  }

  class Publisher {
    const options: Options
    const capacity: nat
    const publishStats: Window
    var closed: bool
    var ch: seq<nat>
    /** Calls of the inner publisher and of the dead-letter hook. */
    var calls: seq<nat>
    var deadLetters: seq<nat>
    /** Every outcome recorded so far. */
    ghost var outcomes: seq<bool>

    ghost predicate Valid()
      reads this, publishStats, publishStats.results
    {
      && WithDefaults(options) == options
      && publishStats.Valid()
      && publishStats.results.Length == options.backpressure.failureWindow
      && publishStats.Contents() == Suffix(outcomes, publishStats.results.Length)
      && publishStats.count == |publishStats.Contents()|
      && |ch| <= DepthLimit(options, capacity)
    }

    constructor (buffer: nat, o: Options)
      ensures Valid() && fresh(publishStats) && fresh(publishStats.results)
      ensures options == WithDefaults(o) && capacity == buffer
      ensures !closed && ch == [] && calls == [] && deadLetters == [] && outcomes == []
    {
      WithDefaultsIdempotent(o);
      DefaultsAreSane(o);
      options, capacity := WithDefaults(o), buffer;
      publishStats := new Window(WithDefaults(o).backpressure.failureWindow);
      closed, ch, calls, deadLetters, outcomes := false, [], [], [], [];
    }

    method TakeStats() returns (s: Snapshot)
      requires Valid()
      ensures var window := Suffix(outcomes, options.backpressure.failureWindow);
              s == TakeSnapshot(|ch|, capacity, FailureRatio(window), |window|)
    {
      var ratio := publishStats.Ratio();
      s := TakeSnapshot(|ch|, capacity, ratio, publishStats.count);
    }

    method Publish(e: nat) returns (r: Outcome)
      requires Valid()
      modifies this`ch
      ensures Valid()
      ensures r == Answer(options, capacity, closed, |old(ch)|, outcomes)
      ensures ch == if r.Queued? then old(ch) + [e] else old(ch)
    {
      if closed {
        return QueueClosed;
      }
      var snapshot := TakeStats();
      if IsHardLimited(options.backpressure, snapshot) {
        return QueueFull;
      }
      if ShouldThrottle(options.backpressure, snapshot) {
        return QueueThrottled;
      }
      if |ch| == capacity {
        return QueueFull;
      }
      BelowTheLimit(options, capacity, |ch|, snapshot.failureRatio, snapshot.recentSamples);
      ch := ch + [e];
      return Queued;
    }

    method Close()
      requires Valid()
      modifies this`closed
      ensures Valid() && closed
    {
      closed := true;
    }

    /** A worker takes the oldest event; `ok` is the answer of the inner publisher, a panic counting as failure. */
    method ProcessQueuedEvent(ok: bool)
      requires Valid() && ch != []
      modifies this`ch, this`calls, this`deadLetters, this`outcomes, publishStats, publishStats.results
      ensures Valid()
      ensures ch == old(ch)[1..]
      ensures calls == old(calls) + [old(ch)[0]]
      ensures deadLetters == if ok then old(deadLetters) else old(deadLetters) + [old(ch)[0]]
      ensures outcomes == old(outcomes) + [ok]
    {
      hide Answer, DepthLimit, WithDefaults, CountFailures, Suffix;
      var e := ch[0];
      ch := ch[1..];
      calls := calls + [e];
      publishStats.Record(ok);
      SuffixPush(outcomes, ok, publishStats.results.Length);
      outcomes := outcomes + [ok];
      if !ok {
        deadLetters := deadLetters + [e];
      }
    }
  }

  /** An admitted event still fits below the hard limit. */
  lemma BelowTheLimit(o: Options, capacity: nat, depth: nat, failureRatio: real, samples: nat)
    requires WithDefaults(o) == o && depth < capacity
    requires !IsHardLimited(o.backpressure, TakeSnapshot(depth, capacity, failureRatio, samples))
    ensures depth < DepthLimit(o, capacity)
  {
    if o.backpressure.enabled && 0.0 < o.backpressure.hardLimitRatio <= 1.0 {
      HardLimitIsADepth(o.backpressure, capacity, depth, failureRatio, samples);
    }
  }

  /** What the limit on the depth is: room, and a share of the capacity below the hard ratio. */
  lemma DepthLimitIff(o: Options, capacity: nat, depth: nat)
    requires WithDefaults(o) == o
    ensures var bp := o.backpressure;
            depth < DepthLimit(o, capacity) <==>
            depth < capacity && (bp.enabled ==> !Reaches(depth as real, bp.hardLimitRatio, capacity as real))
  {
    var bp := o.backpressure;
    DefaultsAreSane(o);
    hide WithDefaults;
    if bp.enabled && 0 < capacity && depth <= capacity {
      HardByCounts(o, capacity, depth, 0.0, 0);
      hide Reaches;
      if bp.hardLimitRatio <= 1.0 {
        HardLimitIsADepth(bp, capacity, depth, 0.0, 0);
      } else {
        BeyondTheWhole(depth, capacity, bp.hardLimitRatio);
      }
    }
  }

  lemma BeyondTheWhole(depth: nat, capacity: nat, ratio: real)
    requires depth <= capacity && 0 < capacity && ratio > 1.0
    ensures !Reaches(depth as real, ratio, capacity as real)
  {
    var c := capacity as real;
    Positive(ratio - 1.0, c);
    calc {
      ratio * c;
      ((ratio - 1.0) + 1.0) * c;
      (ratio - 1.0) * c + c;
    }
    assert depth as real <= c < ratio * c;
  }

  // ------------------------------------------------------------------
  // The same publish among the interleavings

  /** The two steps of one publish, nothing in between. */
  function CheckedAndSent(cfg: Q.Config, s: Q.State, failureRatio: real, samples: nat): Q.State {
    Q.Apply(cfg, Q.Apply(cfg, s, Q.Check(failureRatio, samples)), Q.Send(s.next))
  }

  lemma ClosedTurnsAway(cfg: Q.Config, s: Q.State, failureRatio: real, samples: nat)
    requires s.closed && s.next !in s.pending
    ensures CheckedAndSent(cfg, s, failureRatio, samples) == s
  {
    hide Decide, TakeSnapshot;
    assert Q.Apply(cfg, s, Q.Check(failureRatio, samples)) == s;
  }

  lemma OpenAdmits(cfg: Q.Config, s: Q.State, failureRatio: real, samples: nat)
    requires !s.closed && |s.pending| < cfg.publishers && s.next !in s.pending
    ensures var sent := CheckedAndSent(cfg, s, failureRatio, samples);
            var admitted := Decide(cfg.bp, TakeSnapshot(|s.queue|, cfg.capacity, failureRatio, samples)).Admit?
                            && |s.queue| < cfg.capacity;
            && sent.queue == (if admitted then s.queue + [s.next] else s.queue)
            && sent.accepted == (if admitted then s.accepted + [s.next] else s.accepted)
            && sent.pending == s.pending
  {
    hide Decide, TakeSnapshot;
    var checked := Q.Apply(cfg, s, Q.Check(failureRatio, samples));
    assert checked != s ==> checked.pending - multiset{s.next} == s.pending;
  }

  /** A check followed directly by its send queues the event exactly if Publish answers so. */
  lemma CheckThenSend(o: Options, cfg: Q.Config, s: Q.State, outcomes: seq<bool>)
    requires cfg.bp == o.backpressure && |s.pending| < cfg.publishers && s.next !in s.pending
    ensures var window := Suffix(outcomes, if o.backpressure.failureWindow < 1 then 1 else o.backpressure.failureWindow);
            var sent := CheckedAndSent(cfg, s, FailureRatio(window), |window|);
            var queued := Answer(o, cfg.capacity, s.closed, |s.queue|, outcomes).Queued?;
            && sent.queue == (if queued then s.queue + [s.next] else s.queue)
            && sent.accepted == (if queued then s.accepted + [s.next] else s.accepted)
            && sent.pending == s.pending
  {
    hide CheckedAndSent, Decide, TakeSnapshot, FailureRatio, Suffix;
    var window := Suffix(outcomes, if o.backpressure.failureWindow < 1 then 1 else o.backpressure.failureWindow);
    if s.closed {
      ClosedTurnsAway(cfg, s, FailureRatio(window), |window|);
    } else {
      OpenAdmits(cfg, s, FailureRatio(window), |window|);
    }
  }

  // ------------------------------------------------------------------
  // The answer in whole numbers of events

  /** Options as the server normalises them, with a threshold that does not wait for every sample to fail. */
  predicate Usual(o: Options) {
    WithDefaults(o) == o && o.backpressure.failureRatioThreshold < 1.0
  }

  lemma SoftBelowHard(o: Options)
    requires Usual(o)
    ensures var bp := o.backpressure;
            && bp.softLimitRatio > 0.0 && bp.hardLimitRatio > 0.0 && bp.failureRatioThreshold > 0.0
            && bp.failureWindow >= bp.minSamples >= 1
            && (Throttling(bp) || bp.softLimitRatio >= 1.0)
  {
    DefaultsAreSane(o);
  }

  lemma ShareOfAll(depth: nat, capacity: nat, ratio: real)
    requires depth <= capacity && ratio >= 1.0
    ensures !Exceeds(depth as real, ratio, capacity as real)
  {
    assert (ratio - 1.0) * capacity as real >= 0.0;
  }

  lemma HardByCounts(o: Options, capacity: nat, depth: nat, failureRatio: real, samples: nat)
    requires 0 < capacity && depth <= capacity
    ensures IsHardLimited(o.backpressure, TakeSnapshot(depth, capacity, failureRatio, samples)) <==>
            o.backpressure.enabled && Reaches(depth as real, o.backpressure.hardLimitRatio, capacity as real)
  {
    UsageIsShare(depth, capacity);
    ShareOf(depth as real, capacity as real, o.backpressure.hardLimitRatio);
    hide UsageRatio, Reaches, Exceeds;
  }

  lemma ThrottleByCounts(o: Options, capacity: nat, depth: nat, window: seq<bool>)
    requires Usual(o) && o.backpressure.enabled && 0 < capacity && depth <= capacity
    requires !Reaches(depth as real, o.backpressure.hardLimitRatio, capacity as real)
    ensures ShouldThrottle(o.backpressure, TakeSnapshot(depth, capacity, FailureRatio(window), |window|)) <==>
            ThrottledCounts(o.backpressure, depth, capacity, CountFailures(window), |window|)
  {
    hide WithDefaults, CountFailures, Reaches, Exceeds, PressureSum, FullPressure, UsageRatio;
    var bp := o.backpressure;
    SoftBelowHard(o);
    CountFailuresBound(window);
    if window == [] {
    } else if Throttling(bp) {
      ThrottledByCounts(bp, depth, capacity, CountFailures(window), |window|);
    } else {
      ShareOfAll(depth, capacity, bp.softLimitRatio);
      UsageIsShare(depth, capacity);
      ShareOf(depth as real, capacity as real, bp.softLimitRatio);
    }
  }

  /** The answer of Publish in terms of depth, capacity, failures and samples alone. */
  lemma AnswerByCounts(o: Options, capacity: nat, closed: bool, depth: nat, outcomes: seq<bool>)
    requires Usual(o) && 0 < capacity && depth <= capacity
    ensures var bp := o.backpressure; var window := Suffix(outcomes, bp.failureWindow);
            Answer(o, capacity, closed, depth, outcomes) ==
            if closed then QueueClosed
            else if bp.enabled && Reaches(depth as real, bp.hardLimitRatio, capacity as real) then QueueFull
            else if bp.enabled && ThrottledCounts(bp, depth, capacity, CountFailures(window), |window|) then QueueThrottled
            else if depth < capacity then Queued else QueueFull
  {
    hide WithDefaults, CountFailures, FailureRatio, Suffix, Reaches, ThrottledCounts, UsageRatio;
    var bp := o.backpressure;
    SoftBelowHard(o);
    var window := Suffix(outcomes, bp.failureWindow);
    HardByCounts(o, capacity, depth, FailureRatio(window), |window|);
    if bp.enabled && !Reaches(depth as real, bp.hardLimitRatio, capacity as real) {
      ThrottleByCounts(o, capacity, depth, window);
    }
    hide ShouldThrottle, IsHardLimited;
    NeverThrottledWhenOff(bp, TakeSnapshot(depth, capacity, FailureRatio(window), |window|));
  }

  lemma NeverThrottledWhenOff(bp: Backpressure, s: Snapshot)
    ensures !bp.enabled ==> !ShouldThrottle(bp, s)
  {
  }

  /**
   A publish is throttled exactly between the soft and the hard limit, with enough samples,
   the failure budget used up, and both excesses together filling the room there is.
   */
  lemma ThrottledIff(o: Options, capacity: nat, closed: bool, depth: nat, outcomes: seq<bool>)
    requires Usual(o) && 0 < capacity && depth <= capacity
    ensures var bp := o.backpressure; var window := Suffix(outcomes, bp.failureWindow);
            Answer(o, capacity, closed, depth, outcomes) == QueueThrottled <==>
            && !closed && bp.enabled
            && !Reaches(depth as real, bp.hardLimitRatio, capacity as real)
            && ThrottledCounts(bp, depth, capacity, CountFailures(window), |window|)
  {
    AnswerByCounts(o, capacity, closed, depth, outcomes);
    hide *;
  }

  /** The condition in numbers: d of c places taken, f failures among n samples. */
  lemma CountsSpelledOut(bp: Backpressure, depth: nat, capacity: nat, failures: nat, samples: nat)
    ensures var d, c, f, n := depth as real, capacity as real, failures as real, samples as real;
            var soft, hard, threshold := bp.softLimitRatio, bp.hardLimitRatio, bp.failureRatioThreshold;
            !Reaches(d, hard, c) && ThrottledCounts(bp, depth, capacity, failures, samples) <==>
            && soft * c < d < hard * c
            && samples >= bp.minSamples && f >= threshold * n
            && (d - soft * c) * (1.0 - threshold) * n + (f - threshold * n) * (hard - soft) * c
                 >= (hard - soft) * (1.0 - threshold) * (c * n)
  {
    var d, c, f, n := depth as real, capacity as real, failures as real, samples as real;
    var soft, hard, threshold := bp.softLimitRatio, bp.hardLimitRatio, bp.failureRatioThreshold;
    assert PressureSum(bp, d, c, f, n) ==
           (d - soft * c) * (1.0 - threshold) * n + (f - threshold * n) * (hard - soft) * c;
    assert FullPressure(bp, c, n) == (hard - soft) * (1.0 - threshold) * (c * n);
    assert Reaches(d, hard, c) <==> d >= hard * c;
    assert Exceeds(d, soft, c) <==> d > soft * c;
    assert Reaches(f, threshold, n) <==> f >= threshold * n;
    hide PressureSum, FullPressure, Reaches, Exceeds;
  }

  lemma ThrottleFromOne(bp: Backpressure, s: Snapshot)
    requires bp.failureRatioThreshold >= 1.0 && s.failureRatio <= 1.0
    ensures ShouldThrottle(bp, s) <==>
            && bp.enabled && s.capacity != 0 && s.usageRatio > bp.softLimitRatio
            && s.recentSamples >= bp.minSamples && s.failureRatio == 1.0 == bp.failureRatioThreshold
  {
    PressureIsShare(s.usageRatio, bp.softLimitRatio, bp.hardLimitRatio);
  }

  lemma PressureIsShare(value: real, low: real, high: real)
    ensures 0.0 <= NormalizedPressure(value, low, high) <= 1.0
  {
  }

  lemma TotalFailure(window: seq<bool>)
    ensures FailureRatio(window) <= 1.0
    ensures window != [] ==> (FailureRatio(window) == 1.0 <==> CountFailures(window) == |window|)
  {
    CountFailuresBound(window);
    hide CountFailures;
    if window != [] {
      ShareOf(CountFailures(window) as real, |window| as real, 1.0);
    }
  }

  /** With a threshold of one, nothing but a window full of failures throttles, and above one nothing does. */
  lemma ThrottledByTotalFailure(o: Options, capacity: nat, closed: bool, depth: nat, outcomes: seq<bool>)
    requires WithDefaults(o) == o && o.backpressure.failureRatioThreshold >= 1.0
    requires 0 < capacity && depth <= capacity
    ensures var bp := o.backpressure; var window := Suffix(outcomes, bp.failureWindow);
            Answer(o, capacity, closed, depth, outcomes) == QueueThrottled <==>
            && !closed && bp.enabled
            && Exceeds(depth as real, bp.softLimitRatio, capacity as real)
            && !Reaches(depth as real, bp.hardLimitRatio, capacity as real)
            && |window| >= bp.minSamples && bp.failureRatioThreshold == 1.0 && CountFailures(window) == |window|
  {
    hide CountFailures, FailureRatio, Suffix, WithDefaults, UsageRatio, Exceeds, Reaches, ShouldThrottle, IsHardLimited;
    var bp := o.backpressure;
    DefaultsAreSane(o);
    var window := Suffix(outcomes, bp.failureWindow);
    var s := TakeSnapshot(depth, capacity, FailureRatio(window), |window|);
    UsageIsShare(depth, capacity);
    ShareOf(depth as real, capacity as real, bp.softLimitRatio);
    HardByCounts(o, capacity, depth, s.failureRatio, s.recentSamples);
    TotalFailure(window);
    ThrottleFromOne(bp, s);
  }

  /** At the edges: at or below the soft ratio never, and above it always once every sample failed. */
  lemma NeverThrottledBelowSoft(o: Options, capacity: nat, closed: bool, depth: nat, outcomes: seq<bool>)
    requires Usual(o) && 0 < capacity && depth <= capacity
    requires !Exceeds(depth as real, o.backpressure.softLimitRatio, capacity as real)
    ensures Answer(o, capacity, closed, depth, outcomes) != QueueThrottled
  {
    AnswerByCounts(o, capacity, closed, depth, outcomes);
    hide Answer, Usual, PressureSum, FullPressure, Reaches, Exceeds;
  }

  lemma ThrottledWhenAllFailed(o: Options, capacity: nat, depth: nat, outcomes: seq<bool>)
    requires Usual(o) && o.backpressure.enabled && 0 < capacity && depth <= capacity
    requires Exceeds(depth as real, o.backpressure.softLimitRatio, capacity as real)
    requires !Reaches(depth as real, o.backpressure.hardLimitRatio, capacity as real)
    requires |outcomes| >= o.backpressure.minSamples && forall i | 0 <= i < |outcomes| :: !outcomes[i]
    ensures Answer(o, capacity, false, depth, outcomes) == QueueThrottled
  {
    hide *;
    var bp := o.backpressure;
    AnswerByCounts(o, capacity, false, depth, outcomes);
    SoftBelowHard(o);
    RoomToThrottle(o, capacity, depth);
    AllFailedWindow(outcomes, bp.failureWindow, bp.minSamples);
    ThrottledInFull(bp, depth, capacity, |Suffix(outcomes, bp.failureWindow)|);
  }

  lemma RoomToThrottle(o: Options, capacity: nat, depth: nat)
    requires Usual(o) && depth <= capacity && Exceeds(depth as real, o.backpressure.softLimitRatio, capacity as real)
    ensures Throttling(o.backpressure)
  {
    SoftBelowHard(o);
    hide Usual, Exceeds;
    if o.backpressure.softLimitRatio >= 1.0 {
      ShareOfAll(depth, capacity, o.backpressure.softLimitRatio);
    }
  }

  lemma AllFailedWindow(outcomes: seq<bool>, size: nat, least: nat)
    requires least <= size && least <= |outcomes| && forall i | 0 <= i < |outcomes| :: !outcomes[i]
    ensures CountFailures(Suffix(outcomes, size)) == |Suffix(outcomes, size)| >= least
  {
    AllFailures(Suffix(outcomes, size));
  }

  lemma ThrottledInFull(bp: Backpressure, depth: nat, capacity: nat, samples: nat)
    requires 0 < capacity && samples >= bp.minSamples
    requires Throttling(bp) && Exceeds(depth as real, bp.softLimitRatio, capacity as real)
    ensures ThrottledCounts(bp, depth, capacity, samples, samples)
  {
    AllFailedIsFull(bp, depth as real, capacity as real, samples as real);
    ThresholdReached(bp.failureRatioThreshold, samples as real);
    hide PressureSum, FullPressure, Reaches, Exceeds;
  }

  lemma ThresholdReached(threshold: real, n: real)
    requires threshold <= 1.0 && n >= 0.0
    ensures Reaches(n, threshold, n)
  {
    assert (1.0 - threshold) * n >= 0.0;
  }

  lemma AllFailedIsFull(bp: Backpressure, d: real, c: real, n: real)
    requires Throttling(bp) && c > 0.0 && n >= 0.0 && Exceeds(d, bp.softLimitRatio, c)
    ensures PressureSum(bp, d, c, n, n) >= FullPressure(bp, c, n)
  {
    var k, h, x := 1.0 - bp.failureRatioThreshold, bp.hardLimitRatio - bp.softLimitRatio, d - bp.softLimitRatio * c;
    NotNegative(x, k, n);
    Regroup(n, k, h, c);
  }

  lemma NotNegative(x: real, k: real, n: real)
    requires x >= 0.0 && k >= 0.0 && n >= 0.0
    ensures x * k * n >= 0.0
  {
    assert x * k >= 0.0;
  }

  lemma Regroup(n: real, k: real, h: real, c: real)
    ensures (n - (1.0 - k) * n) * h * c == h * k * (c * n)
  {
    assert n - (1.0 - k) * n == k * n;
    calc {
      (k * n) * h * c;
      (k * h) * (n * c);
      h * k * (c * n);
    }
  }

  lemma {:induction false} AllFailures(window: seq<bool>)
    requires forall i | 0 <= i < |window| :: !window[i]
    ensures CountFailures(window) == |window|
  {
    if window != [] {
      AllFailures(window[..|window| - 1]);
    }
  }

  // ------------------------------------------------------------------
  // Back-pressure, from the outcomes alone

  /** More successes in the window never raise its failure ratio. */
  lemma WindowMonotone(window: seq<bool>, better: seq<bool>)
    requires |window| == |better|
    requires forall i | 0 <= i < |window| :: window[i] ==> better[i]
    ensures FailureRatio(better) <= FailureRatio(window)
  {
    CountMonotone(window, better);
    if window != [] {
      DivMonotone(CountFailures(better) as real, CountFailures(window) as real, |window| as real);
    }
  }

  lemma {:induction false} CountMonotone(window: seq<bool>, better: seq<bool>)
    requires |window| == |better|
    requires forall i | 0 <= i < |window| :: window[i] ==> better[i]
    ensures CountFailures(better) <= CountFailures(window)
  {
    if window != [] {
      CountMonotone(window[..|window| - 1], better[..|better| - 1]);
    }
  }

  /** Had some of the recorded outcomes been successes instead, no publish would have been refused that was not. */
  lemma BetterHistoryAdmits(o: Options, capacity: nat, closed: bool, depth: nat, outcomes: seq<bool>, better: seq<bool>)
    requires |outcomes| == |better|
    requires forall i | 0 <= i < |outcomes| :: outcomes[i] ==> better[i]
    requires Answer(o, capacity, closed, depth, outcomes).Queued?
    ensures Answer(o, capacity, closed, depth, better).Queued?
  {
    var n := if o.backpressure.failureWindow < 1 then 1 else o.backpressure.failureWindow;
    var window, window' := Suffix(outcomes, n), Suffix(better, n);
    WindowMonotone(window, window');
    if Decide(o.backpressure, TakeSnapshot(depth, capacity, FailureRatio(window'), |window'|)) != Admit {
      RejectionIsUpwardClosed(o.backpressure, capacity, depth, depth, FailureRatio(window'), FailureRatio(window),
                              |window'|, |window|);
      assert false;
    }
  }

  /** Once this many successes follow each other the failure budget no longer throttles. */
  lemma SuccessesReopen(o: Options, capacity: nat, depth: nat, outcomes: seq<bool>)
    requires WithDefaults(o) == o && depth < capacity
    requires |outcomes| >= o.backpressure.failureWindow
    requires forall i | |outcomes| - o.backpressure.failureWindow <= i < |outcomes| :: outcomes[i]
    ensures Answer(o, capacity, false, depth, outcomes).Queued? <==>
            !(o.backpressure.enabled && UsageRatio(depth, capacity) >= o.backpressure.hardLimitRatio)
  {
    DefaultsAreSane(o);
    var window := Suffix(outcomes, o.backpressure.failureWindow);
    AllSuccesses(window);
  }

  lemma {:induction false} AllSuccesses(window: seq<bool>)
    requires forall i | 0 <= i < |window| :: window[i]
    ensures FailureRatio(window) == 0.0
  {
    if window != [] {
      AllSuccesses(window[..|window| - 1]);
    }
  }
}
