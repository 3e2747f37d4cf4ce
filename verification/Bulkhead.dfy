/** One queue per source (internal/queue/bulkhead.go): its creation under contention, and pooled statistics. */
module Bulkhead {
  import opened Admission
  import opened AsyncPublisher
  import PublishWindow
  import opened Sequences

  // ------------------------------------------------------------------
  // GetOrCreateSource: a read under the shared lock, a queue built without any lock,
  // and a second look under the exclusive lock.

  datatype Phase =
    | Start(source: string)
    | Missed(source: string)
    | Built(source: string, queue: nat)
    | Done(source: string, queue: nat)

  /** `created` queues exist, numbered from zero; `closed` are those shut down again. */
  datatype State = State(registered: map<string, nat>, created: nat, closed: set<nat>, callers: seq<Phase>)

  datatype Step = Lookup(i: nat) | Build(i: nat) | Register(i: nat)

  function Initial(sources: seq<string>): State {
    State(map[], 0, {}, seq(|sources|, i requires 0 <= i < |sources| => Start(sources[i])))
  }

  predicate Enabled(s: State, step: Step) {
    && step.i < |s.callers|
    && match step
       case Lookup(i) => s.callers[i].Start?
       case Build(i) => s.callers[i].Missed?
       case Register(i) => s.callers[i].Built?
  }

  /** One atomic step; a step that is not enabled changes nothing. */
  function Apply(s: State, step: Step): State {
    if !Enabled(s, step) then s else
    var source := s.callers[step.i].source;
    match step
    case Lookup(i) =>
      s.(callers := s.callers[i := if source in s.registered then Done(source, s.registered[source]) else Missed(source)])
    case Build(i) => s.(created := s.created + 1, callers := s.callers[i := Built(source, s.created)])
    case Register(i) =>
      var queue := s.callers[i].queue;
      if source in s.registered then
        s.(closed := s.closed + {queue}, callers := s.callers[i := Done(source, s.registered[source])])
      else
        s.(registered := s.registered[source := queue], callers := s.callers[i := Done(source, queue)])
  }

  function After(sources: seq<string>, steps: seq<Step>): State {
    if steps == [] then Initial(sources)
    else Apply(After(sources, steps[..|steps| - 1]), steps[|steps| - 1])
  }

  /** A queue some caller has built but not yet offered. */
  ghost predicate Offered(s: State, queue: nat) {
    exists i | 0 <= i < |s.callers| :: s.callers[i].Built? && s.callers[i].queue == queue
  }

  ghost predicate Registered(s: State, queue: nat) {
    exists source | source in s.registered :: s.registered[source] == queue
  }

  ghost predicate RegistryOpen(s: State) {
    && (forall source | source in s.registered ::
          s.registered[source] < s.created && s.registered[source] !in s.closed)
    && (forall a, b | a in s.registered && b in s.registered && a != b :: s.registered[a] != s.registered[b])
    && (forall queue | queue in s.closed :: queue < s.created)
  }

  ghost predicate OffersOpen(s: State) {
    && (forall i | 0 <= i < |s.callers| && s.callers[i].Built? ::
          var queue := s.callers[i].queue;
          queue < s.created && queue !in s.closed && !Registered(s, queue))
    && (forall i, j | 0 <= i < j < |s.callers| && s.callers[i].Built? && s.callers[j].Built? ::
          s.callers[i].queue != s.callers[j].queue)
  }

  ghost predicate CallersServed(s: State) {
    forall i | 0 <= i < |s.callers| && s.callers[i].Done? ::
      s.callers[i].source in s.registered && s.registered[s.callers[i].source] == s.callers[i].queue
  }

  ghost predicate NothingLost(s: State) {
    forall queue: nat | queue < s.created :: queue in s.closed || Registered(s, queue) || Offered(s, queue)
  }

  ghost predicate Inv(s: State) {
    RegistryOpen(s) && OffersOpen(s) && CallersServed(s) && NothingLost(s)
  }

  /** An offer of another caller survives the step of caller `i`. */
  lemma OtherOffers(s: State, s': State, i: nat, queue: nat)
    requires i < |s.callers| == |s'.callers|
    requires forall k | 0 <= k < |s.callers| && k != i :: s'.callers[k] == s.callers[k]
    requires Offered(s, queue) && !(s.callers[i].Built? && s.callers[i].queue == queue)
    ensures Offered(s', queue)
  {
    var k :| 0 <= k < |s.callers| && s.callers[k].Built? && s.callers[k].queue == queue;
    assert s'.callers[k].Built?;
  }

  lemma LookupKeepsInv(s: State, i: nat)
    requires Inv(s) && Enabled(s, Lookup(i))
    ensures Inv(Apply(s, Lookup(i)))
  {
    var s' := Apply(s, Lookup(i));
    assert forall queue :: Registered(s', queue) <==> Registered(s, queue);
    forall queue: nat | queue < s.created && Offered(s, queue)
      ensures Offered(s', queue)
    {
      OtherOffers(s, s', i, queue);
    }
  }

  lemma BuildKeepsInv(s: State, i: nat)
    requires Inv(s) && Enabled(s, Build(i))
    ensures Inv(Apply(s, Build(i)))
  {
    var s' := Apply(s, Build(i));
    assert forall queue :: Registered(s', queue) <==> Registered(s, queue);
    assert s'.callers[i].Built? && s'.callers[i].queue == s.created;
    forall queue: nat | queue < s.created && Offered(s, queue)
      ensures Offered(s', queue)
    {
      OtherOffers(s, s', i, queue);
    }
  }

  /** The caller finds its source registered meanwhile, and shuts down the queue it built. */
  lemma LateRegisterKeepsInv(s: State, i: nat)
    requires Inv(s) && Enabled(s, Register(i)) && s.callers[i].source in s.registered
    ensures Inv(Apply(s, Register(i)))
  {
    var s', mine := Apply(s, Register(i)), s.callers[i].queue;
    assert forall queue :: Registered(s', queue) <==> Registered(s, queue);
    forall queue: nat | queue < s.created && Offered(s, queue) && queue != mine
      ensures Offered(s', queue)
    {
      OtherOffers(s, s', i, queue);
    }
  }

  lemma FirstRegisterKeepsInv(s: State, i: nat)
    requires Inv(s) && Enabled(s, Register(i)) && s.callers[i].source !in s.registered
    ensures Inv(Apply(s, Register(i)))
  {
    var s', source, mine := Apply(s, Register(i)), s.callers[i].source, s.callers[i].queue;
    assert s'.registered[source] == mine;
    forall queue
      ensures Registered(s', queue) <==> Registered(s, queue) || queue == mine
    {
      if x :| x in s.registered && s.registered[x] == queue {
        assert x in s'.registered && s'.registered[x] == queue;
      }
    }
    forall queue: nat | queue < s.created && Offered(s, queue) && queue != mine
      ensures Offered(s', queue)
    {
      OtherOffers(s, s', i, queue);
    }
  }

  lemma StepKeepsInv(s: State, step: Step)
    requires Inv(s)
    ensures Inv(Apply(s, step))
  {
    if Enabled(s, step) {
      match step
      case Lookup(i) => LookupKeepsInv(s, i);
      case Build(i) => BuildKeepsInv(s, i);
      case Register(i) =>
        if s.callers[i].source in s.registered {
          LateRegisterKeepsInv(s, i);
        } else {
          FirstRegisterKeepsInv(s, i);
        }
    }
  }

  lemma {:induction false} RunKeepsInv(sources: seq<string>, steps: seq<Step>)
    ensures Inv(After(sources, steps))
  {
    if steps != [] {
      RunKeepsInv(sources, steps[..|steps| - 1]);
      StepKeepsInv(After(sources, steps[..|steps| - 1]), steps[|steps| - 1]);
    }
  }

  /**
   However the callers interleave: callers of one source end up with the same open
   queue, callers of different sources with different ones, and once nobody is
   creating, the queues that are not registered have all been closed.
   */
  lemma OneQueuePerSource(sources: seq<string>, steps: seq<Step>)
    ensures var s := After(sources, steps);
            && (forall i, j | 0 <= i < |s.callers| && 0 <= j < |s.callers| && s.callers[i].Done? && s.callers[j].Done? ::
                  && (s.callers[i].source == s.callers[j].source <==> s.callers[i].queue == s.callers[j].queue)
                  && s.callers[i].queue !in s.closed)
            && ((forall i | 0 <= i < |s.callers| :: !s.callers[i].Built?) ==>
                  forall queue: nat | queue < s.created :: queue in s.closed <==> !Registered(s, queue))
  {
    RunKeepsInv(sources, steps);
  }

  lemma StepKeepsSources(s: State, step: Step)
    ensures |Apply(s, step).callers| == |s.callers|
    ensures forall k | 0 <= k < |s.callers| :: Apply(s, step).callers[k].source == s.callers[k].source
  {
  }

  lemma {:induction false} CallersKeepTheirSource(sources: seq<string>, steps: seq<Step>)
    ensures |After(sources, steps).callers| == |sources|
    ensures forall k | 0 <= k < |sources| :: After(sources, steps).callers[k].source == sources[k]
  {
    if steps != [] {
      CallersKeepTheirSource(sources, steps[..|steps| - 1]);
      StepKeepsSources(After(sources, steps[..|steps| - 1]), steps[|steps| - 1]);
    }
  }

  /** What is left of one call of getOrCreateSource, run without a break. */
  function CallEnds(s: State, i: nat): State {
    Apply(Apply(Apply(s, Lookup(i)), Build(i)), Register(i))
  }

  lemma CallReturns(s: State, i: nat)
    requires i < |s.callers| && CallersServed(s)
    ensures var s', source := CallEnds(s, i), s.callers[i].source;
            && |s'.callers| == |s.callers| && s'.callers[i].Done?
            && (source in s.registered ==> s'.registered == s.registered)
            && (source !in s.registered ==> s'.registered.Keys == s.registered.Keys + {source})
            && (source in s.registered && s.callers[i].Start? ==> s'.created == s.created && s'.closed == s.closed)
  {
  }

  /**
   Wherever the others stand, a caller needs its own steps only to come back with the open
   queue of its source; the queue of a registered source is used as it is.
   */
  lemma EveryCallerIsServed(sources: seq<string>, steps: seq<Step>, i: nat)
    requires i < |sources|
    ensures var s := After(sources, steps); var s', source := CallEnds(s, i), sources[i];
            && |s'.callers| == |sources| && s'.callers[i].Done? && source in s'.registered
            && s'.callers[i].queue == s'.registered[source] && s'.callers[i].queue !in s'.closed
            && (source in s.registered ==> s'.registered == s.registered)
            && (source !in s.registered ==> s'.registered.Keys == s.registered.Keys + {source})
            && (source in s.registered && s.callers[i].Start? ==> s'.created == s.created && s'.closed == s.closed)
  {
    hide After, Apply;
    RunKeepsInv(sources, steps);
    CallersKeepTheirSource(sources, steps);
    var s := After(sources, steps);
    CallReturns(s, i);
    var s1 := Apply(s, Lookup(i));
    var s2 := Apply(s1, Build(i));
    StepKeepsInv(s, Lookup(i));
    StepKeepsInv(s1, Build(i));
    StepKeepsInv(s2, Register(i));
    StepKeepsSources(s, Lookup(i));
    StepKeepsSources(s1, Build(i));
    StepKeepsSources(s2, Register(i));
  }

  // ------------------------------------------------------------------
  // Pooled statistics

  /** What a source's queue holds and has seen: its depth, and the outcomes in its failure window. */
  datatype Source = Source(depth: nat, capacity: nat, outcomes: seq<bool>)

  function SourceSnapshot(s: Source): Snapshot {
    TakeSnapshot(s.depth, s.capacity, PublishWindow.FailureRatio(s.outcomes), |s.outcomes|)
  }

  /** The sum of `f` over the sources, in whatever order they are visited. */
  ghost function Total(sources: map<string, Source>, keys: set<string>, f: Source -> nat): nat
    requires keys <= sources.Keys
  {
    if keys == {} then 0
    else
      var k :| k in keys;
      f(sources[k]) + Total(sources, keys - {k}, f)
  }

  lemma {:induction false} TotalWithout(sources: map<string, Source>, keys: set<string>, f: Source -> nat, k: string)
    requires k in keys && keys <= sources.Keys
    ensures Total(sources, keys, f) == f(sources[k]) + Total(sources, keys - {k}, f)
    decreases |keys|
  {
    var c :| c in keys && Total(sources, keys, f) == f(sources[c]) + Total(sources, keys - {c}, f);
    if c != k {
      TotalWithout(sources, keys - {c}, f, k);
      TotalWithout(sources, keys - {k}, f, c);
      assert keys - {c} - {k} == keys - {k} - {c};
    }
  }

  function Depth(s: Source): nat {
    s.depth
  }

  function Capacity(s: Source): nat {
    s.capacity
  }

  function Samples(s: Source): nat {
    |s.outcomes|
  }

  function Failures(s: Source): nat {
    PublishWindow.CountFailures(s.outcomes)
  }

  lemma {:induction false} FailuresWithinSamples(sources: map<string, Source>, keys: set<string>)
    requires keys <= sources.Keys
    ensures Total(sources, keys, Failures) <= Total(sources, keys, Samples)
    decreases |keys|
  {
    if keys != {} {
      var k :| k in keys;
      TotalWithout(sources, keys, Failures, k);
      TotalWithout(sources, keys, Samples, k);
      PublishWindow.CountFailuresBound(sources[k].outcomes);
      FailuresWithinSamples(sources, keys - {k});
    }
  }

  lemma NothingToAdd(sources: map<string, Source>)
    ensures forall f :: Total(sources, {}, f) == 0
  {
  }

  lemma WeightedSnapshot(s: Source)
    ensures var snapshot := SourceSnapshot(s);
            && snapshot.depth == Depth(s) && snapshot.capacity == Capacity(s) && snapshot.recentSamples == Samples(s)
            && Weight(snapshot) == Failures(s) as real
  {
  }

  /** A source's failure ratio, weighted by its samples. */
  function Weight(s: Snapshot): real {
    s.failureRatio * s.recentSamples as real
  }

  function Share(part: real, whole: nat): real {
    if whole > 0 then ClampRatio(part / whole as real) else 0.0
  }

  lemma ShareIsARatio(part: nat, whole: nat)
    requires part <= whole
    ensures Share(part as real, whole) == if whole == 0 then 0.0 else part as real / whole as real
  {
    if whole > 0 {
      DivMonotone(part as real, whole as real, whole as real);
      DivMonotone(0.0, part as real, whole as real);
    }
  }

  /** The running sums and what remains to be added make up the totals. */
  ghost predicate Summing(sources: map<string, Source>, rest: set<string>, sum: Snapshot, weightedFailures: real) {
    && rest <= sources.Keys
    && sum.depth + Total(sources, rest, Depth) == Total(sources, sources.Keys, Depth)
    && sum.capacity + Total(sources, rest, Capacity) == Total(sources, sources.Keys, Capacity)
    && sum.recentSamples + Total(sources, rest, Samples) == Total(sources, sources.Keys, Samples)
    && weightedFailures + Total(sources, rest, Failures) as real == Total(sources, sources.Keys, Failures) as real
    && sum.usageRatio == 0.0 && sum.failureRatio == 0.0
  }

  function Plus(sum: Snapshot, s: Snapshot): Snapshot {
    sum.(depth := sum.depth + s.depth, capacity := sum.capacity + s.capacity,
         recentSamples := sum.recentSamples + s.recentSamples)
  }

  lemma NothingSummed(sources: map<string, Source>)
    ensures Summing(sources, sources.Keys, Snapshot(0, 0, 0.0, 0.0, 0), 0.0)
  {
    hide Total;
  }

  /** The statistics of the sources taken together. */
  ghost predicate Pooled(sources: map<string, Source>, pool: Snapshot) {
    && pool.depth == Total(sources, sources.Keys, Depth)
    && pool.capacity == Total(sources, sources.Keys, Capacity)
    && pool.recentSamples == Total(sources, sources.Keys, Samples)
    && pool.usageRatio == UsageRatio(pool.depth, pool.capacity)
    && pool.failureRatio == if pool.recentSamples == 0 then 0.0
                            else Total(sources, sources.Keys, Failures) as real / pool.recentSamples as real
  }

  lemma AllSummed(sources: map<string, Source>, sum: Snapshot, weightedFailures: real)
    requires Summing(sources, {}, sum, weightedFailures)
    ensures Pooled(sources, sum.(usageRatio := UsageRatio(sum.depth, sum.capacity),
                                 failureRatio := Share(weightedFailures, sum.recentSamples)))
  {
    NothingToAdd(sources);
    FailuresWithinSamples(sources, sources.Keys);
    ShareIsARatio(Total(sources, sources.Keys, Failures), sum.recentSamples);
    hide Total, Share, UsageRatio;
  }

  lemma SummingOneMore(sources: map<string, Source>, rest: set<string>, sum: Snapshot, weightedFailures: real, k: string)
    requires Summing(sources, rest, sum, weightedFailures) && k in rest
    ensures var s := SourceSnapshot(sources[k]);
            Summing(sources, rest - {k}, Plus(sum, s), weightedFailures + Weight(s))
  {
    hide Total, Weight, Failures, Depth, Capacity, Samples, SourceSnapshot;
    WeightedSnapshot(sources[k]);
    TotalWithout(sources, rest, Depth, k);
    TotalWithout(sources, rest, Capacity, k);
    TotalWithout(sources, rest, Samples, k);
    TotalWithout(sources, rest, Failures, k);
  }

  // ------------------------------------------------------------------
  // Publishing through the gate of a source, one call at a time

  /** The answer of BulkheadPublisher.Publish: its own gate first, then the queue of the source, each at the depth it sees. */
  function ContendedAnswer(o: Options, capacity: nat, closed: bool, atGate: nat, atQueue: nat, outcomes: seq<bool>): Outcome {
    if BulkheadRejects(o.backpressure, capacity, atGate) then QueueFull
    else Answer(o, capacity, closed, atQueue, outcomes)
  }

  /** The same when nothing happens in between. */
  function GatedAnswer(o: Options, capacity: nat, closed: bool, depth: nat, outcomes: seq<bool>): Outcome {
    ContendedAnswer(o, capacity, closed, depth, depth, outcomes)
  }

  class BulkheadPublisher {
    const options: Options
    const bufferPerSource: nat
    const hardLimit: int
    var sources: map<string, Publisher>

    ghost predicate Valid()
      reads this, set s | s in sources :: sources[s]
      reads set s | s in sources :: sources[s].publishStats
      reads set s | s in sources :: sources[s].publishStats.results
    {
      && WithDefaults(options) == options
      && bufferPerSource > 0
      && hardLimit == LimitFromRatio(bufferPerSource, options.backpressure.hardLimitRatio)
      && (forall s | s in sources ::
            sources[s].Valid() && sources[s].options == options && sources[s].capacity == bufferPerSource)
      && (forall a, b | a in sources && b in sources && a != b :: sources[a] != sources[b])
    }

    constructor (bufferPerSource: int, o: Options)
      ensures Valid() && sources == map[]
      ensures options == WithDefaults(o) && this.bufferPerSource == if bufferPerSource <= 0 then 1 else bufferPerSource
    {
      WithDefaultsIdempotent(o);
      var buffer: nat := if bufferPerSource <= 0 then 1 else bufferPerSource;
      options, this.bufferPerSource := WithDefaults(o), buffer;
      hardLimit := LimitFromRatio(buffer, WithDefaults(o).backpressure.hardLimitRatio);
      sources := map[];
    }

    method GetOrCreateSource(source: string) returns (queue: Publisher)
      requires Valid()
      modifies this`sources
      ensures Valid()
      ensures source in sources && sources[source] == queue
      ensures source in old(sources) ==> sources == old(sources)
      ensures source !in old(sources) ==>
                && sources == old(sources)[source := queue] && fresh(queue)
                && !queue.closed && queue.ch == [] && queue.outcomes == []
    {
      hide WithDefaults, LimitFromRatio, Publisher.Valid;
      if source in sources {
        return sources[source];
      }
      queue := new Publisher(bufferPerSource, options);
      sources := sources[source := queue];
    }

    /** Other sources notice nothing, whatever happens to this one. */
    method Publish(source: string, e: nat) returns (r: Outcome)
      requires Valid()
      modifies this`sources, (if source in sources then {sources[source]} else {})`ch
      ensures Valid()
      ensures source in sources && (source in old(sources) ==> sources[source] == old(sources[source]))
      ensures sources.Keys == old(sources.Keys) + {source}
      ensures forall s | s in old(sources) && s != source ::
                sources[s] == old(sources[s]) && unchanged(sources[s])
      ensures source in old(sources) ==>
                var queue := sources[source];
                && r == GatedAnswer(options, bufferPerSource, queue.closed, |old(sources[source].ch)|, queue.outcomes)
                && queue.ch == old(sources[source].ch) + if r.Queued? then [e] else []
      ensures source !in old(sources) ==>
                && r == GatedAnswer(options, bufferPerSource, false, 0, [])
                && sources[source].ch == if r.Queued? then [e] else []
    {
      hide WithDefaults, Answer, LimitFromRatio, Publisher.Valid;
      var queue := GetOrCreateSource(source);
      if options.backpressure.enabled && |queue.ch| >= hardLimit {
        return QueueFull;
      }
      r := queue.Publish(e);
    }

    /** What the queues hold, and the outcomes in their failure windows. */
    ghost function Statistics(): (stats: map<string, Source>)
      reads this, set s | s in sources :: sources[s]
      ensures stats.Keys == sources.Keys
    {
      var size := options.backpressure.failureWindow;
      map s | s in sources ::
        Source(|sources[s].ch|, bufferPerSource, Suffix(sources[s].outcomes, if size < 0 then 0 else size))
    }

    method SourceStats(source: string) returns (snapshot: Snapshot)
      requires Valid() && source in sources
      ensures snapshot == SourceSnapshot(Statistics()[source])
    {
      hide WithDefaults, LimitFromRatio, UsageRatio, Suffix, PublishWindow.FailureRatio;
      snapshot := sources[source].TakeStats();
    }

    /** The weighted average of the sources' failure ratios is total failures over total samples. */
    method AggregateSnapshot() returns (aggregate: Snapshot)
      requires Valid()
      ensures Pooled(Statistics(), aggregate)
    {
      hide *;
      ghost var stats := Statistics();
      var weightedFailures, rest := 0.0, sources.Keys;
      aggregate := Snapshot(0, 0, 0.0, 0.0, 0);
      NothingSummed(stats);
      while rest != {}
        invariant rest <= sources.Keys
        invariant Summing(stats, rest, aggregate, weightedFailures)
        decreases |rest|
      {
        var k :| k in rest;
        var snapshot := SourceStats(k);
        SummingOneMore(stats, rest, aggregate, weightedFailures, k);
        aggregate := Plus(aggregate, snapshot);
        weightedFailures := weightedFailures + Weight(snapshot);
        rest := rest - {k};
      }
      AllSummed(stats, aggregate, weightedFailures);
      aggregate := aggregate.(usageRatio := UsageRatio(aggregate.depth, aggregate.capacity),
                              failureRatio := Share(weightedFailures, aggregate.recentSamples));
    }
  }

  lemma RejectedByGate(o: Options, capacity: nat, closed: bool, depth: nat, outcomes: seq<bool>)
    requires WithDefaults(o) == o && 0 < capacity && depth <= capacity
    requires BulkheadRejects(o.backpressure, capacity, depth)
    ensures !Answer(o, capacity, closed, depth, outcomes).Queued?
    ensures !closed && o.backpressure.hardLimitRatio <= 1.0 ==> Answer(o, capacity, closed, depth, outcomes) == QueueFull
  {
    DefaultsAreSane(o);
    if o.backpressure.hardLimitRatio <= 1.0 {
      GatesAgreeAtDepth(o.backpressure, capacity, depth, 0.0, 0);
    } else {
      LimitAboveOne(capacity, o.backpressure.hardLimitRatio);
    }
  }

  /** With one depth for both, the gate turns away only what the queue would refuse. */
  lemma GateOnlyRelabels(o: Options, capacity: nat, closed: bool, depth: nat, outcomes: seq<bool>)
    requires WithDefaults(o) == o && 0 < capacity && depth <= capacity
    ensures GatedAnswer(o, capacity, closed, depth, outcomes).Queued? <==> Answer(o, capacity, closed, depth, outcomes).Queued?
    ensures !closed && o.backpressure.hardLimitRatio <= 1.0 ==>
              GatedAnswer(o, capacity, closed, depth, outcomes) == Answer(o, capacity, closed, depth, outcomes)
  {
    hide Answer, BulkheadRejects, WithDefaults;
    if BulkheadRejects(o.backpressure, capacity, depth) {
      RejectedByGate(o, capacity, closed, depth, outcomes);
    }
  }

  /**
   Under contention the gate turns away an event that the queue would take exactly if the
   depth was at the hard limit at the gate and the queue admits at its own depth, which
   takes a drop of the depth in between.
   */
  lemma GateDecidesIff(o: Options, capacity: nat, closed: bool, atGate: nat, atQueue: nat, outcomes: seq<bool>)
    requires WithDefaults(o) == o && 0 < capacity && atGate <= capacity && atQueue <= capacity
    ensures var alone := Answer(o, capacity, closed, atQueue, outcomes);
            ContendedAnswer(o, capacity, closed, atGate, atQueue, outcomes).Queued? != alone.Queued? <==>
            BulkheadRejects(o.backpressure, capacity, atGate) && atQueue < atGate && alone.Queued?
  {
    if BulkheadRejects(o.backpressure, capacity, atGate) && atGate <= atQueue {
      hide Answer, WithDefaults, LimitFromRatio;
      RejectedByGate(o, capacity, closed, atQueue, outcomes);
    }
  }

  lemma LimitAboveOne(capacity: nat, ratio: real)
    requires capacity > 0 && ratio > 1.0
    ensures LimitFromRatio(capacity, ratio) == capacity
  {
    CeilBound(capacity as real * ratio, capacity);
    assert capacity as real * (ratio - 1.0) > 0.0;
  }
}
