/**
 The asynchronous publisher (internal/queue/async_publisher.go) and its orderly
 shutdown (internal/queue/factory.go), as one transition system over all
 interleavings of publishers, workers and the closing of the runtime publisher.

 A step is one region between lock operations or one channel operation.  Publishers
 and workers are interchangeable, so the state counts who is where instead of
 naming them.  An event is a number drawn when its Publish call passes admission.
 */
module AsyncQueue {
  import opened Admission

  datatype Closer = CloseQueue | CloseInner

  /** The order in which BuildRuntimePublisher registers what has to be closed. */
  function Closers(pubsub: bool): seq<Closer> {
    (if pubsub then [CloseInner] else []) + [CloseQueue]
  }

  /** `quiesced`: the server waits for all Publish calls to return before it closes the queue. */
  datatype Config = Config(bp: Backpressure, capacity: nat, publishers: nat, workers: nat, pubsub: bool, quiesced: bool)

  datatype State = State(
    closed: bool,                    // the flag and the channel, which change together
    queue: seq<nat>,                 // the channel, oldest first
    pending: multiset<nat>,          // admitted by a publisher, not yet sent
    waiting: nat,                    // workers ready to receive
    holding: multiset<nat>,          // received, the inner publisher not yet called
    answered: multiset<(nat, bool)>, // the inner publisher answered, not yet recorded
    exited: nat,                     // workers that left their loop
    accepted: seq<nat>,              // events whose Publish returned without an error, in order
    taken: seq<nat>,                 // events received, in order
    calls: multiset<nat>,            // calls of the inner publisher
    failed: multiset<nat>,           // those of them that failed
    deadLetters: multiset<nat>,      // calls of the dead-letter hook
    settled: multiset<nat>,          // events done with
    next: nat,                       // the next fresh event
    closersLeft: nat,                // closers that the runtime publisher has not finished
    innerClosed: bool,
    panicked: bool)                  // a send met a closed channel

  datatype Step =
    | Check(failureRatio: real, samples: nat)
    | Send(e: nat)
    | HandOver(e: nat)
    | Receive
    | CallInner(e: nat, ok: bool)
    | Settle(e: nat, ok: bool)
    | Exit
    | CloseChannel
    | WorkersDone
    | CloseInnerPublisher

  predicate WorkerStep(step: Step) {
    step.Receive? || step.CallInner? || step.Settle? || step.Exit?
  }

  function Initial(cfg: Config): State {
    State(false, [], multiset{}, cfg.workers, multiset{}, multiset{}, 0, [], [],
          multiset{}, multiset{}, multiset{}, multiset{}, 0, |Closers(cfg.pubsub)|, false, false)
  }

  /** The closer at which the reverse loop of RuntimePublisher.Close stands. */
  predicate Closing(cfg: Config, s: State, closer: Closer) {
    0 < s.closersLeft <= |Closers(cfg.pubsub)| && Closers(cfg.pubsub)[s.closersLeft - 1] == closer
  }

  predicate Enabled(cfg: Config, s: State, step: Step) {
    match step
    case Check(_, _) => |s.pending| < cfg.publishers
    case Send(e) => e in s.pending
    case HandOver(e) => e in s.pending && !s.closed && s.queue == [] && s.waiting > 0
    case Receive => s.waiting > 0 && s.queue != []
    case CallInner(e, _) => e in s.holding
    case Settle(e, ok) => (e, ok) in s.answered
    case Exit => s.waiting > 0 && s.closed && s.queue == []
    case CloseChannel => Closing(cfg, s, CloseQueue) && !s.closed && (cfg.quiesced ==> s.pending == multiset{})
    case WorkersDone => Closing(cfg, s, CloseQueue) && s.closed && s.exited == cfg.workers
    case CloseInnerPublisher => Closing(cfg, s, CloseInner)
  }

  function Checked(cfg: Config, s: State, failureRatio: real, samples: nat): State {
    if s.closed then s
    else if Decide(cfg.bp, TakeSnapshot(|s.queue|, cfg.capacity, failureRatio, samples)) != Admit then s
    else s.(pending := s.pending + multiset{s.next}, next := s.next + 1)
  }

  function Sent(cfg: Config, s: State, e: nat): State {
    var sent := s.(pending := s.pending - multiset{e});
    if s.closed then sent.(panicked := true)
    else if |s.queue| < cfg.capacity then sent.(queue := s.queue + [e], accepted := s.accepted + [e])
    else sent
  }

  /** A receiver is blocked on the empty channel, so the send goes straight to it. */
  function HandedOver(s: State, e: nat): State
    requires s.waiting > 0
  {
    s.(pending := s.pending - multiset{e}, accepted := s.accepted + [e],
       waiting := s.waiting - 1, holding := s.holding + multiset{e}, taken := s.taken + [e])
  }

  function Received(s: State): State
    requires s.waiting > 0 && s.queue != []
  {
    s.(queue := s.queue[1..], waiting := s.waiting - 1,
       holding := s.holding + multiset{s.queue[0]}, taken := s.taken + [s.queue[0]])
  }

  function Called(s: State, e: nat, ok: bool): State {
    s.(holding := s.holding - multiset{e}, answered := s.answered + multiset{(e, ok)},
       calls := s.calls + multiset{e}, failed := if ok then s.failed else s.failed + multiset{e})
  }

  function Settled(s: State, e: nat, ok: bool): State {
    s.(answered := s.answered - multiset{(e, ok)}, waiting := s.waiting + 1, settled := s.settled + multiset{e},
       deadLetters := if ok then s.deadLetters else s.deadLetters + multiset{e})
  }

  /** One atomic step; a step that is not enabled changes nothing. */
  function Apply(cfg: Config, s: State, step: Step): State {
    if !Enabled(cfg, s, step) then s else
    match step
    case Check(failureRatio, samples) => Checked(cfg, s, failureRatio, samples)
    case Send(e) => Sent(cfg, s, e)
    case HandOver(e) => HandedOver(s, e)
    case Receive => Received(s)
    case CallInner(e, ok) => Called(s, e, ok)
    case Settle(e, ok) => Settled(s, e, ok)
    case Exit => s.(waiting := s.waiting - 1, exited := s.exited + 1)
    case CloseChannel => s.(closed := true)
    case WorkersDone => s.(closersLeft := s.closersLeft - 1)
    case CloseInnerPublisher => s.(innerClosed := true, closersLeft := s.closersLeft - 1)
  }

  function After(cfg: Config, steps: seq<Step>): State {
    if steps == [] then Initial(cfg)
    else Apply(cfg, After(cfg, steps[..|steps| - 1]), steps[|steps| - 1])
  }

  // ------------------------------------------------------------------
  // Where an event is

  function InAnswer(s: State, e: nat): nat {
    s.answered[(e, true)] + s.answered[(e, false)]
  }

  /** In how many places an event is: in the channel, with a worker, or settled. */
  function Places(s: State, e: nat): nat {
    multiset(s.queue)[e] + s.holding[e] + InAnswer(s, e) + s.settled[e]
  }

  ghost predicate EventAccounted(s: State, e: nat) {
    && multiset(s.accepted)[e] + s.pending[e] <= 1
    && (multiset(s.accepted)[e] + s.pending[e] > 0 ==> e < s.next)
    && Places(s, e) == multiset(s.accepted)[e]
    && s.calls[e] == InAnswer(s, e) + s.settled[e]
    && s.deadLetters[e] + s.answered[(e, false)] == s.failed[e]
    && s.deadLetters[e] <= s.settled[e]
  }

  ghost predicate Conserved(s: State) {
    && s.accepted == s.taken + s.queue
    && forall e :: EventAccounted(s, e)
  }

  lemma CheckedConserves(cfg: Config, s: State, failureRatio: real, samples: nat)
    requires Conserved(s)
    ensures Conserved(Checked(cfg, s, failureRatio, samples))
  {
    hide Decide, TakeSnapshot;
    var s' := Checked(cfg, s, failureRatio, samples);
    forall e
      ensures EventAccounted(s', e)
    {
      assert EventAccounted(s, e) && EventAccounted(s, s.next);
    }
  }

  lemma EnqueuedAccounts(s: State, x: nat, e: nat)
    requires EventAccounted(s, e) && x in s.pending
    ensures EventAccounted(s.(pending := s.pending - multiset{x}, queue := s.queue + [x], accepted := s.accepted + [x]), e)
  {
    assert multiset(s.accepted + [x])[e] == multiset(s.accepted)[e] + if e == x then 1 else 0;
    assert multiset(s.queue + [x])[e] == multiset(s.queue)[e] + if e == x then 1 else 0;
  }

  lemma SentAccounts(cfg: Config, s: State, x: nat, e: nat)
    requires EventAccounted(s, e) && x in s.pending
    ensures EventAccounted(Sent(cfg, s, x), e)
  {
    if !s.closed && |s.queue| < cfg.capacity {
      EnqueuedAccounts(s, x, e);
    }
  }

  lemma SentConserves(cfg: Config, s: State, x: nat)
    requires Conserved(s) && x in s.pending
    ensures Conserved(Sent(cfg, s, x))
  {
    assert s.accepted + [x] == s.taken + (s.queue + [x]);
    hide EventAccounted;
    forall e
      ensures EventAccounted(Sent(cfg, s, x), e)
    {
      SentAccounts(cfg, s, x, e);
    }
  }

  lemma HandedOverConserves(s: State, x: nat)
    requires Conserved(s) && x in s.pending && s.waiting > 0 && s.queue == []
    ensures Conserved(HandedOver(s, x))
  {
    var s' := HandedOver(s, x);
    forall e
      ensures EventAccounted(s', e)
    {
      assert EventAccounted(s, e) && EventAccounted(s, x);
    }
  }

  lemma ReceivedConserves(s: State)
    requires Conserved(s) && s.waiting > 0 && s.queue != []
    ensures Conserved(Received(s))
  {
    var s' := Received(s);
    assert s.queue == [s.queue[0]] + s'.queue;
    assert s'.taken + s'.queue == s.taken + s.queue;
    forall e
      ensures EventAccounted(s', e)
    {
      assert EventAccounted(s, e);
    }
  }

  lemma CalledConserves(s: State, x: nat, ok: bool)
    requires Conserved(s) && x in s.holding
    ensures Conserved(Called(s, x, ok))
  {
    var s' := Called(s, x, ok);
    forall e
      ensures EventAccounted(s', e)
    {
      assert EventAccounted(s, e);
    }
  }

  lemma SettledConserves(s: State, x: nat, ok: bool)
    requires Conserved(s) && (x, ok) in s.answered
    ensures Conserved(Settled(s, x, ok))
  {
    var s' := Settled(s, x, ok);
    forall e
      ensures EventAccounted(s', e)
    {
      assert EventAccounted(s, e);
    }
  }

  lemma OtherConserves(cfg: Config, s: State, step: Step)
    requires Conserved(s)
    requires step.Exit? || step.CloseChannel? || step.WorkersDone? || step.CloseInnerPublisher?
    ensures Conserved(Apply(cfg, s, step))
  {
    hide Closing;
    var s' := Apply(cfg, s, step);
    forall e
      ensures EventAccounted(s', e)
    {
      assert EventAccounted(s, e);
    }
  }

  lemma StepConserves(cfg: Config, s: State, step: Step)
    requires Conserved(s)
    ensures Conserved(Apply(cfg, s, step))
  {
    hide Checked, Sent, HandedOver, Received, Called, Settled, Closing, EventAccounted;
    if Enabled(cfg, s, step) {
      match step
      case Check(failureRatio, samples) => CheckedConserves(cfg, s, failureRatio, samples);
      case Send(e) => SentConserves(cfg, s, e);
      case HandOver(e) => HandedOverConserves(s, e);
      case Receive => ReceivedConserves(s);
      case CallInner(e, ok) => CalledConserves(s, e, ok);
      case Settle(e, ok) => SettledConserves(s, e, ok);
      case _ =>
        OtherConserves(cfg, s, step);
    }
  }

  lemma {:induction false} RunConserves(cfg: Config, steps: seq<Step>)
    ensures Conserved(After(cfg, steps))
  {
    if steps != [] {
      RunConserves(cfg, steps[..|steps| - 1]);
      StepConserves(cfg, After(cfg, steps[..|steps| - 1]), steps[|steps| - 1]);
    }
  }

  /**
   In every interleaving an accepted event is in exactly one place and any other event
   in none; events leave in acceptance order; the inner publisher is called at most once
   per event, exactly once when it is settled, and then the dead-letter hook exactly if that failed.
   */
  lemma ExactlyOnce(cfg: Config, steps: seq<Step>, e: nat)
    ensures var s := After(cfg, steps);
            && s.accepted == s.taken + s.queue
            && Places(s, e) == (if e in s.accepted then 1 else 0)
            && s.calls[e] <= 1
            && (e in s.settled ==> s.calls[e] == 1 && s.deadLetters[e] == s.failed[e])
            && (e in s.deadLetters ==> s.deadLetters[e] == 1 && s.failed[e] == 1 && e in s.settled)
  {
    hide After;
    RunConserves(cfg, steps);
    assert EventAccounted(After(cfg, steps), e);
    AccountedOnce(After(cfg, steps), e);
  }

  lemma AccountedOnce(s: State, e: nat)
    requires EventAccounted(s, e)
    ensures Places(s, e) == (if e in s.accepted then 1 else 0)
    ensures s.calls[e] <= 1
    ensures e in s.settled ==> s.calls[e] == 1 && s.deadLetters[e] == s.failed[e]
    ensures e in s.deadLetters ==> s.deadLetters[e] == 1 && s.failed[e] == 1 && e in s.settled
  {
    assert e in s.accepted <==> e in multiset(s.accepted);
  }

  // ------------------------------------------------------------------
  // Depth

  /** How many events may be in the channel or on their way into it. */
  ghost predicate DepthBounded(cfg: Config, s: State) {
    && |s.queue| <= cfg.capacity
    && |s.pending| <= cfg.publishers
    && (cfg.bp.enabled && cfg.capacity > 0 && 0.0 < cfg.bp.hardLimitRatio <= 1.0 ==>
          |s.queue| + |s.pending| <= LimitFromRatio(cfg.capacity, cfg.bp.hardLimitRatio) - 1 + cfg.publishers)
  }

  lemma StepKeepsDepth(cfg: Config, s: State, step: Step)
    requires DepthBounded(cfg, s)
    ensures DepthBounded(cfg, Apply(cfg, s, step))
  {
    if step.Check? && cfg.bp.enabled && cfg.capacity > 0 && 0.0 < cfg.bp.hardLimitRatio <= 1.0 {
      HardLimitIsADepth(cfg.bp, cfg.capacity, |s.queue|, step.failureRatio, step.samples);
    }
  }

  lemma {:induction false} RunKeepsDepth(cfg: Config, steps: seq<Step>)
    ensures DepthBounded(cfg, After(cfg, steps))
  {
    if steps != [] {
      RunKeepsDepth(cfg, steps[..|steps| - 1]);
      StepKeepsDepth(cfg, After(cfg, steps[..|steps| - 1]), steps[|steps| - 1]);
    } else if cfg.capacity > 0 && 0.0 < cfg.bp.hardLimitRatio <= 1.0 && cfg.bp.enabled {
      HardLimitIsADepth(cfg.bp, cfg.capacity, 0, 0.0, 0);
    }
  }

  /** P concurrent publishers overshoot the hard limit by less than P, because check and send are apart. */
  lemma OvershootBound(cfg: Config, steps: seq<Step>)
    requires cfg.bp.enabled && cfg.capacity > 0 && 0.0 < cfg.bp.hardLimitRatio <= 1.0
    ensures var depth, limit := |After(cfg, steps).queue|, LimitFromRatio(cfg.capacity, cfg.bp.hardLimitRatio);
            depth <= cfg.capacity && depth <= limit - 1 + cfg.publishers
  {
    RunKeepsDepth(cfg, steps);
  }

  // ------------------------------------------------------------------
  // Closing

  ghost predicate Orderly(cfg: Config, s: State) {
    && s.waiting + |s.holding| + |s.answered| + s.exited == cfg.workers
    && s.closersLeft <= |Closers(cfg.pubsub)|
    && (s.exited > 0 ==> s.closed && s.queue == [])
    && (s.closersLeft < |Closers(cfg.pubsub)| ==> s.closed && s.exited == cfg.workers)
    && (s.innerClosed <==> cfg.pubsub && s.closersLeft == 0)
    && (cfg.quiesced && s.closed ==> s.pending == multiset{})
    && (cfg.quiesced ==> !s.panicked)
  }

  lemma CheckKeepsOrder(cfg: Config, s: State, failureRatio: real, samples: nat)
    requires Orderly(cfg, s)
    ensures Orderly(cfg, Checked(cfg, s, failureRatio, samples))
  {
    hide Decide, TakeSnapshot, Closers;
  }

  lemma SendKeepsOrder(cfg: Config, s: State, e: nat)
    requires Orderly(cfg, s) && e in s.pending
    ensures Orderly(cfg, Sent(cfg, s, e))
  {
    hide Closers;
  }

  lemma HandOverKeepsOrder(cfg: Config, s: State, e: nat)
    requires Orderly(cfg, s) && e in s.pending && !s.closed && s.waiting > 0
    ensures Orderly(cfg, HandedOver(s, e))
  {
    hide Closers;
  }

  lemma PublisherKeepsOrder(cfg: Config, s: State, step: Step)
    requires Orderly(cfg, s) && (step.Check? || step.Send? || step.HandOver?)
    ensures Orderly(cfg, Apply(cfg, s, step))
  {
    hide Checked, Sent, HandedOver, Orderly;
    if Enabled(cfg, s, step) {
      match step
      case Check(failureRatio, samples) => CheckKeepsOrder(cfg, s, failureRatio, samples);
      case Send(e) => SendKeepsOrder(cfg, s, e);
      case HandOver(e) => HandOverKeepsOrder(cfg, s, e);
    }
  }

  lemma TakeOne<T>(m: multiset<T>, x: T)
    requires x in m
    ensures |m - multiset{x}| == |m| - 1
  {
  }

  lemma CallKeepsOrder(cfg: Config, s: State, e: nat, ok: bool)
    requires Orderly(cfg, s) && e in s.holding
    ensures Orderly(cfg, Called(s, e, ok))
  {
    hide Closers;
    TakeOne(s.holding, e);
  }

  lemma SettleKeepsOrder(cfg: Config, s: State, e: nat, ok: bool)
    requires Orderly(cfg, s) && (e, ok) in s.answered
    ensures Orderly(cfg, Settled(s, e, ok))
  {
    hide Closers;
    TakeOne(s.answered, (e, ok));
  }

  lemma WorkerKeepsOrder(cfg: Config, s: State, step: Step)
    requires Orderly(cfg, s) && WorkerStep(step)
    ensures Orderly(cfg, Apply(cfg, s, step))
  {
    hide Closers, Called, Settled;
    if step.CallInner? && step.e in s.holding {
      CallKeepsOrder(cfg, s, step.e, step.ok);
    } else if step.Settle? && (step.e, step.ok) in s.answered {
      SettleKeepsOrder(cfg, s, step.e, step.ok);
    }
  }

  lemma CloserKeepsOrder(cfg: Config, s: State, step: Step)
    requires Orderly(cfg, s) && (step.CloseChannel? || step.WorkersDone? || step.CloseInnerPublisher?)
    ensures Orderly(cfg, Apply(cfg, s, step))
  {
  }

  lemma StepKeepsOrder(cfg: Config, s: State, step: Step)
    requires Orderly(cfg, s)
    ensures Orderly(cfg, Apply(cfg, s, step))
  {
    hide Apply, Orderly;
    if WorkerStep(step) {
      WorkerKeepsOrder(cfg, s, step);
    } else if step.Check? || step.Send? || step.HandOver? {
      PublisherKeepsOrder(cfg, s, step);
    } else {
      CloserKeepsOrder(cfg, s, step);
    }
  }

  lemma {:induction false} RunKeepsOrder(cfg: Config, steps: seq<Step>)
    requires cfg.workers > 0
    ensures Orderly(cfg, After(cfg, steps))
  {
    if steps != [] {
      RunKeepsOrder(cfg, steps[..|steps| - 1]);
      StepKeepsOrder(cfg, After(cfg, steps[..|steps| - 1]), steps[|steps| - 1]);
    }
  }

  /** When the workers are done every accepted event is settled; the inner publisher is closed only then. */
  lemma DrainedBeforeInnerCloses(cfg: Config, steps: seq<Step>)
    requires cfg.workers > 0
    ensures var s := After(cfg, steps);
            && (s.innerClosed ==> s.closed && s.exited == cfg.workers)
            && (s.exited == cfg.workers ==> s.settled == multiset(s.accepted))
            && (s.innerClosed ==> forall e, ok :: !Enabled(cfg, s, CallInner(e, ok)))
  {
    RunKeepsOrder(cfg, steps);
    RunConserves(cfg, steps);
    var s := After(cfg, steps);
    if s.exited == cfg.workers {
      assert |s.holding| == 0 && |s.answered| == 0;
      forall e
        ensures s.settled[e] == multiset(s.accepted)[e]
      {
        assert EventAccounted(s, e);
      }
    }
  }

  lemma WorkersDoneReleases(cfg: Config, s: State)
    requires Orderly(cfg, s) && cfg.workers > 0 && s.exited == cfg.workers
    ensures var t := Apply(cfg, s, WorkersDone);
            && (if cfg.pubsub then t.closersLeft <= 1 else t.closersLeft == 0)
            && t.innerClosed == s.innerClosed
  {
    hide Decide, TakeSnapshot;
  }

  lemma InnerCloserFinishes(cfg: Config, s: State)
    requires if cfg.pubsub then s.closersLeft <= 1 else s.closersLeft == 0
    requires s.closersLeft == 0 ==> s.innerClosed == cfg.pubsub
    ensures var t := Apply(cfg, s, CloseInnerPublisher);
            t.closersLeft == 0 && t.innerClosed == cfg.pubsub
  {
    hide Decide, TakeSnapshot;
  }

  lemma CloseCanStart(cfg: Config, s: State)
    requires Orderly(cfg, s) && !s.closed
    ensures Enabled(cfg, s, CloseChannel) <==> !cfg.quiesced || s.pending == multiset{}
  {
    hide Decide, TakeSnapshot;
    assert Closers(cfg.pubsub)[|Closers(cfg.pubsub)| - 1] == CloseQueue;
  }

  /** Closing starts whenever it may, and once the workers have left it runs to its end. */
  lemma CloseFinishes(cfg: Config, steps: seq<Step>)
    requires cfg.workers > 0
    ensures var s := After(cfg, steps);
            && (!s.closed ==> (Enabled(cfg, s, CloseChannel) <==> !cfg.quiesced || s.pending == multiset{}))
            && (s.exited == cfg.workers ==>
                  var t := Apply(cfg, Apply(cfg, s, WorkersDone), CloseInnerPublisher);
                  t.closersLeft == 0 && t.innerClosed == cfg.pubsub)
  {
    RunKeepsOrder(cfg, steps);
    var s := After(cfg, steps);
    hide After, Apply, Enabled;
    if !s.closed {
      CloseCanStart(cfg, s);
    }
    if s.exited == cfg.workers {
      WorkersDoneReleases(cfg, s);
      InnerCloserFinishes(cfg, Apply(cfg, s, WorkersDone));
    }
  }

  /** Work the workers still have to do once the queue is closed. */
  function WorkLeft(s: State): nat {
    4 * |s.queue| + 3 * |s.holding| + 2 * |s.answered| + s.waiting
  }

  /** Close cannot hang: some worker step is enabled until all have left, and each one uses up work. */
  lemma DrainProgresses(cfg: Config, steps: seq<Step>)
    requires cfg.workers > 0 && After(cfg, steps).closed
    ensures var s := After(cfg, steps);
            && (s.exited < cfg.workers ==> exists step :: WorkerStep(step) && Enabled(cfg, s, step))
            && (forall step | WorkerStep(step) && Enabled(cfg, s, step) :: WorkLeft(Apply(cfg, s, step)) < WorkLeft(s))
            && (forall step :: WorkLeft(Apply(cfg, s, step)) <= WorkLeft(s) && Apply(cfg, s, step).closed)
  {
    hide After;
    RunKeepsOrder(cfg, steps);
    var s := After(cfg, steps);
    if s.exited < cfg.workers {
      SomeWorkerCanMove(cfg, s);
    }
    forall step
      ensures WorkLeft(Apply(cfg, s, step)) <= WorkLeft(s) && Apply(cfg, s, step).closed
      ensures WorkerStep(step) && Enabled(cfg, s, step) ==> WorkLeft(Apply(cfg, s, step)) < WorkLeft(s)
    {
      StepUsesWork(cfg, s, step);
    }
  }

  lemma SomeWorkerCanMove(cfg: Config, s: State)
    requires Orderly(cfg, s) && s.closed && s.exited < cfg.workers
    ensures exists step :: WorkerStep(step) && Enabled(cfg, s, step)
  {
    if s.waiting > 0 {
      assert WorkerStep(Receive) && WorkerStep(Exit);
      assert Enabled(cfg, s, Receive) || Enabled(cfg, s, Exit);
    } else if |s.holding| > 0 {
      var e :| e in s.holding;
      assert WorkerStep(CallInner(e, true)) && Enabled(cfg, s, CallInner(e, true));
    } else {
      assert |s.answered| > 0;
      var a :| a in s.answered;
      assert WorkerStep(Settle(a.0, a.1)) && Enabled(cfg, s, Settle(a.0, a.1));
    }
  }

  lemma WorkerUsesWork(cfg: Config, s: State, step: Step)
    requires WorkerStep(step) && Enabled(cfg, s, step)
    ensures WorkLeft(Apply(cfg, s, step)) < WorkLeft(s)
  {
    hide Decide, TakeSnapshot, Closing;
    match step
    case CallInner(e, ok) => TakeOne(s.holding, e);
    case Settle(e, ok) => TakeOne(s.answered, (e, ok));
    case _ =>
  }

  lemma StepUsesWork(cfg: Config, s: State, step: Step)
    requires s.closed
    ensures WorkLeft(Apply(cfg, s, step)) <= WorkLeft(s) && Apply(cfg, s, step).closed
    ensures WorkerStep(step) && Enabled(cfg, s, step) ==> WorkLeft(Apply(cfg, s, step)) < WorkLeft(s)
  {
    hide Decide, TakeSnapshot, Closing;
    if WorkerStep(step) && Enabled(cfg, s, step) {
      hide WorkLeft;
      WorkerUsesWork(cfg, s, step);
    }
  }

  /**
   What becomes of an admitted event: the channel takes it while there is room, a waiting
   worker takes it from an empty channel, also an unbuffered one; else it is turned away.
   */
  lemma SendTakesIff(cfg: Config, s: State, e: nat)
    requires e in s.pending && !s.closed
    ensures var sent := Apply(cfg, s, Send(e));
            && sent.accepted == (if |s.queue| < cfg.capacity then s.accepted + [e] else s.accepted)
            && sent.queue == (if |s.queue| < cfg.capacity then s.queue + [e] else s.queue)
            && sent.pending == s.pending - multiset{e} && sent.waiting == s.waiting
    ensures var handed := Apply(cfg, s, HandOver(e));
            if s.queue == [] && s.waiting >= 1 then
              && handed.accepted == s.accepted + [e] && handed.holding == s.holding + multiset{e}
              && handed.pending == s.pending - multiset{e} && handed.waiting == s.waiting - 1
            else handed == s
  {
    hide Decide, TakeSnapshot, Closing;
  }

  lemma AfterOneMore(cfg: Config, steps: seq<Step>, step: Step)
    ensures After(cfg, steps + [step]) == Apply(cfg, After(cfg, steps), step)
  {
    assert (steps + [step])[..|steps|] == steps;
  }

  /** A publisher between its check and its send meets the closed channel. */
  lemma OverlapPanics(cfg: Config) returns (steps: seq<Step>)
    requires cfg.publishers > 0 && !cfg.quiesced && cfg.bp.softLimitRatio > 0.0 && cfg.bp.hardLimitRatio > 0.0
    ensures After(cfg, steps).panicked
  {
    var s0 := Initial(cfg);
    EmptyQueueAdmits(cfg.bp, cfg.capacity);
    assert Closing(cfg, s0, CloseQueue);
    steps := [] + [Check(0.0, 0)] + [CloseChannel] + [Send(0)];
    AfterOneMore(cfg, [], Check(0.0, 0));
    AfterOneMore(cfg, [] + [Check(0.0, 0)], CloseChannel);
    AfterOneMore(cfg, [] + [Check(0.0, 0)] + [CloseChannel], Send(0));
    OverlapStates(cfg, s0);
  }

  lemma OverlapStates(cfg: Config, s: State)
    requires cfg.publishers > 0 && !cfg.quiesced && s == Initial(cfg) && Closing(cfg, s, CloseQueue)
    requires Decide(cfg.bp, TakeSnapshot(0, cfg.capacity, 0.0, 0)) == Admit
    ensures Apply(cfg, Apply(cfg, Apply(cfg, s, Check(0.0, 0)), CloseChannel), Send(0)).panicked
  {
    hide Decide, TakeSnapshot;
    var s1 := Apply(cfg, s, Check(0.0, 0));
    assert s1 == s.(pending := multiset{0}, next := 1);
    var s2 := Apply(cfg, s1, CloseChannel);
    assert s2 == s1.(closed := true);
  }

  lemma EmptyQueueAdmits(bp: Backpressure, capacity: nat)
    requires bp.softLimitRatio > 0.0 && bp.hardLimitRatio > 0.0
    ensures Decide(bp, TakeSnapshot(0, capacity, 0.0, 0)) == Admit
  {
    if capacity > 0 {
      assert 0.0 / capacity as real == 0.0;
    }
  }

  /** No send ever meets a closed channel exactly when Publish never overlaps Close. */
  lemma NoPanicIff(cfg: Config, o: Options)
    requires cfg.workers > 0 && cfg.bp == WithDefaults(o).backpressure
    ensures (forall steps :: !After(cfg, steps).panicked) <==> cfg.quiesced || cfg.publishers == 0
  {
    DefaultsAreSane(o);
    if cfg.quiesced {
      forall steps
        ensures !After(cfg, steps).panicked
      {
        RunKeepsOrder(cfg, steps);
      }
    } else if cfg.publishers == 0 {
      forall steps
        ensures !After(cfg, steps).panicked
      {
        NobodyToPanic(cfg, steps);
      }
    } else {
      var steps := OverlapPanics(cfg);
    }
  }

  lemma NobodyMoves(cfg: Config, s: State, step: Step)
    requires cfg.publishers == 0 && s.pending == multiset{}
    ensures Apply(cfg, s, step).pending == multiset{} && Apply(cfg, s, step).panicked == s.panicked
  {
    hide Decide, TakeSnapshot, Closing;
  }

  lemma {:induction false} NobodyToPanic(cfg: Config, steps: seq<Step>)
    requires cfg.publishers == 0
    ensures After(cfg, steps).pending == multiset{} && !After(cfg, steps).panicked
  {
    if steps != [] {
      NobodyToPanic(cfg, steps[..|steps| - 1]);
      hide Apply;
      NobodyMoves(cfg, After(cfg, steps[..|steps| - 1]), steps[|steps| - 1]);
    }
  }

  // ------------------------------------------------------------------
  // The reverse loop

  /** Closers run from the last registered to the first, up to the first that fails. */
  function RunInReverse(closers: seq<Closer>, fails: Closer -> bool): (seq<Closer>, bool) {
    if closers == [] then ([], true)
    else
      var last := closers[|closers| - 1];
      if fails(last) then ([last], false)
      else
        var (rest, ok) := RunInReverse(closers[..|closers| - 1], fails);
        ([last] + rest, ok)
  }

  lemma ReverseTurn(closers: seq<Closer>, fails: Closer -> bool, i: nat)
    requires 0 < i <= |closers|
    ensures var (rest, ok) := RunInReverse(closers[..i - 1], fails);
            RunInReverse(closers[..i], fails) ==
            if fails(closers[i - 1]) then ([closers[i - 1]], false) else ([closers[i - 1]] + rest, ok)
  {
    assert closers[..i][..i - 1] == closers[..i - 1];
  }

  method CloseRuntime(closers: seq<Closer>, fails: Closer -> bool) returns (executed: seq<Closer>, ok: bool)
    ensures (executed, ok) == RunInReverse(closers, fails)
  {
    executed := [];
    var i := |closers|;
    assert closers[..i] == closers;
    assert RunInReverse(closers[..0], fails) == ([], true);
    hide RunInReverse;
    assert [] + RunInReverse(closers, fails).0 == RunInReverse(closers, fails).0;
    while i > 0
      invariant 0 <= i <= |closers|
      invariant executed + RunInReverse(closers[..i], fails).0 == RunInReverse(closers, fails).0
      invariant RunInReverse(closers[..i], fails).1 == RunInReverse(closers, fails).1
    {
      ReverseTurn(closers, fails, i);
      ghost var before, rest := executed, RunInReverse(closers[..i - 1], fails).0;
      i := i - 1;
      executed := executed + [closers[i]];
      if fails(closers[i]) {
        return executed, false;
      }
      assert executed + rest == before + ([closers[i]] + rest);
    }
    assert executed + [] == executed;
    ok := true;
  }

  /** All closers up to the last-registered failing one run, in reverse; the run succeeds exactly if none fails. */
  lemma {:induction false} ReverseUpToFailure(closers: seq<Closer>, fails: Closer -> bool)
    ensures var (executed, ok) := RunInReverse(closers, fails); var n := |executed|;
            && n <= |closers| && (closers != [] ==> n > 0)
            && (forall i | 0 <= i < n :: executed[i] == closers[|closers| - 1 - i])
            && (forall i | 0 <= i < n - 1 :: !fails(executed[i]))
            && (ok <==> n == |closers| && (n > 0 ==> !fails(executed[n - 1])))
            && (!ok ==> n > 0 && fails(executed[n - 1]))
  {
    if closers != [] {
      var last := closers[|closers| - 1];
      ReverseUpToFailure(closers[..|closers| - 1], fails);
    }
  }

  /** The queue, whose Close never fails, is closed before the inner publisher. */
  lemma QueueClosesFirst(pubsub: bool, fails: Closer -> bool)
    requires !fails(CloseQueue)
    ensures RunInReverse(Closers(pubsub), fails).0 == [CloseQueue] + if pubsub then [CloseInner] else []
  {
    var closers := Closers(pubsub);
    assert closers[..|closers| - 1] == if pubsub then [CloseInner] else [];
    assert [CloseInner][..0] == [];
  }
}
