/**
 Closing with the bulkhead enabled (internal/queue/factory.go, internal/queue/bulkhead.go):
 any number of source queues in front of one inner publisher.  Each queue is the system of
 AsyncQueue; the inner publisher is closed once, when every queue has been closed and drained.
 */
module ManyQueues {
  import opened AsyncQueue
  import opened Admission

  /** A step of queue `i`, or the closing of the inner publisher behind all of them. */
  datatype JointStep = On(i: nat, step: Step) | CloseInnerOnce

  /** All queues stand before the closing of the inner publisher. */
  predicate AllDrained(cfgs: seq<Config>, queues: seq<State>)
    requires |queues| == |cfgs|
  {
    forall i | 0 <= i < |cfgs| :: Closing(cfgs[i], queues[i], CloseInner)
  }

  /**
   The bulkhead may close its queues in any order, or at once; a queue does not close the
   inner publisher by itself.
   */
  function JointApply(cfgs: seq<Config>, queues: seq<State>, joint: JointStep): (queues': seq<State>)
    requires |queues| == |cfgs|
    ensures |queues'| == |cfgs|
  {
    match joint
    case On(i, step) =>
      if i < |cfgs| && !step.CloseInnerPublisher? then queues[i := Apply(cfgs[i], queues[i], step)] else queues
    case CloseInnerOnce =>
      if AllDrained(cfgs, queues) then
        seq(|cfgs|, i requires 0 <= i < |cfgs| => Apply(cfgs[i], queues[i], CloseInnerPublisher))
      else queues
  }

  function JointAfter(cfgs: seq<Config>, steps: seq<JointStep>): (queues: seq<State>)
    ensures |queues| == |cfgs|
  {
    if steps == [] then seq(|cfgs|, i requires 0 <= i < |cfgs| => Initial(cfgs[i]))
    else JointApply(cfgs, JointAfter(cfgs, steps[..|steps| - 1]), steps[|steps| - 1])
  }

  /** What a joint run is for queue `i`. */
  function Seen(cfgs: seq<Config>, steps: seq<JointStep>, i: nat): seq<Step>
    requires i < |cfgs|
  {
    if steps == [] then []
    else
      var init, last := steps[..|steps| - 1], steps[|steps| - 1];
      Seen(cfgs, init, i)
      + match last
        case On(j, step) => if j == i && !step.CloseInnerPublisher? then [step] else []
        case CloseInnerOnce => if AllDrained(cfgs, JointAfter(cfgs, init)) then [CloseInnerPublisher] else []
  }

  /** Every queue of a joint run goes through a run of its own. */
  lemma {:induction false} JointRunProjects(cfgs: seq<Config>, steps: seq<JointStep>, i: nat)
    requires i < |cfgs|
    ensures JointAfter(cfgs, steps)[i] == After(cfgs[i], Seen(cfgs, steps, i))
  {
    hide Apply, AllDrained;
    if steps != [] {
      var init, last := steps[..|steps| - 1], steps[|steps| - 1];
      JointRunProjects(cfgs, init, i);
      var seen := Seen(cfgs, init, i);
      assert seen + [] == seen;
      match last
      case On(_, step) => AfterOneMore(cfgs[i], seen, step);
      case CloseInnerOnce => AfterOneMore(cfgs[i], seen, CloseInnerPublisher);
    }
  }

  /** With a real inner publisher behind them, all queues together have closed it or none has. */
  lemma {:induction false} ClosedTogether(cfgs: seq<Config>, steps: seq<JointStep>, i: nat, j: nat)
    requires i < |cfgs| && j < |cfgs|
    requires forall k | 0 <= k < |cfgs| :: cfgs[k].pubsub
    ensures JointAfter(cfgs, steps)[i].innerClosed == JointAfter(cfgs, steps)[j].innerClosed
  {
    hide Decide, TakeSnapshot;
    if steps != [] {
      var init, last := steps[..|steps| - 1], steps[|steps| - 1];
      ClosedTogether(cfgs, init, i, j);
      match last
      case On(k, step) =>
        if k < |cfgs| && !step.CloseInnerPublisher? {
          OnlyItsStepCloses(cfgs[k], JointAfter(cfgs, init)[k], step);
        }
      case CloseInnerOnce =>
        hide Apply;
        if AllDrained(cfgs, JointAfter(cfgs, init)) {
          ItsStepCloses(cfgs[i], JointAfter(cfgs, init)[i]);
          ItsStepCloses(cfgs[j], JointAfter(cfgs, init)[j]);
        }
    }
  }

  lemma OnlyItsStepCloses(cfg: Config, s: State, step: Step)
    requires !step.CloseInnerPublisher?
    ensures Apply(cfg, s, step).innerClosed == s.innerClosed
  {
    hide Decide, TakeSnapshot, Closing;
  }

  lemma ItsStepCloses(cfg: Config, s: State)
    requires Closing(cfg, s, CloseInner)
    ensures Apply(cfg, s, CloseInnerPublisher).innerClosed
  {
    hide Closing;
  }

  /**
   Over all interleavings of all queues: when the inner publisher is closed, every event
   that any queue accepted is settled, and no queue ever calls it afterwards.
   */
  lemma AllDrainedBeforeInnerCloses(cfgs: seq<Config>, steps: seq<JointStep>, i: nat, j: nat)
    requires i < |cfgs| && j < |cfgs|
    requires forall k | 0 <= k < |cfgs| :: cfgs[k].pubsub && cfgs[k].workers > 0
    ensures var queues := JointAfter(cfgs, steps);
            && (queues[i].innerClosed ==> queues[j].closed && queues[j].settled == multiset(queues[j].accepted))
            && (queues[i].innerClosed ==> forall e, ok :: !Enabled(cfgs[j], queues[j], CallInner(e, ok)))
  {
    hide After, Apply;
    ClosedTogether(cfgs, steps, i, j);
    JointRunProjects(cfgs, steps, j);
    DrainedBeforeInnerCloses(cfgs[j], Seen(cfgs, steps, j));
  }

  /** In each queue an accepted event is in exactly one place, whatever the other queues do. */
  lemma EachExactlyOnce(cfgs: seq<Config>, steps: seq<JointStep>, i: nat, e: nat)
    requires i < |cfgs|
    ensures var s := JointAfter(cfgs, steps)[i];
            && Places(s, e) == (if e in s.accepted then 1 else 0)
            && s.calls[e] <= 1
            && (e in s.settled ==> s.calls[e] == 1 && s.deadLetters[e] == s.failed[e])
  {
    hide After;
    JointRunProjects(cfgs, steps, i);
    ExactlyOnce(cfgs[i], Seen(cfgs, steps, i), e);
  }
}
