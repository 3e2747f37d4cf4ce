/**
 Where an event lives between the webhook handler (internal/handlers/webhooks.go),
 the duplicate filter, the queue, its workers and the dead-letter hook
 (cmd/server/main.go), over all interleavings.

 Requests are numbered in order of arrival.  The key of a request is its source and
 event id.  The failed-event store only appends and its saves succeed.  With `retry`
 the retry scheduler also runs: its Publish only enqueues, and it deletes afterwards.
 */
module Ledger {

  datatype Key = Key(source: string, eventID: string)

  /** Requests without an event id are not filtered. */
  predicate Filtered(key: Key) {
    key.eventID != ""
  }

  datatype State = State(
    requests: seq<Key>,
    seen: set<Key>,             // the duplicate filter
    arrived: multiset<nat>,     // handlers before the filter
    publishing: multiset<nat>,  // handlers past the filter, Publish not yet returned
    forgetting: multiset<nat>,  // handlers whose Publish failed, before Forget
    saving: multiset<nat>,      // the same, before Save
    queue: seq<nat>,
    inFlight: multiset<nat>,    // with a worker, the inner publisher being called
    deadForget: multiset<nat>,  // in the dead-letter hook, before Forget
    deadSave: multiset<nat>,    // in the dead-letter hook, before Save
    delivered: multiset<nat>,
    failed: multiset<nat>,      // records in the failed-event store
    accepted: set<nat>,         // requests that the filter let through
    answered: set<nat>,         // requests answered 202 because their event was queued
    duplicates: set<nat>,       // requests answered 202 as duplicates
    deleting: multiset<nat>)    // retried events whose record is about to be deleted

  datatype Step =
    | Arrive(key: Key)
    | Look(r: nat)
    | PublishOk(r: nat)
    | PublishFails(r: nat)
    | Forget(r: nat)
    | Save(r: nat)
    | Take
    | Deliver(r: nat)
    | InnerFails(r: nat)
    | DeadForget(r: nat)
    | DeadSave(r: nat)
    | Expire(key: Key)
    | RetryPublish(r: nat)
    | RetryDelete(r: nat)

  const INITIAL: State :=
    State([], {}, multiset{}, multiset{}, multiset{}, multiset{}, [], multiset{}, multiset{}, multiset{},
          multiset{}, multiset{}, {}, {}, {}, multiset{})

  predicate Enabled(retry: bool, s: State, step: Step) {
    match step
    case Arrive(_) => true
    case Look(r) => r in s.arrived && r < |s.requests|
    case PublishOk(r) => r in s.publishing
    case PublishFails(r) => r in s.publishing
    case Forget(r) => r in s.forgetting && r < |s.requests|
    case Save(r) => r in s.saving
    case Take => s.queue != []
    case Deliver(r) => r in s.inFlight
    case InnerFails(r) => r in s.inFlight
    case DeadForget(r) => r in s.deadForget && r < |s.requests|
    case DeadSave(r) => r in s.deadSave
    case Expire(_) => true
    case RetryPublish(r) => retry && r in s.failed
    case RetryDelete(r) => retry && r in s.deleting
  }

  /** The filter knows the key. */
  function Turned(s: State, r: nat): State {
    s.(arrived := s.arrived - multiset{r}, duplicates := s.duplicates + {r})
  }

  function Passed(s: State, r: nat): State
    requires r < |s.requests|
  {
    var key := s.requests[r];
    s.(arrived := s.arrived - multiset{r}, publishing := s.publishing + multiset{r}, accepted := s.accepted + {r},
       seen := if Filtered(key) then s.seen + {key} else s.seen)
  }

  /** One atomic step; a step that is not enabled changes nothing. */
  function Apply(retry: bool, s: State, step: Step): State {
    if !Enabled(retry, s, step) then s else
    match step
    case Arrive(key) => s.(requests := s.requests + [key], arrived := s.arrived + multiset{|s.requests|})
    case Look(r) =>
      if Filtered(s.requests[r]) && s.requests[r] in s.seen then Turned(s, r) else Passed(s, r)
    case PublishOk(r) =>
      s.(publishing := s.publishing - multiset{r}, queue := s.queue + [r], answered := s.answered + {r})
    case PublishFails(r) =>
      s.(publishing := s.publishing - multiset{r}, forgetting := s.forgetting + multiset{r})
    case Forget(r) =>
      s.(forgetting := s.forgetting - multiset{r}, saving := s.saving + multiset{r}, seen := s.seen - {s.requests[r]})
    case Save(r) => s.(saving := s.saving - multiset{r}, failed := s.failed + multiset{r})
    case Take => s.(queue := s.queue[1..], inFlight := s.inFlight + multiset{s.queue[0]})
    case Deliver(r) => s.(inFlight := s.inFlight - multiset{r}, delivered := s.delivered + multiset{r})
    case InnerFails(r) => s.(inFlight := s.inFlight - multiset{r}, deadForget := s.deadForget + multiset{r})
    case DeadForget(r) =>
      s.(deadForget := s.deadForget - multiset{r}, deadSave := s.deadSave + multiset{r}, seen := s.seen - {s.requests[r]})
    case DeadSave(r) => s.(deadSave := s.deadSave - multiset{r}, failed := s.failed + multiset{r})
    case Expire(key) => s.(seen := s.seen - {key})
    case RetryPublish(r) => s.(queue := s.queue + [r], deleting := s.deleting + multiset{r})
    case RetryDelete(r) => s.(failed := s.failed[r := 0], deleting := s.deleting - multiset{r})
  }

  function After(retry: bool, steps: seq<Step>): State {
    if steps == [] then INITIAL
    else Apply(retry, After(retry, steps[..|steps| - 1]), steps[|steps| - 1])
  }

  // ------------------------------------------------------------------
  // Where a request's event is

  function WithHandler(s: State, r: nat): nat {
    s.publishing[r] + s.forgetting[r] + s.saving[r]
  }

  /** Queued, with a worker, in the dead-letter hook, delivered, or on record as failed. */
  function BeyondHandler(s: State, r: nat): nat {
    multiset(s.queue)[r] + s.inFlight[r] + s.deadForget[r] + s.deadSave[r] + s.delivered[r] + s.failed[r]
  }

  /** The event of some request with this key is somewhere. */
  ghost predicate Held(s: State, key: Key) {
    exists r | r in s.accepted :: r < |s.requests| && s.requests[r] == key && WithHandler(s, r) + BeyondHandler(s, r) >= 1
  }

  /** Every request answered 202 has its event somewhere past the handler, or is a duplicate of one that is held. */
  ghost predicate NothingLost(s: State) {
    && (forall r | r in s.answered :: BeyondHandler(s, r) >= 1)
    && (forall r | r in s.duplicates :: r < |s.requests| && Held(s, s.requests[r]))
  }

  // ------------------------------------------------------------------
  // Without retry: exactly one place for every accepted request

  ghost predicate Accounted(s: State, r: nat) {
    && s.arrived[r] + (if r in s.accepted then 1 else 0) + (if r in s.duplicates then 1 else 0)
         == (if r < |s.requests| then 1 else 0)
    && WithHandler(s, r) + BeyondHandler(s, r) == (if r in s.accepted then 1 else 0)
    && (r in s.answered ==> BeyondHandler(s, r) == 1)
  }

  /** Some request with this key was let through the filter. */
  ghost predicate LetThrough(s: State, key: Key) {
    exists r | r in s.accepted :: r < |s.requests| && s.requests[r] == key
  }

  /** Every key in the filter, and every duplicate, goes back to an accepted request. */
  ghost predicate Backed(s: State) {
    && (forall key | key in s.seen :: LetThrough(s, key))
    && (forall d | d in s.duplicates :: d < |s.requests| && LetThrough(s, s.requests[d]))
  }

  ghost predicate Inv(s: State) {
    Backed(s) && s.deleting == multiset{} && forall r :: Accounted(s, r)
  }

  lemma ArrivalAccounts(s: State, step: Step, r: nat)
    requires Accounted(s, r) && step.Arrive?
    ensures Accounted(Apply(false, s, step), r)
  {
  }

  lemma TurnedAccounts(s: State, x: nat, r: nat)
    requires Accounted(s, r) && x in s.arrived
    ensures Accounted(Turned(s, x), r)
  {
  }

  lemma PassedAccounts(s: State, x: nat, r: nat)
    requires Accounted(s, r) && x in s.arrived && x < |s.requests|
    ensures Accounted(Passed(s, x), r)
  {
  }

  lemma LookAccounts(s: State, step: Step, r: nat)
    requires Accounted(s, r) && step.Look?
    ensures Accounted(Apply(false, s, step), r)
  {
    hide Accounted, Turned, Passed;
    if Enabled(false, s, step) {
      TurnedAccounts(s, step.r, r);
      PassedAccounts(s, step.r, r);
    }
  }

  lemma PublishAccounts(s: State, step: Step, r: nat)
    requires Accounted(s, r) && (step.PublishOk? || step.PublishFails?)
    ensures Accounted(Apply(false, s, step), r)
  {
  }

  lemma HandlerStepAccounts(s: State, step: Step, r: nat)
    requires Accounted(s, r) && (step.PublishOk? || step.PublishFails? || step.Forget? || step.Save?)
    ensures Accounted(Apply(false, s, step), r)
  {
    if step.PublishOk? || step.PublishFails? {
      hide Accounted, Apply;
      PublishAccounts(s, step, r);
    }
  }

  lemma WorkerStepAccounts(s: State, step: Step, r: nat)
    requires Accounted(s, r) && (step.Take? || step.Deliver? || step.InnerFails?)
    ensures Accounted(Apply(false, s, step), r)
  {
    if step.Take? && s.queue != [] {
      assert s.queue == [s.queue[0]] + s.queue[1..];
    }
  }

  lemma DeadLetterStepAccounts(s: State, step: Step, r: nat)
    requires Accounted(s, r) && (step.DeadForget? || step.DeadSave?)
    ensures Accounted(Apply(false, s, step), r)
  {
  }

  lemma StepAccounts(s: State, step: Step, r: nat)
    requires Accounted(s, r)
    ensures Accounted(Apply(false, s, step), r)
  {
    hide WithHandler, BeyondHandler;
    match step {
      case Expire(key) => SameEvents(s, key, r);
      case RetryPublish(_) =>
      case RetryDelete(_) =>
      case Arrive(_) => ArrivalAccounts(s, step, r);
      case Look(_) => LookAccounts(s, step, r);
      case Take => WorkerStepAccounts(s, step, r);
      case Deliver(_) => WorkerStepAccounts(s, step, r);
      case InnerFails(_) => WorkerStepAccounts(s, step, r);
      case DeadForget(_) => DeadLetterStepAccounts(s, step, r);
      case DeadSave(_) => DeadLetterStepAccounts(s, step, r);
      case _ => HandlerStepAccounts(s, step, r);
    }
  }

  lemma SameEvents(s: State, key: Key, r: nat)
    ensures var s' := s.(seen := s.seen - {key});
            WithHandler(s', r) == WithHandler(s, r) && BeyondHandler(s', r) == BeyondHandler(s, r)
  {
  }

  lemma StepKeepsBacking(s: State, step: Step)
    requires Backed(s)
    ensures Backed(Apply(false, s, step))
  {
    var s' := Apply(false, s, step);
    assert s.accepted <= s'.accepted && s.requests <= s'.requests;
    forall key
      ensures LetThrough(s, key) ==> LetThrough(s', key)
    {
      if LetThrough(s, key) {
        var r :| r in s.accepted && r < |s.requests| && s.requests[r] == key;
        assert r in s'.accepted && s'.requests[r] == key;
      }
    }
    if step.Look? && Enabled(false, s, step) && s.requests[step.r] !in s.seen {
      assert step.r in s'.accepted && s'.requests[step.r] == s.requests[step.r];
      assert LetThrough(s', s.requests[step.r]);
    }
  }

  lemma {:induction false} RunKeepsInv(steps: seq<Step>)
    ensures Inv(After(false, steps))
  {
    if steps != [] {
      var s, step := After(false, steps[..|steps| - 1]), steps[|steps| - 1];
      RunKeepsInv(steps[..|steps| - 1]);
      StepKeepsBacking(s, step);
      forall r
        ensures Accounted(Apply(false, s, step), r)
      {
        StepAccounts(s, step, r);
      }
    }
  }

  /**
   Every accepted request's event is in exactly one place, in every interleaving; one
   answered 202 is past the handler; no other request's event is anywhere.
   */
  lemma OnePlace(steps: seq<Step>, r: nat)
    ensures var s := After(false, steps);
            && WithHandler(s, r) + BeyondHandler(s, r) == (if r in s.accepted then 1 else 0)
            && (r in s.answered ==> r in s.accepted && BeyondHandler(s, r) == 1)
            && (r in s.duplicates ==> r !in s.accepted)
  {
    RunKeepsInv(steps);
    assert Accounted(After(false, steps), r);
  }

  lemma LedgerHolds(steps: seq<Step>)
    ensures NothingLost(After(false, steps))
  {
    RunKeepsInv(steps);
    var s := After(false, steps);
    forall r | r in s.answered
      ensures BeyondHandler(s, r) >= 1
    {
      assert Accounted(s, r);
    }
    forall d | d in s.duplicates
      ensures d < |s.requests| && Held(s, s.requests[d])
    {
      var r :| r in s.accepted && r < |s.requests| && s.requests[r] == s.requests[d];
      assert Accounted(s, r);
    }
  }

  /** Nobody is working on anything. */
  ghost predicate Quiet(s: State) {
    && s.publishing == multiset{} && s.forgetting == multiset{} && s.saving == multiset{} && s.queue == []
    && s.inFlight == multiset{} && s.deadForget == multiset{} && s.deadSave == multiset{}
  }

  /** Once all is quiet, whatever was answered 202 is delivered or in the failed-event store. */
  lemma QuietMeansDeliveredOrStored(steps: seq<Step>, r: nat)
    requires Quiet(After(false, steps))
    requires r in After(false, steps).answered || r in After(false, steps).duplicates
    ensures var s := After(false, steps);
            && r < |s.requests|
            && exists x: nat :: x < |s.requests| && s.requests[x] == s.requests[r] && s.delivered[x] + s.failed[x] == 1
  {
    var s := After(false, steps);
    RunKeepsInv(steps);
    assert Accounted(s, r);
    var x: nat := r;
    if r in s.duplicates {
      x :| x in s.accepted && x < |s.requests| && s.requests[x] == s.requests[r];
    }
    assert Accounted(s, x);
  }

  // ------------------------------------------------------------------
  // What the filter remembers, from the steps alone

  /** The keys of the requests, in order of arrival. */
  function Arrivals(steps: seq<Step>): seq<Key> {
    if steps == [] then []
    else
      var last := steps[|steps| - 1];
      Arrivals(steps[..|steps| - 1]) + if last.Arrive? then [last.key] else []
  }

  lemma {:induction false} RequestsAreArrivals(retry: bool, steps: seq<Step>)
    ensures After(retry, steps).requests == Arrivals(steps)
  {
    if steps != [] {
      var init, step := steps[..|steps| - 1], steps[|steps| - 1];
      RequestsAreArrivals(retry, init);
      hide After, Arrivals;
      OnlyArrivalsAdd(retry, After(retry, init), step);
    }
  }

  lemma OnlyArrivalsAdd(retry: bool, s: State, step: Step)
    ensures Apply(retry, s, step).requests == s.requests + if step.Arrive? then [step.key] else []
  {
  }

  /** The step looks at a request of this key, which is filtered and let through. */
  predicate Enters(retry: bool, s: State, step: Step, key: Key) {
    && step.Look? && Enabled(retry, s, step) && key.eventID != "" && s.requests[step.r] == key
    && step.r in Apply(retry, s, step).accepted
  }

  /** The step takes effect and forgets this key: after a failed publish, in the dead-letter hook, or by expiry. */
  predicate Clears(retry: bool, s: State, step: Step, key: Key) {
    || ((step.Forget? || step.DeadForget?) && Enabled(retry, s, step) && s.requests[step.r] == key)
    || step == Expire(key)
  }

  lemma LookOnSeen(retry: bool, s: State, step: Step, key: Key)
    requires step.Look?
    ensures key in Apply(retry, s, step).seen <==> Enters(retry, s, step, key) || key in s.seen
  {
  }

  lemma ForgetOnSeen(retry: bool, s: State, step: Step, key: Key)
    requires step.Forget? || step.DeadForget? || step.Expire?
    ensures key in Apply(retry, s, step).seen <==> key in s.seen && !Clears(retry, s, step, key)
  {
  }

  lemma OthersKeepSeen(retry: bool, s: State, step: Step)
    requires !step.Look? && !step.Forget? && !step.DeadForget? && !step.Expire?
    ensures Apply(retry, s, step).seen == s.seen
  {
  }

  lemma StepOnSeen(retry: bool, s: State, step: Step, key: Key)
    ensures key in Apply(retry, s, step).seen <==>
            Enters(retry, s, step, key) || (key in s.seen && !Clears(retry, s, step, key))
  {
    hide Apply;
    if step.Look? {
      LookOnSeen(retry, s, step, key);
    } else if step.Forget? || step.DeadForget? || step.Expire? {
      ForgetOnSeen(retry, s, step, key);
    } else {
      OthersKeepSeen(retry, s, step);
    }
  }

  ghost predicate EntersAt(retry: bool, steps: seq<Step>, n: nat, key: Key)
    requires n < |steps|
  {
    Enters(retry, After(retry, steps[..n]), steps[n], key)
  }

  ghost predicate ClearsAt(retry: bool, steps: seq<Step>, n: nat, key: Key)
    requires n < |steps|
  {
    Clears(retry, After(retry, steps[..n]), steps[n], key)
  }

  /** Let through at step `n` and not forgotten since. */
  ghost predicate RememberedSince(retry: bool, steps: seq<Step>, n: nat, key: Key)
    requires n < |steps|
  {
    EntersAt(retry, steps, n, key) && forall m | n < m < |steps| :: !ClearsAt(retry, steps, m, key)
  }

  ghost predicate Remembered(retry: bool, steps: seq<Step>, key: Key) {
    exists n | 0 <= n < |steps| :: RememberedSince(retry, steps, n, key)
  }

  lemma RememberedOneMore(retry: bool, steps: seq<Step>, key: Key)
    requires steps != []
    ensures var n := |steps| - 1;
            Remembered(retry, steps, key) <==>
            EntersAt(retry, steps, n, key) || (Remembered(retry, steps[..n], key) && !ClearsAt(retry, steps, n, key))
  {
    hide After, Enters, Clears;
    var n := |steps| - 1;
    var init := steps[..n];
    assert forall m | 0 <= m < n :: init[..m] == steps[..m] && init[m] == steps[m];
    if EntersAt(retry, steps, n, key) {
      assert RememberedSince(retry, steps, n, key);
    }
    if Remembered(retry, init, key) && !ClearsAt(retry, steps, n, key) {
      var k :| 0 <= k < n && RememberedSince(retry, init, k, key);
      forall m | k < m < |steps|
        ensures !ClearsAt(retry, steps, m, key)
      {
        assert m < n ==> !ClearsAt(retry, init, m, key);
      }
      assert RememberedSince(retry, steps, k, key);
    }
    if Remembered(retry, steps, key) && !EntersAt(retry, steps, n, key) {
      var k :| 0 <= k < |steps| && RememberedSince(retry, steps, k, key);
      forall m | k < m < n
        ensures !ClearsAt(retry, init, m, key)
      {
        assert !ClearsAt(retry, steps, m, key);
      }
      assert RememberedSince(retry, init, k, key);
    }
  }

  /** The filter holds a key exactly if a request of it was let through and it was not forgotten since. */
  lemma {:induction false} SeenIff(retry: bool, steps: seq<Step>, key: Key)
    ensures key in After(retry, steps).seen <==> Remembered(retry, steps, key)
  {
    if steps != [] {
      var n := |steps| - 1;
      SeenIff(retry, steps[..n], key);
      RememberedOneMore(retry, steps, key);
      StepOnSeen(retry, After(retry, steps[..n]), steps[n], key);
      hide Remembered, Enters, Clears, Apply;
    }
  }

  lemma DeletingOneMore(retry: bool, s: State, step: Step, r: nat)
    requires r in Apply(retry, s, step).deleting && r !in s.deleting
    ensures step == RetryPublish(r) && retry && r in s.failed
  {
  }

  /** At step `m` the scheduler puts the event of a record back into the queue. */
  ghost predicate RetriedAt(retry: bool, steps: seq<Step>, m: nat, r: nat)
    requires m < |steps|
  {
    steps[m] == RetryPublish(r) && retry && r in After(retry, steps[..m]).failed
  }

  lemma {:induction false} DeletingMeansRetried(retry: bool, steps: seq<Step>, r: nat)
    requires r in After(retry, steps).deleting
    ensures exists m | 0 <= m < |steps| :: RetriedAt(retry, steps, m, r)
  {
    assert steps != [];
    var n := |steps| - 1;
    var init := steps[..n];
    if r in After(retry, init).deleting {
      DeletingMeansRetried(retry, init, r);
      hide After;
      var m :| 0 <= m < n && RetriedAt(retry, init, m, r);
      assert init[..m] == steps[..m];
      assert RetriedAt(retry, steps, m, r);
    } else {
      hide Apply;
      DeletingOneMore(retry, After(retry, init), steps[n], r);
      assert RetriedAt(retry, steps, n, r);
    }
  }

  /** The scheduler deletes a record only after it has put its event back into the queue. */
  lemma DeletedAfterRetry(retry: bool, steps: seq<Step>, r: nat)
    requires Enabled(retry, After(retry, steps), RetryDelete(r))
    ensures exists m | 0 <= m < |steps| :: RetriedAt(retry, steps, m, r)
  {
    hide After, RetriedAt;
    DeletingMeansRetried(retry, steps, r);
  }

  /** A request is answered as a duplicate exactly if its key is remembered; otherwise it goes on to publish. */
  lemma DuplicateIff(retry: bool, steps: seq<Step>, r: nat)
    requires r in After(retry, steps).arrived && r < |Arrivals(steps)|
    ensures var s := After(retry, steps); var key := Arrivals(steps)[r];
            if key.eventID != "" && Remembered(retry, steps, key) then
              && Apply(retry, s, Look(r)).duplicates == s.duplicates + {r}
              && Apply(retry, s, Look(r)).publishing == s.publishing
            else
              && Apply(retry, s, Look(r)).duplicates == s.duplicates
              && Apply(retry, s, Look(r)).publishing == s.publishing + multiset{r}
  {
    RequestsAreArrivals(retry, steps);
    SeenIff(retry, steps, Arrivals(steps)[r]);
    hide After, Remembered, Arrivals;
  }

  /** A client that sends again after a failure is not turned away: the key is forgotten before the failure is answered. */
  lemma SentAgainAfterFailure(retry: bool, s: State, r: nat, again: nat)
    requires Enabled(retry, s, Forget(r)) || Enabled(retry, s, DeadForget(r))
    requires again in s.arrived && again < |s.requests| && s.requests[again] == s.requests[r]
    ensures Enabled(retry, s, Forget(r)) ==>
              Apply(retry, Apply(retry, s, Forget(r)), Look(again)).publishing == s.publishing + multiset{again}
    ensures Enabled(retry, s, DeadForget(r)) ==>
              Apply(retry, Apply(retry, s, DeadForget(r)), Look(again)).publishing == s.publishing + multiset{again}
  {
  }

  // ------------------------------------------------------------------
  // Nothing gets stuck

  predicate Internal(step: Step) {
    !step.Arrive? && !step.Expire? && !step.RetryPublish? && !step.RetryDelete?
  }

  /** How many steps the gateway still has to take for what is under way. */
  function WorkLeft(s: State): nat {
    9 * |s.arrived| + 8 * |s.publishing| + 2 * |s.forgetting| + |s.saving| + 5 * |s.queue| + 4 * |s.inFlight|
    + 2 * |s.deadForget| + |s.deadSave|
  }

  lemma TakeOne(m: multiset<nat>, x: nat)
    requires x in m
    ensures |m - multiset{x}| == |m| - 1
  {
  }

  lemma InternalUsesWork(s: State, step: Step)
    requires Internal(step) && Enabled(false, s, step)
    ensures WorkLeft(Apply(false, s, step)) < WorkLeft(s)
  {
    match step
    case Look(r) => TakeOne(s.arrived, r);
    case PublishOk(r) => TakeOne(s.publishing, r);
    case PublishFails(r) => TakeOne(s.publishing, r);
    case Forget(r) => TakeOne(s.forgetting, r);
    case Save(r) => TakeOne(s.saving, r);
    case Take =>
    case Deliver(r) => TakeOne(s.inFlight, r);
    case InnerFails(r) => TakeOne(s.inFlight, r);
    case DeadForget(r) => TakeOne(s.deadForget, r);
    case DeadSave(r) => TakeOne(s.deadSave, r);
  }

  lemma Numbered(steps: seq<Step>, r: nat)
    ensures var s := After(false, steps);
            r in s.arrived || r in s.forgetting || r in s.deadForget ==> r < |s.requests|
  {
    RunKeepsInv(steps);
    hide After;
    assert Accounted(After(false, steps), r);
  }

  /** Every event that is under way can move, wherever it is, and every move uses up work: the gateway comes to rest. */
  lemma NothingIsStuck(steps: seq<Step>, r: nat)
    ensures var s := After(false, steps);
            && (r in s.arrived ==> Enabled(false, s, Look(r)))
            && (r in s.publishing ==> Enabled(false, s, PublishOk(r)) && Enabled(false, s, PublishFails(r)))
            && (r in s.forgetting ==> Enabled(false, s, Forget(r)))
            && (r in s.saving ==> Enabled(false, s, Save(r)))
            && (s.queue != [] ==> Enabled(false, s, Take))
            && (r in s.inFlight ==> Enabled(false, s, Deliver(r)) && Enabled(false, s, InnerFails(r)))
            && (r in s.deadForget ==> Enabled(false, s, DeadForget(r)))
            && (r in s.deadSave ==> Enabled(false, s, DeadSave(r)))
            && (forall step | Internal(step) && Enabled(false, s, step) :: WorkLeft(Apply(false, s, step)) < WorkLeft(s))
  {
    Numbered(steps, r);
    hide After, WorkLeft;
    var s := After(false, steps);
    forall step | Internal(step) && Enabled(false, s, step)
      ensures WorkLeft(Apply(false, s, step)) < WorkLeft(s)
    {
      InternalUsesWork(s, step);
    }
  }

  // ------------------------------------------------------------------
  // With retry an event can be lost

  lemma AfterOneMore(retry: bool, steps: seq<Step>, step: Step)
    ensures After(retry, steps + [step]) == Apply(retry, After(retry, steps), step)
  {
    assert (steps + [step])[..|steps|] == steps;
  }

  function AfterAlso(retry: bool, s: State, steps: seq<Step>): State
    decreases |steps|
  {
    if steps == [] then s else AfterAlso(retry, Apply(retry, s, steps[0]), steps[1..])
  }

  lemma {:induction false} AfterConcat(retry: bool, steps: seq<Step>, more: seq<Step>)
    ensures After(retry, steps + more) == AfterAlso(retry, After(retry, steps), more)
    decreases |more|
  {
    hide Apply;
    if more == [] {
      assert steps + more == steps;
    } else {
      AfterOneMore(retry, steps, more[0]);
      AfterConcat(retry, steps + [more[0]], more[1..]);
      assert steps + more == steps + [more[0]] + more[1..];
    }
  }

  const REFUSAL: seq<Step> := [Take, InnerFails(0), DeadForget(0), DeadSave(0)]

  lemma RefusalReachesHook(s: State)
    requires s.queue == [0] && s.inFlight == multiset{} && s.deadForget == multiset{}
    ensures AfterAlso(true, s, REFUSAL) ==
            AfterAlso(true, s.(queue := [], deadForget := multiset{0}), [DeadForget(0), DeadSave(0)])
  {
    var s1 := Apply(true, s, Take);
    assert s1 == s.(queue := [], inFlight := multiset{0});
    assert Apply(true, s1, InnerFails(0)) == s.(queue := [], deadForget := multiset{0});
    hide Apply;
    Unfold(s, Take, [InnerFails(0), DeadForget(0), DeadSave(0)]);
    Unfold(s1, InnerFails(0), [DeadForget(0), DeadSave(0)]);
  }

  lemma HookStores(s: State)
    requires s.requests != [] && s.deadForget == multiset{0} && s.deadSave == multiset{}
    ensures AfterAlso(true, s, [DeadForget(0), DeadSave(0)]) ==
            s.(deadForget := multiset{}, failed := s.failed + multiset{0}, seen := s.seen - {s.requests[0]})
  {
    var s1 := Apply(true, s, DeadForget(0));
    assert s1 == s.(deadForget := multiset{}, deadSave := multiset{0}, seen := s.seen - {s.requests[0]});
    var s2 := Apply(true, s1, DeadSave(0));
    assert s2 == s.(deadForget := multiset{}, failed := s.failed + multiset{0}, seen := s.seen - {s.requests[0]});
    hide Apply;
    Unfold(s, DeadForget(0), [DeadSave(0)]);
    Unfold(s1, DeadSave(0), []);
  }

  /** A queued event that the inner publisher refuses ends up on record. */
  lemma RefusalStores(s: State)
    requires s.queue == [0] && s.requests != []
    requires s.inFlight == multiset{} && s.deadForget == multiset{} && s.deadSave == multiset{}
    ensures AfterAlso(true, s, REFUSAL) ==
            s.(queue := [], failed := s.failed + multiset{0}, seen := s.seen - {s.requests[0]})
  {
    hide Apply, AfterAlso;
    RefusalReachesHook(s);
    HookStores(s.(queue := [], deadForget := multiset{0}));
  }

  lemma Unfold(s: State, step: Step, rest: seq<Step>)
    ensures AfterAlso(true, s, [step] + rest) == AfterAlso(true, Apply(true, s, step), rest)
  {
  }

  /** One request, accepted, queued and answered 202. */
  lemma FirstRequest(key: Key)
    requires Filtered(key)
    ensures AfterAlso(true, INITIAL, [Arrive(key), Look(0), PublishOk(0)]) ==
            INITIAL.(requests := [key], seen := {key}, accepted := {0}, queue := [0], answered := {0})
  {
    var s1 := Apply(true, INITIAL, Arrive(key));
    assert s1 == INITIAL.(requests := [key], arrived := multiset{0});
    var s2 := Apply(true, s1, Look(0));
    assert s2 == INITIAL.(requests := [key], seen := {key}, publishing := multiset{0}, accepted := {0});
    var s3 := Apply(true, s2, PublishOk(0));
    assert s3 == INITIAL.(requests := [key], seen := {key}, accepted := {0}, queue := [0], answered := {0});
    hide Apply;
    Unfold(INITIAL, Arrive(key), [Look(0), PublishOk(0)]);
    Unfold(s1, Look(0), [PublishOk(0)]);
    Unfold(s2, PublishOk(0), []);
  }

  lemma RetryStep(s: State)
    requires 0 in s.failed
    ensures Apply(true, s, RetryPublish(0)) == s.(queue := s.queue + [0], deleting := s.deleting + multiset{0})
    ensures 0 in s.deleting ==>
              Apply(true, s, RetryDelete(0)) == s.(failed := s.failed[0 := 0], deleting := s.deleting - multiset{0})
  {
  }

  /** The first request after its publish was refused and its record saved. */
  function StoredOnce(key: Key): State {
    INITIAL.(requests := [key], accepted := {0}, answered := {0}, failed := multiset{0})
  }

  lemma StoreOnce(key: Key) returns (steps: seq<Step>)
    requires Filtered(key)
    ensures After(true, steps) == StoredOnce(key)
  {
    hide AfterAlso, Apply;
    var queued := INITIAL.(requests := [key], seen := {key}, accepted := {0}, queue := [0], answered := {0});
    var first := [Arrive(key), Look(0), PublishOk(0)];
    FirstRequest(key);
    AfterConcat(true, [], first);
    assert [] + first == first;
    hide After;
    RefusalStores(queued);
    AfterConcat(true, first, REFUSAL);
    steps := first + REFUSAL;
  }

  /** Its retry, refused and saved again before the scheduler gets to delete it. */
  lemma StoreTwice(key: Key) returns (steps: seq<Step>)
    requires Filtered(key)
    ensures After(true, steps) == StoredOnce(key).(failed := multiset{0, 0}, deleting := multiset{0})
  {
    hide AfterAlso, After;
    var before := StoreOnce(key);
    AfterOneMore(true, before, RetryPublish(0));
    RetryStep(StoredOnce(key));
    var retried := StoredOnce(key).(queue := [0], deleting := multiset{0});
    assert Apply(true, StoredOnce(key), RetryPublish(0)) == retried;
    hide Apply;
    RefusalStores(retried);
    AfterConcat(true, before + [RetryPublish(0)], REFUSAL);
    steps := before + [RetryPublish(0)] + REFUSAL;
    assert multiset{0} + multiset{0} == multiset{0, 0};
    assert retried.seen - {key} == {};
  }

  /**
   The retry is enqueued, fails again and is saved again by the dead-letter hook; the
   delete that follows the successful enqueue then removes that record.
   */
  lemma RetryLoses(key: Key) returns (steps: seq<Step>)
    requires Filtered(key)
    ensures var s := After(true, steps);
            0 in s.answered && WithHandler(s, 0) + BeyondHandler(s, 0) == 0
  {
    hide After;
    var before := StoreTwice(key);
    AfterOneMore(true, before, RetryDelete(0));
    RetryStep(After(true, before));
    hide Apply;
    steps := before + [RetryDelete(0)];
  }

  /** Nothing answered 202 is ever lost exactly when the retry scheduler is off. */
  lemma NothingLostIff(retry: bool)
    ensures (forall steps :: NothingLost(After(retry, steps))) <==> !retry
  {
    if retry {
      var steps := RetryLoses(Key("github", "delivery"));
      assert 0 in After(true, steps).answered;
    } else {
      forall steps
        ensures NothingLost(After(false, steps))
      {
        LedgerHolds(steps);
      }
    }
  }
}
