/**
 The circuit breaker (internal/platform/resilience/circuit_breaker.go) and the
 publisher it guards (internal/queue/circuit_breaker.go).

 The breaker is first described as a fold over the calls made to it, in the order
 in which its mutex serialises them; the class is then tied to that fold.
 */
module Breaker {
  import opened Wrappers

  datatype Phase = Closed | Open | HalfOpen

  datatype Cell = Cell(failures: nat, lastFailure: int, phase: Phase)

  datatype Settings = Settings(threshold: int, recoveryDelay: int)

  /** The calls a breaker can receive.  `now` is the clock read inside the mutex. */
  datatype Call = Ask(now: int) | Succeeded | Failed(now: int)

  const FRESH: Cell := Cell(0, 0, Closed)

  predicate Admits(cfg: Settings, cell: Cell, now: int) {
    match cell.phase
    case Closed => true
    case HalfOpen => true
    case Open => now - cell.lastFailure > cfg.recoveryDelay
  }

  function Apply(cfg: Settings, cell: Cell, call: Call): Cell {
    match call
    case Ask(now) => if cell.phase.Open? && Admits(cfg, cell, now) then cell.(phase := HalfOpen) else cell
    case Succeeded => cell.(failures := 0, phase := Closed)
    case Failed(now) =>
      Cell(cell.failures + 1, now,
           if cell.failures + 1 >= cfg.threshold then Open else cell.phase)
  }

  /** The cell after some calls, in the order in which the mutex serialises them. */
  function Folded(cfg: Settings, cell: Cell, calls: seq<Call>): Cell {
    if calls == [] then cell
    else Apply(cfg, Folded(cfg, cell, calls[..|calls| - 1]), calls[|calls| - 1])
  }

  function After(cfg: Settings, history: seq<Call>): Cell {
    Folded(cfg, FRESH, history)
  }

  class CircuitBreaker {
    var failures: nat
    var lastFailure: int
    var phase: Phase
    const cfg: Settings

    ghost function Value(): Cell
      reads this
    {
      Cell(failures, lastFailure, phase)
    }

    constructor (threshold: int, recoveryDelay: int)
      ensures Value() == FRESH && cfg == Settings(threshold, recoveryDelay)
    {
      failures, lastFailure, phase := 0, 0, Closed;
      cfg := Settings(threshold, recoveryDelay);
    }

    method Allow(now: int) returns (allowed: bool)
      modifies this
      ensures allowed <==> Admits(cfg, old(Value()), now)
      ensures Value() == Apply(cfg, old(Value()), Ask(now))
    {
      match phase
      case Closed => allowed := true;
      case Open =>
        allowed := now - lastFailure > cfg.recoveryDelay;
        if allowed {
          phase := HalfOpen;
        }
      case HalfOpen => allowed := true;
    }

    method RecordSuccess()
      modifies this
      ensures Value() == Apply(cfg, old(Value()), Succeeded)
    {
      failures := 0;
      phase := Closed;
    }

    method RecordFailure(now: int)
      modifies this
      ensures Value() == Apply(cfg, old(Value()), Failed(now))
    {
      failures := failures + 1;
      lastFailure := now;
      if failures >= cfg.threshold {
        phase := Open;
      }
    }
  }

  // ------------------------------------------------------------------
  // The guarded publisher

  datatype PublishError = CircuitOpen | WrappedFailed

  /** What the wrapped publisher would answer if called, and when it would answer. */
  datatype Wrapped = Reply(ok: bool, at: int)

  class CircuitBreakerPublisher {
    const breaker: CircuitBreaker
    /** Replies of the wrapped publisher, one per call made to it. */
    var calls: seq<Wrapped>

    constructor (breaker: CircuitBreaker)
      ensures this.breaker == breaker && calls == []
    {
      this.breaker := breaker;
      calls := [];
    }

    /** Calls that others make to the same breaker. */
    method OthersCall(others: seq<Call>)
      modifies breaker
      ensures breaker.Value() == Folded(breaker.cfg, old(breaker.Value()), others)
    {
      for i := 0 to |others|
        invariant breaker.Value() == Folded(breaker.cfg, old(breaker.Value()), others[..i])
      {
        assert others[..i + 1][..i] == others[..i];
        match others[i]
        case Ask(now) => var _ := breaker.Allow(now);
        case Succeeded => breaker.RecordSuccess();
        case Failed(now) => breaker.RecordFailure(now);
      }
      assert others[..|others|] == others;
    }

    /**
     The wrapped publisher is called exactly when admitted, and its one outcome is recorded
     after whatever `others` did to the breaker while the call was under way.
     */
    method Publish(now: int, wrapped: Wrapped, others: seq<Call>) returns (r: Result<(), PublishError>)
      modifies this, breaker
      ensures var asked := Apply(breaker.cfg, old(breaker.Value()), Ask(now));
              if !Admits(breaker.cfg, old(breaker.Value()), now) then
                && r == Failure(CircuitOpen)
                && calls == old(calls)
                && breaker.Value() == old(breaker.Value())
              else
                && r == (if wrapped.ok then Success(()) else Failure(WrappedFailed))
                && calls == old(calls) + [wrapped]
                && breaker.Value() == Apply(breaker.cfg, Folded(breaker.cfg, asked, others),
                                            if wrapped.ok then Succeeded else Failed(wrapped.at))
    {
      var allowed := breaker.Allow(now);
      if !allowed {
        return Failure(CircuitOpen);
      }
      calls := calls + [wrapped];
      OthersCall(others);
      if !wrapped.ok {
        breaker.RecordFailure(wrapped.at);
        return Failure(WrappedFailed);
      }
      breaker.RecordSuccess();
      return Success(());
    }
  }

  // ------------------------------------------------------------------
  // The state is a function of the history

  /** The position just after the last success, or 0. */
  function SinceSuccess(history: seq<Call>): (k: nat)
    ensures k <= |history|
    ensures k > 0 ==> history[k - 1].Succeeded?
    ensures forall i | k <= i < |history| :: !history[i].Succeeded?
  {
    if history == [] then 0
    else if history[|history| - 1].Succeeded? then |history|
    else SinceSuccess(history[..|history| - 1])
  }

  function CountFailures(calls: seq<Call>): nat {
    if calls == [] then 0
    else CountFailures(calls[..|calls| - 1]) + if calls[|calls| - 1].Failed? then 1 else 0
  }

  /** Failures recorded since the last success. */
  function FailuresSinceSuccess(history: seq<Call>): nat {
    CountFailures(history[SinceSuccess(history)..])
  }

  /** The position of the most recent failure, or -1. */
  function LastFailure(history: seq<Call>): (k: int)
    ensures -1 <= k < |history|
    ensures k >= 0 ==> history[k].Failed?
    ensures forall i | k < i < |history| :: !history[i].Failed?
  {
    if history == [] then -1
    else if history[|history| - 1].Failed? then |history| - 1
    else LastFailure(history[..|history| - 1])
  }

  /** A threshold below one acts like one: the first failure trips the breaker. */
  function TripLevel(cfg: Settings): nat {
    if cfg.threshold < 1 then 1 else cfg.threshold
  }

  predicate Tripped(cfg: Settings, history: seq<Call>) {
    FailuresSinceSuccess(history) >= TripLevel(cfg)
  }

  /** Some call after the failure at `k` asked late enough to be let through. */
  predicate Probed(cfg: Settings, history: seq<Call>, k: int)
    requires 0 <= k < |history| && history[k].Failed?
  {
    exists i | k < i < |history| :: history[i].Ask? && history[i].now - history[k].now > cfg.recoveryDelay
  }

  lemma CountFailuresOneMore(calls: seq<Call>, call: Call)
    ensures CountFailures(calls + [call]) == CountFailures(calls) + if call.Failed? then 1 else 0
  {
    assert (calls + [call])[..|calls|] == calls;
  }

  lemma SinceSuccessOneMore(history: seq<Call>, call: Call)
    ensures FailuresSinceSuccess(history + [call]) ==
            if call.Succeeded? then 0
            else FailuresSinceSuccess(history) + if call.Failed? then 1 else 0
  {
    var longer := history + [call];
    assert longer[..|history|] == history;
    if call.Succeeded? {
      assert longer[|longer|..] == [];
    } else {
      var k := SinceSuccess(history);
      assert SinceSuccess(longer) == k;
      assert longer[k..] == history[k..] + [call];
      CountFailuresOneMore(history[k..], call);
    }
  }

  lemma LastFailureOneMore(history: seq<Call>, call: Call)
    ensures LastFailure(history + [call]) == if call.Failed? then |history| else LastFailure(history)
  {
    assert (history + [call])[..|history|] == history;
  }

  predicate LateAsk(cfg: Settings, history: seq<Call>, k: int, call: Call)
    requires 0 <= k < |history| && history[k].Failed?
  {
    call.Ask? && call.now - history[k].now > cfg.recoveryDelay
  }

  lemma ProbedOneMore(cfg: Settings, history: seq<Call>, k: int, call: Call)
    requires 0 <= k < |history| && history[k].Failed?
    ensures Probed(cfg, history + [call], k) <==> Probed(cfg, history, k) || LateAsk(cfg, history, k, call)
  {
    var longer := history + [call];
    assert forall i | 0 <= i < |history| :: longer[i] == history[i];
    assert longer[|history|] == call;
    if Probed(cfg, history, k) {
      var i :| k < i < |history| && history[i].Ask? && history[i].now - history[k].now > cfg.recoveryDelay;
      assert longer[i].Ask?;
    }
  }

  lemma NotYetProbed(cfg: Settings, history: seq<Call>, call: Call)
    requires call.Failed?
    ensures !Probed(cfg, history + [call], |history|)
  {
  }

  /** The three stored fields, from the history alone. */
  lemma {:induction false} StateOfHistory(cfg: Settings, history: seq<Call>)
    ensures var cell, k := After(cfg, history), LastFailure(history);
            && cell.failures == FailuresSinceSuccess(history)
            && (cell.phase.Closed? <==> !Tripped(cfg, history))
            && (k >= 0 ==> cell.lastFailure == history[k].now)
            && (Tripped(cfg, history) ==> k >= 0)
            && (Tripped(cfg, history) ==> (cell.phase.HalfOpen? <==> Probed(cfg, history, k)))
  {
    if history != [] {
      var init, call := history[..|history| - 1], history[|history| - 1];
      assert history == init + [call];
      StateOfHistory(cfg, init);
      hide FailuresSinceSuccess, LastFailure, Probed;
      SinceSuccessOneMore(init, call);
      LastFailureOneMore(init, call);
      if call.Failed? {
        NotYetProbed(cfg, init, call);
      } else if LastFailure(init) >= 0 {
        ProbedOneMore(cfg, init, LastFailure(init), call);
      }
    }
  }

  /** A failure recorded while half-open always reopens. */
  lemma HalfOpenFailureReopens(cfg: Settings, history: seq<Call>, now: int)
    requires After(cfg, history).phase.HalfOpen?
    ensures After(cfg, history + [Failed(now)]).phase.Open?
  {
    StateOfHistory(cfg, history);
    assert (history + [Failed(now)])[..|history|] == history;
  }

  function Clock(call: Call): Option<int> {
    match call
    case Ask(now) => Some(now)
    case Failed(now) => Some(now)
    case Succeeded => None
  }

  /** The clock reads of a history never go back, and `now` is not before any of them. */
  predicate Monotone(history: seq<Call>, now: int) {
    && (forall i, j | 0 <= i < j < |history| && Clock(history[i]).Some? && Clock(history[j]).Some? ::
          Clock(history[i]).value <= Clock(history[j]).value)
    && (forall i | 0 <= i < |history| && Clock(history[i]).Some? :: Clock(history[i]).value <= now)
  }

  /**
   The admission rule without any state: a call is let through exactly when the
   breaker is not tripped or the recovery delay has passed since the last failure.
   */
  lemma AdmissionRule(cfg: Settings, history: seq<Call>, now: int)
    requires Monotone(history, now)
    ensures Tripped(cfg, history) ==> LastFailure(history) >= 0
    ensures Admits(cfg, After(cfg, history), now) <==>
            (Tripped(cfg, history) ==> now - history[LastFailure(history)].now > cfg.recoveryDelay)
  {
    StateOfHistory(cfg, history);
    if Tripped(cfg, history) {
      var k := LastFailure(history);
      if Probed(cfg, history, k) {
        var i :| k < i < |history| && history[i].Ask? && history[i].now - history[k].now > cfg.recoveryDelay;
        assert Clock(history[i]).Some? && history[i].now <= now;
      }
    }
  }

  /**
   While tripped, only a success or the passing of the recovery delay readmits:
   no asker in `later` is let through, however many there are.
   */
  lemma NoCallWhileOpen(cfg: Settings, history: seq<Call>, later: seq<Call>, now: int)
    requires Tripped(cfg, history)
    requires forall i | 0 <= i < |later| :: !later[i].Succeeded?
    requires Monotone(history + later, now)
    ensures var all := history + later;
            && Tripped(cfg, all) && LastFailure(all) >= 0
            && (now - all[LastFailure(all)].now <= cfg.recoveryDelay ==> !Admits(cfg, After(cfg, all), now))
  {
    StaysTripped(cfg, history, later);
    AdmissionRule(cfg, history + later, now);
  }

  lemma {:induction false} StaysTripped(cfg: Settings, history: seq<Call>, later: seq<Call>)
    requires forall i | 0 <= i < |later| :: !later[i].Succeeded?
    ensures FailuresSinceSuccess(history + later) >= FailuresSinceSuccess(history)
  {
    if later == [] {
      assert history + later == history;
    } else {
      var init := later[..|later| - 1];
      StaysTripped(cfg, history, init);
      assert history + later == (history + init) + [later[|later| - 1]];
      SinceSuccessOneMore(history + init, later[|later| - 1]);
    }
  }
}
