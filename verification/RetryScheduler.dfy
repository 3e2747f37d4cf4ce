/**
 The retry scheduler (internal/retry/scheduler.go) over the failed-event log.
 Clocks and intervals count milliseconds.  Publishing is a synchronous success or
 failure, and the store's writes succeed.

 A run is any sequence of listings, handlings of one listed event, and saves of
 other parts of the gateway, which may fall into the middle of a pass: every store
 operation takes the store's lock by itself.
 */
module RetryScheduler {
  import opened Wrappers
  import opened Sequences
  import opened Text
  import opened FailStore
  import L = Lease

  const MAX_BACKOFF: int := 300_000

  const LIST_LIMIT: nat := 50

  datatype Settings = Settings(maxRetries: nat, interval: nat)

  /** What is positive is kept. */
  function NormalSettings(maxRetries: int, interval: int): (cfg: Settings)
    ensures cfg.maxRetries >= 1 && cfg.interval >= 1
    ensures maxRetries >= 1 ==> cfg.maxRetries == maxRetries
    ensures interval >= 1 ==> cfg.interval == interval
  {
    Settings(if maxRetries <= 0 then 3 else maxRetries, if interval <= 0 then 10_000 else interval)
  }

  function Pow2(n: nat): nat {
    if n == 0 then 1 else 2 * Pow2(n - 1)
  }

  /** `jitter` is the random part, between zero and the base interval. */
  function Backoff(retryCount: int, base: nat, jitter: nat): int {
    var backoff := base * Pow2(if retryCount < 0 then 0 else retryCount) + jitter;
    if backoff > MAX_BACKOFF then MAX_BACKOFF else backoff
  }

  /** The wait that no attempt made at this count undercuts: the base, doubled per retry, five minutes at most. */
  function LeastBackoff(retryCount: int, base: nat): int
    decreases if retryCount < 0 then 0 else retryCount
  {
    AtMost(if retryCount <= 0 then base else 2 * LeastBackoff(retryCount - 1, base), 300_000)
  }

  function AtMost(x: int, bound: int): int {
    if x > bound then bound else x
  }

  /** What the surroundings contribute while one listed event is handled. */
  datatype Moment = Moment(now: int, jitter: nat, publishOk: bool, cancelled: bool)

  /** A call to the publisher: for which event, at which stored count, when, and how it ended. */
  datatype Attempt = Attempt(eventID: string, count: int, at: int, ok: bool)

  /** A failure that another part of the gateway saves; `freshID` is drawn if it brings no id. */
  datatype Arrival = Arrival(input: SaveInput, freshID: string, at: int)

  function RecordOf(a: Arrival): FailedEvent {
    NewRecord(a.input, a.freshID, a.at)
  }

  function Arrived(log: Log, a: Arrival): Log {
    if Acceptable(a.input) then log + [RecordOf(a)] else log
  }

  /** The log, the listed events still to handle, the calls made, and how many exhausted events were deleted. */
  datatype State = State(log: Log, todo: Log, attempts: seq<Attempt>, dropped: nat)

  datatype Step = List | Handle(m: Moment) | Save(a: Arrival)

  /** Delete and UpdateRetryCount as the store performs them. */
  function StoreDelete(log: Log, id: string): Log {
    if TrimSpace(id) == "" then log else Deleted(log, TrimSpace(id))
  }

  function StoreUpdate(log: Log, id: string, count: int): Log {
    if TrimSpace(id) == "" then log else Updated(log, TrimSpace(id), count)
  }

  predicate Due(cfg: Settings, e: FailedEvent, m: Moment) {
    m.now - e.failedAt >= Backoff(e.retryCount, cfg.interval, m.jitter)
  }

  /** One listed event, from the check of its count to the write of the outcome. */
  function Handled(cfg: Settings, s: State, e: FailedEvent, m: Moment): State {
    if e.retryCount >= cfg.maxRetries then
      s.(log := StoreDelete(s.log, e.eventID), dropped := s.dropped + 1)
    else if !Due(cfg, e, m) then s
    else
      s.(log := if m.publishOk then StoreDelete(s.log, e.eventID)
                else StoreUpdate(s.log, e.eventID, e.retryCount + 1),
         attempts := s.attempts + [Attempt(e.eventID, e.retryCount, m.now, m.publishOk)])
  }

  function Apply(cfg: Settings, s: State, step: Step): State {
    match step
    case List => if s.todo == [] then s.(todo := Listed(s.log, LIST_LIMIT)) else s
    case Handle(m) =>
      if s.todo == [] then s
      else if m.cancelled then s.(todo := [])
      else Handled(cfg, s.(todo := s.todo[1..]), s.todo[0], m)
    case Save(a) => s.(log := Arrived(s.log, a))
  }

  function Run(cfg: Settings, s: State, steps: seq<Step>): State {
    if steps == [] then s else Apply(cfg, Run(cfg, s, steps[..|steps| - 1]), steps[|steps| - 1])
  }

  function Started(log: Log): State {
    State(log, [], [], 0)
  }

  function After(cfg: Settings, log: Log, steps: seq<Step>): State {
    Run(cfg, Started(log), steps)
  }

  // ------------------------------------------------------------------
  // One pass as the code loops through it

  /** What happens around one listed event: saves since the last store operation, then the moment itself. */
  datatype Around = Around(arrivals: seq<Arrival>, moment: Moment)

  function ArrivedAll(log: Log, arrivals: seq<Arrival>): Log {
    if arrivals == [] then log
    else Arrived(ArrivedAll(log, arrivals[..|arrivals| - 1]), arrivals[|arrivals| - 1])
  }

  /** A pass after `i` turns of its loop; a cancelled pass makes no further turns. */
  function PassUpTo(cfg: Settings, log: Log, env: nat -> Around, i: nat): State {
    if i == 0 then Apply(cfg, Started(log), List)
    else
      var s := PassUpTo(cfg, log, env, i - 1);
      if s.todo == [] then s
      else Apply(cfg, s.(log := ArrivedAll(s.log, env(i - 1).arrivals)), Handle(env(i - 1).moment))
  }

  function Pass(cfg: Settings, log: Log, env: nat -> Around): State {
    PassUpTo(cfg, log, env, |Listed(log, LIST_LIMIT)|)
  }

  class Scheduler {
    const store: FileStore
    const cfg: Settings
    const leader: L.LeaderElection?

    constructor (store: FileStore, maxRetries: int, interval: int, leader: L.LeaderElection?)
      ensures this.store == store && this.leader == leader && cfg == NormalSettings(maxRetries, interval)
    {
      this.store := store;
      this.leader := leader;
      cfg := NormalSettings(maxRetries, interval);
    }

    method CalculateBackoff(retryCount: int, base: nat, jitter: nat) returns (backoff: int)
      ensures backoff == Backoff(retryCount, base, jitter)
    {
      var exponent := if retryCount < 0 then 0 else retryCount;
      var power := 1;
      for i := 0 to exponent
        invariant power == Pow2(i)
      {
        power := 2 * power;
      }
      backoff := base * power + jitter;
      if backoff > MAX_BACKOFF {
        backoff := MAX_BACKOFF;
      }
    }

    method RetryEvent(e: FailedEvent, m: Moment) returns (attempts: seq<Attempt>)
      modifies store
      ensures e.retryCount + 1 > cfg.maxRetries ==> attempts == [] && store.log == StoreDelete(old(store.log), e.eventID)
      ensures e.retryCount + 1 <= cfg.maxRetries ==>
                && attempts == [Attempt(e.eventID, e.retryCount, m.now, m.publishOk)]
                && store.log == if m.publishOk then StoreDelete(old(store.log), e.eventID)
                                else StoreUpdate(old(store.log), e.eventID, e.retryCount + 1)
    {
      var nextRetries := e.retryCount + 1;
      if nextRetries > cfg.maxRetries {
        var _ := store.Delete(e.eventID);
        return [];
      }
      attempts := [Attempt(e.eventID, e.retryCount, m.now, m.publishOk)];
      if m.publishOk {
        var _ := store.Delete(e.eventID);
      } else {
        var _ := store.UpdateRetryCount(e.eventID, nextRetries);
      }
    }

    /** Other parts of the gateway save while the pass is between two store operations. */
    method OthersSave(arrivals: seq<Arrival>)
      modifies store
      ensures store.log == ArrivedAll(old(store.log), arrivals)
    {
      hide Acceptable, NewRecord;
      for i := 0 to |arrivals|
        invariant store.log == ArrivedAll(old(store.log), arrivals[..i])
      {
        var _ := store.Save(arrivals[i].input, arrivals[i].freshID, arrivals[i].at);
        assert arrivals[..i + 1][..i] == arrivals[..i];
      }
      assert arrivals[..|arrivals|] == arrivals;
    }

    /** `env` supplies the saves of others, the clock, the jitter, the publisher's verdict and the context. */
    method ProcessRetries(env: nat -> Around) returns (attempts: seq<Attempt>)
      modifies store
      ensures store.log == Pass(cfg, old(store.log), env).log
      ensures attempts == Pass(cfg, old(store.log), env).attempts
    {
      hide TrimSpace, Listed, Backoff, Deleted, Updated, Get, ArrivedAll;
      var listing := store.ListRecent(LIST_LIMIT);
      ghost var before := store.log;
      var events := listing.value;
      attempts := [];
      for i := 0 to |events|
        invariant PassUpTo(cfg, before, env, i).log == store.log
        invariant PassUpTo(cfg, before, env, i).todo == events[i..]
        invariant PassUpTo(cfg, before, env, i).attempts == attempts
      {
        var e, m := events[i], env(i).moment;
        OthersSave(env(i).arrivals);
        if m.cancelled {
          PassEnds(cfg, before, env, i + 1, |events|);
          return;
        }
        if e.retryCount >= cfg.maxRetries {
          var _ := store.Delete(e.eventID);
          continue;
        }
        var backoff := CalculateBackoff(e.retryCount, cfg.interval, m.jitter);
        if m.now - e.failedAt < backoff {
          continue;
        }
        var made := RetryEvent(e, m);
        attempts := attempts + made;
      }
    }

    /** One tick of the loop: a pass only after a successful renewal or claim of the lease. */
    method OnTick(readAt: int, read: L.Network, writeAt: int, write: L.Network, env: nat -> Around)
      returns (attempts: seq<Attempt>)
      requires leader != null ==> leader.client as object != store
      modifies store, if leader != null then {leader.client} else {}
      ensures leader != null ==>
                var key := old(leader.client.value);
                var leads := read.Answered? && L.Owner(key, readAt) == Some(leader.id);
                var granted := write.Answered? && L.Owner(key, writeAt) == if leads then Some(leader.id) else None;
                if granted then
                  store.log == Pass(cfg, old(store.log), env).log && attempts == Pass(cfg, old(store.log), env).attempts
                else store.log == old(store.log) && attempts == []
      ensures leader == null ==>
                store.log == Pass(cfg, old(store.log), env).log && attempts == Pass(cfg, old(store.log), env).attempts
    {
      if leader != null {
        var leads := leader.IsLeader(readAt, read);
        if leads {
          var renewed := leader.Renew(writeAt, write);
          if !renewed {
            return [];
          }
        } else {
          var won := leader.TryClaim(writeAt, write);
          if !won {
            return [];
          }
        }
      }
      attempts := ProcessRetries(env);
    }
  }

  /** Once nothing is left to do a pass stays as it is. */
  lemma {:induction false} PassEnds(cfg: Settings, log: Log, env: nat -> Around, i: nat, j: nat)
    requires i <= j && PassUpTo(cfg, log, env, i).todo == []
    ensures PassUpTo(cfg, log, env, j) == PassUpTo(cfg, log, env, i)
  {
    hide Handled, Listed, Apply;
    if i < j {
      PassEnds(cfg, log, env, i, j - 1);
    }
  }

  lemma {:induction false} RunConcat(cfg: Settings, s: State, steps: seq<Step>, more: seq<Step>)
    ensures Run(cfg, s, steps + more) == Run(cfg, Run(cfg, s, steps), more)
  {
    hide Apply;
    if more == [] {
      assert steps + more == steps;
    } else {
      var n := |more| - 1;
      RunConcat(cfg, s, steps, more[..n]);
      assert (steps + more)[..|steps + more| - 1] == steps + more[..n];
    }
  }

  function Saves(arrivals: seq<Arrival>): seq<Step> {
    seq(|arrivals|, i requires 0 <= i < |arrivals| => Save(arrivals[i]))
  }

  lemma {:induction false} RunOfSaves(cfg: Settings, s: State, arrivals: seq<Arrival>)
    ensures Run(cfg, s, Saves(arrivals)) == s.(log := ArrivedAll(s.log, arrivals))
  {
    if arrivals != [] {
      var n := |arrivals| - 1;
      RunOfSaves(cfg, s, arrivals[..n]);
      assert Saves(arrivals)[..n] == Saves(arrivals[..n]);
    }
  }

  /** The steps that `i` turns of a pass consist of. */
  function PassSteps(cfg: Settings, log: Log, env: nat -> Around, i: nat): seq<Step> {
    if i == 0 then [List]
    else
      PassSteps(cfg, log, env, i - 1)
      + if PassUpTo(cfg, log, env, i - 1).todo == [] then []
        else Saves(env(i - 1).arrivals) + [Handle(env(i - 1).moment)]
  }

  /** Two states that agree but for the calls and deletions made before. */
  ghost predicate Continues(s: State, before: State, pass: State) {
    && s.log == pass.log && s.todo == pass.todo
    && s.attempts == before.attempts + pass.attempts && s.dropped == before.dropped + pass.dropped
  }

  lemma ApplyContinues(cfg: Settings, s: State, before: State, pass: State, step: Step)
    requires Continues(s, before, pass)
    ensures Continues(Apply(cfg, s, step), before, Apply(cfg, pass, step))
  {
    hide Listed, StoreDelete, StoreUpdate, Due, Arrived;
  }

  /** What ProcessRetries does is a run of steps, from wherever it starts. */
  lemma {:induction false} PassIsRun(cfg: Settings, s: State, env: nat -> Around, i: nat)
    requires s.todo == []
    ensures Continues(Run(cfg, s, PassSteps(cfg, s.log, env, i)), s, PassUpTo(cfg, s.log, env, i))
  {
    hide Apply;
    if i == 0 {
      assert Continues(s, s, Started(s.log));
      ApplyContinues(cfg, s, s, Started(s.log), List);
      assert [List][..0] == [] && Run(cfg, s, []) == s;
    } else {
      PassIsRun(cfg, s, env, i - 1);
      var steps, pass := PassSteps(cfg, s.log, env, i - 1), PassUpTo(cfg, s.log, env, i - 1);
      if pass.todo == [] {
        assert steps + [] == steps;
      } else {
        TurnIsRun(cfg, s, pass, steps, env(i - 1));
      }
    }
  }

  lemma TurnIsRun(cfg: Settings, s: State, pass: State, steps: seq<Step>, around: Around)
    requires Continues(Run(cfg, s, steps), s, pass)
    ensures Continues(Run(cfg, s, steps + (Saves(around.arrivals) + [Handle(around.moment)])), s,
                      Apply(cfg, pass.(log := ArrivedAll(pass.log, around.arrivals)), Handle(around.moment)))
  {
    hide Apply, ArrivedAll;
    var saves, handle := Saves(around.arrivals), Handle(around.moment);
    var r := Run(cfg, s, steps);
    RunConcat(cfg, s, steps, saves + [handle]);
    RunOfSaves(cfg, r, around.arrivals);
    assert (saves + [handle])[..|saves|] == saves;
    ApplyContinues(cfg, Run(cfg, r, saves), s, pass.(log := ArrivedAll(pass.log, around.arrivals)), handle);
  }

  // ------------------------------------------------------------------
  // Backoff

  lemma Doubling(base: nat, p: nat)
    ensures base * (2 * p) == 2 * (base * p)
  {
  }

  /** Without jitter and before the cap the wait is the base times a power of two; capping commutes with doubling. */
  lemma {:induction false} LeastBackoffIsCapped(k: nat, base: nat)
    ensures LeastBackoff(k, base) == AtMost(base * Pow2(k), 300_000)
  {
    if k > 0 {
      LeastBackoffIsCapped(k - 1, base);
      Doubling(base, Pow2(k - 1));
    }
  }

  /** What calculateBackoff promises, whatever the jitter: it lengthens the doubled wait up to the cap. */
  lemma BackoffIsLeast(retryCount: int, base: nat, jitter: nat)
    ensures Backoff(retryCount, base, jitter) == AtMost(LeastBackoff(retryCount, base) + jitter, 300_000)
  {
    var count: nat := if retryCount < 0 then 0 else retryCount;
    LeastBackoffIsCapped(count, base);
    hide Pow2;
  }

  /** The wait starts at the base, doubles with every retry and stops at five minutes. */
  lemma BackoffDoubles(k: nat, base: nat, jitter: nat)
    ensures Backoff(0, base, 0) == AtMost(base, 300_000)
    ensures Backoff(k + 1, base, 0) == AtMost(2 * Backoff(k, base, 0), 300_000)
    ensures Backoff(k, base, jitter) == AtMost(Backoff(k, base, 0) + jitter, 300_000)
  {
    hide Backoff;
    BackoffIsLeast(0, base, 0);
    BackoffIsLeast(k, base, 0);
    BackoffIsLeast(k + 1, base, 0);
    BackoffIsLeast(k, base, jitter);
  }

  /** A negative count is none. */
  lemma NegativeCountIsNone(retryCount: int, base: nat, jitter: nat)
    requires retryCount < 0
    ensures Backoff(retryCount, base, jitter) == Backoff(0, base, jitter) == AtMost(base + jitter, 300_000)
  {
    hide Backoff;
    BackoffIsLeast(retryCount, base, jitter);
    BackoffIsLeast(0, base, jitter);
  }

  lemma {:induction false} LeastBackoffGrows(a: int, b: int, base: nat)
    requires a <= b
    ensures 0 <= LeastBackoff(a, base) <= LeastBackoff(b, base) <= 300_000
    decreases if b < 0 then 0 else b
  {
    if b > 0 {
      if a == b {
        LeastBackoffGrows(b - 1, b - 1, base);
      } else {
        LeastBackoffGrows(a, b - 1, base);
      }
    }
  }

  /** Waits grow with the count, are capped, and the jitter only lengthens them. */
  lemma BackoffShape(a: int, b: int, base: nat, jitter: nat)
    requires a <= b && jitter <= base
    ensures LeastBackoff(a, base) <= LeastBackoff(b, base) <= MAX_BACKOFF
    ensures LeastBackoff(a, base) <= Backoff(a, base, jitter) <= LeastBackoff(a, base) + base
    ensures Backoff(a, base, jitter) <= MAX_BACKOFF
  {
    hide Backoff, LeastBackoff;
    LeastBackoffGrows(a, b, base);
    BackoffIsLeast(a, base, jitter);
  }

  // ------------------------------------------------------------------
  // One event through a whole run

  predicate TidyID(id: string) {
    TrimSpace(id) == id && id != ""
  }

  /** The ids in the log are the trimmed, non-empty ids that Save writes. */
  predicate Tidy(log: Log) {
    forall e | e in log :: TidyID(e.eventID)
  }

  /** The ids that the store draws itself are tidy. */
  predicate GoodDraws(steps: seq<Step>) {
    forall n | 0 <= n < |steps| && steps[n].Save? :: TidyID(steps[n].a.freshID)
  }

  /** No step saves a record under `id`. */
  predicate NoSaveOf(steps: seq<Step>, id: string) {
    forall n | 0 <= n < |steps| && steps[n].Save? && Acceptable(steps[n].a.input) :: RecordOf(steps[n].a).eventID != id
  }

  lemma SavedRecordsAreTidy(a: Arrival)
    requires TidyID(a.freshID)
    ensures TidyID(RecordOf(a).eventID)
  {
    TrimSpaceIdempotent(a.input.eventID);
  }

  /** The calls made for one event. */
  function AttemptsOf(attempts: seq<Attempt>, id: string): seq<Attempt> {
    Filter((a: Attempt) => a.eventID == id, attempts)
  }

  lemma AttemptsOfOneMore(attempts: seq<Attempt>, a: Attempt, id: string)
    ensures AttemptsOf(attempts + [a], id) == AttemptsOf(attempts, id) + if a.eventID == id then [a] else []
  {
    FilterConcat((x: Attempt) => x.eventID == id, attempts, [a]);
    FilterOne((x: Attempt) => x.eventID == id, a);
  }

  lemma DeletedMembers(log: Log, id: string)
    ensures forall e | e in Deleted(log, id) :: e in log
  {
    FilterMembers((e: FailedEvent) => e.eventID != id, log);
  }

  lemma UpdateKeepsTidy(log: Log, id: string, count: int)
    requires Tidy(log)
    ensures Tidy(Updated(log, id, count))
  {
    hide TidyID;
    var after, i := Updated(log, id, count), IndexOf(log, id);
    forall e | e in after
      ensures TidyID(e.eventID)
    {
      var k :| 0 <= k < |after| && after[k] == e;
      assert log[k] in log && log[k].eventID == e.eventID;
    }
  }

  /** What holds of every state, whatever the log holds more than once. */
  ghost predicate Coherent(s: State) {
    Tidy(s.log) && Tidy(s.todo) && UniqueIDs(s.todo)
  }

  /** A listed event of this id is still the newest record of it. */
  ghost predicate Current(s: State, id: string) {
    forall k | 0 <= k < |s.todo| && s.todo[k].eventID == id ::
      var rs := RecordsOf(s.log, id);
      rs != [] && rs[|rs| - 1] == s.todo[k]
  }

  /** What one step does to the records of an id: nothing, a deletion of the exhausted, or one attempt. */
  ghost predicate Moved(cfg: Settings, rs: Log, rs': Log, made: seq<Attempt>) {
    || (made == [] && rs' == rs)
    || (rs != []
        && var last := rs[|rs| - 1];
           if last.retryCount >= cfg.maxRetries then made == [] && rs' == []
           else
             && |made| == 1 && made[0].eventID == last.eventID && made[0].count == last.retryCount
             && last.failedAt + LeastBackoff(last.retryCount, cfg.interval) <= made[0].at
             && rs' == if made[0].ok then [] else rs[0 := rs[0].(retryCount := last.retryCount + 1)])
  }

  lemma JitterOnlyDelays(retryCount: int, base: nat, jitter: nat)
    ensures LeastBackoff(retryCount, base) <= Backoff(retryCount, base, jitter) <= 300_000
  {
    hide Backoff, LeastBackoff;
    BackoffIsLeast(retryCount, base, jitter);
    LeastBackoffGrows(retryCount, retryCount, base);
  }

  lemma StoreKeepsTidy(log: Log, id: string, count: int)
    requires Tidy(log) && TidyID(id)
    ensures Tidy(StoreDelete(log, id)) && Tidy(StoreUpdate(log, id, count))
  {
    hide Deleted, Updated;
    DeletedMembers(log, id);
    UpdateKeepsTidy(log, id, count);
  }

  /** The two writes of the scheduler, on the records of any id. */
  lemma StoreOnRecords(log: Log, id: string, count: int, x: string)
    requires TidyID(id)
    ensures RecordsOf(StoreDelete(log, id), x) == if x == id then [] else RecordsOf(log, x)
    ensures var rs := RecordsOf(log, id);
            RecordsOf(StoreUpdate(log, id, count), x) ==
            if x == id && rs != [] then rs[0 := rs[0].(retryCount := count)] else RecordsOf(log, x)
  {
    hide RecordsOf, Deleted, Updated;
    RecordsAfterDelete(log, id, x);
    if x == id {
      OwnRecordsAfterUpdate(log, id, count);
    } else {
      OtherRecordsAfterUpdate(log, id, count, x);
    }
  }

  lemma HandledOther(cfg: Settings, s: State, e: FailedEvent, m: Moment, id: string)
    requires TidyID(e.eventID) && e.eventID != id
    ensures var s' := Handled(cfg, s, e, m);
            RecordsOf(s'.log, id) == RecordsOf(s.log, id) && AttemptsOf(s'.attempts, id) == AttemptsOf(s.attempts, id)
  {
    hide TidyID, RecordsOf, StoreDelete, StoreUpdate, Due, AttemptsOf;
    StoreOnRecords(s.log, e.eventID, e.retryCount + 1, id);
    AttemptsOfOneMore(s.attempts, Attempt(e.eventID, e.retryCount, m.now, m.publishOk), id);
  }

  lemma HandledOwn(cfg: Settings, s: State, e: FailedEvent, m: Moment)
    requires TidyID(e.eventID)
    requires var rs := RecordsOf(s.log, e.eventID); rs != [] && rs[|rs| - 1] == e
    ensures var s', id := Handled(cfg, s, e, m), e.eventID;
            exists made ::
              && AttemptsOf(s'.attempts, id) == AttemptsOf(s.attempts, id) + made
              && Moved(cfg, RecordsOf(s.log, id), RecordsOf(s'.log, id), made)
  {
    hide TidyID, RecordsOf, StoreDelete, StoreUpdate, AttemptsOf, Pow2;
    var id, a := e.eventID, Attempt(e.eventID, e.retryCount, m.now, m.publishOk);
    StoreOnRecords(s.log, id, e.retryCount + 1, id);
    AttemptsOfOneMore(s.attempts, a, id);
    JitterOnlyDelays(e.retryCount, cfg.interval, m.jitter);
    var s' := Handled(cfg, s, e, m);
    var made := if e.retryCount < cfg.maxRetries && Due(cfg, e, m) then [a] else [];
    assert AttemptsOf(s.attempts, id) + [] == AttemptsOf(s.attempts, id);
    assert Moved(cfg, RecordsOf(s.log, id), RecordsOf(s'.log, id), made);
  }

  lemma HandledKeepsTidy(cfg: Settings, s: State, e: FailedEvent, m: Moment)
    requires Tidy(s.log) && TidyID(e.eventID)
    ensures Tidy(Handled(cfg, s, e, m).log)
  {
    hide TidyID, StoreDelete, StoreUpdate, Due;
    StoreKeepsTidy(s.log, e.eventID, e.retryCount + 1);
  }

  /** A listing shows each id once, with its newest record. */
  lemma ListingIsCurrent(log: Log, id: string)
    requires Tidy(log)
    ensures var s := State(log, Listed(log, LIST_LIMIT), [], 0); Coherent(s) && Current(s, id)
  {
    hide TidyID, Newest, Listed, RecordsOf, IndexOf;
    ListingIsNewestPerID(log, LIST_LIMIT);
    EndsOfRecords(log, id);
    var events := Listed(log, LIST_LIMIT);
    forall e | e in events
      ensures TidyID(e.eventID)
    {
      assert e in Suffix(log, LIST_LIMIT);
    }
  }

  lemma ListKeepsCurrent(cfg: Settings, s: State, id: string)
    requires Coherent(s) && Current(s, id)
    ensures Coherent(Apply(cfg, s, List)) && Current(Apply(cfg, s, List), id)
  {
    hide Tidy, UniqueIDs, Listed, RecordsOf;
    ListingIsCurrent(s.log, id);
  }

  lemma SaveKeepsCurrent(cfg: Settings, s: State, a: Arrival, id: string)
    requires Coherent(s) && Current(s, id)
    requires TidyID(a.freshID) && (Acceptable(a.input) ==> RecordOf(a).eventID != id)
    ensures var s' := Apply(cfg, s, Save(a));
            Coherent(s') && Current(s', id) && RecordsOf(s'.log, id) == RecordsOf(s.log, id)
  {
    hide TidyID, Acceptable, NewRecord, RecordsOf;
    SavedRecordsAreTidy(a);
    RecordsAfterAppend(s.log, RecordOf(a), id);
  }

  lemma HandleMoves(cfg: Settings, s: State, m: Moment, id: string)
    requires Coherent(s) && Current(s, id) && s.todo != [] && !m.cancelled
    ensures var s' := Apply(cfg, s, Handle(m));
            && Coherent(s') && Current(s', id)
            && exists made ::
                 && AttemptsOf(s'.attempts, id) == AttemptsOf(s.attempts, id) + made
                 && Moved(cfg, RecordsOf(s.log, id), RecordsOf(s'.log, id), made)
  {
    hide TidyID, RecordsOf, AttemptsOf, Moved;
    var e, rest := s.todo[0], s.(todo := s.todo[1..]);
    assert e in s.todo;
    HandledKeepsTidy(cfg, rest, e, m);
    assert forall k | 0 <= k < |rest.todo| :: rest.todo[k] == s.todo[k + 1];
    if e.eventID == id {
      HandledOwn(cfg, rest, e, m);
    } else {
      HandledOther(cfg, rest, e, m, id);
      NothingMoved(cfg, RecordsOf(s.log, id));
      assert AttemptsOf(s.attempts, id) + [] == AttemptsOf(s.attempts, id);
    }
    hide Handled;
  }

  lemma NothingMoved(cfg: Settings, rs: Log)
    ensures Moved(cfg, rs, rs, [])
  {
  }

  /** Any step of any run, seen from one id. */
  lemma StepMoves(cfg: Settings, s: State, step: Step, id: string)
    requires Coherent(s) && Current(s, id)
    requires GoodDraws([step]) && NoSaveOf([step], id)
    ensures var s' := Apply(cfg, s, step);
            && Coherent(s') && Current(s', id)
            && exists made ::
                 && AttemptsOf(s'.attempts, id) == AttemptsOf(s.attempts, id) + made
                 && Moved(cfg, RecordsOf(s.log, id), RecordsOf(s'.log, id), made)
  {
    hide TidyID, RecordsOf, AttemptsOf, Moved, Handled, Listed, Arrived;
    assert [step][0] == step;
    NothingMoved(cfg, RecordsOf(s.log, id));
    assert AttemptsOf(s.attempts, id) + [] == AttemptsOf(s.attempts, id);
    match step
    case List => ListKeepsCurrent(cfg, s, id);
    case Save(a) => SaveKeepsCurrent(cfg, s, a, id);
    case Handle(m) =>
      if s.todo != [] && !m.cancelled {
        HandleMoves(cfg, s, m, id);
      }
  }

  lemma {:induction false} RunKeepsCurrent(cfg: Settings, log: Log, steps: seq<Step>, id: string)
    requires Tidy(log) && GoodDraws(steps) && NoSaveOf(steps, id)
    ensures Coherent(After(cfg, log, steps)) && Current(After(cfg, log, steps), id)
  {
    hide Tidy, Apply, RecordsOf, TidyID, Acceptable, RecordOf;
    if steps == [] {
      NothingIsTidy();
    } else {
      var n := |steps| - 1;
      RunKeepsCurrent(cfg, log, steps[..n], id);
      assert [steps[n]][0] == steps[n];
      StepMoves(cfg, After(cfg, log, steps[..n]), steps[n], id);
    }
  }

  lemma NothingIsTidy()
    ensures Tidy([])
  {
  }

  /**
   The course of one event: the attempt made at count c0 + k is the k-th, none comes
   early, none follows a success, and a record still stored carries the number of attempts.
   */
  ghost predicate Course(cfg: Settings, e0: FailedEvent, now: Log, made: seq<Attempt>) {
    && (forall k | 0 <= k < |made| ::
          && made[k].count == e0.retryCount + k < cfg.maxRetries
          && e0.failedAt + LeastBackoff(made[k].count, cfg.interval) <= made[k].at
          && (made[k].ok ==> k == |made| - 1 && now == []))
    && (now == [] || now == [e0.(retryCount := e0.retryCount + |made|)])
  }

  lemma CourseContinues(cfg: Settings, e0: FailedEvent, now: Log, made: seq<Attempt>, after: Log, more: seq<Attempt>)
    requires Course(cfg, e0, now, made) && Moved(cfg, now, after, more)
    ensures Course(cfg, e0, after, made + more)
  {
    hide LeastBackoff;
    if more == [] {
      assert made + more == made;
    }
  }

  /** Holds for an id with one record, however often other ids are saved, at any time. */
  lemma {:induction false} RunFollowsCourse(cfg: Settings, log: Log, steps: seq<Step>, id: string)
    requires Tidy(log) && GoodDraws(steps) && NoSaveOf(steps, id)
    requires |RecordsOf(log, id)| == 1
    ensures var s := After(cfg, log, steps);
            Course(cfg, RecordsOf(log, id)[0], RecordsOf(s.log, id), AttemptsOf(s.attempts, id))
  {
    hide Tidy, Apply, RecordsOf, TidyID, Acceptable, RecordOf, LeastBackoff;
    var e0 := RecordsOf(log, id)[0];
    if steps == [] {
      assert RecordsOf(log, id) == [e0];
    } else {
      var n := |steps| - 1;
      RunFollowsCourse(cfg, log, steps[..n], id);
      RunKeepsCurrent(cfg, log, steps[..n], id);
      assert [steps[n]][0] == steps[n];
      var s := After(cfg, log, steps[..n]);
      hide Course, Moved, AttemptsOf, Coherent, Current;
      StepMoves(cfg, s, steps[n], id);
      var s' := Apply(cfg, s, steps[n]);
      var made :| AttemptsOf(s'.attempts, id) == AttemptsOf(s.attempts, id) + made
                  && Moved(cfg, RecordsOf(s.log, id), RecordsOf(s'.log, id), made);
      CourseContinues(cfg, e0, RecordsOf(s.log, id), AttemptsOf(s.attempts, id), RecordsOf(s'.log, id), made);
    }
  }

  /**
   A stored event is published at most maxRetries minus its count times, the attempt
   at each count waits out its backoff, and a success is the last of them.
   */
  lemma RetryBound(cfg: Settings, log: Log, steps: seq<Step>, id: string)
    requires Tidy(log) && GoodDraws(steps) && NoSaveOf(steps, id)
    requires |RecordsOf(log, id)| == 1
    ensures var e0, made := RecordsOf(log, id)[0], AttemptsOf(After(cfg, log, steps).attempts, id);
            && |made| <= (if e0.retryCount <= cfg.maxRetries then cfg.maxRetries - e0.retryCount else 0)
            && (forall k | 0 <= k < |made| ::
                  && made[k].count == e0.retryCount + k
                  && e0.failedAt + LeastBackoff(e0.retryCount + k, cfg.interval) <= made[k].at
                  && (made[k].ok ==> k == |made| - 1))
  {
    hide After, RecordsOf, AttemptsOf, LeastBackoff, Tidy, GoodDraws, NoSaveOf;
    RunFollowsCourse(cfg, log, steps, id);
    var made := AttemptsOf(After(cfg, log, steps).attempts, id);
    if |made| > 0 {
      assert made[|made| - 1].count < cfg.maxRetries;
    }
  }

  /** The least wait and the jitter make up the whole wait: what is due, in the words of the caller's clock. */
  predicate WaitIsOver(base: nat, e: FailedEvent, m: Moment) {
    m.now >= e.failedAt + AtMost(LeastBackoff(e.retryCount, base) + m.jitter, 300_000)
  }

  lemma DueIffWaitIsOver(cfg: Settings, e: FailedEvent, m: Moment)
    ensures Due(cfg, e, m) <==> WaitIsOver(cfg.interval, e, m)
  {
    BackoffIsLeast(e.retryCount, cfg.interval, m.jitter);
    hide Backoff, LeastBackoff;
  }

  /**
   What handling the next listed event does, in every state: a cancelled pass drops all it
   listed and does nothing else, an exhausted event is deleted without a call, one whose
   wait is not over stays, any other is published exactly once and then deleted, or its
   first record counts one retry more.
   */
  lemma HandleDecides(cfg: Settings, s: State, m: Moment)
    requires s.todo != [] && TidyID(s.todo[0].eventID)
    ensures m.cancelled ==> Apply(cfg, s, Handle(m)) == State(s.log, [], s.attempts, s.dropped)
    ensures !m.cancelled ==>
            var e, s' := s.todo[0], Apply(cfg, s, Handle(m));
            var own, own' := RecordsOf(s.log, e.eventID), RecordsOf(s'.log, e.eventID);
            && s'.todo == s.todo[1..]
            && (e.retryCount >= cfg.maxRetries ==>
                  s'.attempts == s.attempts && s'.dropped == s.dropped + 1 && own' == [])
            && (e.retryCount < cfg.maxRetries && !WaitIsOver(cfg.interval, e, m) ==>
                  s'.attempts == s.attempts && s'.log == s.log && s'.dropped == s.dropped)
            && (e.retryCount < cfg.maxRetries && WaitIsOver(cfg.interval, e, m) ==>
                  && s'.attempts == s.attempts + [Attempt(e.eventID, e.retryCount, m.now, m.publishOk)]
                  && s'.dropped == s.dropped
                  && own' == if m.publishOk || own == [] then []
                             else own[0 := own[0].(retryCount := e.retryCount + 1)])
  {
    hide TidyID, StoreDelete, StoreUpdate, RecordsOf, Due, WaitIsOver;
    DueIffWaitIsOver(cfg, s.todo[0], m);
    StoreOnRecords(s.log, s.todo[0].eventID, s.todo[0].retryCount + 1, s.todo[0].eventID);
  }

  // ------------------------------------------------------------------
  // When the retries of an id are bounded at all

  /** No record of the id, or a newest one that is exhausted: nothing is ever published again. */
  ghost predicate Spent(cfg: Settings, rs: Log) {
    rs == [] || rs[|rs| - 1].retryCount >= cfg.maxRetries
  }

  lemma {:induction false} SpentIsNeverTried(cfg: Settings, log: Log, steps: seq<Step>, id: string)
    requires Tidy(log) && GoodDraws(steps) && NoSaveOf(steps, id)
    requires Spent(cfg, RecordsOf(log, id))
    ensures var s := After(cfg, log, steps);
            Spent(cfg, RecordsOf(s.log, id)) && AttemptsOf(s.attempts, id) == []
  {
    hide Tidy, Apply, RecordsOf, TidyID, Acceptable, RecordOf, LeastBackoff;
    if steps != [] {
      var n := |steps| - 1;
      SpentIsNeverTried(cfg, log, steps[..n], id);
      RunKeepsCurrent(cfg, log, steps[..n], id);
      assert [steps[n]][0] == steps[n];
      hide AttemptsOf, Coherent, Current;
      StepMoves(cfg, After(cfg, log, steps[..n]), steps[n], id);
    }
  }

  /** The publisher refuses this id and takes everything else, at a time when all is due. */
  function Hostile(s: State, id: string, now: int): Step {
    if s.todo == [] then List else Handle(Moment(now, 0, s.todo[0].eventID != id, false))
  }

  /** An id with at least two records, the newest of them with tries left. */
  ghost predicate Repeated(cfg: Settings, rs: Log) {
    |rs| >= 2 && rs[|rs| - 1].retryCount < cfg.maxRetries
  }

  ghost predicate AllDue(log: Log, now: int) {
    forall e | e in log :: e.failedAt + MAX_BACKOFF <= now
  }

  ghost predicate AllCurrent(s: State) {
    forall id :: Current(s, id)
  }

  ghost predicate Endless(cfg: Settings, s: State, id: string, now: int) {
    Coherent(s) && AllCurrent(s) && AllDue(s.log, now) && Repeated(cfg, RecordsOf(s.log, id))
  }

  lemma UpdateKeepsDue(log: Log, id: string, count: int, now: int)
    requires AllDue(log, now)
    ensures AllDue(Updated(log, id, count), now)
  {
    var after, i := Updated(log, id, count), IndexOf(log, id);
    forall e | e in after
      ensures e.failedAt + MAX_BACKOFF <= now
    {
      var k :| 0 <= k < |after| && after[k] == e;
      assert log[k] in log && log[k].failedAt == e.failedAt;
    }
  }

  lemma HandledKeepsDue(cfg: Settings, s: State, e: FailedEvent, m: Moment, now: int)
    requires AllDue(s.log, now) && TidyID(e.eventID)
    ensures AllDue(Handled(cfg, s, e, m).log, now)
  {
    hide TrimSpace, Due, Deleted, Updated;
    DeletedMembers(s.log, e.eventID);
    UpdateKeepsDue(s.log, e.eventID, e.retryCount + 1, now);
  }

  lemma HostileKeepsCurrent(cfg: Settings, s: State, id: string, now: int)
    requires Coherent(s) && AllCurrent(s)
    ensures var s' := Apply(cfg, s, Hostile(s, id, now)); Coherent(s') && AllCurrent(s')
  {
    hide Coherent, Current, Moved, Apply, RecordsOf;
    var step := Hostile(s, id, now);
    forall x
      ensures Coherent(Apply(cfg, s, step)) && Current(Apply(cfg, s, step), x)
    {
      assert [step][0] == step && !step.Save?;
      StepMoves(cfg, s, step, x);
    }
    assert Current(Apply(cfg, s, step), id);
  }

  /** The event at the head is refused once more; its newest record stays as it was. */
  lemma HostileTry(cfg: Settings, s: State, id: string, now: int)
    requires Endless(cfg, s, id, now) && s.todo != [] && s.todo[0].eventID == id
    ensures var s' := Apply(cfg, s, Hostile(s, id, now));
            && Endless(cfg, s', id, now)
            && |AttemptsOf(s'.attempts, id)| == |AttemptsOf(s.attempts, id)| + 1
  {
    hide TidyID, RecordsOf, AttemptsOf, StoreDelete, StoreUpdate, Pow2;
    HostileKeepsCurrent(cfg, s, id, now);
    var e, rs := s.todo[0], RecordsOf(s.log, id);
    assert e in s.todo && Current(s, id);
    RecordsAreOfID(s.log, id);
    assert rs[|rs| - 1] in rs;
    StoreOnRecords(s.log, id, e.retryCount + 1, id);
    AttemptsOfOneMore(s.attempts, Attempt(id, e.retryCount, now, false), id);
    HandledKeepsDue(cfg, s.(todo := s.todo[1..]), e, Moment(now, 0, false, false), now);
  }

  lemma StoreDeleteShrinks(log: Log, id: string)
    requires TidyID(id) && RecordsOf(log, id) != []
    ensures |StoreDelete(log, id)| < |log|
  {
    EndsOfRecords(log, id);
    DeletedSameIff(log, id);
    hide Filter;
  }

  /** Any other event at the head is published or exhausted, and disappears. */
  lemma HostileDrain(cfg: Settings, s: State, id: string, now: int)
    requires Endless(cfg, s, id, now) && s.todo != [] && s.todo[0].eventID != id
    ensures var s' := Apply(cfg, s, Hostile(s, id, now));
            && Endless(cfg, s', id, now)
            && AttemptsOf(s'.attempts, id) == AttemptsOf(s.attempts, id)
            && |s'.log| < |s.log|
  {
    hide TidyID, RecordsOf, AttemptsOf, StoreDelete, StoreUpdate, Pow2;
    HostileKeepsCurrent(cfg, s, id, now);
    var e := s.todo[0];
    var rs := RecordsOf(s.log, e.eventID);
    assert e in s.todo && Current(s, e.eventID);
    RecordsAreOfID(s.log, e.eventID);
    assert rs[|rs| - 1] in rs;
    StoreDeleteShrinks(s.log, e.eventID);
    HandledOther(cfg, s.(todo := s.todo[1..]), e, Moment(now, 0, true, false), id);
    HandledKeepsDue(cfg, s.(todo := s.todo[1..]), e, Moment(now, 0, true, false), now);
  }

  lemma ListingOfRecords(log: Log, id: string)
    requires RecordsOf(log, id) != []
    ensures Listed(log, LIST_LIMIT) != []
  {
    hide Deduplicated, IndexOf, Newest;
    RecordsAreOfID(log, id);
    assert RecordsOf(log, id)[0] in log;
    var last := log[|log| - 1];
    assert Suffix(log, LIST_LIMIT)[|Suffix(log, LIST_LIMIT)| - 1] == last;
    ListingIsNewestPerID(log, LIST_LIMIT);
  }

  lemma HostileList(cfg: Settings, s: State, id: string, now: int)
    requires Endless(cfg, s, id, now) && s.todo == []
    ensures var s' := Apply(cfg, s, Hostile(s, id, now));
            Endless(cfg, s', id, now) && s'.attempts == s.attempts && s'.log == s.log && s'.todo != []
  {
    hide TidyID, RecordsOf, Listed, Coherent, Current;
    HostileKeepsCurrent(cfg, s, id, now);
    ListingOfRecords(s.log, id);
  }

  ghost predicate PassesOnly(steps: seq<Step>) {
    forall n | 0 <= n < |steps| :: !steps[n].Save?
  }

  lemma RunOneMore(cfg: Settings, s: State, steps: seq<Step>, step: Step)
    ensures Run(cfg, s, steps + [step]) == Apply(cfg, Run(cfg, s, steps), step)
  {
    assert (steps + [step])[..|steps|] == steps;
  }

  /** From any such state the id is tried again: the rest of the log drains away until it is listed. */
  lemma {:induction false} TriedOnceMore(cfg: Settings, log: Log, steps: seq<Step>, id: string, now: int)
    returns (more: seq<Step>)
    requires PassesOnly(steps) && Endless(cfg, After(cfg, log, steps), id, now)
    ensures PassesOnly(more) && Endless(cfg, After(cfg, log, more), id, now)
    ensures |AttemptsOf(After(cfg, log, more).attempts, id)| ==
            |AttemptsOf(After(cfg, log, steps).attempts, id)| + 1
    decreases |After(cfg, log, steps).log|, After(cfg, log, steps).todo == []
  {
    hide Endless, AttemptsOf, Apply, Run;
    var s := After(cfg, log, steps);
    more := steps + [Hostile(s, id, now)];
    RunOneMore(cfg, Started(log), steps, Hostile(s, id, now));
    if s.todo == [] {
      HostileList(cfg, s, id, now);
      more := TriedOnceMore(cfg, log, more, id, now);
    } else if s.todo[0].eventID == id {
      HostileTry(cfg, s, id, now);
    } else {
      HostileDrain(cfg, s, id, now);
      more := TriedOnceMore(cfg, log, more, id, now);
    }
  }

  lemma {:induction false} LatestFailure(log: Log) returns (now: int)
    ensures AllDue(log, now)
  {
    if log == [] {
      now := 0;
    } else {
      var before := LatestFailure(log[..|log| - 1]);
      var last := log[|log| - 1];
      now := if before < last.failedAt + MAX_BACKOFF then last.failedAt + MAX_BACKOFF else before;
      assert log == log[..|log| - 1] + [last];
    }
  }

  lemma {:induction false} TriedOften(cfg: Settings, log: Log, id: string, now: int, n: nat) returns (steps: seq<Step>)
    requires Endless(cfg, Started(log), id, now)
    ensures PassesOnly(steps) && Endless(cfg, After(cfg, log, steps), id, now)
    ensures |AttemptsOf(After(cfg, log, steps).attempts, id)| == n
  {
    if n == 0 {
      steps := [];
    } else {
      steps := TriedOften(cfg, log, id, now, n - 1);
      steps := TriedOnceMore(cfg, log, steps, id, now);
    }
  }

  lemma StartIsEndless(cfg: Settings, log: Log, id: string, now: int)
    requires Tidy(log) && AllDue(log, now) && Repeated(cfg, RecordsOf(log, id))
    ensures Endless(cfg, Started(log), id, now)
  {
    NothingIsTidy();
  }

  /** Two records under one id, the newest with tries left: passes alone publish it any number of times. */
  lemma RepeatedNeverExhausts(cfg: Settings, log: Log, id: string, n: nat) returns (steps: seq<Step>)
    requires Tidy(log) && Repeated(cfg, RecordsOf(log, id))
    ensures PassesOnly(steps) && |AttemptsOf(After(cfg, log, steps).attempts, id)| == n
  {
    hide Endless, After, AttemptsOf;
    var now := LatestFailure(log);
    StartIsEndless(cfg, log, id, now);
    steps := TriedOften(cfg, log, id, now, n);
  }

  /** Runs that do not save the id again; saves of other ids may come at any time. */
  ghost predicate Allowed(steps: seq<Step>, id: string) {
    GoodDraws(steps) && NoSaveOf(steps, id)
  }

  ghost predicate TriedAtMost(cfg: Settings, log: Log, id: string, bound: nat) {
    forall steps | Allowed(steps, id) :: |AttemptsOf(After(cfg, log, steps).attempts, id)| <= bound
  }

  ghost predicate RetriesBounded(cfg: Settings, log: Log, id: string) {
    exists bound: nat :: TriedAtMost(cfg, log, id, bound)
  }

  lemma SingleOrSpentIsBounded(cfg: Settings, log: Log, id: string)
    requires Tidy(log) && !Repeated(cfg, RecordsOf(log, id))
    ensures RetriesBounded(cfg, log, id)
  {
    hide After, AttemptsOf, RecordsOf, Tidy, GoodDraws, NoSaveOf;
    var rs := RecordsOf(log, id);
    var bound: nat := if |rs| == 1 && rs[0].retryCount <= cfg.maxRetries then cfg.maxRetries - rs[0].retryCount else 0;
    forall steps | Allowed(steps, id)
      ensures |AttemptsOf(After(cfg, log, steps).attempts, id)| <= bound
    {
      if |rs| == 1 {
        RetryBound(cfg, log, steps, id);
      } else {
        SpentIsNeverTried(cfg, log, steps, id);
      }
    }
    assert TriedAtMost(cfg, log, id, bound);
  }

  lemma PassesAreAllowed(steps: seq<Step>, id: string)
    requires PassesOnly(steps)
    ensures Allowed(steps, id)
  {
  }

  lemma RepeatedExceeds(cfg: Settings, log: Log, id: string, bound: nat)
    requires Tidy(log) && Repeated(cfg, RecordsOf(log, id))
    ensures !TriedAtMost(cfg, log, id, bound)
  {
    hide After, AttemptsOf, RecordsOf, Tidy, Allowed;
    var steps := RepeatedNeverExhausts(cfg, log, id, bound + 1);
    PassesAreAllowed(steps, id);
  }

  /**
   Exactly when the retries of an id are bounded: at most one record of it is stored,
   or the newest one is exhausted already.
   */
  lemma RetriesBoundedIff(cfg: Settings, log: Log, id: string)
    requires Tidy(log)
    ensures RetriesBounded(cfg, log, id) <==>
            var rs := RecordsOf(log, id); |rs| <= 1 || rs[|rs| - 1].retryCount >= cfg.maxRetries
  {
    hide After, AttemptsOf, RecordsOf, Tidy, TriedAtMost;
    if !Repeated(cfg, RecordsOf(log, id)) {
      SingleOrSpentIsBounded(cfg, log, id);
    } else {
      forall bound: nat
        ensures !TriedAtMost(cfg, log, id, bound)
      {
        RepeatedExceeds(cfg, log, id, bound);
      }
    }
  }

  // ------------------------------------------------------------------
  // Termination: every retry and every deletion uses up credit

  function Credit(cfg: Settings, e: FailedEvent): nat {
    if e.retryCount >= cfg.maxRetries then 1 else cfg.maxRetries + 1 - e.retryCount
  }

  function TotalCredit(cfg: Settings, log: Log): nat {
    if log == [] then 0 else TotalCredit(cfg, log[..|log| - 1]) + Credit(cfg, log[|log| - 1])
  }

  lemma {:induction false} DeleteFreesCredit(cfg: Settings, log: Log, id: string)
    ensures TotalCredit(cfg, Deleted(log, id)) <= TotalCredit(cfg, log)
    ensures forall e | e in log && e.eventID == id ::
              TotalCredit(cfg, Deleted(log, id)) + Credit(cfg, e) <= TotalCredit(cfg, log)
  {
    if log != [] {
      var init, last := log[..|log| - 1], log[|log| - 1];
      DeleteFreesCredit(cfg, init, id);
      assert log == init + [last];
      if last.eventID == id {
        assert Deleted(log, id) == Deleted(init, id);
      } else {
        assert Deleted(log, id)[..|Deleted(init, id)|] == Deleted(init, id);
      }
    }
  }

  lemma {:induction false} ReplaceCredit(cfg: Settings, log: Log, i: nat, e: FailedEvent)
    requires i < |log|
    ensures TotalCredit(cfg, log[i := e]) == TotalCredit(cfg, log) - Credit(cfg, log[i]) + Credit(cfg, e)
  {
    var n := |log| - 1;
    if i == n {
      assert log[i := e][..n] == log[..n];
    } else {
      ReplaceCredit(cfg, log[..n], i, e);
      assert log[i := e][..n] == log[..n][i := e];
    }
  }

  /** What a store with unique ids keeps while a pass is under way. */
  ghost predicate Sound(s: State) {
    && UniqueIDs(s.log) && Tidy(s.log) && UniqueIDs(s.todo)
    && forall e | e in s.todo :: TidyID(e.eventID) && Get(s.log, e.eventID) == Some(e)
  }

  /** Every accepted save brings an id that the log does not hold. */
  ghost predicate FreshSaves(cfg: Settings, log: Log, steps: seq<Step>) {
    if steps == [] then true
    else
      var init, last := steps[..|steps| - 1], steps[|steps| - 1];
      && FreshSaves(cfg, log, init)
      && (last.Save? && Acceptable(last.a.input) ==>
            TidyID(last.a.freshID) && Get(After(cfg, log, init).log, RecordOf(last.a).eventID).None?)
  }

  function Spending(cfg: Settings, s: State): nat {
    TotalCredit(cfg, s.log) + |s.attempts| + s.dropped
  }

  lemma HandlingSpendsCredit(cfg: Settings, s: State, e: FailedEvent, m: Moment)
    requires TidyID(e.eventID) && Get(s.log, e.eventID) == Some(e)
    ensures Spending(cfg, Handled(cfg, s, e, m)) <= Spending(cfg, s)
  {
    hide TrimSpace, IndexOf, TotalCredit, Deleted, Due;
    var i := IndexOf(s.log, e.eventID);
    assert s.log[i] in s.log;
    DeleteFreesCredit(cfg, s.log, e.eventID);
    ReplaceCredit(cfg, s.log, i, e.(retryCount := e.retryCount + 1));
  }

  lemma HandledKeepsRest(cfg: Settings, s: State, e: FailedEvent, m: Moment, x: string)
    requires UniqueIDs(s.log) && TidyID(e.eventID)
    ensures UniqueIDs(Handled(cfg, s, e, m).log)
    ensures x != e.eventID ==> Get(Handled(cfg, s, e, m).log, x) == Get(s.log, x)
  {
    hide TrimSpace, Get, Deleted, Updated, UniqueIDs, Due;
    DeletedUnique(s.log, e.eventID);
    DeletedGet(s.log, e.eventID, x);
    AfterUpdate(s.log, e.eventID, e.retryCount + 1, x);
  }

  lemma HandleKeepsSound(cfg: Settings, s: State, m: Moment)
    requires Sound(s) && s.todo != []
    ensures Sound(Apply(cfg, s, Handle(m))) && Spending(cfg, Apply(cfg, s, Handle(m))) <= Spending(cfg, s)
  {
    hide TidyID, Tidy, Get, UniqueIDs, TotalCredit, Handled;
    NothingIsUnique();
    if !m.cancelled {
      var e, rest := s.todo[0], s.(todo := s.todo[1..]);
      assert e in s.todo;
      TailIsUnique(s.todo);
      HandledKeepsTidy(cfg, rest, e, m);
      HandlingSpendsCredit(cfg, rest, e, m);
      HandledKeepsTodo(cfg, rest, e, m);
      HandledKeepsRest(cfg, rest, e, m, "");
      forall x | x in rest.todo
        ensures TidyID(x.eventID) && Get(Handled(cfg, rest, e, m).log, x.eventID) == Some(x)
      {
        var k :| 0 <= k < |rest.todo| && rest.todo[k] == x;
        assert s.todo[k + 1] == x && x in s.todo;
        HandledKeepsRest(cfg, rest, e, m, x.eventID);
      }
    }
  }

  lemma NothingIsUnique()
    ensures UniqueIDs([])
  {
  }

  lemma TailIsUnique(events: Log)
    requires UniqueIDs(events) && events != []
    ensures UniqueIDs(events[1..]) && forall e | e in events[1..] :: e.eventID != events[0].eventID
  {
  }

  lemma HandledKeepsTodo(cfg: Settings, s: State, e: FailedEvent, m: Moment)
    ensures Handled(cfg, s, e, m).todo == s.todo
  {
  }

  lemma ListKeepsSound(cfg: Settings, s: State)
    requires Sound(s)
    ensures Sound(Apply(cfg, s, List))
  {
    hide TidyID, Newest, Listed, RecordsOf, IndexOf, UniqueIDs, Get;
    ListingIsNewestPerID(s.log, LIST_LIMIT);
    UniqueListing(s.log);
    var events := Listed(s.log, LIST_LIMIT);
    forall e | e in events
      ensures TidyID(e.eventID) && Get(s.log, e.eventID) == Some(e)
    {
      assert e in Suffix(s.log, LIST_LIMIT) && e in s.log;
      UniqueGet(s.log, e);
    }
  }

  lemma SaveKeepsSound(cfg: Settings, s: State, a: Arrival)
    requires Sound(s)
    requires Acceptable(a.input) ==> TidyID(a.freshID) && Get(s.log, RecordOf(a).eventID).None?
    ensures var s' := Apply(cfg, s, Save(a));
            && Sound(s')
            && Spending(cfg, s') == Spending(cfg, s) + if Acceptable(a.input) then Credit(cfg, RecordOf(a)) else 0
  {
    hide TidyID, UniqueIDs, Get, NewRecord, Acceptable;
    if Acceptable(a.input) {
      var e := RecordOf(a);
      SavedRecordsAreTidy(a);
      GetRefinesLookup(s.log, e.eventID);
      SaveRefinesInsert(s.log, e);
      assert (s.log + [e])[..|s.log|] == s.log;
      forall x | x in s.todo
        ensures Get(s.log + [e], x.eventID) == Some(x)
      {
        GetAfterAppend(s.log, e, x.eventID);
      }
    }
  }

  /** Credit brought in by the saves of a run. */
  function CreditSaved(cfg: Settings, steps: seq<Step>): nat {
    if steps == [] then 0
    else
      var last := steps[|steps| - 1];
      CreditSaved(cfg, steps[..|steps| - 1])
      + if last.Save? && Acceptable(last.a.input) then Credit(cfg, RecordOf(last.a)) else 0
  }

  /** In any run, retries and deletions together never exceed the credit that was there or came in. */
  lemma {:induction false} WorkIsBounded(cfg: Settings, log: Log, steps: seq<Step>)
    requires UniqueIDs(log) && Tidy(log) && FreshSaves(cfg, log, steps)
    ensures var s := After(cfg, log, steps);
            && Sound(s)
            && TotalCredit(cfg, s.log) + |s.attempts| + s.dropped <= TotalCredit(cfg, log) + CreditSaved(cfg, steps)
  {
    if steps != [] {
      hide Sound, UniqueIDs, Tidy, Acceptable, Credit, TotalCredit, Apply, Get, TidyID;
      var n := |steps| - 1;
      WorkIsBounded(cfg, log, steps[..n]);
      var s := After(cfg, log, steps[..n]);
      match steps[n]
      case List =>
        ListKeepsSound(cfg, s);
        ListSpendsNothing(cfg, s);
      case Save(a) => SaveKeepsSound(cfg, s, a);
      case Handle(m) =>
        if s.todo != [] {
          HandleKeepsSound(cfg, s, m);
        } else {
          NothingToHandle(cfg, s, m);
        }
    }
  }

  lemma ListSpendsNothing(cfg: Settings, s: State)
    ensures Spending(cfg, Apply(cfg, s, List)) == Spending(cfg, s)
  {
  }

  lemma NothingToHandle(cfg: Settings, s: State, m: Moment)
    requires s.todo == []
    ensures Apply(cfg, s, Handle(m)) == s
  {
  }
}
