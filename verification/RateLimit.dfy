/**
 The two fixed-window limiters behind the same interface: in memory
 (internal/httpx/middleware.go) and in Redis (internal/httpx/redis_rate_limiter.go).

 Clocks count milliseconds since the Unix epoch; windows are aligned whole seconds.
 */
module RateLimit {
  import opened Wrappers
  import opened RateBound
  import Text

  datatype Request = Request(key: string, limit: int, now: nat)

  datatype RateLimitResult = RateLimitResult(allowed: bool, remaining: int, resetAt: Option<int>, limit: int)

  /** `windowSeconds` is the window length, `cleanupEvery` the number of hits between two sweeps. */
  datatype Settings = Settings(windowSeconds: nat, cleanupEvery: nat)

  ghost predicate ValidSettings(cfg: Settings) {
    cfg.windowSeconds > 0 && cfg.cleanupEvery > 0
  }

  /** The constructors replace a window below one second by one minute. */
  function NormalSettings(windowMs: int, cleanupEvery: int): (cfg: Settings)
    ensures ValidSettings(cfg)
    ensures windowMs < 1000 ==> cfg.windowSeconds == 60
    ensures windowMs >= 1000 ==> cfg.windowSeconds * 1000 <= windowMs < cfg.windowSeconds * 1000 + 1000
    ensures cleanupEvery >= 1 ==> cfg.cleanupEvery == cleanupEvery
  {
    Settings(if windowMs < 1000 then 60 else windowMs / 1000,
             if cleanupEvery <= 0 then 1024 else cleanupEvery)
  }

  const HITS_MODULUS: int := 0x1_0000_0000_0000_0000

  /** The start, in seconds, of the aligned window that contains `now`. */
  function WindowStart(cfg: Settings, now: nat): int
    requires ValidSettings(cfg)
  {
    var unix := now / 1000;
    unix - unix % cfg.windowSeconds
  }

  function Refused(limit: int): RateLimitResult {
    RateLimitResult(false, 0, None, limit)
  }

  // ------------------------------------------------------------------
  // The in-memory limiter

  datatype Window = Window(windowStart: int, count: int)

  type Entries = map<string, Window>

  function WithoutStale(cfg: Settings, entries: Entries, currentWindowStart: int): Entries {
    map k | k in entries && !(currentWindowStart - entries[k].windowStart > cfg.windowSeconds) :: entries[k]
  }

  /** An entry that counts in the current window. */
  predicate Current(entries: Entries, key: string, windowStart: int) {
    key in entries && entries[key].windowStart == windowStart
  }

  function MemoryResult(cfg: Settings, entries: Entries, r: Request): RateLimitResult
    requires ValidSettings(cfg)
  {
    if r.limit <= 0 then Refused(r.limit)
    else
      var start := WindowStart(cfg, r.now);
      var resetAt := Some(start + cfg.windowSeconds);
      if !Current(entries, r.key, start) then RateLimitResult(true, r.limit - 1, resetAt, r.limit)
      else if entries[r.key].count >= r.limit then RateLimitResult(false, 0, resetAt, r.limit)
      else RateLimitResult(true, r.limit - (entries[r.key].count + 1), resetAt, r.limit)
  }

  datatype Memory = Memory(entries: Entries, hits: nat)

  function MemoryAfterRequest(cfg: Settings, m: Memory, r: Request): Memory
    requires ValidSettings(cfg)
  {
    if !MemoryResult(cfg, m.entries, r).allowed then m
    else
      var start := WindowStart(cfg, r.now);
      var count := if Current(m.entries, r.key, start) then m.entries[r.key].count + 1 else 1;
      var entries := m.entries[r.key := Window(start, count)];
      var hits := (m.hits + 1) % HITS_MODULUS;
      Memory(if hits % cfg.cleanupEvery != 0 then entries else WithoutStale(cfg, entries, start), hits)
  }

  class IPRateLimiter {
    var entries: map<string, Window>
    var hits: nat
    const cfg: Settings

    ghost function Value(): Memory
      reads this
    {
      Memory(entries, hits)
    }

    constructor (windowMs: int, cleanupEvery: int)
      ensures Value() == Memory(map[], 0)
      ensures cfg == NormalSettings(windowMs, cleanupEvery)
    {
      entries, hits := map[], 0;
      cfg := NormalSettings(windowMs, cleanupEvery);
    }

    method DeleteStale(currentWindowStart: int)
      modifies this`entries
      ensures entries == WithoutStale(cfg, old(entries), currentWindowStart)
      ensures forall k :: k in entries <==>
                k in old(entries) && old(entries)[k].windowStart >= currentWindowStart - cfg.windowSeconds
    {
      var rest := entries.Keys;
      while rest != {}
        invariant rest <= entries.Keys <= old(entries).Keys
        invariant forall k | k in entries :: entries[k] == old(entries)[k]
        invariant forall k | k in old(entries) && k !in rest ::
                    k in entries <==> !(currentWindowStart - old(entries)[k].windowStart > cfg.windowSeconds)
        decreases |rest|
      {
        var k :| k in rest;
        if currentWindowStart - entries[k].windowStart > cfg.windowSeconds {
          entries := entries - {k};
        }
        rest := rest - {k};
      }
      assert entries == WithoutStale(cfg, old(entries), currentWindowStart);
    }

    method CleanupStale(now: nat)
      requires ValidSettings(cfg)
      modifies this`entries
      ensures entries == WithoutStale(cfg, old(entries), WindowStart(cfg, now))
      ensures forall k :: k in entries <==>
                k in old(entries) && old(entries)[k].windowStart >= WindowStart(cfg, now) - cfg.windowSeconds
    {
      DeleteStale(WindowStart(cfg, now));
    }

    method MaybeCleanupLocked(currentWindowStart: int)
      requires ValidSettings(cfg)
      modifies this
      ensures hits == (old(hits) + 1) % HITS_MODULUS
      ensures entries == if hits % cfg.cleanupEvery != 0 then old(entries)
                         else WithoutStale(cfg, old(entries), currentWindowStart)
    {
      hits := (hits + 1) % HITS_MODULUS;
      if hits % cfg.cleanupEvery != 0 {
        return;
      }
      DeleteStale(currentWindowStart);
    }

    method AllowWithInfo(key: string, limit: int, now: nat) returns (r: RateLimitResult)
      requires ValidSettings(cfg)
      modifies this
      ensures r == MemoryResult(cfg, old(entries), Request(key, limit, now))
      ensures Value() == MemoryAfterRequest(cfg, old(Value()), Request(key, limit, now))
    {
      if limit <= 0 {
        return Refused(limit);
      }
      var windowStart := WindowStart(cfg, now);
      var resetAt := Some(windowStart + cfg.windowSeconds);
      if key !in entries || entries[key].windowStart != windowStart {
        entries := entries[key := Window(windowStart, 1)];
        MaybeCleanupLocked(windowStart);
        return RateLimitResult(true, limit - 1, resetAt, limit);
      }
      var entry := entries[key];
      if entry.count >= limit {
        return RateLimitResult(false, 0, resetAt, limit);
      }
      entry := entry.(count := entry.count + 1);
      entries := entries[key := entry];
      MaybeCleanupLocked(windowStart);
      return RateLimitResult(true, limit - entry.count, resetAt, limit);
    }
  }

  // ------------------------------------------------------------------
  // The Redis limiter.  The hash in the key name is taken to be injective.

  datatype Counter = Counter(count: int, expiresAt: int)

  type Counters = map<(int, string), Counter>

  /** INCR, then EXPIRE on the first hit, as one atomic script. */
  function Incremented(cfg: Settings, counters: Counters, k: (int, string), now: nat): Counter {
    if k in counters && now < counters[k].expiresAt then counters[k].(count := counters[k].count + 1)
    else Counter(1, now + cfg.windowSeconds * 1000)
  }

  predicate Untracked(r: Request) {
    r.limit <= 0 || Text.Blank(r.key)
  }

  function RedisResult(cfg: Settings, counters: Counters, r: Request): RateLimitResult
    requires ValidSettings(cfg)
  {
    if r.limit <= 0 then Refused(r.limit)
    else if Text.Blank(r.key) then RateLimitResult(true, r.limit, None, r.limit)
    else
      var start := WindowStart(cfg, r.now);
      var count := Incremented(cfg, counters, (start, r.key), r.now).count;
      RateLimitResult(count <= r.limit, if r.limit - count < 0 then 0 else r.limit - count,
                      Some(start + cfg.windowSeconds), r.limit)
  }

  function RedisAfterRequest(cfg: Settings, counters: Counters, r: Request): Counters
    requires ValidSettings(cfg)
  {
    if Untracked(r) then counters
    else
      var k := (WindowStart(cfg, r.now), r.key);
      counters[k := Incremented(cfg, counters, k, r.now)]
  }

  class RedisServer {
    var counters: Counters

    constructor ()
      ensures counters == map[]
    {
      counters := map[];
    }
  }

  /** The fate of one script call. */
  datatype Network = Answered | RequestLost | ReplyLost

  class RedisRateLimiter {
    const client: RedisServer
    const cfg: Settings

    constructor (client: RedisServer, windowMs: int)
      ensures this.client == client && cfg == NormalSettings(windowMs, 1)
    {
      this.client := client;
      cfg := NormalSettings(windowMs, 1);
    }

    /** Without an answer the limiter lets the request through. */
    method AllowWithInfo(key: string, limit: int, now: nat, network: Network) returns (r: RateLimitResult)
      requires ValidSettings(cfg)
      modifies client
      ensures r == if network.Answered? || Untracked(Request(key, limit, now)) then
                     RedisResult(cfg, old(client.counters), Request(key, limit, now))
                   else
                     RateLimitResult(true, limit, Some(WindowStart(cfg, now) + cfg.windowSeconds), limit)
      ensures client.counters == if network.RequestLost? then old(client.counters)
                                 else RedisAfterRequest(cfg, old(client.counters), Request(key, limit, now))
    {
      hide WindowStart, Text.Blank;
      if limit <= 0 {
        return Refused(limit);
      }
      if Text.Blank(key) {
        return RateLimitResult(true, limit, None, limit);
      }
      var windowStart := WindowStart(cfg, now);
      var resetAt := Some(windowStart + cfg.windowSeconds);
      var k := (windowStart, key);
      var counter := Incremented(cfg, client.counters, k, now);
      if network != RequestLost {
        client.counters := client.counters[k := counter];
      }
      if network != Answered {
        return RateLimitResult(true, limit, resetAt, limit);
      }
      var remaining := limit - counter.count;
      if remaining < 0 {
        remaining := 0;
      }
      return RateLimitResult(counter.count <= limit, remaining, resetAt, limit);
    }
  }

  // ------------------------------------------------------------------
  // Runs

  datatype Call = Allow(r: Request) | CleanupStale(at: nat)

  function Clock(call: Call): nat {
    match call
    case Allow(r) => r.now
    case CleanupStale(at) => at
  }

  ghost predicate Monotone(history: seq<Call>) {
    forall i, j | 0 <= i < j < |history| :: Clock(history[i]) <= Clock(history[j])
  }

  function MemoryAfter(cfg: Settings, history: seq<Call>): Memory
    requires ValidSettings(cfg)
  {
    if history == [] then Memory(map[], 0)
    else
      var m := MemoryAfter(cfg, history[..|history| - 1]);
      match history[|history| - 1]
      case Allow(r) => MemoryAfterRequest(cfg, m, r)
      case CleanupStale(at) => m.(entries := WithoutStale(cfg, m.entries, WindowStart(cfg, at)))
  }

  function RedisAfter(cfg: Settings, history: seq<Call>): Counters
    requires ValidSettings(cfg)
  {
    if history == [] then map[]
    else
      var counters := RedisAfter(cfg, history[..|history| - 1]);
      match history[|history| - 1]
      case Allow(r) => RedisAfterRequest(cfg, counters, r)
      case CleanupStale(_) => counters
  }

  predicate AsksIn(cfg: Settings, call: Call, key: string, start: int)
    requires ValidSettings(cfg)
  {
    call.Allow? && call.r.key == key && WindowStart(cfg, call.r.now) == start
  }

  /** Requests of `key` that the memory limiter admitted in the window at `start`. */
  function Granted(cfg: Settings, history: seq<Call>, key: string, start: int): nat
    requires ValidSettings(cfg)
  {
    if history == [] then 0
    else
      var init, last := history[..|history| - 1], history[|history| - 1];
      Granted(cfg, init, key, start)
      + if AsksIn(cfg, last, key, start) && MemoryResult(cfg, MemoryAfter(cfg, init).entries, last.r).allowed
        then 1 else 0
  }

  /** Requests of `key`, admitted or not, that count in the window at `start`. */
  function Requested(cfg: Settings, history: seq<Call>, key: string, start: int): nat
    requires ValidSettings(cfg)
  {
    if history == [] then 0
    else
      var init, last := history[..|history| - 1], history[|history| - 1];
      Requested(cfg, init, key, start)
      + if AsksIn(cfg, last, key, start) && !Untracked(last.r) then 1 else 0
  }

  lemma WindowStartBounds(cfg: Settings, now: nat)
    requires ValidSettings(cfg)
    ensures var start := WindowStart(cfg, now);
            start * 1000 <= now < (start + cfg.windowSeconds) * 1000
  {
  }

  lemma WindowStartIsMultiple(cfg: Settings, now: nat)
    requires ValidSettings(cfg)
    ensures WindowStart(cfg, now) == cfg.windowSeconds * (now / 1000 / cfg.windowSeconds)
  {
  }

  lemma MulMonotone(w: nat, p: int, q: int)
    requires p <= q
    ensures w * p <= w * q
  {
  }

  /** Distinct aligned windows do not overlap. */
  lemma WindowStartGap(cfg: Settings, a: nat, b: nat)
    requires ValidSettings(cfg) && WindowStart(cfg, a) < WindowStart(cfg, b)
    ensures WindowStart(cfg, a) + cfg.windowSeconds <= WindowStart(cfg, b)
  {
    var w, p, q := cfg.windowSeconds, a / 1000 / cfg.windowSeconds, b / 1000 / cfg.windowSeconds;
    WindowStartIsMultiple(cfg, a);
    WindowStartIsMultiple(cfg, b);
    if q <= p {
      MulMonotone(w, q, p);
      assert false;
    }
    MulMonotone(w, p + 1, q);
  }

  lemma WindowStartMonotone(cfg: Settings, a: nat, b: nat)
    requires ValidSettings(cfg) && a <= b
    ensures WindowStart(cfg, a) <= WindowStart(cfg, b)
  {
    WindowStartBounds(cfg, a);
    WindowStartBounds(cfg, b);
    if WindowStart(cfg, b) < WindowStart(cfg, a) {
      WindowStartGap(cfg, b, a);
    }
  }

  ghost predicate NoLaterThan(history: seq<Call>, now: nat) {
    forall i | 0 <= i < |history| :: Clock(history[i]) <= now
  }

  function CountAt(entries: Entries, key: string, start: int): int {
    if Current(entries, key, start) then entries[key].count else 0
  }

  ghost predicate NoFuture(entries: Entries, start: int) {
    forall k | k in entries :: entries[k].windowStart <= start
  }

  /** Only a grant changes the count of a current or future window; sweeping changes none. */
  lemma RequestCounts(cfg: Settings, m: Memory, r: Request, key: string, start: int)
    requires ValidSettings(cfg) && start >= WindowStart(cfg, r.now)
    requires NoFuture(m.entries, WindowStart(cfg, r.now))
    ensures NoFuture(MemoryAfterRequest(cfg, m, r).entries, WindowStart(cfg, r.now))
    ensures CountAt(MemoryAfterRequest(cfg, m, r).entries, key, start) == CountAt(m.entries, key, start) +
            if AsksIn(cfg, Allow(r), key, start) && MemoryResult(cfg, m.entries, r).allowed then 1 else 0
  {
  }

  /** Every `cleanup`-th hit leaves only entries of the current and the previous window. */
  lemma SweepsAreDue(cfg: Settings, m: Memory, r: Request, key: string)
    requires ValidSettings(cfg) && MemoryResult(cfg, m.entries, r).allowed
    requires (m.hits + 1) % 0x1_0000_0000_0000_0000 % cfg.cleanupEvery == 0
    ensures var entries := MemoryAfterRequest(cfg, m, r).entries;
            key in entries ==> entries[key].windowStart >= WindowStart(cfg, r.now) - cfg.windowSeconds
  {
  }

  /** From the window of `now` on, the entries hold exactly the grants of each window. */
  lemma {:induction false} EntriesAreFaithful(cfg: Settings, history: seq<Call>, now: nat, key: string, start: int)
    requires ValidSettings(cfg) && Monotone(history) && NoLaterThan(history, now)
    requires start >= WindowStart(cfg, now)
    ensures NoFuture(MemoryAfter(cfg, history).entries, WindowStart(cfg, now))
    ensures Granted(cfg, history, key, start) == CountAt(MemoryAfter(cfg, history).entries, key, start)
  {
    if history != [] {
      var init, last := history[..|history| - 1], history[|history| - 1];
      WindowStartMonotone(cfg, Clock(last), now);
      EntriesAreFaithful(cfg, init, Clock(last), key, start);
      if last.Allow? {
        RequestCounts(cfg, MemoryAfter(cfg, init), last.r, key, start);
      }
    }
  }

  /**
   What the memory limiter answers, whatever the limits and the sweeps: admitted
   exactly while fewer than `limit` requests of the key were admitted in this window.
   */
  lemma MemoryCountsExactly(cfg: Settings, history: seq<Call>, r: Request)
    requires ValidSettings(cfg) && Monotone(history) && NoLaterThan(history, r.now)
    ensures var start := WindowStart(cfg, r.now);
            var granted := Granted(cfg, history, r.key, start);
            MemoryResult(cfg, MemoryAfter(cfg, history).entries, r) ==
            if r.limit <= 0 then Refused(r.limit)
            else RateLimitResult(granted < r.limit, if granted < r.limit then r.limit - granted - 1 else 0,
                                 Some(start + cfg.windowSeconds), r.limit)
  {
    EntriesAreFaithful(cfg, history, r.now, r.key, WindowStart(cfg, r.now));
  }

  /** The counter of the window holds `n` hits and does not expire inside the window. */
  ghost predicate Counts(cfg: Settings, counters: Counters, key: string, start: int, n: nat) {
    var k := (start, key);
    && (k in counters <==> n > 0)
    && (k in counters ==> counters[k].count == n)
    && (k in counters ==> (start + cfg.windowSeconds) * 1000 <= counters[k].expiresAt)
  }

  lemma HitCounts(cfg: Settings, counters: Counters, r: Request, key: string, start: int, n: nat)
    requires ValidSettings(cfg) && Counts(cfg, counters, key, start, n)
    requires AsksIn(cfg, Allow(r), key, start) && !Untracked(r)
    ensures Counts(cfg, RedisAfterRequest(cfg, counters, r), key, start, n + 1)
  {
    WindowStartBounds(cfg, r.now);
    hide WindowStart, Text.Blank;
  }

  lemma OtherHitsDoNotCount(cfg: Settings, counters: Counters, r: Request, key: string, start: int, n: nat)
    requires ValidSettings(cfg) && Counts(cfg, counters, key, start, n)
    requires !AsksIn(cfg, Allow(r), key, start) || Untracked(r)
    ensures Counts(cfg, RedisAfterRequest(cfg, counters, r), key, start, n)
  {
    hide WindowStart, Text.Blank, Incremented;
  }

  /** In every run the Redis counter of a window is the number of its requests. */
  lemma {:induction false} CountersAreFaithful(cfg: Settings, history: seq<Call>, key: string, start: int)
    requires ValidSettings(cfg)
    ensures Counts(cfg, RedisAfter(cfg, history), key, start, Requested(cfg, history, key, start))
  {
    if history != [] {
      hide RedisAfterRequest, Untracked, Counts, WindowStart;
      var init, last := history[..|history| - 1], history[|history| - 1];
      var counters, n := RedisAfter(cfg, init), Requested(cfg, init, key, start);
      CountersAreFaithful(cfg, init, key, start);
      if AsksIn(cfg, last, key, start) && !Untracked(last.r) {
        HitCounts(cfg, counters, last.r, key, start, n);
      } else if last.Allow? {
        OtherHitsDoNotCount(cfg, counters, last.r, key, start, n);
      }
    } else {
      assert Counts(cfg, map[], key, start, 0);
    }
  }

  /** When the window's first request of the key was made. */
  function FirstAsk(cfg: Settings, history: seq<Call>, key: string, start: int): int
    requires ValidSettings(cfg)
  {
    if history == [] then 0
    else
      var init, last := history[..|history| - 1], history[|history| - 1];
      if Requested(cfg, init, key, start) == 0 && AsksIn(cfg, last, key, start) && !Untracked(last.r) then last.r.now
      else FirstAsk(cfg, init, key, start)
  }

  ghost predicate ExpiresAt(counters: Counters, key: string, start: int, end: int) {
    (start, key) in counters ==> counters[(start, key)].expiresAt == end
  }

  lemma FirstHitExpires(cfg: Settings, counters: Counters, r: Request, key: string, start: int)
    requires ValidSettings(cfg) && AsksIn(cfg, Allow(r), key, start) && !Untracked(r)
    requires Counts(cfg, counters, key, start, 0)
    ensures ExpiresAt(RedisAfterRequest(cfg, counters, r), key, start, r.now + cfg.windowSeconds * 1000)
  {
    hide WindowStart, Text.Blank;
  }

  lemma LaterHitKeepsExpiry(cfg: Settings, counters: Counters, r: Request, key: string, start: int, n: nat, end: int)
    requires ValidSettings(cfg) && ExpiresAt(counters, key, start, end) && Counts(cfg, counters, key, start, n)
    requires n > 0 || !AsksIn(cfg, Allow(r), key, start) || Untracked(r)
    ensures ExpiresAt(RedisAfterRequest(cfg, counters, r), key, start, end)
  {
    WindowStartBounds(cfg, r.now);
    hide WindowStart, Text.Blank;
  }

  /** In every run a counter lives for exactly one window length from the first request of its window on. */
  lemma {:induction false} CounterLivesOneWindow(cfg: Settings, history: seq<Call>, key: string, start: int)
    requires ValidSettings(cfg)
    ensures ExpiresAt(RedisAfter(cfg, history), key, start, FirstAsk(cfg, history, key, start) + cfg.windowSeconds * 1000)
  {
    if history != [] {
      hide RedisAfterRequest, Untracked, Counts, WindowStart, ExpiresAt;
      var init, last := history[..|history| - 1], history[|history| - 1];
      var counters, n := RedisAfter(cfg, init), Requested(cfg, init, key, start);
      CounterLivesOneWindow(cfg, init, key, start);
      CountersAreFaithful(cfg, init, key, start);
      if AsksIn(cfg, last, key, start) && !Untracked(last.r) && n == 0 {
        FirstHitExpires(cfg, counters, last.r, key, start);
      } else if last.Allow? {
        LaterHitKeepsExpiry(cfg, counters, last.r, key, start, n,
                            FirstAsk(cfg, init, key, start) + cfg.windowSeconds * 1000);
      }
    }
  }

  /** Every key is always asked for with its own fixed limit. */
  ghost predicate FixedLimits(history: seq<Call>, limits: string -> int) {
    forall i | 0 <= i < |history| && history[i].Allow? :: history[i].r.limit == limits(history[i].r.key)
  }

  function Min(a: nat, b: nat): nat {
    if a < b then a else b
  }

  /** The memory limiter stops counting at the limit; up to there the two agree. */
  lemma {:induction false} GrantsAreCappedRequests(cfg: Settings, history: seq<Call>, limits: string -> int, key: string, start: int)
    requires ValidSettings(cfg) && Monotone(history) && FixedLimits(history, limits)
    requires limits(key) > 0 && !Text.Blank(key)
    ensures Granted(cfg, history, key, start) == Min(Requested(cfg, history, key, start), limits(key))
  {
    if history != [] {
      var init, last := history[..|history| - 1], history[|history| - 1];
      GrantsAreCappedRequests(cfg, init, limits, key, start);
      if AsksIn(cfg, last, key, start) {
        assert last.r.limit == limits(key);
        MemoryCountsExactly(cfg, init, last.r);
      }
    }
  }

  /** After any such history the two limiters give the same answer to the next request. */
  lemma LimitersAgree(cfg: Settings, history: seq<Call>, limits: string -> int, r: Request)
    requires ValidSettings(cfg) && Monotone(history) && NoLaterThan(history, r.now)
    requires FixedLimits(history, limits)
    requires r.limit == limits(r.key) && !Text.Blank(r.key)
    ensures MemoryResult(cfg, MemoryAfter(cfg, history).entries, r) == RedisResult(cfg, RedisAfter(cfg, history), r)
  {
    if r.limit > 0 {
      var start := WindowStart(cfg, r.now);
      MemoryCountsExactly(cfg, history, r);
      CountersAreFaithful(cfg, history, r.key, start);
      GrantsAreCappedRequests(cfg, history, limits, r.key, start);
      WindowStartBounds(cfg, r.now);
    }
  }

  /**
   When the limit of a key changes within a window, the decisions differ exactly if it
   was raised to at most the number of requests seen: Redis has counted the refusals too.
   */
  lemma ChangedLimitDisagreesIff(cfg: Settings, history: seq<Call>, limits: string -> int, r: Request)
    requires ValidSettings(cfg) && Monotone(history) && NoLaterThan(history, r.now)
    requires FixedLimits(history, limits) && !Text.Blank(r.key) && limits(r.key) > 0 && r.limit > 0
    ensures MemoryResult(cfg, MemoryAfter(cfg, history).entries, r).allowed
              != RedisResult(cfg, RedisAfter(cfg, history), r).allowed <==>
            limits(r.key) < r.limit <= Requested(cfg, history, r.key, WindowStart(cfg, r.now))
  {
    var start := WindowStart(cfg, r.now);
    MemoryCountsExactly(cfg, history, r);
    CountersAreFaithful(cfg, history, r.key, start);
    GrantsAreCappedRequests(cfg, history, limits, r.key, start);
    WindowStartBounds(cfg, r.now);
  }

  /** Redis lets a blank key through always, and gives it no reset time. */
  lemma BlankKeyIsFree(cfg: Settings, history: seq<Call>, r: Request)
    requires ValidSettings(cfg) && Text.Blank(r.key) && r.limit > 0
    ensures RedisResult(cfg, RedisAfter(cfg, history), r) == RateLimitResult(true, r.limit, None, r.limit)
  {
    hide WindowStart, Text.Blank;
  }

  /** Without a positive limit both refuse, and neither counts. */
  lemma NoLimitRefuses(cfg: Settings, m: Memory, counters: Counters, r: Request)
    requires ValidSettings(cfg) && r.limit <= 0
    ensures MemoryResult(cfg, m.entries, r) == RedisResult(cfg, counters, r) == RateLimitResult(false, 0, None, r.limit)
    ensures MemoryAfterRequest(cfg, m, r) == m && RedisAfterRequest(cfg, counters, r) == counters
  {
  }

  /** Redis counts a request exactly if it has a limit and its key is not blank. */
  lemma RedisCountsIff(cfg: Settings, counters: Counters, r: Request)
    requires ValidSettings(cfg)
    ensures RedisAfterRequest(cfg, counters, r) != counters <==> r.limit > 0 && !Text.Blank(r.key)
  {
    hide WindowStart, Text.Blank;
    var k := (WindowStart(cfg, r.now), r.key);
    if !Untracked(r) && k in counters {
      assert RedisAfterRequest(cfg, counters, r)[k] == Incremented(cfg, counters, k, r.now) != counters[k];
    }
  }

  /** After any history of fixed limits the two results are equal exactly for keys that are not blank. */
  lemma LimitersAgreeIff(cfg: Settings, history: seq<Call>, limits: string -> int, r: Request)
    requires ValidSettings(cfg) && Monotone(history) && NoLaterThan(history, r.now)
    requires FixedLimits(history, limits) && r.limit == limits(r.key) && r.limit > 0
    ensures MemoryResult(cfg, MemoryAfter(cfg, history).entries, r) == RedisResult(cfg, RedisAfter(cfg, history), r)
            <==> !Text.Blank(r.key)
  {
    hide WindowStart, Text.Blank, MemoryAfter, RedisAfter;
    if Text.Blank(r.key) {
      MemoryCountsExactly(cfg, history, r);
      BlankKeyIsFree(cfg, history, r);
    } else {
      LimitersAgree(cfg, history, limits, r);
    }
  }

  /** The decisions on a blank key differ exactly once the memory limiter has used up its limit. */
  lemma BlankKeyDisagreesIff(cfg: Settings, history: seq<Call>, r: Request)
    requires ValidSettings(cfg) && Monotone(history) && NoLaterThan(history, r.now)
    requires Text.Blank(r.key) && r.limit > 0
    ensures MemoryResult(cfg, MemoryAfter(cfg, history).entries, r).allowed
              != RedisResult(cfg, RedisAfter(cfg, history), r).allowed <==>
            Granted(cfg, history, r.key, WindowStart(cfg, r.now)) >= r.limit
  {
    hide WindowStart, Text.Blank, MemoryAfter, RedisAfter, Granted;
    MemoryCountsExactly(cfg, history, r);
    BlankKeyIsFree(cfg, history, r);
  }

  // ------------------------------------------------------------------
  // The bound over any interval

  /** The grants of `key`, in order. */
  function Grants(cfg: Settings, history: seq<Call>, key: string): seq<Grant>
    requires ValidSettings(cfg)
  {
    if history == [] then []
    else
      var init, last := history[..|history| - 1], history[|history| - 1];
      Grants(cfg, init, key)
      + if last.Allow? && last.r.key == key && MemoryResult(cfg, MemoryAfter(cfg, init).entries, last.r).allowed
        then [Grant(last.r.now, WindowStart(cfg, last.r.now) * 1000)] else []
  }

  ghost predicate LimitAtMost(history: seq<Call>, key: string, limit: nat) {
    forall i | 0 <= i < |history| && history[i].Allow? && history[i].r.key == key :: history[i].r.limit <= limit
  }

  lemma {:induction false} WindowHoldsLimit(cfg: Settings, history: seq<Call>, key: string, limit: nat, start: int)
    requires ValidSettings(cfg) && Monotone(history) && LimitAtMost(history, key, limit)
    ensures Granted(cfg, history, key, start) <= limit
  {
    if history != [] {
      var init, last := history[..|history| - 1], history[|history| - 1];
      WindowHoldsLimit(cfg, init, key, limit, start);
      if AsksIn(cfg, last, key, start) {
        MemoryCountsExactly(cfg, init, last.r);
      }
    }
  }

  /** The grant was counted in the window that contains it. */
  predicate Aligned(cfg: Settings, g: Grant)
    requires ValidSettings(cfg)
  {
    g.at >= 0 && g.anchor == WindowStart(cfg, g.at) * 1000
  }

  lemma {:induction false} GrantsAreAligned(cfg: Settings, history: seq<Call>, key: string)
    requires ValidSettings(cfg)
    ensures forall g | g in Grants(cfg, history, key) :: Aligned(cfg, g)
  {
    if history != [] {
      GrantsAreAligned(cfg, history[..|history| - 1], key);
    }
  }

  lemma GrantsAreWindowed(cfg: Settings, history: seq<Call>, key: string)
    requires ValidSettings(cfg)
    ensures Windowed(Grants(cfg, history, key), cfg.windowSeconds * 1000)
  {
    var grants := Grants(cfg, history, key);
    GrantsAreAligned(cfg, history, key);
    forall i | 0 <= i < |grants|
      ensures grants[i].anchor <= grants[i].at < grants[i].anchor + cfg.windowSeconds * 1000
    {
      assert Aligned(cfg, grants[i]);
      WindowStartBounds(cfg, grants[i].at);
    }
    forall i, j | 0 <= i < |grants| && 0 <= j < |grants| && grants[i].anchor < grants[j].anchor
      ensures grants[i].anchor + cfg.windowSeconds * 1000 <= grants[j].anchor
    {
      assert Aligned(cfg, grants[i]) && Aligned(cfg, grants[j]);
      WindowStartGap(cfg, grants[i].at, grants[j].at);
    }
  }

  /** The grants counted in the window at `start` are those anchored there, in milliseconds. */
  lemma {:induction false} GrantsPerWindow(cfg: Settings, history: seq<Call>, key: string, start: int)
    requires ValidSettings(cfg)
    ensures CountAnchored(Grants(cfg, history, key), start * 1000) == Granted(cfg, history, key, start)
  {
    if history != [] {
      hide WindowStart, MemoryResult, CountAnchored, MemoryAfter;
      var init, last := history[..|history| - 1], history[|history| - 1];
      GrantsPerWindow(cfg, init, key, start);
      var grants := Grants(cfg, init, key);
      if last.Allow? {
        CountAnchoredOneMore(grants, Grant(last.r.now, WindowStart(cfg, last.r.now) * 1000), start * 1000);
      }
      assert grants + [] == grants;
    }
  }

  lemma {:induction false} NoGrantsBetweenSeconds(cfg: Settings, history: seq<Call>, key: string, anchor: int)
    requires ValidSettings(cfg) && anchor % 1000 != 0
    ensures CountAnchored(Grants(cfg, history, key), anchor) == 0
  {
    if history != [] {
      hide WindowStart, MemoryResult, CountAnchored, MemoryAfter;
      var init, last := history[..|history| - 1], history[|history| - 1];
      NoGrantsBetweenSeconds(cfg, init, key, anchor);
      var grants := Grants(cfg, init, key);
      if last.Allow? {
        var start := WindowStart(cfg, last.r.now);
        assert (start * 1000) % 1000 == 0;
        CountAnchoredOneMore(grants, Grant(last.r.now, start * 1000), anchor);
      }
      assert grants + [] == grants;
    }
  }

  /** Aligned windows: at most twice the limit in any half-open interval of one window length. */
  lemma AnyIntervalBound(cfg: Settings, history: seq<Call>, key: string, limit: nat, lo: int)
    requires ValidSettings(cfg) && Monotone(history) && LimitAtMost(history, key, limit)
    ensures CountIn(Grants(cfg, history, key), lo, lo + cfg.windowSeconds * 1000) <= 2 * limit
  {
    hide Grants, Granted, CountAnchored, CountIn, Windowed;
    var grants, width := Grants(cfg, history, key), cfg.windowSeconds * 1000;
    GrantsAreWindowed(cfg, history, key);
    forall anchor
      ensures CountAnchored(grants, anchor) <= limit
    {
      if anchor % 1000 == 0 {
        GrantsPerWindow(cfg, history, key, anchor / 1000);
        WindowHoldsLimit(cfg, history, key, limit, anchor / 1000);
      } else {
        NoGrantsBetweenSeconds(cfg, history, key, anchor);
      }
    }
    TwiceTheLimit(grants, width, limit, lo);
  }
}
