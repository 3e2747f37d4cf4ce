/**
 The in-memory duplicate filter (internal/dedup/memory.go): a map from key to
 expiry, with a background sweep of expired entries.
 */
module Dedup {

  /** The calls the filter can receive, in the order its mutex serialises them. */
  datatype Call = Seen(key: string, now: int) | Forget(key: string) | Cleanup(now: int)

  datatype Settings = Settings(enabled: bool, ttl: int)

  const DEFAULT_TTL: int := 300_000

  type Table = map<string, int>

  predicate Ignored(cfg: Settings, key: string) {
    !cfg.enabled || key == ""
  }

  /** The answer of Seen. */
  predicate Answer(cfg: Settings, table: Table, key: string, now: int) {
    !Ignored(cfg, key) && key in table && table[key] > now
  }

  function Swept(table: Table, now: int): Table {
    map k | k in table && table[k] > now :: table[k]
  }

  function Apply(cfg: Settings, table: Table, call: Call): Table {
    match call
    case Seen(key, now) =>
      if Ignored(cfg, key) || Answer(cfg, table, key, now) then table else table[key := now + cfg.ttl]
    case Forget(key) => if Ignored(cfg, key) then table else table - {key}
    case Cleanup(now) => Swept(table, now)
  }

  class Memory {
    const cfg: Settings
    var seen: map<string, int>

    constructor (enabled: bool, ttl: int)
      ensures seen == map[]
      ensures cfg == Settings(enabled, if ttl <= 0 then DEFAULT_TTL else ttl)
    {
      cfg := Settings(enabled, if ttl <= 0 then DEFAULT_TTL else ttl);
      seen := map[];
    }

    method Seen(key: string, now: int) returns (duplicate: bool)
      modifies this
      ensures duplicate <==> Answer(cfg, old(seen), key, now)
      ensures !cfg.enabled || key == "" ==> !duplicate && seen == old(seen)
      ensures seen == Apply(cfg, old(seen), Call.Seen(key, now))
    {
      if !cfg.enabled || key == "" {
        return false;
      }
      var expiry := now + cfg.ttl;
      if key in seen && seen[key] > now {
        return true;
      }
      seen := seen[key := expiry];
      return false;
    }

    method Forget(key: string)
      modifies this
      ensures seen == Apply(cfg, old(seen), Call.Forget(key))
      ensures key !in seen || !cfg.enabled || key == ""
    {
      if !cfg.enabled || key == "" {
        return;
      }
      seen := seen - {key};
    }

    method CleanupExpired(now: int)
      modifies this
      ensures seen == Apply(cfg, old(seen), Cleanup(now))
      ensures forall k :: k in seen <==> k in old(seen) && now < old(seen)[k]
    {
      var rest := seen.Keys;
      while rest != {}
        invariant rest <= seen.Keys <= old(seen).Keys
        invariant forall k | k in seen :: seen[k] == old(seen)[k]
        invariant forall k | k in old(seen) && k !in rest :: k in seen <==> old(seen)[k] > now
        decreases |rest|
      {
        var k :| k in rest;
        if seen[k] <= now {
          seen := seen - {k};
        }
        rest := rest - {k};
      }
      assert seen == Swept(old(seen), now);
    }
  }

  // ------------------------------------------------------------------
  // Runs

  function After(cfg: Settings, history: seq<Call>): Table {
    if history == [] then map[]
    else Apply(cfg, After(cfg, history[..|history| - 1]), history[|history| - 1])
  }

  predicate Timed(call: Call) {
    !call.Forget?
  }

  /** The clock never goes back. */
  ghost predicate Monotone(history: seq<Call>) {
    forall i, j | 0 <= i < j < |history| && Timed(history[i]) && Timed(history[j]) ::
      history[i].now <= history[j].now
  }

  /** No timed call of `history` is later than `now`. */
  ghost predicate NoLaterThan(history: seq<Call>, now: int) {
    forall i | 0 <= i < |history| && Timed(history[i]) :: history[i].now <= now
  }

  /** Call `i` was answered "new", so the key was accepted there. */
  predicate Accepted(cfg: Settings, history: seq<Call>, i: nat, key: string)
    requires i < |history|
  {
    && history[i].Seen? && history[i].key == key
    && !Ignored(cfg, key)
    && !Answer(cfg, After(cfg, history[..i]), key, history[i].now)
  }

  /** Accepted at `i`, less than a TTL before `now`, and not forgotten since. */
  predicate Witness(cfg: Settings, history: seq<Call>, i: nat, key: string, now: int)
    requires i < |history|
  {
    && Accepted(cfg, history, i, key)
    && now < history[i].now + cfg.ttl
    && forall j | i < j < |history| :: history[j] != Forget(key)
  }

  /** The acceptance that the table entry of `key` would stem from, cleanup or not: -1 if none. */
  ghost function Origin(cfg: Settings, history: seq<Call>, key: string): (i: int)
    ensures -1 <= i < |history|
    ensures i >= 0 ==> history[i].Seen?
  {
    if history == [] then -1
    else
      var init, last := history[..|history| - 1], history[|history| - 1];
      if last == Forget(key) then -1
      else if Accepted(cfg, history, |init|, key) then |init|
      else Origin(cfg, init, key)
  }

  lemma AcceptedOneMore(cfg: Settings, history: seq<Call>, call: Call, key: string)
    ensures forall i | 0 <= i < |history| ::
              Accepted(cfg, history + [call], i, key) <==> Accepted(cfg, history, i, key)
  {
    forall i | 0 <= i < |history|
      ensures Accepted(cfg, history + [call], i, key) <==> Accepted(cfg, history, i, key)
    {
      assert (history + [call])[..i] == history[..i];
    }
  }

  /** The origin is the one acceptance that no later acceptance or Forget overrides. */
  lemma {:induction false} OriginIsLatest(cfg: Settings, history: seq<Call>, key: string)
    ensures var o := Origin(cfg, history, key);
            && (o >= 0 ==> Accepted(cfg, history, o, key))
            && (o >= 0 ==> forall j | o < j < |history| :: history[j] != Forget(key))
            && (forall i | 0 <= i < |history| && Accepted(cfg, history, i, key)
                             && (forall j | i < j < |history| :: history[j] != Forget(key)) :: 0 <= i <= o)
  {
    if history != [] {
      var n := |history| - 1;
      var init, last := history[..n], history[n];
      assert history == init + [last];
      OriginIsLatest(cfg, init, key);
      AcceptedOneMore(cfg, init, last, key);
      forall i | 0 <= i < n && Accepted(cfg, history, i, key)
                   && (forall j | i < j < |history| :: history[j] != Forget(key))
        ensures 0 <= i <= Origin(cfg, init, key)
      {
        forall j | i < j < |init|
          ensures init[j] != Forget(key)
        {
          assert init[j] == history[j];
        }
      }
    }
  }

  /** An entry records its origin; an entry that is missing has none or has expired. */
  lemma {:induction false} TableFromOrigin(cfg: Settings, history: seq<Call>, key: string)
    requires Monotone(history) && cfg.ttl > 0
    ensures var table, o := After(cfg, history), Origin(cfg, history, key);
            && (key in table ==> o >= 0 && table[key] == history[o].now + cfg.ttl)
            && (key !in table && o >= 0 ==>
                  exists j | o <= j < |history| :: Timed(history[j]) && history[o].now + cfg.ttl <= history[j].now)
  {
    if history != [] {
      var n := |history| - 1;
      var init, last := history[..n], history[n];
      TableFromOrigin(cfg, init, key);
      OriginIsLatest(cfg, init, key);
      var o := Origin(cfg, init, key);
      if key !in After(cfg, init) && o >= 0 {
        var j :| o <= j < n && Timed(init[j]) && init[o].now + cfg.ttl <= init[j].now;
        assert history[j] == init[j];
      }
      if last.Seen? && last.key == key {
        assert Accepted(cfg, history, n, key) <==>
               !Ignored(cfg, key) && !Answer(cfg, After(cfg, init), key, last.now);
      }
    }
  }

  lemma ClockBound(history: seq<Call>, key: string, now: int)
    requires Monotone(history + [Seen(key, now)])
    ensures Monotone(history)
    ensures NoLaterThan(history, now)
  {
    var all := history + [Seen(key, now)];
    forall i, j | 0 <= i < j < |history| && Timed(history[i]) && Timed(history[j])
      ensures history[i].now <= history[j].now
    {
      assert all[i] == history[i] && all[j] == history[j];
    }
    forall i | 0 <= i < |history| && Timed(history[i])
      ensures history[i].now <= now
    {
      assert all[i] == history[i] && all[|history|] == Seen(key, now);
    }
  }

  /** Seen says "duplicate" exactly when the key was accepted less than a TTL ago and not forgotten since. */
  lemma SeenExactly(cfg: Settings, history: seq<Call>, key: string, now: int)
    requires Monotone(history + [Seen(key, now)]) && cfg.ttl > 0
    ensures Answer(cfg, After(cfg, history), key, now) <==>
            exists i | 0 <= i < |history| :: Witness(cfg, history, i, key, now)
  {
    ClockBound(history, key, now);
    var table, o := After(cfg, history), Origin(cfg, history, key);
    TableFromOrigin(cfg, history, key);
    OriginIsLatest(cfg, history, key);
    if Answer(cfg, table, key, now) {
      assert Witness(cfg, history, o, key, now);
    }
    forall i | 0 <= i < |history| && Witness(cfg, history, i, key, now)
      ensures Answer(cfg, table, key, now)
    {
      assert history[i].now <= history[o].now;
    }
  }

  /** Two acceptances of a key with no Forget of it between them are at least a TTL apart. */
  lemma AcceptancesAreSpaced(cfg: Settings, history: seq<Call>, i: nat, j: nat, key: string)
    requires Monotone(history) && cfg.ttl > 0
    requires i < j < |history| && Accepted(cfg, history, i, key) && Accepted(cfg, history, j, key)
    requires forall k | i < k < j :: history[k] != Forget(key)
    ensures history[i].now + cfg.ttl <= history[j].now
  {
    var before, now := history[..j], history[j].now;
    assert before + [Seen(key, now)] == history[..j + 1];
    SeenExactly(cfg, before, key, now);
    if now < history[i].now + cfg.ttl {
      assert before[..i] == history[..i];
      assert Witness(cfg, before, i, key, now);
    }
  }

  // ------------------------------------------------------------------
  // The sweep is unobservable

  function WithoutCleanup(history: seq<Call>): seq<Call> {
    if history == [] then []
    else
      var init, last := history[..|history| - 1], history[|history| - 1];
      WithoutCleanup(init) + if last.Cleanup? then [] else [last]
  }

  /** The answers given to the Seen calls of a history, in order. */
  function Answers(cfg: Settings, history: seq<Call>): seq<bool> {
    if history == [] then []
    else
      var init, last := history[..|history| - 1], history[|history| - 1];
      Answers(cfg, init) + if last.Seen? then [Answer(cfg, After(cfg, init), last.key, last.now)] else []
  }

  /** `swept` is `kept` without some entries that have expired by `now`. */
  ghost predicate LacksOnlyExpired(swept: Table, kept: Table, now: int) {
    forall k | k in swept || k in kept ::
      k in kept && if k in swept then swept[k] == kept[k] else kept[k] <= now
  }

  /** A call that stays in both runs gets the same answer from both tables and keeps them related. */
  lemma StepKeepsRelation(cfg: Settings, swept: Table, kept: Table, call: Call, before: int, now: int)
    requires LacksOnlyExpired(swept, kept, before) && before <= now
    requires Timed(call) ==> before <= call.now <= now
    ensures !call.Cleanup? ==> LacksOnlyExpired(Apply(cfg, swept, call), Apply(cfg, kept, call), now)
    ensures call.Cleanup? ==> LacksOnlyExpired(Apply(cfg, swept, call), kept, now)
    ensures call.Seen? ==>
              (Answer(cfg, swept, call.key, call.now) <==> Answer(cfg, kept, call.key, call.now))
  {
  }

  lemma {:induction false} SweepLosesOnlyExpired(cfg: Settings, history: seq<Call>, now: int)
    requires Monotone(history) && NoLaterThan(history, now)
    ensures LacksOnlyExpired(After(cfg, history), After(cfg, WithoutCleanup(history)), now)
    ensures Answers(cfg, history) == Answers(cfg, WithoutCleanup(history))
  {
    if history != [] {
      var n := |history| - 1;
      var init, last := history[..n], history[n];
      var clock := if Timed(last) then last.now else now;
      SweepLosesOnlyExpired(cfg, init, clock);
      StepKeepsRelation(cfg, After(cfg, init), After(cfg, WithoutCleanup(init)), last, clock, now);
      if last.Cleanup? {
        assert WithoutCleanup(history) == WithoutCleanup(init);
      } else {
        var kept := WithoutCleanup(history);
        assert kept[..|kept| - 1] == WithoutCleanup(init);
      }
    }
  }

  /** Sweeping at any moments, or never, gives every caller the same answers. */
  lemma CleanupUnobservable(cfg: Settings, history: seq<Call>, other: seq<Call>)
    requires Monotone(history) && Monotone(other)
    requires WithoutCleanup(history) == WithoutCleanup(other)
    ensures Answers(cfg, history) == Answers(cfg, other)
  {
    LatestCall(history);
    LatestCall(other);
    var now, now' :| NoLaterThan(history, now) && NoLaterThan(other, now');
    SweepLosesOnlyExpired(cfg, history, now);
    SweepLosesOnlyExpired(cfg, other, now');
  }

  lemma {:induction false} LatestCall(history: seq<Call>)
    ensures exists now :: NoLaterThan(history, now)
  {
    if history == [] {
      assert NoLaterThan(history, 0);
    } else {
      var init, last := history[..|history| - 1], history[|history| - 1];
      LatestCall(init);
      var now :| NoLaterThan(init, now);
      var now' := if Timed(last) && last.now > now then last.now else now;
      assert NoLaterThan(history, now') by {
        forall i | 0 <= i < |init| && Timed(history[i])
          ensures history[i].now <= now'
        {
          assert init[i] == history[i];
        }
      }
    }
  }
}
