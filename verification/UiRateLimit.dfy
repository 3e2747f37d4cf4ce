/**
 The smoke-test limiter (internal/handlers/ui_rate.go): a window opens at the
 first request of an address and lasts one minute.  Clocks count milliseconds.
 */
module UiRateLimit {
  import opened RateBound

  const MINUTE: int := 60_000

  const MAX_REQUESTS: nat := 20

  datatype Entry = Entry(windowStart: int, count: nat)

  type Entries = map<string, Entry>

  datatype Limiter = Limiter(entries: Entries, lastCleanup: int)

  datatype Call = Call(ip: string, now: int)

  /** The key under which an address is counted. */
  function Address(ip: string): string {
    if ip == "" then "unknown" else ip
  }

  function Swept(entries: Entries, now: int): Entries {
    map k | k in entries && now - entries[k].windowStart < 2 * MINUTE :: entries[k]
  }

  /** The entry of a key that still has an open window. */
  predicate Open(entries: Entries, key: string, now: int) {
    key in entries && now - entries[key].windowStart < MINUTE
  }

  predicate Allows(l: Limiter, c: Call) {
    Open(l.entries, Address(c.ip), c.now) ==> l.entries[Address(c.ip)].count < MAX_REQUESTS
  }

  function Apply(l: Limiter, c: Call): Limiter {
    var key := Address(c.ip);
    var sweep := c.now - l.lastCleanup >= MINUTE;
    var entries := if sweep then Swept(l.entries, c.now) else l.entries;
    var entry := if !Open(l.entries, key, c.now) then Entry(c.now, 1)
                 else if l.entries[key].count >= MAX_REQUESTS then l.entries[key]
                 else l.entries[key].(count := l.entries[key].count + 1);
    Limiter(entries[key := entry], if sweep then c.now else l.lastCleanup)
  }

  class UISmokeRateLimiter {
    var entries: map<string, Entry>
    var lastCleanup: int

    ghost function Value(): Limiter
      reads this
    {
      Limiter(entries, lastCleanup)
    }

    constructor (now: int)
      ensures Value() == Limiter(map[], now)
    {
      entries, lastCleanup := map[], now;
    }

    method DeleteOld(now: int)
      modifies this`entries
      ensures entries == Swept(old(entries), now)
      ensures forall k :: k in entries <==> k in old(entries) && now - old(entries)[k].windowStart < 120_000
    {
      var rest := entries.Keys;
      while rest != {}
        invariant rest <= entries.Keys <= old(entries).Keys
        invariant forall k | k in entries :: entries[k] == old(entries)[k]
        invariant forall k | k in old(entries) && k !in rest ::
                    k in entries <==> now - old(entries)[k].windowStart < 2 * MINUTE
        decreases |rest|
      {
        var k :| k in rest;
        if now - entries[k].windowStart >= 2 * MINUTE {
          entries := entries - {k};
        }
        rest := rest - {k};
      }
      assert entries == Swept(old(entries), now);
    }

    method Allow(ip: string, now: int) returns (allowed: bool)
      modifies this
      ensures allowed <==> Allows(old(Value()), Call(ip, now))
      ensures Value() == Apply(old(Value()), Call(ip, now))
    {
      var key := ip;
      if key == "" {
        key := "unknown";
      }
      if now - lastCleanup >= MINUTE {
        DeleteOld(now);
        lastCleanup := now;
      }
      if key !in entries {
        entries := entries[key := Entry(now, 1)];
        return true;
      }
      var entry := entries[key];
      if now - entry.windowStart >= MINUTE {
        entries := entries[key := Entry(now, 1)];
        return true;
      }
      if entry.count >= MAX_REQUESTS {
        assert entries[key := entry] == entries;
        return false;
      }
      entries := entries[key := entry.(count := entry.count + 1)];
      return true;
    }
  }

  // ------------------------------------------------------------------
  // Runs

  function After(start: int, history: seq<Call>): Limiter {
    if history == [] then Limiter(map[], start)
    else Apply(After(start, history[..|history| - 1]), history[|history| - 1])
  }

  ghost predicate Monotone(history: seq<Call>) {
    forall i, j | 0 <= i < j < |history| :: history[i].now <= history[j].now
  }

  ghost predicate NoLaterThan(history: seq<Call>, now: int) {
    forall i | 0 <= i < |history| :: history[i].now <= now
  }

  /** The grants of `key`, each anchored at the request that opened its window. */
  function Grants(start: int, history: seq<Call>, key: string): seq<Grant> {
    if history == [] then []
    else
      var init, last := history[..|history| - 1], history[|history| - 1];
      var l := After(start, init);
      Grants(start, init, key)
      + if Address(last.ip) == key && Allows(l, last)
        then [Grant(last.now, if Open(l.entries, key, last.now) then l.entries[key].windowStart else last.now)]
        else []
  }

  // ------------------------------------------------------------------
  // The same policy without a table: only the grants so far decide.

  /** The latest window of the grants is still open. */
  predicate WindowOpen(grants: seq<Grant>, now: int) {
    grants != [] && now - grants[|grants| - 1].anchor < MINUTE
  }

  /** The grants of the latest window. */
  function InLatest(grants: seq<Grant>): nat {
    if grants == [] then 0 else CountAnchored(grants, grants[|grants| - 1].anchor)
  }

  predicate Policy(grants: seq<Grant>, now: int) {
    WindowOpen(grants, now) ==> InLatest(grants) < MAX_REQUESTS
  }

  /** What the table knows about `key`: its latest window, unless that closed before `now`. */
  ghost predicate Faithful(entries: Entries, grants: seq<Grant>, key: string, now: int) {
    && (key in entries ==>
          grants != [] && entries[key] == Entry(grants[|grants| - 1].anchor, InLatest(grants)))
    && (key !in entries ==> !WindowOpen(grants, now))
  }

  /** The grants as they must be if the policy was followed up to `now`. */
  ghost predicate WellSpaced(grants: seq<Grant>, now: int) {
    && Windowed(grants, MINUTE)
    && (forall i | 0 <= i < |grants| :: grants[i].at <= now)
    && (forall i | 0 <= i < |grants| :: grants[i].anchor <= grants[|grants| - 1].anchor)
    && (forall anchor :: CountAnchored(grants, anchor) <= MAX_REQUESTS)
  }

  lemma {:induction false} NoGrantNoCount(grants: seq<Grant>, anchor: int)
    requires forall i | 0 <= i < |grants| :: grants[i].anchor != anchor
    ensures CountAnchored(grants, anchor) == 0
  {
    if grants != [] {
      NoGrantNoCount(grants[..|grants| - 1], anchor);
    }
  }

  /** The window in which a request admitted now is counted. */
  function AnchorAt(grants: seq<Grant>, now: int): int {
    if WindowOpen(grants, now) then grants[|grants| - 1].anchor else now
  }

  lemma GrantStaysWindowed(grants: seq<Grant>, before: int, now: int)
    requires WellSpaced(grants, before) && before <= now
    ensures Windowed(grants + [Grant(now, AnchorAt(grants, now))], MINUTE)
  {
    hide CountAnchored;
    var g := Grant(now, AnchorAt(grants, now));
    var more := grants + [g];
    forall i | 0 <= i < |more|
      ensures more[i].anchor <= more[i].at < more[i].anchor + MINUTE
    {
      assert i < |grants| ==> more[i] == grants[i];
    }
    forall i, j | 0 <= i < |more| && 0 <= j < |more| && more[i].anchor < more[j].anchor
      ensures more[i].anchor + MINUTE <= more[j].anchor
    {
      assert i < |grants| ==> more[i] == grants[i];
      assert j < |grants| ==> more[j] == grants[j];
    }
  }

  lemma GrantStaysBounded(grants: seq<Grant>, before: int, now: int, anchor: int)
    requires WellSpaced(grants, before) && before <= now && Policy(grants, now)
    ensures CountAnchored(grants + [Grant(now, AnchorAt(grants, now))], anchor) <= MAX_REQUESTS
  {
    hide CountAnchored, Windowed;
    CountAnchoredOneMore(grants, Grant(now, AnchorAt(grants, now)), anchor);
    if !WindowOpen(grants, now) {
      NewAnchor(grants, before, now);
    }
  }

  /** A window that opens now has no grants yet. */
  lemma NewAnchor(grants: seq<Grant>, before: int, now: int)
    requires WellSpaced(grants, before) && before <= now && !WindowOpen(grants, now)
    ensures CountAnchored(grants, now) == 0
  {
    NoGrantNoCount(grants, now);
    hide CountAnchored;
  }

  /** One more admitted request keeps the grants well spaced. */
  lemma GrantKeepsSpacing(grants: seq<Grant>, before: int, now: int)
    requires WellSpaced(grants, before) && before <= now && Policy(grants, now)
    ensures var more := grants + [Grant(now, AnchorAt(grants, now))];
            && WellSpaced(more, now)
            && InLatest(more) == if WindowOpen(grants, now) then InLatest(grants) + 1 else 1
  {
    hide CountAnchored, Windowed;
    var g := Grant(now, AnchorAt(grants, now));
    GrantStaysWindowed(grants, before, now);
    forall anchor
      ensures CountAnchored(grants + [g], anchor) <= MAX_REQUESTS
    {
      GrantStaysBounded(grants, before, now, anchor);
    }
    CountAnchoredOneMore(grants, g, g.anchor);
    if !WindowOpen(grants, now) {
      NewAnchor(grants, before, now);
    }
  }

  /** A request of another address, a refusal or a sweep leaves the table faithful. */
  lemma NoGrantKeepsFaith(l: Limiter, c: Call, grants: seq<Grant>, key: string, now: int)
    requires Faithful(l.entries, grants, key, c.now) && WellSpaced(grants, c.now) && c.now <= now
    requires Address(c.ip) != key || !Allows(l, c)
    ensures Faithful(Apply(l, c).entries, grants, key, now)
  {
    hide InLatest;
  }

  /** A faithful table decides and anchors by the policy. */
  lemma FaithfulTable(l: Limiter, c: Call, grants: seq<Grant>, key: string)
    requires Faithful(l.entries, grants, key, c.now) && Address(c.ip) == key
    ensures Open(l.entries, key, c.now) <==> WindowOpen(grants, c.now)
    ensures Open(l.entries, key, c.now) ==>
              l.entries[key] == Entry(grants[|grants| - 1].anchor, InLatest(grants))
    ensures Allows(l, c) <==> Policy(grants, c.now)
    ensures (if Open(l.entries, key, c.now) then l.entries[key].windowStart else c.now) == AnchorAt(grants, c.now)
  {
    hide InLatest;
  }

  /** The entry after a granted request. */
  lemma GrantedEntry(l: Limiter, c: Call)
    requires Allows(l, c)
    ensures var key := Address(c.ip); var entries := Apply(l, c).entries;
            key in entries && entries[key] ==
              if Open(l.entries, key, c.now) then Entry(l.entries[key].windowStart, l.entries[key].count + 1)
              else Entry(c.now, 1)
  {
  }

  lemma GrantKeepsFaith(l: Limiter, c: Call, grants: seq<Grant>, key: string, now: int)
    requires Faithful(l.entries, grants, key, c.now) && WellSpaced(grants, c.now) && c.now <= now
    requires Address(c.ip) == key && Allows(l, c)
    ensures Policy(grants, c.now)
    ensures var anchor := if Open(l.entries, key, c.now) then l.entries[key].windowStart else c.now;
            var more := grants + [Grant(c.now, anchor)];
            Faithful(Apply(l, c).entries, more, key, now) && WellSpaced(more, now)
  {
    FaithfulTable(l, c, grants, key);
    GrantedEntry(l, c);
    hide InLatest, Apply, Open, Allows, Windowed, CountAnchored;
    GrantKeepsSpacing(grants, c.now, c.now);
  }

  /** The table, sweeps included, always decides by the policy. */
  lemma {:induction false} TableFollowsPolicy(start: int, history: seq<Call>, key: string, now: int)
    requires Monotone(history) && NoLaterThan(history, now)
    ensures Faithful(After(start, history).entries, Grants(start, history, key), key, now)
    ensures WellSpaced(Grants(start, history, key), now)
  {
    if history != [] {
      hide Faithful, Apply, Allows, Open;
      var init, last := history[..|history| - 1], history[|history| - 1];
      TableFollowsPolicy(start, init, key, last.now);
      var l, grants := After(start, init), Grants(start, init, key);
      if Address(last.ip) == key && Allows(l, last) {
        GrantKeepsFaith(l, last, grants, key, now);
      } else {
        NoGrantKeepsFaith(l, last, grants, key, now);
        assert Grants(start, history, key) == grants;
      }
    }
  }

  /** The answer to a request depends on the grants of its address alone. */
  lemma AnswerIsPolicy(start: int, history: seq<Call>, c: Call)
    requires Monotone(history) && NoLaterThan(history, c.now)
    ensures Allows(After(start, history), c) <==> Policy(Grants(start, history, Address(c.ip)), c.now)
  {
    TableFollowsPolicy(start, history, Address(c.ip), c.now);
  }

  /** Windows anchored at the first request: at most forty grants in any half-open minute. */
  lemma AnyMinuteBound(start: int, history: seq<Call>, key: string, lo: int)
    requires Monotone(history)
    ensures CountIn(Grants(start, history, key), lo, lo + 60_000) <= 40
  {
    var now := if history == [] then 0 else history[|history| - 1].now;
    TableFollowsPolicy(start, history, key, now);
    TwiceTheLimit(Grants(start, history, key), MINUTE, MAX_REQUESTS, lo);
  }

  /** Requests without an address share the counter of "unknown", others keep theirs until a sweep, once a minute. */
  lemma CountedUnderAddress(l: Limiter, c: Call)
    ensures Allows(l, c.(ip := "")) == Allows(l, c.(ip := "unknown")) && Apply(l, c.(ip := "")) == Apply(l, c.(ip := "unknown"))
    ensures c.ip != "" ==> c.ip in Apply(l, c).entries
    ensures forall ip | ip in Apply(l, c).entries && ip != (if |c.ip| > 0 then c.ip else "unknown") ::
              ip in l.entries && Apply(l, c).entries[ip] == l.entries[ip]
    ensures c.now < l.lastCleanup + 60_000 ==>
              Apply(l, c).lastCleanup == l.lastCleanup && l.entries.Keys <= Apply(l, c).entries.Keys
  {
  }

  /** What the sweeps keep: nothing from more than two minutes before the last of them. */
  ghost predicate Recent(l: Limiter, now: int) {
    && l.lastCleanup <= now < l.lastCleanup + 60_000
    && forall k | k in l.entries :: l.lastCleanup - 120_000 < l.entries[k].windowStart
  }

  lemma CallKeepsRecent(l: Limiter, c: Call, before: int)
    requires (Recent(l, before) || (l.entries == map[] && l.lastCleanup <= before)) && before <= c.now
    ensures Recent(Apply(l, c), c.now)
  {
  }

  /** The table does not grow old: after any call every entry is less than three minutes old. */
  lemma {:induction false} EntriesStayRecent(start: int, history: seq<Call>)
    requires Monotone(history) && (history != [] ==> start <= history[0].now)
    ensures history != [] ==> Recent(After(start, history), history[|history| - 1].now)
    ensures history != [] ==> forall k | k in After(start, history).entries ::
              history[|history| - 1].now - After(start, history).entries[k].windowStart < 180_000
  {
    if history != [] {
      hide Apply;
      var n := |history| - 1;
      EntriesStayRecent(start, history[..n]);
      CallKeepsRecent(After(start, history[..n]), history[n], if n == 0 then start else history[n - 1].now);
    }
  }
}
