/**
 The security audit log (internal/securityaudit/file_store.go): an append-only
 file of records whose expired head is dropped now and then.  A file is the
 sequence of its decoded records; clocks count milliseconds.
 */
module SecurityAudit {
  import opened Wrappers
  import opened Sequences
  import opened Text

  datatype Details = Details(category: string, outcome: string, source: string, reason: string, path: string,
                             httpStatus: int, requestID: string, actor: string, clientIP: string)

  datatype Record = Record(auditID: string, details: Details, occurredAt: int)

  datatype Error = InvalidInput | InvalidLimit

  datatype Settings = Settings(retention: int, pruneInterval: int)

  const DAY: int := 86_400_000
  const HOUR: int := 3_600_000

  datatype Disk = Disk(file: Option<seq<Record>>, lastPruned: Option<int>)

  predicate Acceptable(d: Details) {
    && !Blank(d.category) && !Blank(d.outcome) && !Blank(d.source) && !Blank(d.reason) && !Blank(d.path)
    && 100 <= d.httpStatus <= 599
  }

  function Trimmed(d: Details): Details {
    Details(TrimSpace(d.category), TrimSpace(d.outcome), TrimSpace(d.source), TrimSpace(d.reason),
            TrimSpace(d.path), d.httpStatus, TrimSpace(d.requestID), TrimSpace(d.actor), TrimSpace(d.clientIP))
  }

  predicate Expired(cfg: Settings, r: Record, now: int) {
    r.occurredAt < now - cfg.retention
  }

  function Unexpired(cfg: Settings, records: seq<Record>, now: int): seq<Record> {
    Filter(r => !Expired(cfg, r, now), records)
  }

  lemma UnexpiredNone(cfg: Settings, now: int)
    ensures forall limit: nat :: Suffix(Unexpired(cfg, [], now), limit) == []
  {
  }

  lemma UnexpiredOneMore(cfg: Settings, records: seq<Record>, r: Record, now: int)
    ensures Unexpired(cfg, records + [r], now) ==
            Unexpired(cfg, records, now) + if Expired(cfg, r, now) then [] else [r]
  {
    assert (records + [r])[..|records|] == records;
  }

  function Lines(disk: Disk): seq<Record> {
    if disk.file.None? then [] else disk.file.value
  }

  /** Pruning is due unless the last one was less than an interval ago. */
  predicate Due(cfg: Settings, lastPruned: Option<int>, now: int) {
    lastPruned.Some? ==> now - lastPruned.value >= cfg.pruneInterval
  }

  /** The file after the interval-throttled pruning. */
  function Pruned(cfg: Settings, disk: Disk, now: int): Disk {
    if !Due(cfg, disk.lastPruned, now) then disk
    else Disk(Some(Unexpired(cfg, Lines(disk), now)), Some(now))
  }

  function Saved(cfg: Settings, disk: Disk, d: Details, auditID: string, now: int): Disk {
    if !Acceptable(d) then disk
    else
      var pruned := Pruned(cfg, disk, now);
      pruned.(file := Some(Lines(pruned) + [Record(auditID, Trimmed(d), now)]))
  }

  /** The answer of ListRecent. */
  function Listing(cfg: Settings, disk: Disk, limit: int, now: int): Result<seq<Record>, Error> {
    if limit <= 0 then Failure(InvalidLimit)
    else Success(Reversed(Suffix(Unexpired(cfg, Lines(disk), now), limit)))
  }

  class FileStore {
    const cfg: Settings
    var file: Option<seq<Record>>
    var lastPruned: Option<int>

    ghost function Value(): Disk
      reads this
    {
      Disk(file, lastPruned)
    }

    /** The file may already hold records of an earlier process. */
    constructor (file: Option<seq<Record>>, retentionDays: nat, pruneInterval: int)
      ensures Value() == Disk(file, None)
      ensures cfg == Settings(retentionDays * DAY, if pruneInterval <= 0 then HOUR else pruneInterval)
    {
      this.file, lastPruned := file, None;
      cfg := Settings(retentionDays * DAY, if pruneInterval <= 0 then HOUR else pruneInterval);
    }

    method PruneExpiredLocked(now: int)
      modifies this
      ensures Value() == Pruned(cfg, old(Value()), now)
      ensures lastPruned == Some(now) <==>
                old(lastPruned) == Some(now) || old(lastPruned).None? || now - old(lastPruned).value >= cfg.pruneInterval
    {
      if lastPruned.Some? && now - lastPruned.value < cfg.pruneInterval {
        return;
      }
      var records := if file.None? then [] else file.value;
      var filtered: seq<Record> := [];
      for i := 0 to |records|
        invariant filtered == Unexpired(cfg, records[..i], now)
      {
        assert records[..i + 1][..i] == records[..i];
        if !Expired(cfg, records[i], now) {
          filtered := filtered + [records[i]];
        }
      }
      assert records[..|records|] == records;
      FilterAll(r => !Expired(cfg, r, now), records);
      if |filtered| == |records| && file.Some? {
        lastPruned := Some(now);
        return;
      }
      file := Some(filtered);
      lastPruned := Some(now);
    }

    /** `now` is the clock read at the start of the call, `auditID` the freshly drawn id. */
    method Save(d: Details, auditID: string, now: int) returns (r: Result<Record, Error>)
      modifies this
      ensures Value() == Saved(cfg, old(Value()), d, auditID, now)
      ensures r == if Acceptable(d) then Success(Record(auditID, Trimmed(d), now)) else Failure(InvalidInput)
      ensures r.Failure? <==>
              || Blank(d.category) || Blank(d.outcome) || Blank(d.source) || Blank(d.reason) || Blank(d.path)
              || d.httpStatus < 100 || d.httpStatus > 599
      ensures r.Success? ==>
                var x := r.value.details;
                && x.category == TrimSpace(d.category) && x.outcome == TrimSpace(d.outcome) && x.source == TrimSpace(d.source)
                && x.reason == TrimSpace(d.reason) && x.path == TrimSpace(d.path) && x.httpStatus == d.httpStatus
                && x.requestID == TrimSpace(d.requestID) && x.actor == TrimSpace(d.actor) && x.clientIP == TrimSpace(d.clientIP)
    {
      hide Blank, TrimSpace, Pruned;
      if !Acceptable(d) {
        return Failure(InvalidInput);
      }
      var record := Record(auditID, Trimmed(d), now);
      PruneExpiredLocked(now);
      file := Some((if file.None? then [] else file.value) + [record]);
      return Success(record);
    }

    /** The scan: unexpired records go through the window, the rest are skipped. */
    method ScanRecent(lines: seq<Record>, limit: nat, now: int) returns (window: SlidingWindow<Record>)
      requires limit > 0
      ensures window.Valid() && fresh(window) && fresh(window.buffer)
      ensures window.Contents() == Suffix(Unexpired(cfg, lines, now), limit)
    {
      hide Unexpired, Suffix, Expired;
      UnexpiredNone(cfg, now);
      assert lines[..0] == [];
      window := new SlidingWindow<Record>(limit);
      for i := 0 to |lines|
        invariant window.Valid() && fresh(window) && fresh(window.buffer) && window.buffer.Length == limit
        invariant window.Contents() == Suffix(Unexpired(cfg, lines[..i], now), limit)
      {
        ghost var kept := Unexpired(cfg, lines[..i], now);
        UnexpiredOneMore(cfg, lines[..i], lines[i], now);
        assert lines[..i] + [lines[i]] == lines[..i + 1];
        if !Expired(cfg, lines[i], now) {
          SuffixPush(kept, lines[i], limit);
          window.Push(lines[i]);
        } else {
          assert kept + [] == kept;
        }
      }
      assert lines[..|lines|] == lines;
    }

    method ListRecent(limit: int, now: int) returns (r: Result<seq<Record>, Error>)
      ensures r == Listing(cfg, Value(), limit, now)
      ensures r.Failure? <==> limit < 1
    {
      if limit <= 0 {
        return Failure(InvalidLimit);
      }
      hide Unexpired, Suffix;
      if file.None? {
        UnexpiredNone(cfg, now);
        return Success([]);
      }
      var window := ScanRecent(file.value, limit, now);
      window.Reverse();
      return Success(window.buffer[..window.len]);
    }
  }

  // ------------------------------------------------------------------
  // Runs

  datatype Call = Save(details: Details, auditID: string, now: int) | ListRecent(limit: int, now: int)

  function After(cfg: Settings, first: Disk, history: seq<Call>): Disk {
    if history == [] then first
    else
      var disk := After(cfg, first, history[..|history| - 1]);
      match history[|history| - 1]
      case Save(d, id, now) => Saved(cfg, disk, d, id, now)
      case ListRecent(_, _) => disk
  }

  /** What a log that is never pruned holds: everything ever accepted, in order. */
  function FullLog(first: Disk, history: seq<Call>): seq<Record> {
    if history == [] then Lines(first)
    else
      var log := FullLog(first, history[..|history| - 1]);
      match history[|history| - 1]
      case Save(d, id, now) => if Acceptable(d) then log + [Record(id, Trimmed(d), now)] else log
      case ListRecent(_, _) => log
  }

  ghost predicate NoLaterThan(history: seq<Call>, now: int) {
    forall i | 0 <= i < |history| :: history[i].now <= now
  }

  // ------------------------------------------------------------------
  // What pruning loses, from the history alone

  predicate Accepted(call: Call) {
    call.Save? && Acceptable(call.details)
  }

  /** When the log was last pruned. */
  function LastPrune(cfg: Settings, first: Disk, history: seq<Call>): Option<int> {
    if history == [] then first.lastPruned
    else
      var before, last := LastPrune(cfg, first, history[..|history| - 1]), history[|history| - 1];
      if Accepted(last) && Due(cfg, before, last.now) then Some(last.now) else before
  }

  /** Call `j` prunes the log. */
  predicate PrunesAt(cfg: Settings, first: Disk, history: seq<Call>, j: nat)
    requires j < |history|
  {
    Accepted(history[j]) && Due(cfg, LastPrune(cfg, first, history[..j]), history[j].now)
  }

  /** A record that was expired at `t` and is unexpired at `now`. */
  ghost predicate Revived(cfg: Settings, log: seq<Record>, t: int, now: int) {
    exists r | r in log :: Expired(cfg, r, t) && !Expired(cfg, r, now)
  }

  /** The prune at call `j` drops a record accepted before it, or dropped by an earlier one, that is unexpired at `now`. */
  ghost predicate LosesAt(cfg: Settings, first: Disk, history: seq<Call>, j: nat, now: int)
    requires j < |history|
  {
    PrunesAt(cfg, first, history, j) && Revived(cfg, FullLog(first, history[..j]), history[j].now, now)
  }

  /** Some executed prune dropped a record that is unexpired at `now`. */
  ghost predicate Loses(cfg: Settings, first: Disk, history: seq<Call>, now: int) {
    exists j | 0 <= j < |history| :: LosesAt(cfg, first, history, j, now)
  }

  lemma LosesOneMore(cfg: Settings, first: Disk, history: seq<Call>, now: int)
    requires history != []
    ensures var n := |history| - 1;
            Loses(cfg, first, history, now) <==>
            Loses(cfg, first, history[..n], now) || LosesAt(cfg, first, history, n, now)
  {
    hide PrunesAt, Revived, FullLog;
    var n := |history| - 1;
    var init := history[..n];
    forall j | 0 <= j < n
      ensures LosesAt(cfg, first, history, j, now) <==> LosesAt(cfg, first, init, j, now)
    {
      assert init[..j] == history[..j];
      SamePrune(cfg, first, history, init, j);
    }
    if Loses(cfg, first, init, now) {
      var j :| 0 <= j < n && LosesAt(cfg, first, init, j, now);
      assert LosesAt(cfg, first, history, j, now);
    }
  }

  lemma SamePrune(cfg: Settings, first: Disk, a: seq<Call>, b: seq<Call>, j: nat)
    requires j < |a| && j < |b| && a[..j] == b[..j] && a[j] == b[j]
    ensures PrunesAt(cfg, first, a, j) == PrunesAt(cfg, first, b, j)
  {
  }

  lemma {:induction false} LastPruneIsOnDisk(cfg: Settings, first: Disk, history: seq<Call>)
    ensures After(cfg, first, history).lastPruned == LastPrune(cfg, first, history)
  {
    if history != [] {
      hide Acceptable, Due;
      LastPruneIsOnDisk(cfg, first, history[..|history| - 1]);
    }
  }

  lemma FilteredLines(cfg: Settings, records: seq<Record>, t: int)
    ensures forall r | r in Unexpired(cfg, records, t) :: r in records
  {
    FilterMembers(r => !Expired(cfg, r, t), records);
  }

  /** The file never holds anything that was not accepted. */
  lemma {:induction false} LinesWereAccepted(cfg: Settings, first: Disk, history: seq<Call>)
    ensures forall r | r in Lines(After(cfg, first, history)) :: r in FullLog(first, history)
  {
    if history != [] {
      hide Acceptable, Trimmed, Unexpired, Due;
      var init, last := history[..|history| - 1], history[|history| - 1];
      LinesWereAccepted(cfg, first, init);
      FilteredLines(cfg, Lines(After(cfg, first, init)), last.now);
    }
  }

  /** Pruning at `t` shows at `now` exactly if it drops a record that is unexpired at `now`. */
  lemma PruningShowsIff(cfg: Settings, records: seq<Record>, t: int, now: int)
    ensures var pruned, all := Unexpired(cfg, Unexpired(cfg, records, t), now), Unexpired(cfg, records, now);
            && |pruned| <= |all|
            && (!Revived(cfg, records, t, now) ==> pruned == all)
            && (Revived(cfg, records, t, now) ==> |pruned| < |all|)
  {
    var p, q := (r: Record) => !Expired(cfg, r, t), (r: Record) => !Expired(cfg, r, now);
    hide Expired, Filter;
    FilterLoses(p, q, records);
    if !Revived(cfg, records, t, now) {
      FilterTwice(p, q, records);
    } else {
      var r :| r in records && Expired(cfg, r, t) && !Expired(cfg, r, now);
      assert q(r) && !p(r);
    }
  }

  function Appended(cfg: Settings, r: Record, now: int): seq<Record> {
    if Expired(cfg, r, now) then [] else [r]
  }

  /** What one accepted save does to what is unexpired at `now`. */
  lemma SavedUnexpired(cfg: Settings, disk: Disk, d: Details, id: string, t: int, now: int)
    requires Acceptable(d)
    ensures var lines := if Due(cfg, disk.lastPruned, t) then Unexpired(cfg, Lines(disk), t) else Lines(disk);
            Unexpired(cfg, Lines(Saved(cfg, disk, d, id, t)), now) ==
            Unexpired(cfg, lines, now) + Appended(cfg, Record(id, Trimmed(d), t), now)
  {
    hide Unexpired, Acceptable, Trimmed, Expired, Due;
    UnexpiredOneMore(cfg, Lines(Pruned(cfg, disk, t)), Record(id, Trimmed(d), t), now);
  }

  lemma FullLogUnexpired(cfg: Settings, first: Disk, history: seq<Call>, now: int)
    requires history != [] && Accepted(history[|history| - 1])
    ensures var last := history[|history| - 1];
            Unexpired(cfg, FullLog(first, history), now) ==
            Unexpired(cfg, FullLog(first, history[..|history| - 1]), now)
            + Appended(cfg, Record(last.auditID, Trimmed(last.details), last.now), now)
  {
    hide Unexpired, Acceptable, Trimmed, Expired;
    var last := history[|history| - 1];
    UnexpiredOneMore(cfg, FullLog(first, history[..|history| - 1]), Record(last.auditID, Trimmed(last.details), last.now), now);
  }

  /** The pruned log shows at most what was ever accepted, and everything exactly if nothing was lost. */
  ghost predicate Compares(cfg: Settings, lines: seq<Record>, log: seq<Record>, loses: bool, now: int) {
    && (!loses ==> Unexpired(cfg, lines, now) == Unexpired(cfg, log, now))
    && (loses ==> |Unexpired(cfg, lines, now)| < |Unexpired(cfg, log, now)|)
  }

  /** A prune on top of what the file already lacks. */
  lemma PrunedCompares(cfg: Settings, lines: seq<Record>, log: seq<Record>, loses: bool, t: int, now: int)
    requires Compares(cfg, lines, log, loses, now) && forall r | r in lines :: r in log
    ensures Compares(cfg, Unexpired(cfg, lines, t), log, loses || Revived(cfg, log, t, now), now)
  {
    PruningShowsIff(cfg, lines, t, now);
    if !loses {
      UnexpiredMembers(cfg, lines, now);
      UnexpiredMembers(cfg, log, now);
    }
    hide Unexpired, Expired;
    if !loses && Revived(cfg, log, t, now) {
      var r :| r in log && Expired(cfg, r, t) && !Expired(cfg, r, now);
      assert r in Unexpired(cfg, log, now) && r in lines;
    }
  }

  lemma UnexpiredMembers(cfg: Settings, records: seq<Record>, now: int)
    ensures forall r | r in records :: !Expired(cfg, r, now) <==> r in Unexpired(cfg, records, now)
    ensures forall r | r in Unexpired(cfg, records, now) :: r in records
  {
    FilterMembers(r => !Expired(cfg, r, now), records);
  }

  lemma {:induction false} LogCompares(cfg: Settings, first: Disk, history: seq<Call>, now: int)
    ensures Compares(cfg, Lines(After(cfg, first, history)), FullLog(first, history), Loses(cfg, first, history, now), now)
  {
    if history != [] {
      var n := |history| - 1;
      var init, last := history[..n], history[n];
      LogCompares(cfg, first, init, now);
      LosesOneMore(cfg, first, history, now);
      if Accepted(last) {
        SaveCompares(cfg, first, history, now);
      } else {
        hide Unexpired, Acceptable, Loses, Lines;
        assert After(cfg, first, history) == After(cfg, first, init) && FullLog(first, history) == FullLog(first, init);
      }
    }
  }

  lemma SaveCompares(cfg: Settings, first: Disk, history: seq<Call>, now: int)
    requires history != [] && Accepted(history[|history| - 1])
    requires var init := history[..|history| - 1];
             Compares(cfg, Lines(After(cfg, first, init)), FullLog(first, init), Loses(cfg, first, init, now), now)
    ensures Compares(cfg, Lines(After(cfg, first, history)), FullLog(first, history),
                     Loses(cfg, first, history[..|history| - 1], now) || LosesAt(cfg, first, history, |history| - 1, now), now)
  {
    hide Unexpired, Acceptable, Trimmed, Saved, Expired, Loses, Due, LastPrune, Lines, Revived;
    var n := |history| - 1;
    var init, last := history[..n], history[n];
    var disk, loses := After(cfg, first, init), Loses(cfg, first, init, now);
    LinesWereAccepted(cfg, first, init);
    LastPruneIsOnDisk(cfg, first, init);
    PrunedCompares(cfg, Lines(disk), FullLog(first, init), loses, last.now, now);
    SavedUnexpired(cfg, disk, last.details, last.auditID, last.now, now);
    FullLogUnexpired(cfg, first, history, now);
  }

  // ------------------------------------------------------------------
  // Retention is enforced on the file as well

  /** A log that was pruned not longer than an interval ago, of what was unexpired then or came later. */
  ghost predicate KeptYoung(cfg: Settings, disk: Disk, now: int) {
    && disk.lastPruned.Some? && now - disk.lastPruned.value < cfg.pruneInterval
    && forall r | r in Lines(disk) :: r.occurredAt >= disk.lastPruned.value - cfg.retention
  }

  lemma UnexpiredAreYoung(cfg: Settings, records: seq<Record>, t: int)
    ensures forall r | r in Unexpired(cfg, records, t) :: r.occurredAt >= t - cfg.retention
  {
    FilterMembers(r => !Expired(cfg, r, t), records);
    forall r | r in Unexpired(cfg, records, t)
      ensures r.occurredAt >= t - cfg.retention
    {
      assert r in records;
    }
  }

  /** Whatever the file held before, a save leaves nothing that was expired at the last prune, which was due. */
  lemma SaveTrims(cfg: Settings, disk: Disk, d: Details, id: string, now: int)
    requires Acceptable(d) && cfg.retention >= 0 && cfg.pruneInterval > 0
    requires disk.lastPruned.Some? ==>
               disk.lastPruned.value <= now
               && forall r | r in Lines(disk) :: r.occurredAt >= disk.lastPruned.value - cfg.retention
    ensures KeptYoung(cfg, Saved(cfg, disk, d, id, now), now)
  {
    UnexpiredAreYoung(cfg, Lines(disk), now);
    hide Unexpired, Acceptable, Trimmed;
  }

  /** In every run with a clock that does not go back, the file holds no record older than retention plus interval. */
  lemma {:induction false} FileStaysYoung(cfg: Settings, file: Option<seq<Record>>, history: seq<Call>)
    requires cfg.retention >= 0 && cfg.pruneInterval > 0
    requires forall i, j | 0 <= i < j < |history| :: history[i].now <= history[j].now
    ensures var disk := After(cfg, Disk(file, None), history);
            disk.lastPruned.Some? ==>
              && history != [] && disk.lastPruned.value <= history[|history| - 1].now
              && (forall r | r in Lines(disk) :: r.occurredAt >= disk.lastPruned.value - cfg.retention)
              && (Accepted(history[|history| - 1]) ==>
                    forall r | r in Lines(disk) :: r.occurredAt > history[|history| - 1].now - cfg.retention - cfg.pruneInterval)
    ensures history != [] && Accepted(history[|history| - 1]) ==> After(cfg, Disk(file, None), history).lastPruned.Some?
  {
    if history != [] {
      var init, last := history[..|history| - 1], history[|history| - 1];
      FileStaysYoung(cfg, file, init);
      hide Acceptable, Saved;
      if Accepted(last) {
        var disk := After(cfg, Disk(file, None), init);
        SaveTrims(cfg, disk, last.details, last.auditID, last.now);
        LastPruneMoves(cfg, disk, last.details, last.auditID, last.now);
      } else if last.Save? {
        RefusedSave(cfg, After(cfg, Disk(file, None), init), last.details, last.auditID, last.now);
      }
    }
  }

  lemma RefusedSave(cfg: Settings, disk: Disk, d: Details, id: string, t: int)
    requires !Acceptable(d)
    ensures Saved(cfg, disk, d, id, t) == disk
  {
  }

  lemma LastPruneMoves(cfg: Settings, disk: Disk, d: Details, id: string, now: int)
    requires Acceptable(d) && (disk.lastPruned.Some? ==> disk.lastPruned.value <= now)
    ensures var after := Saved(cfg, disk, d, id, now).lastPruned; after.Some? && after.value <= now
  {
  }

  // ------------------------------------------------------------------
  // What a caller sees

  /** ListRecent gives the same lists, at every limit, as for a log that is never pruned. */
  ghost predicate SameLists(cfg: Settings, first: Disk, history: seq<Call>, now: int) {
    forall limit ::
      Listing(cfg, After(cfg, first, history), limit, now) ==
      Listing(cfg, Disk(Some(FullLog(first, history)), None), limit, now)
  }

  lemma ListingShows(cfg: Settings, disk: Disk, limit: int, now: int)
    requires limit > 0 && |Unexpired(cfg, Lines(disk), now)| <= limit
    ensures Listing(cfg, disk, limit, now).Success?
    ensures |Listing(cfg, disk, limit, now).value| == |Unexpired(cfg, Lines(disk), now)|
  {
    hide Unexpired;
  }

  /** Whatever the clock does: pruning can be seen at `now` exactly if it dropped a record that is unexpired at `now`. */
  lemma PruningUnobservableIff(cfg: Settings, first: Disk, history: seq<Call>, now: int)
    ensures SameLists(cfg, first, history, now) <==> !Loses(cfg, first, history, now)
  {
    LogCompares(cfg, first, history, now);
    hide Unexpired, Loses, After, FullLog, Suffix, Reversed;
    var disk, full := After(cfg, first, history), Disk(Some(FullLog(first, history)), None);
    if Loses(cfg, first, history, now) {
      var limit := |Unexpired(cfg, Lines(full), now)|;
      ListingShows(cfg, full, limit, now);
      ListingShows(cfg, disk, limit, now);
      assert Listing(cfg, disk, limit, now) != Listing(cfg, full, limit, now);
    }
  }

  lemma NothingRevives(cfg: Settings, log: seq<Record>, t: int, now: int)
    requires t <= now
    ensures !Revived(cfg, log, t, now)
  {
  }

  /** With a clock that never goes back, each list is the reverse of the last `limit` unexpired records ever accepted. */
  lemma PruningUnobservable(cfg: Settings, first: Disk, history: seq<Call>, now: int)
    requires NoLaterThan(history, now)
    ensures SameLists(cfg, first, history, now)
  {
    hide PrunesAt, Revived, FullLog, SameLists;
    PruningUnobservableIff(cfg, first, history, now);
    forall j | 0 <= j < |history|
      ensures !LosesAt(cfg, first, history, j, now)
    {
      NothingRevives(cfg, FullLog(first, history[..j]), history[j].now, now);
    }
  }

  /**
   A clock that goes back makes pruning visible: whenever a call that prunes is later
   than `now` by enough to expire an accepted record that is unexpired at `now`.
   */
  lemma ClockRegressionVisible(cfg: Settings, first: Disk, history: seq<Call>, j: nat, r: Record, now: int)
    requires j < |history| && PrunesAt(cfg, first, history, j)
    requires r in FullLog(first, history[..j])
    requires now - cfg.retention <= r.occurredAt < history[j].now - cfg.retention
    ensures !SameLists(cfg, first, history, now)
  {
    PruningUnobservableIff(cfg, first, history, now);
    hide SameLists, PrunesAt, FullLog;
    assert Revived(cfg, FullLog(first, history[..j]), history[j].now, now);
    assert LosesAt(cfg, first, history, j, now);
  }
}
