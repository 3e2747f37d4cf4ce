/**
 The failed-event log (internal/failstore/file_store.go).  A file is the sequence
 of its decoded records; the hash of the body is not modelled.
 */
module FailStore {
  import opened Wrappers
  import opened Sequences
  import opened Text

  datatype FailedEvent = FailedEvent(eventID: string, source: string, reason: string, failedAt: int,
                                     retryCount: int, headers: map<string, string>, body: seq<bv8>)

  /** `validJSON` is the verdict of the JSON parser on the body. */
  datatype SaveInput = SaveInput(eventID: string, source: string, reason: string,
                                 headers: map<string, string>, body: seq<bv8>, validJSON: bool)

  datatype Error = InvalidInput | EmptyID | InvalidLimit | NotFound

  type Log = seq<FailedEvent>

  // ------------------------------------------------------------------
  // The operations on the log

  predicate Acceptable(input: SaveInput) {
    !Blank(input.source) && !Blank(input.reason) && input.body != [] && input.validJSON
  }

  function NewRecord(input: SaveInput, freshID: string, now: int): FailedEvent {
    var id := TrimSpace(input.eventID);
    FailedEvent(if id == "" then freshID else id, input.source, input.reason, now, 0, input.headers, input.body)
  }

  function IDs(log: Log): (ids: seq<string>)
    ensures |ids| == |log|
    ensures forall i | 0 <= i < |log| :: ids[i] == log[i].eventID
  {
    seq(|log|, i requires 0 <= i < |log| => log[i].eventID)
  }

  /** The position of the first record of an id, or the length of the log. */
  function IndexOf(log: Log, id: string): (i: nat)
    ensures i <= |log|
    ensures i < |log| ==> log[i].eventID == id
    ensures forall k | 0 <= k < i :: log[k].eventID != id
  {
    FirstIndex(IDs(log), id)
  }

  function Get(log: Log, id: string): Option<FailedEvent> {
    if IndexOf(log, id) < |log| then Some(log[IndexOf(log, id)]) else None
  }

  function Deleted(log: Log, id: string): Log {
    Filter((e: FailedEvent) => e.eventID != id, log)
  }

  function Updated(log: Log, id: string, retryCount: int): Log {
    var i := IndexOf(log, id);
    if i < |log| then log[i := log[i].(retryCount := retryCount)] else log
  }

  /** Everything the log holds under one id, in order. */
  function RecordsOf(log: Log, id: string): Log {
    Filter((e: FailedEvent) => e.eventID == id, log)
  }

  /** Deletion removes nothing exactly when the id is absent. */
  lemma DeletedSameIff(log: Log, id: string)
    ensures |Deleted(log, id)| == |log| <==> Get(log, id).None?
    ensures |Deleted(log, id)| == |log| ==> Deleted(log, id) == log
  {
    hide Filter;
    FilterAll((e: FailedEvent) => e.eventID != id, log);
    assert forall k | 0 <= k < |log| :: log[k] in log;
  }

  /** The distinct ids of the log, by first occurrence. */
  function FirstIDs(log: Log): (ids: seq<string>)
    ensures |ids| <= |log|
  {
    if log == [] then []
    else
      var ids, id := FirstIDs(log[..|log| - 1]), log[|log| - 1].eventID;
      if id in ids then ids else ids + [id]
  }

  /** The newest record of an id. */
  function Newest(log: Log, id: string): Option<FailedEvent> {
    if log == [] then None
    else if log[|log| - 1].eventID == id then Some(log[|log| - 1])
    else Newest(log[..|log| - 1], id)
  }

  lemma {:induction false} FirstIDsAreTheIDs(log: Log)
    ensures var ids := FirstIDs(log);
            && (forall i, j | 0 <= i < j < |ids| :: ids[i] != ids[j])
            && (forall e | e in log :: e.eventID in ids)
            && (forall id | id in ids :: Newest(log, id).Some? && Newest(log, id).value in log
                                         && Newest(log, id).value.eventID == id)
  {
    if log != [] {
      FirstIDsAreTheIDs(log[..|log| - 1]);
      assert log == log[..|log| - 1] + [log[|log| - 1]];
    }
  }

  /** One record per id: the newest one, in the place of the first. */
  function Deduplicated(log: Log): (r: Log)
    ensures |r| == |FirstIDs(log)|
    ensures forall i | 0 <= i < |r| :: Newest(log, FirstIDs(log)[i]) == Some(r[i])
  {
    FirstIDsAreTheIDs(log);
    var ids := FirstIDs(log);
    seq(|ids|, i requires 0 <= i < |ids| => Newest(log, ids[i]).value)
  }

  function Listed(log: Log, limit: nat): Log {
    Reversed(Deduplicated(Suffix(log, limit)))
  }

  // ------------------------------------------------------------------
  // The store

  class FileStore {
    var log: Log

    constructor (log: Log)
      ensures this.log == log
    {
      this.log := log;
    }

    /** `freshID` is the id to use when the input carries none, `now` the clock. */
    method Save(input: SaveInput, freshID: string, now: int) returns (r: Result<FailedEvent, Error>)
      modifies this
      ensures r == if Acceptable(input) then Success(NewRecord(input, freshID, now)) else Failure(InvalidInput)
      ensures r.Success? <==> !Blank(input.source) && !Blank(input.reason) && input.body != [] && input.validJSON
      ensures r.Success? ==>
                r.value == FailedEvent(if TrimSpace(input.eventID) == "" then freshID else TrimSpace(input.eventID),
                                       input.source, input.reason, now, 0, input.headers, input.body)
      ensures log == if Acceptable(input) then old(log) + [NewRecord(input, freshID, now)] else old(log)
    {
      if !Acceptable(input) {
        return Failure(InvalidInput);
      }
      var record := NewRecord(input, freshID, now);
      log := log + [record];
      return Success(record);
    }

    method GetByID(eventID: string) returns (r: Result<FailedEvent, Error>)
      ensures var id := TrimSpace(eventID);
              r == if id == "" then Failure(EmptyID)
                   else if Get(log, id).Some? then Success(Get(log, id).value) else Failure(NotFound)
    {
      hide TrimSpace;
      var id := TrimSpace(eventID);
      if id == "" {
        return Failure(EmptyID);
      }
      for i := 0 to |log|
        invariant forall k | 0 <= k < i :: log[k].eventID != id
      {
        if log[i].eventID == id {
          return Success(log[i]);
        }
      }
      return Failure(NotFound);
    }

    method ListRecent(limit: int) returns (r: Result<Log, Error>)
      ensures r == if limit <= 0 then Failure(InvalidLimit) else Success(Listed(log, limit))
    {
      hide Suffix, Deduplicated;
      if limit <= 0 {
        return Failure(InvalidLimit);
      }
      NoRecords(limit);
      assert log[..0] == [];
      var window := new SlidingWindow<FailedEvent>(limit);
      for i := 0 to |log|
        invariant window.Valid() && fresh(window) && fresh(window.buffer) && window.buffer.Length == limit
        invariant window.Contents() == Suffix(log[..i], limit)
      {
        SuffixPush(log[..i], log[i], limit);
        assert log[..i] + [log[i]] == log[..i + 1];
        window.Push(log[i]);
      }
      assert log[..|log|] == log;
      var events := DeduplicateEvents(window.buffer[..window.len]);
      var slice := new FailedEvent[|events|](i requires 0 <= i < |events| => events[i]);
      assert slice[..|events|] == events;
      ReverseInPlace(slice, |events|);
      return Success(slice[..|events|]);
    }

    method Delete(eventID: string) returns (r: Result<(), Error>)
      modifies this
      ensures var id := TrimSpace(eventID);
              && (id == "" ==> r == Failure(EmptyID) && log == old(log))
              && (id != "" ==> log == Deleted(old(log), id))
              && (id != "" ==> r == if Get(old(log), id).Some? then Success(()) else Failure(NotFound))
    {
      hide TrimSpace, Get, IndexOf, Filter;
      var id := TrimSpace(eventID);
      if id == "" {
        return Failure(EmptyID);
      }
      var events := new FailedEvent[|log|](i requires 0 <= i < |log| reads this => log[i]);
      assert events[..] == log;
      var n := FilterInPlace(events, (e: FailedEvent) => e.eventID != id);
      DeletedSameIff(log, id);
      if n == events.Length {
        return Failure(NotFound);
      }
      log := events[..n];
      return Success(());
    }

    method UpdateRetryCount(eventID: string, retryCount: int) returns (r: Result<(), Error>)
      modifies this
      ensures var id := TrimSpace(eventID);
              && (id == "" ==> r == Failure(EmptyID) && log == old(log))
              && (id != "" ==> log == Updated(old(log), id, retryCount))
              && (id != "" ==> r == if Get(old(log), id).Some? then Success(()) else Failure(NotFound))
    {
      hide TrimSpace;
      var id := TrimSpace(eventID);
      if id == "" {
        return Failure(EmptyID);
      }
      for i := 0 to |log|
        invariant log == old(log)
        invariant forall k | 0 <= k < i :: log[k].eventID != id
      {
        if log[i].eventID == id {
          log := log[i := log[i].(retryCount := retryCount)];
          return Success(());
        }
      }
      return Failure(NotFound);
    }
  }

  lemma NoRecords(limit: nat)
    ensures Suffix<FailedEvent>([], limit) == []
  {
  }

  /** One more record overwrites the place of its id, or opens one at the end. */
  lemma DeduplicatedOneMore(log: Log, e: FailedEvent)
    ensures FirstIDs(log + [e]) == if e.eventID in FirstIDs(log) then FirstIDs(log) else FirstIDs(log) + [e.eventID]
    ensures forall k | 0 <= k < |FirstIDs(log)| && FirstIDs(log)[k] == e.eventID ::
              Deduplicated(log + [e]) == Deduplicated(log)[k := e]
    ensures e.eventID !in FirstIDs(log) ==> Deduplicated(log + [e]) == Deduplicated(log) + [e]
  {
    var more, ids := log + [e], FirstIDs(log);
    assert more[..|log|] == log;
    FirstIDsAreTheIDs(log);
    var before, after := Deduplicated(log), Deduplicated(more);
    forall k | 0 <= k < |ids|
      ensures after[k] == if ids[k] == e.eventID then e else before[k]
    {
      assert Newest(log, ids[k]) == Some(before[k]) && Newest(more, FirstIDs(more)[k]) == Some(after[k]);
    }
    if e.eventID !in ids {
      assert Newest(more, FirstIDs(more)[|ids|]) == Some(after[|ids|]);
    }
  }

  /** Later records replace earlier ones in place, found through an index by id. */
  method DeduplicateEvents(events: Log) returns (result: Log)
    ensures result == Deduplicated(events)
  {
    hide Deduplicated, FirstIDs, Newest;
    var seen: map<string, nat> := map[];
    result := [];
    for i := 0 to |events|
      invariant result == Deduplicated(events[..i])
      invariant forall id | id in seen :: seen[id] < |result| && FirstIDs(events[..i])[seen[id]] == id
      invariant forall id | id in FirstIDs(events[..i]) :: id in seen
    {
      assert events[..i + 1] == events[..i] + [events[i]];
      DeduplicatedOneMore(events[..i], events[i]);
      var e := events[i];
      if e.eventID in seen {
        result := result[seen[e.eventID] := e];
      } else {
        seen := seen[e.eventID := |result|];
        result := result + [e];
      }
    }
    assert events[..|events|] == events;
  }

  // ------------------------------------------------------------------
  // What ListRecent shows

  lemma {:induction false} NewestOfSuffix(log: Log, n: nat, id: string)
    ensures Newest(Suffix(log, n), id).Some? ==> Newest(log, id) == Newest(Suffix(log, n), id)
  {
    if n > 0 && log != [] {
      hide Suffix;
      SuffixInit(log, n);
      NewestOfSuffix(log[..|log| - 1], n - 1, id);
    }
  }

  lemma IndexOfOneMore(log: Log, e: FailedEvent, id: string)
    ensures IndexOf(log + [e], id) ==
            if IndexOf(log, id) < |log| then IndexOf(log, id) else if id == e.eventID then |log| else |log| + 1
  {
    var more, i, j := log + [e], IndexOf(log + [e], id), IndexOf(log, id);
    assert forall k | 0 <= k < |log| :: more[k] == log[k];
    assert more[|log|] == e;
  }

  lemma KnownIDs(log: Log, id: string)
    ensures id in FirstIDs(log) <==> IndexOf(log, id) < |log|
  {
    hide FirstIDs, Newest;
    FirstIDsAreTheIDs(log);
    if id in FirstIDs(log) {
      var k :| 0 <= k < |log| && log[k] == Newest(log, id).value;
    } else {
      assert forall k | 0 <= k < |log| :: log[k] in log;
    }
  }

  lemma {:induction false} FirstIDsInOrder(log: Log, i: nat, j: nat)
    requires i < j < |FirstIDs(log)|
    ensures IndexOf(log, FirstIDs(log)[i]) < IndexOf(log, FirstIDs(log)[j]) < |log|
  {
    hide IndexOf;
    var init, last := log[..|log| - 1], log[|log| - 1];
    assert log == init + [last];
    var ids := FirstIDs(init);
    IndexOfOneMore(init, last, FirstIDs(log)[i]);
    IndexOfOneMore(init, last, FirstIDs(log)[j]);
    if j < |ids| {
      FirstIDsInOrder(init, i, j);
    } else {
      KnownIDs(init, ids[i]);
      KnownIDs(init, last.eventID);
    }
  }

  /** What deduplication keeps: each id once, with its newest record, by first occurrence. */
  lemma DeduplicatedContents(log: Log)
    ensures var out := Deduplicated(log);
            && (forall i | 0 <= i < |out| :: out[i].eventID == FirstIDs(log)[i])
            && (forall i | 0 <= i < |out| :: out[i] in log && Newest(log, out[i].eventID) == Some(out[i]))
            && (forall i, j | 0 <= i < j < |out| :: out[i].eventID != out[j].eventID)
  {
    var out, ids := Deduplicated(log), FirstIDs(log);
    FirstIDsAreTheIDs(log);
    forall i | 0 <= i < |out|
      ensures out[i].eventID == ids[i] && out[i] in log && Newest(log, out[i].eventID) == Some(out[i])
    {
      assert Newest(log, ids[i]) == Some(out[i]) && ids[i] in ids;
    }
  }

  lemma DeduplicatedCovers(log: Log, e: FailedEvent)
    requires e in log
    ensures exists i :: 0 <= i < |Deduplicated(log)| && Deduplicated(log)[i].eventID == e.eventID
  {
    hide Deduplicated, Newest, FirstIDs;
    FirstIDsAreTheIDs(log);
    DeduplicatedContents(log);
    var i :| 0 <= i < |FirstIDs(log)| && FirstIDs(log)[i] == e.eventID;
    assert Deduplicated(log)[i].eventID == e.eventID;
  }

  lemma DeduplicatedInOrder(log: Log, i: nat, j: nat)
    requires i < j < |Deduplicated(log)|
    ensures IndexOf(log, Deduplicated(log)[i].eventID) < IndexOf(log, Deduplicated(log)[j].eventID) < |log|
  {
    hide Deduplicated, Newest, FirstIDs, IndexOf;
    DeduplicatedContents(log);
    FirstIDsInOrder(log, i, j);
  }

  /** A listing is the deduplicated recent records, read backwards. */
  lemma ListedAt(log: Log, limit: nat, i: nat)
    requires i < |Listed(log, limit)|
    ensures var kept, n := Deduplicated(Suffix(log, limit)), |Listed(log, limit)|;
            |kept| == n && Listed(log, limit)[i] == kept[n - 1 - i]
  {
    hide Deduplicated, Suffix;
  }

  lemma ListedIsNewest(log: Log, limit: nat, i: nat)
    requires i < |Listed(log, limit)|
    ensures var e := Listed(log, limit)[i]; e in Suffix(log, limit) && Newest(log, e.eventID) == Some(e)
  {
    hide Listed, Deduplicated, Newest, FirstIDs, Suffix;
    ListedAt(log, limit, i);
    DeduplicatedContents(Suffix(log, limit));
    NewestOfSuffix(log, limit, Listed(log, limit)[i].eventID);
  }

  ghost predicate Shows(listing: Log, id: string) {
    exists i | 0 <= i < |listing| :: listing[i].eventID == id
  }

  lemma ListedCovers(log: Log, limit: nat, e: FailedEvent)
    requires e in Suffix(log, limit)
    ensures Shows(Listed(log, limit), e.eventID)
  {
    hide Deduplicated, Suffix;
    var recent := Suffix(log, limit);
    DeduplicatedCovers(recent, e);
    var kept, n := Deduplicated(recent), |Listed(log, limit)|;
    var k :| 0 <= k < n && kept[k].eventID == e.eventID;
    ListedAt(log, limit, n - 1 - k);
    assert Listed(log, limit)[n - 1 - k].eventID == e.eventID;
  }

  /** Record `j` of the listing belongs to an id that was first recorded earlier. */
  predicate Later(listing: Log, recent: Log, i: nat, j: nat)
    requires i < |listing| && j < |listing|
  {
    IndexOf(recent, listing[j].eventID) < IndexOf(recent, listing[i].eventID) < |recent|
  }

  lemma ListedInOrder(log: Log, limit: nat, i: nat, j: nat)
    requires i < j < |Listed(log, limit)|
    ensures Later(Listed(log, limit), Suffix(log, limit), i, j)
  {
    hide Listed, Deduplicated, Suffix, IndexOf;
    ListedAt(log, limit, i);
    ListedAt(log, limit, j);
    var n := |Listed(log, limit)|;
    DeduplicatedInOrder(Suffix(log, limit), n - 1 - j, n - 1 - i);
  }

  ghost predicate UniqueIDs(log: Log) {
    forall i, j | 0 <= i < j < |log| :: log[i].eventID != log[j].eventID
  }

  /** The ids are listed by their first occurrence among the recent records, latest first. */
  ghost predicate LatestFirst(listing: Log, recent: Log) {
    forall i, j | 0 <= i < j < |listing| :: Later(listing, recent, i, j)
  }

  lemma ListedLatestFirst(log: Log, limit: nat)
    ensures LatestFirst(Listed(log, limit), Suffix(log, limit))
  {
    hide Listed, Suffix, Later;
    forall i, j | 0 <= i < j < |Listed(log, limit)|
      ensures Later(Listed(log, limit), Suffix(log, limit), i, j)
    {
      ListedInOrder(log, limit, i, j);
    }
  }

  lemma LatestFirstIsDistinct(listing: Log, recent: Log)
    requires LatestFirst(listing, recent)
    ensures UniqueIDs(listing)
  {
    hide IndexOf;
    forall i, j | 0 <= i < j < |listing|
      ensures listing[i].eventID != listing[j].eventID
    {
      assert Later(listing, recent, i, j);
    }
  }

  /**
   A listing has distinct ids; it shows exactly the ids of the last `limit` records,
   each with its newest record of the whole log, latest first occurrence first.
   */
  lemma ListingIsNewestPerID(log: Log, limit: nat)
    ensures var out, recent := Listed(log, limit), Suffix(log, limit);
            && UniqueIDs(out)
            && (forall e | e in recent :: Shows(out, e.eventID))
            && (forall i | 0 <= i < |out| :: out[i] in recent && Newest(log, out[i].eventID) == Some(out[i]))
            && LatestFirst(out, recent)
  {
    hide Listed, Newest, Suffix, UniqueIDs, Shows, LatestFirst;
    forall i | 0 <= i < |Listed(log, limit)|
      ensures var e := Listed(log, limit)[i]; e in Suffix(log, limit) && Newest(log, e.eventID) == Some(e)
    {
      ListedIsNewest(log, limit, i);
    }
    forall e | e in Suffix(log, limit)
      ensures Shows(Listed(log, limit), e.eventID)
    {
      ListedCovers(log, limit, e);
    }
    ListedLatestFirst(log, limit);
    LatestFirstIsDistinct(Listed(log, limit), Suffix(log, limit));
  }

  // ------------------------------------------------------------------
  // Refinement: with unique ids the log is an insertion-ordered map

  datatype OrderedMap = OrderedMap(order: seq<string>, entries: map<string, FailedEvent>)

  ghost function Abstract(log: Log): OrderedMap {
    OrderedMap(IDs(log), map id | id in IDs(log) && Get(log, id).Some? :: Get(log, id).value)
  }

  function Lookup(m: OrderedMap, id: string): Option<FailedEvent> {
    if id in m.entries then Some(m.entries[id]) else None
  }

  function Insert(m: OrderedMap, e: FailedEvent): OrderedMap {
    OrderedMap(m.order + [e.eventID], m.entries[e.eventID := e])
  }

  function Remove(m: OrderedMap, id: string): OrderedMap {
    OrderedMap(Filter(x => x != id, m.order), m.entries - {id})
  }

  function SetCount(m: OrderedMap, id: string, retryCount: int): OrderedMap {
    if id !in m.entries then m
    else m.(entries := m.entries[id := m.entries[id].(retryCount := retryCount)])
  }

  /** GetByID reads the map. */
  lemma GetRefinesLookup(log: Log, id: string)
    ensures Lookup(Abstract(log), id) == Get(log, id)
    ensures Get(log, id).Some? <==> id in IDs(log)
  {
    if id in IDs(log) {
      var k :| 0 <= k < |log| && IDs(log)[k] == id;
    }
    if Get(log, id).Some? {
      assert IDs(log)[IndexOf(log, id)] == id;
    }
  }

  /** A map with the right order and lookups is the abstraction. */
  lemma AbstractIs(log: Log, m: OrderedMap)
    requires m.order == IDs(log)
    requires forall id :: Lookup(m, id) == Get(log, id)
    ensures Abstract(log) == m
  {
    var a := Abstract(log);
    forall id
      ensures Lookup(a, id) == Lookup(m, id)
    {
      GetRefinesLookup(log, id);
    }
    forall id
      ensures id in a.entries <==> id in m.entries
      ensures id in a.entries && id in m.entries ==> a.entries[id] == m.entries[id]
    {
      assert Lookup(a, id) == Lookup(m, id);
    }
    assert a.entries == m.entries;
  }

  /** The abstraction loses nothing: the log is the entries in order. */
  lemma AbstractionIsExact(log: Log)
    requires UniqueIDs(log)
    ensures var m := Abstract(log);
            && m.order == IDs(log)
            && (forall id :: id in m.entries <==> id in m.order)
            && (forall i | 0 <= i < |log| :: Lookup(m, m.order[i]) == Some(log[i]))
  {
    hide Get;
    forall id
      ensures id in Abstract(log).entries <==> id in IDs(log)
    {
      GetRefinesLookup(log, id);
    }
    forall i | 0 <= i < |log|
      ensures Lookup(Abstract(log), IDs(log)[i]) == Some(log[i])
    {
      GetRefinesLookup(log, log[i].eventID);
      UniqueGet(log, log[i]);
    }
  }

  lemma UniqueGet(log: Log, e: FailedEvent)
    requires UniqueIDs(log) && e in log
    ensures Get(log, e.eventID) == Some(e)
  {
    var k :| 0 <= k < |log| && log[k] == e;
    assert IndexOf(log, e.eventID) == k;
  }

  lemma GetAfterAppend(log: Log, e: FailedEvent, id: string)
    ensures Get(log + [e], id) ==
            if Get(log, id).Some? then Get(log, id) else if id == e.eventID then Some(e) else None
  {
    IndexOfOneMore(log, e, id);
  }

  /** Saving keeps ids unique exactly when the id is new, and is then an insertion at the end. */
  lemma SaveRefinesInsert(log: Log, e: FailedEvent)
    requires UniqueIDs(log)
    ensures UniqueIDs(log + [e]) <==> Lookup(Abstract(log), e.eventID).None?
    ensures UniqueIDs(log + [e]) ==> Abstract(log + [e]) == Insert(Abstract(log), e)
  {
    var more := log + [e];
    GetRefinesLookup(log, e.eventID);
    if e.eventID in IDs(log) {
      var k :| 0 <= k < |log| && IDs(log)[k] == e.eventID;
      assert more[k].eventID == more[|log|].eventID;
    } else {
      assert forall i | 0 <= i < |log| :: IDs(log)[i] in IDs(log);
      assert IDs(more) == IDs(log) + [e.eventID];
      forall id
        ensures Lookup(Insert(Abstract(log), e), id) == Get(more, id)
      {
        GetRefinesLookup(log, id);
        GetAfterAppend(log, e, id);
      }
      AbstractIs(more, Insert(Abstract(log), e));
    }
  }

  lemma {:induction false} DeletedIDs(log: Log, id: string)
    ensures IDs(Deleted(log, id)) == Filter(y => y != id, IDs(log))
  {
    if log != [] {
      DeletedIDs(log[..|log| - 1], id);
      assert IDs(log)[..|log| - 1] == IDs(log[..|log| - 1]);
    }
  }

  lemma {:induction false} DeletedGet(log: Log, id: string, x: string)
    ensures Get(Deleted(log, id), x) == if x == id then None else Get(log, x)
  {
    if log != [] {
      hide Get, IndexOf;
      var init, last := log[..|log| - 1], log[|log| - 1];
      DeletedGet(init, id, x);
      assert log == init + [last];
      GetAfterAppend(init, last, x);
      GetAfterAppend(Deleted(init, id), last, x);
      assert Deleted(log, id) == Deleted(init, id) + if last.eventID != id then [last] else [];
      assert last.eventID == id ==> Deleted(log, id) == Deleted(init, id);
    }
  }

  lemma {:induction false} DeletedUnique(log: Log, id: string)
    requires UniqueIDs(log)
    ensures UniqueIDs(Deleted(log, id))
  {
    if log != [] {
      var init, last := log[..|log| - 1], log[|log| - 1];
      DeletedUnique(init, id);
      var less := Deleted(init, id);
      forall k | 0 <= k < |less|
        ensures less[k].eventID != last.eventID
      {
        FilterMembers((e: FailedEvent) => e.eventID != id, init);
        assert less[k] in less;
        var m :| 0 <= m < |init| && init[m] == less[k];
      }
    }
  }

  lemma LookupAfterRemove(m: OrderedMap, id: string, x: string)
    ensures Lookup(Remove(m, id), x) == if x == id then None else Lookup(m, x)
  {
  }

  lemma DeleteRefinesRemove(log: Log, id: string)
    requires UniqueIDs(log)
    ensures UniqueIDs(Deleted(log, id))
    ensures Abstract(Deleted(log, id)) == Remove(Abstract(log), id)
  {
    hide Deleted, Get, UniqueIDs, Lookup;
    forall x
      ensures Lookup(Remove(Abstract(log), id), x) == Get(Deleted(log, id), x)
    {
      DeletedGet(log, id, x);
      GetRefinesLookup(log, x);
      LookupAfterRemove(Abstract(log), id, x);
    }
    DeletedIDs(log, id);
    DeletedUnique(log, id);
    AbstractIs(Deleted(log, id), Remove(Abstract(log), id));
  }

  lemma AfterUpdate(log: Log, id: string, retryCount: int, x: string)
    ensures IDs(Updated(log, id, retryCount)) == IDs(log)
    ensures Get(Updated(log, id, retryCount), x) ==
            if x == id && Get(log, x).Some? then Some(Get(log, x).value.(retryCount := retryCount)) else Get(log, x)
    ensures UniqueIDs(log) ==> UniqueIDs(Updated(log, id, retryCount))
  {
    var after := Updated(log, id, retryCount);
    assert |after| == |log| && forall i | 0 <= i < |log| :: after[i].eventID == log[i].eventID;
    var i, j := IndexOf(log, x), IndexOf(after, x);
    assert i == j;
  }

  lemma UpdateRefinesSetCount(log: Log, id: string, retryCount: int)
    requires UniqueIDs(log)
    ensures UniqueIDs(Updated(log, id, retryCount))
    ensures Abstract(Updated(log, id, retryCount)) == SetCount(Abstract(log), id, retryCount)
  {
    forall x
      ensures Lookup(SetCount(Abstract(log), id, retryCount), x) == Get(Updated(log, id, retryCount), x)
    {
      AfterUpdate(log, id, retryCount, x);
      GetRefinesLookup(log, x);
      GetRefinesLookup(log, id);
    }
    AfterUpdate(log, id, retryCount, id);
    AbstractIs(Updated(log, id, retryCount), SetCount(Abstract(log), id, retryCount));
  }

  // ------------------------------------------------------------------
  // The same operations, seen from one id whose records may repeat

  lemma RecordsAfterAppend(log: Log, e: FailedEvent, id: string)
    ensures RecordsOf(log + [e], id) == RecordsOf(log, id) + if e.eventID == id then [e] else []
  {
    assert (log + [e])[..|log|] == log;
  }

  lemma RecordsAreOfID(log: Log, id: string)
    ensures forall e | e in RecordsOf(log, id) :: e in log && e.eventID == id
    ensures |RecordsOf(log, id)| <= |log|
  {
    FilterMembers((e: FailedEvent) => e.eventID == id, log);
  }

  /** The first of the records is the one that GetByID finds, the last the one that ListRecent shows. */
  lemma {:induction false} EndsOfRecords(log: Log, id: string)
    ensures var rs := RecordsOf(log, id);
            && Get(log, id) == (if rs == [] then None else Some(rs[0]))
            && Newest(log, id) == (if rs == [] then None else Some(rs[|rs| - 1]))
  {
    if log != [] {
      hide Get, IndexOf;
      var init, last := log[..|log| - 1], log[|log| - 1];
      assert log == init + [last];
      EndsOfRecords(init, id);
      GetAfterAppend(init, last, id);
    } else {
      assert IDs(log) == [];
    }
  }

  lemma {:induction false} RecordsAfterDelete(log: Log, id: string, x: string)
    ensures RecordsOf(Deleted(log, id), x) == if x == id then [] else RecordsOf(log, x)
  {
    if log != [] {
      var init, last := log[..|log| - 1], log[|log| - 1];
      RecordsAfterDelete(init, id, x);
      var less := Deleted(init, id);
      RecordsAfterAppend(less, last, x);
      assert Deleted(log, id) == if last.eventID != id then less + [last] else less;
    }
  }

  lemma UpdatedOneMore(log: Log, e: FailedEvent, id: string, retryCount: int)
    ensures Updated(log + [e], id, retryCount) ==
            if Get(log, id).Some? then Updated(log, id, retryCount) + [e]
            else if e.eventID == id then log + [e.(retryCount := retryCount)]
            else log + [e]
  {
    IndexOfOneMore(log, e, id);
  }

  /** Updating reaches the first record of the id alone. */
  function FirstUpdated(rs: Log, retryCount: int): Log {
    if rs == [] then [] else rs[0 := rs[0].(retryCount := retryCount)]
  }

  lemma FirstUpdatedOneMore(rs: Log, e: FailedEvent, retryCount: int)
    ensures FirstUpdated(rs + [e], retryCount) ==
            if rs == [] then [e.(retryCount := retryCount)] else FirstUpdated(rs, retryCount) + [e]
  {
  }

  lemma UpdatedRecordsOneMore(log: Log, e: FailedEvent, id: string, retryCount: int)
    ensures var rs := RecordsOf(log, id);
            RecordsOf(Updated(log + [e], id, retryCount), id) ==
            if e.eventID != id then RecordsOf(Updated(log, id, retryCount), id)
            else if rs == [] then [e.(retryCount := retryCount)]
            else RecordsOf(Updated(log, id, retryCount), id) + [e]
  {
    hide Updated, RecordsOf, Get;
    EndsOfRecords(log, id);
    UpdatedOneMore(log, e, id, retryCount);
    UpdatedNothing(log, id, retryCount);
    RecordsAfterAppend(log, e, id);
    RecordsAfterAppend(Updated(log, id, retryCount), e, id);
    RecordsAfterAppend(log, e.(retryCount := retryCount), id);
    assert RecordsOf(log, id) + [] == RecordsOf(log, id);
  }

  lemma UpdatedNothing(log: Log, id: string, retryCount: int)
    ensures Get(log, id).None? ==> Updated(log, id, retryCount) == log
  {
  }

  lemma {:induction false} OwnRecordsAfterUpdate(log: Log, id: string, retryCount: int)
    ensures RecordsOf(Updated(log, id, retryCount), id) == FirstUpdated(RecordsOf(log, id), retryCount)
  {
    if log != [] {
      var init, last := log[..|log| - 1], log[|log| - 1];
      assert log == init + [last];
      OwnRecordsAfterUpdate(init, id, retryCount);
      hide Updated, RecordsOf;
      UpdatedRecordsOneMore(init, last, id, retryCount);
      RecordsAfterAppend(init, last, id);
      FirstUpdatedOneMore(RecordsOf(init, id), last, retryCount);
    } else {
      assert IDs(log) == [];
    }
  }

  lemma {:induction false} OtherRecordsAfterUpdate(log: Log, id: string, retryCount: int, x: string)
    requires x != id
    ensures RecordsOf(Updated(log, id, retryCount), x) == RecordsOf(log, x)
  {
    if log != [] {
      var init, last := log[..|log| - 1], log[|log| - 1];
      assert log == init + [last];
      OtherRecordsAfterUpdate(init, id, retryCount, x);
      hide Updated, RecordsOf, Get;
      UpdatedOneMore(init, last, id, retryCount);
      RecordsAfterAppend(init, last, x);
      RecordsAfterAppend(Updated(init, id, retryCount), last, x);
      RecordsAfterAppend(init, last.(retryCount := retryCount), x);
    } else {
      assert IDs(log) == [];
    }
  }

  /** With unique ids a listing is simply the last records, newest first. */
  lemma {:induction false} UniqueListing(log: Log)
    requires UniqueIDs(log)
    ensures FirstIDs(log) == IDs(log)
    ensures Deduplicated(log) == log
  {
    if log != [] {
      var init, last := log[..|log| - 1], log[|log| - 1];
      UniqueListing(init);
      assert last.eventID !in IDs(init);
      assert forall i | 0 <= i < |init| :: Newest(init, IDs(init)[i]) == Some(init[i]);
      forall i | 0 <= i < |log|
        ensures Newest(log, log[i].eventID) == Some(log[i])
      {
        if i < |init| {
          assert Newest(init, IDs(init)[i]) == Some(init[i]);
        }
      }
    }
  }
}
