/**
 The replay audit trail in a file: filtered, ordered and paged by cursor
 (internal/replayaudit/file_store.go).
 */
module ReplayAudit {
  import opened Wrappers
  import opened Sequences
  import opened Text

  datatype Details = Details(eventID: string, source: string, actor: string, mode: string, result: string,
                             errorCode: string, httpStatus: int, requestID: string)

  datatype Record = Record(auditID: string, details: Details, replayedAt: int)

  datatype Order = Desc | Asc

  datatype Query = Query(limit: int, cursor: string, actor: string, result: string, eventID: string, sort: string)

  datatype Error = InvalidInput | InvalidQuery | CursorNotFound

  datatype Page = Page(records: seq<Record>, hasMore: bool, nextCursor: string)

  // ------------------------------------------------------------------
  // The order

  /** By time, then by audit id. */
  predicate KeyLess(a: Record, b: Record) {
    a.replayedAt < b.replayedAt || (a.replayedAt == b.replayedAt && Less(a.auditID, b.auditID))
  }

  /** `a` is listed before `b`. */
  predicate Precedes(order: Order, a: Record, b: Record) {
    if order.Asc? then KeyLess(a, b) else KeyLess(b, a)
  }

  ghost predicate Sorted(order: Order, s: seq<Record>) {
    forall i, j | 0 <= i < j < |s| :: Precedes(order, s[i], s[j])
  }

  function Insert(order: Order, s: seq<Record>, x: Record): seq<Record> {
    if s == [] || Precedes(order, x, s[0]) then [x] + s else [s[0]] + Insert(order, s[1..], x)
  }

  /** Some sorting of the records; `SortIsDetermined` shows that there is no other. */
  function SortRecords(order: Order, records: seq<Record>): seq<Record> {
    if records == [] then []
    else Insert(order, SortRecords(order, records[..|records| - 1]), records[|records| - 1])
  }

  lemma PrecedesIsTotal(order: Order, a: Record, b: Record)
    ensures a.auditID != b.auditID ==> Precedes(order, a, b) || Precedes(order, b, a)
    ensures !(Precedes(order, a, b) && Precedes(order, b, a))
    ensures a.auditID == b.auditID && a.replayedAt == b.replayedAt ==> !Precedes(order, a, b)
  {
    LessTrichotomy(a.auditID, b.auditID);
  }

  lemma PrecedesIsTransitive(order: Order, a: Record, b: Record, c: Record)
    requires Precedes(order, a, b) && Precedes(order, b, c)
    ensures Precedes(order, a, c)
  {
    if a.replayedAt == b.replayedAt == c.replayedAt {
      if order.Asc? {
        LessTransitive(a.auditID, b.auditID, c.auditID);
      } else {
        LessTransitive(c.auditID, b.auditID, a.auditID);
      }
    }
  }

  ghost predicate UniqueIDs(records: seq<Record>) {
    forall i, j | 0 <= i < j < |records| :: records[i].auditID != records[j].auditID
  }

  lemma {:induction false} InsertAdds(order: Order, s: seq<Record>, x: Record)
    ensures multiset(Insert(order, s, x)) == multiset(s) + multiset{x}
  {
    hide Precedes;
    if s == [] {
    } else if Precedes(order, x, s[0]) {
      assert Insert(order, s, x) == [x] + s;
    } else {
      InsertAdds(order, s[1..], x);
      assert s == [s[0]] + s[1..];
      assert Insert(order, s, x) == [s[0]] + Insert(order, s[1..], x);
    }
  }

  lemma SortedCons(order: Order, x: Record, s: seq<Record>)
    requires Sorted(order, s)
    requires forall y | y in s :: Precedes(order, x, y)
    ensures Sorted(order, [x] + s)
  {
    hide Precedes;
    var r := [x] + s;
    forall i, j | 0 <= i < j < |r|
      ensures Precedes(order, r[i], r[j])
    {
      assert r[j] == s[j - 1] && s[j - 1] in s;
      assert i > 0 ==> r[i] == s[i - 1];
    }
  }

  lemma {:induction false} InsertSorts(order: Order, s: seq<Record>, x: Record)
    requires Sorted(order, s)
    requires forall y | y in s :: y.auditID != x.auditID
    ensures Sorted(order, Insert(order, s, x))
  {
    hide Precedes;
    if s == [] {
    } else if Precedes(order, x, s[0]) {
      forall y | y in s
        ensures Precedes(order, x, y)
      {
        var i :| 0 <= i < |s| && s[i] == y;
        if i > 0 {
          PrecedesIsTransitive(order, x, s[0], s[i]);
        }
      }
      SortedCons(order, x, s);
    } else {
      var rest := Insert(order, s[1..], x);
      InsertSorts(order, s[1..], x);
      InsertAdds(order, s[1..], x);
      PrecedesIsTotal(order, x, s[0]);
      forall y | y in rest
        ensures Precedes(order, s[0], y)
      {
        assert y in multiset(rest);
        if y != x {
          assert y in s[1..];
        }
      }
      SortedCons(order, s[0], rest);
    }
  }

  lemma {:induction false} SortSorts(order: Order, records: seq<Record>)
    requires UniqueIDs(records)
    ensures Sorted(order, SortRecords(order, records))
    ensures multiset(SortRecords(order, records)) == multiset(records)
  {
    if records != [] {
      var init, last := records[..|records| - 1], records[|records| - 1];
      SortSorts(order, init);
      assert records == init + [last];
      var sorted := SortRecords(order, init);
      forall y | y in sorted
        ensures y.auditID != last.auditID
      {
        assert y in multiset(sorted);
        assert y in init;
      }
      InsertSorts(order, sorted, last);
      InsertAdds(order, sorted, last);
    }
  }

  lemma SortedFirst(order: Order, s: seq<Record>, y: Record)
    requires Sorted(order, s) && y in s
    ensures s[0] == y || Precedes(order, s[0], y)
  {
    hide Precedes;
    var i :| 0 <= i < |s| && s[i] == y;
  }

  lemma SameHead(order: Order, s: seq<Record>, t: seq<Record>)
    requires Sorted(order, s) && Sorted(order, t) && multiset(s) == multiset(t) && s != [] && t != []
    ensures s[0] == t[0]
  {
    hide Precedes;
    assert s[0] in multiset(t) && t[0] in multiset(s);
    SortedFirst(order, s, t[0]);
    SortedFirst(order, t, s[0]);
    PrecedesIsTotal(order, s[0], t[0]);
  }

  lemma TailMultiset(s: seq<Record>)
    requires s != []
    ensures multiset(s[1..]) == multiset(s) - multiset{s[0]}
  {
    assert s == [s[0]] + s[1..];
  }

  /** Whatever the algorithm, a sorted arrangement of the same records is the same list. */
  lemma {:induction false} SortIsDetermined(order: Order, s: seq<Record>, t: seq<Record>)
    requires Sorted(order, s) && Sorted(order, t) && multiset(s) == multiset(t)
    ensures s == t
  {
    hide Precedes;
    assert |multiset(s)| == |s| && |multiset(t)| == |t|;
    if s != [] {
      SameHead(order, s, t);
      TailMultiset(s);
      TailMultiset(t);
      SortIsDetermined(order, s[1..], t[1..]);
      assert s == [s[0]] + s[1..] && t == [t[0]] + t[1..];
    }
  }

  // ------------------------------------------------------------------
  // The file store

  function ParseSortOrder(raw: string): Option<Order> {
    var normalized := ToLower(TrimSpace(raw));
    if normalized == "" || normalized == "desc" then Some(Desc)
    else if normalized == "asc" then Some(Asc)
    else None
  }

  function NormalizeListQuery(q: Query): Option<(Query, Order)> {
    if q.limit <= 0 || ParseSortOrder(q.sort).None? then None
    else Some((q.(cursor := TrimSpace(q.cursor), actor := TrimSpace(q.actor), result := TrimSpace(q.result),
                  eventID := TrimSpace(q.eventID)), ParseSortOrder(q.sort).value))
  }

  predicate EqualFold(a: string, b: string) {
    ToLower(a) == ToLower(b)
  }

  predicate Matches(r: Record, q: Query) {
    && (q.actor != "" ==> EqualFold(TrimSpace(r.details.actor), q.actor))
    && (q.result != "" ==> EqualFold(TrimSpace(r.details.result), q.result))
    && (q.eventID != "" ==> EqualFold(TrimSpace(r.details.eventID), q.eventID))
  }

  function Matching(q: Query): Record -> bool {
    r => Matches(r, q)
  }

  /** The records that satisfy `p`, in order. */
  function Chosen(order: Order, p: Record -> bool, log: seq<Record>): seq<Record> {
    SortRecords(order, Filter(p, log))
  }

  /** The records a query is about, in its order. */
  function Selected(log: seq<Record>, q: Query, order: Order): seq<Record> {
    Chosen(order, Matching(q), log)
  }

  function AuditIDs(records: seq<Record>): (ids: seq<string>)
    ensures |ids| == |records|
    ensures forall i | 0 <= i < |records| :: ids[i] == records[i].auditID
  {
    seq(|records|, i requires 0 <= i < |records| => records[i].auditID)
  }

  /** The position of an audit id, or the number of records. */
  function PositionOf(records: seq<Record>, id: string): (i: nat)
    ensures i <= |records|
    ensures i < |records| ==> records[i].auditID == id
    ensures forall k | 0 <= k < i :: records[k].auditID != id
  {
    FirstIndex(AuditIDs(records), id)
  }

  function PageFrom(records: seq<Record>, start: nat, limit: nat): Page {
    if start >= |records| then Page([], false, "")
    else
      var end := if start + limit > |records| then |records| else start + limit;
      var more := end < |records| && end > start;
      Page(records[start..end], end < |records|, if more then records[end - 1].auditID else "")
  }

  function PageAfter(records: seq<Record>, cursor: string, limit: nat): Result<Page, Error> {
    if cursor == "" then Success(PageFrom(records, 0, limit))
    else if PositionOf(records, cursor) == |records| then Failure(CursorNotFound)
    else Success(PageFrom(records, PositionOf(records, cursor) + 1, limit))
  }

  /** The answer of List. */
  function Listing(file: Option<seq<Record>>, query: Query): Result<Page, Error> {
    var normal := NormalizeListQuery(query);
    if normal.None? then Failure(InvalidQuery)
    else if file.None? then Success(Page([], false, ""))
    else var (q, order) := normal.value; PageAfter(Selected(file.value, q, order), q.cursor, q.limit)
  }

  predicate Acceptable(d: Details) {
    !Blank(d.eventID) && !Blank(d.actor) && !Blank(d.mode) && !Blank(d.result)
  }

  function Trimmed(d: Details): Details {
    Details(TrimSpace(d.eventID), TrimSpace(d.source), TrimSpace(d.actor), TrimSpace(d.mode), TrimSpace(d.result),
            TrimSpace(d.errorCode), d.httpStatus, TrimSpace(d.requestID))
  }

  class FileStore {
    var file: Option<seq<Record>>

    constructor (file: Option<seq<Record>>)
      ensures this.file == file
    {
      this.file := file;
    }

    method Save(d: Details, auditID: string, now: int) returns (r: Result<Record, Error>)
      modifies this
      ensures r == if Acceptable(d) then Success(Record(auditID, Trimmed(d), now)) else Failure(InvalidInput)
      ensures file == if !Acceptable(d) then old(file)
                      else Some((if old(file).None? then [] else old(file).value) + [Record(auditID, Trimmed(d), now)])
      ensures r.Failure? <==> Blank(d.eventID) || Blank(d.actor) || Blank(d.mode) || Blank(d.result)
      ensures r.Success? ==>
                var x := r.value.details;
                && x.eventID == TrimSpace(d.eventID) && x.source == TrimSpace(d.source) && x.actor == TrimSpace(d.actor)
                && x.mode == TrimSpace(d.mode) && x.result == TrimSpace(d.result) && x.errorCode == TrimSpace(d.errorCode)
                && x.httpStatus == d.httpStatus && x.requestID == TrimSpace(d.requestID)
    {
      hide Blank, TrimSpace;
      if !Acceptable(d) {
        return Failure(InvalidInput);
      }
      var record := Record(auditID, Trimmed(d), now);
      file := Some((if file.None? then [] else file.value) + [record]);
      return Success(record);
    }

    method List(query: Query) returns (r: Result<Page, Error>)
      ensures r == Listing(file, query)
    {
      hide NormalizeListQuery, Matches;
      var normal := NormalizeListQuery(query);
      if normal.None? {
        return Failure(InvalidQuery);
      }
      if file.None? {
        return Success(Page([], false, ""));
      }
      var (q, order) := normal.value;
      NormalLimit(query);
      var lines, records := file.value, [];
      for i := 0 to |lines|
        invariant records == Filter(Matching(q), lines[..i])
      {
        assert lines[..i + 1][..i] == lines[..i];
        if Matches(lines[i], q) {
          records := records + [lines[i]];
        }
      }
      assert lines[..|lines|] == lines;
      records := SortRecords(order, records);
      r := PageOf(records, q.cursor, q.limit);
    }

    method IndexOfCursor(records: seq<Record>, cursor: string) returns (index: int)
      ensures index == if PositionOf(records, cursor) < |records| then PositionOf(records, cursor) else -1
    {
      for i := 0 to |records|
        invariant forall k | 0 <= k < i :: records[k].auditID != cursor
      {
        if records[i].auditID == cursor {
          return i;
        }
      }
      return -1;
    }

    method PageOf(records: seq<Record>, cursor: string, limit: nat) returns (r: Result<Page, Error>)
      ensures r == PageAfter(records, cursor, limit)
    {
      hide PositionOf;
      var start := 0;
      if cursor != "" {
        var index := IndexOfCursor(records, cursor);
        if index == -1 {
          return Failure(CursorNotFound);
        }
        start := index + 1;
      }
      if start >= |records| {
        return Success(Page([], false, ""));
      }
      var end := start + limit;
      if end > |records| {
        end := |records|;
      }
      var page := Page(records[start..end], end < |records|, "");
      if page.hasMore && |page.records| > 0 {
        page := page.(nextCursor := page.records[|page.records| - 1].auditID);
      }
      return Success(page);
    }
  }

  lemma NormalLimit(q: Query)
    ensures NormalizeListQuery(q).Some? ==> NormalizeListQuery(q).value.0.limit == q.limit > 0
  {
  }

  // ------------------------------------------------------------------
  // What is on a page

  /** Later records first; at one time the greater id first. */
  ghost predicate NewestFirst(records: seq<Record>) {
    forall i, j | 0 <= i < j < |records| ::
      || records[i].replayedAt > records[j].replayedAt
      || (records[i].replayedAt == records[j].replayedAt && Less(records[j].auditID, records[i].auditID))
  }

  ghost predicate OldestFirst(records: seq<Record>) {
    forall i, j | 0 <= i < j < |records| ::
      || records[i].replayedAt < records[j].replayedAt
      || (records[i].replayedAt == records[j].replayedAt && Less(records[i].auditID, records[j].auditID))
  }

  lemma SortedMeans(order: Order, records: seq<Record>)
    requires Sorted(order, records)
    ensures if order.Asc? then OldestFirst(records) else NewestFirst(records)
  {
    hide Less;
    forall i, j | 0 <= i < j < |records|
      ensures if order.Asc? then
                records[i].replayedAt < records[j].replayedAt
                || (records[i].replayedAt == records[j].replayedAt && Less(records[i].auditID, records[j].auditID))
              else
                records[i].replayedAt > records[j].replayedAt
                || (records[i].replayedAt == records[j].replayedAt && Less(records[j].auditID, records[i].auditID))
    {
      assert Precedes(order, records[i], records[j]);
    }
  }

  lemma SortedPart(order: Order, records: seq<Record>, start: nat, end: nat)
    requires Sorted(order, records) && start <= end <= |records|
    ensures Sorted(order, records[start..end])
  {
    hide Precedes;
  }

  /** How the raw sort parameter is read: blank or "desc" in any case is descending, "asc" ascending, all else an error. */
  lemma OrderOfQuery(query: Query)
    ensures var raw := ToLower(TrimSpace(query.sort)); var normal := NormalizeListQuery(query);
            && (normal.None? <==> query.limit <= 0 || raw !in {"", "desc", "asc"})
            && (normal.Some? ==> (normal.value.1.Desc? <==> raw == "" || raw == "desc"))
            && (normal.Some? ==>
                  var q := normal.value.0;
                  && q.limit == query.limit && q.cursor == TrimSpace(query.cursor)
                  && q.actor == TrimSpace(query.actor) && q.result == TrimSpace(query.result)
                  && q.eventID == TrimSpace(query.eventID))
  {
    hide TrimSpace, ToLower;
  }

  /** The parameters as clients send them. */
  lemma PlainSortParameters()
    ensures ToLower(TrimSpace("")) == "" && ToLower(TrimSpace("desc")) == "desc" && ToLower(TrimSpace("asc")) == "asc"
  {
    assert TrimLeft("desc") == "desc" && TrimRight("desc") == "desc";
    assert TrimLeft("asc") == "asc" && TrimRight("asc") == "asc";
  }

  /** A page holds matching records only, at most `limit` of them. */
  lemma PageIsPart(records: seq<Record>, cursor: string, limit: nat)
    ensures var r := PageAfter(records, cursor, limit);
            r.Success? ==>
              && |r.value.records| <= limit
              && exists start, end :: 0 <= start <= end <= |records| && r.value.records == records[start..end]
  {
    hide PositionOf;
    var r := PageAfter(records, cursor, limit);
    if r.Success? {
      var start := if cursor == "" then 0 else PositionOf(records, cursor) + 1;
      if start >= |records| {
        assert r.value.records == records[0..0];
      } else {
        var end := if start + limit > |records| then |records| else start + limit;
        assert r.value.records == records[start..end];
      }
    }
  }

  lemma PageKeepsOrder(order: Order, records: seq<Record>, cursor: string, limit: nat)
    requires Sorted(order, records)
    ensures var r := PageAfter(records, cursor, limit); r.Success? ==> Sorted(order, r.value.records)
  {
    PageIsPart(records, cursor, limit);
    hide Sorted, PageAfter;
    var r := PageAfter(records, cursor, limit);
    if r.Success? {
      var start, end :| 0 <= start <= end <= |records| && r.value.records == records[start..end];
      SortedPart(order, records, start, end);
    }
  }

  /** Every page that List returns: newest first by default, oldest first for "asc". */
  lemma PageIsOrdered(log: seq<Record>, query: Query)
    requires UniqueIDs(log)
    ensures var r, raw := Listing(Some(log), query), ToLower(TrimSpace(query.sort));
            r.Success? ==>
              && |r.value.records| <= query.limit
              && (raw == "" || raw == "desc" ==> NewestFirst(r.value.records))
              && (raw == "asc" ==> OldestFirst(r.value.records))
  {
    OrderOfQuery(query);
    NormalLimit(query);
    hide TrimSpace, ToLower, NormalizeListQuery, Chosen, PageAfter, Sorted, NewestFirst, OldestFirst, UniqueIDs;
    if NormalizeListQuery(query).Some? {
      var (q, order) := NormalizeListQuery(query).value;
      ChosenIsSorted(order, Matching(q), log);
      PageKeepsOrder(order, Selected(log, q, order), q.cursor, q.limit);
      PageIsPart(Selected(log, q, order), q.cursor, q.limit);
      var r := Listing(Some(log), query);
      if r.Success? {
        SortedMeans(order, r.value.records);
      }
    }
  }

  /** Which records a query is about: a filter that is given must equal the trimmed field up to case. */
  lemma SelectedIff(log: seq<Record>, q: Query, order: Order, r: Record)
    requires UniqueIDs(log)
    ensures r in Selected(log, q, order) <==>
            && r in log
            && (q.actor == "" || ToLower(TrimSpace(r.details.actor)) == ToLower(q.actor))
            && (q.result == "" || ToLower(TrimSpace(r.details.result)) == ToLower(q.result))
            && (q.eventID == "" || ToLower(TrimSpace(r.details.eventID)) == ToLower(q.eventID))
  {
    ChosenIsSorted(order, Matching(q), log);
    FilterMembers(Matching(q), log);
    hide TrimSpace, ToLower, Chosen, Filter, Sorted, UniqueIDs;
    assert r in Selected(log, q, order) <==> r in multiset(Selected(log, q, order));
    assert r in Filter(Matching(q), log) <==> r in multiset(Filter(Matching(q), log));
  }

  /** A record is found again by what it was saved with. */
  lemma SavedIsFound(log: seq<Record>, d: Details, auditID: string, now: int, order: Order)
    requires UniqueIDs(log + [Record(auditID, Trimmed(d), now)])
    ensures Record(auditID, Trimmed(d), now) in
            Selected(log + [Record(auditID, Trimmed(d), now)],
                     Query(1, "", TrimSpace(d.actor), TrimSpace(d.result), TrimSpace(d.eventID), ""), order)
  {
    hide TrimSpace, ToLower, Selected;
    TrimSpaceIdempotent(d.actor);
    TrimSpaceIdempotent(d.result);
    TrimSpaceIdempotent(d.eventID);
    SelectedIff(log + [Record(auditID, Trimmed(d), now)],
                Query(1, "", TrimSpace(d.actor), TrimSpace(d.result), TrimSpace(d.eventID), ""), order,
                Record(auditID, Trimmed(d), now));
  }

  /** Before the first save there is no file, and a proper query finds nothing, whatever its cursor. */
  lemma MissingFileIsEmpty(query: Query)
    ensures Listing(None, query) ==
            if query.limit > 0 && ToLower(TrimSpace(query.sort)) in {"", "desc", "asc"} then Success(Page([], false, ""))
            else Failure(InvalidQuery)
  {
    OrderOfQuery(query);
    hide NormalizeListQuery, ToLower, TrimSpace;
  }

  /** List fails exactly for a limit below one, an unknown sort order, or a cursor that names no selected record. */
  lemma ListFailsIff(log: seq<Record>, query: Query)
    ensures var r, raw := Listing(Some(log), query), ToLower(TrimSpace(query.sort));
            && (r == Failure(InvalidQuery) <==> query.limit <= 0 || raw !in {"", "desc", "asc"})
            && (r == Failure(CursorNotFound) <==>
                  && query.limit > 0 && raw in {"", "desc", "asc"} && TrimSpace(query.cursor) != ""
                  && var (q, order) := NormalizeListQuery(query).value;
                     forall x | x in Selected(log, q, order) :: x.auditID != TrimSpace(query.cursor))
            && r != Failure(InvalidInput)
  {
    OrderOfQuery(query);
    hide TrimSpace, ToLower, Selected;
    if NormalizeListQuery(query).Some? {
      var (q, order) := NormalizeListQuery(query).value;
      var records := Selected(log, q, order);
      assert forall i | 0 <= i < |records| :: records[i] in records;
    }
  }

  // ------------------------------------------------------------------
  // Walking along the cursors

  /** An audit id survives as a cursor: it is not empty and has no surrounding space. */
  predicate GoodID(id: string) {
    id != "" && TrimSpace(id) == id
  }

  /** Audit ids as the store draws them. */
  ghost predicate GoodIDs(log: seq<Record>) {
    UniqueIDs(log) && forall r | r in log :: GoodID(r.auditID)
  }

  /** Every record of `b` has a key above every record of `a`. */
  ghost predicate Above(a: seq<Record>, b: seq<Record>) {
    forall x, y | x in a && y in b ::
      x.replayedAt < y.replayedAt || (x.replayedAt == y.replayedAt && Less(x.auditID, y.auditID))
  }

  /** Between pages records are only appended, with keys above all that are there. */
  ghost predicate Grows(logs: seq<seq<Record>>) {
    && (forall n | 0 <= n < |logs| :: GoodIDs(logs[n]))
    && (forall n | 0 < n < |logs| ::
          && logs[n - 1] <= logs[n]
          && Above(logs[n - 1], logs[n][|logs[n - 1]|..]))
  }

  /** Page `n` is taken from list `n`, after the cursor of the page before. */
  predicate TurnsTo(lists: seq<seq<Record>>, limit: nat, pages: seq<Page>, n: nat)
    requires 0 < n < |pages| == |lists|
  {
    pages[n - 1].hasMore && PageAfter(lists[n], pages[n - 1].nextCursor, limit) == Success(pages[n])
  }

  ghost predicate ListWalk(lists: seq<seq<Record>>, limit: nat, pages: seq<Page>) {
    && |pages| == |lists| > 0 && limit > 0
    && PageAfter(lists[0], "", limit) == Success(pages[0])
    && forall n | 0 < n < |pages| :: TurnsTo(lists, limit, pages, n)
  }

  function SelectedLists(logs: seq<seq<Record>>, q: Query, order: Order): (lists: seq<seq<Record>>)
    ensures |lists| == |logs|
    ensures forall n | 0 <= n < |logs| :: lists[n] == Selected(logs[n], q, order)
  {
    seq(|logs|, n requires 0 <= n < |logs| => Selected(logs[n], q, order))
  }

  /** The pages a client sees that follows NextCursor, the n-th on the n-th log. */
  ghost predicate Walk(logs: seq<seq<Record>>, q: Query, order: Order, pages: seq<Page>) {
    q.limit > 0 && ListWalk(SelectedLists(logs, q, order), q.limit, pages)
  }

  function Visited(pages: seq<Page>): seq<Record> {
    if pages == [] then [] else Visited(pages[..|pages| - 1]) + pages[|pages| - 1].records
  }

  lemma {:induction false} FilterKeepsUniqueIDs(p: Record -> bool, log: seq<Record>)
    requires UniqueIDs(log)
    ensures UniqueIDs(Filter(p, log))
  {
    if log != [] {
      var init, last := log[..|log| - 1], log[|log| - 1];
      FilterKeepsUniqueIDs(p, init);
      var kept := Filter(p, init);
      forall k | 0 <= k < |kept|
        ensures kept[k].auditID != last.auditID
      {
        FilterMembers(p, init);
        assert kept[k] in kept;
        var i :| 0 <= i < |init| && init[i] == kept[k];
      }
    }
  }

  lemma ChosenIsSorted(order: Order, p: Record -> bool, log: seq<Record>)
    requires UniqueIDs(log)
    ensures Sorted(order, Chosen(order, p, log)) && UniqueIDs(Chosen(order, p, log))
    ensures multiset(Chosen(order, p, log)) == multiset(Filter(p, log))
  {
    FilterKeepsUniqueIDs(p, log);
    SortSorts(order, Filter(p, log));
    SameIDs(Filter(p, log), Chosen(order, p, log));
  }

  lemma ChosenHasGoodIDs(order: Order, p: Record -> bool, log: seq<Record>)
    requires GoodIDs(log)
    ensures GoodIDs(Chosen(order, p, log))
  {
    ChosenIsSorted(order, p, log);
    FilterMembers(p, log);
    hide Chosen, Filter, Sorted, UniqueIDs, GoodID;
    forall r | r in Chosen(order, p, log)
      ensures GoodID(r.auditID)
    {
      assert r in multiset(Chosen(order, p, log));
    }
  }

  lemma SelectedIsSorted(log: seq<Record>, q: Query, order: Order)
    requires GoodIDs(log)
    ensures Sorted(order, Selected(log, q, order)) && GoodIDs(Selected(log, q, order))
    ensures multiset(Selected(log, q, order)) == multiset(Filter(Matching(q), log))
  {
    ChosenIsSorted(order, Matching(q), log);
    ChosenHasGoodIDs(order, Matching(q), log);
  }

  lemma SameIDs(s: seq<Record>, t: seq<Record>)
    requires multiset(s) == multiset(t) && UniqueIDs(s)
    ensures UniqueIDs(t)
  {
    forall i, j | 0 <= i < j < |t|
      ensures t[i].auditID != t[j].auditID
    {
      assert t == t[..i] + [t[i]] + t[i + 1..j] + [t[j]] + t[j + 1..];
      assert t[i] in multiset(s) && t[j] in multiset(s);
      var k :| 0 <= k < |s| && s[k] == t[i];
      var m :| 0 <= m < |s| && s[m] == t[j];
      if k == m {
        assert multiset(t)[t[i]] >= 2;
        OnceOnly(s, k);
      }
    }
  }

  lemma OnceOnly(s: seq<Record>, k: nat)
    requires k < |s| && UniqueIDs(s)
    ensures multiset(s)[s[k]] == 1
  {
    assert s == s[..k] + [s[k]] + s[k + 1..];
    assert s[k] !in s[..k] && s[k] !in s[k + 1..];
  }

  lemma UniqueParts(log: seq<Record>, more: seq<Record>)
    requires UniqueIDs(log + more)
    ensures UniqueIDs(log) && UniqueIDs(more)
  {
    var all := log + more;
    assert forall i | 0 <= i < |log| :: all[i] == log[i];
    assert forall i | 0 <= i < |more| :: all[|log| + i] == more[i];
  }

  lemma JoinedIsSorted(order: Order, olds: seq<Record>, news: seq<Record>)
    requires Sorted(order, olds) && Sorted(order, news) && Above(olds, news)
    ensures Sorted(order, if order.Asc? then olds + news else news + olds)
  {
    hide Less;
    forall i, j | 0 <= i < |olds| && 0 <= j < |news|
      ensures if order.Asc? then Precedes(order, olds[i], news[j]) else Precedes(order, news[j], olds[i])
    {
      assert olds[i] in olds && news[j] in news;
    }
  }

  lemma ChosenAbove(order: Order, p: Record -> bool, log: seq<Record>, more: seq<Record>)
    requires UniqueIDs(log) && UniqueIDs(more) && Above(log, more)
    ensures Above(Chosen(order, p, log), Chosen(order, p, more))
  {
    ChosenIsSorted(order, p, log);
    ChosenIsSorted(order, p, more);
    FilterMembers(p, log);
    FilterMembers(p, more);
    var olds, news := Chosen(order, p, log), Chosen(order, p, more);
    hide Chosen, Less, Filter, Sorted, UniqueIDs;
    forall x, y | x in olds && y in news
      ensures x.replayedAt < y.replayedAt || (x.replayedAt == y.replayedAt && Less(x.auditID, y.auditID))
    {
      assert x in multiset(olds) && y in multiset(news);
      assert x in Filter(p, log) && y in Filter(p, more);
    }
  }

  /** Records appended above everything come first in a descending list and last in an ascending one. */
  lemma AppendedAbove(order: Order, p: Record -> bool, log: seq<Record>, more: seq<Record>)
    requires UniqueIDs(log + more) && Above(log, more)
    ensures var news, olds := Chosen(order, p, more), Chosen(order, p, log);
            Chosen(order, p, log + more) == if order.Asc? then olds + news else news + olds
  {
    UniqueParts(log, more);
    ChosenIsSorted(order, p, log + more);
    ChosenIsSorted(order, p, log);
    ChosenIsSorted(order, p, more);
    FilterConcat(p, log, more);
    ChosenAbove(order, p, log, more);
    var news, olds := Chosen(order, p, more), Chosen(order, p, log);
    JoinedIsSorted(order, olds, news);
    hide Chosen, Sorted, Above, UniqueIDs, Filter;
    SortIsDetermined(order, if order.Asc? then olds + news else news + olds, Chosen(order, p, log + more));
  }

  // The walk on the ordered lists themselves

  ghost predicate EndsWith(s: seq<Record>, t: seq<Record>) {
    |t| <= |s| && s[|s| - |t|..] == t
  }

  /** After `page` the first `done` records of `list` have been seen, `n` full pages if there are more. */
  ghost predicate Progress(list: seq<Record>, seen: seq<Record>, page: Page, n: nat, limit: nat) {
    && |seen| <= |list| && seen == list[..|seen|]
    && (page.hasMore <==> |seen| < |list|)
    && (page.hasMore ==> |seen| == n * limit > 0 && page.nextCursor == seen[|seen| - 1].auditID)
  }

  /** A page from where the client stands moves it on. */
  lemma PageProgresses(list: seq<Record>, seen: seq<Record>, n: nat, limit: nat)
    requires limit > 0 && |seen| <= |list| && seen == list[..|seen|] && |seen| == n * limit
    ensures var page := PageFrom(list, |seen|, limit);
            Progress(list, seen + page.records, page, n + 1, limit)
  {
    assert (n + 1) * limit == n * limit + limit;
  }

  /** A page taken after the cursor of a visited record continues right behind it. */
  lemma PageContinues(records: seq<Record>, done: nat, limit: nat)
    requires GoodIDs(records) && 0 < done <= |records| && limit > 0
    ensures PageAfter(records, records[done - 1].auditID, limit) == Success(PageFrom(records, done, limit))
  {
    assert records[done - 1] in records;
    assert PositionOf(records, records[done - 1].auditID) == done - 1;
  }

  /** Records in front of a list do not change what follows a position in it. */
  lemma PageBehindNews(now: seq<Record>, first: seq<Record>, k: nat, limit: nat)
    requires EndsWith(now, first) && k <= |first|
    ensures PageFrom(now, |now| - |first| + k, limit) == PageFrom(first, k, limit)
  {
    var skip := |now| - |first|;
    assert forall i | 0 <= i < |first| :: now[skip + i] == first[i];
  }

  lemma VisitedOneMore(pages: seq<Page>)
    requires pages != []
    ensures Visited(pages) == Visited(pages[..|pages| - 1]) + pages[|pages| - 1].records
    ensures |pages| == 1 ==> Visited(pages) == pages[0].records
  {
    assert pages[..0] == [];
  }

  lemma ShorterListWalk(lists: seq<seq<Record>>, limit: nat, pages: seq<Page>)
    requires ListWalk(lists, limit, pages) && |pages| > 1
    ensures ListWalk(lists[..|pages| - 1], limit, pages[..|pages| - 1])
  {
    hide PageAfter;
    var n := |pages| - 1;
    forall m | 0 < m < n
      ensures TurnsTo(lists[..n], limit, pages[..n], m)
    {
      assert TurnsTo(lists, limit, pages, m);
    }
  }

  lemma NextPageBehindNews(now: seq<Record>, first: seq<Record>, seen: seq<Record>, page: Page, n: nat, limit: nat, next: Page)
    requires GoodIDs(now) && EndsWith(now, first) && limit > 0
    requires Progress(first, seen, page, n, limit) && page.hasMore
    requires PageAfter(now, page.nextCursor, limit) == Success(next)
    ensures Progress(first, seen + next.records, next, n + 1, limit)
  {
    hide PageAfter, PageFrom, GoodIDs;
    var skip := |now| - |first|;
    assert now[skip + |seen| - 1] == first[|seen| - 1];
    PageContinues(now, skip + |seen|, limit);
    PageBehindNews(now, first, |seen|, limit);
    PageProgresses(first, seen, n, limit);
  }

  lemma FirstPageProgresses(lists: seq<seq<Record>>, limit: nat, pages: seq<Page>)
    requires ListWalk(lists, limit, pages) && |pages| == 1
    ensures Progress(lists[0], Visited(pages), pages[0], 1, limit)
  {
    VisitedOneMore(pages);
    PageProgresses(lists[0], [], 0, limit);
    assert [] + pages[0].records == pages[0].records;
  }

  lemma {:induction false} WalkOverGrowingFront(lists: seq<seq<Record>>, limit: nat, pages: seq<Page>)
    requires ListWalk(lists, limit, pages)
    requires forall n | 0 <= n < |lists| :: GoodIDs(lists[n]) && EndsWith(lists[n], lists[0])
    ensures Progress(lists[0], Visited(pages), pages[|pages| - 1], |pages|, limit)
  {
    var n := |pages| - 1;
    hide Visited, GoodIDs, PageAfter, PageFrom, Progress;
    if n == 0 {
      FirstPageProgresses(lists, limit, pages);
    } else {
      VisitedOneMore(pages);
      ShorterListWalk(lists, limit, pages);
      WalkOverGrowingFront(lists[..n], limit, pages[..n]);
      assert TurnsTo(lists, limit, pages, n);
      NextPageBehindNews(lists[n], lists[0], Visited(pages[..n]), pages[n - 1], n, limit, pages[n]);
    }
  }

  lemma {:induction false} WalkOverGrowingBack(lists: seq<seq<Record>>, limit: nat, pages: seq<Page>)
    requires ListWalk(lists, limit, pages)
    requires forall n | 0 <= n < |lists| :: GoodIDs(lists[n])
    requires forall n | 0 < n < |lists| :: lists[n - 1] <= lists[n]
    ensures Progress(lists[|lists| - 1], Visited(pages), pages[|pages| - 1], |pages|, limit)
  {
    var n := |pages| - 1;
    hide Visited, GoodIDs, PageAfter, PageFrom;
    if n == 0 {
      FirstPageProgresses(lists, limit, pages);
    } else {
      VisitedOneMore(pages);
      ShorterListWalk(lists, limit, pages);
      WalkOverGrowingBack(lists[..n], limit, pages[..n]);
      var now, seen := lists[n], Visited(pages[..n]);
      assert lists[n - 1] <= now;
      assert TurnsTo(lists, limit, pages, n);
      PageContinues(now, |seen|, limit);
      PageProgresses(now, seen, n, limit);
    }
  }

  lemma ListGrows(order: Order, p: Record -> bool, before: seq<Record>, after: seq<Record>)
    requires UniqueIDs(after) && before <= after && Above(before, after[|before|..])
    ensures var olds, now := Chosen(order, p, before), Chosen(order, p, after);
            if order.Asc? then olds <= now else EndsWith(now, olds)
  {
    hide Chosen, UniqueIDs, Above;
    assert after == before + after[|before|..];
    AppendedAbove(order, p, before, after[|before|..]);
  }

  lemma ListsGrow(logs: seq<seq<Record>>, q: Query, order: Order, n: nat)
    requires Grows(logs) && n < |logs|
    ensures var lists := SelectedLists(logs, q, order);
            && GoodIDs(lists[n])
            && (n > 0 ==> if order.Asc? then lists[n - 1] <= lists[n] else EndsWith(lists[n], lists[n - 1]))
  {
    hide Chosen, UniqueIDs, Above, EndsWith, Sorted;
    SelectedIsSorted(logs[n], q, order);
    if n > 0 {
      ListGrows(order, Matching(q), logs[n - 1], logs[n]);
    }
  }

  lemma {:induction false} ListsEndWithFirst(lists: seq<seq<Record>>, n: nat)
    requires n < |lists| && forall m | 0 < m < |lists| :: EndsWith(lists[m], lists[m - 1])
    ensures EndsWith(lists[n], lists[0])
  {
    if n > 0 {
      ListsEndWithFirst(lists, n - 1);
    }
  }

  lemma SortedIsDistinct(order: Order, s: seq<Record>)
    requires Sorted(order, s)
    ensures forall i, j | 0 <= i < j < |s| :: s[i] != s[j]
  {
    forall i, j | 0 <= i < j < |s|
      ensures s[i] != s[j]
    {
      PrecedesIsTotal(order, s[i], s[j]);
    }
  }

  lemma SelectedIsDistinct(log: seq<Record>, q: Query, order: Order)
    requires GoodIDs(log)
    ensures forall i, j | 0 <= i < j < |Selected(log, q, order)| ::
              Selected(log, q, order)[i] != Selected(log, q, order)[j]
  {
    hide Selected;
    SelectedIsSorted(log, q, order);
    SortedIsDistinct(order, Selected(log, q, order));
  }

  lemma LogsAreGood(logs: seq<seq<Record>>)
    requires Grows(logs)
    ensures forall n | 0 <= n < |logs| :: GoodIDs(logs[n])
  {
    hide GoodIDs;
  }

  lemma WalkProgresses(logs: seq<seq<Record>>, q: Query, order: Order, pages: seq<Page>)
    requires Grows(logs) && Walk(logs, q, order, pages)
    ensures |pages| == |logs| > 0
    ensures var moment := if order.Desc? then logs[0] else logs[|logs| - 1];
            Progress(Selected(moment, q, order), Visited(pages), pages[|pages| - 1], |pages|, q.limit)
  {
    hide Selected, Visited, PageAfter, GoodIDs, Progress;
    var lists := SelectedLists(logs, q, order);
    forall n | 0 <= n < |lists|
      ensures GoodIDs(lists[n])
      ensures n > 0 ==> if order.Asc? then lists[n - 1] <= lists[n] else EndsWith(lists[n], lists[n - 1])
    {
      ListsGrow(logs, q, order, n);
    }
    if order.Desc? {
      forall n | 0 <= n < |lists|
        ensures EndsWith(lists[n], lists[0])
      {
        ListsEndWithFirst(lists, n);
      }
      WalkOverGrowingFront(lists, q.limit, pages);
    } else {
      WalkOverGrowingBack(lists, q.limit, pages);
    }
  }

  /**
   A finished walk has visited exactly the matching records of the first page's moment
   (descending) or of the last page's moment (ascending), in order, none twice; a walk
   that is not finished is shorter than that, so following NextCursor ends.
   */
  lemma WalkIsExact(logs: seq<seq<Record>>, q: Query, order: Order, pages: seq<Page>)
    requires Grows(logs) && Walk(logs, q, order, pages)
    ensures var moment := if order.Desc? then logs[0] else logs[|logs| - 1];
            var target, seen := Selected(moment, q, order), Visited(pages);
            && (!pages[|pages| - 1].hasMore ==> seen == target)
            && (pages[|pages| - 1].hasMore ==> seen < target && |seen| == |pages| * q.limit)
            && (forall i, j | 0 <= i < j < |seen| :: seen[i] != seen[j])
  {
    hide Selected, Visited, Walk, Grows, GoodIDs;
    WalkProgresses(logs, q, order, pages);
    LogsAreGood(logs);
    var moment := if order.Desc? then logs[0] else logs[|logs| - 1];
    SelectedIsDistinct(moment, q, order);
    var target, seen := Selected(moment, q, order), Visited(pages);
    assert seen == target[..|seen|];
    assert |seen| == |target| ==> seen == target;
  }

  // The same for the calls of List that a client makes

  /** Call `n` of List repeats the query with the cursor of the page before. */
  function QueryAt(query: Query, pages: seq<Page>, n: nat): Query
    requires n <= |pages|
  {
    query.(cursor := if n == 0 then "" else pages[n - 1].nextCursor)
  }

  ghost predicate Browses(logs: seq<seq<Record>>, query: Query, pages: seq<Page>) {
    && |pages| == |logs| > 0
    && (forall n | 0 <= n < |logs| :: Listing(Some(logs[n]), QueryAt(query, pages, n)) == Success(pages[n]))
    && (forall n | 0 <= n < |pages| - 1 :: pages[n].hasMore)
  }

  lemma {:induction false} FilterSame(p: Record -> bool, q: Record -> bool, s: seq<Record>)
    requires forall r | r in s :: p(r) == q(r)
    ensures Filter(p, s) == Filter(q, s)
  {
    if s != [] {
      assert s == s[..|s| - 1] + [s[|s| - 1]];
      FilterSame(p, q, s[..|s| - 1]);
    }
  }

  lemma SelectedIgnoresCursor(log: seq<Record>, q: Query, cursor: string, order: Order)
    ensures Selected(log, q.(cursor := cursor), order) == Selected(log, q, order)
  {
    hide Matches, SortRecords, Filter;
    var p, p' := Matching(q), Matching(q.(cursor := cursor));
    forall r | r in log
      ensures p'(r) == p(r)
    {
      MatchesIgnoresCursor(r, q, cursor);
    }
    FilterSame(p', p, log);
  }

  lemma MatchesIgnoresCursor(r: Record, q: Query, cursor: string)
    ensures Matches(r, q.(cursor := cursor)) == Matches(r, q)
  {
  }

  lemma NextCursorIsGood(records: seq<Record>, cursor: string, limit: nat)
    requires GoodIDs(records) && limit > 0
    ensures var r := PageAfter(records, cursor, limit);
            r.Success? && r.value.hasMore ==> GoodID(r.value.nextCursor)
  {
    hide GoodID, PositionOf, UniqueIDs;
    assert forall i | 0 <= i < |records| :: records[i] in records;
  }

  lemma CursorOfPage(log: seq<Record>, q: Query, order: Order, cursor: string, page: Page)
    requires GoodIDs(log) && q.limit > 0
    requires PageAfter(Selected(log, q, order), cursor, q.limit) == Success(page) && page.hasMore
    ensures GoodID(page.nextCursor)
  {
    hide PageAfter, Selected, GoodIDs, GoodID, Sorted;
    SelectedIsSorted(log, q, order);
    NextCursorIsGood(Selected(log, q, order), cursor, q.limit);
  }

  lemma TrimmedCursor(query: Query, cursor: string)
    requires cursor == "" || GoodID(cursor)
    requires NormalizeListQuery(query).Some?
    ensures var (q, order) := NormalizeListQuery(query).value;
            NormalizeListQuery(query.(cursor := cursor)) == Some((q.(cursor := cursor), order))
  {
  }

  lemma BrowsingIsWalking(logs: seq<seq<Record>>, query: Query, pages: seq<Page>)
    requires (forall n | 0 <= n < |logs| :: GoodIDs(logs[n])) && Browses(logs, query, pages)
    ensures NormalizeListQuery(query).Some?
    ensures var (q, order) := NormalizeListQuery(query).value; Walk(logs, q, order, pages)
  {
    hide PageAfter, Selected, GoodIDs, Matches;
    assert Listing(Some(logs[0]), QueryAt(query, pages, 0)) == Success(pages[0]);
    NormalLimit(query);
    var (q, order) := NormalizeListQuery(query).value;
    var lists := SelectedLists(logs, q, order);
    forall n | 0 <= n < |logs|
      ensures PageAfter(lists[n], QueryAt(query, pages, n).cursor, q.limit) == Success(pages[n])
    {
      PageOfCall(logs, query, pages, n);
    }
    forall n | 0 < n < |pages|
      ensures TurnsTo(lists, q.limit, pages, n)
    {
      assert PageAfter(lists[n], QueryAt(query, pages, n).cursor, q.limit) == Success(pages[n]);
    }
  }

  /** One call of List with a usable cursor, on the normalised query. */
  lemma CallIsPage(log: seq<Record>, query: Query, cursor: string)
    requires cursor == "" || GoodID(cursor)
    requires NormalizeListQuery(query).Some?
    ensures var (q, order) := NormalizeListQuery(query).value;
            && q.limit > 0
            && Listing(Some(log), query.(cursor := cursor)) == PageAfter(Selected(log, q, order), cursor, q.limit)
  {
    hide PageAfter, Selected, GoodID;
    NormalLimit(query);
    TrimmedCursor(query, cursor);
    var (q, order) := NormalizeListQuery(query).value;
    hide NormalizeListQuery;
    SelectedIgnoresCursor(log, q, cursor, order);
  }

  lemma CursorOfCall(log: seq<Record>, query: Query, pages: seq<Page>, n: nat)
    requires GoodIDs(log) && 0 < n <= |pages| && pages[n - 1].hasMore && NormalizeListQuery(query).Some?
    requires var (q, order) := NormalizeListQuery(query).value;
             && q.limit > 0
             && PageAfter(Selected(log, q, order), QueryAt(query, pages, n - 1).cursor, q.limit) == Success(pages[n - 1])
    ensures GoodID(QueryAt(query, pages, n).cursor)
  {
    hide PageAfter, Selected, GoodIDs, GoodID, NormalizeListQuery;
    var (q, order) := NormalizeListQuery(query).value;
    CursorOfPage(log, q, order, QueryAt(query, pages, n - 1).cursor, pages[n - 1]);
  }

  lemma {:induction false} PageOfCall(logs: seq<seq<Record>>, query: Query, pages: seq<Page>, n: nat)
    requires (forall n | 0 <= n < |logs| :: GoodIDs(logs[n])) && Browses(logs, query, pages) && n < |logs|
    requires NormalizeListQuery(query).Some?
    ensures var (q, order) := NormalizeListQuery(query).value;
            var cursor := QueryAt(query, pages, n).cursor;
            && q.limit > 0
            && (cursor == "" || GoodID(cursor))
            && PageAfter(Selected(logs[n], q, order), cursor, q.limit) == Success(pages[n])
  {
    hide PageAfter, Selected, GoodIDs, GoodID, NormalizeListQuery, Listing;
    if n > 0 {
      PageOfCall(logs, query, pages, n - 1);
      CursorOfCall(logs[n - 1], query, pages, n);
    }
    PageOfThisCall(logs, query, pages, n);
  }

  lemma PageOfThisCall(logs: seq<seq<Record>>, query: Query, pages: seq<Page>, n: nat)
    requires Browses(logs, query, pages) && n < |logs|
    requires NormalizeListQuery(query).Some?
    requires var cursor := QueryAt(query, pages, n).cursor; cursor == "" || GoodID(cursor)
    ensures var (q, order) := NormalizeListQuery(query).value;
            && q.limit > 0
            && PageAfter(Selected(logs[n], q, order), QueryAt(query, pages, n).cursor, q.limit) == Success(pages[n])
  {
    hide PageAfter, Selected, GoodID, NormalizeListQuery, Listing;
    CallIsPage(logs[n], query, QueryAt(query, pages, n).cursor);
    assert Listing(Some(logs[n]), QueryAt(query, pages, n)) == Success(pages[n]);
  }

  /** Whoever calls List with the cursors it returns sees exactly the records of one moment. */
  lemma BrowsingIsExact(logs: seq<seq<Record>>, query: Query, pages: seq<Page>)
    requires Grows(logs) && Browses(logs, query, pages)
    ensures NormalizeListQuery(query).Some?
    ensures var (q, order) := NormalizeListQuery(query).value;
            var moment := if order.Desc? then logs[0] else logs[|logs| - 1];
            var target, seen := Selected(moment, q, order), Visited(pages);
            && (!pages[|pages| - 1].hasMore ==> seen == target)
            && (pages[|pages| - 1].hasMore ==> seen < target && |seen| == |pages| * q.limit)
            && (forall i, j | 0 <= i < j < |seen| :: seen[i] != seen[j])
  {
    hide Selected, Visited, Walk, Grows, GoodIDs, Browses;
    LogsAreGood(logs);
    BrowsingIsWalking(logs, query, pages);
    PagesPerLog(logs, query, pages);
    var (q, order) := NormalizeListQuery(query).value;
    WalkIsExact(logs, q, order, pages);
  }

  lemma PagesPerLog(logs: seq<seq<Record>>, query: Query, pages: seq<Page>)
    requires Browses(logs, query, pages)
    ensures |pages| == |logs| > 0
  {
  }
}
