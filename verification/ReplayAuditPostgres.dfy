/**
 The replay audit trail in Postgres (internal/replayaudit/postgres_store.go), paged by
 the key of the last record shown.  The table is the sequence of its rows; the SELECT
 is one atomic step.
 */
module ReplayAuditPostgres {
  import opened Wrappers
  import opened Sequences
  import opened ReplayAudit

  /** A cursor as Postgres receives it: absent or unparsable, or the key of a record. */
  datatype KeyCursor = NoCursor | Malformed | After(replayedAt: int, auditID: string)

  datatype KeyPage = KeyPage(records: seq<Record>, hasMore: bool, next: KeyCursor)

  function KeyOf(r: Record): KeyCursor {
    After(r.replayedAt, r.auditID)
  }

  predicate PastCursor(order: Order, cursor: KeyCursor, r: Record) {
    cursor.After? ==> Precedes(order, Record(cursor.auditID, r.details, cursor.replayedAt), r)
  }

  function Past(order: Order, cursor: KeyCursor): Record -> bool {
    r => PastCursor(order, cursor, r)
  }

  function ClampLimit(limit: int): nat {
    if limit <= 0 then 50 else if limit > 1000 then 1000 else limit
  }

  /** Only the literal "asc" sorts ascending here. */
  function OrderOf(q: Query): Order {
    if q.sort == "asc" then Asc else Desc
  }

  predicate RowMatches(r: Record, q: Query) {
    && (q.actor != "" ==> r.details.actor == q.actor)
    && (q.result != "" ==> r.details.result == q.result)
    && (q.eventID != "" ==> r.details.eventID == q.eventID)
  }

  function Wanted(q: Query): Record -> bool {
    r => RowMatches(r, q)
  }

  /** Both conditions of the WHERE clause. */
  function WantedPast(q: Query, cursor: KeyCursor): Record -> bool {
    r => RowMatches(r, q) && PastCursor(OrderOf(q), cursor, r)
  }

  /** What the SELECT returns: filtered, ordered, at most `fetch` rows. */
  function Rows(table: seq<Record>, q: Query, cursor: KeyCursor, fetch: nat): seq<Record> {
    var rows := Chosen(OrderOf(q), WantedPast(q, cursor), table);
    if |rows| > fetch then rows[..fetch] else rows
  }

  /** The whole ordered list that a client pages through. */
  function FullList(table: seq<Record>, q: Query): seq<Record> {
    Chosen(OrderOf(q), Wanted(q), table)
  }

  /** The first page of a list: `limit` records, and the last of them as cursor if more follow. */
  function FirstOf(list: seq<Record>, limit: nat): KeyPage
    requires limit > 0
  {
    if |list| > limit then KeyPage(list[..limit], true, KeyOf(list[limit - 1])) else KeyPage(list, false, NoCursor)
  }

  /** What List answers: the first page of what lies past the cursor in the full list. */
  function KeyListing(table: seq<Record>, q: Query, cursor: KeyCursor): KeyPage {
    FirstOf(Filter(Past(OrderOf(q), cursor), FullList(table, q)), ClampLimit(q.limit))
  }

  class PostgresStore {
    var table: seq<Record>

    /** The audit id is the primary key. */
    ghost predicate Valid()
      reads this
    {
      UniqueIDs(table)
    }

    constructor (table: seq<Record>)
      requires UniqueIDs(table)
      ensures Valid() && this.table == table
    {
      this.table := table;
    }

    method Save(d: Details, auditID: string, now: int) returns (r: Option<Record>)
      requires Valid()
      modifies this
      ensures Valid()
      ensures r == if exists x | x in old(table) :: x.auditID == auditID then None else Some(Record(auditID, d, now))
      ensures table == if r.Some? then old(table) + [r.value] else old(table)
    {
      if x :| x in table && x.auditID == auditID {
        return None;
      }
      assert forall k | 0 <= k < |table| :: table[k] in table;
      table := table + [Record(auditID, d, now)];
      return Some(Record(auditID, d, now));
    }

    method Scanned(rows: seq<Record>) returns (records: seq<Record>)
      ensures records == rows
    {
      records := [];
      for i := 0 to |rows|
        invariant records == rows[..i]
      {
        records := records + [rows[i]];
      }
    }

    method List(q: Query, cursor: KeyCursor) returns (page: KeyPage)
      requires Valid()
      ensures page == KeyListing(table, q, cursor)
    {
      hide FullList, Filter, Chosen, Past, UniqueIDs, PastCursor, RowMatches;
      var limit := q.limit;
      if limit <= 0 {
        limit := 50;
      }
      if limit > 1000 {
        limit := 1000;
      }
      var rows := Rows(table, q, cursor, limit + 1);
      SelectIsPast(table, q, cursor);
      var records := Scanned(rows);
      var hasMore, next := false, NoCursor;
      if |records| > limit {
        hasMore := true;
        records := records[..limit];
      }
      if hasMore && |records| > 0 {
        var last := records[|records| - 1];
        next := After(last.replayedAt, last.auditID);
      }
      page := KeyPage(records, hasMore, next);
    }
  }

  // ------------------------------------------------------------------
  // Filtering and sorting commute

  lemma {:induction false} FilterSorted(order: Order, p: Record -> bool, s: seq<Record>)
    requires Sorted(order, s)
    ensures Sorted(order, Filter(p, s))
  {
    if s != [] {
      hide Precedes;
      var init, last := s[..|s| - 1], s[|s| - 1];
      FilterSorted(order, p, init);
      var kept := Filter(p, init);
      forall k | 0 <= k < |kept|
        ensures Precedes(order, kept[k], last)
      {
        FilterMembers(p, init);
        assert kept[k] in kept;
        var i :| 0 <= i < |init| && init[i] == kept[k];
        assert s[i] == kept[k];
      }
    }
  }

  lemma {:induction false} FilterCount(p: Record -> bool, s: seq<Record>, x: Record)
    ensures multiset(Filter(p, s))[x] == if p(x) then multiset(s)[x] else 0
  {
    if s != [] {
      FilterCount(p, s[..|s| - 1], x);
      assert s == s[..|s| - 1] + [s[|s| - 1]];
    }
  }

  lemma FilterMultiset(p: Record -> bool, s: seq<Record>, t: seq<Record>)
    requires multiset(s) == multiset(t)
    ensures multiset(Filter(p, s)) == multiset(Filter(p, t))
  {
    forall x
      ensures multiset(Filter(p, s))[x] == multiset(Filter(p, t))[x]
    {
      FilterCount(p, s, x);
      FilterCount(p, t, x);
    }
  }

  /** Sorting what satisfies `p` is what satisfies `p` in the sorted list. */
  lemma FilterThenSort(order: Order, p: Record -> bool, records: seq<Record>)
    requires UniqueIDs(records)
    ensures SortRecords(order, Filter(p, records)) == Filter(p, SortRecords(order, records))
  {
    hide SortRecords, Filter;
    var sorted := SortRecords(order, records);
    SortSorts(order, records);
    FilterKeepsUniqueIDs(p, records);
    SortSorts(order, Filter(p, records));
    FilterSorted(order, p, sorted);
    FilterMultiset(p, sorted, records);
    hide Sorted, UniqueIDs;
    SortIsDetermined(order, SortRecords(order, Filter(p, records)), Filter(p, sorted));
  }

  lemma {:induction false} FilterBoth(q: Query, cursor: KeyCursor, s: seq<Record>)
    ensures Filter(WantedPast(q, cursor), s) == Filter(Past(OrderOf(q), cursor), Filter(Wanted(q), s))
  {
    if s != [] {
      hide RowMatches, PastCursor;
      var init, last := s[..|s| - 1], s[|s| - 1];
      FilterBoth(q, cursor, init);
      var kept := Filter(Wanted(q), init);
      assert (kept + [last])[..|kept|] == kept;
      assert kept + [] == kept;
    }
  }

  /** Selecting past the cursor is looking past the cursor in the full list. */
  lemma SelectIsPast(table: seq<Record>, q: Query, cursor: KeyCursor)
    requires UniqueIDs(table)
    ensures Chosen(OrderOf(q), WantedPast(q, cursor), table) ==
            Filter(Past(OrderOf(q), cursor), FullList(table, q))
  {
    hide SortRecords, Filter, UniqueIDs;
    FilterBoth(q, cursor, table);
    FilterKeepsUniqueIDs(Wanted(q), table);
    FilterThenSort(OrderOf(q), Past(OrderOf(q), cursor), Filter(Wanted(q), table));
  }

  // ------------------------------------------------------------------
  // A page by key is a page by position

  lemma FilterNone(p: Record -> bool, s: seq<Record>)
    requires forall r | r in s :: !p(r)
    ensures Filter(p, s) == []
  {
    FilterMembers(p, s);
    if Filter(p, s) != [] {
      assert Filter(p, s)[0] in s;
    }
  }

  lemma BehindIsPast(order: Order, s: seq<Record>, i: nat, r: Record)
    requires Sorted(order, s) && i < |s| && r in s[i + 1..]
    ensures PastCursor(order, KeyOf(s[i]), r)
  {
    var k :| i < k < |s| && s[k] == r;
    assert Precedes(order, s[i], s[k]);
  }

  lemma UpToIsNotPast(order: Order, s: seq<Record>, i: nat, r: Record)
    requires Sorted(order, s) && i < |s| && r in s[..i + 1]
    ensures !PastCursor(order, KeyOf(s[i]), r)
  {
    var k :| 0 <= k <= i && s[k] == r;
    PrecedesIsTotal(order, s[i], s[k]);
  }

  /** Past the key of the i-th record of a sorted list lie exactly the records after it. */
  lemma PastIsTheRest(order: Order, s: seq<Record>, i: nat)
    requires Sorted(order, s) && i < |s|
    ensures Filter(Past(order, KeyOf(s[i])), s) == s[i + 1..]
  {
    hide Sorted, PastCursor, Filter;
    var p := Past(order, KeyOf(s[i]));
    var front, back := s[..i + 1], s[i + 1..];
    assert s == front + back;
    FilterConcat(p, front, back);
    forall r | r in back
      ensures p(r)
    {
      BehindIsPast(order, s, i, r);
    }
    FilterAll(p, back);
    forall r | r in front
      ensures !p(r)
    {
      UpToIsNotPast(order, s, i, r);
    }
    FilterNone(p, front);
  }

  lemma NoCursorPassesAll(order: Order, cursor: KeyCursor, s: seq<Record>)
    requires !cursor.After?
    ensures Filter(Past(order, cursor), s) == s
  {
    FilterAll(Past(order, cursor), s);
  }

  /** The page without its key cursor: the audit id of the last record stands in for it. */
  function ByID(page: KeyPage): Page {
    Page(page.records, page.hasMore,
         if page.hasMore && page.records != [] then page.records[|page.records| - 1].auditID else "")
  }

  lemma FirstOfRest(list: seq<Record>, start: nat, limit: nat)
    requires start <= |list| && limit > 0
    ensures ByID(FirstOf(list[start..], limit)) == PageFrom(list, start, limit)
    ensures var page := FirstOf(list[start..], limit);
            page.hasMore ==> page.records != [] && page.next == KeyOf(page.records[|page.records| - 1])
  {
  }

  /** The page past the cursor is the page from the position behind it. */
  lemma NextKeyPage(table: seq<Record>, q: Query, i: nat)
    requires UniqueIDs(table) && i < |FullList(table, q)|
    ensures var list := FullList(table, q);
            var page := KeyListing(table, q, KeyOf(list[i]));
            && ByID(page) == PageFrom(list, i + 1, ClampLimit(q.limit))
            && (page.hasMore ==> page.records != [] && page.next == KeyOf(page.records[|page.records| - 1]))
  {
    var list, limit, order := FullList(table, q), ClampLimit(q.limit), OrderOf(q);
    ChosenIsSorted(order, Wanted(q), table);
    hide Chosen, FirstOf, PageFrom, Past, Filter, Sorted, ByID;
    PastIsTheRest(order, list, i);
    FirstOfRest(list, i + 1, limit);
  }

  lemma StartOfList(table: seq<Record>, q: Query, cursor: KeyCursor)
    requires !cursor.After?
    ensures var page := KeyListing(table, q, cursor);
            && ByID(page) == PageFrom(FullList(table, q), 0, ClampLimit(q.limit))
            && (page.hasMore ==> page.records != [] && page.next == KeyOf(page.records[|page.records| - 1]))
  {
    var list, limit := FullList(table, q), ClampLimit(q.limit);
    hide FullList, FirstOf, PageFrom, Past, Filter, ByID;
    NoCursorPassesAll(OrderOf(q), cursor, list);
    assert list[0..] == list;
    FirstOfRest(list, 0, limit);
  }

  /** The first page, also of an empty list, and the page after any record, by key and by position. */
  lemma PagesAgree(table: seq<Record>, q: Query)
    requires UniqueIDs(table)
    ensures var list, limit := FullList(table, q), ClampLimit(q.limit);
            && ByID(KeyListing(table, q, NoCursor)) == PageFrom(list, 0, limit)
            && ByID(KeyListing(table, q, Malformed)) == PageFrom(list, 0, limit)
            && (forall i | 0 <= i < |list| ::
                  ByID(KeyListing(table, q, KeyOf(list[i]))) == PageFrom(list, i + 1, limit))
  {
    hide FullList, KeyListing, PageFrom, ByID, UniqueIDs;
    StartOfList(table, q, NoCursor);
    StartOfList(table, q, Malformed);
    forall i | 0 <= i < |FullList(table, q)|
      ensures ByID(KeyListing(table, q, KeyOf(FullList(table, q)[i]))) ==
              PageFrom(FullList(table, q), i + 1, ClampLimit(q.limit))
    {
      NextKeyPage(table, q, i);
    }
  }

  /** With the ids that the stores draw, the file store's paging gives the same pages of the same list. */
  lemma StoresPageAlike(table: seq<Record>, q: Query, i: nat)
    requires GoodIDs(table)
    ensures var list, limit := FullList(table, q), ClampLimit(q.limit);
            && PageAfter(list, "", limit) == Success(ByID(KeyListing(table, q, NoCursor)))
            && (i < |list| ==>
                  PageAfter(list, list[i].auditID, limit) == Success(ByID(KeyListing(table, q, KeyOf(list[i])))))
  {
    var list, limit := FullList(table, q), ClampLimit(q.limit);
    PagesAgree(table, q);
    ChosenHasGoodIDs(OrderOf(q), Wanted(q), table);
    hide FullList, KeyListing, ByID, PageFrom, GoodIDs;
    if i < |list| {
      PageContinues(list, i + 1, limit);
    }
  }

  // ------------------------------------------------------------------
  // What is on a page

  /** Every page that List returns: oldest first for "asc", newest first otherwise; 50 records by default, 1000 at most. */
  lemma PageIsOrdered(table: seq<Record>, q: Query, cursor: KeyCursor)
    requires UniqueIDs(table)
    ensures var page := KeyListing(table, q, cursor);
            && (if q.sort == "asc" then OldestFirst(page.records) else NewestFirst(page.records))
            && |page.records| <= (if q.limit <= 0 then 50 else if q.limit > 1000 then 1000 else q.limit)
  {
    PageLiesPast(table, q, cursor);
    SortedMeans(OrderOf(q), KeyListing(table, q, cursor).records);
    hide FullList, Filter, NewestFirst, OldestFirst, Sorted;
  }

  /** Which rows a query is about: a filter that is given must equal the field. */
  lemma FullListIff(table: seq<Record>, q: Query, r: Record)
    requires UniqueIDs(table)
    ensures r in FullList(table, q) <==>
            && r in table
            && (q.actor == "" || r.details.actor == q.actor)
            && (q.result == "" || r.details.result == q.result)
            && (q.eventID == "" || r.details.eventID == q.eventID)
  {
    ChosenIsSorted(OrderOf(q), Wanted(q), table);
    FilterMembers(Wanted(q), table);
    hide Chosen, Filter, Sorted, UniqueIDs;
    assert r in FullList(table, q) <==> r in multiset(FullList(table, q));
    assert r in Filter(Wanted(q), table) <==> r in multiset(Filter(Wanted(q), table));
  }

  // ------------------------------------------------------------------
  // A client that follows the cursors

  function CursorAt(pages: seq<KeyPage>, n: nat): KeyCursor
    requires n <= |pages|
  {
    if n == 0 then NoCursor else pages[n - 1].next
  }

  /** Page `n` comes from table `n`; each page but the last has more. */
  ghost predicate KeyBrowses(tables: seq<seq<Record>>, q: Query, pages: seq<KeyPage>) {
    && |pages| == |tables| > 0
    && (forall n | 0 <= n < |tables| :: UniqueIDs(tables[n]) && pages[n] == KeyListing(tables[n], q, CursorAt(pages, n)))
    && (forall n | 0 <= n < |pages| - 1 :: pages[n].hasMore)
  }

  function KeyVisited(pages: seq<KeyPage>): seq<Record> {
    if pages == [] then [] else KeyVisited(pages[..|pages| - 1]) + pages[|pages| - 1].records
  }

  /** Between pages rows are only inserted, with keys above all that are there. */
  ghost predicate RowsGrow(tables: seq<seq<Record>>) {
    forall n | 0 < n < |tables| :: tables[n - 1] <= tables[n] && Above(tables[n - 1], tables[n][|tables[n - 1]|..])
  }

  lemma PageOfCall(tables: seq<seq<Record>>, q: Query, pages: seq<KeyPage>, n: nat)
    requires KeyBrowses(tables, q, pages) && n < |pages|
    ensures UniqueIDs(tables[n]) && pages[n] == KeyListing(tables[n], q, CursorAt(pages, n))
    ensures n > 0 ==> pages[n - 1].hasMore
  {
    hide KeyListing, UniqueIDs;
  }

  /** Where a client stands after `page`: on the list, with a key cursor that matches. */
  ghost predicate KeyProgress(list: seq<Record>, seen: seq<Record>, page: KeyPage, n: nat, limit: nat) {
    && Progress(list, seen, ByID(page), n, limit)
    && (page.hasMore ==> page.next == KeyOf(seen[|seen| - 1]))
  }

  lemma FirstKeyPage(table: seq<Record>, q: Query)
    requires UniqueIDs(table)
    ensures var page := KeyListing(table, q, NoCursor);
            KeyProgress(FullList(table, q), page.records, page, 1, ClampLimit(q.limit))
  {
    hide FullList, PageFrom, KeyListing, UniqueIDs;
    StartOfList(table, q, NoCursor);
    PageProgresses(FullList(table, q), [], 0, ClampLimit(q.limit));
    assert [] + KeyListing(table, q, NoCursor).records == KeyListing(table, q, NoCursor).records;
  }

  /** One turn over a list that grew in front or behind. */
  lemma KeyTurn(table: seq<Record>, q: Query, target: seq<Record>, seen: seq<Record>, page: KeyPage, n: nat)
    requires UniqueIDs(table) && n > 0
    requires var list := FullList(table, q); EndsWith(list, target) || target == list
    requires KeyProgress(target, seen, page, n, ClampLimit(q.limit)) && page.hasMore
    ensures var next := KeyListing(table, q, page.next);
            KeyProgress(target, seen + next.records, next, n + 1, ClampLimit(q.limit))
  {
    var list, limit := FullList(table, q), ClampLimit(q.limit);
    hide FullList, KeyListing, PageFrom, UniqueIDs;
    assert list == target ==> list[0..] == target;
    var skip := |list| - |target|;
    assert list[skip + |seen| - 1] == target[|seen| - 1];
    NextKeyPage(table, q, skip + |seen| - 1);
    PageBehindNews(list, target, |seen|, limit);
    PageProgresses(target, seen, n, limit);
  }

  lemma KeyVisitedOneMore(pages: seq<KeyPage>, n: nat)
    requires n < |pages|
    ensures KeyVisited(pages[..n + 1]) == KeyVisited(pages[..n]) + pages[n].records
    ensures n == 0 ==> KeyVisited(pages[..1]) == pages[0].records
  {
    assert pages[..n + 1][..n] == pages[..n];
  }

  lemma FullListGrows(tables: seq<seq<Record>>, q: Query, n: nat)
    requires RowsGrow(tables) && 0 < n < |tables| && UniqueIDs(tables[n])
    ensures var before, now := FullList(tables[n - 1], q), FullList(tables[n], q);
            if OrderOf(q).Asc? then before <= now else EndsWith(now, before)
  {
    hide Chosen, UniqueIDs, Above;
    ListGrows(OrderOf(q), Wanted(q), tables[n - 1], tables[n]);
  }

  lemma {:induction false} FullListKeepsEnd(tables: seq<seq<Record>>, q: Query, pages: seq<KeyPage>, n: nat)
    requires KeyBrowses(tables, q, pages) && RowsGrow(tables) && n < |tables| && OrderOf(q).Desc?
    ensures EndsWith(FullList(tables[n], q), FullList(tables[0], q))
  {
    hide FullList, UniqueIDs, KeyListing, RowsGrow;
    if n > 0 {
      FullListKeepsEnd(tables, q, pages, n - 1);
      PageOfCall(tables, q, pages, n);
      FullListGrows(tables, q, n);
    }
  }

  /** A descending client works through the list of the first call. */
  lemma {:induction false} KeyWalkDown(tables: seq<seq<Record>>, q: Query, pages: seq<KeyPage>, n: nat)
    requires KeyBrowses(tables, q, pages) && RowsGrow(tables) && OrderOf(q).Desc? && n < |pages|
    ensures KeyProgress(FullList(tables[0], q), KeyVisited(pages[..n + 1]), pages[n], n + 1, ClampLimit(q.limit))
  {
    hide KeyVisited, FullList, KeyListing, KeyProgress, UniqueIDs, EndsWith, RowsGrow;
    KeyVisitedOneMore(pages, n);
    PageOfCall(tables, q, pages, n);
    if n == 0 {
      FirstKeyPage(tables[0], q);
    } else {
      KeyWalkDown(tables, q, pages, n - 1);
      FullListKeepsEnd(tables, q, pages, n);
      KeyTurn(tables[n], q, FullList(tables[0], q), KeyVisited(pages[..n]), pages[n - 1], n);
    }
  }

  lemma LongerList(before: seq<Record>, now: seq<Record>, seen: seq<Record>, page: KeyPage, n: nat, limit: nat)
    requires before <= now && KeyProgress(before, seen, page, n, limit) && page.hasMore
    ensures KeyProgress(now, seen, page, n, limit)
  {
  }

  lemma KeyTurnUp(tables: seq<seq<Record>>, q: Query, seen: seq<Record>, page: KeyPage, n: nat)
    requires RowsGrow(tables) && 0 < n < |tables| && UniqueIDs(tables[n]) && OrderOf(q).Asc?
    requires KeyProgress(FullList(tables[n - 1], q), seen, page, n, ClampLimit(q.limit)) && page.hasMore
    ensures var next := KeyListing(tables[n], q, page.next);
            KeyProgress(FullList(tables[n], q), seen + next.records, next, n + 1, ClampLimit(q.limit))
  {
    hide FullList, KeyListing, KeyProgress, UniqueIDs, EndsWith;
    FullListGrows(tables, q, n);
    LongerList(FullList(tables[n - 1], q), FullList(tables[n], q), seen, page, n, ClampLimit(q.limit));
    KeyTurn(tables[n], q, FullList(tables[n], q), seen, page, n);
  }

  /** An ascending client works through the list of the latest call. */
  lemma {:induction false} KeyWalkUp(tables: seq<seq<Record>>, q: Query, pages: seq<KeyPage>, n: nat)
    requires KeyBrowses(tables, q, pages) && RowsGrow(tables) && OrderOf(q).Asc? && n < |pages|
    ensures KeyProgress(FullList(tables[n], q), KeyVisited(pages[..n + 1]), pages[n], n + 1, ClampLimit(q.limit))
  {
    hide KeyVisited, FullList, KeyListing, KeyProgress, UniqueIDs, EndsWith, RowsGrow;
    KeyVisitedOneMore(pages, n);
    PageOfCall(tables, q, pages, n);
    if n == 0 {
      FirstKeyPage(tables[0], q);
    } else {
      KeyWalkUp(tables, q, pages, n - 1);
      KeyTurnUp(tables, q, KeyVisited(pages[..n]), pages[n - 1], n);
    }
  }

  lemma FullListIsSorted(table: seq<Record>, q: Query)
    requires UniqueIDs(table)
    ensures Sorted(OrderOf(q), FullList(table, q))
  {
    hide Chosen, UniqueIDs, Sorted;
    ChosenIsSorted(OrderOf(q), Wanted(q), table);
  }

  lemma StandingOf(list: seq<Record>, seen: seq<Record>, page: KeyPage, n: nat, limit: nat)
    requires KeyProgress(list, seen, page, n, limit)
    ensures !page.hasMore ==> seen == list
    ensures page.hasMore ==> seen < list && |seen| == n * limit
  {
    assert seen == list[..|seen|];
    assert |seen| == |list| ==> list[..|seen|] == list;
  }

  /**
   Whoever calls List with the key cursors it returns, while rows with higher keys are
   inserted, sees exactly the matching records of the first call (descending) or of the
   last call (ascending), in order, and comes to an end.
   */
  lemma KeyBrowsingIsExact(tables: seq<seq<Record>>, q: Query, pages: seq<KeyPage>)
    requires KeyBrowses(tables, q, pages) && RowsGrow(tables)
    ensures var moment := if OrderOf(q).Desc? then tables[0] else tables[|tables| - 1];
            var target, seen := FullList(moment, q), KeyVisited(pages);
            && (!pages[|pages| - 1].hasMore ==> seen == target)
            && (pages[|pages| - 1].hasMore ==> seen < target && |seen| == |pages| * ClampLimit(q.limit))
  {
    hide KeyVisited, FullList, KeyListing, KeyProgress, UniqueIDs, RowsGrow;
    var n := |pages| - 1;
    if OrderOf(q).Desc? {
      KeyWalkDown(tables, q, pages, n);
      StandingOf(FullList(tables[0], q), KeyVisited(pages[..n + 1]), pages[n], n + 1, ClampLimit(q.limit));
    } else {
      KeyWalkUp(tables, q, pages, n);
      StandingOf(FullList(tables[n], q), KeyVisited(pages[..n + 1]), pages[n], n + 1, ClampLimit(q.limit));
    }
    assert pages[..n + 1] == pages;
  }

  // ------------------------------------------------------------------
  // Whatever else happens to the table

  /** All of a page lies past its cursor, and its own cursor is its last record. */
  lemma PageLiesPast(table: seq<Record>, q: Query, cursor: KeyCursor)
    requires UniqueIDs(table)
    ensures var page := KeyListing(table, q, cursor);
            && Sorted(OrderOf(q), page.records)
            && (forall r | r in page.records :: PastCursor(OrderOf(q), cursor, r))
            && (page.hasMore ==> page.records != [] && page.next == KeyOf(page.records[|page.records| - 1]))
  {
    hide FullList, PastCursor, UniqueIDs, Filter, Precedes;
    FullListIsSorted(table, q);
    FilterSorted(OrderOf(q), Past(OrderOf(q), cursor), FullList(table, q));
    FilterMembers(Past(OrderOf(q), cursor), FullList(table, q));
    var rest := Filter(Past(OrderOf(q), cursor), FullList(table, q));
    var page := KeyListing(table, q, cursor);
    assert forall r | r in page.records :: r in rest;
  }

  lemma PastMeansPreceded(order: Order, last: Record, r: Record)
    requires PastCursor(order, KeyOf(last), r)
    ensures Precedes(order, last, r)
  {
  }

  lemma SortedJoin(order: Order, a: seq<Record>, b: seq<Record>)
    requires Sorted(order, a) && Sorted(order, b) && a != []
    requires forall r | r in b :: Precedes(order, a[|a| - 1], r)
    ensures Sorted(order, a + b)
  {
    hide Precedes;
    forall i, j | 0 <= i < |a| && 0 <= j < |b|
      ensures Precedes(order, a[i], b[j])
    {
      assert b[j] in b;
      if i < |a| - 1 {
        PrecedesIsTransitive(order, a[i], a[|a| - 1], b[j]);
      }
    }
  }

  lemma {:induction false} KeysAscend(tables: seq<seq<Record>>, q: Query, pages: seq<KeyPage>, n: nat)
    requires KeyBrowses(tables, q, pages) && n < |pages|
    ensures var seen := KeyVisited(pages[..n + 1]);
            && Sorted(OrderOf(q), seen)
            && (pages[n].hasMore ==> seen != [] && pages[n].next == KeyOf(seen[|seen| - 1]))
  {
    hide KeyVisited, KeyListing, UniqueIDs, Sorted, PastCursor, Precedes, OrderOf;
    var order := OrderOf(q);
    KeyVisitedOneMore(pages, n);
    PageOfCall(tables, q, pages, n);
    PageLiesPast(tables[n], q, CursorAt(pages, n));
    if n > 0 {
      KeysAscend(tables, q, pages, n - 1);
      var seen := KeyVisited(pages[..n]);
      forall r | r in pages[n].records
        ensures Precedes(order, seen[|seen| - 1], r)
      {
        PastMeansPreceded(order, seen[|seen| - 1], r);
      }
      SortedJoin(order, seen, pages[n].records);
    }
  }

  /**
   Rows may be inserted anywhere, changed or deleted between the pages: a client that
   follows the key cursors still sees keys in strict order, so no record twice.
   */
  lemma KeyBrowsingNeverRepeats(tables: seq<seq<Record>>, q: Query, pages: seq<KeyPage>)
    requires KeyBrowses(tables, q, pages)
    ensures var seen := KeyVisited(pages);
            && Sorted(OrderOf(q), seen)
            && (forall i, j | 0 <= i < j < |seen| :: (seen[i].replayedAt, seen[i].auditID) != (seen[j].replayedAt, seen[j].auditID))
  {
    hide KeyVisited, KeyListing, UniqueIDs, Precedes;
    KeysAscend(tables, q, pages, |pages| - 1);
    assert pages[..|pages|] == pages;
    var seen := KeyVisited(pages);
    forall i, j | 0 <= i < j < |seen|
      ensures (seen[i].replayedAt, seen[i].auditID) != (seen[j].replayedAt, seen[j].auditID)
    {
      PrecedesIsTotal(OrderOf(q), seen[i], seen[j]);
    }
  }
}
