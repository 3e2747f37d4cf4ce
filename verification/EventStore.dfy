/**
 From queue messages to table rows (internal/eventstore/consumer.go,
 internal/eventstore/postgres_store.go, internal/eventstore/record.go).
 Delivery is at least once; the table has a unique message id.
 */
module EventStore {
  import opened Wrappers
  import opened Sequences
  import opened Text

  datatype Envelope = Envelope(source: string, headers: Option<map<string, string>>, body: seq<bv8>, bodyIsJSON: bool,
                               receivedAt: Option<int>, schema: string, schemaValue: int)

  const SCHEMA: string := "raw-webhook-envelope"
  const SCHEMA_VERSION: int := 1

  /** `parsed` is what the JSON decoder makes of the message data. */
  datatype Message = Message(id: string, parsed: Option<Envelope>, publishedAt: int, deliveryAttempt: Option<int>)

  datatype Record = Record(messageID: string, source: string, headers: map<string, string>, body: seq<bv8>,
                           receivedAt: int, publishedAt: int, deliveryAttempt: Option<int>)

  /** A stored row: its serial number and its content. */
  datatype Row = Row(id: nat, record: Record)

  datatype Table = Table(rows: seq<Row>, nextID: nat)

  datatype Error = InvalidRecord | DatabaseError

  /** The fate of the INSERT: executed and answered, refused, or committed with the answer lost. */
  datatype Database = Answered | Refused | AnswerLost

  datatype Reply = Ack | Nack

  predicate ValidEnvelope(e: Envelope) {
    && e.source != "" && e.schema == SCHEMA && e.schemaValue == SCHEMA_VERSION
    && e.receivedAt.Some? && e.body != [] && e.bodyIsJSON && e.headers.Some?
  }

  /** DecodeRawWebhookEnvelope: parse, then validate. */
  function Decoded(msg: Message): Option<Envelope> {
    if msg.parsed.Some? && ValidEnvelope(msg.parsed.value) then msg.parsed else None
  }

  /** The record that a message would be stored as. */
  function BuildRecord(msg: Message, e: Envelope): Option<Record> {
    var id := TrimSpace(msg.id);
    if id == "" || !ValidEnvelope(e) then None
    else Some(Record(id, e.source, e.headers.value, e.body, e.receivedAt.value, msg.publishedAt, msg.deliveryAttempt))
  }

  function MessageIDs(rows: seq<Row>): (ids: seq<string>)
    ensures |ids| == |rows|
    ensures forall i | 0 <= i < |rows| :: ids[i] == rows[i].record.messageID
  {
    seq(|rows|, i requires 0 <= i < |rows| => rows[i].record.messageID)
  }

  /** The position of the row of a message id, or the number of rows. */
  function RowOf(rows: seq<Row>, id: string): (i: nat)
    ensures i <= |rows|
    ensures i < |rows| ==> rows[i].record.messageID == id
    ensures forall k | 0 <= k < i :: rows[k].record.messageID != id
  {
    FirstIndex(MessageIDs(rows), id)
  }

  /** INSERT .. ON CONFLICT (message_id) keeping the row; the serial number is drawn either way. */
  function Inserted(t: Table, r: Record): Table {
    Table(if RowOf(t.rows, r.messageID) < |t.rows| then t.rows else t.rows + [Row(t.nextID, r)], t.nextID + 1)
  }

  class PostgresStore {
    var table: Table

    constructor ()
      ensures table == Table([], 1)
    {
      table := Table([], 1);
    }

    method Save(msg: Message, e: Envelope, database: Database) returns (r: Result<Row, Error>)
      modifies this
      ensures var record := BuildRecord(msg, e);
              table == if record.Some? && !database.Refused? then Inserted(old(table), record.value) else old(table)
      ensures r.Success? <==> BuildRecord(msg, e).Some? && database.Answered?
      ensures r.Success? ==> r.value in table.rows && r.value.record.messageID == TrimSpace(msg.id)
    {
      hide TrimSpace;
      var built := BuildRecord(msg, e);
      if built.None? {
        return Failure(InvalidRecord);
      }
      var record := built.value;
      if database == Refused {
        return Failure(DatabaseError);
      }
      var i := RowOf(table.rows, record.messageID);
      if i == |table.rows| {
        table := table.(rows := table.rows + [Row(table.nextID, record)]);
      }
      table := table.(nextID := table.nextID + 1);
      if database == AnswerLost {
        return Failure(DatabaseError);
      }
      return Success(table.rows[i]);
    }
  }

  class Consumer {
    const store: PostgresStore

    constructor (store: PostgresStore)
      ensures this.store == store
    {
      this.store := store;
    }

    method HandleMessage(msg: Message, database: Database) returns (reply: Reply)
      modifies store
      ensures store.table == TableAfter(old(store.table), Delivery(msg, database))
      ensures reply == ReplyTo(Delivery(msg, database))
    {
      hide TrimSpace;
      if msg.parsed.None? || !ValidEnvelope(msg.parsed.value) {
        return Ack;
      }
      var saved := store.Save(msg, msg.parsed.value, database);
      if saved.Failure? {
        return Nack;
      }
      return Ack;
    }
  }

  // ------------------------------------------------------------------
  // Runs of deliveries and redeliveries

  datatype Delivery = Delivery(msg: Message, database: Database)

  /** The record a delivery leads to, if its envelope and id are usable. */
  function RecordFor(msg: Message): Option<Record> {
    if Decoded(msg).None? then None else BuildRecord(msg, Decoded(msg).value)
  }

  function TableAfter(t: Table, d: Delivery): Table {
    var record := RecordFor(d.msg);
    if record.None? || d.database.Refused? then t else Inserted(t, record.value)
  }

  function ReplyTo(d: Delivery): Reply {
    if Decoded(d.msg).None? then Ack
    else if RecordFor(d.msg).Some? && d.database.Answered? then Ack
    else Nack
  }

  function After(run: seq<Delivery>): Table {
    if run == [] then Table([], 1) else TableAfter(After(run[..|run| - 1]), run[|run| - 1])
  }

  /** Delivery `d` committed a record for this message id, whether or not anyone heard of it. */
  predicate Commits(d: Delivery, id: string) {
    RecordFor(d.msg).Some? && RecordFor(d.msg).value.messageID == id && !d.database.Refused?
  }

  /** The position of the first delivery that commits for an id, or the length of the run. */
  function FirstCommit(run: seq<Delivery>, id: string): (k: nat)
    ensures k <= |run|
    ensures k < |run| ==> Commits(run[k], id)
    ensures forall i | 0 <= i < k :: !Commits(run[i], id)
  {
    if run == [] || Commits(run[0], id) then 0 else 1 + FirstCommit(run[1..], id)
  }

  lemma RowOfOneMore(rows: seq<Row>, row: Row, id: string)
    ensures RowOf(rows + [row], id) ==
            if RowOf(rows, id) < |rows| then RowOf(rows, id)
            else if row.record.messageID == id then |rows| else |rows| + 1
  {
    var more, i, j := rows + [row], RowOf(rows + [row], id), RowOf(rows, id);
    assert forall k | 0 <= k < |rows| :: more[k] == rows[k];
    assert more[|rows|] == row;
  }

  lemma FirstCommitOneMore(run: seq<Delivery>, d: Delivery, id: string)
    ensures FirstCommit(run + [d], id) ==
            if FirstCommit(run, id) < |run| then FirstCommit(run, id)
            else if Commits(d, id) then |run| else |run| + 1
  {
    hide Commits;
    var more, i, j := run + [d], FirstCommit(run + [d], id), FirstCommit(run, id);
    assert forall k | 0 <= k < |run| :: more[k] == run[k];
    assert more[|run|] == d;
  }

  /** A delivery adds the row of an id exactly when it commits for it and there was none. */
  lemma OneMoreDelivery(t: Table, d: Delivery, id: string)
    ensures var i, after := RowOf(t.rows, id), TableAfter(t, d).rows;
            if i < |t.rows| then RowOf(after, id) == i && i < |after| && after[i] == t.rows[i]
            else if Commits(d, id) then
              RowOf(after, id) == i < |after| && after[i].record == RecordFor(d.msg).value
            else RowOf(after, id) == |after|
  {
    hide RecordFor, RowOf;
    var record := RecordFor(d.msg);
    if record.Some? {
      RowOfOneMore(t.rows, Row(t.nextID, record.value), id);
      RowOfOneMore(t.rows, Row(t.nextID, record.value), record.value.messageID);
    }
  }

  /** The table, described by the run alone. */
  lemma {:induction false} RowIsFirstCommit(run: seq<Delivery>, id: string)
    ensures var rows, k := After(run).rows, FirstCommit(run, id);
            && (RowOf(rows, id) < |rows| <==> k < |run|)
            && (k < |run| ==> rows[RowOf(rows, id)].record == RecordFor(run[k].msg).value)
  {
    if run != [] {
      hide RecordFor, Commits, TableAfter;
      var init, d := run[..|run| - 1], run[|run| - 1];
      assert run == init + [d];
      RowIsFirstCommit(init, id);
      hide FirstCommit, RowOf;
      FirstCommitOneMore(init, d, id);
      OneMoreDelivery(After(init), d, id);
    }
  }

  ghost predicate UniqueMessageIDs(rows: seq<Row>) {
    forall i, j | 0 <= i < j < |rows| ::
      rows[i].record.messageID != rows[j].record.messageID && rows[i].id < rows[j].id
  }

  lemma {:induction false} RowsAreUnique(run: seq<Delivery>)
    ensures var t := After(run);
            && UniqueMessageIDs(t.rows)
            && (forall row | row in t.rows :: row.id < t.nextID)
  {
    if run != [] {
      hide RecordFor;
      RowsAreUnique(run[..|run| - 1]);
      var t := After(run[..|run| - 1]);
      assert forall i | 0 <= i < |t.rows| :: t.rows[i] in t.rows;
    }
  }

  /** Rows are only ever added. */
  lemma {:induction false} RowsPersist(run: seq<Delivery>, later: seq<Delivery>)
    ensures After(run).rows <= After(run + later).rows
  {
    if later == [] {
      assert run + later == run;
    } else {
      hide RecordFor;
      var init := later[..|later| - 1];
      RowsPersist(run, init);
      var all := run + later;
      assert all[..|all| - 1] == run + init;
    }
  }

  /**
   At most one row per trimmed message id.  It exists exactly when some delivery for
   the id committed, and holds what the first of them carried.
   */
  lemma ExactlyOneRow(run: seq<Delivery>, id: string)
    ensures var rows, k := After(run).rows, FirstCommit(run, id);
            && (forall i, j | 0 <= i < |rows| && 0 <= j < |rows|
                              && rows[i].record.messageID == id == rows[j].record.messageID :: i == j)
            && ((exists row | row in rows :: row.record.messageID == id) <==> k < |run|)
            && (forall row | row in rows && row.record.messageID == id ::
                  k < |run| && row.record == RecordFor(run[k].msg).value)
  {
    hide RecordFor, Commits;
    RowIsFirstCommit(run, id);
    RowsAreUnique(run);
    var rows := After(run).rows;
    forall row | row in rows && row.record.messageID == id
      ensures RowOf(rows, id) < |rows| && rows[RowOf(rows, id)] == row
    {
      var i :| 0 <= i < |rows| && rows[i] == row;
    }
  }

  /** An acked message has its row, then and ever after, unless its envelope was invalid. */
  lemma AckedMeansStored(run: seq<Delivery>, n: nat)
    requires n < |run| && ReplyTo(run[n]) == Ack
    ensures Decoded(run[n].msg).None? ||
            exists row | row in After(run).rows :: row.record.messageID == TrimSpace(run[n].msg.id)
  {
    if Decoded(run[n].msg).Some? {
      var id := TrimSpace(run[n].msg.id);
      assert Commits(run[n], id);
      ExactlyOneRow(run, id);
    }
  }

  /** A message with a valid envelope and a blank id can never be stored, and is never acked. */
  lemma BlankIDIsNeverAcked(msg: Message, database: Database)
    requires Decoded(msg).Some?
    ensures (forall db :: ReplyTo(Delivery(msg, db)) == Nack) <==> Blank(msg.id)
    ensures Blank(msg.id) ==> forall t :: TableAfter(t, Delivery(msg, database)) == t
  {
    assert !Blank(msg.id) ==> ReplyTo(Delivery(msg, Answered)) == Ack;
  }

  /** The record holds the fields of a valid message and its envelope, under the trimmed message id. */
  ghost predicate Carries(msg: Message, r: Record) {
    && msg.parsed.Some? && TrimSpace(msg.id) != ""
    && var e := msg.parsed.value;
       && e.source != "" && e.schema == "raw-webhook-envelope" && e.schemaValue == 1
       && e.receivedAt.Some? && e.body != [] && e.bodyIsJSON && e.headers.Some?
       && r == Record(TrimSpace(msg.id), e.source, e.headers.value, e.body, e.receivedAt.value,
                      msg.publishedAt, msg.deliveryAttempt)
  }

  lemma CommitCarries(d: Delivery, id: string)
    requires Commits(d, id)
    ensures !d.database.Refused? && Carries(d.msg, RecordFor(d.msg).value)
  {
    hide TrimSpace;
  }

  /** What a row holds comes from a delivery that the database took. */
  lemma RowCarriesMessage(run: seq<Delivery>, row: Row)
    requires row in After(run).rows
    ensures exists k | 0 <= k < |run| :: !run[k].database.Refused? && Carries(run[k].msg, row.record)
  {
    hide Carries, Commits, RecordFor, After;
    ExactlyOneRow(run, row.record.messageID);
    CommitCarries(run[FirstCommit(run, row.record.messageID)], row.record.messageID);
  }

  /** A message is acked exactly if its envelope is invalid, or it has an id and the database answered. */
  lemma AckIff(msg: Message, database: Database)
    ensures ReplyTo(Delivery(msg, database)) == Ack <==>
            var valid := msg.parsed.Some?
                         && var e := msg.parsed.value;
                            && e.source != "" && e.schema == "raw-webhook-envelope" && e.schemaValue == 1
                            && e.receivedAt.Some? && e.body != [] && e.bodyIsJSON && e.headers.Some?;
            !valid || (TrimSpace(msg.id) != "" && database == Answered)
  {
    hide TrimSpace;
  }
}
