/**
 Outbox rows and the writes a relay makes to them (outbox/outbox.go: Message; outbox/relay.go:
 publishOne, recordFailure).
 */
module OutboxTable {

  import opened Options

  type Time = int

  /** An auto-increment primary key. */
  datatype Id = Id(n: nat)

  datatype Row = Row(attempts: nat, publishedAt: Option<Time>, failedAt: Option<Time>)

  type Rows = map<Id, Row>

  const FRESH := Row(0, None, None)

  /** What `published_at IS NULL AND failed_at IS NULL` selects. */
  predicate Pending(row: Row) {
    row.publishedAt.None? && row.failedAt.None?
  }

  predicate Published(row: Row) {
    row.publishedAt.Some?
  }

  predicate Quarantined(row: Row) {
    row.failedAt.Some?
  }

  /** `maxAttempts` is 0 when messages are retried without limit. */
  datatype Config = Config(batchSize: nat, maxAttempts: nat, retention: int)

  function MarkedPublished(row: Row, now: Time): Row {
    row.(publishedAt := Some(now))
  }

  /** `attempts` is the count the relay read when it loaded the message. */
  function FailureRecorded(c: Config, row: Row, attempts: nat, now: Time): Row {
    if c.maxAttempts > 0 && attempts + 1 >= c.maxAttempts
    then row.(attempts := attempts + 1, failedAt := Some(now))
    else row.(attempts := attempts + 1)
  }

  /** A message as the relay loaded it. */
  datatype Message = Message(id: Id, attempts: nat)

  predicate Ascending(batch: seq<Message>) {
    forall i, j :: 0 <= i < j < |batch| ==> batch[i].id.n < batch[j].id.n
  }

  /** The message is a pending row, with the attempts it has now. */
  predicate Loaded(rows: Rows, m: Message) {
    m.id in rows && Pending(rows[m.id]) && m.attempts == rows[m.id].attempts
  }

  predicate AllLoaded(rows: Rows, batch: seq<Message>) {
    forall i :: 0 <= i < |batch| ==> Loaded(rows, batch[i])
  }

  predicate InBatch(batch: seq<Message>, id: Id) {
    exists i :: 0 <= i < |batch| && batch[i].id == id
  }

  /** The rows of a consistent table: never both published and quarantined, and with a limit on the
      attempts, short of it while pending and exactly at it when quarantined. */
  predicate RowSound(c: Config, row: Row) {
    && !(Published(row) && Quarantined(row))
    && (Quarantined(row) ==> c.maxAttempts > 0 && row.attempts == c.maxAttempts)
    && (c.maxAttempts > 0 && !Quarantined(row) ==> row.attempts < c.maxAttempts)
  }

  /** Either write turns a sound pending row into a sound row. */
  lemma {:induction false} WritesSound(c: Config, row: Row, now: Time)
    requires RowSound(c, row) && Pending(row)
    ensures RowSound(c, MarkedPublished(row, now)) && Published(MarkedPublished(row, now))
    ensures RowSound(c, FailureRecorded(c, row, row.attempts, now)) && !Published(FailureRecorded(c, row, row.attempts, now))
  {
  }

  // ----- Remaining attempts -----

  /** How many more times a row can be handed to the broker, given a limit. */
  function Remaining(c: Config, row: Row): nat {
    if Pending(row) && row.attempts < c.maxAttempts then c.maxAttempts - row.attempts else 0
  }

  ghost function Potential(c: Config, rows: Rows): nat
    decreases |rows|
  {
    if rows == map[] then 0
    else
      var id :| id in rows;
      Remaining(c, rows[id]) + Potential(c, rows - {id})
  }

  lemma {:induction false} PotentialAt(c: Config, rows: Rows, id: Id)
    requires id in rows
    ensures Potential(c, rows) == Remaining(c, rows[id]) + Potential(c, rows - {id})
    decreases |rows|
  {
    var first :| id in rows && first in rows
                 && Potential(c, rows) == Remaining(c, rows[first]) + Potential(c, rows - {first});
    if first != id {
      PotentialAt(c, rows - {first}, id);
      PotentialAt(c, rows - {id}, first);
      assert rows - {first} - {id} == rows - {id} - {first};
    }
  }

  lemma {:induction false} PotentialAfterWrite(c: Config, rows: Rows, id: Id, row: Row)
    ensures Potential(c, rows[id := row]) + (if id in rows then Remaining(c, rows[id]) else 0)
            == Potential(c, rows) + Remaining(c, row)
  {
    var rows' := rows[id := row];
    PotentialAt(c, rows', id);
    assert rows' - {id} == rows - {id};
    if id in rows {
      PotentialAt(c, rows, id);
    } else {
      assert rows - {id} == rows;
    }
  }

  lemma {:induction false} PotentialZero(c: Config, rows: Rows, id: Id)
    requires Potential(c, rows) == 0 && id in rows
    ensures Remaining(c, rows[id]) == 0
  {
    PotentialAt(c, rows, id);
  }

  /** Writes that each use up an attempt of a row use up as many in total as there are writes. */
  lemma {:induction false} PotentialFalls(c: Config, rows: Rows, writes: Rows)
    requires forall id :: id in writes ==> id in rows && Remaining(c, writes[id]) < Remaining(c, rows[id])
    ensures Potential(c, rows + writes) + |writes| <= Potential(c, rows)
    decreases |writes|
  {
    if writes == map[] {
      assert rows + writes == rows;
    } else {
      var id :| id in writes;
      var rest := writes - {id};
      PotentialFalls(c, rows, rest);
      assert rows + writes == (rows + rest)[id := writes[id]];
      PotentialAfterWrite(c, rows + rest, id, writes[id]);
      assert (rows + rest)[id] == rows[id];
      assert |writes| == |rest| + 1;
    }
  }

  /** Dropping rows never adds to what remains. */
  lemma {:induction false} PotentialOfFewer(c: Config, rows: Rows, gone: set<Id>)
    ensures Potential(c, rows - gone) <= Potential(c, rows)
    decreases |gone|
  {
    if gone == {} {
      assert rows - gone == rows;
    } else {
      var id :| id in gone;
      PotentialOfFewer(c, rows - {id}, gone - {id});
      assert rows - gone == rows - {id} - (gone - {id});
      if id in rows {
        PotentialAt(c, rows, id);
      } else {
        assert rows - {id} == rows;
      }
    }
  }
}
