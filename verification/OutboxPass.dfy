/**
 One relay pass as the code runs it (outbox/relay.go: publishOne, recordFailure, drain,
 publishPendingLocked, PublishPending, PrunePublished), and the proof that a pass on the locked path is
 a run of the protocol in OutboxRelay.

 What the broker, the database and the context do to a message is its `Outcome`. `log` is what the
 broker accepted, in order.
 */
module OutboxPass {

  import opened Options
  import opened OutboxTable
  import opened OutboxRelay

  /** `cancelled`: the context had ended when the loop reached the message. `taken`: the stored headers
      decode and Publish returned nil. `written`: the database write that follows succeeded. */
  datatype Outcome = Outcome(cancelled: bool, taken: bool, written: bool, at: Time)

  /** The row after publishOne, if its write succeeds. */
  function Settled(c: Config, row: Row, m: Message, o: Outcome): Row {
    if o.taken then MarkedPublished(row, o.at) else FailureRecorded(c, row, m.attempts, o.at)
  }

  /** UPDATE ... WHERE id = ?: a missing row is not created. */
  function Updated(c: Config, rows: Rows, m: Message, o: Outcome): Rows {
    if m.id in rows then rows[m.id := Settled(c, rows[m.id], m, o)] else rows
  }

  /** How many messages the loop hands to publishOne. */
  function Reached(outcomes: seq<Outcome>, stopOnWriteErr: bool): (n: nat)
    ensures n <= |outcomes|
    ensures forall i :: 0 <= i < n ==> !outcomes[i].cancelled
    ensures forall i :: 0 <= i < n - 1 && stopOnWriteErr ==> outcomes[i].written
    ensures n < |outcomes| ==> outcomes[n].cancelled || (stopOnWriteErr && n > 0 && !outcomes[n - 1].written)
  {
    if outcomes == [] || outcomes[0].cancelled then 0
    else if stopOnWriteErr && !outcomes[0].written then 1
    else 1 + Reached(outcomes[1..], stopOnWriteErr)
  }

  /** The pass stops with an error: cancelled, or a failed write on the transactional path. */
  predicate Fails(outcomes: seq<Outcome>, stopOnWriteErr: bool) {
    var n := Reached(outcomes, stopOnWriteErr);
    n < |outcomes| || (stopOnWriteErr && n > 0 && !outcomes[n - 1].written)
  }

  /** The loop stops at message `i`, or goes on with the rest. */
  lemma {:induction false} ReachedStep(outcomes: seq<Outcome>, i: nat, stopOnWriteErr: bool)
    requires i < |outcomes|
    ensures var n, rest := Reached(outcomes[i..], stopOnWriteErr), outcomes[i + 1..];
            if outcomes[i].cancelled then n == 0 && Fails(outcomes[i..], stopOnWriteErr)
            else if stopOnWriteErr && !outcomes[i].written then n == 1 && Fails(outcomes[i..], stopOnWriteErr)
            else n == 1 + Reached(rest, stopOnWriteErr) && Fails(outcomes[i..], stopOnWriteErr) == Fails(rest, stopOnWriteErr)
  {
    assert outcomes[i..][1..] == outcomes[i + 1..];
  }

  /** The table after publishOne on the first `n` messages. */
  function Drained(c: Config, rows: Rows, batch: seq<Message>, outcomes: seq<Outcome>, n: nat): Rows
    requires n <= |batch| == |outcomes|
  {
    if n == 0 then rows
    else
      var before := Drained(c, rows, batch, outcomes, n - 1);
      if outcomes[n - 1].written
      then Updated(c, before, batch[n - 1], outcomes[n - 1])
      else before
  }

  /** What the broker accepted of the first `n` messages. */
  function Taken(batch: seq<Message>, outcomes: seq<Outcome>, n: nat): seq<Id>
    requires n <= |batch| == |outcomes|
  {
    if n == 0 then []
    else Taken(batch, outcomes, n - 1) + if outcomes[n - 1].taken then [batch[n - 1].id] else []
  }

  /** How many of the first `n` messages were published and marked. */
  function Marked(outcomes: seq<Outcome>, n: nat): nat
    requires n <= |outcomes|
  {
    if n == 0 then 0
    else Marked(outcomes, n - 1) + if outcomes[n - 1].taken && outcomes[n - 1].written then 1 else 0
  }

  /** How COMMIT ends: done and acknowledged, not done, or done although the relay gets an error. */
  datatype CommitResult = Acknowledged | NotDone | AnswerLost

  class Relay {
    const c: Config
    var rows: Rows
    var log: seq<Id>

    constructor (c: Config, rows: Rows)
      ensures this.c == c && this.rows == rows && log == []
    {
      this.c := c;
      this.rows := rows;
      log := [];
    }

    method RecordFailure(m: Message, o: Outcome) returns (err: bool)
      modifies this`rows
      ensures err == !o.written
      ensures rows == if o.written && m.id in old(rows)
                      then old(rows)[m.id := FailureRecorded(c, old(rows)[m.id], m.attempts, o.at)]
                      else old(rows)
      ensures o.written && m.id in old(rows) ==>
                && rows[m.id].attempts == m.attempts + 1 && rows[m.id].publishedAt == old(rows)[m.id].publishedAt
                && rows[m.id].failedAt == (if c.maxAttempts > 0 && m.attempts + 1 >= c.maxAttempts then Some(o.at)
                                           else old(rows)[m.id].failedAt)
    {
      var attempts := m.attempts + 1;
      var quarantine := c.maxAttempts > 0 && attempts >= c.maxAttempts;
      if o.written && m.id in rows {
        var row := rows[m.id].(attempts := attempts);
        rows := rows[m.id := if quarantine then row.(failedAt := Some(o.at)) else row];
      }
      err := !o.written;
    }

    method PublishOne(m: Message, o: Outcome) returns (ok: bool, err: bool)
      modifies this
      ensures ok == (o.taken && o.written) && err == !o.written
      ensures log == old(log) + if o.taken then [m.id] else []
      ensures rows == if o.written then Updated(c, old(rows), m, o) else old(rows)
    {
      if !o.taken {
        err := RecordFailure(m, o);
        return false, err;
      }
      log := log + [m.id];
      if !o.written {
        return false, true;
      }
      if m.id in rows {
        rows := rows[m.id := rows[m.id].(publishedAt := Some(o.at))];
      }
      return true, false;
    }

    /** The loop over the batch, on either path. */
    method Drain(batch: seq<Message>, outcomes: seq<Outcome>, stopOnWriteErr: bool)
      returns (published: nat, err: bool)
      requires |outcomes| == |batch|
      modifies this
      ensures var n := Reached(outcomes, stopOnWriteErr);
              && rows == Drained(c, old(rows), batch, outcomes, n)
              && log == old(log) + Taken(batch, outcomes, n)
              && published == Marked(outcomes, n)
      ensures err == Fails(outcomes, stopOnWriteErr)
    {
      published := 0;
      var i := 0;
      while i < |batch|
        invariant i <= |batch|
        invariant Reached(outcomes, stopOnWriteErr) == i + Reached(outcomes[i..], stopOnWriteErr)
        invariant Fails(outcomes, stopOnWriteErr) == Fails(outcomes[i..], stopOnWriteErr)
        invariant rows == Drained(c, old(rows), batch, outcomes, i)
        invariant log == old(log) + Taken(batch, outcomes, i)
        invariant published == Marked(outcomes, i)
      {
        ReachedStep(outcomes, i, stopOnWriteErr);
        if outcomes[i].cancelled {
          return published, true;
        }
        var ok, failed := PublishOne(batch[i], outcomes[i]);
        if failed && stopOnWriteErr {
          return published, true;
        }
        if ok {
          published := published + 1;
        }
        i := i + 1;
      }
      err := false;
    }

    /** One pass in a transaction. `loaded` is the claimed batch, or None when the query fails; `commit` is
        what becomes of COMMIT. */
    method PublishPendingLocked(loaded: Option<seq<Message>>, outcomes: seq<Outcome>, commit: CommitResult)
      returns (published: nat, err: bool)
      requires loaded.Some? ==> |outcomes| == |loaded.value|
      modifies this
      ensures err == (loaded.None? || Fails(outcomes, true) || !commit.Acknowledged?)
      ensures log == old(log) + if loaded.None? then [] else Taken(loaded.value, outcomes, Reached(outcomes, true))
      ensures published == if err then 0 else Marked(outcomes, |outcomes|)
      ensures rows == if loaded.None? || Fails(outcomes, true) || commit.NotDone? then old(rows)
                      else Drained(c, old(rows), loaded.value, outcomes, |outcomes|)
    {
      var begun := rows;
      if loaded.None? {
        return 0, true;
      }
      published, err := Drain(loaded.value, outcomes, true);
      if err || commit.NotDone? {
        rows := begun;
        return 0, true;
      }
      if commit.AnswerLost? {
        return 0, true;
      }
    }

    /** One pass on the lock-free path: every write stands at once, and a failed one is skipped. */
    method PublishPendingUnlocked(loaded: Option<seq<Message>>, outcomes: seq<Outcome>)
      returns (published: nat, err: bool)
      requires loaded.Some? ==> |outcomes| == |loaded.value|
      modifies this
      ensures loaded.None? ==> err && published == 0 && rows == old(rows) && log == old(log)
      ensures loaded.Some? ==>
                var n := Reached(outcomes, false);
                && err == (n < |outcomes|)
                && published == Marked(outcomes, n)
                && rows == Drained(c, old(rows), loaded.value, outcomes, n)
                && log == old(log) + Taken(loaded.value, outcomes, n)
    {
      if loaded.None? {
        return 0, true;
      }
      published, err := Drain(loaded.value, outcomes, false);
    }

    /** `deleted` says whether the DELETE succeeds. */
    method PrunePublished(now: Time, deleted: bool) returns (n: nat, err: bool)
      modifies this`rows
      ensures err == (c.retention > 0 && !deleted)
      ensures rows.Keys <= old(rows).Keys && n == |old(rows)| - |rows|
      ensures forall id :: id in old(rows) ==>
                             (id !in rows <==> c.retention > 0 && deleted && Published(old(rows)[id])
                                               && old(rows)[id].publishedAt.value < now - c.retention)
      ensures forall id :: id in rows ==> rows[id] == old(rows)[id]
    {
      if c.retention <= 0 || !deleted {
        return 0, c.retention > 0;
      }
      var gone := set id | id in rows && Published(rows[id]) && rows[id].publishedAt.value < now - c.retention;
      assert (rows - gone).Keys == rows.Keys - gone;
      rows := rows - gone;
      n, err := |gone|, false;
    }
  }

  // ----- What a pass does to each row -----

  lemma {:induction false} DrainedElsewhere(c: Config, rows: Rows, batch: seq<Message>, outcomes: seq<Outcome>, n: nat, id: Id)
    requires n <= |batch| == |outcomes| && !InBatch(batch[..n], id)
    ensures var after := Drained(c, rows, batch, outcomes, n);
            (id in after <==> id in rows) && (id in rows ==> after[id] == rows[id])
  {
    if n > 0 {
      BatchGrows(batch, n - 1, id);
      DrainedElsewhere(c, rows, batch, outcomes, n - 1, id);
    }
  }

  lemma {:induction false} NotEarlier(batch: seq<Message>, i: nat)
    requires Ascending(batch) && i < |batch|
    ensures !InBatch(batch[..i], batch[i].id)
  {
    assert forall j :: 0 <= j < i ==> batch[..i][j].id.n < batch[i].id.n;
  }

  /** Each message of a pass is settled on its own: published exactly if the broker took it and its
      mark was written, otherwise with one more attempt, otherwise as it was. */
  lemma {:induction false} DrainedAt(c: Config, rows: Rows, batch: seq<Message>, outcomes: seq<Outcome>, n: nat, i: nat)
    requires i < n <= |batch| == |outcomes| && Ascending(batch) && batch[i].id in rows
    ensures batch[i].id in Drained(c, rows, batch, outcomes, n)
    ensures Drained(c, rows, batch, outcomes, n)[batch[i].id]
            == if outcomes[i].written then Settled(c, rows[batch[i].id], batch[i], outcomes[i]) else rows[batch[i].id]
  {
    if i < n - 1 {
      DrainedAt(c, rows, batch, outcomes, n - 1, i);
      assert batch[i].id.n < batch[n - 1].id.n;
    } else {
      NotEarlier(batch, i);
      DrainedElsewhere(c, rows, batch, outcomes, i, batch[i].id);
    }
  }

  lemma {:induction false} TakenIff(batch: seq<Message>, outcomes: seq<Outcome>, n: nat, i: nat)
    requires i < n <= |batch| == |outcomes| && Ascending(batch)
    ensures batch[i].id in Taken(batch, outcomes, n) <==> outcomes[i].taken
  {
    if i < n - 1 {
      TakenIff(batch, outcomes, n - 1, i);
      assert batch[i].id.n < batch[n - 1].id.n;
    } else {
      NotEarlier(batch, i);
      TakenInBatch(batch, outcomes, i, batch[i].id);
    }
  }

  lemma {:induction false} TakenInBatch(batch: seq<Message>, outcomes: seq<Outcome>, n: nat, id: Id)
    requires n <= |batch| == |outcomes| && !InBatch(batch[..n], id)
    ensures id !in Taken(batch, outcomes, n)
  {
    if n > 0 {
      BatchGrows(batch, n - 1, id);
      TakenInBatch(batch, outcomes, n - 1, id);
    }
  }

  /** A pass over pending messages loses no row, publishes only what the broker accepted during it,
      leaves every other row alone and counts the rows it newly published; a row is settled soundly or
      left pending. This holds of a pass cut short anywhere, on either path. */
  lemma {:induction false} PassIsSafe(c: Config, rows: Rows, batch: seq<Message>, outcomes: seq<Outcome>, n: nat)
    requires n <= |batch| == |outcomes| && Ascending(batch)
    requires AllLoaded(rows, batch)
    ensures var after := Drained(c, rows, batch, outcomes, n);
            && after.Keys == rows.Keys
            && (forall id :: id in rows && after[id] != rows[id] ==> InBatch(batch[..n], id) && Settles(c, rows[id], after[id]))
            && (forall id :: id in rows && Published(after[id]) && !Published(rows[id]) ==> id in Taken(batch, outcomes, n))
            && |PublishedIn(after)| == |PublishedIn(rows)| + Marked(outcomes, n)
  {
    forall id
      ensures id in Drained(c, rows, batch, outcomes, n) <==> id in rows
      ensures id in rows && Drained(c, rows, batch, outcomes, n)[id] != rows[id] ==>
                InBatch(batch[..n], id) && Settles(c, rows[id], Drained(c, rows, batch, outcomes, n)[id])
      ensures id in rows && Published(Drained(c, rows, batch, outcomes, n)[id]) && !Published(rows[id]) ==>
                id in Taken(batch, outcomes, n)
    {
      PassIsSafeAt(c, rows, batch, outcomes, n, id);
    }
    MarksCounted(c, rows, batch, outcomes, n);
  }

  lemma {:induction false} PassIsSafeAt(c: Config, rows: Rows, batch: seq<Message>, outcomes: seq<Outcome>, n: nat, id: Id)
    requires n <= |batch| == |outcomes| && Ascending(batch)
    requires AllLoaded(rows, batch)
    ensures var after := Drained(c, rows, batch, outcomes, n);
            && (id in after <==> id in rows)
            && (id in rows && after[id] != rows[id] ==> InBatch(batch[..n], id) && Settles(c, rows[id], after[id]))
            && (id in rows && Published(after[id]) && !Published(rows[id]) ==> id in Taken(batch, outcomes, n))
  {
    if InBatch(batch[..n], id) {
      var i :| 0 <= i < n && batch[..n][i].id == id;
      assert Loaded(rows, batch[i]);
      DrainedAt(c, rows, batch, outcomes, n, i);
      TakenIff(batch, outcomes, n, i);
    } else {
      DrainedElsewhere(c, rows, batch, outcomes, n, id);
    }
  }

  lemma {:induction false} MarksCounted(c: Config, rows: Rows, batch: seq<Message>, outcomes: seq<Outcome>, n: nat)
    requires n <= |batch| == |outcomes| && Ascending(batch)
    requires AllLoaded(rows, batch)
    ensures |PublishedIn(Drained(c, rows, batch, outcomes, n))| == |PublishedIn(rows)| + Marked(outcomes, n)
  {
    if n > 0 {
      MarksCounted(c, rows, batch, outcomes, n - 1);
      assert Loaded(rows, batch[n - 1]);
      NotEarlier(batch, n - 1);
      DrainedElsewhere(c, rows, batch, outcomes, n - 1, batch[n - 1].id);
      OneMoreMark(c, Drained(c, rows, batch, outcomes, n - 1), batch[n - 1], outcomes[n - 1]);
    }
  }

  lemma {:induction false} OneMoreMark(c: Config, rows: Rows, m: Message, o: Outcome)
    requires m.id in rows && Pending(rows[m.id])
    ensures |PublishedIn(rows[m.id := Settled(c, rows[m.id], m, o)])| == |PublishedIn(rows)| + if o.taken then 1 else 0
  {
    var after := rows[m.id := Settled(c, rows[m.id], m, o)];
    if o.taken {
      assert PublishedIn(after) == PublishedIn(rows) + {m.id};
    } else {
      assert PublishedIn(after) == PublishedIn(rows);
    }
  }

  // ----- A locked pass is a run of the protocol -----

  /** The clock never goes back. */
  predicate Timely(now: Time, outcomes: seq<Outcome>) {
    && (forall i :: 0 <= i < |outcomes| ==> now <= outcomes[i].at)
    && (forall i, j :: 0 <= i < j < |outcomes| ==> outcomes[i].at <= outcomes[j].at)
  }

  /** What the clock showed when message `k` was reached. */
  function Clock(now: Time, outcomes: seq<Outcome>, k: nat): Time
    requires k <= |outcomes|
  {
    if k == 0 then now else outcomes[k - 1].at
  }

  /** The first `n` messages were settled, each not before the one ahead of it. */
  predicate Clean(now: Time, outcomes: seq<Outcome>, n: nat)
    requires n <= |outcomes|
  {
    n == 0 || (Clean(now, outcomes, n - 1) && outcomes[n - 1].written && Clock(now, outcomes, n - 1) <= outcomes[n - 1].at)
  }

  lemma {:induction false} CleanWhenTimely(now: Time, outcomes: seq<Outcome>, n: nat)
    requires n <= |outcomes| && Timely(now, outcomes) && forall i :: 0 <= i < n ==> outcomes[i].written
    ensures Clean(now, outcomes, n)
    decreases n
  {
    if n > 0 {
      CleanWhenTimely(now, outcomes, n - 1);
    }
  }

  /** The protocol steps that settle one message. */
  ghost function MessageSteps(r: nat, o: Outcome): seq<Event> {
    if o.taken then [Accept(r), Tick(o.at), Mark(r)] else [Tick(o.at), Refuse(r)]
  }

  ghost function Steps(r: nat, outcomes: seq<Outcome>, n: nat): seq<Event>
    requires n <= |outcomes|
  {
    if n == 0 then [] else Steps(r, outcomes, n - 1) + MessageSteps(r, outcomes[n - 1])
  }

  ghost function Tallied(accepts: map<Id, nat>, ids: seq<Id>): map<Id, nat> {
    if ids == [] then accepts
    else
      var before := Tallied(accepts, ids[..|ids| - 1]);
      before[ids[|ids| - 1] := Count(before, ids[|ids| - 1]) + 1]
  }

  ghost function Buffered(c: Config, rows: Rows, batch: seq<Message>, outcomes: seq<Outcome>, n: nat): Rows
    requires n <= |batch| == |outcomes| && AllLoaded(rows, batch)
  {
    if n == 0 then map[]
    else Buffered(c, rows, batch, outcomes, n - 1)[batch[n - 1].id := Settled(c, rows[batch[n - 1].id], batch[n - 1], outcomes[n - 1])]
  }

  /** The protocol state when relay `r` has settled `n` messages of the batch it claimed in `s`. */
  ghost function Midway(c: Config, s: System, r: nat, batch: seq<Message>, outcomes: seq<Outcome>, n: nat): System
    requires n <= |batch| == |outcomes| && r < |s.relays| && AllLoaded(s.rows, batch)
  {
    s.(relays := s.relays[r := Active(batch, n, Buffered(c, s.rows, batch, outcomes, n), false, Marked(outcomes, n))],
       now := Clock(s.now, outcomes, n),
       accepts := Tallied(s.accepts, Taken(batch, outcomes, n)))
  }

  lemma {:induction false} TalliedOne(accepts: map<Id, nat>, ids: seq<Id>, id: Id)
    ensures Tallied(accepts, ids + [id]) == Tallied(accepts, ids)[id := Count(Tallied(accepts, ids), id) + 1]
  {
    assert (ids + [id])[..|ids|] == ids;
  }

  lemma {:induction false} Overwritten<T>(xs: seq<T>, i: nat, first: T, second: T)
    requires i < |xs|
    ensures xs[i := first][i := second] == xs[i := second]
  {
  }

  /** The protocol state once the clock shows message `n`'s time. */
  ghost function Arrived(c: Config, s: System, r: nat, batch: seq<Message>, outcomes: seq<Outcome>, n: nat): System
    requires n < |batch| == |outcomes| && r < |s.relays| && AllLoaded(s.rows, batch)
  {
    Midway(c, s, r, batch, outcomes, n).(now := outcomes[n].at)
  }

  /** The protocol state once the broker has taken message `n`; `at` is the clock. */
  ghost function Handed(c: Config, s: System, r: nat, batch: seq<Message>, outcomes: seq<Outcome>, n: nat, at: Time): System
    requires n < |batch| == |outcomes| && r < |s.relays| && AllLoaded(s.rows, batch)
  {
    var p := Active(batch, n, Buffered(c, s.rows, batch, outcomes, n), true, Marked(outcomes, n));
    s.(relays := s.relays[r := p], now := at,
       accepts := Tallied(s.accepts, Taken(batch, outcomes, n) + [batch[n].id]))
  }

  lemma {:induction false} TickStep(c: Config, s: System, r: nat, batch: seq<Message>, outcomes: seq<Outcome>, k: nat)
    requires AllLoaded(s.rows, batch) && r < |s.relays| && k < |batch| == |outcomes| && Clock(s.now, outcomes, k) <= outcomes[k].at
    ensures Enabled(c, Midway(c, s, r, batch, outcomes, k), Tick(outcomes[k].at))
    ensures Apply(c, Midway(c, s, r, batch, outcomes, k), Tick(outcomes[k].at)) == Arrived(c, s, r, batch, outcomes, k)
  {
  }

  lemma {:induction false} AcceptStep(c: Config, s: System, r: nat, batch: seq<Message>, outcomes: seq<Outcome>, k: nat)
    requires AllLoaded(s.rows, batch) && r < |s.relays| && k < |batch| == |outcomes|
    ensures Enabled(c, Midway(c, s, r, batch, outcomes, k), Accept(r))
    ensures Apply(c, Midway(c, s, r, batch, outcomes, k), Accept(r))
            == Handed(c, s, r, batch, outcomes, k, Midway(c, s, r, batch, outcomes, k).now)
  {
    var p := Active(batch, k, Buffered(c, s.rows, batch, outcomes, k), false, Marked(outcomes, k));
    TalliedOne(s.accepts, Taken(batch, outcomes, k), batch[k].id);
    Overwritten(s.relays, r, p, p.(accepted := true));
  }

  lemma {:induction false} MarkStep(c: Config, s: System, r: nat, batch: seq<Message>, outcomes: seq<Outcome>, k: nat)
    requires AllLoaded(s.rows, batch) && r < |s.relays| && k < |batch| == |outcomes| && outcomes[k].taken && outcomes[k].written
    ensures Enabled(c, Handed(c, s, r, batch, outcomes, k, outcomes[k].at), Mark(r))
    ensures Apply(c, Handed(c, s, r, batch, outcomes, k, outcomes[k].at), Mark(r)) == Midway(c, s, r, batch, outcomes, k + 1)
  {
    var p := Active(batch, k, Buffered(c, s.rows, batch, outcomes, k), true, Marked(outcomes, k));
    var row := MarkedPublished(s.rows[batch[k].id], outcomes[k].at);
    Overwritten(s.relays, r, p, Advanced(p, row));
  }

  lemma {:induction false} RefuseStep(c: Config, s: System, r: nat, batch: seq<Message>, outcomes: seq<Outcome>, k: nat)
    requires AllLoaded(s.rows, batch) && r < |s.relays| && k < |batch| == |outcomes| && !outcomes[k].taken && outcomes[k].written
    ensures Enabled(c, Arrived(c, s, r, batch, outcomes, k), Refuse(r))
    ensures Apply(c, Arrived(c, s, r, batch, outcomes, k), Refuse(r)) == Midway(c, s, r, batch, outcomes, k + 1)
  {
    var p := Active(batch, k, Buffered(c, s.rows, batch, outcomes, k), false, Marked(outcomes, k));
    var row := FailureRecorded(c, s.rows[batch[k].id], batch[k].attempts, outcomes[k].at);
    Overwritten(s.relays, r, p, Advanced(p, row));
    assert Taken(batch, outcomes, k + 1) == Taken(batch, outcomes, k);
  }

  /** One message the broker refuses: from one settled point of the pass to the next. */
  lemma {:induction false} RefusedRun(c: Config, relays: nat, now: Time, run: seq<Event>, s: System, r: nat,
                   batch: seq<Message>, outcomes: seq<Outcome>, k: nat)
    requires AllLoaded(s.rows, batch) && r < |s.relays| && k < |batch| == |outcomes| && Clock(s.now, outcomes, k) <= outcomes[k].at
    requires Valid(c, relays, now, run) && After(c, relays, now, run) == Midway(c, s, r, batch, outcomes, k)
    requires outcomes[k].written && !outcomes[k].taken
    ensures Valid(c, relays, now, run + [Tick(outcomes[k].at), Refuse(r)])
    ensures After(c, relays, now, run + [Tick(outcomes[k].at), Refuse(r)]) == Midway(c, s, r, batch, outcomes, k + 1)
  {
    TickStep(c, s, r, batch, outcomes, k);
    RefuseStep(c, s, r, batch, outcomes, k);
    ExtendedTwice(c, relays, now, run, Tick(outcomes[k].at), Refuse(r));
  }

  /** One message the broker takes, before its mark. */
  lemma {:induction false} HandedRun(c: Config, relays: nat, now: Time, run: seq<Event>, s: System, r: nat,
                  batch: seq<Message>, outcomes: seq<Outcome>, k: nat)
    requires AllLoaded(s.rows, batch) && r < |s.relays| && k < |batch| == |outcomes|
    requires Valid(c, relays, now, run) && After(c, relays, now, run) == Midway(c, s, r, batch, outcomes, k)
    ensures Valid(c, relays, now, run + [Accept(r)])
    ensures After(c, relays, now, run + [Accept(r)])
            == Handed(c, s, r, batch, outcomes, k, Midway(c, s, r, batch, outcomes, k).now)
  {
    AcceptStep(c, s, r, batch, outcomes, k);
    Extended(c, relays, now, run, Accept(r));
  }

  /** Its mark, at its time. */
  lemma {:induction false} MarkedRun(c: Config, relays: nat, now: Time, handed: seq<Event>, s: System, r: nat,
                  batch: seq<Message>, outcomes: seq<Outcome>, k: nat, at: Time)
    requires AllLoaded(s.rows, batch) && r < |s.relays| && k < |batch| == |outcomes| && at <= outcomes[k].at
    requires Valid(c, relays, now, handed) && After(c, relays, now, handed) == Handed(c, s, r, batch, outcomes, k, at)
    requires outcomes[k].written && outcomes[k].taken
    ensures Valid(c, relays, now, handed + [Tick(outcomes[k].at), Mark(r)])
    ensures After(c, relays, now, handed + [Tick(outcomes[k].at), Mark(r)]) == Midway(c, s, r, batch, outcomes, k + 1)
  {
    MarkStep(c, s, r, batch, outcomes, k);
    ExtendedTwice(c, relays, now, handed, Tick(outcomes[k].at), Mark(r));
  }

  /** ... and with it. */
  lemma {:induction false} TakenRun(c: Config, relays: nat, now: Time, run: seq<Event>, s: System, r: nat,
                 batch: seq<Message>, outcomes: seq<Outcome>, k: nat)
    requires AllLoaded(s.rows, batch) && r < |s.relays| && k < |batch| == |outcomes| && Clock(s.now, outcomes, k) <= outcomes[k].at
    requires Valid(c, relays, now, run) && After(c, relays, now, run) == Midway(c, s, r, batch, outcomes, k)
    requires outcomes[k].written && outcomes[k].taken
    ensures Valid(c, relays, now, run + [Accept(r), Tick(outcomes[k].at), Mark(r)])
    ensures After(c, relays, now, run + [Accept(r), Tick(outcomes[k].at), Mark(r)]) == Midway(c, s, r, batch, outcomes, k + 1)
  {
    var handed := run + [Accept(r)];
    TickStep(c, s, r, batch, outcomes, k);
    HandedRun(c, relays, now, run, s, r, batch, outcomes, k);
    MarkedRun(c, relays, now, handed, s, r, batch, outcomes, k, Midway(c, s, r, batch, outcomes, k).now);
    assert handed + [Tick(outcomes[k].at), Mark(r)] == run + [Accept(r), Tick(outcomes[k].at), Mark(r)];
  }

  lemma {:induction false} ClaimRun(c: Config, relays: nat, now: Time, run: seq<Event>, s: System, r: nat,
                 batch: seq<Message>, outcomes: seq<Outcome>)
    requires Valid(c, relays, now, run) && s == After(c, relays, now, run) && Enabled(c, s, Claim(r, batch))
    requires |batch| == |outcomes|
    ensures Valid(c, relays, now, run + [Claim(r, batch)])
    ensures After(c, relays, now, run + [Claim(r, batch)]) == Midway(c, s, r, batch, outcomes, 0)
  {
    Extended(c, relays, now, run, Claim(r, batch));
  }

  lemma {:induction false} MessageRun(c: Config, relays: nat, now: Time, run: seq<Event>, s: System, r: nat,
                   batch: seq<Message>, outcomes: seq<Outcome>, k: nat)
    requires AllLoaded(s.rows, batch) && r < |s.relays| && k < |batch| == |outcomes| && Clock(s.now, outcomes, k) <= outcomes[k].at
    requires Valid(c, relays, now, run) && After(c, relays, now, run) == Midway(c, s, r, batch, outcomes, k)
    requires outcomes[k].written
    ensures Valid(c, relays, now, run + MessageSteps(r, outcomes[k]))
    ensures After(c, relays, now, run + MessageSteps(r, outcomes[k])) == Midway(c, s, r, batch, outcomes, k + 1)
  {
    if outcomes[k].taken {
      TakenRun(c, relays, now, run, s, r, batch, outcomes, k);
    } else {
      RefusedRun(c, relays, now, run, s, r, batch, outcomes, k);
    }
  }

  lemma {:induction false} Joined(a: seq<Event>, b: seq<Event>, c: seq<Event>)
    ensures a + (b + c) == a + b + c
  {
  }

  /** `run` leads to the middle of the pass that began in `s`, with `n` messages settled. */
  ghost predicate LeadsTo(c: Config, relays: nat, now: Time, run: seq<Event>, s: System, r: nat,
                          batch: seq<Message>, outcomes: seq<Outcome>, n: nat)
    requires r < |s.relays| && n <= |batch| == |outcomes| && AllLoaded(s.rows, batch)
  {
    Valid(c, relays, now, run) && After(c, relays, now, run) == Midway(c, s, r, batch, outcomes, n)
  }

  lemma {:induction false} CleanAt(now: Time, outcomes: seq<Outcome>, n: nat, k: nat)
    requires k < n <= |outcomes| && Clean(now, outcomes, n)
    ensures outcomes[k].written && Clock(now, outcomes, k) <= outcomes[k].at
    decreases n
  {
    if k < n - 1 {
      CleanAt(now, outcomes, n - 1, k);
    }
  }

  lemma {:induction false} NextStepsRun(c: Config, relays: nat, now: Time, run: seq<Event>, s: System, r: nat,
                     batch: seq<Message>, outcomes: seq<Outcome>, k: nat)
    requires AllLoaded(s.rows, batch) && r < |s.relays| && k < |batch| == |outcomes|
    requires outcomes[k].written && Clock(s.now, outcomes, k) <= outcomes[k].at
    requires LeadsTo(c, relays, now, run + Steps(r, outcomes, k), s, r, batch, outcomes, k)
    ensures LeadsTo(c, relays, now, run + Steps(r, outcomes, k + 1), s, r, batch, outcomes, k + 1)
  {
    MessageRun(c, relays, now, run + Steps(r, outcomes, k), s, r, batch, outcomes, k);
    Joined(run, Steps(r, outcomes, k), MessageSteps(r, outcomes[k]));
  }

  /** Settling the first `n` messages is a run. */
  lemma {:induction false} StepsRun(c: Config, relays: nat, now: Time, run: seq<Event>, s: System, r: nat,
                                    batch: seq<Message>, outcomes: seq<Outcome>, n: nat)
    requires AllLoaded(s.rows, batch) && r < |s.relays| && n <= |batch| == |outcomes| && Clean(s.now, outcomes, n)
    requires LeadsTo(c, relays, now, run, s, r, batch, outcomes, 0)
    ensures LeadsTo(c, relays, now, run + Steps(r, outcomes, n), s, r, batch, outcomes, n)
  {
    assert run + Steps(r, outcomes, 0) == run;
    for k := 0 to n
      invariant LeadsTo(c, relays, now, run + Steps(r, outcomes, k), s, r, batch, outcomes, k)
    {
      CleanAt(s.now, outcomes, n, k);
      NextStepsRun(c, relays, now, run, s, r, batch, outcomes, k);
    }
  }

  /** Committing the buffered writes makes the table the loop leaves behind. */
  lemma {:induction false} BufferedIsDrained(c: Config, rows: Rows, batch: seq<Message>, outcomes: seq<Outcome>, n: nat)
    requires n <= |batch| == |outcomes| && Ascending(batch) && AllLoaded(rows, batch)
    requires forall i :: 0 <= i < n ==> outcomes[i].written
    ensures rows + Buffered(c, rows, batch, outcomes, n) == Drained(c, rows, batch, outcomes, n)
  {
    if n > 0 {
      BufferedIsDrained(c, rows, batch, outcomes, n - 1);
      NotEarlier(batch, n - 1);
      DrainedElsewhere(c, rows, batch, outcomes, n - 1, batch[n - 1].id);
    }
  }

  lemma {:induction false} SettlingUsesAttempt(c: Config, rows: Rows, m: Message, o: Outcome)
    requires c.maxAttempts > 0 && Loaded(rows, m) && RowSound(c, rows[m.id])
    ensures Remaining(c, Settled(c, rows[m.id], m, o)) < Remaining(c, rows[m.id])
  {
  }

  lemma {:induction false} BufferedSize(c: Config, rows: Rows, batch: seq<Message>, outcomes: seq<Outcome>, n: nat)
    requires n <= |batch| == |outcomes| && Ascending(batch) && AllLoaded(rows, batch)
    ensures |Buffered(c, rows, batch, outcomes, n)| == n
    decreases n
  {
    if n > 0 {
      BufferedSize(c, rows, batch, outcomes, n - 1);
      NotEarlier(batch, n - 1);
      BufferedElsewhere(c, rows, batch, outcomes, n - 1, batch[n - 1].id);
    }
  }

  lemma {:induction false} BufferedElsewhere(c: Config, rows: Rows, batch: seq<Message>, outcomes: seq<Outcome>, n: nat, id: Id)
    requires n <= |batch| == |outcomes| && AllLoaded(rows, batch) && !InBatch(batch[..n], id)
    ensures id !in Buffered(c, rows, batch, outcomes, n)
    decreases n
  {
    if n > 0 {
      BatchGrows(batch, n - 1, id);
      BufferedElsewhere(c, rows, batch, outcomes, n - 1, id);
    }
  }

  lemma {:induction false} BufferedUsesAttempts(c: Config, rows: Rows, batch: seq<Message>, outcomes: seq<Outcome>, n: nat, id: Id)
    requires n <= |batch| == |outcomes| && AllLoaded(rows, batch)
    requires c.maxAttempts > 0 && forall x :: x in rows ==> RowSound(c, rows[x])
    requires id in Buffered(c, rows, batch, outcomes, n)
    ensures id in rows && Remaining(c, Buffered(c, rows, batch, outcomes, n)[id]) < Remaining(c, rows[id])
  {
    assert Loaded(rows, batch[n - 1]);
    if id == batch[n - 1].id {
      SettlingUsesAttempt(c, rows, batch[n - 1], outcomes[n - 1]);
    } else {
      BufferedUsesAttempts(c, rows, batch, outcomes, n - 1, id);
    }
  }

  /** On either path, a pass whose writes succeed uses up at least one attempt of each message, whether
      or not the broker took any; so even against a dead broker the queue empties. */
  lemma {:induction false} PassUsesAttempts(c: Config, rows: Rows, batch: seq<Message>, outcomes: seq<Outcome>)
    requires |batch| == |outcomes| && Ascending(batch) && AllLoaded(rows, batch)
    requires c.maxAttempts > 0 && forall id :: id in rows ==> RowSound(c, rows[id])
    requires forall i :: 0 <= i < |outcomes| ==> outcomes[i].written
    ensures Potential(c, Drained(c, rows, batch, outcomes, |batch|)) + |batch| <= Potential(c, rows)
  {
    BufferedIsDrained(c, rows, batch, outcomes, |batch|);
    BufferedSize(c, rows, batch, outcomes, |batch|);
    forall id | id in Buffered(c, rows, batch, outcomes, |batch|)
      ensures id in rows && Remaining(c, Buffered(c, rows, batch, outcomes, |batch|)[id]) < Remaining(c, rows[id])
    {
      BufferedUsesAttempts(c, rows, batch, outcomes, |batch|, id);
    }
    PotentialFalls(c, rows, Buffered(c, rows, batch, outcomes, |batch|));
  }

  /** How many messages a pass settles: all it reached, but for one whose write failed. */
  ghost function SettledCount(outcomes: seq<Outcome>): (k: nat)
    ensures k <= |outcomes| && forall i :: 0 <= i < k ==> outcomes[i].written
  {
    var n := Reached(outcomes, true);
    if n > 0 && !outcomes[n - 1].written then n - 1 else n
  }

  /** How the pass ends: COMMIT, or a roll-back where the context ended, where a write failed (after the
      broker took the message, or not), or at COMMIT. */
  ghost function Ending(r: nat, outcomes: seq<Outcome>, commit: CommitResult): seq<Event> {
    var n, k := Reached(outcomes, true), SettledCount(outcomes);
    if k < n && outcomes[k].taken then [Accept(r), Abort(r)]
    else if k == |outcomes| && !commit.NotDone? then [Commit(r, commit.Acknowledged?)]
    else [Abort(r)]
  }

  /** The protocol's account of a whole pass. */
  ghost function PassRun(r: nat, batch: seq<Message>, outcomes: seq<Outcome>, commit: CommitResult): seq<Event>
  {
    [Claim(r, batch)] + Steps(r, outcomes, SettledCount(outcomes)) + Ending(r, outcomes, commit)
  }

  /** `s'` is what the pass makes of `s`, by the code's account. */
  ghost predicate PassResult(c: Config, s: System, s': System, batch: seq<Message>, outcomes: seq<Outcome>, commit: CommitResult)
    requires |outcomes| == |batch|
  {
    var err := Fails(outcomes, true) || !commit.Acknowledged?;
    && s'.rows == (if Fails(outcomes, true) || commit.NotDone? then s.rows else Drained(c, s.rows, batch, outcomes, |outcomes|))
    && s'.accepts == Tallied(s.accepts, Taken(batch, outcomes, Reached(outcomes, true)))
    && s'.returned == s.returned + (if err then 0 else Marked(outcomes, |outcomes|))
  }

  /** A pass that stops after settling `n` messages, by COMMIT or by roll-back. */
  lemma {:induction false} PassEnds(c: Config, relays: nat, now: Time, run: seq<Event>, s: System, r: nat,
                 batch: seq<Message>, outcomes: seq<Outcome>, n: nat, last: Event)
    requires AllLoaded(s.rows, batch) && Ascending(batch) && r < |s.relays| && n <= |batch| == |outcomes|
    requires Valid(c, relays, now, run) && After(c, relays, now, run) == Midway(c, s, r, batch, outcomes, n)
    requires forall i :: 0 <= i < n ==> outcomes[i].written
    requires last == Abort(r) || ((last == Commit(r, true) || last == Commit(r, false)) && n == |batch|)
    ensures Valid(c, relays, now, run + [last])
    ensures var s' := After(c, relays, now, run + [last]);
            && s'.accepts == Tallied(s.accepts, Taken(batch, outcomes, n))
            && s'.rows == (if last.Commit? then Drained(c, s.rows, batch, outcomes, n) else s.rows)
            && s'.returned == s.returned + (if last.Commit? && last.told then Marked(outcomes, n) else 0)
  {
    EndingApplied(c, s, r, batch, outcomes, n, last);
    Extended(c, relays, now, run, last);
  }

  lemma {:induction false} EndingApplied(c: Config, s: System, r: nat, batch: seq<Message>, outcomes: seq<Outcome>, n: nat, last: Event)
    requires AllLoaded(s.rows, batch) && Ascending(batch) && r < |s.relays| && n <= |batch| == |outcomes|
    requires forall i :: 0 <= i < n ==> outcomes[i].written
    requires last == Abort(r) || ((last == Commit(r, true) || last == Commit(r, false)) && n == |batch|)
    ensures Enabled(c, Midway(c, s, r, batch, outcomes, n), last)
    ensures var s' := Apply(c, Midway(c, s, r, batch, outcomes, n), last);
            && s'.accepts == Tallied(s.accepts, Taken(batch, outcomes, n))
            && s'.rows == (if last.Commit? then Drained(c, s.rows, batch, outcomes, n) else s.rows)
            && s'.returned == s.returned + (if last.Commit? && last.told then Marked(outcomes, n) else 0)
  {
    BufferedIsDrained(c, s.rows, batch, outcomes, n);
  }

  /** A pass whose write for message `k` fails after the broker took the message. */
  lemma {:induction false} MarkFails(c: Config, relays: nat, now: Time, run: seq<Event>, s: System, r: nat,
                  batch: seq<Message>, outcomes: seq<Outcome>, k: nat)
    requires AllLoaded(s.rows, batch) && r < |s.relays| && k < |batch| == |outcomes|
    requires Valid(c, relays, now, run) && After(c, relays, now, run) == Midway(c, s, r, batch, outcomes, k)
    requires outcomes[k].taken
    ensures Valid(c, relays, now, run + [Accept(r), Abort(r)])
    ensures var s' := After(c, relays, now, run + [Accept(r), Abort(r)]);
            && s'.accepts == Tallied(s.accepts, Taken(batch, outcomes, k + 1))
            && s'.rows == s.rows && s'.returned == s.returned
  {
    var handed := run + [Accept(r)];
    HandedRun(c, relays, now, run, s, r, batch, outcomes, k);
    Extended(c, relays, now, handed, Abort(r));
    assert handed + [Abort(r)] == run + [Accept(r), Abort(r)];
  }

  lemma {:induction false} TakenBySettled(batch: seq<Message>, outcomes: seq<Outcome>)
    requires |batch| == |outcomes|
    ensures var n, k := Reached(outcomes, true), SettledCount(outcomes);
            k == n || !outcomes[k].taken ==> Taken(batch, outcomes, n) == Taken(batch, outcomes, k)
  {
  }

  /** The pass ends after the messages it settled. */
  lemma {:induction false} PlainEndingRun(c: Config, relays: nat, now: Time, run: seq<Event>, s: System, r: nat,
                                          batch: seq<Message>, outcomes: seq<Outcome>, commit: CommitResult)
    requires AllLoaded(s.rows, batch) && Ascending(batch) && r < |s.relays| && |batch| == |outcomes|
    requires Valid(c, relays, now, run)
    requires After(c, relays, now, run) == Midway(c, s, r, batch, outcomes, SettledCount(outcomes))
    requires SettledCount(outcomes) < Reached(outcomes, true) ==> !outcomes[SettledCount(outcomes)].taken
    ensures Valid(c, relays, now, run + Ending(r, outcomes, commit))
    ensures PassResult(c, s, After(c, relays, now, run + Ending(r, outcomes, commit)), batch, outcomes, commit)
  {
    var k := SettledCount(outcomes);
    var last := if k == |outcomes| && !commit.NotDone? then Commit(r, commit.Acknowledged?) else Abort(r);
    PassEnds(c, relays, now, run, s, r, batch, outcomes, k, last);
    assert Ending(r, outcomes, commit) == [last];
    PlainResult(c, s, After(c, relays, now, run + [last]), batch, outcomes, commit, k, last);
  }

  lemma {:induction false} PlainResult(c: Config, s: System, s': System, batch: seq<Message>, outcomes: seq<Outcome>,
                                       commit: CommitResult, k: nat, last: Event)
    requires |batch| == |outcomes| && k == SettledCount(outcomes)
    requires k < Reached(outcomes, true) ==> !outcomes[k].taken
    requires last.Commit? || last.Abort?
    requires last.Commit? <==> k == |outcomes| && !commit.NotDone?
    requires last.Commit? ==> last.told == commit.Acknowledged?
    requires s'.accepts == Tallied(s.accepts, Taken(batch, outcomes, k))
    requires s'.rows == if last.Commit? then Drained(c, s.rows, batch, outcomes, k) else s.rows
    requires s'.returned == s.returned + if last.Commit? && last.told then Marked(outcomes, k) else 0
    ensures PassResult(c, s, s', batch, outcomes, commit)
  {
    TakenBySettled(batch, outcomes);
  }

  /** The pass ends because the mark of a message the broker took could not be written. */
  lemma {:induction false} UnmarkedEndingRun(c: Config, relays: nat, now: Time, run: seq<Event>, s: System, r: nat,
                                             batch: seq<Message>, outcomes: seq<Outcome>, commit: CommitResult)
    requires AllLoaded(s.rows, batch) && r < |s.relays| && |batch| == |outcomes|
    requires Valid(c, relays, now, run)
    requires After(c, relays, now, run) == Midway(c, s, r, batch, outcomes, SettledCount(outcomes))
    requires SettledCount(outcomes) < Reached(outcomes, true) && outcomes[SettledCount(outcomes)].taken
    ensures Valid(c, relays, now, run + Ending(r, outcomes, commit))
    ensures PassResult(c, s, After(c, relays, now, run + Ending(r, outcomes, commit)), batch, outcomes, commit)
  {
    var k := SettledCount(outcomes);
    UnmarkedStops(outcomes);
    assert Ending(r, outcomes, commit) == [Accept(r), Abort(r)];
    MarkFails(c, relays, now, run, s, r, batch, outcomes, k);
    UnmarkedResult(c, s, After(c, relays, now, run + [Accept(r), Abort(r)]), batch, outcomes, commit, k);
  }

  lemma {:induction false} UnmarkedResult(c: Config, s: System, s': System, batch: seq<Message>, outcomes: seq<Outcome>,
                                          commit: CommitResult, k: nat)
    requires k < |batch| == |outcomes| && Reached(outcomes, true) == k + 1 && Fails(outcomes, true)
    requires s'.accepts == Tallied(s.accepts, Taken(batch, outcomes, k + 1)) && s'.rows == s.rows && s'.returned == s.returned
    ensures PassResult(c, s, s', batch, outcomes, commit)
  {
  }

  lemma {:induction false} UnmarkedStops(outcomes: seq<Outcome>)
    requires SettledCount(outcomes) < Reached(outcomes, true)
    ensures Reached(outcomes, true) == SettledCount(outcomes) + 1 && Fails(outcomes, true)
  {
  }

  lemma {:induction false} EndingRun(c: Config, relays: nat, now: Time, run: seq<Event>, s: System, r: nat,
                                     batch: seq<Message>, outcomes: seq<Outcome>, commit: CommitResult)
    requires AllLoaded(s.rows, batch) && Ascending(batch) && r < |s.relays| && |batch| == |outcomes|
    requires Valid(c, relays, now, run)
    requires After(c, relays, now, run) == Midway(c, s, r, batch, outcomes, SettledCount(outcomes))
    ensures Valid(c, relays, now, run + Ending(r, outcomes, commit))
    ensures PassResult(c, s, After(c, relays, now, run + Ending(r, outcomes, commit)), batch, outcomes, commit)
  {
    var k := SettledCount(outcomes);
    if k < Reached(outcomes, true) && outcomes[k].taken {
      UnmarkedEndingRun(c, relays, now, run, s, r, batch, outcomes, commit);
    } else {
      PlainEndingRun(c, relays, now, run, s, r, batch, outcomes, commit);
    }
  }

  /** Whatever the broker, the database and the context do, a locked pass is a run of the protocol: the
      same rows are committed, the same messages accepted by the broker and the same count returned.
      With the results on every run of the protocol, this is why the code loses nothing and publishes
      twice only after a roll-back. */
  lemma {:induction false} LockedPassIsARun(c: Config, relays: nat, now: Time, run: seq<Event>, s: System, r: nat,
                         batch: seq<Message>, outcomes: seq<Outcome>, commit: CommitResult)
    requires Valid(c, relays, now, run) && s == After(c, relays, now, run) && Enabled(c, s, Claim(r, batch))
    requires |outcomes| == |batch| && Timely(s.now, outcomes)
    ensures Valid(c, relays, now, run + PassRun(r, batch, outcomes, commit))
    ensures PassResult(c, s, After(c, relays, now, run + PassRun(r, batch, outcomes, commit)), batch, outcomes, commit)
  {
    var steps, ending := Steps(r, outcomes, SettledCount(outcomes)), Ending(r, outcomes, commit);
    ClaimRun(c, relays, now, run, s, r, batch, outcomes);
    CleanWhenTimely(s.now, outcomes, SettledCount(outcomes));
    StepsRun(c, relays, now, run + [Claim(r, batch)], s, r, batch, outcomes, SettledCount(outcomes));
    EndingRun(c, relays, now, run + [Claim(r, batch)] + steps, s, r, batch, outcomes, commit);
    Joined(run, [Claim(r, batch)], steps);
    Joined(run, [Claim(r, batch)] + steps, ending);
  }
}
