/**
 The outbox table read off the events alone (outbox/relay.go: publishOne, recordFailure, PrunePublished).

 Which messages were taken or refused, and when, is collected from the events of each pass and counts once
 the pass commits. A row's attempts, its two time stamps and whether it is still there are functions of that
 history; the writes of the protocol are not mentioned.
 */
module OutboxHistory {

  import opened Options
  import opened OutboxTable
  import opened OutboxRelay

  /** The broker took or refused message `id` at time `at`. */
  datatype Verdict = Verdict(id: Id, took: bool, at: Time)

  // ----- From the events -----

  ghost function ClockAfter(now: Time, run: seq<Event>): Time {
    if run == [] then now
    else if run[|run| - 1].Tick? then run[|run| - 1].to
    else ClockAfter(now, run[..|run| - 1])
  }

  predicate EndsPass(e: Event, r: nat) {
    (e.Commit? || e.Abort?) && e.r == r
  }

  /** The batch of the pass relay `r` is making. */
  ghost function BatchOf(run: seq<Event>, r: nat): seq<Message> {
    if run == [] then []
    else
      var e := run[|run| - 1];
      if e.Claim? && e.r == r then e.batch
      else if EndsPass(e, r) then []
      else BatchOf(run[..|run| - 1], r)
  }

  /** What became of the messages of that pass so far. */
  ghost function Trail(now: Time, run: seq<Event>, r: nat): seq<Verdict> {
    if run == [] then []
    else
      var p, e := run[..|run| - 1], run[|run| - 1];
      var t, batch := Trail(now, p, r), BatchOf(p, r);
      if (e.Claim? && e.r == r) || EndsPass(e, r) then []
      else if (e.Mark? || e.Refuse?) && e.r == r && |t| < |batch| then t + [Verdict(batch[|t|].id, e.Mark?, ClockAfter(now, p))]
      else t
  }

  /** What became of the messages of the passes that committed. */
  ghost function History(now: Time, run: seq<Event>): seq<Verdict> {
    if run == [] then []
    else
      var p, e := run[..|run| - 1], run[|run| - 1];
      History(now, p) + if e.Commit? then Trail(now, p, e.r) else []
  }

  function Refusals(h: seq<Verdict>, id: Id): nat {
    if h == [] then 0
    else Refusals(h[..|h| - 1], id) + if h[|h| - 1].id == id && !h[|h| - 1].took then 1 else 0
  }

  /** When the broker last took, or last refused, message `id`. */
  function LastTime(h: seq<Verdict>, id: Id, took: bool): Option<Time> {
    if h == [] then None
    else if h[|h| - 1].id == id && h[|h| - 1].took == took then Some(h[|h| - 1].at)
    else LastTime(h[..|h| - 1], id, took)
  }

  /** The row of a message with this history. */
  function RowOf(c: Config, h: seq<Verdict>, id: Id): Row {
    Row(Refusals(h, id), LastTime(h, id, true),
        if c.maxAttempts > 0 && Refusals(h, id) >= c.maxAttempts then LastTime(h, id, false) else None)
  }

  /** Some prune found the message published longer ago than the retention. */
  ghost predicate Gone(c: Config, now: Time, run: seq<Event>, id: Id) {
    run != [] &&
    var p, e := run[..|run| - 1], run[|run| - 1];
    var published := LastTime(History(now, p), id, true);
    Gone(c, now, p, id) || (e.Prune? && published.Some? && published.value < ClockAfter(now, p) - c.retention)
  }

  // ----- One more verdict -----

  function SettledAs(c: Config, row: Row, v: Verdict): Row {
    if v.took then MarkedPublished(row, v.at) else FailureRecorded(c, row, row.attempts, v.at)
  }

  lemma {:induction false} RowOfNext(c: Config, h: seq<Verdict>, v: Verdict, id: Id)
    ensures v.id != id ==> RowOf(c, h + [v], id) == RowOf(c, h, id)
    ensures v.id == id && Pending(RowOf(c, h, id)) && (c.maxAttempts > 0 ==> Refusals(h, id) < c.maxAttempts) ==>
              RowOf(c, h + [v], id) == SettledAs(c, RowOf(c, h, id), v)
  {
    assert (h + [v])[..|h|] == h;
  }

  lemma {:induction false} RowOfOthers(c: Config, h: seq<Verdict>, t: seq<Verdict>, id: Id)
    requires forall i :: 0 <= i < |t| ==> t[i].id != id
    ensures RowOf(c, h + t, id) == RowOf(c, h, id)
    decreases |t|
  {
    if t == [] {
      assert h + t == h;
    } else {
      var p, v := t[..|t| - 1], t[|t| - 1];
      RowOfOthers(c, h, p, id);
      RowOfNext(c, h + p, v, id);
      assert h + t == h + p + [v];
    }
  }

  /** A pass has one verdict on a message. */
  lemma {:induction false} RowOfOnce(c: Config, h: seq<Verdict>, t: seq<Verdict>, i: nat)
    requires i < |t| && Pending(RowOf(c, h, t[i].id)) && (c.maxAttempts > 0 ==> Refusals(h, t[i].id) < c.maxAttempts)
    requires forall j :: 0 <= j < |t| && j != i ==> t[j].id != t[i].id
    ensures RowOf(c, h + t, t[i].id) == SettledAs(c, RowOf(c, h, t[i].id), t[i])
  {
    var id, a, b := t[i].id, t[..i], t[i + 1..];
    RowOfOthers(c, h, a, id);
    RowOfNext(c, h + a, t[i], id);
    RowOfOthers(c, h + a + [t[i]], b, id);
    assert h + t == h + a + [t[i]] + b;
  }

  // ----- Passes -----

  /** The pass's state is what its events say. */
  ghost predicate PassTold(c: Config, rows: Rows, p: Pass, batch: seq<Message>, t: seq<Verdict>) {
    if p.Idle? then t == []
    else
      && batch == p.batch && |t| == p.done <= |p.batch|
      && forall i :: 0 <= i < |t| ==> VerdictWritten(c, rows, p, t[i], i)
  }

  ghost predicate VerdictWritten(c: Config, rows: Rows, p: Pass, v: Verdict, i: nat)
    requires p.Active? && i < |p.batch|
  {
    && v.id == p.batch[i].id && v.id in rows && v.id in p.writes
    && p.writes[v.id] == SettledAs(c, rows[v.id], v)
  }

  ghost predicate PassesTold(c: Config, now: Time, run: seq<Event>, s: System) {
    forall r :: 0 <= r < |s.relays| ==> PassTold(c, s.rows, s.relays[r], BatchOf(run, r), Trail(now, run, r))
  }

  /** The table is what the committed history says. */
  ghost predicate RowsTold(c: Config, now: Time, run: seq<Event>, s: System) {
    && (forall id :: id in s.rows ==> s.rows[id] == RowOf(c, History(now, run), id))
    && (forall i :: 0 <= i < |History(now, run)| ==> History(now, run)[i].id in s.enqueued)
  }

  lemma {:induction false} SamePass(c: Config, rows: Rows, rows': Rows, p: Pass, batch: seq<Message>, t: seq<Verdict>)
    requires PassTold(c, rows, p, batch, t)
    requires forall id :: Locked(p, id) ==> id in rows && id in rows' && rows'[id] == rows[id]
    ensures PassTold(c, rows', p, batch, t)
  {
    if p.Active? {
      forall i | 0 <= i < |t|
        ensures VerdictWritten(c, rows', p, t[i], i)
      {
        assert VerdictWritten(c, rows, p, t[i], i);
        assert Locked(p, t[i].id);
      }
    }
  }

  /** An event that is not relay `r`'s leaves the rows it has locked. */
  lemma {:induction false} LockedRowKept(c: Config, s: System, e: Event, r: nat, id: Id)
    requires TableInv(c, s) && PassesInv(c, s) && Enabled(c, s, e) && r < |s.relays| && Locked(s.relays[r], id)
    requires e.Commit? ==> e.r != r
    ensures id in s.rows && id in Apply(c, s, e).rows && Apply(c, s, e).rows[id] == s.rows[id]
  {
    assert !Free(s, id);
    LockedIsPending(c, s, id);
    if e.Commit? && id in s.relays[e.r].writes {
      WritesLocked(c, s, e.r, id);
    }
  }

  lemma {:induction false} MessageTold(c: Config, s: System, e: Event, r: nat, batch: seq<Message>, t: seq<Verdict>, at: Time)
    requires PassesInv(c, s) && Enabled(c, s, e) && (e == Mark(r) || e == Refuse(r)) && at == s.now
    requires PassTold(c, s.rows, s.relays[r], batch, t)
    ensures |t| < |batch|
    ensures PassTold(c, s.rows, Apply(c, s, e).relays[r], batch, t + [Verdict(batch[|t|].id, e.Mark?, at)])
  {
    var p, p' := s.relays[r], Apply(c, s, e).relays[r];
    assert PassInv(c, s.rows, p);
    var t' := t + [Verdict(batch[|t|].id, e.Mark?, at)];
    assert Loaded(s.rows, p.batch[p.done]);
    forall i | 0 <= i < |t'|
      ensures VerdictWritten(c, s.rows, p', t'[i], i)
    {
      if i < |t| {
        assert VerdictWritten(c, s.rows, p, t[i], i);
        assert p.batch[i].id.n < p.batch[p.done].id.n;
      }
    }
  }

  /** A relay that neither claims, settles a message nor ends its pass. */
  lemma {:induction false} PassIdles(c: Config, s: System, e: Event, r: nat, batch: seq<Message>, t: seq<Verdict>)
    requires TableInv(c, s) && PassesInv(c, s) && Enabled(c, s, e) && r < |s.relays|
    requires PassTold(c, s.rows, s.relays[r], batch, t)
    requires !((e.Mark? || e.Refuse? || e.Claim?) && e.r == r) && !EndsPass(e, r)
    ensures PassTold(c, Apply(c, s, e).rows, Apply(c, s, e).relays[r], batch, t)
  {
    var s' := Apply(c, s, e);
    forall id | Locked(s.relays[r], id)
      ensures id in s.rows && id in s'.rows && s'.rows[id] == s.rows[id]
    {
      LockedRowKept(c, s, e, r, id);
    }
    SamePass(c, s.rows, s'.rows, s.relays[r], batch, t);
  }

  /** The events of one relay after one more event of the run. */
  lemma {:induction false} PassStep(c: Config, now: Time, p: seq<Event>, e: Event, s: System, r: nat)
    requires TableInv(c, s) && PassesInv(c, s) && Enabled(c, s, e) && r < |s.relays| && s.now == ClockAfter(now, p)
    requires PassTold(c, s.rows, s.relays[r], BatchOf(p, r), Trail(now, p, r))
    ensures var s' := Apply(c, s, e);
            PassTold(c, s'.rows, s'.relays[r], BatchOf(p + [e], r), Trail(now, p + [e], r))
  {
    assert (p + [e])[..|p|] == p;
    if (e.Mark? || e.Refuse?) && e.r == r {
      MessageTold(c, s, e, r, BatchOf(p, r), Trail(now, p, r), s.now);
    } else if !(e.Claim? && e.r == r) && !EndsPass(e, r) {
      PassIdles(c, s, e, r, BatchOf(p, r), Trail(now, p, r));
    }
  }

  // ----- Rows -----

  lemma {:induction false} UnknownUntouched(c: Config, h: seq<Verdict>, id: Id)
    requires forall i :: 0 <= i < |h| ==> h[i].id != id
    ensures RowOf(c, h, id) == FRESH
  {
    RowOfOthers(c, [], h, id);
    assert [] + h == h;
  }

  /** A verdict of the pass that commits is on a row as the history has it. */
  lemma {:induction false} CommittedRow(c: Config, s: System, r: nat, h: seq<Verdict>, t: seq<Verdict>, id: Id)
    requires TableInv(c, s) && PassesInv(c, s) && Working(s, r) && s.relays[r].done == |s.relays[r].batch|
    requires PassTold(c, s.rows, s.relays[r], s.relays[r].batch, t)
    requires id in s.rows && s.rows[id] == RowOf(c, h, id)
    ensures (s.rows + s.relays[r].writes)[id] == RowOf(c, h + t, id)
  {
    var p := s.relays[r];
    assert PassInv(c, s.rows, p);
    assert p.batch[..p.done] == p.batch;
    if id in p.writes {
      var i :| 0 <= i < |p.batch| && p.batch[i].id == id;
      assert VerdictWritten(c, s.rows, p, t[i], i) && Loaded(s.rows, p.batch[i]);
      forall j | 0 <= j < |t| && j != i
        ensures t[j].id != t[i].id
      {
        assert VerdictWritten(c, s.rows, p, t[j], j);
        assert if i < j then p.batch[i].id.n < p.batch[j].id.n else p.batch[j].id.n < p.batch[i].id.n;
      }
      RowOfOnce(c, h, t, i);
    } else {
      forall j | 0 <= j < |t|
        ensures t[j].id != id
      {
        assert VerdictWritten(c, s.rows, p, t[j], j);
      }
      RowOfOthers(c, h, t, id);
    }
  }

  lemma {:induction false} CommitRows(c: Config, now: Time, p: seq<Event>, r: nat, told: bool, s: System)
    requires TableInv(c, s) && PassesInv(c, s) && Enabled(c, s, Commit(r, told))
    requires PassesTold(c, now, p, s) && RowsTold(c, now, p, s)
    ensures RowsTold(c, now, p + [Commit(r, told)], Apply(c, s, Commit(r, told)))
  {
    var run, s' := p + [Commit(r, told)], Apply(c, s, Commit(r, told));
    var h, t := History(now, p), Trail(now, p, r);
    assert run[..|p|] == p && History(now, run) == h + t;
    assert PassTold(c, s.rows, s.relays[r], BatchOf(p, r), t);
    forall id | id in s'.rows
      ensures s'.rows[id] == RowOf(c, h + t, id)
    {
      if id in s.relays[r].writes {
        WritesLocked(c, s, r, id);
      }
      CommittedRow(c, s, r, h, t, id);
    }
    forall i | 0 <= i < |h + t|
      ensures (h + t)[i].id in s.enqueued
    {
      if i >= |h| {
        assert VerdictWritten(c, s.rows, s.relays[r], t[i - |h|], i - |h|);
      }
    }
  }

  lemma {:induction false} RowsStep(c: Config, now: Time, p: seq<Event>, e: Event, s: System)
    requires TableInv(c, s) && PassesInv(c, s) && Enabled(c, s, e)
    requires PassesTold(c, now, p, s) && RowsTold(c, now, p, s)
    ensures RowsTold(c, now, p + [e], Apply(c, s, e))
  {
    var run, s' := p + [e], Apply(c, s, e);
    assert run[..|p|] == p;
    if e.Commit? {
      CommitRows(c, now, p, e.r, e.told, s);
    } else {
      assert History(now, run) == History(now, p) + [] == History(now, p);
      if e.Enqueue? {
        UnknownUntouched(c, History(now, p), e.id);
      }
    }
  }

  /** In every run: the clock, every pass and every row are what the events say. */
  lemma {:induction false} RunTold(c: Config, relays: nat, now: Time, run: seq<Event>, s: System)
    requires Valid(c, relays, now, run) && s == After(c, relays, now, run)
    ensures s.now == ClockAfter(now, run) && PassesTold(c, now, run, s) && RowsTold(c, now, run, s)
    decreases |run|
  {
    if run != [] {
      var p, e := run[..|run| - 1], run[|run| - 1];
      var s0 := After(c, relays, now, p);
      assert run == p + [e];
      RunTold(c, relays, now, p, s0);
      EveryRun(c, relays, now, p);
      RowsStep(c, now, p, e, s0);
      forall r | 0 <= r < |s.relays|
        ensures PassTold(c, s.rows, s.relays[r], BatchOf(run, r), Trail(now, run, r))
      {
        PassStep(c, now, p, e, s0, r);
      }
    }
  }

  // ----- Results -----

  /** The row of a message is a function of the events: its attempts are the refusals that were committed, it
      is published at the time the broker took it, and it is given up exactly when the refusals reach the
      limit, at the time of the last. A refused message is therefore tried exactly `maxAttempts` times, and
      without a limit it is never given up. */
  lemma {:induction false} RowsFromEvents(c: Config, relays: nat, now: Time, run: seq<Event>, s: System, id: Id)
    requires Valid(c, relays, now, run) && s == After(c, relays, now, run) && id in s.rows
    ensures var h, row := History(now, run), s.rows[id];
            && row.attempts == Refusals(h, id)
            && row.publishedAt == LastTime(h, id, true)
            && (row.failedAt.Some? <==> c.maxAttempts > 0 && Refusals(h, id) == c.maxAttempts)
            && (row.failedAt.Some? ==> row.failedAt == LastTime(h, id, false))
            && (c.maxAttempts > 0 ==> Refusals(h, id) <= c.maxAttempts)
  {
    RunTold(c, relays, now, run, s);
    EveryRun(c, relays, now, run);
    assert RowSound(c, s.rows[id]);
    LastRefusal(History(now, run), id);
  }

  lemma {:induction false} LastRefusal(h: seq<Verdict>, id: Id)
    ensures Refusals(h, id) > 0 <==> LastTime(h, id, false).Some?
  {
    if h != [] {
      LastRefusal(h[..|h| - 1], id);
    }
  }

  /** A message is in the table exactly when it was enqueued and no prune has found it published longer ago
      than the retention. */
  lemma {:induction false} TableFromEvents(c: Config, relays: nat, now: Time, run: seq<Event>, s: System, id: Id)
    requires Valid(c, relays, now, run) && s == After(c, relays, now, run)
    ensures id in s.rows <==> Enqueue(id) in run && !Gone(c, now, run, id)
    ensures id in s.enqueued <==> Enqueue(id) in run
    ensures Gone(c, now, run, id) ==> id in s.enqueued
    decreases |run|
  {
    if run != [] {
      var p, e := run[..|run| - 1], run[|run| - 1];
      var s0 := After(c, relays, now, p);
      assert run == p + [e];
      TableFromEvents(c, relays, now, p, s0, id);
      RunTold(c, relays, now, p, s0);
      EveryRun(c, relays, now, p);
      TableStep(c, now, p, e, s0, id);
    }
  }

  lemma {:induction false} TableStep(c: Config, now: Time, p: seq<Event>, e: Event, s: System, id: Id)
    requires TableInv(c, s) && PassesInv(c, s) && Enabled(c, s, e) && s.now == ClockAfter(now, p) && RowsTold(c, now, p, s)
    requires id in s.rows <==> Enqueue(id) in p && !Gone(c, now, p, id)
    requires id in s.enqueued <==> Enqueue(id) in p
    requires Gone(c, now, p, id) ==> id in s.enqueued
    ensures var s' := Apply(c, s, e);
            && (id in s'.rows <==> Enqueue(id) in p + [e] && !Gone(c, now, p + [e], id))
            && (id in s'.enqueued <==> Enqueue(id) in p + [e])
            && (Gone(c, now, p + [e], id) ==> id in s'.enqueued)
  {
    assert (p + [e])[..|p|] == p;
    if e.Prune? && LastTime(History(now, p), id, true).Some? {
      PublishedKnown(c, now, p, s, id);
    } else if e.Commit? && id in s.relays[e.r].writes {
      WritesLocked(c, s, e.r, id);
    }
  }

  lemma {:induction false} PublishedKnown(c: Config, now: Time, p: seq<Event>, s: System, id: Id)
    requires RowsTold(c, now, p, s) && LastTime(History(now, p), id, true).Some?
    ensures id in s.enqueued
  {
    TakenOnce(History(now, p), id);
  }

  lemma {:induction false} TakenOnce(h: seq<Verdict>, id: Id)
    requires LastTime(h, id, true).Some?
    ensures exists i :: 0 <= i < |h| && h[i].id == id
  {
    var p := h[..|h| - 1];
    if h[|h| - 1].id != id || !h[|h| - 1].took {
      TakenOnce(p, id);
      var i :| 0 <= i < |p| && p[i].id == id;
      assert h[i].id == id;
    }
  }
}
