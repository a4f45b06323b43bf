/**
 Any number of relays draining one outbox table (outbox/relay.go on a dialect with SKIP LOCKED), with
 messages enqueued, passes crashing or rolling back, and published rows pruned at any moment.

 The state holds the committed table and one pass per relay: the batch it claimed, whose row locks it
 holds, and the writes its transaction has buffered. `accepts` and `wasted` count, for each message,
 the publishes the broker accepted and those whose mark was rolled back; with `enqueued`, `pruned`,
 `returned`, `unreported` and `handled` they record the past and steer nothing.
 */
module OutboxRelay {

  import opened OutboxTable

  datatype Pass =
    | Idle
    /** `done` messages of the batch are settled in `writes`; `accepted` says the broker has taken the
        next one but its mark is not written yet. `marked` is the pass's published counter. */
    | Active(batch: seq<Message>, done: nat, writes: Rows, accepted: bool, marked: nat)

  datatype System = System(
    rows: Rows,
    relays: seq<Pass>,
    now: Time,
    enqueued: set<Id>,
    pruned: set<Id>,
    accepts: map<Id, nat>,
    wasted: map<Id, nat>,
    returned: nat,   // what the passes reported as published, summed
    unreported: nat, // what passes marked whose commit the relay did not learn of
    handled: nat)    // how many claimed messages committed passes settled

  function Count(m: map<Id, nat>, id: Id): nat {
    if id in m then m[id] else 0
  }

  predicate Locked(p: Pass, id: Id) {
    p.Active? && InBatch(p.batch, id)
  }

  predicate LockedBy(s: System, r: nat, id: Id) {
    r < |s.relays| && Locked(s.relays[r], id)
  }

  predicate Free(s: System, id: Id) {
    forall r :: 0 <= r < |s.relays| ==> !Locked(s.relays[r], id)
  }

  /** A batch that SELECT ... FOR UPDATE SKIP LOCKED can return: pending rows nobody has locked, in id
      order, cut off at the batch size and leaving no smaller one behind. */
  ghost predicate Claimable(c: Config, s: System, batch: seq<Message>) {
    && Ascending(batch) && |batch| <= c.batchSize
    && AllLoaded(s.rows, batch) && (forall i :: 0 <= i < |batch| ==> Free(s, batch[i].id))
    && (forall id :: id in s.rows && Pending(s.rows[id]) && Free(s, id) && !InBatch(batch, id) ==>
          |batch| == c.batchSize && forall i :: 0 <= i < |batch| ==> batch[i].id.n < id.n)
  }

  /** The broker has taken `id` during this pass. */
  predicate Took(p: Pass, id: Id) {
    p.Active?
    && ((id in p.writes && Published(p.writes[id]))
        || (p.accepted && p.done < |p.batch| && p.batch[p.done].id == id))
  }

  datatype Event =
    | Enqueue(id: Id)
    | Claim(r: nat, batch: seq<Message>)
    | Accept(r: nat)   // Publish returned nil
    | Mark(r: nat)     // the published_at write succeeded
    | Refuse(r: nat)   // Publish failed, or the headers were bad, and the failure was recorded
    | Commit(r: nat, told: bool) // told: the relay learns of it and returns its count
    | Abort(r: nat)    // a write error, a cancelled context, a failed commit or a crash
    | Prune
    | Tick(to: Time)

  predicate Working(s: System, r: nat) {
    r < |s.relays| && s.relays[r].Active?
  }

  predicate AtMessage(s: System, r: nat) {
    Working(s, r) && s.relays[r].done < |s.relays[r].batch| && s.relays[r].batch[s.relays[r].done].id in s.rows
  }

  ghost predicate Enabled(c: Config, s: System, e: Event) {
    match e
    case Enqueue(id) => id !in s.enqueued
    case Claim(r, batch) => r < |s.relays| && s.relays[r].Idle? && Claimable(c, s, batch)
    case Accept(r) => AtMessage(s, r) && !s.relays[r].accepted
    case Mark(r) => AtMessage(s, r) && s.relays[r].accepted
    case Refuse(r) => AtMessage(s, r) && !s.relays[r].accepted
    case Commit(r, _) => Working(s, r) && s.relays[r].done == |s.relays[r].batch|
    case Abort(r) => Working(s, r)
    case Prune => c.retention > 0
    case Tick(to) => to >= s.now
  }

  /** Rows published before the retention cutoff. */
  function Expired(c: Config, s: System): set<Id> {
    set id | id in s.rows && Published(s.rows[id]) && s.rows[id].publishedAt.value < s.now - c.retention
  }

  function AddTaken(wasted: map<Id, nat>, p: Pass): map<Id, nat>
    requires p.Active?
  {
    map id | id in wasted.Keys + p.writes.Keys + (if p.done < |p.batch| then {p.batch[p.done].id} else {}) ::
      Count(wasted, id) + (if Took(p, id) then 1 else 0)
  }

  function Advanced(p: Pass, row: Row): Pass
    requires p.Active? && p.done < |p.batch|
  {
    p.(writes := p.writes[p.batch[p.done].id := row], done := p.done + 1, accepted := false,
       marked := p.marked + (if Published(row) then 1 else 0))
  }

  ghost function Apply(c: Config, s: System, e: Event): System
    requires Enabled(c, s, e)
  {
    match e
    case Enqueue(id) => s.(rows := s.rows[id := FRESH], enqueued := s.enqueued + {id})
    case Claim(r, batch) => s.(relays := s.relays[r := Active(batch, 0, map[], false, 0)])
    case Accept(r) =>
      var p := s.relays[r];
      var id := p.batch[p.done].id;
      s.(relays := s.relays[r := p.(accepted := true)], accepts := s.accepts[id := Count(s.accepts, id) + 1])
    case Mark(r) =>
      var p := s.relays[r];
      var row := MarkedPublished(s.rows[p.batch[p.done].id], s.now);
      s.(relays := s.relays[r := Advanced(p, row)])
    case Refuse(r) =>
      var p := s.relays[r];
      var m := p.batch[p.done];
      var row := FailureRecorded(c, s.rows[m.id], m.attempts, s.now);
      s.(relays := s.relays[r := Advanced(p, row)])
    case Commit(r, told) =>
      var p := s.relays[r];
      s.(relays := s.relays[r := Idle], rows := s.rows + p.writes,
         returned := s.returned + (if told then p.marked else 0),
         unreported := s.unreported + (if told then 0 else p.marked), handled := s.handled + |p.batch|)
    case Abort(r) =>
      s.(relays := s.relays[r := Idle], wasted := AddTaken(s.wasted, s.relays[r]))
    case Prune =>
      s.(rows := s.rows - Expired(c, s), pruned := s.pruned + Expired(c, s))
    case Tick(to) => s.(now := to)
  }

  ghost function Start(relays: nat, now: Time): System {
    System(map[], seq(relays, _ => Idle), now, {}, {}, map[], map[], 0, 0, 0)
  }

  ghost predicate Valid(c: Config, relays: nat, now: Time, run: seq<Event>)
    decreases |run|, 0
  {
    run == [] ||
    var p := run[..|run| - 1];
    Valid(c, relays, now, p) && Enabled(c, After(c, relays, now, p), run[|run| - 1])
  }

  ghost function After(c: Config, relays: nat, now: Time, run: seq<Event>): System
    requires Valid(c, relays, now, run)
    decreases |run|, 1
  {
    if run == [] then Start(relays, now)
    else Apply(c, After(c, relays, now, run[..|run| - 1]), run[|run| - 1])
  }

  // ----- Invariants -----

  /** Every message ever enqueued is in the table or was pruned, and the rows are sound. */
  ghost predicate TableInv(c: Config, s: System) {
    && (forall id :: id in s.enqueued <==> id in s.rows || id in s.pruned)
    && (forall id :: id in s.rows ==> id !in s.pruned && RowSound(c, s.rows[id]))
  }

  /** A pass holds distinct pending rows as it read them, and its writes settle the first `done`. */
  ghost predicate PassInv(c: Config, rows: Rows, p: Pass) {
    p.Active? ==> Holds(rows, p) && Writes(c, rows, p) && p.marked == |PublishedIn(p.writes)| && |p.writes| == p.done
  }

  ghost predicate Holds(rows: Rows, p: Pass)
    requires p.Active?
  {
    && Ascending(p.batch) && p.done <= |p.batch| && (p.accepted ==> p.done < |p.batch|)
    && AllLoaded(rows, p.batch)
  }

  ghost predicate Writes(c: Config, rows: Rows, p: Pass)
    requires p.Active? && p.done <= |p.batch|
  {
    && (forall id :: id in p.writes <==> InBatch(p.batch[..p.done], id))
    && (forall id :: id in p.writes ==> id in rows && Settles(c, rows[id], p.writes[id]))
  }

  /** `after` is what marking or recording a failure makes of the pending row `before`. */
  ghost predicate Settles(c: Config, before: Row, after: Row) {
    Pending(before)
    && exists t :: after == MarkedPublished(before, t) || after == FailureRecorded(c, before, before.attempts, t)
  }

  ghost function PublishedIn(rows: Rows): set<Id> {
    set id | id in rows && Published(rows[id])
  }

  ghost predicate PassesInv(c: Config, s: System) {
    && (forall r :: 0 <= r < |s.relays| ==> PassInv(c, s.rows, s.relays[r]))
    && (forall r, q, id :: 0 <= r < q < |s.relays| && Locked(s.relays[r], id) ==> !Locked(s.relays[q], id))
  }

  ghost predicate InFlight(s: System, id: Id) {
    exists r :: 0 <= r < |s.relays| && Took(s.relays[r], id)
  }

  ghost predicate Delivered(s: System, id: Id) {
    id in s.pruned || (id in s.rows && Published(s.rows[id]))
  }

  /** Every accepted publish is accounted for: wasted by a rollback, delivered, or in flight. */
  ghost predicate Balanced(s: System, id: Id) {
    Count(s.accepts, id) == Count(s.wasted, id)
                            + (if Delivered(s, id) then 1 else 0) + (if InFlight(s, id) then 1 else 0)
  }

  ghost predicate LedgerInv(s: System) {
    forall id :: Balanced(s, id)
  }

  /** The counts passes reported, and those nobody was told, add up to the messages delivered. */
  ghost predicate ReportInv(s: System) {
    s.returned + s.unreported == |s.pruned| + |PublishedIn(s.rows)|
  }

  /** With a limit on attempts, every message is handled at most that often. */
  ghost predicate WorkInv(c: Config, s: System) {
    c.maxAttempts > 0 ==> s.handled + Potential(c, s.rows) <= c.maxAttempts * |s.enqueued|
  }

  ghost predicate Inv(c: Config, s: System) {
    TableInv(c, s) && PassesInv(c, s) && LedgerInv(s) && ReportInv(s) && WorkInv(c, s)
  }

  // ----- Passes keep their rows -----

  /** A pass depends only on the rows of its batch. */
  lemma {:induction false} PassFramed(c: Config, rows: Rows, rows': Rows, p: Pass)
    requires PassInv(c, rows, p)
    requires forall id :: Locked(p, id) ==> id in rows' && id in rows && rows'[id] == rows[id]
    ensures PassInv(c, rows', p)
  {
    if p.Active? {
      forall i | 0 <= i < |p.batch|
        ensures p.batch[i].id in rows' && rows'[p.batch[i].id] == rows[p.batch[i].id]
      {
        assert Locked(p, p.batch[i].id);
      }
      forall id | id in p.writes
        ensures id in rows' && Settles(c, rows'[id], p.writes[id])
      {
        assert InBatch(p.batch[..p.done], id);
        var i :| 0 <= i < p.done && p.batch[..p.done][i].id == id;
        assert p.batch[i].id == id;
      }
    }
  }

  /** Messages not yet settled are not in the writes. */
  lemma {:induction false} NextUnwritten(c: Config, rows: Rows, p: Pass)
    requires PassInv(c, rows, p) && p.Active? && p.done < |p.batch|
    ensures p.batch[p.done].id !in p.writes
  {
    var id := p.batch[p.done].id;
    assert !InBatch(p.batch[..p.done], id) by {
      forall i | 0 <= i < p.done
        ensures p.batch[..p.done][i].id != id
      {
        assert p.batch[i].id.n < p.batch[p.done].id.n;
      }
    }
  }

  lemma {:induction false} AdvanceWrites(c: Config, rows: Rows, p: Pass, row: Row)
    requires p.Active? && Holds(rows, p) && Writes(c, rows, p) && p.done < |p.batch|
    requires Settles(c, rows[p.batch[p.done].id], row)
    ensures Writes(c, rows, Advanced(p, row))
  {
    var p' := Advanced(p, row);
    forall x
      ensures x in p'.writes <==> InBatch(p'.batch[..p'.done], x)
    {
      BatchGrows(p.batch, p.done, x);
    }
  }

  lemma {:induction false} AdvanceKeeps(c: Config, rows: Rows, p: Pass, row: Row)
    requires PassInv(c, rows, p) && p.Active? && p.done < |p.batch|
    requires Settles(c, rows[p.batch[p.done].id], row)
    ensures PassInv(c, rows, Advanced(p, row))
  {
    NextUnwritten(c, rows, p);
    AdvanceWrites(c, rows, p, row);
    PublishedGrows(p.writes, p.batch[p.done].id, row);
  }

  lemma {:induction false} PublishedGrows(rows: Rows, id: Id, row: Row)
    requires id !in rows
    ensures |PublishedIn(rows[id := row])| == |PublishedIn(rows)| + if Published(row) then 1 else 0
  {
    if Published(row) {
      assert PublishedIn(rows[id := row]) == PublishedIn(rows) + {id};
    } else {
      assert PublishedIn(rows[id := row]) == PublishedIn(rows);
    }
  }

  lemma {:induction false} BatchGrows(batch: seq<Message>, k: nat, x: Id)
    requires k < |batch|
    ensures InBatch(batch[..k + 1], x) <==> InBatch(batch[..k], x) || x == batch[k].id
  {
    var a, b := batch[..k], batch[..k + 1];
    assert b == a + [batch[k]];
    if InBatch(a, x) {
      var i :| 0 <= i < |a| && a[i].id == x;
      assert b[i].id == x;
    }
    if x == batch[k].id {
      assert b[k].id == x;
    }
  }

  /** Replacing one relay's pass by one that locks no more keeps the passes apart. */
  lemma {:induction false} RelayReplaced(c: Config, s: System, s': System, r: nat)
    requires PassesInv(c, s) && r < |s.relays|
    requires |s'.relays| == |s.relays| && s'.rows == s.rows && s'.relays == s.relays[r := s'.relays[r]]
    requires PassInv(c, s.rows, s'.relays[r])
    requires forall id :: Locked(s'.relays[r], id) ==> Locked(s.relays[r], id) || Free(s, id)
    ensures PassesInv(c, s')
  {
    forall a, b, id | 0 <= a < b < |s'.relays| && Locked(s'.relays[a], id)
      ensures !Locked(s'.relays[b], id)
    {
      assert Free(s, id) ==> !Locked(s.relays[a], id) && !Locked(s.relays[b], id);
    }
  }

  lemma {:induction false} ClaimKeepsPasses(c: Config, s: System, r: nat, batch: seq<Message>)
    requires PassesInv(c, s) && Enabled(c, s, Claim(r, batch))
    ensures PassesInv(c, Apply(c, s, Claim(r, batch)))
  {
    var s' := Apply(c, s, Claim(r, batch));
    var p := s'.relays[r];
    assert p.batch[..0] == [];
    assert PublishedIn(p.writes) == {};
    RelayReplaced(c, s, s', r);
  }

  /** A step that only moves one active pass forward. */
  lemma {:induction false} MoveKeepsPasses(c: Config, s: System, e: Event)
    requires TableInv(c, s) && PassesInv(c, s) && Enabled(c, s, e)
    requires e.Accept? || e.Mark? || e.Refuse?
    ensures PassesInv(c, Apply(c, s, e))
  {
    var s' := Apply(c, s, e);
    var p := s.relays[e.r];
    var row := s.rows[p.batch[p.done].id];
    assert PassInv(c, s.rows, p);
    if e.Mark? {
      assert Settles(c, row, MarkedPublished(row, s.now));
      AdvanceKeeps(c, s.rows, p, MarkedPublished(row, s.now));
    } else if e.Refuse? {
      assert Settles(c, row, FailureRecorded(c, row, row.attempts, s.now));
      AdvanceKeeps(c, s.rows, p, FailureRecorded(c, row, row.attempts, s.now));
    }
    RelayReplaced(c, s, s', e.r);
  }

  lemma {:induction false} AbortKeepsPasses(c: Config, s: System, r: nat)
    requires PassesInv(c, s) && Working(s, r)
    ensures PassesInv(c, Apply(c, s, Abort(r)))
  {
    RelayReplaced(c, s, Apply(c, s, Abort(r)), r);
  }

  /** Rows outside every batch may change freely. */
  lemma {:induction false} OtherRowsChange(c: Config, s: System, s': System)
    requires PassesInv(c, s) && s'.relays == s.relays
    requires forall id :: id in s.rows && !Free(s, id) ==> id in s'.rows && s'.rows[id] == s.rows[id]
    ensures PassesInv(c, s')
  {
    forall r | 0 <= r < |s.relays|
      ensures PassInv(c, s'.rows, s.relays[r])
    {
      var p := s.relays[r];
      assert PassInv(c, s.rows, p);
      forall id | Locked(p, id)
        ensures id in s.rows && id in s'.rows && s'.rows[id] == s.rows[id]
      {
        var i :| 0 <= i < |p.batch| && p.batch[i].id == id;
        assert !Free(s, id);
      }
      PassFramed(c, s.rows, s'.rows, p);
    }
  }

  lemma {:induction false} LockedIsPending(c: Config, s: System, id: Id)
    requires PassesInv(c, s) && !Free(s, id)
    ensures id in s.rows && Pending(s.rows[id])
  {
    var r :| 0 <= r < |s.relays| && Locked(s.relays[r], id);
    var p := s.relays[r];
    assert PassInv(c, s.rows, p);
    var i :| 0 <= i < |p.batch| && p.batch[i].id == id;
  }

  lemma {:induction false} WritesLocked(c: Config, s: System, r: nat, id: Id)
    requires PassesInv(c, s) && Working(s, r) && id in s.relays[r].writes
    ensures Locked(s.relays[r], id) && id in s.rows && Settles(c, s.rows[id], s.relays[r].writes[id])
  {
    var p := s.relays[r];
    assert PassInv(c, s.rows, p);
    var i :| 0 <= i < |p.batch[..p.done]| && p.batch[..p.done][i].id == id;
    assert p.batch[i].id == id;
  }

  /** Once its pass lets go, a written row is free. */
  lemma {:induction false} WrittenIsFreed(c: Config, s: System, r: nat, id: Id)
    requires PassesInv(c, s) && Working(s, r) && id in s.relays[r].writes
    ensures Free(s.(relays := s.relays[r := Idle]), id)
  {
    WritesLocked(c, s, r, id);
  }

  lemma {:induction false} CommitKeepsPasses(c: Config, s: System, r: nat, told: bool)
    requires PassesInv(c, s) && Enabled(c, s, Commit(r, told))
    ensures PassesInv(c, Apply(c, s, Commit(r, told)))
  {
    var freed := s.(relays := s.relays[r := Idle]);
    RelayReplaced(c, s, freed, r);
    forall id | id in s.relays[r].writes
      ensures Free(freed, id)
    {
      WrittenIsFreed(c, s, r, id);
    }
    OtherRowsChange(c, freed, Apply(c, s, Commit(r, told)));
  }

  lemma {:induction false} PassesKept(c: Config, s: System, e: Event)
    requires TableInv(c, s) && PassesInv(c, s) && Enabled(c, s, e)
    ensures PassesInv(c, Apply(c, s, e))
  {
    match e
    case Claim(r, batch) => ClaimKeepsPasses(c, s, r, batch);
    case Accept(_) => MoveKeepsPasses(c, s, e);
    case Mark(_) => MoveKeepsPasses(c, s, e);
    case Refuse(_) => MoveKeepsPasses(c, s, e);
    case Commit(r, told) => CommitKeepsPasses(c, s, r, told);
    case Abort(r) => AbortKeepsPasses(c, s, r);
    case Enqueue(_) => OtherRowsChange(c, s, Apply(c, s, e));
    case Prune =>
      forall id | id in s.rows && !Free(s, id)
        ensures id in Apply(c, s, e).rows
      {
        LockedIsPending(c, s, id);
      }
      OtherRowsChange(c, s, Apply(c, s, e));
    case Tick(_) => OtherRowsChange(c, s, Apply(c, s, e));
  }

  lemma {:induction false} TableKept(c: Config, s: System, e: Event)
    requires TableInv(c, s) && PassesInv(c, s) && Enabled(c, s, e)
    ensures TableInv(c, Apply(c, s, e))
  {
    var s' := Apply(c, s, e);
    if e.Commit? {
      forall id | id in s'.rows
        ensures id in s.rows && RowSound(c, s'.rows[id])
      {
        if id in s.relays[e.r].writes {
          WritesLocked(c, s, e.r, id);
          var t :| s'.rows[id] == MarkedPublished(s.rows[id], t)
                   || s'.rows[id] == FailureRecorded(c, s.rows[id], s.rows[id].attempts, t);
          WritesSound(c, s.rows[id], t);
        }
      }
    }
  }

  // ----- The ledger -----

  lemma {:induction false} LockWhenTook(c: Config, s: System, r: nat, id: Id)
    requires PassesInv(c, s) && r < |s.relays| && Took(s.relays[r], id)
    ensures Locked(s.relays[r], id)
  {
    var p := s.relays[r];
    if id in p.writes {
      WritesLocked(c, s, r, id);
    } else {
      assert p.batch[p.done].id == id;
    }
  }

  /** Changing relay `r` alone: a message is in flight afterwards if the new pass took it or another
      relay had. */
  lemma {:induction false} FlightsAfter(s: System, s': System, r: nat, id: Id)
    requires r < |s.relays| && |s'.relays| == |s.relays| && s'.relays == s.relays[r := s'.relays[r]]
    ensures InFlight(s', id) <==> Took(s'.relays[r], id) || (exists q :: 0 <= q < |s.relays| && q != r && Took(s.relays[q], id))
    ensures InFlight(s, id) <==> Took(s.relays[r], id) || (exists q :: 0 <= q < |s.relays| && q != r && Took(s.relays[q], id))
  {
    if InFlight(s', id) {
      var q :| 0 <= q < |s'.relays| && Took(s'.relays[q], id);
      assert q != r ==> Took(s.relays[q], id);
    }
    if exists q :: 0 <= q < |s.relays| && q != r && Took(s.relays[q], id) {
      var q :| 0 <= q < |s.relays| && q != r && Took(s.relays[q], id);
      assert Took(s'.relays[q], id);
    }
  }

  lemma {:induction false} NoOtherTook(c: Config, s: System, r: nat, id: Id)
    requires PassesInv(c, s) && r < |s.relays| && Locked(s.relays[r], id)
    ensures !exists q :: 0 <= q < |s.relays| && q != r && Took(s.relays[q], id)
  {
    forall q | 0 <= q < |s.relays| && q != r
      ensures !Took(s.relays[q], id)
    {
      if Took(s.relays[q], id) {
        LockWhenTook(c, s, q, id);
      }
    }
  }

  lemma {:induction false} TookIsPending(c: Config, s: System, r: nat, id: Id)
    requires PassesInv(c, s) && r < |s.relays| && Took(s.relays[r], id)
    ensures id in s.rows && Pending(s.rows[id])
  {
    LockWhenTook(c, s, r, id);
    LockedIsPending(c, s, id);
  }

  /** Nothing delivered is in flight. */
  lemma {:induction false} DeliveredNotInFlight(c: Config, s: System, id: Id)
    requires TableInv(c, s) && PassesInv(c, s) && Delivered(s, id)
    ensures !InFlight(s, id)
  {
    if InFlight(s, id) {
      var r :| 0 <= r < |s.relays| && Took(s.relays[r], id);
      TookIsPending(c, s, r, id);
    }
  }

  /** Steps that leave what each pass took alone. */
  lemma {:induction false} SameFlights(s: System, s': System, r: nat, id: Id)
    requires r < |s.relays| && |s'.relays| == |s.relays| && s'.relays == s.relays[r := s'.relays[r]]
    requires Took(s'.relays[r], id) <==> Took(s.relays[r], id)
    ensures InFlight(s', id) <==> InFlight(s, id)
  {
    FlightsAfter(s, s', r, id);
  }

  lemma {:induction false} AcceptTakes(c: Config, s: System, r: nat, id: Id)
    requires PassesInv(c, s) && Enabled(c, s, Accept(r))
    ensures var cur := s.relays[r].batch[s.relays[r].done].id;
            var s' := Apply(c, s, Accept(r));
            if id == cur then !InFlight(s, id) && InFlight(s', id) else InFlight(s', id) <==> InFlight(s, id)
  {
    var s', p := Apply(c, s, Accept(r)), s.relays[r];
    assert PassInv(c, s.rows, p);
    NextUnwritten(c, s.rows, p);
    FlightsAfter(s, s', r, id);
    if id == p.batch[p.done].id {
      assert Locked(p, id);
      NoOtherTook(c, s, r, id);
    }
  }

  lemma {:induction false} AdvanceTakesNothing(c: Config, s: System, e: Event, id: Id)
    requires PassesInv(c, s) && Enabled(c, s, e) && (e.Mark? || e.Refuse?)
    ensures InFlight(Apply(c, s, e), id) <==> InFlight(s, id)
  {
    var p := s.relays[e.r];
    assert PassInv(c, s.rows, p);
    NextUnwritten(c, s.rows, p);
    SameFlights(s, Apply(c, s, e), e.r, id);
  }

  lemma {:induction false} MoveBalanced(c: Config, s: System, e: Event, id: Id)
    requires PassesInv(c, s) && Balanced(s, id) && Enabled(c, s, e) && (e.Claim? || e.Accept? || e.Mark? || e.Refuse?)
    ensures Balanced(Apply(c, s, e), id)
  {
    match e
    case Claim(r, _) => SameFlights(s, Apply(c, s, e), r, id);
    case Accept(r) => AcceptTakes(c, s, r, id);
    case Mark(_) => AdvanceTakesNothing(c, s, e, id);
    case Refuse(_) => AdvanceTakesNothing(c, s, e, id);
  }

  lemma {:induction false} AbortBalanced(c: Config, s: System, r: nat, id: Id)
    requires PassesInv(c, s) && Balanced(s, id) && Working(s, r)
    ensures Balanced(Apply(c, s, Abort(r)), id)
  {
    var s' := Apply(c, s, Abort(r));
    FlightsAfter(s, s', r, id);
    if Took(s.relays[r], id) {
      LockWhenTook(c, s, r, id);
      NoOtherTook(c, s, r, id);
    }
  }

  lemma {:induction false} CommitBalanced(c: Config, s: System, r: nat, told: bool, id: Id)
    requires TableInv(c, s) && PassesInv(c, s) && Balanced(s, id) && Enabled(c, s, Commit(r, told))
    ensures Balanced(Apply(c, s, Commit(r, told)), id)
  {
    var s' := Apply(c, s, Commit(r, told));
    var p := s.relays[r];
    FlightsAfter(s, s', r, id);
    assert PassInv(c, s.rows, p);
    if id in p.writes {
      WritesLocked(c, s, r, id);
      NoOtherTook(c, s, r, id);
    } else {
      assert !Took(p, id);
    }
  }

  lemma {:induction false} QuietBalanced(c: Config, s: System, e: Event, id: Id)
    requires TableInv(c, s) && Balanced(s, id) && Enabled(c, s, e) && (e.Enqueue? || e.Prune? || e.Tick?)
    ensures Balanced(Apply(c, s, e), id)
  {
    assert InFlight(Apply(c, s, e), id) <==> InFlight(s, id);
    assert Delivered(Apply(c, s, e), id) <==> Delivered(s, id);
  }

  lemma {:induction false} StepBalanced(c: Config, s: System, e: Event, id: Id)
    requires TableInv(c, s) && PassesInv(c, s) && Balanced(s, id) && Enabled(c, s, e)
    ensures Balanced(Apply(c, s, e), id)
  {
    match e
    case Commit(r, told) => CommitBalanced(c, s, r, told, id);
    case Abort(r) => AbortBalanced(c, s, r, id);
    case Claim(_, _) => MoveBalanced(c, s, e, id);
    case Accept(_) => MoveBalanced(c, s, e, id);
    case Mark(_) => MoveBalanced(c, s, e, id);
    case Refuse(_) => MoveBalanced(c, s, e, id);
    case _ => QuietBalanced(c, s, e, id);
  }

  lemma {:induction false} LedgerKept(c: Config, s: System, e: Event)
    requires TableInv(c, s) && PassesInv(c, s) && LedgerInv(s) && Enabled(c, s, e)
    ensures LedgerInv(Apply(c, s, e))
  {
    forall id
      ensures Balanced(Apply(c, s, e), id)
    {
      StepBalanced(c, s, e, id);
    }
  }

  // ----- Reports and work -----

  lemma {:induction false} CommitReported(c: Config, s: System, r: nat, told: bool)
    requires PassesInv(c, s) && ReportInv(s) && Enabled(c, s, Commit(r, told))
    ensures ReportInv(Apply(c, s, Commit(r, told)))
  {
    var p := s.relays[r];
    assert PassInv(c, s.rows, p);
    forall id | id in p.writes
      ensures id in s.rows && Pending(s.rows[id])
    {
      WritesLocked(c, s, r, id);
    }
    PublishedJoin(s.rows, p.writes);
  }

  lemma {:induction false} PublishedJoin(rows: Rows, writes: Rows)
    requires forall id :: id in writes ==> id in rows && Pending(rows[id])
    ensures |PublishedIn(rows + writes)| == |PublishedIn(rows)| + |PublishedIn(writes)|
  {
    assert PublishedIn(rows + writes) == PublishedIn(rows) + PublishedIn(writes);
    assert PublishedIn(rows) !! PublishedIn(writes);
  }

  lemma {:induction false} PruneReported(c: Config, s: System)
    requires TableInv(c, s) && ReportInv(s) && Enabled(c, s, Prune)
    ensures ReportInv(Apply(c, s, Prune))
  {
    var gone := Expired(c, s);
    assert PublishedIn(s.rows - gone) == PublishedIn(s.rows) - gone;
    assert gone <= PublishedIn(s.rows) && gone !! s.pruned;
  }

  lemma {:induction false} ReportKept(c: Config, s: System, e: Event)
    requires TableInv(c, s) && PassesInv(c, s) && ReportInv(s) && Enabled(c, s, e)
    ensures ReportInv(Apply(c, s, e))
  {
    match e
    case Commit(r, told) => CommitReported(c, s, r, told);
    case Prune => PruneReported(c, s);
    case Enqueue(id) => assert PublishedIn(s.rows[id := FRESH]) == PublishedIn(s.rows);
    case _ =>
  }

  lemma {:induction false} WorkKept(c: Config, s: System, e: Event)
    requires TableInv(c, s) && PassesInv(c, s) && WorkInv(c, s) && Enabled(c, s, e)
    ensures WorkInv(c, Apply(c, s, e))
  {
    if c.maxAttempts > 0 {
      match e
      case Commit(r, told) => CommitWork(c, s, r, told);
      case Enqueue(id) => EnqueueWork(c, s, id);
      case Prune => PotentialOfFewer(c, s.rows, Expired(c, s));
      case _ =>
    }
  }

  lemma {:induction false} EnqueueWork(c: Config, s: System, id: Id)
    requires TableInv(c, s) && WorkInv(c, s) && id !in s.enqueued && c.maxAttempts > 0
    ensures WorkInv(c, Apply(c, s, Enqueue(id)))
  {
    PotentialAfterWrite(c, s.rows, id, FRESH);
    assert |s.enqueued + {id}| == |s.enqueued| + 1;
    assert c.maxAttempts * (|s.enqueued| + 1) == c.maxAttempts * |s.enqueued| + c.maxAttempts;
  }

  /** A committed pass uses up at least one attempt of every message it claimed. */
  lemma {:induction false} CommitWork(c: Config, s: System, r: nat, told: bool)
    requires TableInv(c, s) && PassesInv(c, s) && Enabled(c, s, Commit(r, told)) && c.maxAttempts > 0
    ensures Potential(c, Apply(c, s, Commit(r, told)).rows) + |s.relays[r].batch| <= Potential(c, s.rows)
  {
    var p := s.relays[r];
    assert PassInv(c, s.rows, p);
    forall id | id in p.writes
      ensures id in s.rows && Remaining(c, p.writes[id]) < Remaining(c, s.rows[id])
    {
      WritesLocked(c, s, r, id);
    }
    PotentialFalls(c, s.rows, p.writes);
  }

  /** Everything holds in every reachable state: any number of relays, any interleaving of claims,
      publishes, rollbacks, crashes, enqueues and prunes. */
  lemma {:induction false} EveryRun(c: Config, relays: nat, now: Time, run: seq<Event>)
    requires Valid(c, relays, now, run)
    ensures Inv(c, After(c, relays, now, run))
    decreases |run|
  {
    if run == [] {
      StartSound(c, relays, now);
    } else {
      var p, e := run[..|run| - 1], run[|run| - 1];
      EveryRun(c, relays, now, p);
      var s := After(c, relays, now, p);
      TableKept(c, s, e);
      PassesKept(c, s, e);
      LedgerKept(c, s, e);
      ReportKept(c, s, e);
      WorkKept(c, s, e);
    }
  }

  lemma {:induction false} StartSound(c: Config, relays: nat, now: Time)
    ensures Inv(c, Start(relays, now))
  {
    var s := Start(relays, now);
    assert PublishedIn(s.rows) == {};
    assert Potential(c, s.rows) == 0;
    assert forall id :: !InFlight(s, id);
  }

  // ----- Longer runs -----

  lemma {:induction false} Extended(c: Config, relays: nat, now: Time, run: seq<Event>, e: Event)
    requires Valid(c, relays, now, run) && Enabled(c, After(c, relays, now, run), e)
    ensures Valid(c, relays, now, run + [e])
    ensures After(c, relays, now, run + [e]) == Apply(c, After(c, relays, now, run), e)
  {
    assert (run + [e])[..|run|] == run;
  }

  lemma {:induction false} ExtendedTwice(c: Config, relays: nat, now: Time, run: seq<Event>, e: Event, f: Event)
    requires Valid(c, relays, now, run) && Enabled(c, After(c, relays, now, run), e)
    requires Enabled(c, Apply(c, After(c, relays, now, run), e), f)
    ensures Valid(c, relays, now, run + [e, f])
    ensures After(c, relays, now, run + [e, f]) == Apply(c, Apply(c, After(c, relays, now, run), e), f)
  {
    Extended(c, relays, now, run, e);
    Extended(c, relays, now, run + [e], f);
    assert run + [e] + [f] == run + [e, f];
  }

  lemma {:induction false} ValidPrefix(c: Config, relays: nat, now: Time, run: seq<Event>, k: nat)
    requires Valid(c, relays, now, run) && k <= |run|
    ensures Valid(c, relays, now, run[..k])
    decreases |run|
  {
    if k == |run| {
      assert run[..k] == run;
    } else {
      assert run[..|run| - 1][..k] == run[..k];
      ValidPrefix(c, relays, now, run[..|run| - 1], k);
    }
  }

  // ----- Main results -----

  /** No event is lost or invented: in every reachable state each enqueued message is in exactly one of
      pending, quarantined, published and pruned, no other message exists, and a published or pruned
      one was accepted by the broker. */
  lemma {:induction false} NoEventLost(c: Config, relays: nat, now: Time, run: seq<Event>, s: System, id: Id)
    requires Valid(c, relays, now, run) && s == After(c, relays, now, run)
    ensures id in s.enqueued ==>
              (if id in s.pruned then id !in s.rows
               else id in s.rows
                    && (Pending(s.rows[id]) <==> !Published(s.rows[id]) && !Quarantined(s.rows[id]))
                    && !(Published(s.rows[id]) && Quarantined(s.rows[id])))
    ensures id !in s.enqueued ==> id !in s.rows && id !in s.pruned
    ensures Delivered(s, id) ==> Count(s.accepts, id) >= 1
  {
    EveryRun(c, relays, now, run);
    assert Balanced(s, id);
  }

  /** Relays never hold the same row, and the broker accepts a message at most once more than the
      number of rolled-back passes that had already published it: exactly that many and one while
      delivered or in flight. */
  lemma {:induction false} DuplicatesNeedRollback(c: Config, relays: nat, now: Time, run: seq<Event>, s: System, id: Id)
    requires Valid(c, relays, now, run) && s == After(c, relays, now, run)
    ensures forall r, q :: LockedBy(s, r, id) && LockedBy(s, q, id) ==> r == q
    ensures Count(s.accepts, id) == Count(s.wasted, id) + (if Delivered(s, id) || InFlight(s, id) then 1 else 0)
    ensures Delivered(s, id) ==> !InFlight(s, id)
  {
    EveryRun(c, relays, now, run);
    assert Balanced(s, id);
    if Delivered(s, id) {
      DeliveredNotInFlight(c, s, id);
    }
  }

  lemma {:induction false} NoAbortNoWaste(c: Config, relays: nat, now: Time, run: seq<Event>)
    requires Valid(c, relays, now, run) && forall i :: 0 <= i < |run| ==> !run[i].Abort?
    ensures After(c, relays, now, run).wasted == map[]
    decreases |run|
  {
    if run != [] {
      NoAbortNoWaste(c, relays, now, run[..|run| - 1]);
    }
  }

  /** A run without a rollback publishes each message at most once. */
  lemma {:induction false} ExactlyOnceWithoutRollback(c: Config, relays: nat, now: Time, run: seq<Event>, s: System, id: Id)
    requires Valid(c, relays, now, run) && s == After(c, relays, now, run)
    requires forall i :: 0 <= i < |run| ==> !run[i].Abort?
    ensures Count(s.accepts, id) <= 1
    ensures Delivered(s, id) ==> Count(s.accepts, id) == 1
  {
    NoAbortNoWaste(c, relays, now, run);
    DuplicatesNeedRollback(c, relays, now, run, s, id);
  }

  /** Some commit that marked a message was not learned of by its relay, which crashed or got no answer. */
  ghost predicate SomeUntold(c: Config, relays: nat, now: Time, run: seq<Event>)
    requires Valid(c, relays, now, run)
    decreases |run|
  {
    run != [] &&
    var p, e := run[..|run| - 1], run[|run| - 1];
    SomeUntold(c, relays, now, p) || (e.Commit? && !e.told && After(c, relays, now, p).relays[e.r].marked > 0)
  }

  lemma {:induction false} UntoldCounted(c: Config, relays: nat, now: Time, run: seq<Event>)
    requires Valid(c, relays, now, run)
    ensures After(c, relays, now, run).unreported > 0 <==> SomeUntold(c, relays, now, run)
    decreases |run|
  {
    if run != [] {
      UntoldCounted(c, relays, now, run[..|run| - 1]);
    }
  }

  /** What the passes returned never exceeds the messages marked published, those since pruned included,
      and equals them if and only if the relays learned of every commit that marked one. */
  lemma {:induction false} ReportsAddUp(c: Config, relays: nat, now: Time, run: seq<Event>, s: System)
    requires Valid(c, relays, now, run) && s == After(c, relays, now, run)
    ensures s.returned + s.unreported == |set id | id in s.enqueued && Delivered(s, id)|
    ensures s.returned == |set id | id in s.enqueued && Delivered(s, id)| <==> !SomeUntold(c, relays, now, run)
  {
    EveryRun(c, relays, now, run);
    UntoldCounted(c, relays, now, run);
    assert (set id | id in s.enqueued && Delivered(s, id)) == s.pruned + PublishedIn(s.rows);
    assert s.pruned !! PublishedIn(s.rows);
  }

  /** With a limit on attempts: pending rows are below it and quarantined rows at it; all passes ever
      committed together settled at most `maxAttempts` claims per message, and once that many are
      settled nothing is pending, even if the broker never recovers. */
  lemma {:induction false} AttemptsBounded(c: Config, relays: nat, now: Time, run: seq<Event>, s: System)
    requires Valid(c, relays, now, run) && s == After(c, relays, now, run) && c.maxAttempts > 0
    ensures forall id :: id in s.rows && Pending(s.rows[id]) ==> s.rows[id].attempts < c.maxAttempts
    ensures forall id :: id in s.rows && Quarantined(s.rows[id]) ==> s.rows[id].attempts == c.maxAttempts
    ensures s.handled + Potential(c, s.rows) <= c.maxAttempts * |s.enqueued|
    ensures s.handled == c.maxAttempts * |s.enqueued| ==> forall id :: id in s.rows ==> !Pending(s.rows[id])
  {
    EveryRun(c, relays, now, run);
    if s.handled == c.maxAttempts * |s.enqueued| {
      forall id | id in s.rows
        ensures !Pending(s.rows[id])
      {
        PotentialZero(c, s.rows, id);
      }
    }
  }

  /** Each committed pass that claimed a message brings the remaining attempts down by at least the size
      of its batch. */
  lemma {:induction false} PassMakesProgress(c: Config, relays: nat, now: Time, run: seq<Event>, s: System, r: nat, told: bool)
    requires Valid(c, relays, now, run) && s == After(c, relays, now, run) && c.maxAttempts > 0
    requires Enabled(c, s, Commit(r, told))
    ensures Potential(c, Apply(c, s, Commit(r, told)).rows) + |s.relays[r].batch| <= Potential(c, s.rows)
  {
    EveryRun(c, relays, now, run);
    CommitWork(c, s, r, told);
  }

  /** A relay that claims while a pending row is free gets a non-empty batch. */
  lemma {:induction false} ClaimFindsWork(c: Config, s: System, r: nat, batch: seq<Message>, id: Id)
    requires Enabled(c, s, Claim(r, batch)) && c.batchSize > 0
    requires id in s.rows && Pending(s.rows[id]) && Free(s, id)
    ensures batch != []
  {
    assert batch == [] ==> !InBatch(batch, id);
  }

  /** A message that is delivered or quarantined stays so, and a pending one stays in the table. */
  lemma {:induction false} SettledForGood(c: Config, relays: nat, now: Time, run: seq<Event>, s: System, e: Event, id: Id)
    requires Valid(c, relays, now, run) && s == After(c, relays, now, run) && Enabled(c, s, e)
    ensures Delivered(s, id) ==> Delivered(Apply(c, s, e), id)
    ensures id in s.rows && !Published(s.rows[id]) ==> id in Apply(c, s, e).rows
    ensures id in s.rows && Quarantined(s.rows[id]) ==> id in Apply(c, s, e).rows && Apply(c, s, e).rows[id] == s.rows[id]
  {
    EveryRun(c, relays, now, run);
    if e.Commit? && id in s.relays[e.r].writes {
      WritesLocked(c, s, e.r, id);
    }
    if e.Enqueue? {
      assert e.id !in s.rows;
    }
  }

  lemma {:induction false} WastedGrows(c: Config, relays: nat, now: Time, run: seq<Event>, k: nat, id: Id)
    requires Valid(c, relays, now, run) && k <= |run|
    ensures Valid(c, relays, now, run[..k])
    ensures Count(After(c, relays, now, run[..k]).wasted, id) <= Count(After(c, relays, now, run).wasted, id)
    decreases |run|
  {
    if k == |run| {
      assert run[..k] == run;
    } else {
      assert run[..|run| - 1][..k] == run[..k];
      WastedGrows(c, relays, now, run[..|run| - 1], k, id);
    }
  }

  /** A message whose publish was rolled back is published again before it counts as delivered: the
      relay's "never twice" holds only while no pass that has published rolls back. */
  lemma {:induction false} RollbackRepublishes(c: Config, relays: nat, now: Time, run: seq<Event>, k: nat, id: Id)
    requires Valid(c, relays, now, run) && k < |run| && run[k].Abort?
    requires Valid(c, relays, now, run[..k]) && run[k].r < |After(c, relays, now, run[..k]).relays|
    requires Took(After(c, relays, now, run[..k]).relays[run[k].r], id)
    requires Delivered(After(c, relays, now, run), id)
    ensures Count(After(c, relays, now, run).accepts, id) >= 2
  {
    var s := After(c, relays, now, run[..k]);
    assert run[..k + 1][..k] == run[..k];
    WastedGrows(c, relays, now, run, k + 1, id);
    assert Count(AddTaken(s.wasted, s.relays[run[k].r]), id) >= 1;
    DuplicatesNeedRollback(c, relays, now, run, After(c, relays, now, run), id);
  }

  lemma {:induction false} OnlyRowClaimable(c: Config, s: System, id: Id)
    requires c.batchSize > 0 && s.relays == [Idle] && s.rows == map[id := FRESH]
    ensures Enabled(c, s, Claim(0, [Message(id, 0)]))
  {
    var batch := [Message(id, 0)];
    assert batch[0].id == id;
  }

  /** The state of a lone relay with one message, `a` publishes of which were accepted and `w` wasted. */
  ghost function Lone(now: Time, id: Id, pass: Pass, row: Row, a: nat, w: nat, returned: nat, handled: nat): System {
    System(map[id := row], [pass], now, {id}, {}, if a == 0 then map[] else map[id := a],
           if w == 0 then map[] else map[id := w], returned, 0, handled)
  }

  ghost function Claimed(id: Id): Pass {
    Active([Message(id, 0)], 0, map[], false, 0)
  }

  lemma {:induction false} ClaimedRun(c: Config, now: Time, id: Id)
    requires c.batchSize > 0
    ensures var run := [Enqueue(id), Claim(0, [Message(id, 0)])];
            Valid(c, 1, now, run) && After(c, 1, now, run) == Lone(now, id, Claimed(id), FRESH, 0, 0, 0, 0)
  {
    var m := [Message(id, 0)];
    assert Start(1, now).relays == [Idle];
    Extended(c, 1, now, [], Enqueue(id));
    assert [] + [Enqueue(id)] == [Enqueue(id)];
    assert After(c, 1, now, [Enqueue(id)]) == Lone(now, id, Idle, FRESH, 0, 0, 0, 0);
    OnlyRowClaimable(c, Lone(now, id, Idle, FRESH, 0, 0, 0, 0), id);
    Extended(c, 1, now, [Enqueue(id)], Claim(0, m));
    assert [Enqueue(id)] + [Claim(0, m)] == [Enqueue(id), Claim(0, m)];
  }

  lemma {:induction false} PublishedAndRolledBack(c: Config, now: Time, id: Id)
    requires c.batchSize > 0
    ensures var run := [Enqueue(id), Claim(0, [Message(id, 0)]), Accept(0), Abort(0)];
            Valid(c, 1, now, run) && After(c, 1, now, run) == Lone(now, id, Idle, FRESH, 1, 1, 0, 0)
  {
    var two := [Enqueue(id), Claim(0, [Message(id, 0)])];
    ClaimedRun(c, now, id);
    AcceptedThenAborted(c, now, id);
    ExtendedTwice(c, 1, now, two, Accept(0), Abort(0));
    assert two + [Accept(0), Abort(0)] == [Enqueue(id), Claim(0, [Message(id, 0)]), Accept(0), Abort(0)];
  }

  lemma {:induction false} AcceptedThenAborted(c: Config, now: Time, id: Id)
    ensures var s := Lone(now, id, Claimed(id), FRESH, 0, 0, 0, 0);
            && Enabled(c, s, Accept(0)) && Enabled(c, Apply(c, s, Accept(0)), Abort(0))
            && Apply(c, Apply(c, s, Accept(0)), Abort(0)) == Lone(now, id, Idle, FRESH, 1, 1, 0, 0)
  {
    var s := Lone(now, id, Claimed(id), FRESH, 0, 0, 0, 0);
    var taken := Claimed(id).(accepted := true);
    assert Apply(c, s, Accept(0)) == Lone(now, id, taken, FRESH, 1, 0, 0, 0);
    assert AddTaken(map[], taken) == map[id := 1];
  }

  lemma {:induction false} SecondPassDelivers(c: Config, now: Time, id: Id)
    ensures var s := Lone(now, id, Claimed(id), FRESH, 1, 1, 0, 0);
            && Enabled(c, s, Accept(0)) && Enabled(c, Apply(c, s, Accept(0)), Mark(0))
            && var s' := Apply(c, Apply(c, s, Accept(0)), Mark(0));
               && Enabled(c, s', Commit(0, true))
               && Apply(c, s', Commit(0, true)) == Lone(now, id, Idle, MarkedPublished(FRESH, now), 2, 1, 1, 1)
  {
    var s := Lone(now, id, Claimed(id), FRESH, 1, 1, 0, 0);
    var row := MarkedPublished(FRESH, now);
    var taken := Claimed(id).(accepted := true);
    assert Apply(c, s, Accept(0)) == Lone(now, id, taken, FRESH, 2, 1, 0, 0);
    var done := Active([Message(id, 0)], 1, map[id := row], false, 1);
    assert Apply(c, Apply(c, s, Accept(0)), Mark(0)) == Lone(now, id, done, FRESH, 2, 1, 0, 0);
    assert map[id := FRESH] + map[id := row] == map[id := row];
  }

  lemma {:induction false} SecondPassRun(c: Config, now: Time, id: Id, run: seq<Event>)
    requires c.batchSize > 0 && Valid(c, 1, now, run) && After(c, 1, now, run) == Lone(now, id, Idle, FRESH, 1, 1, 0, 0)
    ensures var all := run + [Claim(0, [Message(id, 0)])] + [Accept(0), Mark(0)] + [Commit(0, true)];
            Valid(c, 1, now, all) && After(c, 1, now, all) == Lone(now, id, Idle, MarkedPublished(FRESH, now), 2, 1, 1, 1)
  {
    var claim := Claim(0, [Message(id, 0)]);
    OnlyRowClaimable(c, Lone(now, id, Idle, FRESH, 1, 1, 0, 0), id);
    Extended(c, 1, now, run, claim);
    assert After(c, 1, now, run + [claim]) == Lone(now, id, Claimed(id), FRESH, 1, 1, 0, 0);
    SecondPassDelivers(c, now, id);
    ExtendedTwice(c, 1, now, run + [claim], Accept(0), Mark(0));
    Extended(c, 1, now, run + [claim] + [Accept(0), Mark(0)], Commit(0, true));
  }

  /** A run in which one message is published twice: a pass rolls back after the broker took the message,
      and the next pass delivers it. */
  lemma {:induction false} PublishedTwice(c: Config, now: Time, id: Id)
    requires c.batchSize > 0
    ensures var m := [Message(id, 0)];
            var run := [Enqueue(id), Claim(0, m), Accept(0), Abort(0), Claim(0, m), Accept(0), Mark(0), Commit(0, true)];
            && Valid(c, 1, now, run) && Delivered(After(c, 1, now, run), id)
            && Count(After(c, 1, now, run).accepts, id) == 2
  {
    var m := [Message(id, 0)];
    var first := [Enqueue(id), Claim(0, m), Accept(0), Abort(0)];
    PublishedAndRolledBack(c, now, id);
    SecondPassRun(c, now, id, first);
    assert first + [Claim(0, m)] + [Accept(0), Mark(0)] + [Commit(0, true)]
        == [Enqueue(id), Claim(0, m), Accept(0), Abort(0), Claim(0, m), Accept(0), Mark(0), Commit(0, true)];
  }

  /** A commit that took effect with its answer lost: the message is delivered and no pass counted it. */
  lemma {:induction false} CountLost(c: Config, now: Time, id: Id)
    requires c.batchSize > 0
    ensures var run := [Enqueue(id), Claim(0, [Message(id, 0)]), Accept(0), Mark(0), Commit(0, false)];
            && Valid(c, 1, now, run) && Delivered(After(c, 1, now, run), id)
            && After(c, 1, now, run).returned == 0
  {
    var two, steps := [Enqueue(id), Claim(0, [Message(id, 0)])], [Accept(0), Mark(0)];
    ClaimedRun(c, now, id);
    MarkedUntold(c, now, id);
    ExtendedTwice(c, 1, now, two, Accept(0), Mark(0));
    Extended(c, 1, now, two + steps, Commit(0, false));
    assert two + steps + [Commit(0, false)]
        == [Enqueue(id), Claim(0, [Message(id, 0)]), Accept(0), Mark(0), Commit(0, false)];
  }

  lemma {:induction false} MarkedUntold(c: Config, now: Time, id: Id)
    ensures var s := Lone(now, id, Claimed(id), FRESH, 0, 0, 0, 0);
            && Enabled(c, s, Accept(0)) && Enabled(c, Apply(c, s, Accept(0)), Mark(0))
            && var s' := Apply(c, Apply(c, s, Accept(0)), Mark(0));
               && Enabled(c, s', Commit(0, false))
               && Apply(c, s', Commit(0, false)).rows == map[id := MarkedPublished(FRESH, now)]
               && Apply(c, s', Commit(0, false)).returned == 0 && Apply(c, s', Commit(0, false)).enqueued == {id}
  {
    var s := Lone(now, id, Claimed(id), FRESH, 0, 0, 0, 0);
    var row := MarkedPublished(FRESH, now);
    var taken := Claimed(id).(accepted := true);
    assert Apply(c, s, Accept(0)) == Lone(now, id, taken, FRESH, 1, 0, 0, 0);
    var done := Active([Message(id, 0)], 1, map[id := row], false, 1);
    assert Apply(c, Apply(c, s, Accept(0)), Mark(0)) == Lone(now, id, done, FRESH, 1, 0, 0, 0);
    assert map[id := FRESH] + map[id := row] == map[id := row];
  }
}
