/**
 How long an outbox queue can last when messages are given up after a number of attempts
 (outbox/relay.go: WithMaxAttempts). Once nothing more is enqueued, only so many passes can find work,
 whatever the broker does; and a relay working alone that commits one pass more has emptied the queue.
 */
module OutboxDrain {

  import opened OutboxTable
  import opened OutboxRelay

  ghost predicate NothingPending(s: System) {
    forall id :: id in s.rows ==> !Pending(s.rows[id])
  }

  /** How many passes that had claimed a message were committed from event `k` on. */
  ghost function Productive(c: Config, relays: nat, now: Time, run: seq<Event>, k: nat): nat
    requires Valid(c, relays, now, run) && k <= |run|
    decreases |run|
  {
    if |run| == k then 0
    else
      var p, e := run[..|run| - 1], run[|run| - 1];
      Productive(c, relays, now, p, k)
      + (if e.Commit? && |After(c, relays, now, p).relays[e.r].batch| > 0 then 1 else 0)
  }

  /** How many passes were committed from event `k` on. */
  ghost function Commits(run: seq<Event>, k: nat): nat
    requires k <= |run|
    decreases |run|
  {
    if |run| == k then 0 else Commits(run[..|run| - 1], k) + (if run[|run| - 1].Commit? then 1 else 0)
  }

  // ----- Attempts run out -----

  lemma {:induction false} StepUsesUp(c: Config, s: System, e: Event)
    requires TableInv(c, s) && PassesInv(c, s) && Enabled(c, s, e) && !e.Enqueue? && c.maxAttempts > 0
    ensures Potential(c, Apply(c, s, e).rows) + (if e.Commit? && |s.relays[e.r].batch| > 0 then 1 else 0)
            <= Potential(c, s.rows)
  {
    match e
    case Commit(r, told) => CommitWork(c, s, r, told);
    case Prune => PotentialOfFewer(c, s.rows, Expired(c, s));
    case _ =>
  }

  /** From any moment on, if nothing is enqueued: the passes that find a message to handle number at most
      the attempts then left, whatever the relays, the broker and the database do. */
  lemma {:induction false} PassesBounded(c: Config, relays: nat, now: Time, run: seq<Event>, k: nat)
    requires Valid(c, relays, now, run) && k <= |run| && c.maxAttempts > 0
    requires forall i :: k <= i < |run| ==> !run[i].Enqueue?
    ensures Valid(c, relays, now, run[..k])
    ensures Productive(c, relays, now, run, k) + Potential(c, After(c, relays, now, run).rows)
            <= Potential(c, After(c, relays, now, run[..k]).rows)
    decreases |run|
  {
    if |run| == k {
      assert run[..k] == run;
    } else {
      var p, e := run[..|run| - 1], run[|run| - 1];
      assert p[..k] == run[..k];
      PassesBounded(c, relays, now, p, k);
      EveryRun(c, relays, now, p);
      StepUsesUp(c, After(c, relays, now, p), e);
    }
  }

  // ----- A relay on its own -----

  /** While no row is locked, an empty claim means that nothing is pending. */
  lemma {:induction false} EmptyClaimMeansEmpty(c: Config, s: System, r: nat)
    requires c.batchSize > 0 && Enabled(c, s, Claim(r, []))
    requires forall q :: 0 <= q < |s.relays| ==> s.relays[q].Idle?
    ensures NothingPending(s)
  {
    forall id | id in s.rows
      ensures !Pending(s.rows[id])
    {
      assert Free(s, id);
    }
  }

  lemma {:induction false} StaysEmpty(c: Config, s: System, e: Event)
    requires PassesInv(c, s) && Enabled(c, s, e) && !e.Enqueue? && NothingPending(s)
    ensures NothingPending(Apply(c, s, e))
  {
    if e.Commit? {
      forall id | id in s.relays[e.r].writes
        ensures id in s.rows && Pending(s.rows[id])
      {
        WritesLocked(c, s, e.r, id);
      }
      assert s.rows + s.relays[e.r].writes == s.rows;
    }
  }

  /** The event is relay `r`'s own, the clock's or the pruner's. */
  predicate OnlyRelay(e: Event, r: nat) {
    e.Tick? || e.Prune? || (!e.Enqueue? && e.r == r)
  }

  /** What a relay working alone knows: every other relay is idle, and if it holds an empty batch, or has
      committed one, nothing is pending. */
  ghost predicate AloneInv(c: Config, relays: nat, now: Time, run: seq<Event>, k: nat, r: nat)
    requires Valid(c, relays, now, run) && k <= |run|
  {
    var s := After(c, relays, now, run);
    && (forall q :: 0 <= q < |s.relays| && q != r ==> s.relays[q].Idle?)
    && (r < |s.relays| && s.relays[r].Active? && |s.relays[r].batch| == 0 ==> NothingPending(s))
    && (Commits(run, k) > Productive(c, relays, now, run, k) ==> NothingPending(s))
  }

  lemma {:induction false} AloneStep(c: Config, relays: nat, now: Time, run: seq<Event>, k: nat, r: nat)
    requires Valid(c, relays, now, run) && k < |run| && c.batchSize > 0 && OnlyRelay(run[|run| - 1], r)
    requires AloneInv(c, relays, now, run[..|run| - 1], k, r)
    ensures AloneInv(c, relays, now, run, k, r)
  {
    var p, e := run[..|run| - 1], run[|run| - 1];
    var s := After(c, relays, now, p);
    EveryRun(c, relays, now, p);
    if NothingPending(s) {
      StaysEmpty(c, s, e);
    } else if e.Claim? && |e.batch| == 0 {
      assert e.batch == [];
      EmptyClaimMeansEmpty(c, s, r);
    }
  }

  lemma {:induction false} WorksAlone(c: Config, relays: nat, now: Time, run: seq<Event>, k: nat, r: nat)
    requires Valid(c, relays, now, run) && k <= |run| && c.batchSize > 0
    requires forall i :: k <= i < |run| ==> OnlyRelay(run[i], r)
    requires Valid(c, relays, now, run[..k])
    requires forall q :: 0 <= q < |After(c, relays, now, run[..k]).relays| ==> After(c, relays, now, run[..k]).relays[q].Idle?
    ensures AloneInv(c, relays, now, run, k, r)
    decreases |run|
  {
    if |run| == k {
      assert run[..k] == run;
    } else {
      assert run[..|run| - 1][..k] == run[..k];
      WorksAlone(c, relays, now, run[..|run| - 1], k, r);
      AloneStep(c, relays, now, run, k, r);
    }
  }

  /** The queue empties in bounded passes even if the broker never recovers: a relay that works alone from a
      state in which no row is locked, and commits more passes than there were attempts left then, leaves
      nothing pending. Passes that roll back in between do no harm. */
  lemma {:induction false} QueueDrains(c: Config, relays: nat, now: Time, run: seq<Event>, k: nat, r: nat)
    requires Valid(c, relays, now, run) && k <= |run| && c.batchSize > 0 && c.maxAttempts > 0
    requires forall i :: k <= i < |run| ==> OnlyRelay(run[i], r)
    requires Valid(c, relays, now, run[..k])
    requires forall q :: 0 <= q < |After(c, relays, now, run[..k]).relays| ==> After(c, relays, now, run[..k]).relays[q].Idle?
    requires Commits(run, k) > Potential(c, After(c, relays, now, run[..k]).rows)
    ensures NothingPending(After(c, relays, now, run))
  {
    WorksAlone(c, relays, now, run, k, r);
    PassesBounded(c, relays, now, run, k);
  }

  /** So `maxAttempts` passes for each message ever enqueued, and one more, are always enough. */
  lemma {:induction false} QueueDrainsInLimit(c: Config, relays: nat, now: Time, run: seq<Event>, k: nat, r: nat)
    requires Valid(c, relays, now, run) && k <= |run| && c.batchSize > 0 && c.maxAttempts > 0
    requires forall i :: k <= i < |run| ==> OnlyRelay(run[i], r)
    requires Valid(c, relays, now, run[..k])
    requires forall q :: 0 <= q < |After(c, relays, now, run[..k]).relays| ==> After(c, relays, now, run[..k]).relays[q].Idle?
    requires Commits(run, k) >= c.maxAttempts * |After(c, relays, now, run[..k]).enqueued| + 1
    ensures NothingPending(After(c, relays, now, run))
  {
    AttemptsBounded(c, relays, now, run[..k], After(c, relays, now, run[..k]));
    QueueDrains(c, relays, now, run, k, r);
  }

  // ----- A pass can always start and always go on -----

  lemma {:induction false} SmallestId(ids: set<Id>) returns (least: Id)
    requires ids != {}
    ensures least in ids && forall id :: id in ids && id != least ==> least.n < id.n
  {
    least :| least in ids;
    if ids != {least} {
      var other := SmallestId(ids - {least});
      assert forall id :: id in ids ==> id == least || id in ids - {least};
      if other.n < least.n {
        least := other;
      }
    }
  }

  lemma {:induction false} InTail(m: Message, rest: seq<Message>, id: Id)
    ensures InBatch(rest, id) ==> InBatch([m] + rest, id)
  {
    if InBatch(rest, id) {
      var i :| 0 <= i < |rest| && rest[i].id == id;
      assert ([m] + rest)[i + 1].id == id;
    }
  }

  /** The first `n` of some rows, in id order. */
  lemma {:induction false} FirstOf(rows: Rows, ids: set<Id>, n: nat) returns (batch: seq<Message>)
    requires forall id :: id in ids ==> id in rows && Pending(rows[id])
    ensures Ascending(batch) && |batch| <= n && AllLoaded(rows, batch)
    ensures forall i :: 0 <= i < |batch| ==> batch[i].id in ids
    ensures forall id :: id in ids && !InBatch(batch, id) ==>
                           |batch| == n && forall i :: 0 <= i < |batch| ==> batch[i].id.n < id.n
    decreases n
  {
    if ids == {} || n == 0 {
      batch := [];
    } else {
      var least := SmallestId(ids);
      var rest := FirstOf(rows, ids - {least}, n - 1);
      batch := [Message(least, rows[least].attempts)] + rest;
      forall id | id in ids && !InBatch(batch, id)
        ensures |batch| == n && forall i :: 0 <= i < |batch| ==> batch[i].id.n < id.n
      {
        assert batch[0].id == least;
        InTail(batch[0], rest, id);
      }
    }
  }

  /** An idle relay can always claim: there is always a batch for the query to return. */
  lemma {:induction false} ClaimPossible(c: Config, s: System, r: nat) returns (batch: seq<Message>)
    requires r < |s.relays| && s.relays[r].Idle?
    ensures Enabled(c, s, Claim(r, batch))
  {
    var ids := set id | id in s.rows && Pending(s.rows[id]) && Free(s, id);
    batch := FirstOf(s.rows, ids, c.batchSize);
  }

  /** A pass that has begun is never held up by the other relays: its next step is always possible. */
  lemma {:induction false} PassGoesOn(c: Config, relays: nat, now: Time, run: seq<Event>, s: System, r: nat)
    requires Valid(c, relays, now, run) && s == After(c, relays, now, run) && Working(s, r)
    ensures var p := s.relays[r];
            && (p.done < |p.batch| && p.accepted ==> Enabled(c, s, Mark(r)))
            && (p.done < |p.batch| && !p.accepted ==> Enabled(c, s, Accept(r)) && Enabled(c, s, Refuse(r)))
            && (p.done >= |p.batch| ==> Enabled(c, s, Commit(r, true)) && Enabled(c, s, Commit(r, false)))
            && Enabled(c, s, Abort(r))
  {
    EveryRun(c, relays, now, run);
    assert PassInv(c, s.rows, s.relays[r]);
  }
}
