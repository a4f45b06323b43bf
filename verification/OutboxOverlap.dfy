/**
 A relay's pass overlapped by other relays, enqueues and prunes (outbox/relay.go on a dialect with SKIP
 LOCKED). Because its rows are locked, the pass does to them what it would have done alone: taking the
 other events out leaves a run in which the relay ends up in the same state, with the same rows, accepted
 publishes and returned count. With OutboxPass this gives the result of every pass the code makes,
 however it is interleaved.
 */
module OutboxOverlap {

  import opened OutboxTable
  import opened OutboxRelay
  import opened OutboxPass

  predicate Own(e: Event, r: nat) {
    !e.Enqueue? && !e.Prune? && !e.Tick? && e.r == r
  }

  /** The run without the events of others from `k` on; the clock is set where a row is stamped. */
  ghost function Alone(c: Config, relays: nat, now: Time, run: seq<Event>, k: nat, r: nat): seq<Event>
    requires Valid(c, relays, now, run) && k <= |run|
    decreases |run|
  {
    if |run| == k then run
    else
      var p, e := run[..|run| - 1], run[|run| - 1];
      Alone(c, relays, now, p, k, r)
      + if !Own(e, r) then [] else if e.Mark? || e.Refuse? then [Tick(After(c, relays, now, p).now), e] else [e]
  }

  /** Relay `r` cannot tell state `m` of the overlapped run from state `t` of the run alone: its pass is
      the same, and so are the rows it has locked and what the broker accepted of them. */
  ghost predicate SameForRelay(m: System, t: System, r: nat) {
    && r < |m.relays| == |t.relays| && m.relays[r] == t.relays[r] && t.now <= m.now
    && forall id :: Locked(m.relays[r], id) ==> SameRow(m, t, id)
  }

  ghost predicate SameRow(m: System, t: System, id: Id) {
    id in m.rows && id in t.rows && m.rows[id] == t.rows[id] && Count(m.accepts, id) == Count(t.accepts, id)
  }

  // ----- Events of others -----

  lemma {:induction false} OthersLeaveRow(c: Config, s: System, e: Event, r: nat, id: Id)
    requires TableInv(c, s) && PassesInv(c, s) && Enabled(c, s, e) && !Own(e, r)
    requires r < |s.relays| && Locked(s.relays[r], id)
    ensures SameRow(Apply(c, s, e), s, id)
  {
    assert !Free(s, id);
    LockedIsPending(c, s, id);
    if e.Commit? && id in s.relays[e.r].writes {
      WritesLocked(c, s, e.r, id);
    } else if e.Accept? {
      var p := s.relays[e.r];
      assert p.batch[p.done].id == id ==> Locked(p, id);
    }
  }

  lemma {:induction false} OtherEvent(c: Config, m: System, t: System, e: Event, r: nat)
    requires TableInv(c, m) && PassesInv(c, m) && SameForRelay(m, t, r) && Enabled(c, m, e) && !Own(e, r)
    ensures SameForRelay(Apply(c, m, e), t, r) && Apply(c, m, e).relays[r] == m.relays[r]
  {
    var m' := Apply(c, m, e);
    forall id | Locked(m'.relays[r], id)
      ensures SameRow(m', t, id)
    {
      assert Locked(m.relays[r], id) && SameRow(m, t, id);
      OthersLeaveRow(c, m, e, r, id);
    }
  }

  // ----- Events of the relay itself -----

  /** What the relay does next is possible on its own, and does the same. */
  lemma {:induction false} OwnMessageEvent(c: Config, m: System, t: System, e: Event, r: nat)
    requires PassesInv(c, m) && SameForRelay(m, t, r) && t.now == m.now && Enabled(c, m, e)
    requires Own(e, r) && (e.Mark? || e.Refuse?)
    ensures Enabled(c, t, e) && SameForRelay(Apply(c, m, e), Apply(c, t, e), r)
  {
    var p := m.relays[r];
    assert Locked(p, p.batch[p.done].id);
    assert SameRow(m, t, p.batch[p.done].id);
    forall id | Locked(Apply(c, m, e).relays[r], id)
      ensures SameRow(Apply(c, m, e), Apply(c, t, e), id)
    {
      assert Locked(p, id) && SameRow(m, t, id);
    }
  }

  lemma {:induction false} OwnAccept(c: Config, m: System, t: System, r: nat)
    requires SameForRelay(m, t, r) && Enabled(c, m, Accept(r))
    ensures Enabled(c, t, Accept(r)) && SameForRelay(Apply(c, m, Accept(r)), Apply(c, t, Accept(r)), r)
  {
    var p := m.relays[r];
    assert Locked(p, p.batch[p.done].id);
    assert SameRow(m, t, p.batch[p.done].id);
    forall id | Locked(Apply(c, m, Accept(r)).relays[r], id)
      ensures SameRow(Apply(c, m, Accept(r)), Apply(c, t, Accept(r)), id)
    {
      assert Locked(p, id) && SameRow(m, t, id);
    }
  }

  /** The end of the pass: each row of its batch, what the broker accepted of it and the count returned are
      what they are alone. */
  ghost predicate SameEnd(m: System, m': System, t: System, t': System, r: nat)
    requires r < |m.relays|
  {
    && (forall id :: Locked(m.relays[r], id) ==> SameRow(m', t', id))
    && m'.returned - m.returned == t'.returned - t.returned
  }

  lemma {:induction false} OwnEndEnabled(c: Config, m: System, t: System, e: Event, r: nat)
    requires SameForRelay(m, t, r) && Enabled(c, m, e) && Own(e, r) && (e.Commit? || e.Abort?)
    ensures Enabled(c, t, e) && SameForRelay(Apply(c, m, e), Apply(c, t, e), r)
    ensures Apply(c, m, e).relays[r].Idle?
    ensures Apply(c, m, e).returned - m.returned == Apply(c, t, e).returned - t.returned
  {
    assert Apply(c, m, e).relays[r].Idle? && Apply(c, t, e).relays[r].Idle?;
  }

  lemma {:induction false} OwnEndRow(c: Config, m: System, t: System, e: Event, r: nat, id: Id)
    requires r < |m.relays| == |t.relays| && m.relays[r] == t.relays[r] && SameRow(m, t, id)
    requires Enabled(c, m, e) && Enabled(c, t, e) && Own(e, r) && (e.Commit? || e.Abort?)
    ensures SameRow(Apply(c, m, e), Apply(c, t, e), id)
  {
  }

  lemma {:induction false} OwnEnd(c: Config, m: System, t: System, e: Event, r: nat)
    requires SameForRelay(m, t, r) && Enabled(c, m, e) && Own(e, r) && (e.Commit? || e.Abort?)
    ensures Enabled(c, t, e) && SameForRelay(Apply(c, m, e), Apply(c, t, e), r) && Apply(c, m, e).relays[r].Idle?
    ensures SameEnd(m, Apply(c, m, e), t, Apply(c, t, e), r)
  {
    OwnEndEnabled(c, m, t, e, r);
    forall id | Locked(m.relays[r], id)
      ensures SameRow(Apply(c, m, e), Apply(c, t, e), id)
    {
      assert SameRow(m, t, id);
      OwnEndRow(c, m, t, e, r, id);
    }
  }

  // ----- Whole passes -----

  /** From `k` on, relay `r` makes one pass: it claims at `k` and not again. */
  ghost predicate OnePass(run: seq<Event>, k: nat, r: nat) {
    && k < |run| && run[k].Claim? && run[k].r == r
    && forall i :: k < i < |run| && run[i].Claim? ==> run[i].r != r
  }

  /** What is kept along the two runs; the relay has reported nothing since its claim while it works. */
  ghost predicate Overlap(c: Config, relays: nat, now: Time, run: seq<Event>, k: nat, r: nat)
    requires Valid(c, relays, now, run) && k <= |run|
  {
    var alone := Alone(c, relays, now, run, k, r);
    && Valid(c, relays, now, alone) && Valid(c, relays, now, run[..k])
    && SameForRelay(After(c, relays, now, run), After(c, relays, now, alone), r)
    && (After(c, relays, now, run).relays[r].Active? ==>
          After(c, relays, now, alone).returned == After(c, relays, now, run[..k]).returned)
  }

  lemma {:induction false} SameWithItself(c: Config, s: System, r: nat)
    requires TableInv(c, s) && PassesInv(c, s) && r < |s.relays|
    ensures SameForRelay(s, s, r)
  {
    forall id | Locked(s.relays[r], id)
      ensures SameRow(s, s, id)
    {
      assert !Free(s, id);
      LockedIsPending(c, s, id);
    }
  }

  lemma {:induction false} Sound(c: Config, relays: nat, now: Time, run: seq<Event>)
    requires Valid(c, relays, now, run)
    ensures TableInv(c, After(c, relays, now, run)) && PassesInv(c, After(c, relays, now, run))
  {
    EveryRun(c, relays, now, run);
  }

  lemma {:induction false} AloneAtClaim(c: Config, relays: nat, now: Time, run: seq<Event>, k: nat, r: nat)
    requires Valid(c, relays, now, run) && OnePass(run, k, r) && |run| == k + 1
    ensures Alone(c, relays, now, run, k, r) == run && Valid(c, relays, now, run[..k])
    ensures Enabled(c, After(c, relays, now, run[..k]), run[k])
    ensures After(c, relays, now, run) == Apply(c, After(c, relays, now, run[..k]), run[k])
  {
    assert run[..|run| - 1] == run[..k] && run == run[..k] + [run[k]];
  }

  lemma {:induction false} ClaimOverlap(c: Config, relays: nat, now: Time, run: seq<Event>, k: nat, r: nat)
    requires Valid(c, relays, now, run) && OnePass(run, k, r) && |run| == k + 1
    ensures Overlap(c, relays, now, run, k, r)
  {
    AloneAtClaim(c, relays, now, run, k, r);
    Sound(c, relays, now, run);
    SameWithItself(c, After(c, relays, now, run), r);
  }

  /** The run alone after one more own event, `steps`: the overlapped run and it still agree. */
  lemma {:induction false} AloneGrows(c: Config, relays: nat, now: Time, p: seq<Event>, e: Event, k: nat, r: nat, steps: seq<Event>)
    requires Valid(c, relays, now, p) && k <= |p| && Own(e, r) && Enabled(c, After(c, relays, now, p), e)
    requires steps == if e.Mark? || e.Refuse? then [Tick(After(c, relays, now, p).now), e] else [e]
    ensures Valid(c, relays, now, p + [e]) && After(c, relays, now, p + [e]) == Apply(c, After(c, relays, now, p), e)
    ensures (p + [e])[..k] == p[..k]
    ensures Alone(c, relays, now, p + [e], k, r) == Alone(c, relays, now, p, k, r) + steps
  {
    Extended(c, relays, now, p, e);
    assert (p + [e])[..|p|] == p && (p + [e])[..k] == p[..k];
  }

  lemma {:induction false} MessageOverlap(c: Config, relays: nat, now: Time, p: seq<Event>, e: Event, k: nat, r: nat)
    requires Valid(c, relays, now, p) && k <= |p| && Overlap(c, relays, now, p, k, r)
    requires Enabled(c, After(c, relays, now, p), e) && Own(e, r) && (e.Mark? || e.Refuse?)
    ensures Valid(c, relays, now, p + [e]) && Overlap(c, relays, now, p + [e], k, r)
  {
    var alone, m := Alone(c, relays, now, p, k, r), After(c, relays, now, p);
    var t := After(c, relays, now, alone);
    Sound(c, relays, now, p);
    AloneGrows(c, relays, now, p, e, k, r, [Tick(m.now), e]);
    OwnMessageEvent(c, m, t.(now := m.now), e, r);
    ExtendedTwice(c, relays, now, alone, Tick(m.now), e);
  }

  lemma {:induction false} AcceptOverlap(c: Config, relays: nat, now: Time, p: seq<Event>, k: nat, r: nat)
    requires Valid(c, relays, now, p) && k <= |p| && Overlap(c, relays, now, p, k, r)
    requires Enabled(c, After(c, relays, now, p), Accept(r))
    ensures Valid(c, relays, now, p + [Accept(r)]) && Overlap(c, relays, now, p + [Accept(r)], k, r)
  {
    var alone := Alone(c, relays, now, p, k, r);
    AloneGrows(c, relays, now, p, Accept(r), k, r, [Accept(r)]);
    OwnAccept(c, After(c, relays, now, p), After(c, relays, now, alone), r);
    Extended(c, relays, now, alone, Accept(r));
  }

  /** The pass ends, in both runs. */
  lemma {:induction false} EndOverlap(c: Config, relays: nat, now: Time, p: seq<Event>, e: Event, k: nat, r: nat)
    requires Valid(c, relays, now, p) && k <= |p| && Overlap(c, relays, now, p, k, r)
    requires Enabled(c, After(c, relays, now, p), e) && Own(e, r) && (e.Commit? || e.Abort?)
    ensures Valid(c, relays, now, p + [e]) && Overlap(c, relays, now, p + [e], k, r)
    ensures SameEnd(After(c, relays, now, p), After(c, relays, now, p + [e]), After(c, relays, now, Alone(c, relays, now, p, k, r)),
                    After(c, relays, now, Alone(c, relays, now, p + [e], k, r)), r)
  {
    var alone := Alone(c, relays, now, p, k, r);
    AloneGrows(c, relays, now, p, e, k, r, [e]);
    OwnEnd(c, After(c, relays, now, p), After(c, relays, now, alone), e, r);
    Extended(c, relays, now, alone, e);
  }

  /** One own event after the claim, in both runs. */
  lemma {:induction false} OwnOverlap(c: Config, relays: nat, now: Time, p: seq<Event>, e: Event, k: nat, r: nat)
    requires Valid(c, relays, now, p) && k <= |p| && Overlap(c, relays, now, p, k, r)
    requires Enabled(c, After(c, relays, now, p), e) && Own(e, r) && !e.Claim?
    ensures Valid(c, relays, now, p + [e]) && Overlap(c, relays, now, p + [e], k, r)
  {
    if e.Mark? || e.Refuse? {
      MessageOverlap(c, relays, now, p, e, k, r);
    } else if e.Accept? {
      AcceptOverlap(c, relays, now, p, k, r);
    } else {
      EndOverlap(c, relays, now, p, e, k, r);
    }
  }

  lemma {:induction false} OtherOverlap(c: Config, relays: nat, now: Time, p: seq<Event>, e: Event, k: nat, r: nat)
    requires Valid(c, relays, now, p) && k <= |p| && Overlap(c, relays, now, p, k, r)
    requires Enabled(c, After(c, relays, now, p), e) && !Own(e, r)
    ensures Valid(c, relays, now, p + [e]) && Overlap(c, relays, now, p + [e], k, r)
  {
    Sound(c, relays, now, p);
    AloneSkips(c, relays, now, p, e, k, r);
    OtherEvent(c, After(c, relays, now, p), After(c, relays, now, Alone(c, relays, now, p, k, r)), e, r);
  }

  /** The run alone after an event of others. */
  lemma {:induction false} AloneSkips(c: Config, relays: nat, now: Time, p: seq<Event>, e: Event, k: nat, r: nat)
    requires Valid(c, relays, now, p) && k <= |p| && Enabled(c, After(c, relays, now, p), e) && !Own(e, r)
    ensures Valid(c, relays, now, p + [e]) && After(c, relays, now, p + [e]) == Apply(c, After(c, relays, now, p), e)
    ensures (p + [e])[..k] == p[..k]
    ensures Alone(c, relays, now, p + [e], k, r) == Alone(c, relays, now, p, k, r)
  {
    Extended(c, relays, now, p, e);
    assert (p + [e])[..|p|] == p && (p + [e])[..k] == p[..k];
    assert Alone(c, relays, now, p + [e], k, r) == Alone(c, relays, now, p, k, r) + [];
  }

  /** Whatever other relays, enqueues and prunes do between the steps of a pass, without them the pass is
      still a run, in which the relay goes through the same states. */
  lemma {:induction false} PassStandsAlone(c: Config, relays: nat, now: Time, run: seq<Event>, k: nat, r: nat)
    requires Valid(c, relays, now, run) && OnePass(run, k, r)
    ensures Overlap(c, relays, now, run, k, r)
    decreases |run|
  {
    if |run| == k + 1 {
      ClaimOverlap(c, relays, now, run, k, r);
    } else {
      var p, e := run[..|run| - 1], run[|run| - 1];
      PassStandsAlone(c, relays, now, p, k, r);
      assert run == p + [e];
      if Own(e, r) {
        OwnOverlap(c, relays, now, p, e, k, r);
      } else {
        OtherOverlap(c, relays, now, p, e, k, r);
      }
    }
  }

  lemma {:induction false} EventKeepsBatch(c: Config, s: System, e: Event, r: nat)
    requires Enabled(c, s, e) && r < |s.relays| && !(e.Claim? && e.r == r)
    ensures var p, p' := s.relays[r], Apply(c, s, e).relays[r];
            p'.Active? ==> p.Active? && p'.batch == p.batch
  {
  }

  lemma {:induction false} BatchKept(c: Config, relays: nat, now: Time, run: seq<Event>, k: nat, r: nat)
    requires Valid(c, relays, now, run) && OnePass(run, k, r)
    ensures var s := After(c, relays, now, run);
            r < |s.relays| && (s.relays[r].Active? ==> s.relays[r].batch == run[k].batch)
    decreases |run|
  {
    if |run| == k + 1 {
      AloneAtClaim(c, relays, now, run, k, r);
    } else {
      var p := run[..|run| - 1];
      BatchKept(c, relays, now, p, k, r);
      EventKeepsBatch(c, After(c, relays, now, p), run[|run| - 1], r);
    }
  }

  /** `run` ends with the last step of a pass that relay `r` began at `k` with `batch`, and taken by itself
      that pass is the code's for these outcomes. */
  ghost predicate PassOfCode(c: Config, relays: nat, now: Time, run: seq<Event>, k: nat, r: nat,
                             batch: seq<Message>, outcomes: seq<Outcome>, commit: CommitResult)
  {
    && Valid(c, relays, now, run) && OnePass(run, k, r) && |run| > k + 1 && run[k] == Claim(r, batch)
    && Own(run[|run| - 1], r) && (run[|run| - 1].Commit? || run[|run| - 1].Abort?)
    && Valid(c, relays, now, run[..k]) && |outcomes| == |batch| && Timely(After(c, relays, now, run[..k]).now, outcomes)
    && Alone(c, relays, now, run, k, r) == run[..k] + PassRun(r, batch, outcomes, commit)
  }

  /** The last step of the pass, seen from both runs. */
  lemma {:induction false} LastStep(c: Config, relays: nat, now: Time, run: seq<Event>, k: nat, r: nat,
                                    batch: seq<Message>, outcomes: seq<Outcome>, commit: CommitResult)
    requires PassOfCode(c, relays, now, run, k, r, batch, outcomes, commit)
    ensures var s0 := After(c, relays, now, run[..|run| - 1]);
            && Valid(c, relays, now, run[..k] + PassRun(r, batch, outcomes, commit))
            && var t := After(c, relays, now, run[..k] + PassRun(r, batch, outcomes, commit));
               && (forall id :: InBatch(batch, id) ==> SameRow(After(c, relays, now, run), t, id))
               && After(c, relays, now, run).returned - s0.returned == t.returned - After(c, relays, now, run[..k]).returned
  {
    var p, e := run[..|run| - 1], run[|run| - 1];
    assert run == p + [e] && p[..k] == run[..k];
    PassStandsAlone(c, relays, now, p, k, r);
    BatchKept(c, relays, now, p, k, r);
    EndOverlap(c, relays, now, p, e, k, r);
  }

  lemma {:induction false} ClaimedAtK(c: Config, relays: nat, now: Time, run: seq<Event>, k: nat)
    requires Valid(c, relays, now, run) && k < |run|
    ensures Valid(c, relays, now, run[..k]) && Enabled(c, After(c, relays, now, run[..k]), run[k])
  {
    ValidPrefix(c, relays, now, run, k + 1);
    assert run[..k + 1][..k] == run[..k];
  }

  /** The result of a pass of the code, however it is interleaved: the rows of its batch, what the broker
      accepted of them and the count it returned are what the code computes from the table as it was at
      the claim. */
  lemma {:induction false} InterleavedPassResult(c: Config, relays: nat, now: Time, run: seq<Event>, k: nat, r: nat,
                                                 batch: seq<Message>, outcomes: seq<Outcome>, commit: CommitResult, id: Id)
    requires PassOfCode(c, relays, now, run, k, r, batch, outcomes, commit) && InBatch(batch, id)
    ensures var s, s0, s' := After(c, relays, now, run[..k]), After(c, relays, now, run[..|run| - 1]), After(c, relays, now, run);
            var rows := if Fails(outcomes, true) || commit.NotDone? then s.rows
                        else Drained(c, s.rows, batch, outcomes, |outcomes|);
            && id in s'.rows && id in rows && s'.rows[id] == rows[id]
            && Count(s'.accepts, id) == Count(Tallied(s.accepts, Taken(batch, outcomes, Reached(outcomes, true))), id)
            && s'.returned - s0.returned
               == (if Fails(outcomes, true) || !commit.Acknowledged? then 0 else Marked(outcomes, |outcomes|))
  {
    LastStep(c, relays, now, run, k, r, batch, outcomes, commit);
    ClaimedAtK(c, relays, now, run, k);
    LockedPassIsARun(c, relays, now, run[..k], After(c, relays, now, run[..k]), r, batch, outcomes, commit);
  }

  // ----- Every pass is a pass of the code -----

  /** The messages settled so far are those of `outs`, and alone the pass consists of their steps. */
  ghost predicate Retraced(c: Config, relays: nat, now: Time, run: seq<Event>, k: nat, r: nat, outs: seq<Outcome>)
    requires Valid(c, relays, now, run) && OnePass(run, k, r)
  {
    var s := After(c, relays, now, run);
    && r < |s.relays| && s.relays[r].Active? && |outs| == s.relays[r].done <= |s.relays[r].batch|
    && (s.relays[r].accepted ==> s.relays[r].done < |s.relays[r].batch|)
    && AllSettled(outs) && Valid(c, relays, now, run[..k]) && Timely(After(c, relays, now, run[..k]).now, outs + [Unreached(s.now)])
    && Alone(c, relays, now, run, k, r)
       == run[..k] + ([run[k]] + Steps(r, outs, |outs|)) + (if s.relays[r].accepted then [Accept(r)] else [])
  }

  ghost predicate AllSettled(outs: seq<Outcome>) {
    forall i :: 0 <= i < |outs| ==> !outs[i].cancelled && outs[i].written
  }

  /** A message the loop did not get to. */
  function Unreached(at: Time): Outcome {
    Outcome(true, false, false, at)
  }

  lemma {:induction false} StepsPrefix(r: nat, a: seq<Outcome>, b: seq<Outcome>, n: nat)
    requires n <= |a| && n <= |b| && a[..n] == b[..n]
    ensures Steps(r, a, n) == Steps(r, b, n)
    decreases n
  {
    if n > 0 {
      assert a[..n][..n - 1] == a[..n - 1] && b[..n][..n - 1] == b[..n - 1];
      StepsPrefix(r, a, b, n - 1);
      assert a[n - 1] == a[..n][n - 1] && b[n - 1] == b[..n][n - 1];
    }
  }

  /** `t` begins like `s` up to its last and goes on at time `b`, not before that. */
  lemma {:induction false} TimelyOn(now: Time, s: seq<Outcome>, t: seq<Outcome>, b: Time)
    requires s != [] && Timely(now, s) && |t| >= |s| - 1 && s[|s| - 1].at <= b
    requires forall i :: 0 <= i < |t| ==> t[i].at == if i < |s| - 1 then s[i].at else b
    ensures Timely(now, t)
  {
    forall i, j | 0 <= i < j < |t|
      ensures t[i].at <= t[j].at
    {
      assert i < |s| - 1 ==> s[i].at <= s[|s| - 1].at;
      assert j < |s| - 1 ==> s[i].at <= s[j].at;
    }
  }

  lemma {:induction false} RetracedClaim(c: Config, relays: nat, now: Time, run: seq<Event>, k: nat, r: nat)
    requires Valid(c, relays, now, run) && OnePass(run, k, r) && |run| == k + 1
    ensures Retraced(c, relays, now, run, k, r, [])
  {
    AloneAtClaim(c, relays, now, run, k, r);
    assert run == run[..k] + [run[k]];
    assert [run[k]] + [] == [run[k]] && run[..k] + [run[k]] + [] == run[..k] + [run[k]];
    NowGrows(c, relays, now, run, k);
  }

  lemma {:induction false} NowGrows(c: Config, relays: nat, now: Time, run: seq<Event>, k: nat)
    requires Valid(c, relays, now, run) && k <= |run|
    ensures Valid(c, relays, now, run[..k]) && After(c, relays, now, run[..k]).now <= After(c, relays, now, run).now
    decreases |run|
  {
    if k == |run| {
      assert run[..k] == run;
    } else {
      var p := run[..|run| - 1];
      NowGrows(c, relays, now, p, k);
      assert p[..k] == run[..k];
    }
  }

  lemma {:induction false} RetracedOther(c: Config, relays: nat, now: Time, p: seq<Event>, e: Event, k: nat, r: nat, outs: seq<Outcome>)
    requires Valid(c, relays, now, p) && OnePass(p, k, r) && Retraced(c, relays, now, p, k, r, outs)
    requires Enabled(c, After(c, relays, now, p), e) && !Own(e, r)
    ensures Valid(c, relays, now, p + [e]) && OnePass(p + [e], k, r) && Retraced(c, relays, now, p + [e], k, r, outs)
  {
    AloneSkips(c, relays, now, p, e, k, r);
    var a, b := After(c, relays, now, p).now, After(c, relays, now, p + [e]).now;
    TimelyOn(After(c, relays, now, p[..k]).now, outs + [Unreached(a)], outs + [Unreached(b)], b);
  }

  lemma {:induction false} RetracedAccept(c: Config, relays: nat, now: Time, p: seq<Event>, k: nat, r: nat, outs: seq<Outcome>)
    requires Valid(c, relays, now, p) && OnePass(p, k, r) && Retraced(c, relays, now, p, k, r, outs)
    requires Enabled(c, After(c, relays, now, p), Accept(r))
    ensures Valid(c, relays, now, p + [Accept(r)]) && OnePass(p + [Accept(r)], k, r)
    ensures Retraced(c, relays, now, p + [Accept(r)], k, r, outs)
  {
    AloneGrows(c, relays, now, p, Accept(r), k, r, [Accept(r)]);
    var a := p[..k] + ([p[k]] + Steps(r, outs, |outs|));
    assert a + [] + [Accept(r)] == a + [Accept(r)];
  }

  /** How the message at hand came out. */
  function Came(e: Event, at: Time): Outcome {
    Outcome(false, e.Mark?, true, at)
  }

  lemma {:induction false} StepsGrow(a: seq<Event>, first: Event, r: nat, outs: seq<Outcome>, e: Event, at: Time)
    requires e == Mark(r) || e == Refuse(r)
    ensures a + ([first] + Steps(r, outs, |outs|)) + (if e.Mark? then [Accept(r)] else []) + [Tick(at), e]
         == a + ([first] + Steps(r, outs + [Came(e, at)], |outs| + 1)) + []
  {
    var more := outs + [Came(e, at)];
    assert more[..|outs|] == outs[..|outs|];
    StepsPrefix(r, outs, more, |outs|);
  }

  lemma {:induction false} RetracedMessage(c: Config, relays: nat, now: Time, p: seq<Event>, e: Event, k: nat, r: nat, outs: seq<Outcome>)
    requires Valid(c, relays, now, p) && OnePass(p, k, r) && Retraced(c, relays, now, p, k, r, outs)
    requires Enabled(c, After(c, relays, now, p), e) && (e == Mark(r) || e == Refuse(r))
    ensures Valid(c, relays, now, p + [e]) && OnePass(p + [e], k, r)
    ensures Retraced(c, relays, now, p + [e], k, r, outs + [Came(e, After(c, relays, now, p).now)])
  {
    var at := After(c, relays, now, p).now;
    AloneGrows(c, relays, now, p, e, k, r, [Tick(at), e]);
    StepsGrow(p[..k], p[k], r, outs, e, at);
    TimelyOn(After(c, relays, now, p[..k]).now, outs + [Unreached(at)], outs + [Came(e, at)] + [Unreached(at)], at);
  }

  /** What became of the messages of a pass that is under way. */
  lemma {:induction false} PassRetraced(c: Config, relays: nat, now: Time, run: seq<Event>, k: nat, r: nat)
    returns (outs: seq<Outcome>)
    requires Valid(c, relays, now, run) && OnePass(run, k, r)
    requires r < |After(c, relays, now, run).relays| && After(c, relays, now, run).relays[r].Active?
    ensures Retraced(c, relays, now, run, k, r, outs)
    decreases |run|
  {
    if |run| == k + 1 {
      RetracedClaim(c, relays, now, run, k, r);
      outs := [];
    } else {
      var p, e := run[..|run| - 1], run[|run| - 1];
      assert run == p + [e];
      outs := PassRetraced(c, relays, now, p, k, r);
      if !Own(e, r) {
        RetracedOther(c, relays, now, p, e, k, r, outs);
      } else if e.Accept? {
        RetracedAccept(c, relays, now, p, k, r, outs);
      } else {
        RetracedMessage(c, relays, now, p, e, k, r, outs);
        outs := outs + [Came(e, After(c, relays, now, p).now)];
      }
    }
  }

  /** The outcomes of a pass of `n` messages that ended after `outs`, with the next one accepted or not. */
  function Completed(outs: seq<Outcome>, accepted: bool, n: nat, at: Time): (os: seq<Outcome>)
    requires |outs| <= n && (accepted ==> |outs| < n)
    ensures |os| == n && os[..|outs|] == outs
  {
    outs + seq(n - |outs|, i => if accepted && i == 0 then Outcome(false, true, false, at) else Unreached(at))
  }

  lemma {:induction false} CompletedSettled(outs: seq<Outcome>, accepted: bool, n: nat, at: Time)
    requires |outs| <= n && (accepted ==> |outs| < n) && AllSettled(outs)
    ensures SettledCount(Completed(outs, accepted, n, at)) == |outs|
    ensures Reached(Completed(outs, accepted, n, at), true) == |outs| + if accepted then 1 else 0
  {
    var os, d := Completed(outs, accepted, n, at), |outs|;
    var m := Reached(os, true);
    assert forall i :: 0 <= i < d ==> os[i] == outs[i] && !os[i].cancelled && os[i].written;
    assert d < n ==> os[d] == if accepted then Outcome(false, true, false, at) else Unreached(at);
    assert m >= d;
  }

  /** How COMMIT came out, by the last event of the pass. */
  function CommitOf(e: Event): CommitResult {
    if !e.Commit? then NotDone else if e.told then Acknowledged else AnswerLost
  }

  /** The whole pass by itself, with its last event. */
  lemma {:induction false} PassAlone(c: Config, relays: nat, now: Time, p: seq<Event>, e: Event, k: nat, r: nat,
                                     batch: seq<Message>, outs: seq<Outcome>, outcomes: seq<Outcome>)
    requires Valid(c, relays, now, p) && OnePass(p, k, r) && Retraced(c, relays, now, p, k, r, outs) && p[k] == Claim(r, batch)
    requires Enabled(c, After(c, relays, now, p), e) && Own(e, r) && (e.Commit? || e.Abort?)
    requires |outs| <= |batch| && After(c, relays, now, p).relays[r].batch == batch
    requires After(c, relays, now, p).relays[r].accepted ==> |outs| < |batch|
    requires outcomes == Completed(outs, After(c, relays, now, p).relays[r].accepted, |batch|, After(c, relays, now, p).now)
    ensures Valid(c, relays, now, p + [e])
    ensures Alone(c, relays, now, p + [e], k, r) == p[..k] + PassRun(r, batch, outcomes, CommitOf(e))
  {
    var accepted := After(c, relays, now, p).relays[r].accepted;
    AloneGrows(c, relays, now, p, e, k, r, [e]);
    CompletedSettled(outs, accepted, |batch|, After(c, relays, now, p).now);
    StepsPrefix(r, outs, outcomes, |outs|);
    EndingOf(r, outs, outcomes, accepted, e);
    Assembled(p[..k], [p[k]] + Steps(r, outs, |outs|), if accepted then [Accept(r)] else [], [e]);
  }

  /** Every pass that ends, in every run, is the code's for some outcomes of its messages and of its COMMIT:
      InterleavedPassResult speaks of all of them. */
  lemma {:induction false} EveryPassIsOfCode(c: Config, relays: nat, now: Time, run: seq<Event>, k: nat, r: nat)
    returns (outcomes: seq<Outcome>, commit: CommitResult)
    requires Valid(c, relays, now, run) && OnePass(run, k, r) && |run| > k + 1
    requires Own(run[|run| - 1], r) && (run[|run| - 1].Commit? || run[|run| - 1].Abort?)
    ensures PassOfCode(c, relays, now, run, k, r, run[k].batch, outcomes, commit)
  {
    var p, e := run[..|run| - 1], run[|run| - 1];
    assert run == p + [e] && p[..k] == run[..k];
    var s := After(c, relays, now, p);
    var outs := PassRetraced(c, relays, now, p, k, r);
    BatchKept(c, relays, now, p, k, r);
    outcomes := Completed(outs, s.relays[r].accepted, |run[k].batch|, s.now);
    commit := CommitOf(e);
    TimelyOn(After(c, relays, now, p[..k]).now, outs + [Unreached(s.now)], outcomes, s.now);
    PassAlone(c, relays, now, p, e, k, r, run[k].batch, outs, outcomes);
  }

  lemma {:induction false} EndingOf(r: nat, outs: seq<Outcome>, outcomes: seq<Outcome>, accepted: bool, e: Event)
    requires |outs| <= |outcomes| && SettledCount(outcomes) == |outs|
    requires Reached(outcomes, true) == |outs| + if accepted then 1 else 0
    requires accepted ==> outcomes[|outs|].taken && e.Abort?
    requires e == Abort(r) || (|outs| == |outcomes| && (e == Commit(r, true) || e == Commit(r, false)))
    ensures Ending(r, outcomes, CommitOf(e)) == (if accepted then [Accept(r)] else []) + [e]
  {
  }

  lemma {:induction false} Assembled(a: seq<Event>, b: seq<Event>, c: seq<Event>, d: seq<Event>)
    ensures a + b + c + d == a + (b + (c + d))
  {
  }
}
