/**
 What callers of the load-through cache get (cache/loader.go, cache/memory.go): the results of loads, read
 off the run, and what an expiry means, in clock readings alone.
 */
module LoaderExpiry {

  import opened Options
  import opened Loader

  /** On any cache: a value stored with a time to live is found up to and including its end, and one stored
      without is found for ever. */
  method SetThenGet<K(==), V>(cache: MemoryCache<K, V>, key: K, value: V, ttl: int, storedAt: Time, readAt: Time, purgeAt: Time)
    returns (r: Option<V>)
    requires readAt <= purgeAt
    modifies cache
    ensures r == if ttl <= 0 || readAt <= storedAt + ttl then Some(value) else None
    ensures r.None? ==> key !in cache.entries
  {
    cache.Set(key, value, ttl, storedAt);
    r := cache.Get(key, readAt, purgeAt);
  }

  // ----- Results come from loads -----

  /** The load of call `t` ended in the run, well or badly. */
  predicate Ended<K(==)>(run: seq<Event<K>>, t: Call, ok: bool) {
    LoadEnds(t, ok) in run
  }

  /** Some load of key `k` ended badly. */
  ghost predicate SomeFailed<K>(run: seq<Event<K>>, s: System<K>, k: K) {
    exists u :: 0 <= u < |s.calls| && s.calls[u].key == k && Ended(run, u, false)
  }

  /** Where a call stands, given how its own load ended. */
  ghost predicate PhaseTold<K>(run: seq<Event<K>>, s: System<K>, t: Call)
    requires t < |s.calls|
  {
    var p := s.calls[t].phase;
    && (Ended(run, t, true) <==> p.Loaded? || p.Storing? || p == Landing(Ok(t)) || p == Returned(Ok(t)))
    && (Ended(run, t, false) ==> p == Landing(Err) || p == Returned(Err))
    && (p == Landing(Err) ==> Ended(run, t, false))
    && (p == Returned(Err) ==> SomeFailed(run, s, s.calls[t].key))
  }

  ghost predicate RunTold<K(!new)>(run: seq<Event<K>>, s: System<K>) {
    && (forall t :: 0 <= t < |s.calls| ==> PhaseTold(run, s, t))
    && (forall i :: 0 <= i < |run| && run[i].LoadEnds? ==> run[i].t < |s.calls|)
  }

  lemma {:induction false} FailedKept<K(!new)>(ttl: int, run: seq<Event<K>>, s: System<K>, e: Event<K>, k: K)
    requires Enabled(s, e) && SomeFailed(run, s, k)
    ensures SomeFailed(run + [e], Apply(ttl, s, e), k)
  {
    var u :| 0 <= u < |s.calls| && s.calls[u].key == k && Ended(run, u, false);
    assert Ended(run + [e], u, false);
  }

  lemma {:induction false} OtherPhaseTold<K(!new)>(ttl: int, run: seq<Event<K>>, s: System<K>, e: Event<K>, t: Call)
    requires RunTold(run, s) && Enabled(s, e) && t < |s.calls| && (e.Step? || e.LoadEnds? ==> t != e.t)
    ensures t < |Apply(ttl, s, e).calls| && PhaseTold(run + [e], Apply(ttl, s, e), t)
  {
    CallKept(ttl, s, e, t);
    assert PhaseTold(run, s, t);
    if s.calls[t].phase == Returned(Err) {
      FailedKept(ttl, run, s, e, s.calls[t].key);
    }
  }

  lemma {:induction false} MoverPhaseTold<K(!new)>(ttl: int, run: seq<Event<K>>, s: System<K>, t: Call)
    requires Inv(ttl, s) && RunTold(run, s) && Enabled(s, Step(t)) && !s.calls[t].phase.Waiting?
    ensures PhaseTold(run + [Step(t)], Apply(ttl, s, Step(t)), t)
  {
    assert PhaseTold(run, s, t) && GetterSound(ttl, s, t);
    if s.calls[t].phase == Landing(Err) {
      assert SomeFailed(run, s, s.calls[t].key);
      FailedKept(ttl, run, s, Step(t), s.calls[t].key);
    }
    if s.calls[t].phase.Judge? {
      JudgedByOther(ttl, s, t);
    }
  }

  /** The entry a call has read is not its own. */
  lemma {:induction false} JudgedByOther<K(!new)>(ttl: int, s: System<K>, t: Call)
    requires Inv(ttl, s) && t < |s.calls| && s.calls[t].phase.Judge?
    ensures s.calls[t].phase.entry.value != t
  {
    assert GetterSound(ttl, s, t);
  }

  lemma {:induction false} WaiterPhaseTold<K(!new)>(ttl: int, run: seq<Event<K>>, s: System<K>, t: Call)
    requires Inv(ttl, s) && RunTold(run, s) && Enabled(s, Step(t)) && s.calls[t].phase.Waiting?
    ensures PhaseTold(run + [Step(t)], Apply(ttl, s, Step(t)), t)
  {
    var u := s.calls[t].phase.leader;
    assert PhaseTold(run, s, t) && GetterSound(ttl, s, t);
    assert PhaseTold(run, s, u) && GetterSound(ttl, s, u);
    if s.calls[u].phase == Returned(Err) {
      FailedKept(ttl, run, s, Step(t), s.calls[t].key);
    }
  }

  lemma {:induction false} LoadEndTold<K(!new)>(ttl: int, run: seq<Event<K>>, s: System<K>, t: Call, ok: bool)
    requires RunTold(run, s) && Enabled(s, LoadEnds(t, ok))
    ensures PhaseTold(run + [LoadEnds(t, ok)], Apply(ttl, s, LoadEnds(t, ok)), t)
  {
    assert PhaseTold(run, s, t);
    assert !Ended(run, t, true) && !Ended(run, t, false);
  }

  lemma {:induction false} ToldStep<K(!new)>(ttl: int, run: seq<Event<K>>, s: System<K>, e: Event<K>)
    requires Inv(ttl, s) && RunTold(run, s) && Enabled(s, e)
    ensures RunTold(run + [e], Apply(ttl, s, e))
  {
    var s' := Apply(ttl, s, e);
    forall t | 0 <= t < |s'.calls|
      ensures PhaseTold(run + [e], s', t)
    {
      if t < |s.calls| && (e.Step? || e.LoadEnds? ==> t != e.t) {
        OtherPhaseTold(ttl, run, s, e, t);
      } else if e.LoadEnds? {
        LoadEndTold(ttl, run, s, t, e.ok);
      } else if e.Step? && s.calls[t].phase.Waiting? {
        WaiterPhaseTold(ttl, run, s, t);
      } else if e.Step? {
        MoverPhaseTold(ttl, run, s, t);
      } else {
        NewcomerTold(run, s, e, t);
      }
    }
    forall i | 0 <= i < |run + [e]| && (run + [e])[i].LoadEnds?
      ensures (run + [e])[i].t < |s'.calls|
    {
      if i < |run| {
        assert (run + [e])[i] == run[i];
      }
    }
  }

  lemma {:induction false} NewcomerTold<K(!new)>(run: seq<Event<K>>, s: System<K>, e: Event<K>, t: Call)
    requires RunTold(run, s) && !e.LoadEnds? && t >= |s.calls|
    ensures !Ended(run + [e], t, true) && !Ended(run + [e], t, false)
  {
    forall i | 0 <= i < |run + [e]|
      ensures (run + [e])[i] != LoadEnds(t, true) && (run + [e])[i] != LoadEnds(t, false)
    {
      if i < |run| {
        assert (run + [e])[i] == run[i];
      }
    }
  }

  lemma {:induction false} EveryRunTold<K(!new)>(ttl: int, now: Time, run: seq<Event<K>>)
    requires ValidFrom(ttl, Start(now), run)
    ensures Inv(ttl, AfterFrom(ttl, Start(now), run)) && RunTold(run, AfterFrom(ttl, Start(now), run))
    decreases |run|
  {
    EveryRun(ttl, Start(now), run);
    if run != [] {
      var p, e := run[..|run| - 1], run[|run| - 1];
      EveryRunTold(ttl, now, p);
      ToldStep(ttl, p, AfterFrom(ttl, Start(now), p), e);
      assert run == p + [e];
    }
  }

  /** In every run: a call whose own load ended returns that load's value or error; any other returns a value
      that a load of its key produced, or an error because a load of its key failed. */
  lemma {:induction false} ResultsFromLoads<K(!new)>(ttl: int, now: Time, run: seq<Event<K>>, s: System<K>, t: Call)
    requires ValidFrom(ttl, Start(now), run) && s == AfterFrom(ttl, Start(now), run)
    requires t < |s.calls| && s.calls[t].phase.Returned?
    ensures LoadEnds(t, true) in run ==> s.calls[t].phase.result == Ok(t)
    ensures LoadEnds(t, false) in run ==> s.calls[t].phase.result == Err
    ensures match s.calls[t].phase.result
            case Ok(v) => v < |s.calls| && s.calls[v].key == s.calls[t].key && LoadEnds(v, true) in run
            case Err => exists u :: 0 <= u < |s.calls| && s.calls[u].key == s.calls[t].key && LoadEnds(u, false) in run
  {
    EveryRunTold(ttl, now, run);
    assert PhaseTold(run, s, t) && GetterSound(ttl, s, t);
    match s.calls[t].phase.result
    case Ok(v) =>
      assert PhaseTold(run, s, v) && Ended(run, v, true);
    case Err =>
      var u :| 0 <= u < |s.calls| && s.calls[u].key == s.calls[t].key && Ended(run, u, false);
      assert LoadEnds(u, false) in run;
  }

  // ----- Every stored value carries its stamp -----

  /** The entry's value was stamped, and its expiry counts from there. */
  ghost predicate Stamped<K>(ttl: int, s: System<K>, e: Entry<Call>) {
    && e.value < |s.calls| && s.calls[e.value].stampedAt.Some?
    && e.expiresAt == if ttl > 0 then Some(s.calls[e.value].stampedAt.value + ttl) else None
  }

  ghost predicate StampSound<K>(ttl: int, s: System<K>, t: Call)
    requires t < |s.calls|
  {
    && (s.calls[t].stampedAt.Some? ==> s.calls[t].began)
    && match s.calls[t].phase
       case Judge(_, e) => s.calls[t].stampedAt.None? && Stamped(ttl, s, e)
       case Storing(e) => e.value == t && Stamped(ttl, s, e)
       case Landing(r) => ResultStamped(s, r)
       case Returned(r) => ResultStamped(s, r)
       case _ => s.calls[t].stampedAt.None?
  }

  ghost predicate ResultStamped<K>(s: System<K>, r: Outcome) {
    r.Ok? ==> r.value < |s.calls| && s.calls[r.value].stampedAt.Some?
  }

  ghost predicate StampInv<K(!new)>(ttl: int, s: System<K>) {
    && (forall t :: 0 <= t < |s.calls| ==> StampSound(ttl, s, t))
    && (forall k :: k in s.entries ==> Stamped(ttl, s, s.entries[k]))
  }

  /** A stamp stays. */
  lemma {:induction false} StampKept<K(!new)>(ttl: int, s: System<K>, e: Event<K>, v: Call)
    requires StampInv(ttl, s) && Enabled(s, e) && v < |s.calls| && s.calls[v].stampedAt.Some?
    ensures v < |Apply(ttl, s, e).calls| && Apply(ttl, s, e).calls[v].stampedAt == s.calls[v].stampedAt
  {
    assert StampSound(ttl, s, v);
  }

  lemma {:induction false} OtherStampSound<K(!new)>(ttl: int, s: System<K>, e: Event<K>, t: Call)
    requires StampInv(ttl, s) && Enabled(s, e) && t < |s.calls| && (e.Step? || e.LoadEnds? ==> t != e.t)
    ensures t < |Apply(ttl, s, e).calls| && StampSound(ttl, Apply(ttl, s, e), t)
  {
    assert StampSound(ttl, s, t);
    CallKept(ttl, s, e, t);
    match s.calls[t].phase
    case Judge(_, x) => StampKept(ttl, s, e, x.value);
    case Storing(x) => StampKept(ttl, s, e, x.value);
    case Landing(r) => if r.Ok? { StampKept(ttl, s, e, r.value); }
    case Returned(r) => if r.Ok? { StampKept(ttl, s, e, r.value); }
    case _ =>
  }

  lemma {:induction false} ReaderStampSound<K(!new)>(ttl: int, s: System<K>, t: Call)
    requires StampInv(ttl, s) && Enabled(s, Step(t))
    requires s.calls[t].phase.Look? || s.calls[t].phase.Judge? || s.calls[t].phase.Purge?
    ensures StampSound(ttl, Apply(ttl, s, Step(t)), t)
  {
    assert StampSound(ttl, s, t);
  }

  lemma {:induction false} LoaderStampSound<K(!new)>(ttl: int, s: System<K>, t: Call)
    requires Inv(ttl, s) && StampInv(ttl, s) && Enabled(s, Step(t))
    requires !s.calls[t].phase.Look? && !s.calls[t].phase.Judge? && !s.calls[t].phase.Purge?
    ensures StampSound(ttl, Apply(ttl, s, Step(t)), t)
  {
    assert StampSound(ttl, s, t) && GetterSound(ttl, s, t);
    if s.calls[t].phase.Waiting? {
      var u := s.calls[t].phase.leader;
      assert StampSound(ttl, s, u);
    }
  }

  lemma {:induction false} StampStep<K(!new)>(ttl: int, s: System<K>, e: Event<K>)
    requires Inv(ttl, s) && StampInv(ttl, s) && Enabled(s, e)
    ensures StampInv(ttl, Apply(ttl, s, e))
  {
    var s' := Apply(ttl, s, e);
    forall t | 0 <= t < |s'.calls|
      ensures StampSound(ttl, s', t)
    {
      if t < |s.calls| && (e.Step? || e.LoadEnds? ==> t != e.t) {
        OtherStampSound(ttl, s, e, t);
      } else if e.Step? {
        if s.calls[t].phase.Look? || s.calls[t].phase.Judge? || s.calls[t].phase.Purge? {
          ReaderStampSound(ttl, s, t);
        } else {
          LoaderStampSound(ttl, s, t);
        }
      } else if e.LoadEnds? {
        assert StampSound(ttl, s, t);
      }
    }
    forall k | k in s'.entries
      ensures Stamped(ttl, s', s'.entries[k])
    {
      EntryStampKept(ttl, s, e, k);
    }
  }

  lemma {:induction false} EntryStampKept<K(!new)>(ttl: int, s: System<K>, e: Event<K>, k: K)
    requires StampInv(ttl, s) && Enabled(s, e) && k in Apply(ttl, s, e).entries
    ensures Stamped(ttl, Apply(ttl, s, e), Apply(ttl, s, e).entries[k])
  {
    var entry := Apply(ttl, s, e).entries[k];
    if e.Step? {
      assert StampSound(ttl, s, e.t);
    }
    assert Stamped(ttl, s, entry);
    StampKept(ttl, s, e, entry.value);
  }

  lemma {:induction false} EveryRunStamped<K(!new)>(ttl: int, now: Time, run: seq<Event<K>>)
    requires ValidFrom(ttl, Start(now), run)
    ensures Inv(ttl, AfterFrom(ttl, Start(now), run)) && StampInv(ttl, AfterFrom(ttl, Start(now), run))
    decreases |run|
  {
    EveryRun(ttl, Start(now), run);
    if run != [] {
      EveryRunStamped(ttl, now, run[..|run| - 1]);
      StampStep(ttl, AfterFrom(ttl, Start(now), run[..|run| - 1]), run[|run| - 1]);
    }
  }

  // ----- Expired values -----

  /** The value loaded by call `v` was stamped more than the time to live ago. */
  ghost predicate Expired<K>(ttl: int, s: System<K>, v: Call) {
    v < |s.calls| && s.calls[v].stampedAt.Some? && s.now > s.calls[v].stampedAt.value + ttl
  }

  /** A flight of `k` is about to store or to return an expired value. */
  ghost predicate LandsExpired<K>(ttl: int, s: System<K>, k: K) {
    exists t :: 0 <= t < |s.calls| && s.calls[t].key == k && HoldsExpired(ttl, s, t)
  }

  ghost predicate HoldsExpired<K>(ttl: int, s: System<K>, t: Call)
    requires t < |s.calls|
  {
    match s.calls[t].phase
    case Storing(_) => Expired(ttl, s, t)
    case Landing(r) => r.Ok? && Expired(ttl, s, r.value)
    case _ => false
  }

  /** In some continuation a `Get` of `k` that has not started yet returns a value that is expired now. */
  ghost predicate ServesExpired<K(!new)>(ttl: int, s: System<K>, k: K) {
    exists s', c: Call, v :: ServedExpired(ttl, s, k, s', c, v)
  }

  ghost predicate ServedExpired<K(!new)>(ttl: int, s: System<K>, k: K, s': System<K>, c: Call, v: Call) {
    && Reach(ttl, s, s') && |s.calls| <= c < |s'.calls| && s'.calls[c].key == k
    && s'.calls[c].phase == Returned(Ok(v)) && Expired(ttl, s, v)
  }

  ghost function ExpiredIn<K>(ttl: int, s: System<K>): set<Call> {
    set v | 0 <= v < |s.calls| && Expired(ttl, s, v)
  }

  lemma {:induction false} ExpiredKeptOut<K(!new)>(ttl: int, s: System<K>, k: K)
    requires Inv(ttl, s) && StampInv(ttl, s) && ttl > 0 && !LandsExpired(ttl, s, k)
    ensures OnlyFresh(|s.calls|, ExpiredIn(ttl, s), s, k)
  {
    var bad := ExpiredIn(ttl, s);
    forall t | 0 <= t < |s.calls|
      ensures t in bad ==> s.calls[t].began
      ensures s.calls[t].key == k ==> FreshLeader(bad, s, t)
    {
      assert StampSound(ttl, s, t);
      assert s.calls[t].key == k ==> !HoldsExpired(ttl, s, t);
    }
  }

  lemma {:induction false} NeverServesExpired<K(!new)>(ttl: int, s: System<K>, k: K)
    requires Inv(ttl, s) && StampInv(ttl, s) && ttl > 0 && !LandsExpired(ttl, s, k)
    ensures !ServesExpired(ttl, s, k)
  {
    var n, bad := |s.calls|, ExpiredIn(ttl, s);
    ExpiredKeptOut(ttl, s, k);
    forall s', c: Call, v
      ensures !ServedExpired(ttl, s, k, s', c, v)
    {
      if Reach(ttl, s, s') && n <= c < |s'.calls| && s'.calls[c].key == k {
        var run :| ValidFrom(ttl, s, run) && AfterFrom(ttl, s, run) == s';
        FreshAlong(ttl, n, bad, s, k, run);
        assert FreshNewcomer(bad, s', c);
      }
    }
  }

  lemma {:induction false} LandingServesExpired<K(!new)>(ttl: int, s: System<K>, k: K, t: Call)
    requires Inv(ttl, s) && t < |s.calls| && s.calls[t].key == k && HoldsExpired(ttl, s, t)
    ensures ServesExpired(ttl, s, k)
  {
    var c := |s.calls|;
    assert GetterSound(ttl, s, t);
    assert ValidFrom(ttl, s, []) && AfterFrom(ttl, s, []) == s;
    ReachStep(ttl, s, s, Invalidate(k));
    StepKeeps(ttl, s, Invalidate(k));
    var i := Apply(ttl, s, Invalidate(k));
    var m := Joins(ttl, i, k);
    ReachJoins(ttl, s, i, m);
    var m', v := CarriedLands(ttl, s, m, t, c);
    ReachStep(ttl, s, m', Step(t));
    var r := Apply(ttl, m', Step(t));
    ReachStep(ttl, s, r, Step(c));
    assert ServedExpired(ttl, s, k, Apply(ttl, r, Step(c)), c, v);
  }

  lemma {:induction false} ReachJoins<K(!new)>(ttl: int, a: System<K>, b: System<K>, c: System<K>)
    requires Reach(ttl, a, b) && Reach(ttl, b, c)
    ensures Reach(ttl, a, c)
  {
    var run :| ValidFrom(ttl, b, run) && AfterFrom(ttl, b, run) == c;
    ReachAlong(ttl, a, b, run);
  }

  lemma {:induction false} ReachAlong<K(!new)>(ttl: int, a: System<K>, b: System<K>, run: seq<Event<K>>)
    requires Reach(ttl, a, b) && ValidFrom(ttl, b, run)
    ensures Reach(ttl, a, AfterFrom(ttl, b, run))
    decreases |run|
  {
    if run != [] {
      var p := run[..|run| - 1];
      ReachAlong(ttl, a, b, p);
      ReachStep(ttl, a, AfterFrom(ttl, b, p), run[|run| - 1]);
    }
  }

  /** A call never returns a value that was stamped more than the time to live before the call began, unless
      a flight it can join was about to store or to return that value at that moment; then it can. */
  lemma {:induction false} ExpiryExact<K(!new)>(ttl: int, now: Time, run: seq<Event<K>>, s: System<K>, k: K)
    requires ttl > 0 && ValidFrom(ttl, Start(now), run) && s == AfterFrom(ttl, Start(now), run)
    ensures ServesExpired(ttl, s, k) <==> LandsExpired(ttl, s, k)
  {
    EveryRunStamped(ttl, now, run);
    if LandsExpired(ttl, s, k) {
      var t :| 0 <= t < |s.calls| && s.calls[t].key == k && HoldsExpired(ttl, s, t);
      LandingServesExpired(ttl, s, k, t);
    } else {
      NeverServesExpired(ttl, s, k);
    }
  }

  /** With no flight of the key under way and nothing but an expired value in the cache, every call that
      begins from now on and succeeds returns a value whose load had not begun: the key is loaded again. */
  lemma {:induction false} ExpiredReloads<K(!new)>(ttl: int, now: Time, run: seq<Event<K>>, s: System<K>, k: K,
                                                   later: seq<Event<K>>, end: System<K>, c: Call)
    requires ttl > 0 && ValidFrom(ttl, Start(now), run) && s == AfterFrom(ttl, Start(now), run)
    requires k !in s.flights && (k in s.entries ==> Expired(ttl, s, s.entries[k].value))
    requires ValidFrom(ttl, s, later) && end == AfterFrom(ttl, s, later)
    requires |s.calls| <= c < |end.calls| && end.calls[c].key == k && end.calls[c].phase.Returned?
    ensures end.calls[c].phase.result.Ok? ==>
              var v := end.calls[c].phase.result.value;
              !Old(s, v) && Produced(end, k, v)
  {
    EveryRunStamped(ttl, now, run);
    EveryRun(ttl, s, later);
    assert GetterSound(ttl, end, c);
    forall t | 0 <= t < |s.calls| && s.calls[t].key == k
      ensures FreshLeader(BegunIn(s), s, t)
    {
      assert GetterSound(ttl, s, t);
    }
    FreshAlong(ttl, |s.calls|, BegunIn(s), s, k, later);
    assert FreshNewcomer(BegunIn(s), end, c);
  }

  /** Such a moment: a call has stamped its value and more than the time to live passes before it is stored. */
  lemma {:induction false} SlowStoreServesExpired(ttl: int, now: Time)
    requires ttl > 0
    ensures var run := [Begin(7), Step(0), Step(0), Step(0), Step(0)] + [LoadEnds(0, true), Step(0)] + [Tick(now + ttl + 1)];
            ValidFrom(ttl, Start(now), run) && ServesExpired(ttl, AfterFrom(ttl, Start(now), run), 7)
  {
    var loading: seq<Event<int>> := [Begin(7), Step(0), Step(0), Step(0), Step(0)];
    LoadingRun(ttl, now);
    RunExtends(ttl, Start(now), loading, LoadEnds(0, true));
    var a := loading + [LoadEnds(0, true)];
    assert AfterFrom(ttl, Start(now), a).calls == [Getter(7, Loaded, true, now, None)];
    RunExtends(ttl, Start(now), a, Step(0));
    assert a + [Step(0)] == loading + [LoadEnds(0, true), Step(0)];
    var b := loading + [LoadEnds(0, true), Step(0)];
    assert AfterFrom(ttl, Start(now), b).calls == [Getter(7, Storing(Entry(0, Some(now + ttl))), true, now, Some(now))];
    RunExtends(ttl, Start(now), b, Tick(now + ttl + 1));
    var run := b + [Tick(now + ttl + 1)];
    ExpiryExact(ttl, now, run, AfterFrom(ttl, Start(now), run), 7);
    assert HoldsExpired(ttl, AfterFrom(ttl, Start(now), run), 0);
  }

  lemma {:induction false} RunExtends<K>(ttl: int, s: System<K>, run: seq<Event<K>>, e: Event<K>)
    requires ValidFrom(ttl, s, run) && Enabled(AfterFrom(ttl, s, run), e)
    ensures ValidFrom(ttl, s, run + [e]) && AfterFrom(ttl, s, run + [e]) == Apply(ttl, AfterFrom(ttl, s, run), e)
  {
    assert (run + [e])[..|run|] == run;
  }
}
