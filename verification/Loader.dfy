/**
 The load-through cache (cache/loader.go) over the in-process cache (cache/memory.go).

 Any number of `Loader.Get` calls, `Invalidate` calls and clock ticks interleave. A `Get` takes one
 step per critical section or clock reading, so the cache can change between reading an entry,
 judging its age and purging it. `singleflight.Group.Do` appears as its contract: a call becomes
 the leader of its key's flight, or waits for the leader's result.

 A cached value is represented by the call that loaded it, which is all the results below depend on.
 */
module Loader {

  import opened Options

  type Call = nat
  type Time = int

  datatype Entry<+V> = Entry(value: V, expiresAt: Option<Time>)

  /** An entry is served up to and including its expiry instant. */
  predicate Live<V>(e: Entry<V>, now: Time) {
    e.expiresAt.None? || now <= e.expiresAt.value
  }

  function ExpiryFor(ttl: int, now: Time): Option<Time> {
    if ttl > 0 then Some(now + ttl) else None
  }

  /** `get`'s step under the write lock: drop the entry only if it is still expired. */
  function Purged<K(==), V>(entries: map<K, Entry<V>>, key: K, now: Time): map<K, Entry<V>> {
    if key in entries && !Live(entries[key], now) then entries - {key} else entries
  }

  /** The in-process cache, its methods run without interference. */
  class MemoryCache<K(==), V> {
    var entries: map<K, Entry<V>>

    constructor ()
      ensures entries == map[]
    {
      entries := map[];
    }

    /** `readAt` and `purgeAt` are the two clock readings. A live value is returned unchanged, and
        an expired entry is gone afterwards. */
    method Get(key: K, readAt: Time, purgeAt: Time) returns (r: Option<V>)
      requires readAt <= purgeAt
      modifies this
      ensures r.Some? <==> key in old(entries)
                           && (old(entries)[key].expiresAt.None? || readAt <= old(entries)[key].expiresAt.value)
      ensures r.Some? ==> r.value == old(entries)[key].value && entries == old(entries)
      ensures r.None? ==> entries == old(entries) - {key}
    {
      if key !in entries {
        return None;
      }
      var e := entries[key];
      if e.expiresAt.Some? && readAt > e.expiresAt.value {
        if key in entries && entries[key].expiresAt.Some? && purgeAt > entries[key].expiresAt.value {
          entries := entries - {key};
        }
        return None;
      }
      return Some(e.value);
    }

    method Set(key: K, value: V, ttl: int, now: Time)
      modifies this
      ensures entries == old(entries)[key := Entry(value, if ttl > 0 then Some(now + ttl) else None)]
    {
      var expiresAt := None;
      if ttl > 0 {
        expiresAt := Some(now + ttl);
      }
      entries := entries[key := Entry(value, expiresAt)];
    }

    method Delete(key: K)
      modifies this
      ensures entries == old(entries) - {key}
    {
      entries := entries - {key};
    }
  }

  // ----- Runs -----

  datatype Outcome = Ok(value: Call) | Err

  /** Where a `Get` stands. `lead` distinguishes the look-up inside the flight from the first one. */
  datatype Phase =
    | Look(lead: bool)                     // about to read the entry under the read lock
    | Judge(lead: bool, entry: Entry<Call>)  // holds a copy of the entry, about to read the clock
    | Purge(lead: bool)                    // found it expired, about to take the write lock
    | Missed                               // about to enter the flight
    | Waiting(leader: Call)                // another call leads the flight
    | MustLoad                             // leads, and the second look-up missed
    | Loading                              // load is running
    | Loaded                               // load succeeded, about to read the clock for the expiry
    | Storing(entry: Entry<Call>)          // about to store under the write lock
    | Landing(result: Outcome)             // about to end the flight
    | Returned(result: Outcome)

  predicate Leads(p: Phase) {
    match p
    case Look(lead) => lead
    case Judge(lead, _) => lead
    case Purge(lead) => lead
    case MustLoad => true
    case Loading => true
    case Loaded => true
    case Storing(_) => true
    case Landing(_) => true
    case _ => false
  }

  /** `began` records that the call's load was started, `loadedAt` when it last ended, `stampedAt` the clock
      reading from which the expiry of its value counts. */
  datatype Getter<K> = Getter(key: K, phase: Phase, began: bool, loadedAt: Time, stampedAt: Option<Time>)

  datatype System<!K> = System(
    entries: map<K, Entry<Call>>,
    flights: map<K, Call>,
    calls: seq<Getter<K>>,
    now: Time)

  datatype Event<K> =
    | Begin(key: K)
    | Step(t: Call)               // the next step of a call that leaves no choice
    | LoadEnds(t: Call, ok: bool)
    | Invalidate(key: K)
    | Tick(to: Time)

  ghost predicate Enabled<K>(s: System<K>, e: Event<K>) {
    match e
    case Begin(_) => true
    case Step(t) =>
      && t < |s.calls|
      && (match s.calls[t].phase
          case Loading => false
          case Returned(_) => false
          case Waiting(u) => u < |s.calls| && s.calls[u].phase.Returned?
          case _ => true)
    case LoadEnds(t, _) => t < |s.calls| && s.calls[t].phase.Loading?
    case Invalidate(_) => true
    case Tick(to) => to >= s.now
  }

  ghost function Moved<K>(s: System<K>, t: Call, p: Phase): System<K>
    requires t < |s.calls|
  {
    s.(calls := s.calls[t := s.calls[t].(phase := p)])
  }

  ghost function Hit(lead: bool, v: Call): Phase {
    if lead then Landing(Ok(v)) else Returned(Ok(v))
  }

  ghost function Miss(lead: bool): Phase {
    if lead then MustLoad else Missed
  }

  ghost function Stepped<K>(ttl: int, s: System<K>, t: Call): System<K>
    requires Enabled(s, Step(t))
  {
    var k := s.calls[t].key;
    match s.calls[t].phase
    case Look(lead) =>
      Moved(s, t, if k in s.entries then Judge(lead, s.entries[k]) else Miss(lead))
    case Judge(lead, entry) =>
      Moved(s, t, if Live(entry, s.now) then Hit(lead, entry.value) else Purge(lead))
    case Purge(lead) =>
      Moved(s, t, Miss(lead)).(entries := Purged(s.entries, k, s.now))
    case Missed =>
      if k in s.flights then Moved(s, t, Waiting(s.flights[k]))
      else Moved(s, t, Look(true)).(flights := s.flights[k := t])
    case Waiting(u) => Moved(s, t, s.calls[u].phase)
    case MustLoad =>
      s.(calls := s.calls[t := s.calls[t].(phase := Loading, began := true)])
    case Loaded =>
      s.(calls := s.calls[t := s.calls[t].(phase := Storing(Entry(t, ExpiryFor(ttl, s.now))), stampedAt := Some(s.now))])
    case Storing(entry) => Moved(s, t, Landing(Ok(t))).(entries := s.entries[k := entry])
    case Landing(r) => Moved(s, t, Returned(r)).(flights := s.flights - {k})
  }

  ghost function Apply<K>(ttl: int, s: System<K>, e: Event<K>): System<K>
    requires Enabled(s, e)
  {
    match e
    case Begin(key) => s.(calls := s.calls + [Getter(key, Look(false), false, s.now, None)])
    case Step(t) => Stepped(ttl, s, t)
    case LoadEnds(t, ok) =>
      s.(calls := s.calls[t := s.calls[t].(phase := if ok then Loaded else Landing(Err), loadedAt := s.now)])
    case Invalidate(key) => s.(entries := s.entries - {key})
    case Tick(to) => s.(now := to)
  }

  ghost predicate ValidFrom<K>(ttl: int, s: System<K>, run: seq<Event<K>>)
    decreases |run|, 0
  {
    run == [] ||
    var p := run[..|run| - 1];
    ValidFrom(ttl, s, p) && Enabled(AfterFrom(ttl, s, p), run[|run| - 1])
  }

  ghost function AfterFrom<K>(ttl: int, s: System<K>, run: seq<Event<K>>): System<K>
    requires ValidFrom(ttl, s, run)
    decreases |run|, 1
  {
    if run == [] then s
    else Apply(ttl, AfterFrom(ttl, s, run[..|run| - 1]), run[|run| - 1])
  }

  ghost function Start<K>(now: Time): System<K> {
    System(map[], map[], [], now)
  }

  // ----- Invariant: one flight per key, values come from finished loads of the same key -----

  /** A completed load of key `k` produced `v`. */
  ghost predicate Produced<K>(s: System<K>, k: K, v: Call) {
    && v < |s.calls| && s.calls[v].key == k && s.calls[v].began
    && (s.calls[v].phase.Loaded? || s.calls[v].phase.Storing?
        || s.calls[v].phase == Landing(Ok(v)) || s.calls[v].phase == Returned(Ok(v)))
  }

  /** The expiry of a value loaded at `loadedAt` and stamped by `now` at the latest. */
  ghost predicate Lasting(ttl: int, expiresAt: Option<Time>, loadedAt: Time, now: Time) {
    if ttl > 0 then expiresAt.Some? && loadedAt + ttl <= expiresAt.value <= now + ttl else expiresAt.None?
  }

  ghost predicate GetterSound<K>(ttl: int, s: System<K>, t: Call)
    requires t < |s.calls|
  {
    var g := s.calls[t];
    && (Leads(g.phase) ==> g.key in s.flights && s.flights[g.key] == t)
    && (g.phase.Loading? || g.phase.Loaded? || g.phase.Storing? ==> g.began)
    && (g.phase.MustLoad? || (g.phase.Look? || g.phase.Judge? || g.phase.Purge? || g.phase.Missed?) ==> !g.began)
    && (g.phase.Judge? ==> Produced(s, g.key, g.phase.entry.value))
    && (g.phase.Loaded? || g.phase.Storing? ==> g.loadedAt <= s.now)
    && (g.phase.Storing? ==> g.phase.entry.value == t && Lasting(ttl, g.phase.entry.expiresAt, g.loadedAt, s.now))
    && ((g.phase.Landing? || g.phase.Returned?) && g.phase.result.Ok? ==> Produced(s, g.key, g.phase.result.value))
    && (g.phase.Waiting? ==> g.phase.leader < |s.calls| && s.calls[g.phase.leader].key == g.key
                             && (Leads(s.calls[g.phase.leader].phase) || s.calls[g.phase.leader].phase.Returned?))
  }

  ghost predicate Inv<K(!new)>(ttl: int, s: System<K>) {
    && (forall t :: 0 <= t < |s.calls| ==> GetterSound(ttl, s, t))
    && (forall k :: k in s.entries ==> Produced(s, k, s.entries[k].value))
    && (forall k :: k in s.flights ==> s.flights[k] < |s.calls| && s.calls[s.flights[k]].key == k
                                       && Leads(s.calls[s.flights[k]].phase))
  }

  lemma {:induction false} ProducedKept<K(!new)>(ttl: int, s: System<K>, e: Event<K>, k: K, v: Call)
    requires Inv(ttl, s) && Enabled(s, e) && Produced(s, k, v)
    ensures Produced(Apply(ttl, s, e), k, v)
  {
    assert GetterSound(ttl, s, v);
  }

  /** A leader keeps its flight while another call moves. */
  lemma {:induction false} LeaderKept<K(!new)>(ttl: int, s: System<K>, e: Event<K>, u: Call)
    requires Inv(ttl, s) && Enabled(s, e) && u < |s.calls| && Leads(s.calls[u].phase)
    requires e.Step? || e.LoadEnds? ==> u != e.t
    ensures var flights := Apply(ttl, s, e).flights;
            s.calls[u].key in flights && flights[s.calls[u].key] == u
  {
    assert GetterSound(ttl, s, u);
    if e.Step? {
      assert GetterSound(ttl, s, e.t);
    }
  }

  /** A leader that moves still leads or has returned. */
  lemma {:induction false} LeaderMoves<K(!new)>(ttl: int, s: System<K>, e: Event<K>, u: Call)
    requires Inv(ttl, s) && Enabled(s, e) && u < |s.calls|
    requires Leads(s.calls[u].phase) || s.calls[u].phase.Returned?
    ensures var g := Apply(ttl, s, e).calls[u];
            g.key == s.calls[u].key && (Leads(g.phase) || g.phase.Returned?)
  {
  }

  lemma {:induction false} OtherGettersSound<K(!new)>(ttl: int, s: System<K>, e: Event<K>, u: Call)
    requires Inv(ttl, s) && Enabled(s, e) && u < |s.calls|
    requires e.Step? || e.LoadEnds? ==> u != e.t
    ensures GetterSound(ttl, Apply(ttl, s, e), u)
  {
    var s' := Apply(ttl, s, e);
    assert GetterSound(ttl, s, u);
    assert s'.calls[u] == s.calls[u];
    var g := s.calls[u];
    if g.phase.Judge? {
      ProducedKept(ttl, s, e, g.key, g.phase.entry.value);
    }
    if (g.phase.Landing? || g.phase.Returned?) && g.phase.result.Ok? {
      ProducedKept(ttl, s, e, g.key, g.phase.result.value);
    }
    if g.phase.Waiting? {
      LeaderMoves(ttl, s, e, g.phase.leader);
    }
    if Leads(g.phase) {
      LeaderKept(ttl, s, e, u);
    }
  }

  /** A call that reads the cache. */
  lemma {:induction false} ReaderSound<K(!new)>(ttl: int, s: System<K>, t: Call)
    requires Inv(ttl, s) && Enabled(s, Step(t))
    requires s.calls[t].phase.Look? || s.calls[t].phase.Judge? || s.calls[t].phase.Purge?
    ensures GetterSound(ttl, Apply(ttl, s, Step(t)), t)
  {
    var g := s.calls[t];
    assert GetterSound(ttl, s, t);
    if g.phase.Look? && g.key in s.entries {
      ProducedKept(ttl, s, Step(t), g.key, s.entries[g.key].value);
    }
    if g.phase.Judge? {
      ProducedKept(ttl, s, Step(t), g.key, g.phase.entry.value);
    }
  }

  /** A call that joins a flight or takes one through its load. */
  lemma {:induction false} LoaderSound<K(!new)>(ttl: int, s: System<K>, t: Call)
    requires Inv(ttl, s) && Enabled(s, Step(t))
    requires s.calls[t].phase.Missed? || s.calls[t].phase.MustLoad? || s.calls[t].phase.Loaded? || s.calls[t].phase.Storing?
    ensures GetterSound(ttl, Apply(ttl, s, Step(t)), t)
  {
    assert GetterSound(ttl, s, t);
  }

  lemma {:induction false} LandingSound<K(!new)>(ttl: int, s: System<K>, t: Call)
    requires Inv(ttl, s) && Enabled(s, Step(t)) && s.calls[t].phase.Landing?
    ensures GetterSound(ttl, Apply(ttl, s, Step(t)), t)
  {
    var g := s.calls[t];
    assert GetterSound(ttl, s, t);
    if g.phase.result.Ok? {
      ProducedKept(ttl, s, Step(t), g.key, g.phase.result.value);
    }
  }

  lemma {:induction false} LoadEndSound<K(!new)>(ttl: int, s: System<K>, t: Call, ok: bool)
    requires Inv(ttl, s) && Enabled(s, LoadEnds(t, ok))
    ensures GetterSound(ttl, Apply(ttl, s, LoadEnds(t, ok)), t)
  {
    assert GetterSound(ttl, s, t);
  }

  lemma {:induction false} MoverSound<K(!new)>(ttl: int, s: System<K>, e: Event<K>)
    requires Inv(ttl, s) && Enabled(s, e) && (e.Step? || e.LoadEnds?) && !s.calls[e.t].phase.Waiting?
    ensures GetterSound(ttl, Apply(ttl, s, e), e.t)
  {
    var g := s.calls[e.t];
    if e.LoadEnds? {
      LoadEndSound(ttl, s, e.t, e.ok);
    } else if g.phase.Look? || g.phase.Judge? || g.phase.Purge? {
      ReaderSound(ttl, s, e.t);
    } else if g.phase.Landing? {
      LandingSound(ttl, s, e.t);
    } else {
      LoaderSound(ttl, s, e.t);
    }
  }

  /** A waiter returns what its leader did. */
  lemma {:induction false} WaiterSound<K(!new)>(ttl: int, s: System<K>, t: Call)
    requires Inv(ttl, s) && Enabled(s, Step(t)) && s.calls[t].phase.Waiting?
    ensures GetterSound(ttl, Apply(ttl, s, Step(t)), t)
  {
    assert GetterSound(ttl, s, t);
    var l := s.calls[s.calls[t].phase.leader];
    assert GetterSound(ttl, s, s.calls[t].phase.leader);
    if l.phase.result.Ok? {
      ProducedKept(ttl, s, Step(t), l.key, l.phase.result.value);
    }
  }

  lemma {:induction false} StepKeeps<K(!new)>(ttl: int, s: System<K>, e: Event<K>)
    requires Inv(ttl, s) && Enabled(s, e)
    ensures Inv(ttl, Apply(ttl, s, e))
  {
    var s' := Apply(ttl, s, e);
    forall u | 0 <= u < |s'.calls|
      ensures GetterSound(ttl, s', u)
    {
      if (e.Step? || e.LoadEnds?) && u == e.t {
        if s.calls[u].phase.Waiting? {
          WaiterSound(ttl, s, u);
        } else {
          MoverSound(ttl, s, e);
        }
      } else if u < |s.calls| {
        OtherGettersSound(ttl, s, e, u);
      }
    }
    forall k | k in s'.entries
      ensures Produced(s', k, s'.entries[k].value)
    {
      if k in s.entries && s'.entries[k] == s.entries[k] {
        ProducedKept(ttl, s, e, k, s.entries[k].value);
      } else {
        assert GetterSound(ttl, s, e.t);
      }
    }
    FlightsKept(ttl, s, e);
  }

  lemma {:induction false} FlightsKept<K(!new)>(ttl: int, s: System<K>, e: Event<K>)
    requires Inv(ttl, s) && Enabled(s, e)
    ensures var s' := Apply(ttl, s, e);
            forall k :: k in s'.flights ==> s'.flights[k] < |s'.calls| && s'.calls[s'.flights[k]].key == k
                                            && Leads(s'.calls[s'.flights[k]].phase)
  {
    var s' := Apply(ttl, s, e);
    if e.Step? || e.LoadEnds? {
      assert GetterSound(ttl, s, e.t);
    }
    forall k | k in s'.flights
      ensures s'.flights[k] < |s'.calls| && s'.calls[s'.flights[k]].key == k && Leads(s'.calls[s'.flights[k]].phase)
    {
      if k in s.flights {
        assert GetterSound(ttl, s, s.flights[k]);
      }
    }
  }

  lemma {:induction false} EveryRun<K(!new)>(ttl: int, s: System<K>, run: seq<Event<K>>)
    requires Inv(ttl, s) && ValidFrom(ttl, s, run)
    ensures Inv(ttl, AfterFrom(ttl, s, run))
    decreases |run|
  {
    if run != [] {
      EveryRun(ttl, s, run[..|run| - 1]);
      StepKeeps(ttl, AfterFrom(ttl, s, run[..|run| - 1]), run[|run| - 1]);
    }
  }

  /** In every run at most one call per key is on its way through a load, from taking the flight to landing
      it, and every value returned was produced by a completed load of the key asked for. */
  lemma {:induction false} OneFlightPerKey<K(!new)>(ttl: int, now: Time, run: seq<Event<K>>, t: Call, u: Call)
    requires ValidFrom(ttl, Start(now), run)
    requires t < |AfterFrom(ttl, Start(now), run).calls| && u < |AfterFrom(ttl, Start(now), run).calls|
    ensures var s := AfterFrom(ttl, Start(now), run);
            && (Leads(s.calls[t].phase) && Leads(s.calls[u].phase) && s.calls[t].key == s.calls[u].key ==> t == u)
            && (s.calls[t].phase.Returned? && s.calls[t].phase.result.Ok? ==>
                  Produced(s, s.calls[t].key, s.calls[t].phase.result.value))
  {
    EveryRun(ttl, Start(now), run);
    var s := AfterFrom(ttl, Start(now), run);
    assert GetterSound(ttl, s, t) && GetterSound(ttl, s, u);
  }

  /** Call `t` is waiting for `u`, or both have returned the same result. */
  ghost predicate Shares<K>(s: System<K>, t: Call, u: Call) {
    && t < |s.calls| && u < |s.calls|
    && (s.calls[t].phase == Waiting(u) || (s.calls[t].phase.Returned? && s.calls[u].phase == s.calls[t].phase))
  }

  lemma {:induction false} SharesKept<K>(ttl: int, s: System<K>, e: Event<K>, t: Call, u: Call)
    requires Shares(s, t, u) && Enabled(s, e)
    ensures Shares(Apply(ttl, s, e), t, u)
  {
  }

  /** A call that waits for a flight's leader returns, if it returns, exactly what that leader returned,
      whatever happens to the key in the meantime. */
  lemma {:induction false} WaiterSharesResult<K>(ttl: int, s: System<K>, later: seq<Event<K>>, t: Call, u: Call)
    requires t < |s.calls| && u < |s.calls| && s.calls[t].phase == Waiting(u) && ValidFrom(ttl, s, later)
    ensures Shares(AfterFrom(ttl, s, later), t, u)
    decreases |later|
  {
    if later != [] {
      WaiterSharesResult(ttl, s, later[..|later| - 1], t, u);
      SharesKept(ttl, AfterFrom(ttl, s, later[..|later| - 1]), later[|later| - 1], t, u);
    }
  }

  // ----- Fresh values are not reloaded -----

  /** While the entry stored for `k` is live and not invalidated, it stays in place and no leader of
      `k` has anything else in hand. */
  ghost predicate Guarded<K>(s: System<K>, k: K, e: Entry<Call>) {
    && k in s.entries && s.entries[k] == e
    && forall t :: 0 <= t < |s.calls| && s.calls[t].key == k && Leads(s.calls[t].phase) ==>
         match s.calls[t].phase
         case Look(_) => true
         case Judge(_, entry) => entry == e
         case Landing(_) => true
         case _ => false
  }

  lemma {:induction false} GuardKept<K(!new)>(ttl: int, s: System<K>, ev: Event<K>, k: K, e: Entry<Call>)
    requires Inv(ttl, s) && Enabled(s, ev) && Guarded(s, k, e) && Live(e, s.now)
    requires ev != Invalidate(k)
    ensures Guarded(Apply(ttl, s, ev), k, e)
  {
    if ev.Step? {
      assert GetterSound(ttl, s, ev.t);
    }
  }

  lemma {:induction false} StoringGuards<K(!new)>(ttl: int, s: System<K>, t: Call)
    requires Inv(ttl, s) && t < |s.calls| && s.calls[t].phase.Storing?
    ensures Guarded(Apply(ttl, s, Step(t)), s.calls[t].key, s.calls[t].phase.entry)
  {
    var s' := Apply(ttl, s, Step(t));
    assert GetterSound(ttl, s, t);
    forall u | 0 <= u < |s'.calls| && s'.calls[u].key == s.calls[t].key && Leads(s'.calls[u].phase)
      ensures u == t
    {
      assert GetterSound(ttl, s, u);
    }
  }

  lemma {:induction false} GuardedAlong<K(!new)>(ttl: int, s: System<K>, run: seq<Event<K>>, k: K, e: Entry<Call>)
    requires Inv(ttl, s) && ValidFrom(ttl, s, run) && Guarded(s, k, e)
    requires Invalidate(k) !in run
    ensures Guarded(AfterFrom(ttl, s, run), k, e) || !Live(e, AfterFrom(ttl, s, run).now)
    decreases |run|
  {
    if run != [] {
      var p := run[..|run| - 1];
      GuardedAlong(ttl, s, p, k, e);
      EveryRun(ttl, s, p);
      var q := AfterFrom(ttl, s, p);
      if Live(e, q.now) {
        GuardKept(ttl, q, run[|run| - 1], k, e);
      }
    }
  }

  /** Once a load's value is stored, no load of that key starts until the key has been invalidated or
      the full ttl has passed since the load ended (never, for a ttl of zero or less), whatever the
      concurrent callers do: `before` is any run after which
      call `t` is about to store, `later` any continuation after the store, at whose end call `u`
      is about to load the same key. */
  lemma {:induction false} NoReloadWhileFresh<K(!new)>(ttl: int, now: Time, before: seq<Event<K>>, s: System<K>, t: Call,
                                    later: seq<Event<K>>, end: System<K>, u: Call)
    requires ValidFrom(ttl, Start(now), before) && s == AfterFrom(ttl, Start(now), before)
    requires t < |s.calls| && s.calls[t].phase.Storing?
    requires ValidFrom(ttl, Apply(ttl, s, Step(t)), later)
    requires end == AfterFrom(ttl, Apply(ttl, s, Step(t)), later)
    requires u < |end.calls| && end.calls[u].key == s.calls[t].key && end.calls[u].phase.MustLoad?
    ensures Invalidate(s.calls[t].key) in later || (ttl > 0 && end.now > s.calls[t].loadedAt + ttl)
  {
    EveryRun(ttl, Start(now), before);
    assert GetterSound(ttl, s, t);
    StoringGuards(ttl, s, t);
    StepKeeps(ttl, s, Step(t));
    if Invalidate(s.calls[t].key) !in later {
      GuardedAlong(ttl, Apply(ttl, s, Step(t)), later, s.calls[t].key, s.calls[t].phase.entry);
    }
  }

  /** An entry disappears only by `Invalidate` or once it has expired: the purge of an expired
      copy never removes a value refreshed in the meantime. */
  lemma {:induction false} OnlyExpiredPurged<K(!new)>(ttl: int, s: System<K>, e: Event<K>, k: K)
    requires Enabled(s, e) && k in s.entries && e != Invalidate(k)
    ensures k in Apply(ttl, s, e).entries || !Live(s.entries[k], s.now)
    ensures k in Apply(ttl, s, e).entries && Apply(ttl, s, e).entries[k] != s.entries[k] ==>
              e.Step? && s.calls[e.t].phase.Storing? && s.calls[e.t].key == k
  {
  }

  // ----- What Invalidate guarantees -----

  ghost predicate Reach<K(!new)>(ttl: int, s: System<K>, s': System<K>) {
    exists run :: ValidFrom(ttl, s, run) && AfterFrom(ttl, s, run) == s'
  }

  lemma {:induction false} ReachStep<K(!new)>(ttl: int, s: System<K>, m: System<K>, e: Event<K>)
    requires Reach(ttl, s, m) && Enabled(m, e)
    ensures Reach(ttl, s, Apply(ttl, m, e))
  {
    var run :| ValidFrom(ttl, s, run) && AfterFrom(ttl, s, run) == m;
    var run' := run + [e];
    assert run'[..|run'| - 1] == run;
    assert AfterFrom(ttl, s, run') == Apply(ttl, m, e);
  }

  /** The load that produced `v` had begun in state `s`. */
  ghost predicate Old<K>(s: System<K>, v: Call) {
    v < |s.calls| && s.calls[v].began
  }

  /** The leader `t` of a flight has a value from before in hand, or is loading one. */
  ghost predicate Carries<K>(s: System<K>, t: Call)
    requires t < |s.calls|
  {
    match s.calls[t].phase
    case Judge(lead, entry) => lead && Live(entry, s.now)
    case Loading => true
    case Loaded => true
    case Storing(_) => true
    case Landing(r) => r.Ok?
    case _ => false
  }

  /** No flight of `k` carries a value at this moment. */
  ghost predicate Quiet<K>(s: System<K>, k: K) {
    forall t :: 0 <= t < |s.calls| && s.calls[t].key == k ==> !Carries(s, t)
  }

  /** In some continuation after `Invalidate(k)`, a `Get` of `k` that starts later returns a value
      whose load had begun before. */
  ghost predicate ServesStale<K(!new)>(ttl: int, s: System<K>, k: K) {
    exists s', c: Call, v :: Stale(ttl, s, k, s', c, v)
  }

  ghost predicate Stale<K(!new)>(ttl: int, s: System<K>, k: K, s': System<K>, c: Call, v: Call) {
    && Reach(ttl, Apply(ttl, s, Invalidate(k)), s')
    && |s.calls| <= c < |s'.calls| && s'.calls[c].key == k
    && s'.calls[c].phase == Returned(Ok(v)) && Old(s, v)
  }

  /** The calls whose load had begun. */
  ghost function BegunIn<K>(s: System<K>): set<Call> {
    set v | 0 <= v < |s.calls| && s.calls[v].began
  }

  ghost predicate FreshResult(bad: set<Call>, r: Outcome) {
    r.Ok? ==> r.value !in bad
  }

  /** No value of `bad`, all loaded by calls before the `n`-th, can reach a call of `k` from the `n`-th on. */
  ghost predicate OnlyFresh<K(!new)>(n: nat, bad: set<Call>, s: System<K>, k: K) {
    && n <= |s.calls|
    && (forall t :: 0 <= t < |s.calls| && t in bad ==> s.calls[t].began)
    && (forall t :: t in bad ==> 0 <= t < n)
    && (k in s.entries && s.entries[k].value in bad ==> !Live(s.entries[k], s.now))
    && (forall t :: 0 <= t < |s.calls| && s.calls[t].key == k ==> FreshLeader(bad, s, t))
    && (forall t :: n <= t < |s.calls| && s.calls[t].key == k ==> FreshNewcomer(bad, s, t))
  }

  ghost predicate FreshLeader<K>(bad: set<Call>, s: System<K>, t: Call)
    requires t < |s.calls|
  {
    match s.calls[t].phase
    case Judge(lead, entry) => lead && entry.value in bad ==> !Live(entry, s.now)
    case Loading => t !in bad
    case Loaded => t !in bad
    case Storing(_) => t !in bad
    case Landing(r) => FreshResult(bad, r)
    case _ => true
  }

  ghost predicate FreshNewcomer<K>(bad: set<Call>, s: System<K>, t: Call)
    requires t < |s.calls|
  {
    match s.calls[t].phase
    case Judge(_, entry) => entry.value in bad ==> !Live(entry, s.now)
    case Returned(r) => FreshResult(bad, r)
    case Waiting(u) =>
      u < |s.calls| && s.calls[u].key == s.calls[t].key
      && (Leads(s.calls[u].phase) || (s.calls[u].phase.Returned? && FreshResult(bad, s.calls[u].phase.result)))
    case _ => true
  }

  lemma {:induction false} FreshMover<K(!new)>(ttl: int, n: nat, bad: set<Call>, s: System<K>, k: K, e: Event<K>)
    requires Inv(ttl, s) && OnlyFresh(n, bad, s, k) && Enabled(s, e) && (e.Step? || e.LoadEnds?)
    requires s.calls[e.t].key == k
    ensures var s' := Apply(ttl, s, e);
            FreshLeader(bad, s', e.t) && (e.t >= n ==> FreshNewcomer(bad, s', e.t))
  {
    assert GetterSound(ttl, s, e.t);
    assert FreshLeader(bad, s, e.t);
    if e.t >= n {
      assert FreshNewcomer(bad, s, e.t);
    }
    if s.calls[e.t].phase.Missed? && k in s.flights {
      assert GetterSound(ttl, s, s.flights[k]);
    }
  }

  /** A call other than the one that moves. */
  lemma {:induction false} CallKept<K>(ttl: int, s: System<K>, e: Event<K>, u: Call)
    requires Enabled(s, e) && u < |s.calls| && (e.Step? || e.LoadEnds? ==> u != e.t)
    ensures var s' := Apply(ttl, s, e); |s.calls| <= |s'.calls| && s'.calls[u] == s.calls[u] && s.now <= s'.now
  {
  }

  /** A leader that moves still leads, or lands what it had in hand. */
  lemma {:induction false} FreshLeaderMoves<K>(ttl: int, bad: set<Call>, s: System<K>, e: Event<K>, w: Call)
    requires Enabled(s, e) && w < |s.calls| && FreshLeader(bad, s, w)
    requires Leads(s.calls[w].phase) || (s.calls[w].phase.Returned? && FreshResult(bad, s.calls[w].phase.result))
    ensures var g := Apply(ttl, s, e).calls[w];
            && g.key == s.calls[w].key
            && (Leads(g.phase) || (g.phase.Returned? && FreshResult(bad, g.phase.result)))
  {
    if (e.Step? || e.LoadEnds?) && e.t == w {
      assert s.calls[w].phase.Landing? ==> FreshResult(bad, s.calls[w].phase.result);
    } else {
      CallKept(ttl, s, e, w);
    }
  }

  lemma {:induction false} FreshOther<K(!new)>(ttl: int, n: nat, bad: set<Call>, s: System<K>, k: K, e: Event<K>, u: Call)
    requires OnlyFresh(n, bad, s, k) && Enabled(s, e)
    requires u < |s.calls| && s.calls[u].key == k
    requires e.Step? || e.LoadEnds? ==> u != e.t
    ensures var s' := Apply(ttl, s, e);
            FreshLeader(bad, s', u) && (u >= n ==> FreshNewcomer(bad, s', u))
  {
    assert FreshLeader(bad, s, u);
    CallKept(ttl, s, e, u);
    if u >= n {
      assert FreshNewcomer(bad, s, u);
      if s.calls[u].phase.Waiting? {
        var w := s.calls[u].phase.leader;
        assert FreshLeader(bad, s, w);
        FreshLeaderMoves(ttl, bad, s, e, w);
      }
    }
  }

  lemma {:induction false} FreshKept<K(!new)>(ttl: int, n: nat, bad: set<Call>, s: System<K>, k: K, e: Event<K>)
    requires Inv(ttl, s) && OnlyFresh(n, bad, s, k) && Enabled(s, e)
    ensures OnlyFresh(n, bad, Apply(ttl, s, e), k)
  {
    var s' := Apply(ttl, s, e);
    forall u | 0 <= u < |s'.calls| && s'.calls[u].key == k
      ensures FreshLeader(bad, s', u) && (u >= n ==> FreshNewcomer(bad, s', u))
    {
      if (e.Step? || e.LoadEnds?) && u == e.t {
        FreshMover(ttl, n, bad, s, k, e);
      } else if u < |s.calls| {
        FreshOther(ttl, n, bad, s, k, e, u);
      }
    }
    if e.Step? {
      assert GetterSound(ttl, s, e.t);
      assert s.calls[e.t].key == k ==> FreshLeader(bad, s, e.t);
    }
  }

  lemma {:induction false} FreshAlong<K(!new)>(ttl: int, n: nat, bad: set<Call>, s: System<K>, k: K, run: seq<Event<K>>)
    requires Inv(ttl, s) && OnlyFresh(n, bad, s, k) && ValidFrom(ttl, s, run)
    ensures OnlyFresh(n, bad, AfterFrom(ttl, s, run), k)
    decreases |run|
  {
    if run != [] {
      var p := run[..|run| - 1];
      FreshAlong(ttl, n, bad, s, k, p);
      EveryRun(ttl, s, p);
      FreshKept(ttl, n, bad, AfterFrom(ttl, s, p), k, run[|run| - 1]);
    }
  }

  lemma {:induction false} QuietNeverStale<K(!new)>(ttl: int, s: System<K>, k: K)
    requires Inv(ttl, s) && Quiet(s, k)
    ensures !ServesStale(ttl, s, k)
  {
    var i := Apply(ttl, s, Invalidate(k));
    StepKeeps(ttl, s, Invalidate(k));
    assert OnlyFresh(|s.calls|, BegunIn(s), i, k);
    forall s', c: Call, v
      ensures !Stale(ttl, s, k, s', c, v)
    {
      if Reach(ttl, i, s') && |s.calls| <= c < |s'.calls| && s'.calls[c].key == k {
        var run :| ValidFrom(ttl, i, run) && AfterFrom(ttl, i, run) == s';
        FreshAlong(ttl, |s.calls|, BegunIn(s), i, k, run);
        assert FreshNewcomer(BegunIn(s), s', c);
      }
    }
  }

  /** From any state in which leader `t` carries a value, the leader can bring it to landing while
      call `c` waits on it. */
  lemma {:induction false} CarriedLands<K(!new)>(ttl: int, s: System<K>, m: System<K>, t: Call, c: Call) returns (m': System<K>, v: Call)
    requires Inv(ttl, m) && Reach(ttl, s, m)
    requires t < |m.calls| && Carries(m, t) && c < |m.calls| && c != t && m.calls[c].phase == Waiting(t)
    ensures Reach(ttl, s, m') && |m'.calls| == |m.calls|
    ensures m'.calls[t].phase == Landing(Ok(v)) && m'.calls[c] == m.calls[c]
    ensures Old(m, v)
    ensures m.calls[t].phase.Landing? ==> v == m.calls[t].phase.result.value
    ensures m.calls[t].phase.Storing? ==> v == t
    decreases match m.calls[t].phase case Loading => 3 case Loaded => 2 case Storing(_) => 1 case Judge(_, _) => 1 case _ => 0
  {
    assert GetterSound(ttl, m, t);
    if m.calls[t].phase.Landing? {
      m', v := m, m.calls[t].phase.result.value;
    } else {
      var e := if m.calls[t].phase.Loading? then LoadEnds(t, true) else Step(t);
      ReachStep(ttl, s, m, e);
      StepKeeps(ttl, m, e);
      m', v := CarriedLands(ttl, s, Apply(ttl, m, e), t, c);
    }
  }

  /** A newcomer joins the flight of `k` in three steps when its entry is absent. */
  lemma {:induction false} Joins<K(!new)>(ttl: int, s: System<K>, k: K) returns (m: System<K>)
    requires Inv(ttl, s) && k !in s.entries && k in s.flights
    ensures Reach(ttl, s, m) && Inv(ttl, m)
    ensures m == s.(calls := s.calls + [Getter(k, Waiting(s.flights[k]), false, s.now, None)])
  {
    var c := |s.calls|;
    assert ValidFrom(ttl, s, []) && AfterFrom(ttl, s, []) == s;
    ReachStep(ttl, s, s, Begin(k));
    StepKeeps(ttl, s, Begin(k));
    var a := Apply(ttl, s, Begin(k));
    ReachStep(ttl, s, a, Step(c));
    StepKeeps(ttl, a, Step(c));
    var b := Apply(ttl, a, Step(c));
    ReachStep(ttl, s, b, Step(c));
    StepKeeps(ttl, b, Step(c));
    m := Apply(ttl, b, Step(c));
  }

  lemma {:induction false} CarryingServesStale<K(!new)>(ttl: int, s: System<K>, k: K, t: Call)
    requires Inv(ttl, s) && t < |s.calls| && s.calls[t].key == k && Carries(s, t)
    ensures ServesStale(ttl, s, k)
  {
    var i := Apply(ttl, s, Invalidate(k));
    var c := |s.calls|;
    StepKeeps(ttl, s, Invalidate(k));
    assert GetterSound(ttl, s, t);
    var m := Joins(ttl, i, k);
    var m', v := CarriedLands(ttl, i, m, t, c);
    ReachStep(ttl, i, m', Step(t));
    var r := Apply(ttl, m', Step(t));
    ReachStep(ttl, i, r, Step(c));
    assert Stale(ttl, s, k, Apply(ttl, r, Step(c)), c, v);
  }

  /** `Invalidate` makes every later `Get` reload exactly when no flight of the key carries a value
      at that moment: otherwise a later call can join the flight and be served the old value. */
  lemma {:induction false} InvalidateExact<K(!new)>(ttl: int, now: Time, run: seq<Event<K>>, s: System<K>, k: K)
    requires ValidFrom(ttl, Start(now), run) && s == AfterFrom(ttl, Start(now), run)
    ensures ServesStale(ttl, s, k) <==> !Quiet(s, k)
  {
    EveryRun(ttl, Start(now), run);
    if Quiet(s, k) {
      QuietNeverStale(ttl, s, k);
    } else {
      var t :| 0 <= t < |s.calls| && s.calls[t].key == k && Carries(s, t);
      CarryingServesStale(ttl, s, k, t);
    }
  }

  /** One call has begun to load a cold key. */
  lemma {:induction false} LoadingRun(ttl: int, now: Time)
    ensures var run := [Begin(7), Step(0), Step(0), Step(0), Step(0)];
            && ValidFrom(ttl, Start(now), run)
            && AfterFrom(ttl, Start(now), run).calls == [Getter(7, Loading, true, now, None)]
            && AfterFrom(ttl, Start(now), run).now == now
  {
    var z: System<int> := Start(now);
    var r1: seq<Event<int>> := [Begin(7)];
    var r2, r3 := r1 + [Step(0)], r1 + [Step(0), Step(0)];
    var r4, run := r3 + [Step(0)], r3 + [Step(0), Step(0)];
    assert r1[..0] == [] && r2[..1] == r1 && r3[..2] == r2 && r4[..3] == r3 && run[..4] == r4;
    assert ValidFrom(ttl, z, r1) && AfterFrom(ttl, z, r1).calls == [Getter(7, Look(false), false, now, None)];
    assert ValidFrom(ttl, z, r2) && AfterFrom(ttl, z, r2).calls == [Getter(7, Missed, false, now, None)];
    assert ValidFrom(ttl, z, r3) && AfterFrom(ttl, z, r3).calls == [Getter(7, Look(true), false, now, None)];
    assert ValidFrom(ttl, z, r4) && AfterFrom(ttl, z, r4).calls == [Getter(7, MustLoad, false, now, None)];
    assert run == [Begin(7), Step(0), Step(0), Step(0), Step(0)];
  }

  /** Such a run: one call is loading a cold key when the key is invalidated. */
  lemma {:induction false} InvalidateDuringLoad(ttl: int, now: Time)
    ensures var run := [Begin(7), Step(0), Step(0), Step(0), Step(0)];
            ValidFrom(ttl, Start(now), run) && ServesStale(ttl, AfterFrom(ttl, Start(now), run), 7)
  {
    var run := [Begin(7), Step(0), Step(0), Step(0), Step(0)];
    LoadingRun(ttl, now);
    var s := AfterFrom(ttl, Start(now), run);
    InvalidateExact(ttl, now, run, s, 7);
    assert Carries(s, 0);
  }
}
