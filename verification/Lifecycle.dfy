/**
 The service container and its initialisation phase (host/service.go: storeKey, orderedRange,
 initServices).

 A hook is foreign code: `Hooks` gives, for a visit of a service, which further services it provides
 and whether it succeeds, depending on the stage, the service and the number of visits before it. The
 loop repeats passes until one makes no progress, and ends because hooks only ever provide keys from
 some finite set.
 */
module Lifecycle {

  import opened Options

  datatype Stage = Config | Init

  /** A service was marked in a stage; if it has a hook for the stage, the hook ran then. */
  datatype Visit<K, V> = Visit(stage: Stage, key: K, value: V)

  datatype Outcome<K, V> = Outcome(provided: seq<Service<K, V>>, ok: bool)

  datatype Service<K, V> = Service(key: K, value: V)

  datatype Hooks<!K, !V> = Hooks(
    capable: (Stage, V) -> bool,
    run: (Stage, K, V, nat) -> Outcome<K, V>)

  /** The keys visited in a stage, in order. */
  function Visited<K, V>(log: seq<Visit<K, V>>, stage: Stage): seq<K> {
    if log == [] then []
    else
      var v := log[|log| - 1];
      Visited(log[..|log| - 1], stage) + (if v.stage == stage then [v.key] else [])
  }

  /** The hook of a visit made after `n` others succeeded, if there was one. */
  predicate Succeeded<K, V>(h: Hooks<K, V>, v: Visit<K, V>, n: nat) {
    h.capable(v.stage, v.value) ==> h.run(v.stage, v.key, v.value, n).ok
  }

  ghost predicate AllSucceeded<K, V>(h: Hooks<K, V>, log: seq<Visit<K, V>>, from: nat) {
    forall i :: from <= i < |log| ==> Succeeded(h, log[i], i)
  }

  /** The last visit is the only one whose hook failed. */
  ghost predicate FailedLast<K, V>(h: Hooks<K, V>, log: seq<Visit<K, V>>, from: nat) {
    && from < |log|
    && !Succeeded(h, log[|log| - 1], |log| - 1)
    && AllSucceeded(h, log[..|log| - 1], from)
  }

  /** Each initialisation comes after a configuration of the same key. */
  ghost predicate ConfiguredFirst<K, V>(log: seq<Visit<K, V>>) {
    forall i :: 0 <= i < |log| && log[i].stage == Init ==>
      exists j :: 0 <= j < i && log[j].stage == Config && log[j].key == log[i].key
  }

  ghost predicate Distinct<K>(ks: seq<K>) {
    forall i, j :: 0 <= i < j < |ks| ==> ks[i] != ks[j]
  }

  function Elements<K(==)>(ks: seq<K>): set<K> {
    set k | k in ks
  }

  ghost predicate ProvidesWithin<K(!new), V(!new)>(h: Hooks<K, V>, universe: set<K>) {
    forall stage, k, v, n, i {:trigger h.run(stage, k, v, n).provided[i]} ::
      0 <= i < |h.run(stage, k, v, n).provided| ==> h.run(stage, k, v, n).provided[i].key in universe
  }

  lemma {:induction false} DistinctSize<K>(ks: seq<K>, universe: set<K>)
    requires Distinct(ks) && forall i :: 0 <= i < |ks| ==> ks[i] in universe
    ensures |ks| <= |universe|
  {
    if ks != [] {
      var last := ks[|ks| - 1];
      DistinctSize(ks[..|ks| - 1], universe - {last});
    }
  }

  lemma {:induction false} VisitedSnoc<K, V>(log: seq<Visit<K, V>>, v: Visit<K, V>, stage: Stage)
    ensures Visited(log + [v], stage) == Visited(log, stage) + (if v.stage == stage then [v.key] else [])
  {
    assert (log + [v])[..|log|] == log;
  }

  lemma {:induction false} VisitedConfigIn<K, V>(log: seq<Visit<K, V>>, k: K) returns (j: nat)
    requires k in Visited(log, Config)
    ensures j < |log| && log[j].stage == Config && log[j].key == k
  {
    var last := log[|log| - 1];
    if last.stage == Config && last.key == k {
      j := |log| - 1;
    } else {
      j := VisitedConfigIn(log[..|log| - 1], k);
    }
  }

  /** The first `m` visits are configurations. */
  ghost predicate Opening<K, V>(log: seq<Visit<K, V>>, m: nat) {
    m <= |log| && forall i :: 0 <= i < m ==> log[i].stage == Config
  }

  lemma {:induction false} OneStageOnly<K, V>(log: seq<Visit<K, V>>, stage: Stage, other: Stage)
    requires stage != other && Visited(log, other) == []
    ensures |Visited(log, stage)| == |log|
    ensures forall i :: 0 <= i < |log| ==> log[i].stage == stage && log[i].key == Visited(log, stage)[i]
  {
    if log != [] {
      OneStageOnly(log[..|log| - 1], stage, other);
    }
  }

  lemma {:induction false} VisitedSplits<K, V>(log: seq<Visit<K, V>>, m: nat, stage: Stage)
    requires m <= |log|
    ensures Visited(log, stage) == Visited(log[..m], stage) + Visited(log[m..], stage)
    decreases |log|
  {
    if m == |log| {
      assert log[..m] == log && log[m..] == [];
    } else {
      var p := log[..|log| - 1];
      VisitedSplits(p, m, stage);
      assert p[..m] == log[..m] && log[m..][..|log| - 1 - m] == p[m..];
    }
  }

  lemma {:induction false} OpeningVisits<K, V>(log: seq<Visit<K, V>>)
    requires Opening(log, |log|)
    ensures Visited(log, Init) == []
  {
    if log != [] {
      OpeningVisits(log[..|log| - 1]);
    }
  }

  /** If both stages visited the same keys and configured as many first, the log is those configurations
      and then those initialisations. */
  lemma {:induction false} TwoRounds<K, V>(log: seq<Visit<K, V>>, keys: seq<K>)
    requires Visited(log, Config) == keys && Visited(log, Init) == keys && Opening(log, |keys|)
    ensures |log| == 2 * |keys|
    ensures Visited(log[..|keys|], Config) == keys && Visited(log[..|keys|], Init) == []
    ensures Visited(log[|keys|..], Config) == [] && Visited(log[|keys|..], Init) == keys
  {
    var m := |keys|;
    var a, b := log[..m], log[m..];
    VisitedSplits(log, m, Config);
    VisitedSplits(log, m, Init);
    OpeningVisits(a);
    OneStageOnly(a, Config, Init);
    assert |Visited(b, Config)| == 0;
    OneStageOnly(b, Init, Config);
  }

  lemma {:induction false} TwoRoundsAt<K, V>(log: seq<Visit<K, V>>, keys: seq<K>, i: nat)
    requires Visited(log, Config) == keys && Visited(log, Init) == keys && Opening(log, |keys|) && i < |keys|
    ensures |log| == 2 * |keys| && log[i].stage == Config && log[i].key == keys[i]
    ensures log[|keys| + i].stage == Init && log[|keys| + i].key == keys[i]
  {
    var m := |keys|;
    TwoRounds(log, keys);
    OneStageOnly(log[..m], Config, Init);
    OneStageOnly(log[m..], Init, Config);
    assert log[i] == log[..m][i] && log[m + i] == log[m..][i];
  }

  /** Keys and services after storing each of `provided`: a new key goes last, a known one keeps its
      place and takes the new value. */
  function Stored<K(==), V>(keys: seq<K>, services: map<K, V>, provided: seq<Service<K, V>>): (seq<K>, map<K, V>) {
    if provided == [] then (keys, services)
    else
      var p := provided[|provided| - 1];
      var (ks, ss) := Stored(keys, services, provided[..|provided| - 1]);
      (if p.key in ss then ks else ks + [p.key], ss[p.key := p.value])
  }

  /** The container after the first `n` visits, replayed from the log: each hook that ran stores what it
      provides. The visits before `from` are not part of it. */
  ghost function Replayed<K, V>(h: Hooks<K, V>, keys: seq<K>, services: map<K, V>,
                                log: seq<Visit<K, V>>, from: nat, n: nat): (seq<K>, map<K, V>)
    requires from <= n <= |log|
    decreases n
  {
    if n == from then (keys, services)
    else
      var (ks, ss) := Replayed(h, keys, services, log, from, n - 1);
      var v := log[n - 1];
      if h.capable(v.stage, v.value) then Stored(ks, ss, h.run(v.stage, v.key, v.value, n - 1).provided) else (ks, ss)
  }

  /** Every visit up to the `n`-th saw the value the container held then. */
  ghost predicate Traced<K, V>(h: Hooks<K, V>, keys: seq<K>, services: map<K, V>, log: seq<Visit<K, V>>, from: nat, n: nat)
    requires from <= n <= |log|
    decreases n
  {
    n == from
    || (Traced(h, keys, services, log, from, n - 1) && Saw(Replayed(h, keys, services, log, from, n - 1).1, log[n - 1]))
  }

  ghost predicate Saw<K, V>(services: map<K, V>, v: Visit<K, V>) {
    v.key in services && services[v.key] == v.value
  }

  /** Where a container stands: what the replay gives, with every visit accounted for. */
  ghost predicate Follows<K, V>(h: Hooks<K, V>, keys0: seq<K>, services0: map<K, V>, log: seq<Visit<K, V>>, from: nat,
                                keys: seq<K>, services: map<K, V>)
  {
    && from <= |log| && Traced(h, keys0, services0, log, from, |log|)
    && Replayed(h, keys0, services0, log, from, |log|) == (keys, services)
  }

  lemma {:induction false} ReplayedPrefix<K, V>(h: Hooks<K, V>, keys: seq<K>, services: map<K, V>,
                                                log: seq<Visit<K, V>>, v: Visit<K, V>, from: nat, n: nat)
    requires from <= n <= |log|
    ensures Replayed(h, keys, services, log + [v], from, n) == Replayed(h, keys, services, log, from, n)
    ensures Traced(h, keys, services, log + [v], from, n) == Traced(h, keys, services, log, from, n)
    decreases n
  {
    if n > from {
      ReplayedPrefix(h, keys, services, log, v, from, n - 1);
      assert (log + [v])[n - 1] == log[n - 1];
    }
  }

  /** One more visit. */
  lemma {:induction false} FollowsVisit<K, V>(h: Hooks<K, V>, keys0: seq<K>, services0: map<K, V>, log: seq<Visit<K, V>>,
                                              from: nat, keys: seq<K>, services: map<K, V>, v: Visit<K, V>)
    requires Follows(h, keys0, services0, log, from, keys, services) && Saw(services, v)
    ensures var (ks, ss) := if h.capable(v.stage, v.value)
                            then Stored(keys, services, h.run(v.stage, v.key, v.value, |log|).provided)
                            else (keys, services);
            Follows(h, keys0, services0, log + [v], from, ks, ss)
  {
    ReplayedPrefix(h, keys0, services0, log, v, from, |log|);
  }

  class Container<K(==, !new), V(!new)> {
    var keys: seq<K>       // registration order
    var services: map<K, V>
    var initialized: bool
    var log: seq<Visit<K, V>>

    /** The key log and the map stay in step. */
    ghost predicate Valid()
      reads this
    {
      && Distinct(keys)
      && forall k :: k in services <==> k in keys
    }

    constructor ()
      ensures Valid() && keys == [] && services == map[] && !initialized && log == []
    {
      keys, services, initialized, log := [], map[], false, [];
    }

    /** Re-storing a key replaces its value and keeps its place. */
    method StoreKey(key: K, value: V)
      requires Valid()
      modifies this`keys, this`services
      ensures Valid()
      ensures services == old(services)[key := value]
      ensures keys == if key in old(services) then old(keys) else old(keys) + [key]
    {
      if key !in services {
        keys := keys + [key];
      }
      services := services[key := value];
    }

    /** The registrations made by one hook, in order. */
    method Provide(provided: seq<Service<K, V>>, ghost universe: set<K>)
      requires Valid() && (forall i :: 0 <= i < |keys| ==> keys[i] in universe)
      requires forall i :: 0 <= i < |provided| ==> provided[i].key in universe
      modifies this`keys, this`services
      ensures Valid() && old(keys) <= keys && (forall i :: 0 <= i < |keys| ==> keys[i] in universe)
      ensures (keys, services) == Stored(old(keys), old(services), provided)
    {
      for n := 0 to |provided|
        invariant Valid() && old(keys) <= keys && (forall i :: 0 <= i < |keys| ==> keys[i] in universe)
        invariant (keys, services) == Stored(old(keys), old(services), provided[..n])
      {
        StoreKey(provided[n].key, provided[n].value);
        assert provided[..n + 1][..n] == provided[..n];
      }
      assert provided[..|provided|] == provided;
    }

    /** Mark `key` in a stage and run its hook, if it has one. */
    method VisitService(h: Hooks<K, V>, stage: Stage, key: K, ghost universe: set<K>, ghost from: nat) returns (ok: bool)
      requires Valid() && key in services && (forall i :: 0 <= i < |keys| ==> keys[i] in universe)
      requires ProvidesWithin(h, universe)
      requires from <= |log| && AllSucceeded(h, log, from) && ConfiguredFirst(log[from..])
      requires stage == Init ==> key in Visited(log[from..], Config)
      modifies this`keys, this`services, this`log
      ensures Valid() && (forall i :: 0 <= i < |keys| ==> keys[i] in universe)
      ensures old(keys) <= keys
      ensures log == old(log) + [Visit(stage, key, old(services)[key])]
      ensures (keys, services) == if h.capable(stage, old(services)[key])
                                  then Stored(old(keys), old(services), h.run(stage, key, old(services)[key], |old(log)|).provided)
                                  else (old(keys), old(services))
      ensures if ok then AllSucceeded(h, log, from) else FailedLast(h, log, from)
      ensures ConfiguredFirst(log[from..])
      ensures Visited(log[from..], stage) == Visited(old(log)[from..], stage) + [key]
      ensures forall other :: other != stage ==> Visited(log[from..], other) == Visited(old(log)[from..], other)
    {
      var value := services[key];
      var n := |log|;
      LogGrows(from, log, Visit(stage, key, value));
      log := log + [Visit(stage, key, value)];
      SucceededGrows(h, old(log), from, Visit(stage, key, value));
      if !h.capable(stage, value) {
        return true;
      }
      var outcome := h.run(stage, key, value, n);
      Provide(outcome.provided, universe);
      return outcome.ok;
    }

    /** The same, keeping account of the container in the log. */
    method VisitTraced(h: Hooks<K, V>, stage: Stage, key: K, ghost universe: set<K>, ghost from: nat,
                       ghost start: (seq<K>, map<K, V>)) returns (ok: bool)
      requires Valid() && key in services && (forall i :: 0 <= i < |keys| ==> keys[i] in universe)
      requires ProvidesWithin(h, universe)
      requires from <= |log| && AllSucceeded(h, log, from) && ConfiguredFirst(log[from..])
      requires stage == Init ==> key in Visited(log[from..], Config)
      requires Follows(h, start.0, start.1, log, from, keys, services)
      modifies this`keys, this`services, this`log
      ensures Valid() && (forall i :: 0 <= i < |keys| ==> keys[i] in universe)
      ensures old(keys) <= keys
      ensures old(log) <= log
      ensures if ok then AllSucceeded(h, log, from) else FailedLast(h, log, from)
      ensures ConfiguredFirst(log[from..])
      ensures Visited(log[from..], stage) == Visited(old(log)[from..], stage) + [key]
      ensures forall other :: other != stage ==> Visited(log[from..], other) == Visited(old(log)[from..], other)
      ensures Follows(h, start.0, start.1, log, from, keys, services)
    {
      FollowsVisit(h, start.0, start.1, log, from, keys, services, Visit(stage, key, services[key]));
      ok := VisitService(h, stage, key, universe, from);
    }

    lemma {:induction false} SucceededGrows(h: Hooks<K, V>, log: seq<Visit<K, V>>, from: nat, v: Visit<K, V>)
      requires from <= |log| && AllSucceeded(h, log, from)
      ensures if Succeeded(h, v, |log|) then AllSucceeded(h, log + [v], from) else FailedLast(h, log + [v], from)
    {
      assert (log + [v])[..|log|] == log;
    }

    /** What was the beginning of the keys still is. */
    lemma {:induction false} PrefixKept(was: seq<K>, m: nat)
      requires was <= keys && m <= |was|
      ensures keys[..m] == was[..m]
    {
    }

    lemma {:induction false} LogGrows(from: nat, log: seq<Visit<K, V>>, v: Visit<K, V>)
      requires from <= |log| && ConfiguredFirst(log[from..])
      requires v.stage == Init ==> v.key in Visited(log[from..], Config)
      ensures (log + [v])[from..] == log[from..] + [v]
      ensures forall stage :: Visited((log + [v])[from..], stage)
                == Visited(log[from..], stage) + (if v.stage == stage then [v.key] else [])
      ensures ConfiguredFirst((log + [v])[from..])
    {
      var a, b := (log + [v])[from..], log[from..];
      assert a == b + [v];
      VisitedSnoc(b, v, Config);
      VisitedSnoc(b, v, Init);
      forall i | 0 <= i < |a| && a[i].stage == Init
        ensures exists j :: 0 <= j < i && a[j].stage == Config && a[j].key == a[i].key
      {
        if i < |b| {
          assert a[i] == b[i];
          var j :| 0 <= j < i && b[j].stage == Config && b[j].key == b[i].key;
          assert a[j] == b[j];
        } else {
          var j := VisitedConfigIn(b, v.key);
          assert a[j] == b[j];
        }
      }
    }

    /** Everything the passes keep: `c` keys are configured and `n` initialised, always the first
        ones registered, and the part of the log since `from` says so. */
    ghost predicate Reached(h: Hooks<K, V>, universe: set<K>, from: nat, configured: set<K>, inited: set<K>, c: nat, n: nat)
      reads this
    {
      && Valid() && ProvidesWithin(h, universe)
      && (forall i :: 0 <= i < |keys| ==> keys[i] in universe)
      && n <= c <= |keys|
      && configured == Elements(keys[..c]) && inited == Elements(keys[..n])
      && from <= |log| && AllSucceeded(h, log, from)
      && Visited(log[from..], Config) == keys[..c]
      && Visited(log[from..], Init) == keys[..n]
      && ConfiguredFirst(log[from..])
    }

    lemma {:induction false} MemberAt(c: nat, i: nat)
      requires Valid() && c <= |keys| && i < |keys|
      ensures keys[i] in Elements(keys[..c]) <==> i < c
    {
      assert i < c ==> keys[..c][i] == keys[i];
    }

    lemma {:induction false} ElementsGrow(i: nat)
      requires i < |keys|
      ensures Elements(keys[..i]) + {keys[i]} == Elements(keys[..i + 1])
      ensures keys[..i + 1] == keys[..i] + [keys[i]]
    {
      assert keys[..i + 1] == keys[..i] + [keys[i]];
    }

    /** Configure the first service that is not configured yet. */
    method ConfigureNext(h: Hooks<K, V>, ghost universe: set<K>, ghost from: nat, ghost start: (seq<K>, map<K, V>), key: K,
                         ghost configured: set<K>, ghost inited: set<K>, ghost c: nat, ghost n: nat) returns (ok: bool)
      requires Reached(h, universe, from, configured, inited, c, n) && c < |keys| && key == keys[c]
      requires Follows(h, start.0, start.1, log, from, keys, services)
      modifies this`keys, this`services, this`log
      ensures old(keys) <= keys && old(log) <= log
      ensures if ok then Reached(h, universe, from, configured + {key}, inited, c + 1, n)
              else Valid() && FailedLast(h, log, from)
      ensures Follows(h, start.0, start.1, log, from, keys, services)
    {
      ElementsGrow(c);
      assert key in keys;
      ok := VisitTraced(h, Config, key, universe, from, start);
      PrefixKept(old(keys), c + 1);
      PrefixKept(old(keys), n);
    }

    /** Initialise the first service that is not initialised yet. */
    method InitNext(h: Hooks<K, V>, ghost universe: set<K>, ghost from: nat, ghost start: (seq<K>, map<K, V>), key: K,
                    ghost configured: set<K>, ghost inited: set<K>, ghost c: nat, ghost n: nat) returns (ok: bool)
      requires Reached(h, universe, from, configured, inited, c, n) && n < c && key == keys[n]
      requires Follows(h, start.0, start.1, log, from, keys, services)
      modifies this`keys, this`services, this`log
      ensures old(keys) <= keys && old(log) <= log
      ensures if ok then Reached(h, universe, from, configured, inited + {key}, c, n + 1)
              else Valid() && FailedLast(h, log, from)
      ensures Follows(h, start.0, start.1, log, from, keys, services)
    {
      ElementsGrow(n);
      assert key in keys && keys[..c][n] == key;
      ok := VisitTraced(h, Init, key, universe, from, start);
      PrefixKept(old(keys), c);
      PrefixKept(old(keys), n + 1);
    }

    /** One configuration pass over the services registered when it starts. */
    method ConfigPass(h: Hooks<K, V>, ghost universe: set<K>, ghost from: nat, ghost start: (seq<K>, map<K, V>),
                      configured: set<K>, ghost inited: set<K>, ghost c: nat, ghost n: nat)
      returns (configured': set<K>, progressed: bool, ok: bool)
      requires Reached(h, universe, from, configured, inited, c, n)
      requires Follows(h, start.0, start.1, log, from, keys, services)
      modifies this`keys, this`services, this`log
      ensures old(keys) <= keys && old(log) <= log
      ensures if ok then Reached(h, universe, from, configured', inited, |old(keys)|, n)
              else Valid() && FailedLast(h, log, from)
      ensures Follows(h, start.0, start.1, log, from, keys, services)
      ensures progressed <==> c < |old(keys)|
      ensures !progressed ==> keys == old(keys)
    {
      var snapshot := keys;
      configured', progressed, ok := configured, false, true;
      ghost var done := c;
      for i := 0 to |snapshot|
        invariant done == (if i > c then i else c)
        invariant snapshot <= keys && old(log) <= log
        invariant Reached(h, universe, from, configured', inited, done, n)
        invariant Follows(h, start.0, start.1, log, from, keys, services)
        invariant progressed <==> c < done
        invariant !progressed ==> keys == snapshot
      {
        var key := snapshot[i];
        assert key == keys[i];
        MemberAt(done, i);
        if key !in configured' {
          ok := ConfigureNext(h, universe, from, start, key, configured', inited, done, n);
          configured' := configured' + {key};
          progressed := true;
          if !ok {
            return;
          }
          done := done + 1;
        }
      }
    }

    /** One initialisation pass: only configured services are initialised. */
    method InitPass(h: Hooks<K, V>, ghost universe: set<K>, ghost from: nat, ghost start: (seq<K>, map<K, V>),
                    configured: set<K>, inited: set<K>, ghost c: nat, ghost n: nat)
      returns (inited': set<K>, progressed: bool, ok: bool)
      requires Reached(h, universe, from, configured, inited, c, n)
      requires Follows(h, start.0, start.1, log, from, keys, services)
      modifies this`keys, this`services, this`log
      ensures old(keys) <= keys && old(log) <= log
      ensures if ok then Reached(h, universe, from, configured, inited', c, c)
              else Valid() && FailedLast(h, log, from)
      ensures Follows(h, start.0, start.1, log, from, keys, services)
      ensures progressed <==> n < c
      ensures !progressed ==> keys == old(keys)
    {
      var snapshot := keys;
      inited', progressed, ok := inited, false, true;
      ghost var done := n;
      for i := 0 to |snapshot|
        invariant done == (if i <= n then n else if i < c then i else c)
        invariant snapshot <= keys && old(log) <= log
        invariant Reached(h, universe, from, configured, inited', c, done)
        invariant Follows(h, start.0, start.1, log, from, keys, services)
        invariant progressed <==> n < done
        invariant !progressed ==> keys == snapshot
      {
        var key := snapshot[i];
        assert key == keys[i];
        MemberAt(done, i);
        MemberAt(c, i);
        if key !in inited' && key in configured {
          ok := InitNext(h, universe, from, start, key, configured, inited', c, done);
          inited' := inited' + {key};
          progressed := true;
          if !ok {
            return;
          }
          done := done + 1;
        }
      }
    }

    lemma {:induction false} OpeningGrows(sofar: seq<Visit<K, V>>, from: nat, m: nat)
      requires from <= |sofar| && sofar <= log && Opening(sofar[from..], m)
      ensures Opening(log[from..], m)
    {
      assert forall i :: 0 <= i < m ==> log[from..][i] == sofar[from..][i];
    }

    /** After a configuration pass the log opens with configurations: the first pass made them, or they
        were there before. */
    lemma {:induction false} OpeningKept(sofar: seq<Visit<K, V>>, from: nat, c: nat, size: nat, m: nat)
      requires from <= |sofar| && sofar <= log && c <= size && m <= size <= |keys|
      requires Visited(log[from..], Config) == keys[..size] && Visited(log[from..], Init) == keys[..c]
      requires c > 0 ==> Opening(sofar[from..], m)
      ensures Opening(log[from..], m)
    {
      if c > 0 {
        OpeningGrows(sofar, from, m);
      } else {
        OneStageOnly(log[from..], Config, Init);
      }
    }

    /** A configuration pass and an initialisation pass; `m` services were registered at the start. */
    method Round(h: Hooks<K, V>, ghost universe: set<K>, ghost from: nat, ghost start: (seq<K>, map<K, V>),
                 configured: set<K>, inited: set<K>, ghost c: nat, ghost m: nat)
      returns (configured': set<K>, inited': set<K>, progressed: bool, ok: bool)
      requires Reached(h, universe, from, configured, inited, c, c) && m <= |keys|
      requires Follows(h, start.0, start.1, log, from, keys, services)
      requires c > 0 ==> Opening(log[from..], m)
      modifies this`keys, this`services, this`log
      ensures old(keys) <= keys && old(log) <= log
      ensures Follows(h, start.0, start.1, log, from, keys, services)
      ensures if ok then Reached(h, universe, from, configured', inited', |old(keys)|, |old(keys)|) && Opening(log[from..], m)
              else Valid() && FailedLast(h, log, from)
      ensures ok ==> (progressed <==> c < |old(keys)|) && (!progressed ==> keys == old(keys))
    {
      ghost var size, sofar := |keys|, log;
      var p1, p2;
      inited', progressed := inited, false;
      configured', p1, ok := ConfigPass(h, universe, from, start, configured, inited, c, c);
      if !ok {
        return;
      }
      OpeningKept(sofar, from, c, size, m);
      sofar := log;
      inited', p2, ok := InitPass(h, universe, from, start, configured', inited, size, c);
      if !ok {
        return;
      }
      OpeningGrows(sofar, from, m);
      progressed := p1 || p2;
    }

    /** On success every service registered by then, those provided by hooks on the way included, was
        configured exactly once and initialised exactly once, each stage in registration order and
        configuration first, that of the services registered at the start before any initialisation. The
        first failing hook ends the phase and leaves it not initialised. */
    method InitServices(h: Hooks<K, V>, ghost universe: set<K>) returns (ok: bool)
      requires Valid() && ProvidesWithin(h, universe) && (forall i :: 0 <= i < |keys| ==> keys[i] in universe)
      modifies this
      ensures Valid() && old(keys) <= keys && old(log) <= log
      ensures old(initialized) ==> ok && initialized && keys == old(keys) && services == old(services) && log == old(log)
      ensures !old(initialized) && ok ==>
                && initialized
                && Visited(log[|old(log)|..], Config) == keys
                && Visited(log[|old(log)|..], Init) == keys
                && ConfiguredFirst(log[|old(log)|..])
                && Opening(log[|old(log)|..], |old(keys)|)
                && AllSucceeded(h, log, |old(log)|)
      ensures !old(initialized) && !ok ==> !initialized && FailedLast(h, log, |old(log)|)
      ensures !old(initialized) ==>
                (ok <==> forall i :: |old(log)| <= i < |log| && h.capable(log[i].stage, log[i].value) ==>
                                       h.run(log[i].stage, log[i].key, log[i].value, i).ok)
      ensures !ok ==> forall i :: |old(log)| <= i < |log| - 1 && h.capable(log[i].stage, log[i].value) ==>
                                    h.run(log[i].stage, log[i].key, log[i].value, i).ok
      ensures Follows(h, old(keys), old(services), log, |old(log)|, keys, services)
    {
      if initialized {
        return true;
      }
      ghost var from := |log|;
      var configured: set<K>, inited: set<K> := {}, {};
      ghost var c: nat := 0;
      var progressed := true;
      assert log[from..] == [];
      while progressed
        invariant !initialized && old(keys) <= keys && old(log) <= log
        invariant Reached(h, universe, from, configured, inited, c, c)
        invariant Follows(h, old(keys), old(services), log, from, keys, services)
        invariant c > 0 || !progressed ==> Opening(log[from..], |old(keys)|)
        invariant !progressed ==> c == |keys|
        decreases |universe| - c, progressed
      {
        ghost var size := |keys|;
        DistinctSize(keys, universe);
        configured, inited, progressed, ok := Round(h, universe, from, (old(keys), old(services)), configured, inited, c, |old(keys)|);
        if !ok {
          HooksTold(h, log, from);
          return;
        }
        c := size;
      }
      initialized := true;
      assert keys[..c] == keys;
      HooksTold(h, log, from);
      return true;
    }

    /** What success and failure of the phase mean for the hooks that ran. */
    lemma {:induction false} HooksTold(h: Hooks<K, V>, log: seq<Visit<K, V>>, from: nat)
      ensures AllSucceeded(h, log, from) ==>
                forall i :: from <= i < |log| && h.capable(log[i].stage, log[i].value) ==>
                              h.run(log[i].stage, log[i].key, log[i].value, i).ok
      ensures FailedLast(h, log, from) ==>
                var n := |log| - 1;
                && from <= n && h.capable(log[n].stage, log[n].value) && !h.run(log[n].stage, log[n].key, log[n].value, n).ok
                && forall i :: from <= i < n && h.capable(log[i].stage, log[i].value) ==>
                                 h.run(log[i].stage, log[i].key, log[i].value, i).ok
    {
      if AllSucceeded(h, log, from) {
        forall i | from <= i < |log| && h.capable(log[i].stage, log[i].value)
          ensures h.run(log[i].stage, log[i].key, log[i].value, i).ok
        {
          assert Succeeded(h, log[i], i);
        }
      }
      if FailedLast(h, log, from) {
        var p := log[..|log| - 1];
        forall i | from <= i < |log| - 1 && h.capable(log[i].stage, log[i].value)
          ensures h.run(log[i].stage, log[i].key, log[i].value, i).ok
        {
          assert Succeeded(h, p[i], i) && p[i] == log[i];
        }
      }
    }
  }

  // ----- Exactly once -----

  /** How often `k` was visited in a stage. */
  function Times<K(==), V>(log: seq<Visit<K, V>>, stage: Stage, k: K): nat {
    if log == [] then 0
    else
      Times(log[..|log| - 1], stage, k)
      + (if log[|log| - 1].stage == stage && log[|log| - 1].key == k then 1 else 0)
  }

  /** A log whose visits of a stage list distinct keys visited each of them once and no other key:
      what InitServices guarantees of both stages, with the registered keys as the list. */
  lemma {:induction false} VisitedOnce<K, V>(log: seq<Visit<K, V>>, stage: Stage, k: K)
    requires Distinct(Visited(log, stage))
    ensures Times(log, stage, k) == if k in Visited(log, stage) then 1 else 0
  {
    if log != [] {
      var p, v := log[..|log| - 1], log[|log| - 1];
      var before := Visited(p, stage);
      assert Visited(log, stage)[..|before|] == before;
      assert Distinct(before) by {
        assert forall i :: 0 <= i < |before| ==> before[i] == Visited(log, stage)[i];
      }
      VisitedOnce(p, stage, k);
      if v.stage == stage {
        assert Visited(log, stage) == before + [v.key];
        assert Visited(log, stage)[|before|] == v.key;
        assert v.key !in before;
      } else {
        assert Visited(log, stage) == before;
      }
    }
  }

  // ----- Services provided again -----

  /** The last value a hook stores under `k`, if it stores one. */
  function LastIn<K(==), V>(provided: seq<Service<K, V>>, k: K): Option<V> {
    if provided == [] then None
    else if provided[|provided| - 1].key == k then Some(provided[|provided| - 1].value)
    else LastIn(provided[..|provided| - 1], k)
  }

  lemma {:induction false} StoredValue<K, V>(keys: seq<K>, services: map<K, V>, provided: seq<Service<K, V>>, k: K)
    requires k in services
    ensures var ss := Stored(keys, services, provided).1;
            k in ss && ss[k] == if LastIn(provided, k).Some? then LastIn(provided, k).value else services[k]
    decreases |provided|
  {
    if provided != [] {
      StoredValue(keys, services, provided[..|provided| - 1], k);
    }
  }

  /** The last value the hooks of visits `c` to `n` store under `k`, if any does. */
  ghost function LastProvided<K, V>(h: Hooks<K, V>, log: seq<Visit<K, V>>, k: K, c: nat, n: nat): Option<V>
    requires c <= n <= |log|
    decreases n
  {
    if n == c then None
    else
      var v := log[n - 1];
      var p := if h.capable(v.stage, v.value) then LastIn(h.run(v.stage, v.key, v.value, n - 1).provided, k) else None;
      if p.Some? then p else LastProvided(h, log, k, c, n - 1)
  }

  lemma {:induction false} ValueSince<K, V>(h: Hooks<K, V>, keys: seq<K>, services: map<K, V>, log: seq<Visit<K, V>>,
                                            from: nat, c: nat, n: nat, k: K)
    requires from <= c <= n <= |log| && k in Replayed(h, keys, services, log, from, c).1
    ensures var now := Replayed(h, keys, services, log, from, n).1;
            var p := LastProvided(h, log, k, c, n);
            k in now && now[k] == if p.Some? then p.value else Replayed(h, keys, services, log, from, c).1[k]
    decreases n
  {
    if n > c {
      ValueSince(h, keys, services, log, from, c, n - 1, k);
      var v := log[n - 1];
      if h.capable(v.stage, v.value) {
        var (ks, ss) := Replayed(h, keys, services, log, from, n - 1);
        StoredValue(ks, ss, h.run(v.stage, v.key, v.value, n - 1).provided, k);
      }
    }
  }

  /** What a map holds under `k` after values were stored, the last of them `p`. */
  ghost predicate HoldsLast<K, V>(before: map<K, V>, after: map<K, V>, k: K, p: Option<V>) {
    && (k in after <==> k in before || p.Some?)
    && (p.Some? ==> after[k] == p.value)
    && (p.None? && k in before ==> after[k] == before[k])
  }

  lemma {:induction false} StoredExact<K, V>(keys: seq<K>, services: map<K, V>, provided: seq<Service<K, V>>, k: K)
    ensures HoldsLast(services, Stored(keys, services, provided).1, k, LastIn(provided, k))
    decreases |provided|
  {
    if provided != [] {
      StoredExact(keys, services, provided[..|provided| - 1], k);
    }
  }

  lemma {:induction false} ReplayedExact<K, V>(h: Hooks<K, V>, keys: seq<K>, services: map<K, V>, log: seq<Visit<K, V>>,
                                               from: nat, n: nat, k: K)
    requires from <= n <= |log|
    ensures HoldsLast(services, Replayed(h, keys, services, log, from, n).1, k, LastProvided(h, log, k, from, n))
    decreases n
  {
    if n > from {
      ReplayedExact(h, keys, services, log, from, n - 1, k);
      var v := log[n - 1];
      var (ks, ss) := Replayed(h, keys, services, log, from, n - 1);
      if h.capable(v.stage, v.value) {
        StoredExact(ks, ss, h.run(v.stage, v.key, v.value, n - 1).provided, k);
      }
    }
  }

  /** The container holds exactly the services it held before and those the hooks provided, each with the
      value provided last. */
  lemma {:induction false} FinalContent<K, V>(h: Hooks<K, V>, keys: seq<K>, services: map<K, V>, log: seq<Visit<K, V>>,
                                              from: nat, endKeys: seq<K>, end: map<K, V>, k: K)
    requires Follows(h, keys, services, log, from, endKeys, end)
    ensures var p := LastProvided(h, log, k, from, |log|);
            && (k in end <==> k in services || p.Some?)
            && (k in end ==> end[k] == if p.Some? then p.value else services[k])
  {
    ReplayedExact(h, keys, services, log, from, |log|, k);
  }

  lemma {:induction false} TracedAt<K, V>(h: Hooks<K, V>, keys: seq<K>, services: map<K, V>, log: seq<Visit<K, V>>,
                                          from: nat, n: nat, i: nat)
    requires from <= i < n <= |log| && Traced(h, keys, services, log, from, n)
    ensures Saw(Replayed(h, keys, services, log, from, i).1, log[i])
    decreases n
  {
    if i < n - 1 {
      TracedAt(h, keys, services, log, from, n - 1, i);
    }
  }

  /** No hook from visit `c` on leaves `k` with another value by visit `n`. */
  ghost predicate KeptFrom<K, V>(h: Hooks<K, V>, log: seq<Visit<K, V>>, k: K, c: nat, n: nat)
    requires c < |log| && c <= n <= |log|
  {
    var p := LastProvided(h, log, k, c, n);
    p.Some? ==> p.value == log[c].value
  }

  /** A visit saw the value its key ends up with if and only if no hook, from that visit on, put another in
      its place for good. A service provided again after a stage visited its key is not put through that
      stage. */
  lemma {:induction false} VisitSawFinal<K, V>(h: Hooks<K, V>, keys: seq<K>, services: map<K, V>, log: seq<Visit<K, V>>,
                                               from: nat, endKeys: seq<K>, end: map<K, V>, i: nat)
    requires Follows(h, keys, services, log, from, endKeys, end) && from <= i < |log|
    ensures log[i].key in end
    ensures log[i].value == end[log[i].key] <==> KeptFrom(h, log, log[i].key, i, |log|)
  {
    TracedAt(h, keys, services, log, from, |log|, i);
    ValueSince(h, keys, services, log, from, i, |log|, log[i].key);
  }

  /** The value a key ends up with went through both stages if and only if no hook, from the key's
      configuration on, had put another value in its place by its initialisation or by the end. */
  lemma {:induction false} FinalValueVisited<K, V>(h: Hooks<K, V>, keys: seq<K>, services: map<K, V>, log: seq<Visit<K, V>>,
                                                   from: nat, endKeys: seq<K>, end: map<K, V>, k: K, c: nat, i: nat)
    requires Follows(h, keys, services, log, from, endKeys, end)
    requires from <= c < i < |log|
    requires log[c].stage == Config && log[c].key == k && log[i].stage == Init && log[i].key == k
    ensures k in end
    ensures log[c].value == end[k] && log[i].value == end[k] <==>
            KeptFrom(h, log, k, c, i) && KeptFrom(h, log, k, c, |log|)
  {
    TracedAt(h, keys, services, log, from, |log|, c);
    TracedAt(h, keys, services, log, from, |log|, i);
    ValueSince(h, keys, services, log, from, c, i, k);
    ValueSince(h, keys, services, log, from, c, |log|, k);
  }

  // ----- Two containers whose final value was not visited -----

  /** Hooks that succeed and store 2 under 'a', nothing else. */
  function Renewing(capable: (Stage, int) -> bool): Hooks<char, int> {
    Hooks(capable, (_, _, _, _) => Outcome([Service('a', 2)], true))
  }

  lemma {:induction false} StoredAgain(keys: seq<char>, services: map<char, int>)
    requires 'a' in services
    ensures Stored(keys, services, [Service('a', 2)]) == (keys, services['a' := 2])
  {
    assert [Service('a', 2)][..0] == [];
  }

  /** Such hooks leave the list of keys as it is, and none fails. */
  lemma {:induction false} KeysStay(capable: (Stage, int) -> bool, h: Hooks<char, int>, keys: seq<char>, services: map<char, int>,
                                    log: seq<Visit<char, int>>, n: nat)
    requires n <= |log| && 'a' in services && h == Renewing(capable)
    ensures Replayed(h, keys, services, log, 0, n).0 == keys && 'a' in Replayed(h, keys, services, log, 0, n).1
    ensures !FailedLast(h, log, 0)
    decreases n
  {
    if log != [] {
      var v := log[|log| - 1];
      assert h.run(v.stage, v.key, v.value, |log| - 1).ok;
    }
    if n > 0 {
      KeysStay(capable, h, keys, services, log, n - 1);
      var (ks, ss) := Replayed(h, keys, services, log, 0, n - 1);
      StoredAgain(ks, ss);
    }
  }

  /** A service that provides itself anew while it is initialised: the new value is in the container at the
      end, and neither stage ever saw it. */
  method ProvidedAgainUnvisited() returns (c: Container<char, int>, ok: bool)
    ensures ok && c.keys == ['a'] && c.services == map['a' := 2]
    ensures c.log == [Visit(Config, 'a', 1), Visit(Init, 'a', 1)]
  {
    var h := SelfRenewing();
    c := new Container();
    c.StoreKey('a', 1);
    assert c.keys == ['a'] && c.services == map['a' := 1];
    ok := c.InitServices(h, {'a'});
    KeysStay(h.capable, h, ['a'], map['a' := 1], c.log, |c.log|);
    AgainRun(h, map['a' := 1], c.log);
  }

  function SelfRenewing(): Hooks<char, int> {
    Renewing((stage, _) => stage == Init)
  }

  lemma {:induction false} AgainRun(h: Hooks<char, int>, start: map<char, int>, log: seq<Visit<char, int>>)
    requires start == map['a' := 1] && h == SelfRenewing()
    requires Visited(log[0..], Config) == ['a'] && Visited(log[0..], Init) == ['a'] && Opening(log[0..], 1)
    requires Traced(h, ['a'], start, log, 0, |log|)
    ensures log == [Visit(Config, 'a', 1), Visit(Init, 'a', 1)]
    ensures Replayed(h, ['a'], start, log, 0, |log|).1 == map['a' := 2]
  {
    assert log[0..] == log;
    TwoRoundsAt(log, ['a'], 0);
    TracedAt(h, ['a'], start, log, 0, 2, 0);
    TracedAt(h, ['a'], start, log, 0, 2, 1);
    assert Replayed(h, ['a'], start, log, 0, 1) == (['a'], start);
    StoredAgain(['a'], start);
  }

  /** Service 'b' provides 'a' anew while it is configured: the new value of 'a' is initialised and was
      never configured, its old value was configured and never initialised. */
  method ProvidedBetweenStages() returns (c: Container<char, int>, ok: bool)
    ensures ok && c.keys == ['a', 'b'] && c.services == map['a' := 2, 'b' := 9]
    ensures c.log == [Visit(Config, 'a', 1), Visit(Config, 'b', 9), Visit(Init, 'a', 2), Visit(Init, 'b', 9)]
  {
    c := TwoServices();
    var h := PeerRenewing();
    ghost var keys, start := c.keys, c.services;
    ok := c.InitServices(h, {'a', 'b'});
    KeysStay(h.capable, h, keys, start, c.log, |c.log|);
    BetweenRun(h, start, c.log);
  }

  method TwoServices() returns (c: Container<char, int>)
    ensures fresh(c) && c.Valid() && !c.initialized && c.log == []
    ensures c.keys == ['a', 'b'] && c.services == map['a' := 1, 'b' := 9]
  {
    c := new Container();
    c.StoreKey('a', 1);
    c.StoreKey('b', 9);
  }

  function PeerRenewing(): Hooks<char, int> {
    Renewing((stage, value) => stage == Config && value == 9)
  }

  lemma {:induction false} BetweenRun(h: Hooks<char, int>, start: map<char, int>, log: seq<Visit<char, int>>)
    requires start == map['a' := 1, 'b' := 9] && h == PeerRenewing()
    requires Visited(log[0..], Config) == ['a', 'b'] && Visited(log[0..], Init) == ['a', 'b'] && Opening(log[0..], 2)
    requires Traced(h, ['a', 'b'], start, log, 0, |log|)
    ensures log == [Visit(Config, 'a', 1), Visit(Config, 'b', 9), Visit(Init, 'a', 2), Visit(Init, 'b', 9)]
    ensures Replayed(h, ['a', 'b'], start, log, 0, |log|).1 == map['a' := 2, 'b' := 9]
  {
    var ks, end := ['a', 'b'], map['a' := 2, 'b' := 9];
    assert log[0..] == log;
    TwoRoundsAt(log, ks, 0);
    TwoRoundsAt(log, ks, 1);
    TracedAt(h, ks, start, log, 0, 4, 0);
    TracedAt(h, ks, start, log, 0, 4, 1);
    TracedAt(h, ks, start, log, 0, 4, 2);
    TracedAt(h, ks, start, log, 0, 4, 3);
    assert Replayed(h, ks, start, log, 0, 1) == (ks, start);
    StoredAgain(ks, start);
    assert start['a' := 2] == end;
    assert Replayed(h, ks, start, log, 0, 2) == (ks, end);
    assert Replayed(h, ks, start, log, 0, 3) == (ks, end);
  }
}
