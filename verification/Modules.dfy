/**
 Installing modules (host/module.go). A keyed module's Register is described by a recipe under its
 key: the modules it installs, in order, and whether it then returns an error. Recipes may refer to
 each other in cycles. An anonymous ModuleFunc, or a module whose key is empty, carries its own
 children and is never deduplicated.
 */
module Modules {

  import opened Options

  type Key = string

  datatype Module =
    | Keyed(key: Key)
    | Anonymous(children: seq<Module>, fails: bool)
    | Nil

  datatype Recipe = Recipe(children: seq<Module>, fails: bool)

  type Registry = map<Key, Recipe>

  /** What went wrong: the Register that returned the recorded error. */
  datatype Failure = KeyFailed(key: Key) | FuncFailed

  /** A call of a module's Register begins, or returns. */
  datatype Step = Begin(m: Module) | End(m: Module)

  /** `installed` is the deduplication set, `log` the keys in the order their Register began, `trace` the
      calls of Register. */
  datatype State = State(installed: set<Key>, err: Option<Failure>, log: seq<Key>, trace: seq<Step>)

  /** Every keyed module mentioned has a recipe. */
  predicate Known(r: Registry, m: Module) {
    match m
    case Keyed(k) => k != "" && k in r
    case Anonymous(children, _) => forall c :: c in children ==> Known(r, c)
    case Nil => true
  }

  predicate AllKnown(r: Registry, ms: seq<Module>) {
    forall c :: c in ms ==> Known(r, c)
  }

  predicate Complete(r: Registry) {
    forall k :: k in r ==> AllKnown(r, r[k].children)
  }

  function Failing(s: State, fails: bool, f: Failure): State {
    if fails && s.err.None? then s.(err := Some(f)) else s
  }

  function Started(s: State, k: Key): State {
    s.(installed := s.installed + {k}, log := s.log + [k], trace := s.trace + [Begin(Keyed(k))])
  }

  function Entered(s: State, m: Module): State {
    s.(trace := s.trace + [Begin(m)])
  }

  function Left(s: State, m: Module, fails: bool, f: Failure): State {
    Failing(s.(trace := s.trace + [End(m)]), fails, f)
  }

  lemma {:induction false} FewerLeft(r: Registry, a: set<Key>, b: set<Key>)
    requires a <= b
    ensures |r.Keys - b| <= |r.Keys - a|
    ensures (exists k :: k in r && k in b && k !in a) ==> |r.Keys - b| < |r.Keys - a|
  {
    SubsetSize(r.Keys - b, r.Keys - a);
    if exists k :: k in r && k in b && k !in a {
      var k :| k in r && k in b && k !in a;
      SubsetSize(r.Keys - b, r.Keys - a - {k});
    }
  }

  lemma {:induction false} SubsetSize<T>(a: set<T>, b: set<T>)
    requires a <= b
    ensures |a| <= |b|
    decreases a
  {
    if a != {} {
      var x :| x in a;
      SubsetSize(a - {x}, b - {x});
    }
  }

  /** The effect of WithModule. The recursion goes round cycles of recipes, and ends because each
      Register it enters uses up one key. */
  function Installed(r: Registry, s: State, m: Module): (s': State)
    requires Complete(r) && Known(r, m)
    ensures s.installed <= s'.installed
    decreases |r.Keys - s.installed|, m, 1
  {
    if s.err.Some? then s
    else
      match m
      case Nil => s
      case Anonymous(children, fails) => Left(InstalledAll(r, Entered(s, m), children), m, fails, FuncFailed)
      case Keyed(k) =>
        if k in s.installed then s
        else
          FewerLeft(r, s.installed, Started(s, k).installed);
          Left(InstalledAll(r, Started(s, k), r[k].children), m, r[k].fails, KeyFailed(k))
  }

  function InstalledAll(r: Registry, s: State, ms: seq<Module>): (s': State)
    requires Complete(r) && AllKnown(r, ms)
    ensures s.installed <= s'.installed
    decreases |r.Keys - s.installed|, ms, 0
  {
    if ms == [] then s
    else
      var s1 := Installed(r, s, ms[0]);
      FewerLeft(r, s.installed, s1.installed);
      InstalledAll(r, s1, ms[1..])
  }

  /** The part of the application that holds modules. */
  class App {
    var installed: set<Key>
    var err: Option<Failure>
    var log: seq<Key>
    var trace: seq<Step>

    function View(): State
      reads this
    {
      State(installed, err, log, trace)
    }

    constructor ()
      ensures View() == State({}, None, [], [])
    {
      installed, err, log, trace := {}, None, [], [];
    }

    /** The first error stays. */
    method Fail(f: Failure)
      modifies this`err
      ensures err == if old(err).Some? then old(err) else Some(f)
    {
      if err.None? {
        err := Some(f);
      }
    }

    method WithModule(r: Registry, m: Module)
      requires Complete(r) && Known(r, m)
      modifies this
      ensures View() == Installed(r, old(View()), m)
      decreases |r.Keys - installed|, m, 1
    {
      if err.Some? || m.Nil? {
        return;
      }
      if m.Anonymous? {
        trace := trace + [Begin(m)];
        WithModules(r, m.children);
        trace := trace + [End(m)];
        if m.fails {
          Fail(FuncFailed);
        }
        return;
      }
      if m.key in installed {
        return;
      }
      FewerLeft(r, installed, installed + {m.key});
      installed := installed + {m.key};
      log := log + [m.key];
      trace := trace + [Begin(m)];
      WithModules(r, r[m.key].children);
      trace := trace + [End(m)];
      if r[m.key].fails {
        Fail(KeyFailed(m.key));
      }
    }

    method WithModules(r: Registry, ms: seq<Module>)
      requires Complete(r) && AllKnown(r, ms)
      modifies this
      ensures View() == InstalledAll(r, old(View()), ms)
      decreases |r.Keys - installed|, ms, 0
    {
      if ms != [] {
        ghost var s := View();
        FewerLeft(r, installed, Installed(r, s, ms[0]).installed);
        WithModule(r, ms[0]);
        WithModules(r, ms[1..]);
      }
    }
  }

  // ----- What installation guarantees -----

  /** The keys a module installs by itself, reaching through anonymous modules. */
  function KeysOf(m: Module): set<Key>
    decreases m, 1
  {
    match m
    case Keyed(k) => {k}
    case Anonymous(children, _) => KeysOfAll(children)
    case Nil => {}
  }

  function KeysOfAll(ms: seq<Module>): set<Key>
    decreases ms, 0
  {
    if ms == [] then {} else KeysOf(ms[0]) + KeysOfAll(ms[1..])
  }

  function Imports(r: Registry, k: Key): set<Key>
    requires k in r
  {
    KeysOfAll(r[k].children)
  }

  /** `c` contains the imports of its members. */
  ghost predicate Closed(r: Registry, c: set<Key>) {
    forall k :: k in c && k in r ==> Imports(r, k) <= c
  }

  ghost predicate NoRepeats(ks: seq<Key>) {
    forall i, j :: 0 <= i < j < |ks| ==> ks[i] != ks[j]
  }

  /** What one installation did, going from `s` to `s'`: `wanted` are the keys it was asked for. */
  ghost predicate Progress(r: Registry, s: State, s': State, wanted: set<Key>) {
    && s.installed <= s'.installed
    && |s.log| <= |s'.log| && s'.log[..|s.log|] == s.log
    && Registers(s, s')
    && (s.err.Some? ==> s' == s)
    && (s'.err.None? ==> wanted <= s'.installed && ImportsMet(r, s, s'))
  }

  /** Every newly installed key began Register exactly once, and nothing else did. */
  ghost predicate Registers(s: State, s': State)
    requires |s.log| <= |s'.log|
  {
    var began := s'.log[|s.log|..];
    NoRepeats(began) && forall k :: k in began <==> k in s'.installed && k !in s.installed
  }

  ghost predicate ImportsMet(r: Registry, s: State, s': State) {
    forall k :: k in s'.installed && k !in s.installed ==> k in r && Imports(r, k) <= s'.installed
  }

  lemma {:induction false} RegistersCompose(a: State, b: State, c: State)
    requires a.installed <= b.installed <= c.installed
    requires |a.log| <= |b.log| <= |c.log| && b.log[..|a.log|] == a.log && c.log[..|b.log|] == b.log
    requires Registers(a, b) && Registers(b, c)
    ensures Registers(a, c)
  {
    var x, y, z := b.log[|a.log|..], c.log[|b.log|..], c.log[|a.log|..];
    assert z == x + y by {
      assert c.log == b.log + y && b.log == a.log + x;
    }
    forall i, j | 0 <= i < j < |z|
      ensures z[i] != z[j]
    {
      if i < |x| <= j {
        assert x[i] in x && y[j - |x|] in y;
      }
    }
  }

  lemma {:induction false} ProgressCompose(r: Registry, a: State, b: State, c: State, v: set<Key>, w: set<Key>)
    requires Progress(r, a, b, v) && Progress(r, b, c, w)
    ensures Progress(r, a, c, v + w)
  {
    RegistersCompose(a, b, c);
    assert c.log[..|a.log|] == c.log[..|b.log|][..|a.log|];
  }

  lemma {:induction false} InstallProgress(r: Registry, s: State, m: Module)
    requires Complete(r) && Known(r, m)
    ensures Progress(r, s, Installed(r, s, m), KeysOf(m))
    decreases |r.Keys - s.installed|, m, 1
  {
    if s.err.None? {
      match m
      case Nil =>
      case Anonymous(children, _) => InstallAllProgress(r, Entered(s, m), children);
      case Keyed(k) =>
        if k !in s.installed {
          FewerLeft(r, s.installed, Started(s, k).installed);
          InstallAllProgress(r, Started(s, k), r[k].children);
          RegisterProgress(r, s, InstalledAll(r, Started(s, k), r[k].children), k);
        }
    }
  }

  lemma {:induction false} RegisterProgress(r: Registry, s: State, s': State, k: Key)
    requires k in r && k !in s.installed && s.err.None?
    requires Progress(r, Started(s, k), s', Imports(r, k))
    ensures Progress(r, s, Left(s', Keyed(k), r[k].fails, KeyFailed(k)), {k})
  {
    var t := Started(s, k);
    assert Registers(s, t) by {
      assert t.log[|s.log|..] == [k];
    }
    assert t.log[..|s.log|] == s.log;
    RegistersCompose(s, t, s');
    assert s'.log[..|s.log|] == s'.log[..|t.log|][..|s.log|];
  }

  lemma {:induction false} InstallAllProgress(r: Registry, s: State, ms: seq<Module>)
    requires Complete(r) && AllKnown(r, ms)
    ensures Progress(r, s, InstalledAll(r, s, ms), KeysOfAll(ms))
    decreases |r.Keys - s.installed|, ms, 0
  {
    if ms != [] {
      var s1 := Installed(r, s, ms[0]);
      FewerLeft(r, s.installed, s1.installed);
      InstallProgress(r, s, ms[0]);
      InstallAllProgress(r, s1, ms[1..]);
      ProgressCompose(r, s, s1, InstalledAll(r, s, ms), KeysOf(ms[0]), KeysOfAll(ms[1..]));
    }
  }

  /** A module that is not skipped installs itself and then its children. */
  lemma {:induction false} InstallEnters(r: Registry, s: State, m: Module)
    requires Complete(r) && Known(r, m)
    ensures s.err.Some? || m.Nil? || (m.Keyed? && m.key in s.installed) ==> Installed(r, s, m) == s
    ensures s.err.None? && m.Anonymous? ==>
              Installed(r, s, m).installed == InstalledAll(r, Entered(s, m), m.children).installed
    ensures s.err.None? && m.Keyed? && m.key !in s.installed ==>
              Installed(r, s, m).installed == InstalledAll(r, Started(s, m.key), r[m.key].children).installed
  {
  }

  lemma {:induction false} InstallStaysWithin(r: Registry, s: State, m: Module, c: set<Key>)
    requires Complete(r) && Known(r, m) && Closed(r, c) && KeysOf(m) <= c
    ensures Installed(r, s, m).installed <= s.installed + c
    decreases |r.Keys - s.installed|, m, 1
  {
    InstallEnters(r, s, m);
    if s.err.None? && m.Anonymous? {
      InstallAllStaysWithin(r, Entered(s, m), m.children, c);
    } else if s.err.None? && m.Keyed? && m.key !in s.installed {
      FewerLeft(r, s.installed, Started(s, m.key).installed);
      assert Imports(r, m.key) <= c;
      InstallAllStaysWithin(r, Started(s, m.key), r[m.key].children, c);
    }
  }

  lemma {:induction false} InstallAllStaysWithin(r: Registry, s: State, ms: seq<Module>, c: set<Key>)
    requires Complete(r) && AllKnown(r, ms) && Closed(r, c) && KeysOfAll(ms) <= c
    ensures InstalledAll(r, s, ms).installed <= s.installed + c
    decreases |r.Keys - s.installed|, ms, 0
  {
    if ms != [] {
      var s1 := Installed(r, s, ms[0]);
      FewerLeft(r, s.installed, s1.installed);
      InstallStaysWithin(r, s, ms[0], c);
      InstallAllStaysWithin(r, s1, ms[1..], c);
    }
  }

  /** Installing modules into a fresh application: each key's Register runs at most once, and if no
      error is recorded the installed keys are the smallest set that contains the modules asked for
      and is closed under imports, however the import graph loops. */
  lemma {:induction false} InstalledIsLeastClosed(r: Registry, ms: seq<Module>)
    requires Complete(r) && AllKnown(r, ms)
    ensures var s := InstalledAll(r, State({}, None, [], []), ms);
            && NoRepeats(s.log) && (forall k :: k in s.log <==> k in s.installed)
            && (s.err.None? ==> KeysOfAll(ms) <= s.installed && Closed(r, s.installed))
            && forall c :: Closed(r, c) && KeysOfAll(ms) <= c ==> s.installed <= c
  {
    var start := State({}, None, [], []);
    var s := InstalledAll(r, start, ms);
    InstallAllProgress(r, start, ms);
    assert s.log[0..] == s.log;
    forall c | Closed(r, c) && KeysOfAll(ms) <= c
      ensures s.installed <= c
    {
      InstallAllStaysWithin(r, start, ms, c);
    }
  }

  // ----- Errors -----

  /** An error recorded anywhere stops every later installation: the modules after the failing one
      leave no trace. */
  lemma {:induction false} FirstErrorStops(r: Registry, s: State, ms: seq<Module>, more: seq<Module>)
    requires Complete(r) && AllKnown(r, ms) && AllKnown(r, more)
    requires InstalledAll(r, s, ms).err.Some?
    ensures AllKnown(r, ms + more)
    ensures InstalledAll(r, s, ms + more) == InstalledAll(r, s, ms)
  {
    assert forall m :: m in ms + more ==> m in ms || m in more;
    InstalledAllSplits(r, s, ms, more);
    InstallAllProgress(r, InstalledAll(r, s, ms), more);
  }

  lemma {:induction false} InstalledAllSplits(r: Registry, s: State, ms: seq<Module>, more: seq<Module>)
    requires Complete(r) && AllKnown(r, ms) && AllKnown(r, more) && AllKnown(r, ms + more)
    ensures InstalledAll(r, s, ms + more) == InstalledAll(r, InstalledAll(r, s, ms), more)
    decreases |ms|
  {
    if ms == [] {
      assert ms + more == more;
    } else {
      assert (ms + more)[1..] == ms[1..] + more;
      InstalledAllSplits(r, Installed(r, s, ms[0]), ms[1..], more);
    }
  }

  /** A recorded error names a module that was asked to register and whose Register failed. */
  lemma {:induction false} ErrorIsGenuine(r: Registry, s: State, m: Module)
    requires Complete(r) && Known(r, m) && s.err.None?
    ensures var s' := Installed(r, s, m);
            s'.err.Some? && s'.err.value.KeyFailed? ==>
              var k := s'.err.value.key; k in r && r[k].fails && k in s'.installed && k !in s.installed
    decreases |r.Keys - s.installed|, m, 1
  {
    match m
    case Nil =>
    case Anonymous(children, _) => ErrorsAreGenuine(r, Entered(s, m), children);
    case Keyed(k) =>
      if k !in s.installed {
        FewerLeft(r, s.installed, Started(s, k).installed);
        ErrorsAreGenuine(r, Started(s, k), r[k].children);
        InstallAllProgress(r, Started(s, k), r[k].children);
      }
  }

  lemma {:induction false} ErrorsAreGenuine(r: Registry, s: State, ms: seq<Module>)
    requires Complete(r) && AllKnown(r, ms) && s.err.None?
    ensures var s' := InstalledAll(r, s, ms);
            s'.err.Some? && s'.err.value.KeyFailed? ==>
              var k := s'.err.value.key; k in r && r[k].fails && k in s'.installed && k !in s.installed
    decreases |r.Keys - s.installed|, ms, 0
  {
    if ms != [] {
      var s1 := Installed(r, s, ms[0]);
      FewerLeft(r, s.installed, s1.installed);
      ErrorIsGenuine(r, s, ms[0]);
      InstallAllProgress(r, s1, ms[1..]);
      if s1.err.None? {
        ErrorsAreGenuine(r, s1, ms[1..]);
      }
    }
  }

  // ----- Errors, read off the calls of Register -----

  /** The module's own Register returns an error. */
  predicate Fails(r: Registry, m: Module) {
    match m
    case Keyed(k) => k in r && r[k].fails
    case Anonymous(_, fails) => fails
    case Nil => false
  }

  function Blame(m: Module): Failure {
    if m.Keyed? then KeyFailed(m.key) else FuncFailed
  }

  predicate FailingEnd(r: Registry, e: Step) {
    e.End? && Fails(r, e.m)
  }

  /** The error of the first Register to return one. */
  function FirstError(r: Registry, steps: seq<Step>): Option<Failure> {
    if steps == [] then None
    else
      var before, last := FirstError(r, steps[..|steps| - 1]), steps[|steps| - 1];
      if before.Some? then before else if FailingEnd(r, last) then Some(Blame(last.m)) else None
  }

  /** Once a Register has returned an error no other begins. */
  predicate Halts(r: Registry, steps: seq<Step>) {
    steps == []
    || (Halts(r, steps[..|steps| - 1]) && (steps[|steps| - 1].Begin? ==> FirstError(r, steps[..|steps| - 1]).None?))
  }

  /** The keys whose Register began, in order. */
  function KeysBegun(steps: seq<Step>): seq<Key> {
    if steps == [] then []
    else
      var last := steps[|steps| - 1];
      KeysBegun(steps[..|steps| - 1]) + if last.Begin? && last.m.Keyed? then [last.m.key] else []
  }

  /** Every Register that began has returned. */
  ghost predicate AllReturn(steps: seq<Step>) {
    forall m :: Begin(m) in steps <==> End(m) in steps
  }

  /** What one installation did, going from `s` to `s'`, is told by the calls of Register it made. */
  ghost predicate Told(r: Registry, s: State, s': State, steps: seq<Step>) {
    && s'.trace == s.trace + steps && s'.log == s.log + KeysBegun(steps)
    && s'.installed == s.installed + (set k | k in KeysBegun(steps))
    && AllReturn(steps) && Halts(r, steps)
    && s'.err == (if s.err.Some? then s.err else FirstError(r, steps))
    && (s.err.Some? ==> steps == [])
  }

  lemma {:induction false} FirstErrorJoins(r: Registry, a: seq<Step>, b: seq<Step>)
    ensures FirstError(r, a + b) == if FirstError(r, a).Some? then FirstError(r, a) else FirstError(r, b)
    ensures KeysBegun(a + b) == KeysBegun(a) + KeysBegun(b)
    ensures Halts(r, a) && Halts(r, b) && (FirstError(r, a).Some? ==> b == []) ==> Halts(r, a + b)
    decreases |b|
  {
    if b == [] {
      assert a + b == a;
    } else {
      var p := b[..|b| - 1];
      assert (a + b)[..|a + b| - 1] == a + p;
      FirstErrorJoins(r, a, p);
    }
  }

  lemma {:induction false} ToldJoins(r: Registry, s: State, s1: State, s2: State, a: seq<Step>, b: seq<Step>)
    requires Told(r, s, s1, a) && Told(r, s1, s2, b)
    ensures Told(r, s, s2, a + b)
  {
    FirstErrorJoins(r, a, b);
    assert s.trace + a + b == s.trace + (a + b);
    assert s.log + KeysBegun(a) + KeysBegun(b) == s.log + (KeysBegun(a) + KeysBegun(b));
  }

  /** The calls `inner` with a call of `m` around them. */
  function Around(m: Module, inner: seq<Step>): seq<Step> {
    [Begin(m)] + inner + [End(m)]
  }

  lemma {:induction false} AroundSteps(r: Registry, m: Module, inner: seq<Step>)
    requires Halts(r, inner) && AllReturn(inner)
    ensures Halts(r, Around(m, inner)) && AllReturn(Around(m, inner))
    ensures FirstError(r, Around(m, inner))
            == if FirstError(r, inner).Some? then FirstError(r, inner) else if Fails(r, m) then Some(Blame(m)) else None
    ensures KeysBegun(Around(m, inner)) == (if m.Keyed? then [m.key] else []) + KeysBegun(inner)
  {
    var first, all := [Begin(m)] + inner, Around(m, inner);
    OneBegin(r, m);
    FirstErrorJoins(r, [Begin(m)], inner);
    assert all[..|all| - 1] == first;
  }

  lemma {:induction false} OneBegin(r: Registry, m: Module)
    ensures FirstError(r, [Begin(m)]) == None && Halts(r, [Begin(m)])
    ensures KeysBegun([Begin(m)]) == if m.Keyed? then [m.key] else []
  {
    assert [Begin(m)][..0] == [];
  }

  /** The calls made while the children of `m` are installed, with the call of `m` itself around them. */
  lemma {:induction false} ToldAround(r: Registry, s: State, s1: State, m: Module, inner: seq<Step>)
    requires s.err.None? && !m.Nil?
    requires Told(r, Opened(s, m), s1, inner)
    ensures Told(r, s, Left(s1, m, Fails(r, m), Blame(m)), Around(m, inner))
  {
    AroundSteps(r, m, inner);
    var key := if m.Keyed? then [m.key] else [];
    assert s.trace + [Begin(m)] + inner + [End(m)] == s.trace + Around(m, inner);
    assert s.log + key + KeysBegun(inner) == s.log + (key + KeysBegun(inner));
    if !m.Keyed? {
      assert s.log + key == s.log && key + KeysBegun(inner) == KeysBegun(inner);
    }
  }

  /** WithModule leaves everything as it is. */
  predicate Skips(s: State, m: Module) {
    s.err.Some? || m.Nil? || (m.Keyed? && m.key in s.installed)
  }

  /** When the Register of `m` begins. */
  function Opened(s: State, m: Module): State {
    if m.Keyed? then Started(s, m.key) else Entered(s, m)
  }

  function ChildrenOf(r: Registry, m: Module): seq<Module> {
    match m
    case Keyed(k) => if k in r then r[k].children else []
    case Anonymous(children, _) => children
    case Nil => []
  }

  lemma {:induction false} ChildrenSmaller(r: Registry, s: State, m: Module)
    requires Complete(r) && Known(r, m) && !Skips(s, m)
    ensures AllKnown(r, ChildrenOf(r, m))
    ensures |r.Keys - Opened(s, m).installed| <= |r.Keys - s.installed|
    ensures m.Keyed? ==> |r.Keys - Opened(s, m).installed| < |r.Keys - s.installed|
  {
    FewerLeft(r, s.installed, Opened(s, m).installed);
  }

  /** The calls of Register made by WithModule: a call of `m`, with those for its children inside. */
  ghost function Calls(r: Registry, s: State, m: Module): seq<Step>
    requires Complete(r) && Known(r, m)
    decreases |r.Keys - s.installed|, m, 1
  {
    if Skips(s, m) then []
    else
      ChildrenSmaller(r, s, m);
      Around(m, CallsAll(r, Opened(s, m), ChildrenOf(r, m)))
  }

  ghost function CallsAll(r: Registry, s: State, ms: seq<Module>): seq<Step>
    requires Complete(r) && AllKnown(r, ms)
    decreases |r.Keys - s.installed|, ms, 0
  {
    if ms == [] then []
    else
      var s1 := Installed(r, s, ms[0]);
      FewerLeft(r, s.installed, s1.installed);
      Calls(r, s, ms[0]) + CallsAll(r, s1, ms[1..])
  }

  lemma {:induction false} InstallOpens(r: Registry, s: State, m: Module)
    requires Complete(r) && Known(r, m)
    ensures Skips(s, m) ==> Installed(r, s, m) == s
    ensures AllKnown(r, ChildrenOf(r, m))
    ensures !Skips(s, m) ==>
              Installed(r, s, m) == Left(InstalledAll(r, Opened(s, m), ChildrenOf(r, m)), m, Fails(r, m), Blame(m))
  {
  }

  lemma {:induction false} InstallTold(r: Registry, s: State, m: Module)
    requires Complete(r) && Known(r, m)
    ensures Told(r, s, Installed(r, s, m), Calls(r, s, m))
    decreases |r.Keys - s.installed|, m, 1
  {
    InstallOpens(r, s, m);
    if !Skips(s, m) {
      ChildrenSmaller(r, s, m);
      InstallAllTold(r, Opened(s, m), ChildrenOf(r, m));
      ToldAround(r, s, InstalledAll(r, Opened(s, m), ChildrenOf(r, m)), m, CallsAll(r, Opened(s, m), ChildrenOf(r, m)));
    } else {
      NothingTold(r, s);
    }
  }

  lemma {:induction false} NothingTold(r: Registry, s: State)
    ensures Told(r, s, s, [])
  {
  }

  lemma {:induction false} InstallAllTold(r: Registry, s: State, ms: seq<Module>)
    requires Complete(r) && AllKnown(r, ms)
    ensures Told(r, s, InstalledAll(r, s, ms), CallsAll(r, s, ms))
    decreases |r.Keys - s.installed|, ms, 0
  {
    if ms == [] {
      NothingTold(r, s);
    } else {
      var s1 := Installed(r, s, ms[0]);
      FewerLeft(r, s.installed, s1.installed);
      InstallTold(r, s, ms[0]);
      InstallAllTold(r, s1, ms[1..]);
      ToldJoins(r, s, s1, InstalledAll(r, s1, ms[1..]), Calls(r, s, ms[0]), CallsAll(r, s1, ms[1..]));
    }
  }

  // ----- Without an error nothing is passed over -----

  /** The module is installed, or its Register was called. */
  predicate Met(installed: set<Key>, steps: seq<Step>, m: Module) {
    match m
    case Keyed(k) => k in installed
    case Anonymous(_, _) => Begin(m) in steps
    case Nil => true
  }

  ghost predicate AllMet(installed: set<Key>, steps: seq<Step>, ms: seq<Module>) {
    forall i :: 0 <= i < |ms| ==> Met(installed, steps, ms[i])
  }

  /** Whatever Register was called, the modules it asks for are met. */
  ghost predicate Thorough(r: Registry, installed: set<Key>, steps: seq<Step>) {
    forall m :: Begin(m) in steps ==> AllMet(installed, steps, ChildrenOf(r, m))
  }

  lemma {:induction false} MetKept(installed: set<Key>, steps: seq<Step>, more: set<Key>, longer: seq<Step>, ms: seq<Module>)
    requires installed <= more && (forall e :: e in steps ==> e in longer) && AllMet(installed, steps, ms)
    ensures AllMet(more, longer, ms)
  {
  }

  lemma {:induction false} ThoroughJoins(r: Registry, i: set<Key>, a: seq<Step>, j: set<Key>, b: seq<Step>)
    requires i <= j && Thorough(r, i, a) && Thorough(r, j, b)
    ensures Thorough(r, j, a + b)
  {
    forall m | Begin(m) in a + b
      ensures AllMet(j, a + b, ChildrenOf(r, m))
    {
      if Begin(m) in a {
        MetKept(i, a, j, a + b, ChildrenOf(r, m));
      } else {
        MetKept(j, b, j, a + b, ChildrenOf(r, m));
      }
    }
  }

  lemma {:induction false} ThoroughAround(r: Registry, installed: set<Key>, inner: seq<Step>, m: Module)
    requires Thorough(r, installed, inner) && AllMet(installed, inner, ChildrenOf(r, m))
    ensures Thorough(r, installed, Around(m, inner))
  {
    forall x | Begin(x) in Around(m, inner)
      ensures AllMet(installed, Around(m, inner), ChildrenOf(r, x))
    {
      assert x == m || Begin(x) in inner;
      MetKept(installed, inner, installed, Around(m, inner), ChildrenOf(r, x));
    }
  }

  lemma {:induction false} ErrorLater(r: Registry, s: State, ms: seq<Module>)
    requires Complete(r) && AllKnown(r, ms) && s.err.Some?
    ensures InstalledAll(r, s, ms).err.Some?
  {
    InstallAllProgress(r, s, ms);
  }

  lemma {:induction false} InstallThorough(r: Registry, s: State, m: Module)
    requires Complete(r) && Known(r, m) && Installed(r, s, m).err.None?
    ensures Met(Installed(r, s, m).installed, Calls(r, s, m), m)
    ensures Thorough(r, Installed(r, s, m).installed, Calls(r, s, m))
    decreases |r.Keys - s.installed|, m, 1
  {
    InstallOpens(r, s, m);
    if !Skips(s, m) {
      ChildrenSmaller(r, s, m);
      InstallAllThorough(r, Opened(s, m), ChildrenOf(r, m));
      ThoroughAround(r, Installed(r, s, m).installed, CallsAll(r, Opened(s, m), ChildrenOf(r, m)), m);
      InstallProgress(r, s, m);
    }
  }

  lemma {:induction false} InstallAllThorough(r: Registry, s: State, ms: seq<Module>)
    requires Complete(r) && AllKnown(r, ms) && InstalledAll(r, s, ms).err.None?
    ensures AllMet(InstalledAll(r, s, ms).installed, CallsAll(r, s, ms), ms)
    ensures Thorough(r, InstalledAll(r, s, ms).installed, CallsAll(r, s, ms))
    decreases |r.Keys - s.installed|, ms, 0
  {
    if ms != [] {
      var s1 := Installed(r, s, ms[0]);
      FewerLeft(r, s.installed, s1.installed);
      if s1.err.Some? {
        ErrorLater(r, s1, ms[1..]);
      }
      InstallThorough(r, s, ms[0]);
      InstallAllThorough(r, s1, ms[1..]);
      var end := InstalledAll(r, s1, ms[1..]).installed;
      ThoroughJoins(r, s1.installed, Calls(r, s, ms[0]), end, CallsAll(r, s1, ms[1..]));
      MetJoins(s1.installed, Calls(r, s, ms[0]), end, CallsAll(r, s1, ms[1..]), ms);
    }
  }

  lemma {:induction false} MetJoins(i: set<Key>, a: seq<Step>, j: set<Key>, b: seq<Step>, ms: seq<Module>)
    requires i <= j && ms != [] && Met(i, a, ms[0]) && AllMet(j, b, ms[1..])
    ensures AllMet(j, a + b, ms)
  {
    forall n | 0 <= n < |ms|
      ensures Met(j, a + b, ms[n])
    {
      assert n > 0 ==> ms[n] == ms[1..][n - 1];
    }
  }

  // ----- The same with quantifiers -----

  /** Step `i` is the first Register to return an error, and none begins after it. */
  ghost predicate FailsFirst(r: Registry, steps: seq<Step>, i: nat) {
    && i < |steps| && FailingEnd(r, steps[i])
    && (forall j :: 0 <= j < i ==> !FailingEnd(r, steps[j]))
    && (forall j :: i < j < |steps| ==> steps[j].End?)
  }

  lemma {:induction false} NoErrorMeans(r: Registry, steps: seq<Step>)
    ensures FirstError(r, steps).None? <==> forall i :: 0 <= i < |steps| ==> !FailingEnd(r, steps[i])
  {
    if steps != [] {
      var p := steps[..|steps| - 1];
      NoErrorMeans(r, p);
      assert forall i :: 0 <= i < |p| ==> p[i] == steps[i];
    }
  }

  lemma {:induction false} FirstErrorAt(r: Registry, steps: seq<Step>) returns (i: nat)
    requires FirstError(r, steps).Some? && Halts(r, steps)
    ensures FailsFirst(r, steps, i) && FirstError(r, steps) == Some(Blame(steps[i].m))
  {
    var p := steps[..|steps| - 1];
    assert forall j :: 0 <= j < |p| ==> p[j] == steps[j];
    if FirstError(r, p).Some? {
      i := FirstErrorAt(r, p);
      assert steps[i] == p[i];
    } else {
      i := |p|;
      NoErrorMeans(r, p);
    }
  }

  /** An installation that meets no earlier error records one if and only if a Register that it began returns
      an error. It is the error of the first Register to return one, and no Register begins after that; without
      an error, no module asked for by the caller or by a Register is passed over. */
  lemma {:induction false} ErrorExactly(r: Registry, s: State, ms: seq<Module>)
    requires Complete(r) && AllKnown(r, ms) && s.err.None?
    ensures var s' := InstalledAll(r, s, ms);
            && s.trace <= s'.trace
            && var steps := s'.trace[|s.trace|..];
               && AllReturn(steps)
               && (forall k :: Begin(Keyed(k)) in steps <==> k in s'.installed && k !in s.installed)
               && (s'.err.Some? <==> exists m :: Begin(m) in steps && Fails(r, m))
               && (s'.err.None? ==> AllMet(s'.installed, steps, ms) && Thorough(r, s'.installed, steps))
               && (s'.err.Some? ==> exists i: nat :: FailsFirst(r, steps, i) && s'.err == Some(Blame(steps[i].m)))
  {
    var s' := InstalledAll(r, s, ms);
    var steps := CallsAll(r, s, ms);
    InstallAllTold(r, s, ms);
    assert s'.trace[|s.trace|..] == steps;
    InstallAllProgress(r, s, ms);
    assert s'.log[|s.log|..] == KeysBegun(steps);
    forall k
      ensures Begin(Keyed(k)) in steps <==> k in KeysBegun(steps)
    {
      KeyBegun(steps, k);
    }
    NoErrorMeans(r, steps);
    FailureReturns(r, steps);
    if s'.err.Some? {
      var i := FirstErrorAt(r, steps);
    } else {
      InstallAllThorough(r, s, ms);
    }
  }

  lemma {:induction false} KeyBegun(steps: seq<Step>, k: Key)
    ensures Begin(Keyed(k)) in steps <==> k in KeysBegun(steps)
  {
    if steps != [] {
      var p := steps[..|steps| - 1];
      KeyBegun(p, k);
      assert steps == p + [steps[|steps| - 1]];
    }
  }

  lemma {:induction false} FailureReturns(r: Registry, steps: seq<Step>)
    requires AllReturn(steps)
    ensures (exists i :: 0 <= i < |steps| && FailingEnd(r, steps[i])) <==> exists m :: Begin(m) in steps && Fails(r, m)
  {
    if i :| 0 <= i < |steps| && FailingEnd(r, steps[i]) {
      assert steps[i] == End(steps[i].m) && End(steps[i].m) in steps;
      assert Begin(steps[i].m) in steps && Fails(r, steps[i].m);
    }
    if m :| Begin(m) in steps && Fails(r, m) {
      assert End(m) in steps;
      var i :| 0 <= i < |steps| && steps[i] == End(m);
      assert FailingEnd(r, steps[i]);
    }
  }
}
