/**
 The per-client circuit breaker (httpx/breaker.go).

 `CircuitBreaker` is the mutex-guarded object; every critical section is one method. A history is
 any interleaving of `allow` and `record` calls, so results of requests admitted long ago may
 arrive at any point. The main results express the breaker's whole state, and its decision to
 admit a request, through the history alone.
 */
module Breaker {

  const DEFAULT_THRESHOLD := 5
  const DEFAULT_COOLDOWN := 30_000_000_000 // nanoseconds

  datatype Mode = Closed | Open | HalfOpen

  datatype State = State(mode: Mode, failures: nat, openedAt: int, trialActive: bool)

  datatype Config = Config(threshold: int, cooldown: int)

  datatype Event = Allow(at: int) | Record(success: bool, at: int)

  const INITIAL := State(Closed, 0, 0, false)

  predicate Admits(c: Config, s: State, now: int) {
    match s.mode
    case Closed => true
    case Open => now - s.openedAt >= c.cooldown
    case HalfOpen => !s.trialActive
  }

  function AfterAllow(c: Config, s: State, now: int): State {
    match s.mode
    case Closed => s
    case Open => if Admits(c, s, now) then s.(mode := HalfOpen, trialActive := true) else s
    case HalfOpen => s.(trialActive := true)
  }

  function AfterRecord(c: Config, s: State, success: bool, now: int): State {
    if success then
      s.(failures := 0, mode := Closed, trialActive := false)
    else if s.mode == HalfOpen then
      s.(mode := Open, openedAt := now, trialActive := false)
    else if s.failures + 1 >= c.threshold then
      s.(failures := s.failures + 1, mode := Open, openedAt := now)
    else
      s.(failures := s.failures + 1)
  }

  /** The breaker object; `now` is the reading of its injectable clock. */
  class CircuitBreaker {
    const config: Config
    var mode: Mode
    var failures: nat
    var openedAt: int
    var trialActive: bool

    function View(): State
      reads this
    {
      State(mode, failures, openedAt, trialActive)
    }

    constructor (threshold: int, cooldown: int)
      ensures View() == INITIAL
      ensures config.threshold > 0 && config.cooldown > 0
      ensures threshold > 0 ==> config.threshold == threshold
      ensures cooldown > 0 ==> config.cooldown == cooldown
      ensures threshold <= 0 ==> config.threshold == DEFAULT_THRESHOLD
      ensures cooldown <= 0 ==> config.cooldown == DEFAULT_COOLDOWN
    {
      config := Config(if threshold <= 0 then DEFAULT_THRESHOLD else threshold,
                       if cooldown <= 0 then DEFAULT_COOLDOWN else cooldown);
      mode, failures, openedAt, trialActive := Closed, 0, 0, false;
    }

    method Allow(now: int) returns (admitted: bool)
      modifies this
      ensures admitted == Admits(config, old(View()), now)
      ensures View() == AfterAllow(config, old(View()), now)
    {
      if mode == Open {
        if now - openedAt >= config.cooldown {
          mode := HalfOpen;
          trialActive := true;
          return true;
        }
        return false;
      } else if mode == HalfOpen {
        if !trialActive {
          trialActive := true;
          return true;
        }
        return false;
      }
      return true;
    }

    method Record(success: bool, now: int)
      modifies this
      ensures View() == AfterRecord(config, old(View()), success, now)
    {
      if success {
        failures := 0;
        mode := Closed;
        trialActive := false;
        return;
      }
      if mode == HalfOpen {
        mode := Open;
        openedAt := now;
        trialActive := false;
        return;
      }
      failures := failures + 1;
      if failures >= config.threshold {
        mode := Open;
        openedAt := now;
      }
    }
  }

  // ----- Histories -----

  function Next(c: Config, s: State, e: Event): State {
    match e
    case Allow(at) => AfterAllow(c, s, at)
    case Record(success, at) => AfterRecord(c, s, success, at)
  }

  /** The state a fresh breaker reaches after the calls in `h`. */
  function After(c: Config, h: seq<Event>): State {
    if h == [] then INITIAL else Next(c, After(c, h[..|h| - 1]), h[|h| - 1])
  }

  /** How many failures were recorded since the last recorded success. */
  function TrailingFailures(h: seq<Event>): nat {
    if h == [] then 0
    else
      var e := h[|h| - 1];
      if e.Allow? then TrailingFailures(h[..|h| - 1])
      else if e.success then 0
      else 1 + TrailingFailures(h[..|h| - 1])
  }

  /** When the most recent failure was recorded (0 when there is none). */
  function LastFailure(h: seq<Event>): int {
    if h == [] then 0
    else
      var e := h[|h| - 1];
      if e.Record? && !e.success then e.at else LastFailure(h[..|h| - 1])
  }

  /** Since the last recorded result, some request asked at least a cooldown after the last failure. */
  predicate Probed(c: Config, h: seq<Event>) {
    h != [] &&
    var e := h[|h| - 1];
    e.Allow? && (Probed(c, h[..|h| - 1]) || e.at - LastFailure(h) >= c.cooldown)
  }

  /** The state of the breaker, read off the history with no reference to how it is maintained. */
  ghost predicate ExplainedBy(c: Config, s: State, h: seq<Event>) {
    && (s.mode == Closed <==> TrailingFailures(h) < c.threshold)
    && (s.mode == HalfOpen <==> TrailingFailures(h) >= c.threshold && Probed(c, h))
    && (s.trialActive <==> s.mode == HalfOpen)
    && (s.mode == Closed ==> s.failures == TrailingFailures(h))
    && (s.mode != Closed ==> s.failures >= c.threshold && s.openedAt == LastFailure(h))
  }

  /** After every history, late results included, the state is the one the history explains. */
  lemma {:induction false} StateFromHistory(c: Config, h: seq<Event>)
    requires c.threshold > 0
    ensures ExplainedBy(c, After(c, h), h)
  {
    if h != [] {
      StateFromHistory(c, h[..|h| - 1]);
    }
  }

  /** A request is let through exactly when the circuit is closed or it is the first one to ask a
      full cooldown after the last failure. */
  lemma {:induction false} AdmissionRule(c: Config, h: seq<Event>, now: int)
    requires c.threshold > 0
    ensures Admits(c, After(c, h), now) <==>
            (TrailingFailures(h) < c.threshold
             || (!Probed(c, h) && now - LastFailure(h) >= c.cooldown))
  {
    StateFromHistory(c, h);
  }

  ghost predicate Monotone(h: seq<Event>) {
    forall i, j :: 0 <= i <= j < |h| ==> h[i].at <= h[j].at
  }

  /** The `i`-th call is a request let through while the circuit was not closed. */
  ghost predicate Trial(c: Config, h: seq<Event>, i: nat) {
    && i < |h|
    && h[i].Allow?
    && After(c, h[..i]).mode != Closed
    && Admits(c, After(c, h[..i]), h[i].at)
  }

  lemma {:induction false} ProbedUntilResult(c: Config, h: seq<Event>, i: nat, j: nat)
    requires i <= j <= |h|
    requires forall m :: i <= m < j ==> h[m].Allow?
    requires Probed(c, h[..i])
    ensures Probed(c, h[..j])
  {
    if i < j {
      ProbedUntilResult(c, h, i, j - 1);
      assert h[..j][..j - 1] == h[..j - 1];
    }
  }

  lemma {:induction false} LastFailureNotBefore(h: seq<Event>, m: nat, j: nat)
    requires m < j <= |h| && Monotone(h)
    requires h[m].Record? && !h[m].success
    ensures LastFailure(h[..j]) >= h[m].at
  {
    assert h[..j][..j - 1] == h[..j - 1];
    if m < j - 1 {
      LastFailureNotBefore(h, m, j - 1);
    }
  }

  /** Every trial waits out a cooldown from the last failure, and two trials with no recorded
      success between them are separated by a recorded failure and by at least one cooldown. */
  lemma {:induction false} TrialsAreSpaced(c: Config, h: seq<Event>, i: nat, j: nat)
    requires c.threshold > 0 && Monotone(h)
    requires i < j && Trial(c, h, i) && Trial(c, h, j)
    requires forall m :: i < m < j && h[m].Record? ==> !h[m].success
    ensures h[i].at - LastFailure(h[..i]) >= c.cooldown
    ensures exists m :: i < m < j && h[m].Record?
    ensures h[j].at - h[i].at >= c.cooldown
  {
    AdmissionRule(c, h[..i], h[i].at);
    StateFromHistory(c, h[..i]);
    AdmissionRule(c, h[..j], h[j].at);
    StateFromHistory(c, h[..j]);
    if forall m :: i < m < j ==> h[m].Allow? {
      assert h[..i + 1][..i] == h[..i];
      assert Probed(c, h[..i + 1]);
      ProbedUntilResult(c, h, i + 1, j);
      assert false;
    }
    var m :| i < m < j && !h[m].Allow?;
    LastFailureNotBefore(h, m, j);
  }

  /** The half-open branch that admits a request when no trial is active is never taken: a second
      trial is refused in every reachable half-open state. */
  lemma {:induction false} HalfOpenRefuses(c: Config, h: seq<Event>, now: int)
    requires c.threshold > 0
    requires After(c, h).mode == HalfOpen
    ensures !Admits(c, After(c, h), now)
  {
    StateFromHistory(c, h);
  }

  /** A trial whose result is never recorded closes the door for good: no later request is admitted at any
      time, however many ask. */
  lemma {:induction false} LostTrialRefusesForever(c: Config, h: seq<Event>, i: nat, now: int)
    requires c.threshold > 0 && Trial(c, h, i)
    requires forall m :: i < m < |h| ==> h[m].Allow?
    ensures !Admits(c, After(c, h), now)
  {
    AdmissionRule(c, h[..i], h[i].at);
    StateFromHistory(c, h[..i]);
    assert h[..i + 1][..i] == h[..i];
    assert Probed(c, h[..i + 1]);
    ProbedUntilResult(c, h, i + 1, |h|);
    FailuresUntilResult(h, i, |h|);
    assert h[..|h|] == h;
    AdmissionRule(c, h, now);
  }

  lemma {:induction false} FailuresUntilResult(h: seq<Event>, i: nat, j: nat)
    requires i <= j <= |h| && forall m :: i <= m < j ==> h[m].Allow?
    ensures TrailingFailures(h[..j]) == TrailingFailures(h[..i])
  {
    if i < j {
      FailuresUntilResult(h, i, j - 1);
      assert h[..j][..j - 1] == h[..j - 1];
    }
  }

  /** Such a history: one failure trips the breaker, and a request asks a cooldown later. */
  lemma {:induction false} LostTrialExample()
    ensures Trial(Config(1, 10), [Record(false, 0), Allow(10)], 1)
  {
    var c, h := Config(1, 10), [Record(false, 0), Allow(10)];
    assert h[..1] == [Record(false, 0)] && h[..1][..0] == [];
  }

  // ----- Calls made in between -----

  /** The state after further calls. */
  function Resumed(c: Config, s: State, calls: seq<Event>): State {
    if calls == [] then s else Next(c, Resumed(c, s, calls[..|calls| - 1]), calls[|calls| - 1])
  }

  lemma {:induction false} HistoryResumes(c: Config, h: seq<Event>, calls: seq<Event>)
    ensures After(c, h + calls) == Resumed(c, After(c, h), calls)
  {
    if calls == [] {
      assert h + calls == h;
    } else {
      var n := |calls| - 1;
      assert (h + calls)[..|h + calls| - 1] == h + calls[..n];
      HistoryResumes(c, h, calls[..n]);
    }
  }
}
