/**
 The retry loop of the JSON client and its back-off (httpx/client.go), with the circuit breaker around
 it.

 What each attempt returns and whether the wait after it is interrupted are functions of the
 attempt's number, so that one call of the client is a question about all of them. Durations are
 nanoseconds in a signed 64-bit word.
 */
module Client {

  import Breaker

  const WORD := 0x1_0000_0000_0000_0000
  const TOP := 0x8000_0000_0000_0000
  const MAX_BACKOFF := 30_000_000_000

  /** `max` may be any integer; `base` is what WithRetry leaves, hence positive. */
  datatype Policy = Policy(max: int, base: nat, methods: set<string>, statuses: set<int>)

  /** What one attempt returns: status 0 is a transport failure. */
  datatype Reply = Reply(status: int, failed: bool)

  function Upper(verb: string): (u: string)
    ensures |u| == |verb|
    ensures forall i :: 0 <= i < |u| ==> !('a' <= u[i] <= 'z')
    ensures forall i :: 0 <= i < |u| && u[i] != verb[i] ==> u[i] as int + 32 == verb[i] as int
  {
    seq(|verb|, i requires 0 <= i < |verb| => if 'a' <= verb[i] <= 'z' then verb[i] - 'a' + 'A' else verb[i])
  }

  method ShouldRetry(p: Policy, verb: string, status: int) returns (retry: bool)
    ensures retry <==> p.max != 0 && Upper(verb) in p.methods && (status == 0 || status in p.statuses)
  {
    if p.max == 0 || Upper(verb) !in p.methods {
      return false;
    }
    return status == 0 || status in p.statuses;
  }

  // ----- The retry loop -----

  /** A reply after which the loop goes on, given that it may: an error with no status or one of the policy's,
      for a method the policy covers, and retries are not switched off. */
  predicate Retryable(p: Policy, verb: string, reply: Reply) {
    reply.failed && p.max != 0 && Upper(verb) in p.methods && (reply.status == 0 || reply.status in p.statuses)
  }

  /** The loop makes exactly `calls` attempts: each but the last failed in a way that is retried and was
      followed by an undisturbed wait; the last one succeeded, was not to be retried, used up the
      allowance, or was followed by an interrupted wait. */
  ghost predicate Tries(p: Policy, verb: string, call: nat -> Reply, interrupted: nat -> bool, calls: nat) {
    && calls > 0
    && (forall i :: 0 <= i < calls - 1 ==> Retryable(p, verb, call(i)) && !interrupted(i))
    && (!Retryable(p, verb, call(calls - 1)) || calls > p.max || interrupted(calls - 1))
    && (calls == 1 || calls - 1 <= p.max)
  }

  /** At most one attempt and the configured retries, and the caller gets the last attempt's reply. */
  method Attempt(p: Policy, verb: string, call: nat -> Reply, interrupted: nat -> bool)
    returns (reply: Reply, calls: nat)
    ensures Tries(p, verb, call, interrupted, calls) && reply == call(calls - 1)
    ensures calls <= if p.max > 0 then p.max + 1 else 1
  {
    calls := 0;
    reply := Reply(0, true);
    while true
      invariant calls == 0 || calls <= p.max
      invariant calls > 0 ==> reply == call(calls - 1)
      invariant forall i :: 0 <= i < calls ==> Retryable(p, verb, call(i))
      invariant forall i :: 0 <= i < calls - 1 ==> !interrupted(i)
      decreases p.max - calls
    {
      if calls > 0 && interrupted(calls - 1) {
        return;
      }
      reply := call(calls);
      calls := calls + 1;
      if !reply.failed || calls > p.max {
        return;
      }
      var retry := ShouldRetry(p, verb, reply.status);
      if !retry {
        return;
      }
    }
  }

  /** The number of attempts is determined by the policy and the environment. */
  lemma {:induction false} TriesOnce(p: Policy, verb: string, call: nat -> Reply, interrupted: nat -> bool, a: nat, b: nat)
    requires Tries(p, verb, call, interrupted, b) && a < b
    ensures !Tries(p, verb, call, interrupted, a)
  {
    if a > 0 {
      assert Retryable(p, verb, call(a - 1)) && !interrupted(a - 1);
    }
  }

  // ----- The breaker around the loop -----

  predicate ServerFailed(reply: Reply) {
    reply.failed && (reply.status == 0 || reply.status >= 500)
  }

  datatype Outcome = Refused | Replied(reply: Reply)

  /** The calls other requests make on a shared breaker. */
  method Interfere(b: Breaker.CircuitBreaker, calls: seq<Breaker.Event>)
    modifies b
    ensures b.View() == Breaker.Resumed(b.config, old(b.View()), calls)
  {
    for i := 0 to |calls|
      invariant b.View() == Breaker.Resumed(b.config, old(b.View()), calls[..i])
    {
      assert calls[..i + 1][..i] == calls[..i];
      match calls[i]
      case Allow(at) => var _ := b.Allow(at);
      case Record(success, at) => b.Record(success, at);
    }
    assert calls[..|calls|] == calls;
  }

  /** The breaker calls of one request, with those of others between them. */
  function DoCalls(asked: int, meanwhile: seq<Breaker.Event>, reply: Reply, answered: int): seq<Breaker.Event> {
    [Breaker.Allow(asked)] + meanwhile + [Breaker.Record(!ServerFailed(reply), answered)]
  }

  /** One request: refused without an attempt while the breaker is open; otherwise, however many
      attempts it takes, the breaker is told of one result, that of the last attempt. `asked` and
      `answered` are the breaker clock's readings, `meanwhile` the calls of other requests between
      admission and result. */
  method Do(b: Breaker.CircuitBreaker?, p: Policy, verb: string, call: nat -> Reply, interrupted: nat -> bool,
            asked: int, meanwhile: seq<Breaker.Event>, answered: int) returns (outcome: Outcome, calls: nat)
    modifies b
    ensures outcome.Refused? <==> b != null && !Breaker.Admits(b.config, old(b.View()), asked)
    ensures outcome.Refused? ==> calls == 0 && b.View() == old(b.View())
    ensures outcome.Replied? ==> Tries(p, verb, call, interrupted, calls) && outcome.reply == call(calls - 1)
    ensures outcome.Replied? && b != null ==>
              b.View() == Breaker.Resumed(b.config, old(b.View()), DoCalls(asked, meanwhile, outcome.reply, answered))
    ensures outcome.Replied? && b != null ==>
              var down := outcome.reply.failed && (outcome.reply.status == 0 || outcome.reply.status >= 500);
              b.View() == Breaker.Resumed(b.config, old(b.View()),
                                          [Breaker.Allow(asked)] + meanwhile + [Breaker.Record(!down, answered)])
  {
    if b != null {
      var admitted := b.Allow(asked);
      if !admitted {
        return Refused, 0;
      }
    }
    var reply;
    reply, calls := Attempt(p, verb, call, interrupted);
    if b != null {
      Interfere(b, meanwhile);
      b.Record(!ServerFailed(reply), answered);
      DoCallsResumed(b.config, old(b.View()), asked, meanwhile, reply, answered);
    }
    outcome := Replied(reply);
  }

  lemma {:induction false} DoCallsResumed(c: Breaker.Config, s: Breaker.State, asked: int, meanwhile: seq<Breaker.Event>,
                                          reply: Reply, answered: int)
    ensures Breaker.Resumed(c, s, DoCalls(asked, meanwhile, reply, answered))
            == Breaker.AfterRecord(c, Breaker.Resumed(c, Breaker.AfterAllow(c, s, asked), meanwhile),
                                   !ServerFailed(reply), answered)
  {
    var first, all := [Breaker.Allow(asked)] + meanwhile, DoCalls(asked, meanwhile, reply, answered);
    assert all[..|all| - 1] == first;
    ResumedAfterFirst(c, s, Breaker.Allow(asked), meanwhile);
  }

  lemma {:induction false} ResumedAfterFirst(c: Breaker.Config, s: Breaker.State, e: Breaker.Event, calls: seq<Breaker.Event>)
    ensures Breaker.Resumed(c, s, [e] + calls) == Breaker.Resumed(c, Breaker.Next(c, s, e), calls)
  {
    if calls == [] {
      assert [e] + calls == [e] && [e][..0] == [];
    } else {
      var n := |calls| - 1;
      assert ([e] + calls)[..|[e] + calls| - 1] == [e] + calls[..n];
      ResumedAfterFirst(c, s, e, calls[..n]);
    }
  }

  /** A request is one admission and one result in the breaker's history, whatever other requests did in
      between: so everything proved of histories holds of clients sharing a breaker. */
  lemma {:induction false} RequestInHistory(c: Breaker.Config, h: seq<Breaker.Event>, asked: int,
                                            meanwhile: seq<Breaker.Event>, reply: Reply, answered: int)
    ensures Breaker.Resumed(c, Breaker.After(c, h), DoCalls(asked, meanwhile, reply, answered))
            == Breaker.After(c, h + DoCalls(asked, meanwhile, reply, answered))
  {
    Breaker.HistoryResumes(c, h, DoCalls(asked, meanwhile, reply, answered));
  }

  // ----- Back-off -----

  function Pow2(n: nat): nat {
    if n == 0 then 1 else 2 * Pow2(n - 1)
  }

  /** The value a signed 64-bit word keeps of `x`. */
  function Wrapped(x: nat): int {
    var low := x % WORD;
    if low < TOP then low else low - WORD
  }

  /** The delay before jitter, as the code computes it for retry `n` (n >= 1). */
  function Delay(base: nat, n: nat): int
    requires n >= 1
  {
    if n - 1 < 31 && 0 < Wrapped(base * Pow2(n - 1)) < MAX_BACKOFF then Wrapped(base * Pow2(n - 1)) else MAX_BACKOFF
  }

  /** The delay as documented: exponential growth from the base, capped. */
  function Promised(base: nat, n: nat): nat
    requires n >= 1
  {
    if base * Pow2(n - 1) < MAX_BACKOFF then base * Pow2(n - 1) else MAX_BACKOFF
  }

  /** `draw` is the random number; the wait is never above the cap, and never less than half the delay. */
  method Backoff(base: nat, n: nat, draw: nat) returns (wait: int)
    requires n >= 1 && base > 0
    requires draw <= Delay(base, n) / 2
    ensures 0 < wait <= Delay(base, n) <= MAX_BACKOFF
    ensures Delay(base, n) <= 2 * wait + 1
    ensures wait == if Delay(base, n) >= 2 then Delay(base, n) / 2 + draw else Delay(base, n)
  {
    var d := MAX_BACKOFF;
    if n - 1 < 31 {
      var grown := Wrapped(base * Pow2(n - 1));
      if 0 < grown < MAX_BACKOFF {
        d := grown;
      }
    }
    var half := d / 2;
    if half <= 0 {
      return d;
    }
    return half + draw;
  }

  /** The code keeps its promise exactly when, below the 31-bit shift limit, the product does not
      overflow to a small positive number, and from it on, the product has reached the cap. */
  lemma {:induction false} BackoffExact(base: nat, n: nat)
    requires n >= 1 && 0 < base < TOP
    ensures Delay(base, n) == Promised(base, n) <==>
            if n - 1 < 31 then base * Pow2(n - 1) < TOP || !(0 < Wrapped(base * Pow2(n - 1)) < MAX_BACKOFF)
            else base * Pow2(n - 1) >= MAX_BACKOFF
  {
    PowPositive(n - 1);
    ProductPositive(base, Pow2(n - 1));
  }

  lemma {:induction false} ProductPositive(a: nat, b: nat)
    requires a > 0 && b > 0
    ensures a * b > 0
  {
  }

  lemma {:induction false} PowPositive(n: nat)
    ensures Pow2(n) > 0
  {
    if n > 0 {
      PowPositive(n - 1);
    }
  }

  lemma {:induction false} PowMonotone(a: nat, b: nat)
    requires a <= b
    ensures Pow2(a) <= Pow2(b)
  {
    if a < b {
      PowMonotone(a, b - 1);
    }
  }

  lemma {:induction false} Scaled(base: nat, a: nat, b: nat)
    requires a <= b
    ensures base * a <= base * b
  {
  }

  lemma {:induction false} Powers()
    ensures Pow2(30) == 0x4000_0000 && Pow2(31) == 0x8000_0000
  {
    assert Pow2(6) == 64;
    assert Pow2(12) == 4096;
    assert Pow2(18) == 0x4_0000;
    assert Pow2(24) == 0x100_0000;
    assert Pow2(30) == 0x4000_0000;
  }

  /** The product leaves the word and comes back as a small positive number. */
  predicate WrapsSmall(base: nat, k: nat) {
    base * Pow2(k) >= WORD && 0 < base * Pow2(k) % WORD < MAX_BACKOFF
  }

  lemma {:induction false} ExactBelowLimit(base: nat, n: nat)
    requires 1 <= n < 32 && 0 < base < TOP
    ensures Delay(base, n) == Promised(base, n) <==> !WrapsSmall(base, n - 1)
  {
    BackoffExact(base, n);
  }

  lemma {:induction false} ExactAboveLimit(base: nat, n: nat)
    requires n >= 32 && 14 <= base < TOP
    ensures Delay(base, n) == Promised(base, n)
  {
    Powers();
    BackoffExact(base, n);
    PowMonotone(31, n - 1);
    Scaled(base, Pow2(31), Pow2(n - 1));
  }

  /** The back-off keeps its promise at every retry if and only if the base is at least 14 ns and none of
      its 31 shifts wraps around to a small positive number. */
  lemma {:induction false} BackoffExactBases(base: nat)
    requires 0 < base < TOP
    ensures (forall n :: n >= 1 ==> Delay(base, n) == Promised(base, n)) <==>
            14 <= base && forall k: nat :: k < 31 ==> !WrapsSmall(base, k)
  {
    if base < 14 {
      Powers();
      BackoffExact(base, 32);
      assert Delay(base, 32) != Promised(base, 32);
    } else {
      forall n | n >= 1
        ensures Delay(base, n) == Promised(base, n) <==> n >= 32 || !WrapsSmall(base, n - 1)
      {
        if n < 32 {
          ExactBelowLimit(base, n);
        } else {
          ExactAboveLimit(base, n);
        }
      }
      if k: nat :| k < 31 && WrapsSmall(base, k) {
        assert Delay(base, k + 1) != Promised(base, k + 1);
      }
    }
  }

  /** For every base from 14 ns to 2^34 ns, about 17 s, every retry waits as documented, and never less than
      the one before. */
  lemma {:induction false} BackoffInRange(base: nat, n: nat)
    requires n >= 1 && 14 <= base <= 0x4_0000_0000
    ensures Delay(base, n) == Promised(base, n) && Promised(base, n) <= Promised(base, n + 1)
  {
    if n < 32 {
      Powers();
      PowMonotone(n - 1, 30);
      Scaled(base, Pow2(n - 1), Pow2(30));
      ExactBelowLimit(base, n);
    } else {
      ExactAboveLimit(base, n);
    }
    PowMonotone(n - 1, n);
    Scaled(base, Pow2(n - 1), Pow2(n));
  }

  /** The next base up does not: 2^34 + 1 ns wraps to about a second on retry 31 where the cap is due. And a
      base of 1 ns jumps from about a second to the cap on retry 32. */
  lemma {:induction false} BackoffCounterexamples()
    ensures Delay(0x4_0000_0001, 31) == 0x4000_0000 && Promised(0x4_0000_0001, 31) == MAX_BACKOFF
    ensures Delay(1, 32) == MAX_BACKOFF && Promised(1, 32) == 0x8000_0000
  {
    Powers();
  }
}
