/**
 The per-key concurrency limiter (core/limitx/keyed.go).

 Slots live in a heap of their own, because a goroutine keeps the slot it reserved while the map
 entry for its key may be dropped and created anew: whether the two can ever part is the question.
 Every call of `Acquire` is a ticket. Its steps are the limiter's critical sections and channel
 operations, and a run is any interleaving of the steps of any number of tickets.
 */
module Limiter {

  type Ref = nat

  /** A key's semaphore: the elements buffered in its channel, and the goroutines depending on it. */
  datatype Slot = Slot(sem: nat, refs: int)

  datatype Slots<!K> = Slots(table: map<K, Ref>, heap: map<Ref, Slot>, nextRef: Ref)

  /** Where one call of `Acquire` stands.
      Waiting: reserved, blocked in the select. Holding: returned successfully.
      Draining: its release has received from the channel. Cancelled: its context ended.
      Done: its reference has been given back. */
  datatype Phase = Waiting | Holding | Draining | Cancelled | Done

  datatype Ticket<K> = Ticket(key: K, slot: Ref, phase: Phase) {
    predicate Depends() {
      phase != Done
    }
  }

  function Reserved<K(==)>(l: Slots<K>, key: K): (Slots<K>, Ref)
    requires key in l.table ==> l.table[key] in l.heap
  {
    var l' := if key in l.table then l
              else l.(table := l.table[key := l.nextRef],
                      heap := l.heap[l.nextRef := Slot(0, 0)],
                      nextRef := l.nextRef + 1);
    var r := l'.table[key];
    (l'.(heap := l'.heap[r := l'.heap[r].(refs := l'.heap[r].refs + 1)]), r)
  }

  function Released<K(==)>(l: Slots<K>, key: K): Slots<K>
    requires key in l.table ==> l.table[key] in l.heap
  {
    if key !in l.table then l
    else
      var r := l.table[key];
      var s := l.heap[r].(refs := l.heap[r].refs - 1);
      l.(heap := l.heap[r := s],
         table := if s.refs <= 0 then l.table - {key} else l.table)
  }

  function Sent<K(==)>(l: Slots<K>, r: Ref): Slots<K>
    requires r in l.heap
  {
    l.(heap := l.heap[r := l.heap[r].(sem := l.heap[r].sem + 1)])
  }

  function Received<K(==)>(l: Slots<K>, r: Ref): Slots<K>
    requires r in l.heap && l.heap[r].sem > 0
  {
    l.(heap := l.heap[r := l.heap[r].(sem := l.heap[r].sem - 1)])
  }

  /** The limiter object: each method is one critical section or channel operation. */
  class Keyed<K(==)> {
    const perKey: int
    var table: map<K, Ref>
    var heap: map<Ref, Slot>
    var nextRef: Ref

    function View(): Slots<K>
      reads this
    {
      Slots(table, heap, nextRef)
    }

    constructor (perKey: int)
      ensures this.perKey >= 1
      ensures perKey >= 1 ==> this.perKey == perKey
      ensures perKey < 1 ==> this.perKey == 1
      ensures View() == Slots(map[], map[], 0)
    {
      this.perKey := if perKey < 1 then 1 else perKey;
      table, heap, nextRef := map[], map[], 0;
    }

    method Reserve(key: K) returns (r: Ref)
      requires key in table ==> table[key] in heap
      modifies this
      ensures (View(), r) == Reserved(old(View()), key)
    {
      if key !in table {
        heap := heap[nextRef := Slot(0, 0)];
        table := table[key := nextRef];
        nextRef := nextRef + 1;
      }
      r := table[key];
      heap := heap[r := heap[r].(refs := heap[r].refs + 1)];
    }

    method Release(key: K)
      requires key in table ==> table[key] in heap
      modifies this
      ensures View() == Released(old(View()), key)
    {
      if key !in table {
        return;
      }
      var r := table[key];
      heap := heap[r := heap[r].(refs := heap[r].refs - 1)];
      if heap[r].refs <= 0 {
        table := table - {key};
      }
    }

    /** A send on the slot's channel proceeds only while the buffer has room. */
    method TrySend(r: Ref) returns (sent: bool)
      requires r in heap
      modifies this
      ensures sent == (old(heap[r]).sem < perKey)
      ensures View() == if sent then Sent(old(View()), r) else old(View())
    {
      sent := heap[r].sem < perKey;
      if sent {
        heap := heap[r := heap[r].(sem := heap[r].sem + 1)];
      }
    }

    method TryReceive(r: Ref) returns (received: bool)
      requires r in heap
      modifies this
      ensures received == (old(heap[r]).sem > 0)
      ensures View() == if received then Received(old(View()), r) else old(View())
    {
      received := heap[r].sem > 0;
      if received {
        heap := heap[r := heap[r].(sem := heap[r].sem - 1)];
      }
    }
  }

  // ----- Runs -----

  datatype System<!K> = System(limiter: Slots<K>, tickets: seq<Ticket<K>>)

  /** The steps of `Acquire` and of the function it returns. A repeated call of that function is
      swallowed by its `sync.Once`. */
  datatype Event<K> =
    | Reserve(key: K)      // a new ticket, numbered by its position
    | Enter(t: nat)        // the select takes the send
    | Cancel(t: nat)       // the select takes ctx.Done
    | Drain(t: nat)        // release: the receive from the channel
    | Unref(t: nat)        // release(key) after a drain or a cancellation
    | ReleaseAgain(t: nat) // a further call of the release function

  ghost predicate Enabled<K>(perKey: int, s: System<K>, e: Event<K>) {
    var l, ts := s.limiter, s.tickets;
    match e
    case Reserve(key) => key in l.table ==> l.table[key] in l.heap
    case Enter(t) =>
      t < |ts| && ts[t].phase == Waiting && ts[t].slot in l.heap && l.heap[ts[t].slot].sem < perKey
    case Cancel(t) => t < |ts| && ts[t].phase == Waiting
    case Drain(t) =>
      t < |ts| && ts[t].phase == Holding && ts[t].slot in l.heap && l.heap[ts[t].slot].sem > 0
    case Unref(t) =>
      && t < |ts| && ts[t].phase in {Draining, Cancelled}
      && (ts[t].key in l.table ==> l.table[ts[t].key] in l.heap)
    case ReleaseAgain(t) => t < |ts| && ts[t].phase in {Draining, Done}
  }

  ghost function Apply<K>(perKey: int, s: System<K>, e: Event<K>): System<K>
    requires Enabled(perKey, s, e)
  {
    var l, ts := s.limiter, s.tickets;
    match e
    case Reserve(key) =>
      var (l', r) := Reserved(l, key);
      System(l', ts + [Ticket(key, r, Waiting)])
    case Enter(t) => System(Sent(l, ts[t].slot), ts[t := ts[t].(phase := Holding)])
    case Cancel(t) => System(l, ts[t := ts[t].(phase := Cancelled)])
    case Drain(t) => System(Received(l, ts[t].slot), ts[t := ts[t].(phase := Draining)])
    case Unref(t) => System(Released(l, ts[t].key), ts[t := ts[t].(phase := Done)])
    case ReleaseAgain(t) => s
  }

  ghost function Start<K>(): System<K> {
    System(Slots(map[], map[], 0), [])
  }

  /** Each event of the run was possible when it happened. */
  ghost predicate Valid<K>(perKey: int, run: seq<Event<K>>)
    decreases |run|, 0
  {
    run == [] ||
    var p := run[..|run| - 1];
    Valid(perKey, p) && Enabled(perKey, After(perKey, p), run[|run| - 1])
  }

  /** The state the run leads to. */
  ghost function After<K>(perKey: int, run: seq<Event<K>>): System<K>
    requires Valid(perKey, run)
    decreases |run|, 1
  {
    if run == [] then Start()
    else Apply(perKey, After(perKey, run[..|run| - 1]), run[|run| - 1])
  }

  /** The tickets that depend on `key`. */
  ghost function Dependents<K>(s: System<K>, key: K): set<nat> {
    set t: nat | t < |s.tickets| && s.tickets[t].key == key && s.tickets[t].Depends()
  }

  /** The tickets whose caller holds a slot of `key`. */
  ghost function Holders<K>(s: System<K>, key: K): set<nat> {
    set t: nat | t < |s.tickets| && s.tickets[t].key == key && s.tickets[t].phase == Holding
  }

  ghost predicate SlotsSound<K>(l: Slots<K>) {
    && (forall k :: k in l.table ==> l.table[k] in l.heap)
    && (forall r :: r in l.heap ==> r < l.nextRef)
    && (forall k, k' :: k in l.table && k' in l.table && k != k' ==> l.table[k] != l.table[k'])
  }

  ghost predicate Inv<K(!new)>(perKey: int, s: System<K>) {
    && SlotsSound(s.limiter)
    && (forall t :: 0 <= t < |s.tickets| && s.tickets[t].Depends() ==>
          s.tickets[t].key in s.limiter.table && s.limiter.table[s.tickets[t].key] == s.tickets[t].slot)
    && (forall k :: k in s.limiter.table ==> Balanced(perKey, s, k))
  }

  /** A key's slot counts exactly the tickets that depend on it and those that hold it. */
  ghost predicate Balanced<K>(perKey: int, s: System<K>, k: K)
    requires SlotsSound(s.limiter) && k in s.limiter.table
  {
    var slot := s.limiter.heap[s.limiter.table[k]];
    && slot.refs == |Dependents(s, k)| > 0
    && slot.sem == |Holders(s, k)| <= perKey
  }

  lemma {:induction false} SetGrows<T>(a: set<T>, b: set<T>, x: T)
    requires x !in a && b == a + {x}
    ensures |b| == |a| + 1
  {
  }

  lemma {:induction false} SetShrinks<T>(a: set<T>, b: set<T>, x: T)
    requires x in a && b == a - {x}
    ensures |b| == |a| - 1
  {
  }

  /** Changing one ticket of key `k` leaves the ticket sets of every other key as they were. */
  lemma {:induction false} OtherKeysKept<K>(s: System<K>, s': System<K>, t: nat, k: K)
    requires t < |s.tickets| && |s'.tickets| == |s.tickets|
    requires s'.tickets == s.tickets[t := s'.tickets[t]] && s'.tickets[t].key == s.tickets[t].key
    requires s.tickets[t].key != k
    ensures Dependents(s', k) == Dependents(s, k) && Holders(s', k) == Holders(s, k)
  {
  }

  lemma {:induction false} ReserveKnownKeeps<K(!new)>(perKey: int, s: System<K>, key: K)
    requires Inv(perKey, s) && key in s.limiter.table
    ensures Inv(perKey, Apply(perKey, s, Reserve(key)))
  {
    var s' := Apply(perKey, s, Reserve(key));
    forall k | k in s'.limiter.table
      ensures Balanced(perKey, s', k)
    {
      assert Balanced(perKey, s, k);
      assert Holders(s', k) == Holders(s, k);
      if k == key {
        SetGrows(Dependents(s, k), Dependents(s', k), |s.tickets|);
      } else {
        assert Dependents(s', k) == Dependents(s, k);
      }
    }
  }

  lemma {:induction false} ReserveFreshBalances<K(!new)>(perKey: int, s: System<K>, key: K, k: K)
    requires perKey >= 1 && Inv(perKey, s) && key !in s.limiter.table
    requires SlotsSound(Apply(perKey, s, Reserve(key)).limiter) && k in Apply(perKey, s, Reserve(key)).limiter.table
    ensures Balanced(perKey, Apply(perKey, s, Reserve(key)), k)
  {
    var s' := Apply(perKey, s, Reserve(key));
    assert Holders(s', k) == Holders(s, k);
    if k == key {
      assert Dependents(s, k) == {} && Holders(s, k) == {};
      assert Dependents(s', k) == {|s.tickets|};
    } else {
      assert Balanced(perKey, s, k);
      assert Dependents(s', k) == Dependents(s, k);
    }
  }

  lemma {:induction false} ReserveFreshKeeps<K(!new)>(perKey: int, s: System<K>, key: K)
    requires perKey >= 1 && Inv(perKey, s) && key !in s.limiter.table
    ensures Inv(perKey, Apply(perKey, s, Reserve(key)))
  {
    var s' := Apply(perKey, s, Reserve(key));
    assert s'.limiter.table == s.limiter.table[key := s.limiter.nextRef];
    forall k | k in s'.limiter.table
      ensures Balanced(perKey, s', k)
    {
      ReserveFreshBalances(perKey, s, key, k);
    }
  }

  lemma {:induction false} EnterBalances<K(!new)>(perKey: int, s: System<K>, t: nat, k: K)
    requires Inv(perKey, s) && Enabled(perKey, s, Enter(t)) && k in s.limiter.table
    requires SlotsSound(Apply(perKey, s, Enter(t)).limiter)
    ensures Balanced(perKey, Apply(perKey, s, Enter(t)), k)
  {
    var s' := Apply(perKey, s, Enter(t));
    assert Balanced(perKey, s, k);
    if k == s.tickets[t].key {
      assert Dependents(s', k) == Dependents(s, k);
      SetGrows(Holders(s, k), Holders(s', k), t);
    } else {
      OtherKeysKept(s, s', t, k);
    }
  }

  lemma {:induction false} EnterKeeps<K(!new)>(perKey: int, s: System<K>, t: nat)
    requires Inv(perKey, s) && Enabled(perKey, s, Enter(t))
    ensures Inv(perKey, Apply(perKey, s, Enter(t)))
  {
    var s' := Apply(perKey, s, Enter(t));
    forall k | k in s'.limiter.table
      ensures Balanced(perKey, s', k)
    {
      EnterBalances(perKey, s, t, k);
    }
  }

  lemma {:induction false} CancelKeeps<K(!new)>(perKey: int, s: System<K>, t: nat)
    requires Inv(perKey, s) && Enabled(perKey, s, Cancel(t))
    ensures Inv(perKey, Apply(perKey, s, Cancel(t)))
  {
    var s' := Apply(perKey, s, Cancel(t));
    forall k | k in s'.limiter.table
      ensures Balanced(perKey, s', k)
    {
      assert Balanced(perKey, s, k);
      assert Dependents(s', k) == Dependents(s, k) && Holders(s', k) == Holders(s, k);
    }
  }

  lemma {:induction false} DrainKeeps<K(!new)>(perKey: int, s: System<K>, t: nat)
    requires Inv(perKey, s) && Enabled(perKey, s, Drain(t))
    ensures Inv(perKey, Apply(perKey, s, Drain(t)))
  {
    var s' := Apply(perKey, s, Drain(t));
    var key := s.tickets[t].key;
    forall k | k in s'.limiter.table
      ensures Balanced(perKey, s', k)
    {
      assert Balanced(perKey, s, k);
      if k == key {
        assert Dependents(s', k) == Dependents(s, k);
        SetShrinks(Holders(s, k), Holders(s', k), t);
      } else {
        OtherKeysKept(s, s', t, k);
      }
    }
  }

  lemma {:induction false} UnrefKeeps<K(!new)>(perKey: int, s: System<K>, t: nat)
    requires Inv(perKey, s) && Enabled(perKey, s, Unref(t))
    ensures Inv(perKey, Apply(perKey, s, Unref(t)))
  {
    var s' := Apply(perKey, s, Unref(t));
    var key := s.tickets[t].key;
    assert Balanced(perKey, s, key);
    SetShrinks(Dependents(s, key), Dependents(s', key), t);
    assert Holders(s', key) == Holders(s, key);
    forall k | k in s'.limiter.table
      ensures Balanced(perKey, s', k)
    {
      assert Balanced(perKey, s, k);
      if k != key {
        OtherKeysKept(s, s', t, k);
      }
    }
    forall u | 0 <= u < |s'.tickets| && s'.tickets[u].Depends()
      ensures s'.tickets[u].key in s'.limiter.table
    {
      if s'.tickets[u].key == key {
        assert u in Dependents(s', key);
      }
    }
  }

  /** Every reachable state is sound, whatever the interleaving. */
  lemma {:induction false} EveryRun<K(!new)>(perKey: int, run: seq<Event<K>>)
    requires perKey >= 1 && Valid(perKey, run)
    ensures Inv(perKey, After(perKey, run))
    decreases |run|
  {
    if run != [] {
      EveryRun(perKey, run[..|run| - 1]);
      var p := After(perKey, run[..|run| - 1]);
      match run[|run| - 1]
      case Reserve(key) =>
        if key in p.limiter.table {
          ReserveKnownKeeps(perKey, p, key);
        } else {
          ReserveFreshKeeps(perKey, p, key);
        }
      case Enter(t) => EnterKeeps(perKey, p, t);
      case Cancel(t) => CancelKeeps(perKey, p, t);
      case Drain(t) => DrainKeeps(perKey, p, t);
      case Unref(t) => UnrefKeeps(perKey, p, t);
      case ReleaseAgain(_) =>
    }
  }

  // ----- What every run guarantees -----

  /** Never more than `perKey` callers hold a key, all its callers share one slot, that slot's
      `refs` is their number, and the key is present exactly while someone depends on it. */
  lemma {:induction false} KeyIsBounded<K(!new)>(perKey: int, run: seq<Event<K>>, s: System<K>, key: K)
    requires perKey >= 1 && Valid(perKey, run) && s == After(perKey, run)
    ensures |Holders(s, key)| <= perKey
    ensures Enabled(perKey, s, Reserve(key))
    ensures key in s.limiter.table <==> Dependents(s, key) != {}
    ensures forall t :: t in Dependents(s, key) ==>
              key in s.limiter.table && s.limiter.table[key] == s.tickets[t].slot
    ensures key in s.limiter.table ==>
              s.limiter.table[key] in s.limiter.heap
              && s.limiter.heap[s.limiter.table[key]].refs == |Dependents(s, key)|
  {
    EveryRun(perKey, run);
    if key in s.limiter.table {
      assert Balanced(perKey, s, key);
    }
    assert Holders(s, key) <= Dependents(s, key);
  }

  /** No step of a release can block or be lost: a holder's receive finds an element, and the map
      entry its reference is given back to is the slot it reserved. */
  lemma {:induction false} ReleaseNeverBlocks<K(!new)>(perKey: int, run: seq<Event<K>>, s: System<K>, t: nat)
    requires perKey >= 1 && Valid(perKey, run) && s == After(perKey, run) && t < |s.tickets|
    ensures s.tickets[t].phase == Holding ==> Enabled(perKey, s, Drain(t))
    ensures s.tickets[t].phase in {Draining, Cancelled} ==>
              Enabled(perKey, s, Unref(t)) && s.tickets[t].key in s.limiter.table
              && s.limiter.table[s.tickets[t].key] == s.tickets[t].slot
  {
    EveryRun(perKey, run);
    if s.tickets[t].phase == Holding {
      var k := s.tickets[t].key;
      assert Balanced(perKey, s, k);
      assert t in Holders(s, k);
    }
  }

  /** A waiter is kept out only by `perKey` other holders of its own key: capacity is never lost
      to a cancelled or released ticket. */
  lemma {:induction false} WaitersAdmitted<K(!new)>(perKey: int, run: seq<Event<K>>, s: System<K>, t: nat)
    requires perKey >= 1 && Valid(perKey, run) && s == After(perKey, run)
    requires t < |s.tickets| && s.tickets[t].phase == Waiting
    ensures Enabled(perKey, s, Enter(t)) <==> |Holders(s, s.tickets[t].key)| < perKey
  {
    EveryRun(perKey, run);
    assert Balanced(perKey, s, s.tickets[t].key);
  }

  /** Once every ticket is done the limiter is empty: idle keys do not accumulate. */
  lemma {:induction false} IdleHoldsNothing<K(!new)>(perKey: int, run: seq<Event<K>>, s: System<K>)
    requires perKey >= 1 && Valid(perKey, run) && s == After(perKey, run)
    requires forall t :: 0 <= t < |s.tickets| ==> s.tickets[t].phase == Done
    ensures s.limiter.table == map[]
  {
    forall k
      ensures k !in s.limiter.table
    {
      KeyIsBounded(perKey, run, s, k);
    }
  }

  // ----- The same, read off the events -----

  /** The keys asked for, one for each ticket. */
  ghost function KeysAsked<K>(run: seq<Event<K>>): seq<K> {
    if run == [] then []
    else
      var e := run[|run| - 1];
      KeysAsked(run[..|run| - 1]) + if e.Reserve? then [e.key] else []
  }

  /** What ticket `t` did last. */
  ghost function LastOf<K>(run: seq<Event<K>>, t: nat): Phase {
    if run == [] then Waiting
    else
      match run[|run| - 1]
      case Enter(u) => if u == t then Holding else LastOf(run[..|run| - 1], t)
      case Cancel(u) => if u == t then Cancelled else LastOf(run[..|run| - 1], t)
      case Drain(u) => if u == t then Draining else LastOf(run[..|run| - 1], t)
      case Unref(u) => if u == t then Done else LastOf(run[..|run| - 1], t)
      case _ => LastOf(run[..|run| - 1], t)
  }

  lemma {:induction false} UnknownTicket<K>(perKey: int, run: seq<Event<K>>, t: nat)
    requires Valid(perKey, run) && t >= |After(perKey, run).tickets|
    ensures LastOf(run, t) == Waiting
    decreases |run|
  {
    if run != [] {
      UnknownTicket(perKey, run[..|run| - 1], t);
    }
  }

  /** A ticket is what its events say. */
  lemma {:induction false} TicketsFromEvents<K>(perKey: int, run: seq<Event<K>>, s: System<K>)
    requires Valid(perKey, run) && s == After(perKey, run)
    ensures |s.tickets| == |KeysAsked(run)|
    ensures forall t :: 0 <= t < |s.tickets| ==> s.tickets[t].key == KeysAsked(run)[t] && s.tickets[t].phase == LastOf(run, t)
    decreases |run|
  {
    if run != [] {
      var p := run[..|run| - 1];
      TicketsFromEvents(perKey, p, After(perKey, p));
      if run[|run| - 1].Reserve? {
        UnknownTicket(perKey, p, |s.tickets| - 1);
      }
    }
  }

  /** The calls for `key` that have entered and not yet begun to release. */
  ghost function Inside<K>(run: seq<Event<K>>, key: K): set<nat> {
    set t: nat | t < |KeysAsked(run)| && KeysAsked(run)[t] == key && LastOf(run, t) == Holding
  }

  /** In terms of the calls alone: a waiting call can enter if and only if fewer than the bound are inside for
      its key, so never more than the bound are. */
  lemma {:induction false} EntryExact<K(!new)>(perKey: int, run: seq<Event<K>>, t: nat)
    requires perKey >= 1 && Valid(perKey, run)
    ensures t < |KeysAsked(run)| ==> |Inside(run, KeysAsked(run)[t])| <= perKey
    ensures Enabled(perKey, After(perKey, run), Enter(t)) <==>
            t < |KeysAsked(run)| && LastOf(run, t) == Waiting && |Inside(run, KeysAsked(run)[t])| < perKey
  {
    var s := After(perKey, run);
    TicketsFromEvents(perKey, run, s);
    if t < |s.tickets| {
      var key := s.tickets[t].key;
      assert Inside(run, key) == Holders(s, key);
      KeyIsBounded(perKey, run, s, key);
      if s.tickets[t].phase == Waiting {
        WaitersAdmitted(perKey, run, s, t);
      }
    }
  }
}
