/**
 Closing services (host/service.go: closeOrder, closeServices). The code reverses the registration
 order and then sorts stably by band. The specification fixes the order by what it promises: bands
 ascend, and within a band the last registered closes first.
 */
module CloseOrder {

  import opened Options

  const CLOSE_DEFAULT := 50

  /** What a registered service brings to the close phase: the band it asks for, if any; whether it
      has a Close method; and whether that succeeds. */
  datatype Service = Service(band: Option<int>, closer: bool, ok: bool)

  datatype Entry = Entry(index: nat, svc: Service, order: int)

  function Band(svc: Service): int {
    if svc.band.Some? then svc.band.value else CLOSE_DEFAULT
  }

  // ----- Sorting stably -----

  predicate Ascending(es: seq<Entry>) {
    forall i, j :: 0 <= i < j < |es| ==> es[i].order <= es[j].order
  }

  /** The entries of one band, in the order they appear. */
  function InBand(es: seq<Entry>, band: int): seq<Entry> {
    if es == [] then []
    else (if es[0].order == band then [es[0]] else []) + InBand(es[1..], band)
  }

  /** `out` is `es` sorted stably: ascending, with each band exactly as it was. */
  ghost predicate StablySorted(es: seq<Entry>, out: seq<Entry>) {
    Ascending(out) && forall band :: InBand(out, band) == InBand(es, band)
  }

  lemma {:induction false} InBandSplits(a: seq<Entry>, b: seq<Entry>, band: int)
    ensures InBand(a + b, band) == InBand(a, band) + InBand(b, band)
    decreases |a|
  {
    if a == [] {
      assert a + b == b && InBand(a, band) + InBand(b, band) == InBand(b, band);
    } else {
      var head := if a[0].order == band then [a[0]] else [];
      assert (a + b)[0] == a[0] && (a + b)[1..] == a[1..] + b;
      InBandSplits(a[1..], b, band);
      assert head + (InBand(a[1..], band) + InBand(b, band)) == head + InBand(a[1..], band) + InBand(b, band);
    }
  }

  lemma {:induction false} BandAbsent(es: seq<Entry>, band: int)
    requires forall i :: 0 <= i < |es| ==> es[i].order != band
    ensures InBand(es, band) == []
  {
    if es != [] {
      BandAbsent(es[1..], band);
    }
  }

  lemma {:induction false} InsertedBand(low: seq<Entry>, e: Entry, high: seq<Entry>, band: int)
    requires forall i :: 0 <= i < |high| ==> high[i].order > e.order
    ensures InBand(low + [e] + high, band) == InBand(low + high + [e], band)
  {
    InBandSplits(low, high, band);
    InBandSplits(low + high, [e], band);
    InBandSplits(low + [e], high, band);
    InBandSplits(low, [e], band);
    if band == e.order {
      BandAbsent(high, band);
    } else {
      BandAbsent([e], band);
    }
  }

  /** Where an insertion keeps the order and every band. */
  lemma {:induction false} InsertedSorted(es: seq<Entry>, e: Entry, i: nat)
    requires Ascending(es) && i <= |es|
    requires forall j :: i <= j < |es| ==> es[j].order > e.order
    requires i > 0 ==> es[i - 1].order <= e.order
    ensures StablySorted(es + [e], es[..i] + [e] + es[i..])
  {
    forall band
      ensures InBand(es[..i] + [e] + es[i..], band) == InBand(es + [e], band)
    {
      assert es == es[..i] + es[i..];
      InsertedBand(es[..i], e, es[i..], band);
    }
    InsertedAscending(es, e, i);
  }

  lemma {:induction false} InsertedAscending(es: seq<Entry>, e: Entry, i: nat)
    requires Ascending(es) && i <= |es|
    requires forall j :: i <= j < |es| ==> es[j].order > e.order
    requires i > 0 ==> es[i - 1].order <= e.order
    ensures Ascending(es[..i] + [e] + es[i..])
  {
  }

  /** Put `e` after every entry of its own or a lower band. */
  method Insert(es: seq<Entry>, e: Entry) returns (out: seq<Entry>)
    requires Ascending(es)
    ensures StablySorted(es + [e], out)
  {
    var i := |es|;
    while i > 0 && es[i - 1].order > e.order
      invariant 0 <= i <= |es|
      invariant forall j :: i <= j < |es| ==> es[j].order > e.order
    {
      i := i - 1;
    }
    out := es[..i] + [e] + es[i..];
    InsertedSorted(es, e, i);
  }

  method StableSort(es: seq<Entry>) returns (out: seq<Entry>)
    ensures StablySorted(es, out)
  {
    out := [];
    for i := 0 to |es|
      invariant StablySorted(es[..i], out)
    {
      ghost var before := out;
      out := Insert(out, es[i]);
      assert es[..i + 1] == es[..i] + [es[i]];
      forall band
        ensures InBand(out, band) == InBand(es[..i + 1], band)
      {
        InBandSplits(es[..i], [es[i]], band);
        InBandSplits(before, [es[i]], band);
      }
    }
    assert es[..|es|] == es;
  }

  // ----- Closing -----

  /** The services last registered first. */
  function LastFirst<T>(s: seq<T>): (r: seq<T>)
    ensures |r| == |s| && forall i :: 0 <= i < |s| ==> r[i] == s[|s| - 1 - i]
  {
    seq(|s|, i requires 0 <= i < |s| => s[|s| - 1 - i])
  }

  function Entries(services: seq<Service>): (es: seq<Entry>)
    ensures |es| == |services|
    ensures forall i :: 0 <= i < |es| ==> es[i] == Entry(i, services[i], Band(services[i]))
  {
    seq(|services|, i requires 0 <= i < |services| => Entry(i, services[i], Band(services[i])))
  }

  /** The promised order: bands ascend, and each band is its registration order reversed. */
  ghost predicate ClosesInOrder(services: seq<Service>, visited: seq<Entry>) {
    Ascending(visited) && forall band :: InBand(visited, band) == LastFirst(InBand(Entries(services), band))
  }

  /** The entries among `visited` whose Close is called and fails, in order. */
  function Failures(visited: seq<Entry>): seq<Entry> {
    if visited == [] then []
    else
      var e := visited[|visited| - 1];
      Failures(visited[..|visited| - 1]) + (if e.svc.closer && !e.svc.ok then [e] else [])
  }

  lemma {:induction false} LastFirstSplits<T>(a: seq<T>, b: seq<T>)
    ensures LastFirst(a + b) == LastFirst(b) + LastFirst(a)
  {
  }

  /** Turning the registrations round turns every band round. */
  lemma {:induction false} InBandLastFirst(es: seq<Entry>, band: int)
    ensures InBand(LastFirst(es), band) == LastFirst(InBand(es, band))
  {
    if es != [] {
      var head := if es[0].order == band then [es[0]] else [];
      assert es == [es[0]] + es[1..] && LastFirst([es[0]]) == [es[0]] && LastFirst(head) == head;
      LastFirstSplits([es[0]], es[1..]);
      LastFirstSplits(head, InBand(es[1..], band));
      InBandLastFirst(es[1..], band);
      InBandSplits(LastFirst(es[1..]), [es[0]], band);
      assert [es[0]][1..] == [] && InBand([es[0]], band) == head;
    }
  }

  /** In terms of the services alone: one comes before another only if it asks for a lower band, or for the
      same band and was registered later. A service that asks for none is in the default band. */
  ghost predicate InPromisedOrder(es: seq<Entry>) {
    forall i, j :: 0 <= i < j < |es| ==>
      var a := if es[i].svc.band.Some? then es[i].svc.band.value else CLOSE_DEFAULT;
      var b := if es[j].svc.band.Some? then es[j].svc.band.value else CLOSE_DEFAULT;
      a < b || (a == b && es[i].index > es[j].index)
  }

  /** The service registered as number `i` is among the visited. */
  ghost predicate Visits(visited: seq<Entry>, i: nat, svc: Service) {
    exists e :: e in visited && e.index == i && e.svc == svc
  }

  /** The services turned round and sorted stably by band. */
  method LineUp(services: seq<Service>) returns (visited: seq<Entry>)
    ensures ClosesInOrder(services, visited)
  {
    var entries: seq<Entry> := [];
    for i := 0 to |services|
      invariant |entries| == i
      invariant forall j :: 0 <= j < i ==> entries[j] == Entry(j, services[j], Band(services[j]))
    {
      entries := entries + [Entry(i, services[i], Band(services[i]))];
    }
    assert entries == Entries(services);
    visited := StableSort(LastFirst(entries));
    forall band
      ensures InBand(visited, band) == LastFirst(InBand(Entries(services), band))
    {
      InBandLastFirst(entries, band);
    }
  }

  method CloseEach(visited: seq<Entry>) returns (closed: seq<Entry>, errs: seq<Entry>)
    ensures closed == Closers(visited) && errs == Failures(visited)
  {
    closed, errs := [], [];
    for i := 0 to |visited|
      invariant closed == Closers(visited[..i])
      invariant errs == Failures(visited[..i])
    {
      assert visited[..i + 1][..i] == visited[..i];
      if visited[i].svc.closer {
        closed := closed + [visited[i]];
        if !visited[i].svc.ok {
          errs := errs + [visited[i]];
        }
      }
    }
    assert visited[..|visited|] == visited;
  }

  /** Every service is visited in the promised order, and a failing Close is collected without
      stopping the rest. `closed` lists the services whose Close was called. */
  method CloseServices(services: seq<Service>) returns (visited: seq<Entry>, closed: seq<Entry>, errs: seq<Entry>)
    ensures ClosesInOrder(services, visited)
    ensures closed == Closers(visited)
    ensures errs == Failures(visited)
    ensures InPromisedOrder(visited) && InPromisedOrder(closed) && InPromisedOrder(errs)
    ensures forall i :: 0 <= i < |services| ==> Visits(visited, i, services[i])
    ensures forall e :: e in visited ==> e.index < |services| && e.svc == services[e.index]
    ensures forall e :: e in closed <==> e in visited && e.svc.closer
    ensures forall e :: e in errs <==> e in visited && e.svc.closer && !e.svc.ok
  {
    visited := LineUp(services);
    closed, errs := CloseEach(visited);
    ClosedAsPromised(services, visited);
  }

  /** The entries that have a Close method, in order. */
  function Closers(visited: seq<Entry>): seq<Entry> {
    if visited == [] then []
    else
      var e := visited[|visited| - 1];
      Closers(visited[..|visited| - 1]) + (if e.svc.closer then [e] else [])
  }

  // ----- The order is the lexicographic one, and there is only one -----

  /** Earlier in the close phase: a lower band, or the same band and registered later. */
  predicate ClosesBefore(a: Entry, b: Entry) {
    a.order < b.order || (a.order == b.order && a.index > b.index)
  }

  lemma {:induction false} BandMembers(es: seq<Entry>, e: Entry)
    ensures e in InBand(es, e.order) <==> e in es
  {
    if es != [] {
      BandMembers(es[1..], e);
      assert es == [es[0]] + es[1..];
    }
  }

  lemma {:induction false} LastFirstMembers<T>(s: seq<T>, x: T)
    ensures x in LastFirst(s) <==> x in s
  {
    if x in s {
      var i :| 0 <= i < |s| && s[i] == x;
      assert LastFirst(s)[|s| - 1 - i] == x;
    }
  }

  /** `a` comes before `b` in `s`. */
  ghost predicate Precedes<T>(s: seq<T>, a: T, b: T) {
    exists i, j :: 0 <= i < j < |s| && s[i] == a && s[j] == b
  }

  lemma {:induction false} InBandKeepsOrder(es: seq<Entry>, i: nat, j: nat)
    requires i < j < |es| && es[i].order == es[j].order
    ensures Precedes(InBand(es, es[i].order), es[i], es[j])
  {
    var band := es[i].order;
    var tail := InBand(es[1..], band);
    if i > 0 {
      InBandKeepsOrder(es[1..], i - 1, j - 1);
      var p, q :| 0 <= p < q < |tail| && tail[p] == es[i] && tail[q] == es[j];
      var k := if es[0].order == band then 1 else 0;
      assert InBand(es, band)[p + k] == es[i] && InBand(es, band)[q + k] == es[j];
    } else {
      assert es[1..][j - 1] == es[j];
      BandMembers(es[1..], es[j]);
      var q :| 0 <= q < |tail| && tail[q] == es[j];
      assert InBand(es, band)[0] == es[0] && InBand(es, band)[q + 1] == es[j];
    }
  }

  lemma {:induction false} LastFirstPrecedes<T>(s: seq<T>, a: T, b: T)
    requires Precedes(LastFirst(s), a, b)
    ensures Precedes(s, b, a)
  {
    var r := LastFirst(s);
    var i, j :| 0 <= i < j < |r| && r[i] == a && r[j] == b;
    assert s[|s| - 1 - j] == b && s[|s| - 1 - i] == a;
  }

  lemma {:induction false} InBandIndicesAscend(es: seq<Entry>, band: int, a: Entry, b: Entry)
    requires forall i, j :: 0 <= i < j < |es| ==> es[i].index < es[j].index
    requires Precedes(InBand(es, band), a, b)
    ensures a.index < b.index && a in es && b in es
  {
    var s := InBand(es, band);
    var i, j :| 0 <= i < j < |s| && s[i] == a && s[j] == b;
    var tail := InBand(es[1..], band);
    if es[0].order == band && i == 0 {
      assert tail[j - 1] == b;
      BandIn(es[1..], band, b);
      var q :| 0 <= q < |es[1..]| && es[1..][q] == b;
      assert es[q + 1] == b;
    } else {
      var k := if es[0].order == band then 1 else 0;
      assert tail[i - k] == a && tail[j - k] == b;
      InBandIndicesAscend(es[1..], band, a, b);
      assert es == [es[0]] + es[1..];
    }
  }

  lemma {:induction false} BandIn(es: seq<Entry>, band: int, e: Entry)
    requires e in InBand(es, band)
    ensures e in es && e.order == band
  {
    if e in InBand(es[1..], band) {
      BandIn(es[1..], band, e);
      assert es == [es[0]] + es[1..];
    }
  }

  /** Services close strictly in the lexicographic order of ascending band, then descending
      registration: so every registered service is visited, and none twice. */
  lemma {:induction false} LexicographicOrder(services: seq<Service>, visited: seq<Entry>)
    requires ClosesInOrder(services, visited)
    ensures forall i, j :: 0 <= i < j < |visited| ==> ClosesBefore(visited[i], visited[j])
    ensures forall e :: e in visited <==> e in Entries(services)
    ensures forall i, j :: 0 <= i < j < |visited| ==> visited[i] != visited[j]
  {
    var es := Entries(services);
    forall i, j | 0 <= i < j < |visited|
      ensures ClosesBefore(visited[i], visited[j])
    {
      if visited[i].order == visited[j].order {
        var band := visited[i].order;
        InBandKeepsOrder(visited, i, j);
        LastFirstPrecedes(InBand(es, band), visited[i], visited[j]);
        InBandIndicesAscend(es, band, visited[j], visited[i]);
      }
    }
    forall e
      ensures e in visited <==> e in es
    {
      BandMembers(visited, e);
      BandMembers(es, e);
      LastFirstMembers(InBand(es, e.order), e);
    }
  }

  lemma {:induction false} MembersKept(visited: seq<Entry>)
    ensures forall e :: e in Closers(visited) <==> e in visited && e.svc.closer
    ensures forall e :: e in Failures(visited) <==> e in visited && e.svc.closer && !e.svc.ok
  {
    if visited != [] {
      MembersKept(visited[..|visited| - 1]);
      assert visited == visited[..|visited| - 1] + [visited[|visited| - 1]];
    }
  }

  lemma {:induction false} OrderKept(visited: seq<Entry>)
    requires StrictlyOrdered(visited)
    ensures StrictlyOrdered(Closers(visited)) && StrictlyOrdered(Failures(visited))
  {
    if visited != [] {
      var p, e := visited[..|visited| - 1], visited[|visited| - 1];
      OrderKept(p);
      MembersKept(p);
      forall x | x in p
        ensures ClosesBefore(x, e)
      {
        var i :| 0 <= i < |p| && p[i] == x;
        assert ClosesBefore(visited[i], visited[|visited| - 1]);
      }
      LastInOrder(Closers(p), e);
      LastInOrder(Failures(p), e);
    }
  }

  lemma {:induction false} LastInOrder(es: seq<Entry>, e: Entry)
    requires StrictlyOrdered(es) && forall x :: x in es ==> ClosesBefore(x, e)
    ensures StrictlyOrdered(es + [e]) && es + [] == es
  {
    forall i, j | 0 <= i < j < |es + [e]|
      ensures ClosesBefore((es + [e])[i], (es + [e])[j])
    {
      if j == |es| {
        assert es[i] in es;
      }
    }
  }

  lemma {:induction false} PromisedOrder(services: seq<Service>, es: seq<Entry>)
    requires StrictlyOrdered(es) && forall e :: e in es ==> e in Entries(services)
    ensures InPromisedOrder(es)
  {
    forall i | 0 <= i < |es|
      ensures es[i].order == if es[i].svc.band.Some? then es[i].svc.band.value else CLOSE_DEFAULT
    {
      assert es[i] in Entries(services);
    }
  }

  lemma {:induction false} ClosedAsPromised(services: seq<Service>, visited: seq<Entry>)
    requires ClosesInOrder(services, visited)
    ensures InPromisedOrder(visited) && InPromisedOrder(Closers(visited)) && InPromisedOrder(Failures(visited))
    ensures forall i :: 0 <= i < |services| ==> Visits(visited, i, services[i])
    ensures forall e :: e in visited ==> e.index < |services| && e.svc == services[e.index]
    ensures forall e :: e in Closers(visited) <==> e in visited && e.svc.closer
    ensures forall e :: e in Failures(visited) <==> e in visited && e.svc.closer && !e.svc.ok
  {
    var es := Entries(services);
    LexicographicOrder(services, visited);
    OrderKept(visited);
    MembersKept(visited);
    PromisedOrder(services, visited);
    PromisedOrder(services, Closers(visited));
    PromisedOrder(services, Failures(visited));
    forall i | 0 <= i < |services|
      ensures Visits(visited, i, services[i])
    {
      assert es[i] in es;
      assert es[i] in visited && es[i].index == i && es[i].svc == services[i];
    }
  }

  lemma {:induction false} InBandTail(es: seq<Entry>, band: int)
    requires es != []
    ensures InBand(es, band) == (if es[0].order == band then [es[0]] else []) + InBand(es[1..], band)
    ensures InBand(es[1..], band) == if es[0].order == band then InBand(es, band)[1..] else InBand(es, band)
  {
  }

  lemma {:induction false} InBandHead(es: seq<Entry>)
    requires es != []
    ensures InBand(es, es[0].order) != [] && InBand(es, es[0].order)[0] == es[0]
  {
  }

  lemma {:induction false} SameHead(a: seq<Entry>, b: seq<Entry>)
    requires Ascending(a) && Ascending(b) && a != [] && b != []
    requires InBand(a, a[0].order) == InBand(b, a[0].order)
    requires InBand(a, b[0].order) == InBand(b, b[0].order)
    ensures a[0] == b[0]
  {
    InBandHead(a);
    InBandHead(b);
    BandIn(b, a[0].order, a[0]);
    BandIn(a, b[0].order, b[0]);
    assert a[0].order == b[0].order;
  }

  /** The promise determines the order completely. */
  lemma {:induction false} OrderIsUnique(a: seq<Entry>, b: seq<Entry>)
    requires Ascending(a) && Ascending(b)
    requires forall band :: InBand(a, band) == InBand(b, band)
    ensures a == b
  {
    if b != [] {
      InBandTail(b, b[0].order);
    }
    if a != [] {
      InBandTail(a, a[0].order);
      SameHead(a, b);
      forall band
        ensures InBand(a[1..], band) == InBand(b[1..], band)
      {
        InBandTail(a, band);
        InBandTail(b, band);
      }
      OrderIsUnique(a[1..], b[1..]);
    }
  }

  ghost predicate StrictlyOrdered(es: seq<Entry>) {
    forall i, j :: 0 <= i < j < |es| ==> ClosesBefore(es[i], es[j])
  }

  /** A strict order leaves one way to line up given entries. */
  lemma {:induction false} LineupIsUnique(a: seq<Entry>, b: seq<Entry>)
    requires StrictlyOrdered(a) && StrictlyOrdered(b)
    requires forall e :: e in a <==> e in b
    ensures a == b
    decreases |a|
  {
    assert |b| > 0 ==> b[0] in b;
    if a != [] {
      assert a[0] in a && b != [];
      assert a[0] in b && b[0] in a;
      assert a[0] == b[0];
      assert forall e :: e in a[1..] <==> e in a && e != a[0] by {
        assert a == [a[0]] + a[1..];
      }
      assert forall e :: e in b[1..] <==> e in b && e != b[0] by {
        assert b == [b[0]] + b[1..];
      }
      LineupIsUnique(a[1..], b[1..]);
    }
  }

  /** The order services close in is the only one that visits every service and follows the lexicographic
      order: the reverse-then-stable-sort of the code computes that order and no other. */
  lemma {:induction false} CloseOrderIsTheLexicographic(services: seq<Service>, visited: seq<Entry>, other: seq<Entry>)
    requires ClosesInOrder(services, visited)
    ensures StrictlyOrdered(other) && (forall e :: e in other <==> e in Entries(services)) <==> other == visited
  {
    LexicographicOrder(services, visited);
    if StrictlyOrdered(other) && forall e :: e in other <==> e in Entries(services) {
      LineupIsUnique(other, visited);
    }
  }
}
