/**
 The Idempotency middleware (httpx/middleware/idempotency.go): the length-prefixed key it derives,
 and what a sequence of requests gets from it.

 SHA-256 is taken to be collision-free: a store key is the text that is hashed, and a body's
 fingerprint is the body. The handler, the clock and the store's failures are inputs of each call.
 */
module Idempotency {

  type Byte = b: int | 0 <= b < 256
  type Bytes = seq<Byte>

  const COLON: Byte := 58
  const DIGIT_ZERO: Byte := 48
  const UNPROCESSABLE := 422
  const BAD_REQUEST := 400

  // ----- The key -----

  /** A length in decimal, as "%d" prints it. */
  function Decimal(n: nat): (d: Bytes)
    ensures |d| > 0
    ensures forall i :: 0 <= i < |d| ==> DIGIT_ZERO <= d[i] < DIGIT_ZERO + 10
  {
    if n < 10 then [DIGIT_ZERO + n] else Decimal(n / 10) + [DIGIT_ZERO + n % 10]
  }

  function Number(d: Bytes): int {
    if d == [] then 0 else Number(d[..|d| - 1]) * 10 + (d[|d| - 1] - DIGIT_ZERO)
  }

  lemma {:induction false} DecimalReadsBack(n: nat)
    ensures Number(Decimal(n)) == n
  {
    var d := Decimal(n);
    if n < 10 {
      assert d[..0] == [];
    } else {
      DecimalReadsBack(n / 10);
      assert d[..|d| - 1] == Decimal(n / 10);
    }
  }

  /** The text hashed for a list of parts: each preceded by its length and a colon. */
  function Preimage(parts: seq<Bytes>): Bytes {
    if parts == [] then [] else Preimage(parts[..|parts| - 1]) + Framed(parts[|parts| - 1])
  }

  function Framed(part: Bytes): (f: Bytes)
    ensures |f| > 0
  {
    Decimal(|part|) + [COLON] + part
  }

  lemma {:induction false} PreimageFirst(parts: seq<Bytes>)
    requires parts != []
    ensures Preimage(parts) == Framed(parts[0]) + Preimage(parts[1..])
  {
    var last := parts[|parts| - 1];
    if |parts| == 1 {
      assert parts[..0] == [] && parts[1..] == [];
      assert Preimage(parts) == [] + Framed(parts[0]);
    } else {
      PreimageFirst(parts[..|parts| - 1]);
      assert parts[..|parts| - 1][1..] == parts[1..][..|parts[1..]| - 1];
      assert parts[1..][|parts[1..]| - 1] == last;
      Associative(Framed(parts[0]), Preimage(parts[..|parts| - 1][1..]), Framed(last));
    }
  }

  lemma {:induction false} Associative(a: Bytes, b: Bytes, c: Bytes)
    ensures (a + b) + c == a + (b + c)
  {
  }

  /** A number followed by a colon ends at that colon. */
  lemma {:induction false} FrameEnds(a: Bytes, b: Bytes, x: Bytes, y: Bytes)
    requires forall i :: 0 <= i < |a| ==> a[i] != COLON
    requires forall i :: 0 <= i < |b| ==> b[i] != COLON
    requires a + [COLON] + x == b + [COLON] + y
    ensures a == b && x == y
  {
    var s, t := a + [COLON] + x, b + [COLON] + y;
    assert s[|a|] == COLON && t[|b|] == COLON;
    assert |a| == |b|;
    assert s[..|a|] == a && t[..|a|] == b;
    assert s[|a| + 1..] == x && t[|a| + 1..] == y;
  }

  lemma {:induction false} FramedSplits(p: Bytes, q: Bytes, x: Bytes, y: Bytes)
    requires Framed(p) + x == Framed(q) + y
    ensures p == q && x == y
  {
    var dp, dq := Decimal(|p|), Decimal(|q|);
    Associative(dp + [COLON], p, x);
    Associative(dq + [COLON], q, y);
    FrameEnds(dp, dq, p + x, q + y);
    DecimalReadsBack(|p|);
    DecimalReadsBack(|q|);
    assert |p| == |q|;
    assert (p + x)[..|p|] == p && (q + y)[..|p|] == q;
    assert (p + x)[|p|..] == x && (q + y)[|p|..] == y;
  }

  /** No choice of parts collides with another: the hashed text determines the list. */
  lemma {:induction false} PreimageInjective(a: seq<Bytes>, b: seq<Bytes>)
    requires Preimage(a) == Preimage(b)
    ensures a == b
    decreases |a|
  {
    if a != [] {
      PreimageFirst(a);
    }
    if b != [] {
      PreimageFirst(b);
    }
    if a != [] && b != [] {
      FramedSplits(a[0], b[0], Preimage(a[1..]), Preimage(b[1..]));
      PreimageInjective(a[1..], b[1..]);
      assert a == [a[0]] + a[1..] && b == [b[0]] + b[1..];
    }
  }

  method IdempotencyKey(parts: seq<Bytes>) returns (text: Bytes)
    ensures text == Preimage(parts)
  {
    text := [];
    for i := 0 to |parts|
      invariant text == Preimage(parts[..i])
    {
      assert parts[..i + 1][..i] == parts[..i];
      text := text + (Decimal(|parts[i]|) + [COLON] + parts[i]);
    }
    assert parts[..|parts|] == parts;
  }

  // ----- Serving one request -----

  datatype Request = Request(scope: Bytes, verb: Bytes, uri: Bytes, key: Bytes, body: Bytes)

  /** What the handler produced; `errors` says it recorded one with c.Error. */
  datatype Handled = Handled(status: int, contentType: string, body: Bytes, errors: bool)

  datatype Stored = Stored(status: int, contentType: string, body: Bytes, fingerprint: Bytes, expiresAt: int)

  /** A response of the handler's making, replayed or not; the refusal of a reused key; or the error
      recorded for an unreadable request body. */
  datatype Reply =
    | Response(status: int, contentType: string, body: Bytes, replayed: bool)
    | KeyReused
    | Unreadable
  {
    /** The status the client sees; an unreadable body is rendered as a bad request. */
    function Status(): int {
      match this
      case Response(status, _, _, _) => status
      case KeyReused => UNPROCESSABLE
      case Unreadable => BAD_REQUEST
    }
  }

  /** The circumstances of one call: whether the request body could be read, whether the store's read
      and write succeed, the times of the look-up and of the write, and what the handler will produce if
      it is run. */
  datatype Circumstances = Circumstances(bodyOk: bool, readOk: bool, writeOk: bool, now: int, storedAt: int, handled: Handled)

  datatype Served = Served(reply: Reply, ran: bool, stores: bool)

  /** A time to live; the option that sets it ignores anything not positive. */
  type Lifetime = t: int | t > 0 witness 1

  datatype Config = Config(verbs: set<Bytes>, ttl: Lifetime)

  type Store = map<Bytes, Stored>

  function Identity(r: Request): seq<Bytes> {
    [r.scope, r.verb, r.uri, r.key]
  }

  function StoreKey(r: Request): Bytes {
    Preimage(Identity(r))
  }

  predicate Guarded(c: Config, r: Request) {
    r.verb in c.verbs && r.key != []
  }

  predicate Storable(h: Handled) {
    !h.errors && h.status < 500
  }

  /** `again` is `first` served from the store: same status, content type and bytes. */
  predicate Repeats(again: Reply, first: Reply) {
    first.Response? && again == first.(replayed := true)
  }

  function Plain(h: Handled): Reply {
    Response(h.status, h.contentType, h.body, false)
  }

  /** The stored answer to a repeated request: its own response again, or a refusal if the body differs. */
  function Replay(e: Stored, r: Request): Reply {
    if e.fingerprint == r.body then Response(e.status, e.contentType, e.body, true) else KeyReused
  }

  predicate Found(s: Store, r: Request, w: Circumstances) {
    w.readOk && StoreKey(r) in s && w.now <= s[StoreKey(r)].expiresAt
  }

  function Serve(c: Config, s: Store, r: Request, w: Circumstances): Served {
    if !Guarded(c, r) then Served(Plain(w.handled), true, false)
    else if !w.bodyOk then Served(Unreadable, false, false)
    else if Found(s, r, w) then Served(Replay(s[StoreKey(r)], r), false, false)
    else Served(Plain(w.handled), true, Storable(w.handled) && w.writeOk)
  }

  function StoreAfter(c: Config, s: Store, r: Request, w: Circumstances): Store {
    if Serve(c, s, r, w).stores then
      s[StoreKey(r) := Stored(w.handled.status, w.handled.contentType, w.handled.body, r.body, w.storedAt + c.ttl)]
    else s
  }

  /** The middleware over its store. */
  class Middleware {
    const config: Config
    var store: Store

    constructor (config: Config)
      ensures this.config == config && store == map[]
    {
      this.config := config;
      store := map[];
    }

    method Handle(r: Request, w: Circumstances) returns (reply: Reply, ran: bool)
      modifies this
      ensures reply == Serve(config, old(store), r, w).reply && ran == Serve(config, old(store), r, w).ran
      ensures store == StoreAfter(config, old(store), r, w)
    {
      if r.verb !in config.verbs || r.key == [] {
        return Plain(w.handled), true;
      }
      if !w.bodyOk {
        return Unreadable, false;
      }
      var storeKey := IdempotencyKey([r.scope, r.verb, r.uri, r.key]);
      if w.readOk && storeKey in store && w.now <= store[storeKey].expiresAt {
        var stored := store[storeKey];
        if stored.fingerprint != r.body {
          return KeyReused, false;
        }
        return Response(stored.status, stored.contentType, stored.body, true), false;
      }
      if !w.handled.errors && w.handled.status < 500 && w.writeOk {
        store := store[storeKey :=
          Stored(w.handled.status, w.handled.contentType, w.handled.body, r.body, w.storedAt + config.ttl)];
      }
      return Plain(w.handled), true;
    }
  }

  // ----- Sequences of requests -----

  datatype Call = Call(request: Request, world: Circumstances)

  function StoreBefore(c: Config, run: seq<Call>, i: nat): Store
    requires i <= |run|
  {
    if i == 0 then map[]
    else StoreAfter(c, StoreBefore(c, run, i - 1), run[i - 1].request, run[i - 1].world)
  }

  function ServedAt(c: Config, run: seq<Call>, i: nat): Served
    requires i < |run|
  {
    Serve(c, StoreBefore(c, run, i), run[i].request, run[i].world)
  }

  /** Between calls `i` and `j` the clock does not go back and the store answers reads for this key. */
  ghost predicate Faithful(run: seq<Call>, i: nat, j: nat)
    requires i <= j < |run|
  {
    forall m :: i <= m <= j ==>
      && run[m].world.now <= run[j].world.now
      && (Identity(run[m].request) == Identity(run[i].request) && m > i ==> run[m].world.readOk)
  }

  lemma {:induction false} EntrySurvives(c: Config, run: seq<Call>, i: nat, m: nat, e: Stored)
    requires i < m <= |run| && ServedAt(c, run, i).stores
    requires StoreBefore(c, run, i + 1) == StoreBefore(c, run, i)[StoreKey(run[i].request) := e]
    requires forall n :: i < n < m ==> run[n].world.now <= e.expiresAt
                                       && (Identity(run[n].request) == Identity(run[i].request) ==> run[n].world.readOk)
    ensures StoreKey(run[i].request) in StoreBefore(c, run, m)
            && StoreBefore(c, run, m)[StoreKey(run[i].request)] == e
  {
    if i + 1 < m {
      EntrySurvives(c, run, i, m - 1, e);
      var r := run[m - 1].request;
      if StoreKey(r) == StoreKey(run[i].request) {
        PreimageInjective(Identity(r), Identity(run[i].request));
      }
    }
  }

  /** Once a response is stored, the handler never runs again for that caller, method, URI and key
      while the entry is unexpired: the same body gets the identical status, type and bytes back, a
      different body a 422. Requests that differ in any of the four are not affected by it. */
  lemma {:induction false} ReplayedForever(c: Config, run: seq<Call>, i: nat, j: nat)
    requires i < j < |run| && Faithful(run, i, j)
    requires ServedAt(c, run, i).stores
    requires Identity(run[j].request) == Identity(run[i].request)
    requires run[j].world.bodyOk && run[j].world.now <= run[i].world.storedAt + c.ttl
    ensures !ServedAt(c, run, j).ran && !ServedAt(c, run, j).stores
    ensures run[j].request.body == run[i].request.body ==>
              Repeats(ServedAt(c, run, j).reply, ServedAt(c, run, i).reply)
    ensures run[j].request.body != run[i].request.body ==> ServedAt(c, run, j).reply.Status() == UNPROCESSABLE
  {
    var h := run[i].world.handled;
    var e := Stored(h.status, h.contentType, h.body, run[i].request.body, run[i].world.storedAt + c.ttl);
    EntrySurvives(c, run, i, j, e);
  }

  /** So at most one execution per identity leaves its mark: a second storing call would need the
      first entry to have expired. */
  lemma {:induction false} StoredAtMostOnce(c: Config, run: seq<Call>, i: nat, j: nat)
    requires i < j < |run| && Faithful(run, i, j)
    requires ServedAt(c, run, i).stores && ServedAt(c, run, j).stores
    requires Identity(run[j].request) == Identity(run[i].request)
    ensures run[j].world.now > run[i].world.storedAt + c.ttl
  {
    if run[j].world.now <= run[i].world.storedAt + c.ttl {
      ReplayedForever(c, run, i, j);
    }
  }

  /** Nothing is replayed out of thin air: every replayed reply is the reply of an earlier call of the
      same identity and body, whose handler ran. */
  lemma {:induction false} ReplayHasOrigin(c: Config, run: seq<Call>, j: nat) returns (i: nat)
    requires j < |run| && Guarded(c, run[j].request) && run[j].world.bodyOk && !ServedAt(c, run, j).ran
    ensures i < j && Identity(run[i].request) == Identity(run[j].request)
    ensures ServedAt(c, run, i).ran && ServedAt(c, run, i).stores
    ensures run[i].request.body == run[j].request.body ==>
              Repeats(ServedAt(c, run, j).reply, ServedAt(c, run, i).reply)
  {
    i := EntryOrigin(c, run, j, StoreKey(run[j].request));
    PreimageInjective(Identity(run[i].request), Identity(run[j].request));
  }

  lemma {:induction false} EntryOrigin(c: Config, run: seq<Call>, j: nat, k: Bytes) returns (i: nat)
    requires j <= |run| && k in StoreBefore(c, run, j)
    ensures i < j && StoreKey(run[i].request) == k && ServedAt(c, run, i).ran && ServedAt(c, run, i).stores
    ensures var h := run[i].world.handled;
            StoreBefore(c, run, j)[k]
            == Stored(h.status, h.contentType, h.body, run[i].request.body, run[i].world.storedAt + c.ttl)
  {
    var last := run[j - 1];
    if ServedAt(c, run, j - 1).stores && StoreKey(last.request) == k {
      i := j - 1;
    } else {
      i := EntryOrigin(c, run, j - 1, k);
    }
  }

  // ----- Exactly what every request gets -----

  /** The same caller, method, URI and key. */
  predicate SameRequest(a: Request, b: Request) {
    a.scope == b.scope && a.verb == b.verb && a.uri == b.uri && a.key == b.key
  }

  lemma {:induction false} SameStoreKey(a: Request, b: Request)
    ensures StoreKey(a) == StoreKey(b) <==> SameRequest(a, b)
  {
    if StoreKey(a) == StoreKey(b) {
      PreimageInjective(Identity(a), Identity(b));
      assert Identity(a)[0] == a.scope && Identity(a)[1] == a.verb && Identity(a)[2] == a.uri && Identity(a)[3] == a.key;
      assert Identity(b)[0] == b.scope && Identity(b)[1] == b.verb && Identity(b)[2] == b.uri && Identity(b)[3] == b.key;
    }
  }

  /** The response of call `i` is kept: its method and key are covered, the handler ran without recording an
      error and below 500, and the store took it. */
  ghost predicate Keeps(c: Config, run: seq<Call>, i: nat)
    requires i < |run|
  {
    var r, w := run[i].request, run[i].world;
    && r.verb in c.verbs && r.key != [] && w.bodyOk && ServedAt(c, run, i).ran
    && !w.handled.errors && w.handled.status < 500 && w.writeOk
  }

  /** Call `i` is the last before `j` whose response is kept for the request of `j`. */
  ghost predicate LastKept(c: Config, run: seq<Call>, i: nat, j: nat, r: Request)
    requires j <= |run|
  {
    && i < j && Keeps(c, run, i) && SameRequest(run[i].request, r)
    && forall m :: i < m < j && SameRequest(run[m].request, r) ==> !Keeps(c, run, m)
  }

  /** What the store holds for a request: the response last kept for it. */
  lemma {:induction false} StoreHolds(c: Config, run: seq<Call>, j: nat, r: Request)
    requires j <= |run|
    ensures StoreKey(r) in StoreBefore(c, run, j) <==> exists i: nat :: LastKept(c, run, i, j, r)
    ensures forall i: nat :: LastKept(c, run, i, j, r) ==>
              var h := run[i].world.handled;
              StoreKey(r) in StoreBefore(c, run, j)
              && StoreBefore(c, run, j)[StoreKey(r)]
                 == Stored(h.status, h.contentType, h.body, run[i].request.body, run[i].world.storedAt + c.ttl)
    decreases j
  {
    if j > 0 {
      StoreHolds(c, run, j - 1, r);
      SameStoreKey(run[j - 1].request, r);
      StoresWhenKept(c, run, j - 1);
      LastKeptStep(c, run, j, r);
      if StoreKey(r) in StoreBefore(c, run, j) {
        var i: nat := j - 1;
        if !(Keeps(c, run, j - 1) && SameRequest(run[j - 1].request, r)) {
          i :| LastKept(c, run, i, j - 1, r);
        }
        assert LastKept(c, run, i, j, r);
      }
    }
  }

  lemma {:induction false} StoresWhenKept(c: Config, run: seq<Call>, i: nat)
    requires i < |run|
    ensures ServedAt(c, run, i).stores <==> Keeps(c, run, i)
  {
  }

  lemma {:induction false} LastKeptStep(c: Config, run: seq<Call>, j: nat, r: Request)
    requires 0 < j <= |run|
    ensures forall i: nat :: LastKept(c, run, i, j, r) <==>
              if Keeps(c, run, j - 1) && SameRequest(run[j - 1].request, r) then i == j - 1 else LastKept(c, run, i, j - 1, r)
  {
  }

  /** Exactly what request `j` of any sequence gets. Without a key, or with a method that is not covered, the
      handler answers and nothing is kept. An unreadable body is refused. Otherwise the response last kept for
      the same caller, method, URI and key is replayed while it is unexpired and the store can be read, with a
      422 instead if the body differs; and if there is none the handler answers. */
  lemma {:induction false} AnswerExact(c: Config, run: seq<Call>, j: nat)
    requires j < |run|
    ensures var r, w, served := run[j].request, run[j].world, ServedAt(c, run, j);
            var own := Response(w.handled.status, w.handled.contentType, w.handled.body, false);
            if r.verb !in c.verbs || r.key == [] then
              served.ran && served.reply == own && !served.stores
            else if !w.bodyOk then
              !served.ran && served.reply.Status() == BAD_REQUEST && !served.stores
            else if i: nat :| w.readOk && LastKept(c, run, i, j, r) && w.now <= run[i].world.storedAt + c.ttl then
              var h := run[i].world.handled;
              && !served.ran && !served.stores
              && served.reply == if run[i].request.body == r.body then Response(h.status, h.contentType, h.body, true) else KeyReused
            else
              served.ran && served.reply == own
              && (served.stores <==> !w.handled.errors && w.handled.status < 500 && w.writeOk)
  {
    StoreHolds(c, run, j, run[j].request);
  }
}
