/**
 The Timeout middleware (httpx/middleware/timeout.go): a handler writes into a buffer while a
 watcher races it with a 503, and a deferred finisher settles which of the two the client gets.

 `TimeoutWriter` is the mutex-guarded writer. A run interleaves, in any order the code allows, the
 handler's calls, the context ending, the watcher's two branches, the finisher's steps and whatever
 upstream middleware writes afterwards. The main result gives the bytes, status and headers on the
 connection at the end of every run.
 */
module Timeout {

  import opened Options

  type Bytes = seq<nat>
  type Headers = map<string, seq<string>>

  const CONTENT_TYPE := "Content-Type"
  const TIMEOUT_TYPE := ["application/json; charset=utf-8"]
  const UNAVAILABLE := 503
  const OK := 200

  /** What the client has been sent so far: status line and headers leave together, at the first
      body byte or flush, and are final from then on. */
  datatype Head = Head(status: int, headers: Headers)

  datatype Connection = Connection(status: int, headers: Headers, sent: Option<Head>, body: Bytes) {
    function SetStatus(code: int): Connection {
      if code > 0 && sent.None? then this.(status := code) else this
    }

    function SetHeaders(h: Headers): Connection {
      this.(headers := h)
    }

    function Flush(): Connection {
      if sent.None? then this.(sent := Some(Head(status, headers))) else this
    }

    function Write(b: Bytes): Connection {
      Flush().(body := body + b)
    }

    /** The head the client ends up with once the server closes the response. */
    function FinalHead(): Head {
      if sent.Some? then sent.value else Head(status, headers)
    }
  }

  function Untouched(h: Headers): Connection {
    Connection(OK, h, None, [])
  }

  datatype Mode = Buffering | Passthrough | TimedOut

  datatype Writer = Writer(mode: Mode, code: int, buf: Bytes, headers: Headers, conn: Connection)

  datatype HeaderEdit = Set(name: string, values: seq<string>) | Delete(name: string)

  function Edit(h: Headers, e: HeaderEdit): Headers {
    match e
    case Set(name, values) => h[name := values]
    case Delete(name) => h - {name}
  }

  // ----- The writer's operations -----

  function Opened(conn: Connection): Writer {
    Writer(Buffering, OK, [], conn.headers, conn)
  }

  function HeaderEdited(w: Writer, e: HeaderEdit): Writer {
    if w.mode == Passthrough then w.(conn := w.conn.SetHeaders(Edit(w.conn.headers, e)))
    else w.(headers := Edit(w.headers, e))
  }

  function StatusSet(w: Writer, code: int): Writer {
    match w.mode
    case TimedOut => w
    case Passthrough => w.(conn := w.conn.SetStatus(code))
    case Buffering => w.(code := code)
  }

  function Written(w: Writer, b: Bytes): Writer {
    match w.mode
    case TimedOut => w
    case Passthrough => w.(conn := w.conn.Write(b))
    case Buffering => w.(buf := w.buf + b)
  }

  function Flushed(w: Writer): Writer {
    if w.mode == Passthrough then w.(conn := w.conn.Flush()) else w
  }

  function Committed(w: Writer): Writer {
    if w.mode != Buffering then w
    else
      var c := w.conn.SetHeaders(w.headers).SetStatus(w.code);
      w.(mode := Passthrough, conn := if |w.buf| > 0 then c.Write(w.buf) else c)
  }

  function TimeoutWritten(w: Writer, message: Bytes): Writer {
    if w.mode != Buffering then w
    else
      w.(mode := TimedOut, code := UNAVAILABLE,
         conn := w.conn.SetHeaders(w.conn.headers[CONTENT_TYPE := TIMEOUT_TYPE])
                       .SetStatus(UNAVAILABLE).Write(message).Flush())
  }

  function PassthroughEnabled(w: Writer): Writer {
    if w.mode != Buffering then w else w.(buf := [], mode := Passthrough)
  }

  /** The writer object. Each method is one critical section under its mutex; `conn` is the
      connection's own writer it embeds. */
  class TimeoutWriter {
    const message: Bytes // the body of the 503
    var mode: Mode
    var code: int
    var buf: Bytes
    var headers: Headers
    var conn: Connection

    function View(): Writer
      reads this
    {
      Writer(mode, code, buf, headers, conn)
    }

    constructor (conn: Connection, message: Bytes)
      ensures View() == Opened(conn) && this.message == message
    {
      this.message := message;
      this.mode, this.code, this.buf, this.headers, this.conn := Buffering, OK, [], conn.headers, conn;
    }

    /** A handler editing the map that `Header` returns. */
    method EditHeader(e: HeaderEdit)
      modifies this
      ensures View() == HeaderEdited(old(View()), e)
    {
      if mode == Passthrough {
        conn := conn.SetHeaders(Edit(conn.headers, e));
      } else {
        headers := Edit(headers, e);
      }
    }

    method WriteHeader(code: int)
      modifies this
      ensures View() == StatusSet(old(View()), code)
    {
      match mode
      case TimedOut =>
      case Passthrough => conn := conn.SetStatus(code);
      case Buffering => this.code := code;
    }

    /** Every write is acknowledged in full, the discarded ones included. */
    method Write(b: Bytes) returns (n: nat)
      modifies this
      ensures n == |b|
      ensures View() == Written(old(View()), b)
    {
      match mode {
        case TimedOut =>
        case Passthrough => conn := conn.Write(b);
        case Buffering => buf := buf + b;
      }
      n := |b|;
    }

    method Flush()
      modifies this
      ensures View() == Flushed(old(View()))
    {
      if mode == Passthrough {
        conn := conn.Flush();
      }
    }

    method Commit()
      modifies this
      ensures View() == Committed(old(View()))
    {
      if mode != Buffering {
        return;
      }
      mode := Passthrough;
      conn := conn.SetHeaders(headers);
      conn := conn.SetStatus(code);
      if |buf| > 0 {
        conn := conn.Write(buf);
      }
    }

    method WriteTimeout()
      modifies this
      ensures View() == TimeoutWritten(old(View()), message)
    {
      if mode != Buffering {
        return;
      }
      mode := TimedOut;
      code := UNAVAILABLE;
      conn := conn.SetHeaders(conn.headers[CONTENT_TYPE := TIMEOUT_TYPE]);
      conn := conn.SetStatus(UNAVAILABLE);
      conn := conn.Write(message);
      conn := conn.Flush();
    }

    method EnablePassthrough()
      modifies this
      ensures View() == PassthroughEnabled(old(View()))
    {
      if mode != Buffering {
        return;
      }
      buf := [];
      mode := Passthrough;
    }
  }

  // ----- Runs -----

  datatype HandlerPhase = Running | Returned | Panicked

  /** The deferred finisher: `expired` is decided first, then `done` is closed, the watcher joined
      (and the 503 written if expired), and last the response settled. */
  datatype FinisherPhase = NotYet | Decided(expired: bool) | Closing(expired: bool) | Joined | Ended

  datatype System = System(
    writer: Writer,
    ctxDone: bool,       // the deadline passed or the parent context was cancelled
    watching: bool,      // the watcher has not left its select
    handler: HandlerPhase,
    finisher: FinisherPhase)

  /** Why the request context ends: its own timeout, or the request it belongs to being cancelled. */
  datatype Cause = DeadlinePassed | ParentCancelled

  datatype Event =
    | HandlerEdits(edit: HeaderEdit)
    | HandlerStatus(code: int)
    | HandlerWrites(b: Bytes)
    | HandlerFlushes
    | HandlerReturns
    | HandlerPanics
    | ContextEnds(cause: Cause)
    | WatcherTimesOut
    | WatcherRetires
    | Decide(late: bool) // late: the clock is past the deadline though the context has not fired
    | CloseDone
    | Join
    | Settle
    | UpstreamEdits(edit: HeaderEdit)
    | UpstreamStatus(code: int)
    | UpstreamWrites(b: Bytes)

  ghost predicate Enabled(s: System, e: Event) {
    match e
    case HandlerEdits(_) => s.handler == Running
    case HandlerStatus(_) => s.handler == Running
    case HandlerWrites(_) => s.handler == Running
    case HandlerFlushes => s.handler == Running
    case HandlerReturns => s.handler == Running
    case HandlerPanics => s.handler == Running
    case ContextEnds(_) => true
    case WatcherTimesOut => s.watching && s.ctxDone
    case WatcherRetires => s.watching && s.finisher.Closing?
    case Decide(_) => s.handler != Running && s.finisher.NotYet?
    case CloseDone => s.finisher.Decided?
    case Join => s.finisher.Closing? && !s.watching
    case Settle => s.finisher.Joined?
    case UpstreamEdits(_) => s.finisher.Ended?
    case UpstreamStatus(_) => s.finisher.Ended?
    case UpstreamWrites(_) => s.finisher.Ended?
  }

  ghost function Apply(s: System, e: Event, message: Bytes): System
    requires Enabled(s, e)
  {
    var w := s.writer;
    match e
    case HandlerEdits(edit) => s.(writer := HeaderEdited(w, edit))
    case HandlerStatus(code) => s.(writer := StatusSet(w, code))
    case HandlerWrites(b) => s.(writer := Written(w, b))
    case HandlerFlushes => s.(writer := Flushed(w))
    case HandlerReturns => s.(handler := Returned)
    case HandlerPanics => s.(handler := Panicked)
    case ContextEnds(_) => s.(ctxDone := true)
    case WatcherTimesOut => s.(watching := false, writer := TimeoutWritten(w, message))
    case WatcherRetires => s.(watching := false)
    case Decide(late) => s.(finisher := Decided(s.ctxDone || late))
    case CloseDone => s.(finisher := Closing(s.finisher.expired))
    case Join =>
      s.(finisher := Joined, writer := if s.finisher.expired then TimeoutWritten(w, message) else w)
    case Settle =>
      s.(finisher := Ended, writer := if s.handler == Panicked then PassthroughEnabled(w) else Committed(w))
    case UpstreamEdits(edit) => s.(writer := HeaderEdited(w, edit))
    case UpstreamStatus(code) => s.(writer := StatusSet(w, code))
    case UpstreamWrites(b) => s.(writer := Written(w, b))
  }

  ghost predicate Valid(h: Headers, message: Bytes, run: seq<Event>)
    decreases |run|, 0
  {
    run == [] ||
    var p := run[..|run| - 1];
    Valid(h, message, p) && Enabled(After(h, message, p), run[|run| - 1])
  }

  ghost function After(h: Headers, message: Bytes, run: seq<Event>): System
    requires Valid(h, message, run)
    decreases |run|, 1
  {
    if run == [] then System(Opened(Untouched(h)), false, true, Running, NotYet)
    else Apply(After(h, message, run[..|run| - 1]), run[|run| - 1], message)
  }

  // ----- What the handler and upstream asked for, read off the run -----

  /** The last status the handler set, 200 if none. */
  function AskedStatus(run: seq<Event>): int {
    if run == [] then OK
    else if run[|run| - 1].HandlerStatus? then run[|run| - 1].code
    else AskedStatus(run[..|run| - 1])
  }

  /** Everything the handler wrote, in order. */
  function AskedBody(run: seq<Event>): Bytes {
    if run == [] then []
    else
      AskedBody(run[..|run| - 1]) + (if run[|run| - 1].HandlerWrites? then run[|run| - 1].b else [])
  }

  /** The initial headers with the handler's edits. */
  function AskedHeaders(h: Headers, run: seq<Event>): Headers {
    if run == [] then h
    else
      var prior := AskedHeaders(h, run[..|run| - 1]);
      if run[|run| - 1].HandlerEdits? then Edit(prior, run[|run| - 1].edit) else prior
  }

  /** Upstream's calls made directly on a connection. */
  function Upstream(c: Connection, run: seq<Event>): Connection {
    if run == [] then c
    else
      var prior := Upstream(c, run[..|run| - 1]);
      match run[|run| - 1]
      case UpstreamEdits(edit) => prior.SetHeaders(Edit(prior.headers, edit))
      case UpstreamStatus(code) => prior.SetStatus(code)
      case UpstreamWrites(b) => prior.Write(b)
      case _ => prior
  }

  /** The context ended somewhere in the run, for either cause. */
  predicate ContextEnded(run: seq<Event>) {
    exists i :: 0 <= i < |run| && run[i].ContextEnds?
  }

  /** The deadline won: the watcher took its timeout branch, or the finisher saw the context ended
      or the clock past the deadline. */
  predicate DeadlineWon(run: seq<Event>) {
    run != [] &&
    var p, e := run[..|run| - 1], run[|run| - 1];
    DeadlineWon(p) || e.WatcherTimesOut? || (e.Decide? && (e.late || ContextEnded(p)))
  }

  /** The complete 503, a function of the headers present before the handler ran. */
  function TimeoutResponse(h: Headers, message: Bytes): Connection {
    var hs := h[CONTENT_TYPE := TIMEOUT_TYPE];
    Connection(UNAVAILABLE, hs, Some(Head(UNAVAILABLE, hs)), message)
  }

  /** The handler's response sent by itself. */
  function HandlerResponse(h: Headers, run: seq<Event>): Connection {
    var c := Untouched(AskedHeaders(h, run)).SetStatus(AskedStatus(run));
    if AskedBody(run) == [] then c else c.Write(AskedBody(run))
  }

  // ----- The invariant -----

  ghost predicate Inv(h: Headers, message: Bytes, run: seq<Event>, s: System) {
    && (s.ctxDone <==> ContextEnded(run))
    && (s.finisher != NotYet ==> s.handler != Running)
    && (s.finisher.Joined? || s.finisher.Ended? ==> !s.watching)
    && (s.writer.mode == Passthrough ==> s.finisher == Ended)
    && (s.finisher == Ended ==> s.writer.mode != Buffering)
    && (DeadlineWon(run) <==> s.writer.mode == TimedOut
                              || ((s.finisher.Decided? || s.finisher.Closing?) && s.finisher.expired))
    && ContentInv(h, message, run, s)
  }

  ghost predicate ContentInv(h: Headers, message: Bytes, run: seq<Event>, s: System) {
    match s.writer.mode
    case Buffering =>
      && s.writer == Writer(Buffering, AskedStatus(run), AskedBody(run), AskedHeaders(h, run), Untouched(h))
      && (forall c: Connection :: Upstream(c, run) == c)
    case TimedOut =>
      s.writer.conn == TimeoutResponse(h, message)
    case Passthrough =>
      s.writer.conn == Upstream(if s.handler == Panicked then Untouched(h) else HandlerResponse(h, run), run)
  }

  lemma {:induction false} ContentKept(h: Headers, message: Bytes, run: seq<Event>, s: System, e: Event)
    requires Inv(h, message, run, s) && Enabled(s, e)
    ensures ContentInv(h, message, run + [e], Apply(s, e, message))
  {
    var run' := run + [e];
    assert run'[..|run'| - 1] == run;
    if s.handler != Running {
      assert AskedBody(run') == AskedBody(run);
      assert HandlerResponse(h, run') == HandlerResponse(h, run);
    }
  }

  lemma {:induction false} ContextEndedStep(run: seq<Event>, e: Event)
    ensures ContextEnded(run + [e]) <==> ContextEnded(run) || e.ContextEnds?
  {
    if ContextEnded(run) {
      var i :| 0 <= i < |run| && run[i].ContextEnds?;
      assert (run + [e])[i].ContextEnds?;
    }
    assert (run + [e])[|run|] == e;
  }

  lemma {:induction false} EveryRun(h: Headers, message: Bytes, run: seq<Event>)
    requires Valid(h, message, run)
    ensures Inv(h, message, run, After(h, message, run))
    decreases |run|
  {
    if run != [] {
      var p, e := run[..|run| - 1], run[|run| - 1];
      EveryRun(h, message, p);
      assert p + [e] == run;
      ContextEndedStep(p, e);
      ContentKept(h, message, p, After(h, message, p), e);
    }
  }

  /** How far handler and finisher are, read off the run: the handler returns or panics at most once, the
      finisher starts after that, and the response is settled by its last step. */
  lemma {:induction false} Phases(h: Headers, message: Bytes, run: seq<Event>)
    requires Valid(h, message, run)
    ensures var s := After(h, message, run);
            && (s.handler == Running <==> HandlerReturns !in run && HandlerPanics !in run)
            && (s.handler == Returned <==> HandlerReturns in run) && (s.handler == Panicked <==> HandlerPanics in run)
            && (s.finisher == Ended <==> Settle in run)
    decreases |run|
  {
    if run != [] {
      var p, e := run[..|run| - 1], run[|run| - 1];
      Phases(h, message, p);
      EveryRun(h, message, p);
      assert run == p + [e];
      PhaseStep(h, message, p, e);
    }
  }

  lemma {:induction false} PhaseStep(h: Headers, message: Bytes, p: seq<Event>, e: Event)
    requires Valid(h, message, p) && Enabled(After(h, message, p), e) && Inv(h, message, p, After(h, message, p))
    requires var s := After(h, message, p);
             && (s.handler == Running <==> HandlerReturns !in p && HandlerPanics !in p)
             && (s.handler == Returned <==> HandlerReturns in p) && (s.handler == Panicked <==> HandlerPanics in p)
             && (s.finisher == Ended <==> Settle in p)
    ensures var s := Apply(After(h, message, p), e, message);
            && (s.handler == Running <==> HandlerReturns !in p + [e] && HandlerPanics !in p + [e])
            && (s.handler == Returned <==> HandlerReturns in p + [e]) && (s.handler == Panicked <==> HandlerPanics in p + [e])
            && (s.finisher == Ended <==> Settle in p + [e])
  {
  }

  // ----- What the client gets -----

  /** In every finished run the connection carries exactly one of three things: the complete 503,
      untouched by handler or upstream, precisely when the deadline won; otherwise the handler's
      response followed by what upstream added; or, after a panic, upstream's writes alone, as if
      the handler had never written. */
  lemma {:induction false} ClientResponse(h: Headers, message: Bytes, run: seq<Event>)
    requires Valid(h, message, run) && Settle in run
    ensures After(h, message, run).writer.conn ==
              if DeadlineWon(run) then TimeoutResponse(h, message)
              else if HandlerPanics in run then Upstream(Untouched(h), run)
              else Upstream(HandlerResponse(h, run), run)
  {
    EveryRun(h, message, run);
    Phases(h, message, run);
  }

  /** The status line and headers a client finally reads, when upstream adds nothing after a clean
      return: the handler's own, with its body byte for byte. */
  lemma {:induction false} HandlerResponseIntact(h: Headers, message: Bytes, run: seq<Event>)
    requires Valid(h, message, run) && Settle in run && HandlerReturns in run && !DeadlineWon(run)
    requires forall c: Connection :: Upstream(c, run) == c
    requires AskedStatus(run) > 0
    ensures var c := After(h, message, run).writer.conn;
            c.FinalHead() == Head(AskedStatus(run), AskedHeaders(h, run)) && c.body == AskedBody(run)
  {
    ClientResponse(h, message, run);
    Phases(h, message, run);
  }

  /** Everything upstream wrote, in order. */
  function UpstreamBody(run: seq<Event>): Bytes {
    if run == [] then []
    else
      UpstreamBody(run[..|run| - 1]) + (if run[|run| - 1].UpstreamWrites? then run[|run| - 1].b else [])
  }

  /** Upstream adds to the body, and a head that has left stays as it is. */
  lemma {:induction false} UpstreamAdds(c: Connection, run: seq<Event>)
    ensures Upstream(c, run).body == c.body + UpstreamBody(run)
    ensures c.sent.Some? ==> Upstream(c, run).sent == c.sent
  {
    if run != [] {
      UpstreamAdds(c, run[..|run| - 1]);
    }
  }

  /** The body is the handler's followed by upstream's, or upstream's alone after a panic. Once the handler
      has written something, nothing upstream does changes its status or headers. */
  lemma {:induction false} HandlerHeadFinal(h: Headers, message: Bytes, run: seq<Event>)
    requires Valid(h, message, run) && Settle in run && !DeadlineWon(run)
    ensures var conn := After(h, message, run).writer.conn;
            && conn.body == (if HandlerPanics in run then [] else AskedBody(run)) + UpstreamBody(run)
            && (HandlerPanics !in run && AskedBody(run) != [] && AskedStatus(run) > 0 ==>
                  conn.FinalHead() == Head(AskedStatus(run), AskedHeaders(h, run)))
  {
    ClientResponse(h, message, run);
    UpstreamAdds(Untouched(h), run);
    UpstreamAdds(HandlerResponse(h, run), run);
  }

  /** The last thing the handler did to header `name`. */
  function LastEdit(run: seq<Event>, name: string): Option<HeaderEdit> {
    if run == [] then None
    else
      var e := run[|run| - 1];
      if e.HandlerEdits? && e.edit.name == name then Some(e.edit) else LastEdit(run[..|run| - 1], name)
  }

  /** Each header the handler asked for is as it last left it. */
  lemma {:induction false} AskedHeader(h: Headers, run: seq<Event>, name: string)
    ensures var hs := AskedHeaders(h, run);
            match LastEdit(run, name)
            case None => (name in hs <==> name in h) && (name in h ==> hs[name] == h[name])
            case Some(Set(_, values)) => name in hs && hs[name] == values
            case Some(Delete(_)) => name !in hs
  {
    if run != [] {
      AskedHeader(h, run[..|run| - 1], name);
    }
  }

  lemma {:induction false} ContextEndedLater(run: seq<Event>, i: nat)
    requires i <= |run| && ContextEnded(run[..i])
    ensures ContextEnded(run)
  {
    var j :| 0 <= j < |run[..i]| && run[..i][j].ContextEnds?;
    assert run[j].ContextEnds?;
  }

  lemma {:induction false} WonStaysWon(run: seq<Event>, i: nat)
    requires i <= |run| && DeadlineWon(run[..i])
    ensures DeadlineWon(run)
  {
    if i == |run| {
      assert run[..i] == run;
    } else {
      assert run[..|run| - 1][..i] == run[..i];
      WonStaysWon(run[..|run| - 1], i);
    }
  }

  lemma {:induction false} DecidedAt(h: Headers, message: Bytes, run: seq<Event>) returns (d: nat)
    requires Valid(h, message, run) && After(h, message, run).finisher != NotYet
    ensures d < |run| && run[d].Decide? && Valid(h, message, run[..d])
    ensures After(h, message, run[..d]).handler != Running
  {
    var p, e := run[..|run| - 1], run[|run| - 1];
    if e.Decide? {
      d := |run| - 1;
    } else {
      d := DecidedAt(h, message, p);
      assert p[..d] == run[..d];
    }
  }

  /** Expiry does not depend on how the watcher is scheduled: if the context ends before the
      handler has finished, the client gets the 503. */
  lemma {:induction false} ExpiryIsDecisive(h: Headers, message: Bytes, run: seq<Event>, i: nat)
    requires Valid(h, message, run) && Settle in run
    requires i <= |run| && Valid(h, message, run[..i])
    requires ContextEnded(run[..i]) && HandlerReturns !in run[..i] && HandlerPanics !in run[..i]
    ensures After(h, message, run).writer.conn == TimeoutResponse(h, message)
  {
    Phases(h, message, run);
    Phases(h, message, run[..i]);
    var d := DecidedAt(h, message, run);
    if d < i {
      assert run[..i][..d] == run[..d];
      HandlerStaysDone(h, message, run[..i], d);
      assert false;
    }
    assert run[..d][..i] == run[..i];
    ContextEndedLater(run[..d], i);
    assert run[..d + 1][..d] == run[..d];
    assert DeadlineWon(run[..d + 1]);
    WonStaysWon(run, d + 1);
    ClientResponse(h, message, run);
  }

  lemma {:induction false} HandlerStaysDone(h: Headers, message: Bytes, run: seq<Event>, d: nat)
    requires Valid(h, message, run) && d <= |run|
    requires Valid(h, message, run[..d]) && After(h, message, run[..d]).handler != Running
    ensures After(h, message, run).handler != Running
  {
    if d < |run| {
      assert run[..|run| - 1][..d] == run[..d];
      HandlerStaysDone(h, message, run[..|run| - 1], d);
    } else {
      assert run[..d] == run;
    }
  }

  /** The next step of the finisher, letting the watcher leave its select when it is still in it. */
  function FinishingStep(s: System): Event {
    match s.finisher
    case NotYet => Decide(false)
    case Decided(_) => CloseDone
    case Closing(_) => if s.watching then WatcherRetires else Join
    case _ => Settle
  }

  function StepsLeft(s: System): nat {
    match s.finisher
    case NotYet => 5
    case Decided(_) => 4
    case Closing(_) => if s.watching then 3 else 2
    case Joined => 1
    case Ended => 0
  }

  /** Once the handler is done no event, of whichever party, sets the finisher back, and its own next step
      is possible and brings it nearer to settling the response. */
  lemma {:induction false} FinisherNeverStuck(s: System, message: Bytes, e: Event)
    requires s.handler != Running && Enabled(s, e)
    ensures StepsLeft(Apply(s, e, message)) <= StepsLeft(s)
    ensures Apply(s, e, message).handler != Running
    ensures s.finisher != Ended ==> Enabled(s, FinishingStep(s))
                                    && StepsLeft(Apply(s, FinishingStep(s), message)) < StepsLeft(s)
  {
  }

  /** So every run in which the handler is done can be finished in at most five more steps. */
  lemma {:induction false} FinisherEnds(h: Headers, message: Bytes, run: seq<Event>) returns (tail: seq<Event>)
    requires Valid(h, message, run) && After(h, message, run).handler != Running
    ensures |tail| <= StepsLeft(After(h, message, run)) <= 5
    ensures Valid(h, message, run + tail) && After(h, message, run + tail).finisher == Ended
    decreases StepsLeft(After(h, message, run))
  {
    var s := After(h, message, run);
    if s.finisher == Ended {
      tail := [];
      assert run + [] == run;
    } else {
      var e := FinishingStep(s);
      assert (run + [e])[..|run|] == run;
      var rest := FinisherEnds(h, message, run + [e]);
      tail := [e] + rest;
      assert run + tail == run + [e] + rest;
    }
  }

  // ----- What sends the watcher into its timeout branch -----

  /** The watcher has left its select. */
  predicate WatcherLeft(run: seq<Event>) {
    exists i :: 0 <= i < |run| && (run[i].WatcherTimesOut? || run[i].WatcherRetires?)
  }

  lemma {:induction false} WatchingUntilItLeaves(h: Headers, message: Bytes, run: seq<Event>)
    requires Valid(h, message, run)
    ensures After(h, message, run).watching <==> !WatcherLeft(run)
    decreases |run|
  {
    if run != [] {
      var p, e := run[..|run| - 1], run[|run| - 1];
      WatchingUntilItLeaves(h, message, p);
      if WatcherLeft(p) {
        var i :| 0 <= i < |p| && (p[i].WatcherTimesOut? || p[i].WatcherRetires?);
        assert run[i] == p[i];
      }
      if WatcherLeft(run) && !(e.WatcherTimesOut? || e.WatcherRetires?) {
        var i :| 0 <= i < |run| && (run[i].WatcherTimesOut? || run[i].WatcherRetires?);
        assert p[i] == run[i];
      }
    }
  }

  /** The timeout branch is open after a run if and only if the context has ended, for whichever cause, and
      the watcher has not left its select. */
  lemma {:induction false} TimeoutBranchOpen(h: Headers, message: Bytes, run: seq<Event>)
    requires Valid(h, message, run)
    ensures Enabled(After(h, message, run), WatcherTimesOut) <==> ContextEnded(run) && !WatcherLeft(run)
  {
    EveryRun(h, message, run);
    WatchingUntilItLeaves(h, message, run);
  }

  lemma {:induction false} Extended(h: Headers, message: Bytes, run: seq<Event>, e: Event)
    requires Valid(h, message, run) && Enabled(After(h, message, run), e)
    ensures Valid(h, message, run + [e])
    ensures After(h, message, run + [e]) == Apply(After(h, message, run), e, message)
  {
    assert (run + [e])[..|run|] == run;
  }

  lemma {:induction false} CancelledParentRun(h: Headers, message: Bytes)
    ensures var run := [ContextEnds(ParentCancelled), WatcherTimesOut, HandlerReturns];
            && Valid(h, message, run)
            && After(h, message, run) == System(TimeoutWritten(Opened(Untouched(h)), message), true, false, Returned, NotYet)
  {
    var one: seq<Event> := [ContextEnds(ParentCancelled)];
    Extended(h, message, [], ContextEnds(ParentCancelled));
    assert [] + one == one;
    Extended(h, message, one, WatcherTimesOut);
    Extended(h, message, one + [WatcherTimesOut], HandlerReturns);
    assert one + [WatcherTimesOut] + [HandlerReturns] == [ContextEnds(ParentCancelled), WatcherTimesOut, HandlerReturns];
  }

  /** No deadline passes, only the parent is cancelled, and the branch is taken: the client gets the 503. */
  lemma {:induction false} CancelledParentTimesOut(h: Headers, message: Bytes)
    ensures var run := [ContextEnds(ParentCancelled), WatcherTimesOut, HandlerReturns, Decide(false), CloseDone, Join, Settle];
            && Valid(h, message, run) && After(h, message, run).finisher == Ended
            && After(h, message, run).writer.conn == TimeoutResponse(h, message)
  {
    var run := [ContextEnds(ParentCancelled), WatcherTimesOut, HandlerReturns];
    CancelledParentRun(h, message);
    Extended(h, message, run, Decide(false));
    Extended(h, message, run + [Decide(false)], CloseDone);
    Extended(h, message, run + [Decide(false)] + [CloseDone], Join);
    Extended(h, message, run + [Decide(false)] + [CloseDone] + [Join], Settle);
    assert run + [Decide(false)] + [CloseDone] + [Join] + [Settle]
        == [ContextEnds(ParentCancelled), WatcherTimesOut, HandlerReturns, Decide(false), CloseDone, Join, Settle];
  }
}
