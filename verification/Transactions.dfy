/**
 Context-carried transactions (gormx/table.go: RunTx, WithTx, Table.db) and the outbox write that
 joins them (outbox/outbox.go).

 A program is what one goroutine does: table writes, `RunTx` calls, and transactions opened directly
 with gorm and put in the context by `WithTx`, nested in any way over any databases. User code may
 ignore or invent errors, so the result of every operation is part of the program: a program is one
 unrolled execution, and the theorems hold for all of them.

 The implementation threads a context from databases to open transactions. The specification has no
 context and no buffers: it says which rows end up in a database from the shape of the program alone.
 */
module Transactions {

  type Tx = nat

  datatype Program<Db, Row> =
    /** A statement through a Table; `ok` says whether the database accepted it. */
    | Write(db: Db, row: Row, ok: bool)
    /** `returnsNil`: what the operation returns. `commitOk`: whether a commit, if due, succeeds. */
    | RunTx(db: Db, body: seq<Program<Db, Row>>, returnsNil: bool, commitOk: bool)
    /** A transaction opened on the connection itself, whose body runs under `WithTx`. */
    | Direct(db: Db, body: seq<Program<Db, Row>>, returnsNil: bool, commitOk: bool)

  type Context<!Db> = map<Db, Tx>

  /** What is durable in each database, and what each open transaction would add. */
  datatype Store<!Db, Row> = Store(durable: map<Db, seq<Row>>, open: map<Tx, seq<Row>>, next: Tx)

  function Rows<K, Row>(m: map<K, seq<Row>>, k: K): seq<Row> {
    if k in m then m[k] else []
  }

  /** Insert one row the way Table.db resolves the context: into the transaction of that database
      if the context carries one, otherwise straight into the database. */
  function Insert<Db(==), Row>(ctx: Context<Db>, s: Store<Db, Row>, db: Db, row: Row): Store<Db, Row> {
    if db in ctx then s.(open := s.open[ctx[db] := Rows(s.open, ctx[db]) + [row]])
    else s.(durable := s.durable[db := Rows(s.durable, db) + [row]])
  }

  function Opened<Db(==), Row>(s: Store<Db, Row>): Store<Db, Row> {
    s.(open := s.open[s.next := []], next := s.next + 1)
  }

  /** Commit or roll back the transaction `tx`. */
  function Closed<Db(==), Row>(s: Store<Db, Row>, db: Db, tx: Tx, commit: bool): Store<Db, Row> {
    Store(if commit then s.durable[db := Rows(s.durable, db) + Rows(s.open, tx)] else s.durable,
          s.open - {tx},
          s.next)
  }

  /** The store after running `p`, and whether `p` returned nil. */
  function Exec<Db(==), Row>(p: Program<Db, Row>, ctx: Context<Db>, s: Store<Db, Row>): (Store<Db, Row>, bool)
    decreases p, 1
  {
    match p
    case Write(db, row, ok) => (if ok then Insert(ctx, s, db, row) else s, ok)
    case RunTx(db, body, returnsNil, commitOk) =>
      if db in ctx then
        (ExecAll(body, ctx, s), returnsNil)
      else
        var s' := ExecAll(body, ctx[db := s.next], Opened(s));
        (Closed(s', db, s.next, returnsNil && commitOk), returnsNil && commitOk)
    case Direct(db, body, returnsNil, commitOk) =>
      var s' := ExecAll(body, ctx[db := s.next], Opened(s));
      (Closed(s', db, s.next, returnsNil && commitOk), returnsNil && commitOk)
  }

  function ExecAll<Db(==), Row>(ps: seq<Program<Db, Row>>, ctx: Context<Db>, s: Store<Db, Row>): Store<Db, Row>
    decreases ps, 0
  {
    if ps == [] then s else ExecAll(ps[1..], ctx, Exec(ps[0], ctx, s).0)
  }

  // ----- Specification -----

  /** The rows that `p` adds to the transaction on `d` enclosing it. */
  function Joined<Db(==), Row>(p: Program<Db, Row>, d: Db): seq<Row>
    decreases p, 1
  {
    match p
    case Write(db, row, ok) => if db == d && ok then [row] else []
    case RunTx(_, body, _, _) => JoinedAll(body, d)
    case Direct(db, body, _, _) => if db == d then [] else JoinedAll(body, d)
  }

  function JoinedAll<Db(==), Row>(ps: seq<Program<Db, Row>>, d: Db): seq<Row>
    decreases ps, 0
  {
    if ps == [] then [] else Joined(ps[0], d) + JoinedAll(ps[1..], d)
  }

  /** The rows that are durable in `d` once `p` is over; `enclosed` says whether a transaction on `d`
      surrounds `p`. A transaction on `d` contributes its joined rows exactly when it returned nil. */
  function Durable<Db(==), Row>(p: Program<Db, Row>, d: Db, enclosed: bool): seq<Row>
    decreases p, 1
  {
    match p
    case Write(db, row, ok) => if db == d && ok && !enclosed then [row] else []
    case RunTx(db, body, returnsNil, commitOk) =>
      if db == d && !enclosed then
        DurableAll(body, d, true) + (if returnsNil && commitOk then JoinedAll(body, d) else [])
      else
        DurableAll(body, d, enclosed)
    case Direct(db, body, returnsNil, commitOk) =>
      if db == d then
        DurableAll(body, d, true) + (if returnsNil && commitOk then JoinedAll(body, d) else [])
      else
        DurableAll(body, d, enclosed)
  }

  function DurableAll<Db(==), Row>(ps: seq<Program<Db, Row>>, d: Db, enclosed: bool): seq<Row>
    decreases ps, 0
  {
    if ps == [] then [] else Durable(ps[0], d, enclosed) + DurableAll(ps[1..], d, enclosed)
  }

  // ----- The implementation means what the specification says -----

  /** The context names open transactions, a different one for each database. */
  ghost predicate Sound<Db, Row>(ctx: Context<Db>, s: Store<Db, Row>) {
    && (forall d :: d in ctx ==> ctx[d] in s.open)
    && (forall t :: t in s.open ==> t < s.next)
    && (forall d, e :: d in ctx && e in ctx && d != e ==> ctx[d] != ctx[e])
  }

  ghost predicate Named<Db>(ctx: Context<Db>, t: Tx) {
    exists d :: d in ctx && ctx[d] == t
  }

  /** Running something under `ctx` took `s` to `s'`, made the rows of `durable` durable, and left
      those of `joined` in the transactions of `ctx`. */
  ghost predicate Effect<Db(!new), Row>(ctx: Context<Db>, s: Store<Db, Row>, s': Store<Db, Row>,
                                        durable: Db -> seq<Row>, joined: Db -> seq<Row>)
  {
    && s'.open.Keys == s.open.Keys && s'.next >= s.next
    && (forall d :: Rows(s'.durable, d) == Rows(s.durable, d) + durable(d))
    && (forall d :: d in ctx ==> Rows(s'.open, ctx[d]) == Rows(s.open, ctx[d]) + joined(d))
    && (forall t :: t in s.open && !Named(ctx, t) ==> s'.open[t] == s.open[t])
  }

  lemma {:induction false} EffectsCompose<Db(!new), Row>(ctx: Context<Db>, a: Store<Db, Row>, b: Store<Db, Row>, c: Store<Db, Row>,
                                      durable1: Db -> seq<Row>, joined1: Db -> seq<Row>,
                                      durable2: Db -> seq<Row>, joined2: Db -> seq<Row>)
    requires Effect(ctx, a, b, durable1, joined1) && Effect(ctx, b, c, durable2, joined2)
    ensures Effect(ctx, a, c, d => durable1(d) + durable2(d), d => joined1(d) + joined2(d))
  {
  }

  lemma {:induction false} ClosedDurable<Db(!new), Row>(ctx: Context<Db>, db: Db, s: Store<Db, Row>, s': Store<Db, Row>, commit: bool,
            durable: Db -> seq<Row>, joined: Db -> seq<Row>, d: Db)
    requires Effect(ctx[db := s.next], Opened(s), s', durable, joined)
    ensures Rows(Closed(s', db, s.next, commit).durable, d)
            == Rows(s.durable, d) + (durable(d) + (if d == db && commit then joined(d) else []))
  {
    var inner := ctx[db := s.next];
    assert db in inner && inner[db] == s.next;
    assert Rows(Opened(s).open, s.next) == [];
    assert Rows(s'.open, s.next) == [] + joined(db);
    assert Rows(s'.durable, d) == Rows(s.durable, d) + durable(d);
  }

  lemma {:induction false} ClosedOpen<Db(!new), Row>(ctx: Context<Db>, db: Db, s: Store<Db, Row>, s': Store<Db, Row>, commit: bool,
            durable: Db -> seq<Row>, joined: Db -> seq<Row>, d: Db)
    requires Sound(ctx, s) && d in ctx
    requires Effect(ctx[db := s.next], Opened(s), s', durable, joined)
    ensures Rows(Closed(s', db, s.next, commit).open, ctx[d]) == Rows(s.open, ctx[d]) + (if d == db then [] else joined(d))
  {
    var inner := ctx[db := s.next];
    assert ctx[d] in s.open && ctx[d] != s.next;
    if d != db {
      assert d in inner && inner[d] == ctx[d];
    } else {
      assert !Named(inner, ctx[d]);
    }
  }

  lemma {:induction false} ClosedOther<Db(!new), Row>(ctx: Context<Db>, db: Db, s: Store<Db, Row>, s': Store<Db, Row>, commit: bool,
            durable: Db -> seq<Row>, joined: Db -> seq<Row>, t: Tx)
    requires Sound(ctx, s) && t in s.open && !Named(ctx, t)
    requires Effect(ctx[db := s.next], Opened(s), s', durable, joined)
    ensures t in Closed(s', db, s.next, commit).open && Closed(s', db, s.next, commit).open[t] == s.open[t]
  {
    var inner := ctx[db := s.next];
    forall d | d in inner
      ensures inner[d] != t
    {
      if d != db {
        assert d in ctx && ctx[d] == inner[d];
      }
    }
  }

  /** A transaction on `db` opened around a body: what the body adds to it is kept or dropped. */
  lemma {:induction false} TransactionEffect<Db(!new), Row>(ctx: Context<Db>, db: Db, s: Store<Db, Row>, s': Store<Db, Row>, commit: bool,
                                         durable: Db -> seq<Row>, joined: Db -> seq<Row>)
    requires Sound(ctx, s)
    requires Effect(ctx[db := s.next], Opened(s), s', durable, joined)
    ensures Effect(ctx, s, Closed(s', db, s.next, commit),
                   d => durable(d) + (if d == db && commit then joined(d) else []),
                   d => if d == db then [] else joined(d))
  {
    var end := Closed(s', db, s.next, commit);
    assert s'.open.Keys == s.open.Keys + {s.next};
    forall d
      ensures Rows(end.durable, d) == Rows(s.durable, d) + (durable(d) + (if d == db && commit then joined(d) else []))
    {
      ClosedDurable(ctx, db, s, s', commit, durable, joined, d);
    }
    forall d | d in ctx
      ensures Rows(end.open, ctx[d]) == Rows(s.open, ctx[d]) + (if d == db then [] else joined(d))
    {
      ClosedOpen(ctx, db, s, s', commit, durable, joined, d);
    }
    forall t | t in s.open && !Named(ctx, t)
      ensures end.open[t] == s.open[t]
    {
      ClosedOther(ctx, db, s, s', commit, durable, joined, t);
    }
  }

  /** Effects depend only on the durable rows of each database and the joined rows of those in
      the context. */
  lemma {:induction false} EffectRewritten<Db(!new), Row>(ctx: Context<Db>, s: Store<Db, Row>, s': Store<Db, Row>,
                                       durable: Db -> seq<Row>, joined: Db -> seq<Row>,
                                       durable': Db -> seq<Row>, joined': Db -> seq<Row>)
    requires Effect(ctx, s, s', durable, joined)
    requires forall d :: durable(d) == durable'(d) && (d in ctx ==> joined(d) == joined'(d))
    ensures Effect(ctx, s, s', durable', joined')
  {
  }

  lemma {:induction false} WriteMeaning<Db(!new), Row>(db: Db, row: Row, ctx: Context<Db>, s: Store<Db, Row>)
    requires Sound(ctx, s)
    ensures Effect(ctx, s, Insert(ctx, s, db, row),
                   d => if d == db && d !in ctx then [row] else [], d => if d == db then [row] else [])
  {
    var s' := Insert(ctx, s, db, row);
    if db in ctx {
      assert s'.open.Keys == s.open.Keys;
      forall d | d in ctx
        ensures Rows(s'.open, ctx[d]) == Rows(s.open, ctx[d]) + (if d == db then [row] else [])
      {
        assert d != db ==> ctx[d] != ctx[db];
      }
    }
  }

  /** The specification of a program, from that of its parts. */
  lemma {:induction false} WriteEffect<Db(!new), Row>(p: Program<Db, Row>, ctx: Context<Db>, s: Store<Db, Row>)
    requires Sound(ctx, s) && p.Write?
    ensures Effect(ctx, s, Exec(p, ctx, s).0, d => Durable(p, d, d in ctx), d => Joined(p, d))
  {
    if p.ok {
      WriteMeaning(p.db, p.row, ctx, s);
      EffectRewritten(ctx, s, Insert(ctx, s, p.db, p.row),
                      d => if d == p.db && d !in ctx then [p.row] else [], d => if d == p.db then [p.row] else [],
                      d => Durable(p, d, d in ctx), d => Joined(p, d));
    }
  }

  lemma {:induction false} JoiningEffect<Db(!new), Row>(p: Program<Db, Row>, ctx: Context<Db>, s: Store<Db, Row>, s': Store<Db, Row>)
    requires p.RunTx? && p.db in ctx
    requires Effect(ctx, s, s', d => DurableAll(p.body, d, d in ctx), d => JoinedAll(p.body, d))
    ensures Effect(ctx, s, s', d => Durable(p, d, d in ctx), d => Joined(p, d))
  {
    EffectRewritten(ctx, s, s', d => DurableAll(p.body, d, d in ctx), d => JoinedAll(p.body, d),
                    d => Durable(p, d, d in ctx), d => Joined(p, d));
  }

  lemma {:induction false} OpeningEffect<Db(!new), Row>(p: Program<Db, Row>, ctx: Context<Db>, s: Store<Db, Row>, s': Store<Db, Row>, commit: bool)
    requires p.Direct? || (p.RunTx? && p.db !in ctx)
    requires commit == (p.returnsNil && p.commitOk)
    requires Effect(ctx, s, s',
                    d => DurableAll(p.body, d, d == p.db || d in ctx) + (if d == p.db && commit then JoinedAll(p.body, d) else []),
                    d => if d == p.db then [] else JoinedAll(p.body, d))
    ensures Effect(ctx, s, s', d => Durable(p, d, d in ctx), d => Joined(p, d))
  {
    EffectRewritten(ctx, s, s',
                    d => DurableAll(p.body, d, d == p.db || d in ctx) + (if d == p.db && commit then JoinedAll(p.body, d) else []),
                    d => if d == p.db then [] else JoinedAll(p.body, d),
                    d => Durable(p, d, d in ctx), d => Joined(p, d));
  }

  /** Running a program has the effect the specification says. */
  lemma {:induction false} ExecMeaning<Db(!new), Row>(p: Program<Db, Row>, ctx: Context<Db>, s: Store<Db, Row>)
    requires Sound(ctx, s)
    ensures Effect(ctx, s, Exec(p, ctx, s).0, d => Durable(p, d, d in ctx), d => Joined(p, d))
    decreases p, 1
  {
    if p.Write? {
      WriteEffect(p, ctx, s);
    } else if p.RunTx? && p.db in ctx {
      ExecAllMeaning(p.body, ctx, s);
      JoiningEffect(p, ctx, s, ExecAll(p.body, ctx, s));
    } else {
      var commit := p.returnsNil && p.commitOk;
      OpenedMeaning(p.db, p.body, ctx, s, commit);
      OpeningEffect(p, ctx, s, Exec(p, ctx, s).0, commit);
    }
  }

  lemma {:induction false} OpenedMeaning<Db(!new), Row>(db: Db, body: seq<Program<Db, Row>>, ctx: Context<Db>,
                                                        s: Store<Db, Row>, commit: bool)
    requires Sound(ctx, s)
    ensures var s' := ExecAll(body, ctx[db := s.next], Opened(s));
            Effect(ctx, s, Closed(s', db, s.next, commit),
                   d => DurableAll(body, d, d == db || d in ctx) + (if d == db && commit then JoinedAll(body, d) else []),
                   d => if d == db then [] else JoinedAll(body, d))
    decreases body, 2
  {
    var inner := ctx[db := s.next];
    ExecAllMeaning(body, inner, Opened(s));
    TransactionEffect(ctx, db, s, ExecAll(body, inner, Opened(s)), commit,
                      d => DurableAll(body, d, d in inner), d => JoinedAll(body, d));
  }

  lemma {:induction false} ExecAllMeaning<Db(!new), Row>(ps: seq<Program<Db, Row>>, ctx: Context<Db>, s: Store<Db, Row>)
    requires Sound(ctx, s)
    ensures Effect(ctx, s, ExecAll(ps, ctx, s), d => DurableAll(ps, d, d in ctx), d => JoinedAll(ps, d))
    decreases ps, 0
  {
    if ps != [] {
      var s' := Exec(ps[0], ctx, s).0;
      ExecMeaning(ps[0], ctx, s);
      ExecAllMeaning(ps[1..], ctx, s');
      EffectsCompose(ctx, s, s', ExecAll(ps, ctx, s),
                     d => Durable(ps[0], d, d in ctx), d => Joined(ps[0], d),
                     d => DurableAll(ps[1..], d, d in ctx), d => JoinedAll(ps[1..], d));
    }
  }

  // ----- Main results -----

  /** Whatever the nesting, a program started without a transaction leaves in every database exactly
      the rows the specification names, and no transaction stays open. */
  lemma {:induction false} DurableRows<Db(!new), Row>(p: Program<Db, Row>, d: Db)
    ensures var s := Exec(p, map[], Store(map[], map[], 0)).0;
            Rows(s.durable, d) == Durable(p, d, false) && s.open == map[]
  {
    var s: Store<Db, Row> := Store(map[], map[], 0);
    ExecMeaning(p, map[], s);
    var s' := Exec(p, map[], s).0;
    assert Rows(s'.durable, d) == Rows(s.durable, d) + Durable(p, d, false);
    assert s'.open.Keys == {};
  }

  /** Two programs that make the same accepted writes under the same nesting, with any difference in
      what the nested operations return and whether their commits succeed. */
  predicate SameWrites<Db(==), Row(==)>(p: Program<Db, Row>, q: Program<Db, Row>)
    decreases p, 1
  {
    match (p, q)
    case (Write(_, _, _), _) => p == q
    case (RunTx(db, body, _, _), RunTx(db', body', _, _)) => db == db' && SameWritesAll(body, body')
    case (Direct(db, body, _, _), Direct(db', body', _, _)) => db == db' && SameWritesAll(body, body')
    case _ => false
  }

  predicate SameWritesAll<Db(==), Row(==)>(ps: seq<Program<Db, Row>>, qs: seq<Program<Db, Row>>)
    decreases ps, 0
  {
    |ps| == |qs| && (ps == [] || (SameWrites(ps[0], qs[0]) && SameWritesAll(ps[1..], qs[1..])))
  }

  lemma {:induction false} JoinedIgnoresResults<Db, Row>(p: Program<Db, Row>, q: Program<Db, Row>, d: Db)
    requires SameWrites(p, q)
    ensures Joined(p, d) == Joined(q, d)
    decreases p, 1
  {
    if !p.Write? {
      JoinedAllIgnoresResults(p.body, q.body, d);
    }
  }

  lemma {:induction false} JoinedAllIgnoresResults<Db, Row>(ps: seq<Program<Db, Row>>, qs: seq<Program<Db, Row>>, d: Db)
    requires SameWritesAll(ps, qs)
    ensures JoinedAll(ps, d) == JoinedAll(qs, d)
    decreases ps, 0
  {
    if ps != [] {
      JoinedIgnoresResults(ps[0], qs[0], d);
      JoinedAllIgnoresResults(ps[1..], qs[1..], d);
    }
  }

  lemma {:induction false} DurableAfter<Db(!new), Row>(p: Program<Db, Row>, ctx: Context<Db>, s: Store<Db, Row>, d: Db)
    requires Sound(ctx, s)
    ensures Rows(Exec(p, ctx, s).0.durable, d) == Rows(s.durable, d) + Durable(p, d, d in ctx)
  {
    ExecMeaning(p, ctx, s);
  }

  /** Some transaction opened directly on `d` inside the programs commits a row. */
  predicate DirectCommits<Db(==), Row>(ps: seq<Program<Db, Row>>, d: Db) {
    ps != []
    && (DirectCommits(ps[1..], d)
        || match ps[0]
           case Write(_, _, _) => false
           case RunTx(_, body, _, _) => DirectCommits(body, d)
           case Direct(db, body, returnsNil, commitOk) =>
             DirectCommits(body, d) || (db == d && returnsNil && commitOk && |JoinedAll(body, d)| > 0))
  }

  lemma {:induction false} NothingEscapes<Db, Row>(ps: seq<Program<Db, Row>>, d: Db)
    ensures DurableAll(ps, d, true) == [] <==> !DirectCommits(ps, d)
  {
    if ps != [] {
      NothingEscapes(ps[1..], d);
      if !ps[0].Write? {
        NothingEscapes(ps[0].body, d);
      }
    }
  }

  lemma {:induction false} OutermostDurable<Db, Row>(d: Db, body: seq<Program<Db, Row>>, returnsNil: bool, commitOk: bool)
    requires !DirectCommits(body, d)
    ensures Durable(RunTx(d, body, returnsNil, commitOk), d, false)
            == if returnsNil && commitOk then JoinedAll(body, d) else []
  {
    NothingEscapes(body, d);
  }

  /** The outermost RunTx on `d` owns commit and rollback: it returns nil exactly when every write
      made under it has become durable together, and otherwise none has. What nested calls return,
      and what transactions on other databases do, changes nothing. The condition is the one that
      OwnershipExact shows to be needed. */
  lemma {:induction false} OutermostOwnsCommit<Db(!new), Row>(d: Db, body: seq<Program<Db, Row>>, body': seq<Program<Db, Row>>,
                                           returnsNil: bool, commitOk: bool, ctx: Context<Db>, s: Store<Db, Row>)
    requires Sound(ctx, s) && d !in ctx
    requires !DirectCommits(body, d) && SameWritesAll(body, body')
    ensures var (s', ok) := Exec(RunTx(d, body, returnsNil, commitOk), ctx, s);
            && (ok ==> Rows(s'.durable, d) == Rows(s.durable, d) + JoinedAll(body', d))
            && (!ok ==> Rows(s'.durable, d) == Rows(s.durable, d))
  {
    var p := RunTx(d, body, returnsNil, commitOk);
    DurableAfter(p, ctx, s, d);
    OutermostDurable(d, body, returnsNil, commitOk);
    JoinedAllIgnoresResults(body, body', d);
  }

  /** Without any restriction on the nesting: the outermost RunTx on `d` owns commit and rollback if
      and only if no transaction opened directly on `d` inside it commits a row. */
  lemma {:induction false} OwnershipExact<Db(!new), Row>(d: Db, body: seq<Program<Db, Row>>, returnsNil: bool, commitOk: bool,
                                      ctx: Context<Db>, s: Store<Db, Row>)
    requires Sound(ctx, s) && d !in ctx
    ensures var (s', ok) := Exec(RunTx(d, body, returnsNil, commitOk), ctx, s);
            Rows(s'.durable, d) == Rows(s.durable, d) + (if ok then JoinedAll(body, d) else [])
            <==> !DirectCommits(body, d)
  {
    DurableAfter(RunTx(d, body, returnsNil, commitOk), ctx, s, d);
    NothingEscapes(body, d);
    OnlyEmptyVanishes(Rows(s.durable, d), DurableAll(body, d, true), if returnsNil && commitOk then JoinedAll(body, d) else []);
  }

  lemma {:induction false} OnlyEmptyVanishes<T>(a: seq<T>, b: seq<T>, c: seq<T>)
    ensures a + (b + c) == a + c <==> b == []
  {
    assert |a + (b + c)| == |a| + |b| + |c|;
    assert b == [] ==> b + c == c;
  }

  /** `row` is written to `d` somewhere under the programs, by a statement the database accepted, and not
      inside a transaction opened directly on `d`. */
  predicate Writes<Db(==), Row(==)>(ps: seq<Program<Db, Row>>, d: Db, row: Row) {
    ps != []
    && (Writes(ps[1..], d, row)
        || match ps[0]
           case Write(_, _, _) => ps[0] == Write(d, row, true)
           case RunTx(_, body, _, _) => Writes(body, d, row)
           case Direct(db, body, _, _) => db != d && Writes(body, d, row))
  }

  lemma {:induction false} WritesJoin<Db, Row>(ps: seq<Program<Db, Row>>, d: Db, row: Row)
    ensures Writes(ps, d, row) <==> row in JoinedAll(ps, d)
  {
    if ps != [] {
      WritesJoin(ps[1..], d, row);
      if !ps[0].Write? {
        WritesJoin(ps[0].body, d, row);
      }
    }
  }

  /** The statement `w` is somewhere in the programs. */
  predicate Mentions<Db(==), Row(==)>(ps: seq<Program<Db, Row>>, w: Program<Db, Row>) {
    ps != [] && (ps[0] == w || Mentions(ps[1..], w) || (!ps[0].Write? && Mentions(ps[0].body, w)))
  }

  lemma {:induction false} WritesMention<Db, Row>(ps: seq<Program<Db, Row>>, d: Db, row: Row)
    requires Writes(ps, d, row)
    ensures Mentions(ps, Write(d, row, true))
  {
    if Writes(ps[1..], d, row) {
      WritesMention(ps[1..], d, row);
    } else if !ps[0].Write? {
      WritesMention(ps[0].body, d, row);
    }
  }

  lemma {:induction false} DurableMentions<Db, Row>(ps: seq<Program<Db, Row>>, d: Db, enclosed: bool, row: Row)
    requires row in DurableAll(ps, d, enclosed)
    ensures Mentions(ps, Write(d, row, true))
    decreases ps
  {
    if row in DurableAll(ps[1..], d, enclosed) {
      DurableMentions(ps[1..], d, enclosed, row);
    } else if !ps[0].Write? {
      var p := ps[0];
      WritesJoin(p.body, d, row);
      if row in JoinedAll(p.body, d) {
        WritesMention(p.body, d, row);
      } else {
        DurableMentions(p.body, d, enclosed || p.db == d, row);
      }
    }
  }

  /** Nothing gets into a database but what an accepted statement wrote to it. */
  lemma {:induction false} NoTraceWithoutWrite<Db(!new), Row>(p: Program<Db, Row>, ctx: Context<Db>, s: Store<Db, Row>, d: Db, row: Row)
    requires Sound(ctx, s) && row in Rows(Exec(p, ctx, s).0.durable, d) && row !in Rows(s.durable, d)
    ensures Mentions([p], Write(d, row, true))
  {
    DurableAfter(p, ctx, s, d);
    assert [p][1..] == [];
    DurableMentions([p], d, d in ctx, row);
  }

  /** What the operations return: a statement its own outcome; a nested RunTx what its function returned, with
      no commit of its own; any other nil exactly if its function returned nil and its commit succeeded. */
  lemma {:induction false} Results<Db, Row>(p: Program<Db, Row>, ctx: Context<Db>, s: Store<Db, Row>)
    ensures p.Write? ==> Exec(p, ctx, s).1 == p.ok
    ensures p.RunTx? && p.db in ctx ==> Exec(p, ctx, s).1 == p.returnsNil
    ensures p.Direct? || (p.RunTx? && p.db !in ctx) ==> Exec(p, ctx, s).1 == (p.returnsNil && p.commitOk)
  {
  }

  /** The transactional outbox: an event enqueued inside the transaction of its domain write exists
      after the transaction if and only if the domain row does, and a write to another database,
      outside any transaction there, is durable either way. */
  lemma {:induction false} EventIffDomainRow<Db(!new), Row>(d: Db, body: seq<Program<Db, Row>>, returnsNil: bool, commitOk: bool,
                                         ctx: Context<Db>, s: Store<Db, Row>, domain: Row, event: Row)
    requires Sound(ctx, s) && d !in ctx && !DirectCommits(body, d)
    requires Writes(body, d, domain) && Writes(body, d, event)
    requires domain !in Rows(s.durable, d) && event !in Rows(s.durable, d)
    ensures var (s', ok) := Exec(RunTx(d, body, returnsNil, commitOk), ctx, s);
            && (event in Rows(s'.durable, d) <==> domain in Rows(s'.durable, d))
            && (event in Rows(s'.durable, d) <==> ok)
            && forall e :: e != d && e !in ctx ==>
                 Rows(s'.durable, e) == Rows(s.durable, e) + DurableAll(body, e, false)
  {
    var p := RunTx(d, body, returnsNil, commitOk);
    WritesJoin(body, d, domain);
    WritesJoin(body, d, event);
    SameAsItself(body);
    OutermostOwnsCommit(d, body, body, returnsNil, commitOk, ctx, s);
    forall e | e != d && e !in ctx
      ensures Rows(Exec(p, ctx, s).0.durable, e) == Rows(s.durable, e) + DurableAll(body, e, false)
    {
      DurableAfter(p, ctx, s, e);
      assert Durable(p, e, false) == DurableAll(body, e, false);
    }
  }

  lemma {:induction false} SameAsItself<Db, Row>(ps: seq<Program<Db, Row>>)
    ensures SameWritesAll(ps, ps)
  {
    if ps != [] {
      SameAsItself(ps[1..]);
      if !ps[0].Write? {
        SameAsItself(ps[0].body);
      }
    }
  }

  /** Without the restriction the claim fails: a transaction opened directly inside RunTx on the same
      database commits its rows although the outermost RunTx rolls back. */
  lemma {:induction false} DirectEscapesOutermost()
    ensures var p := RunTx("db", [Direct("db", [Write("db", 1, true)], true, true)], false, true);
            var (s, ok) := Exec(p, map[], Store(map[], map[], 0));
            !ok && Rows(s.durable, "db") == [1]
  {
    var w := Write("db", 1, true);
    var direct := Direct("db", [w], true, true);
    var p := RunTx("db", [direct], false, true);
    DurableRows(p, "db");
    assert [w][1..] == [] && [direct][1..] == [];
    assert JoinedAll([w], "db") == [1];
    assert DurableAll([w], "db", true) == [];
    assert Durable(direct, "db", true) == [1];
    assert DurableAll([direct], "db", true) == [1];
  }
}
