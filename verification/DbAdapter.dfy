/** Connection handling of the database adapter on the pooled backend (database/db_adapter.py). Which
    connection the pool gives, and what raises, are inputs. */
module DbAdapter {
  import opened Options

  type Conn = nat

  datatype Checkout = Fails | Gives(conn: Conn)

  /** One execute or executemany call: the checkout it would make, whether the statement or the commit
      raises, and whether a surrounding block catches that. */
  datatype Statement = Statement(checkout: Checkout, raises: bool, commitRaises: bool, caught: bool)

  /** A transaction block: its own checkout, its statements, and what raises at its end. */
  datatype Block = Block(checkout: Checkout, body: seq<Statement>, bodyRaises: bool, commitRaises: bool,
                         rollbackRaises: bool)

  datatype PoolEvent =
    | Got(conn: Conn) | Returned(conn: Conn) | Ran(conn: Conn) | Committed(conn: Conn) | RolledBack(conn: Conn)

  /** The adapter's fields, the connections that are checked out, and what happened to connections. */
  datatype Db = Db(inTransaction: bool, txConn: Option<Conn>, out: set<Conn>, log: seq<PoolEvent>)

  const START := Db(false, None, {}, [])

  // ----- the operations as values

  function Note(d: Db, e: PoolEvent): Db
  {
    d.(log := d.log + [e])
  }

  function Take(d: Db, c: Conn): Db
  {
    Note(d.(out := d.out + {c}, txConn := if d.inTransaction then Some(c) else d.txConn), Got(c))
  }

  function PutBack(d: Db, c: Conn): Db
  {
    Note(d.(out := d.out - {c}), Returned(c))
  }

  /** The connection _acquire returns, or None when the checkout raises. */
  function AcquiredConn(d: Db, k: Checkout): Option<Conn>
  {
    if d.inTransaction && d.txConn.Some? then d.txConn
    else if k.Gives? then Some(k.conn)
    else None
  }

  function AfterAcquire(d: Db, k: Checkout): Db
  {
    if (d.inTransaction && d.txConn.Some?) || k.Fails? then d else Take(d, k.conn)
  }

  /** The state after execute, and whether it returned normally. */
  function Executed(d: Db, s: Statement): (Db, bool)
  {
    match AcquiredConn(d, s.checkout)
    case None => (d, false)
    case Some(c) =>
      var ran := Note(AfterAcquire(d, s.checkout), Ran(c));
      if d.inTransaction then (ran, !s.raises)
      else if s.raises then (PutBack(ran, c), false)
      else if s.commitRaises then (PutBack(ran, c), false)
      else (PutBack(Note(ran, Committed(c)), c), true)
  }

  /** The body of a block: it stops at the first statement that raises uncaught. */
  function RunBody(d: Db, body: seq<Statement>): (Db, bool)
    decreases |body|
  {
    if body == [] then
      (d, true)
    else
      var (after, ok) := Executed(d, body[0]);
      if ok || body[0].caught then RunBody(after, body[1..]) else (after, false)
  }

  /** What the finally clause does. */
  function Leave(d: Db): Db
  {
    var left := d.(inTransaction := false);
    match left.txConn
    case None => left
    case Some(c) => PutBack(left, c).(txConn := None)
  }

  /** The rest of a block that has acquired c. */
  function Finished(entered: Db, c: Conn, b: Block): (Db, bool)
  {
    var (body, ok) := RunBody(entered, b.body);
    if ok && !b.bodyRaises && !b.commitRaises then (Leave(Note(body, Committed(c))), true)
    else (Leave(if b.rollbackRaises then body else Note(body, RolledBack(c))), false)
  }

  /** The state after a transaction block, and whether it ended normally. */
  function Transacted(d: Db, b: Block): (Db, bool)
  {
    var entered := d.(inTransaction := true);
    match AcquiredConn(entered, b.checkout)
    case None => (entered, false)
    case Some(c) => Finished(AfterAcquire(entered, b.checkout), c, b)
  }

  datatype Op = Run(statement: Statement) | InBlock(block: Block)

  function Perform(d: Db, op: Op): Db
  {
    match op
    case Run(s) => Executed(d, s).0
    case InBlock(b) => Transacted(d, b).0
  }

  function PerformAll(d: Db, ops: seq<Op>): Db
  {
    if ops == [] then d else Perform(PerformAll(d, ops[..|ops| - 1]), ops[|ops| - 1])
  }

  // ----- what the log says

  /** The connection that is out after the events, and whether so far at most one was out at a time,
      only that one was used, and only that one was returned. */
  function Scan(log: seq<PoolEvent>): (bool, Option<Conn>)
  {
    if log == [] then
      (true, None)
    else
      var (fine, held) := Scan(log[..|log| - 1]);
      match log[|log| - 1]
      case Got(c) => (fine && held.None?, Some(c))
      case Returned(c) => (fine && held == Some(c), None)
      case Ran(c) => (fine && held == Some(c), held)
      case Committed(c) => (fine && held == Some(c), held)
      case RolledBack(c) => (fine && held == Some(c), held)
  }

  lemma ScanSnoc(log: seq<PoolEvent>, e: PoolEvent)
    ensures Scan(log + [e]) ==
      var (fine, held) := Scan(log);
      match e
      case Got(c) => (fine && held.None?, Some(c))
      case Returned(c) => (fine && held == Some(c), None)
      case Ran(c) => (fine && held == Some(c), held)
      case Committed(c) => (fine && held == Some(c), held)
      case RolledBack(c) => (fine && held == Some(c), held)
  {
    assert (log + [e])[..|log|] == log;
  }

  /** How often e occurs. */
  function Count(log: seq<PoolEvent>, e: PoolEvent): nat
  {
    if log == [] then 0 else Count(log[..|log| - 1], e) + (if log[|log| - 1] == e then 1 else 0)
  }

  /** In a fine log every checkout was returned, except that of the connection still out. */
  lemma {:induction false} CheckoutsAreReturned(log: seq<PoolEvent>, c: Conn)
    requires Scan(log).0
    ensures Count(log, Got(c)) == Count(log, Returned(c)) + (if Scan(log).1 == Some(c) then 1 else 0)
    decreases |log|
  {
    if log != [] {
      CheckoutsAreReturned(log[..|log| - 1], c);
    }
  }

  /** Outside any block: nothing is held and nothing is out. */
  ghost predicate Idle(d: Db)
  {
    !d.inTransaction && d.txConn.None? && d.out == {} && Scan(d.log) == (true, None)
  }

  /** Inside a block that holds c. */
  ghost predicate Holding(d: Db, c: Conn)
  {
    d.inTransaction && d.txConn == Some(c) && d.out == {c} && Scan(d.log) == (true, Some(c))
  }

  lemma ExecuteOutside(d: Db, s: Statement)
    requires Idle(d)
    ensures Idle(Executed(d, s).0)
  {
    if s.checkout.Gives? {
      var c := s.checkout.conn;
      ScanSnoc(d.log, Got(c));
      var ran := d.log + [Got(c)] + [Ran(c)];
      ScanSnoc(d.log + [Got(c)], Ran(c));
      ScanSnoc(ran, Committed(c));
      ScanSnoc(ran, Returned(c));
      ScanSnoc(ran + [Committed(c)], Returned(c));
    }
  }

  lemma CountSnoc(log: seq<PoolEvent>, e: PoolEvent, f: PoolEvent)
    ensures Count(log + [e], f) == Count(log, f) + (if e == f then 1 else 0)
  {
    assert (log + [e])[..|log|] == log;
  }

  lemma CommitsOnce(log: seq<PoolEvent>, c: Conn)
    ensures var ran := log + [Got(c)] + [Ran(c)];
      && Count(ran + [Returned(c)], Committed(c)) == Count(log, Committed(c))
      && Count(ran + [Committed(c)] + [Returned(c)], Committed(c)) == Count(log, Committed(c)) + 1
  {
    var ran := log + [Got(c)] + [Ran(c)];
    CountSnoc(log, Got(c), Committed(c));
    CountSnoc(log + [Got(c)], Ran(c), Committed(c));
    CountSnoc(ran, Committed(c), Committed(c));
    CountSnoc(ran, Returned(c), Committed(c));
    CountSnoc(ran + [Committed(c)], Returned(c), Committed(c));
  }

  /** Outside a block a statement returns normally exactly when it got a connection, ran, was committed
      and gave the connection back, in this order. If the statement or the commit raises, the connection
      goes back without a commit; if the checkout raises, nothing happens. */
  lemma ExecuteCommits(d: Db, s: Statement)
    requires Idle(d)
    ensures var (after, ok) := Executed(d, s);
      && (ok <==> s.checkout.Gives? && !s.raises && !s.commitRaises)
      && (s.checkout.Fails? ==> after == d)
      && (s.checkout.Gives? ==>
            var c := s.checkout.conn;
            after.log == d.log + if ok then [Got(c), Ran(c), Committed(c), Returned(c)]
                                 else [Got(c), Ran(c), Returned(c)])
      && (ok <==> s.checkout.Gives? && Count(after.log, Committed(s.checkout.conn))
                                       == Count(d.log, Committed(s.checkout.conn)) + 1)
  {
    if s.checkout.Gives? {
      var c := s.checkout.conn;
      var (after, ok) := Executed(d, s);
      var ran := d.log + [Got(c)] + [Ran(c)];
      CommitsOnce(d.log, c);
      if ok {
        assert after.log == ran + [Committed(c)] + [Returned(c)];
      } else {
        assert after.log == ran + [Returned(c)];
      }
    }
    hide Count;
  }

  /** A statement inside a block runs on the block's connection, takes no other and commits nothing; it
      returns normally unless it raises. */
  lemma ExecuteInside(d: Db, c: Conn, s: Statement)
    requires Holding(d, c)
    ensures Holding(Executed(d, s).0, c) && Executed(d, s).0.log == d.log + [Ran(c)]
    ensures Executed(d, s).1 <==> !s.raises
  {
    ScanSnoc(d.log, Ran(c));
  }

  /** n times the event e. */
  function Times(n: nat, e: PoolEvent): seq<PoolEvent>
  {
    if n == 0 then [] else Times(n - 1, e) + [e]
  }

  lemma {:induction false} TimesFront(n: nat, e: PoolEvent)
    ensures [e] + Times(n, e) == Times(n + 1, e)
  {
    if n > 0 {
      TimesFront(n - 1, e);
    }
  }

  /** The body gets past its first n statements: each returns, or raises and is caught. */
  ghost predicate Passes(body: seq<Statement>, n: nat)
  {
    n <= |body| && forall i :: 0 <= i < n ==> body[i].raises ==> body[i].caught
  }

  /** Exactly the first n statements of the body run: all of them, or those up to the first one that
      raises and is not caught. */
  ghost predicate RunsUpTo(body: seq<Statement>, n: nat)
  {
    if Passes(body, |body|) then n == |body|
    else 0 < n <= |body| && Passes(body, n - 1) && body[n - 1].raises && !body[n - 1].caught
  }

  lemma PassesRest(body: seq<Statement>, n: nat)
    requires body != [] && (body[0].raises ==> body[0].caught)
    ensures Passes(body, n + 1) <==> Passes(body[1..], n)
  {
    if Passes(body[1..], n) {
      forall i | 0 <= i < n + 1 ensures body[i].raises ==> body[i].caught {
        assert i > 0 ==> body[i] == body[1..][i - 1];
      }
    }
  }

  lemma RunsFurther(body: seq<Statement>, m: nat)
    requires body != [] && (body[0].raises ==> body[0].caught) && RunsUpTo(body[1..], m)
    ensures RunsUpTo(body, m + 1) && (Passes(body, |body|) <==> Passes(body[1..], |body[1..]|))
  {
    PassesRest(body, |body| - 1);
    if m > 0 {
      PassesRest(body, m - 1);
    }
    hide Passes;
  }

  lemma {:induction false} BodyInside(d: Db, c: Conn, body: seq<Statement>) returns (n: nat)
    requires Holding(d, c)
    ensures Holding(RunBody(d, body).0, c)
    ensures n <= |body| && RunBody(d, body).0.log == d.log + Times(n, Ran(c))
    ensures RunsUpTo(body, n) && (RunBody(d, body).1 <==> Passes(body, |body|))
    decreases |body|
  {
    if body == [] {
      n := 0;
    } else {
      ExecuteInside(d, c, body[0]);
      hide Executed, Holding, Passes, RunsUpTo, Times;
      var (after, ok) := Executed(d, body[0]);
      if ok || body[0].caught {
        var m := BodyInside(after, c, body[1..]);
        n := m + 1;
        RunsFurther(body, m);
        TimesFront(m, Ran(c));
        assert d.log + [Ran(c)] + Times(m, Ran(c)) == d.log + ([Ran(c)] + Times(m, Ran(c)));
      } else {
        n := 1;
        StopsAtOnce(body);
        OneTime(Ran(c));
      }
    }
  }

  lemma StopsAtOnce(body: seq<Statement>)
    requires body != [] && body[0].raises && !body[0].caught
    ensures RunsUpTo(body, 1) && !Passes(body, |body|)
  {
  }

  lemma OneTime(e: PoolEvent)
    ensures Times(1, e) == [e]
  {
  }

  /** What a block that holds c adds to the log: its statements, all on c, the commit or rollback on c,
      and the return of c. */
  ghost predicate RestOfBlock(before: seq<PoolEvent>, after: seq<PoolEvent>, c: Conn, n: nat, end: seq<PoolEvent>)
  {
    && after == before + Times(n, Ran(c)) + end + [Returned(c)]
    && end in {[], [Committed(c)], [RolledBack(c)]}
  }

  lemma EndReturns(log: seq<PoolEvent>, c: Conn, end: seq<PoolEvent>)
    requires Scan(log) == (true, Some(c)) && end in {[], [Committed(c)], [RolledBack(c)]}
    ensures Scan(log + end + [Returned(c)]) == (true, None)
  {
    ScanSnoc(log, Committed(c));
    ScanSnoc(log, RolledBack(c));
    ScanSnoc(log + end, Returned(c));
    assert log + [] == log;
  }

  /** Nothing raises out of the block: no statement uncaught, nor its own code, nor the commit. */
  ghost predicate Succeeds(b: Block)
  {
    Passes(b.body, |b.body|) && !b.bodyRaises && !b.commitRaises
  }

  lemma FinishReturns(entered: Db, c: Conn, b: Block) returns (n: nat, end: seq<PoolEvent>)
    requires Holding(entered, c)
    ensures var (after, ok) := Finished(entered, c, b);
      && Idle(after) && (ok <==> Succeeds(b))
      && RunsUpTo(b.body, n) && RestOfBlock(entered.log, after.log, c, n, end)
      && (end == [Committed(c)] <==> Succeeds(b))
      && (end == [RolledBack(c)] <==> !Succeeds(b) && !b.rollbackRaises)
  {
    n := BodyInside(entered, c, b.body);
    var (body, ok) := RunBody(entered, b.body);
    end := if ok && !b.bodyRaises && !b.commitRaises then [Committed(c)]
           else if b.rollbackRaises then []
           else [RolledBack(c)];
    EndReturns(body.log, c, end);
    hide RunBody, Scan, Times;
    assert body.log + [] == body.log;
  }

  /** What a whole block on c adds to the log. */
  ghost predicate BlockLog(before: seq<PoolEvent>, after: seq<PoolEvent>, c: Conn, n: nat, end: seq<PoolEvent>)
  {
    RestOfBlock(before + [Got(c)], after, c, n, end)
  }

  /** A block whose checkout succeeds runs its statements up to the first one that raises uncaught, all on
      one connection, commits exactly when nothing raises out of it, else rolls back, and gives the
      connection back whatever raises. */
  lemma BlockKeepsOneConnection(d: Db, b: Block) returns (n: nat, end: seq<PoolEvent>)
    requires Idle(d) && b.checkout.Gives?
    ensures var (after, ok) := Transacted(d, b);
      && Idle(after) && (ok <==> Succeeds(b))
      && RunsUpTo(b.body, n) && BlockLog(d.log, after.log, b.checkout.conn, n, end)
      && (end == [Committed(b.checkout.conn)] <==> Succeeds(b))
      && (end == [RolledBack(b.checkout.conn)] <==> !Succeeds(b) && !b.rollbackRaises)
  {
    hide Finished, Scan;
    var c := b.checkout.conn;
    ScanSnoc(d.log, Got(c));
    n, end := FinishReturns(AfterAcquire(d.(inTransaction := true), b.checkout), c, b);
  }

  /** An operation leaves the adapter idle exactly when it is not a block whose own checkout fails. */
  lemma StaysIdle(d: Db, op: Op)
    requires Idle(d)
    ensures Idle(Perform(d, op)) <==> !(op.InBlock? && op.block.checkout.Fails?)
  {
    match op {
      case Run(s) => ExecuteOutside(d, s);
      case InBlock(b) =>
        if b.checkout.Gives? {
          var n, end := BlockKeepsOneConnection(d, b);
        }
    }
  }

  // ----- whole runs, blocks whose checkout fails included

  /** How an adapter can be between two operations: idle, in transaction mode without a connection, or
      in transaction mode with one. */
  datatype Phase = AtRest | Stuck | Leaking

  /** A block whose checkout fails leaves the adapter stuck, the next checkout of a statement then leaks,
      and any block that acquires a connection, new or leaked, brings the adapter to rest. */
  function NextPhase(p: Phase, op: Op): Phase
  {
    match op
    case Run(s) => if p.Stuck? && s.checkout.Gives? then Leaking else p
    case InBlock(b) => if p.Leaking? || b.checkout.Gives? then AtRest else Stuck
  }

  function PhaseAfter(ops: seq<Op>): Phase
  {
    if ops == [] then AtRest else NextPhase(PhaseAfter(ops[..|ops| - 1]), ops[|ops| - 1])
  }

  ghost predicate StuckIn(d: Db)
  {
    d.inTransaction && d.txConn.None? && d.out == {} && Scan(d.log) == (true, None)
  }

  ghost predicate Is(d: Db, p: Phase)
  {
    match p
    case AtRest => Idle(d)
    case Stuck => StuckIn(d)
    case Leaking => d.txConn.Some? && Holding(d, d.txConn.value)
  }

  lemma StuckStep(d: Db, op: Op)
    requires StuckIn(d)
    ensures Is(Perform(d, op), NextPhase(Stuck, op))
  {
    hide Finished, Scan;
    match op {
      case Run(s) =>
        if s.checkout.Gives? {
          ScanSnoc(d.log, Got(s.checkout.conn));
          ScanSnoc(d.log + [Got(s.checkout.conn)], Ran(s.checkout.conn));
        }
      case InBlock(b) =>
        if b.checkout.Gives? {
          ScanSnoc(d.log, Got(b.checkout.conn));
          var n, end := FinishReturns(AfterAcquire(d, b.checkout), b.checkout.conn, b);
        }
    }
  }

  lemma LeakingStep(d: Db, c: Conn, op: Op)
    requires Holding(d, c)
    ensures Is(Perform(d, op), NextPhase(Leaking, op))
  {
    hide Finished, Scan;
    match op {
      case Run(s) => ExecuteInside(d, c, s);
      case InBlock(b) =>
        var n, end := FinishReturns(d, c, b);
    }
  }

  lemma PhaseStep(d: Db, p: Phase, op: Op)
    requires Is(d, p)
    ensures Is(Perform(d, op), NextPhase(p, op))
  {
    hide Perform;
    match p {
      case AtRest =>
        StaysIdle(d, op);
        if op.InBlock? && op.block.checkout.Fails? {
          FailedCheckoutSticks(d, op.block);
        }
      case Stuck => StuckStep(d, op);
      case Leaking => LeakingStep(d, d.txConn.value, op);
    }
  }

  lemma FailedCheckoutSticks(d: Db, b: Block)
    requires Idle(d) && b.checkout.Fails?
    ensures StuckIn(Perform(d, InBlock(b))) && Transacted(d, b) == (d.(inTransaction := true), false)
  {
  }

  /** After every run the adapter is as its inputs say. */
  lemma {:induction false} RunPhase(ops: seq<Op>)
    ensures Is(PerformAll(START, ops), PhaseAfter(ops))
    decreases |ops|
  {
    if ops != [] {
      var k := |ops| - 1;
      RunPhase(ops[..k]);
      PhaseStep(PerformAll(START, ops[..k]), PhaseAfter(ops[..k]), ops[k]);
      hide Perform, NextPhase, Is;
    }
  }

  /** Over every run at most one connection is out at a time, only that one is used, and each was
      returned as often as it was checked out, except one that a leak still holds. The run ends idle
      exactly when no failed block checkout is left unrepaired by a later block. */
  lemma ConnectionsAreConserved(ops: seq<Op>, c: Conn)
    ensures var d := PerformAll(START, ops);
      && Scan(d.log).0
      && (Idle(d) <==> PhaseAfter(ops) == AtRest)
      && Count(d.log, Got(c)) ==
         Count(d.log, Returned(c)) + (if PhaseAfter(ops) == Leaking && d.txConn == Some(c) then 1 else 0)
  {
    RunPhase(ops);
    hide PerformAll, PhaseAfter, Scan, Count;
    CheckoutsAreReturned(PerformAll(START, ops).log, c);
  }

  /** A run without a block whose own checkout fails ends idle. */
  lemma {:induction false} NoFailedBlockEndsIdle(ops: seq<Op>)
    requires forall i :: 0 <= i < |ops| ==> !(ops[i].InBlock? && ops[i].block.checkout.Fails?)
    ensures PhaseAfter(ops) == AtRest
    decreases |ops|
  {
    if ops != [] {
      NoFailedBlockEndsIdle(ops[..|ops| - 1]);
    }
  }

  /** After a block whose checkout failed, the adapter still believes it is in a transaction: the next
      statement keeps its connection out, uncommitted, until some block ends. */
  lemma FailedCheckoutLeaks(d: Db, b: Block, s: Statement, next: Block)
    requires Idle(d) && b.checkout.Fails? && s.checkout.Gives?
    ensures var c := s.checkout.conn;
      var leaked := Executed(Transacted(d, b).0, s).0;
      && Holding(leaked, c) && leaked.log == d.log + [Got(c)] + [Ran(c)]
      && Idle(Transacted(leaked, next).0)
  {
    hide Finished, Scan;
    var c := s.checkout.conn;
    var leaked := Executed(Transacted(d, b).0, s).0;
    ScanSnoc(d.log, Got(c));
    ScanSnoc(d.log + [Got(c)], Ran(c));
    var n, end := FinishReturns(leaked, c, next);
  }

  // ----- the objects

  class ConnectionPool {
    var out: set<Conn>
    ghost var log: seq<PoolEvent>

    constructor ()
      ensures out == {} && log == []
    {
      out, log := {}, [];
    }

    method GetConn(c: Conn)
      modifies this
      ensures out == old(out) + {c} && log == old(log) + [Got(c)]
    {
      out := out + {c};
      log := log + [Got(c)];
    }

    method PutConn(c: Conn)
      modifies this
      ensures out == old(out) - {c} && log == old(log) + [Returned(c)]
    {
      out := out - {c};
      log := log + [Returned(c)];
    }

    /** Something done on a connection. */
    ghost method Use(e: PoolEvent)
      modifies this`log
      ensures log == old(log) + [e]
    {
      log := log + [e];
    }
  }

  class PooledAdapter {
    const pool: ConnectionPool
    var txConn: Option<Conn>
    var inTransaction: bool

    constructor (pool: ConnectionPool)
      ensures this.pool == pool && !inTransaction && txConn == None
    {
      this.pool, txConn, inTransaction := pool, None, false;
    }

    ghost function Contents(): Db
      reads this, pool
    {
      Db(inTransaction, txConn, pool.out, pool.log)
    }

    method Acquire(checkout: Checkout) returns (conn: Option<Conn>)
      modifies this`txConn, pool
      ensures conn == AcquiredConn(old(Contents()), checkout) && Contents() == AfterAcquire(old(Contents()), checkout)
    {
      if inTransaction && txConn.Some? {
        return txConn;
      }
      if checkout.Fails? {
        return None;
      }
      pool.GetConn(checkout.conn);
      if inTransaction {
        txConn := Some(checkout.conn);
      }
      return Some(checkout.conn);
    }

    method Release(conn: Conn)
      modifies pool
      ensures Contents() == if old(inTransaction) then old(Contents()) else PutBack(old(Contents()), conn)
    {
      if inTransaction {
        return;
      }
      pool.PutConn(conn);
    }

    method Execute(s: Statement) returns (ok: bool)
      modifies this`txConn, pool
      ensures (Contents(), ok) == Executed(old(Contents()), s)
    {
      var conn := Acquire(s.checkout);
      if conn.None? {
        return false;
      }
      pool.Use(Ran(conn.value));
      ok := !s.raises;
      if ok && !inTransaction {
        ok := !s.commitRaises;
        if ok {
          pool.Use(Committed(conn.value));
        }
      }
      if !inTransaction {
        Release(conn.value);
      }
    }

    method Transaction(b: Block) returns (ok: bool)
      modifies this, pool
      ensures (Contents(), ok) == Transacted(old(Contents()), b)
    {
      inTransaction := true;
      var conn := Acquire(b.checkout);
      if conn.None? {
        return false;
      }
      ghost var entered := Contents();
      ok := true;
      var i := 0;
      while i < |b.body| && ok
        invariant i <= |b.body| && inTransaction
        invariant if ok then RunBody(Contents(), b.body[i..]) == RunBody(entered, b.body)
                  else (Contents(), false) == RunBody(entered, b.body)
        decreases |b.body| - i
      {
        assert b.body[i..][0] == b.body[i] && b.body[i..][1..] == b.body[i + 1..];
        var fine := Execute(b.body[i]);
        ok := fine || b.body[i].caught;
        i := i + 1;
      }
      ok := ok && !b.bodyRaises && !b.commitRaises;
      if ok {
        pool.Use(Committed(conn.value));
      } else if !b.rollbackRaises {
        pool.Use(RolledBack(conn.value));
      }
      inTransaction := false;
      if txConn.Some? {
        pool.PutConn(txConn.value);
        txConn := None;
      }
    }
  }
}
