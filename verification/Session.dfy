/**
 The database/sql adapter over one connection: transactions (conn.go, tx.go, cubrid/tx.go) and the
 ownership of prepared handles (conn.go, rows.go, cubrid/stmt.go, cubrid/schema.go).
 */
module Session {
  import opened Bytes
  import Wire
  import Conn

  /**
   A request as the server sees it. Statements are named by the order of their creation, because a
   server may recycle its handle numbers.
   */
  datatype Request =
    | Prepare(id: nat)
    | SchemaInfo(id: nat)
    | Execute(id: nat)
    | Fetch(id: nat)
    | CloseStatement(id: nat)
    | EndTransaction(commit: bool)
    | SetParameter
    | CheckCas
    | ConClose

  /**
   What happens to a request: the answer is lost, is an error, or is a result. `opens` says whether
   the server started a transaction for it, which it can only do when autocommit is off.
   */
  datatype Reply = Lost(opens: bool) | Refused(opens: bool) | Answered(opens: bool)

  /** closed[i]: the client-side Stmt.closed flag of statement i. txOpen: the server's transaction. */
  datatype State = State(bad: bool, shut: bool, autoCommit: bool, txOpen: bool, closed: seq<bool>, log: seq<Request>)
  {
    predicate Valid() { !bad && !shut }
  }

  const FRESH := State(false, false, true, false, [], [])

  /** roundTrip. Any answer to END_TRANSACTION, even an error, has ended the server's transaction. */
  function Send(s: State, q: Request, r: Reply): (t: State)
  {
    if !s.Valid() then s
    else
      s.(log := s.log + [q], bad := r.Lost?,
         txOpen := if q.EndTransaction? && !r.Lost? then false else s.txOpen || (!s.autoCommit && r.opens))
  }

  /** The caller saw a result. */
  predicate Succeeds(s: State, r: Reply) { s.Valid() && r.Answered? }

  function SetAutoCommit(s: State, on: bool): (t: State) { s.(autoCommit := on) }

  /** Prepare and SchemaInfo: a result creates the next statement, open. */
  function Open(s: State, schema: bool, r: Reply): (t: State)
  {
    var q := if schema then SchemaInfo(|s.closed|) else Prepare(|s.closed|);
    var t := Send(s, q, r);
    if Succeeds(s, r) then t.(closed := t.closed + [false]) else t
  }

  /** Stmt.Close: the flag first, then one CLOSE_STATEMENT; nothing on a second call. */
  function CloseStmt(s: State, id: nat, r: Reply): (t: State)
  {
    if id >= |s.closed| || s.closed[id] then s else Send(s.(closed := s.closed[id := true]), CloseStatement(id), r)
  }

  /** ExecContext: prepare, execute, and the deferred close whatever execute answered. */
  function ExecContext(s: State, prep: Reply, argsOk: bool, exec: Reply, close: Reply): (t: State)
  {
    var p := Open(s, false, prep);
    if !Succeeds(s, prep) then p
    else
      var id := |s.closed|;
      var e := if argsOk then Send(p, Execute(id), exec) else p;
      CloseStmt(e, id, close)
  }

  /** QueryContext: a failed execute closes the statement; a result hands it to the returned rows. */
  function QueryContext(s: State, prep: Reply, argsOk: bool, exec: Reply, close: Reply): (t: State)
  {
    var p := Open(s, false, prep);
    if !Succeeds(s, prep) then p
    else
      var id := |s.closed|;
      var e := if argsOk then Send(p, Execute(id), exec) else p;
      if argsOk && Succeeds(p, exec) then e else CloseStmt(e, id, close)
  }

  /** Both round trips of a prepare-and-execute gave a result. */
  predicate Executes(s: State, prep: Reply, argsOk: bool, exec: Reply)
  {
    Succeeds(s, prep) && argsOk && Succeeds(Open(s, false, prep), exec)
  }

  /** The drain of a typed schema helper: FETCH until an error or the end. */
  function FetchAll(s: State, id: nat, rs: seq<Reply>): (t: State)
    decreases |rs|
  {
    if rs == [] then s
    else
      var t := Send(s, Fetch(id), rs[0]);
      if Succeeds(s, rs[0]) then FetchAll(t, id, rs[1..]) else t
  }

  /** A typed schema helper: SchemaInfo, forEachSchemaRow, and the deferred rows.Close. */
  function SchemaHelper(s: State, open: Reply, fetches: seq<Reply>, close: Reply): (t: State)
  {
    var p := Open(s, true, open);
    if !Succeeds(s, open) then p else CloseStmt(FetchAll(p, |s.closed|, fetches), |s.closed|, close)
  }

  /** BeginTx: a refused option or level leaves autocommit alone. */
  function BeginTx(s: State, supported: bool, setsLevel: bool, r: Reply): (t: State)
  {
    if !supported then s
    else if setsLevel && !Succeeds(s, r) then Send(s, SetParameter, r)
    else SetAutoCommit(if setsLevel then Send(s, SetParameter, r) else s, false)
  }

  /** tx.Commit and tx.Rollback: autocommit comes back on whatever the server said. */
  function EndTx(s: State, commit: bool, r: Reply): (t: State)
  {
    SetAutoCommit(Send(s, EndTransaction(commit), r), true)
  }

  /** ResetSession: the state, and whether it reports success. */
  function ResetSession(s: State, r: Reply): (t: (State, bool))
  {
    if !s.Valid() then (s, false)
    else if s.autoCommit then (s, true)
    else if Succeeds(s, r) then (SetAutoCommit(Send(s, EndTransaction(false), r), true), true)
    else (Send(s, EndTransaction(false), r), false)
  }

  function CloseConn(s: State, r: Reply): (t: State)
  {
    if s.shut then s else Send(s, ConClose, r).(shut := true)
  }

  datatype Op =
    | DoExec(prep: Reply, argsOk: bool, exec: Reply, close: Reply)
    | DoQuery(prep: Reply, argsOk: bool, exec: Reply, close: Reply)
    | DoPrepare(r: Reply)
    | DoStmtExec(id: nat, r: Reply)
    | DoFetch(id: nat, r: Reply)
    | DoClose(id: nat, r: Reply)
    | DoSchema(open: Reply, fetches: seq<Reply>, close: Reply)
    | DoBegin(supported: bool, setsLevel: bool, r: Reply)
    | DoEnd(commit: bool, r: Reply)
    | DoReset(r: Reply)
    | DoPing(r: Reply)
    | DoCloseConn(r: Reply)

  /** One adapter call. A closed statement refuses to execute; closing rows closes the statement they own. */
  function Step(s: State, op: Op): (t: State)
  {
    match op
    case DoExec(prep, argsOk, exec, close) => ExecContext(s, prep, argsOk, exec, close)
    case DoQuery(prep, argsOk, exec, close) => QueryContext(s, prep, argsOk, exec, close)
    case DoPrepare(r) => Open(s, false, r)
    case DoStmtExec(id, r) => if id < |s.closed| && !s.closed[id] then Send(s, Execute(id), r) else s
    case DoFetch(id, r) => if id < |s.closed| then Send(s, Fetch(id), r) else s
    case DoClose(id, r) => CloseStmt(s, id, r)
    case DoSchema(open, fetches, close) => SchemaHelper(s, open, fetches, close)
    case DoBegin(supported, setsLevel, r) => BeginTx(s, supported, setsLevel, r)
    case DoEnd(commit, r) => EndTx(s, commit, r)
    case DoReset(r) => ResetSession(s, r).0
    case DoPing(r) => Send(s, CheckCas, r)
    case DoCloseConn(r) => CloseConn(s, r)
  }

  function Run(s: State, ops: seq<Op>): (t: State)
    decreases |ops|
  {
    if ops == [] then s else Run(Step(s, ops[0]), ops[1..])
  }

  // ---------- Over the connection's bytes ----------

  /** How requests are written. */
  type Code = Request -> bytes

  function Encoded(code: Code, log: seq<Request>): (ps: seq<bytes>)
    ensures |ps| == |log|
  {
    seq(|log|, i requires 0 <= i < |log| => code(log[i]))
  }

  /** The session and the connection agree: same flags, and the payloads sent are the requests, in order. */
  ghost predicate Linked(s: State, c: Conn.State, code: Code) {
    s.bad == c.bad && s.shut == c.closed && s.autoCommit == c.autoCommit && c.log == Encoded(code, s.log)
  }

  /** What the adapter makes of a response payload. */
  function Verdict(reply: Wire.Option<bytes>, opens: bool): (r: Reply)
  {
    if reply.None? then Lost(opens) else if Wire.ReadStatus(reply.value).Fail? then Refused(opens) else Answered(opens)
  }

  /** A request of the session is a round trip of the connection, wherever its transport fails. */
  lemma SendIsTrip(s: State, c: Conn.State, code: Code, q: Request, fault: Conn.Fault, opens: bool)
    requires Linked(s, c, code)
    ensures var (d, reply) := Conn.Trip(c, code(q), fault);
            Linked(Send(s, q, Verdict(reply, opens)), d, code)
  {
    assert Encoded(code, s.log + [q]) == Encoded(code, s.log) + [code(q)];
  }

  /** Closing the session is closing the connection. */
  lemma CloseIsShut(s: State, c: Conn.State, code: Code, fault: Conn.Fault, opens: bool)
    requires Linked(s, c, code) && code(ConClose) == [Conn.FN_CON_CLOSE]
    ensures Linked(CloseConn(s, Verdict(Conn.Trip(c, code(ConClose), fault).1, opens)), Conn.Shut(c, fault), code)
  {
    if !s.shut {
      SendIsTrip(s, c, code, ConClose, fault, opens);
    }
  }

  /** What becomes of one request: where the transport fails, and whether the server opens a transaction for it. */
  datatype Fate = Fate(fault: Conn.Fault, opens: bool)

  /** The adapter's connection: a native connection and the statements prepared on it. */
  class Native {
    const nc: Conn.Connection
    const code: Code
    ghost var txOpen: bool
    ghost var log: seq<Request>
    var closed: seq<bool>

    ghost function Snap(): (s: State)
      reads this, nc
    {
      State(nc.bad, nc.closed, nc.autoCommit, txOpen, closed, log)
    }

    ghost predicate Valid()
      reads this, nc
    {
      Linked(Snap(), nc.Snap(), code) && code(ConClose) == [Conn.FN_CON_CLOSE]
    }

    constructor (nc: Conn.Connection, code: Code)
      requires nc.Snap().Valid() && nc.autoCommit && nc.log == [] && code(ConClose) == [Conn.FN_CON_CLOSE]
      ensures Valid() && Snap() == FRESH && this.nc == nc && this.code == code
    {
      this.nc, this.code, txOpen, closed, log := nc, code, false, [], [];
    }

    method RoundTrip(q: Request, f: Fate) returns (ok: bool, ghost r: Reply)
      requires Valid()
      modifies this, nc
      ensures Valid() && Snap() == Send(old(Snap()), q, r) && ok == Succeeds(old(Snap()), r) && ok == r.Answered?
      ensures r == Verdict(Conn.Trip(old(nc.Snap()), code(q), f.fault).1, f.opens)
    {
      SendIsTrip(Snap(), nc.Snap(), code, q, f.fault, f.opens);
      ghost var s := Snap();
      var reply := nc.RoundTrip(code(q), f.fault);
      r := Verdict(reply, f.opens);
      txOpen, log := Send(s, q, r).txOpen, Send(s, q, r).log;
      ok := reply.Some? && Wire.ReadStatus(reply.value).Got?;
    }

    method OpenStmt(schema: bool, f: Fate) returns (id: nat, ok: bool, ghost r: Reply)
      requires Valid()
      modifies this, nc
      ensures Valid() && Snap() == Open(old(Snap()), schema, r)
      ensures ok == Succeeds(old(Snap()), r) && id == |old(closed)|
    {
      id := |closed|;
      ok, r := RoundTrip(if schema then SchemaInfo(id) else Prepare(id), f);
      if ok {
        closed := closed + [false];
      }
    }

    method CloseStatementOf(id: nat, f: Fate) returns (ghost r: Reply)
      requires Valid()
      modifies this, nc
      ensures Valid() && Snap() == CloseStmt(old(Snap()), id, r)
    {
      r := Lost(false);
      if id >= |closed| || closed[id] {
        return;
      }
      closed := closed[id := true];
      var ok;
      ok, r := RoundTrip(CloseStatement(id), f);
    }

    method Exec(prep: Fate, argsOk: bool, exec: Fate, close: Fate) returns (ok: bool, ghost op: Op)
      requires Valid()
      modifies this, nc
      ensures Valid() && op.DoExec? && op.argsOk == argsOk && Snap() == Step(old(Snap()), op)
      ensures ok == Executes(old(Snap()), op.prep, argsOk, op.exec)
    {
      ghost var p, e, c := Lost(false), Lost(false), Lost(false);
      var id;
      id, ok, p := OpenStmt(false, prep);
      if ok {
        ok := argsOk;
        if argsOk {
          ok, e := RoundTrip(Execute(id), exec);
        }
        c := CloseStatementOf(id, close);
      }
      op := DoExec(p, argsOk, e, c);
    }

    method Query(prep: Fate, argsOk: bool, exec: Fate, close: Fate) returns (id: nat, ok: bool, ghost op: Op)
      requires Valid()
      modifies this, nc
      ensures Valid() && op.DoQuery? && op.argsOk == argsOk && Snap() == Step(old(Snap()), op)
      ensures ok == Executes(old(Snap()), op.prep, argsOk, op.exec) && id == |old(closed)|
    {
      ghost var p, e, c := Lost(false), Lost(false), Lost(false);
      id, ok, p := OpenStmt(false, prep);
      if ok {
        ok := argsOk;
        if argsOk {
          ok, e := RoundTrip(Execute(id), exec);
        }
        if !ok {
          c := CloseStatementOf(id, close);
        }
      }
      op := DoQuery(p, argsOk, e, c);
    }

    /** The drain of a schema cursor: FETCH after FETCH until one does not succeed. */
    method DrainStmt(id: nat, fetches: seq<Fate>) returns (ghost rs: seq<Reply>)
      requires Valid()
      modifies this, nc
      ensures Valid() && Snap() == FetchAll(old(Snap()), id, rs)
      ensures |rs| == |fetches| || (rs != [] && !rs[|rs| - 1].Answered?)
    {
      rs := [];
      ghost var s := Snap();
      var ok, i := true, 0;
      while ok && i < |fetches|
        invariant 0 <= i <= |fetches| && Valid() && |rs| == i
        invariant Fetched(s, id, rs) == (Snap(), ok)
        invariant !ok ==> rs != [] && !rs[|rs| - 1].Answered?
      {
        ghost var r, t := Lost(false), Snap();
        ok, r := RoundTrip(Fetch(id), fetches[i]);
        FetchedSnoc(s, id, rs, t, r);
        rs, i := rs + [r], i + 1;
      }
      FetchedIsFetchAll(s, id, rs);
    }

    /** A typed schema helper: open, drain, and close whatever the drain met. */
    method Schema(open: Fate, fetches: seq<Fate>, close: Fate) returns (ghost op: Op)
      requires Valid()
      modifies this, nc
      ensures Valid() && op.DoSchema? && Snap() == SchemaHelper(old(Snap()), op.open, op.fetches, op.close)
      ensures Succeeds(old(Snap()), op.open) && |op.fetches| != |fetches| ==>
                op.fetches != [] && !op.fetches[|op.fetches| - 1].Answered?
    {
      ghost var p, c, rs: seq<Reply> := Lost(false), Lost(false), [];
      var id, ok;
      id, ok, p := OpenStmt(true, open);
      if ok {
        rs := DrainStmt(id, fetches);
        c := CloseStatementOf(id, close);
      }
      op := DoSchema(p, rs, c);
    }

    method Begin(supported: bool, setsLevel: bool, f: Fate) returns (ok: bool, ghost r: Reply)
      requires Valid()
      modifies this, nc
      ensures Valid() && Snap() == BeginTx(old(Snap()), supported, setsLevel, r)
      ensures ok <==> supported && (setsLevel ==> Succeeds(old(Snap()), r))
      ensures if ok then !nc.autoCommit else nc.autoCommit == old(nc.autoCommit)
    {
      r := Lost(false);
      ok := supported;
      if ok && setsLevel {
        ok, r := RoundTrip(SetParameter, f);
      }
      if ok {
        nc.SetAutoCommit(false);
      }
    }

    method End(commit: bool, f: Fate) returns (ok: bool, ghost r: Reply)
      requires Valid()
      modifies this, nc
      ensures Valid() && Snap() == EndTx(old(Snap()), commit, r) && ok == Succeeds(old(Snap()), r)
    {
      ok, r := RoundTrip(EndTransaction(commit), f);
      nc.SetAutoCommit(true);
    }

    method Shutdown(f: Fate) returns (ghost r: Reply)
      requires Valid()
      modifies this, nc
      ensures Valid() && Snap() == CloseConn(old(Snap()), r)
    {
      ghost var s := Snap();
      r := Verdict(Conn.Trip(nc.Snap(), code(ConClose), f.fault).1, f.opens);
      ghost var t := CloseConn(s, r);
      CloseIsShut(s, nc.Snap(), code, f.fault, f.opens);
      nc.Shutdown(f.fault);
      txOpen, log := t.txOpen, t.log;
      assert Snap() == t;
    }

    method Reset(f: Fate) returns (ok: bool, ghost r: Reply)
      requires Valid()
      modifies this, nc
      ensures Valid() && (Snap(), ok) == ResetSession(old(Snap()), r)
    {
      r := Lost(false);
      if nc.bad || nc.closed {
        return false, r;
      }
      ok := true;
      if !nc.autoCommit {
        ok, r := RoundTrip(EndTransaction(false), f);
        if ok {
          nc.SetAutoCommit(true);
        }
      }
    }
  }

  /** A drain that has received the replies rs, and whether it goes on. */
  ghost function Fetched(s: State, id: nat, rs: seq<Reply>): (r: (State, bool))
    decreases |rs|
  {
    if rs == [] then (s, true)
    else
      var (t, goes) := Fetched(s, id, rs[..|rs| - 1]);
      if goes then (Send(t, Fetch(id), rs[|rs| - 1]), Succeeds(t, rs[|rs| - 1])) else (t, false)
  }

  lemma FetchedSnoc(s: State, id: nat, rs: seq<Reply>, t: State, r: Reply)
    requires Fetched(s, id, rs) == (t, true)
    ensures Fetched(s, id, rs + [r]) == (Send(t, Fetch(id), r), Succeeds(t, r))
  {
    assert (rs + [r])[..|rs|] == rs;
  }

  lemma {:induction false} FetchedIsFetchAll(s: State, id: nat, rs: seq<Reply>)
    ensures Fetched(s, id, rs).0 == FetchAll(s, id, rs)
    decreases |rs|
  {
    if rs != [] {
      FetchedIsFetchAll(s, id, rs[..|rs| - 1]);
      FetchAllSnoc(s, id, rs[..|rs| - 1], rs[|rs| - 1]);
      assert rs == rs[..|rs| - 1] + [rs[|rs| - 1]];
    }
  }

  /** FetchAll from the other end. */
  lemma {:induction false} FetchAllSnoc(s: State, id: nat, rs: seq<Reply>, r: Reply)
    ensures var (t, goes) := Fetched(s, id, rs);
            FetchAll(s, id, rs + [r]) == if goes then Send(t, Fetch(id), r) else t
    decreases |rs|
  {
    if rs == [] {
      assert [] + [r] == [r];
    } else {
      var s' := Send(s, Fetch(id), rs[0]);
      assert (rs + [r])[0] == rs[0] && (rs + [r])[1..] == rs[1..] + [r];
      FetchedCons(s, id, rs);
      if Succeeds(s, rs[0]) {
        FetchAllSnoc(s', id, rs[1..], r);
      }
    }
  }

  lemma {:induction false} FetchedCons(s: State, id: nat, rs: seq<Reply>)
    requires rs != []
    ensures Fetched(s, id, rs) ==
            if Succeeds(s, rs[0]) then Fetched(Send(s, Fetch(id), rs[0]), id, rs[1..])
            else (Send(s, Fetch(id), rs[0]), false)
    decreases |rs|
  {
    var m := |rs| - 1;
    if m == 0 {
      assert rs[..0] == [];
    } else {
      FetchedCons(s, id, rs[..m]);
      assert rs[..m][1..] == rs[1..][..m - 1];
    }
  }

  // ---------- No stray transaction ----------

  /** With autocommit on, a usable connection has no transaction open on the server. */
  ghost predicate NoStrayTx(s: State) { s.Valid() && s.autoCommit ==> !s.txOpen }

  lemma {:induction false} FetchAllKeeps(s: State, id: nat, rs: seq<Reply>)
    ensures var t := FetchAll(s, id, rs);
            && t.autoCommit == s.autoCommit && t.closed == s.closed && t.shut == s.shut
            && (t.Valid() ==> s.Valid()) && (NoStrayTx(s) ==> NoStrayTx(t))
            && forall j :: CloseCount(t.log, j) == CloseCount(s.log, j)
    decreases |rs|
  {
    if rs != [] {
      SendCount(s, Fetch(id), rs[0]);
      FetchAllKeeps(Send(s, Fetch(id), rs[0]), id, rs[1..]);
    }
  }

  lemma StepNoStrayTx(s: State, op: Op)
    requires NoStrayTx(s)
    ensures NoStrayTx(Step(s, op))
  {
    if op.DoSchema? {
      FetchAllKeeps(Open(s, true, op.open), |s.closed|, op.fetches);
    }
  }

  /** Over every run of adapter calls and every fate of every request. */
  lemma {:induction false} RunNoStrayTx(s: State, ops: seq<Op>)
    requires NoStrayTx(s)
    ensures NoStrayTx(Run(s, ops))
    decreases |ops|
  {
    if ops != [] {
      StepNoStrayTx(s, ops[0]);
      RunNoStrayTx(Step(s, ops[0]), ops[1..]);
    }
  }

  /** A connection that ResetSession accepts is valid, in autocommit, with no transaction left on the server. */
  lemma ResetIsNeutral(ops: seq<Op>, r: Reply)
    ensures var (t, ok) := ResetSession(Run(FRESH, ops), r);
            ok ==> t.Valid() && t.autoCommit && !t.txOpen
  {
    RunNoStrayTx(FRESH, ops);
  }

  // ---------- A transaction from begin to end ----------

  /** Calls that neither end a transaction nor close the connection. */
  ghost predicate Undisturbed(ops: seq<Op>) {
    forall i :: 0 <= i < |ops| ==> !ops[i].DoEnd? && !ops[i].DoReset? && !ops[i].DoCloseConn?
  }

  /** Autocommit is still off, an open transaction still open, and no END_TRANSACTION went out. */
  ghost predicate StillInside(s: State, t: State) {
    && !t.autoCommit && (s.txOpen ==> t.txOpen)
    && s.log <= t.log && forall i :: |s.log| <= i < |t.log| ==> !t.log[i].EndTransaction?
  }

  lemma StillInsideJoins(s: State, t: State, u: State)
    requires StillInside(s, t) && StillInside(t, u)
    ensures StillInside(s, u)
  {
    assert forall i :: |s.log| <= i < |t.log| ==> u.log[i] == t.log[i];
  }

  lemma SendStaysInside(s: State, q: Request, r: Reply)
    requires !s.autoCommit && !q.EndTransaction?
    ensures StillInside(s, Send(s, q, r))
  {
  }

  lemma CloseStaysInside(s: State, id: nat, r: Reply)
    requires !s.autoCommit
    ensures StillInside(s, CloseStmt(s, id, r))
  {
  }

  lemma OpenStaysInside(s: State, schema: bool, r: Reply)
    requires !s.autoCommit
    ensures StillInside(s, Open(s, schema, r))
  {
  }

  lemma {:induction false} FetchAllStaysInside(s: State, id: nat, rs: seq<Reply>)
    requires !s.autoCommit
    ensures StillInside(s, FetchAll(s, id, rs))
    decreases |rs|
  {
    if rs != [] {
      var t := Send(s, Fetch(id), rs[0]);
      SendStaysInside(s, Fetch(id), rs[0]);
      FetchAllStaysInside(t, id, rs[1..]);
      StillInsideJoins(s, t, FetchAll(t, id, rs[1..]));
    }
  }

  /** Prepare, execute and perhaps close, as ExecContext and QueryContext do. */
  lemma ExecStaysInside(s: State, prep: Reply, argsOk: bool, exec: Reply, close: Reply)
    requires !s.autoCommit
    ensures StillInside(s, ExecContext(s, prep, argsOk, exec, close))
    ensures StillInside(s, QueryContext(s, prep, argsOk, exec, close))
  {
    var p, id := Open(s, false, prep), |s.closed|;
    OpenStaysInside(s, false, prep);
    SendStaysInside(p, Execute(id), exec);
    var e := if argsOk then Send(p, Execute(id), exec) else p;
    CloseStaysInside(e, id, close);
    StillInsideJoins(s, p, e);
    StillInsideJoins(s, e, CloseStmt(e, id, close));
  }

  lemma SchemaStaysInside(s: State, open: Reply, fetches: seq<Reply>, close: Reply)
    requires !s.autoCommit
    ensures StillInside(s, SchemaHelper(s, open, fetches, close))
  {
    var p, id := Open(s, true, open), |s.closed|;
    OpenStaysInside(s, true, open);
    FetchAllStaysInside(p, id, fetches);
    var f := FetchAll(p, id, fetches);
    CloseStaysInside(f, id, close);
    StillInsideJoins(s, p, f);
    StillInsideJoins(s, f, CloseStmt(f, id, close));
  }

  lemma StepStaysInside(s: State, op: Op)
    requires !s.autoCommit && !op.DoEnd? && !op.DoReset? && !op.DoCloseConn?
    ensures StillInside(s, Step(s, op))
  {
    match op
    case DoExec(prep, argsOk, exec, close) => ExecStaysInside(s, prep, argsOk, exec, close);
    case DoQuery(prep, argsOk, exec, close) => ExecStaysInside(s, prep, argsOk, exec, close);
    case DoPrepare(r) => OpenStaysInside(s, false, r);
    case DoStmtExec(id, r) => SendStaysInside(s, Execute(id), r);
    case DoFetch(id, r) => SendStaysInside(s, Fetch(id), r);
    case DoClose(id, r) => CloseStaysInside(s, id, r);
    case DoSchema(open, fetches, close) => SchemaStaysInside(s, open, fetches, close);
    case DoBegin(_, _, r) => SendStaysInside(s, SetParameter, r);
    case DoPing(r) => SendStaysInside(s, CheckCas, r);
  }

  lemma {:induction false} RunStaysInside(s: State, ops: seq<Op>)
    requires !s.autoCommit && Undisturbed(ops)
    ensures StillInside(s, Run(s, ops))
    decreases |ops|
  {
    if ops != [] {
      var t := Step(s, ops[0]);
      StepStaysInside(s, ops[0]);
      RunStaysInside(t, ops[1..]);
      StillInsideJoins(s, t, Run(t, ops[1..]));
    }
  }

  /** The server's transaction starts with the first request it opens one for. */
  lemma WorkOpens(s: State, id: nat, r: Reply)
    requires s.Valid() && !s.autoCommit && id < |s.closed| && !s.closed[id] && r.opens
    ensures Step(s, DoStmtExec(id, r)).txOpen
  {
  }

  /** A request that opens a transaction with autocommit on leaves none: the server commits it at once. */
  lemma AutoCommitOpensNothing(s: State, q: Request, r: Reply)
    requires s.autoCommit && !s.txOpen
    ensures !Send(s, q, r).txOpen
  {
  }

  /**
   A transaction from BeginTx to Commit or Rollback, with any calls in between: autocommit is off from
   the successful begin to the end, nothing ends the transaction on the wire before the caller does, and
   the caller's own choice is the one END_TRANSACTION sent; whatever it is answered, autocommit is on.
   */
  lemma TransactionBracket(s: State, setsLevel: bool, r: Reply, work: seq<Op>, commit: bool, e: Reply)
    requires Undisturbed(work) && (setsLevel ==> Succeeds(s, r))
    ensures var t := Step(s, DoBegin(true, setsLevel, r));
            var u := Run(t, work);
            var v := Step(u, DoEnd(commit, e));
            && !t.autoCommit && StillInside(t, u) && v.autoCommit
            && t.log == s.log + (if setsLevel then [SetParameter] else [])
            && v.log == u.log + (if u.Valid() then [EndTransaction(commit)] else [])
            && (u.Valid() && !e.Lost? ==> !v.txOpen)
  {
    assert s.log + [] == s.log;
    RunStaysInside(Step(s, DoBegin(true, setsLevel, r)), work);
  }

  /** A refused begin changes neither autocommit nor the transaction. */
  lemma RefusedBegin(s: State, supported: bool, setsLevel: bool, r: Reply)
    requires !supported || (setsLevel && !Succeeds(s, r))
    ensures var t := Step(s, DoBegin(supported, setsLevel, r));
            t.autoCommit == s.autoCommit && (s.autoCommit ==> t.txOpen == s.txOpen)
  {
  }

  /** ResetSession rolls back exactly when a transaction may be open: one END_TRANSACTION, never a commit. */
  lemma ResetRollsBack(s: State, r: Reply)
    ensures var (t, ok) := ResetSession(s, r);
            && t.log == s.log + (if s.Valid() && !s.autoCommit then [EndTransaction(false)] else [])
            && (ok <==> s.Valid() && (s.autoCommit || r.Answered?))
            && (ok ==> t.autoCommit)
  {
    assert s.log + [] == s.log;
  }

  // ---------- What each call sends ----------

  /** ExecContext, when everything is answered: prepare, execute, close, in that order and nothing else. */
  lemma ExecSends(s: State, prep: Reply, exec: Reply, close: Reply)
    requires s.Valid() && prep.Answered? && !exec.Lost?
    ensures ExecContext(s, prep, true, exec, close).log ==
            s.log + [Prepare(|s.closed|), Execute(|s.closed|), CloseStatement(|s.closed|)]
  {
  }

  /** QueryContext, when it returns rows: prepare and execute; the close is left to the rows. */
  lemma QuerySends(s: State, prep: Reply, exec: Reply, close: Reply)
    requires s.Valid() && prep.Answered? && exec.Answered?
    ensures QueryContext(s, prep, true, exec, close).log == s.log + [Prepare(|s.closed|), Execute(|s.closed|)]
  {
  }

  /** A typed schema helper, when everything is answered: the request, a FETCH per batch, the close. */
  lemma SchemaSends(s: State, open: Reply, fetches: seq<Reply>, close: Reply)
    requires s.Valid() && open.Answered? && forall i :: 0 <= i < |fetches| ==> fetches[i].Answered?
    ensures SchemaHelper(s, open, fetches, close).log ==
            s.log + [SchemaInfo(|s.closed|)] + seq(|fetches|, _ => Fetch(|s.closed|)) + [CloseStatement(|s.closed|)]
  {
    var p, id := Open(s, true, open), |s.closed|;
    FetchAllSends(p, id, fetches);
  }

  lemma {:induction false} FetchAllSends(s: State, id: nat, rs: seq<Reply>)
    requires s.Valid() && forall i :: 0 <= i < |rs| ==> rs[i].Answered?
    ensures var t := FetchAll(s, id, rs);
            t.Valid() && t.closed == s.closed && t.log == s.log + seq(|rs|, _ => Fetch(id))
    decreases |rs|
  {
    if rs != [] {
      FetchAllSends(Send(s, Fetch(id), rs[0]), id, rs[1..]);
      assert seq(|rs|, _ => Fetch(id)) == [Fetch(id)] + seq(|rs| - 1, _ => Fetch(id));
    }
  }

  /** A closed statement, or one that was never prepared, sends nothing. */
  lemma ClosedSendsNothing(s: State, id: nat, r: Reply)
    requires id >= |s.closed| || s.closed[id]
    ensures Step(s, DoStmtExec(id, r)) == s && Step(s, DoClose(id, r)) == s
  {
  }

  // ---------- Handles ----------

  ghost function CloseCount(log: seq<Request>, id: nat): (n: nat)
  {
    if log == [] then 0
    else CloseCount(log[..|log| - 1], id) + (if log[|log| - 1] == CloseStatement(id) then 1 else 0)
  }

  lemma SendCount(s: State, q: Request, r: Reply)
    ensures forall j :: CloseCount(Send(s, q, r).log, j) ==
                        CloseCount(s.log, j) + (if s.Valid() && q == CloseStatement(j) then 1 else 0)
  {
    if s.Valid() {
      assert (s.log + [q])[..|s.log|] == s.log;
    }
  }

  /**
   An open statement was never closed on the wire; a closed one was closed at most once, and exactly
   once while the connection is valid.
   */
  ghost predicate HandlesOwned(s: State) {
    forall j: nat ::
      if j < |s.closed| && s.closed[j]
      then CloseCount(s.log, j) <= 1 && (s.Valid() ==> CloseCount(s.log, j) == 1)
      else CloseCount(s.log, j) == 0
  }

  lemma OpenOwned(s: State, schema: bool, r: Reply)
    requires HandlesOwned(s)
    ensures HandlesOwned(Open(s, schema, r))
  {
    SendCount(s, if schema then SchemaInfo(|s.closed|) else Prepare(|s.closed|), r);
  }

  lemma SendOwned(s: State, q: Request, r: Reply)
    requires HandlesOwned(s) && !q.CloseStatement?
    ensures HandlesOwned(Send(s, q, r))
  {
    SendCount(s, q, r);
  }

  lemma CloseOwned(s: State, id: nat, r: Reply)
    requires HandlesOwned(s)
    ensures HandlesOwned(CloseStmt(s, id, r))
    ensures id < |s.closed| ==> id < |CloseStmt(s, id, r).closed| && CloseStmt(s, id, r).closed[id]
  {
    if id < |s.closed| && !s.closed[id] {
      SendCount(s.(closed := s.closed[id := true]), CloseStatement(id), r);
    }
  }

  lemma StepOwned(s: State, op: Op)
    requires HandlesOwned(s)
    ensures HandlesOwned(Step(s, op))
  {
    match op
    case DoExec(prep, argsOk, exec, close) => ExecOwned(s, prep, argsOk, exec, close);
    case DoQuery(prep, argsOk, exec, close) => QueryOwned(s, prep, argsOk, exec, close);
    case DoPrepare(r) => OpenOwned(s, false, r);
    case DoClose(i, r) => CloseOwned(s, i, r);
    case DoSchema(open, fetches, close) => SchemaOwned(s, open, fetches, close);
    case _ => PlainStepOwned(s, op);
  }

  /** The calls that send one request and touch no handle. */
  lemma PlainStepOwned(s: State, op: Op)
    requires HandlesOwned(s)
    requires !op.DoExec? && !op.DoQuery? && !op.DoPrepare? && !op.DoClose? && !op.DoSchema?
    ensures HandlesOwned(Step(s, op))
  {
    match op
    case DoStmtExec(i, r) => SentOwned(s, Execute(i), r, Step(s, op));
    case DoFetch(i, r) => SentOwned(s, Fetch(i), r, Step(s, op));
    case DoBegin(_, _, r) => SentOwned(s, SetParameter, r, Step(s, op));
    case DoEnd(commit, r) => SentOwned(s, EndTransaction(commit), r, Step(s, op));
    case DoReset(r) => SentOwned(s, EndTransaction(false), r, Step(s, op));
    case DoPing(r) => SentOwned(s, CheckCas, r, Step(s, op));
    case DoCloseConn(r) => SentOwned(s, ConClose, r, Step(s, op));
  }

  /** Nothing sent, or one request that closes no statement; the flags do not matter. */
  lemma SentOwned(s: State, q: Request, r: Reply, t: State)
    requires HandlesOwned(s) && !q.CloseStatement?
    requires var u := Send(s, q, r);
             || (t.log == s.log && t.closed == s.closed && (t.Valid() ==> s.Valid()))
             || (t.log == u.log && t.closed == u.closed && (t.Valid() ==> u.Valid()))
    ensures HandlesOwned(t)
  {
    SendOwned(s, q, r);
  }

  /** ExecContext's own statement gets exactly one CLOSE_STATEMENT if the connection stays valid. */
  lemma ExecOwned(s: State, prep: Reply, argsOk: bool, exec: Reply, close: Reply)
    requires HandlesOwned(s)
    ensures var t := ExecContext(s, prep, argsOk, exec, close);
            && HandlesOwned(t)
            && (Succeeds(s, prep) && t.Valid() ==> CloseCount(t.log, |s.closed|) == 1)
  {
    var p, id := Open(s, false, prep), |s.closed|;
    OpenOwned(s, false, prep);
    if Succeeds(s, prep) {
      SendOwned(p, Execute(id), exec);
      CloseOwned(if argsOk then Send(p, Execute(id), exec) else p, id, close);
    }
  }

  lemma QueryOwned(s: State, prep: Reply, argsOk: bool, exec: Reply, close: Reply)
    requires HandlesOwned(s)
    ensures var t := QueryContext(s, prep, argsOk, exec, close);
            && HandlesOwned(t)
            && (Executes(s, prep, argsOk, exec) ==> |t.closed| == |s.closed| + 1 && !t.closed[|s.closed|])
            && (Succeeds(s, prep) && !Executes(s, prep, argsOk, exec) && t.Valid() ==>
                  CloseCount(t.log, |s.closed|) == 1)
  {
    var p, id := Open(s, false, prep), |s.closed|;
    OpenOwned(s, false, prep);
    if Succeeds(s, prep) {
      SendOwned(p, Execute(id), exec);
      CloseOwned(if argsOk then Send(p, Execute(id), exec) else p, id, close);
    }
  }

  /** A typed schema helper closes the handle it opened, however its drain ended. */
  lemma SchemaOwned(s: State, open: Reply, fetches: seq<Reply>, close: Reply)
    requires HandlesOwned(s)
    ensures var t := SchemaHelper(s, open, fetches, close);
            HandlesOwned(t) && (Succeeds(s, open) && t.Valid() ==> CloseCount(t.log, |s.closed|) == 1)
  {
    var p, id := Open(s, true, open), |s.closed|;
    OpenOwned(s, true, open);
    if Succeeds(s, open) {
      FetchAllKeeps(p, id, fetches);
      CloseOwned(FetchAll(p, id, fetches), id, close);
    }
  }

  /** Over every run: no handle is ever closed twice, and a closed handle of a valid connection was closed once. */
  lemma {:induction false} RunOwned(s: State, ops: seq<Op>)
    requires HandlesOwned(s)
    ensures HandlesOwned(Run(s, ops))
    decreases |ops|
  {
    if ops != [] {
      StepOwned(s, ops[0]);
      RunOwned(Step(s, ops[0]), ops[1..]);
    }
  }

  /** Statements stay closed and keep their place. */
  lemma StepKeepsClosed(s: State, op: Op)
    ensures |s.closed| <= |Step(s, op).closed|
    ensures forall j :: 0 <= j < |s.closed| && s.closed[j] ==> Step(s, op).closed[j]
  {
    if op.DoSchema? {
      FetchAllKeeps(Open(s, true, op.open), |s.closed|, op.fetches);
    }
  }

  lemma {:induction false} RunKeepsClosed(s: State, ops: seq<Op>)
    ensures |s.closed| <= |Run(s, ops).closed|
    ensures forall j :: 0 <= j < |s.closed| && s.closed[j] ==> Run(s, ops).closed[j]
    decreases |ops|
  {
    if ops != [] {
      StepKeepsClosed(s, ops[0]);
      RunKeepsClosed(Step(s, ops[0]), ops[1..]);
    }
  }

  /**
   Rows from QueryContext: after their first Close, and after any further calls including more
   Closes, their statement has been closed exactly once on a valid connection.
   */
  lemma QueryThenClose(before: seq<Op>, q: Op, between: seq<Op>, r: Reply, after: seq<Op>)
    requires q.DoQuery? && Executes(Run(FRESH, before), q.prep, q.argsOk, q.exec)
    ensures var s := Run(FRESH, before);
            var u := Run(Step(s, q), between);
            var t := Run(Step(u, DoClose(|s.closed|, r)), after);
            CloseCount(t.log, |s.closed|) <= 1 && (t.Valid() ==> CloseCount(t.log, |s.closed|) == 1)
  {
    var s := Run(FRESH, before);
    var id := |s.closed|;
    RunOwned(FRESH, before);
    QueryOwned(s, q.prep, q.argsOk, q.exec, q.close);
    RunOwned(Step(s, q), between);
    RunKeepsClosed(Step(s, q), between);
    var u := Run(Step(s, q), between);
    CloseOwned(u, id, r);
    RunOwned(CloseStmt(u, id, r), after);
    RunKeepsClosed(CloseStmt(u, id, r), after);
  }

  // ---------- Any run on one connection ----------

  /** An adapter call and the fate of every request it may send. */
  datatype Call =
    | CallExec(prep: Fate, argsOk: bool, exec: Fate, close: Fate)
    | CallQuery(prep: Fate, argsOk: bool, exec: Fate, close: Fate)
    | CallClose(id: nat, fate: Fate)
    | CallSchema(open: Fate, fetches: seq<Fate>, close: Fate)
    | CallBegin(supported: bool, setsLevel: bool, fate: Fate)
    | CallEnd(commit: bool, fate: Fate)
    | CallReset(fate: Fate)
    | CallCloseConn(fate: Fate)

  /** The operation is this call, with whatever its requests were answered. */
  ghost predicate Describes(call: Call, op: Op) {
    match call
    case CallExec(_, argsOk, _, _) => op.DoExec? && op.argsOk == argsOk
    case CallQuery(_, argsOk, _, _) => op.DoQuery? && op.argsOk == argsOk
    case CallClose(id, _) => op.DoClose? && op.id == id
    case CallSchema(_, _, _) => op.DoSchema?
    case CallBegin(supported, setsLevel, _) => op.DoBegin? && op.supported == supported && op.setsLevel == setsLevel
    case CallEnd(commit, _) => op.DoEnd? && op.commit == commit
    case CallReset(_) => op.DoReset?
    case CallCloseConn(_) => op.DoCloseConn?
  }

  method Perform(c: Native, call: Call) returns (ghost op: Op)
    requires c.Valid()
    modifies c, c.nc
    ensures c.Valid() && c.Snap() == Step(old(c.Snap()), op) && Describes(call, op)
  {
    var ok, id;
    ghost var r;
    match call
    case CallExec(prep, argsOk, exec, close) => ok, op := c.Exec(prep, argsOk, exec, close);
    case CallQuery(prep, argsOk, exec, close) => id, ok, op := c.Query(prep, argsOk, exec, close);
    case CallClose(i, f) =>
      r := c.CloseStatementOf(i, f);
      op := DoClose(i, r);
    case CallSchema(open, fetches, close) => op := c.Schema(open, fetches, close);
    case CallBegin(supported, setsLevel, f) =>
      ok, r := c.Begin(supported, setsLevel, f);
      op := DoBegin(supported, setsLevel, r);
    case CallEnd(commit, f) =>
      ok, r := c.End(commit, f);
      op := DoEnd(commit, r);
    case CallReset(f) =>
      ok, r := c.Reset(f);
      op := DoReset(r);
    case CallCloseConn(f) =>
      r := c.Shutdown(f);
      op := DoCloseConn(r);
  }

  /**
   Any sequence of adapter calls on one connection, its transport failing anywhere: the session stays
   linked to what the connection put on the wire, no transaction is left behind autocommit, and every
   handle is owned.
   */
  method PerformAll(c: Native, calls: seq<Call>) returns (ghost ops: seq<Op>)
    requires c.Valid() && NoStrayTx(c.Snap()) && HandlesOwned(c.Snap())
    modifies c, c.nc
    ensures c.Valid() && c.Snap() == Run(old(c.Snap()), ops)
    ensures |ops| == |calls| && forall i :: 0 <= i < |calls| ==> Describes(calls[i], ops[i])
    ensures NoStrayTx(c.Snap()) && HandlesOwned(c.Snap())
  {
    ops := [];
    for i := 0 to |calls|
      invariant c.Valid() && |ops| == i && c.Snap() == Run(old(c.Snap()), ops)
      invariant forall j :: 0 <= j < i ==> Describes(calls[j], ops[j])
    {
      ghost var op := Perform(c, calls[i]);
      RunSnoc(old(c.Snap()), ops, op);
      ops := ops + [op];
    }
    RunNoStrayTx(old(c.Snap()), ops);
    RunOwned(old(c.Snap()), ops);
  }

  lemma {:induction false} RunSnoc(s: State, ops: seq<Op>, op: Op)
    ensures Run(s, ops + [op]) == Step(Run(s, ops), op)
    decreases |ops|
  {
    if ops == [] {
      assert [] + [op] == [op];
    } else {
      assert (ops + [op])[1..] == ops[1..] + [op];
      RunSnoc(Step(s, ops[0]), ops[1..], op);
    }
  }
}
