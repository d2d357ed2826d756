/**
 Any number of clients (runner, CLI, sweep, exit hook) calling the functions of Executions on one table, interleaved
 statement by statement.
 */
module Interleaving {
  import opened Db
  import opened Executions

  // At(c, k): the next statement of call c is its k-th SELECT, or its UPDATE when k == Selects(c).
  datatype Pc = Idle | At(call: Call, k: nat)

  datatype Event =
    | Inserted(id: int, row: Row)
    | Returned(client: nat, call: Call, now: string, rc: Rc)

  // hist: the INSERTs and the returns, in the order of the statements behind them
  datatype Sys = Sys(rows: Rows, nextId: int, pcs: map<nat, Pc>, hist: seq<Event>)

  datatype Action =
    | Insert(contextId: int, skillRevisionId: int, modelRevisionId: int, parentId: int, now: string)
    | Begin(client: nat, call: Call)
    | Advance(client: nat, now: string)

  const INITIAL := Sys(map[], 1, map[], [])

  function PcOf(s: Sys, client: nat): Pc { if client in s.pcs then s.pcs[client] else Idle }

  function Return(s: Sys, client: nat, call: Call, now: string, rc: Rc): Sys {
    s.(pcs := s.pcs[client := Idle], hist := s.hist + [Returned(client, call, now, rc)])
  }

  // One statement of one client; an action that does not apply does nothing.
  function Step(s: Sys, a: Action): Sys {
    match a
    case Insert(c, sk, m, p, now) =>
      var row := Fresh(c, sk, m, p, now);
      s.(rows := s.rows[s.nextId := row], nextId := s.nextId + 1, hist := s.hist + [Inserted(s.nextId, row)])
    case Begin(client, call) =>
      if PcOf(s, client) == Idle then s.(pcs := s.pcs[client := At(call, 0)]) else s
    case Advance(client, now) =>
      match PcOf(s, client)
      case Idle => s
      case At(call, k) =>
        if k < Selects(call) then
          match Select(s.rows, call, k)
          case Again => s.(pcs := s.pcs[client := At(call, k + 1)])
          case Proceed => s.(pcs := s.pcs[client := At(call, Selects(call))])
          case Refuse(rc) => Return(s, client, call, now, rc)
        else
          var (rows, rc) := Update(s.rows, call, now);
          Return(s.(rows := rows), client, call, now, rc)
  }

  function RunAll(s: Sys, actions: seq<Action>): Sys {
    if actions == [] then s else Step(RunAll(s, actions[..|actions| - 1]), actions[|actions| - 1])
  }

  // The history read as a sequential one: calls that returned OK take effect at once, the others not at all.
  function Apply(rows: Rows, e: Event): Rows {
    match e
    case Inserted(id, row) => rows[id := row]
    case Returned(_, c, now, rc) => if rc == OK && c.id in rows then rows[c.id := Effect(rows[c.id], c, now)] else rows
  }

  function Replay(hist: seq<Event>): Rows {
    if hist == [] then map[] else Apply(Replay(hist[..|hist| - 1]), hist[|hist| - 1])
  }

  // The one effect a call can have that it could not have alone
  predicate StaleReset(rows: Rows, c: Call) { c.Reset? && c.id in rows && rows[c.id].deletedAt.Some? }

  // A call that returned OK found its row in a status from which it is legal, and did what it does when run alone.
  predicate Legal(rows: Rows, e: Event) {
    match e
    case Inserted(id, row) =>
      id !in rows
      && row == Fresh(row.contextId, row.skillRevisionId, row.modelRevisionId, row.parentId, row.createdAt)
    case Returned(_, c, now, rc) =>
      rc == OK ==>
        && c.id in rows && Guard(rows[c.id], c)
        && (Atomically(rows, c, now) == (Apply(rows, e), OK) <==> !StaleReset(rows, c))
  }

  predicate AllLegal(hist: seq<Event>) {
    hist != [] ==> AllLegal(hist[..|hist| - 1]) && Legal(Replay(hist[..|hist| - 1]), hist[|hist| - 1])
  }

  predicate Explained(s: Sys) {
    && s.rows == Replay(s.hist) && AllLegal(s.hist)
    && s.nextId > 0 && (forall i | i in s.rows :: 0 < i < s.nextId)
    && (forall client | client in s.pcs && s.pcs[client].At? :: s.pcs[client].k <= Selects(s.pcs[client].call))
  }

  lemma AppendEvent(hist: seq<Event>, e: Event)
    ensures Replay(hist + [e]) == Apply(Replay(hist), e)
    ensures AllLegal(hist + [e]) <==> AllLegal(hist) && Legal(Replay(hist), e)
  {
    assert (hist + [e])[..|hist|] == hist;
  }

  lemma GuardedUpdateIsLegal(rows: Rows, client: nat, c: Call, now: string)
    ensures var (rows', rc) := Update(rows, c, now);
      Legal(rows, Returned(client, c, now, rc)) && rows' == Apply(rows, Returned(client, c, now, rc))
  {
  }

  lemma StepKeepsExplained(s: Sys, a: Action)
    requires Explained(s)
    ensures Explained(Step(s, a))
  {
    hide Replay, AllLegal, Legal;
    match a
    case Insert(c, sk, m, p, now) =>
      var e := Inserted(s.nextId, Fresh(c, sk, m, p, now));
      AppendEvent(s.hist, e);
      assert Legal(s.rows, e) by {
        FreshIsLegal(s.rows, s.nextId, c, sk, m, p, now);
      }
    case Begin(client, call) =>
    case Advance(client, now) =>
      if PcOf(s, client).At? {
        var c, k := PcOf(s, client).call, PcOf(s, client).k;
        if k < Selects(c) {
          if Select(s.rows, c, k).Refuse? {
            RefusalIsLegal(s.rows, client, c, k, now);
            AppendEvent(s.hist, Returned(client, c, now, Select(s.rows, c, k).rc));
          }
        } else {
          GuardedUpdateIsLegal(s.rows, client, c, now);
          AppendEvent(s.hist, Returned(client, c, now, Update(s.rows, c, now).1));
        }
      }
  }

  lemma FreshIsLegal(rows: Rows, id: int, c: int, sk: int, m: int, p: int, now: string)
    requires id !in rows
    ensures Legal(rows, Inserted(id, Fresh(c, sk, m, p, now)))
  {
  }

  lemma RefusalIsLegal(rows: Rows, client: nat, c: Call, k: nat, now: string)
    requires k < Selects(c) && Select(rows, c, k).Refuse?
    ensures var rc := Select(rows, c, k).rc; rc != OK && Legal(rows, Returned(client, c, now, rc))
    ensures Apply(rows, Returned(client, c, now, Select(rows, c, k).rc)) == rows
  {
  }

  // Under every interleaving the table is what the calls that returned OK produce when each is run alone, in the order
  // of their UPDATEs; a stale reset is the one call that alone would have been refused.
  lemma {:induction false} EveryInterleavingIsExplained(actions: seq<Action>)
    ensures Explained(RunAll(INITIAL, actions))
  {
    if actions != [] {
      EveryInterleavingIsExplained(actions[..|actions| - 1]);
      StepKeepsExplained(RunAll(INITIAL, actions[..|actions| - 1]), actions[|actions| - 1]);
    }
  }

  lemma {:induction false} HistoryKeepsRows(hist: seq<Event>)
    requires AllLegal(hist)
    ensures forall i | i in Replay(hist) :: RowOk(Replay(hist)[i])
  {
    if hist != [] {
      var before, e := hist[..|hist| - 1], hist[|hist| - 1];
      HistoryKeepsRows(before);
      if e.Returned? && e.rc == OK {
        UpdateKeepsRows(Replay(before), e.call, e.now);
      }
    }
  }

  // Result only on completed rows, error only on failed ones, stamps as the status says - at all times.
  lemma {:induction false} EveryReachableRowIsOk(actions: seq<Action>)
    ensures forall i | i in RunAll(INITIAL, actions).rows :: RowOk(RunAll(INITIAL, actions).rows[i])
  {
    EveryInterleavingIsExplained(actions);
    HistoryKeepsRows(RunAll(INITIAL, actions).hist);
  }

  // A row once completed or cancelled keeps status and result, whatever the clients do next.
  lemma {:induction false} TerminalRowsStay(actions: seq<Action>, more: seq<Action>, id: int)
    requires id in RunAll(INITIAL, actions).rows
    requires RunAll(INITIAL, actions).rows[id].status in {Completed, Cancelled}
    ensures var before, after := RunAll(INITIAL, actions).rows, RunAll(INITIAL, actions + more).rows;
      id in after && after[id].status == before[id].status && after[id].result == before[id].result
  {
    hide Step;
    if more == [] {
      assert actions + more == actions;
    } else {
      var prefix := actions + more[..|more| - 1];
      TerminalRowsStay(actions, more[..|more| - 1], id);
      assert (actions + more)[..|actions + more| - 1] == prefix;
      StepKeepsTerminal(prefix, more[|more| - 1], id);
    }
  }

  lemma StepKeepsTerminal(prefix: seq<Action>, a: Action, id: int)
    requires id in RunAll(INITIAL, prefix).rows
    requires RunAll(INITIAL, prefix).rows[id].status in {Completed, Cancelled}
    ensures var before, after := RunAll(INITIAL, prefix).rows, Step(RunAll(INITIAL, prefix), a).rows;
      id in after && after[id].status == before[id].status && after[id].result == before[id].result
  {
    hide RunAll, AllLegal, Replay;
    var s := RunAll(INITIAL, prefix);
    EveryInterleavingIsExplained(prefix);
    EveryReachableRowIsOk(prefix);
    if a.Advance? && PcOf(s, a.client).At? {
      UpdateKeepsRows(s.rows, PcOf(s, a.client).call, a.now);
    }
  }

  lemma {:induction false} RunsCompose(s: Sys, a: seq<Action>, b: seq<Action>)
    ensures RunAll(s, a + b) == RunAll(RunAll(s, a), b)
  {
    if b == [] {
      assert a + b == a;
    } else {
      assert (a + b)[..|a + b| - 1] == a + b[..|b| - 1];
      RunsCompose(s, a, b[..|b| - 1]);
    }
  }

  // A whole call, nobody else acting: no call has more than two SELECTs, and a client that has returned rests.
  function Turn(client: nat, c: Call, now: string): seq<Action> {
    [Begin(client, c), Advance(client, now), Advance(client, now), Advance(client, now)]
  }

  lemma TurnSteps(s: Sys, client: nat, c: Call, now: string)
    ensures RunAll(s, Turn(client, c, now)) ==
      Step(Step(Step(Step(s, Begin(client, c)), Advance(client, now)), Advance(client, now)), Advance(client, now))
  {
    hide Step;
    var t := Turn(client, c, now);
    assert t[..3][..2] == t[..2] && t[..2][..1] == t[..1] && t[..1][..0] == [];
    assert RunAll(s, t[..1]) == Step(s, t[0]);
    assert RunAll(s, t[..2]) == Step(RunAll(s, t[..1]), t[1]);
    assert RunAll(s, t[..3]) == Step(RunAll(s, t[..2]), t[2]);
  }

  // The SELECTs of a call, nobody else acting, decide as the call run alone does.
  lemma OneSelect(rows: Rows, c: Call)
    requires Selects(c) == 1
    ensures Select(rows, c, 0) == Proceed <==> c.id in rows && Allowed(rows[c.id], c)
    ensures match Select(rows, c, 0)
      case Again => false
      case Proceed => true
      case Refuse(rc) => forall now :: Atomically(rows, c, now) == (rows, rc)
  {
  }

  lemma CancelSelects(rows: Rows, id: int)
    ensures match Select(rows, Cancel(id), 0)
      case Again => id in rows && rows[id].status != Pending
      case Proceed => id in rows && rows[id].status == Pending
      case Refuse(rc) => forall now :: Atomically(rows, Cancel(id), now) == (rows, rc)
    ensures id in rows && rows[id].status != Pending ==> match Select(rows, Cancel(id), 1)
      case Again => false
      case Proceed => rows[id].status == Running
      case Refuse(rc) => forall now :: Atomically(rows, Cancel(id), now) == (rows, rc)
  {
  }

  // The system after a whole call
  function After(s: Sys, client: nat, c: Call, now: string): Sys {
    var (rows, rc) := Atomically(s.rows, c, now);
    Sys(rows, s.nextId, s.pcs[client := Idle], s.hist + [Returned(client, c, now, rc)])
  }

  lemma NoSelectAlone(s: Sys, client: nat, c: Call, now: string)
    requires PcOf(s, client) == At(c, 0) && Selects(c) == 0
    ensures Step(s, Advance(client, now)) == After(s, client, c, now)
  {
    UpdateAlone(s.rows, c, now);
    hide Update, Atomically;
  }

  lemma OneSelectAlone(s: Sys, client: nat, c: Call, now: string)
    requires PcOf(s, client) == At(c, 0) && Selects(c) == 1
    ensures Step(Step(s, Advance(client, now)), Advance(client, now)) == After(s, client, c, now)
  {
    OneSelect(s.rows, c);
    if Select(s.rows, c, 0) == Proceed {
      UpdateAlone(s.rows, c, now);
    }
    hide Select, Update, Atomically, Allowed, Selects;
    var t := Step(s, Advance(client, now));
    assert t.pcs[client := Idle] == s.pcs[client := Idle];
  }

  lemma CancelAlone(s: Sys, client: nat, id: int, now: string)
    requires PcOf(s, client) == At(Cancel(id), 0)
    ensures Step(Step(Step(s, Advance(client, now)), Advance(client, now)), Advance(client, now))
      == After(s, client, Cancel(id), now)
  {
    CancelSelects(s.rows, id);
    if id in s.rows && Allowed(s.rows[id], Cancel(id)) {
      UpdateAlone(s.rows, Cancel(id), now);
    }
    assert Selects(Cancel(id)) == 2;
    hide Select, Update, Atomically, Selects;
    var t := Step(s, Advance(client, now));
    assert t.pcs[client := Idle] == s.pcs[client := Idle];
    var u := Step(t, Advance(client, now));
    assert u.pcs[client := Idle] == s.pcs[client := Idle];
  }

  lemma RestingClient(s: Sys, client: nat, now: string)
    requires PcOf(s, client) == Idle
    ensures Step(s, Advance(client, now)) == s
  {
  }

  // Run alone, the statements of a call do what ExecutionStore does.
  lemma AloneIsAtomic(s: Sys, client: nat, c: Call, now: string)
    requires PcOf(s, client) == Idle
    ensures RunAll(s, Turn(client, c, now)) == After(s, client, c, now)
  {
    TurnSteps(s, client, c, now);
    var s1 := Step(s, Begin(client, c));
    assert s1.pcs[client := Idle] == s.pcs[client := Idle];
    assert After(s1, client, c, now) == After(s, client, c, now);
    hide RunAll, Turn;
    RestingClient(After(s, client, c, now), client, now);
    if c.Cancel? {
      CancelAlone(s1, client, c.id, now);
    } else if Selects(c) == 1 {
      OneSelectAlone(s1, client, c, now);
    } else {
      NoSelectAlone(s1, client, c, now);
    }
  }

  // Client 0 has checked row 1 for its reset; client 1 deletes it; client 0 goes on.
  function StaleRun(row: Row): (Sys, Sys) {
    var s1 := Sys(map[1 := row], 2, map[0 := At(Reset(1), 1)], []);
    var s2 := RunAll(s1, Turn(1, Delete(1), "t"));
    (s2, Step(s2, Advance(0, "u")))
  }

  // A reset whose row is deleted between its SELECT and its UPDATE goes through.
  lemma StaleResetHappens(row: Row)
    requires row.status == Failed && row.deletedAt.None?
    ensures var s0 := Sys(map[1 := row], 2, map[], []);
      Step(Step(s0, Begin(0, Reset(1))), Advance(0, "t")) == Sys(map[1 := row], 2, map[0 := At(Reset(1), 1)], [])
    ensures var (s2, s3) := StaleRun(row);
      && s3.hist == [Returned(1, Delete(1), "t", OK), Returned(0, Reset(1), "u", OK)]
      && 1 in s3.rows && s3.rows[1].status == Pending && s3.rows[1].deletedAt.Some?
      && Atomically(s2.rows, Reset(1), "u").1 == NOT_FOUND
  {
    var s1 := Sys(map[1 := row], 2, map[0 := At(Reset(1), 1)], []);
    AloneIsAtomic(s1, 1, Delete(1), "t");
    hide RunAll, Turn;
    assert After(s1, 1, Delete(1), "t").rows == map[1 := row.(deletedAt := Some("t"))];
  }

}
