/**
 The executions table of acta_db/src/execution.c.  Every public function is a number of SELECTs that may refuse the call
 and one guarded UPDATE; each of these statements is atomic, a whole call is not.
 */
module Executions {
  import opened Db

  datatype Status = Pending | Running | Completed | Failed | Cancelled

  datatype Row = Row(
    contextId: int, skillRevisionId: int, modelRevisionId: int, parentId: int,
    status: Status, rawResponse: Option<string>, result: Option<string>, error: Option<string>,
    createdAt: string, startedAt: Option<string>, completedAt: Option<string>, deletedAt: Option<string>)

  type Rows = map<int, Row>

  datatype Call =
    | Start(id: int)
    | Cancel(id: int)
    | Complete(id: int, result: Option<string>)
    | Fail(id: int, error: Option<string>)
    | Reset(id: int)
    | Delete(id: int)
    | Restore(id: int)
    | SetRawResponse(id: int, raw: Option<string>)

  // The WHERE clause of the UPDATE, beyond the id
  predicate Guard(r: Row, c: Call) {
    match c
    case Start(_) => r.status == Pending
    case Cancel(_) => r.status == Pending || r.status == Running
    case Complete(_, _) => r.status == Running
    case Fail(_, _) => r.status == Running
    case Reset(_) => r.status == Failed
    case Delete(_) => r.status != Running && r.deletedAt.None?
    case Restore(_) => r.deletedAt.Some?
    case SetRawResponse(_, _) => true
  }

  // The SET clause
  function Effect(r: Row, c: Call, now: string): Row {
    match c
    case Start(_) => r.(status := Running, startedAt := Some(now))
    case Cancel(_) => r.(status := Cancelled, completedAt := Some(now))
    case Complete(_, result) => r.(status := Completed, result := result, completedAt := Some(now))
    case Fail(_, error) => r.(status := Failed, error := error, completedAt := Some(now))
    case Reset(_) =>
      r.(status := Pending, error := None, rawResponse := None, startedAt := None, completedAt := None)
    case Delete(_) => r.(deletedAt := Some(now))
    case Restore(_) => r.(deletedAt := None)
    case SetRawResponse(_, raw) => r.(rawResponse := raw)
  }

  // The UPDATE statement, and the code returned when it changed no row
  function Update(rows: Rows, c: Call, now: string): (Rows, Rc) {
    if c.id in rows && Guard(rows[c.id], c) then (rows[c.id := Effect(rows[c.id], c, now)], OK)
    else (rows, if c.Restore? || c.SetRawResponse? then NOT_FOUND else INVALID)
  }

  // What a SELECT tells its caller: go on to the next SELECT, go on to the UPDATE, or return
  datatype Verdict = Again | Proceed | Refuse(rc: Rc)

  // exec_verify_status
  function VerifyStatus(rows: Rows, id: int, expected: Status): Rc {
    if id !in rows then NOT_FOUND else if rows[id].status == expected then OK else INVALID
  }

  function Selects(c: Call): nat {
    match c
    case Cancel(_) => 2
    case Restore(_) => 0
    case SetRawResponse(_, _) => 0
    case _ => 1
  }

  function OnOk(rc: Rc): Verdict { if rc == OK then Proceed else Refuse(rc) }

  // The k-th SELECT of a call
  function Select(rows: Rows, c: Call, k: nat): Verdict
    requires k < Selects(c)
  {
    match c
    case Start(id) => OnOk(VerifyStatus(rows, id, Pending))
    case Cancel(id) =>
      if k == 1 then OnOk(VerifyStatus(rows, id, Running))
      else var rc := VerifyStatus(rows, id, Pending); if rc == INVALID then Again else OnOk(rc)
    case Complete(id, _) => OnOk(VerifyStatus(rows, id, Running))
    case Fail(id, _) => OnOk(VerifyStatus(rows, id, Running))
    case Reset(id) =>
      if id !in rows || rows[id].deletedAt.Some? then Refuse(NOT_FOUND)
      else if rows[id].status == Failed then Proceed
      else Refuse(INVALID)
    case Delete(id) =>
      if id !in rows || rows[id].deletedAt.Some? then Refuse(NOT_FOUND)
      else if rows[id].status == Running then Refuse(INVALID)
      else Proceed
  }

  // The call as its documentation has it, nothing happening in between: allowed from these rows only.
  predicate Allowed(r: Row, c: Call) {
    match c
    case Start(_) => r.status == Pending
    case Cancel(_) => r.status in {Pending, Running}
    case Complete(_, _) => r.status == Running
    case Fail(_, _) => r.status == Running
    case Reset(_) => r.status == Failed && r.deletedAt.None?
    case Delete(_) => r.status != Running && r.deletedAt.None?
    case Restore(_) => r.deletedAt.Some?
    case SetRawResponse(_, _) => true
  }

  function Atomically(rows: Rows, c: Call, now: string): (Rows, Rc) {
    if c.id !in rows then (rows, NOT_FOUND)
    else if Allowed(rows[c.id], c) then (rows[c.id := Effect(rows[c.id], c, now)], OK)
    else if c.Restore? || ((c.Delete? || c.Reset?) && rows[c.id].deletedAt.Some?) then (rows, NOT_FOUND)
    else (rows, INVALID)
  }

  // A call its SELECTs have let through, nothing happening in between, does what it does run alone.
  lemma UpdateAlone(rows: Rows, c: Call, now: string)
    requires Selects(c) == 0 || (c.id in rows && Allowed(rows[c.id], c))
    ensures Update(rows, c, now) == Atomically(rows, c, now)
  {
  }

  // The public functions, no other client acting between their statements
  class ExecutionStore {
    var rows: Rows

    // The statements of one call: its SELECTs, which may refuse it, and its guarded UPDATE
    method Perform(c: Call, now: string) returns (rc: Rc)
      modifies this
      ensures (rows, rc) == Atomically(old(rows), c, now)
    {
      var k := 0;
      while k < Selects(c)
        invariant k <= Selects(c) && rows == old(rows)
        invariant k == 1 && c.Cancel? ==> c.id in rows && rows[c.id].status != Pending
        invariant k > 0 && k == Selects(c) ==> c.id in rows && Allowed(rows[c.id], c)
      {
        match Select(rows, c, k) {
          case Again => k := k + 1;
          case Proceed => k := Selects(c);
          case Refuse(e) => return e;
        }
      }
      if c.id in rows && Guard(rows[c.id], c) {
        rows := rows[c.id := Effect(rows[c.id], c, now)];
        return OK;
      }
      rc := if c.Restore? || c.SetRawResponse? then NOT_FOUND else INVALID;
    }

    method Start(id: int, now: string) returns (rc: Rc)
      modifies this
      ensures (rows, rc) == Atomically(old(rows), Call.Start(id), now)
      ensures rc == if id !in old(rows) then NOT_FOUND else if old(rows)[id].status == Pending then OK else INVALID
      ensures rc == OK ==>
        rows == old(rows)[id := old(rows)[id].(status := Running, startedAt := Some(now))]
      ensures rc != OK ==> rows == old(rows)
    {
      rc := Perform(Call.Start(id), now);
    }

    method Cancel(id: int, now: string) returns (rc: Rc)
      modifies this
      ensures (rows, rc) == Atomically(old(rows), Call.Cancel(id), now)
      ensures rc == if id !in old(rows) then NOT_FOUND
        else if old(rows)[id].status in {Pending, Running} then OK else INVALID
      ensures rc == OK ==>
        rows == old(rows)[id := old(rows)[id].(status := Cancelled, completedAt := Some(now))]
      ensures rc != OK ==> rows == old(rows)
    {
      rc := Perform(Call.Cancel(id), now);
    }

    method Complete(id: int, result: Option<string>, now: string) returns (rc: Rc)
      modifies this
      ensures (rows, rc) == Atomically(old(rows), Call.Complete(id, result), now)
      ensures rc == if id !in old(rows) then NOT_FOUND else if old(rows)[id].status == Running then OK else INVALID
      ensures rc == OK ==>
        rows == old(rows)[id := old(rows)[id].(status := Completed, result := result, completedAt := Some(now))]
      ensures rc != OK ==> rows == old(rows)
    {
      rc := Perform(Call.Complete(id, result), now);
    }

    method Fail(id: int, error: Option<string>, now: string) returns (rc: Rc)
      modifies this
      ensures (rows, rc) == Atomically(old(rows), Call.Fail(id, error), now)
      ensures rc == if id !in old(rows) then NOT_FOUND else if old(rows)[id].status == Running then OK else INVALID
      ensures rc == OK ==>
        rows == old(rows)[id := old(rows)[id].(status := Failed, error := error, completedAt := Some(now))]
      ensures rc != OK ==> rows == old(rows)
    {
      rc := Perform(Call.Fail(id, error), now);
    }

    method Reset(id: int) returns (rc: Rc)
      modifies this
      ensures (rows, rc) == Atomically(old(rows), Call.Reset(id), "")
      ensures rc == if id !in old(rows) || old(rows)[id].deletedAt.Some? then NOT_FOUND
        else if old(rows)[id].status == Failed then OK else INVALID
      ensures rc == OK ==>
        rows == old(rows)[id := old(rows)[id].(status := Pending, error := None, rawResponse := None, startedAt := None,
                                         completedAt := None)]
      ensures rc != OK ==> rows == old(rows)
    {
      rc := Perform(Call.Reset(id), "");
    }

    method Delete(id: int, now: string) returns (rc: Rc)
      modifies this
      ensures (rows, rc) == Atomically(old(rows), Call.Delete(id), now)
      ensures rc == if id !in old(rows) || old(rows)[id].deletedAt.Some? then NOT_FOUND
        else if old(rows)[id].status == Running then INVALID else OK
      ensures rc == OK ==>
        rows == old(rows)[id := old(rows)[id].(deletedAt := Some(now))]
      ensures rc != OK ==> rows == old(rows)
    {
      rc := Perform(Call.Delete(id), now);
    }

    method Restore(id: int) returns (rc: Rc)
      modifies this
      ensures (rows, rc) == Atomically(old(rows), Call.Restore(id), "")
      ensures rc == if id in old(rows) && old(rows)[id].deletedAt.Some? then OK else NOT_FOUND
      ensures rc == OK ==>
        rows == old(rows)[id := old(rows)[id].(deletedAt := None)]
      ensures rc != OK ==> rows == old(rows)
    {
      rc := Perform(Call.Restore(id), "");
    }

    method SetRawResponse(id: int, raw: Option<string>) returns (rc: Rc)
      modifies this
      ensures (rows, rc) == Atomically(old(rows), Call.SetRawResponse(id, raw), "")
      ensures rc == if id in old(rows) then OK else NOT_FOUND
      ensures rc == OK ==>
        rows == old(rows)[id := old(rows)[id].(rawResponse := raw)]
      ensures rc != OK ==> rows == old(rows)
    {
      rc := Perform(Call.SetRawResponse(id, raw), "");
    }
  }

  // What every row satisfies
  predicate RowOk(r: Row) {
    && (r.result.Some? ==> r.status == Completed)
    && (r.error.Some? ==> r.status == Failed)
    && (r.status == Pending ==> r.startedAt.None? && r.completedAt.None?)
    && (r.status == Running ==> r.startedAt.Some? && r.completedAt.None?)
    && (r.status in {Completed, Failed} ==> r.startedAt.Some?)
    && (r.status in {Completed, Failed, Cancelled} ==> r.completedAt.Some?)
  }

  // A row as the INSERT of acta_db_execution_create leaves it
  function Fresh(contextId: int, skillRevisionId: int, modelRevisionId: int, parentId: int, now: string): (r: Row)
    ensures RowOk(r) && r.status == Pending
    ensures r.contextId == contextId && r.skillRevisionId == skillRevisionId && r.modelRevisionId == modelRevisionId
    ensures r.parentId == parentId && r.createdAt == now && r.rawResponse.None? && r.deletedAt.None?
  {
    Row(contextId, skillRevisionId, modelRevisionId, parentId, Pending, None, None, None, now, None, None, None)
  }

  // No UPDATE leaves a row in a bad shape, moves a completed or cancelled row, or touches its result.
  lemma UpdateKeepsRows(rows: Rows, c: Call, now: string)
    requires forall i | i in rows :: RowOk(rows[i])
    ensures var after := Update(rows, c, now).0;
      && after.Keys == rows.Keys
      && (forall i | i in after :: RowOk(after[i]))
      && (forall i | i in after && rows[i].status in {Completed, Cancelled} ::
            after[i].status == rows[i].status && after[i].result == rows[i].result)
  {
  }
}
