/** acta_db/src/context.c: the contexts table, whose rows only ever change their deletion mark */
module Contexts {
  import opened Db

  datatype Context = Context(kind: string, content: string, hash: string, metadata: Option<string>, deleted: bool)

  type Rows = map<int, Context>

  // Trigger contexts_soft_delete_only: any other UPDATE is refused.
  predicate OnlyDeletion(was: Context, row: Context) { row == was.(deleted := row.deleted) }

  function UpdateRow(rows: Rows, id: int, row: Context): Rows {
    if id in rows && OnlyDeletion(rows[id], row) then rows[id := row] else rows
  }

  lemma OnlyTheMarkChanges(rows: Rows, id: int, row: Context)
    ensures var after := UpdateRow(rows, id, row);
      && after.Keys == rows.Keys
      && (forall i | i in rows && i != id :: after[i] == rows[i])
      && (id in rows ==>
            && after[id].kind == rows[id].kind && after[id].content == rows[id].content
            && after[id].hash == rows[id].hash && after[id].metadata == rows[id].metadata
            && (row == rows[id].(deleted := row.deleted) ==> after[id].deleted == row.deleted))
  {
  }

  // b has the rows of a, with the same text.
  predicate SameText(a: Rows, b: Rows) {
    forall i | i in a :: i in b && OnlyDeletion(a[i], b[i])
  }

  class ContextStore {
    var rows: Rows
    var nextId: int

    ghost predicate Valid()
      reads this
    {
      nextId > 0 && forall i | i in rows :: 0 < i < nextId
    }

    constructor ()
      ensures Valid() && rows == map[]
    {
      rows, nextId := map[], 1;
    }

    method Create(kind: string, content: string, hash: string, metadata: Option<string>) returns (id: int)
      requires Valid()
      modifies this
      ensures Valid() && id !in old(rows)
      ensures rows == old(rows)[id := Context(kind, content, hash, metadata, false)]
      ensures SameText(old(rows), rows)
    {
      id := nextId;
      rows, nextId := rows[id := Context(kind, content, hash, metadata, false)], nextId + 1;
    }

    method Delete(id: int) returns (rc: Rc)
      requires Valid()
      modifies this`rows
      ensures Valid() && SameText(old(rows), rows)
      ensures rc == if id in old(rows) && !old(rows)[id].deleted then OK else NOT_FOUND
      ensures rc == OK ==> rows == old(rows)[id := old(rows)[id].(deleted := true)]
      ensures rc != OK ==> rows == old(rows)
    {
      if id in rows && !rows[id].deleted {
        rows := UpdateRow(rows, id, rows[id].(deleted := true));
        return OK;
      }
      rc := NOT_FOUND;
    }

    // Unlike models and skills, a context that is not deleted cannot be restored.
    method Restore(id: int) returns (rc: Rc)
      requires Valid()
      modifies this`rows
      ensures Valid() && SameText(old(rows), rows)
      ensures rc == if id in old(rows) && old(rows)[id].deleted then OK else NOT_FOUND
      ensures rc == OK ==> rows == old(rows)[id := old(rows)[id].(deleted := false)]
      ensures rc != OK ==> rows == old(rows)
    {
      if id in rows && rows[id].deleted {
        rows := UpdateRow(rows, id, rows[id].(deleted := false));
        return OK;
      }
      rc := NOT_FOUND;
    }
  }
}
