/** What the skill folder and model folder tables have in common */
module FolderTable {
  import opened Db
  import opened Forest

  // parent 0 stands for SQL NULL, as in the C structs.
  datatype Folder = Folder(name: string, parent: int, deleted: bool)

  // nextId is the id AUTOINCREMENT gives next.
  datatype Table = Table(rows: map<int, Folder>, nextId: int)

  const EMPTY := Table(map[], 1)

  function ParentsOf(rows: map<int, Folder>): Parents { map i | i in rows :: rows[i].parent }

  function LiveParents(rows: map<int, Folder>): Parents { map i | i in rows && !rows[i].deleted :: rows[i].parent }

  predicate Live(rows: map<int, Folder>, id: int) { id in rows && !rows[id].deleted }

  predicate HasLiveChild(rows: map<int, Folder>, id: int) {
    exists i | i in rows :: rows[i].parent == id && !rows[i].deleted
  }

  // The two partial UNIQUE indexes: (NULL, name) and (parent, name), soft-deleted rows included
  predicate Clash(rows: map<int, Folder>, id: int, parent: int, name: string) {
    exists i | i in rows :: i != id && rows[i].parent == parent && rows[i].name == name
  }

  // Ids are positive and below nextId, and every parent id is that of a row.
  ghost predicate Ok(t: Table) {
    Rooted(ParentsOf(t.rows)) && t.nextId > 0 && forall i | i in t.rows :: 0 < i < t.nextId
  }

  ghost predicate IsForest(t: Table) { Acyclic(ParentsOf(t.rows)) }

  // The foreign key is checked when the INSERT is done, so the row may be its own parent.
  predicate ParentExists(t: Table, parent: int) { parent == 0 || parent in t.rows || parent == t.nextId }

  function Insert(t: Table, name: string, parent: int): Table {
    Table(t.rows[t.nextId := Folder(name, parent, false)], t.nextId + 1)
  }

  function CreateStep(t: Table, name: string, parent: int): (Table, Rc) {
    if name == "" then (t, INVALID)
    else if Clash(t.rows, t.nextId, parent, name) then (t, DUPLICATE)
    else if !ParentExists(t, parent) then (t, FK)
    else (Insert(t, name, parent), OK)
  }

  function RenameStep(t: Table, id: int, name: string): (Table, Rc) {
    if id <= 0 || name == "" then (t, INVALID)
    else if !Live(t.rows, id) then (t, NOT_FOUND)
    else if Clash(t.rows, id, t.rows[id].parent, name) then (t, DUPLICATE)
    else (t.(rows := t.rows[id := t.rows[id].(name := name)]), OK)
  }

  // `inUse`: live skills (models) lie in the folder
  function SoftDeleteStep(t: Table, id: int, inUse: bool): (Table, Rc) {
    if id <= 0 || HasLiveChild(t.rows, id) || inUse then (t, INVALID)
    else if !Live(t.rows, id) then (t, NOT_FOUND)
    else (t.(rows := t.rows[id := t.rows[id].(deleted := true)]), OK)
  }

  function Reparent(t: Table, id: int, parent: int): Table
    requires id in t.rows
  {
    t.(rows := t.rows[id := t.rows[id].(parent := parent)])
  }

  lemma ReparentParents(t: Table, id: int, parent: int)
    requires id in t.rows
    ensures ParentsOf(Reparent(t, id, parent).rows) == ParentsOf(t.rows)[id := parent]
  {
  }

  lemma SameParents(rows: map<int, Folder>, id: int, f: Folder)
    requires id in rows && f.parent == rows[id].parent
    ensures ParentsOf(rows[id := f]) == ParentsOf(rows)
  {
  }

  // No two rows, soft-deleted ones included, have the same name under the same parent.
  ghost predicate NamesUnique(t: Table) {
    forall i, j | i in t.rows && j in t.rows && i != j ::
      t.rows[i].parent != t.rows[j].parent || t.rows[i].name != t.rows[j].name
  }

  lemma WriteKeepsNames(t: Table, id: int, f: Folder, nextId: int)
    requires NamesUnique(t) && !Clash(t.rows, id, f.parent, f.name)
    ensures NamesUnique(Table(t.rows[id := f], nextId))
  {
  }

  lemma MarkKeepsNames(t: Table, id: int, deleted: bool)
    requires NamesUnique(t) && id in t.rows
    ensures NamesUnique(t.(rows := t.rows[id := t.rows[id].(deleted := deleted)]))
  {
  }

  lemma CreateKeepsNames(t: Table, name: string, parent: int)
    requires NamesUnique(t)
    ensures NamesUnique(CreateStep(t, name, parent).0)
  {
    hide NamesUnique, Clash;
    if CreateStep(t, name, parent).1 == OK {
      WriteKeepsNames(t, t.nextId, Folder(name, parent, false), t.nextId + 1);
    }
  }

  lemma RenameKeepsNames(t: Table, id: int, name: string)
    requires NamesUnique(t)
    ensures NamesUnique(RenameStep(t, id, name).0)
  {
    hide NamesUnique, Clash;
    if RenameStep(t, id, name).1 == OK {
      WriteKeepsNames(t, id, t.rows[id].(name := name), t.nextId);
    }
  }

  lemma CreateKeepsOk(t: Table, name: string, parent: int)
    requires Ok(t)
    ensures Ok(CreateStep(t, name, parent).0)
  {
    if CreateStep(t, name, parent).1 == OK {
      assert ParentsOf(Insert(t, name, parent).rows) == ParentsOf(t.rows)[t.nextId := parent];
    }
  }

  // Naming the id about to be given is the one way a create closes a cycle.
  lemma CreateKeepsForestIff(t: Table, name: string, parent: int)
    requires Ok(t) && IsForest(t)
    ensures var t' := CreateStep(t, name, parent).0; Ok(t') && (IsForest(t') <==> !(name != "" && parent == t.nextId))
  {
    if CreateStep(t, name, parent).1 == OK {
      assert ParentsOf(Insert(t, name, parent).rows) == ParentsOf(t.rows)[t.nextId := parent];
      AddIsSafeIff(ParentsOf(t.rows), t.nextId, parent);
    } else if parent == t.nextId {
      assert forall i | i in t.rows :: t.rows[i].parent == ParentsOf(t.rows)[i];
    }
  }

  // The table, and the mutators on which skill_folder.c and model_folder.c agree
  class FolderStore {
    var rows: map<int, Folder>
    var nextId: int

    function Abs(): Table
      reads this
    {
      Table(rows, nextId)
    }

    ghost predicate Valid()
      reads this
    {
      Ok(Abs())
    }

    constructor ()
      ensures Valid() && Abs() == EMPTY
    {
      rows, nextId := map[], 1;
    }

    method Create(name: string, parent: int) returns (rc: Rc, outId: int)
      requires Valid()
      modifies this
      ensures Valid() && (Abs(), rc) == CreateStep(old(Abs()), name, parent)
      ensures rc == OK ==> outId == old(nextId)
      ensures var taken := exists i | i in old(rows) :: old(rows)[i].parent == parent && old(rows)[i].name == name;
        rc == if name == "" then INVALID else if taken then DUPLICATE
              else if parent != 0 && parent !in old(rows) && parent != old(nextId) then FK else OK
      ensures rc == OK ==> rows == old(rows)[outId := Folder(name, parent, false)] && nextId == old(nextId) + 1
      ensures rc != OK ==> Abs() == old(Abs())
    {
      outId := 0;
      CreateKeepsOk(Abs(), name, parent);
      assert nextId !in rows;
      hide Ok;
      if name == "" {
        return INVALID, 0;
      }
      if Clash(rows, nextId, parent, name) {
        return DUPLICATE, 0;
      }
      if !ParentExists(Abs(), parent) {
        return FK, 0;
      }
      rows := rows[nextId := Folder(name, parent, false)];
      outId := nextId;
      nextId := nextId + 1;
      rc := OK;
    }

    method Rename(id: int, name: string) returns (rc: Rc)
      requires Valid()
      modifies this
      ensures Valid() && (Abs(), rc) == RenameStep(old(Abs()), id, name)
      ensures rc == if id <= 0 || name == "" then INVALID
                    else if id !in old(rows) || old(rows)[id].deleted then NOT_FOUND
                    else if exists i | i in old(rows) && i != id ::
                      old(rows)[i].parent == old(rows)[id].parent && old(rows)[i].name == name then DUPLICATE
                    else OK
      ensures rc == OK ==> Abs() == Table(old(rows)[id := old(rows)[id].(name := name)], old(nextId))
      ensures rc != OK ==> Abs() == old(Abs())
    {
      if id <= 0 || name == "" {
        return INVALID;
      }
      if !Live(rows, id) {
        return NOT_FOUND;
      }
      if Clash(rows, id, rows[id].parent, name) {
        return DUPLICATE;
      }
      SameParents(rows, id, rows[id].(name := name));
      rows := rows[id := rows[id].(name := name)];
      rc := OK;
    }

    method Delete(id: int, inUse: bool) returns (rc: Rc)
      requires Valid()
      modifies this
      ensures Valid() && (Abs(), rc) == SoftDeleteStep(old(Abs()), id, inUse)
      ensures rc == if id <= 0 || inUse then INVALID
                    else if exists i | i in old(rows) :: old(rows)[i].parent == id && !old(rows)[i].deleted then INVALID
                    else if id !in old(rows) || old(rows)[id].deleted then NOT_FOUND
                    else OK
      ensures rc == OK ==> Abs() == Table(old(rows)[id := old(rows)[id].(deleted := true)], old(nextId))
      ensures rc != OK ==> Abs() == old(Abs())
    {
      if id <= 0 {
        return INVALID;
      }
      if HasLiveChild(rows, id) {
        return INVALID;
      }
      if inUse {
        return INVALID;
      }
      if !Live(rows, id) {
        return NOT_FOUND;
      }
      SameParents(rows, id, rows[id].(deleted := true));
      rows := rows[id := rows[id].(deleted := true)];
      rc := OK;
    }
  }
}
