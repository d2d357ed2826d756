/** acta_db/src/skill_folder.c: the mutators, with the 4096-step walk of move_to */
module SkillFolders {
  import opened Db
  import opened Forest
  import opened FolderTable

  const WALK := 4096

  datatype Op =
    | Create(name: string, parent: int)
    | Rename(id: int, name: string)
    | Move(id: int, parent: int)
    | SoftDelete(id: int, inUse: bool)
    | Restore(id: int)

  // The three SELECTs of move_to: what it answers without writing, OK meaning that the UPDATE follows
  ghost function CheckMove(t: Table, id: int, parent: int): Rc {
    if id <= 0 then INVALID
    else if !Live(t.rows, id) then NOT_FOUND
    else if parent == 0 then OK
    else if !Live(t.rows, parent) then NOT_FOUND
    else if ReachesWithin(ParentsOf(t.rows), parent, id, WALK) then INVALID
    else OK
  }

  // The UPDATE of move_to
  function UpdateParent(t: Table, id: int, parent: int): (Table, Rc) {
    if !Live(t.rows, id) then (t, NOT_FOUND)
    else if Clash(t.rows, id, parent, t.rows[id].name) then (t, SQL)
    else (Reparent(t, id, parent), OK)
  }

  ghost function MoveStep(t: Table, id: int, parent: int): (Table, Rc) {
    var rc := CheckMove(t, id, parent);
    if rc == OK then UpdateParent(t, id, parent) else (t, rc)
  }

  function RestoreStep(t: Table, id: int): (Table, Rc) {
    if id <= 0 then (t, INVALID)
    else if id in t.rows && t.rows[id].deleted then (t.(rows := t.rows[id := t.rows[id].(deleted := false)]), OK)
    else (t, NOT_FOUND)
  }

  ghost function Step(t: Table, op: Op): (Table, Rc) {
    match op
    case Create(name, parent) => CreateStep(t, name, parent)
    case Rename(id, name) => RenameStep(t, id, name)
    case Move(id, parent) => MoveStep(t, id, parent)
    case SoftDelete(id, inUse) => SoftDeleteStep(t, id, inUse)
    case Restore(id) => RestoreStep(t, id)
  }

  // The loop of move_to: is `id` met on the way up from `start`?
  method CycleWalk(db: FolderStore, start: int, id: int) returns (found: bool)
    requires db.Valid() && id > 0
    ensures found <==> ReachesWithin(ParentsOf(db.rows), start, id, WALK)
  {
    ghost var p := ParentsOf(db.rows);
    var cursor := start;
    var depth := 0;
    while depth < WALK
      invariant depth <= WALK && cursor == Up(p, start, depth)
      invariant forall j: nat | j < depth :: Up(p, start, j) != id
    {
      UpAdd(p, start, depth, 1);
      if cursor == id {
        return true;
      }
      if cursor !in db.rows || db.rows[cursor].parent == 0 {
        assert Up(p, start, depth + 1) == 0;
        forall j: nat | j >= depth + 1 ensures Up(p, start, j) != id {
          UpAdd(p, start, depth + 1, j - (depth + 1));
          UpZero(p, j - (depth + 1));
        }
        return false;
      }
      cursor := db.rows[cursor].parent;
      depth := depth + 1;
    }
    found := false;
  }

  method MoveTo(db: FolderStore, id: int, parent: int) returns (rc: Rc)
    requires db.Valid()
    modifies db
    ensures db.Valid() && (db.Abs(), rc) == Step(old(db.Abs()), Move(id, parent))
    ensures var rows := old(db.rows);
      rc == if id <= 0 then INVALID
            else if id !in rows || rows[id].deleted then NOT_FOUND
            else if parent != 0 && (parent !in rows || rows[parent].deleted) then NOT_FOUND
            else if parent != 0 && ReachesWithin(ParentsOf(rows), parent, id, 4096) then INVALID
            else if exists i | i in rows && i != id :: rows[i].parent == parent && rows[i].name == rows[id].name
            then SQL else OK
    ensures rc == OK ==> db.rows == old(db.rows)[id := old(db.rows)[id].(parent := parent)]
    ensures db.nextId == old(db.nextId) && (rc != OK ==> db.rows == old(db.rows))
  {
    if id <= 0 {
      return INVALID;
    }
    if !Live(db.rows, id) {
      return NOT_FOUND;
    }
    if parent != 0 {
      if !Live(db.rows, parent) {
        return NOT_FOUND;
      }
      var cycle := CycleWalk(db, parent, id);
      if cycle {
        return INVALID;
      }
    }
    if Clash(db.rows, id, parent, db.rows[id].name) {
      return SQL;
    }
    ReparentParents(db.Abs(), id, parent);
    db.rows := db.rows[id := db.rows[id].(parent := parent)];
    rc := OK;
  }

  method Undelete(db: FolderStore, id: int) returns (rc: Rc)
    requires db.Valid()
    modifies db
    ensures db.Valid() && (db.Abs(), rc) == Step(old(db.Abs()), Restore(id))
    ensures rc == if id <= 0 then INVALID
                  else if id in old(db.rows) && old(db.rows)[id].deleted then OK else NOT_FOUND
    ensures rc == OK ==> db.rows == old(db.rows)[id := old(db.rows)[id].(deleted := false)]
    ensures db.nextId == old(db.nextId) && (rc != OK ==> db.rows == old(db.rows))
  {
    if id <= 0 {
      return INVALID;
    }
    if id !in db.rows || !db.rows[id].deleted {
      return NOT_FOUND;
    }
    SameParents(db.rows, id, db.rows[id].(deleted := false));
    db.rows := db.rows[id := db.rows[id].(deleted := false)];
    rc := OK;
  }

  // On a table of at most 4096 rows, cyclic or not, move_to refuses exactly when id is the new parent or one of its
  // ancestors.
  lemma WalkIsExact(t: Table, id: int, parent: int)
    requires Ok(t) && Live(t.rows, id) && Live(t.rows, parent) && |t.rows| <= WALK
    ensures CheckMove(t, id, parent) == INVALID <==> Reaches(ParentsOf(t.rows), parent, id)
  {
    SameSize(t.rows);
    BoundedWalkIsExact(ParentsOf(t.rows), parent, id, WALK);
  }

  lemma SameSize(rows: map<int, Folder>)
    ensures |ParentsOf(rows)| == |rows|
  {
    assert ParentsOf(rows).Keys == rows.Keys;
  }

  // A create that is given the id it names as its parent
  predicate SelfParent(t: Table, op: Op) {
    op.Create? && op.name != "" && op.parent == t.nextId
  }

  lemma StepKeepsForestIff(t: Table, op: Op)
    requires Ok(t) && IsForest(t) && |t.rows| <= WALK
    ensures Ok(Step(t, op).0)
    ensures IsForest(Step(t, op).0) <==> !SelfParent(t, op)
  {
    match op
    case Create(name, parent) => CreateKeepsForestIff(t, name, parent);
    case Rename(id, name) =>
      if Live(t.rows, id) {
        SameParents(t.rows, id, t.rows[id].(name := name));
      }
    case Move(id, parent) =>
      if Step(t, op).1 == OK {
        ReparentParents(t, id, parent);
        MoveIsSafeIff(ParentsOf(t.rows), id, parent);
        if parent != 0 {
          WalkIsExact(t, id, parent);
        } else {
          RootReachesNothing(ParentsOf(t.rows), id);
        }
      }
    case SoftDelete(id, inUse) =>
      if Live(t.rows, id) {
        SameParents(t.rows, id, t.rows[id].(deleted := true));
      }
    case Restore(id) =>
      if id in t.rows {
        SameParents(t.rows, id, t.rows[id].(deleted := false));
      }
  }

  lemma RootReachesNothing(p: Parents, id: int)
    requires 0 !in p && id != 0
    ensures !Reaches(p, 0, id)
  {
    forall k: nat ensures Up(p, 0, k) != id {
      UpZero(p, k);
    }
  }

  // Forest or not, ids stay positive and below the next one, and every parent id is that of a row.
  lemma StepKeepsOk(t: Table, op: Op)
    requires Ok(t)
    ensures Ok(Step(t, op).0)
  {
    match op
    case Create(name, parent) => CreateKeepsOk(t, name, parent);
    case Rename(id, name) =>
      if Live(t.rows, id) {
        SameParents(t.rows, id, t.rows[id].(name := name));
      }
    case Move(id, parent) =>
      if Step(t, op).0 != t {
        ReparentParents(t, id, parent);
      }
    case SoftDelete(id, inUse) =>
      if Live(t.rows, id) {
        SameParents(t.rows, id, t.rows[id].(deleted := true));
      }
    case Restore(id) =>
      if id in t.rows {
        SameParents(t.rows, id, t.rows[id].(deleted := false));
      }
  }

  lemma StepKeepsNames(t: Table, op: Op)
    requires NamesUnique(t)
    ensures NamesUnique(Step(t, op).0)
  {
    hide NamesUnique, Clash;
    match op
    case Create(name, parent) => CreateKeepsNames(t, name, parent);
    case Rename(id, name) => RenameKeepsNames(t, id, name);
    case Move(id, parent) =>
      if Step(t, op).0 != t {
        WriteKeepsNames(t, id, t.rows[id].(parent := parent), t.nextId);
      }
    case SoftDelete(id, inUse) =>
      if Live(t.rows, id) {
        MarkKeepsNames(t, id, true);
      }
    case Restore(id) =>
      if id in t.rows {
        MarkKeepsNames(t, id, false);
      }
  }

  ghost predicate AlwaysOk(t: Table, ops: seq<Op>)
    decreases |ops|
  {
    Ok(t) && NamesUnique(t) && (ops != [] ==> AlwaysOk(Step(t, ops[0]).0, ops[1..]))
  }

  lemma {:induction false} RunsKeepOk(t: Table, ops: seq<Op>)
    requires Ok(t) && NamesUnique(t)
    ensures AlwaysOk(t, ops)
    decreases |ops|
  {
    if ops != [] {
      StepKeepsOk(t, ops[0]);
      StepKeepsNames(t, ops[0]);
      RunsKeepOk(Step(t, ops[0]).0, ops[1..]);
    }
  }

  // ... over every run from the empty table
  lemma EveryRunIsOk(ops: seq<Op>)
    ensures AlwaysOk(EMPTY, ops)
  {
    RunsKeepOk(EMPTY, ops);
  }

  // Every table the run passes through, the last included, is acyclic.
  ghost predicate AlwaysForest(t: Table, ops: seq<Op>)
    decreases |ops|
  {
    IsForest(t) && (ops != [] ==> AlwaysForest(Step(t, ops[0]).0, ops[1..]))
  }

  ghost predicate NoSelfParent(t: Table, ops: seq<Op>)
    decreases |ops|
  {
    ops != [] ==> !SelfParent(t, ops[0]) && NoSelfParent(Step(t, ops[0]).0, ops[1..])
  }

  // No operation of the run meets a table of more than 4096 rows.
  ghost predicate SmallRun(t: Table, ops: seq<Op>)
    decreases |ops|
  {
    ops != [] ==> |t.rows| <= WALK && SmallRun(Step(t, ops[0]).0, ops[1..])
  }

  lemma {:induction false} RunsFrom(t: Table, ops: seq<Op>)
    requires Ok(t) && IsForest(t) && SmallRun(t, ops)
    ensures AlwaysForest(t, ops) <==> NoSelfParent(t, ops)
    decreases |ops|
  {
    if ops != [] {
      StepKeepsForestIff(t, ops[0]);
      if IsForest(Step(t, ops[0]).0) {
        RunsFrom(Step(t, ops[0]).0, ops[1..]);
      }
    }
  }

  // Over every run from the empty table the folders stay a forest if and only if no create names the id it is given.
  lemma EveryRunIsForestIff(ops: seq<Op>)
    requires SmallRun(EMPTY, ops)
    ensures AlwaysOk(EMPTY, ops)
    ensures AlwaysForest(EMPTY, ops) <==> NoSelfParent(EMPTY, ops)
  {
    EveryRunIsOk(ops);
    RunsFrom(EMPTY, ops);
  }

  // The run that shows the condition is needed: the first folder created under id 1
  lemma SelfParentRun()
    ensures Step(EMPTY, Create("a", 1)).1 == OK
    ensures !IsForest(Step(EMPTY, Create("a", 1)).0)
  {
    CreateKeepsForestIff(EMPTY, "a", 1);
  }

  // A chain of n folders, each the parent of the next
  function ChainRows(n: nat): (rows: map<int, Folder>)
    ensures forall i :: i in rows <==> 1 <= i <= n
    ensures forall i | i in rows :: rows[i] == Folder("d", i - 1, false)
  {
    if n == 0 then map[] else ChainRows(n - 1)[n := Folder("d", n - 1, false)]
  }

  function ChainTable(n: nat): Table { Table(ChainRows(n), n + 1) }

  lemma {:induction false} ChainUp(n: nat, i: nat, k: nat)
    requires i <= n
    ensures Up(ParentsOf(ChainTable(n).rows), i, k) == if k <= i then i - k else 0
    decreases k
  {
    if k > 0 && i > 0 {
      ChainUp(n, i - 1, k - 1);
    }
  }

  // 4096 cannot be raised: on a chain of 4097 folders the walk stops one short and the move closes a cycle.
  lemma WalkBoundIsTight()
    ensures var t := ChainTable(WALK + 1);
      Ok(t) && IsForest(t) && Step(t, Move(1, WALK + 1)).1 == OK && !IsForest(Step(t, Move(1, WALK + 1)).0)
  {
    var n := WALK + 1;
    var t := ChainTable(n);
    var p := ParentsOf(t.rows);
    forall i, k: nat | i in p && k > 0 ensures Up(p, i, k) != i {
      ChainUp(n, i, k);
    }
    forall k: nat | k < WALK ensures Up(p, n, k) != 1 {
      ChainUp(n, n, k);
    }
    ChainUp(n, n, n - 1);
    assert Up(p, n, n - 1) == 1;
    ReparentParents(t, 1, n);
    MoveIsSafeIff(p, 1, n);
  }

  lemma TwoRoots(p: Parents)
    requires p == map[1 := 0, 2 := 0]
    ensures Acyclic(p) && !Reaches(p, 1, 2) && !Reaches(p, 2, 1)
  {
    forall i: int, k: nat | i in p && k > 0 ensures Up(p, i, k) == 0 {
      UpZero(p, k - 1);
    }
    forall k: nat ensures Up(p, 1, k) != 2 && Up(p, 2, k) != 1 {
      if k > 0 {
        assert Up(p, 1, k) == 0;
      }
    }
  }

  // Check and UPDATE are separate statements: two connections moving 1 under 2 and 2 under 1 both pass the walk.
  lemma InterleavedMovesCanClose()
    ensures var t := Table(map[1 := Folder("a", 0, false), 2 := Folder("b", 0, false)], 3);
      && Ok(t) && IsForest(t) && CheckMove(t, 1, 2) == OK && CheckMove(t, 2, 1) == OK
      && UpdateParent(t, 1, 2).1 == OK && UpdateParent(UpdateParent(t, 1, 2).0, 2, 1).1 == OK
      && !IsForest(UpdateParent(UpdateParent(t, 1, 2).0, 2, 1).0)
  {
    var t := Table(map[1 := Folder("a", 0, false), 2 := Folder("b", 0, false)], 3);
    var p := ParentsOf(t.rows);
    TwoRoots(p);
    var q := ParentsOf(UpdateParent(UpdateParent(t, 1, 2).0, 2, 1).0.rows);
    assert q[1] == 2 && q[2] == 1;
    assert Up(q, 1, 2) == Up(q, 2, 1) == 1;
  }
}
