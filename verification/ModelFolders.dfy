/**
 acta_db/src/model_folder.c.  Its ancestor walk, unlike that of the skill folders, stops at a soft-deleted folder; its
 restore accepts a live row.
 */
module ModelFolders {
  import opened Db
  import opened Forest
  import opened FolderTable

  const MAX_DEPTH := 10000

  datatype Op =
    | Create(name: string, parent: int)
    | Rename(id: int, name: string)
    | Move(id: int, parent: int)
    | SoftDelete(id: int, inUse: bool)
    | Restore(id: int)

  ghost function MoveStep(t: Table, id: int, parent: int): (Table, Rc) {
    if id <= 0 then (t, INVALID)
    else if !Live(t.rows, id) then (t, NOT_FOUND)
    else if t.rows[id].parent == parent then (t, OK)
    else if parent > 0 && !Live(t.rows, parent) then (t, NOT_FOUND)
    else if parent > 0 && ReachesWithin(LiveParents(t.rows), parent, id, MAX_DEPTH) then (t, INVALID)
    else if parent < 0 || Clash(t.rows, id, parent, t.rows[id].name) then (t, SQL)
    else (Reparent(t, id, parent), OK)
  }

  function RestoreStep(t: Table, id: int): (Table, Rc) {
    if id <= 0 then (t, INVALID)
    else if id in t.rows then (t.(rows := t.rows[id := t.rows[id].(deleted := false)]), OK)
    else (t, NOT_FOUND)
  }

  ghost function Step(t: Table, op: Op): (Table, Rc) {
    match op
    case Create(name, parent) => CreateStep(t, name, parent)
    case Rename(id, name) => RenameStep(t, id, name)
    case Move(id, parent) => MoveStep(t, id, parent)
    case SoftDelete(id, inUse) => SoftDeleteStep(t, id, inUse)
    case Restore(id) => RestoreStep(t, id)
  }

  method AncestorReaches(db: FolderStore, start: int, target: int) returns (found: bool)
    requires db.Valid() && target > 0
    ensures found <==> ReachesWithin(LiveParents(db.rows), start, target, MAX_DEPTH)
  {
    ghost var q := LiveParents(db.rows);
    var cur := start;
    var depth := 0;
    found := false;
    while cur > 0 && depth < MAX_DEPTH
      invariant depth <= MAX_DEPTH && cur == Up(q, start, depth)
      invariant forall j: nat | j < depth :: Up(q, start, j) != target
      decreases MAX_DEPTH - depth
    {
      UpAdd(q, start, depth, 1);
      if cur == target {
        return true;
      }
      if !Live(db.rows, cur) {
        break;
      }
      cur := db.rows[cur].parent;
      depth := depth + 1;
    }
    if depth < MAX_DEPTH {
      ChainEnds(q, start, depth, target);
    }
  }

  lemma ChainEnds(q: Parents, start: int, n: nat, target: int)
    requires 0 !in q && target != 0 && Up(q, start, n) !in q && Up(q, start, n) != target
    ensures forall j: nat | j >= n :: Up(q, start, j) != target
  {
    forall j: nat | j >= n ensures Up(q, start, j) != target {
      UpAdd(q, start, n, j - n);
    }
  }

  method MoveTo(db: FolderStore, id: int, parent: int) returns (rc: Rc)
    requires db.Valid()
    modifies db
    ensures db.Valid() && (db.Abs(), rc) == Step(old(db.Abs()), Move(id, parent))
    ensures var rows := old(db.rows);
      rc == if id <= 0 then INVALID
            else if id !in rows || rows[id].deleted then NOT_FOUND
            else if rows[id].parent == parent then OK
            else if parent > 0 && (parent !in rows || rows[parent].deleted) then NOT_FOUND
            else if parent > 0 && ReachesWithin(LiveParents(rows), parent, id, 10000) then INVALID
            else if parent < 0 then SQL
            else if exists i | i in rows && i != id :: rows[i].parent == parent && rows[i].name == rows[id].name
            then SQL else OK
    ensures rc == OK ==> db.rows == old(db.rows)[id := old(db.rows)[id].(parent := parent)]
    ensures db.nextId == old(db.nextId) && (rc != OK ==> db.rows == old(db.rows))
  {
    if id <= 0 {
      return INVALID;
    }
    if !Live(db.rows, id) {
      return NOT_FOUND;
    }
    if db.rows[id].parent == parent {
      return OK;
    }
    if parent > 0 && !Live(db.rows, parent) {
      return NOT_FOUND;
    }
    if parent > 0 {
      var cycle := AncestorReaches(db, parent, id);
      if cycle {
        return INVALID;
      }
    }
    // A negative parent id fails the foreign key.
    if parent < 0 || Clash(db.rows, id, parent, db.rows[id].name) {
      return SQL;
    }
    ReparentParents(db.Abs(), id, parent);
    db.rows := db.rows[id := db.rows[id].(parent := parent)];
    rc := OK;
  }

  method Undelete(db: FolderStore, id: int) returns (rc: Rc)
    requires db.Valid()
    modifies db
    ensures db.Valid() && (db.Abs(), rc) == Step(old(db.Abs()), Restore(id))
    ensures rc == if id <= 0 then INVALID else if id in old(db.rows) then OK else NOT_FOUND
    ensures rc == OK ==> db.rows == old(db.rows)[id := old(db.rows)[id].(deleted := false)]
    ensures db.nextId == old(db.nextId) && (rc != OK ==> db.rows == old(db.rows))
  {
    if id <= 0 {
      return INVALID;
    }
    if id !in db.rows {
      return NOT_FOUND;
    }
    SameParents(db.rows, id, db.rows[id].(deleted := false));
    db.rows := db.rows[id := db.rows[id].(deleted := false)];
    rc := OK;
  }

  // No live folder lies below a deleted one.
  predicate LiveClosed(t: Table) {
    forall i | i in t.rows && !t.rows[i].deleted :: t.rows[i].parent == 0 || Live(t.rows, t.rows[i].parent)
  }

  lemma LiveParentsFit(rows: map<int, Folder>)
    ensures |LiveParents(rows)| <= |rows|
  {
    SubsetSize(LiveParents(rows).Keys, rows.Keys);
  }

  lemma SubsetSize(a: set<int>, b: set<int>)
    requires a <= b
    ensures |a| <= |b|
  {
    assert b == a + (b - a);
  }

  lemma {:induction false} LiveChain(t: Table, s: int, k: nat)
    requires Ok(t) && LiveClosed(t) && (s == 0 || Live(t.rows, s))
    ensures Up(LiveParents(t.rows), s, k) == Up(ParentsOf(t.rows), s, k)
    decreases k
  {
    if k > 0 && s != 0 {
      LiveChain(t, t.rows[s].parent, k - 1);
    }
  }

  // A live chain is part of the whole chain.
  lemma {:induction false} LiveReachesReaches(t: Table, s: int, k: nat, id: int)
    requires Ok(t) && id != 0 && Up(LiveParents(t.rows), s, k) == id
    ensures Up(ParentsOf(t.rows), s, k) == id
    decreases k
  {
    if k > 0 && Live(t.rows, s) {
      LiveReachesReaches(t, t.rows[s].parent, k - 1, id);
    }
  }

  // id is np or above np, but only through a deleted folder: the case the live-only walk cannot see
  ghost predicate HiddenAncestor(t: Table, np: int, id: int) {
    Reaches(ParentsOf(t.rows), np, id) && !Reaches(LiveParents(t.rows), np, id)
  }

  // On a forest of at most 10000 rows, a move that is carried out closes a cycle exactly when the folder is a hidden
  // ancestor of its new parent.
  lemma MoveKeepsForestIff(t: Table, id: int, parent: int)
    requires Ok(t) && IsForest(t) && |t.rows| <= MAX_DEPTH
    ensures Ok(MoveStep(t, id, parent).0)
    ensures MoveStep(t, id, parent).1 == OK && t.rows[id].parent != parent ==>
      (IsForest(MoveStep(t, id, parent).0) <==> !HiddenAncestor(t, parent, id))
    ensures MoveStep(t, id, parent).1 != OK || t.rows[id].parent == parent ==> MoveStep(t, id, parent).0 == t
  {
    if MoveStep(t, id, parent).1 == OK && t.rows[id].parent != parent {
      var p, q := ParentsOf(t.rows), LiveParents(t.rows);
      ReparentParents(t, id, parent);
      MoveIsSafeIff(p, id, parent);
      LiveParentsFit(t.rows);
      BoundedWalkIsExact(q, parent, id, MAX_DEPTH);
      if parent == 0 {
        forall k: nat ensures Up(p, 0, k) != id {
          UpZero(p, k);
        }
      }
    }
  }

  // On a live-closed table there is no hidden ancestor of a live folder, so the walk is exact.
  lemma NothingHidden(t: Table, np: int, id: int)
    requires Ok(t) && LiveClosed(t) && (np == 0 || Live(t.rows, np))
    ensures !HiddenAncestor(t, np, id)
  {
    if Reaches(ParentsOf(t.rows), np, id) {
      var k: nat :| Up(ParentsOf(t.rows), np, k) == id;
      LiveChain(t, np, k);
    }
  }

  // What a caller can look at beforehand: create and restore leave no live folder below a deleted one.
  predicate Careful(t: Table, op: Op) {
    match op
    case Create(_, parent) => parent == 0 || Live(t.rows, parent)
    case Restore(id) => id in t.rows ==> t.rows[id].parent == 0 || Live(t.rows, t.rows[id].parent)
    case _ => true
  }

  // Only create and restore can break the closure.
  lemma StepKeepsClosure(t: Table, op: Op)
    requires Ok(t) && LiveClosed(t) && Careful(t, op)
    ensures LiveClosed(Step(t, op).0)
  {
  }

  // The two ways an operation closes a cycle
  ghost predicate ClosesCycle(t: Table, op: Op) {
    match op
    case Create(name, parent) => name != "" && parent == t.nextId
    case Move(id, parent) =>
      MoveStep(t, id, parent).1 == OK && t.rows[id].parent != parent && HiddenAncestor(t, parent, id)
    case _ => false
  }

  lemma StepKeepsForestIff(t: Table, op: Op)
    requires Ok(t) && IsForest(t) && |t.rows| <= MAX_DEPTH
    ensures Ok(Step(t, op).0) && (IsForest(Step(t, op).0) <==> !ClosesCycle(t, op))
  {
    match op
    case Create(name, parent) => CreateKeepsForestIff(t, name, parent);
    case Rename(id, name) =>
      if Live(t.rows, id) {
        SameParents(t.rows, id, t.rows[id].(name := name));
      }
    case Move(id, parent) => MoveKeepsForestIff(t, id, parent);
    case SoftDelete(id, inUse) =>
      if Live(t.rows, id) {
        SameParents(t.rows, id, t.rows[id].(deleted := true));
      }
    case Restore(id) =>
      if id in t.rows {
        SameParents(t.rows, id, t.rows[id].(deleted := false));
      }
  }

  lemma CarefulClosesNone(t: Table, op: Op)
    requires Ok(t) && LiveClosed(t) && Careful(t, op)
    ensures !ClosesCycle(t, op)
  {
    if op.Move? && MoveStep(t, op.id, op.parent).1 == OK && t.rows[op.id].parent != op.parent {
      NothingHidden(t, op.parent, op.id);
    }
  }

  // Forest or not, ids stay positive and below the next one, and every parent id is that of a row.
  lemma StepKeepsOk(t: Table, op: Op)
    requires Ok(t)
    ensures Ok(Step(t, op).0)
  {
    match op
    case Create(name, parent) => CreateKeepsOk(t, name, parent);
    case Rename(id, name) =>
      if Live(t.rows, id) {
        SameParents(t.rows, id, t.rows[id].(name := name));
      }
    case Move(id, parent) =>
      if Step(t, op).0 != t {
        ReparentParents(t, id, parent);
      }
    case SoftDelete(id, inUse) =>
      if Live(t.rows, id) {
        SameParents(t.rows, id, t.rows[id].(deleted := true));
      }
    case Restore(id) =>
      if id in t.rows {
        SameParents(t.rows, id, t.rows[id].(deleted := false));
      }
  }

  lemma StepKeepsNames(t: Table, op: Op)
    requires NamesUnique(t)
    ensures NamesUnique(Step(t, op).0)
  {
    hide NamesUnique, Clash;
    match op
    case Create(name, parent) => CreateKeepsNames(t, name, parent);
    case Rename(id, name) => RenameKeepsNames(t, id, name);
    case Move(id, parent) =>
      if Step(t, op).0 != t {
        WriteKeepsNames(t, id, t.rows[id].(parent := parent), t.nextId);
      }
    case SoftDelete(id, inUse) =>
      if Live(t.rows, id) {
        MarkKeepsNames(t, id, true);
      }
    case Restore(id) =>
      if id in t.rows {
        MarkKeepsNames(t, id, false);
      }
  }

  ghost predicate AlwaysOk(t: Table, ops: seq<Op>)
    decreases |ops|
  {
    Ok(t) && NamesUnique(t) && (ops != [] ==> AlwaysOk(Step(t, ops[0]).0, ops[1..]))
  }

  lemma {:induction false} RunsKeepOk(t: Table, ops: seq<Op>)
    requires Ok(t) && NamesUnique(t)
    ensures AlwaysOk(t, ops)
    decreases |ops|
  {
    if ops != [] {
      StepKeepsOk(t, ops[0]);
      StepKeepsNames(t, ops[0]);
      RunsKeepOk(Step(t, ops[0]).0, ops[1..]);
    }
  }

  // ... over every run from the empty table
  lemma EveryRunIsOk(ops: seq<Op>)
    ensures AlwaysOk(EMPTY, ops)
  {
    RunsKeepOk(EMPTY, ops);
  }

  ghost predicate AlwaysForest(t: Table, ops: seq<Op>)
    decreases |ops|
  {
    IsForest(t) && (ops != [] ==> AlwaysForest(Step(t, ops[0]).0, ops[1..]))
  }

  ghost predicate NeverClosesCycle(t: Table, ops: seq<Op>)
    decreases |ops|
  {
    ops != [] ==> !ClosesCycle(t, ops[0]) && NeverClosesCycle(Step(t, ops[0]).0, ops[1..])
  }

  ghost predicate SmallRun(t: Table, ops: seq<Op>)
    decreases |ops|
  {
    ops != [] ==> |t.rows| <= MAX_DEPTH && SmallRun(Step(t, ops[0]).0, ops[1..])
  }

  lemma {:induction false} RunsFrom(t: Table, ops: seq<Op>)
    requires Ok(t) && IsForest(t) && SmallRun(t, ops)
    ensures AlwaysForest(t, ops) <==> NeverClosesCycle(t, ops)
    decreases |ops|
  {
    if ops != [] {
      StepKeepsForestIff(t, ops[0]);
      if IsForest(Step(t, ops[0]).0) {
        RunsFrom(Step(t, ops[0]).0, ops[1..]);
      }
    }
  }

  // Over every run from the empty table: a forest throughout if and only if no create names its own id and no move
  // goes below a hidden descendant.
  lemma EveryRunIsForestIff(ops: seq<Op>)
    requires SmallRun(EMPTY, ops)
    ensures AlwaysOk(EMPTY, ops)
    ensures AlwaysForest(EMPTY, ops) <==> NeverClosesCycle(EMPTY, ops)
  {
    EveryRunIsOk(ops);
    RunsFrom(EMPTY, ops);
  }

  // Every operation of the run is careful and meets at most 10000 rows.
  ghost predicate CarefulRun(t: Table, ops: seq<Op>)
    decreases |ops|
  {
    ops != [] ==> |t.rows| <= MAX_DEPTH && Careful(t, ops[0]) && CarefulRun(Step(t, ops[0]).0, ops[1..])
  }

  lemma {:induction false} CarefulRunsFrom(t: Table, ops: seq<Op>)
    requires Ok(t) && IsForest(t) && LiveClosed(t) && CarefulRun(t, ops)
    ensures AlwaysForest(t, ops)
    decreases |ops|
  {
    if ops != [] {
      CarefulClosesNone(t, ops[0]);
      StepKeepsForestIff(t, ops[0]);
      StepKeepsClosure(t, ops[0]);
      CarefulRunsFrom(Step(t, ops[0]).0, ops[1..]);
    }
  }

  lemma EveryCarefulRunIsForest(ops: seq<Op>)
    requires CarefulRun(EMPTY, ops)
    ensures AlwaysForest(EMPTY, ops)
  {
    CarefulRunsFrom(EMPTY, ops);
  }

  ghost function Run(t: Table, ops: seq<Op>): Table
    decreases |ops|
  {
    if ops == [] then t else Run(Step(t, ops[0]).0, ops[1..])
  }

  // One restore under a deleted folder, everything else careful, and a move closes a cycle.
  lemma CarelessRestoreRun()
    ensures !IsForest(Run(EMPTY, [Create("A", 0), Create("B", 1), Create("C", 2),
                                  SoftDelete(3, false), SoftDelete(2, false), Restore(3), Move(1, 3)]))
  {
    var a, b, c := Folder("A", 0, false), Folder("B", 1, false), Folder("C", 2, false);
    var t3 := Table(map[1 := a, 2 := b, 3 := c], 4);
    var t6 := Table(map[1 := a, 2 := b.(deleted := true), 3 := c], 4);
    var creates := [Create("A", 0), Create("B", 1), Create("C", 2)];
    var rest := [SoftDelete(3, false), SoftDelete(2, false), Restore(3), Move(1, 3)];
    ThreeCreates(a, b, c);
    DeleteTwoRestoreOne(a, b, c);
    HiddenMove(t6);
    RunAdd(EMPTY, creates, rest);
    RunAdd(t3, rest[..3], [Move(1, 3)]);
    assert rest[..3] + [Move(1, 3)] == rest;
    assert creates + rest == [Create("A", 0), Create("B", 1), Create("C", 2),
                              SoftDelete(3, false), SoftDelete(2, false), Restore(3), Move(1, 3)];
    assert Run(t6, [Move(1, 3)]) == Step(t6, Move(1, 3)).0;
  }

  lemma {:induction false} RunAdd(t: Table, x: seq<Op>, y: seq<Op>)
    ensures Run(t, x + y) == Run(Run(t, x), y)
    decreases |x|
  {
    if x == [] {
      assert x + y == y;
    } else {
      assert (x + y)[1..] == x[1..] + y;
      RunAdd(Step(t, x[0]).0, x[1..], y);
    }
  }

  lemma RunThree(t: Table, x: Op, y: Op, z: Op)
    ensures Run(t, [x, y, z]) == Step(Step(Step(t, x).0, y).0, z).0
  {
    hide Step;
    var t1 := Step(t, x).0;
    var t2 := Step(t1, y).0;
    assert [x, y, z][1..] == [y, z] && [y, z][1..] == [z] && [z][1..] == [];
    assert Run(t2, [z]) == Run(Step(t2, z).0, []) == Step(t2, z).0;
    assert Run(t1, [y, z]) == Run(t2, [z]);
  }

  lemma ThreeCreates(a: Folder, b: Folder, c: Folder)
    requires a == Folder("A", 0, false) && b == Folder("B", 1, false) && c == Folder("C", 2, false)
    ensures Run(EMPTY, [Create("A", 0), Create("B", 1), Create("C", 2)]) == Table(map[1 := a, 2 := b, 3 := c], 4)
  {
    RunThree(EMPTY, Create("A", 0), Create("B", 1), Create("C", 2));
    assert Step(EMPTY, Create("A", 0)).0 == Table(map[1 := a], 2);
    assert Step(Table(map[1 := a], 2), Create("B", 1)).0 == Table(map[1 := a, 2 := b], 3);
  }

  lemma DeleteTwoRestoreOne(a: Folder, b: Folder, c: Folder)
    requires a == Folder("A", 0, false) && b == Folder("B", 1, false) && c == Folder("C", 2, false)
    ensures Run(Table(map[1 := a, 2 := b, 3 := c], 4), [SoftDelete(3, false), SoftDelete(2, false), Restore(3)])
         == Table(map[1 := a, 2 := b.(deleted := true), 3 := c], 4)
  {
    var t3 := Table(map[1 := a, 2 := b, 3 := c], 4);
    RunThree(t3, SoftDelete(3, false), SoftDelete(2, false), Restore(3));
    var t4 := Table(map[1 := a, 2 := b, 3 := c.(deleted := true)], 4);
    assert Step(t3, SoftDelete(3, false)).0 == t4;
    assert Step(t4, SoftDelete(2, false)).0
        == Table(map[1 := a, 2 := b.(deleted := true), 3 := c.(deleted := true)], 4);
  }

  // Folder 1 lies above folder 3, but through a deleted one: the walk from 3 does not get that far.
  lemma WalkStopsShort(t: Table)
    requires t == Table(map[1 := Folder("A", 0, false), 2 := Folder("B", 1, true), 3 := Folder("C", 2, false)], 4)
    ensures MoveStep(t, 1, 3) == (Reparent(t, 1, 3), OK)
  {
    var q := LiveParents(t.rows);
    assert q == map[1 := 0, 3 := 2];
    forall k: nat ensures Up(q, 3, k) != 1 {
      if k > 1 {
        assert Up(q, 3, k) == Up(q, 2, k - 1) == 0;
      }
    }
  }

  lemma HiddenMove(t: Table)
    requires t == Table(map[1 := Folder("A", 0, false), 2 := Folder("B", 1, true), 3 := Folder("C", 2, false)], 4)
    ensures Step(t, Move(1, 3)).1 == OK && !IsForest(Step(t, Move(1, 3)).0)
  {
    WalkStopsShort(t);
    var p := ParentsOf(Reparent(t, 1, 3).rows);
    assert p == map[1 := 3, 2 := 1, 3 := 2];
    assert Up(p, 1, 3) == Up(p, 3, 2) == Up(p, 2, 1) == 1;
  }
}
