/**
 Any number of clients on one folder table, interleaved statement by statement: each SELECT of the ancestor walk of
 move_to is a statement of its own, and so is its UPDATE.  Skill folders and model folders differ in the walk.
 */
module FolderClients {
  import opened Db
  import opened Forest
  import opened FolderTable
  import M = ModelFolders
  import S = SkillFolders

  datatype Kind = Skills | Models

  datatype Call =
    | Create(name: string, parent: int)
    | Rename(id: int, name: string)
    | Move(id: int, parent: int)
    | SoftDelete(id: int)
    | Restore(id: int)

  // The statement a client runs next
  datatype Pc =
    | Idle
    | First(call: Call)
    | FindParent(id: int, parent: int)                          // SELECT: is the new parent live?
    | Walk(id: int, parent: int, cursor: int, depth: nat)       // SELECT: the parent of cursor
    | Write(id: int, parent: int)                               // UPDATE parent_id
    | CountItems(id: int)                                       // SELECT: live contents
    | Mark(id: int)                                             // UPDATE deleted_at

  function Bound(kind: Kind): nat { if kind == Skills then S.WALK else M.MAX_DEPTH }

  // The UPDATE of move_to changes a row.
  predicate Fires(t: Table, id: int, parent: int) {
    Live(t.rows, id) && !Clash(t.rows, id, parent, t.rows[id].name) && (parent == 0 || parent in t.rows)
  }

  // One turn of the walk; a walk that is over goes on to the UPDATE.
  function WalkStep(kind: Kind, t: Table, pc: Pc): Pc
    requires pc.Walk?
  {
    if pc.depth >= Bound(kind) || (kind == Models && pc.cursor <= 0) then Write(pc.id, pc.parent)
    else if pc.cursor == pc.id then Idle
    else if kind == Skills && (pc.cursor !in t.rows || t.rows[pc.cursor].parent == 0) then Write(pc.id, pc.parent)
    else if kind == Models && !Live(t.rows, pc.cursor) then Write(pc.id, pc.parent)
    else Walk(pc.id, pc.parent, t.rows[pc.cursor].parent, pc.depth + 1)
  }

  function FirstOfMove(kind: Kind, t: Table, id: int, parent: int): Pc {
    if id <= 0 || !Live(t.rows, id) then Idle
    else if kind == Models && t.rows[id].parent == parent then Idle
    else if (if kind == Models then parent > 0 else parent != 0) then FindParent(id, parent)
    else Write(id, parent)
  }

  // One statement.  `inUse` is what a SELECT on skills or models answers.
  function Statement(kind: Kind, t: Table, pc: Pc, inUse: bool): (Table, Pc) {
    match pc
    case Idle => (t, Idle)
    case First(Create(name, parent)) => (CreateStep(t, name, parent).0, Idle)
    case First(Rename(id, name)) => (RenameStep(t, id, name).0, Idle)
    case First(Restore(id)) => (if kind == Skills then S.RestoreStep(t, id).0 else M.RestoreStep(t, id).0, Idle)
    case First(SoftDelete(id)) => (t, if id <= 0 || HasLiveChild(t.rows, id) then Idle else CountItems(id))
    case First(Move(id, parent)) => (t, FirstOfMove(kind, t, id, parent))
    case FindParent(id, parent) => (t, if Live(t.rows, parent) then Walk(id, parent, parent, 0) else Idle)
    case Walk(_, _, _, _) => (t, WalkStep(kind, t, pc))
    case Write(id, parent) => (if Fires(t, id, parent) then Reparent(t, id, parent) else t, Idle)
    case CountItems(id) => (t, if inUse then Idle else Mark(id))
    case Mark(id) =>
      (if Live(t.rows, id) then t.(rows := t.rows[id := t.rows[id].(deleted := true)]) else t, Idle)
  }

  // The two statements that can close a cycle: a create that names the id it is given, and a move's UPDATE that fires
  // when the row is, by then, its new parent or above it.
  ghost predicate Closes(t: Table, pc: Pc) {
    match pc
    case First(Create(name, parent)) => name != "" && parent == t.nextId
    case Write(id, parent) => Fires(t, id, parent) && Reaches(ParentsOf(t.rows), parent, id)
    case _ => false
  }

  // The UPDATE of move_to, whatever its SELECTs saw
  lemma WriteKeepsForestIff(t: Table, id: int, parent: int)
    requires Ok(t) && IsForest(t) && Live(t.rows, id) && (parent == 0 || parent in t.rows)
    ensures IsForest(S.UpdateParent(t, id, parent).0)
      <==> S.UpdateParent(t, id, parent).1 != OK || !Reaches(ParentsOf(t.rows), parent, id)
    ensures Ok(S.UpdateParent(t, id, parent).0)
  {
    if S.UpdateParent(t, id, parent).1 == OK {
      ReparentParents(t, id, parent);
      MoveIsSafeIff(ParentsOf(t.rows), id, parent);
    }
  }

  lemma StatementKeepsForestIff(kind: Kind, t: Table, pc: Pc, inUse: bool)
    requires Ok(t) && IsForest(t)
    ensures var t' := Statement(kind, t, pc, inUse).0;
      Ok(t') && (IsForest(t') <==> !Closes(t, pc))
  {
    match pc {
      case First(Create(name, parent)) => CreateKeepsForestIff(t, name, parent);
      case First(Rename(id, name)) =>
        if Live(t.rows, id) {
          SameParents(t.rows, id, t.rows[id].(name := name));
        }
      case First(Restore(id)) =>
        if id in t.rows {
          SameParents(t.rows, id, t.rows[id].(deleted := false));
        }
      case Write(id, parent) =>
        if Fires(t, id, parent) {
          WriteKeepsForestIff(t, id, parent);
        }
      case Mark(id) =>
        if Live(t.rows, id) {
          SameParents(t.rows, id, t.rows[id].(deleted := true));
        }
      case _ =>
    }
  }

  // Forest or not, every parent id stays that of a row.
  lemma StatementKeepsOk(kind: Kind, t: Table, pc: Pc, inUse: bool)
    requires Ok(t)
    ensures Ok(Statement(kind, t, pc, inUse).0)
  {
    match pc {
      case First(Create(name, parent)) => CreateKeepsOk(t, name, parent);
      case First(Rename(id, name)) =>
        if Live(t.rows, id) {
          SameParents(t.rows, id, t.rows[id].(name := name));
        }
      case First(Restore(id)) =>
        if id in t.rows {
          SameParents(t.rows, id, t.rows[id].(deleted := false));
        }
      case Write(id, parent) =>
        if Fires(t, id, parent) {
          ReparentParents(t, id, parent);
        }
      case Mark(id) =>
        if Live(t.rows, id) {
          SameParents(t.rows, id, t.rows[id].(deleted := true));
        }
      case _ =>
    }
  }

  lemma StatementKeepsNames(kind: Kind, t: Table, pc: Pc, inUse: bool)
    requires NamesUnique(t)
    ensures NamesUnique(Statement(kind, t, pc, inUse).0)
  {
    hide NamesUnique, Clash;
    match pc {
      case First(Create(name, parent)) => CreateKeepsNames(t, name, parent);
      case First(Rename(id, name)) => RenameKeepsNames(t, id, name);
      case First(Restore(id)) =>
        if id in t.rows {
          MarkKeepsNames(t, id, false);
        }
      case Write(id, parent) =>
        if Fires(t, id, parent) {
          WriteKeepsNames(t, id, t.rows[id].(parent := parent), t.nextId);
        }
      case Mark(id) =>
        if Live(t.rows, id) {
          MarkKeepsNames(t, id, true);
        }
      case _ =>
    }
  }

  // ----- runs -----

  datatype Sys = Sys(table: Table, pcs: map<nat, Pc>)

  datatype Action = Begin(client: nat, call: Call) | Advance(client: nat, inUse: bool)

  const INITIAL := Sys(EMPTY, map[])

  function PcOf(s: Sys, client: nat): Pc { if client in s.pcs then s.pcs[client] else Idle }

  function Step(kind: Kind, s: Sys, a: Action): Sys {
    match a
    case Begin(client, call) =>
      if PcOf(s, client) == Idle then s.(pcs := s.pcs[client := First(call)]) else s
    case Advance(client, inUse) =>
      var (t, pc) := Statement(kind, s.table, PcOf(s, client), inUse);
      Sys(t, s.pcs[client := pc])
  }

  ghost predicate AlwaysForest(kind: Kind, s: Sys, actions: seq<Action>)
    decreases |actions|
  {
    IsForest(s.table) && (actions != [] ==> AlwaysForest(kind, Step(kind, s, actions[0]), actions[1..]))
  }

  ghost predicate AlwaysOk(kind: Kind, s: Sys, actions: seq<Action>)
    decreases |actions|
  {
    Ok(s.table) && NamesUnique(s.table) && (actions != [] ==> AlwaysOk(kind, Step(kind, s, actions[0]), actions[1..]))
  }

  lemma {:induction false} RunsKeepOk(kind: Kind, s: Sys, actions: seq<Action>)
    requires Ok(s.table) && NamesUnique(s.table)
    ensures AlwaysOk(kind, s, actions)
    decreases |actions|
  {
    if actions != [] {
      var a := actions[0];
      if a.Advance? {
        StatementKeepsOk(kind, s.table, PcOf(s, a.client), a.inUse);
        StatementKeepsNames(kind, s.table, PcOf(s, a.client), a.inUse);
      }
      hide Ok, Statement, NamesUnique;
      RunsKeepOk(kind, Step(kind, s, a), actions[1..]);
    }
  }

  ghost predicate StepCloses(s: Sys, a: Action) { a.Advance? && Closes(s.table, PcOf(s, a.client)) }

  ghost predicate NeverCloses(kind: Kind, s: Sys, actions: seq<Action>)
    decreases |actions|
  {
    actions != [] ==> !StepCloses(s, actions[0]) && NeverCloses(kind, Step(kind, s, actions[0]), actions[1..])
  }

  lemma {:induction false} RunsFrom(kind: Kind, s: Sys, actions: seq<Action>)
    requires Ok(s.table) && IsForest(s.table)
    ensures AlwaysForest(kind, s, actions) <==> NeverCloses(kind, s, actions)
    decreases |actions|
  {
    if actions != [] {
      var a := actions[0];
      if a.Advance? {
        StatementKeepsForestIff(kind, s.table, PcOf(s, a.client), a.inUse);
      }
      if IsForest(Step(kind, s, a).table) {
        RunsFrom(kind, Step(kind, s, a), actions[1..]);
      }
    }
  }

  // Every interleaving of any number of clients, on tables of any size: a forest throughout if and only if no UPDATE
  // fires under a present descendant and no create names the id it is given.
  lemma EveryInterleavingIsForestIff(kind: Kind, actions: seq<Action>)
    ensures AlwaysOk(kind, INITIAL, actions)
    ensures AlwaysForest(kind, INITIAL, actions) <==> NeverCloses(kind, INITIAL, actions)
  {
    RunsKeepOk(kind, INITIAL, actions);
    assert ParentsOf(EMPTY.rows) == map[];
    RunsFrom(kind, INITIAL, actions);
  }

  // ----- one client alone -----

  // Up to n statements of one client, nobody else acting
  function Finish(kind: Kind, t: Table, pc: Pc, n: nat): (Table, Pc)
    decreases n
  {
    if n == 0 || pc == Idle then (t, pc)
    else
      var (u, next) := Statement(kind, t, pc, false);
      Finish(kind, u, next, n - 1)
  }

  // The parent map a walk follows
  function WalkMap(kind: Kind, t: Table): Parents {
    if kind == Skills then ParentsOf(t.rows) else LiveParents(t.rows)
  }

  // The walk has come to `cursor` after `depth` turns and not met the row it looks for.
  ghost predicate OnWalk(p: Parents, pc: Pc) {
    pc.Walk? && pc.cursor == Up(p, pc.parent, pc.depth)
    && forall j: nat | j < pc.depth :: Up(p, pc.parent, j) != pc.id
  }

  // One turn: further up, found, or over with nothing to be found among as many entries as the bound.
  lemma TurnOfWalk(kind: Kind, t: Table, pc: Pc)
    requires Ok(t) && pc.Walk? && pc.id > 0 && OnWalk(WalkMap(kind, t), pc)
    ensures var p, next := WalkMap(kind, t), WalkStep(kind, t, pc);
      match next
      case Walk(id, parent, _, depth) => OnWalk(p, next) && id == pc.id && parent == pc.parent && depth == pc.depth + 1
      case Idle => pc.depth < Bound(kind) && Up(p, pc.parent, pc.depth) == pc.id
      case Write(id, parent) =>
        id == pc.id && parent == pc.parent && !ReachesWithin(p, parent, id, Bound(kind))
        && (pc.depth < Bound(kind) ==> !Reaches(p, parent, id))
      case _ => false
  {
    var p := WalkMap(kind, t);
    UpAdd(p, pc.parent, pc.depth, 1);
    if pc.depth < Bound(kind) && pc.cursor != pc.id {
      if pc.cursor !in p {
        M.ChainEnds(p, pc.parent, pc.depth, pc.id);
      } else if p[pc.cursor] == 0 {
        M.ChainEnds(p, pc.parent, pc.depth + 1, pc.id);
      }
    }
  }

  lemma {:induction false} WalkAlone(kind: Kind, t: Table, pc: Pc, n: nat)
    requires Ok(t) && pc.Walk? && pc.id > 0 && pc.depth <= Bound(kind) && OnWalk(WalkMap(kind, t), pc)
    requires n >= Bound(kind) - pc.depth + 2
    ensures Finish(kind, t, pc, n) ==
      if ReachesWithin(WalkMap(kind, t), pc.parent, pc.id, Bound(kind)) then (t, Idle)
      else (Statement(kind, t, Write(pc.id, pc.parent), false).0, Idle)
    decreases Bound(kind) - pc.depth
  {
    hide Fires, WalkMap;
    TurnOfWalk(kind, t, pc);
    var next := WalkStep(kind, t, pc);
    hide WalkStep;
    if next.Walk? {
      WalkStops(kind, t, pc);
      WalkAlone(kind, t, next, n - 1);
    } else if next.Write? {
      assert Finish(kind, t, pc, n) == Finish(kind, t, next, n - 1);
      assert Finish(kind, t, next, n - 1) == Finish(kind, Statement(kind, t, next, false).0, Idle, n - 2);
    }
  }

  lemma WalkStops(kind: Kind, t: Table, pc: Pc)
    requires pc.Walk? && WalkStep(kind, t, pc).Walk?
    ensures pc.depth < Bound(kind)
  {
  }

  // Run alone, the statements of move_to do what the whole call does.
  lemma MoveAlone(kind: Kind, t: Table, id: int, parent: int, n: nat)
    requires Ok(t) && n >= Bound(kind) + 4
    ensures Finish(kind, t, First(Move(id, parent)), n) ==
      (if kind == Skills then S.MoveStep(t, id, parent).0 else M.MoveStep(t, id, parent).0, Idle)
  {
    hide Reparent, Clash;
    var next := FirstOfMove(kind, t, id, parent);
    assert Finish(kind, t, First(Move(id, parent)), n) == Finish(kind, t, next, n - 1);
    if next.FindParent? && Live(t.rows, parent) {
      var walk := Walk(id, parent, parent, 0);
      assert Finish(kind, t, next, n - 1) == Finish(kind, t, walk, n - 2);
      WalkAlone(kind, t, walk, n - 2);
    } else if next.FindParent? {
      assert Finish(kind, t, next, n - 1) == Finish(kind, t, Idle, n - 2);
    } else if next.Write? {
      assert Finish(kind, t, next, n - 1) == Finish(kind, Statement(kind, t, next, false).0, Idle, n - 2);
    }
  }

  // ... and so do the others; soft_delete looks twice before it writes.
  lemma OtherCallsAlone(kind: Kind, t: Table, id: int, name: string, parent: int, n: nat)
    requires n >= 3
    ensures Finish(kind, t, First(Create(name, parent)), n) == (CreateStep(t, name, parent).0, Idle)
    ensures Finish(kind, t, First(Rename(id, name)), n) == (RenameStep(t, id, name).0, Idle)
    ensures Finish(kind, t, First(Restore(id)), n) ==
      (if kind == Skills then S.RestoreStep(t, id).0 else M.RestoreStep(t, id).0, Idle)
    ensures Finish(kind, t, First(SoftDelete(id)), n) == (SoftDeleteStep(t, id, false).0, Idle)
    ensures Statement(kind, t, CountItems(id), true) == (t, Idle)
  {
    hide CreateStep, RenameStep;
    var looked := Statement(kind, t, First(SoftDelete(id)), false).1;
    assert Finish(kind, t, First(SoftDelete(id)), n) == Finish(kind, t, looked, n - 1);
    if looked.CountItems? {
      assert Finish(kind, t, looked, n - 1) == Finish(kind, t, Mark(id), n - 2);
      assert Finish(kind, t, Mark(id), n - 2) == Finish(kind, Statement(kind, t, Mark(id), false).0, Idle, n - 3);
    }
  }

  // ----- no live folder below a deleted one -----

  predicate Deleted(t: Table, id: int) { id in t.rows && t.rows[id].deleted }

  // The statements that leave a live folder below a deleted one, whatever earlier SELECTs saw
  predicate Opens(t: Table, pc: Pc) {
    match pc
    case First(Create(name, parent)) => CreateStep(t, name, parent).1 == OK && Deleted(t, parent)
    case First(Restore(id)) => Deleted(t, id) && t.rows[id].parent != id && Deleted(t, t.rows[id].parent)
    case Write(id, parent) => Fires(t, id, parent) && Deleted(t, parent)
    case Mark(id) =>
      Live(t.rows, id) && exists i | i in t.rows && i != id :: t.rows[i].parent == id && !t.rows[i].deleted
    case _ => false
  }

  lemma CreateOpensIff(t: Table, name: string, parent: int)
    requires Ok(t) && M.LiveClosed(t)
    ensures M.LiveClosed(CreateStep(t, name, parent).0)
      <==> !(CreateStep(t, name, parent).1 == OK && Deleted(t, parent))
  {
    assert forall i | i in t.rows :: ParentsOf(t.rows)[i] == t.rows[i].parent;
    if CreateStep(t, name, parent).1 == OK {
      hide Clash, CreateStep;
      assert Insert(t, name, parent).rows[t.nextId].parent == parent;
    }
  }

  lemma ReparentOpensIff(t: Table, id: int, parent: int)
    requires Ok(t) && M.LiveClosed(t) && Live(t.rows, id) && (parent == 0 || parent in t.rows)
    ensures M.LiveClosed(Reparent(t, id, parent)) <==> !Deleted(t, parent)
  {
    assert Reparent(t, id, parent).rows[id].parent == parent;
  }

  lemma RestoreOpensIff(t: Table, id: int)
    requires Ok(t) && M.LiveClosed(t) && Deleted(t, id)
    ensures M.LiveClosed(t.(rows := t.rows[id := t.rows[id].(deleted := false)]))
      <==> !(t.rows[id].parent != id && Deleted(t, t.rows[id].parent))
  {
    var u := t.(rows := t.rows[id := t.rows[id].(deleted := false)]);
    assert ParentsOf(t.rows)[id] == t.rows[id].parent && u.rows[id] == t.rows[id].(deleted := false);
  }

  lemma MarkOpensIff(t: Table, id: int)
    requires Ok(t) && M.LiveClosed(t) && Live(t.rows, id)
    ensures M.LiveClosed(t.(rows := t.rows[id := t.rows[id].(deleted := true)]))
      <==> forall i | i in t.rows && i != id && !t.rows[i].deleted :: t.rows[i].parent != id
  {
    var u := t.(rows := t.rows[id := t.rows[id].(deleted := true)]);
    if i :| i in t.rows && i != id && !t.rows[i].deleted && t.rows[i].parent == id {
      assert u.rows[i] == t.rows[i];
    }
  }

  lemma StatementKeepsClosureIff(kind: Kind, t: Table, pc: Pc, inUse: bool)
    requires Ok(t) && M.LiveClosed(t)
    ensures M.LiveClosed(Statement(kind, t, pc, inUse).0) <==> !Opens(t, pc)
  {
    hide Ok, M.LiveClosed, Clash, CreateStep;
    match pc {
      case First(Create(name, parent)) => CreateOpensIff(t, name, parent);
      case First(Rename(id, name)) => RenameStaysClosed(t, id, name);
      case First(Restore(id)) => RestoreCloses(kind, t, id);
      case Write(id, parent) =>
        if Fires(t, id, parent) {
          ReparentOpensIff(t, id, parent);
        }
      case Mark(id) =>
        if Live(t.rows, id) {
          MarkOpensIff(t, id);
        }
      case _ =>
    }
  }

  lemma RenameStaysClosed(t: Table, id: int, name: string)
    requires M.LiveClosed(t)
    ensures M.LiveClosed(RenameStep(t, id, name).0)
  {
    hide Clash;
  }

  lemma RestoreCloses(kind: Kind, t: Table, id: int)
    requires Ok(t) && M.LiveClosed(t)
    ensures var u := Statement(kind, t, First(Restore(id)), false).0;
      M.LiveClosed(u) <==> !Opens(t, First(Restore(id)))
  {
    if Deleted(t, id) {
      RestoreOpensIff(t, id);
    } else {
      var u := Statement(kind, t, First(Restore(id)), false).0;
      assert id in t.rows ==> t.rows[id].(deleted := false) == t.rows[id];
      assert u.rows == t.rows;
    }
  }

  ghost predicate AlwaysClosed(kind: Kind, s: Sys, actions: seq<Action>)
    decreases |actions|
  {
    M.LiveClosed(s.table) && (actions != [] ==> AlwaysClosed(kind, Step(kind, s, actions[0]), actions[1..]))
  }

  ghost predicate StepOpens(s: Sys, a: Action) { a.Advance? && Opens(s.table, PcOf(s, a.client)) }

  ghost predicate NeverOpens(kind: Kind, s: Sys, actions: seq<Action>)
    decreases |actions|
  {
    actions != [] ==> !StepOpens(s, actions[0]) && NeverOpens(kind, Step(kind, s, actions[0]), actions[1..])
  }

  lemma {:induction false} ClosedFrom(kind: Kind, s: Sys, actions: seq<Action>)
    requires Ok(s.table) && M.LiveClosed(s.table)
    ensures AlwaysClosed(kind, s, actions) <==> NeverOpens(kind, s, actions)
    decreases |actions|
  {
    if actions != [] {
      var a := actions[0];
      if a.Advance? {
        StatementKeepsOk(kind, s.table, PcOf(s, a.client), a.inUse);
        StatementKeepsClosureIff(kind, s.table, PcOf(s, a.client), a.inUse);
      }
      hide Ok, Statement, M.LiveClosed, Opens;
      if M.LiveClosed(Step(kind, s, a).table) {
        ClosedFrom(kind, Step(kind, s, a), actions[1..]);
      }
    }
  }

  // Every interleaving: no live folder ever lies below a deleted one if and only if no folder is marked that has a live
  // child by then, and no create, restore or move puts a live folder below a deleted one.
  lemma EveryInterleavingIsClosedIff(kind: Kind, actions: seq<Action>)
    ensures AlwaysClosed(kind, INITIAL, actions) <==> NeverOpens(kind, INITIAL, actions)
  {
    assert ParentsOf(EMPTY.rows) == map[];
    ClosedFrom(kind, INITIAL, actions);
  }

  // ----- one mover at a time -----

  predicate Moving(pc: Pc) { pc.Walk? || pc.Write? }

  // No two clients are between the walk and the UPDATE of a move.
  ghost predicate OneMover(s: Sys) {
    forall c, d | c in s.pcs && d in s.pcs && Moving(s.pcs[c]) && Moving(s.pcs[d]) :: c == d
  }

  predicate MarksTarget(pc: Pc, other: Pc) { pc.Mark? && Moving(other) && other.parent == pc.id }

  // The statement deletes the new parent of a move under way.
  ghost predicate StepMarksTarget(s: Sys, a: Action) {
    a.Advance? && exists c | c in s.pcs :: MarksTarget(PcOf(s, a.client), s.pcs[c])
  }

  // What a caller can arrange.  One mover at a time, at most 4096 (10000) folders, no create that names the id it is
  // given; of model folders also that no live one comes to lie below a deleted one, and that nobody deletes the new
  // parent of a move under way.
  ghost predicate Orderly(kind: Kind, s: Sys, actions: seq<Action>)
    decreases |actions|
  {
    && OneMover(s) && |s.table.rows| <= Bound(kind)
    && (actions != [] ==>
          && !(StepCloses(s, actions[0]) && PcOf(s, actions[0].client).First?)
          && (kind == Models ==> !StepOpens(s, actions[0]) && !StepMarksTarget(s, actions[0]))
          && Orderly(kind, Step(kind, s, actions[0]), actions[1..]))
  }

  predicate Present(kind: Kind, t: Table, id: int) { id in t.rows && (kind == Models ==> !t.rows[id].deleted) }

  // What the table holds of a client between two of its statements
  ghost predicate Sound(kind: Kind, t: Table, pc: Pc) {
    match pc
    case FindParent(id, _) => id > 0
    case Walk(id, parent, _, _) => id > 0 && Present(kind, t, parent) && OnWalk(ParentsOf(t.rows), pc)
    case Write(id, parent) =>
      id > 0 && (parent <= 0 || Present(kind, t, parent)) && !Reaches(ParentsOf(t.rows), parent, id)
    case _ => true
  }

  ghost predicate Closed(kind: Kind, t: Table) { Ok(t) && (kind == Models ==> M.LiveClosed(t)) }

  ghost predicate AllSound(kind: Kind, s: Sys) {
    Closed(kind, s.table) && forall c | c in s.pcs :: Sound(kind, s.table, s.pcs[c])
  }

  // From a folder that is present the walk follows the whole chain.
  lemma WalkSeesAll(kind: Kind, t: Table, s: int)
    requires Closed(kind, t) && Present(kind, t, s)
    ensures forall k: nat :: Up(WalkMap(kind, t), s, k) == Up(ParentsOf(t.rows), s, k)
  {
    if kind == Models {
      forall k: nat ensures Up(LiveParents(t.rows), s, k) == Up(ParentsOf(t.rows), s, k) {
        M.LiveChain(t, s, k);
      }
    }
  }

  lemma TurnIsSound(kind: Kind, t: Table, pc: Pc)
    requires Closed(kind, t) && Sound(kind, t, pc) && pc.Walk? && |t.rows| <= Bound(kind)
    ensures Sound(kind, t, WalkStep(kind, t, pc))
  {
    var p := ParentsOf(t.rows);
    WalkSeesAll(kind, t, pc.parent);
    TurnOfWalk(kind, t, pc);
    hide WalkMap;
    if WalkStep(kind, t, pc).Write? && Reaches(p, pc.parent, pc.id) {
      S.SameSize(t.rows);
      WithinTheTable(p, pc.parent, pc.id, Bound(kind));
    }
  }

  // The mover's own next statement keeps it sound.
  lemma OwnStepIsSound(kind: Kind, t: Table, pc: Pc, inUse: bool)
    requires Closed(kind, t) && Sound(kind, t, pc) && |t.rows| <= Bound(kind)
    ensures var (u, next) := Statement(kind, t, pc, inUse);
      Sound(kind, u, next) && (Moving(next) ==> u == t)
  {
    if pc.Walk? {
      TurnIsSound(kind, t, pc);
    } else if pc.First? && pc.call.Move? && pc.call.id > 0 && pc.call.parent <= 0 {
      NothingAbove(ParentsOf(t.rows), pc.call.parent, pc.call.id);
    }
  }

  lemma NothingAbove(p: Parents, s: int, id: int)
    requires 0 !in p && s !in p && s != id && id != 0
    ensures !Reaches(p, s, id)
  {
    forall k: nat ensures Up(p, s, k) != id {
    }
  }

  lemma WithinTheTable(p: Parents, s: int, id: int, bound: nat)
    requires Rooted(p) && id != 0 && |p| <= bound && s in p && Reaches(p, s, id)
    ensures ReachesWithin(p, s, id, bound)
  {
    var k: nat :| Up(p, s, k) == id;
    StaysInside(p, s, k);
    BoundedWalkIsExact(p, s, id, bound);
  }

  lemma {:induction false} StaysInside(p: Parents, s: int, k: nat)
    requires Rooted(p) && (s == 0 || s in p)
    ensures Up(p, s, k) == 0 || Up(p, s, k) in p
    decreases k
  {
    if k > 0 && s in p {
      StaysInside(p, p[s], k - 1);
    }
  }

  // A statement that fires no move leaves the chains of all rows as they are.
  lemma ChainsStay(kind: Kind, t: Table, pc: Pc, inUse: bool, s: int, k: nat)
    requires Ok(t) && s in t.rows && !pc.Write?
    ensures var u := Statement(kind, t, pc, inUse).0;
      Up(ParentsOf(u.rows), s, k) == Up(ParentsOf(t.rows), s, k)
  {
    var u := Statement(kind, t, pc, inUse).0;
    if pc.First? && pc.call.Create? && u != t {
      assert ParentsOf(u.rows) == ParentsOf(t.rows)[t.nextId := pc.call.parent];
      StaysOld(ParentsOf(t.rows), t.nextId, pc.call.parent, s, k);
    } else {
      assert ParentsOf(u.rows) == ParentsOf(t.rows);
    }
  }

  lemma StaysPresent(kind: Kind, t: Table, pc: Pc, inUse: bool, id: int)
    requires Ok(t) && Present(kind, t, id) && (kind == Models ==> !(pc.Mark? && pc.id == id))
    ensures Present(kind, Statement(kind, t, pc, inUse).0, id)
  {
  }

  lemma OthersStaySound(kind: Kind, t: Table, pc: Pc, inUse: bool, other: Pc)
    requires Ok(t) && Sound(kind, t, other) && (Moving(other) ==> !pc.Write?)
    requires kind == Models ==> !MarksTarget(pc, other)
    ensures Sound(kind, Statement(kind, t, pc, inUse).0, other)
  {
    hide Statement;
    if Moving(other) {
      var p, q := ParentsOf(t.rows), ParentsOf(Statement(kind, t, pc, inUse).0.rows);
      if other.parent in t.rows {
        forall k: nat ensures Up(q, other.parent, k) == Up(p, other.parent, k) {
          ChainsStay(kind, t, pc, inUse, other.parent, k);
        }
        StaysPresent(kind, t, pc, inUse, other.parent);
      } else {
        StatementKeepsOk(kind, t, pc, inUse);
        NothingAbove(q, other.parent, other.id);
      }
    }
  }

  lemma ClosesOnlySo(kind: Kind, t: Table, pc: Pc)
    requires Sound(kind, t, pc)
    ensures Closes(t, pc) ==> pc.First?
  {
  }

  lemma StaysClosed(kind: Kind, t: Table, pc: Pc, inUse: bool)
    requires Closed(kind, t) && (kind == Models ==> !Opens(t, pc))
    ensures Closed(kind, Statement(kind, t, pc, inUse).0)
  {
    hide Statement, Opens, Ok, M.LiveClosed;
    StatementKeepsOk(kind, t, pc, inUse);
    if kind == Models {
      StatementKeepsClosureIff(kind, t, pc, inUse);
    }
  }

  lemma OrderlyStep(kind: Kind, s: Sys, a: Action)
    requires AllSound(kind, s) && IsForest(s.table) && OneMover(s) && |s.table.rows| <= Bound(kind)
    requires !(StepCloses(s, a) && PcOf(s, a.client).First?)
    requires kind == Models ==> !StepOpens(s, a) && !StepMarksTarget(s, a)
    ensures !StepCloses(s, a) && AllSound(kind, Step(kind, s, a)) && IsForest(Step(kind, s, a).table)
  {
    hide Statement, Closes, Opens, Fires, M.LiveClosed, MarksTarget, Bound;
    if a.Advance? {
      var pc := PcOf(s, a.client);
      ClosesOnlySo(kind, s.table, pc);
      StatementKeepsForestIff(kind, s.table, pc, a.inUse);
      OwnStepIsSound(kind, s.table, pc, a.inUse);
      StaysClosed(kind, s.table, pc, a.inUse);
      forall c | c in s.pcs && c != a.client
        ensures Sound(kind, Statement(kind, s.table, pc, a.inUse).0, s.pcs[c])
      {
        OthersStaySound(kind, s.table, pc, a.inUse, s.pcs[c]);
      }
    }
  }

  lemma {:induction false} OrderlyFrom(kind: Kind, s: Sys, actions: seq<Action>)
    requires AllSound(kind, s) && IsForest(s.table) && Orderly(kind, s, actions)
    ensures AlwaysForest(kind, s, actions)
    decreases |actions|
  {
    if actions != [] {
      OrderlyStep(kind, s, actions[0]);
      OrderlyFrom(kind, Step(kind, s, actions[0]), actions[1..]);
    }
  }

  // Moves taken one at a time, everything else interleaved at will: the folders stay a forest.
  lemma OneMoverKeepsForest(kind: Kind, actions: seq<Action>)
    requires Orderly(kind, INITIAL, actions)
    ensures AlwaysForest(kind, INITIAL, actions)
  {
    assert ParentsOf(EMPTY.rows) == map[];
    OrderlyFrom(kind, INITIAL, actions);
  }

  lemma ChildOfRoot(p: Parents)
    requires p == map[1 := 0, 2 := 1]
    ensures Acyclic(p) && Reaches(p, 2, 1)
  {
    forall i: int, k: nat | i in p && k > 0 ensures Up(p, i, k) != i {
      UpZero(p, k - 1);
      assert Up(p, 1, k) == Up(p, 0, k - 1) == 0;
      if i == 2 && k > 1 {
        UpZero(p, k - 2);
        assert Up(p, 2, k) == Up(p, 1, k - 1) == Up(p, 0, k - 2);
      }
    }
    assert Up(p, 2, 1) == Up(p, 1, 0) == 1;
  }

  lemma MovedUnderItsChild(t: Table)
    requires t == Table(map[1 := Folder("a", 0, false), 2 := Folder("b", 1, false)], 3)
    ensures Ok(t) && IsForest(t) && !IsForest(Statement(Models, t, Write(1, 2), false).0)
  {
    var p := ParentsOf(t.rows);
    assert p == map[1 := 0, 2 := 1];
    ChildOfRoot(p);
    hide Acyclic, Reaches;
    StatementKeepsForestIff(Models, t, Write(1, 2), false);
  }

  // The condition on the new parent is needed: with it deleted the walk ends at once, and when it is restored before
  // the UPDATE, moving 1 under its child 2 closes a cycle.
  lemma DeletedTargetCloses()
    ensures var t := Table(map[1 := Folder("a", 0, false), 2 := Folder("b", 1, false)], 3);
      var u := Statement(Models, t, Mark(2), false).0;
      && Ok(t) && IsForest(t) && M.LiveClosed(t) && !Opens(t, Mark(2)) && !Opens(u, First(Restore(2)))
      && Statement(Models, t, FindParent(1, 2), false) == (t, Walk(1, 2, 2, 0))
      && Statement(Models, u, Walk(1, 2, 2, 0), false) == (u, Write(1, 2))
      && Statement(Models, u, First(Restore(2)), false).0 == t
      && !IsForest(Statement(Models, t, Write(1, 2), false).0)
  {
    var t := Table(map[1 := Folder("a", 0, false), 2 := Folder("b", 1, false)], 3);
    MovedUnderItsChild(t);
    hide IsForest, Ok, Fires;
    assert Statement(Models, t, Mark(2), false).0.rows[2] == Folder("b", 1, true);
  }
}
