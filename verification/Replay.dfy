/**
 The whole database under every operation of acta_db on it, and what a run of an execution reads from it
 (acta_runner/src/run.c, "resolve refs").
 */
module Replay {
  import opened Db
  import opened Json
  import opened Request
  import opened Contexts
  import E = Executions
  import F = FolderTable
  import J = Journal
  import MF = ModelFolders
  import SF = SkillFolders

  datatype Base = Base(
    models: J.State<ModelRest>, skills: J.State<SkillRest>, modelFolders: F.Table, skillFolders: F.Table,
    contexts: map<int, Context>, nextContext: int, executions: E.Rows, nextExecution: int)

  const EMPTY := Base(J.State(map[], 1, []), J.State(map[], 1, []), F.EMPTY, F.EMPTY, map[], 1, map[], 1)

  datatype NewExecution = NewExecution(
    contextId: int, skillRevisionId: int, modelRevisionId: int, parentId: int, now: string)

  datatype Event =
    | OnModels(mop: J.Op<ModelRest>)
    | OnSkills(sop: J.Op<SkillRest>)
    | OnModelFolders(mfop: MF.Op)
    | OnSkillFolders(sfop: SF.Op)
    | AddContext(context: Context)
    | UpdateContext(id: int, row: Context)   // any UPDATE of a context row: delete, restore, or SQL from elsewhere
    | AddExecution(e: NewExecution)          // the SELECT and the INSERT of acta_db_execution_create
    | InsertExecution(e: NewExecution)       // the INSERT alone
    | OnExecution(call: E.Call, at: string)  // the UPDATE of any call on an execution

  predicate FolderInUse<T>(items: map<int, J.Item<T>>, folder: int) {
    exists i | i in items :: items[i].fields.folder == folder && !items[i].deleted
  }

  // acta_db_execution_create, up to its INSERT: the context must be live.
  function CheckContext(b: Base, e: NewExecution): Rc {
    if e.contextId <= 0 || e.skillRevisionId <= 0 || e.modelRevisionId <= 0 then INVALID
    else if e.contextId !in b.contexts then FK
    else if b.contexts[e.contextId].deleted then NOT_FOUND
    else OK
  }

  // Its INSERT: the references must exist.
  function InsertStep(b: Base, e: NewExecution): (Base, Rc) {
    if e.contextId !in b.contexts then (b, FK)
    else if !(0 < e.skillRevisionId <= |b.skills.revisions|) then (b, FK)
    else if !(0 < e.modelRevisionId <= |b.models.revisions|) then (b, FK)
    else if e.parentId != 0 && e.parentId !in b.executions && e.parentId != b.nextExecution then (b, FK)
    else
      var row := E.Fresh(e.contextId, e.skillRevisionId, e.modelRevisionId, e.parentId, e.now);
      (b.(executions := b.executions[b.nextExecution := row], nextExecution := b.nextExecution + 1), OK)
  }

  function AddExecutionStep(b: Base, e: NewExecution): (Base, Rc) {
    if CheckContext(b, e) != OK then (b, CheckContext(b, e)) else InsertStep(b, e)
  }

  // What create answers, and the row it inserts
  lemma CreationIs(b: Base, e: NewExecution)
    ensures var (b', rc) := AddExecutionStep(b, e);
      && rc == (if e.contextId <= 0 || e.skillRevisionId <= 0 || e.modelRevisionId <= 0 then INVALID
                else if e.contextId !in b.contexts then FK
                else if b.contexts[e.contextId].deleted then NOT_FOUND
                else if e.skillRevisionId > |b.skills.revisions| || e.modelRevisionId > |b.models.revisions| then FK
                else if e.parentId != 0 && e.parentId !in b.executions && e.parentId != b.nextExecution then FK
                else OK)
      && (rc != OK ==> b' == b)
      && (rc == OK ==>
            && b'.executions.Keys == b.executions.Keys + {b.nextExecution}
            && (forall i | i in b.executions && i != b.nextExecution :: b'.executions[i] == b.executions[i])
            && var r := b'.executions[b.nextExecution];
               r.contextId == e.contextId && r.skillRevisionId == e.skillRevisionId
               && r.modelRevisionId == e.modelRevisionId && r.parentId == e.parentId && r.createdAt == e.now
               && r.status == E.Pending)
  {
  }

  ghost function Step(b: Base, e: Event): Base {
    match e
    case OnModels(op) => b.(models := J.Step(J.Models, b.modelFolders.rows, b.models, op).0)
    case OnSkills(op) => b.(skills := J.Step(J.Skills, b.skillFolders.rows, b.skills, op).0)
    case OnModelFolders(op) =>
      var op' := if op.SoftDelete? then op.(inUse := FolderInUse(b.models.items, op.id)) else op;
      b.(modelFolders := MF.Step(b.modelFolders, op').0)
    case OnSkillFolders(op) =>
      var op' := if op.SoftDelete? then op.(inUse := FolderInUse(b.skills.items, op.id)) else op;
      b.(skillFolders := SF.Step(b.skillFolders, op').0)
    case AddContext(c) => b.(contexts := b.contexts[b.nextContext := c], nextContext := b.nextContext + 1)
    case UpdateContext(id, row) => b.(contexts := UpdateRow(b.contexts, id, row))
    case AddExecution(e) => AddExecutionStep(b, e).0
    case InsertExecution(e) => InsertStep(b, e).0
    case OnExecution(call, at) => b.(executions := E.Update(b.executions, call, at).0)
  }

  ghost function RunAll(b: Base, events: seq<Event>): Base {
    if events == [] then b else Step(RunAll(b, events[..|events| - 1]), events[|events| - 1])
  }

  // Every reference of an execution leads to a row.
  predicate References(b: Base, r: E.Row) {
    && r.contextId in b.contexts
    && 0 < r.skillRevisionId <= |b.skills.revisions| && 0 < r.modelRevisionId <= |b.models.revisions|
  }

  ghost predicate Sound(b: Base) {
    && J.WellKept(b.models) && J.WellKept(b.skills)
    && (forall i | i in b.contexts :: i < b.nextContext)
    && (forall i | i in b.executions :: i < b.nextExecution && References(b, b.executions[i]))
  }

  // What the runner reads for an execution: context_get and skill_revision_get read deleted rows too,
  // model_revision_get does not.
  datatype Inputs = Inputs(content: string, skill: SkillRest, model: Option<ModelRest>)

  function InputsOf(b: Base, id: int): Inputs
    requires id in b.executions && References(b, b.executions[id])
  {
    var e := b.executions[id];
    var m := b.models.revisions[e.modelRevisionId - 1];
    Inputs(b.contexts[e.contextId].content, b.skills.revisions[e.skillRevisionId - 1].fields.rest,
           if m.deleted then None else Some(m.fields.rest))
  }

  // The request a run of the execution would send, or why it would send none
  function ChatRequest(b: Base, id: int, parse: string -> Option<Json>, override: Option<Dialect>, maxChars: int)
    : Result<Json>
  {
    if id !in b.executions then Err(NotFound)
    else
      var e := b.executions[id];
      if e.contextId !in b.contexts then Err(ContextMissing)
      else if !(0 < e.skillRevisionId <= |b.skills.revisions|) then Err(SkillMissing)
      else if !(0 < e.modelRevisionId <= |b.models.revisions|)
        || b.models.revisions[e.modelRevisionId - 1].deleted then Err(ModelMissing)
      else
        RequestOf(parse, override, maxChars, b.contexts[e.contextId].content,
                  b.skills.revisions[e.skillRevisionId - 1].fields.rest,
                  b.models.revisions[e.modelRevisionId - 1].fields.rest)
  }

  ghost predicate InputsKept(b: Base, b': Base) {
    && Sound(b') && b.executions.Keys <= b'.executions.Keys
    && forall id | id in b.executions ::
         References(b, b.executions[id]) && References(b', b'.executions[id]) && InputsOf(b', id) == InputsOf(b, id)
  }

  lemma ModelsKeepInputs(b: Base, op: J.Op<ModelRest>)
    requires Sound(b)
    ensures InputsKept(b, Step(b, OnModels(op)))
  {
    hide J.Step, J.WellKept;
    J.StepKeeps(J.Models, b.modelFolders.rows, b.models, op);
  }

  lemma SkillsKeepInputs(b: Base, op: J.Op<SkillRest>)
    requires Sound(b)
    ensures InputsKept(b, Step(b, OnSkills(op)))
  {
    hide J.Step, J.WellKept;
    J.StepKeeps(J.Skills, b.skillFolders.rows, b.skills, op);
  }

  lemma InsertKeepsInputs(b: Base, e: NewExecution)
    requires Sound(b)
    ensures InputsKept(b, InsertStep(b, e).0)
  {
    hide J.WellKept, E.RowOk;
  }

  lemma UpdateKeepsReferences(rows: E.Rows, call: E.Call, at: string)
    ensures var after := E.Update(rows, call, at).0;
      && after.Keys == rows.Keys
      && forall i | i in rows ::
           after[i].contextId == rows[i].contextId && after[i].skillRevisionId == rows[i].skillRevisionId
           && after[i].modelRevisionId == rows[i].modelRevisionId
  {
    hide E.Guard;
  }

  lemma ExecutionsKeepInputs(b: Base, call: E.Call, at: string)
    requires Sound(b)
    ensures InputsKept(b, Step(b, OnExecution(call, at)))
  {
    hide J.WellKept, E.Update;
    UpdateKeepsReferences(b.executions, call, at);
  }

  lemma ContextsKeepInputs(b: Base, e: Event)
    requires Sound(b) && (e.AddContext? || e.UpdateContext?)
    ensures InputsKept(b, Step(b, e))
  {
    hide J.WellKept;
  }

  lemma FoldersKeepInputs(b: Base, e: Event)
    requires Sound(b) && (e.OnModelFolders? || e.OnSkillFolders?)
    ensures InputsKept(b, Step(b, e))
  {
    hide J.WellKept, MF.Step, SF.Step;
  }

  // One operation of any kind leaves what an existing execution reads as it was.
  lemma StepKeepsInputs(b: Base, e: Event)
    requires Sound(b)
    ensures var b' := Step(b, e);
      && Sound(b') && b.executions.Keys <= b'.executions.Keys
      && forall id | id in b.executions :: InputsOf(b', id) == InputsOf(b, id)
  {
    SoundReferencesAll(b);
    hide Sound, References;
    match e {
      case OnModels(op) => ModelsKeepInputs(b, op);
      case OnSkills(op) => SkillsKeepInputs(b, op);
      case OnModelFolders(_) => FoldersKeepInputs(b, e);
      case OnSkillFolders(_) => FoldersKeepInputs(b, e);
      case AddContext(_) => ContextsKeepInputs(b, e);
      case UpdateContext(_, _) => ContextsKeepInputs(b, e);
      case AddExecution(row) => InsertKeepsInputs(b, row);
      case InsertExecution(row) => InsertKeepsInputs(b, row);
      case OnExecution(call, at) => ExecutionsKeepInputs(b, call, at);
    }
  }

  lemma SoundReferencesAll(b: Base)
    requires Sound(b)
    ensures forall id | id in b.executions :: References(b, b.executions[id])
  {
  }

  lemma {:induction false} RunKeepsInputs(b: Base, events: seq<Event>)
    requires Sound(b)
    ensures var b' := RunAll(b, events);
      && Sound(b') && b.executions.Keys <= b'.executions.Keys
      && forall id | id in b.executions :: InputsOf(b', id) == InputsOf(b, id)
  {
    if events == [] {
    } else {
      RunKeepsInputs(b, events[..|events| - 1]);
      StepKeepsInputs(RunAll(b, events[..|events| - 1]), events[|events| - 1]);
    }
  }

  lemma StepKeepsContexts(b: Base, e: Event, id: int)
    requires Sound(b) && id in b.contexts
    ensures var c := b.contexts[id];
      && id in Step(b, e).contexts
      && var d := Step(b, e).contexts[id];
         d.kind == c.kind && d.content == c.content && d.hash == c.hash && d.metadata == c.metadata
  {
    hide J.Step, J.WellKept, MF.Step, SF.Step, E.Update, References;
  }

  // Contexts are immutable: once created, type, content, hash and metadata are the same in every later state.
  lemma {:induction false} ContextsNeverChange(b: Base, events: seq<Event>, id: int)
    requires Sound(b) && id in b.contexts
    ensures var c := b.contexts[id];
      && id in RunAll(b, events).contexts
      && var d := RunAll(b, events).contexts[id];
         d.kind == c.kind && d.content == c.content && d.hash == c.hash && d.metadata == c.metadata
  {
    if events == [] {
    } else {
      hide Step, Sound;
      var front := events[..|events| - 1];
      ContextsNeverChange(b, front, id);
      RunKeepsInputs(b, front);
      StepKeepsContexts(RunAll(b, front), events[|events| - 1], id);
    }
  }

  lemma EmptyIsSound()
    ensures Sound(EMPTY)
  {
  }

  predicate ReferencesFound(r: Result<Json>) { r.Err? ==> r.fault !in {NotFound, ContextMissing, SkillMissing} }

  // Replay: once an execution exists, the request built for it is the same in every later state.
  lemma RequestNeverChanges(events: seq<Event>, more: seq<Event>, id: int, parse: string -> Option<Json>,
                            override: Option<Dialect>, maxChars: int)
    requires id in RunAll(EMPTY, events).executions
    ensures ChatRequest(RunAll(RunAll(EMPTY, events), more), id, parse, override, maxChars)
      == ChatRequest(RunAll(EMPTY, events), id, parse, override, maxChars)
    ensures ReferencesFound(ChatRequest(RunAll(EMPTY, events), id, parse, override, maxChars))
  {
    hide Sound, RunAll, RequestOf;
    EmptyIsSound();
    RunKeepsInputs(EMPTY, events);
    var b := RunAll(EMPTY, events);
    RunKeepsInputs(b, more);
    SoundReferences(b, id);
    SoundReferences(RunAll(b, more), id);
    assert InputsOf(RunAll(b, more), id) == InputsOf(b, id);
    RequestFromInputs(b, id, parse, override, maxChars);
    RequestFromInputs(RunAll(b, more), id, parse, override, maxChars);
  }

  lemma SoundReferences(b: Base, id: int)
    requires Sound(b) && id in b.executions
    ensures References(b, b.executions[id])
  {
  }

  // The request depends on the inputs only, not on status, deletion of the execution, of its context or of its skill.
  lemma RequestFromInputs(b: Base, id: int, parse: string -> Option<Json>, override: Option<Dialect>, maxChars: int)
    requires id in b.executions && References(b, b.executions[id])
    ensures ChatRequest(b, id, parse, override, maxChars) ==
      var i := InputsOf(b, id);
      if i.model.None? then Err(ModelMissing)
      else RequestOf(parse, override, maxChars, i.content, i.skill, i.model.value)
    ensures ReferencesFound(ChatRequest(b, id, parse, override, maxChars))
  {
  }

  // ----- live items in deleted folders -----

  predicate ItemsTidy<T>(items: map<int, J.Item<T>>, folders: map<int, F.Folder>) {
    forall i | i in items && !items[i].deleted ::
      items[i].fields.folder == 0
      || (items[i].fields.folder in folders && !folders[items[i].fields.folder].deleted)
  }

  // No live model or skill lies in a deleted folder.
  ghost predicate Tidy(b: Base) {
    ItemsTidy(b.models.items, b.modelFolders.rows) && ItemsTidy(b.skills.items, b.skillFolders.rows)
  }

  predicate DeletedFolder(folders: map<int, F.Folder>, folder: int) { folder in folders && folders[folder].deleted }

  // A call that puts a live item into a deleted folder: create and update ask only that the folder exists, restore asks
  // nothing.
  predicate Strays<T(==)>(kind: J.Kind, folders: map<int, F.Folder>, s: J.State<T>, op: J.Op<T>) {
    J.Step(kind, folders, s, op).1 == OK
    && match op
       case Create(fields) => DeletedFolder(folders, fields.folder)
       case Update(_, fields) => DeletedFolder(folders, fields.folder)
       case Restore(id) => s.items[id].deleted && DeletedFolder(folders, s.items[id].fields.folder)
       case _ => false
  }

  predicate EventStrays(b: Base, e: Event) {
    (e.OnModels? && Strays(J.Models, b.modelFolders.rows, b.models, e.mop))
    || (e.OnSkills? && Strays(J.Skills, b.skillFolders.rows, b.skills, e.sop))
  }

  // Every item's folder exists.
  predicate FoldersFound<T>(items: map<int, J.Item<T>>, folders: map<int, F.Folder>) {
    forall i | i in items :: items[i].fields.folder == 0 || items[i].fields.folder in folders
  }

  lemma CallKeepsTidyIff<T>(kind: J.Kind, folders: map<int, F.Folder>, s: J.State<T>, op: J.Op<T>)
    requires J.WellKept(s) && ItemsTidy(s.items, folders) && FoldersFound(s.items, folders) && 0 !in folders
    ensures var s' := J.Step(kind, folders, s, op).0;
      && FoldersFound(s'.items, folders)
      && (ItemsTidy(s'.items, folders) <==> !Strays(kind, folders, s, op))
  {
    hide J.WellKept, J.Snapshot, J.NameTaken;
    var s' := J.Step(kind, folders, s, op).0;
    if J.Step(kind, folders, s, op).1 == OK {
      match op {
        case Create(fields) => assert s'.items[s.nextId] == J.Item(fields, false);
        case Update(id, fields) => assert s'.items[id] == J.Item(fields, false);
        case SoftDelete(id) => assert s'.items[id] == s.items[id].(deleted := true);
        case Restore(id) => assert s'.items[id] == s.items[id].(deleted := false);
        case MoveToFolder(id, folder) => assert s'.items[id].fields.folder == folder;
      }
    }
  }

  // A call on the folders keeps them, renames, moves, restores, or deletes one that no live item lies in.
  lemma FoldersKeepTidy<T>(items: map<int, J.Item<T>>, t: F.Table, u: F.Table)
    requires ItemsTidy(items, t.rows) && FoldersFound(items, t.rows) && t.rows.Keys <= u.rows.Keys
    requires forall f | f in t.rows && !t.rows[f].deleted && u.rows[f].deleted :: !FolderInUse(items, f)
    ensures ItemsTidy(items, u.rows) && FoldersFound(items, u.rows)
  {
  }

  lemma SkillFolderStep(t: F.Table, op: SF.Op)
    requires F.Ok(t)
    ensures var u := SF.Step(t, op).0;
      && t.rows.Keys <= u.rows.Keys && F.Ok(u)
      && forall f | f in t.rows && !t.rows[f].deleted && u.rows[f].deleted :: op == SF.SoftDelete(f, false)
  {
    SF.StepKeepsOk(t, op);
    hide F.Clash, F.Ok;
  }

  lemma ModelFolderStep(t: F.Table, op: MF.Op)
    requires F.Ok(t)
    ensures var u := MF.Step(t, op).0;
      && t.rows.Keys <= u.rows.Keys && F.Ok(u)
      && forall f | f in t.rows && !t.rows[f].deleted && u.rows[f].deleted :: op == MF.SoftDelete(f, false)
  {
    MF.StepKeepsOk(t, op);
    hide F.Clash, F.Ok;
  }

  // What holds of the folders and the items in them at any time, tidy or not
  ghost predicate Housed(b: Base) {
    && F.Ok(b.modelFolders) && F.Ok(b.skillFolders)
    && FoldersFound(b.models.items, b.modelFolders.rows) && FoldersFound(b.skills.items, b.skillFolders.rows)
    && J.WellKept(b.models) && J.WellKept(b.skills)
  }

  lemma StepKeepsTidyIff(b: Base, e: Event)
    requires Housed(b) && Tidy(b)
    ensures Housed(Step(b, e)) && (Tidy(Step(b, e)) <==> !EventStrays(b, e))
  {
    assert 0 !in b.modelFolders.rows && 0 !in b.skillFolders.rows;
    hide F.Ok, J.WellKept, ItemsTidy, FoldersFound, Strays, J.Step, MF.Step, SF.Step;
    match e {
      case OnModels(op) =>
        CallKeepsTidyIff(J.Models, b.modelFolders.rows, b.models, op);
        J.StepKeeps(J.Models, b.modelFolders.rows, b.models, op);
      case OnSkills(op) =>
        CallKeepsTidyIff(J.Skills, b.skillFolders.rows, b.skills, op);
        J.StepKeeps(J.Skills, b.skillFolders.rows, b.skills, op);
      case OnModelFolders(op) =>
        var op' := if op.SoftDelete? then op.(inUse := FolderInUse(b.models.items, op.id)) else op;
        ModelFolderStep(b.modelFolders, op');
        FoldersKeepTidy(b.models.items, b.modelFolders, MF.Step(b.modelFolders, op').0);
      case OnSkillFolders(op) =>
        var op' := if op.SoftDelete? then op.(inUse := FolderInUse(b.skills.items, op.id)) else op;
        SkillFolderStep(b.skillFolders, op');
        FoldersKeepTidy(b.skills.items, b.skillFolders, SF.Step(b.skillFolders, op').0);
      case _ =>
    }
  }

  ghost predicate AlwaysTidy(b: Base, events: seq<Event>)
    decreases |events|
  {
    Tidy(b) && (events != [] ==> AlwaysTidy(Step(b, events[0]), events[1..]))
  }

  ghost predicate NoneStrays(b: Base, events: seq<Event>)
    decreases |events|
  {
    events != [] ==> !EventStrays(b, events[0]) && NoneStrays(Step(b, events[0]), events[1..])
  }

  lemma {:induction false} TidyFrom(b: Base, events: seq<Event>)
    requires Housed(b) && Tidy(b)
    ensures AlwaysTidy(b, events) <==> NoneStrays(b, events)
    decreases |events|
  {
    if events != [] {
      StepKeepsTidyIff(b, events[0]);
      hide Housed, Tidy, EventStrays, Step;
      if Tidy(Step(b, events[0])) {
        TidyFrom(Step(b, events[0]), events[1..]);
      }
    }
  }

  // Over every run: no live model or skill ever lies in a deleted folder if and only if no create, update or restore of
  // one puts it there; deleting folders never does.
  lemma EveryRunIsTidyIff(events: seq<Event>)
    ensures AlwaysTidy(EMPTY, events) <==> NoneStrays(EMPTY, events)
  {
    assert F.ParentsOf(F.EMPTY.rows) == map[];
    TidyFrom(EMPTY, events);
  }

  // A folder is deleted exactly when it is live and neither a live folder nor a live item lies in it.
  lemma FolderIsDeletedIff(b: Base, id: int)
    requires F.Ok(b.modelFolders) && F.Ok(b.skillFolders)
    ensures Step(b, OnModelFolders(MF.SoftDelete(id, false))) != b <==>
      && id in b.modelFolders.rows && !b.modelFolders.rows[id].deleted
      && (forall f | f in b.modelFolders.rows && !b.modelFolders.rows[f].deleted ::
            b.modelFolders.rows[f].parent != id)
      && (forall i | i in b.models.items && !b.models.items[i].deleted :: b.models.items[i].fields.folder != id)
    ensures Step(b, OnSkillFolders(SF.SoftDelete(id, false))) != b <==>
      && id in b.skillFolders.rows && !b.skillFolders.rows[id].deleted
      && (forall f | f in b.skillFolders.rows && !b.skillFolders.rows[f].deleted ::
            b.skillFolders.rows[f].parent != id)
      && (forall i | i in b.skills.items && !b.skills.items[i].deleted :: b.skills.items[i].fields.folder != id)
  {
  }

  // ----- what the request says -----

  // The calls on models, each with the folder table it found
  ghost function ModelEvents(events: seq<Event>): seq<J.Event<ModelRest>> {
    if events == [] then []
    else
      var front, last := events[..|events| - 1], events[|events| - 1];
      ModelEvents(front)
        + if last.OnModels? then [J.Event(last.mop, RunAll(EMPTY, front).modelFolders.rows)] else []
  }

  lemma {:induction false} ModelsRun(events: seq<Event>)
    ensures RunAll(EMPTY, events).models == J.RunAll(J.Models, ModelEvents(events))
  {
    if events == [] {
    } else {
      var front, last := events[..|events| - 1], events[|events| - 1];
      ModelsRun(front);
      hide J.Step, MF.Step, SF.Step, E.Update;
      var so := ModelEvents(front);
      if last.OnModels? {
        var e := J.Event(last.mop, RunAll(EMPTY, front).modelFolders.rows);
        assert (so + [e])[..|so|] == so;
      } else {
        assert so + [] == so;
      }
    }
  }

  lemma OtherFaults(parse: string -> Option<Json>, override: Option<Dialect>, maxChars: int, content: string,
                    skill: SkillRest, model: ModelRest)
    ensures RequestOf(parse, override, maxChars, content, skill, model) != Err(ModelMissing)
  {
    hide TypesOk, NoneNoticed, Body;
  }

  lemma MissingIfDeleted(b: Base, id: int, parse: string -> Option<Json>, override: Option<Dialect>, maxChars: int)
    requires id in b.executions && References(b, b.executions[id])
    ensures ChatRequest(b, id, parse, override, maxChars) == Err(ModelMissing)
      <==> b.models.revisions[b.executions[id].modelRevisionId - 1].deleted
  {
    hide RequestOf;
    var e := b.executions[id];
    OtherFaults(parse, override, maxChars, b.contexts[e.contextId].content,
                b.skills.revisions[e.skillRevisionId - 1].fields.rest,
                b.models.revisions[e.modelRevisionId - 1].fields.rest);
  }

  // No request is built exactly when the model revision was written by a soft deletion.
  lemma {:induction false} ModelIsMissingIff(events: seq<Event>, id: int, parse: string -> Option<Json>,
                                             override: Option<Dialect>, maxChars: int)
    requires id in RunAll(EMPTY, events).executions
    ensures var b := RunAll(EMPTY, events);
      && 0 < b.executions[id].modelRevisionId <= |b.models.revisions|
      && var r := b.models.revisions[b.executions[id].modelRevisionId - 1];
         var entries := J.Wrote(J.Models, ModelEvents(events), r.owner);
         0 < r.number <= |entries|
         && (ChatRequest(b, id, parse, override, maxChars) == Err(ModelMissing) <==> entries[r.number - 1].deleted)
  {
    hide RunAll, Sound, ChatRequest, ModelEvents, InputsOf, J.RunAll, J.Wrote, J.Step;
    EmptyIsSound();
    RunKeepsInputs(EMPTY, events);
    var b := RunAll(EMPTY, events);
    ModelsRun(events);
    SoundReferences(b, id);
    MissingIfDeleted(b, id, parse, override, maxChars);
    J.RevisionIsItsEntry(J.Models, ModelEvents(events), b.executions[id].modelRevisionId - 1);
  }

  // A request that is built, part by part, read off the rows the execution refers to
  lemma RequestShows(b: Base, id: int, parse: string -> Option<Json>, override: Option<Dialect>, maxChars: int,
                     d: Dialect)
    requires id in b.executions && References(b, b.executions[id])
    requires ChatRequest(b, id, parse, override, maxChars).Ok?
    requires Speaks(override, b.models.revisions[b.executions[id].modelRevisionId - 1].fields.rest.backend, d)
    ensures var body := ChatRequest(b, id, parse, override, maxChars).value;
      var content := b.contexts[b.executions[id].contextId].content;
      var prompt := b.skills.revisions[b.executions[id].skillRevisionId - 1].fields.rest.prompt;
      && Get(body, "messages").Some? && Get(body, "messages").value.Array?
      && var messages := Get(body, "messages").value.items;
         && |messages| == (if prompt == [] then 1 else 2)
         && Get(messages[|messages| - 1], "role") == Some(Str("user"))
         && Get(messages[|messages| - 1], "content") == Some(Str(content))
         && (prompt != [] ==>
               Get(messages[0], "role") == Some(Str("system")) && Get(messages[0], "content") == Some(Str(prompt)))
    ensures var body := ChatRequest(b, id, parse, override, maxChars).value;
      var model := b.models.revisions[b.executions[id].modelRevisionId - 1].fields.rest;
      var cfg := if model.configuration.Some? && model.configuration.value != []
                 then parse(model.configuration.value) else Some(Object([]));
      && Get(body, "model") == Some(Str(model.identifier)) && cfg.Some?
      && Get(body, "temperature") == (match Get(cfg.value, "temperature")
           case Some(Number(n)) => if n >= 0.0 then Some(Number(n)) else None
           case _ => None)
      && Get(body, "max_tokens") == (match Get(cfg.value, "max_tokens")
           case Some(Number(n)) => if n >= 1.0 then Some(Number(n.Floor as real)) else None
           case _ => None)
      && Get(body, "top_k") == (match Get(cfg.value, "top_k")
           case Some(Number(n)) => if n >= 1.0 && d == LlamaCpp then Some(Number(n.Floor as real)) else None
           case _ => None)
    ensures var body := ChatRequest(b, id, parse, override, maxChars).value;
      var model := b.models.revisions[b.executions[id].modelRevisionId - 1].fields.rest;
      var outputSchema := b.skills.revisions[b.executions[id].skillRevisionId - 1].fields.rest.outputSchema;
      var cfg := if model.configuration.Some? && model.configuration.value != []
                 then parse(model.configuration.value) else Some(Object([]));
      var schema := if outputSchema.Some? && outputSchema.value != [] then parse(outputSchema.value) else None;
      var format := Get(body, "response_format");
      && cfg.Some?
      && (format.Some? <==> schema.Some? && Get(cfg.value, "supports_response_format") != Some(Bool(false)))
      && (format.Some? && d == LlamaCpp ==> Get(format.value, "schema") == schema)
      && (format.Some? && d == OpenAi ==>
            Get(format.value, "json_schema").Some?
            && Get(Get(format.value, "json_schema").value, "schema") == schema)
  {
    var e := b.executions[id];
    var skill, model := b.skills.revisions[e.skillRevisionId - 1].fields.rest,
                        b.models.revisions[e.modelRevisionId - 1].fields.rest;
    var content := b.contexts[e.contextId].content;
    RequestSays(parse, override, maxChars, content, skill, model, d);
    MessagesReadBack(skill.prompt, content);
    var schema := Parsed(parse, skill.outputSchema);
    if schema.Some? {
      EnvelopeHolds(schema.value);
    }
    hide RequestOf, Get, Messages, Envelope, Speaks;
  }
}
