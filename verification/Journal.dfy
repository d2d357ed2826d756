/**
 acta_db/src/model.c and skill.c with the revision triggers of acta_db/include/schema_sql.h.  The two tables differ in
 their columns (F stands for those beside folder and name) and in the error code of a failed update.
 */
module Journal {
  import opened Db
  import opened FolderTable

  datatype Kind = Models | Skills

  // folder 0 stands for SQL NULL.
  datatype Fields<F> = Fields(folder: int, name: string, rest: F)

  datatype Item<F> = Item(fields: Fields<F>, deleted: bool)

  datatype Revision<F> = Revision(owner: int, number: int, fields: Fields<F>, deleted: bool)

  // A revision row's id is its place in `revisions`, counted from 1.
  datatype State<F> = State(items: map<int, Item<F>>, nextId: int, revisions: seq<Revision<F>>)

  datatype Op<F> =
    | Create(fields: Fields<F>)
    | Update(id: int, fields: Fields<F>)
    | SoftDelete(id: int)
    | Restore(id: int)
    | MoveToFolder(id: int, folder: int)

  predicate LiveItem<F>(items: map<int, Item<F>>, id: int) { id in items && !items[id].deleted }

  // The partial UNIQUE indexes on name and on (folder_id, name); soft-deleted rows count
  predicate NameTaken<F>(items: map<int, Item<F>>, id: int, fields: Fields<F>) {
    exists i | i in items :: i != id && items[i].fields.folder == fields.folder && items[i].fields.name == fields.name
  }

  predicate FolderExists(folders: map<int, Folder>, folder: int) { folder == 0 || folder in folders }

  // COALESCE(MAX(revision), 0) over the rows of one owner
  function MaxNumber<F>(revisions: seq<Revision<F>>, owner: int): int {
    if revisions == [] then 0
    else
      var rest := MaxNumber(revisions[..|revisions| - 1], owner);
      var r := revisions[|revisions| - 1];
      if r.owner == owner && r.number > rest then r.number else rest
  }

  function Snapshot<F>(revisions: seq<Revision<F>>, id: int, item: Item<F>): seq<Revision<F>> {
    revisions + [Revision(id, MaxNumber(revisions, id) + 1, item.fields, item.deleted)]
  }

  // INSERT and its trigger
  function InsertItem<F>(s: State<F>, fields: Fields<F>): State<F> {
    State(s.items[s.nextId := Item(fields, false)], s.nextId + 1,
          s.revisions + [Revision(s.nextId, 1, fields, false)])
  }

  // UPDATE of one row and its triggers: a live row whose fields change, or a live row that is soft-deleted
  function UpdateItem<F(==)>(s: State<F>, id: int, item: Item<F>): State<F>
    requires id in s.items
  {
    var was := s.items[id];
    var fires := !was.deleted && (item.deleted || item.fields != was.fields);
    State(s.items[id := item], s.nextId, if fires then Snapshot(s.revisions, id, item) else s.revisions)
  }

  // An UPDATE that a constraint stops
  function Refusal(kind: Kind, taken: bool): Rc {
    if kind == Models then SQL else if taken then DUPLICATE else FK
  }

  function Step<F(==)>(kind: Kind, folders: map<int, Folder>, s: State<F>, op: Op<F>): (State<F>, Rc) {
    match op
    case Create(fields) =>
      if NameTaken(s.items, s.nextId, fields) then (s, DUPLICATE)
      else if !FolderExists(folders, fields.folder) then (s, FK)
      else (InsertItem(s, fields), OK)
    case Update(id, fields) =>
      if id <= 0 then (s, INVALID)
      else if !LiveItem(s.items, id) then (s, NOT_FOUND)
      else if NameTaken(s.items, id, fields) then (s, Refusal(kind, true))
      else if !FolderExists(folders, fields.folder) then (s, Refusal(kind, false))
      else (UpdateItem(s, id, Item(fields, false)), OK)
    case SoftDelete(id) =>
      if !LiveItem(s.items, id) then (s, NOT_FOUND)
      else (UpdateItem(s, id, s.items[id].(deleted := true)), OK)
    case Restore(id) =>
      if id !in s.items then (s, NOT_FOUND)
      else if !s.items[id].deleted then (s, OK)
      else (UpdateItem(s, id, s.items[id].(deleted := false)), OK)
    case MoveToFolder(id, folder) =>
      if folder != 0 && !Live(folders, folder) then (s, NOT_FOUND)
      else if !LiveItem(s.items, id) then (s, NOT_FOUND)
      else
        var fields := s.items[id].fields.(folder := folder);
        if NameTaken(s.items, id, fields) then (s, SQL) else (UpdateItem(s, id, Item(fields, false)), OK)
  }

  // The revisions of one owner, in the order they were written
  function HistoryOf<F>(revisions: seq<Revision<F>>, id: int): seq<Revision<F>> {
    if revisions == [] then []
    else
      var last := revisions[|revisions| - 1];
      HistoryOf(revisions[..|revisions| - 1], id) + (if last.owner == id then [last] else [])
  }

  function LastLive<F>(h: seq<Revision<F>>): Option<Revision<F>> {
    if h == [] then None
    else if !h[|h| - 1].deleted then Some(h[|h| - 1])
    else LastLive(h[..|h| - 1])
  }

  // Numbered 1..n; the last one and the last live one show the item as it is.
  predicate Kept<F(==)>(h: seq<Revision<F>>, id: int, item: Item<F>) {
    && h != [] && Numbered(h) && (forall k | 0 <= k < |h| :: h[k].owner == id)
    && h[|h| - 1].fields == item.fields
    && LastLive(h).Some? && LastLive(h).value.fields == item.fields
  }

  ghost predicate WellKept<F>(s: State<F>) {
    && (forall id | id in s.items :: id < s.nextId && Kept(HistoryOf(s.revisions, id), id, s.items[id]))
    && (forall id | id !in s.items :: HistoryOf(s.revisions, id) == [])
  }

  predicate Numbered<F>(h: seq<Revision<F>>) { forall k | 0 <= k < |h| :: h[k].number == k + 1 }

  lemma {:induction false} MaxIsLast<F>(revisions: seq<Revision<F>>, id: int)
    requires Numbered(HistoryOf(revisions, id))
    ensures MaxNumber(revisions, id) == |HistoryOf(revisions, id)|
  {
    if revisions == [] {
    } else {
      var front := revisions[..|revisions| - 1];
      var h, hf := HistoryOf(revisions, id), HistoryOf(front, id);
      assert h == hf + if revisions[|revisions| - 1].owner == id then [revisions[|revisions| - 1]] else [];
      assert forall k | 0 <= k < |hf| :: hf[k] == h[k];
      MaxIsLast(front, id);
      assert revisions[|revisions| - 1].owner == id ==> h[|hf|] == revisions[|revisions| - 1];
    }
  }

  lemma HistoryGrows<F>(revisions: seq<Revision<F>>, r: Revision<F>)
    ensures HistoryOf(revisions + [r], r.owner) == HistoryOf(revisions, r.owner) + [r]
    ensures forall id | id != r.owner :: HistoryOf(revisions + [r], id) == HistoryOf(revisions, id)
  {
    assert (revisions + [r])[..|revisions|] == revisions;
  }

  lemma KeptGrows<F>(h: seq<Revision<F>>, id: int, was: Item<F>, r: Revision<F>, item: Item<F>)
    requires Kept(h, id, was) && r.owner == id && r.number == |h| + 1 && r.fields == item.fields
    requires r.deleted ==> item.fields == was.fields
    ensures Kept(h + [r], id, item)
  {
    assert (h + [r])[..|h|] == h;
  }

  lemma UpdateKeeps<F>(s: State<F>, id: int, item: Item<F>)
    requires WellKept(s) && id in s.items
    requires s.items[id].deleted || item.deleted ==> item.fields == s.items[id].fields
    ensures WellKept(UpdateItem(s, id, item))
  {
    hide HistoryOf, LastLive, MaxNumber;
    var was, s' := s.items[id], UpdateItem(s, id, item);
    MaxIsLast(s.revisions, id);
    if !was.deleted && (item.deleted || item.fields != was.fields) {
      var h := HistoryOf(s.revisions, id);
      var r := Revision(id, |h| + 1, item.fields, item.deleted);
      assert s'.revisions == s.revisions + [r];
      HistoryGrows(s.revisions, r);
      KeptGrows(h, id, was, r, item);
    } else {
      assert s'.revisions == s.revisions;
    }
  }

  // Every step keeps the numbering and the current values, and only adds to the journal: at most one revision.
  lemma StepKeeps<F>(kind: Kind, folders: map<int, Folder>, s: State<F>, op: Op<F>)
    requires WellKept(s)
    ensures var s' := Step(kind, folders, s, op).0;
      && WellKept(s') && s.items.Keys <= s'.items.Keys
      && s.revisions <= s'.revisions && |s'.revisions| <= |s.revisions| + 1
    ensures Step(kind, folders, s, op).1 != OK ==> Step(kind, folders, s, op).0 == s
  {
    hide Kept, HistoryOf, MaxNumber;
    if Step(kind, folders, s, op).1 == OK {
      match op {
        case Create(fields) =>
          var r := Revision(s.nextId, 1, fields, false);
          HistoryGrows(s.revisions, r);
          assert HistoryOf(s.revisions, s.nextId) + [r] == [r];
          FirstIsKept(s.nextId, fields);
        case Update(id, fields) => UpdateKeeps(s, id, Item(fields, false));
        case SoftDelete(id) => UpdateKeeps(s, id, s.items[id].(deleted := true));
        case Restore(id) =>
          if s.items[id].deleted {
            UpdateKeeps(s, id, s.items[id].(deleted := false));
          }
        case MoveToFolder(id, folder) =>
          UpdateKeeps(s, id, Item(s.items[id].fields.(folder := folder), false));
      }
    }
  }

  lemma FirstIsKept<F>(id: int, fields: Fields<F>)
    ensures Kept([Revision(id, 1, fields, false)], id, Item(fields, false))
  {
  }

  // A call, and the folder table it finds
  datatype Event<F> = Event(op: Op<F>, folders: map<int, Folder>)

  function RunAll<F(==)>(kind: Kind, events: seq<Event<F>>): State<F> {
    if events == [] then State(map[], 1, [])
    else
      var last := events[|events| - 1];
      Step(kind, last.folders, RunAll(kind, events[..|events| - 1]), last.op).0
  }

  // 1 when the step creates the item, changes one of its fields or soft-deletes it
  function Noted<F(==)>(kind: Kind, s: State<F>, e: Event<F>, id: int): nat {
    var (s', rc) := Step(kind, e.folders, s, e.op);
    if rc != OK then 0
    else match e.op
      case Create(_) => if id == s.nextId then 1 else 0
      case Update(i, fields) => if i == id && id in s.items && fields != s.items[id].fields then 1 else 0
      case SoftDelete(i) => if i == id then 1 else 0
      case Restore(_) => 0
      case MoveToFolder(i, folder) => if i == id && id in s.items && folder != s.items[id].fields.folder then 1 else 0
  }

  function NotedSoFar<F(==)>(kind: Kind, events: seq<Event<F>>, id: int): nat {
    if events == [] then 0
    else
      var front := events[..|events| - 1];
      NotedSoFar(kind, front, id) + Noted(kind, RunAll(kind, front), events[|events| - 1], id)
  }

  lemma StepNotes<F>(kind: Kind, s: State<F>, e: Event<F>, id: int)
    requires WellKept(s)
    ensures |HistoryOf(Step(kind, e.folders, s, e.op).0.revisions, id)|
      == |HistoryOf(s.revisions, id)| + Noted(kind, s, e, id)
  {
    hide Kept, HistoryOf, MaxNumber, NameTaken;
    var s' := Step(kind, e.folders, s, e.op).0;
    StepKeeps(kind, e.folders, s, e.op);
    if s'.revisions != s.revisions {
      HistoryGrows(s.revisions, s'.revisions[|s.revisions|]);
      assert s'.revisions == s.revisions + [s'.revisions[|s.revisions|]];
    }
  }

  // Every run: revisions are numbered 1..n, the last and the last live one show the item as it is, and n counts its
  // creation, the calls that changed a field and the soft deletions.
  lemma {:induction false} EveryRunIsKept<F>(kind: Kind, events: seq<Event<F>>)
    ensures WellKept(RunAll(kind, events))
    ensures forall id :: |HistoryOf(RunAll(kind, events).revisions, id)| == NotedSoFar(kind, events, id)
  {
    if events == [] {
    } else {
      var front, last := events[..|events| - 1], events[|events| - 1];
      EveryRunIsKept(kind, front);
      StepKeeps(kind, last.folders, RunAll(kind, front), last.op);
      forall id
        ensures |HistoryOf(RunAll(kind, events).revisions, id)| == NotedSoFar(kind, events, id)
      {
        StepNotes(kind, RunAll(kind, front), last, id);
      }
    }
  }

  // ----- what the revisions hold -----

  // A revision as the call behind it describes it
  datatype Entry<F> = Entry(fields: Fields<F>, deleted: bool)

  // What one call that returned OK adds to the journal of an item that reads `so`
  function Adds<F(==)>(so: seq<Entry<F>>, op: Op<F>, id: int, nextId: int): seq<Entry<F>> {
    match op
    case Create(fields) => if id == nextId then [Entry(fields, false)] else []
    case Update(i, fields) =>
      if i == id && so != [] && fields != so[|so| - 1].fields then [Entry(fields, false)] else []
    case SoftDelete(i) => if i == id && so != [] then [Entry(so[|so| - 1].fields, true)] else []
    case Restore(_) => []
    case MoveToFolder(i, folder) =>
      if i == id && so != [] && folder != so[|so| - 1].fields.folder
      then [Entry(so[|so| - 1].fields.(folder := folder), false)] else []
  }

  // The journal of an item, read off the calls
  function Wrote<F(==)>(kind: Kind, events: seq<Event<F>>, id: int): seq<Entry<F>> {
    if events == [] then []
    else
      var front, e := events[..|events| - 1], events[|events| - 1];
      var s, so := RunAll(kind, front), Wrote(kind, front, id);
      so + if Step(kind, e.folders, s, e.op).1 == OK then Adds(so, e.op, id, s.nextId) else []
  }

  // The deletion mark of an item, read off the calls
  function Marked<F(==)>(kind: Kind, events: seq<Event<F>>, id: int): bool {
    if events == [] then false
    else
      var front, e := events[..|events| - 1], events[|events| - 1];
      if Step(kind, e.folders, RunAll(kind, front), e.op).1 == OK && e.op.SoftDelete? && e.op.id == id then true
      else if Step(kind, e.folders, RunAll(kind, front), e.op).1 == OK && e.op.Restore? && e.op.id == id then false
      else Marked(kind, front, id)
  }

  predicate Reads<F(==)>(h: seq<Revision<F>>, id: int, entries: seq<Entry<F>>) {
    |h| == |entries|
    && forall k | 0 <= k < |h| :: h[k] == Revision(id, k + 1, entries[k].fields, entries[k].deleted)
  }

  lemma ReadsMore<F>(h: seq<Revision<F>>, id: int, entries: seq<Entry<F>>, entry: Entry<F>)
    requires Reads(h, id, entries)
    ensures Reads(h + [Revision(id, |h| + 1, entry.fields, entry.deleted)], id, entries + [entry])
  {
  }

  lemma ReadsSame<F>(h: seq<Revision<F>>, id: int, entries: seq<Entry<F>>)
    requires Reads(h, id, entries)
    ensures Reads(h, id, entries + [])
  {
    assert entries + [] == entries;
  }

  // The one revision that an UPDATE of item id adds, if any
  lemma UpdateAdds<F>(s: State<F>, id: int, item: Item<F>)
    requires WellKept(s) && id in s.items
    ensures var was, h := s.items[id], HistoryOf(s.revisions, id);
      HistoryOf(UpdateItem(s, id, item).revisions, id) ==
        h + if !was.deleted && (item.deleted || item.fields != was.fields)
            then [Revision(id, |h| + 1, item.fields, item.deleted)] else []
    ensures forall other | other != id ::
      HistoryOf(UpdateItem(s, id, item).revisions, other) == HistoryOf(s.revisions, other)
  {
    hide HistoryOf, LastLive, MaxNumber;
    MaxIsLast(s.revisions, id);
    var h := HistoryOf(s.revisions, id);
    assert h + [] == h;
    HistoryGrows(s.revisions, Revision(id, |h| + 1, item.fields, item.deleted));
  }

  // An item's journal, and its last entry
  predicate InStep<F(==)>(s: State<F>, id: int, so: seq<Entry<F>>) {
    && Reads(HistoryOf(s.revisions, id), id, so)
    && (id in s.items ==> so != [] && so[|so| - 1].fields == s.items[id].fields)
    && (id !in s.items ==> so == [])
  }

  lemma UpdateReads<F>(s: State<F>, i: int, item: Item<F>, id: int, so: seq<Entry<F>>)
    requires WellKept(s) && i in s.items && InStep(s, id, so)
    requires s.items[i].deleted || item.deleted ==> item.fields == s.items[i].fields
    ensures var fires := !s.items[i].deleted && (item.deleted || item.fields != s.items[i].fields);
      InStep(UpdateItem(s, i, item), id, so + if i == id && fires then [Entry(item.fields, item.deleted)] else [])
  {
    hide HistoryOf, WellKept, MaxNumber;
    UpdateAdds(s, i, item);
    var h := HistoryOf(s.revisions, id);
    assert h + [] == h && so + [] == so;
    ReadsMore(h, id, so, Entry(item.fields, item.deleted));
  }

  lemma CreateReads<F>(s: State<F>, fields: Fields<F>, id: int, so: seq<Entry<F>>)
    requires WellKept(s) && InStep(s, id, so)
    ensures InStep(InsertItem(s, fields), id, so + if id == s.nextId then [Entry(fields, false)] else [])
  {
    hide HistoryOf, Kept;
    HistoryGrows(s.revisions, Revision(s.nextId, 1, fields, false));
    assert so + [] == so;
  }

  predicate StepRead<F(==)>(kind: Kind, folders: map<int, Folder>, s: State<F>, op: Op<F>, id: int,
                            so: seq<Entry<F>>) {
    var (s', rc) := Step(kind, folders, s, op);
    InStep(s', id, so + if rc == OK then Adds(so, op, id, s.nextId) else [])
  }

  lemma CreationReads<F>(kind: Kind, folders: map<int, Folder>, s: State<F>, fields: Fields<F>, id: int,
                         so: seq<Entry<F>>)
    requires WellKept(s) && InStep(s, id, so)
    ensures StepRead(kind, folders, s, Op.Create(fields), id, so)
  {
    hide WellKept, UpdateItem, InsertItem, HistoryOf, NameTaken, Reads;
    assert so + [] == so;
    if Step(kind, folders, s, Op.Create(fields)).1 == OK {
      CreateReads(s, fields, id, so);
    }
  }

  lemma ChangeReads<F>(kind: Kind, folders: map<int, Folder>, s: State<F>, i: int, fields: Fields<F>, id: int,
                       so: seq<Entry<F>>)
    requires WellKept(s) && InStep(s, id, so)
    ensures StepRead(kind, folders, s, Op.Update(i, fields), id, so)
  {
    hide WellKept, UpdateItem, InsertItem, HistoryOf, NameTaken, Reads;
    assert so + [] == so;
    if LiveItem(s.items, i) {
      UpdateReads(s, i, Item(fields, false), id, so);
    }
  }

  lemma DeletionReads<F>(kind: Kind, folders: map<int, Folder>, s: State<F>, i: int, id: int, so: seq<Entry<F>>)
    requires WellKept(s) && InStep(s, id, so)
    ensures StepRead(kind, folders, s, Op.SoftDelete(i), id, so)
  {
    hide WellKept, UpdateItem, InsertItem, HistoryOf, NameTaken, Reads;
    assert so + [] == so;
    if LiveItem(s.items, i) {
      UpdateReads(s, i, s.items[i].(deleted := true), id, so);
    }
  }

  lemma RestoreReads<F>(kind: Kind, folders: map<int, Folder>, s: State<F>, i: int, id: int, so: seq<Entry<F>>)
    requires WellKept(s) && InStep(s, id, so)
    ensures StepRead(kind, folders, s, Op.Restore(i), id, so)
  {
    hide WellKept, UpdateItem, InsertItem, HistoryOf, NameTaken, Reads;
    assert so + [] == so;
    if i in s.items && s.items[i].deleted {
      UpdateReads(s, i, s.items[i].(deleted := false), id, so);
    }
  }

  lemma MoveReads<F>(kind: Kind, folders: map<int, Folder>, s: State<F>, i: int, folder: int, id: int,
                     so: seq<Entry<F>>)
    requires WellKept(s) && InStep(s, id, so)
    ensures StepRead(kind, folders, s, MoveToFolder(i, folder), id, so)
  {
    hide WellKept, UpdateItem, InsertItem, HistoryOf, NameTaken, Reads;
    assert so + [] == so;
    if LiveItem(s.items, i) {
      UpdateReads(s, i, Item(s.items[i].fields.(folder := folder), false), id, so);
    }
  }

  lemma StepReads<F>(kind: Kind, folders: map<int, Folder>, s: State<F>, op: Op<F>, id: int, so: seq<Entry<F>>)
    requires WellKept(s) && InStep(s, id, so)
    ensures StepRead(kind, folders, s, op, id, so)
  {
    hide StepRead, WellKept, InStep;
    match op
    case Create(fields) => CreationReads(kind, folders, s, fields, id, so);
    case Update(i, fields) => ChangeReads(kind, folders, s, i, fields, id, so);
    case SoftDelete(i) => DeletionReads(kind, folders, s, i, id, so);
    case Restore(i) => RestoreReads(kind, folders, s, i, id, so);
    case MoveToFolder(i, folder) => MoveReads(kind, folders, s, i, folder, id, so);
  }

  lemma {:induction false} RunReads<F>(kind: Kind, events: seq<Event<F>>, id: int)
    ensures InStep(RunAll(kind, events), id, Wrote(kind, events, id))
  {
    if events == [] {
    } else {
      var front, last := events[..|events| - 1], events[|events| - 1];
      RunReads(kind, front, id);
      EveryRunIsKept(kind, front);
      hide InStep, WellKept, Step, Adds;
      StepReads(kind, last.folders, RunAll(kind, front), last.op, id, Wrote(kind, front, id));
    }
  }

  // Every run: revision k of an item holds what the k-th call noted for it wrote, the deletion mark included.
  lemma EveryRevisionIsItsCall<F>(kind: Kind, events: seq<Event<F>>, id: int)
    ensures var h, entries := HistoryOf(RunAll(kind, events).revisions, id), Wrote(kind, events, id);
      && |h| == |entries|
      && forall k | 0 <= k < |h| :: h[k] == Revision(id, k + 1, entries[k].fields, entries[k].deleted)
  {
    RunReads(kind, events, id);
  }

  // ... and the row what the last of these calls wrote, deleted or not as the last deletion or restore left it.
  lemma {:induction false} EveryItemIsItsLastCall<F>(kind: Kind, events: seq<Event<F>>, id: int)
    ensures var s, entries := RunAll(kind, events), Wrote(kind, events, id);
      && (id in s.items <==> entries != [])
      && (id in s.items ==> s.items[id] == Item(entries[|entries| - 1].fields, Marked(kind, events, id)))
  {
    RunReads(kind, events, id);
    MarkIsLast(kind, events, id);
  }

  function MarkOf<F>(s: State<F>, id: int): bool { id in s.items && s.items[id].deleted }

  lemma StepMarks<F>(kind: Kind, s: State<F>, e: Event<F>, id: int)
    requires s.nextId !in s.items
    ensures var (s', rc) := Step(kind, e.folders, s, e.op);
      MarkOf(s', id) == if rc == OK && e.op.SoftDelete? && e.op.id == id then true
                        else if rc == OK && e.op.Restore? && e.op.id == id then false
                        else MarkOf(s, id)
  {
    hide Snapshot, NameTaken;
  }

  lemma {:induction false} MarkIsLast<F>(kind: Kind, events: seq<Event<F>>, id: int)
    ensures MarkOf(RunAll(kind, events), id) == Marked(kind, events, id)
  {
    if events == [] {
    } else {
      var front, last := events[..|events| - 1], events[|events| - 1];
      MarkIsLast(kind, front, id);
      EveryRunIsKept(kind, front);
      NextIsNew(RunAll(kind, front));
      StepMarks(kind, RunAll(kind, front), last, id);
      hide Step, MarkOf, WellKept;
    }
  }

  lemma NextIsNew<F>(s: State<F>)
    requires WellKept(s)
    ensures s.nextId !in s.items
  {
  }

  // No later call alters a revision: a longer run has the same journal at its beginning.
  lemma {:induction false} RevisionsStay<F>(kind: Kind, events: seq<Event<F>>, more: seq<Event<F>>)
    ensures RunAll(kind, events).revisions <= RunAll(kind, events + more).revisions
    ensures RunAll(kind, events).items.Keys <= RunAll(kind, events + more).items.Keys
  {
    hide Step, WellKept;
    if more == [] {
      assert events + more == events;
    } else {
      var front := more[..|more| - 1];
      RevisionsStay(kind, events, front);
      EveryRunIsKept(kind, events + front);
      assert (events + more)[..|events + more| - 1] == events + front;
      StepKeeps(kind, more[|more| - 1].folders, RunAll(kind, events + front), more[|more| - 1].op);
    }
  }

  // ORDER BY revision DESC LIMIT 1: model_revision.c asks for live rows only, skill_revision.c does not.
  ghost predicate IsLatest<F>(revisions: seq<Revision<F>>, id: int, liveOnly: bool, r: Option<Revision<F>>) {
    match r
    case None => forall x | x in revisions :: x.owner == id ==> liveOnly && x.deleted
    case Some(top) =>
      && top in revisions && top.owner == id && !(liveOnly && top.deleted)
      && forall x | x in revisions && x.owner == id && !(liveOnly && x.deleted) :: x.number <= top.number
  }

  lemma {:induction false} HistoryHolds<F>(revisions: seq<Revision<F>>, id: int)
    ensures forall x :: x in HistoryOf(revisions, id) <==> x in revisions && x.owner == id
  {
    if revisions == [] {
    } else {
      HistoryHolds(revisions[..|revisions| - 1], id);
      assert revisions == revisions[..|revisions| - 1] + [revisions[|revisions| - 1]];
    }
  }

  lemma {:induction false} LastLiveIsHighest<F>(h: seq<Revision<F>>)
    requires Numbered(h)
    ensures LastLive(h).Some? ==> LastLive(h).value in h && !LastLive(h).value.deleted
    ensures LastLive(h).Some? ==> forall x | x in h && !x.deleted :: x.number <= LastLive(h).value.number
  {
    if h != [] {
      assert h == h[..|h| - 1] + [h[|h| - 1]];
      LastLiveIsHighest(h[..|h| - 1]);
    }
  }

  // get_latest finds the item's present fields, in either reader and in every reachable state.
  lemma LatestIsCurrent<F>(kind: Kind, events: seq<Event<F>>, id: int, liveOnly: bool, r: Option<Revision<F>>)
    requires var s := RunAll(kind, events); id in s.items && IsLatest(s.revisions, id, liveOnly, r)
    ensures r.Some? && r.value.fields == RunAll(kind, events).items[id].fields
  {
    hide HistoryOf, LastLive, RunAll, NotedSoFar;
    EveryRunIsKept(kind, events);
    var s := RunAll(kind, events);
    assert Kept(HistoryOf(s.revisions, id), id, s.items[id]);
    hide WellKept;
    var h := HistoryOf(s.revisions, id);
    HistoryHolds(s.revisions, id);
    LastLiveIsHighest(h);
    var want := if liveOnly then LastLive(h).value else h[|h| - 1];
    assert want in h;
    assert r.Some? && r.value in h && r.value.number == want.number;
  }

  // A revision row is the entry of its number in its owner's journal.
  lemma RevisionIsItsEntry<F>(kind: Kind, events: seq<Event<F>>, p: nat)
    requires p < |RunAll(kind, events).revisions|
    ensures var r := RunAll(kind, events).revisions[p];
      var entries := Wrote(kind, events, r.owner);
      && 0 < r.number <= |entries|
      && r.fields == entries[r.number - 1].fields && r.deleted == entries[r.number - 1].deleted
  {
    var rs := RunAll(kind, events).revisions;
    var r := rs[p];
    EveryRevisionIsItsCall(kind, events, r.owner);
    hide RunAll, Wrote, HistoryOf;
    HistoryHolds(rs, r.owner);
    var h := HistoryOf(rs, r.owner);
    assert r in rs && r in h;
    var k :| 0 <= k < |h| && h[k] == r;
  }

  lemma TakenByAny<F>(items: map<int, Item<F>>, id: int, fields: Fields<F>)
    requires id !in items
    ensures NameTaken(items, id, fields) <==>
      exists i | i in items :: items[i].fields.folder == fields.folder && items[i].fields.name == fields.name
  {
    if i :| i in items && items[i].fields.folder == fields.folder && items[i].fields.name == fields.name {
      assert i != id;
    }
  }

  // The class behind both files
  class Store<F(==)> {
    const kind: Kind
    var items: map<int, Item<F>>
    var nextId: int
    var revisions: seq<Revision<F>>

    function Abs(): State<F>
      reads this
    {
      State(items, nextId, revisions)
    }

    ghost predicate Valid()
      reads this
    {
      WellKept(Abs())
    }

    constructor (kind: Kind)
      ensures Valid() && this.kind == kind && Abs() == State(map[], 1, [])
    {
      this.kind := kind;
      items, nextId, revisions := map[], 1, [];
    }

    method Create(folders: map<int, Folder>, fields: Fields<F>) returns (rc: Rc, id: int)
      requires Valid()
      modifies this
      ensures Valid() && (Abs(), rc) == Step(kind, folders, old(Abs()), Op.Create(fields))
      ensures rc == OK ==> id == old(nextId)
      ensures rc == DUPLICATE <==> exists i | i in old(items) ::
        old(items)[i].fields.folder == fields.folder && old(items)[i].fields.name == fields.name
      ensures rc == FK <==> rc != DUPLICATE && fields.folder != 0 && fields.folder !in folders
      ensures rc in {OK, DUPLICATE, FK}
      ensures rc == OK ==>
        && items == old(items)[id := Item(fields, false)] && nextId == old(nextId) + 1
        && revisions == old(revisions) + [Revision(id, 1, fields, false)]
      ensures rc != OK ==> Abs() == old(Abs())
    {
      StepKeeps(kind, folders, Abs(), Op.Create(fields));
      NextIsNew(Abs());
      TakenByAny(items, nextId, fields);
      hide WellKept, NameTaken;
      id := 0;
      if NameTaken(items, nextId, fields) {
        return DUPLICATE, 0;
      }
      if !FolderExists(folders, fields.folder) {
        return FK, 0;
      }
      id := nextId;
      items, nextId := items[id := Item(fields, false)], nextId + 1;
      revisions := revisions + [Revision(id, 1, fields, false)];
      rc := OK;
    }

    // An UPDATE statement: the triggers see the row before and after.
    method Write(id: int, item: Item<F>)
      requires Valid() && id in items
      modifies this`items, this`revisions
      ensures Abs() == UpdateItem(old(Abs()), id, item)
      ensures items == old(items)[id := item]
      ensures var was := old(items)[id];
        revisions == old(revisions)
          + if !was.deleted && (item.deleted || item.fields != was.fields)
            then [Revision(id, |HistoryOf(old(revisions), id)| + 1, item.fields, item.deleted)] else []
    {
      MaxIsLast(revisions, id);
      ghost var number := |HistoryOf(revisions, id)| + 1;
      assert Snapshot(revisions, id, item) == revisions + [Revision(id, number, item.fields, item.deleted)];
      assert revisions + [] == revisions;
      hide HistoryOf, MaxNumber, WellKept, Snapshot;
      var was := items[id];
      items := items[id := item];
      if !was.deleted && !item.deleted && item.fields != was.fields {
        revisions := Snapshot(revisions, id, item);
      }
      if !was.deleted && item.deleted {
        revisions := Snapshot(revisions, id, item);
      }
    }

    method Update(folders: map<int, Folder>, id: int, fields: Fields<F>) returns (rc: Rc)
      requires Valid()
      modifies this
      ensures Valid() && (Abs(), rc) == Step(kind, folders, old(Abs()), Op.Update(id, fields))
      ensures var taken := exists i | i in old(items) && i != id ::
          old(items)[i].fields.folder == fields.folder && old(items)[i].fields.name == fields.name;
        rc == if id <= 0 then INVALID
              else if id !in old(items) || old(items)[id].deleted then NOT_FOUND
              else if taken then if kind == Models then SQL else DUPLICATE
              else if fields.folder != 0 && fields.folder !in folders then if kind == Models then SQL else FK
              else OK
      ensures rc == OK ==> items == old(items)[id := Item(fields, false)]
      ensures rc == OK ==>
        var after := Revision(id, |HistoryOf(old(revisions), id)| + 1, fields, false);
        revisions == if fields == old(items)[id].fields then old(revisions) else old(revisions) + [after]
      ensures rc != OK ==> Abs() == old(Abs())
    {
      StepKeeps(kind, folders, Abs(), Op.Update(id, fields));
      if id <= 0 {
        return INVALID;
      }
      if !LiveItem(items, id) {
        return NOT_FOUND;
      }
      if NameTaken(items, id, fields) || !FolderExists(folders, fields.folder) {
        return Refusal(kind, NameTaken(items, id, fields));
      }
      Write(id, Item(fields, false));
      rc := OK;
    }

    method SoftDelete(id: int) returns (rc: Rc)
      requires Valid()
      modifies this
      ensures Valid() && (Abs(), rc) == Step(kind, map[], old(Abs()), Op.SoftDelete(id))
      ensures rc == if id !in old(items) || old(items)[id].deleted then NOT_FOUND else OK
      ensures rc == OK ==> items == old(items)[id := Item(old(items)[id].fields, true)]
      ensures rc == OK ==>
        var number := |HistoryOf(old(revisions), id)| + 1;
        revisions == old(revisions) + [Revision(id, number, old(items)[id].fields, true)]
      ensures rc != OK ==> Abs() == old(Abs())
    {
      StepKeeps(kind, map[], Abs(), Op.SoftDelete(id));
      if !LiveItem(items, id) {
        return NOT_FOUND;
      }
      Write(id, items[id].(deleted := true));
      rc := OK;
    }

    method Restore(id: int) returns (rc: Rc)
      requires Valid()
      modifies this
      ensures Valid() && (Abs(), rc) == Step(kind, map[], old(Abs()), Op.Restore(id))
      ensures rc == if id in old(items) then OK else NOT_FOUND
      ensures rc == OK ==> items == old(items)[id := Item(old(items)[id].fields, false)]
      ensures revisions == old(revisions) && (rc != OK ==> items == old(items))
    {
      StepKeeps(kind, map[], Abs(), Op.Restore(id));
      if id in items && items[id].deleted {
        Write(id, items[id].(deleted := false));
        return OK;
      }
      rc := if id in items then OK else NOT_FOUND;
    }

    method MoveToFolder(folders: map<int, Folder>, id: int, folder: int) returns (rc: Rc)
      requires Valid()
      modifies this
      ensures Valid() && (Abs(), rc) == Step(kind, folders, old(Abs()), Op.MoveToFolder(id, folder))
      ensures rc == if folder != 0 && (folder !in folders || folders[folder].deleted) then NOT_FOUND
                    else if id !in old(items) || old(items)[id].deleted then NOT_FOUND
                    else if exists i | i in old(items) && i != id ::
                      old(items)[i].fields.folder == folder && old(items)[i].fields.name == old(items)[id].fields.name
                    then SQL else OK
      ensures rc == OK ==> items == old(items)[id := Item(old(items)[id].fields.(folder := folder), false)]
      ensures rc == OK ==>
        var was, fields := old(items)[id].fields, old(items)[id].fields.(folder := folder);
        var after := Revision(id, |HistoryOf(old(revisions), id)| + 1, fields, false);
        revisions == if folder == was.folder then old(revisions) else old(revisions) + [after]
      ensures rc != OK ==> Abs() == old(Abs())
    {
      StepKeeps(kind, folders, Abs(), Op.MoveToFolder(id, folder));
      if folder != 0 && !Live(folders, folder) {
        return NOT_FOUND;
      }
      if !LiveItem(items, id) {
        return NOT_FOUND;
      }
      var fields := items[id].fields.(folder := folder);
      if NameTaken(items, id, fields) {
        return SQL;
      }
      Write(id, Item(fields, false));
      rc := OK;
    }
  }
}
