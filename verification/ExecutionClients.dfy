/**
 acta_db_execution_create by any number of clients: the SELECT that looks at the context and the INSERT are separate
 statements, and anything may happen to the database in between.
 */
module ExecutionClients {
  import opened Db
  import opened Json
  import opened Request
  import opened Replay
  import C = Contexts
  import E = Executions
  import J = Journal
  import MF = ModelFolders
  import SF = SkillFolders

  // checked: what a client is about to insert, its SELECT having found the context live
  datatype Sys = Sys(base: Base, checked: map<nat, NewExecution>)

  datatype Action =
    | Check(client: nat, e: NewExecution)
    | Insert(client: nat)
    | Other(event: Event)

  const INITIAL := Sys(Replay.EMPTY, map[])

  ghost function Act(s: Sys, a: Action): Sys {
    match a
    case Check(client, e) =>
      if client !in s.checked && CheckContext(s.base, e) == OK then s.(checked := s.checked[client := e]) else s
    case Insert(client) =>
      if client in s.checked then Sys(InsertStep(s.base, s.checked[client]).0, s.checked - {client}) else s
    case Other(event) => s.(base := Step(s.base, event))
  }

  ghost function ActAll(s: Sys, actions: seq<Action>): Sys {
    if actions == [] then s else Act(ActAll(s, actions[..|actions| - 1]), actions[|actions| - 1])
  }

  // What happens to the database, the SELECTs left out
  ghost function Events(s: Sys, actions: seq<Action>): seq<Event> {
    if actions == [] then []
    else
      var before, last := actions[..|actions| - 1], actions[|actions| - 1];
      var u := ActAll(s, before);
      Events(s, before) +
      match last
      case Check(_, _) => []
      case Insert(client) => if client in u.checked then [InsertExecution(u.checked[client])] else []
      case Other(event) => [event]
  }

  lemma {:induction false} RunOneMore(b: Base, es: seq<Event>, e: Event)
    ensures RunAll(b, es + [e]) == Step(RunAll(b, es), e)
  {
    hide Step;
    assert (es + [e])[..|es|] == es;
  }

  // ... which leads to the same database
  lemma {:induction false} EventsLeadThere(s: Sys, actions: seq<Action>)
    ensures RunAll(s.base, Events(s, actions)) == ActAll(s, actions).base
  {
    if actions == [] {
    } else {
      var before, last := actions[..|actions| - 1], actions[|actions| - 1];
      EventsLeadThere(s, before);
      var es, u := Events(s, before), ActAll(s, before);
      hide InsertStep, CheckContext, RunAll;
      match last {
        case Check(_, _) => assert es + [] == es;
        case Insert(client) =>
          if client in u.checked {
            RunOneMore(s.base, es, InsertExecution(u.checked[client]));
          } else {
            assert es + [] == es;
          }
        case Other(event) => RunOneMore(s.base, es, event);
      }
    }
  }

  // Nobody in between: check and INSERT are the one operation.
  lemma CheckedInsertAlone(s: Sys, client: nat, e: NewExecution)
    requires client !in s.checked
    ensures ActAll(s, [Check(client, e), Insert(client)]) == s.(base := Step(s.base, AddExecution(e)))
  {
    var both := [Check(client, e), Insert(client)];
    assert both[..1] == [both[0]] && both[..1][..0] == [];
    assert ActAll(s, both[..1]) == Act(s, both[0]);
    assert s.checked[client := e] - {client} == s.checked;
  }

  // What one action leaves in the deletion mark of a context that reads c
  function MarkOf(c: C.Context, a: Action, id: int): Option<bool> {
    if a.Other? && a.event.UpdateContext? && a.event.id == id && C.OnlyDeletion(c, a.event.row)
    then Some(a.event.row.deleted) else None
  }

  function Or(mark: Option<bool>, otherwise: bool): bool { if mark.Some? then mark.value else otherwise }

  // The last mark left, if any
  function LastMark(c: C.Context, actions: seq<Action>, id: int): Option<bool> {
    if actions == [] then None
    else
      var mark := MarkOf(c, actions[|actions| - 1], id);
      if mark.Some? then mark else LastMark(c, actions[..|actions| - 1], id)
  }

  predicate NotBy(client: nat, actions: seq<Action>) {
    forall a | a in actions :: a.Other? || a.client != client
  }

  lemma ActKeepsSound(s: Sys, a: Action)
    requires Sound(s.base)
    ensures Sound(Act(s, a).base)
  {
    match a {
      case Check(_, _) =>
      case Insert(client) =>
        if client in s.checked {
          StepKeepsInputs(s.base, InsertExecution(s.checked[client]));
        }
      case Other(event) => StepKeepsInputs(s.base, event);
    }
  }

  lemma {:induction false} EveryStateIsSound(actions: seq<Action>)
    ensures Sound(ActAll(INITIAL, actions).base)
  {
    if actions == [] {
    } else {
      EveryStateIsSound(actions[..|actions| - 1]);
      hide Sound;
      ActKeepsSound(ActAll(INITIAL, actions[..|actions| - 1]), actions[|actions| - 1]);
    }
  }

  lemma ContextAfter(s: Sys, a: Action, c: C.Context, id: int)
    requires Sound(s.base) && id in s.base.contexts && C.OnlyDeletion(c, s.base.contexts[id])
    ensures var t := Act(s, a).base;
      && id in t.contexts
      && t.contexts[id].deleted == Or(MarkOf(c, a, id), s.base.contexts[id].deleted)
      && C.OnlyDeletion(c, t.contexts[id])
  {
    hide J.Step, J.WellKept, MF.Step, SF.Step, E.Update, References;
  }

  // Between two moments: the context keeps its text, and its mark is the last one left.
  lemma {:induction false} ContextIs(s: Sys, actions: seq<Action>, id: int)
    requires Sound(s.base) && id in s.base.contexts
    ensures var c, t := s.base.contexts[id], ActAll(s, actions).base;
      && Sound(t) && id in t.contexts && C.OnlyDeletion(c, t.contexts[id])
      && t.contexts[id].deleted == Or(LastMark(c, actions, id), c.deleted)
  {
    if actions == [] {
    } else {
      hide Sound, Act, MarkOf, C.OnlyDeletion;
      var u, a := ActAll(s, actions[..|actions| - 1]), actions[|actions| - 1];
      ContextIs(s, actions[..|actions| - 1], id);
      ActKeepsSound(u, a);
      ContextAfter(u, a, s.base.contexts[id], id);
    }
  }

  lemma {:induction false} StaysChecked(s: Sys, client: nat, actions: seq<Action>)
    requires client in s.checked && NotBy(client, actions)
    ensures var t := ActAll(s, actions); client in t.checked && t.checked[client] == s.checked[client]
  {
    if actions == [] {
    } else {
      hide Step, InsertStep, CheckContext;
      var last := actions[|actions| - 1];
      assert last in actions;
      StaysChecked(s, client, actions[..|actions| - 1]);
    }
  }

  // In every run: when a client inserts what it has checked, the context referred to is deleted exactly when the last
  // change of its mark since the check was a deletion.
  lemma NewRefersToDeletedIff(before: seq<Action>, client: nat, e: NewExecution, between: seq<Action>)
    requires var s := ActAll(INITIAL, before); client !in s.checked && CheckContext(s.base, e) == OK
    requires NotBy(client, between)
    ensures var s := ActAll(INITIAL, before);
      var u := ActAll(Act(s, Check(client, e)), between);
      var t := Act(u, Insert(client)).base;
      && e.contextId in s.base.contexts && e.contextId in t.contexts && t == InsertStep(u.base, e).0
      && (InsertStep(u.base, e).1 == OK ==>
            t.executions == u.base.executions[u.base.nextExecution := t.executions[u.base.nextExecution]]
            && u.base.nextExecution !in u.base.executions
            && t.executions[u.base.nextExecution].contextId == e.contextId)
      && (t.contexts[e.contextId].deleted
          <==> LastMark(s.base.contexts[e.contextId], between, e.contextId) == Some(true))
  {
    var s := ActAll(INITIAL, before);
    EveryStateIsSound(before);
    var s1 := Act(s, Check(client, e));
    ContextIs(s1, between, e.contextId);
    StaysChecked(s1, client, between);
  }

  // The request of an execution is as fixed under these interleavings.
  lemma RequestStays(actions: seq<Action>, more: seq<Action>, id: int, parse: string -> Option<Json>,
                     override: Option<Dialect>, maxChars: int)
    requires id in ActAll(INITIAL, actions).base.executions
    ensures var s := ActAll(INITIAL, actions);
      ChatRequest(ActAll(s, more).base, id, parse, override, maxChars)
      == ChatRequest(s.base, id, parse, override, maxChars)
  {
    hide RunAll, ActAll, Events, ChatRequest;
    var s := ActAll(INITIAL, actions);
    EventsLeadThere(INITIAL, actions);
    EventsLeadThere(s, more);
    RequestNeverChanges(Events(INITIAL, actions), Events(s, more), id, parse, override, maxChars);
  }
}
