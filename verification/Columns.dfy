/**
 Column by column, what a row of the executions table holds: what the last call that writes the column wrote, read off
 the history of INSERTs and of calls that returned OK.
 */
module Columns {
  import opened Db
  import opened Executions
  import opened Interleaving
  import L = Lifecycle

  // A call on row id that returned OK
  predicate Took(e: Event, id: int) { e.Returned? && e.rc == OK && e.call.id == id }

  function Front(hist: seq<Event>): seq<Event>
    requires hist != []
  {
    hist[..|hist| - 1]
  }

  function Last(hist: seq<Event>): Event
    requires hist != []
  {
    hist[|hist| - 1]
  }

  function LastStatus(hist: seq<Event>, id: int): Status {
    if hist == [] || (Last(hist).Inserted? && Last(hist).id == id) then Pending
    else if !Took(Last(hist), id) then LastStatus(Front(hist), id)
    else
      match Last(hist).call
      case Start(_) => Running
      case Cancel(_) => Cancelled
      case Complete(_, _) => Completed
      case Fail(_, _) => Failed
      case Reset(_) => Pending
      case _ => LastStatus(Front(hist), id)
  }

  // The last response stored since the last reset
  function LastRawResponse(hist: seq<Event>, id: int): Option<string> {
    if hist == [] || (Last(hist).Inserted? && Last(hist).id == id) then None
    else if !Took(Last(hist), id) then LastRawResponse(Front(hist), id)
    else
      match Last(hist).call
      case SetRawResponse(_, raw) => raw
      case Reset(_) => None
      case _ => LastRawResponse(Front(hist), id)
  }

  function LastResult(hist: seq<Event>, id: int): Option<string> {
    if hist == [] || (Last(hist).Inserted? && Last(hist).id == id) then None
    else if Took(Last(hist), id) && Last(hist).call.Complete? then Last(hist).call.result
    else LastResult(Front(hist), id)
  }

  // The message of the last failure, unless it was reset
  function LastError(hist: seq<Event>, id: int): Option<string> {
    if hist == [] || (Last(hist).Inserted? && Last(hist).id == id) then None
    else if !Took(Last(hist), id) then LastError(Front(hist), id)
    else
      match Last(hist).call
      case Fail(_, error) => error
      case Reset(_) => None
      case _ => LastError(Front(hist), id)
  }

  function LastStarted(hist: seq<Event>, id: int): Option<string> {
    if hist == [] || (Last(hist).Inserted? && Last(hist).id == id) then None
    else if !Took(Last(hist), id) then LastStarted(Front(hist), id)
    else
      match Last(hist).call
      case Start(_) => Some(Last(hist).now)
      case Reset(_) => None
      case _ => LastStarted(Front(hist), id)
  }

  function LastEnded(hist: seq<Event>, id: int): Option<string> {
    if hist == [] || (Last(hist).Inserted? && Last(hist).id == id) then None
    else if !Took(Last(hist), id) then LastEnded(Front(hist), id)
    else
      match Last(hist).call
      case Complete(_, _) => Some(Last(hist).now)
      case Fail(_, _) => Some(Last(hist).now)
      case Cancel(_) => Some(Last(hist).now)
      case Reset(_) => None
      case _ => LastEnded(Front(hist), id)
  }

  function LastDeleted(hist: seq<Event>, id: int): Option<string> {
    if hist == [] || (Last(hist).Inserted? && Last(hist).id == id) then None
    else if !Took(Last(hist), id) then LastDeleted(Front(hist), id)
    else
      match Last(hist).call
      case Delete(_) => Some(Last(hist).now)
      case Restore(_) => None
      case _ => LastDeleted(Front(hist), id)
  }

  // The row as it was inserted
  function Origin(hist: seq<Event>, id: int): Option<Row> {
    if hist == [] then None
    else if Last(hist).Inserted? && Last(hist).id == id then Some(Last(hist).row)
    else Origin(Front(hist), id)
  }

  // In a legal history, every column of a row
  ghost predicate Shows(r: Row, hist: seq<Event>, id: int) {
    && r.status == LastStatus(hist, id) && r.rawResponse == LastRawResponse(hist, id)
    && r.result == LastResult(hist, id) && r.error == LastError(hist, id)
    && r.startedAt == LastStarted(hist, id) && r.completedAt == LastEnded(hist, id)
    && r.deletedAt == LastDeleted(hist, id)
    && Origin(hist, id).Some?
    && (var o := Origin(hist, id).value;
        r.contextId == o.contextId && r.skillRevisionId == o.skillRevisionId
        && r.modelRevisionId == o.modelRevisionId && r.parentId == o.parentId && r.createdAt == o.createdAt)
  }

  lemma InsertedShows(hist: seq<Event>, id: int)
    requires hist != [] && AllLegal(hist) && Last(hist).Inserted? && Last(hist).id == id
    ensures id in Replay(hist) && Shows(Replay(hist)[id], hist, id)
  {
    hide RowOk;
  }

  lemma OtherShows(hist: seq<Event>, id: int)
    requires hist != [] && id in Replay(hist) && !Took(Last(hist), id) && !(Last(hist).Inserted? && Last(hist).id == id)
    ensures id in Replay(Front(hist)) && Replay(hist)[id] == Replay(Front(hist))[id]
    ensures Shows(Replay(Front(hist))[id], Front(hist), id) ==> Shows(Replay(hist)[id], hist, id)
  {
    hide Effect;
  }

  lemma CallShows(hist: seq<Event>, id: int)
    requires hist != [] && Took(Last(hist), id) && id in Replay(Front(hist))
    requires Shows(Replay(Front(hist))[id], Front(hist), id)
    ensures id in Replay(hist) && Shows(Replay(hist)[id], hist, id)
  {
  }

  lemma {:induction false} EveryRowShows(hist: seq<Event>, id: int)
    requires AllLegal(hist)
    ensures id in Replay(hist) <==> Origin(hist, id).Some?
    ensures id in Replay(hist) ==> Shows(Replay(hist)[id], hist, id)
  {
    if hist != [] {
      EveryRowShows(Front(hist), id);
      hide Shows;
      if Last(hist).Inserted? && Last(hist).id == id {
        InsertedShows(hist, id);
      } else if id in Replay(hist) && Took(Last(hist), id) {
        CallShows(hist, id);
      } else if id in Replay(hist) {
        OtherShows(hist, id);
      }
    }
  }

  // Every row of every reachable state holds, column by column, what the last call writing the column wrote.
  lemma EveryColumnIsItsLastWrite(actions: seq<Action>, id: int)
    ensures var s := RunAll(INITIAL, actions); id in s.rows <==> Origin(s.hist, id).Some?
    ensures var s := RunAll(INITIAL, actions);
      id in s.rows ==>
        var r, o := s.rows[id], Origin(s.hist, id).value;
        && r.status == LastStatus(s.hist, id) && r.rawResponse == LastRawResponse(s.hist, id)
        && r.result == LastResult(s.hist, id) && r.error == LastError(s.hist, id)
        && r.startedAt == LastStarted(s.hist, id) && r.completedAt == LastEnded(s.hist, id)
        && r.deletedAt == LastDeleted(s.hist, id)
        && r.contextId == o.contextId && r.skillRevisionId == o.skillRevisionId
        && r.modelRevisionId == o.modelRevisionId && r.parentId == o.parentId && r.createdAt == o.createdAt
  {
    EveryInterleavingIsExplained(actions);
    hide RunAll;
    EveryRowShows(RunAll(INITIAL, actions).hist, id);
  }

  // The transitions of every run: which calls return OK from which status
  lemma OkCallFindsItsStatus(actions: seq<Action>, n: nat)
    requires var h := RunAll(INITIAL, actions).hist; n < |h| && h[n].Returned? && h[n].rc == OK
    ensures var h := RunAll(INITIAL, actions).hist;
      var before, id := h[..n], h[n].call.id;
      && Origin(before, id).Some?
      && match h[n].call
         case Start(_) => LastStatus(before, id) == Pending
         case Cancel(_) => LastStatus(before, id) in {Pending, Running}
         case Complete(_, _) => LastStatus(before, id) == Running
         case Fail(_, _) => LastStatus(before, id) == Running
         case Reset(_) => LastStatus(before, id) == Failed
         case Delete(_) => LastStatus(before, id) != Running && LastDeleted(before, id).None?
         case Restore(_) => LastDeleted(before, id).Some?
         case SetRawResponse(_, _) => true
  {
    EveryInterleavingIsExplained(actions);
    var h := RunAll(INITIAL, actions).hist;
    hide RunAll;
    L.PrefixIsLegal(h, n);
    L.EventIsLegal(h, n);
    EveryRowShows(h[..n], h[n].call.id);
  }
}
