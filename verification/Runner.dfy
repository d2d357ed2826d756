/**
 acta_runner/src/run.c and deathmark.c: one runner process.  Other processes act between any two of its statements:
 before each statement the next batch of `schedule`, which is arbitrary, is carried out on the table.  What the backend,
 the cancel flag and the checks on the fetched rows decide is the arbitrary argument `World`.
 */
module Runner {
  import opened Db
  import opened Executions
  import P = Pages
  import Q = Query
  import S = Sql

  const EXIT_OK := 0
  const EXIT_NOT_FOUND := 1
  const EXIT_SQL := 2
  const EXIT_INVALID := 4
  const EXIT_HTTP := 12
  const EXIT_TIMEOUT := 13
  const EXIT_CANCELED := 14

  type FailCode = c: int | c in {EXIT_SQL, EXIT_INVALID, EXIT_HTTP, EXIT_TIMEOUT} witness EXIT_INVALID

  datatype LogRow = LogRow(executionId: int, level: string, event: string, message: string)

  // One statement of another process
  datatype Foreign =
    | ForeignUpdate(call: Call, now: string)
    | ForeignInsert(id: int, row: Row)
    | ForeignLog(log: LogRow)

  // How one stage of the pipeline ends
  datatype Stage = Go | CancelNow | StopWith(code: FailCode, msg: string)

  datatype World = World(
    poll0: bool, poll1: bool,   // cancel flag before the claim and after it
    resolve: Stage,             // context, skill revision, model revision
    prepare: Stage,             // dialect, context content, configuration, output schema
    poll2: bool,
    preflight: Stage,           // size check, health, models, catalog
    chat: Stage, content: string,
    posthoc: bool,              // response_format was not sent: check the content against the schema
    validate: Stage,
    poll3: bool)

  datatype Final = Done(content: string) | Canceled | Stopped(code: FailCode, msg: string)

  function FromStage(s: Stage): Final
    requires s != Go
  {
    if s == CancelNow then Canceled else Stopped(s.code, s.msg)
  }

  // The first stage that does not go on decides.
  function Outcome(w: World): Final {
    if w.poll0 || w.poll1 then Canceled
    else if w.resolve != Go then FromStage(w.resolve)
    else if w.prepare != Go then FromStage(w.prepare)
    else if w.poll2 then Canceled
    else if w.preflight != Go then FromStage(w.preflight)
    else if w.chat != Go then FromStage(w.chat)
    else if w.posthoc && w.validate != Go then FromStage(w.validate)
    else if w.poll3 then Canceled
    else Done(w.content)
  }

  // The backend's response is reached.
  predicate Heard(w: World) {
    !w.poll0 && !w.poll1 && w.resolve == Go && w.prepare == Go && !w.poll2 && w.preflight == Go && w.chat == Go
  }

  function ExitCode(f: Final): int {
    match f
    case Done(_) => EXIT_OK
    case Canceled => EXIT_CANCELED
    case Stopped(code, _) => code
  }

  function Polled(flag: bool): Stage { if flag then CancelNow else Go }

  // A run is done exactly when nothing stops it, and is otherwise what the first stage that stops it says.
  lemma OutcomeIsFirstStop(w: World)
    ensures Outcome(w) == Done(w.content) <==>
      && !w.poll0 && !w.poll1 && w.resolve == Go && w.prepare == Go && !w.poll2 && w.preflight == Go && w.chat == Go
      && (w.posthoc ==> w.validate == Go) && !w.poll3
    ensures Outcome(w).Done? ==> Outcome(w).content == w.content
    ensures var ss := [Polled(w.poll0), Polled(w.poll1), w.resolve, w.prepare, Polled(w.poll2), w.preflight, w.chat,
                       if w.posthoc then w.validate else Go, Polled(w.poll3)];
      forall k | 0 <= k < |ss| && ss[k] != Go && forall j | 0 <= j < k :: ss[j] == Go ::
        Outcome(w) == if ss[k] == CancelNow then Canceled else Stopped(ss[k].code, ss[k].msg)
  {
    var ss := [Polled(w.poll0), Polled(w.poll1), w.resolve, w.prepare, Polled(w.poll2), w.preflight, w.chat,
               if w.posthoc then w.validate else Go, Polled(w.poll3)];
    forall k | 0 <= k < |ss| && ss[k] != Go && forall j | 0 <= j < k :: ss[j] == Go
      ensures Outcome(w) == if ss[k] == CancelNow then Canceled else Stopped(ss[k].code, ss[k].msg)
    {
      assert k > 0 ==> ss[0] == Go;
      assert k > 1 ==> ss[1] == Go;
      assert k > 2 ==> ss[2] == Go;
      assert k > 3 ==> ss[3] == Go;
      assert k > 4 ==> ss[4] == Go;
      assert k > 5 ==> ss[5] == Go;
      assert k > 6 ==> ss[6] == Go;
      assert k > 7 ==> ss[7] == Go;
    }
  }

  // What an undisturbed run leaves in its row
  predicate RowShows(r: Row, f: Final) {
    match f
    case Done(content) => r.status == Completed && r.result == Some(content) && r.rawResponse == Some(content)
    case Canceled => r.status == Cancelled && r.result == None
    case Stopped(_, msg) => r.status == Failed && r.error == Some(msg) && r.result == None
  }

  predicate IsTerminalEvent(l: LogRow) {
    l.event in {"execution_completed", "execution_failed", "execution_cancelled"}
  }

  // The log rows of one run: the last one, and no other, is terminal and says how the run ended.
  predicate LogsShow(tail: seq<LogRow>, id: int, f: Final) {
    && tail != []
    && (forall k | 0 <= k < |tail| :: tail[k].executionId == id)
    && (forall k | 0 <= k < |tail| - 1 :: !IsTerminalEvent(tail[k]))
    && tail[|tail| - 1] == (match f
         case Done(_) => LogRow(id, "info", "execution_completed", "execution completed")
         case Canceled => LogRow(id, "info", "execution_cancelled", "execution cancelled by user")
         case Stopped(_, msg) => LogRow(id, "error", "execution_failed", msg))
  }

  // The log has grown since `mark` by rows of execution id, none of them terminal.
  predicate NoEndSince(mark: seq<LogRow>, logs: seq<LogRow>, id: int) {
    mark <= logs && forall k | |mark| <= k < |logs| :: logs[k].executionId == id && !IsTerminalEvent(logs[k])
  }

  predicate EndSince(mark: seq<LogRow>, logs: seq<LogRow>, id: int, f: Final) {
    mark <= logs && LogsShow(logs[|mark|..], id, f)
  }

  lemma EndsLog(mark: seq<LogRow>, logs: seq<LogRow>, id: int, l: LogRow, f: Final)
    requires NoEndSince(mark, logs, id) && l.executionId == id
    requires LogsShow([l], id, f)
    ensures EndSince(mark, logs + [l], id, f)
  {
    var tail := (logs + [l])[|mark|..];
    assert forall k | 0 <= k < |tail| - 1 :: tail[k] == logs[|mark| + k];
  }

  predicate RowsOk(rows: Rows) { forall i | i in rows :: i > 0 && RowOk(rows[i]) }

  // b has the rows of a, and completed and cancelled rows keep status and result.
  predicate Follows(a: Rows, b: Rows) {
    forall i | i in a ::
      && i in b
      && (a[i].status in {Completed, Cancelled} ==> b[i].status == a[i].status && b[i].result == a[i].result)
  }

  // A moment of the run: after one statement of this process (call and its k-th statement), or after a foreign batch.
  datatype Moment =
    | Own(call: Call, k: nat, before: Rows, rows: Rows, dm: int, claimed: set<int>)
    | Other(rows: Rows, dm: int, claimed: set<int>)

  predicate EndsAttempt(c: Call) { c.Complete? || c.Fail? || c.Cancel? }

  // After the last statement of the last terminal call on id, the row is not running.
  ghost predicate Settled(trace: seq<Moment>, id: int) {
    exists j | 0 <= j < |trace| :: SettledAt(trace, id, j)
  }

  ghost predicate SettledAt(trace: seq<Moment>, id: int, j: nat)
    requires j < |trace|
  {
    && trace[j].Own? && EndsAttempt(trace[j].call) && trace[j].call.id == id
    && id in trace[j].rows && trace[j].rows[id].status != Running
    && forall l | j < l < |trace| :: !EndsOn(trace[l], id)
  }

  // A statement of a terminal call on id
  predicate EndsOn(m: Moment, id: int) { m.Own? && EndsAttempt(m.call) && m.call.id == id }

  // Since the trace was t, terminal calls were made on id alone.
  ghost predicate OnlyEnds(t: seq<Moment>, trace: seq<Moment>, id: int) {
    t <= trace && forall l, i | |t| <= l < |trace| && EndsOn(trace[l], i) :: i == id
  }

  lemma OnlyEndsOn(t: seq<Moment>, u: seq<Moment>, v: seq<Moment>, id: int)
    requires OnlyEnds(t, u, id) && OnlyEnds(u, v, id)
    ensures OnlyEnds(t, v, id)
  {
    forall l, i | |t| <= l < |v| && EndsOn(v[l], i) ensures i == id {
      if l < |u| {
        assert v[l] == u[l];
      }
    }
  }

  lemma SettledElsewhere(t: seq<Moment>, trace: seq<Moment>, id: int, other: int)
    requires OnlyEnds(t, trace, id) && Settled(t, other) && other != id
    ensures Settled(trace, other)
  {
    var j :| 0 <= j < |t| && SettledAt(t, other, j);
    assert trace[j] == t[j];
    forall l | j < l < |trace| ensures !EndsOn(trace[l], other) {
      if l < |t| {
        assert trace[l] == t[l];
      }
    }
    assert SettledAt(trace, other, j);
  }

  // Nothing this process writes touches a completed or cancelled row's status or result.
  ghost predicate WritesSafe(trace: seq<Moment>) {
    forall m | m in trace && m.Own? :: Follows(m.before, m.rows)
  }

  // Every row this process told the death marker about has left pending, and is running only while marked.
  predicate Watched(rows: Rows, dm: int, claimed: set<int>) {
    forall i | i in claimed ::
      i > 0 && i in rows && rows[i].status != Pending && (rows[i].status == Running ==> i == dm)
  }

  ghost predicate AlwaysWatched(trace: seq<Moment>) {
    forall m | m in trace :: Watched(m.rows, m.dm, m.claimed)
  }

  predicate NoneRunning(rows: Rows, ids: set<int>) {
    forall i | i in ids :: i in rows && rows[i].status != Running
  }

  predicate Runnable(rows: Rows, id: int) {
    id in rows && rows[id].deletedAt.None? && rows[id].status == Pending
  }

  // deathmark_exit_path, no other process acting
  function AfterExit(rows: Rows, dm: int, now: string): Rows {
    if dm > 0 && dm in rows && rows[dm].status == Running
    then rows[dm := Effect(rows[dm], Call.Fail(dm, Some("runner process exited during execution")), now)]
    else rows
  }

  // A clean exit at a watched moment leaves no claimed row running and alters no row that is not running.
  lemma ExitClears(m: Moment, now: string)
    requires Watched(m.rows, m.dm, m.claimed)
    ensures forall i | i in m.claimed :: AfterExit(m.rows, m.dm, now)[i].status != Running
    ensures forall i | i in m.rows && m.rows[i].status != Running :: AfterExit(m.rows, m.dm, now)[i] == m.rows[i]
  {
  }

  // ... and every moment of every undisturbed run is watched.
  lemma ExitAnywhereClears(p: RunnerProcess, k: nat, now: string)
    requires p.Valid() && p.quiet && k < |p.trace|
    ensures var m := p.trace[k];
      && NoneRunning(AfterExit(m.rows, m.dm, now), m.claimed)
      && forall i | i in m.rows && m.rows[i].status != Running :: AfterExit(m.rows, m.dm, now)[i] == m.rows[i]
  {
    assert p.trace[k] in p.trace;
    ExitClears(p.trace[k], now);
  }

  lemma SettledStays(trace: seq<Moment>, id: int, m: Moment)
    requires Settled(trace, id) && !EndsOn(m, id)
    ensures Settled(trace + [m], id)
  {
    var j :| 0 <= j < |trace| && SettledAt(trace, id, j);
    assert forall l | 0 <= l < |trace| :: (trace + [m])[l] == trace[l];
    assert SettledAt(trace + [m], id, j);
  }

  // An UPDATE by this process keeps what Valid says.
  lemma OwnUpdate(rows: Rows, c: Call, now: string, dm: int, claimed: set<int>)
    requires RowsOk(rows) && !c.Reset?
    ensures var after := Update(rows, c, now).0;
      RowsOk(after) && Follows(rows, after) && (Watched(rows, dm, claimed) ==> Watched(after, dm, claimed))
  {
    UpdateKeepsRows(rows, c, now);
  }

  class RunnerProcess {
    const quiet: bool           // no other process acts
    const clock: nat -> string  // datetime('now') at each tick
    var rows: Rows
    var logs: seq<LogRow>
    var dm: int                 // dm_exec_id
    var schedule: seq<seq<Foreign>>
    var ticks: nat
    ghost var claimed: set<int>
    ghost var trace: seq<Moment>
    ghost var base: Rows         // rows and logs when the present run_execution began
    ghost var mark: seq<LogRow>
    ghost var begun: seq<Moment>  // ... and its trace
    ghost var raw: Option<string> // the response last stored, or the one the row had

    ghost predicate Valid()
      reads this`rows, this`schedule, this`dm, this`claimed, this`trace
    {
      && RowsOk(rows) && WritesSafe(trace)
      && (forall i | i in claimed :: i > 0)
      && (quiet ==> schedule == [] && Watched(rows, dm, claimed) && AlwaysWatched(trace))
    }

    constructor (quiet: bool, clock: nat -> string, rows: Rows, schedule: seq<seq<Foreign>>)
      requires RowsOk(rows) && (quiet ==> schedule == [])
      ensures Valid() && this.quiet == quiet && this.rows == rows && logs == [] && dm == 0 && claimed == {}
    {
      this.quiet, this.clock, this.rows, this.schedule := quiet, clock, rows, schedule;
      logs, dm, ticks, claimed, trace, base, mark, begun, raw := [], 0, 0, {}, [], map[], [], [], None;
    }

    // The other processes' turn
    method Tick()
      requires Valid()
      modifies this`rows, this`logs, this`schedule, this`ticks, this`trace
      ensures Valid() && Follows(old(rows), rows)
      ensures quiet ==> rows == old(rows) && logs == old(logs)
      ensures trace == old(trace) + [Other(rows, dm, claimed)] && forall i :: OnlyEnds(old(trace), trace, i)
    {
      ticks := ticks + 1;
      if schedule != [] {
        var batch := schedule[0];
        schedule := schedule[1..];
        var i := 0;
        while i < |batch|
          invariant i <= |batch| && RowsOk(rows) && Follows(old(rows), rows)
          modifies this`rows, this`logs
        {
          match batch[i] {
            case ForeignUpdate(call, now) =>
              UpdateKeepsRows(rows, call, now);
              rows := Update(rows, call, now).0;
            case ForeignInsert(id, row) =>
              if id > 0 && id !in rows && RowOk(row) {
                rows := rows[id := row];
              }
            case ForeignLog(log) => logs := logs + [log];
          }
          i := i + 1;
        }
      }
      trace := trace + [Other(rows, dm, claimed)];
    }

    // The SELECTs of a call: the code with which they refuse it, if they do
    method Selects(c: Call) returns (refused: Option<Rc>)
      requires Valid() && c.id in rows && !c.Reset?
      modifies this`rows, this`logs, this`schedule, this`ticks, this`trace
      ensures Valid() && Follows(old(rows), rows) && OnlyEnds(old(trace), trace, c.id)
      ensures quiet ==> rows == old(rows) && logs == old(logs)
      ensures quiet && refused.None? && Executions.Selects(c) > 0 ==> Allowed(rows[c.id], c)
      ensures quiet && refused.Some? ==> forall now :: Atomically(rows, c, now) == (rows, refused.value)
      ensures EndsAttempt(c) && refused.Some? ==> Settled(trace, c.id)
    {
      hide RowsOk, RowOk, Watched;
      var k := 0;
      while k < Executions.Selects(c)
        invariant k <= Executions.Selects(c) && Valid() && Follows(old(rows), rows)
        invariant OnlyEnds(old(trace), trace, c.id)
        invariant quiet ==> rows == old(rows) && logs == old(logs)
        invariant quiet && k == 1 && c.Cancel? ==> rows[c.id].status != Pending
        invariant quiet && k > 0 && k == Executions.Selects(c) ==> Allowed(rows[c.id], c)
      {
        Tick();
        var v := Select(rows, c, k);
        trace := trace + [Own(c, k, rows, rows, dm, claimed)];
        match v {
          case Again => k := k + 1;
          case Proceed => k := Executions.Selects(c);
          case Refuse(e) =>
            assert EndsAttempt(c) ==> SettledAt(trace, c.id, |trace| - 1);
            return Some(e);
        }
      }
      refused := None;
    }

    // The UPDATE of a call
    method Fire(c: Call) returns (rc: Rc, ghost stamp: string)
      requires Valid() && c.id in rows && !c.Reset?
      modifies this`rows, this`logs, this`schedule, this`ticks, this`trace
      ensures Valid() && Follows(old(rows), rows) && OnlyEnds(old(trace), trace, c.id)
      ensures quiet ==> (rows, rc) == Update(old(rows), c, stamp) && logs == old(logs)
      ensures EndsAttempt(c) ==> Settled(trace, c.id)
    {
      hide RowsOk, Watched;
      Tick();
      ghost var before := rows;
      stamp := clock(ticks);
      var r := Update(rows, c, clock(ticks));
      OwnUpdate(before, c, clock(ticks), dm, claimed);
      rows, rc := r.0, r.1;
      trace := trace + [Own(c, Executions.Selects(c), before, rows, dm, claimed)];
      assert EndsAttempt(c) ==> SettledAt(trace, c.id, |trace| - 1);
    }

    // One of the functions of Executions, on a row that exists
    method Invoke(c: Call) returns (rc: Rc, ghost stamp: string)
      requires Valid() && c.id in rows && !c.Reset?
      modifies this`rows, this`logs, this`schedule, this`ticks, this`trace
      ensures Valid() && Follows(old(rows), rows)
      ensures quiet ==> (rows, rc) == Atomically(old(rows), c, stamp) && logs == old(logs)
      ensures EndsAttempt(c) ==> Settled(trace, c.id)
      ensures OnlyEnds(old(trace), trace, c.id)
    {
      hide Valid, OnlyEnds, Settled, Update, Atomically, Allowed;
      ghost var t := trace;
      var refused := Selects(c);
      if refused.Some? {
        return refused.value, "";
      }
      ghost var u, between := trace, rows;
      rc, stamp := Fire(c);
      OnlyEndsOn(t, u, trace, c.id);
      if quiet {
        UpdateAlone(between, c, stamp);
      }
    }

    // log_phase: the INSERT itself does not fail here.
    method Log(id: int, level: string, event: string, message: string)
      requires Valid()
      modifies this`rows, this`logs, this`schedule, this`ticks, this`trace
      ensures Valid() && Follows(old(rows), rows)
      ensures quiet ==> rows == old(rows) && logs == old(logs) + [LogRow(id, level, event, message)]
      ensures forall i | Settled(old(trace), i) :: Settled(trace, i)
      ensures forall i :: OnlyEnds(old(trace), trace, i)
    {
      Tick();
      logs := logs + [LogRow(id, level, event, message)];
      forall i | Settled(old(trace), i) ensures Settled(trace, i) {
        SettledStays(old(trace), i, Other(rows, dm, claimed));
      }
    }

    // Inside run_execution(id), no terminal call made yet
    ghost predicate InRun(id: int)
      reads this
    {
      && Valid() && id in rows && Follows(base, rows) && OnlyEnds(begun, trace, id)
      && (quiet ==> id in base && rows == base[id := rows[id]] && NoEndSince(mark, logs, id))
      && (quiet ==> rows[id].rawResponse == raw)
    }

    // ... its terminal call made
    ghost predicate Ended(id: int, f: Final)
      reads this
    {
      && Valid() && id in rows && Follows(base, rows) && Settled(trace, id) && OnlyEnds(begun, trace, id)
      && (quiet ==> id in base && rows == base[id := rows[id]] && RowShows(rows[id], f) && EndSince(mark, logs, id, f))
      && (quiet ==> rows[id].rawResponse == raw)
    }

    // log_phase inside a run
    method Say(id: int, level: string, event: string, message: string)
      requires InRun(id) && !IsTerminalEvent(LogRow(id, level, event, message))
      modifies this`rows, this`logs, this`schedule, this`ticks, this`trace
      ensures InRun(id) && (quiet ==> rows == old(rows))
    {
      hide OnlyEnds;
      ghost var t := trace;
      Log(id, level, event, message);
      OnlyEndsOn(begun, t, trace, id);
    }

    // A statement that only reads
    method Pause(id: int)
      requires InRun(id)
      modifies this`rows, this`logs, this`schedule, this`ticks, this`trace
      ensures InRun(id) && (quiet ==> rows == old(rows))
    {
      hide OnlyEnds;
      ghost var t := trace;
      Tick();
      OnlyEndsOn(begun, t, trace, id);
    }

    lemma NoResult(id: int)
      requires InRun(id) && rows[id].status in {Pending, Running}
      ensures rows[id].result == None
    {
    }

    // fail_execution
    method FailExecution(id: int, code: FailCode, msg: string) returns (exit: int)
      requires InRun(id) && (quiet ==> rows[id].status == Running)
      modifies this`rows, this`logs, this`schedule, this`ticks, this`trace
      ensures Ended(id, Stopped(code, msg)) && exit == code
    {
      hide OnlyEnds, Valid, Settled, EndSince, NoEndSince, Follows;
      if quiet {
        NoResult(id);
      }
      ghost var logs0, t, was := logs, trace, rows;
      Log(id, "error", "execution_failed", msg);
      OnlyEndsOn(begun, t, trace, id);
      FollowsOn(base, was, rows);
      t, was := trace, rows;
      if quiet {
        EndsLog(mark, logs0, id, LogRow(id, "error", "execution_failed", msg), Stopped(code, msg));
      }
      ghost var stamp;
      var rc;
      rc, stamp := Invoke(Call.Fail(id, Some(msg)));
      OnlyEndsOn(begun, t, trace, id);
      FollowsOn(base, was, rows);
      exit := code;
    }

    // cancel_execution
    method CancelExecution(id: int) returns (exit: int)
      requires InRun(id) && (quiet ==> rows[id].status in {Pending, Running})
      modifies this`rows, this`logs, this`schedule, this`ticks, this`trace
      ensures Ended(id, Canceled) && exit == EXIT_CANCELED
    {
      hide OnlyEnds, Valid, Settled, EndSince, NoEndSince, Follows;
      if quiet {
        NoResult(id);
      }
      ghost var logs0, t, was := logs, trace, rows;
      var l := LogRow(id, "info", "execution_cancelled", "execution cancelled by user");
      Log(id, l.level, l.event, l.message);
      OnlyEndsOn(begun, t, trace, id);
      FollowsOn(base, was, rows);
      t, was := trace, rows;
      if quiet {
        EndsLog(mark, logs0, id, l, Canceled);
      }
      ghost var stamp;
      var rc;
      rc, stamp := Invoke(Call.Cancel(id));
      OnlyEndsOn(begun, t, trace, id);
      FollowsOn(base, was, rows);
      exit := EXIT_CANCELED;
    }

    method EndStage(id: int, stage: Stage) returns (exit: int)
      requires InRun(id) && (quiet ==> rows[id].status == Running) && stage != Go
      modifies this`rows, this`logs, this`schedule, this`ticks, this`trace
      ensures Ended(id, FromStage(stage)) && exit == ExitCode(FromStage(stage))
    {
      match stage {
        case CancelNow => exit := CancelExecution(id);
        case StopWith(c, msg) => exit := FailExecution(id, c, msg);
      }
    }

    method DeathmarkClaim(id: int)
      requires Valid() && id > 0 && id in rows
      requires quiet ==> rows[id].status != Pending && NoneRunning(rows, claimed)
      modifies this`dm, this`claimed, this`trace
      ensures Valid() && dm == id && claimed == old(claimed) + {id}
      ensures trace == old(trace) + [Other(rows, dm, claimed)] && forall i :: OnlyEnds(old(trace), trace, i)
    {
      dm := id;
      claimed := claimed + {id};
      trace := trace + [Other(rows, dm, claimed)];
    }

    method DeathmarkRelease()
      requires Valid() && (quiet ==> NoneRunning(rows, claimed))
      modifies this`dm, this`trace
      ensures Valid() && dm == 0 && forall i :: OnlyEnds(old(trace), trace, i)
      ensures trace == old(trace) + [Other(rows, dm, claimed)]
    {
      dm := 0;
      trace := trace + [Other(rows, dm, claimed)];
    }

    // deathmark_exit_path, reached through exit() from any moment of the run
    method ExitPath() returns (ghost now: string)
      requires Valid() && quiet
      modifies this`rows, this`logs, this`schedule, this`ticks, this`trace
      ensures Valid() && rows == AfterExit(old(rows), dm, now)
      ensures NoneRunning(rows, claimed)
      ensures if dm > 0 && dm in old(rows) && old(rows)[dm].status == Running
        then rows.Keys == old(rows).Keys && (forall i | i in rows && i != dm :: rows[i] == old(rows)[i])
          && rows[dm].status == Failed && rows[dm].error == Some("runner process exited during execution")
          && logs == old(logs)
             + [LogRow(dm, "error", "execution_failed", "runner process exited during execution")]
        else rows == old(rows) && logs == old(logs)
    {
      now := "";
      if dm <= 0 || dm !in rows || rows[dm].status != Running {
        return;
      }
      Log(dm, "error", "execution_failed", "runner process exited during execution");
      var rc;
      rc, now := Invoke(Call.Fail(dm, Some("runner process exited during execution")));
    }

    // run_execution_dialect
    method RunExecution(id: int, w: World) returns (code: int)
      requires Valid() && id > 0 && (quiet ==> NoneRunning(rows, claimed))
      modifies this
      ensures Valid() && Follows(old(rows), rows) && old(claimed) <= claimed <= old(claimed) + {id}
      ensures id in claimed - old(claimed) ==> Settled(trace, id)
      ensures OnlyEnds(old(trace), trace, id)
      ensures quiet ==> NoneRunning(rows, claimed)
      ensures quiet && !Runnable(old(rows), id) ==>
        && code == (if id !in old(rows) || old(rows)[id].deletedAt.Some? then 1 else 4)
        && rows == old(rows) && logs == old(logs)
      ensures quiet && Runnable(old(rows), id) ==> id in rows
      ensures quiet && (id !in old(rows) || old(rows)[id].deletedAt.Some? || old(rows)[id].status != Pending) ==>
        code in {1, 4} && rows == old(rows) && logs == old(logs)
      ensures quiet && Runnable(old(rows), id) ==>
        && code == ExitCode(Outcome(w))
        && rows == old(rows)[id := rows[id]] && RowShows(rows[id], Outcome(w))
        && EndSince(old(logs), logs, id, Outcome(w))
      ensures quiet && Runnable(old(rows), id) ==>
        && (rows[id].status == Completed <==>
              && !w.poll0 && !w.poll1 && w.resolve == Go && w.prepare == Go && !w.poll2 && w.preflight == Go
              && w.chat == Go && (w.posthoc ==> w.validate == Go) && !w.poll3)
        && (rows[id].status == Completed ==> rows[id].result == Some(w.content))
      ensures quiet && Runnable(old(rows), id) ==>
        var heard := !w.poll0 && !w.poll1 && w.resolve == Go && w.prepare == Go && !w.poll2 && w.preflight == Go
                     && w.chat == Go;
        rows[id].rawResponse == if heard then Some(w.content) else old(rows)[id].rawResponse
      ensures quiet && Runnable(old(rows), id) ==>
        var ss := [Polled(w.poll0), Polled(w.poll1), w.resolve, w.prepare, Polled(w.poll2), w.preflight, w.chat,
                   if w.posthoc then w.validate else Go, Polled(w.poll3)];
        forall k | 0 <= k < |ss| && ss[k] != Go && forall j | 0 <= j < k :: ss[j] == Go ::
          if ss[k] == CancelNow then rows[id].status == Cancelled
          else rows[id].status == Failed && code == ss[k].code && rows[id].error == Some(ss[k].msg)
      ensures quiet && Runnable(old(rows), id) ==>
        && (code == 0 <==> rows[id].status == Completed) && (code == 14 <==> rows[id].status == Cancelled)
        && (code in {2, 4, 12, 13} <==> rows[id].status == Failed)
      ensures quiet && Runnable(old(rows), id) ==>
        && |old(logs)| < |logs| && old(logs) <= logs
        && (code == 0 ==> logs[|logs| - 1] == LogRow(id, "info", "execution_completed", "execution completed"))
        && (code == 14 ==>
              logs[|logs| - 1] == LogRow(id, "info", "execution_cancelled", "execution cancelled by user"))
        && (code !in {0, 14} ==>
              logs[|logs| - 1].level == "error" && logs[|logs| - 1].event == "execution_failed"
              && rows[id].error == Some(logs[|logs| - 1].message))
        && forall k | |old(logs)| <= k < |logs| - 1 ::
             logs[k].event !in {"execution_completed", "execution_failed", "execution_cancelled"}
    {
      hide OnlyEnds, Settled, RowsOk, WritesSafe, AlwaysWatched;
      code := RunToOutcome(id, w);
      if quiet && Runnable(old(rows), id) {
        OutcomeIsFirstStop(w);
      }
    }

    // ... as a run of stages
    method RunToOutcome(id: int, w: World) returns (code: int)
      requires Valid() && id > 0 && (quiet ==> NoneRunning(rows, claimed))
      modifies this
      ensures Valid() && Follows(old(rows), rows) && old(claimed) <= claimed <= old(claimed) + {id}
      ensures id in claimed - old(claimed) ==> Settled(trace, id)
      ensures OnlyEnds(old(trace), trace, id)
      ensures quiet ==> NoneRunning(rows, claimed)
      ensures quiet && !Runnable(old(rows), id) ==>
        && code == (if id !in old(rows) || old(rows)[id].deletedAt.Some? then 1 else 4)
        && rows == old(rows) && logs == old(logs)
      ensures quiet && Runnable(old(rows), id) ==>
        && code == ExitCode(Outcome(w))
        && rows == old(rows)[id := rows[id]] && RowShows(rows[id], Outcome(w))
        && EndSince(old(logs), logs, id, Outcome(w))
      ensures quiet && Runnable(old(rows), id) ==>
        rows[id].rawResponse == if Heard(w) then Some(w.content) else old(rows)[id].rawResponse
    {
      hide OnlyEnds, Settled, EndSince, RowShows, RowsOk, WritesSafe, AlwaysWatched;
      base, mark, begun, raw := rows, logs, trace, if id in rows then rows[id].rawResponse else None;
      Tick();
      if id !in rows || rows[id].deletedAt.Some? {
        return EXIT_NOT_FOUND;
      }
      if rows[id].status != Pending {
        return EXIT_INVALID;
      }
      if w.poll0 {
        code := CancelExecution(id);
        return;
      }
      code := StartAndRun(id, w);
    }

    // The claim and what follows it
    method StartAndRun(id: int, w: World) returns (code: int)
      requires InRun(id) && id > 0 && !w.poll0
      requires quiet ==> rows[id].status == Pending && NoneRunning(rows, claimed)
      modifies this`rows, this`logs, this`schedule, this`ticks, this`trace, this`dm, this`claimed, this`raw
      ensures Valid() && Follows(base, rows) && OnlyEnds(begun, trace, id)
      ensures old(claimed) <= claimed <= old(claimed) + {id}
      ensures id in claimed - old(claimed) ==> Settled(trace, id)
      ensures quiet ==> Ended(id, Outcome(w)) && code == ExitCode(Outcome(w)) && NoneRunning(rows, claimed)
      ensures quiet ==> raw == if Heard(w) then Some(w.content) else old(raw)
    {
      hide OnlyEnds, Settled, EndSince, RowsOk, WritesSafe, AlwaysWatched;
      ghost var t := trace;
      ghost var stamp;
      var rc;
      rc, stamp := Invoke(Call.Start(id));
      OnlyEndsOn(begun, t, trace, id);
      if rc != OK {
        return EXIT_INVALID;
      }
      t := trace;
      DeathmarkClaim(id);
      OnlyEndsOn(begun, t, trace, id);
      code := AfterClaim(id, w);
    }

    // What follows deathmark_claim, up to the chat request
    method AfterClaim(id: int, w: World) returns (code: int)
      requires InRun(id) && (quiet ==> rows[id].status == Running) && !w.poll0
      modifies this`rows, this`logs, this`schedule, this`ticks, this`trace, this`raw
      ensures Ended(id, Outcome(w)) && (quiet ==> code == ExitCode(Outcome(w)))
      ensures quiet ==> raw == if Heard(w) then Some(w.content) else old(raw)
    {
      hide InRun, Ended;
      Say(id, "info", "execution_started", "execution claimed (pending -> running)");
      if w.poll1 {
        code := CancelExecution(id);
        return;
      }
      Pause(id);
      if w.resolve != Go {
        code := EndStage(id, w.resolve);
        return;
      }
      Say(id, "info", "context_loaded", "context loaded");
      Say(id, "info", "prompt_resolved", "prompt resolved (system + user)");
      if w.prepare != Go {
        code := EndStage(id, w.prepare);
        return;
      }
      if w.poll2 {
        code := CancelExecution(id);
        return;
      }
      if w.preflight != Go {
        code := EndStage(id, w.preflight);
        return;
      }
      Say(id, "info", "preflight_passed", "preflight passed");
      Say(id, "info", "llm_request", "POST");
      if w.chat != Go {
        code := EndStage(id, w.chat);
        return;
      }
      code := AfterChat(id, w);
    }

    // The last stage: complete() and its log row
    method CompleteRun(id: int, content: string) returns (code: int)
      requires InRun(id)
      requires quiet ==> rows[id].status == Running && rows[id].rawResponse == Some(content)
      modifies this`rows, this`logs, this`schedule, this`ticks, this`trace
      ensures Ended(id, Done(content)) && (quiet ==> code == EXIT_OK)
    {
      ghost var stamp;
      var rc;
      hide OnlyEnds, Valid, Settled, EndSince, NoEndSince, Follows;
      ghost var logs0, t, was := logs, trace, rows;
      rc, stamp := Invoke(Call.Complete(id, Some(content)));
      OnlyEndsOn(begun, t, trace, id);
      FollowsOn(base, was, rows);
      if rc != OK {
        code := FailExecution(id, EXIT_SQL, "complete() transition failed");
        return;
      }
      t, was := trace, rows;
      Log(id, "info", "execution_completed", "execution completed");
      OnlyEndsOn(begun, t, trace, id);
      FollowsOn(base, was, rows);
      if quiet {
        EndsLog(mark, logs0, id, LogRow(id, "info", "execution_completed", "execution completed"), Done(content));
      }
      code := EXIT_OK;
    }

    // The raw response is stored.
    method StoreRaw(id: int, content: string)
      requires InRun(id) && (quiet ==> rows[id].status == Running)
      modifies this`rows, this`logs, this`schedule, this`ticks, this`trace, this`raw
      ensures raw == Some(content)
      ensures InRun(id) && (quiet ==> rows[id].status == Running && rows[id].rawResponse == Some(content))
    {
      hide Valid, Settled, OnlyEnds;
      ghost var stamp;
      ghost var t := trace;
      var rc;
      rc, stamp := Invoke(Call.SetRawResponse(id, Some(content)));
      OnlyEndsOn(begun, t, trace, id);
      raw := Some(content);
    }

    // From the response to the end
    method AfterChat(id: int, w: World) returns (code: int)
      requires InRun(id) && (quiet ==> rows[id].status == Running)
      requires !w.poll0 && !w.poll1 && !w.poll2
      requires w.resolve == w.prepare == w.preflight == w.chat == Go
      modifies this`rows, this`logs, this`schedule, this`ticks, this`trace, this`raw
      ensures Ended(id, Outcome(w)) && (quiet ==> code == ExitCode(Outcome(w)))
      ensures raw == Some(w.content)
    {
      hide InRun, Ended;
      StoreRaw(id, w.content);
      Say(id, "info", "llm_response", "HTTP");
      if w.posthoc {
        Say(id, "info", "validation_started", "validating raw response against skill output_schema");
        if w.validate != Go {
          Say(id, "error", "validation_failed", "");
          code := EndStage(id, w.validate);
          return;
        }
      }
      if w.poll3 {
        code := CancelExecution(id);
        return;
      }
      code := CompleteRun(id, w.content);
    }

    // The --pending loop of cmd_run over the page of rows its query returned
    method RunPending(ids: seq<int>, worlds: seq<World>) returns (worst: int, ghost codes: seq<int>)
      requires Valid() && |ids| == |worlds| && (forall i | 0 <= i < |ids| :: ids[i] > 0)
      requires forall i, j | 0 <= i < j < |ids| :: ids[i] != ids[j]
      requires quiet ==> NoneRunning(rows, claimed) && forall i | 0 <= i < |ids| :: Runnable(rows, ids[i])
      modifies this
      ensures Valid() && Follows(old(rows), rows)
      ensures forall i | i in claimed - old(claimed) :: Settled(trace, i)
      ensures quiet ==> NoneRunning(rows, claimed)
      ensures quiet ==> forall i | 0 <= i < |ids| :: ids[i] in rows && RowShows(rows[ids[i]], Outcome(worlds[i]))
      ensures quiet ==> rows.Keys == old(rows).Keys && forall k | k in rows && k !in ids :: rows[k] == old(rows)[k]
      ensures |codes| == |ids| && (forall c | c in codes :: c <= worst) && (worst == EXIT_OK || worst in codes)
      ensures quiet ==> forall i | 0 <= i < |ids| :: codes[i] == ExitCode(Outcome(worlds[i]))
      ensures quiet ==> forall i | 0 <= i < |ids| && ids[i] in rows ::
        && (rows[ids[i]].status == Completed <==>
              && !worlds[i].poll0 && !worlds[i].poll1 && worlds[i].resolve == Go && worlds[i].prepare == Go
              && !worlds[i].poll2 && worlds[i].preflight == Go && worlds[i].chat == Go
              && (worlds[i].posthoc ==> worlds[i].validate == Go) && !worlds[i].poll3)
        && (rows[ids[i]].status == Completed ==> rows[ids[i]].result == Some(worlds[i].content))
        && (codes[i] == 0 <==> rows[ids[i]].status == Completed)
        && (codes[i] == 14 <==> rows[ids[i]].status == Cancelled)
    {
      hide Valid, Settled, OnlyEnds, EndSince, Outcome, ExitCode, RowShows, BatchTo, SettledTo, Worst, Follows;
      BatchBegins(rows, ids, worlds);
      SettledBegins(trace, claimed);
      WorstBegins();
      FollowsSelf(rows);
      worst, codes := EXIT_OK, [];
      ghost var rows0 := rows;
      var i := 0;
      while i < |ids|
        invariant i <= |ids| == |worlds| && |codes| == i && Valid() && Follows(rows0, rows)
        invariant Worst(codes, worst) && SettledTo(trace, claimed, old(claimed), ids[..i])
        invariant quiet ==> NoneRunning(rows, claimed) && BatchTo(rows0, rows, ids, worlds, i, codes)
      {
        ghost var t, u, marked, before := trace, trace, claimed, rows;
        if quiet {
          BatchRunnable(rows0, rows, ids, worlds, i, codes);
        }
        var rc := RunExecution(ids[i], worlds[i]);
        u := trace;
        DeathmarkRelease();
        FollowsOn(rows0, before, rows);
        NotYet(ids, i);
        SettledNext(t, u, trace, marked, claimed, old(claimed), ids[..i], ids[i]);
        assert ids[..i + 1] == ids[..i] + [ids[i]];
        if quiet {
          BatchNext(rows0, before, rows, ids, worlds, i, codes, rc);
        }
        WorstNext(codes, worst, rc);
        codes := codes + [rc];
        if rc != EXIT_OK && rc > worst {
          worst := rc;
        }
        i := i + 1;
      }
      BatchEnds(rows0, rows, ids, worlds, codes, quiet);
      if quiet {
        forall i | 0 <= i < |ids| {
          RowReads(rows[ids[i]], worlds[i], codes[i]);
        }
      }
      WorstEnds(codes, worst);
      SettledEnds(trace, claimed, old(claimed), ids[..i]);
    }

    // run --pending: the query, others acting before and after it, and the loop
    method CmdRunPending(index: seq<int>, max: int, world: nat -> World)
      returns (worst: int, ghost ids: seq<int>, ghost codes: seq<int>)
      requires Valid() && P.IsIndex(index, rows) && (quiet ==> NoneRunning(rows, claimed))
      modifies this
      ensures Valid() && Follows(old(rows), rows)
      ensures ids == S.Cut(S.Keep(index, P.ExecWanted(old(rows), PENDING_ROWS)), 0, ClampLimit(max))
      ensures forall i | i in claimed - old(claimed) :: Settled(trace, i)
      ensures quiet ==> forall i | 0 <= i < |ids| ::
        Runnable(old(rows), ids[i]) && ids[i] in rows && RowShows(rows[ids[i]], Outcome(world(i)))
      ensures quiet ==> NoneRunning(rows, claimed)
      ensures quiet ==> rows.Keys == old(rows).Keys && forall k | k in rows && k !in ids :: rows[k] == old(rows)[k]
      ensures |codes| == |ids| && (forall c | c in codes :: c <= worst) && (worst == EXIT_OK || worst in codes)
      ensures quiet ==> forall i | 0 <= i < |ids| :: codes[i] == ExitCode(Outcome(world(i)))
      ensures quiet ==> forall i | 0 <= i < |ids| && ids[i] in rows ::
        && (rows[ids[i]].status == Completed <==>
              && !world(i).poll0 && !world(i).poll1 && world(i).resolve == Go && world(i).prepare == Go
              && !world(i).poll2 && world(i).preflight == Go && world(i).chat == Go
              && (world(i).posthoc ==> world(i).validate == Go) && !world(i).poll3)
        && (rows[ids[i]].status == Completed ==> rows[ids[i]].result == Some(world(i).content))
        && (codes[i] == 0 <==> rows[ids[i]].status == Completed)
        && (codes[i] == 14 <==> rows[ids[i]].status == Cancelled)
    {
      hide Watched, AlwaysWatched, WritesSafe, Settled, Outcome, ExitCode, RowShows, S.Keep, S.Cut, P.ExecWanted;
      var page := P.ExecutionPage(index, rows, PENDING_ROWS, 0, max);
      PendingPage(index, rows, max);
      ids := page;
      Tick();
      var worlds := seq(|page|, k requires 0 <= k < |page| => world(k));
      worst, codes := RunPending(page, worlds);
    }
  }

  lemma RowReads(r: Row, w: World, code: int)
    requires RowShows(r, Outcome(w)) && code == ExitCode(Outcome(w))
    ensures r.status == Completed <==>
      && !w.poll0 && !w.poll1 && w.resolve == Go && w.prepare == Go && !w.poll2 && w.preflight == Go && w.chat == Go
      && (w.posthoc ==> w.validate == Go) && !w.poll3
    ensures r.status == Completed ==> r.result == Some(w.content)
    ensures (code == 0 <==> r.status == Completed) && (code == 14 <==> r.status == Cancelled)
  {
    hide Outcome, Polled;
    OutcomeIsFirstStop(w);
  }

  // The first n rows of a batch have been run, and nothing else has changed.
  ghost predicate BatchTo(rows: Rows, rows': Rows, ids: seq<int>, worlds: seq<World>, n: nat, codes: seq<int>) {
    && n <= |ids| == |worlds| && |codes| == n && rows'.Keys == rows.Keys
    && (forall j | n <= j < |ids| :: Runnable(rows', ids[j]))
    && (forall j | 0 <= j < n :: ids[j] in rows' && RowShows(rows'[ids[j]], Outcome(worlds[j])))
    && (forall j | 0 <= j < n :: codes[j] == ExitCode(Outcome(worlds[j])))
    && (forall k | k in rows' && k !in ids :: rows'[k] == rows[k])
  }

  lemma BatchBegins(rows: Rows, ids: seq<int>, worlds: seq<World>)
    ensures |ids| == |worlds| && (forall j | 0 <= j < |ids| :: Runnable(rows, ids[j])) ==>
      BatchTo(rows, rows, ids, worlds, 0, [])
  {
  }

  lemma BatchRunnable(rows: Rows, rows': Rows, ids: seq<int>, worlds: seq<World>, n: nat, codes: seq<int>)
    requires BatchTo(rows, rows', ids, worlds, n, codes) && n < |ids|
    ensures Runnable(rows', ids[n])
  {
  }

  lemma BatchNext(rows: Rows, before: Rows, after: Rows, ids: seq<int>, worlds: seq<World>, n: nat, codes: seq<int>,
                  code: int)
    requires BatchTo(rows, before, ids, worlds, n, codes) && n < |ids|
    requires forall i, j | 0 <= i < j < |ids| :: ids[i] != ids[j]
    requires ids[n] in after && after == before[ids[n] := after[ids[n]]]
    requires RowShows(after[ids[n]], Outcome(worlds[n])) && code == ExitCode(Outcome(worlds[n]))
    ensures BatchTo(rows, after, ids, worlds, n + 1, codes + [code])
  {
    hide Outcome, ExitCode, RowShows;
    assert ids[n] in ids && ids[n] in before;
  }

  lemma BatchEnds(rows: Rows, rows': Rows, ids: seq<int>, worlds: seq<World>, codes: seq<int>, quiet: bool)
    requires quiet ==> BatchTo(rows, rows', ids, worlds, |ids|, codes)
    ensures quiet ==> |codes| == |ids| == |worlds| && forall i | 0 <= i < |ids| ::
      ids[i] in rows' && RowShows(rows'[ids[i]], Outcome(worlds[i])) && codes[i] == ExitCode(Outcome(worlds[i]))
    ensures quiet ==> rows'.Keys == rows.Keys && forall k | k in rows' && k !in ids :: rows'[k] == rows[k]
  {
  }

  // The rows claimed since, all of them among `ids`, are settled.
  ghost predicate SettledTo(trace: seq<Moment>, claimed: set<int>, before: set<int>, ids: seq<int>) {
    forall k | k in claimed - before :: Settled(trace, k) && k in ids
  }

  lemma SettledBegins(trace: seq<Moment>, claimed: set<int>)
    ensures SettledTo(trace, claimed, claimed, [])
  {
  }

  lemma SettledNext(t: seq<Moment>, u: seq<Moment>, v: seq<Moment>, marked: set<int>, claimed: set<int>,
                    before: set<int>, ids: seq<int>, id: int)
    requires SettledTo(t, marked, before, ids) && OnlyEnds(t, u, id) && (forall i :: OnlyEnds(u, v, i))
    requires marked <= claimed <= marked + {id} && (id in claimed - marked ==> Settled(u, id)) && id !in ids
    ensures SettledTo(v, claimed, before, ids + [id])
  {
    hide Settled, OnlyEnds;
    forall k | k in claimed - before ensures Settled(v, k) && k in ids + [id] {
      if k in marked {
        SettledElsewhere(t, u, id, k);
      }
      SettledElsewhere(u, v, k + 1, k);
    }
  }

  lemma SettledEnds(trace: seq<Moment>, claimed: set<int>, before: set<int>, ids: seq<int>)
    requires SettledTo(trace, claimed, before, ids)
    ensures forall k | k in claimed - before :: Settled(trace, k)
  {
  }

  // Distinct ids: the n-th is not among the first n.
  lemma NotYet(ids: seq<int>, n: nat)
    requires n < |ids| && forall i, j | 0 <= i < j < |ids| :: ids[i] != ids[j]
    ensures ids[n] !in ids[..n]
  {
  }

  // `worst` is the greatest of the codes, or EXIT_OK.
  ghost predicate Worst(codes: seq<int>, worst: int) {
    EXIT_OK <= worst && (forall c | c in codes :: c <= worst) && (worst == EXIT_OK || worst in codes)
  }

  lemma WorstBegins()
    ensures Worst([], EXIT_OK)
  {
  }

  lemma WorstNext(codes: seq<int>, worst: int, rc: int)
    requires Worst(codes, worst)
    ensures Worst(codes + [rc], if rc != EXIT_OK && rc > worst then rc else worst)
  {
  }

  lemma WorstEnds(codes: seq<int>, worst: int)
    requires Worst(codes, worst)
    ensures (forall c | c in codes :: c <= worst) && (worst == EXIT_OK || worst in codes)
  {
  }

  lemma FollowsSelf(rows: Rows)
    ensures Follows(rows, rows)
  {
  }

  lemma FollowsOn(a: Rows, b: Rows, c: Rows)
    requires Follows(a, b) && Follows(b, c)
    ensures Follows(a, c)
    ensures a.Keys <= b.Keys <= c.Keys
  {
    forall i | i in a ensures i in b && i in c {
    }
    forall i | i in b ensures i in c {
    }
  }

  const PENDING_ROWS := Q.ExecutionQuery(Some("pending"), 0, 0, 0, 0, false)

  lemma PendingMatches(r: Row)
    ensures Q.ExecMatches(PENDING_ROWS, r) <==> r.status == Pending && r.deletedAt.None?
  {
  }

  // The page the query lists holds rows that can be run, each once.
  lemma PendingPage(index: seq<int>, rows: Rows, max: int)
    requires P.IsIndex(index, rows)
    ensures var page := S.Cut(S.Keep(index, P.ExecWanted(rows, PENDING_ROWS)), 0, ClampLimit(max));
      && (forall i | 0 <= i < |page| :: Runnable(rows, page[i]))
      && (forall i, j | 0 <= i < j < |page| :: page[i] != page[j])
  {
    P.FirstPageHolds(index, rows, PENDING_ROWS, max);
    hide S.Keep, S.Cut, P.ExecWanted;
    var page := S.Cut(S.Keep(index, P.ExecWanted(rows, PENDING_ROWS)), 0, ClampLimit(max));
    forall i | 0 <= i < |page| ensures Runnable(rows, page[i]) {
      assert page[i] in page;
      PendingMatches(rows[page[i]]);
    }
  }

  // Exactly which rows a clean exit leaves running: those running that the death marker does not name.
  lemma ExitLeavesRunningIff(rows: Rows, dm: int, now: string, ids: set<int>)
    requires forall i | i in ids :: i > 0 && i in rows
    ensures (exists i | i in ids :: AfterExit(rows, dm, now)[i].status == Running)
      <==> exists i | i in ids :: rows[i].status == Running && i != dm
  {
    hide RowOk;
    forall i | i in ids
      ensures AfterExit(rows, dm, now)[i].status == Running <==> rows[i].status == Running && i != dm
    {
    }
  }

  // Between start() and deathmark_claim an exit leaves the row running.
  lemma ExitBeforeClaimOrphans(rows: Rows, id: int, now: string)
    requires Runnable(rows, id)
    ensures var started := Update(rows, Start(id), now).0;
      started[id].status == Running && AfterExit(started, 0, now)[id].status == Running
  {
  }
}
