/**
 acta_runner/src/sweep.c and the two log readers it uses (acta_db/src/execution_log.c): rows left running by a dead
 runner are failed.  Other processes may act between any two statements of the sweep.
 */
module Sweep {
  import opened Db
  import opened Executions
  import opened Stamps
  import P = Pages
  import Q = Query
  import S = Sql

  const STAMP_ROOM := 31   // char last_log[32], char out[32]

  datatype LogEntry = LogEntry(executionId: int, level: string, event: string, message: string, createdAt: string)

  // Stamps of the log rows of one execution, in id order
  function StampsOf(logs: seq<LogEntry>, id: int): seq<string> {
    if logs == [] then []
    else
      var last := logs[|logs| - 1];
      StampsOf(logs[..|logs| - 1], id) + (if last.executionId == id then [last.createdAt] else [])
  }

  // ORDER BY created_at, id on rows in id order: a stable insertion
  function Insert(s: seq<string>, x: string): seq<string> {
    if s == [] || !Less(x, s[|s| - 1]) then s + [x] else Insert(s[..|s| - 1], x) + [s[|s| - 1]]
  }

  function Ordered(s: seq<string>): seq<string> {
    if s == [] then [] else Insert(Ordered(s[..|s| - 1]), s[|s| - 1])
  }

  predicate Sorted(s: seq<string>) { forall j, k | 0 <= j < k < |s| :: !Less(s[k], s[j]) }

  lemma {:induction false} InsertKeeps(s: seq<string>, x: string)
    requires Sorted(s)
    ensures Sorted(Insert(s, x)) && multiset(Insert(s, x)) == multiset(s) + multiset{x}
  {
    var r := Insert(s, x);
    if s == [] {
      assert r == [x];
    } else if !Less(x, s[|s| - 1]) {
      forall j | 0 <= j < |s| ensures !Less(x, s[j]) {
        if j < |s| - 1 {
          LessIsTransitive(s[j], s[|s| - 1], x);
        }
      }
    } else {
      var front, top := s[..|s| - 1], s[|s| - 1];
      assert s == front + [top];
      InsertKeeps(front, x);
      var f := Insert(front, x);
      LessIsTotal(x, top);
      forall j | 0 <= j < |f| ensures !Less(top, f[j]) {
        assert f[j] in multiset(f);
        assert f[j] == x || f[j] in front;
      }
    }
  }

  lemma {:induction false} OrderedIsSorted(s: seq<string>)
    ensures Sorted(Ordered(s)) && multiset(Ordered(s)) == multiset(s) && |Ordered(s)| == |s|
  {
    if s == [] {
    } else {
      assert s == s[..|s| - 1] + [s[|s| - 1]];
      OrderedIsSorted(s[..|s| - 1]);
      InsertKeeps(Ordered(s[..|s| - 1]), s[|s| - 1]);
    }
    assert |multiset(Ordered(s))| == |multiset(s)|;
  }

  lemma {:induction false} InsertBeyond(o: seq<string>, n: nat, x: string)
    requires n <= |o| && forall k | 0 <= k < n :: !Less(x, o[k])
    ensures |Insert(o, x)| == |o| + 1 && Insert(o, x)[..n] == o[..n]
  {
    if o != [] && Less(x, o[|o| - 1]) {
      var front := o[..|o| - 1];
      InsertBeyond(front, n, x);
      assert Insert(o, x) == Insert(front, x) + [o[|o| - 1]];
      assert Insert(o, x)[..n] == Insert(front, x)[..n] == front[..n] == o[..n];
    } else {
      assert Insert(o, x) == o + [x];
    }
  }

  // t is s with stamps added that are no earlier than those of s: a clock that does not go back.
  predicate Later(s: seq<string>, t: seq<string>) {
    s <= t && forall j, k | 0 <= j < |s| <= k < |t| :: !Less(t[k], s[j])
  }

  lemma {:induction false} OrderedExtends(s: seq<string>, t: seq<string>)
    requires Later(s, t)
    ensures |Ordered(s)| == |s| <= |Ordered(t)| == |t| && Ordered(t)[..|s|] == Ordered(s)
  {
    hide Less, Insert, Sorted;
    OrderedIsSorted(s);
    OrderedIsSorted(t);
    if |t| > |s| {
      var front, x := t[..|t| - 1], t[|t| - 1];
      OrderedExtends(s, front);
      var o := Ordered(front);
      forall k | 0 <= k < |s| ensures !Less(x, o[k]) {
        assert o[k] == Ordered(s)[k] && Ordered(s)[k] in multiset(s);
        var j :| 0 <= j < |s| && s[j] == o[k];
      }
      InsertBeyond(o, |s|, x);
    } else {
      assert t == s;
    }
  }

  // The last page, sized by an earlier count, ends with the greatest of the stamps counted, however many they are.
  lemma LastPageHoldsGreatest(s: seq<string>, t: seq<string>)
    requires s != [] && Later(s, t)
    ensures var limit := if |s| < MAX_PAGE then |s| else MAX_PAGE;
      var page := S.Cut(Ordered(t), |s| - limit, ClampLimit(limit));
      && page != [] && page[|page| - 1] in s
      && forall x | x in s :: !Less(page[|page| - 1], x)
  {
    hide Less, Ordered, Later;
    OrderedExtends(s, t);
    OrderedIsSorted(s);
    var o := Ordered(s);
    var top := o[|o| - 1];
    assert top == Ordered(t)[..|s|][|s| - 1];
    assert top in multiset(s);
    LessIsTotal(top, top);
    forall x | x in s ensures !Less(top, x) {
      assert x in multiset(o);
      var k :| 0 <= k < |o| && o[k] == x;
    }
  }

  // The stamps a sweep may use for a row: non-empty ones of its log, and started_at
  predicate Usable(stamps: seq<string>, started: Option<string>, x: string) {
    x != [] && (x in stamps || started == Some(x))
  }

  predicate Fit(stamps: seq<string>, row: Row) {
    && (forall x | x in stamps :: |x| <= 31)
    && (row.startedAt.Some? ==> |row.startedAt.value| <= 31) && |row.createdAt| <= 31
  }

  // The greatest usable stamp; created_at when there is none; nothing when that is empty as well
  ghost predicate IsLatest(stamps: seq<string>, row: Row, last: Option<string>) {
    if exists x :: Usable(stamps, row.startedAt, x) then
      last.Some? && Usable(stamps, row.startedAt, last.value)
      && forall x | Usable(stamps, row.startedAt, x) :: !Less(last.value, x)
    else last == if row.createdAt == [] then None else Some(row.createdAt)
  }

  // snprintf into a buffer of 32
  function Truncated(s: string): string {
    if |s| <= STAMP_ROOM then s else s[..STAMP_ROOM]
  }

  // The later of the log's last stamp and started_at
  lemma LaterIsLatest(stamps: seq<string>, row: Row, lastLog: Option<string>, started: Option<string>)
    requires lastLog.Some? || started.Some?
    requires lastLog.Some? ==> Usable(stamps, row.startedAt, lastLog.value) && lastLog.value in stamps
    requires lastLog.Some? ==> forall x | x in stamps :: !Less(lastLog.value, x)
    requires lastLog.None? ==> forall x | x in stamps :: x == []
    requires started == if row.startedAt == Some([]) then None else row.startedAt
    ensures IsLatest(stamps, row,
              if started.None? || (lastLog.Some? && !Less(lastLog.value, started.value)) then lastLog else started)
  {
    if started.Some? {
      assert Usable(stamps, row.startedAt, started.value);
      LessIsTotal(started.value, started.value);
      if lastLog.Some? {
        LessIsTotal(lastLog.value, started.value);
        if Less(lastLog.value, started.value) {
          forall x | x in stamps ensures !Less(started.value, x) {
            LessIsTransitive(x, lastLog.value, started.value);
          }
        }
      }
    }
  }

  // last_activity: the count sees the log as `counted`, the page as `paged`.
  method LastActivity(counted: seq<LogEntry>, paged: seq<LogEntry>, id: int, row: Row) returns (last: Option<string>)
    ensures Later(StampsOf(counted, id), StampsOf(paged, id)) && Fit(StampsOf(counted, id), row) ==>
      IsLatest(StampsOf(counted, id), row, last)
  {
    hide Less, Ordered, S.Cut, Later;
    var lastLog: Option<string> := None;
    ghost var stamps := StampsOf(counted, id);
    var total := |StampsOf(counted, id)|;
    if total > 0 {
      var limit := if total < MAX_PAGE then total else MAX_PAGE;
      var page := S.Cut(Ordered(StampsOf(paged, id)), total - limit, ClampLimit(limit));
      if Later(stamps, StampsOf(paged, id)) {
        LastPageHoldsGreatest(stamps, StampsOf(paged, id));
      }
      if page != [] && page[|page| - 1] != [] {
        lastLog := Some(Truncated(page[|page| - 1]));
      } else if Later(stamps, StampsOf(paged, id)) {
        GreatestIsEmpty(stamps);
      }
    }
    var started := if row.startedAt.Some? && row.startedAt.value != [] then row.startedAt else None;
    if lastLog.Some? && started.Some? {
      last := if !Less(lastLog.value, started.value) then lastLog else started;
    } else {
      last := if lastLog.Some? then lastLog else started;
    }
    if Later(stamps, StampsOf(paged, id)) && Fit(stamps, row) && last.Some? {
      LaterIsLatest(stamps, row, lastLog, started);
    }
    if last.None? && row.createdAt != [] {
      last := Some(row.createdAt);
    }
    if last.Some? {
      last := Some(Truncated(last.value));
    }
  }

  lemma GreatestIsEmpty(s: seq<string>)
    requires forall x | x in s :: !Less([], x)
    ensures forall x | x in s :: x == []
  {
  }

  // Some activity at or after the threshold
  ghost predicate Active(stamps: seq<string>, row: Row, threshold: string) {
    || (exists x :: Usable(stamps, row.startedAt, x) && !Less(x, threshold))
    || ((forall x :: !Usable(stamps, row.startedAt, x)) && row.createdAt != [] && !Less(row.createdAt, threshold))
  }

  lemma LatestDecides(stamps: seq<string>, row: Row, last: Option<string>, threshold: string)
    requires IsLatest(stamps, row, last)
    ensures Active(stamps, row, threshold) <==> last.Some? && !Less(last.value, threshold)
  {
    if (exists x :: Usable(stamps, row.startedAt, x)) && Less(last.value, threshold) {
      forall x | Usable(stamps, row.startedAt, x) ensures Less(x, threshold) {
        if !Less(x, threshold) {
          LessIsTransitive(threshold, x, last.value);
        }
      }
    }
  }

  // With fixed-width stamps: activity at or after the threshold, in time
  lemma ActiveInTime(log: seq<Instant>, started: Option<Instant>, created: Instant, row: Row, threshold: Instant)
    requires IsInstant(created) && IsInstant(threshold) && (started.Some? ==> IsInstant(started.value))
    requires forall i | i in log :: IsInstant(i)
    requires row.createdAt == Text(created)
    requires row.startedAt == if started.Some? then Some(Text(started.value)) else None
    ensures Active(Texts(log), row, Text(threshold)) <==>
      || (exists i | i in log :: Seconds(i) >= Seconds(threshold))
      || (started.Some? && Seconds(started.value) >= Seconds(threshold))
      || (log == [] && started.None? && Seconds(created) >= Seconds(threshold))
  {
    hide Less, Text, Seconds;
    var stamps, limit := Texts(log), Text(threshold);
    StampOrder(created, threshold);
    forall k | 0 <= k < |log|
      ensures Usable(stamps, row.startedAt, stamps[k])
      ensures !Less(stamps[k], limit) <==> Seconds(log[k]) >= Seconds(threshold)
    {
      assert log[k] in log;
      StampOrder(log[k], threshold);
    }
    if started.Some? {
      StampOrder(started.value, threshold);
      assert Usable(stamps, row.startedAt, row.startedAt.value);
    }
    assert forall i | i in log :: exists k | 0 <= k < |log| :: log[k] == i;
  }

  function Texts(log: seq<Instant>): (r: seq<string>)
    requires forall i | i in log :: IsInstant(i)
    ensures |r| == |log| && forall k | 0 <= k < |log| :: log[k] in log && r[k] == Text(log[k])
  {
    if log == [] then [] else [Text(log[0])] + Texts(log[1..])
  }

  // The two tables, and a statement of another process on them
  datatype State = State(rows: Rows, logs: seq<LogEntry>)

  datatype Act = Do(call: Call, now: string) | Add(id: int, row: Row) | Note(entry: LogEntry)

  function Other(s: State, a: Act): State {
    match a
    case Do(call, now) => s.(rows := Update(s.rows, call, now).0)
    case Add(id, row) => if id !in s.rows && RowOk(row) then s.(rows := s.rows[id := row]) else s
    case Note(entry) => Logged(s, entry)
  }

  function Others(s: State, acts: seq<Act>): State {
    if acts == [] then s else Other(Others(s, acts[..|acts| - 1]), acts[|acts| - 1])
  }

  // What others do while one row is handled: before the count and the page of its log, before the SELECT and the
  // UPDATE of fail(), before the INSERT of the log row
  datatype Turns = Turns(
    beforeCount: seq<Act>, beforePage: seq<Act>, beforeSelect: seq<Act>, beforeUpdate: seq<Act>, beforeLog: seq<Act>)

  const NOTHING := Turns([], [], [], [], [])

  predicate LiveRunning(rows: Rows, id: int) {
    id in rows && rows[id].status == Running && rows[id].deletedAt.None?
  }

  // The page its query lists: live running rows, in id order, at most MAX_PAGE of them
  predicate FirstPage(ids: seq<int>, rows: Rows) {
    && |ids| <= MAX_PAGE && P.Increasing(ids)
    && (forall id | id in ids :: LiveRunning(rows, id))
    && (forall id | id in rows && LiveRunning(rows, id) && id !in ids ::
          |ids| == MAX_PAGE && forall k | 0 <= k < |ids| :: ids[k] < id)
  }

  const RUNNING_ROWS := Q.ExecutionQuery(Some("running"), 0, 0, 0, 0, false)

  lemma RunningMatches(r: Row)
    ensures Q.ExecMatches(RUNNING_ROWS, r) <==> r.status == Running && r.deletedAt.None?
  {
  }

  // The query of cmd_sweep
  method ListRunning(index: seq<int>, rows: Rows) returns (ids: seq<int>)
    requires P.IsIndex(index, rows)
    ensures FirstPage(ids, rows)
  {
    ids := P.ExecutionPage(index, rows, RUNNING_ROWS, 0, MAX_PAGE);
    P.FirstPageHolds(index, rows, RUNNING_ROWS, MAX_PAGE);
    forall id | id in rows ensures Q.ExecMatches(RUNNING_ROWS, rows[id]) <==> LiveRunning(rows, id) {
      RunningMatches(rows[id]);
    }
  }

  datatype Verdict = Swept | Fresh | Skipped

  // What a sweep without interference makes of a listed row
  ghost function AfterSweep(row: Row, id: int, stamps: seq<string>, threshold: string, msg: string, now: string): Row {
    if Active(stamps, row, threshold) then row else Effect(row, Call.Fail(id, Some(msg)), now)
  }

  // ... and the log rows it writes: one for each row failed, none for the others
  ghost function SweepLogs(ids: seq<int>, n: nat, rows: Rows, logs: seq<LogEntry>, threshold: string, msg: string,
                           clock: nat -> string): seq<LogEntry>
    requires n <= |ids| && forall k | 0 <= k < |ids| :: ids[k] in rows
  {
    if n == 0 then []
    else
      SweepLogs(ids, n - 1, rows, logs, threshold, msg, clock) +
      if Active(StampsOf(logs, ids[n - 1]), rows[ids[n - 1]], threshold) then []
      else [LogEntry(ids[n - 1], "error", "execution_failed", msg, clock(n - 1))]
  }

  // What the sweep does to one row: nothing when it is fresh, nothing when it has left running meanwhile
  ghost predicate Handled(s: State, id: int, row: Row, threshold: string, msg: string, turns: Turns, now: string,
                          v: Verdict, after: State) {
    var s0 := Others(s, turns.beforeCount);
    var s1 := Others(s0, turns.beforePage);
    var s2 := Others(s1, turns.beforeSelect);
    var s3 := Others(s2, turns.beforeUpdate);
    && (Later(StampsOf(s0.logs, id), StampsOf(s1.logs, id)) && Fit(StampsOf(s0.logs, id), row) ==>
          (v == Fresh <==> Active(StampsOf(s0.logs, id), row, threshold)))
    && match v
       case Fresh => after == s1
       case Skipped =>
         if VerifyStatus(s2.rows, id, Running) != OK then after == s2
         else after == s3 && VerifyStatus(s3.rows, id, Running) != OK
       case Swept =>
         && VerifyStatus(s2.rows, id, Running) == OK && VerifyStatus(s3.rows, id, Running) == OK
         && var failed := s3.(rows := s3.rows[id := Effect(s3.rows[id], Call.Fail(id, Some(msg)), now)]);
            after == Logged(Others(failed, turns.beforeLog), LogEntry(id, "error", "execution_failed", msg, now))
  }

  function Logged(s: State, entry: LogEntry): State { s.(logs := s.logs + [entry]) }

  class Sweeper {
    var s: State

    // One row of the list; `row` is what the query returned.
    method SweepOne(id: int, row: Row, threshold: string, msg: string, turns: Turns, now: string) returns (v: Verdict)
      modifies this
      ensures Handled(old(s), id, row, threshold, msg, turns, now, v, s)
    {
      hide Others, StampsOf, Fit, IsLatest, Active, Later;
      s := Others(s, turns.beforeCount);
      var counted := s.logs;
      s := Others(s, turns.beforePage);
      var last := LastActivity(counted, s.logs, id, row);
      if Later(StampsOf(counted, id), StampsOf(s.logs, id)) && Fit(StampsOf(counted, id), row) {
        LatestDecides(StampsOf(counted, id), row, last, threshold);
      }
      if last.Some? && !Less(last.value, threshold) {
        return Fresh;
      }
      s := Others(s, turns.beforeSelect);
      if VerifyStatus(s.rows, id, Running) != OK {
        return Skipped;
      }
      s := Others(s, turns.beforeUpdate);
      var (rows, rc) := Update(s.rows, Call.Fail(id, Some(msg)), now);
      s := s.(rows := rows);
      if rc != OK {
        return Skipped;
      }
      s := Others(s, turns.beforeLog);
      s := Logged(s, LogEntry(id, "error", "execution_failed", msg, now));
      v := Swept;
    }

    // The loop of cmd_sweep over the rows its query listed.  turns[k] is what others do while row k is handled; states
    // and vs say what was found and done.
    method Sweep(ids: seq<int>, listed: Rows, threshold: string, msg: string, turns: seq<Turns>, clock: nat -> string)
      returns (swept: nat, kept: nat, skipped: nat, ghost states: seq<State>, ghost vs: seq<Verdict>)
      requires FirstPage(ids, listed) && |turns| == |ids| && OutcomesKept(listed, s.rows)
      modifies this
      ensures swept == Count(vs, Swept) && kept == Count(vs, Fresh) && skipped == Count(vs, Skipped)
      ensures IsSweep(states, vs, ids, listed, threshold, msg, turns, clock)
      ensures |vs| == |ids| && |states| == |ids| + 1
      ensures states[0] == old(s) && states[|ids|] == s && OutcomesKept(old(s).rows, s.rows)
      ensures Alone(turns) && old(s).rows == listed && AllFit(ids, old(s)) ==>
        skipped == 0 && SweptTo(ids, |ids|, old(s), threshold, msg, clock, s)
    {
      hide Handled, FirstPage, OutcomesKept, Alone, AllFit, SweptTo, IsSweep;
      PageIsRunning(ids, listed);
      KeptSelf(listed, s.rows);
      SweptNothing(ids, s, threshold, msg, clock);
      swept, kept, skipped, states, vs := 0, 0, 0, [s], [];
      SweepBegins(s, ids, listed, threshold, msg, turns, clock);
      ghost var s0 := s;
      var i := 0;
      while i < |ids|
        invariant i <= |ids| && |vs| == i && |states| == i + 1 && states[0] == s0 && states[i] == s
        invariant swept == Count(vs, Swept) && kept == Count(vs, Fresh) && skipped == Count(vs, Skipped)
        invariant IsSweep(states, vs, ids, listed, threshold, msg, turns, clock) && OutcomesKept(s0.rows, s.rows)
        invariant Alone(turns) && s0.rows == listed && AllFit(ids, s0) ==>
          skipped == 0 && SweptTo(ids, i, s0, threshold, msg, clock, s)
      {
        ghost var before := s;
        var v := SweepOne(ids[i], listed[ids[i]], threshold, msg, turns[i], clock(i));
        HandledKeeps(s0.rows, before, ids[i], listed[ids[i]], threshold, msg, turns[i], clock(i), v, s);
        SweepGoesOn(states, vs, ids, listed, threshold, msg, turns, clock, v, s);
        if Alone(turns) && s0.rows == listed && AllFit(ids, s0) {
          SweptOneMore(ids, i, s0, threshold, msg, clock, turns, before, v, s);
        }
        ghost var ws := vs + [v];
        assert ws[..i] == vs;
        vs, states := ws, states + [s];
        match v {
          case Fresh => kept := kept + 1;
          case Swept => swept := swept + 1;
          case Skipped => skipped := skipped + 1;
        }
        i := i + 1;
      }
    }

    // cmd_sweep: the query and the loop; others may act in between as well.
    method CmdSweep(index: seq<int>, threshold: string, msg: string, between: seq<Act>, turns: int -> Turns,
                    clock: nat -> string)
      returns (ghost ids: seq<int>, swept: nat, kept: nat, skipped: nat)
      requires P.IsIndex(index, s.rows) && forall i | i in s.rows :: RowOk(s.rows[i])
      modifies this
      ensures FirstPage(ids, old(s).rows) && swept + kept + skipped == |ids| && OutcomesKept(old(s).rows, s.rows)
      ensures between == [] && (forall k :: turns(k) == NOTHING) && AllFit(ids, old(s)) ==>
        skipped == 0 && SweptTo(ids, |ids|, old(s), threshold, msg, clock, s)
    {
      hide FirstPage, OutcomesKept, AllFit, SweptTo, IsSweep;
      var listed := s.rows;
      var page := ListRunning(index, listed);
      KeptSelf(listed, listed);
      OthersKeep(s, between);
      s := Others(s, between);
      var todo := seq(|page|, k => turns(k));
      ghost var states, vs;
      ids := page;
      swept, kept, skipped, states, vs := Sweep(page, listed, threshold, msg, todo, clock);
      CountsAddUp(vs);
      KeptOn(listed, states[0].rows, s.rows);
    }
  }

  function Count(vs: seq<Verdict>, v: Verdict): nat {
    if vs == [] then 0 else Count(vs[..|vs| - 1], v) + (if vs[|vs| - 1] == v then 1 else 0)
  }

  lemma {:induction false} CountsAddUp(vs: seq<Verdict>)
    ensures Count(vs, Swept) + Count(vs, Fresh) + Count(vs, Skipped) == |vs|
  {
    if vs != [] {
      CountsAddUp(vs[..|vs| - 1]);
    }
  }

  // Row after row was handled.
  ghost predicate IsSweep(states: seq<State>, vs: seq<Verdict>, ids: seq<int>, listed: Rows, threshold: string,
                          msg: string, turns: seq<Turns>, clock: nat -> string) {
    && |states| == |vs| + 1 && |vs| <= |ids| && |vs| <= |turns|
    && forall k | 0 <= k < |vs| :: ids[k] in listed &&
         Handled(states[k], ids[k], listed[ids[k]], threshold, msg, turns[k], clock(k), vs[k], states[k + 1])
  }

  lemma SweepBegins(s: State, ids: seq<int>, listed: Rows, threshold: string, msg: string, turns: seq<Turns>,
                    clock: nat -> string)
    ensures IsSweep([s], [], ids, listed, threshold, msg, turns, clock)
  {
  }

  lemma SweepGoesOn(states: seq<State>, vs: seq<Verdict>, ids: seq<int>, listed: Rows, threshold: string, msg: string,
                    turns: seq<Turns>, clock: nat -> string, v: Verdict, after: State)
    requires IsSweep(states, vs, ids, listed, threshold, msg, turns, clock)
    requires |vs| < |ids| && |vs| < |turns| && ids[|vs|] in listed
    requires var k := |vs|;
      Handled(states[k], ids[k], listed[ids[k]], threshold, msg, turns[k], clock(k), v, after)
    ensures IsSweep(states + [after], vs + [v], ids, listed, threshold, msg, turns, clock)
  {
    hide Handled;
    var ss, ws := states + [after], vs + [v];
    forall k | 0 <= k < |ws| ensures ids[k] in listed &&
      Handled(ss[k], ids[k], listed[ids[k]], threshold, msg, turns[k], clock(k), ws[k], ss[k + 1])
    {
      if k < |vs| {
        assert ss[k] == states[k] && ss[k + 1] == states[k + 1] && ws[k] == vs[k];
      }
    }
  }

  // No row is lost or badly shaped; completed and cancelled rows keep status and result.
  ghost predicate OutcomesKept(before: Rows, after: Rows) {
    && before.Keys <= after.Keys && (forall i | i in after :: RowOk(after[i]))
    && (forall i | i in before && before[i].status in {Completed, Cancelled} ::
          after[i].status == before[i].status && after[i].result == before[i].result)
  }

  lemma KeptSelf(before: Rows, after: Rows)
    requires OutcomesKept(before, after) || (before == after && forall i | i in after :: RowOk(after[i]))
    ensures OutcomesKept(after, after)
  {
  }

  lemma KeptOn(a: Rows, b: Rows, c: Rows)
    requires OutcomesKept(a, b) && OutcomesKept(b, c)
    ensures OutcomesKept(a, c)
  {
  }

  // No other process acts.
  ghost predicate Alone(turns: seq<Turns>) { forall k | 0 <= k < |turns| :: turns[k] == NOTHING }

  // The stamps of the listed rows fit the buffers.
  ghost predicate AllFit(ids: seq<int>, s: State) {
    forall k | 0 <= k < |ids| :: ids[k] in s.rows && Fit(StampsOf(s.logs, ids[k]), s.rows[ids[k]])
  }

  // The first n listed rows have been dealt with, and nothing else has changed.
  ghost predicate SweptTo(ids: seq<int>, n: nat, s: State, threshold: string, msg: string, clock: nat -> string,
                          t: State) {
    && n <= |ids| && t.rows.Keys == s.rows.Keys && (forall k | 0 <= k < |ids| :: ids[k] in s.rows)
    && t.logs == s.logs + SweepLogs(ids, n, s.rows, s.logs, threshold, msg, clock)
    && (forall id | id in s.rows && id !in ids :: t.rows[id] == s.rows[id])
    && (forall k | n <= k < |ids| :: t.rows[ids[k]] == s.rows[ids[k]])
    && (forall k | n <= k < |ids| :: StampsOf(t.logs, ids[k]) == StampsOf(s.logs, ids[k]))
    && (forall k | 0 <= k < n :: t.rows[ids[k]] ==
          AfterSweep(s.rows[ids[k]], ids[k], StampsOf(s.logs, ids[k]), threshold, msg, clock(k)))
  }

  lemma SweptNothing(ids: seq<int>, s: State, threshold: string, msg: string, clock: nat -> string)
    ensures (forall k | 0 <= k < |ids| :: ids[k] in s.rows) ==> SweptTo(ids, 0, s, threshold, msg, clock, s)
  {
    assert s.logs + [] == s.logs;
  }

  // With nobody else acting a stale running row is always failed.
  lemma HandledAlone(s: State, id: int, row: Row, threshold: string, msg: string, now: string, v: Verdict, after: State)
    requires Handled(s, id, row, threshold, msg, NOTHING, now, v, after)
    requires id in s.rows && s.rows[id] == row && row.status == Running && Fit(StampsOf(s.logs, id), row)
    ensures v != Skipped
    ensures after.rows == s.rows[id := AfterSweep(row, id, StampsOf(s.logs, id), threshold, msg, now)]
    ensures after.logs == s.logs + if Active(StampsOf(s.logs, id), row, threshold) then []
                                   else [LogEntry(id, "error", "execution_failed", msg, now)]
  {
    hide Active, StampsOf, Effect, Fit;
    assert Others(s, []) == s && Later(StampsOf(s.logs, id), StampsOf(s.logs, id));
    assert s.logs + [] == s.logs && s.rows[id := row] == s.rows;
  }

  lemma SweptOneMore(ids: seq<int>, k: nat, s0: State, threshold: string, msg: string, clock: nat -> string,
                     turns: seq<Turns>, s: State, v: Verdict, t: State)
    requires k < |ids| == |turns| && Alone(turns) && AllFit(ids, s0) && SweptTo(ids, k, s0, threshold, msg, clock, s)
    requires s0.rows[ids[k]].status == Running && forall i, j | 0 <= i < j < |ids| :: ids[i] != ids[j]
    requires Handled(s, ids[k], s0.rows[ids[k]], threshold, msg, turns[k], clock(k), v, t)
    ensures v != Skipped && SweptTo(ids, k + 1, s0, threshold, msg, clock, t)
  {
    hide Active, StampsOf, Effect, AfterSweep, Handled, Fit;
    var id := ids[k];
    HandledAlone(s, id, s0.rows[id], threshold, msg, clock(k), v, t);
    OtherStamps(s.logs, t.logs, id);
  }

  lemma PageIsRunning(ids: seq<int>, rows: Rows)
    requires FirstPage(ids, rows)
    ensures forall k | 0 <= k < |ids| :: ids[k] in rows && rows[ids[k]].status == Running
    ensures forall j, k | 0 <= j < k < |ids| :: ids[j] != ids[k]
  {
    forall k | 0 <= k < |ids| ensures ids[k] in rows && rows[ids[k]].status == Running {
      assert ids[k] in ids;
    }
  }

  lemma {:induction false} OthersKeep(s: State, acts: seq<Act>)
    requires forall i | i in s.rows :: RowOk(s.rows[i])
    ensures OutcomesKept(s.rows, Others(s, acts).rows)
  {
    if acts == [] {
    } else {
      hide RowOk;
      var front, last := acts[..|acts| - 1], acts[|acts| - 1];
      OthersKeep(s, front);
      if last.Do? {
        UpdateKeepsRows(Others(s, front).rows, last.call, last.now);
      }
    }
  }

  lemma OthersKeepOn(first: Rows, s: State, acts: seq<Act>)
    requires OutcomesKept(first, s.rows)
    ensures OutcomesKept(first, Others(s, acts).rows)
  {
    hide RowOk, Others;
    OthersKeep(s, acts);
  }

  lemma FailKeepsOn(first: Rows, rows: Rows, id: int, msg: string, now: string)
    requires OutcomesKept(first, rows)
    ensures OutcomesKept(first, Update(rows, Call.Fail(id, Some(msg)), now).0)
  {
    hide RowOk, Update;
    UpdateKeepsRows(rows, Call.Fail(id, Some(msg)), now);
  }

  lemma HandledKeeps(first: Rows, s: State, id: int, row: Row, threshold: string, msg: string, turns: Turns,
                     now: string, v: Verdict, after: State)
    requires Handled(s, id, row, threshold, msg, turns, now, v, after) && OutcomesKept(first, s.rows)
    ensures OutcomesKept(first, after.rows)
  {
    hide RowOk, Active, StampsOf, Later, Fit, Others, OutcomesKept, Effect;
    var s0 := Others(s, turns.beforeCount);
    var s1 := Others(s0, turns.beforePage);
    var s2 := Others(s1, turns.beforeSelect);
    var s3 := Others(s2, turns.beforeUpdate);
    OthersKeepOn(first, s, turns.beforeCount);
    OthersKeepOn(first, s0, turns.beforePage);
    OthersKeepOn(first, s1, turns.beforeSelect);
    OthersKeepOn(first, s2, turns.beforeUpdate);
    FailKeepsOn(first, s3.rows, id, msg, now);
    OthersKeepOn(first, s3.(rows := Update(s3.rows, Call.Fail(id, Some(msg)), now).0), turns.beforeLog);
  }

  // A page that is not full lists every live running row, so exactly the stale ones among them are failed.
  lemma ExactlyTheStale(ids: seq<int>, s: State, threshold: string, msg: string, clock: nat -> string, t: State)
    requires FirstPage(ids, s.rows) && |ids| < MAX_PAGE && SweptTo(ids, |ids|, s, threshold, msg, clock, t)
    ensures forall id | id in s.rows ::
      t.rows[id] != s.rows[id] <==> LiveRunning(s.rows, id) && !Active(StampsOf(s.logs, id), s.rows[id], threshold)
    ensures forall id | id in s.rows && t.rows[id] != s.rows[id] ::
      t.rows[id].status == Failed && t.rows[id].error == Some(msg)
  {
    hide Active, StampsOf;
    forall id | id in s.rows
      ensures id in ids <==> LiveRunning(s.rows, id)
      ensures id in ids ==> exists k :: 0 <= k < |ids| && ids[k] == id
    {
    }
  }

  // A log row of one execution leaves the stamps of the others as they are.
  lemma OtherStamps(before: seq<LogEntry>, after: seq<LogEntry>, id: int)
    requires after == before || (|after| == |before| + 1 && before <= after && after[|before|].executionId == id)
    ensures forall other | other != id :: StampsOf(after, other) == StampsOf(before, other)
  {
    if after != before {
      assert after[..|after| - 1] == before;
    }
  }
}
