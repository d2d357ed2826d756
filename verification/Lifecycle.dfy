/** How many calls of each kind a row has seen, against the status it is in; and whose attempt a completion ends */
module Lifecycle {
  import opened Db
  import opened Executions
  import opened Interleaving

  datatype Counts = Counts(starts: nat, completes: nat, fails: nat, pendingCancels: nat, runningCancels: nat,
                           resets: nat)

  // One more successful call on a row that had this status
  function Counted(n: Counts, was: Status, c: Call): Counts {
    match c
    case Start(_) => n.(starts := n.starts + 1)
    case Complete(_, _) => n.(completes := n.completes + 1)
    case Fail(_, _) => n.(fails := n.fails + 1)
    case Reset(_) => n.(resets := n.resets + 1)
    case Cancel(_) =>
      if was == Pending then n.(pendingCancels := n.pendingCancels + 1)
      else n.(runningCancels := n.runningCancels + 1)
    case _ => n
  }

  // One more event, the table being `rows` before it
  function CountEvent(n: Counts, rows: Rows, e: Event, id: int): Counts {
    if e.Inserted? || e.rc != OK || e.call.id != id then n
    else Counted(n, if id in rows then rows[id].status else Running, e.call)
  }

  // Successful calls on row id, cancels by the status they found
  function Tally(hist: seq<Event>, id: int): Counts {
    if hist == [] then Counts(0, 0, 0, 0, 0, 0)
    else
      var before := hist[..|hist| - 1];
      CountEvent(Tally(before, id), Replay(before), hist[|hist| - 1], id)
  }

  function One(b: bool): nat { if b then 1 else 0 }

  // Every attempt is accounted for.
  predicate Balanced(n: Counts, s: Status) {
    && n.starts == n.completes + n.fails + n.runningCancels + One(s == Running)
    && 1 + n.resets == n.starts + n.pendingCancels + One(s == Pending)
    && n.fails == n.resets + One(s == Failed)
    && n.completes == One(s == Completed)
    && n.pendingCancels + n.runningCancels == One(s == Cancelled)
  }

  // A call that may take effect keeps the balance.
  lemma CallBalances(n: Counts, r: Row, c: Call, now: string)
    requires Balanced(n, r.status) && Guard(r, c)
    ensures Balanced(Counted(n, r.status, c), Effect(r, c, now).status)
  {
  }

  // What the counts say of row id in a table
  predicate BalancedIn(n: Counts, rows: Rows, id: int) {
    if id in rows then Balanced(n, rows[id].status) else n == Counts(0, 0, 0, 0, 0, 0)
  }

  lemma EventBalances(n: Counts, rows: Rows, e: Event, id: int)
    requires Legal(rows, e) && BalancedIn(n, rows, id)
    ensures BalancedIn(CountEvent(n, rows, e, id), Apply(rows, e), id)
  {
    hide Counted, Effect, Guard, RowOk, Atomically, Balanced;
    if e.Inserted? {
      FreshBalances();
    } else if e.rc == OK && e.call.id == id {
      CallBalances(n, rows[id], e.call, e.now);
    }
  }

  lemma {:induction false} HistoryBalances(hist: seq<Event>, id: int)
    requires AllLegal(hist)
    ensures id in Replay(hist) ==> Balanced(Tally(hist, id), Replay(hist)[id].status)
    ensures id !in Replay(hist) ==> Tally(hist, id) == Counts(0, 0, 0, 0, 0, 0)
  {
    hide Balanced, Legal, Apply, CountEvent;
    if hist != [] {
      var before, e := hist[..|hist| - 1], hist[|hist| - 1];
      HistoryBalances(before, id);
      EventBalances(Tally(before, id), Replay(before), e, id);
    }
  }

  lemma FreshBalances()
    ensures Balanced(Counts(0, 0, 0, 0, 0, 0), Pending)
  {
  }

  // In every state any interleaving reaches, for every row
  lemma EveryRowBalances(actions: seq<Action>, id: int)
    requires id in RunAll(INITIAL, actions).rows
    ensures Balanced(Tally(RunAll(INITIAL, actions).hist, id), RunAll(INITIAL, actions).rows[id].status)
  {
    EveryInterleavingIsExplained(actions);
    HistoryBalances(RunAll(INITIAL, actions).hist, id);
  }

  // ----- attempts -----

  predicate Did(e: Event, c: Call) { e.Returned? && e.rc == OK && e.call == c }

  predicate DidComplete(e: Event, id: int) { e.Returned? && e.rc == OK && e.call.Complete? && e.call.id == id }

  // The number of the attempt under way after the first n events
  function AttemptAt(hist: seq<Event>, n: nat, id: int): nat
    requires n <= |hist|
  {
    Tally(hist[..n], id).starts
  }

  lemma {:induction false} PrefixIsLegal(hist: seq<Event>, n: nat)
    requires AllLegal(hist) && n <= |hist|
    ensures AllLegal(hist[..n])
  {
    if n < |hist| {
      PrefixIsLegal(hist[..|hist| - 1], n);
      assert hist[..|hist| - 1][..n] == hist[..n];
    } else {
      assert hist[..n] == hist;
    }
  }

  lemma TallyStep(hist: seq<Event>, n: nat, id: int)
    requires n < |hist|
    ensures var before, after := Tally(hist[..n], id), Tally(hist[..n + 1], id);
      && after.starts == before.starts + One(Did(hist[n], Start(id)))
      && after.resets == before.resets + One(Did(hist[n], Reset(id)))
  {
    assert hist[..n + 1][..n] == hist[..n];
  }

  // Starts and resets only add up, and a reset shows in the count.
  lemma {:induction false} ResetsAddUp(hist: seq<Event>, m: nat, n: nat, id: int)
    requires m <= n <= |hist|
    ensures AttemptAt(hist, m, id) <= AttemptAt(hist, n, id)
    ensures Tally(hist[..m], id).resets <= Tally(hist[..n], id).resets
    ensures Tally(hist[..m], id).resets == Tally(hist[..n], id).resets
      <==> forall k | m <= k < n :: !Did(hist[k], Reset(id))
  {
    hide Tally, Did;
    if m < n {
      ResetsAddUp(hist, m, n - 1, id);
      TallyStep(hist, n - 1, id);
    }
  }

  // In a legal history, of a row that is running: attempts = 1 + resets.
  lemma RunningAttempts(hist: seq<Event>, n: nat, id: int)
    requires AllLegal(hist) && n <= |hist|
    requires id in Replay(hist[..n]) && Replay(hist[..n])[id].status == Running
    ensures AttemptAt(hist, n, id) == 1 + Tally(hist[..n], id).resets
  {
    PrefixIsLegal(hist, n);
    HistoryBalances(hist[..n], id);
  }

  lemma {:induction false} EventIsLegal(hist: seq<Event>, n: nat)
    requires AllLegal(hist) && n < |hist|
    ensures Legal(Replay(hist[..n]), hist[n]) && Replay(hist[..n + 1]) == Apply(Replay(hist[..n]), hist[n])
  {
    PrefixIsLegal(hist, n + 1);
    assert hist[..n + 1][..n] == hist[..n];
  }

  // The attempt a start has begun is the one a later completion ends exactly when the row was not reset in between.
  lemma CompletesItsAttemptIff(hist: seq<Event>, i: nat, j: nat, id: int)
    requires AllLegal(hist) && i < j < |hist|
    requires Did(hist[i], Start(id)) && DidComplete(hist[j], id)
    ensures AttemptAt(hist, j, id) == AttemptAt(hist, i + 1, id)
      <==> forall k | i < k < j :: !Did(hist[k], Reset(id))
  {
    EventIsLegal(hist, i);
    EventIsLegal(hist, j);
    RunningAttempts(hist, i + 1, id);
    RunningAttempts(hist, j, id);
    ResetsAddUp(hist, i + 1, j, id);
  }

  // The client whose start began the attempt under way
  function Owner(hist: seq<Event>, id: int): Option<nat> {
    if hist == [] then None
    else if Did(hist[|hist| - 1], Start(id)) then Some(hist[|hist| - 1].client)
    else Owner(hist[..|hist| - 1], id)
  }

  lemma {:induction false} OwnerStays(hist: seq<Event>, m: nat, n: nat, id: int)
    requires m <= n <= |hist| && AttemptAt(hist, m, id) == AttemptAt(hist, n, id)
    ensures Owner(hist[..n], id) == Owner(hist[..m], id)
  {
    if m < n {
      ResetsAddUp(hist, m, n - 1, id);
      TallyStep(hist, n - 1, id);
      OwnerStays(hist, m, n - 1, id);
      assert hist[..n][..n - 1] == hist[..n - 1];
    }
  }

  // Under every interleaving: a client that started a row and later completes it ends the attempt it started exactly
  // when no reset came in between, and then it owns the attempt; after a reset it ends a later one.
  lemma RunnerCompletesItsAttemptIff(actions: seq<Action>, i: nat, j: nat, id: int)
    requires var hist := RunAll(INITIAL, actions).hist;
      i < j < |hist| && Did(hist[i], Start(id)) && DidComplete(hist[j], id) && hist[j].client == hist[i].client
    ensures var hist := RunAll(INITIAL, actions).hist;
      && (AttemptAt(hist, j, id) == AttemptAt(hist, i + 1, id) <==> forall k | i < k < j :: !Did(hist[k], Reset(id)))
      && AttemptAt(hist, i + 1, id) <= AttemptAt(hist, j, id)
      && ((forall k | i < k < j :: !Did(hist[k], Reset(id))) ==> Owner(hist[..j], id) == Some(hist[j].client))
  {
    EveryInterleavingIsExplained(actions);
    var hist := RunAll(INITIAL, actions).hist;
    hide RunAll, Tally, Replay, AllLegal;
    CompletesItsAttemptIff(hist, i, j, id);
    ResetsAddUp(hist, i + 1, j, id);
    if AttemptAt(hist, j, id) == AttemptAt(hist, i + 1, id) {
      OwnerStays(hist, i + 1, j, id);
      assert hist[..i + 1][..i] == hist[..i];
    }
  }

  // Client 0 starts row 1; client 1 sweeps it ...
  lemma StartedSwept() returns (actions: seq<Action>)
    ensures var s := RunAll(INITIAL, actions);
      && (forall c | c in s.pcs :: s.pcs[c] == Idle)
      && 1 in s.rows && s.rows[1].status == Failed && s.rows[1].deletedAt.None?
      && |s.hist| == 3 && s.hist[0].Inserted? && s.hist[1] == Returned(0, Start(1), "t1", OK)
      && s.hist[2] == Returned(1, Fail(1, Some("stale running")), "t2", OK)
  {
    var insert := [Insert(1, 1, 1, 0, "t0")];
    var s0 := RunAll(INITIAL, insert);
    assert insert[..0] == [] && s0 == Step(INITIAL, insert[0]);
    hide RunAll, Step;
    var s1, a1 := Took(INITIAL, insert, 0, Start(1), "t1");
    assert s1.rows[1].status == Running && s1.rows[1].deletedAt.None?;
    var s2, a2 := Took(INITIAL, a1, 1, Fail(1, Some("stale running")), "t2");
    actions := a2;
  }

  // ... and resets it.
  lemma StartedSweptReset() returns (actions: seq<Action>)
    ensures var s := RunAll(INITIAL, actions);
      && (forall c | c in s.pcs :: s.pcs[c] == Idle)
      && 1 in s.rows && s.rows[1].status == Pending
      && |s.hist| == 4 && s.hist[0].Inserted? && s.hist[1] == Returned(0, Start(1), "t1", OK)
      && s.hist[2] == Returned(1, Fail(1, Some("stale running")), "t2", OK)
      && s.hist[3] == Returned(1, Reset(1), "t3", OK)
  {
    hide RunAll, Step;
    var a2 := StartedSwept();
    var s3, a3 := Took(INITIAL, a2, 1, Reset(1), "t3");
    actions := a3;
  }

  // Such a run exists: after that client 2 starts the row, and client 0 completes client 2's attempt.
  lemma FirstRunnerCompletesSecondAttempt(answer: string) returns (actions: seq<Action>)
    ensures var s := RunAll(INITIAL, actions);
      && |s.hist| == 6 && 1 in s.rows && s.rows[1].status == Completed && s.rows[1].result == Some(answer)
      && Did(s.hist[1], Start(1)) && s.hist[1].client == 0
      && DidComplete(s.hist[5], 1) && s.hist[5].client == 0
      && AttemptAt(s.hist, 2, 1) == 1 && AttemptAt(s.hist, 5, 1) == 2 && Owner(s.hist[..5], 1) == Some(2)
  {
    hide RunAll, AttemptAt, Owner;
    var a3 := StartedSweptReset();
    var s4, a4 := Took(INITIAL, a3, 2, Start(1), "t4");
    assert s4.rows[1].status == Running && PcOf(s4, 0) == Idle;
    var s5, a5 := Took(INITIAL, a4, 0, Complete(1, Some(answer)), "t5");
    actions := a5;
    HistoryOfSix(s5.hist, answer);
  }

  // One more whole call, legal where it stands
  lemma Took(s: Sys, before: seq<Action>, client: nat, c: Call, now: string) returns (t: Sys, actions: seq<Action>)
    requires var u := RunAll(s, before); PcOf(u, client) == Idle && c.id in u.rows && Allowed(u.rows[c.id], c)
    ensures t == RunAll(s, actions)
    ensures var u := RunAll(s, before);
      && t.rows == u.rows[c.id := Effect(u.rows[c.id], c, now)] && t.pcs == u.pcs[client := Idle]
      && t.hist == u.hist + [Returned(client, c, now, OK)]
  {
    hide RunAll, Turn, Allowed, Effect;
    actions := before + Turn(client, c, now);
    t := RunAll(s, actions);
    RunsCompose(s, before, Turn(client, c, now));
    AloneIsAtomic(RunAll(s, before), client, c, now);
  }

  lemma HistoryOfSix(hist: seq<Event>, answer: string)
    requires |hist| == 6 && hist[0].Inserted?
    requires hist[1] == Returned(0, Start(1), "t1", OK)
    requires hist[2] == Returned(1, Fail(1, Some("stale running")), "t2", OK)
    requires hist[3] == Returned(1, Reset(1), "t3", OK)
    requires hist[4] == Returned(2, Start(1), "t4", OK)
    ensures AttemptAt(hist, 2, 1) == 1 && AttemptAt(hist, 5, 1) == 2 && Owner(hist[..5], 1) == Some(2)
  {
    assert hist[..0] == [];
    TallyStep(hist, 0, 1);
    TallyStep(hist, 1, 1);
    TallyStep(hist, 2, 1);
    TallyStep(hist, 3, 1);
    TallyStep(hist, 4, 1);
  }
}
