/**
 The pages that the queries of Query give, and the paging loop of `context list --stream`
 (acta_cli/src/commands/context.c)
 */
module Pages {
  import opened Db
  import opened Sql
  import opened Query
  import C = Contexts
  import E = Executions

  // The ids of a table in order
  ghost predicate IsIndex<T>(ids: seq<int>, rows: map<int, T>) {
    Increasing(ids) && (forall k | 0 <= k < |ids| :: ids[k] in rows) && (forall id | id in rows :: id in ids)
  }

  predicate Increasing(ids: seq<int>) { forall j, k | 0 <= j < k < |ids| :: ids[j] < ids[k] }

  lemma {:induction false} KeepHolds(ids: seq<int>, hits: set<int>)
    ensures forall id :: id in Keep(ids, hits) <==> id in ids && id in hits
  {
    if ids != [] {
      KeepHolds(ids[1..], hits);
      assert ids == [ids[0]] + ids[1..];
    }
  }

  // The first of an increasing sequence is less than the others.
  lemma FirstIsLeast(ids: seq<int>)
    requires Increasing(ids) && ids != []
    ensures Increasing(ids[1..]) && forall id | id in ids[1..] :: ids[0] < id
  {
    forall id | id in ids[1..] ensures ids[0] < id {
      var k :| 0 <= k < |ids[1..]| && ids[1..][k] == id;
      assert ids[k + 1] == id;
    }
  }

  lemma Prepended(x: int, ids: seq<int>)
    requires Increasing(ids) && forall id | id in ids :: x < id
    ensures Increasing([x] + ids)
  {
    assert forall k | 0 <= k < |ids| :: ids[k] in ids;
  }

  lemma {:induction false} KeepIsSorted(ids: seq<int>, hits: set<int>)
    requires Increasing(ids)
    ensures Increasing(Keep(ids, hits)) && forall id :: id in Keep(ids, hits) <==> id in ids && id in hits
  {
    hide Increasing;
    KeepHolds(ids, hits);
    if ids != [] {
      FirstIsLeast(ids);
      KeepIsSorted(ids[1..], hits);
      if ids[0] in hits {
        Prepended(ids[0], Keep(ids[1..], hits));
      } else {
        assert [] + Keep(ids[1..], hits) == Keep(ids[1..], hits);
      }
    } else {
      NoneIsIncreasing();
    }
  }

  lemma NoneIsIncreasing()
    ensures Increasing([])
  {
  }

  // ----- executions -----

  // The rows the SQL text selects, and the rows the struct asks for
  function ExecHits(rows: E.Rows, q: ExecutionQuery): set<int> {
    var cs := ParseWhere(WhereText(ExecClauses(q)));
    set id | id in rows && cs.Some? && Selected(cs.value, ExecBinds(q), ExecFields(rows[id]))
  }

  function ExecWanted(rows: E.Rows, q: ExecutionQuery): set<int> { set id | id in rows && ExecMatches(q, rows[id]) }

  lemma ExecHitsAreWanted(rows: E.Rows, q: ExecutionQuery)
    ensures ExecHits(rows, q) == ExecWanted(rows, q)
  {
    hide ExecMatches, ParseWhere, Selected;
    forall id | id in rows ensures id in ExecHits(rows, q) <==> id in ExecWanted(rows, q) {
      ExecTextSelects(q, rows[id]);
    }
  }

  // execution_query_impl: WHERE, ORDER BY id, LIMIT, OFFSET
  method ExecutionPage(ids: seq<int>, rows: E.Rows, q: ExecutionQuery, offset: nat, limit: int)
    returns (page: seq<int>)
    requires IsIndex(ids, rows)
    ensures page == Cut(Keep(ids, ExecWanted(rows, q)), offset, ClampLimit(limit))
  {
    ExecHitsAreWanted(rows, q);
    page := Cut(Keep(ids, ExecHits(rows, q)), offset, ClampLimit(limit));
  }

  lemma CutPrefix(s: seq<int>, limit: nat)
    ensures var page := Cut(s, 0, limit);
      |page| <= |s| && page == s[..|page|] && |page| <= limit && (|page| < |s| ==> |page| == limit)
  {
  }

  // The first part of an increasing sequence: what is left out is greater.
  lemma PrefixIsLess(s: seq<int>, n: nat)
    requires Increasing(s) && n <= |s|
    ensures Increasing(s[..n])
    ensures forall id | id in s && id !in s[..n] :: n < |s| && forall k | 0 <= k < n :: s[..n][k] < id
  {
    forall id | id in s ensures id in s[..n] || (n < |s| && forall k | 0 <= k < n :: s[..n][k] < id) {
      var m :| 0 <= m < |s| && s[m] == id;
      if m < n {
        assert s[..n][m] == id;
      }
    }
  }

  // What a first page is: rows that match, in id order, as many as fit; those left out come later.
  lemma FirstPageHolds(ids: seq<int>, rows: E.Rows, q: ExecutionQuery, limit: int)
    requires IsIndex(ids, rows)
    ensures var page := Cut(Keep(ids, ExecWanted(rows, q)), 0, ClampLimit(limit));
      && |page| <= ClampLimit(limit) && Increasing(page)
      && (forall id | id in page :: id in rows && ExecMatches(q, rows[id]))
      && (forall id | id in rows && ExecMatches(q, rows[id]) && id !in page ::
            |page| == ClampLimit(limit) && forall k | 0 <= k < |page| :: page[k] < id)
  {
    var wanted := ExecWanted(rows, q);
    var all := Keep(ids, wanted);
    KeepIsSorted(ids, wanted);
    CutPrefix(all, ClampLimit(limit));
    hide ExecMatches, Keep, Cut, ClampLimit, Increasing;
    var page := Cut(all, 0, ClampLimit(limit));
    PrefixIsLess(all, |page|);
    forall id | id in page ensures id in all {
      var k :| 0 <= k < |page| && page[k] == id;
      assert all[k] == id;
    }
  }

  // ----- contexts -----

  function CtxHits(rows: C.Rows, q: ContextQuery, liveOnly: bool): set<int> {
    var cs := ParseWhere(WhereText(CtxClauses(q, liveOnly)));
    set id | id in rows && cs.Some? && Selected(cs.value, CtxBinds(q), CtxFields(rows[id]))
  }

  function CtxWanted(rows: C.Rows, q: ContextQuery, liveOnly: bool): set<int> {
    set id | id in rows && CtxMatches(q, liveOnly, rows[id])
  }

  // What the caller is after: the ids of the rows that match, in order
  function Matching(ids: seq<int>, rows: C.Rows, q: ContextQuery, liveOnly: bool): seq<int> {
    Keep(ids, CtxWanted(rows, q, liveOnly))
  }

  lemma HitsAreWanted(rows: C.Rows, q: ContextQuery, liveOnly: bool)
    ensures CtxHits(rows, q, liveOnly) == CtxWanted(rows, q, liveOnly)
  {
    hide CtxMatches, ParseWhere, Selected;
    forall id | id in rows ensures id in CtxHits(rows, q, liveOnly) <==> id in CtxWanted(rows, q, liveOnly) {
      CtxTextSelects(q, liveOnly, rows[id]);
    }
  }

  // One page: WHERE, ORDER BY id, LIMIT, OFFSET
  method ContextPage(ids: seq<int>, rows: C.Rows, q: ContextQuery, liveOnly: bool, offset: nat, limit: int)
    returns (page: seq<int>)
    requires IsIndex(ids, rows)
    ensures page == Cut(Matching(ids, rows, q, liveOnly), offset, ClampLimit(limit))
  {
    HitsAreWanted(rows, q, liveOnly);
    page := Cut(Keep(ids, CtxHits(rows, q, liveOnly)), offset, ClampLimit(limit));
  }

  // The contexts table as one page finds it
  datatype Table = Table(ids: seq<int>, rows: C.Rows)

  function Found(t: Table, q: ContextQuery, liveOnly: bool): seq<int> { Matching(t.ids, t.rows, q, liveOnly) }

  // From page to page the matching rows only gain further rows at the end.
  predicate Growing(tables: seq<Table>, q: ContextQuery, liveOnly: bool) {
    forall k | 0 <= k < |tables| - 1 :: Found(tables[k], q, liveOnly) <= Found(tables[k + 1], q, liveOnly)
  }

  // The matching rows that each page finds
  function Founds(tables: seq<Table>, q: ContextQuery, liveOnly: bool): (fs: seq<seq<int>>)
    ensures |fs| == |tables| && forall k | 0 <= k < |tables| :: fs[k] == Found(tables[k], q, liveOnly)
  {
    seq(|tables|, k requires 0 <= k < |tables| => Found(tables[k], q, liveOnly))
  }

  // Pages after the last of these find what it found.
  function Later(fs: seq<seq<int>>): seq<seq<int>>
    requires fs != []
  {
    if |fs| > 1 then fs[1..] else fs
  }

  // What page after page emits, each from where the one before ended, until a page is empty
  function Emit(fs: seq<seq<int>>, offset: nat): seq<int>
    requires fs != []
    decreases |fs|, |fs[0]| - offset
  {
    var page := Cut(fs[0], offset, MAX_PAGE);
    if page == [] then [] else page + Emit(Later(fs), offset + |page|)
  }

  lemma {:induction false} EmitOne(fs: seq<seq<int>>, offset: nat, out: seq<int>, page: seq<int>)
    requires fs != [] && page == Cut(fs[0], offset, MAX_PAGE)
    ensures page == [] ==> Emit(fs, offset) == [] && out + Emit(fs, offset) == out + page
    ensures page != [] ==> out + Emit(fs, offset) == out + page + Emit(Later(fs), offset + |page|)
  {
    hide Cut, Later;
  }

  lemma GrowsFrom(tables: seq<Table>, q: ContextQuery, liveOnly: bool, last: nat, now: nat)
    requires Growing(tables, q, liveOnly) && last <= now <= last + 1 && now < |tables|
    ensures Found(tables[last], q, liveOnly) <= Found(tables[now], q, liveOnly)
  {
    hide Found;
  }

  // What a caller of --stream asks for: everything from offset when limit is 0, else the first `limit`
  function Asked(s: seq<int>, offset: nat, limit: nat): seq<int> {
    Cut(s, offset, if limit == 0 then |s| else limit)
  }

  lemma CutMore(s: seq<int>, t: seq<int>, offset: nat, done: nat, more: nat)
    requires s <= t && |Cut(s, offset, done)| == done
    ensures var sum := Cut(s, offset, done) + Cut(t, offset + done, more); sum == Cut(t, offset, |sum|)
    ensures more > 0 && Cut(t, offset + done, more) == [] ==> Cut(s, offset, done) == Asked(t, offset, 0)
  {
  }

  // The loop of `context list --stream`.  tables[k] is what page k finds, the last one what all later pages find.  With
  // a limit there is one page; without one, pages until one is empty.  If the matching rows only grow, these are the
  // rows found by the last page.
  method Stream(tables: seq<Table>, q: ContextQuery, liveOnly: bool, offset: nat, limit: nat)
    returns (out: seq<int>, ghost last: nat)
    requires tables != [] && forall k | 0 <= k < |tables| :: IsIndex(tables[k].ids, tables[k].rows)
    ensures last < |tables|
    ensures limit > 0 ==>
      out == Cut(Found(tables[0], q, liveOnly), offset, if limit <= MAX_PAGE then limit else MAX_PAGE)
    ensures limit == 0 ==> out == Emit(Founds(tables, q, liveOnly), offset)
    ensures limit == 0 && Growing(tables, q, liveOnly) ==> out == Asked(Found(tables[last], q, liveOnly), offset, 0)
  {
    hide Matching, Cut, IsIndex, Founds, Growing, Emit;
    out := [];
    ghost var all, fs := Founds(tables, q, liveOnly), Founds(tables, q, liveOnly);
    var emitted, page := 0, 0;
    last := 0;
    EmptyCut(Found(tables[0], q, liveOnly), offset);
    while true
      invariant last <= page && last < |tables| && emitted == |out|
      invariant limit > 0 ==> page == 0 && emitted == 0 && last == 0 && out == []
      invariant page < |tables| ==> last == if page == 0 then 0 else page - 1
      invariant page >= |tables| ==> last == |tables| - 1
      invariant fs == if page < |tables| then all[page..] else all[|tables| - 1..]
      invariant limit == 0 ==> Emit(all, offset) == out + Emit(fs, offset + emitted)
      invariant limit == 0 && Growing(tables, q, liveOnly) ==>
        out == Cut(Found(tables[last], q, liveOnly), offset, emitted)
      decreases if page < |tables| then |tables| - page else 0,
                |Found(tables[|tables| - 1], q, liveOnly)| - emitted
    {
      var want := if limit > 0 then limit - emitted else 0;
      var now := if page < |tables| then page else |tables| - 1;
      var t := tables[now];
      var items := ContextPage(t.ids, t.rows, q, liveOnly, offset + emitted, want);
      if limit == 0 && Growing(tables, q, liveOnly) {
        GrowsFrom(tables, q, liveOnly, last, now);
        CutMore(Found(tables[last], q, liveOnly), Found(t, q, liveOnly), offset, emitted, MAX_PAGE);
      }
      if limit == 0 {
        EmitOne(fs, offset + emitted, out, items);
      }
      out := out + items;
      emitted := emitted + |items|;
      last := now;
      if (limit > 0 && emitted >= limit) || |items| == 0 || |items| < want {
        break;
      }
      page := page + 1;
      fs := Later(fs);
    }
  }

  lemma EmptyCut(s: seq<int>, offset: nat)
    ensures Cut(s, offset, 0) == []
  {
  }

  lemma {:induction false} SortedPrefix(ids: seq<int>, more: seq<int>, k: nat)
    requires Increasing(ids) && Increasing(more) && k <= |ids|
    requires forall id | id in ids :: id in more
    requires forall id, i | id in more && id !in ids && 0 <= i < |ids| :: ids[i] < id
    ensures k <= |more| && more[..k] == ids[..k]
  {
    if k > 0 {
      SortedPrefix(ids, more, k - 1);
      forall j | 0 <= j < k - 1 ensures more[j] == ids[j] {
        assert more[..k - 1][j] == ids[..k - 1][j];
      }
      assert ids[k - 1] in more;
      var m :| 0 <= m < |more| && more[m] == ids[k - 1];
      if more[k - 1] in ids {
        var n :| 0 <= n < |ids| && ids[n] == more[k - 1];
      }
    }
  }

  lemma {:induction false} KeepSplit(a: seq<int>, b: seq<int>, hits: set<int>)
    ensures Keep(a + b, hits) == Keep(a, hits) + Keep(b, hits)
  {
    if a == [] {
      assert a + b == b;
    } else {
      assert (a + b)[1..] == a[1..] + b;
      KeepSplit(a[1..], b, hits);
    }
  }

  lemma {:induction false} KeepAgrees(ids: seq<int>, hits: set<int>, hits': set<int>)
    requires forall id | id in ids :: (id in hits <==> id in hits')
    ensures Keep(ids, hits) == Keep(ids, hits')
  {
    if ids != [] {
      var first := ids[0];
      assert first in ids && (first in hits <==> first in hits');
      KeepAgrees(ids[1..], hits, hits');
    }
  }

  // With --include_deleted the matching rows only grow: contexts keep type and hash, and new ids come last.
  lemma IncludedDeletedGrows(t: Table, t': Table, q: ContextQuery)
    requires IsIndex(t.ids, t.rows) && IsIndex(t'.ids, t'.rows) && C.SameText(t.rows, t'.rows)
    requires forall id, i | id in t'.rows && id !in t.rows && i in t.rows :: i < id
    ensures Found(t, q, false) <= Found(t', q, false)
  {
    var n := |t.ids|;
    var hits, hits' := CtxWanted(t.rows, q, false), CtxWanted(t'.rows, q, false);
    SameHits(t, t', q);
    NewIdsLast(t, t');
    hide IsIndex, CtxWanted, Keep;
    var more := t'.ids[n..];
    assert t'.ids == t.ids + more;
    KeepSplit(t.ids, more, hits');
    KeepAgrees(t.ids, hits, hits');
    assert Found(t', q, false) == Found(t, q, false) + Keep(more, hits');
  }

  lemma SameHits(t: Table, t': Table, q: ContextQuery)
    requires IsIndex(t.ids, t.rows) && C.SameText(t.rows, t'.rows)
    ensures forall id | id in t.ids :: id in CtxWanted(t.rows, q, false) <==> id in CtxWanted(t'.rows, q, false)
  {
  }

  lemma NewIdsLast(t: Table, t': Table)
    requires IsIndex(t.ids, t.rows) && IsIndex(t'.ids, t'.rows) && C.SameText(t.rows, t'.rows)
    requires forall id, i | id in t'.rows && id !in t.rows && i in t.rows :: i < id
    ensures |t.ids| <= |t'.ids| && t'.ids[..|t.ids|] == t.ids
  {
    SortedPrefix(t.ids, t'.ids, |t.ids|);
    assert t.ids[..|t.ids|] == t.ids;
  }

  // ----- --stream over rows that go and come back -----

  // `pages` times s, then t
  function Change<T>(s: T, pages: nat, t: T): (fs: seq<T>)
    ensures |fs| == pages + 1 && fs[pages] == t && forall j | 0 <= j < pages :: fs[j] == s
  {
    if pages == 0 then [t] else [s] + Change(s, pages - 1, t)
  }

  lemma CutSplit(s: seq<int>, offset: nat, a: nat, b: nat)
    ensures Cut(s, offset, a) + Cut(s, offset + a, b) == Cut(s, offset, a + b)
  {
  }

  lemma CutAll(s: seq<int>, offset: nat, a: nat, b: nat)
    requires |s| <= offset + a && |s| <= offset + b
    ensures Cut(s, offset, a) == Cut(s, offset, b)
  {
  }

  lemma CutPage(s: seq<int>, offset: nat)
    ensures var page := Cut(s, offset, MAX_PAGE);
      && (page == [] <==> offset >= |s|) && page == Cut(s, offset, |page|)
      && |page| == if offset >= |s| then 0 else if offset + MAX_PAGE >= |s| then |s| - offset else MAX_PAGE
  {
  }

  // Nothing changes: all from offset comes out.
  lemma {:induction false} SteadyEmits(t: seq<int>, offset: nat)
    ensures Emit([t], offset) == Cut(t, offset, |t|)
    decreases |t| - offset
  {
    hide Cut;
    CutPage(t, offset);
    var n := |Cut(t, offset, MAX_PAGE)|;
    CutSplit(t, offset, n, |t|);
    CutAll(t, offset, n + |t|, |t|);
    if n > 0 {
      SteadyEmits(t, offset + n);
    } else {
      CutAll(t, offset, MAX_PAGE, |t|);
    }
  }

  // The position of the page that first finds the change, and whether it is read at all
  function NextPage(s: seq<int>, offset: nat, pages: nat): nat {
    if offset + pages * MAX_PAGE <= |s| || |s| < offset then offset + pages * MAX_PAGE else |s|
  }

  predicate StillReading(s: seq<int>, offset: nat, pages: nat) { pages == 0 || offset + (pages - 1) * MAX_PAGE < |s| }

  // What the pages from there on emit
  function Rest(s: seq<int>, offset: nat, pages: nat, t: seq<int>): seq<int> {
    if StillReading(s, offset, pages) then Cut(t, NextPage(s, offset, pages), |t|) else []
  }

  lemma RestOn(s: seq<int>, offset: nat, pages: nat, t: seq<int>, n: nat)
    requires pages > 0 && offset < |s|
    requires n == if offset + MAX_PAGE >= |s| then |s| - offset else MAX_PAGE
    ensures Rest(s, offset + n, pages - 1, t) == Rest(s, offset, pages, t)
  {
    hide Cut;
  }

  // One page and those after it, up to the change
  lemma CutPages(s: seq<int>, offset: nat, pages: nat)
    requires pages > 0
    ensures var page := Cut(s, offset, MAX_PAGE);
      page + Cut(s, offset + |page|, (pages - 1) * MAX_PAGE) == Cut(s, offset, pages * MAX_PAGE)
  {
    hide Cut;
    CutPage(s, offset);
    var n := |Cut(s, offset, MAX_PAGE)|;
    CutSplit(s, offset, n, (pages - 1) * MAX_PAGE);
    if n < MAX_PAGE {
      CutAll(s, offset, n + (pages - 1) * MAX_PAGE, pages * MAX_PAGE);
    }
  }

  lemma {:induction false} FirstPageOfChange(s: seq<int>, offset: nat, pages: nat, t: seq<int>)
    requires pages > 0
    ensures var page := Cut(s, offset, MAX_PAGE);
      Emit(Change(s, pages, t), offset)
      == if page == [] then [] else page + Emit(Change(s, pages - 1, t), offset + |page|)
  {
    hide Cut;
    assert Later(Change(s, pages, t)) == Change(s, pages - 1, t);
  }

  lemma {:induction false} ChangeAtOnce(s: seq<int>, offset: nat, t: seq<int>)
    ensures Emit(Change(s, 0, t), offset) == Cut(s, offset, 0) + Rest(s, offset, 0, t)
  {
    hide Cut, Emit;
    SteadyEmits(t, offset);
    EmptyCut(s, offset);
  }

  lemma NothingToRead(s: seq<int>, offset: nat, pages: nat, t: seq<int>)
    requires pages > 0 && offset >= |s|
    ensures Cut(s, offset, pages * MAX_PAGE) + Rest(s, offset, pages, t) == []
  {
    hide NextPage;
  }

  // What the loop emits around a change: what lay before that position, then what lies behind it
  lemma {:induction false} ChangeEmits(s: seq<int>, offset: nat, pages: nat, t: seq<int>)
    ensures Emit(Change(s, pages, t), offset) == Cut(s, offset, pages * MAX_PAGE) + Rest(s, offset, pages, t)
    decreases pages
  {
    hide Cut, Emit, Change, Rest;
    if pages == 0 {
      ChangeAtOnce(s, offset, t);
    } else {
      FirstPageOfChange(s, offset, pages, t);
      CutPage(s, offset);
      if offset >= |s| {
        NothingToRead(s, offset, pages, t);
      } else {
        var page := Cut(s, offset, MAX_PAGE);
        RestOn(s, offset, pages, t, |page|);
        ChangeEmits(s, offset + |page|, pages - 1, t);
        CutPages(s, offset, pages);
        assert page + (Cut(s, offset + |page|, (pages - 1) * MAX_PAGE) + Rest(s, offset, pages, t))
            == Cut(s, offset, pages * MAX_PAGE) + Rest(s, offset, pages, t);
      }
    }
  }

  function Without(s: seq<int>, k: nat): seq<int>
    requires k < |s|
  {
    s[..k] + s[k + 1..]
  }

  // Reading n rows from offset, and the rest when row k is gone
  function Around(s: seq<int>, offset: nat, n: nat, k: nat): seq<int>
    requires k < |s|
  {
    Cut(s, offset, n) + Cut(Without(s, k), offset + n, |s|)
  }

  lemma EmitIsAround(s: seq<int>, offset: nat, pages: nat, k: nat)
    requires k < |s|
    ensures Emit(Change(s, pages, Without(s, k)), offset) == Around(s, offset, pages * MAX_PAGE, k)
  {
    hide Emit, Change;
    ChangeEmits(s, offset, pages, Without(s, k));
    CutsEnd(s, offset, pages, k);
  }

  lemma CutsEnd(s: seq<int>, offset: nat, pages: nat, k: nat)
    requires k < |s|
    ensures Rest(s, offset, pages, Without(s, k)) == Cut(Without(s, k), offset + pages * MAX_PAGE, |s|)
  {
  }

  lemma FirstIsMissed(s: seq<int>, offset: nat, n: nat, k: nat)
    requires Increasing(s) && k < offset + n < |s|
    ensures s[offset + n] !in Around(s, offset, n, k)
  {
    var pages := Around(s, offset, n, k);
    forall i | 0 <= i < |pages| ensures pages[i] != s[offset + n] {
      assert pages[i] == if i < n then s[offset + i] else s[offset + n + 1 + (i - n)];
    }
  }

  lemma FromThere(s: seq<int>, offset: nat, limit: nat, i: nat)
    requires offset <= i < |s| <= limit
    ensures s[i] in Cut(s, offset, limit)
  {
    assert Cut(s, offset, limit)[i - offset] == s[i];
  }

  lemma IsEmitted(s: seq<int>, offset: nat, n: nat, k: nat, m: nat)
    requires k < |s| && offset <= m < |s| && m != k && (offset + n <= k || offset + n >= |s|)
    ensures s[m] in Around(s, offset, n, k)
  {
    var first, without := Cut(s, offset, n), Without(s, k);
    if m < offset + n {
      assert first[m - offset] == s[m] && s[m] in first;
    } else {
      var i := if m < k then m else m - 1;
      assert without[i] == s[m];
      hide Cut, Without;
      FromThere(without, offset + n, |s|, i);
    }
  }

  // The rows asked for come out, id aside.
  predicate NoneMissing(s: seq<int>, offset: nat, id: int, out: seq<int>) {
    forall m | offset <= m < |s| && s[m] != id :: s[m] in out
  }

  lemma AroundMissesIff(s: seq<int>, offset: nat, n: nat, k: nat)
    requires Increasing(s) && k < |s|
    ensures NoneMissing(s, offset, s[k], Around(s, offset, n, k)) <==> offset + n <= k || offset + n >= |s|
  {
    hide Around;
    if k < offset + n < |s| {
      FirstIsMissed(s, offset, n, k);
    } else {
      forall m | offset <= m < |s| && s[m] != s[k] ensures s[m] in Around(s, offset, n, k) {
        IsEmitted(s, offset, n, k, m);
      }
    }
  }

  // The table with one row's deletion mark set or cleared
  function Marked(t: Table, id: int, deleted: bool): Table
    requires id in t.rows
  {
    t.(rows := t.rows[id := t.rows[id].(deleted := deleted)])
  }

  lemma KeepStep(ids: seq<int>, hits: set<int>)
    requires ids != []
    ensures Keep(ids, hits) == if ids[0] in hits then [ids[0]] + Keep(ids[1..], hits) else Keep(ids[1..], hits)
  {
    assert [] + Keep(ids[1..], hits) == Keep(ids[1..], hits);
  }

  lemma WithoutStep(x: int, s: seq<int>, k: nat)
    requires k <= |s|
    ensures Without([x] + s, k) == if k == 0 then s else [x] + Without(s, k - 1)
  {
  }

  lemma KeepWithoutFirst(ids: seq<int>, hits: set<int>)
    requires Increasing(ids) && ids != [] && ids[0] in hits
    ensures Keep(ids, hits - {ids[0]}) == Keep(ids[1..], hits)
  {
    FirstIsLeast(ids);
    KeepStep(ids, hits - {ids[0]});
    hide Keep;
    KeepAgrees(ids[1..], hits, hits - {ids[0]});
  }

  lemma LaterIsOther(ids: seq<int>, id: int)
    requires Increasing(ids) && ids != [] && id in ids[1..]
    ensures ids[0] != id && Increasing(ids[1..])
  {
    FirstIsLeast(ids);
  }

  lemma {:induction false} KeepWithout(ids: seq<int>, hits: set<int>, k: nat)
    requires Increasing(ids) && k < |Keep(ids, hits)|
    ensures Keep(ids, hits - {Keep(ids, hits)[k]}) == Without(Keep(ids, hits), k)
  {
    KeepStep(ids, hits);
    var gone, first, tail := Keep(ids, hits)[k], ids[0], ids[1..];
    var rest := Keep(tail, hits);
    hide Keep, Without, Increasing;
    if first in hits {
      WithoutStep(first, rest, k);
    }
    if first in hits && k == 0 {
      KeepWithoutFirst(ids, hits);
    } else {
      var n := if first in hits then k - 1 else k;
      assert gone == rest[n] && rest[n] in rest;
      LaterIsOther(ids, gone);
      KeepStep(ids, hits - {gone});
      KeepWithout(tail, hits, n);
    }
  }

  // Deleting a row takes it out of what a live-only query finds, and nothing else.
  lemma FoundWithout(t: Table, q: ContextQuery, id: int) returns (k: nat)
    requires IsIndex(t.ids, t.rows) && id in Found(t, q, true)
    ensures Increasing(Found(t, q, true)) && k < |Found(t, q, true)| && Found(t, q, true)[k] == id
    ensures id in t.rows && Found(Marked(t, id, true), q, true) == Without(Found(t, q, true), k)
  {
    var s := Found(t, q, true);
    var hits := CtxWanted(t.rows, q, true);
    KeepIsSorted(t.ids, hits);
    k :| 0 <= k < |s| && s[k] == id;
    KeepWithout(t.ids, hits, k);
    assert CtxWanted(Marked(t, id, true).rows, q, true) == hits - {id};
  }

  lemma {:induction false} FoundsOfChange(t: Table, pages: nat, u: Table, q: ContextQuery, liveOnly: bool)
    ensures Founds(Change(t, pages, u), q, liveOnly) == Change(Found(t, q, liveOnly), pages, Found(u, q, liveOnly))
  {
    hide Found, Change;
    var fs, gs := Founds(Change(t, pages, u), q, liveOnly), Change(Found(t, q, liveOnly), pages, Found(u, q, liveOnly));
    assert forall j | 0 <= j <= pages :: fs[j] == gs[j];
  }

  // A row is deleted when `pages` full pages have been emitted: of the other rows asked for none is missing from what
  // --stream emits exactly when the deleted row lay at or behind the next page, or nothing was left to emit.
  lemma DeletionSkipsIff(t: Table, q: ContextQuery, id: int, offset: nat, pages: nat)
    requires IsIndex(t.ids, t.rows) && id in t.rows && id in Found(t, q, true)
    ensures var s, next := Found(t, q, true), offset + pages * MAX_PAGE;
      var out := Emit(Founds(Change(t, pages, Marked(t, id, true)), q, true), offset);
      NoneMissing(s, offset, id, out) <==> next >= |s| || id in s[next..]
  {
    var s, next := Found(t, q, true), offset + pages * MAX_PAGE;
    var k := FoundWithout(t, q, id);
    hide Found, Emit, Founds, Change, Around, Without, Marked, IsIndex, Increasing, NoneMissing;
    FoundsOfChange(t, pages, Marked(t, id, true), q, true);
    EmitIsAround(s, offset, pages, k);
    AroundMissesIff(s, offset, pages * MAX_PAGE, k);
    PositionFrom(s, k, next);
  }

  lemma PositionFrom(s: seq<int>, k: nat, next: nat)
    requires Increasing(s) && k < |s|
    ensures next < |s| ==> (s[k] in s[next..] <==> next <= k)
  {
    if next <= k {
      assert s[next..][k - next] == s[k];
    }
  }

  // Contexts 1 to n, all live
  function Numbered(n: nat): (t: Table)
    ensures |t.ids| == n && forall k | 0 <= k < n :: t.ids[k] == k + 1
    ensures forall i :: i in t.rows <==> 1 <= i <= n
    ensures forall i | i in t.rows :: t.rows[i] == C.Context("note", "", "", None, false)
  {
    if n == 0 then Table([], map[])
    else
      var t := Numbered(n - 1);
      Table(t.ids + [n], t.rows[n := C.Context("note", "", "", None, false)])
  }

  const ANY := ContextQuery(None, None)

  lemma {:induction false} KeepAll(ids: seq<int>, hits: set<int>)
    requires forall id | id in ids :: id in hits
    ensures Keep(ids, hits) == ids
  {
    if ids != [] {
      var first := ids[0];
      assert first in ids;
      KeepAll(ids[1..], hits);
    }
  }

  lemma {:induction false} NumberedIsIndex(n: nat)
    ensures IsIndex(Numbered(n).ids, Numbered(n).rows)
  {
    var t := Numbered(n);
    hide Numbered;
    forall i | i in t.rows ensures i in t.ids {
      assert t.ids[i - 1] == i;
    }
  }

  lemma {:induction false} AllFound(n: nat)
    ensures Found(Numbered(n), ANY, true) == Numbered(n).ids
  {
    var t := Numbered(n);
    hide Numbered, Keep;
    KeepAll(t.ids, CtxWanted(t.rows, ANY, true));
  }

  lemma MissedRow(t: Table, q: ContextQuery, id: int, offset: nat, pages: nat) returns (other: int)
    requires IsIndex(t.ids, t.rows) && id in t.rows && id in Found(t, q, true)
    requires var s, next := Found(t, q, true), offset + pages * MAX_PAGE; next < |s| && id !in s[next..]
    ensures other in Found(t, q, true) && other != id
    ensures other !in Emit(Founds(Change(t, pages, Marked(t, id, true)), q, true), offset)
  {
    hide Found, Emit, Founds, Change, Marked, IsIndex;
    DeletionSkipsIff(t, q, id, offset, pages);
    var s, out := Found(t, q, true), Emit(Founds(Change(t, pages, Marked(t, id, true)), q, true), offset);
    var m :| offset <= m < |s| && s[m] != id && s[m] !in out;
    other := s[m];
  }

  // With more than 10000 contexts, deleting the first after a page makes --stream miss another.
  lemma {:induction false} DeletionSkips(n: nat) returns (other: int)
    requires n > MAX_PAGE
    ensures var t := Numbered(n);
      other in t.ids && other != 1 && other !in Emit(Founds(Change(t, 1, Marked(t, 1, true)), ANY, true), 0)
  {
    var t := Numbered(n);
    NumberedIsIndex(n);
    AllFound(n);
    OnlyAhead(t.ids, MAX_PAGE);
    hide Found, Emit, Founds, Change, Numbered, IsIndex;
    other := MissedRow(t, ANY, 1, 0, 1);
  }

  lemma OnlyAhead(s: seq<int>, n: nat)
    requires 0 < n < |s| && forall k | 0 <= k < |s| :: s[k] == k + 1
    ensures 1 in s && 1 !in s[n..]
  {
    assert s[0] == 1;
  }

  predicate Repeats(s: seq<int>) { exists i, j :: 0 <= i < j < |s| && s[i] == s[j] }

  lemma CutRepeatsNothing(s: seq<int>, offset: nat, limit: nat)
    requires Increasing(s)
    ensures !Repeats(Cut(s, offset, limit))
  {
  }

  // u is s with a row more at position k.
  lemma SplicedRepeatsIff(u: seq<int>, k: nat, offset: nat, p: nat)
    requires Increasing(u) && k < |u| && offset < p < |u|
    ensures Repeats(Without(u, k)[offset..p] + u[p..]) <==> Without(u, k)[p - 1] > u[k]
  {
    var s := Without(u, k);
    var out := s[offset..p] + u[p..];
    if k < p {
      assert out[p - offset - 1] == s[p - 1] == u[p] == out[p - offset];
    } else {
      assert s[..p] == u[..p] && out == u[offset..];
      assert out == Cut(u, offset, |u|);
      CutRepeatsNothing(u, offset, |u|);
      assert s[p - 1] == u[p - 1];
    }
  }

  lemma CutsAreSlices(s: seq<int>, offset: nat, pages: nat, u: seq<int>)
    requires pages > 0 && StillReading(s, offset, pages) && |u| == |s| + 1
    ensures var p := NextPage(s, offset, pages);
      && offset < p < |u| && p == (if offset + pages * MAX_PAGE <= |s| then offset + pages * MAX_PAGE else |s|)
      && Cut(s, offset, pages * MAX_PAGE) == s[offset..p] && Rest(s, offset, pages, u) == u[p..]
  {
  }

  lemma ReadOnce(s: seq<int>, offset: nat, pages: nat, u: seq<int>)
    requires Increasing(s) && Increasing(u) && (pages == 0 || !StillReading(s, offset, pages))
    ensures !Repeats(Emit(Change(s, pages, u), offset))
  {
    ChangeEmits(s, offset, pages, u);
    hide Emit, Change, Repeats, Increasing;
    if pages == 0 {
      EmptyCut(s, offset);
      assert [] + Cut(u, offset, |u|) == Cut(u, offset, |u|);
      CutRepeatsNothing(u, offset, |u|);
    } else {
      assert Cut(s, offset, pages * MAX_PAGE) + [] == Cut(s, offset, pages * MAX_PAGE);
      CutRepeatsNothing(s, offset, pages * MAX_PAGE);
    }
  }

  lemma ReadAround(u: seq<int>, k: nat, offset: nat, pages: nat)
    requires Increasing(u) && k < |u| && pages > 0 && StillReading(Without(u, k), offset, pages)
    ensures var s := Without(u, k);
      var p := NextPage(s, offset, pages);
      0 < p <= |s| && (Repeats(Emit(Change(s, pages, u), offset)) <==> s[p - 1] > u[k])
  {
    var s := Without(u, k);
    ChangeEmits(s, offset, pages, u);
    CutsAreSlices(s, offset, pages, u);
    hide Emit, Change, Repeats, Increasing, Without, Cut, Rest;
    SplicedRepeatsIff(u, k, offset, NextPage(s, offset, pages));
  }

  lemma RestoredRepeatsIff(u: seq<int>, k: nat, offset: nat, pages: nat)
    requires Increasing(u) && k < |u| && Increasing(Without(u, k))
    ensures var s, next := Without(u, k), offset + pages * MAX_PAGE;
      Repeats(Emit(Change(s, pages, u), offset))
      <==> pages > 0 && next < |s| + MAX_PAGE && s[if next <= |s| then next - 1 else |s| - 1] > u[k]
  {
    var s := Without(u, k);
    hide Emit, Change, Repeats, Increasing, Without;
    if pages > 0 && StillReading(s, offset, pages) {
      ReadAround(u, k, offset, pages);
    } else {
      ReadOnce(s, offset, pages, u);
    }
  }

  // A deleted row is restored when `pages` pages have been read: a row is emitted twice exactly when the last page was
  // not yet empty and the last row emitted comes after the restored one.
  lemma RestoreRepeatsIff(t: Table, q: ContextQuery, id: int, offset: nat, pages: nat)
    requires IsIndex(t.ids, t.rows) && id in t.rows && t.rows[id].deleted
    requires id in Found(Marked(t, id, false), q, true)
    ensures var s, next := Found(t, q, true), offset + pages * MAX_PAGE;
      Repeats(Emit(Founds(Change(t, pages, Marked(t, id, false)), q, true), offset))
      <==> pages > 0 && next < |s| + MAX_PAGE && s[if next <= |s| then next - 1 else |s| - 1] > id
  {
    var back := Marked(t, id, false);
    assert Marked(back, id, true) == t;
    var k := FoundWithout(back, q, id);
    FoundsOfChange(t, pages, back, q, true);
    KeepIsSorted(t.ids, CtxWanted(t.rows, q, true));
    hide Founds, Emit, Change, Without, Repeats, Increasing, CtxWanted, Keep;
    RestoredRepeatsIff(Found(back, q, true), k, offset, pages);
  }

  // --stream gives what was asked for exactly when the limit is within a page or no more than a page of rows is left.
  lemma StreamMeetsItsLimitIff(s: seq<int>, offset: nat, limit: nat)
    ensures (if limit <= MAX_PAGE then Asked(s, offset, limit) else Cut(s, offset, MAX_PAGE)) == Asked(s, offset, limit)
      <==> limit <= MAX_PAGE || |s| <= offset + MAX_PAGE
  {
  }
}
