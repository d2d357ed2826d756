/** From query struct to SQL text and binds: acta_db/src/execution.c and acta_db/src/context.c */
module Query {
  import opened Db
  import opened Sql
  import C = Contexts
  import E = Executions

  function Opt<T>(present: bool, x: T): seq<T> { if present then [x] else [] }

  lemma OptSelected(present: bool, column: Column, v: Value, rest: seq<Clause>, binds: seq<Value>,
                    field: Column -> Value)
    ensures Selected(Opt(present, Equals(column)) + rest, Opt(present, v) + binds, field)
      <==> (present ==> v != NullValue && field(column) == v) && Selected(rest, binds, field)
    ensures Marks(Opt(present, Equals(column)) + rest) == (if present then 1 else 0) + Marks(rest)
    ensures |Opt(present, v) + binds| == (if present then 1 else 0) + |binds|
  {
    var cs, bs := Opt(present, Equals(column)) + rest, Opt(present, v) + binds;
    if present {
      assert cs[1..] == rest && bs[1..] == binds;
    } else {
      assert cs == rest && bs == binds;
    }
  }

  lemma LiveSelected(live: bool, field: Column -> Value)
    ensures Selected(Opt(live, IsNull(DeletedAt)), [], field) <==> (live ==> field(DeletedAt) == NullValue)
    ensures Marks(Opt(live, IsNull(DeletedAt))) == 0
  {
  }

  lemma JoinedMore(cs: seq<Clause>, c: Clause)
    requires cs != []
    ensures Joined(cs + [c]) == Joined(cs) + " AND " + ClauseText(c)
  {
    assert (cs + [c])[..|cs|] == cs;
  }

  // ----- executions -----

  // 0 in an id field means any.
  datatype ExecutionQuery = ExecutionQuery(
    status: Option<string>, parentId: int, contextId: int, skillRevisionId: int, modelRevisionId: int,
    includeDeleted: bool)

  const EXEC_WHERE_ROOM := 384
  const EXEC_SQL_ROOM := 600
  const EXEC_COUNT_ROOM := 500

  const EXEC_SELECT := "SELECT id, context_id, skill_revision_id, model_revision_id, raw_response, result, status, "
    + "error, created_at, started_at, completed_at, parent_execution_id, deleted_at FROM executions"

  const EXEC_SELECT_LIGHT := "SELECT id, context_id, skill_revision_id, model_revision_id, status, created_at, "
    + "started_at, completed_at, parent_execution_id, deleted_at FROM executions"

  function StatusText(s: E.Status): string {
    match s
    case Pending => "pending"
    case Running => "running"
    case Completed => "completed"
    case Failed => "failed"
    case Cancelled => "cancelled"
  }

  function NullIfZero(i: int): Value { if i == 0 then NullValue else Int(i) }

  function ExecField(r: E.Row, column: Column): Value {
    match column
    case Status => Text(StatusText(r.status))
    case ParentExecutionId => NullIfZero(r.parentId)
    case ContextId => Int(r.contextId)
    case SkillRevisionId => Int(r.skillRevisionId)
    case ModelRevisionId => Int(r.modelRevisionId)
    case DeletedAt => if r.deletedAt.Some? then Text(r.deletedAt.value) else NullValue
    case _ => NullValue   // no such column
  }

  function ExecFields(r: E.Row): Column -> Value { c => ExecField(r, c) }

  // What the struct asks for
  predicate ExecMatches(q: ExecutionQuery, r: E.Row) {
    && (q.status.Some? ==> StatusText(r.status) == q.status.value)
    && (q.parentId != 0 ==> r.parentId == q.parentId)
    && (q.contextId != 0 ==> r.contextId == q.contextId)
    && (q.skillRevisionId != 0 ==> r.skillRevisionId == q.skillRevisionId)
    && (q.modelRevisionId != 0 ==> r.modelRevisionId == q.modelRevisionId)
    && (!q.includeDeleted ==> r.deletedAt.None?)
  }

  function ExecClauses(q: ExecutionQuery): seq<Clause> {
    Opt(q.status.Some?, Equals(Status)) + (Opt(q.parentId != 0, Equals(ParentExecutionId))
    + (Opt(q.contextId != 0, Equals(ContextId)) + (Opt(q.skillRevisionId != 0, Equals(SkillRevisionId))
    + (Opt(q.modelRevisionId != 0, Equals(ModelRevisionId)) + Opt(!q.includeDeleted, IsNull(DeletedAt))))))
  }

  function ExecBinds(q: ExecutionQuery): seq<Value> {
    Opt(q.status.Some?, Text(if q.status.Some? then q.status.value else "")) + (Opt(q.parentId != 0, Int(q.parentId))
    + (Opt(q.contextId != 0, Int(q.contextId)) + (Opt(q.skillRevisionId != 0, Int(q.skillRevisionId))
    + (Opt(q.modelRevisionId != 0, Int(q.modelRevisionId)) + []))))
  }

  // where_append
  method WhereAppend(buf: string, room: nat, n: nat, clause: string) returns (r: string, m: int)
    requires |buf| < room
    ensures m < 0 <==> |buf| + (if n > 0 then 5 else 0) + |clause| >= room
    ensures m >= 0 ==> r == buf + (if n > 0 then " AND " else "") + clause && m == n + 1 && |r| < room
  {
    r := buf + (if n > 0 then " AND " else "") + clause;
    if |r| >= room {
      return buf, -1;
    }
    m := n + 1;
  }

  // The text written for the clauses so far
  predicate Written(buf: string, cs: seq<Clause>) {
    if cs == [] then buf == " WHERE " else buf == " WHERE " + Joined(cs)
  }

  lemma WrittenMore(buf: string, cs: seq<Clause>, c: Clause)
    requires Written(buf, cs)
    ensures Written(buf + (if cs != [] then " AND " else "") + ClauseText(c), cs + [c])
  {
    hide ClauseText;
    if cs == [] {
      assert buf + "" + ClauseText(c) == " WHERE " + ClauseText(c);
      assert cs + [c] == [c];
    } else {
      JoinedMore(cs, c);
      hide Joined;
      assert buf + " AND " + ClauseText(c) == " WHERE " + (Joined(cs) + " AND " + ClauseText(c));
    }
  }

  // One field of the struct: its clause is appended when the field is set; a negative position ends the building.
  method Extend(buf: string, room: nat, ghost cs: seq<Clause>, n: int, present: bool, c: Clause, text: string)
    returns (r: string, m: int, ghost ds: seq<Clause>)
    requires n >= 0 ==> Written(buf, cs) && n == |cs| && |buf| < room
    requires text == ClauseText(c)
    ensures n < 0 ==> m < 0
    ensures m >= 0 ==> ds == cs + Opt(present, c) && Written(r, ds) && m == |ds| && |r| < room
    ensures m >= 0 ==> |r| <= |buf| + 5 + |text|
    ensures n >= 0 && |buf| + 5 + |text| < room ==> m >= 0
  {
    hide Written, ClauseText;
    r, m, ds := buf, n, cs;
    if n >= 0 && present {
      WrittenMore(buf, cs, c);
      r, m := WhereAppend(buf, room, n, text);
      ds := cs + [c];
    } else {
      assert cs + [] == cs;
    }
  }

  lemma ClauseTexts()
    ensures ClauseText(Equals(Status)) == "status = ?"
    ensures ClauseText(Equals(ParentExecutionId)) == "parent_execution_id = ?"
    ensures ClauseText(Equals(ContextId)) == "context_id = ?"
    ensures ClauseText(Equals(SkillRevisionId)) == "skill_revision_id = ?"
    ensures ClauseText(Equals(ModelRevisionId)) == "model_revision_id = ?"
    ensures ClauseText(IsNull(DeletedAt)) == "deleted_at IS NULL"
  {
  }

  // The clauses in the order exec_build_where adds them
  lemma ExecClausesInOrder(q: ExecutionQuery)
    ensures [] + Opt(q.status.Some?, Equals(Status)) + Opt(q.parentId != 0, Equals(ParentExecutionId))
      + Opt(q.contextId != 0, Equals(ContextId)) + Opt(q.skillRevisionId != 0, Equals(SkillRevisionId))
      + Opt(q.modelRevisionId != 0, Equals(ModelRevisionId)) + Opt(!q.includeDeleted, IsNull(DeletedAt))
      == ExecClauses(q)
  {
    hide Opt;
  }

  // The first three fields of exec_build_where
  method BuildFirst(q: ExecutionQuery, room: nat) returns (text: string, n: int, ghost cs: seq<Clause>)
    ensures n >= 0 ==> Written(text, cs) && n == |cs| && |text| < room && |text| <= 90
    ensures n >= 0 ==> cs == [] + Opt(q.status.Some?, Equals(Status)) + Opt(q.parentId != 0, Equals(ParentExecutionId))
                             + Opt(q.contextId != 0, Equals(ContextId))
    ensures room >= 200 ==> n >= 0
  {
    text, n, cs := " WHERE ", 0, [];
    if |text| >= room {
      return "", -1, [];
    }
    assert Written(text, cs);
    ClauseTexts();
    hide Written, Opt, ClauseText, Joined;
    text, n, cs := Extend(text, room, cs, n, q.status.Some?, Equals(Status), "status = ?");
    text, n, cs :=
      Extend(text, room, cs, n, q.parentId != 0, Equals(ParentExecutionId), "parent_execution_id = ?");
    text, n, cs := Extend(text, room, cs, n, q.contextId != 0, Equals(ContextId), "context_id = ?");
  }

  // exec_build_where
  method ExecBuildWhere(q: ExecutionQuery, room: nat) returns (text: string, n: int)
    ensures n >= 0 ==> text == WhereText(ExecClauses(q)) && n == |ExecClauses(q)| && |text| < room
    ensures room >= 200 ==> n >= 0 && |text| < 200
  {
    ClauseTexts();
    ExecClausesInOrder(q);
    hide Written, Opt, ClauseText, Joined, WhereText, ExecClauses;
    ghost var cs;
    text, n, cs := BuildFirst(q, room);
    text, n, cs :=
      Extend(text, room, cs, n, q.skillRevisionId != 0, Equals(SkillRevisionId), "skill_revision_id = ?");
    text, n, cs :=
      Extend(text, room, cs, n, q.modelRevisionId != 0, Equals(ModelRevisionId), "model_revision_id = ?");
    text, n, cs := Extend(text, room, cs, n, !q.includeDeleted, IsNull(DeletedAt), "deleted_at IS NULL");
    if n >= 0 {
      FromWritten(text, cs);
    }
    if n == 0 {
      FromWritten("", []);
      text := "";
    }
  }

  lemma FromWritten(text: string, cs: seq<Clause>)
    requires cs == [] || Written(text, cs)
    ensures cs != [] ==> text == WhereText(cs)
    ensures WhereText([]) == ""
  {
  }

  lemma ExecBindsInOrder(q: ExecutionQuery)
    ensures [] + Opt(q.status.Some?, Text(if q.status.Some? then q.status.value else ""))
      + Opt(q.parentId != 0, Int(q.parentId)) + Opt(q.contextId != 0, Int(q.contextId))
      + Opt(q.skillRevisionId != 0, Int(q.skillRevisionId)) + Opt(q.modelRevisionId != 0, Int(q.modelRevisionId))
      == ExecBinds(q)
  {
    hide Opt;
    FiveInOrder(Opt(q.status.Some?, Text(if q.status.Some? then q.status.value else "")),
                Opt(q.parentId != 0, Int(q.parentId)), Opt(q.contextId != 0, Int(q.contextId)),
                Opt(q.skillRevisionId != 0, Int(q.skillRevisionId)),
                Opt(q.modelRevisionId != 0, Int(q.modelRevisionId)));
  }

  lemma FiveInOrder<T>(a: seq<T>, b: seq<T>, c: seq<T>, d: seq<T>, e: seq<T>)
    ensures [] + a + b + c + d + e == a + (b + (c + (d + (e + []))))
  {
  }

  lemma Pushed<T>(s: seq<T>, present: bool, x: T)
    ensures s + Opt(present, x) == if present then s + [x] else s
  {
  }

  // exec_bind_where
  method ExecBindWhere(q: ExecutionQuery) returns (binds: seq<Value>)
    ensures binds == ExecBinds(q)
  {
    ExecBindsInOrder(q);
    hide Opt, ExecBinds;
    binds := [];
    Pushed(binds, q.status.Some?, Text(if q.status.Some? then q.status.value else ""));
    if q.status.Some? {
      binds := binds + [Text(q.status.value)];
    }
    Pushed(binds, q.parentId != 0, Int(q.parentId));
    if q.parentId != 0 {
      binds := binds + [Int(q.parentId)];
    }
    Pushed(binds, q.contextId != 0, Int(q.contextId));
    if q.contextId != 0 {
      binds := binds + [Int(q.contextId)];
    }
    Pushed(binds, q.skillRevisionId != 0, Int(q.skillRevisionId));
    if q.skillRevisionId != 0 {
      binds := binds + [Int(q.skillRevisionId)];
    }
    Pushed(binds, q.modelRevisionId != 0, Int(q.modelRevisionId));
    if q.modelRevisionId != 0 {
      binds := binds + [Int(q.modelRevisionId)];
    }
  }

  // For every query: the text SQLite reads has one placeholder for each bind, and with those binds it selects exactly
  // the rows the struct asks for.
  lemma ExecTextSelects(q: ExecutionQuery, r: E.Row)
    ensures var cs := ParseWhere(WhereText(ExecClauses(q)));
      && cs.Some? && Marks(cs.value) == |ExecBinds(q)|
      && (Selected(cs.value, ExecBinds(q), ExecFields(r)) <==> ExecMatches(q, r))
  {
    WhereRoundTrip(ExecClauses(q));
    hide Selected, Marks, ParseWhere, WhereText, StatusText, Opt;
    var f := ExecFields(r);
    var c5 := Opt(!q.includeDeleted, IsNull(DeletedAt));
    var c4 := Opt(q.modelRevisionId != 0, Equals(ModelRevisionId)) + c5;
    var c3 := Opt(q.skillRevisionId != 0, Equals(SkillRevisionId)) + c4;
    var c2 := Opt(q.contextId != 0, Equals(ContextId)) + c3;
    var c1 := Opt(q.parentId != 0, Equals(ParentExecutionId)) + c2;
    var b4 := Opt(q.modelRevisionId != 0, Int(q.modelRevisionId)) + [];
    var b3 := Opt(q.skillRevisionId != 0, Int(q.skillRevisionId)) + b4;
    var b2 := Opt(q.contextId != 0, Int(q.contextId)) + b3;
    var b1 := Opt(q.parentId != 0, Int(q.parentId)) + b2;
    LiveSelected(!q.includeDeleted, f);
    OptSelected(q.modelRevisionId != 0, ModelRevisionId, Int(q.modelRevisionId), c5, [], f);
    OptSelected(q.skillRevisionId != 0, SkillRevisionId, Int(q.skillRevisionId), c4, b4, f);
    OptSelected(q.contextId != 0, ContextId, Int(q.contextId), c3, b3, f);
    OptSelected(q.parentId != 0, ParentExecutionId, Int(q.parentId), c2, b2, f);
    OptSelected(q.status.Some?, Status, Text(if q.status.Some? then q.status.value else ""), c1, b1, f);
  }

  // The statements of the query and of the count; None when a buffer is too small, which no query brings about.
  method ExecStatements(q: ExecutionQuery, light: bool) returns (select: Option<string>, count: Option<string>)
    ensures select == Some((if light then EXEC_SELECT_LIGHT else EXEC_SELECT) + WhereText(ExecClauses(q))
                           + " ORDER BY id ASC LIMIT ? OFFSET ?;")
    ensures EXEC_SELECT == "SELECT id, context_id, skill_revision_id, model_revision_id, raw_response, result, status, "
      + "error, created_at, started_at, completed_at, parent_execution_id, deleted_at FROM executions"
    ensures EXEC_SELECT_LIGHT == "SELECT id, context_id, skill_revision_id, model_revision_id, status, created_at, "
      + "started_at, completed_at, parent_execution_id, deleted_at FROM executions"
    ensures count == Some("SELECT COUNT(*) FROM executions" + WhereText(ExecClauses(q)) + ";")
  {
    var text, n := ExecBuildWhere(q, EXEC_WHERE_ROOM);
    hide WhereText, ExecClauses;
    var sql := (if light then EXEC_SELECT_LIGHT else EXEC_SELECT) + text + " ORDER BY id ASC LIMIT ? OFFSET ?;";
    select := if n < 0 || |sql| >= EXEC_SQL_ROOM then None else Some(sql);
    sql := "SELECT COUNT(*) FROM executions" + text + ";";
    count := if n < 0 || |sql| >= EXEC_COUNT_ROOM then None else Some(sql);
  }

  // ----- contexts -----

  datatype ContextQuery = ContextQuery(kind: Option<string>, hash: Option<string>)

  const CTX_SQL_ROOM := 512
  const CTX_COUNT_ROOM := 256

  function CtxField(r: C.Context, column: Column): Value {
    match column
    case Type => Text(r.kind)
    case ContentHash => Text(r.hash)
    case DeletedAt => if r.deleted then Text("") else NullValue
    case _ => NullValue   // no such column
  }

  function CtxFields(r: C.Context): Column -> Value { c => CtxField(r, c) }

  predicate CtxMatches(q: ContextQuery, liveOnly: bool, r: C.Context) {
    && (q.kind.Some? ==> r.kind == q.kind.value) && (q.hash.Some? ==> r.hash == q.hash.value)
    && (liveOnly ==> !r.deleted)
  }

  function CtxClauses(q: ContextQuery, liveOnly: bool): seq<Clause> {
    Opt(q.kind.Some?, Equals(Type)) + (Opt(q.hash.Some?, Equals(ContentHash))
    + Opt(liveOnly, IsNull(DeletedAt)))
  }

  function CtxBinds(q: ContextQuery): seq<Value> {
    Opt(q.kind.Some?, Text(if q.kind.Some? then q.kind.value else ""))
    + (Opt(q.hash.Some?, Text(if q.hash.Some? then q.hash.value else "")) + [])
  }

  // snprintf at the end of what is there
  method Append(buf: Option<string>, room: nat, part: string) returns (r: Option<string>)
    ensures r == if buf.Some? && |buf.value| + |part| < room then Some(buf.value + part) else None
  {
    r := if buf.None? || |buf.value| + |part| >= room then None else Some(buf.value + part);
  }

  lemma WhereMore(cs: seq<Clause>, c: Clause)
    ensures WhereText(cs + [c]) == WhereText(cs) + ((if cs == [] then " WHERE " else " AND ") + ClauseText(c))
  {
    hide ClauseText;
    if cs == [] {
      assert cs + [c] == [c];
      assert WhereText(cs) + (" WHERE " + ClauseText(c)) == " WHERE " + ClauseText(c);
    } else {
      JoinedMore(cs, c);
    }
  }

  lemma OpeningParts()
    ensures " WHERE type = ?" == " WHERE " + ClauseText(Equals(Type))
    ensures " WHERE content_hash = ?" == " WHERE " + ClauseText(Equals(ContentHash))
  {
  }

  lemma FurtherPart()
    ensures " AND content_hash = ?" == " AND " + ClauseText(Equals(ContentHash))
  {
  }

  lemma LiveParts()
    ensures " AND" + " deleted_at IS NULL" == " AND " + ClauseText(IsNull(DeletedAt))
    ensures " WHERE" + " deleted_at IS NULL" == " WHERE " + ClauseText(IsNull(DeletedAt))
  {
  }

  // build_where: the first clause present opens the WHERE.
  method CtxBuildWhere(room: nat, q: ContextQuery, liveOnly: bool) returns (text: Option<string>)
    requires room > 0
    ensures text.Some? ==> text.value == WhereText(CtxClauses(q, liveOnly)) && |text.value| < room
    ensures room > 70 ==> text.Some? && |text.value| <= 60
  {
    OpeningParts();
    FurtherPart();
    LiveParts();
    assert WhereText([]) == "";
    hide WhereText, ClauseText, CtxClauses;
    text := Some("");
    ghost var cs: seq<Clause> := [];
    if q.kind.Some? {
      text := Append(text, room, " WHERE type = ?");
      WhereMore(cs, Equals(Type));
      cs := cs + [Equals(Type)];
      if q.hash.Some? {
        text := Append(text, room, " AND content_hash = ?");
        WhereMore(cs, Equals(ContentHash));
        cs := cs + [Equals(ContentHash)];
      }
    } else if q.hash.Some? {
      text := Append(text, room, " WHERE content_hash = ?");
      WhereMore(cs, Equals(ContentHash));
      cs := cs + [Equals(ContentHash)];
    }
    if liveOnly {
      text := Append(text, room, (if q.kind.Some? || q.hash.Some? then " AND" else " WHERE") + " deleted_at IS NULL");
      WhereMore(cs, IsNull(DeletedAt));
      cs := cs + [IsNull(DeletedAt)];
    }
    CtxClausesInOrder(q, liveOnly);
  }

  lemma CtxClausesInOrder(q: ContextQuery, liveOnly: bool)
    ensures
      var t, h := Equals(Type), Equals(ContentHash);
      var cs := if q.kind.Some? then (if q.hash.Some? then [] + [t] + [h] else [] + [t])
                else if q.hash.Some? then [] + [h] else [];
      CtxClauses(q, liveOnly) == if liveOnly then cs + [IsNull(DeletedAt)] else cs
  {
    var a, b := Opt(q.kind.Some?, Equals(Type)), Opt(q.hash.Some?, Equals(ContentHash));
    var c := Opt(liveOnly, IsNull(DeletedAt));
    assert a + (b + c) == [] + a + b + c;
    Pushed([], q.kind.Some?, Equals(Type));
    Pushed([] + a, q.hash.Some?, Equals(ContentHash));
    Pushed([] + a + b, liveOnly, IsNull(DeletedAt));
  }

  lemma CtxTextSelects(q: ContextQuery, liveOnly: bool, r: C.Context)
    ensures var cs := ParseWhere(WhereText(CtxClauses(q, liveOnly)));
      && cs.Some? && Marks(cs.value) == |CtxBinds(q)|
      && (Selected(cs.value, CtxBinds(q), CtxFields(r)) <==> CtxMatches(q, liveOnly, r))
  {
    var f := CtxFields(r);
    assert f(Type) == Text(r.kind) && f(ContentHash) == Text(r.hash);
    assert f(DeletedAt) == NullValue <==> !r.deleted;
    hide Opt, CtxFields, ParseWhere, WhereText, Selected, Marks;
    var c2 := Opt(liveOnly, IsNull(DeletedAt));
    var c1 := Opt(q.hash.Some?, Equals(ContentHash)) + c2;
    var b1 := Opt(q.hash.Some?, Text(if q.hash.Some? then q.hash.value else "")) + [];
    WhereRoundTrip(CtxClauses(q, liveOnly));
    LiveSelected(liveOnly, f);
    OptSelected(q.hash.Some?, ContentHash, Text(if q.hash.Some? then q.hash.value else ""), c2, [], f);
    OptSelected(q.kind.Some?, Type, Text(if q.kind.Some? then q.kind.value else ""), c1, b1, f);
  }

  const CTX_SELECT := "SELECT id, type, content, content_hash, metadata, created_at, deleted_at FROM contexts"
  const CTX_SELECT_LIGHT := "SELECT id, type, content_hash, metadata, created_at, deleted_at FROM contexts"

  // The statement of context_query_impl with its binds, and that of the count; None when a buffer is too small, which
  // no query brings about.
  method CtxStatements(q: ContextQuery, offset: nat, limit: int, liveOnly: bool, light: bool)
    returns (select: Option<string>, binds: seq<Value>, count: Option<string>)
    ensures var page := (if light then CTX_SELECT_LIGHT else CTX_SELECT) + WhereText(CtxClauses(q, liveOnly))
                        + " ORDER BY id" + " LIMIT ?";
      select == Some(if offset > 0 then page + " OFFSET ?" else page)
    ensures CTX_SELECT == "SELECT id, type, content, content_hash, metadata, created_at, deleted_at FROM contexts"
    ensures CTX_SELECT_LIGHT == "SELECT id, type, content_hash, metadata, created_at, deleted_at FROM contexts"
    ensures binds == CtxBinds(q) + [Int(ClampLimit(limit))] + Opt(offset > 0, Int(offset))
    ensures count == Some("SELECT COUNT(*) FROM contexts" + WhereText(CtxClauses(q, liveOnly)))
  {
    hide WhereText, CtxClauses;
    var head := if light then CTX_SELECT_LIGHT else CTX_SELECT;
    var text := CtxBuildWhere(CTX_SQL_ROOM - |head|, q, liveOnly);
    select := if text.Some? then Some(head + text.value) else None;
    select := Append(select, CTX_SQL_ROOM, " ORDER BY id");
    select := Append(select, CTX_SQL_ROOM, " LIMIT ?");
    if offset > 0 {
      select := Append(select, CTX_SQL_ROOM, " OFFSET ?");
    }
    binds := [];
    if q.kind.Some? {
      binds := binds + [Text(q.kind.value)];
    }
    if q.hash.Some? {
      binds := binds + [Text(q.hash.value)];
    }
    assert binds == CtxBinds(q);
    binds := binds + [Int(ClampLimit(limit))];
    if offset > 0 {
      binds := binds + [Int(offset)];
    }
    head := "SELECT COUNT(*) FROM contexts";
    text := CtxBuildWhere(CTX_COUNT_ROOM - |head|, q, liveOnly);
    count := if text.Some? then Some(head + text.value) else None;
  }

  // What a query asks for, field by field
  lemma ExecutionQueryAsks(q: ExecutionQuery, r: E.Row)
    ensures ExecMatches(q, r) <==>
      && (q.status.None? || q.status.value == StatusText(r.status)) && (q.parentId == 0 || r.parentId == q.parentId)
      && (q.contextId == 0 || r.contextId == q.contextId)
      && (q.skillRevisionId == 0 || r.skillRevisionId == q.skillRevisionId)
      && (q.modelRevisionId == 0 || r.modelRevisionId == q.modelRevisionId)
      && (q.includeDeleted || r.deletedAt == None)
  {
  }

  lemma ContextQueryAsks(q: ContextQuery, liveOnly: bool, r: C.Context)
    ensures CtxMatches(q, liveOnly, r) <==>
      && (q.kind.None? || q.kind.value == r.kind) && (q.hash.None? || q.hash.value == r.hash)
      && !(liveOnly && r.deleted)
  {
  }

  // The names of the five statuses in a query
  lemma StatusNames(r: E.Row)
    ensures ExecMatches(ExecutionQuery(Some("pending"), 0, 0, 0, 0, true), r) <==> r.status == E.Pending
    ensures ExecMatches(ExecutionQuery(Some("running"), 0, 0, 0, 0, true), r) <==> r.status == E.Running
    ensures ExecMatches(ExecutionQuery(Some("completed"), 0, 0, 0, 0, true), r) <==> r.status == E.Completed
    ensures ExecMatches(ExecutionQuery(Some("failed"), 0, 0, 0, 0, true), r) <==> r.status == E.Failed
    ensures ExecMatches(ExecutionQuery(Some("cancelled"), 0, 0, 0, 0, true), r) <==> r.status == E.Cancelled
  {
    assert |"pending"| == |"running"| == 7 && "pending"[0] != "running"[0];
  }
}
