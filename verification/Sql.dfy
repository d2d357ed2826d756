/** WHERE clauses as text, and what SQLite makes of them: words, conditions, rows */
module Sql {
  import opened Db

  datatype Value = Int(i: int) | Text(s: string) | NullValue

  datatype Column =
    | Status | ParentExecutionId | ContextId | SkillRevisionId | ModelRevisionId   // executions
    | Type | ContentHash                                                           // contexts
    | DeletedAt                                                                    // both

  datatype Clause = Equals(column: Column) | IsNull(column: Column)

  function Name(c: Column): string {
    match c
    case Status => "status"
    case ParentExecutionId => "parent_execution_id"
    case ContextId => "context_id"
    case SkillRevisionId => "skill_revision_id"
    case ModelRevisionId => "model_revision_id"
    case Type => "type"
    case ContentHash => "content_hash"
    case DeletedAt => "deleted_at"
  }

  // The column of that name, by trying each
  function ColumnFrom(name: string, cs: seq<Column>): Option<Column> {
    if cs == [] then None else if Name(cs[0]) == name then Some(cs[0]) else ColumnFrom(name, cs[1..])
  }

  const COLUMNS :=
    [Status, ParentExecutionId, ContextId, SkillRevisionId, ModelRevisionId, Type, ContentHash, DeletedAt]

  function ColumnOf(name: string): Option<Column> { ColumnFrom(name, COLUMNS) }

  lemma NamesDiffer(c: Column, d: Column)
    requires Name(c) == Name(d)
    ensures c == d
  {
    assert |Name(c)| == |Name(d)|;
    assert Name(ContextId)[0] != Name(DeletedAt)[0] && Name(SkillRevisionId)[0] != Name(ModelRevisionId)[0];
  }

  lemma {:induction false} ColumnFound(c: Column, cs: seq<Column>)
    requires c in cs
    ensures ColumnFrom(Name(c), cs) == Some(c)
  {
    hide Name;
    if Name(cs[0]) == Name(c) {
      NamesDiffer(cs[0], c);
    } else {
      ColumnFound(c, cs[1..]);
    }
  }

  // ----- text -----

  function ClauseText(c: Clause): string {
    match c
    case Equals(column) => Name(column) + " = ?"
    case IsNull(column) => Name(column) + " IS NULL"
  }

  function Joined(cs: seq<Clause>): string
    requires cs != []
  {
    if |cs| == 1 then ClauseText(cs[0]) else Joined(cs[..|cs| - 1]) + " AND " + ClauseText(cs[|cs| - 1])
  }

  function WhereText(cs: seq<Clause>): string {
    if cs == [] then "" else " WHERE " + Joined(cs)
  }

  // ----- reading the text -----

  // The text split at its blanks
  function Words(t: string): (ws: seq<string>)
    ensures ws != []
  {
    if t == [] then [[]]
    else
      var rest := Words(t[1..]);
      if t[0] == ' ' then [[]] + rest else [[t[0]] + rest[0]] + rest[1..]
  }

  // A word: no blank in it
  predicate IsWord(w: string) { forall i | 0 <= i < |w| :: w[i] != ' ' }

  lemma NamesAreWords(c: Column)
    ensures IsWord(Name(c))
  {
  }

  lemma {:induction false} WordsSplit(w: string, t: string)
    requires IsWord(w)
    ensures Words(w + " " + t) == [w] + Words(t)
  {
    var s := w + " " + t;
    if w == [] {
      assert s[1..] == t;
    } else {
      assert s[1..] == w[1..] + " " + t;
      WordsSplit(w[1..], t);
      assert w == [w[0]] + w[1..];
    }
  }

  lemma {:induction false} OneWord(w: string)
    requires IsWord(w)
    ensures Words(w) == [w]
  {
    if w != [] {
      OneWord(w[1..]);
      assert w == [w[0]] + w[1..];
    }
  }

  function ClauseWords(c: Clause): seq<string> {
    match c
    case Equals(column) => [Name(column), "=", "?"]
    case IsNull(column) => [Name(column), "IS", "NULL"]
  }

  lemma ThreeWords(x: string, y: string, z: string, t: string)
    requires IsWord(x) && IsWord(y) && IsWord(z)
    ensures Words(x + " " + y + " " + z) == [x, y, z]
    ensures Words(x + " " + y + " " + z + " " + t) == [x, y, z] + Words(t)
  {
    hide Words, IsWord;
    OneWord(z);
    WordsSplit(y, z);
    WordsSplit(x, y + " " + z);
    assert x + " " + y + " " + z == x + " " + (y + " " + z);
    WordsSplit(z, t);
    WordsSplit(y, z + " " + t);
    WordsSplit(x, y + " " + (z + " " + t));
    assert x + " " + y + " " + z + " " + t == x + " " + (y + " " + (z + " " + t));
  }

  lemma WordsOfClause(c: Clause, t: string)
    ensures Words(ClauseText(c)) == ClauseWords(c)
    ensures Words(ClauseText(c) + " " + t) == ClauseWords(c) + Words(t)
  {
    assert IsWord("=") && IsWord("?") && IsWord("IS") && IsWord("NULL");
    NamesAreWords(c.column);
    hide Words, IsWord, Name;
    var name := Name(c.column);
    if c.Equals? {
      ThreeWords(name, "=", "?", t);
      assert name + " " + "=" + " " + "?" == ClauseText(c);
    } else {
      ThreeWords(name, "IS", "NULL", t);
      assert name + " " + "IS" + " " + "NULL" == ClauseText(c);
    }
  }

  function Condition(ws: seq<string>): Option<Clause>
    requires |ws| == 3
  {
    var c := ColumnOf(ws[0]);
    if c.None? then None
    else if ws[1] == "=" && ws[2] == "?" then Some(Equals(c.value))
    else if ws[1] == "IS" && ws[2] == "NULL" then Some(IsNull(c.value))
    else None
  }

  // condition (AND condition)*
  function Conditions(ws: seq<string>): Option<seq<Clause>> {
    if |ws| < 3 then None
    else
      var c := Condition(ws[..3]);
      if c.None? then None
      else if |ws| == 3 then Some([c.value])
      else if ws[3] != "AND" then None
      else
        var rest := Conditions(ws[4..]);
        if rest.None? then None else Some([c.value] + rest.value)
  }

  function ParseWhere(text: string): Option<seq<Clause>> {
    if text == "" then Some([])
    else
      var ws := Words(text);
      if |ws| < 2 || ws[0] != "" || ws[1] != "WHERE" then None else Conditions(ws[2..])
  }

  function AllWords(cs: seq<Clause>): seq<string>
    requires cs != []
  {
    if |cs| == 1 then ClauseWords(cs[0]) else ClauseWords(cs[0]) + ["AND"] + AllWords(cs[1..])
  }

  lemma {:induction false} JoinedFront(cs: seq<Clause>)
    requires |cs| > 1
    ensures Joined(cs) == ClauseText(cs[0]) + " AND " + Joined(cs[1..])
  {
    hide ClauseText;
    if |cs| > 2 {
      var front := cs[..|cs| - 1];
      JoinedFront(front);
      assert cs[1..][..|cs| - 2] == front[1..];
    }
  }

  lemma {:induction false} WordsOfJoined(cs: seq<Clause>)
    requires cs != []
    ensures Words(Joined(cs)) == AllWords(cs)
  {
    hide ClauseText, Words, ClauseWords, Name;
    if |cs| == 1 {
      WordsOfClause(cs[0], "");
    } else {
      JoinedFront(cs);
      var rest := Joined(cs[1..]);
      assert Joined(cs) == ClauseText(cs[0]) + " " + ("AND" + " " + rest);
      WordsOfClause(cs[0], "AND" + " " + rest);
      assert IsWord("AND");
      WordsSplit("AND", rest);
      WordsOfJoined(cs[1..]);
    }
  }

  lemma InColumns(c: Column)
    ensures c in COLUMNS
  {
    match c {
      case Status => assert COLUMNS[0] == c;
      case ParentExecutionId => assert COLUMNS[1] == c;
      case ContextId => assert COLUMNS[2] == c;
      case SkillRevisionId => assert COLUMNS[3] == c;
      case ModelRevisionId => assert COLUMNS[4] == c;
      case Type => assert COLUMNS[5] == c;
      case ContentHash => assert COLUMNS[6] == c;
      case DeletedAt => assert COLUMNS[7] == c;
    }
  }

  lemma ConditionOfClause(c: Clause)
    ensures Condition(ClauseWords(c)) == Some(c)
  {
    hide Name, ColumnFrom;
    InColumns(c.column);
    ColumnFound(c.column, COLUMNS);
  }

  lemma {:induction false} ConditionsOfAll(cs: seq<Clause>)
    requires cs != []
    ensures Conditions(AllWords(cs)) == Some(cs)
  {
    var ws := AllWords(cs);
    assert ws[..3] == ClauseWords(cs[0]) && cs == [cs[0]] + cs[1..];
    ConditionOfClause(cs[0]);
    if |cs| > 1 {
      ConditionsOfAll(cs[1..]);
      assert |ws| > 3 && ws[3] == "AND";
      assert ws[4..] == AllWords(cs[1..]);
      assert Conditions(ws).Some? && Conditions(ws).value == [cs[0]] + cs[1..];
    } else {
      assert cs == [cs[0]];
    }
  }

  lemma WordsOfWhere(joined: string)
    ensures Words(" WHERE " + joined) == ["", "WHERE"] + Words(joined)
  {
    assert IsWord("") && IsWord("WHERE");
    hide Words, IsWord;
    WordsSplit("WHERE", joined);
    WordsSplit("", "WHERE" + " " + joined);
    assert " WHERE " + joined == "" + " " + ("WHERE" + " " + joined);
    assert [""] + (["WHERE"] + Words(joined)) == ["", "WHERE"] + Words(joined);
  }

  // What is written is read as the same conditions, in the same order.
  lemma WhereRoundTrip(cs: seq<Clause>)
    ensures ParseWhere(WhereText(cs)) == Some(cs)
  {
    hide Joined, AllWords, Words, Conditions;
    if cs != [] {
      var text, ws := WhereText(cs), Words(WhereText(cs));
      WordsOfWhere(Joined(cs));
      WordsOfJoined(cs);
      ConditionsOfAll(cs);
      assert ws[0] == "" && ws[1] == "WHERE" && ws[2..] == AllWords(cs);
      assert text[0] == ' ';
    }
  }

  // ----- meaning -----

  function Marks(cs: seq<Clause>): nat {
    if cs == [] then 0 else (if cs[0].Equals? then 1 else 0) + Marks(cs[1..])
  }

  // Is the row selected?  Binds are used from left to right; a comparison with NULL is not true.
  predicate Selected(cs: seq<Clause>, binds: seq<Value>, field: Column -> Value) {
    if cs == [] then true
    else match cs[0]
      case Equals(column) =>
        binds != [] && binds[0] != NullValue && field(column) == binds[0] && Selected(cs[1..], binds[1..], field)
      case IsNull(column) => field(column) == NullValue && Selected(cs[1..], binds, field)
  }

  lemma {:induction false} SelectedSplit(a: seq<Clause>, x: seq<Value>, b: seq<Clause>, y: seq<Value>,
                                         field: Column -> Value)
    requires |x| == Marks(a)
    ensures Selected(a + b, x + y, field) <==> Selected(a, x, field) && Selected(b, y, field)
    ensures Marks(a + b) == Marks(a) + Marks(b)
  {
    if a == [] {
      assert a + b == b && x + y == y;
    } else {
      assert (a + b)[1..] == a[1..] + b;
      if a[0].Equals? {
        assert (x + y)[1..] == x[1..] + y;
        SelectedSplit(a[1..], x[1..], b, y, field);
      } else {
        SelectedSplit(a[1..], x, b, y, field);
      }
    }
  }

  // The ids that survive, in order
  function Keep(ids: seq<int>, hits: set<int>): (r: seq<int>)
    ensures |r| <= |ids| && forall i | i in r :: i in hits && i in ids
  {
    if ids == [] then [] else (if ids[0] in hits then [ids[0]] else []) + Keep(ids[1..], hits)
  }

  // LIMIT l OFFSET o
  function Cut<T>(s: seq<T>, offset: nat, limit: nat): (r: seq<T>)
    ensures |r| <= limit && (r != [] ==> offset + |r| <= |s|)
  {
    if offset >= |s| then [] else if offset + limit >= |s| then s[offset..] else s[offset..offset + limit]
  }
}
