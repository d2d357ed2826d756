/** acta_runner/src/run.c: schema_check, the validation against the subset type, required, properties, items */
module SchemaCheck {
  import opened Db
  import opened Json

  const LEVELS := 33   // depths 0 to 32

  function Floor(x: real): real { x.Floor as real }

  // type_ok
  predicate TypeOk(t: string, v: Json) {
    if t == "object" then v.Object?
    else if t == "array" then v.Array?
    else if t == "string" then v.Str?
    else if t == "number" then v.Number?
    else if t == "integer" then v.Number? && v.n == Floor(v.n)
    else if t == "boolean" then v.Bool?
    else if t == "null" then v.Null?
    else true
  }

  // A member looked up is a part of the tree.
  lemma {:induction false} FindIsPart(members: seq<Member>, key: string)
    ensures Find(members, key).Some? ==>
      exists i | 0 <= i < |members| :: Find(members, key).value == members[i].value
  {
    if members != [] && !SameKey(members[0].key, key) {
      FindIsPart(members[1..], key);
      if Find(members, key).Some? {
        var i :| 0 <= i < |members[1..]| && Find(members, key).value == members[1..][i].value;
        assert members[i + 1].value == Find(members, key).value;
      }
    }
  }

  lemma GetIsPart(j: Json, key: string)
    ensures Get(j, key).Some? ==> Get(j, key).value < j
  {
    if j.Object? {
      FindIsPart(j.members, key);
    }
  }

  function StringAt(schema: Json, key: string): Option<string> {
    var v := Get(schema, key);
    if v.Some? && v.value.Str? then Some(v.value.s) else None
  }

  // The names the `required` keyword lists; what is not a string in it is passed over.
  function Required(schema: Json): seq<Json> {
    var v := Get(schema, "required");
    if v.Some? && v.value.Array? then v.value.items else []
  }

  // The `properties` keyword
  function Properties(schema: Json): (ps: seq<Member>)
    ensures forall i | 0 <= i < |ps| :: ps[i].value < schema
  {
    GetIsPart(schema, "properties");
    var v := Get(schema, "properties");
    if v.Some? && v.value.Object? then v.value.members else []
  }

  // The `items` keyword: an object, or an array, which has no keywords of its own
  function Items(schema: Json): (r: Option<Json>)
    ensures r.Some? ==> r.value < schema
  {
    GetIsPart(schema, "items");
    var v := Get(schema, "items");
    if v.Some? && (v.value.Object? || v.value.Array?) then v else None
  }

  predicate HasType(schema: Json, v: Json) {
    var t := StringAt(schema, "type");
    t.Some? ==> TypeOk(t.value, v)
  }

  predicate HasRequired(schema: Json, v: Json) {
    var names := Required(schema);
    v.Object? ==> forall i | 0 <= i < |names| && names[i].Str? :: Get(v, names[i].s).Some?
  }

  // What a schema of the subset means
  ghost predicate Conforms(schema: Json, v: Json)
    decreases schema
  {
    && HasType(schema, v) && HasRequired(schema, v)
    && (v.Object? ==>
          var ps := Properties(schema);
          forall i | 0 <= i < |ps| && Get(v, ps[i].key).Some? :: Conforms(ps[i].value, Get(v, ps[i].key).value))
    && (v.Array? && Items(schema).Some? ==>
          forall i | 0 <= i < |v.items| :: Conforms(Items(schema).value, v.items[i]))
  }

  // The same, looking at n levels only
  ghost predicate ConformsWithin(schema: Json, v: Json, n: nat) {
    n == 0 || (
      && HasType(schema, v) && HasRequired(schema, v)
      && (v.Object? ==>
            var ps := Properties(schema);
            forall i | 0 <= i < |ps| && Get(v, ps[i].key).Some? ::
              ConformsWithin(ps[i].value, Get(v, ps[i].key).value, n - 1))
      && (v.Array? && Items(schema).Some? ==>
            forall i | 0 <= i < |v.items| :: ConformsWithin(Items(schema).value, v.items[i], n - 1)))
  }

  // schema_check
  method Check(schema: Json, v: Json, depth: nat) returns (ok: bool)
    ensures ok <==> ConformsWithin(schema, v, if depth > 32 then 0 else 33 - depth)
    decreases if depth > 32 then 0 else LEVELS - depth
  {
    if depth > 32 {
      return true;
    }
    if !HasType(schema, v) {
      return false;
    }
    if v.Object? {
      var names := Required(schema);
      var i := 0;
      while i < |names|
        invariant i <= |names|
        invariant forall j | 0 <= j < i && names[j].Str? :: Get(v, names[j].s).Some?
      {
        if names[i].Str? && Get(v, names[i].s).None? {
          return false;
        }
        i := i + 1;
      }
      var ps := Properties(schema);
      i := 0;
      while i < |ps|
        invariant i <= |ps|
        invariant forall j | 0 <= j < i && Get(v, ps[j].key).Some? ::
          ConformsWithin(ps[j].value, Get(v, ps[j].key).value, LEVELS - depth - 1)
      {
        var sub := Get(v, ps[i].key);
        if sub.Some? {
          var r := Check(ps[i].value, sub.value, depth + 1);
          if !r {
            return false;
          }
        }
        i := i + 1;
      }
    } else if v.Array? && Items(schema).Some? {
      var i := 0;
      while i < |v.items|
        invariant i <= |v.items|
        invariant forall j | 0 <= j < i :: ConformsWithin(Items(schema).value, v.items[j], LEVELS - depth - 1)
      {
        var r := Check(Items(schema).value, v.items[i], depth + 1);
        if !r {
          return false;
        }
        i := i + 1;
      }
    }
    ok := true;
  }

  // ----- each keyword by itself -----

  lemma OneMember(name: string, value: Json, key: string)
    ensures Get(Object([Member(name, value)]), key) == if SameKey(name, key) then Some(value) else None
  {
    var ms := [Member(name, value)];
    assert ms[1..] == [] && Find(ms[1..], key) == None;
    assert Find(ms, key) == if SameKey(ms[0].key, key) then Some(ms[0].value) else Find(ms[1..], key);
  }

  lemma OneKeyword(name: string, value: Json)
    ensures var schema := Object([Member(name, value)]);
      && Get(schema, "type") == (if SameKey(name, "type") then Some(value) else None)
      && Get(schema, "required") == (if SameKey(name, "required") then Some(value) else None)
      && Get(schema, "properties") == (if SameKey(name, "properties") then Some(value) else None)
      && Get(schema, "items") == (if SameKey(name, "items") then Some(value) else None)
  {
    hide Get;
    OneMember(name, value, "type");
    OneMember(name, value, "required");
    OneMember(name, value, "properties");
    OneMember(name, value, "items");
  }

  predicate IsWhole(k: int, v: Json) { v == Number(k as real) }

  // The seven names of the type keyword, and what each accepts; any other name accepts everything.
  lemma TypeKeyword(t: string, v: Json)
    ensures Conforms(Object([Member("type", Str(t))]), v) <==>
      && (t == "object" ==> v.Object?) && (t == "array" ==> v.Array?) && (t == "string" ==> v.Str?)
      && (t == "number" ==> v.Number?) && (t == "boolean" ==> v == Bool(true) || v == Bool(false))
      && (t == "null" ==> v == Null) && (t == "integer" ==> exists k: int :: IsWhole(k, v))
  {
    OneKeyword("type", Str(t));
    if t == "integer" && v.Number? {
      assert v.n == Floor(v.n) ==> IsWhole(v.n.Floor, v);
    }
  }

  lemma RequiredKeyword(names: seq<Json>, v: Json)
    ensures Conforms(Object([Member("required", Array(names))]), v)
      <==> (v.Object? ==> forall i | 0 <= i < |names| && names[i].Str? :: Get(v, names[i].s).Some?)
  {
    hide Get;
    OneKeyword("required", Array(names));
    assert Required(Object([Member("required", Array(names))])) == names;
  }

  lemma PropertiesKeyword(ps: seq<Member>, v: Json)
    ensures Conforms(Object([Member("properties", Object(ps))]), v)
      <==> (v.Object? ==>
              forall i | 0 <= i < |ps| && Get(v, ps[i].key).Some? :: Conforms(ps[i].value, Get(v, ps[i].key).value))
  {
    hide Get;
    OneKeyword("properties", Object(ps));
    var schema := Object([Member("properties", Object(ps))]);
    assert Properties(schema) == ps;
    assert Conforms(schema, v) <==> (v.Object? ==>
      forall i | 0 <= i < |Properties(schema)| && Get(v, Properties(schema)[i].key).Some? ::
        Conforms(Properties(schema)[i].value, Get(v, Properties(schema)[i].key).value));
  }

  lemma ItemsKeyword(part: Json, v: Json)
    requires part.Object?
    ensures Conforms(Object([Member("items", part)]), v)
      <==> (v.Array? ==> forall i | 0 <= i < |v.items| :: Conforms(part, v.items[i]))
  {
    hide Get;
    OneKeyword("items", part);
  }

  // Levels of nesting that carry keywords
  ghost predicate FitsIn(schema: Json, n: nat) {
    n > 0
    && (forall i | 0 <= i < |Properties(schema)| :: FitsIn(Properties(schema)[i].value, n - 1))
    && (Items(schema).Some? ==> FitsIn(Items(schema).value, n - 1))
  }

  // Looking at fewer levels only forgets constraints.
  lemma {:induction false} FewerLevelsAcceptMore(schema: Json, v: Json, n: nat)
    requires Conforms(schema, v)
    ensures ConformsWithin(schema, v, n)
    decreases n
  {
    if n > 0 {
      if v.Object? {
        var ps := Properties(schema);
        forall i | 0 <= i < |ps| && Get(v, ps[i].key).Some?
          ensures ConformsWithin(ps[i].value, Get(v, ps[i].key).value, n - 1)
        {
          FewerLevelsAcceptMore(ps[i].value, Get(v, ps[i].key).value, n - 1);
        }
      }
      if v.Array? && Items(schema).Some? {
        forall i | 0 <= i < |v.items| ensures ConformsWithin(Items(schema).value, v.items[i], n - 1) {
          FewerLevelsAcceptMore(Items(schema).value, v.items[i], n - 1);
        }
      }
    }
  }

  // Within its nesting a schema is checked exactly.
  lemma {:induction false} EnoughLevelsAreExact(schema: Json, v: Json, n: nat)
    requires FitsIn(schema, n)
    ensures ConformsWithin(schema, v, n) <==> Conforms(schema, v)
    decreases n
  {
    if Conforms(schema, v) {
      FewerLevelsAcceptMore(schema, v, n);
    } else if ConformsWithin(schema, v, n) {
      if v.Object? {
        var ps := Properties(schema);
        forall i | 0 <= i < |ps| && Get(v, ps[i].key).Some?
          ensures Conforms(ps[i].value, Get(v, ps[i].key).value)
        {
          EnoughLevelsAreExact(ps[i].value, Get(v, ps[i].key).value, n - 1);
        }
      }
      if v.Array? && Items(schema).Some? {
        forall i | 0 <= i < |v.items| ensures Conforms(Items(schema).value, v.items[i]) {
          EnoughLevelsAreExact(Items(schema).value, v.items[i], n - 1);
        }
      }
    }
  }

  // ----- the schema that is really checked -----

  // Below n levels every constraint is gone.
  function Truncate(schema: Json, n: nat): Json
    decreases n, 1
  {
    if n == 0 then Object([])
    else if schema.Object? then Object(TruncateKeywords(schema.members, n - 1))
    else schema
  }

  function TruncateKeywords(members: seq<Member>, n: nat): (r: seq<Member>)
    decreases n, 3, |members|
  {
    if members == [] then []
    else
      var m := members[0];
      var value := if SameKey(m.key, "properties") && m.value.Object? then Object(TruncateEach(m.value.members, n))
                   else if SameKey(m.key, "items") && m.value.Object? then Truncate(m.value, n)
                   else m.value;
      [Member(m.key, value)] + TruncateKeywords(members[1..], n)
  }

  function TruncateEach(members: seq<Member>, n: nat): (r: seq<Member>)
    ensures |r| == |members|
    ensures forall i | 0 <= i < |r| :: r[i] == Member(members[i].key, Truncate(members[i].value, n))
    decreases n, 2, |members|
  {
    if members == [] then []
    else [Member(members[0].key, Truncate(members[0].value, n))] + TruncateEach(members[1..], n)
  }

  lemma KeywordsDiffer()
    ensures !SameKey("type", "properties") && !SameKey("type", "items")
    ensures !SameKey("required", "properties") && !SameKey("required", "items")
    ensures !SameKey("items", "properties") && !SameKey("properties", "items")
  {
  }

  lemma SameKeyIsSymmetric(a: string, b: string, c: string)
    requires SameKey(a, b)
    ensures SameKey(a, c) <==> SameKey(b, c)
  {
  }

  lemma {:induction false} FindTruncated(members: seq<Member>, n: nat, key: string)
    requires key in {"type", "required", "properties", "items"}
    ensures var was, now := Find(members, key), Find(TruncateKeywords(members, n), key);
      && (was.None? <==> now.None?)
      && (key in {"type", "required"} ==> now == was)
      && (key == "properties" && was.Some? ==>
            now.value == if was.value.Object? then Object(TruncateEach(was.value.members, n)) else was.value)
      && (key == "items" && was.Some? ==>
            now.value == if was.value.Object? then Truncate(was.value, n) else was.value)
  {
    KeywordsDiffer();
    if members != [] {
      if SameKey(members[0].key, key) {
        SameKeyIsSymmetric(members[0].key, key, "properties");
        SameKeyIsSymmetric(members[0].key, key, "items");
      } else {
        FindTruncated(members[1..], n, key);
        assert TruncateKeywords(members, n)[1..] == TruncateKeywords(members[1..], n);
      }
    }
  }

  lemma KeywordTruncated(schema: Json, n: nat, key: string)
    requires n > 0 && key in {"type", "required", "properties", "items"}
    ensures var was, now := Get(schema, key), Get(Truncate(schema, n), key);
      && (was.None? <==> now.None?)
      && (key in {"type", "required"} ==> now == was)
      && (key == "properties" && was.Some? ==>
            now.value == if was.value.Object? then Object(TruncateEach(was.value.members, n - 1)) else was.value)
      && (key == "items" && was.Some? ==>
            now.value == if was.value.Object? then Truncate(was.value, n - 1) else was.value)
  {
    hide Find, TruncateKeywords, TruncateEach;
    if schema.Object? {
      FindTruncated(schema.members, n - 1, key);
    }
  }

  lemma TypesTruncated(schema: Json, n: nat, v: Json)
    requires n > 0
    ensures var t := Truncate(schema, n);
      (HasType(t, v) <==> HasType(schema, v)) && (HasRequired(t, v) <==> HasRequired(schema, v))
  {
    hide TypeOk, Get, Truncate;
    var t := Truncate(schema, n);
    KeywordTruncated(schema, n, "type");
    KeywordTruncated(schema, n, "required");
    assert StringAt(t, "type") == StringAt(schema, "type");
    assert Required(t) == Required(schema);
  }

  lemma PropertiesTruncated(schema: Json, n: nat)
    requires n > 0
    ensures Properties(Truncate(schema, n)) == TruncateEach(Properties(schema), n - 1)
  {
    hide Get, Truncate, TruncateEach;
    KeywordTruncated(schema, n, "properties");
    TruncateNone(n - 1);
  }

  lemma ItemsTruncated(schema: Json, n: nat)
    requires n > 0
    ensures var t := Truncate(schema, n);
      && Items(t).Some? == Items(schema).Some?
      && (Items(t).Some? ==>
            var s := Items(schema).value;
            Items(t).value == if s.Object? then Truncate(s, n - 1) else s)
  {
    hide Get;
    KeywordTruncated(schema, n, "items");
    if Get(schema, "items").Some? {
      TruncateIsObject(Get(schema, "items").value, n - 1);
    }
  }

  lemma TruncateIsObject(s: Json, n: nat)
    ensures s.Object? ==> Truncate(s, n).Object?
  {
  }

  lemma TruncateNone(n: nat)
    ensures TruncateEach([], n) == []
  {
  }

  // An array in the place of a schema constrains nothing.
  lemma ArrayConstrainsNothing(schema: Json, v: Json)
    requires schema.Array?
    ensures Conforms(schema, v) && forall n :: ConformsWithin(schema, v, n)
  {
  }

  lemma ObjectsTruncated(schema: Json, v: Json, n: nat)
    requires n > 0 && !v.Array?
    requires v.Object? ==> forall i | 0 <= i < |Properties(schema)| && Get(v, Properties(schema)[i].key).Some? ::
      var p, w := Properties(schema)[i], Get(v, Properties(schema)[i].key).value;
      ConformsWithin(p.value, w, n - 1) <==> Conforms(Truncate(p.value, n - 1), w)
    ensures ConformsWithin(schema, v, n) <==> Conforms(Truncate(schema, n), v)
  {
    hide HasType, HasRequired, Properties, Items, Truncate, TruncateEach, Get;
    TypesTruncated(schema, n, v);
    PropertiesTruncated(schema, n);
    var ps, qs := Properties(schema), Properties(Truncate(schema, n));
    assert forall i | 0 <= i < |ps| :: qs[i].key == ps[i].key && qs[i].value == Truncate(ps[i].value, n - 1);
  }

  lemma ArraysTruncated(schema: Json, v: Json, n: nat)
    requires n > 0 && v.Array?
    requires Items(schema).Some? && Items(schema).value.Object? ==> forall i | 0 <= i < |v.items| ::
      var s, w := Items(schema).value, v.items[i];
      ConformsWithin(s, w, n - 1) <==> Conforms(Truncate(s, n - 1), w)
    ensures ConformsWithin(schema, v, n) <==> Conforms(Truncate(schema, n), v)
  {
    hide HasType, HasRequired, Properties, Items, Truncate;
    TypesTruncated(schema, n, v);
    ItemsTruncated(schema, n);
    ItemIsObjectOrArray(schema);
    if Items(schema).Some? && Items(schema).value.Array? {
      forall i | 0 <= i < |v.items|
        ensures ConformsWithin(Items(schema).value, v.items[i], n - 1) && Conforms(Items(schema).value, v.items[i])
      {
        ArrayConstrainsNothing(Items(schema).value, v.items[i]);
      }
    }
  }

  // For every schema and value: schema_check accepts exactly what the truncated schema means.
  lemma {:induction false} ChecksTheTruncated(schema: Json, v: Json, n: nat)
    ensures ConformsWithin(schema, v, n) <==> Conforms(Truncate(schema, n), v)
    decreases n
  {
    hide Truncate, ConformsWithin, Conforms, Items, Properties, Get;
    if n == 0 {
      NothingLeft(schema, v);
    } else if v.Array? {
      forall i | 0 <= i < |v.items| && Items(schema).Some?
        ensures ConformsWithin(Items(schema).value, v.items[i], n - 1)
          <==> Conforms(Truncate(Items(schema).value, n - 1), v.items[i])
      {
        ChecksTheTruncated(Items(schema).value, v.items[i], n - 1);
      }
      ArraysTruncated(schema, v, n);
    } else {
      var ps := Properties(schema);
      forall i | 0 <= i < |ps| && Get(v, ps[i].key).Some?
        ensures ConformsWithin(ps[i].value, Get(v, ps[i].key).value, n - 1)
          <==> Conforms(Truncate(ps[i].value, n - 1), Get(v, ps[i].key).value)
      {
        ChecksTheTruncated(ps[i].value, Get(v, ps[i].key).value, n - 1);
      }
      ObjectsTruncated(schema, v, n);
    }
  }

  lemma NothingLeft(schema: Json, v: Json)
    ensures ConformsWithin(schema, v, 0) && Conforms(Truncate(schema, 0), v)
  {
  }

  lemma ItemIsObjectOrArray(schema: Json)
    ensures Items(schema).Some? ==> Items(schema).value.Object? || Items(schema).value.Array?
  {
  }

  // ----- the limit is met: a chain of `items` -----

  function Chain(k: nat): Json {
    if k == 0 then Object([Member("type", Str("string"))]) else Object([Member("items", Chain(k - 1))])
  }

  function Nest(k: nat): Json { if k == 0 then Null else Array([Nest(k - 1)]) }

  // The violation lies k levels down: it is found exactly when more than k levels are looked at.
  lemma {:induction false} ChainIsSeenIff(k: nat, n: nat)
    ensures !Conforms(Chain(k), Nest(k)) && (ConformsWithin(Chain(k), Nest(k), n) <==> n <= k)
  {
    if k == 0 {
      var members := [Member("type", Str("string"))];
      assert Find(members, "type") == Some(Str("string"));
    } else {
      var members := [Member("items", Chain(k - 1))];
      assert members[1..] == [] && Find(members[1..], "type") == None;
      assert !SameKey("items", "type") && !SameKey("items", "required");
      assert Get(Chain(k), "type") == None;
      assert Items(Chain(k)) == Some(Chain(k - 1)) && HasType(Chain(k), Nest(k));
      assert Nest(k).items[0] == Nest(k - 1);
      if n > 0 {
        ChainIsSeenIff(k - 1, n - 1);
      } else {
        ChainIsSeenIff(k - 1, 0);
      }
    }
  }

  // So a violation 33 levels down is accepted although the value does not conform.
  lemma DepthLimitAccepts()
    ensures !Conforms(Chain(33), Nest(33)) && ConformsWithin(Chain(33), Nest(33), 33)
  {
    ChainIsSeenIff(LEVELS, LEVELS);
  }
}
