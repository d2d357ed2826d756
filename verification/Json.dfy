/** JSON trees as cJSON holds them; parsing and printing are not part of this model. */
module Json {
  import opened Db

  datatype Json =
    | Null
    | Bool(b: bool)
    | Number(n: real)
    | Str(s: string)
    | Array(items: seq<Json>)
    | Object(members: seq<Member>)

  datatype Member = Member(key: string, value: Json)

  function Lower(c: char): char {
    if 'A' <= c <= 'Z' then c - 'A' + 'a' else c
  }

  predicate SameKey(a: string, b: string) {
    |a| == |b| && forall i | 0 <= i < |a| :: Lower(a[i]) == Lower(b[i])
  }

  // The first member of that name
  function Find(members: seq<Member>, key: string): Option<Json> {
    if members == [] then None
    else if SameKey(members[0].key, key) then Some(members[0].value)
    else Find(members[1..], key)
  }

  // cJSON_GetObjectItem: names are compared without regard to case.
  function Get(j: Json, key: string): Option<Json> {
    if j.Object? then Find(j.members, key) else None
  }

  lemma {:induction false} FindConcat(a: seq<Member>, b: seq<Member>, key: string)
    ensures Find(a + b, key) == if Find(a, key).Some? then Find(a, key) else Find(b, key)
  {
    if a == [] {
      assert a + b == b;
    } else {
      assert (a + b)[1..] == a[1..] + b;
      FindConcat(a[1..], b, key);
    }
  }
}
