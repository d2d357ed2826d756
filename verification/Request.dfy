/**
 acta_runner/src/run.c: reading a model revision's configuration and building the chat request;
 acta_runner/src/dialect.c: what the two dialects add.
 */
module Request {
  import opened Db
  import opened Json

  datatype ModelRest = ModelRest(
    description: Option<string>, backend: string, baseUrl: Option<string>, identifier: string,
    configuration: Option<string>)

  datatype SkillRest = SkillRest(description: Option<string>, prompt: string, outputSchema: Option<string>)

  datatype Fault =
    | NotFound | ContextMissing | SkillMissing | ModelMissing | NoEndpoint | UnsupportedBackend | EmptyContext
    | ConfigNotJson | BadTemperature | BadMaxTokens | BadTopK | BadResponseFormat | UnknownKeys
    | SchemaNotJson | PromptTooLarge

  datatype Result<+T> = Ok(value: T) | Err(fault: Fault)

  datatype Dialect = LlamaCpp | OpenAi

  // dialect_from_string
  function DialectOf(backend: string): Option<Dialect> {
    if backend == "llamacpp" then Some(LlamaCpp) else if backend == "openai" then Some(OpenAi) else None
  }

  // ----- configuration -----

  // temperature < 0, max_tokens 0 and top_k 0 mean: not sent.
  datatype Knobs = Knobs(temperature: real, maxTokens: int, topK: int, supportsResponseFormat: bool)

  const KNOWN := ["temperature", "max_tokens", "top_k", "supports_response_format"]

  const UNKNOWN_ROOM := 256

  predicate NumberOrAbsent(v: Option<Json>) { v.Some? ==> v.value.Number? }

  predicate PositiveOrAbsent(v: Option<Json>) { v.Some? ==> v.value.Number? && v.value.n > 0.0 }

  predicate BoolOrAbsent(v: Option<Json>) { v.Some? ==> v.value.Bool? }

  predicate TypesOk(cfg: Json) {
    && NumberOrAbsent(Get(cfg, "temperature"))
    && PositiveOrAbsent(Get(cfg, "max_tokens")) && PositiveOrAbsent(Get(cfg, "top_k"))
    && BoolOrAbsent(Get(cfg, "supports_response_format"))
  }

  // An unknown name that is noticed: one that fits the buffer of 256, and is not empty
  predicate Noticed(key: string) { key !in KNOWN && 0 < |key| < UNKNOWN_ROOM - 2 }

  predicate NoneNoticed(cfg: Json) {
    cfg.Object? ==> forall i | 0 <= i < |cfg.members| :: !Noticed(cfg.members[i].key)
  }

  function KnobsOf(cfg: Json): Knobs
    requires TypesOk(cfg)
  {
    var t, m := Get(cfg, "temperature"), Get(cfg, "max_tokens");
    var k, s := Get(cfg, "top_k"), Get(cfg, "supports_response_format");
    Knobs(if t.Some? then t.value.n else -1.0, if m.Some? then m.value.n.Floor else 0,
          if k.Some? then k.value.n.Floor else 0, if s.Some? then s.value.b else true)
  }

  function FirstFault(cfg: Json): Fault {
    if !NumberOrAbsent(Get(cfg, "temperature")) then BadTemperature
    else if !PositiveOrAbsent(Get(cfg, "max_tokens")) then BadMaxTokens
    else if !PositiveOrAbsent(Get(cfg, "top_k")) then BadTopK
    else if !BoolOrAbsent(Get(cfg, "supports_response_format")) then BadResponseFormat
    else UnknownKeys
  }

  function Configured(cfg: Json): Result<Knobs> {
    if TypesOk(cfg) && NoneNoticed(cfg) then Ok(KnobsOf(cfg)) else Err(FirstFault(cfg))
  }

  // The loop that collects unknown names in `char unknown[256]`
  method CollectUnknown(members: seq<Member>) returns (unknown: string)
    ensures |unknown| < 256
    ensures unknown == [] <==> forall i | 0 <= i < |members| :: !Noticed(members[i].key)
  {
    unknown := [];
    var i := 0;
    while i < |members|
      invariant i <= |members| && |unknown| < UNKNOWN_ROOM
      invariant unknown == [] <==> forall j | 0 <= j < i :: !Noticed(members[j].key)
    {
      var key := members[i].key;
      if key !in KNOWN && |unknown| + |key| + 2 < UNKNOWN_ROOM {
        if unknown != [] {
          unknown := unknown + [','];
        }
        unknown := unknown + key;
      }
      i := i + 1;
    }
  }

  // The configuration block of run_execution_dialect
  method ReadConfiguration(cfg: Json) returns (r: Result<Knobs>)
    ensures r == Configured(cfg)
    ensures var t, m := Get(cfg, "temperature"), Get(cfg, "max_tokens");
      var k, s := Get(cfg, "top_k"), Get(cfg, "supports_response_format");
      r == if t.Some? && !t.value.Number? then Err(BadTemperature)
           else if m.Some? && !(m.value.Number? && m.value.n > 0.0) then Err(BadMaxTokens)
           else if k.Some? && !(k.value.Number? && k.value.n > 0.0) then Err(BadTopK)
           else if s.Some? && !s.value.Bool? then Err(BadResponseFormat)
           else if !NoneNoticed(cfg) then Err(UnknownKeys)
           else Ok(Knobs(if t.Some? then t.value.n else -1.0, if m.Some? then m.value.n.Floor else 0,
                         if k.Some? then k.value.n.Floor else 0, if s.Some? then s.value.b else true))
  {
    hide Find, Noticed;
    var temperature, maxTokens, topK, supports := -1.0, 0, 0, true;
    var kv := Get(cfg, "temperature");
    if kv.Some? && !kv.value.Number? {
      return Err(BadTemperature);
    }
    if kv.Some? {
      temperature := kv.value.n;
    }
    kv := Get(cfg, "max_tokens");
    if kv.Some? && (!kv.value.Number? || kv.value.n <= 0.0) {
      return Err(BadMaxTokens);
    }
    if kv.Some? {
      maxTokens := kv.value.n.Floor;
    }
    kv := Get(cfg, "top_k");
    if kv.Some? && (!kv.value.Number? || kv.value.n <= 0.0) {
      return Err(BadTopK);
    }
    if kv.Some? {
      topK := kv.value.n.Floor;
    }
    kv := Get(cfg, "supports_response_format");
    if kv.Some? && !kv.value.Bool? {
      return Err(BadResponseFormat);
    }
    if kv.Some? {
      supports := kv.value.b;
    }
    var unknown := CollectUnknown(if cfg.Object? then cfg.members else []);
    if unknown != [] {
      return Err(UnknownKeys);
    }
    r := Ok(Knobs(temperature, maxTokens, topK, supports));
  }

  predicate Names(cfg: Json, key: string) {
    cfg.Object? && exists i | 0 <= i < |cfg.members| :: cfg.members[i].key == key
  }

  // "Unknown keys are a hard error": name by name, exactly those are that are neither empty nor too long to be noted.
  lemma UnknownKeyIsRefusedIff(key: string)
    requires key !in KNOWN
    ensures (forall cfg | TypesOk(cfg) && Names(cfg, key) :: Configured(cfg) == Err(UnknownKeys))
      <==> 0 < |key| < 254
  {
    if 0 < |key| < UNKNOWN_ROOM - 2 {
      assert Noticed(key);
    } else {
      OverlookedKeyIsAccepted(key);
      assert Object([Member(key, Null)]).members[0].key == key;
      assert Names(Object([Member(key, Null)]), key);
    }
  }

  lemma OverlookedKeyIsAccepted(key: string)
    requires key == [] || |key| >= 254
    ensures var cfg := Object([Member(key, Null)]);
      key !in KNOWN && TypesOk(cfg) && Configured(cfg) == Ok(Knobs(-1.0, 0, 0, true))
  {
    var cfg := Object([Member(key, Null)]);
    assert |KNOWN[0]| == 11 && |KNOWN[1]| == 10 && |KNOWN[2]| == 5 && |KNOWN[3]| == 24;
    forall name | name in KNOWN ensures Get(cfg, name) == None {
      NoMember(key, name);
    }
    assert KNOWN[0] in KNOWN && KNOWN[1] in KNOWN && KNOWN[2] in KNOWN && KNOWN[3] in KNOWN;
    hide Get;
    assert cfg.members[0].key == key;
  }

  lemma NoMember(key: string, name: string)
    requires |key| != |name|
    ensures Get(Object([Member(key, Null)]), name) == None
  {
    var members := [Member(key, Null)];
    assert !SameKey(members[0].key, name) && Find(members[1..], name) == None;
  }

  // ----- the request body -----

  // build_response_format
  function Envelope(d: Dialect, schema: Json): Json {
    match d
    case LlamaCpp => Object([Member("type", Str("json_schema")), Member("schema", schema)])
    case OpenAi =>
      Object([Member("type", Str("json_schema")),
              Member("json_schema", Object([Member("name", Str("acta_output")), Member("strict", Bool(true)),
                                            Member("schema", schema)]))])
  }

  function Message(role: string, content: string): Json {
    Object([Member("role", Str(role)), Member("content", Str(content))])
  }

  function Messages(system: string, user: string): Json {
    Array((if system != [] then [Message("system", system)] else []) + [Message("user", user)])
  }

  function Opt(present: bool, key: string, value: Json): seq<Member> {
    if present then [Member(key, value)] else []
  }

  function Body(d: Dialect, identifier: string, system: string, user: string, k: Knobs, schema: Option<Json>): Json {
    Object([Member("model", Str(identifier)), Member("messages", Messages(system, user))]
      + Opt(k.temperature >= 0.0, "temperature", Number(k.temperature))
      + Opt(k.maxTokens > 0, "max_tokens", Number(k.maxTokens as real))
      + Opt(k.topK > 0 && d == LlamaCpp, "top_k", Number(k.topK as real))
      + Opt(schema.Some? && k.supportsResponseFormat, "response_format",
            if schema.Some? then Envelope(d, schema.value) else Null))
  }

  // Step 4 of the pipeline
  method BuildBody(d: Dialect, identifier: string, system: string, user: string, k: Knobs, schema: Option<Json>)
    returns (req: Json)
    ensures req == Body(d, identifier, system, user, k, schema)
  {
    var members := [Member("model", Str(identifier))];
    var msgs := [];
    if system != [] {
      msgs := msgs + [Message("system", system)];
    }
    msgs := msgs + [Message("user", user)];
    assert msgs == Messages(system, user).items;
    members := members + [Member("messages", Array(msgs))];
    ghost var b0 := members;
    assert b0 == [Member("model", Str(identifier)), Member("messages", Messages(system, user))];
    if k.temperature >= 0.0 {
      members := members + [Member("temperature", Number(k.temperature))];
    }
    ghost var b1 := members;
    assert b1 == b0 + Opt(k.temperature >= 0.0, "temperature", Number(k.temperature));
    if k.maxTokens > 0 {
      members := members + [Member("max_tokens", Number(k.maxTokens as real))];
    }
    ghost var b2 := members;
    assert b2 == b1 + Opt(k.maxTokens > 0, "max_tokens", Number(k.maxTokens as real));
    if k.topK > 0 && d == LlamaCpp {
      members := members + [Member("top_k", Number(k.topK as real))];
    }
    ghost var b3 := members;
    assert b3 == b2 + Opt(k.topK > 0 && d == LlamaCpp, "top_k", Number(k.topK as real));
    if schema.Some? && k.supportsResponseFormat {
      members := members + [Member("response_format", Envelope(d, schema.value))];
    }
    assert members == b3 + Opt(schema.Some? && k.supportsResponseFormat, "response_format",
                               if schema.Some? then Envelope(d, schema.value) else Null);
    req := Object(members);
  }

  lemma TwoMembers(k0: string, v0: Json, k1: string, v1: Json, key: string)
    ensures var found := Find([Member(k0, v0), Member(k1, v1)], key);
      found == if SameKey(k0, key) then Some(v0) else if SameKey(k1, key) then Some(v1) else None
  {
    assert [Member(k0, v0), Member(k1, v1)][1..] == [Member(k1, v1)] && [Member(k1, v1)][1..] == [];
    assert Find([Member(k1, v1)], key) == if SameKey(k1, key) then Some(v1) else None;
  }

  lemma OptFind(front: seq<Member>, present: bool, name: string, value: Json, key: string)
    ensures Find(front + Opt(present, name, value), key) ==
      if Find(front, key).None? && present && SameKey(name, key) then Some(value) else Find(front, key)
  {
    FindConcat(front, Opt(present, name, value), key);
    if present {
      assert [Member(name, value)][1..] == [];
    }
  }

  // Names in a request are told apart by length, "model" and "top_k" by their first letter.
  lemma NamesDiffer()
    ensures !SameKey("model", "top_k") && !SameKey("top_k", "model")
  {
    assert Lower("model"[0]) != Lower("top_k"[0]);
  }

  // Reading the body back: each part is there, and only where the dialect has a place for it.
  lemma BodyReadsBack(d: Dialect, identifier: string, system: string, user: string, k: Knobs, schema: Option<Json>)
    ensures var body := Body(d, identifier, system, user, k, schema);
      && Get(body, "model") == Some(Str(identifier))
      && Get(body, "messages") == Some(Messages(system, user))
      && Get(body, "temperature") == (if k.temperature >= 0.0 then Some(Number(k.temperature)) else None)
      && Get(body, "max_tokens") == (if k.maxTokens > 0 then Some(Number(k.maxTokens as real)) else None)
      && Get(body, "top_k") == (if k.topK > 0 && d == LlamaCpp then Some(Number(k.topK as real)) else None)
      && Get(body, "response_format")
         == (if schema.Some? && k.supportsResponseFormat then Some(Envelope(d, schema.value)) else None)
  {
    hide Body, Get, Envelope, Messages;
    NamesDiffer();
    BodyRead(d, identifier, system, user, k, schema, "model");
    BodyRead(d, identifier, system, user, k, schema, "messages");
    BodyRead(d, identifier, system, user, k, schema, "temperature");
    BodyRead(d, identifier, system, user, k, schema, "max_tokens");
    BodyRead(d, identifier, system, user, k, schema, "top_k");
    BodyRead(d, identifier, system, user, k, schema, "response_format");
  }

  function Read(d: Dialect, identifier: string, system: string, user: string, k: Knobs, schema: Option<Json>,
                key: string): Option<Json> {
    if SameKey("model", key) then Some(Str(identifier))
    else if SameKey("messages", key) then Some(Messages(system, user))
    else if k.temperature >= 0.0 && SameKey("temperature", key) then Some(Number(k.temperature))
    else if k.maxTokens > 0 && SameKey("max_tokens", key) then Some(Number(k.maxTokens as real))
    else if k.topK > 0 && d == LlamaCpp && SameKey("top_k", key) then Some(Number(k.topK as real))
    else if schema.Some? && k.supportsResponseFormat && SameKey("response_format", key)
    then Some(Envelope(d, schema.value))
    else None
  }

  lemma BodyRead(d: Dialect, identifier: string, system: string, user: string, k: Knobs, schema: Option<Json>,
                 key: string)
    ensures Get(Body(d, identifier, system, user, k, schema), key) == Read(d, identifier, system, user, k, schema, key)
  {
    hide SameKey, Opt;
    var b0 := [Member("model", Str(identifier)), Member("messages", Messages(system, user))];
    var b1 := b0 + Opt(k.temperature >= 0.0, "temperature", Number(k.temperature));
    var b2 := b1 + Opt(k.maxTokens > 0, "max_tokens", Number(k.maxTokens as real));
    var b3 := b2 + Opt(k.topK > 0 && d == LlamaCpp, "top_k", Number(k.topK as real));
    TwoMembers("model", Str(identifier), "messages", Messages(system, user), key);
    OptFind(b0, k.temperature >= 0.0, "temperature", Number(k.temperature), key);
    OptFind(b1, k.maxTokens > 0, "max_tokens", Number(k.maxTokens as real), key);
    OptFind(b2, k.topK > 0 && d == LlamaCpp, "top_k", Number(k.topK as real), key);
    OptFind(b3, schema.Some? && k.supportsResponseFormat, "response_format",
            if schema.Some? then Envelope(d, schema.value) else Null, key);
  }

  // The two envelopes differ, and each holds the schema where its server looks for it.
  lemma EnvelopeHolds(schema: Json)
    ensures Get(Envelope(LlamaCpp, schema), "schema") == Some(schema)
    ensures Get(Envelope(LlamaCpp, schema), "json_schema") == None
    ensures Get(Envelope(OpenAi, schema), "schema") == None
    ensures Get(Envelope(OpenAi, schema), "json_schema").Some?
    ensures Get(Get(Envelope(OpenAi, schema), "json_schema").value, "schema") == Some(schema)
    ensures Get(Get(Envelope(OpenAi, schema), "json_schema").value, "name") == Some(Str("acta_output"))
    ensures Get(Get(Envelope(OpenAi, schema), "json_schema").value, "strict") == Some(Bool(true))
    ensures Get(Envelope(LlamaCpp, schema), "type") == Some(Str("json_schema"))
    ensures Get(Envelope(OpenAi, schema), "type") == Some(Str("json_schema"))
  {
    var strict := [Member("name", Str("acta_output")), Member("strict", Bool(true)), Member("schema", schema)];
    assert Lower("strict"[1]) != Lower("schema"[1]);
    assert strict[1..] == [strict[1], strict[2]] && strict[1..][1..] == [strict[2]];
    forall key | key in ["schema", "json_schema"] ensures
      && Get(Envelope(LlamaCpp, schema), key) == (if SameKey("schema", key) then Some(schema) else None)
      && Get(Envelope(OpenAi, schema), key) == if SameKey("json_schema", key) then Some(Object(strict)) else None
    {
      TwoMembers("type", Str("json_schema"), "schema", schema, key);
      TwoMembers("type", Str("json_schema"), "json_schema", Object(strict), key);
    }
    assert "schema" in ["schema", "json_schema"] && "json_schema" in ["schema", "json_schema"];
    assert Find(strict, "name") == Some(Str("acta_output"));
    assert Find(strict[1..], "strict") == Some(Bool(true));
    TwoMembers("type", Str("json_schema"), "schema", schema, "type");
    TwoMembers("type", Str("json_schema"), "json_schema", Object(strict), "type");
    assert Find([strict[2]], "schema") == Some(schema);
    assert Find([strict[1], strict[2]], "schema") == Some(schema);
  }

  // ----- from the rows to the request -----

  function Parsed(parse: string -> Option<Json>, text: Option<string>): Option<Json> {
    if text.Some? && text.value != [] then parse(text.value) else None
  }

  predicate Present(text: Option<string>) { text.Some? && text.value != [] }

  // Everything run_execution_dialect decides before it talks to the backend, from the three rows alone.
  // `override` is --dialect, `parse` is cJSON_Parse.
  function RequestOf(parse: string -> Option<Json>, override: Option<Dialect>, maxChars: int,
                     content: string, skill: SkillRest, model: ModelRest): Result<Json> {
    if !Present(model.baseUrl) || model.identifier == [] then Err(NoEndpoint)
    else if override.None? && DialectOf(model.backend).None? then Err(UnsupportedBackend)
    else if content == [] then Err(EmptyContext)
    else
      var cfg := Parsed(parse, model.configuration);
      if Present(model.configuration) && cfg.None? then Err(ConfigNotJson)
      else
        var knobs := if cfg.Some? then Configured(cfg.value) else Ok(Knobs(-1.0, 0, 0, true));
        if knobs.Err? then Err(knobs.fault)
        else
          var schema := Parsed(parse, skill.outputSchema);
          if Present(skill.outputSchema) && schema.None? then Err(SchemaNotJson)
          else if |content| + |skill.prompt| > maxChars then Err(PromptTooLarge)
          else
            var d := if override.Some? then override.value else DialectOf(model.backend).value;
            Ok(Body(d, model.identifier, skill.prompt, content, knobs.value, schema))
  }

  lemma MessageReadsBack(role: string, content: string)
    ensures Get(Message(role, content), "role") == Some(Str(role))
    ensures Get(Message(role, content), "content") == Some(Str(content))
  {
    assert |"role"| != |"content"|;
    TwoMembers("role", Str(role), "content", Str(content), "role");
    TwoMembers("role", Str(role), "content", Str(content), "content");
  }

  // What a request says: the conversation
  lemma MessagesReadBack(system: string, user: string)
    ensures Messages(system, user).Array?
    ensures var items := Messages(system, user).items;
      && |items| == (if system == [] then 1 else 2)
      && Get(items[|items| - 1], "role") == Some(Str("user"))
      && Get(items[|items| - 1], "content") == Some(Str(user))
      && (system != [] ==>
            Get(items[0], "role") == Some(Str("system")) && Get(items[0], "content") == Some(Str(system)))
  {
    hide Get, Message;
    MessageReadsBack("user", user);
    MessageReadsBack("system", system);
  }

  // The dialect a run uses
  predicate Speaks(override: Option<Dialect>, backend: string, d: Dialect) {
    match override
    case Some(o) => d == o
    case None => (backend == "llamacpp" && d == LlamaCpp) || (backend == "openai" && d == OpenAi)
  }

  // A request is built exactly when every check passes.
  lemma RequestIsBuiltIff(parse: string -> Option<Json>, override: Option<Dialect>, maxChars: int, content: string,
                          skill: SkillRest, model: ModelRest)
    ensures RequestOf(parse, override, maxChars, content, skill, model).Ok? <==>
      && model.baseUrl.Some? && model.baseUrl.value != [] && model.identifier != []
      && (override.Some? || model.backend in {"llamacpp", "openai"})
      && content != [] && |content| + |skill.prompt| <= maxChars
      && (model.configuration.Some? && model.configuration.value != [] ==>
            var cfg := parse(model.configuration.value); cfg.Some? && TypesOk(cfg.value) && NoneNoticed(cfg.value))
      && (skill.outputSchema.Some? && skill.outputSchema.value != [] ==> parse(skill.outputSchema.value).Some?)
  {
    hide TypesOk, NoneNoticed, Body;
  }

  // What the request then says, read off the rows
  lemma RequestSays(parse: string -> Option<Json>, override: Option<Dialect>, maxChars: int, content: string,
                    skill: SkillRest, model: ModelRest, d: Dialect)
    requires RequestOf(parse, override, maxChars, content, skill, model).Ok? && Speaks(override, model.backend, d)
    ensures var body := RequestOf(parse, override, maxChars, content, skill, model).value;
      var cfg := if model.configuration.Some? && model.configuration.value != []
                 then parse(model.configuration.value) else Some(Object([]));
      var schema := if skill.outputSchema.Some? && skill.outputSchema.value != []
                    then parse(skill.outputSchema.value) else None;
      && cfg.Some? && TypesOk(cfg.value)
      && Get(body, "model") == Some(Str(model.identifier))
      && Get(body, "messages") == Some(Messages(skill.prompt, content))
      && Get(body, "temperature") == (match Get(cfg.value, "temperature")
           case Some(Number(n)) => if n >= 0.0 then Some(Number(n)) else None
           case _ => None)
      && Get(body, "max_tokens") == (match Get(cfg.value, "max_tokens")
           case Some(Number(n)) => if n >= 1.0 then Some(Number(n.Floor as real)) else None
           case _ => None)
      && Get(body, "top_k") == (match Get(cfg.value, "top_k")
           case Some(Number(n)) => if n >= 1.0 && d == LlamaCpp then Some(Number(n.Floor as real)) else None
           case _ => None)
      && Get(body, "response_format") ==
           (if schema.Some? && Get(cfg.value, "supports_response_format") != Some(Bool(false))
            then Some(Envelope(d, schema.value)) else None)
  {
    var cfg := Parsed(parse, model.configuration);
    var knobs := if cfg.Some? then KnobsOf(cfg.value) else Knobs(-1.0, 0, 0, true);
    var schema := Parsed(parse, skill.outputSchema);
    hide Body, Messages, Envelope, NoneNoticed;
    BodyReadsBack(d, model.identifier, skill.prompt, content, knobs, schema);
  }
}
