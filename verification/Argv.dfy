/** acta_cli/src/argparse.c: the tokens of a command line, flags with their values and positionals */
module Argv {
  import opened Db

  datatype Spec = Spec(name: string, hasValue: bool)

  // entity_flag_specs
  function Specs(): seq<Spec> {
    [Spec("all", false), Spec("backend", true), Spec("base_url", true), Spec("configuration", true),
     Spec("content", true), Spec("content_file", true), Spec("context_id", true), Spec("count", false),
     Spec("deleted", false), Spec("description", true), Spec("error", true), Spec("event", true),
     Spec("execution_id", true), Spec("file", true), Spec("full", false), Spec("folder_id", true),
     Spec("hash", true), Spec("include_deleted", false), Spec("level", true), Spec("limit", true),
     Spec("message", true), Spec("metadata", true), Spec("model_identifier", true), Spec("model_revision_id", true),
     Spec("name", true), Spec("offset", true), Spec("output_schema", true), Spec("parent_execution_id", true),
     Spec("parent_id", true), Spec("prompt_template", true), Spec("raw", true), Spec("raw_file", true),
     Spec("result", true), Spec("result_file", true), Spec("skill_revision_id", true), Spec("sql", true),
     Spec("sql_stdin", false), Spec("status", true), Spec("stream", false), Spec("to", true), Spec("type", true)]
  }

  predicate Known(name: string) { exists k | 0 <= k < |Specs()| :: Specs()[k].name == name }

  // The first entry of that name decides; a name that is not listed takes a value.
  function HasValueFrom(name: string, k: nat): bool
    decreases |Specs()| - k
  {
    if k >= |Specs()| then true
    else if Specs()[k].name == name then Specs()[k].hasValue
    else HasValueFrom(name, k + 1)
  }

  function HasValue(name: string): bool { HasValueFrom(name, 0) }

  // flag_has_value
  method FlagHasValue(name: string) returns (b: bool)
    ensures b == HasValue(name)
  {
    hide Specs;
    var specs := Specs();
    var i := 0;
    while i < |specs|
      invariant i <= |specs| && HasValue(name) == HasValueFrom(name, i)
    {
      if specs[i].name == name {
        return specs[i].hasValue;
      }
      i := i + 1;
    }
    b := true;
  }

  // ----- tokens -----

  predicate IsFlag(tok: string) { |tok| >= 2 && tok[0] == '-' && tok[1] == '-' }

  predicate Inline(tok: string)
    requires IsFlag(tok)
  {
    '=' in tok[2..]
  }

  // A flag written apart from its value
  predicate TakesNext(tok: string) { IsFlag(tok) && !Inline(tok) && HasValue(tok[2..]) }

  datatype Role = Flag | FlagValue | Positional

  // What the token at i is: this looks one token back and no further.
  function RoleOf(argv: seq<string>, i: nat): Role
    requires i < |argv|
  {
    if IsFlag(argv[i]) then Flag
    else if i > 0 && TakesNext(argv[i - 1]) then FlagValue
    else Positional
  }

  // The indices of the positionals from p on
  function Positionals(argv: seq<string>, p: nat): (ps: seq<nat>)
    ensures forall k | 0 <= k < |ps| :: p <= ps[k] < |argv|
    decreases |argv| - p
  {
    if p >= |argv| then []
    else if RoleOf(argv, p) == Positional then [p] + Positionals(argv, p + 1)
    else Positionals(argv, p + 1)
  }

  // The tokens at these places
  function TextsAt(argv: seq<string>, ps: seq<nat>): (r: seq<string>)
    requires forall k | 0 <= k < |ps| :: ps[k] < |argv|
    ensures |r| == |ps| && forall k | 0 <= k < |ps| :: r[k] == argv[ps[k]]
  {
    if ps == [] then [] else [argv[ps[0]]] + TextsAt(argv, ps[1..])
  }

  // The positionals from p on
  function TextsFrom(argv: seq<string>, p: nat): seq<string> { TextsAt(argv, Positionals(argv, p)) }

  // p is not between a flag and its value.
  predicate Boundary(argv: seq<string>, p: nat) { p <= |argv| && (p < |argv| ==> RoleOf(argv, p) != FlagValue) }

  // One turn of the three walkers at a flag: over the flag and, where it takes one, over its value
  method SkipFlag(argv: seq<string>, p: nat) returns (q: nat)
    requires Boundary(argv, p) && p < |argv| && IsFlag(argv[p])
    ensures p < q <= |argv| && Boundary(argv, q) && Positionals(argv, q) == Positionals(argv, p)
  {
    hide HasValue;
    q := p + 1;
    if '=' in argv[p][2..] {
      return;
    }
    var takes := FlagHasValue(argv[p][2..]);
    if takes && q < |argv| && !IsFlag(argv[q]) {
      assert RoleOf(argv, q) == FlagValue;
      q := q + 1;
    }
  }

  lemma AtPositional(argv: seq<string>, p: nat)
    requires Boundary(argv, p) && p < |argv| && !IsFlag(argv[p])
    ensures Positionals(argv, p) == [p] + Positionals(argv, p + 1) && Boundary(argv, p + 1)
  {
    hide HasValue;
  }

  lemma NoneBehind(argv: seq<string>)
    ensures Positionals(argv, |argv|) == []
  {
  }

  class CmdArgs {
    var argv: seq<string>
    var pos: nat

    ghost predicate Valid()
      reads this
    {
      Boundary(argv, pos)
    }

    constructor (argv: seq<string>)
      ensures Valid() && this.argv == argv && pos == 0
    {
      this.argv, pos := argv, 0;
    }

    // cmd_args_next_positional
    method NextPositional() returns (tok: Option<string>)
      requires Valid()
      modifies this`pos
      ensures Valid()
      ensures var ps := Positionals(argv, old(pos));
        if ps == [] then tok == None && Positionals(argv, pos) == []
        else ps[0] < |argv| && tok == Some(argv[ps[0]]) && Positionals(argv, pos) == ps[1..]
      ensures TextsFrom(argv, old(pos)) == if tok.Some? then [tok.value] + TextsFrom(argv, pos) else []
      ensures tok.None? ==> TextsFrom(argv, pos) == []
    {
      hide HasValue;
      while pos < |argv|
        invariant Valid() && Positionals(argv, pos) == Positionals(argv, old(pos))
        decreases |argv| - pos
      {
        if !IsFlag(argv[pos]) {
          tok := Some(argv[pos]);
          pos := pos + 1;
          return;
        }
        pos := SkipFlag(argv, pos);
      }
      tok := None;
    }

    // cmd_args_count_positionals
    method CountPositionals() returns (n: nat)
      requires Valid()
      ensures n == |Positionals(argv, pos)|
    {
      n := 0;
      var p := pos;
      while p < |argv|
        invariant Boundary(argv, p) && n + |Positionals(argv, p)| == |Positionals(argv, pos)|
        decreases |argv| - p
      {
        if !IsFlag(argv[p]) {
          n, p := n + 1, p + 1;
        } else {
          p := SkipFlag(argv, p);
        }
      }
    }

    // cmd_args_kth_positional
    method KthPositional(k: int) returns (tok: Option<string>)
      requires Valid()
      ensures var ps := Positionals(argv, pos);
        if 0 <= k < |ps| then ps[k] < |argv| && tok == Some(argv[ps[k]]) else tok == None
    {
      assert pos <= |argv|;
      hide HasValue, RoleOf, Positionals, Boundary;
      NoneBehind(argv);
      var n, p := 0, pos;
      ghost var all := Positionals(argv, pos);
      while p < |argv|
        invariant p <= |argv| && Boundary(argv, p) && n <= |all| && (k < 0 || n <= k)
        invariant Positionals(argv, p) == all[n..]
        decreases |argv| - p
      {
        if !IsFlag(argv[p]) {
          AtPositional(argv, p);
          assert all[n] == p && all[n..][1..] == all[n + 1..];
          if n == k {
            return Some(argv[p]);
          }
          n, p := n + 1, p + 1;
        } else {
          p := SkipFlag(argv, p);
        }
      }
      tok := None;
    }

    // A caller that asks for the next positional until there is none gets the ones kth_positional indexes.
    method TakeAll() returns (toks: seq<string>)
      requires Valid()
      modifies this`pos
      ensures toks == TextsFrom(argv, old(pos))
    {
      hide Positionals, TextsFrom, RoleOf;
      ghost var all := TextsFrom(argv, pos);
      toks := [];
      var tok := NextPositional();
      while tok.Some?
        invariant Valid()
        invariant all == if tok.Some? then toks + [tok.value] + TextsFrom(argv, pos) else toks
        decreases |TextsFrom(argv, pos)|, tok.Some?
      {
        toks := toks + [tok.value];
        tok := NextPositional();
      }
    }

    // cmd_args_validate
    method Validate() returns (ok: bool)
      ensures ok <==> Accepted(argv)
      ensures ok <==>
        forall i {:trigger argv[i]} | 0 <= i < |argv| && |argv[i]| >= 2 && argv[i][0] == '-' && argv[i][1] == '-' ::
        && Known(NamePart(argv[i][2..]))
        && ('=' !in argv[i][2..] && HasValue(argv[i][2..]) ==>
              i + 1 < |argv| && !(|argv[i + 1]| >= 2 && argv[i + 1][0] == '-' && argv[i + 1][1] == '-'))
    {
      hide Specs, HasValue;
      AcceptedIs(argv);
      var i := 0;
      while i < |argv|
        invariant i <= |argv| && forall j | 0 <= j < i :: TokenOk(argv, j)
      {
        var tok := argv[i];
        if IsFlag(tok) {
          var name := NamePart(tok[2..]);
          var specs := Specs();
          var known, k := false, 0;
          while k < |specs| && !known
            invariant k <= |specs| && (known ==> Known(name))
            invariant !known ==> forall l | 0 <= l < k :: specs[l].name != name
          {
            known := |specs[k].name| == |name| && specs[k].name == name[..|specs[k].name|];
            k := k + 1;
          }
          if !known {
            assert !TokenOk(argv, i);
            return false;
          }
          var takes := FlagHasValue(tok[2..]);
          if takes && '=' !in tok[2..] && (i + 1 >= |argv| || IsFlag(argv[i + 1])) {
            assert !TokenOk(argv, i);
            return false;
          }
        }
        i := i + 1;
      }
      ok := true;
    }

    // cmd_args_flag
    method GetFlag(name: string, hasValue: bool) returns (v: Option<string>)
      ensures v == FlagLookup(argv, name, hasValue, 0)
    {
      var i := 0;
      while i < |argv|
        invariant i <= |argv| && FlagLookup(argv, name, hasValue, 0) == FlagLookup(argv, name, hasValue, i)
      {
        var tok := argv[i];
        if PrefixMatch(tok, name) {
          if |tok| > 2 + |name| && tok[2 + |name|] == '=' {
            return Some(tok[2 + |name| + 1..]);
          }
          if hasValue && i + 1 < |argv| && !IsFlag(argv[i + 1]) {
            return Some(argv[i + 1]);
          }
          return None;
        }
        i := i + 1;
      }
      v := None;
    }
  }

  // The name of a flag: up to the first '='
  function NamePart(s: string): (n: string)
    ensures '=' !in n && n <= s && (|n| < |s| ==> s[|n|] == '=')
  {
    if s == [] || s[0] == '=' then [] else [s[0]] + NamePart(s[1..])
  }

  // Every flag is known, and has its value when it takes one.
  predicate TokenOk(argv: seq<string>, i: nat)
    requires i < |argv|
  {
    IsFlag(argv[i]) ==>
      && Known(NamePart(argv[i][2..]))
      && (TakesNext(argv[i]) ==> i + 1 < |argv| && !IsFlag(argv[i + 1]))
  }

  // ... written out
  lemma AcceptedIs(argv: seq<string>)
    ensures Accepted(argv) <==>
      forall i {:trigger argv[i]} | 0 <= i < |argv| && |argv[i]| >= 2 && argv[i][0] == '-' && argv[i][1] == '-' ::
        && Known(NamePart(argv[i][2..]))
        && ('=' !in argv[i][2..] && HasValue(argv[i][2..]) ==>
              i + 1 < |argv| && !(|argv[i + 1]| >= 2 && argv[i + 1][0] == '-' && argv[i + 1][1] == '-'))
  {
    hide HasValue, Known, NamePart;
    if Accepted(argv) {
      forall i {:trigger argv[i]} | 0 <= i < |argv| && |argv[i]| >= 2 && argv[i][0] == '-' && argv[i][1] == '-'
        ensures Known(NamePart(argv[i][2..]))
        ensures '=' !in argv[i][2..] && HasValue(argv[i][2..]) ==>
          i + 1 < |argv| && !(|argv[i + 1]| >= 2 && argv[i + 1][0] == '-' && argv[i + 1][1] == '-')
      {
        assert TokenOk(argv, i) && IsFlag(argv[i]);
      }
    } else {
      var i :| 0 <= i < |argv| && !TokenOk(argv, i);
      assert IsFlag(argv[i]) && |argv[i]| >= 2 && argv[i][0] == '-' && argv[i][1] == '-';
      assert !Known(NamePart(argv[i][2..])) || TakesNext(argv[i]);
    }
  }

  // The role of a token: "--" begins a flag, and a token behind a flag without "=" that takes a value is that value.
  lemma RolesAre(argv: seq<string>, i: nat)
    requires i < |argv|
    ensures RoleOf(argv, i) == Flag <==> "--" <= argv[i]
    ensures RoleOf(argv, i) == FlagValue <==>
      !("--" <= argv[i]) && i > 0 && "--" <= argv[i - 1] && '=' !in argv[i - 1][2..] && HasValue(argv[i - 1][2..])
  {
    hide HasValue;
  }

  predicate Accepted(argv: seq<string>) { forall i | 0 <= i < |argv| :: TokenOk(argv, i) }

  // flag_prefix_match: --name or --name=...
  predicate PrefixMatch(tok: string, name: string) {
    IsFlag(tok) && name <= tok[2..] && (|tok| == 2 + |name| || tok[2 + |name|] == '=')
  }

  function FlagLookup(argv: seq<string>, name: string, hasValue: bool, i: nat): Option<string>
    decreases |argv| - i
  {
    if i >= |argv| then None
    else if !PrefixMatch(argv[i], name) then FlagLookup(argv, name, hasValue, i + 1)
    else if |argv[i]| > 2 + |name| then Some(argv[i][2 + |name| + 1..])
    else if hasValue && i + 1 < |argv| && !IsFlag(argv[i + 1]) then Some(argv[i + 1])
    else None
  }

  // A token of that name: "--name" or "--name=..."
  lemma PrefixMatchIs(tok: string, name: string)
    ensures PrefixMatch(tok, name) <==> tok == "--" + name || "--" + name + "=" <= tok
  {
    if PrefixMatch(tok, name) {
      assert tok == "--" + tok[2..];
      if |tok| > 2 + |name| {
        assert tok == "--" + name + "=" + tok[3 + |name|..];
      }
    }
    if tok == "--" + name || "--" + name + "=" <= tok {
      assert tok[2..][..|name|] == name;
    }
  }

  // The first token of the name decides.
  lemma {:induction false} FirstTokenDecides(argv: seq<string>, name: string, hasValue: bool, i: nat, k: nat)
    requires i <= k <= |argv| && forall j | i <= j < k :: !PrefixMatch(argv[j], name)
    requires k < |argv| ==> PrefixMatch(argv[k], name)
    ensures FlagLookup(argv, name, hasValue, i) ==
      if k == |argv| then None
      else if argv[k] != "--" + name then (if |argv[k]| > 2 + |name| then Some(argv[k][3 + |name|..]) else None)
      else if hasValue && k + 1 < |argv| && !("--" <= argv[k + 1]) then Some(argv[k + 1])
      else None
    decreases k - i
  {
    hide PrefixMatch;
    if i < k {
      FirstTokenDecides(argv, name, hasValue, i + 1, k);
    } else if k < |argv| {
      PrefixMatchIs(argv[k], name);
    }
  }

  // ----- accepted command lines -----

  function CountRole(argv: seq<string>, r: Role, n: nat): nat
    requires n <= |argv|
  {
    if n == 0 then 0 else CountRole(argv, r, n - 1) + if RoleOf(argv, n - 1) == r then 1 else 0
  }

  function CountTaking(argv: seq<string>, n: nat): nat
    requires n <= |argv|
  {
    if n == 0 then 0 else CountTaking(argv, n - 1) + if TakesNext(argv[n - 1]) then 1 else 0
  }

  // Accepted tokens fall into flags, values and positionals: each flag that takes a value has its own, the next token,
  // and each value has its flag; nothing is left over.
  lemma AcceptedPartition(argv: seq<string>)
    requires Accepted(argv)
    ensures forall i | 0 <= i < |argv| && TakesNext(argv[i]) :: i + 1 < |argv| && RoleOf(argv, i + 1) == FlagValue
    ensures forall i | 0 <= i < |argv| && RoleOf(argv, i) == FlagValue :: i > 0 && TakesNext(argv[i - 1])
    ensures CountRole(argv, FlagValue, |argv|) == CountTaking(argv, |argv|)
    ensures CountRole(argv, Flag, |argv|) + CountRole(argv, FlagValue, |argv|) + |Positionals(argv, 0)| == |argv|
  {
    hide HasValue, Known;
    forall i | 0 <= i < |argv| && TakesNext(argv[i]) ensures i + 1 < |argv| && RoleOf(argv, i + 1) == FlagValue {
      assert TokenOk(argv, i);
    }
    ValuesFollow(argv, |argv|);
    RolesAddUp(argv, 0);
  }

  lemma {:induction false} ValuesFollow(argv: seq<string>, n: nat)
    requires n <= |argv|
    requires forall i | 0 <= i < |argv| && TakesNext(argv[i]) :: i + 1 < |argv| && RoleOf(argv, i + 1) == FlagValue
    ensures CountRole(argv, FlagValue, n) + (if n > 0 && TakesNext(argv[n - 1]) then 1 else 0) == CountTaking(argv, n)
  {
    hide HasValue;
    if n > 0 {
      ValuesFollow(argv, n - 1);
    }
  }

  // Of the tokens from p on, those that are neither flags nor values are the positionals.
  lemma {:induction false} RolesAddUp(argv: seq<string>, p: nat)
    requires p <= |argv|
    ensures CountRole(argv, Flag, p) + CountRole(argv, FlagValue, p) + |argv| - p
      == CountRole(argv, Flag, |argv|) + CountRole(argv, FlagValue, |argv|) + |Positionals(argv, p)|
    decreases |argv| - p
  {
    if p < |argv| {
      RolesAddUp(argv, p + 1);
    }
  }

  // ----- the value of a flag -----

  // v, if any, is the inline part of the first token of that name, or the value token that follows it.
  ghost predicate IsOwnValue(argv: seq<string>, name: string, v: Option<string>) {
    v.Some? ==> exists i | 0 <= i < |argv| :: PrefixMatch(argv[i], name) && OwnValueAt(argv, name, i, v.value)
  }

  predicate OwnValueAt(argv: seq<string>, name: string, i: nat, value: string)
    requires i < |argv| && PrefixMatch(argv[i], name)
  {
    if |argv[i]| > 2 + |name| then value == argv[i][3 + |name|..]
    else i + 1 < |argv| && RoleOf(argv, i + 1) == FlagValue && value == argv[i + 1]
  }

  lemma SpaceFormTakes(tok: string, name: string)
    requires '=' !in name && PrefixMatch(tok, name) && |tok| == 2 + |name|
    ensures TakesNext(tok) <==> HasValue(name)
  {
    assert tok[2..] == name;
  }

  lemma {:induction false} LookupIsOwn(argv: seq<string>, name: string, i: nat)
    requires '=' !in name && HasValue(name)
    ensures IsOwnValue(argv, name, FlagLookup(argv, name, true, i))
    decreases |argv| - i
  {
    hide HasValue;
    if i < |argv| {
      if !PrefixMatch(argv[i], name) {
        LookupIsOwn(argv, name, i + 1);
      } else if |argv[i]| == 2 + |name| {
        SpaceFormTakes(argv[i], name);
        assert FlagLookup(argv, name, true, i).Some? ==> OwnValueAt(argv, name, i, argv[i + 1]);
      }
    }
  }

  // cmd_args_flag, asked for a value, never hands out a positional: so exactly for names that do take a value.
  lemma FlagGivesItsOwnValueIff(name: string)
    requires '=' !in name
    ensures (forall argv :: IsOwnValue(argv, name, FlagLookup(argv, name, true, 0))) <==> HasValue(name)
  {
    hide HasValue;
    if HasValue(name) {
      forall argv ensures IsOwnValue(argv, name, FlagLookup(argv, name, true, 0)) {
        LookupIsOwn(argv, name, 0);
      }
    } else {
      var flag := "--" + name;
      var argv := [flag, "x"];
      assert flag[2..] == name && PrefixMatch(argv[0], name) && !PrefixMatch(argv[1], name);
      SpaceFormTakes(flag, name);
      assert FlagLookup(argv, name, true, 0) == Some("x");
      assert !IsOwnValue(argv, name, Some("x"));
    }
  }

  // On an accepted command line a value that was given is found.
  lemma {:induction false} GivenValueIsFound(argv: seq<string>, name: string, i: nat, k: nat)
    requires Accepted(argv) && '=' !in name && HasValue(name)
    requires i <= k < |argv| && PrefixMatch(argv[k], name)
    ensures FlagLookup(argv, name, true, i).Some?
    decreases k - i
  {
    hide HasValue, Known;
    if !PrefixMatch(argv[i], name) {
      GivenValueIsFound(argv, name, i + 1, k);
    } else if |argv[i]| == 2 + |name| {
      SpaceFormTakes(argv[i], name);
      assert TokenOk(argv, i);
    }
  }

  // ----- aliases -----

  // --deleted, with or without an inline part, stands for --include_deleted.
  function Alias(tok: string): string {
    if PrefixMatch(tok, "deleted") then "--include_deleted" else tok
  }

  lemma AliasIs(tok: string)
    ensures Alias(tok) == if tok == "--deleted" || "--deleted=" <= tok then "--include_deleted" else tok
  {
    PrefixMatchIs(tok, "deleted");
    assert "--" + "deleted" == "--deleted" && "--deleted" + "=" == "--deleted=";
  }

  // apply_flag_aliases
  method ApplyFlagAliases(argv: array<string>)
    modifies argv
    ensures forall i | 0 <= i < argv.Length :: argv[i] == Alias(old(argv[i]))
  {
    var i := 0;
    while i < argv.Length
      invariant i <= argv.Length
      invariant forall j | 0 <= j < i :: argv[j] == Alias(old(argv[j]))
      invariant forall j | i <= j < argv.Length :: argv[j] == old(argv[j])
    {
      if PrefixMatch(argv[i], "deleted") {
        argv[i] := "--include_deleted";
      }
      i := i + 1;
    }
  }

  lemma {:induction false} FirstOfName(name: string, i: nat, k: nat)
    requires i <= k < |Specs()| && Specs()[k].name == name && forall j | i <= j < k :: Specs()[j].name != name
    ensures HasValueFrom(name, i) == Specs()[k].hasValue && Known(name)
    decreases k - i
  {
    hide Specs;
    if i < k {
      FirstOfName(name, i + 1, k);
    }
  }

  lemma TwoEntries()
    ensures |Specs()| == 41 && Specs()[8] == Spec("deleted", false) && Specs()[17] == Spec("include_deleted", false)
  {
  }

  lemma LettersBefore8()
    ensures |Specs()| == 41 && forall j | 0 <= j < 8 :: Specs()[j].name != [] && Specs()[j].name[0] < 'd'
  {
  }

  lemma LettersBefore17()
    ensures |Specs()| == 41 && forall j | 8 <= j < 17 :: Specs()[j].name != [] && Specs()[j].name[0] < 'i'
  {
  }

  lemma BothAreBoolean()
    ensures !HasValue("deleted") && !HasValue("include_deleted")
    ensures Known("deleted") && Known("include_deleted")
  {
    TwoEntries();
    LettersBefore8();
    LettersBefore17();
    hide Specs, Known;
    FirstOfName("deleted", 0, 8);
    FirstOfName("include_deleted", 0, 17);
  }

  lemma NoneBeforeAll()
    ensures |Specs()| == 41 && Specs()[0] == Spec("all", false)
  {
  }

  lemma NoneBeforeCount()
    ensures |Specs()| == 41 && Specs()[7] == Spec("count", false)
    ensures forall j | 0 <= j < 7 :: Specs()[j].name != "count"
  {
    assert forall j | 0 <= j < 7 :: |Specs()[j].name| != 5;
  }

  lemma NoneBeforeFull()
    ensures |Specs()| == 41 && Specs()[14] == Spec("full", false)
    ensures forall j | 0 <= j < 14 :: Specs()[j].name != "full"
  {
    assert forall j | 0 <= j < 14 :: |Specs()[j].name| != 4 || Specs()[j].name[1] != 'u';
  }

  lemma NoneBeforeSqlStdin()
    ensures |Specs()| == 41 && Specs()[36] == Spec("sql_stdin", false)
    ensures forall j | 0 <= j < 36 :: Specs()[j].name != "sql_stdin"
  {
    assert forall j | 0 <= j < 36 :: |Specs()[j].name| != 9 || Specs()[j].name[0] != 's';
  }

  lemma NoneBeforeStream()
    ensures |Specs()| == 41 && Specs()[38] == Spec("stream", false)
    ensures forall j | 0 <= j < 38 :: Specs()[j].name != "stream"
  {
    assert forall j | 0 <= j < 38 :: |Specs()[j].name| != 6 || Specs()[j].name[2] != 'r';
  }

  // The entries without a value
  lemma ValuelessEntries()
    ensures forall k | 0 <= k < |Specs()| && !Specs()[k].hasValue ::
      Specs()[k].name in {"all", "count", "deleted", "full", "include_deleted", "sql_stdin", "stream"}
  {
  }

  lemma {:induction false} SomeEntry(name: string, i: nat)
    ensures !HasValueFrom(name, i) ==>
      exists k | i <= k < |Specs()| :: Specs()[k].name == name && !Specs()[k].hasValue
    decreases |Specs()| - i
  {
    hide Specs;
    if i < |Specs()| && Specs()[i].name != name {
      SomeEntry(name, i + 1);
    }
  }

  // The flags that take no value
  lemma BooleanFlags(name: string)
    ensures !HasValue(name)
      <==> name in {"all", "count", "deleted", "full", "include_deleted", "sql_stdin", "stream"}
  {
    hide Specs;
    SomeEntry(name, 0);
    ValuelessEntries();
    BothAreBoolean();
    NoneBeforeAll();
    NoneBeforeCount();
    NoneBeforeFull();
    NoneBeforeSqlStdin();
    NoneBeforeStream();
    FirstOfName("all", 0, 0);
    FirstOfName("count", 0, 7);
    FirstOfName("full", 0, 14);
    FirstOfName("sql_stdin", 0, 36);
    FirstOfName("stream", 0, 38);
  }

  lemma EveryNameIsListed()
    ensures forall k | 0 <= k < |Specs()| :: Specs()[k].name in {
      "all", "backend", "base_url", "configuration", "content", "content_file", "context_id", "count",
      "deleted", "description", "error", "event", "execution_id", "file", "full", "folder_id", "hash",
      "include_deleted", "level", "limit", "message", "metadata", "model_identifier", "model_revision_id",
      "name", "offset", "output_schema", "parent_execution_id", "parent_id", "prompt_template", "raw",
      "raw_file", "result", "result_file", "skill_revision_id", "sql", "sql_stdin", "status", "stream", "to",
      "type"}
  {
  }

  // Every flag is one of these.
  lemma KnownFlags(name: string)
    ensures Known(name) ==> name in {
      "all", "backend", "base_url", "configuration", "content", "content_file", "context_id", "count",
      "deleted", "description", "error", "event", "execution_id", "file", "full", "folder_id", "hash",
      "include_deleted", "level", "limit", "message", "metadata", "model_identifier", "model_revision_id",
      "name", "offset", "output_schema", "parent_execution_id", "parent_id", "prompt_template", "raw",
      "raw_file", "result", "result_file", "skill_revision_id", "sql", "sql_stdin", "status", "stream", "to",
      "type"}
  {
    hide Specs;
    EveryNameIsListed();
  }

  lemma BooleanToken(tok: string, name: string)
    requires '=' !in name && !HasValue(name) && PrefixMatch(tok, name)
    ensures NamePart(tok[2..]) == name && !TakesNext(tok)
  {
    hide HasValue;
    NameBefore(tok[2..], name);
    if |tok| == 2 + |name| {
      SpaceFormTakes(tok, name);
    } else {
      assert tok[2..][|name|] == '=';
    }
  }

  lemma AliasText()
    ensures PrefixMatch("--include_deleted", "include_deleted")
    ensures '=' !in "include_deleted" && '=' !in "deleted"
  {
    assert "--include_deleted"[2..] == "include_deleted";
  }

  lemma AliasIsSameKind(tok: string)
    ensures IsFlag(Alias(tok)) <==> IsFlag(tok)
    ensures TakesNext(Alias(tok)) <==> TakesNext(tok)
    ensures IsFlag(tok) ==> (Known(NamePart(Alias(tok)[2..])) <==> Known(NamePart(tok[2..])))
  {
    BothAreBoolean();
    AliasText();
    hide HasValue, Known, NamePart, TakesNext;
    if PrefixMatch(tok, "deleted") {
      BooleanToken(tok, "deleted");
      BooleanToken(Alias(tok), "include_deleted");
    }
  }

  lemma {:induction false} NameBefore(s: string, name: string)
    requires name <= s && '=' !in name && (|name| < |s| ==> s[|name|] == '=')
    ensures NamePart(s) == name
  {
    if name != [] {
      assert name[0] in name && forall c | c in name[1..] :: c in name;
      NameBefore(s[1..], name[1..]);
      assert name == [name[0]] + name[1..];
    }
  }

  // Rewriting the aliases changes no token's role, and neither makes a command line acceptable nor spoils it.
  lemma AliasesKeepRoles(argv: seq<string>, aliased: seq<string>)
    requires |aliased| == |argv| && forall i | 0 <= i < |argv| :: aliased[i] == Alias(argv[i])
    ensures forall i | 0 <= i < |argv| :: RoleOf(aliased, i) == RoleOf(argv, i)
    ensures Accepted(aliased) <==> Accepted(argv)
  {
    hide HasValue, Known, Alias, NamePart;
    forall i | 0 <= i < |argv|
      ensures RoleOf(aliased, i) == RoleOf(argv, i) && (TokenOk(aliased, i) <==> TokenOk(argv, i))
    {
      AliasIsSameKind(argv[i]);
      if i > 0 {
        AliasIsSameKind(argv[i - 1]);
      }
      if i + 1 < |argv| {
        AliasIsSameKind(argv[i + 1]);
      }
    }
  }
}
