/** acta_cli/include/cli_util.h: edit_distance and closest_name, behind "did you mean ...?" */
module EditDistance {
  import opened Db

  // ----- Levenshtein distance, by the last characters -----

  function Min(a: nat, b: nat): nat { if b < a then b else a }

  // ... of the first i characters of a and the first j of b
  function PrefixLev(a: string, b: string, i: nat, j: nat): nat
    requires i <= |a| && j <= |b|
  {
    if i == 0 then j
    else if j == 0 then i
    else
      Min(Min(PrefixLev(a, b, i - 1, j) + 1, PrefixLev(a, b, i, j - 1) + 1),
          PrefixLev(a, b, i - 1, j - 1) + if a[i - 1] == b[j - 1] then 0 else 1)
  }

  function Lev(a: string, b: string): nat { PrefixLev(a, b, |a|, |b|) }

  lemma {:induction false} PrefixLevIsLocal(a: string, b: string, x: string, y: string, i: nat, j: nat)
    requires i <= |a| && j <= |b| && a <= x && b <= y
    ensures PrefixLev(x, y, i, j) == PrefixLev(a, b, i, j)
  {
    hide Min;
    if i > 0 && j > 0 {
      PrefixLevIsLocal(a, b, x, y, i - 1, j);
      PrefixLevIsLocal(a, b, x, y, i, j - 1);
      PrefixLevIsLocal(a, b, x, y, i - 1, j - 1);
    }
  }

  // One insertion, deletion or substitution of a character, at any place
  predicate OneEdit(x: string, y: string) {
    || (exists i | 0 <= i < |y| :: InsertedAt(x, y, i))
    || (exists i | 0 <= i < |x| :: InsertedAt(y, x, i))
    || (exists i | 0 <= i < |x| :: |y| == |x| && y == x[..i] + [y[i]] + x[i + 1..])
  }

  predicate InsertedAt(x: string, y: string, i: nat) {
    i <= |x| && |y| == |x| + 1 && y == x[..i] + [y[i]] + x[i..]
  }

  // A chain of n edits from a to b
  predicate Chain(c: seq<string>, a: string, b: string) {
    && c != [] && c[0] == a && c[|c| - 1] == b
    && forall k | 0 <= k < |c| - 1 :: OneEdit(c[k], c[k + 1])
  }

  lemma {:induction false} LevEmpty(a: string)
    ensures Lev(a, []) == |a| && Lev([], a) == |a|
  {
  }

  lemma {:induction false} LevStep(a: string, x: char, b: string, y: char)
    ensures Lev(a + [x], b + [y]) ==
      Min(Min(Lev(a, b + [y]) + 1, Lev(a + [x], b) + 1), Lev(a, b) + if x == y then 0 else 1)
  {
    hide Min;
    PrefixLevIsLocal(a, b + [y], a + [x], b + [y], |a|, |b| + 1);
    PrefixLevIsLocal(a + [x], b, a + [x], b + [y], |a| + 1, |b|);
    PrefixLevIsLocal(a, b, a + [x], b + [y], |a|, |b|);
  }

  // A non-empty string is what comes before its last character, and that character.
  function Front(a: string): string
    requires a != []
  {
    a[..|a| - 1]
  }

  function Last(a: string): char
    requires a != []
  {
    a[|a| - 1]
  }

  lemma {:induction false} LevOfLasts(a: string, b: string)
    requires a != [] && b != []
    ensures Lev(a, b) == Min(Min(Lev(Front(a), b) + 1, Lev(a, Front(b)) + 1),
                             Lev(Front(a), Front(b)) + if Last(a) == Last(b) then 0 else 1)
  {
    assert a == Front(a) + [Last(a)] && b == Front(b) + [Last(b)];
    LevStep(Front(a), Last(a), Front(b), Last(b));
  }

  // y is at most one edit further from any string than x is.
  ghost predicate Near(x: string, y: string) { forall b :: Lev(x, b) <= Lev(y, b) + 1 }

  lemma {:induction false} LongerFirst(a: string, c: char, b: string)
    ensures Lev(a + [c], b) <= Lev(a, b) + 1
  {
    hide Lev;
    LevEmpty(a);
    LevEmpty(a + [c]);
    if b != [] {
      LevOfLasts(a + [c], b);
    }
  }

  lemma {:induction false} LongerSecond(a: string, b: string, c: char)
    ensures Lev(a, b + [c]) <= Lev(a, b) + 1
  {
    hide Lev;
    LevEmpty(b);
    LevEmpty(b + [c]);
    if a != [] {
      LevOfLasts(a, b + [c]);
      assert Front(b + [c]) == b;
    }
  }

  lemma {:induction false} ShorterFirst(a: string, c: char, b: string)
    ensures Lev(a, b) <= Lev(a + [c], b) + 1
    decreases |b|
  {
    hide Lev;
    LevEmpty(a);
    LevEmpty(a + [c]);
    if b != [] {
      LevOfLasts(a + [c], b);
      assert Front(a + [c]) == a && b == Front(b) + [Last(b)];
      ShorterFirst(a, c, Front(b));
      LongerSecond(a, Front(b), Last(b));
    }
  }

  // Substituting the last character
  lemma {:induction false} LastReplaced(a: string, c: char, d: char, b: string)
    ensures Lev(a + [c], b) <= Lev(a + [d], b) + 1
    decreases |b|
  {
    hide Lev;
    LevEmpty(a + [c]);
    LevEmpty(a + [d]);
    if b != [] {
      LevOfLasts(a + [c], b);
      LevOfLasts(a + [d], b);
      assert Front(a + [c]) == a && Front(a + [d]) == a;
      LastReplaced(a, c, d, Front(b));
    }
  }

  lemma {:induction false} NearExtendsAt(x: string, y: string, c: char, b: string)
    requires Near(x, y)
    ensures Lev(x + [c], b) <= Lev(y + [c], b) + 1
    decreases |b|
  {
    hide Lev;
    if b == [] {
      assert Lev(x, []) <= Lev(y, []) + 1;
      LevEmpty(x);
      LevEmpty(y);
      LevEmpty(x + [c]);
      LevEmpty(y + [c]);
    } else {
      LevOfLasts(x + [c], b);
      LevOfLasts(y + [c], b);
      assert Front(x + [c]) == x && Front(y + [c]) == y;
      NearExtendsAt(x, y, c, Front(b));
      assert Lev(x, b) <= Lev(y, b) + 1 && Lev(x, Front(b)) <= Lev(y, Front(b)) + 1;
    }
  }

  lemma {:induction false} NearExtends(x: string, y: string, s: string)
    requires Near(x, y)
    ensures Near(x + s, y + s)
    decreases |s|
  {
    hide Lev;
    if s == [] {
      assert x + s == x && y + s == y;
    } else {
      forall b ensures Lev(x + [s[0]], b) <= Lev(y + [s[0]], b) + 1 { NearExtendsAt(x, y, s[0], b); }
      NearExtends(x + [s[0]], y + [s[0]], s[1..]);
      assert x + [s[0]] + s[1..] == x + s && y + [s[0]] + s[1..] == y + s;
    }
  }

  lemma {:induction false} InsertionIsNear(x: string, y: string, i: nat)
    requires i < |y| && InsertedAt(x, y, i)
    ensures Near(x, y) && Near(y, x)
  {
    hide Lev;
    var p, c, s := x[..i], y[i], x[i..];
    forall b ensures Lev(p, b) <= Lev(p + [c], b) + 1 && Lev(p + [c], b) <= Lev(p, b) + 1 {
      ShorterFirst(p, c, b);
      LongerFirst(p, c, b);
    }
    NearExtends(p, p + [c], s);
    NearExtends(p + [c], p, s);
    assert p + s == x;
  }

  lemma {:induction false} SubstitutionIsNear(x: string, y: string, i: nat)
    requires i < |x| == |y| && y == x[..i] + [y[i]] + x[i + 1..]
    ensures Near(x, y)
  {
    hide Lev;
    var p, s := x[..i], x[i + 1..];
    forall b ensures Lev(p + [x[i]], b) <= Lev(p + [y[i]], b) + 1 { LastReplaced(p, x[i], y[i], b); }
    NearExtends(p + [x[i]], p + [y[i]], s);
    assert p + [x[i]] + s == x;
  }

  lemma {:induction false} EditIsNear(x: string, y: string)
    requires OneEdit(x, y)
    ensures Near(x, y)
  {
    hide Lev, Near;
    if i :| 0 <= i < |y| && InsertedAt(x, y, i) {
      InsertionIsNear(x, y, i);
    } else if i :| 0 <= i < |x| && InsertedAt(y, x, i) {
      InsertionIsNear(y, x, i);
    } else {
      var i :| 0 <= i < |x| && |y| == |x| && y == x[..i] + [y[i]] + x[i + 1..];
      SubstitutionIsNear(x, y, i);
    }
  }

  lemma {:induction false} LevSelf(a: string)
    ensures Lev(a, a) == 0
  {
    if a != [] {
      hide Lev;
      LevSelf(Front(a));
      LevOfLasts(a, a);
    }
  }

  // No shorter chain of edits leads from a to b ...
  lemma {:induction false} LevIsLeast(c: seq<string>, a: string, b: string)
    requires Chain(c, a, b)
    ensures Lev(a, b) <= |c| - 1
  {
    hide Lev, OneEdit;
    if |c| == 1 {
      LevSelf(a);
    } else {
      EditIsNear(c[0], c[1]);
      var d := c[1..];
      forall k | 0 <= k < |d| - 1 ensures OneEdit(d[k], d[k + 1]) {
        assert OneEdit(c[k + 1], c[k + 2]);
      }
      LevIsLeast(d, c[1], b);
    }
  }

  function AppendAll(c: seq<string>, x: char): (r: seq<string>)
    ensures |r| == |c| && forall k | 0 <= k < |c| :: r[k] == c[k] + [x]
  {
    if c == [] then [] else [c[0] + [x]] + AppendAll(c[1..], x)
  }

  lemma {:induction false} InsertionUnderSuffix(x: string, y: string, c: char, i: nat)
    requires i < |y| && InsertedAt(x, y, i)
    ensures InsertedAt(x + [c], y + [c], i)
  {
    var x', y' := x + [c], y + [c];
    assert x'[..i] == x[..i] && x'[i..] == x[i..] + [c] && y'[i] == y[i];
    assert y' == x[..i] + [y[i]] + (x[i..] + [c]);
  }

  lemma {:induction false} SubstitutionUnderSuffix(x: string, y: string, c: char, i: nat)
    requires i < |x| == |y| && y == x[..i] + [y[i]] + x[i + 1..]
    ensures var x', y' := x + [c], y + [c]; y' == x'[..i] + [y'[i]] + x'[i + 1..]
  {
    var x', y' := x + [c], y + [c];
    assert x'[..i] == x[..i] && x'[i + 1..] == x[i + 1..] + [c] && y'[i] == y[i];
    assert y' == x[..i] + [y[i]] + (x[i + 1..] + [c]);
  }

  lemma {:induction false} EditUnderSuffix(x: string, y: string, c: char)
    requires OneEdit(x, y)
    ensures OneEdit(x + [c], y + [c])
  {
    hide InsertedAt;
    var x', y' := x + [c], y + [c];
    if i :| 0 <= i < |y| && InsertedAt(x, y, i) {
      InsertionUnderSuffix(x, y, c, i);
    } else if i :| 0 <= i < |x| && InsertedAt(y, x, i) {
      InsertionUnderSuffix(y, x, c, i);
    } else {
      var i :| 0 <= i < |x| && |y| == |x| && y == x[..i] + [y[i]] + x[i + 1..];
      SubstitutionUnderSuffix(x, y, c, i);
    }
  }

  lemma {:induction false} LastInserted(b: string)
    requires b != []
    ensures OneEdit(Front(b), b) && OneEdit(b, Front(b))
  {
    assert b[..|b| - 1][|b| - 1..] == [] && b == b[..|b| - 1] + [b[|b| - 1]];
    assert InsertedAt(b[..|b| - 1], b, |b| - 1);
  }

  lemma {:induction false} ChainThen(c: seq<string>, a: string, b: string, y: string)
    requires Chain(c, a, b) && OneEdit(b, y)
    ensures Chain(c + [y], a, y)
  {
  }

  lemma {:induction false} ThenChain(x: string, c: seq<string>, a: string, b: string)
    requires Chain(c, a, b) && OneEdit(x, a)
    ensures Chain([x] + c, x, b)
  {
    var d := [x] + c;
    forall k | 0 <= k < |d| - 1 ensures OneEdit(d[k], d[k + 1]) {
      if k > 0 {
        assert d[k] == c[k - 1] && d[k + 1] == c[k];
      }
    }
  }

  lemma {:induction false} ChainUnderSuffix(c: seq<string>, a: string, b: string, x: char)
    requires Chain(c, a, b)
    ensures Chain(AppendAll(c, x), a + [x], b + [x])
  {
    var d := AppendAll(c, x);
    forall k | 0 <= k < |d| - 1 ensures OneEdit(d[k], d[k + 1]) {
      EditUnderSuffix(c[k], c[k + 1], x);
    }
  }

  lemma {:induction false} LastSubstituted(a: string, x: char, y: char)
    requires x != y
    ensures OneEdit(a + [x], a + [y])
  {
    var s, t := a + [x], a + [y];
    assert s[..|a|] == a && s[|a| + 1..] == [] && t == s[..|a|] + [t[|a|]] + s[|a| + 1..];
  }

  // ... and one of exactly that length does.
  lemma {:induction false} LevIsReached(a: string, b: string) returns (c: seq<string>)
    ensures Chain(c, a, b) && |c| == Lev(a, b) + 1
    decreases |a| + |b|
  {
    hide Lev, OneEdit, Chain, AppendAll;
    LevEmpty(a);
    LevEmpty(b);
    if a != [] && b != [] {
      LevOfLasts(a, b);
    }
    if a == [] && b == [] {
      c := [a];
      ChainOfOne(a);
    } else if a == [] || (b != [] && Lev(a, b) == Lev(a, Front(b)) + 1) {
      c := LevIsReached(a, Front(b));
      LevEmpty(Front(b));
      LastInserted(b);
      ChainThen(c, a, Front(b), b);
      c := c + [b];
    } else if b == [] || Lev(a, b) == Lev(Front(a), b) + 1 {
      c := LevIsReached(Front(a), b);
      LevEmpty(Front(a));
      LastInserted(a);
      ThenChain(a, c, Front(a), b);
      c := [a] + c;
    } else {
      var d := LevIsReached(Front(a), Front(b));
      ChainUnderSuffix(d, Front(a), Front(b), Last(a));
      c := AppendAll(d, Last(a));
      assert a == Front(a) + [Last(a)] && b == Front(b) + [Last(b)];
      if Last(a) != Last(b) {
        LastSubstituted(Front(b), Last(a), Last(b));
        ChainThen(c, a, Front(b) + [Last(a)], b);
        c := c + [b];
      }
    }
  }

  lemma {:induction false} ChainOfOne(a: string)
    ensures Chain([a], a, a)
  {
  }

  lemma {:induction false} LevBounds(a: string, b: string)
    ensures |a| - |b| <= Lev(a, b) && |b| - |a| <= Lev(a, b)
    ensures Lev(a, b) == 0 <==> a == b
    decreases |a| + |b|
  {
    hide Lev;
    LevEmpty(a);
    LevEmpty(b);
    if a != [] && b != [] {
      LevOfLasts(a, b);
      LevBounds(Front(a), b);
      LevBounds(a, Front(b));
      LevBounds(Front(a), Front(b));
      assert a == Front(a) + [Last(a)] && b == Front(b) + [Last(b)];
    }
    if a == b {
      LevSelf(a);
    }
  }

  // ----- the C functions -----

  const ROOM := 64
  const LONGEST := 60

  // edit_distance: the table dp
  method Distance(a: string, b: string) returns (d: int)
    ensures d == Measured(a, b)
    ensures |a| <= 60 && |b| <= 60 ==> d == Lev(a, b)
    ensures |a| > 60 || |b| > 60 ==> d == 61
  {
    hide Min, PrefixLev;
    PrefixEdges(a, b);
    var la, lb := |a|, |b|;
    if la > LONGEST || lb > LONGEST {
      return LONGEST + 1;
    }
    var dp := new int[ROOM, ROOM];
    var i := 0;
    while i <= la
      invariant 0 <= i <= la + 1
      invariant forall k | 0 <= k < i :: dp[k, 0] == k
    {
      dp[i, 0] := i;
      i := i + 1;
    }
    var j := 0;
    while j <= lb
      invariant 0 <= j <= lb + 1
      invariant forall k | 0 <= k <= la :: dp[k, 0] == k
      invariant forall k | 0 <= k < j :: dp[0, k] == k
    {
      dp[0, j] := j;
      j := j + 1;
    }
    i := 1;
    while i <= la
      invariant 1 <= i <= la + 1
      invariant forall k | 0 <= k <= la :: dp[k, 0] == k
      invariant forall k, l | 0 <= k < i && 0 <= l <= lb :: dp[k, l] == PrefixLev(a, b, k, l)
    {
      j := 1;
      while j <= lb
        invariant 1 <= j <= lb + 1
        invariant forall k | 0 <= k <= la :: dp[k, 0] == k
        invariant forall k, l | 0 <= k < i && 0 <= l <= lb :: dp[k, l] == PrefixLev(a, b, k, l)
        invariant forall l | 0 <= l < j :: dp[i, l] == PrefixLev(a, b, i, l)
      {
        var cost := if a[i - 1] == b[j - 1] then 0 else 1;
        var best := dp[i - 1, j] + 1;
        if dp[i, j - 1] + 1 < best {
          best := dp[i, j - 1] + 1;
        }
        if dp[i - 1, j - 1] + cost < best {
          best := dp[i - 1, j - 1] + cost;
        }
        dp[i, j] := best;
        PrefixStep(a, b, i, j, best);
        j := j + 1;
      }
      i := i + 1;
    }
    d := dp[la, lb];
  }

  lemma PrefixEdges(a: string, b: string)
    ensures forall k | 0 <= k <= |a| :: PrefixLev(a, b, k, 0) == k
    ensures forall k | 0 <= k <= |b| :: PrefixLev(a, b, 0, k) == k
  {
  }

  lemma PrefixStep(a: string, b: string, i: nat, j: nat, best: int)
    requires 0 < i <= |a| && 0 < j <= |b|
    requires
      var del, ins := PrefixLev(a, b, i - 1, j) + 1, PrefixLev(a, b, i, j - 1) + 1;
      var sub := PrefixLev(a, b, i - 1, j - 1) + if a[i - 1] == b[j - 1] then 0 else 1;
      var one := if ins < del then ins else del;
      best == if sub < one then sub else one
    ensures best == PrefixLev(a, b, i, j)
  {
  }

  // What edit_distance answers: the distance, or 61 when a string is longer than 60
  function Measured(a: string, b: string): int {
    if |a| > LONGEST || |b| > LONGEST then LONGEST + 1 else Lev(a, b)
  }

  predicate InReach(d: int, name: string) { 0 < d <= if |name| <= 3 then 1 else 2 }

  // k is the first of the names in reach at the least distance.
  predicate IsClosest(input: string, names: seq<string>, k: nat, exact: bool) {
    && k < |names| && InReach(Dist(exact, input, names[k]), names[k])
    && forall m | 0 <= m < |names| && InReach(Dist(exact, input, names[m]), names[m]) ::
         var dk, dm := Dist(exact, input, names[k]), Dist(exact, input, names[m]);
         dk < dm || (dk == dm && k <= m)
  }

  predicate NoneInReach(input: string, names: seq<string>, exact: bool) {
    forall m | 0 <= m < |names| :: !InReach(Dist(exact, input, names[m]), names[m])
  }

  // The true distance, or the one edit_distance gives
  function Dist(exact: bool, a: string, b: string): int { if exact then Lev(a, b) else Measured(a, b) }

  // The bail-out never changes what is in reach of a name, whatever the input, exactly for names of at most 58.
  lemma {:induction false} BailOutIsHarmlessIff(name: string)
    ensures (forall input :: InReach(Measured(input, name), name) <==> InReach(Lev(input, name), name))
      <==> |name| <= 58
  {
    if |name| <= LONGEST - 2 {
      forall input ensures InReach(Measured(input, name), name) <==> InReach(Lev(input, name), name) {
        ReachIsTrue(input, name);
      }
    } else {
      var input := name + ['x'];
      LongerFirst(name, 'x', name);
      LevSelf(name);
      LevBounds(input, name);
      if |name| == LONGEST - 1 {
        LongerFirst(input, 'x', name);
        input := input + ['x'];
        LevBounds(input, name);
      }
      assert !InReach(Measured(input, name), name) && InReach(Lev(input, name), name);
    }
  }

  // How far off a name of that length may be
  function Limit(length: nat): (l: nat)
    ensures length <= 3 ==> l == 1
    ensures length > 3 ==> l == 2
  {
    if length <= 3 then 1 else 2
  }

  // closest_name
  method ClosestName(input: string, names: seq<string>) returns (best: Option<nat>)
    ensures input == [] ==> best == None
    ensures input != [] ==> match best
      case None => NoneInReach(input, names, false)
      case Some(k) => IsClosest(input, names, k, false)
    ensures input != [] && (forall k | 0 <= k < |names| :: |names[k]| <= LONGEST - 2) ==>
      match best
      case None => NoneInReach(input, names, true)
      case Some(k) => IsClosest(input, names, k, true)
    ensures input != [] && (forall k | 0 <= k < |names| :: |names[k]| <= 58) ==>
      match best
      case None =>
        forall m | 0 <= m < |names| :: Lev(input, names[m]) == 0 || Lev(input, names[m]) > Limit(|names[m]|)
      case Some(k) =>
        && k < |names| && 0 < Lev(input, names[k]) <= Limit(|names[k]|)
        && forall m | 0 <= m < |names| && 0 < Lev(input, names[m]) <= Limit(|names[m]|) ::
             Lev(input, names[k]) < Lev(input, names[m]) || (Lev(input, names[k]) == Lev(input, names[m]) && k <= m)
  {
    hide Lev, Measured;
    if input == [] {
      return None;
    }
    best := None;
    var bestDist := 0x7FFF_FFFF;
    var i := 0;
    while i < |names|
      invariant i <= |names|
      invariant best.None? ==> bestDist == 0x7FFF_FFFF && NoneInReach(input, names[..i], false)
      invariant best.Some? ==>
        IsClosest(input, names[..i], best.value, false) && bestDist == Measured(input, names[best.value])
    {
      var name := names[i];
      var limit := if |name| <= 3 then 1 else 2;
      var d := Distance(input, name);
      if d > 0 && d <= limit && d < bestDist {
        bestDist, best := d, Some(i);
      }
      i := i + 1;
    }
    assert names[..i] == names;
    if forall k | 0 <= k < |names| :: |names[k]| <= LONGEST - 2 {
      forall k | 0 <= k < |names|
        ensures InReach(Measured(input, names[k]), names[k]) <==> InReach(Lev(input, names[k]), names[k])
        ensures InReach(Lev(input, names[k]), names[k]) ==> Measured(input, names[k]) == Lev(input, names[k])
      {
        ReachIsTrue(input, names[k]);
      }
    }
  }

  lemma ReachIsTrue(input: string, name: string)
    requires |name| <= LONGEST - 2
    ensures InReach(Measured(input, name), name) <==> InReach(Lev(input, name), name)
    ensures InReach(Lev(input, name), name) ==> Measured(input, name) == Lev(input, name)
  {
    LevBounds(input, name);
  }
}
