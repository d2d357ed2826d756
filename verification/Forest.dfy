/**
 Parent maps: p[i] is the parent of row i, 0 for none, as parent_id is read by the C code.  A chain is followed upwards
 until it leaves the map.
 */
module Forest {

  type Parents = map<int, int>

  // The k-th ancestor of i; 0 once the chain has left the map
  function Up(p: Parents, i: int, k: nat): int
    decreases k
  {
    if k == 0 then i else if i in p then Up(p, p[i], k - 1) else 0
  }

  // t is s or an ancestor of s
  ghost predicate Reaches(p: Parents, s: int, t: int) {
    exists k: nat :: Up(p, s, k) == t
  }

  // ... found among the first n entries of the chain
  ghost predicate ReachesWithin(p: Parents, s: int, t: int, n: nat) {
    exists k: nat :: k < n && Up(p, s, k) == t
  }

  ghost predicate Acyclic(p: Parents) {
    forall i, k: nat {:trigger Up(p, i, k)} | i in p && k > 0 :: Up(p, i, k) != i
  }

  // No row has id 0, and every parent is 0 or a row.
  predicate Rooted(p: Parents) {
    0 !in p && forall i | i in p :: p[i] == 0 || p[i] in p
  }

  lemma {:induction false} UpAdd(p: Parents, i: int, a: nat, b: nat)
    requires 0 !in p
    ensures Up(p, i, a + b) == Up(p, Up(p, i, a), b)
    decreases a
  {
    if a == 0 {
    } else if i in p {
      UpAdd(p, p[i], a - 1, b);
    } else {
      UpZero(p, b);
    }
  }

  lemma UpZero(p: Parents, k: nat)
    requires 0 !in p
    ensures Up(p, 0, k) == 0
  {
  }

  // Everything on a chain below a row is a row.
  lemma UpInside(p: Parents, s: int, k: nat, j: nat)
    requires 0 !in p && j < k && Up(p, s, k) != 0
    ensures Up(p, s, j) in p
  {
    UpAdd(p, s, j, k - j);
  }

  lemma {:induction false} DistinctFits(s: seq<int>, dom: set<int>)
    requires forall i | 0 <= i < |s| :: s[i] in dom
    requires forall i, j | 0 <= i < j < |s| :: s[i] != s[j]
    ensures |s| <= |dom|
  {
    if |s| > 0 {
      var n := |s| - 1;
      DistinctFits(s[..n], dom - {s[n]});
    }
  }

  // Pigeonhole: a chain longer than the table repeats an entry.
  lemma Repeats(p: Parents, s: int, k: nat)
    requires 0 !in p && k >= |p| && Up(p, s, k) in p
    ensures exists i: nat, j: nat :: i < j <= k && Up(p, s, i) == Up(p, s, j)
  {
    var chain := seq(k + 1, n requires 0 <= n => Up(p, s, n));
    forall j | 0 <= j < k ensures chain[j] in p.Keys {
      UpInside(p, s, k, j);
    }
    if forall i, j | 0 <= i < j < |chain| :: chain[i] != chain[j] {
      DistinctFits(chain, p.Keys);
    }
  }

  // A row that a chain reaches at all, it reaches within as many steps as there are rows.
  lemma {:induction false} ShortChain(p: Parents, s: int, t: int, k: nat)
    requires 0 !in p && t in p && Up(p, s, k) == t
    ensures ReachesWithin(p, s, t, |p|)
    decreases k
  {
    if k >= |p| {
      Repeats(p, s, k);
      var i: nat, j: nat :| i < j <= k && Up(p, s, i) == Up(p, s, j);
      UpAdd(p, s, j, k - j);
      UpAdd(p, s, i, k - j);
      ShortChain(p, s, t, k - (j - i));
    }
  }

  // A bounded walk over a table no larger than its bound is exact, cycles or not.
  lemma BoundedWalkIsExact(p: Parents, s: int, t: int, bound: nat)
    requires 0 !in p && t in p && |p| <= bound
    ensures ReachesWithin(p, s, t, bound) <==> Reaches(p, s, t)
  {
    if Reaches(p, s, t) {
      var k: nat :| Up(p, s, k) == t;
      ShortChain(p, s, t, k);
    }
  }

  // Chains that do not pass through id are the same after id is re-parented.
  lemma {:induction false} UpElsewhere(p: Parents, id: int, np: int, s: int, k: nat)
    requires forall j: nat | j < k :: Up(p, s, j) != id
    ensures Up(p[id := np], s, k) == Up(p, s, k)
    decreases k
  {
    if k > 0 && s in p {
      assert Up(p, s, 0) != id;
      forall j: nat | j < k - 1 ensures Up(p, p[s], j) != id {
        assert Up(p, s, j + 1) != id;
      }
      UpElsewhere(p, id, np, p[s], k - 1);
    } else if k > 0 {
      assert Up(p, s, 0) != id;
    }
  }

  // The first entry of a chain that is id
  lemma {:induction false} FirstHit(p: Parents, s: int, id: int, k: nat) returns (f: nat)
    requires Up(p, s, k) == id
    ensures f <= k && Up(p, s, f) == id && forall j: nat | j < f :: Up(p, s, j) != id
  {
    f := 0;
    while Up(p, s, f) != id
      invariant f <= k && forall j: nat | j < f :: Up(p, s, j) != id
      decreases k - f
    {
      f := f + 1;
    }
  }

  // Re-parenting id under np makes a cycle exactly when id is np or an ancestor of np.
  lemma MoveIsSafeIff(p: Parents, id: int, np: int)
    requires Rooted(p) && Acyclic(p) && id in p
    ensures Acyclic(p[id := np]) <==> !Reaches(p, np, id)
  {
    var q := p[id := np];
    if Reaches(p, np, id) {
      var k: nat :| Up(p, np, k) == id;
      var f := FirstHit(p, np, id, k);
      UpElsewhere(p, id, np, np, f);
      assert Up(q, id, f + 1) == id;
    } else {
      forall i, k: nat | i in q && k > 0 ensures Up(q, i, k) != i {
        if Up(q, i, k) == i {
          MovedCycle(p, id, np, i, k);
        }
      }
    }
  }

  lemma MovedCycle(p: Parents, id: int, np: int, i: int, k: nat)
    requires Rooted(p) && Acyclic(p) && id in p
    requires k > 0 && i in p && Up(p[id := np], i, k) == i
    ensures Reaches(p, np, id)
  {
    var q := p[id := np];
    assert q[id := p[id]] == p;
    if j: nat :| j < k && Up(q, i, j) == id {
      // id lies on the cycle: follow it from np back to id.
      UpAdd(q, i, k, j);
      UpAdd(q, i, j, k);
      assert Up(q, id, k) == id;
      assert Up(q, np, k - 1) == id;
      var f := FirstHit(q, np, id, k - 1);
      UpElsewhere(q, id, p[id], np, f);
      assert Up(p, np, f) == id;
    } else {
      UpElsewhere(q, id, p[id], i, k);
    }
  }

  // A new row under an existing one or at the root closes no cycle; under itself it does.
  lemma AddIsSafeIff(p: Parents, id: int, parent: int)
    requires Rooted(p) && Acyclic(p) && id !in p && id != 0
    requires parent == 0 || parent in p || parent == id
    ensures Acyclic(p[id := parent]) <==> parent != id
  {
    var q := p[id := parent];
    if parent == id {
      assert Up(q, id, 1) == id;
    } else {
      forall i, k: nat | i in q && k > 0 ensures Up(q, i, k) != i {
        if i == id {
          StaysOld(p, id, parent, parent, k - 1);
        } else {
          StaysOld(p, id, parent, i, k);
        }
      }
    }
  }

  lemma {:induction false} StaysOld(p: Parents, id: int, parent: int, i: int, k: nat)
    requires Rooted(p) && id !in p && id != 0 && (i == 0 || i in p)
    ensures Up(p[id := parent], i, k) == Up(p, i, k)
    ensures Up(p, i, k) == 0 || Up(p, i, k) in p
    decreases k
  {
    if k > 0 && i in p {
      StaysOld(p, id, parent, p[i], k - 1);
    }
  }
}
