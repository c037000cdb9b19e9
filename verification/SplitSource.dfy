/** Splitting a source file: functions linked by shared names stay together, and the sets of linked functions
    are spread over the output files. */
module SplitSource {
  import opened DisjointSet

  // ---------- Links

  /** Two functions contain the same name; `deps` lists the functions of each name. */
  predicate Share(deps: seq<seq<nat>>, a: nat, b: nat) {
    exists d :: 0 <= d < |deps| && a in deps[d] && b in deps[d]
  }

  predicate IsChain(deps: seq<seq<nat>>, path: seq<nat>) {
    |path| > 0 && (|path| == 1 || (Share(deps, path[0], path[1]) && IsChain(deps, path[1..])))
  }

  /** A chain of shared names leads from a to b. */
  ghost predicate Linked(deps: seq<seq<nat>>, a: nat, b: nat) {
    exists path :: IsChain(deps, path) && path[0] == a && path[|path| - 1] == b
  }

  lemma LinkedSelf(deps: seq<seq<nat>>, a: nat)
    ensures Linked(deps, a, a)
  {
    assert IsChain(deps, [a]);
  }

  lemma LinkedShared(deps: seq<seq<nat>>, a: nat, b: nat)
    requires Share(deps, a, b)
    ensures Linked(deps, a, b)
  {
    assert [a, b][1..] == [b] && IsChain(deps, [b]);
    assert IsChain(deps, [a, b]);
  }

  lemma {:induction false} ChainsConcat(deps: seq<seq<nat>>, p: seq<nat>, q: seq<nat>)
    requires IsChain(deps, p) && IsChain(deps, q) && p[|p| - 1] == q[0]
    ensures IsChain(deps, p + q[1..])
    decreases |p|
  {
    if |p| == 1 {
      assert p + q[1..] == q;
    } else {
      ChainsConcat(deps, p[1..], q);
      assert (p + q[1..])[1..] == p[1..] + q[1..];
    }
  }

  lemma LinkedTransitive(deps: seq<seq<nat>>, a: nat, b: nat, c: nat)
    requires Linked(deps, a, b) && Linked(deps, b, c)
    ensures Linked(deps, a, c)
  {
    var p :| IsChain(deps, p) && p[0] == a && p[|p| - 1] == b;
    var q :| IsChain(deps, q) && q[0] == b && q[|q| - 1] == c;
    ChainsConcat(deps, p, q);
    var pq := p + q[1..];
    assert pq[0] == a && pq[|pq| - 1] == c;
  }

  lemma {:induction false} LinkedSymmetric(deps: seq<seq<nat>>, path: seq<nat>)
    requires IsChain(deps, path)
    ensures Linked(deps, path[|path| - 1], path[0])
    decreases |path|
  {
    if |path| == 1 {
      LinkedSelf(deps, path[0]);
    } else {
      LinkedSymmetric(deps, path[1..]);
      LinkedShared(deps, path[1], path[0]);
      LinkedTransitive(deps, path[|path| - 1], path[1], path[0]);
    }
  }

  /** Being linked is an equivalence, so the functions fall into classes. */
  lemma LinkedIsEquivalence(deps: seq<seq<nat>>, a: nat, b: nat, c: nat)
    ensures Linked(deps, a, a)
    ensures Linked(deps, a, b) ==> Linked(deps, b, a)
    ensures Linked(deps, a, b) && Linked(deps, b, c) ==> Linked(deps, a, c)
  {
    LinkedSelf(deps, a);
    if Linked(deps, a, b) {
      var path :| IsChain(deps, path) && path[0] == a && path[|path| - 1] == b;
      LinkedSymmetric(deps, path);
      if Linked(deps, b, c) {
        LinkedTransitive(deps, a, b, c);
      }
    }
  }

  /** All functions of one name have one root. */
  predicate Together(ids: seq<nat>, root: seq<nat>) {
    && (forall i :: 0 <= i < |ids| ==> ids[i] < |root|)
    && (forall i :: 0 <= i < |ids| ==> root[ids[i]] == root[ids[0]])
  }

  lemma SharedRoot(deps: seq<seq<nat>>, a: nat, b: nat, root: seq<nat>)
    requires Share(deps, a, b) && forall d :: 0 <= d < |deps| ==> Together(deps[d], root)
    ensures a < |root| && b < |root| && root[a] == root[b]
  {
    var d :| 0 <= d < |deps| && a in deps[d] && b in deps[d];
    assert Together(deps[d], root);
  }

  lemma {:induction false} ChainStaysTogether(deps: seq<seq<nat>>, path: seq<nat>, root: seq<nat>)
    requires IsChain(deps, path) && path[0] < |root|
    requires forall d :: 0 <= d < |deps| ==> Together(deps[d], root)
    ensures path[|path| - 1] < |root| && root[path[0]] == root[path[|path| - 1]]
    decreases |path|
  {
    hide Share, Together;
    if |path| > 1 {
      SharedRoot(deps, path[0], path[1], root);
      ChainStaysTogether(deps, path[1..], root);
    }
  }

  /** The sets are sound so far: only linked functions are in one set. */
  ghost predicate OnlyLinked(deps: seq<seq<nat>>, root: seq<nat>) {
    forall a, b :: 0 <= a < |root| && 0 <= b < |root| && root[a] == root[b] ==> Linked(deps, a, b)
  }

  lemma UnionIsLinked(deps: seq<seq<nat>>, before: seq<nat>, after: seq<nat>, x: nat, y: nat)
    requires OnlyLinked(deps, before) && Share(deps, x, y) && Share(deps, y, x) && Joined(before, after, x, y)
    ensures OnlyLinked(deps, after)
  {
    hide Share, Linked;
    LinkedShared(deps, x, y);
    LinkedShared(deps, y, x);
    forall a, b | 0 <= a < |after| && 0 <= b < |after| && after[a] == after[b]
      ensures Linked(deps, a, b)
    {
      if before[a] != before[b] {
        var (s, t) := if before[a] == before[x] then (x, y) else (y, x);
        LinkedTransitive(deps, a, s, t);
        LinkedTransitive(deps, a, t, b);
      }
    }
  }

  predicate AreIds(deps: seq<seq<nat>>, n: nat) {
    forall d, i :: 0 <= d < |deps| && 0 <= i < |deps[d]| ==> deps[d][i] < n
  }

  lemma UnionKeepsTogether(ids: seq<nat>, before: seq<nat>, after: seq<nat>, x: nat, y: nat)
    requires Together(ids, before) && Joined(before, after, x, y)
    ensures Together(ids, after)
  {
  }

  /** The loop over the names: afterwards two functions have the same root exactly when a chain of names links them. */
  method LinkFunctions(n: nat, deps: seq<seq<nat>>) returns (sets: DisjointSet)
    requires AreIds(deps, n)
    ensures sets.Valid() && fresh(sets) && fresh(sets.parents) && sets.parents.Length == n == |sets.root|
    ensures forall a: nat, b: nat :: a < n && b < n ==> (sets.root[a] == sets.root[b] <==> Linked(deps, a, b))
  {
    hide Together, Joined, Linked, Forest;
    sets := new DisjointSet(n);
    assert OnlyLinked(deps, sets.root) by {
      forall a: nat | a < n
        ensures Linked(deps, a, a)
      {
        LinkedSelf(deps, a);
      }
    }
    for d := 0 to |deps|
      invariant sets.Valid() && |sets.root| == n && fresh(sets) && fresh(sets.parents) && OnlyLinked(deps, sets.root)
      invariant forall e :: 0 <= e < d ==> Together(deps[e], sets.root)
    {
      LinkName(deps, d, n, sets);
    }
    forall a: nat, b: nat | a < n && b < n && Linked(deps, a, b)
      ensures sets.root[a] == sets.root[b]
    {
      LinkedRoots(deps, a, b, sets.root);
    }
  }

  lemma LinkedRoots(deps: seq<seq<nat>>, a: nat, b: nat, root: seq<nat>)
    requires Linked(deps, a, b) && a < |root| && forall d :: 0 <= d < |deps| ==> Together(deps[d], root)
    ensures b < |root| && root[a] == root[b]
  {
    var path :| IsChain(deps, path) && path[0] == a && path[|path| - 1] == b;
    ChainStaysTogether(deps, path, root);
  }

  /** The inner loop, over the functions of one name */
  method LinkName(deps: seq<seq<nat>>, d: nat, n: nat, sets: DisjointSet)
    requires AreIds(deps, n) && d < |deps|
    requires sets.Valid() && |sets.root| == n == sets.parents.Length && OnlyLinked(deps, sets.root)
    requires forall e :: 0 <= e < d ==> Together(deps[e], sets.root)
    modifies sets`root, sets`depth, sets.parents
    ensures sets.Valid() && |sets.root| == n && OnlyLinked(deps, sets.root)
    ensures forall e :: 0 <= e <= d ==> Together(deps[e], sets.root)
  {
    hide Joined, OnlyLinked, Forest;
    var ids := deps[d];
    for j := 0 to |ids|
      invariant sets.Valid() && |sets.root| == n && OnlyLinked(deps, sets.root)
      invariant forall e :: 0 <= e < d ==> Together(deps[e], sets.root)
      invariant Together(ids[..j], sets.root)
    {
      ghost var before := sets.root;
      sets.Union(ids[0], ids[j]);
      assert Share(deps, ids[0], ids[j]) && Share(deps, ids[j], ids[0]) by {
        assert ids[0] in deps[d] && ids[j] in deps[d];
      }
      UnionIsLinked(deps, before, sets.root, ids[0], ids[j]);
      forall e | 0 <= e < d
        ensures Together(deps[e], sets.root)
      {
        UnionKeepsTogether(deps[e], before, sets.root, ids[0], ids[j]);
      }
      UnionKeepsTogether(ids[..j], before, sets.root, ids[0], ids[j]);
      UnionJoins(before, sets.root, ids[0], ids[j]);
    }
    assert ids[..|ids|] == ids;
  }

  lemma UnionJoins(before: seq<nat>, after: seq<nat>, x: nat, y: nat)
    requires Joined(before, after, x, y)
    ensures after[x] == after[y]
  {
  }
}
