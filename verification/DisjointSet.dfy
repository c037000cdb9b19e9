/** Union-find with path compression and a coin flip for the direction of each link. */
module DisjointSet {

  /** A forest over an array of parents: `root` names the tree of each element, `depth` falls on the way up. */
  ghost predicate Forest(parents: seq<nat>, root: seq<nat>, depth: seq<nat>) {
    && |root| == |depth| == |parents|
    && forall x :: 0 <= x < |parents| ==>
         && parents[x] < |parents| && root[x] < |parents|
         && root[root[x]] == root[x] && parents[root[x]] == root[x]
         && (parents[x] == x ==> root[x] == x && depth[x] == 0)
         && (parents[x] != x ==> root[parents[x]] == root[x] && depth[parents[x]] < depth[x])
  }

  /** The roots after the tree of rx has been hung below ry */
  ghost function Merged(root: seq<nat>, rx: nat, ry: nat): (r: seq<nat>)
    ensures |r| == |root|
  {
    seq(|root|, z requires 0 <= z < |root| => if root[z] == rx then ry else root[z])
  }

  /** The partition `after` is `before` with the sets of x and y merged, and nothing else. */
  ghost predicate Joined(before: seq<nat>, after: seq<nat>, x: nat, y: nat) {
    && |after| == |before| && x < |before| && y < |before|
    && forall a, b :: 0 <= a < |before| && 0 <= b < |before| ==>
         (after[a] == after[b] <==>
          || before[a] == before[b]
          || (before[a] == before[x] && before[b] == before[y])
          || (before[a] == before[y] && before[b] == before[x]))
  }

  ghost function Deeper(depth: seq<nat>, root: seq<nat>, rx: nat): (d: seq<nat>)
    requires |root| == |depth|
    ensures |d| == |depth|
  {
    seq(|depth|, z requires 0 <= z < |depth| => if root[z] == rx then depth[z] + 1 else depth[z])
  }

  lemma CompressKeepsForest(parents: seq<nat>, root: seq<nat>, depth: seq<nat>, x: nat)
    requires Forest(parents, root, depth) && x < |parents|
    ensures Forest(parents[x := root[x]], root, depth)
  {
    assert root[x] != x ==> parents[x] != x && depth[root[x]] == 0;
  }

  lemma LinkKeepsForest(parents: seq<nat>, root: seq<nat>, depth: seq<nat>, rx: nat, ry: nat)
    requires Forest(parents, root, depth) && rx < |parents| && ry < |parents|
    requires rx != ry && root[rx] == rx && root[ry] == ry
    ensures Forest(parents[rx := ry], Merged(root, rx, ry), Deeper(depth, root, rx))
  {
  }

  class DisjointSet {
    const parents: array<nat>
    ghost var root: seq<nat>
    ghost var depth: seq<nat>

    ghost predicate Valid()
      reads this, parents
    {
      Forest(parents[..], root, depth)
    }

    /** Every element alone */
    constructor (n: nat)
      ensures Valid() && fresh(parents) && parents.Length == n && root == seq(n, i => i)
    {
      parents := new nat[n](i => i);
      root := seq(n, i => i);
      depth := seq(n, _ => 0);
    }

    /** disjoint_set_find: the partition stays what it is, whatever is compressed. */
    method Find(x: nat) returns (r: nat)
      requires Valid() && x < parents.Length
      modifies parents
      ensures Valid() && r == root[x]
      decreases depth[x]
    {
      if parents[x] != x {
        r := Find(parents[x]);
        CompressKeepsForest(parents[..], root, depth, x);
        ghost var before := parents[..];
        parents[x] := r;
        assert parents[..] == before[x := r];
      } else {
        r := x;
      }
    }

    /** disjoint_set_union: merges the sets of x and y, and no others, whichever way the coin falls. */
    method Union(x: nat, y: nat)
      requires Valid() && x < parents.Length && y < parents.Length
      modifies parents, this`root, this`depth
      ensures Valid() && Joined(old(root), root, x, y)
    {
      var rx := Find(x);
      var ry := Find(y);
      if rx != ry {
        var coin: bool := *;
        if coin {
          Link(rx, ry);
        } else {
          Link(ry, rx);
        }
      }
    }

    method Link(rx: nat, ry: nat)
      requires Valid() && rx < parents.Length && ry < parents.Length && rx != ry && root[rx] == rx && root[ry] == ry
      modifies parents, this`root, this`depth
      ensures Valid() && root == Merged(old(root), rx, ry)
    {
      LinkKeepsForest(parents[..], root, depth, rx, ry);
      depth := Deeper(depth, root, rx);
      root := Merged(root, rx, ry);
      ghost var before := parents[..];
      parents[rx] := ry;
      assert parents[..] == before[rx := ry];
    }
  }
}
