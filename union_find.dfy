/** The union-find structure of UnionFind.java: a parent array `trees` without path
    compression or union by rank, and a counter `disjoint` of the trees in the forest. */
module DisjointSets {

  /** The indices that are their own parent: the roots of the forest. */
  ghost function Roots(t: seq<int>): set<int>
  {
    set i | 0 <= i < |t| && t[i] == i
  }

  /** Every parent index is in range. */
  ghost predicate InRange(t: seq<int>)
  {
    forall i :: 0 <= i < |t| ==> 0 <= t[i] < |t|
  }

  /** `t` is an acyclic parent array: `root[i]` is the root at the end of i's chain of parent
      links, and `rank` strictly grows along every link, so every chain ends. */
  ghost predicate Forest(t: seq<int>, root: seq<int>, rank: seq<nat>)
  {
    |root| == |t| && |rank| == |t| && InRange(t) &&
    forall i :: 0 <= i < |t| ==>
      0 <= root[i] < |t| && t[root[i]] == root[i] &&
      (t[i] == i ==> root[i] == i) &&
      (t[i] != i ==> root[i] == root[t[i]] && rank[t[i]] < rank[i])
  }

  /** The node reached from `v` by following at most `k` parent links, stopping at a root. */
  ghost function Follow(t: seq<int>, v: int, k: nat): (w: int)
    requires InRange(t) && 0 <= v < |t|
    ensures 0 <= w < |t|
    decreases k
  {
    if k == 0 || t[v] == v then v else Follow(t, t[v], k - 1)
  }

  /** The root recorded for `v` is where the parent links from `v` lead. */
  lemma {:induction false} RootIsReached(t: seq<int>, root: seq<int>, rank: seq<nat>, v: int)
    requires Forest(t, root, rank) && 0 <= v < |t|
    ensures Follow(t, v, rank[v]) == root[v]
    decreases rank[v]
  {
    if t[v] != v {
      RootIsReached(t, root, rank, t[v]);
      FollowFurther(t, t[v], rank[t[v]], rank[v] - 1);
    }
  }

  /** Once a root has been reached, following more links stays there. */
  lemma {:induction false} FollowFurther(t: seq<int>, v: int, k: nat, k': nat)
    requires InRange(t) && 0 <= v < |t| && k <= k'
    requires t[Follow(t, v, k)] == Follow(t, v, k)
    ensures Follow(t, v, k') == Follow(t, v, k)
    decreases k
  {
    if k > 0 && t[v] != v {
      FollowFurther(t, t[v], k - 1, k' - 1);
    }
  }

  /** The parent array in which every node is its own parent. */
  ghost function Identity(n: nat): (t: seq<int>)
    ensures |t| == n && forall i :: 0 <= i < n ==> t[i] == i
  {
    seq(n, i => i)
  }

  /** When every node is its own parent there are n roots. */
  lemma {:induction false} IdentityRoots(n: nat)
    ensures |Roots(Identity(n))| == n
  {
    if n > 0 {
      IdentityRoots(n - 1);
      assert Roots(Identity(n)) == Roots(Identity(n - 1)) + {n - 1};
    }
  }

  /** A non-empty forest has at least one and at most as many roots as nodes. */
  lemma RootsBounds(t: seq<int>, root: seq<int>, rank: seq<nat>)
    requires Forest(t, root, rank)
    ensures |t| > 0 ==> 1 <= |Roots(t)| <= |t|
  {
    if |t| > 0 {
      assert root[0] in Roots(t);
      IdentityRoots(|t|);
      var all := Roots(Identity(|t|));
      assert Roots(t) <= all;
      assert all == Roots(t) + (all - Roots(t));
    }
  }

  /** Roots after the tree rooted at r2 is hung under r1. */
  ghost function LinkRoot(root: seq<int>, r1: int, r2: int): (root': seq<int>)
    ensures |root'| == |root|
  {
    seq(|root|, i requires 0 <= i < |root| => if root[i] == r2 then r1 else root[i])
  }

  /** Ranks after the tree rooted at r2 is hung under r1: the moved tree is lifted above r1. */
  ghost function LinkRank(root: seq<int>, rank: seq<nat>, r1: int, r2: int): (rank': seq<nat>)
    requires |rank| == |root| && 0 <= r1 < |rank|
    ensures |rank'| == |rank|
  {
    seq(|rank|, i requires 0 <= i < |rank| => if root[i] == r2 then rank[i] + rank[r1] + 1 else rank[i])
  }

  /** Re-parenting one root under another, different root keeps the array acyclic,
      moves exactly the nodes of r2's tree to r1's tree, and removes exactly one root. */
  lemma LinkPreservesForest(t: seq<int>, root: seq<int>, rank: seq<nat>, r1: int, r2: int)
    requires Forest(t, root, rank)
    requires 0 <= r1 < |t| && 0 <= r2 < |t| && t[r1] == r1 && t[r2] == r2 && r1 != r2
    ensures Forest(t[r2 := r1], LinkRoot(root, r1, r2), LinkRank(root, rank, r1, r2))
    ensures Roots(t[r2 := r1]) == Roots(t) - {r2}
    ensures |Roots(t[r2 := r1])| == |Roots(t)| - 1
  {
    var t', root', rank' := t[r2 := r1], LinkRoot(root, r1, r2), LinkRank(root, rank, r1, r2);
    assert root[r2] == r2 && root[r1] == r1;
    forall i | 0 <= i < |t'|
      ensures 0 <= root'[i] < |t'| && t'[root'[i]] == root'[i]
      ensures t'[i] == i ==> root'[i] == i
      ensures t'[i] != i ==> root'[i] == root'[t'[i]] && rank'[t'[i]] < rank'[i]
    {
      assert root'[i] == if root[i] == r2 then r1 else root[i];
      assert rank'[i] == if root[i] == r2 then rank[i] + rank[r1] + 1 else rank[i];
      if i == r2 {
        assert t'[i] == r1 && root'[r1] == r1 && rank'[r1] == rank[r1];
      } else if t[i] != i {
        var p := t[i];
        assert t'[i] == p && root[p] == root[i];
        assert root'[p] == if root[p] == r2 then r1 else root[p];
        assert rank'[p] == if root[p] == r2 then rank[p] + rank[r1] + 1 else rank[p];
      }
    }
    assert Roots(t') == Roots(t) - {r2};
  }

  /** class UnionFind: `trees[i]` is the parent of node i, or i for a root. */
  class UnionFind {
    var trees: array<int>
    var disjoint: int

    /** The root of each node's tree. */
    ghost var root: seq<int>
    /** A ranking that grows along parent links: the witness that the forest has no cycle. */
    ghost var rank: seq<nat>

    ghost predicate Valid()
      reads this, trees
    {
      Forest(trees[..], root, rank) && disjoint == |Roots(trees[..])|
    }

    /** Constructor: v nodes, each the root of its own tree, hence v disjoint trees. */
    constructor (v: int)
      requires v >= 0
      ensures Valid() && fresh(trees) && trees.Length == v && disjoint == v
      ensures forall i :: 0 <= i < v ==> trees[i] == i && root[i] == i
    {
      var t := new int[v];
      var i := 0;
      while i < v
        invariant 0 <= i <= v
        invariant forall j :: 0 <= j < i ==> t[j] == j
      {
        t[i] := i;
        i := i + 1;
      }
      trees := t;
      disjoint := v;
      root := t[..];
      rank := seq(v, j => 0);
      assert t[..] == Identity(v);
      IdentityRoots(v);
    }

    /** find: follow parent links from v up to the root of v's tree. */
    method Find(v: int) returns (r: int)
      requires Valid() && 0 <= v < trees.Length
      ensures r == root[v] && trees[r] == r
      ensures Follow(trees[..], v, rank[v]) == r
    {
      RootIsReached(trees[..], root, rank, v);
      r := v;
      while r != trees[r]
        invariant 0 <= r < trees.Length && root[r] == root[v]
        decreases rank[r]
      {
        r := trees[r];
      }
    }

    /** union: hang the root of v2's tree under the root of v1's tree, unless they already share a root. */
    method Union(v1: int, v2: int)
      requires Valid() && 0 <= v1 < trees.Length && 0 <= v2 < trees.Length
      modifies this, trees
      ensures Valid() && trees == old(trees)
      ensures root[v1] == root[v2]
      ensures old(root[v1]) == old(root[v2]) ==> trees[..] == old(trees[..]) && disjoint == old(disjoint)
      ensures old(root[v1]) != old(root[v2]) ==>
        trees[..] == old(trees[..])[old(root[v2]) := old(root[v1])] && disjoint == old(disjoint) - 1
      ensures forall i :: 0 <= i < trees.Length ==>
        root[i] == if old(root[i]) == old(root[v2]) then old(root[v1]) else old(root[i])
    {
      var v1Root := Find(v1);
      var v2Root := Find(v2);
      if v1Root == v2Root {
        return;
      }
      LinkPreservesForest(trees[..], root, rank, v1Root, v2Root);
      trees[v2Root] := v1Root;
      disjoint := disjoint - 1;
      rank := LinkRank(root, rank, v1Root, v2Root);
      root := LinkRoot(root, v1Root, v2Root);
    }

    /** disjoint(): the number of trees, which is the number of roots. */
    function Disjoint(): (d: int)
      reads this, trees
      requires Valid()
      ensures d == |Roots(trees[..])|
      ensures trees.Length > 0 ==> 1 <= d <= trees.Length
    {
      RootsBounds(trees[..], root, rank);
      disjoint
    }
  }
}
