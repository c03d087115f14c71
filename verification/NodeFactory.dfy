/** The merge forest of the constraint-graph nodes.

    A merged node points to the node it was merged into; looking up the final target
    compresses the path.  `root` is what every lookup returns.
 */
module NodeFactory {
  import opened Constraints

  /** depth bounds the length of the chain from a node to its root. */
  ghost predicate IsForest(mergeTarget: seq<nat>, root: seq<nat>, depth: seq<nat>) {
    && |mergeTarget| == |root| == |depth|
    && IsRep(root)
    && (forall n | 0 <= n < |root| :: mergeTarget[n] < |root| && root[mergeTarget[n]] == root[n])
    && (forall n | 0 <= n < |root| :: mergeTarget[n] == n <==> root[n] == n)
    && (forall n | 0 <= n < |root| && mergeTarget[n] != n :: depth[mergeTarget[n]] < depth[n])
  }

  /** All nodes that were represented by n1 are represented by n0. */
  function Joined(root: seq<nat>, n0: nat, n1: nat): (r: seq<nat>)
    requires n0 < |root|
    ensures |r| == |root|
    ensures forall n | 0 <= n < |root| :: r[n] == if root[n] == n1 then root[n0] else root[n]
  {
    seq(|root|, n requires 0 <= n < |root| => if root[n] == n1 then root[n0] else root[n])
  }

  class AndersNodeFactory {
    var mergeTarget: seq<nat>
    ghost var root: seq<nat>
    ghost var depth: seq<nat>

    ghost predicate Valid()
      reads this
    {
      IsForest(mergeTarget, root, depth)
    }

    constructor (size: nat)
      ensures Valid() && root == Identity(size)
    {
      mergeTarget := Identity(size);
      root := Identity(size);
      depth := seq(size, i => 0);
    }

    function GetNumNodes(): nat
      reads this
    {
      |mergeTarget|
    }

    method CreateNode() returns (n: nat)
      requires Valid()
      modifies this
      ensures Valid() && n == old(|root|) && root == old(root) + [n]
    {
      n := |mergeTarget|;
      mergeTarget, root, depth := mergeTarget + [n], root + [n], depth + [0];
    }

    /** Merge n1 into n0. */
    method MergeNode(n0: nat, n1: nat)
      requires Valid() && n0 < |root| && n1 < |root|
      requires root[n1] == n1 && root[n0] != n1
      modifies this
      ensures Valid() && root == Joined(old(root), n0, n1)
    {
      ghost var below, was, d := depth[n0] + 1, root, depth;
      mergeTarget := mergeTarget[n1 := n0];
      root := Joined(root, n0, n1);
      depth := seq(|d|, n requires 0 <= n < |d| && |was| == |d| => if was[n] == n1 then d[n] + below else d[n]);
    }

    /** The lookup with path compression. */
    method GetMergeTarget(n: nat) returns (ret: nat)
      requires Valid() && n < |root|
      modifies this`mergeTarget
      ensures Valid() && ret == root[n]
      ensures mergeTarget[n] == ret
    {
      ret := mergeTarget[n];
      if ret != n {
        var path: seq<nat> := [n];
        while ret != mergeTarget[ret]
          invariant ret < |root| && root[ret] == root[n]
          invariant n in path && forall k | k in path :: k < |root| && root[k] == root[n] && root[k] != k
          decreases depth[ret]
        {
          path := path + [ret];
          ret := mergeTarget[ret];
        }
        Compress(path, ret);
      }
    }

    method Compress(path: seq<nat>, ret: nat)
      requires Valid()
      requires forall k | k in path :: k < |root| && root[k] == ret && ret != k
      modifies this`mergeTarget
      ensures Valid()
      ensures forall k | k in path :: mergeTarget[k] == ret
      ensures forall k | 0 <= k < |root| && k !in path :: mergeTarget[k] == old(mergeTarget[k])
    {
      hide IsForest;
      assert |mergeTarget| == |root| by { ForestSize(mergeTarget, root, depth); }
      for i := 0 to |path|
        invariant Valid() && |mergeTarget| == |root|
        invariant forall k | k in path[..i] :: k in path && mergeTarget[k] == ret
        invariant forall k | 0 <= k < |root| && k !in path :: mergeTarget[k] == old(mergeTarget[k])
      {
        assert path[i] in path;
        Shortcut(mergeTarget, root, depth, path[i]);
        mergeTarget := mergeTarget[path[i] := ret];
        assert path[..i + 1] == path[..i] + [path[i]];
      }
      assert path[..|path|] == path;
    }

    /** The const lookup, without path compression. */
    method GetMergeTargetConst(n: nat) returns (ret: nat)
      requires Valid() && n < |root|
      ensures ret == root[n]
    {
      ret := mergeTarget[n];
      while ret != mergeTarget[ret]
        invariant ret < |root| && root[ret] == root[n]
        decreases depth[ret]
      {
        ret := mergeTarget[ret];
      }
    }
  }

  lemma ForestSize(mergeTarget: seq<nat>, root: seq<nat>, depth: seq<nat>)
    requires IsForest(mergeTarget, root, depth)
    ensures |mergeTarget| == |root|
  {
  }

  /** A root is less deep than any other node it represents. */
  lemma {:induction false} RootDepth(mergeTarget: seq<nat>, root: seq<nat>, depth: seq<nat>, n: nat)
    requires IsForest(mergeTarget, root, depth) && n < |root| && root[n] != n
    ensures depth[root[n]] < depth[n]
    decreases depth[n]
  {
    var m := mergeTarget[n];
    if root[m] != m {
      RootDepth(mergeTarget, root, depth, m);
    }
  }

  /** Pointing a node straight to its root changes no lookup. */
  lemma Shortcut(mergeTarget: seq<nat>, root: seq<nat>, depth: seq<nat>, n: nat)
    requires IsForest(mergeTarget, root, depth) && n < |root| && root[n] != n
    ensures n < |mergeTarget| && IsForest(mergeTarget[n := root[n]], root, depth)
  {
    RootDepth(mergeTarget, root, depth, n);
  }
}
