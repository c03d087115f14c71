/** Representatives of merged nodes, by rank, with one field for rank and parent.

    A field of at least NODE_RANK_MIN holds the rank of a representative, a smaller one the
    parent of a merged node.  The rank a node had when it was merged away is lost in the
    program; it is kept here as ghost state.
 */
module UnionFind {
  import opened Constraints
  import opened NodeFactory
  import opened Powers

  const NODE_RANK_MIN: nat := 0xf000_0000
  const WORD: nat := 0x1_0000_0000

  ghost function Members(root: seq<nat>, r: nat): set<nat> {
    set m: nat | m < |root| && root[m] == r
  }

  /** Ranks grow along parents, and a representative of rank k stands for at least 2^k nodes. */
  ghost predicate Ranked(rep: seq<nat>, root: seq<nat>, rank: seq<nat>) {
    && |rep| == |root| == |rank| < NODE_RANK_MIN
    && IsRep(root)
    && (forall n | 0 <= n < |rep| :: rep[n] >= NODE_RANK_MIN <==> root[n] == n)
    && (forall n | 0 <= n < |rep| && root[n] == n :: rep[n] == NODE_RANK_MIN + rank[n])
    && Paths(rep, root, rank)
    && (forall n | 0 <= n < |rep| && root[n] == n :: Large(root, rank, n))
  }

  /** Every other node has a parent of higher rank with the same representative. */
  ghost predicate Paths(rep: seq<nat>, root: seq<nat>, rank: seq<nat>)
    requires |rep| == |root| == |rank|
  {
    forall n | 0 <= n < |rep| && root[n] != n :: rep[n] < |rep| && root[rep[n]] == root[n] && rank[n] < rank[rep[n]]
  }

  ghost predicate Large(root: seq<nat>, rank: seq<nat>, n: nat)
    requires n < |rank|
  {
    Pow2(rank[n]) <= |Members(root, n)|
  }

  ghost function MaxOf(s: seq<nat>): nat {
    if s == [] then 0 else if s[|s| - 1] > MaxOf(s[..|s| - 1]) then s[|s| - 1] else MaxOf(s[..|s| - 1])
  }

  lemma {:induction false} MaxIsMax(s: seq<nat>, i: nat)
    requires i < |s|
    ensures s[i] <= MaxOf(s)
  {
    if i < |s| - 1 {
      MaxIsMax(s[..|s| - 1], i);
    }
  }

  /** How far the rank of n is below the greatest rank. */
  ghost function Left(rank: seq<nat>, n: nat): nat {
    if n < |rank| && rank[n] <= MaxOf(rank) then MaxOf(rank) - rank[n] else 0
  }

  lemma ParentIsHigher(rep: seq<nat>, root: seq<nat>, rank: seq<nat>, n: nat)
    requires Ranked(rep, root, rank) && n < |rep| && rep[n] < NODE_RANK_MIN
    ensures rep[n] < |rep| == |root| && root[n] != n && root[rep[n]] == root[n] < |root|
    ensures Left(rank, rep[n]) < Left(rank, n)
  {
    MaxIsMax(rank, n);
    MaxIsMax(rank, rep[n]);
  }

  lemma RankIsRep(rep: seq<nat>, root: seq<nat>, rank: seq<nat>, n: nat)
    requires Ranked(rep, root, rank) && n < |rep| && rep[n] >= NODE_RANK_MIN
    ensures |root| == |rep| && root[n] == n
  {
  }

  /** How many parents a lookup follows. */
  ghost function Steps(rep: seq<nat>, root: seq<nat>, rank: seq<nat>, n: nat): (s: nat)
    requires Ranked(rep, root, rank) && n < |rep|
    ensures rank[n] + s <= rank[root[n]]
    decreases Left(rank, n)
  {
    RankBelow(rep, root, rank, n);
    if root[n] == n then 0 else ParentIsHigher(rep, root, rank, n); 1 + Steps(rep, root, rank, rep[n])
  }

  /** A merged node has less rank than its representative. */
  lemma {:induction false} RankBelow(rep: seq<nat>, root: seq<nat>, rank: seq<nat>, n: nat)
    requires Ranked(rep, root, rank) && n < |rep|
    ensures rank[n] <= rank[root[n]]
    ensures root[n] != n ==> rank[n] < rank[root[n]]
    decreases Left(rank, n)
  {
    if root[n] != n {
      ParentIsHigher(rep, root, rank, n);
      RankBelow(rep, root, rank, rep[n]);
    }
  }

  /** Pointing a merged node straight at its representative keeps the ranks in order. */
  lemma Shortened(rep: seq<nat>, root: seq<nat>, rank: seq<nat>, n: nat)
    requires Ranked(rep, root, rank) && n < |rep| && root[n] != n
    ensures root[n] < |rep| == |root| && root[root[n]] == root[n] && Ranked(rep[n := root[n]], root, rank)
  {
    RankBelow(rep, root, rank, n);
    hide Large;
  }

  lemma {:induction false} AtMost(root: seq<nat>, n: nat, k: nat)
    requires k <= |root|
    ensures |set m: nat | m < k && root[m] == n| <= k
  {
    if k > 0 {
      AtMost(root, n, k - 1);
      var s, t := set m: nat | m < k && root[m] == n, set m: nat | m < k - 1 && root[m] == n;
      assert s == if root[k - 1] == n then t + {k - 1} else t;
    }
  }

  /** A lookup follows at most log2 of the number of nodes many parents. */
  lemma LookupIsShort(rep: seq<nat>, root: seq<nat>, rank: seq<nat>, n: nat)
    requires Ranked(rep, root, rank) && n < |rep|
    ensures Pow2(Steps(rep, root, rank, n)) <= |rep|
  {
    var r := root[n];
    assert root[r] == r && Large(root, rank, r);
    AtMost(root, r, |root|);
    Pow2Monotone(Steps(rep, root, rank, n), rank[r]);
  }

  lemma Pow2By4(k: nat)
    ensures Pow2(k + 4) == 16 * Pow2(k)
  {
    assert Pow2(k + 2) == 4 * Pow2(k);
  }

  lemma Pow2Of32(k: nat)
    requires k == 0
    ensures Pow2(k + 32) == WORD
  {
    Pow2By4(k);
    Pow2By4(k + 4);
    Pow2By4(k + 8);
    Pow2By4(k + 12);
    Pow2By4(k + 16);
    Pow2By4(k + 20);
    Pow2By4(k + 24);
    Pow2By4(k + 28);
  }

  lemma RankSmall(k: nat)
    requires Pow2(k) < NODE_RANK_MIN
    ensures k < 32
  {
    hide Pow2;
    if k >= 32 {
      Pow2Of32(0);
      Pow2Monotone(32, k);
    }
  }

  /** No rank field wraps around in 32 bits, nor does one more than it. */
  lemma RankFits(rep: seq<nat>, root: seq<nat>, rank: seq<nat>, n: nat)
    requires Ranked(rep, root, rank) && n < |rep| && root[n] == n
    ensures rep[n] + 1 < WORD
  {
    assert Large(root, rank, n);
    hide Pow2;
    AtMost(root, n, |root|);
    assert Members(root, n) == set m: nat | m < |root| && root[m] == n;
    RankSmall(rank[n]);
  }

  /** The representatives other than n2 keep their members, and n1 gains those of n2. */
  lemma JoinMembers(root: seq<nat>, n1: nat, n2: nat)
    requires n1 < |root| && n2 < |root| && root[n1] == n1 && root[n2] == n2 && n1 != n2
    ensures |Members(Joined(root, n1, n2), n1)| == |Members(root, n1)| + |Members(root, n2)|
    ensures forall n: nat | n != n1 && n != n2 :: Members(Joined(root, n1, n2), n) == Members(root, n)
  {
    var j := Joined(root, n1, n2);
    assert Members(j, n1) == Members(root, n1) + Members(root, n2);
    assert Members(root, n1) !! Members(root, n2);
    forall n: nat | n != n1 && n != n2 ensures Members(j, n) == Members(root, n) {
    }
  }

  /** The parent of higher rank has members enough for its new rank. */
  lemma JoinLarge(root: seq<nat>, rank: seq<nat>, n1: nat, n2: nat, rank': seq<nat>, n: nat)
    requires |root| == |rank| && n1 < |root| && n2 < |root| && root[n1] == n1 && root[n2] == n2 && n1 != n2
    requires rank[n2] <= rank[n1]
    requires rank' == rank[n1 := if rank[n1] == rank[n2] then rank[n1] + 1 else rank[n1]]
    requires n < |rank| && n != n2 && Large(root, rank, n) && Large(root, rank, n2)
    ensures Large(Joined(root, n1, n2), rank', n)
  {
    JoinMembers(root, n1, n2);
    hide Joined, Members;
  }

  /** Every node still follows its parent to its root, and ranks still grow on the way. */
  lemma JoinPaths(rep: seq<nat>, root: seq<nat>, rank: seq<nat>, n1: nat, n2: nat, rep': seq<nat>, rank': seq<nat>, root': seq<nat>)
    requires Ranked(rep, root, rank) && n1 < |rep| && n2 < |rep| && root[n1] == n1 && root[n2] == n2 && n1 != n2
    requires rank[n2] <= rank[n1]
    requires rank' == rank[n1 := if rank[n1] == rank[n2] then rank[n1] + 1 else rank[n1]]
    requires rep' == rep[n1 := NODE_RANK_MIN + rank'[n1]][n2 := n1]
    requires |root'| == |root| && forall n | 0 <= n < |root| :: root'[n] == if root[n] == n2 then n1 else root[n]
    ensures IsRep(root') && Paths(rep', root', rank')
  {
    hide Large;
    forall n | 0 <= n < |rep| && root'[n] != n ensures rep'[n] < |rep| && root'[rep'[n]] == root'[n] && rank'[n] < rank'[rep'[n]] {
      if n != n2 {
        assert n != n1 && rep'[n] == rep[n] && root[n] != n;
      }
    }
  }

  /** The fields of representatives, and no others, hold ranks. */
  lemma JoinFields(rep: seq<nat>, root: seq<nat>, rank: seq<nat>, n1: nat, n2: nat, rep': seq<nat>, rank': seq<nat>, root': seq<nat>)
    requires Ranked(rep, root, rank) && n1 < |rep| && n2 < |rep| && root[n1] == n1 && root[n2] == n2 && n1 != n2
    requires rank' == rank[n1 := if rank[n1] == rank[n2] then rank[n1] + 1 else rank[n1]]
    requires rep' == rep[n1 := NODE_RANK_MIN + rank'[n1]][n2 := n1]
    requires |root'| == |root| && forall n | 0 <= n < |root| :: root'[n] == if root[n] == n2 then n1 else root[n]
    ensures forall n | 0 <= n < |rep| :: rep'[n] >= NODE_RANK_MIN <==> root'[n] == n
    ensures forall n | 0 <= n < |rep| && root'[n] == n :: rep'[n] == NODE_RANK_MIN + rank'[n]
  {
    hide Large, Paths;
  }

  /** The root of higher rank becomes the parent; its rank grows if they were equal. */
  lemma JoinRanked(rep: seq<nat>, root: seq<nat>, rank: seq<nat>, n1: nat, n2: nat, rep': seq<nat>, rank': seq<nat>)
    requires Ranked(rep, root, rank) && n1 < |rep| && n2 < |rep| && root[n1] == n1 && root[n2] == n2 && n1 != n2
    requires rank[n2] <= rank[n1]
    requires rank' == rank[n1 := if rank[n1] == rank[n2] then rank[n1] + 1 else rank[n1]]
    requires rep' == rep[n1 := NODE_RANK_MIN + rank'[n1]][n2 := n1]
    ensures Ranked(rep', Joined(root, n1, n2), rank')
  {
    hide Joined, Large, Paths;
    var root' := Joined(root, n1, n2);
    JoinPaths(rep, root, rank, n1, n2, rep', rank', root');
    JoinFields(rep, root, rank, n1, n2, rep', rank', root');
    forall n: nat | n < |rep| && root'[n] == n ensures Large(root', rank', n) {
      JoinLarge(root, rank, n1, n2, rank', n);
    }
    hide IsRep;
  }

  class Nodes {
    var rep: seq<nat>
    ghost var root: seq<nat>
    ghost var rank: seq<nat>

    ghost predicate Valid()
      reads this
    {
      Ranked(rep, root, rank)
    }

    constructor (size: nat)
      requires size < NODE_RANK_MIN
      ensures Valid() && root == Identity(size)
    {
      rep := seq(size, i => NODE_RANK_MIN);
      root := Identity(size);
      rank := seq(size, i => 0);
      new;
      forall n: nat | n < size ensures Large(root, rank, n) {
        assert Members(root, n) == {n};
      }
    }

    predicate IsRepNode(n: nat)
      requires n < |rep|
      reads this`rep
    {
      rep[n] >= NODE_RANK_MIN
    }

    /** Unify two representatives; the result is the one that now stands for both. */
    method MergeNodes(n1: nat, n2: nat) returns (parent: nat)
      requires Valid() && n1 < |rep| && n2 < |rep| && n1 != n2
      requires IsRepNode(n1) && IsRepNode(n2)
      modifies this
      ensures Valid()
      ensures parent == if old(rep[n1]) < old(rep[n2]) then n2 else n1
      ensures root == Joined(old(root), parent, if parent == n1 then n2 else n1)
      ensures rep[parent] < WORD
    {
      hide Large, Joined;
      var a, b := n1, n2;
      RankFits(rep, root, rank, n1);
      RankFits(rep, root, rank, n2);
      ghost var rep0, rank0 := rep, rank;
      if rep[n1] < rep[n2] {
        a, b := n2, n1;
      } else if rep[n1] == rep[n2] {
        rep := rep[n1 := rep[n1] + 1];
        rank := rank[n1 := rank[n1] + 1];
      }
      rep := rep[b := a];
      ghost var top: nat := NODE_RANK_MIN + rank[a];
      ghost var want: seq<nat> := rep0[a := top][b := a];
      assert rank == rank0[a := rank[a]] && rep == want;
      JoinRanked(rep0, root, rank0, a, b, rep, rank);
      root := Joined(root, a, b);
      parent := a;
    }

    /** The lookup that sets every node it visits to point at the representative. */
    method GetNodeRep(n: nat) returns (r: nat)
      requires Valid() && n < |rep|
      modifies this`rep
      ensures Valid() && r == root[n] && |rep| == old(|rep|)
      ensures root[n] != n ==> rep[n] == r
      ensures forall k | 0 <= k < |rep| :: rep[k] == old(rep[k]) || rep[k] == root[k] == r
      decreases Left(rank, n)
    {
      hide Ranked, MaxOf, Left;
      var r0 := rep[n];
      if r0 >= NODE_RANK_MIN {
        RankIsRep(rep, root, rank, n);
        return n;
      }
      ParentIsHigher(rep, root, rank, n);
      r := GetNodeRep(r0);
      Shortened(rep, root, rank, n);
      rep := rep[n := r];
    }

    /** The lookup that changes nothing. */
    method CgetNodeRep(n: nat) returns (r: nat)
      requires Valid() && n < |rep|
      ensures r == root[n]
    {
      assert |rep| == |root|;
      hide Ranked, MaxOf, Left;
      r := n;
      while rep[r] < NODE_RANK_MIN
        invariant r < |rep| == |root| && root[r] == root[n]
        decreases Left(rank, r)
      {
        ParentIsHigher(rep, root, rank, r);
        r := rep[r];
      }
      RankIsRep(rep, root, rank, r);
    }
  }
}
