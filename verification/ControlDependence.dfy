/** Control dependence, read off the post-dominator tree. */
module ControlDependence {

  /** The successors of each block; the number of blocks stands for the exit of the function,
      the one successor of a block without any. */
  type Cfg = seq<seq<nat>>

  predicate CfgOk(g: Cfg) {
    forall b | 0 <= b < |g| :: forall i | 0 <= i < |g[b]| :: g[b][i] < |g|
  }

  predicate Edge(g: Cfg, a: nat, b: nat) {
    a < |g| && if g[a] == [] then b == |g| else b in g[a]
  }

  /** p leads from its first node to the exit. */
  ghost predicate IsPath(g: Cfg, p: seq<nat>) {
    && p != [] && p[|p| - 1] == |g|
    && forall i | 0 <= i < |p| - 1 :: Edge(g, p[i], p[i + 1])
  }

  /** Every way from v to the exit goes through x. */
  ghost predicate PostDom(g: Cfg, x: nat, v: nat) {
    forall p | IsPath(g, p) && p[0] == v :: x in p
  }

  ghost predicate StrictPostDom(g: Cfg, x: nat, v: nat) {
    PostDom(g, x, v) && x != v
  }

  /** Every block can reach the exit. */
  ghost predicate Terminates(g: Cfg) {
    forall v: nat | v <= |g| :: CanExit(g, v)
  }

  ghost predicate CanExit(g: Cfg, v: nat) {
    exists p :: IsPath(g, p) && p[0] == v
  }

  /** idom[b] is the immediate post-dominator of b: of those that strictly post-dominate b, the
      one that all others post-dominate. */
  ghost predicate IsPostDomTree(g: Cfg, idom: seq<nat>) {
    |idom| == |g| && forall b: nat | b < |g| :: IsIdom(g, idom[b], b)
  }

  ghost predicate IsIdom(g: Cfg, d: nat, b: nat) {
    d <= |g| && StrictPostDom(g, d, b) && forall x: nat | StrictPostDom(g, x, b) :: PostDom(g, x, d)
  }

  /** Whether n runs is decided in b: n post-dominates a successor of b, but not strictly b. */
  ghost predicate Controls(g: Cfg, b: nat, n: nat) {
    b < |g| && n < |g| && exists s :: Edge(g, b, s) && PostDom(g, n, s) && !StrictPostDom(g, n, b)
  }

  ghost function PostDoms(g: Cfg, v: nat): set<nat> {
    set x: nat | x <= |g| && PostDom(g, x, v)
  }

  lemma PostDomTrans(g: Cfg, x: nat, y: nat, z: nat)
    requires PostDom(g, x, y) && PostDom(g, y, z)
    ensures PostDom(g, x, z)
  {
    forall p | IsPath(g, p) && p[0] == z ensures x in p {
      var i :| 0 <= i < |p| && p[i] == y;
      assert IsPath(g, p[i..]) && p[i..][0] == y;
      assert x in p[i..];
    }
  }

  /** Different nodes do not post-dominate each other. */
  lemma {:induction false} PostDomAntisym(g: Cfg, x: nat, y: nat, p: seq<nat>)
    requires PostDom(g, x, y) && PostDom(g, y, x) && IsPath(g, p) && p[0] == y
    ensures x == y
    decreases |p|
  {
    if x != y {
      var i :| 0 <= i < |p| && p[i] == x;
      var q := p[i..];
      assert IsPath(g, q) && q[0] == x;
      var j :| 0 <= j < |q| && q[j] == y;
      assert IsPath(g, q[j..]) && q[j..][0] == y;
      PostDomAntisym(g, x, y, q[j..]);
    }
  }

  /** The post-dominators of b are b and those of its parent in the tree. */
  lemma Parent(g: Cfg, d: nat, b: nat)
    requires Terminates(g) && b < |g| && IsIdom(g, d, b)
    ensures PostDoms(g, b) == {b} + PostDoms(g, d) && b !in PostDoms(g, d)
    ensures forall x: nat | x <= |g| :: x in PostDoms(g, d) <==> StrictPostDom(g, x, b)
  {
    assert PostDom(g, b, b);
    assert CanExit(g, b) && CanExit(g, d);
    var p :| IsPath(g, p) && p[0] == d;
    if PostDom(g, b, d) {
      PostDomAntisym(g, b, d, p);
    }
    forall x: nat | x <= |g| && PostDom(g, x, d) ensures StrictPostDom(g, x, b) {
      PostDomTrans(g, x, d, b);
    }
  }

  /** What strictly post-dominates b post-dominates its successors. */
  lemma SuccessorMeets(g: Cfg, d: nat, b: nat, s: nat)
    requires CfgOk(g) && Terminates(g) && b < |g| && IsIdom(g, d, b) && Edge(g, b, s)
    ensures s <= |g| && PostDoms(g, d) <= PostDoms(g, s)
  {
    Parent(g, d, b);
    forall x | x in PostDoms(g, d) ensures PostDom(g, x, s) {
      forall p | IsPath(g, p) && p[0] == s ensures x in p {
        var q := [b] + p;
        assert IsPath(g, q) && q[0] == b;
      }
    }
  }

  /** The exit is post-dominated by itself only. */
  lemma OnlyExit(g: Cfg)
    ensures PostDoms(g, |g|) == {|g|}
  {
    var p := [|g|];
    assert IsPath(g, p) && p[0] == |g|;
    forall p | IsPath(g, p) && p[0] == |g| ensures |g| in p {
    }
  }

  ghost predicate Depends(graph: set<(Controller, nat)>, n: nat) {
    exists c :: (c, n) in graph
  }

  datatype Controller = Entry | Block(b: nat)

  ghost predicate ControlsBy(g: Cfg, b: nat, k: nat, n: nat) {
    b < |g| && k <= |g[b]| && n < |g| && !StrictPostDom(g, n, b) && exists i :: 0 <= i < k && PostDom(g, n, g[b][i])
  }

  lemma AllBranches(g: Cfg, b: nat)
    requires b < |g|
    ensures forall n: nat :: ControlsBy(g, b, |g[b]|, n) <==> Controls(g, b, n)
  {
    OnlyExit(g);
    forall n: nat ensures ControlsBy(g, b, |g[b]|, n) <==> Controls(g, b, n) {
      if ControlsBy(g, b, |g[b]|, n) {
        var i :| 0 <= i < |g[b]| && PostDom(g, n, g[b][i]);
        assert Edge(g, b, g[b][i]);
      }
      if s :| Edge(g, b, s) && PostDom(g, n, s) && n < |g| && !StrictPostDom(g, n, b) {
        assert n !in PostDoms(g, |g|);
        if g[b] == [] {
          assert false;
        }
      }
    }
  }

  class CDG {
    var bbGraph: set<(Controller, nat)>

    constructor ()
      ensures bbGraph == {}
    {
      bbGraph := {};
    }

    /** Walk the tree up from the successor s to the parent of b, which is met before the root. */
    method Walk(g: Cfg, idom: seq<nat>, b: nat, s: nat)
      requires CfgOk(g) && Terminates(g) && IsPostDomTree(g, idom) && Edge(g, b, s) && s < |g|
      modifies this
      ensures forall e :: e in bbGraph <==> e in old(bbGraph) || (e.0 == Block(b) && e.1 in PostDoms(g, s) - PostDoms(g, idom[b]))
      ensures forall e | e in bbGraph && e !in old(bbGraph) :: e.1 < |g|
    {
      SuccessorMeets(g, idom[b], b, s);
      assert IsIdom(g, idom[b], b);
      assert idom[b] in PostDoms(g, idom[b]);
      var n: nat := s;
      while n != idom[b]
        invariant n <= |g| && PostDoms(g, n) <= PostDoms(g, s)
        invariant idom[b] in PostDoms(g, n)
        invariant forall e :: e in bbGraph <==> e in old(bbGraph) || (e.0 == Block(b) && e.1 in PostDoms(g, s) - PostDoms(g, n))
        invariant forall e | e in bbGraph && e !in old(bbGraph) :: e.1 < |g|
        decreases PostDoms(g, n)
      {
        OnlyExit(g);
        assert n < |g|;
        Parent(g, idom[n], n);
        bbGraph := bbGraph + {(Block(b), n)};
        n := idom[n];
      }
    }

    /** Add what the branches of b decide. */
    method AddBranches(g: Cfg, idom: seq<nat>, b: nat)
      requires CfgOk(g) && Terminates(g) && IsPostDomTree(g, idom) && b < |g|
      modifies this
      ensures forall e :: e in bbGraph <==> e in old(bbGraph) || (e.0 == Block(b) && Controls(g, b, e.1))
    {
      for i := 0 to |g[b]|
        invariant forall e :: e in bbGraph <==> e in old(bbGraph) || (e.0 == Block(b) && ControlsBy(g, b, i, e.1))
      {
        assert IsIdom(g, idom[b], b) && Edge(g, b, g[b][i]);
        Parent(g, idom[b], b);
        Walk(g, idom, b, g[b][i]);
        OnlyExit(g);
      }
      AllBranches(g, b);
    }

    /** The graph gets the control dependences, and an edge from ENTRY to every block that
        depends on no other. */
    method RunOnFunction(g: Cfg, idom: seq<nat>)
      requires CfgOk(g) && Terminates(g) && IsPostDomTree(g, idom) && bbGraph == {}
      modifies this
      ensures forall b: nat, n: nat :: (Block(b), n) in bbGraph <==> Controls(g, b, n)
      ensures forall n: nat :: (Entry, n) in bbGraph <==> n < |g| && !exists b: nat :: Controls(g, b, n)
      ensures forall n: nat | n < |g| :: Depends(bbGraph, n)
    {
      for b := 0 to |g|
        invariant forall e :: e in bbGraph <==> e.0.Block? && e.0.b < b && Controls(g, e.0.b, e.1)
      {
        AddBranches(g, idom, b);
      }
      ghost var deps := bbGraph;
      for n := 0 to |g|
        invariant forall e :: e in bbGraph <==> e in deps || (e.0 == Entry && e.1 < n && !Depends(deps, e.1))
      {
        if forall e | e in bbGraph :: e.1 != n {
          bbGraph := bbGraph + {(Entry, n)};
        }
      }
      forall n: nat ensures Depends(deps, n) <==> exists b: nat :: Controls(g, b, n) {
        assert forall b: nat :: Controls(g, b, n) <==> (Block(b), n) in deps;
      }
      forall n: nat | n < |g| ensures Depends(bbGraph, n) {
        assert (Entry, n) in bbGraph || Depends(deps, n);
      }
    }
  }
}
