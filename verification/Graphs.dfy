/** Directed graphs, paths, and strongly connected components listed in reverse topological order. */
module Graphs {

  type Graph = map<nat, set<nat>>

  function Succ(g: Graph, n: nat): set<nat> {
    if n in g then g[n] else {}
  }

  /** Every edge ends in a node of the graph. */
  predicate Closed(g: Graph) {
    forall n, k | n in g && k in g[n] :: k in g
  }

  ghost predicate IsPath(g: Graph, p: seq<nat>) {
    && |p| > 0
    && (forall i | 0 <= i < |p| :: p[i] in g)
    && (forall i | 0 <= i < |p| - 1 :: p[i + 1] in Succ(g, p[i]))
  }

  ghost predicate Joins(g: Graph, p: seq<nat>, x: nat, y: nat) {
    IsPath(g, p) && p[0] == x && p[|p| - 1] == y
  }

  ghost predicate Reaches(g: Graph, x: nat, y: nat) {
    exists p: seq<nat> :: Joins(g, p, x, y)
  }

  ghost predicate Mutual(g: Graph, x: nat, y: nat) {
    Reaches(g, x, y) && Reaches(g, y, x)
  }

  lemma ReachesSelf(g: Graph, x: nat)
    requires x in g
    ensures Reaches(g, x, x)
  {
    assert Joins(g, [x], x, x);
  }

  lemma ReachesEdge(g: Graph, x: nat, y: nat)
    requires x in g && y in g && y in g[x]
    ensures Reaches(g, x, y)
  {
    assert Joins(g, [x, y], x, y);
  }

  lemma ReachesTrans(g: Graph, x: nat, y: nat, z: nat)
    requires Reaches(g, x, y) && Reaches(g, y, z)
    ensures Reaches(g, x, z)
  {
    var p: seq<nat> :| Joins(g, p, x, y);
    var q: seq<nat> :| Joins(g, q, y, z);
    var r := p + q[1..];
    forall i | 0 <= i < |r| - 1 ensures r[i + 1] in Succ(g, r[i]) {
      if i < |p| - 1 {
      } else {
        assert r[i] == q[i + 1 - |p|] && r[i + 1] == q[i + 2 - |p|];
      }
    }
    assert r[|r| - 1] == z;
    assert Joins(g, r, x, z);
  }

  /** Every node of a path lies between its ends. */
  lemma OnTheWay(g: Graph, p: seq<nat>, i: nat)
    requires IsPath(g, p) && i < |p|
    ensures Reaches(g, p[0], p[i]) && Reaches(g, p[i], p[|p| - 1])
  {
    var a, b := p[..i + 1], p[i..];
    assert Joins(g, a, p[0], p[i]);
    assert IsPath(g, b) by {
      assert forall j | 0 <= j < |b| :: b[j] == p[i + j];
    }
    assert Joins(g, b, p[i], p[|p| - 1]);
  }

  /** A set closed under the edges cannot be left. */
  lemma {:induction false} StaysInside(g: Graph, inside: set<nat>, p: seq<nat>)
    requires IsPath(g, p) && p[0] in inside
    requires forall n | n in inside :: Succ(g, n) <= inside
    ensures p[|p| - 1] in inside
    decreases |p|
  {
    if |p| > 1 {
      assert p[1] in Succ(g, p[0]);
      var q := p[1..];
      assert forall i | 0 <= i < |q| :: q[i] == p[i + 1];
      StaysInside(g, inside, q);
    }
  }

  lemma ReachesInside(g: Graph, inside: set<nat>, x: nat, y: nat)
    requires Reaches(g, x, y) && x in inside
    requires forall n | n in inside :: Succ(g, n) <= inside
    ensures y in inside
  {
    var p: seq<nat> :| Joins(g, p, x, y);
    StaysInside(g, inside, p);
  }

  /** A strongly connected component as it is reported: the node it is detected at, and its other nodes. */
  datatype Component = Component(root: nat, others: seq<nat>)

  function Elems(s: seq<nat>): set<nat> {
    set x | x in s
  }

  function Nodes(c: Component): set<nat> {
    {c.root} + Elems(c.others)
  }

  predicate NoDups(s: seq<nat>) {
    forall i, j | 0 <= i < j < |s| :: s[i] != s[j]
  }

  /** All nodes of the components listed. */
  function Done(log: seq<Component>): set<nat> {
    if log == [] then {} else Done(log[..|log| - 1]) + Nodes(log[|log| - 1])
  }

  /** c can be listed next, after the nodes in done: its nodes are new and occur once, they are
      exactly the nodes that reach c.root and are reached from it, and their edges lead to
      done or stay in c. */
  ghost predicate ComesNext(g: Graph, done: set<nat>, c: Component) {
    && c.root !in c.others && NoDups(c.others)
    && Nodes(c) !! done
    && (forall x: nat :: x in Nodes(c) <==> x in g && Mutual(g, c.root, x))
    && (forall x | x in Nodes(c) :: Succ(g, x) <= done + Nodes(c))
  }

  /** The listed components are strongly connected components, each once, each after all those it reaches. */
  ghost predicate SccOrder(g: Graph, log: seq<Component>) {
    log == [] || (SccOrder(g, log[..|log| - 1]) && ComesNext(g, Done(log[..|log| - 1]), log[|log| - 1]))
  }

  lemma DoneSnoc(log: seq<Component>, c: Component)
    ensures Done(log + [c]) == Done(log) + Nodes(c)
  {
    assert (log + [c])[..|log|] == log;
  }

  lemma SccOrderSnoc(g: Graph, log: seq<Component>, c: Component)
    ensures SccOrder(g, log + [c]) <==> SccOrder(g, log) && ComesNext(g, Done(log), c)
  {
    assert (log + [c])[..|log|] == log;
  }

  /** The nodes listed so far cannot reach a node that is not. */
  lemma {:induction false} DoneClosed(g: Graph, log: seq<Component>)
    requires SccOrder(g, log)
    ensures forall n | n in Done(log) :: Succ(g, n) <= Done(log)
    ensures forall n | n in Done(log) :: n in g
  {
    if log != [] {
      DoneClosed(g, log[..|log| - 1]);
    }
  }

  /** Two listed nodes are in one component exactly when each reaches the other. */
  lemma {:induction false} SameComponent(g: Graph, log: seq<Component>, x: nat, y: nat)
    requires SccOrder(g, log) && x in Done(log) && y in g
    ensures Mutual(g, x, y) <==> exists c | c in log :: x in Nodes(c) && y in Nodes(c)
  {
    var front, c := log[..|log| - 1], log[|log| - 1];
    if x in Nodes(c) {
      if Mutual(g, x, y) {
        ReachesTrans(g, c.root, x, y);
        ReachesTrans(g, y, x, c.root);
        assert c in log && y in Nodes(c);
      }
      forall d | d in log && x in Nodes(d) && y in Nodes(d) ensures Mutual(g, x, y) {
        if d != c {
          var i :| 0 <= i < |front| && front[i] == d;
          InDone(front, i, x);
        }
        ReachesTrans(g, x, c.root, y);
        ReachesTrans(g, y, c.root, x);
      }
    } else {
      SameComponent(g, front, x, y);
      if d :| d in log && x in Nodes(d) && y in Nodes(d) {
        assert d in front;
      }
    }
  }

  lemma {:induction false} InDone(log: seq<Component>, i: nat, x: nat)
    requires i < |log| && x in Nodes(log[i])
    ensures x in Done(log)
  {
    if i < |log| - 1 {
      InDone(log[..|log| - 1], i, x);
    }
  }

  /** The node x was collapsed into. */
  function Leader(log: seq<Component>, x: nat): nat {
    if log == [] then x
    else if x in Nodes(log[|log| - 1]) then log[|log| - 1].root
    else Leader(log[..|log| - 1], x)
  }

  lemma {:induction false} LeaderFacts(g: Graph, log: seq<Component>, x: nat)
    requires SccOrder(g, log)
    ensures x !in Done(log) ==> Leader(log, x) == x
    ensures x in Done(log) ==> Leader(log, x) in Done(log) && Leader(log, Leader(log, x)) == Leader(log, x)
  {
    if log != [] {
      LeaderFacts(g, log[..|log| - 1], x);
    }
  }

  /** Two nodes have one leader exactly when they are in one strongly connected component. */
  lemma {:induction false} LeadersAgree(g: Graph, log: seq<Component>, x: nat, y: nat)
    requires SccOrder(g, log) && x in Done(log) && y in g
    ensures Leader(log, x) == Leader(log, y) <==> Mutual(g, x, y)
  {
    var front, c := log[..|log| - 1], log[|log| - 1];
    LeaderFacts(g, front, x);
    LeaderFacts(g, front, y);
    DoneClosed(g, log);
    if x in Nodes(c) {
      if y in Nodes(c) {
        ReachesTrans(g, x, c.root, y);
        ReachesTrans(g, y, c.root, x);
      } else if Mutual(g, x, y) {
        ReachesTrans(g, c.root, x, y);
        ReachesTrans(g, y, x, c.root);
      }
    } else if y in Nodes(c) {
      if Mutual(g, x, y) {
        ReachesTrans(g, c.root, y, x);
        ReachesTrans(g, x, y, c.root);
      }
    } else {
      LeadersAgree(g, front, x, y);
    }
  }

  ghost function Listed(s: set<nat>): (l: seq<nat>)
    ensures Elems(l) == s && NoDups(l)
  {
    if s == {} then [] else
      var x :| x in s;
      assert Elems(Listed(s - {x}) + [x]) == s - {x} + {x} == s;
      Listed(s - {x}) + [x]
  }

  ghost function ReachedFrom(g: Graph, x: nat): set<nat> {
    set y | y in g && Reaches(g, x, y)
  }

  lemma {:induction false} SmallerSet(a: set<nat>, b: set<nat>)
    requires a <= b
    ensures |a| <= |b| && (a != b ==> |a| < |b|)
    decreases b
  {
    if x :| x in a {
      SmallerSet(a - {x}, b - {x});
      assert a == a - {x} + {x} && b == b - {x} + {x};
    } else if b != {} {
      assert |b| > 0;
    }
  }

  /** A node of s that reaches every node of s it is reached from. */
  lemma {:induction false} Topmost(g: Graph, s: set<nat>, x: nat) returns (t: nat)
    requires s <= g.Keys && x in s
    ensures t in s && forall z | z in s && Reaches(g, z, t) :: Reaches(g, t, z)
    decreases |g.Keys| - |ReachedFrom(g, x)|
  {
    t := x;
    if z :| z in s && Reaches(g, z, x) && !Reaches(g, x, z) {
      forall y | y in ReachedFrom(g, x) ensures y in ReachedFrom(g, z) {
        ReachesTrans(g, z, x, y);
      }
      ReachesSelf(g, z);
      assert z in ReachedFrom(g, z) && z !in ReachedFrom(g, x);
      SmallerSet(ReachedFrom(g, x), ReachedFrom(g, z));
      SmallerSet(ReachedFrom(g, z), g.Keys);
      t := Topmost(g, s, z);
    }
  }

  /** The component of x can follow any closed set it is not in that has all its edges lead to it. */
  lemma ComponentNext(g: Graph, done: set<nat>, x: nat, scc: set<nat>) returns (c: Component)
    requires Closed(g) && x in g && scc !! done && forall y: nat :: y in scc <==> y in g && Mutual(g, x, y)
    requires forall y, m | y in scc && m in g[y] :: m in done || m in scc
    ensures ComesNext(g, done, c) && c.root == x && Nodes(c) == scc
  {
    ReachesSelf(g, x);
    c := Component(x, Listed(scc - {x}));
    assert Nodes(c) == scc;
    hide Mutual, Listed;
  }

  /** Without the component of such a node a closed set is closed. */
  lemma RestIsClosed(g: Graph, s: set<nat>, top: nat, scc: set<nat>)
    requires Closed(g) && s <= g.Keys && top in s && forall n | n in s :: Succ(g, n) <= s
    requires forall z | z in s && Reaches(g, z, top) :: Reaches(g, top, z)
    requires forall y: nat :: y in scc <==> y in g && Mutual(g, top, y)
    ensures top in scc && scc <= s
    ensures forall n | n in s - scc :: Succ(g, n) <= s - scc
  {
    ReachesSelf(g, top);
    forall y | y in scc ensures y in s {
      ReachesInside(g, s, top, y);
    }
    forall n, m | n in s - scc && m in Succ(g, n) ensures m !in scc {
      if m in scc {
        ReachesEdge(g, n, m);
        ReachesTrans(g, n, m, top);
      }
    }
  }

  /** A closed set has a component that no other node of it has an edge to. */
  lemma TopComponent(g: Graph, s: set<nat>, x: nat) returns (rest: set<nat>, c: Component)
    requires Closed(g) && s <= g.Keys && x in s && forall n | n in s :: Succ(g, n) <= s
    ensures ComesNext(g, rest, c) && rest + Nodes(c) == s && |rest| < |s|
    ensures forall n | n in rest :: Succ(g, n) <= rest
  {
    var top := Topmost(g, s, x);
    var scc := set y | y in g && Mutual(g, top, y);
    rest := s - scc;
    RestIsClosed(g, s, top, scc);
    Partition(s, scc, rest, top);
    EdgesOut(g, s, scc, rest);
    hide *;
    c := ComponentNext(g, rest, top, scc);
  }

  lemma Partition(s: set<nat>, scc: set<nat>, rest: set<nat>, top: nat)
    requires scc <= s && rest == s - scc && top in scc
    ensures rest + scc == s && |rest| < |s| && scc !! rest
  {
    SmallerSet(rest, s);
  }

  lemma EdgesOut(g: Graph, s: set<nat>, scc: set<nat>, rest: set<nat>)
    requires scc <= s <= g.Keys && rest == s - scc && forall n | n in s :: Succ(g, n) <= s
    ensures forall y, m | y in scc && m in g[y] :: m in rest || m in scc
  {
    forall y, m | y in scc && m in g[y] ensures m in s {
      assert m in Succ(g, y);
    }
  }

  /** A closed set of nodes can be listed component by component. */
  lemma {:induction false} ListClosed(g: Graph, s: set<nat>) returns (log: seq<Component>)
    requires Closed(g) && s <= g.Keys && forall n | n in s :: Succ(g, n) <= s
    ensures SccOrder(g, log) && Done(log) == s
    decreases |s|
  {
    log := [];
    if x :| x in s {
      var rest, c := TopComponent(g, s, x);
      log := ListClosed(g, rest);
      SccOrderSnoc(g, log, c);
      DoneSnoc(log, c);
      log := log + [c];
    }
  }

  /** A search that starts at x reports first what x reaches outside its component, and then that,
      with x for its root. */
  lemma ReportOf(g: Graph, x: nat) returns (log: seq<Component>, c: Component)
    requires Closed(g) && x in g
    ensures SccOrder(g, log) && ComesNext(g, Done(log), c) && c.root == x
    ensures forall y: nat :: y in Nodes(c) <==> y in g && Mutual(g, x, y)
    ensures forall y | y in Done(log) :: Reaches(g, x, y)
  {
    var s := set y | y in g && Reaches(g, x, y) && !Reaches(g, y, x);
    forall n, m | n in s && m in Succ(g, n) ensures m in s {
      ReachesEdge(g, n, m);
      ReachesTrans(g, x, n, m);
      if Reaches(g, m, x) {
        ReachesTrans(g, n, m, x);
      }
    }
    log := ListClosed(g, s);
    var scc := set y | y in g && Mutual(g, x, y);
    forall y, m | y in scc && m in g[y] ensures m in s || m in scc {
      ReachesEdge(g, y, m);
      ReachesTrans(g, x, y, m);
    }
    c := ComponentNext(g, s, x, scc);
  }

  function Min(s: set<nat>): (m: nat)
    requires s != {}
    ensures m in s && forall x | x in s :: m <= x
  {
    var k :| k in s;
    HasMin(s, k);
    var m :| m in s && forall x | x in s :: m <= x;
    m
  }

  lemma HasMin(s: set<nat>, k: nat)
    requires k in s
    ensures exists m :: m in s && forall x | x in s :: m <= x
    decreases k
  {
    if x :| x in s && x < k {
      HasMin(s, x);
    }
  }

  function InsertEdge(g: Graph, src: nat, dst: nat): Graph {
    g[src := Succ(g, src) + {dst}]
  }

  /** The elements of a set, in any order. */
  method Listing(s: set<nat>) returns (l: seq<nat>)
    ensures forall x :: x in l <==> x in s
  {
    var todo := s;
    l := [];
    while todo != {}
      invariant forall x :: x in l || x in todo <==> x in s
      decreases todo
    {
      var x :| x in todo;
      todo, l := todo - {x}, l + [x];
    }
  }
}
