/** The two-phase backward slice of a system dependence graph. */
module BackSlices {
  import opened Graphs

  datatype EdgeAttr = Control | Flow | Call | ParamIn | ParamOut

  /** An edge may be recorded without its kinds. */
  datatype Edge = NoEdge | SDGEdge(attr: set<EdgeAttr>)

  predicate IfMask(e: Edge, mask: set<EdgeAttr>) {
    e.SDGEdge? && e.attr * mask != {}
  }

  /** All nodes, and for each the edges that end in it, by the node they start from. */
  datatype SDG = SDG(nodes: set<nat>, predMap: map<nat, map<nat, Edge>>)

  predicate SdgOk(g: SDG) {
    g.predMap.Keys <= g.nodes && forall n | n in g.predMap :: g.predMap[n].Keys <= g.nodes
  }

  function GetPredSet(g: SDG, n: nat): map<nat, Edge> {
    if n in g.predMap then g.predMap[n] else map[]
  }

  /** The edges of the masked kinds, turned around. */
  function Backward(g: SDG, mask: set<EdgeAttr>): Graph {
    map n | n in g.nodes :: set m | m in GetPredSet(g, n) && IfMask(GetPredSet(g, n)[m], mask)
  }

  function Ascending(): set<EdgeAttr> {
    {Control, Flow, Call, ParamIn}
  }

  function Descending(): set<EdgeAttr> {
    {Control, Flow, ParamOut}
  }

  /** n has a way to one of the seeds along edges of the masked kinds. */
  ghost predicate Affects(g: SDG, mask: set<EdgeAttr>, seeds: set<nat>, n: nat) {
    exists s :: s in seeds && Reaches(Backward(g, mask), s, n)
  }

  ghost function Slice(g: SDG, mask: set<EdgeAttr>, seeds: set<nat>): set<nat> {
    set n | n in g.nodes && Affects(g, mask, seeds, n)
  }

  /** A node is in the slice of a slice exactly if a way to a seed goes first along the second
      mask and then along the first. */
  lemma TwoPhases(g: SDG, first: set<EdgeAttr>, second: set<EdgeAttr>, seeds: set<nat>, n: nat)
    requires SdgOk(g) && seeds <= g.nodes && n in g.nodes
    ensures n in Slice(g, second, Slice(g, first, seeds)) <==>
            exists m, s :: s in seeds && Reaches(Backward(g, first), s, m) && Reaches(Backward(g, second), m, n)
  {
    if m, s :| s in seeds && Reaches(Backward(g, first), s, m) && Reaches(Backward(g, second), m, n) {
      var p: seq<nat> :| Joins(Backward(g, first), p, s, m);
      assert m in Slice(g, first, seeds);
    }
  }

  // ----- The slice, without masks -----

  /** The recorded edge from m to n is one of control, flow, call or parameter passing. */
  predicate UpEdge(g: SDG, n: nat, m: nat) {
    && n in g.predMap && m in g.predMap[n] && g.predMap[n][m].SDGEdge?
    && var attr := g.predMap[n][m].attr; Control in attr || Flow in attr || Call in attr || ParamIn in attr
  }

  /** It is one of control, flow or returning of a parameter. */
  predicate DownEdge(g: SDG, n: nat, m: nat) {
    && n in g.predMap && m in g.predMap[n] && g.predMap[n][m].SDGEdge?
    && var attr := g.predMap[n][m].attr; Control in attr || Flow in attr || ParamOut in attr
  }

  /** p goes back from one node to another along edges of the first kind. */
  ghost predicate GoesUp(g: SDG, p: seq<nat>, x: nat, y: nat) {
    p != [] && p[0] == x && p[|p| - 1] == y && forall i | 0 <= i < |p| - 1 :: UpEdge(g, p[i], p[i + 1])
  }

  ghost predicate GoesDown(g: SDG, p: seq<nat>, x: nat, y: nat) {
    p != [] && p[0] == x && p[|p| - 1] == y && forall i | 0 <= i < |p| - 1 :: DownEdge(g, p[i], p[i + 1])
  }

  lemma Meet(a: set<EdgeAttr>, b: set<EdgeAttr>)
    ensures a * b != {} <==> exists k :: k in a && k in b
  {
    if k :| k in a && k in b {
      assert k in a * b;
    }
    if a * b != {} {
      var k :| k in a * b;
    }
  }

  lemma MasksSay(g: SDG, n: nat, m: nat)
    requires SdgOk(g)
    ensures UpEdge(g, n, m) <==> m in Succ(Backward(g, Ascending()), n)
    ensures DownEdge(g, n, m) <==> m in Succ(Backward(g, Descending()), n)
    ensures n in g.nodes && (UpEdge(g, n, m) || DownEdge(g, n, m)) ==> m in g.nodes
  {
    var es := GetPredSet(g, n);
    if m in es && es[m].SDGEdge? {
      var a := es[m].attr;
      Meet(a, Ascending());
      Meet(a, Descending());
    }
  }

  lemma {:induction false} StaysInside(g: SDG, p: seq<nat>, i: nat)
    requires SdgOk(g) && i < |p| && p[0] in g.nodes
    requires forall j | 0 <= j < |p| - 1 :: UpEdge(g, p[j], p[j + 1]) || DownEdge(g, p[j], p[j + 1])
    ensures p[i] in g.nodes
  {
    if i > 0 {
      StaysInside(g, p, i - 1);
      MasksSay(g, p[i - 1], p[i - 1 + 1]);
    }
  }

  lemma UpIsReaches(g: SDG, x: nat, y: nat)
    requires SdgOk(g) && x in g.nodes
    ensures (exists p :: GoesUp(g, p, x, y)) <==> Reaches(Backward(g, Ascending()), x, y)
  {
    var back := Backward(g, Ascending());
    forall n, m ensures UpEdge(g, n, m) <==> m in Succ(back, n) {
      MasksSay(g, n, m);
    }
    assert back.Keys == g.nodes;
    hide Backward, UpEdge, DownEdge, Succ;
    if p :| GoesUp(g, p, x, y) {
      forall i | 0 <= i < |p| ensures p[i] in back {
        StaysInside(g, p, i);
      }
      assert Joins(back, p, x, y);
    }
    if p: seq<nat> :| Joins(back, p, x, y) {
      assert GoesUp(g, p, x, y);
    }
  }

  lemma DownIsReaches(g: SDG, x: nat, y: nat)
    requires SdgOk(g) && x in g.nodes
    ensures (exists p :: GoesDown(g, p, x, y)) <==> Reaches(Backward(g, Descending()), x, y)
  {
    var back := Backward(g, Descending());
    forall n, m ensures DownEdge(g, n, m) <==> m in Succ(back, n) {
      MasksSay(g, n, m);
    }
    assert back.Keys == g.nodes;
    hide Backward, UpEdge, DownEdge, Succ;
    if p :| GoesDown(g, p, x, y) {
      forall i | 0 <= i < |p| ensures p[i] in back {
        StaysInside(g, p, i);
      }
      assert Joins(back, p, x, y);
    }
    if p: seq<nat> :| Joins(back, p, x, y) {
      assert GoesDown(g, p, x, y);
    }
  }

  /** n has a way to a seed that goes up last: seen from the seed, up first and then down. */
  ghost predicate InSlice(g: SDG, seeds: set<nat>, n: nat) {
    exists s, m, p, q :: s in seeds && GoesUp(g, p, s, m) && GoesDown(g, q, m, n)
  }

  lemma SliceIs(g: SDG, seeds: set<nat>, n: nat)
    requires SdgOk(g) && seeds <= g.nodes && n in g.nodes
    ensures n in Slice(g, Descending(), Slice(g, Ascending(), seeds)) <==> InSlice(g, seeds, n)
  {
    var up, down := Backward(g, Ascending()), Backward(g, Descending());
    TwoPhases(g, Ascending(), Descending(), seeds, n);
    if InSlice(g, seeds, n) {
      var s, m, p, q :| s in seeds && GoesUp(g, p, s, m) && GoesDown(g, q, m, n);
      UpIsReaches(g, s, m);
      ReachedIsNode(g, Ascending(), s, m);
      DownIsReaches(g, m, n);
    }
    if m, s :| s in seeds && Reaches(up, s, m) && Reaches(down, m, n) {
      UpIsReaches(g, s, m);
      ReachedIsNode(g, Ascending(), s, m);
      DownIsReaches(g, m, n);
    }
  }

  lemma ReachedIsNode(g: SDG, mask: set<EdgeAttr>, x: nat, y: nat)
    requires Reaches(Backward(g, mask), x, y)
    ensures y in g.nodes
  {
    var p: seq<nat> :| Joins(Backward(g, mask), p, x, y);
    assert p[|p| - 1] in Backward(g, mask);
  }

  /** The unmarked nodes with an edge of a masked kind to n. */
  function NewPreds(g: SDG, mask: set<EdgeAttr>, marked: set<nat>, n: nat): set<nat> {
    set m | m in GetPredSet(g, n) && m !in marked && IfMask(GetPredSet(g, n)[m], mask)
  }

  /** Every node marked or waiting is in the slice, and what a marked node needs is marked or
      waiting unless the node itself still waits. */
  ghost predicate Marking(g: SDG, mask: set<EdgeAttr>, seeds: set<nat>, marked: set<nat>, work: set<nat>, popped: set<nat>) {
    && seeds <= marked + work && marked + work <= g.nodes
    && popped !! work && popped <= marked <= popped + work
    && AllAffect(g, mask, seeds, marked + work)
    && LeadInto(g, mask, popped, marked + work)
  }

  ghost predicate AllAffect(g: SDG, mask: set<EdgeAttr>, seeds: set<nat>, s: set<nat>) {
    forall n | n in s :: Affects(g, mask, seeds, n)
  }

  ghost predicate LeadInto(g: SDG, mask: set<EdgeAttr>, popped: set<nat>, s: set<nat>) {
    forall n | n in popped :: Succ(Backward(g, mask), n) <= s
  }

  lemma AtStart(g: SDG, mask: set<EdgeAttr>, seeds: set<nat>)
    requires seeds <= g.nodes
    ensures NoDups([]) && Marking(g, mask, seeds, seeds, seeds, Elems([]))
  {
    forall n | n in seeds ensures Affects(g, mask, seeds, n) {
      ReachesSelf(Backward(g, mask), n);
    }
  }

  /** A waiting node has not been popped before. */
  lemma Waiting(g: SDG, mask: set<EdgeAttr>, seeds: set<nat>, marked: set<nat>, work: set<nat>, popped: seq<nat>, node: nat)
    requires Marking(g, mask, seeds, marked, work, Elems(popped)) && NoDups(popped) && node in work
    ensures NoDups(popped + [node]) && Elems(popped + [node]) == Elems(popped) + {node}
  {
    assert node !in Elems(popped);
  }

  lemma PredsAreNext(g: SDG, mask: set<EdgeAttr>, marked: set<nat>, n: nat)
    requires SdgOk(g) && n in g.nodes
    ensures
      var preds, next := NewPreds(g, mask, marked, n), Succ(Backward(g, mask), n);
      preds !! marked && preds <= next <= preds + marked && next <= g.nodes
  {
  }

  lemma NewAffects(g: SDG, mask: set<EdgeAttr>, seeds: set<nat>, marked: set<nat>, n: nat)
    requires SdgOk(g) && n in g.nodes && Affects(g, mask, seeds, n)
    ensures AllAffect(g, mask, seeds, NewPreds(g, mask, marked, n))
  {
    var back := Backward(g, mask);
    PredsAreNext(g, mask, marked, n);
    forall m | m in NewPreds(g, mask, marked, n) ensures Affects(g, mask, seeds, m) {
      var s :| s in seeds && Reaches(back, s, n);
      ReachesEdge(back, n, m);
      ReachesTrans(back, s, n, m);
    }
  }

  /** One node moves from waiting to popped, and new ones wait. */
  lemma WorkMoves(nodes: set<nat>, seeds: set<nat>, marked: set<nat>, work: set<nat>, popped: set<nat>, node: nat, preds: set<nat>,
                  marked': set<nat>, work': set<nat>, popped': set<nat>)
    requires seeds <= marked + work <= nodes && popped !! work && popped <= marked <= popped + work
    requires node in work && preds <= nodes && preds !! marked'
    requires marked' == marked + {node} && work' == work - {node} + preds && popped' == popped + {node}
    ensures
      seeds <= marked' + work' <= nodes && popped' !! work' && popped' <= marked' <= popped' + work' && nodes - popped' < nodes - popped
      && marked' + work' == marked + work + preds
  {
    assert node in nodes - popped;
  }

  lemma AffectLead(g: SDG, mask: set<EdgeAttr>, seeds: set<nat>, all: set<nat>, preds: set<nat>, popped: set<nat>, node: nat)
    requires AllAffect(g, mask, seeds, all) && AllAffect(g, mask, seeds, preds)
    requires LeadInto(g, mask, popped, all) && Succ(Backward(g, mask), node) <= all + preds
    ensures AllAffect(g, mask, seeds, all + preds) && LeadInto(g, mask, popped + {node}, all + preds)
  {
    hide Affects, Succ;
  }

  lemma OneMore(g: SDG, mask: set<EdgeAttr>, seeds: set<nat>, marked: set<nat>, work: set<nat>, popped: set<nat>, node: nat,
                marked': set<nat>, work': set<nat>, popped': set<nat>)
    requires SdgOk(g) && Marking(g, mask, seeds, marked, work, popped) && node in work
    requires marked' == marked + {node} && popped' == popped + {node}
    requires work' == work - {node} + NewPreds(g, mask, marked', node)
    ensures Marking(g, mask, seeds, marked', work', popped') && g.nodes - popped' < g.nodes - popped
  {
    assert Affects(g, mask, seeds, node) && node in g.nodes;
    hide Affects, Backward, NewPreds, Succ, GetPredSet, SdgOk, AllAffect, LeadInto;
    var all, preds := marked + work, NewPreds(g, mask, marked', node);
    PredsAreNext(g, mask, marked', node);
    NewAffects(g, mask, seeds, marked', node);
    WorkMoves(g.nodes, seeds, marked, work, popped, node, preds, marked', work', popped');
    AffectLead(g, mask, seeds, all, preds, popped, node);
  }

  lemma AtEnd(g: SDG, mask: set<EdgeAttr>, seeds: set<nat>, marked: set<nat>, popped: set<nat>)
    requires Marking(g, mask, seeds, marked, {}, popped)
    ensures marked == Slice(g, mask, seeds) == popped
  {
    forall n | n in Slice(g, mask, seeds) ensures n in marked {
      var s :| s in seeds && Reaches(Backward(g, mask), s, n);
      ReachesInside(Backward(g, mask), marked, s, n);
    }
  }

  class BackSlice {
    var markedNodes: set<nat>

    constructor (seeds: set<nat>)
      ensures markedNodes == seeds
    {
      markedNodes := seeds;
    }

    /** Mark everything the marked nodes can be reached from; no node is looked at twice. */
    method MarkReaching(g: SDG, mask: set<EdgeAttr>) returns (ghost popped: seq<nat>)
      requires SdgOk(g) && markedNodes <= g.nodes
      modifies this
      ensures markedNodes == Slice(g, mask, old(markedNodes))
      ensures NoDups(popped) && Elems(popped) == markedNodes
    {
      ghost var seeds := markedNodes;
      var workSet := markedNodes;
      popped := [];
      AtStart(g, mask, seeds);
      hide *;
      while workSet != {}
        invariant NoDups(popped) && Marking(g, mask, seeds, markedNodes, workSet, Elems(popped))
        decreases g.nodes - Elems(popped)
      {
        var node :| node in workSet;
        ghost var marked, work := markedNodes, workSet;
        Waiting(g, mask, seeds, marked, work, popped, node);
        workSet := workSet - {node};
        markedNodes := markedNodes + {node};
        workSet := workSet + NewPreds(g, mask, markedNodes, node);
        OneMore(g, mask, seeds, marked, work, Elems(popped), node, markedNodes, workSet, Elems(popped) + {node});
        popped := popped + [node];
      }
      AtEnd(g, mask, seeds, markedNodes, Elems(popped));
    }

    /** The slice: exactly the nodes with a way to a seed that first enters no procedure, it may
        only return from some, and then returns from none, it may only enter some. */
    method MarkVertices(g: SDG)
      requires SdgOk(g) && markedNodes <= g.nodes
      modifies this
      ensures markedNodes <= g.nodes && forall n | n in g.nodes :: n in markedNodes <==> InSlice(g, old(markedNodes), n)
    {
      ghost var seeds := markedNodes;
      ghost var up := MarkReaching(g, Ascending());
      ghost var down := MarkReaching(g, Descending());
      hide GoesUp, GoesDown, Affects, SdgOk, InSlice;
      forall n | n in g.nodes ensures n in markedNodes <==> InSlice(g, seeds, n) {
        SliceIs(g, seeds, n);
      }
    }
  }
}
