/** The constraint optimizers: offline variable substitution by HVN or HU. */
module ConstraintOptimize {
  import opened Constraints
  import opened NodeFactory
  import opened Graphs
  import opened CycleDetectors
  import opened PredecessorGraphs
  import opened Labels
  import opened Rewriting
  import opened PointerEquivalence

  function EdgesFrom(c: Constraint, size: nat, x: nat): set<nat> {
    set y: nat | y < 3 * size && EdgeOf(c, size, x, y)
  }

  /** pred and indirect say what the constraints say. */
  ghost predicate Built(cs: seq<Constraint>, size: nat, pred: Graph, indirect: set<nat>) {
    && (forall x: nat | x < 3 * size :: Succ(pred, x) == Preds(cs, size, x))
    && (forall x | x in pred :: x < 3 * size)
    && indirect == AddressTaken(cs)
  }

  lemma PredsSnoc(cs: seq<Constraint>, size: nat, c: Constraint, x: nat)
    ensures Preds(cs + [c], size, x) == Preds(cs, size, x) + EdgesFrom(c, size, x)
  {
    forall y: nat | y < 3 * size ensures HasEdge(cs + [c], size, x, y) <==> HasEdge(cs, size, x, y) || EdgeOf(c, size, x, y) {
      assert c in cs + [c] && forall b | b in cs :: b in cs + [c];
      hide EdgeOf;
    }
    hide HasEdge, EdgeOf;
  }

  lemma BuiltSnoc(cs: seq<Constraint>, size: nat, c: Constraint, pred: Graph, indirect: set<nat>, pred': Graph, indirect': set<nat>)
    requires Built(cs, size, pred, indirect)
    requires forall x: nat | x < 3 * size :: Succ(pred', x) == Succ(pred, x) + EdgesFrom(c, size, x)
    requires forall x | x in pred' :: x < 3 * size
    requires indirect' == if c.ty.AddrOf? then indirect + {c.src} else indirect
    ensures Built(cs + [c], size, pred', indirect')
  {
    forall x: nat | x < 3 * size ensures Succ(pred', x) == Preds(cs + [c], size, x) {
      PredsSnoc(cs, size, c, x);
    }
    assert indirect' == AddressTaken(cs + [c]) by {
      assert forall b :: b in cs + [c] <==> b in cs || b == c;
    }
  }

  /** The graph with the one or two edges of a constraint inserted. */
  function Inserted(g: Graph, c: Constraint, size: nat): Graph {
    match c.ty
    case AddrOf => InsertEdge(InsertEdge(g, c.dest, c.src + 2 * size), c.dest + size, c.src)
    case Load => InsertEdge(g, c.dest, c.src + size)
    case Store => InsertEdge(g, c.dest + size, c.src)
    case Copy => InsertEdge(InsertEdge(g, c.dest, c.src), c.dest + size, c.src + size)
  }

  lemma InsertedEdges(g: Graph, c: Constraint, size: nat, x: nat)
    requires c.dest < size && c.src < size
    ensures Succ(Inserted(g, c, size), x) == Succ(g, x) + EdgesFrom(c, size, x)
    ensures x in Inserted(g, c, size) ==> x in g || x < 3 * size
  {
  }

  /** Chains in the merge map have one step. */
  predicate Flat(m: map<nat, nat>) {
    forall x | x in m :: m[x] !in m
  }

  lemma MergedIsFlat(g: Graph, s: Opt, log: seq<Component>)
    requires SccOrder(g, log) && Merged(s, log)
    ensures Flat(s.mergeTarget)
  {
    forall x | x in s.mergeTarget ensures s.mergeTarget[x] !in s.mergeTarget {
      LeaderFacts(g, log, x);
    }
  }

  method GetMergeTargetRep(s: Opt, idx: nat) returns (ret: nat)
    requires Flat(s.mergeTarget)
    ensures ret == RepOf(s, idx)
  {
    ret := idx;
    if idx in s.mergeTarget {
      assert |s.mergeTarget| > 0 by {
        assert idx in s.mergeTarget.Keys;
      }
      assert Chase(s.mergeTarget, s.mergeTarget[idx], |s.mergeTarget| - 1) == s.mergeTarget[idx];
    }
    while ret in s.mergeTarget
      invariant ret == idx || (idx in s.mergeTarget && ret == s.mergeTarget[idx])
      decreases ret in s.mergeTarget
    {
      ret := s.mergeTarget[ret];
    }
  }

  // ----- The label propagation, step by step -----

  /** The non-zero labels of those of ps that are not collapsed into node. */
  function LabelsAmong(s: Opt, node: nat, ps: set<nat>): set<nat> {
    set p | p in ps && RepOf(s, p) != node && LabelOf(s, RepOf(s, p)) != 0 :: LabelOf(s, RepOf(s, p))
  }

  /** lastSeen and allSame describe labels. */
  predicate Seen(labels: set<nat>, lastSeen: nat, allSame: bool) {
    && (lastSeen == 0 <==> labels == {})
    && (lastSeen != 0 ==> lastSeen in labels)
    && (allSame <==> labels <= {lastSeen})
  }

  lemma SeenOne(labels: set<nat>, lastSeen: nat, allSame: bool)
    requires Seen(labels, lastSeen, allSame) && labels != {}
    ensures allSame <==> |labels| == 1
    ensures allSame ==> Min(labels) == lastSeen
  {
    if allSame {
      assert labels == {lastSeen};
    } else {
      var x :| x in labels && x != lastSeen;
      assert {x, lastSeen} <= labels;
      assert labels == {x, lastSeen} + (labels - {x, lastSeen});
      assert |labels| >= 2;
    }
  }

  lemma SeenMore(labels: set<nat>, lastSeen: nat, allSame: bool, l: nat)
    requires Seen(labels, lastSeen, allSame) && l != 0 && 0 !in labels
    ensures Seen(labels + {l}, if lastSeen == 0 then l else lastSeen, allSame && (lastSeen == 0 || l == lastSeen))
  {
  }

  lemma LabelsAmongMore(s: Opt, node: nat, ps: set<nat>, p: nat)
    ensures LabelsAmong(s, node, ps + {p}) == LabelsAmong(s, node, ps)
              + (if RepOf(s, p) == node || LabelOf(s, RepOf(s, p)) == 0 then {} else {LabelOf(s, RepOf(s, p))})
  {
    hide RepOf, LabelOf;
  }

  /** HVN's propagateLabel scans the predecessors once. */
  method PropagateHvn(s: Opt, size: nat, node: nat) returns (t: Opt)
    requires Flat(s.mergeTarget)
    ensures t == HvnLabel(size, s, node)
  {
    hide RepOf, LabelOf, Seen, Combine, Flat, LabelsAmong;
    if node >= size || node in s.indirect {
      return s.(peLabel := s.peLabel[node := s.next], next := s.next + 1);
    }
    var allSame, lastSeenLabel, predLabels := true, 0, {};
    var todo := Succ(s.pred, node);
    ghost var seen := {};
    assert Seen({}, 0, true) && LabelsAmong(s, node, {}) == {} by {
      NothingSeen(s, node);
    }
    while todo != {}
      invariant todo + seen == Succ(s.pred, node)
      invariant predLabels == LabelsAmong(s, node, seen) && 0 !in predLabels
      invariant Seen(predLabels, lastSeenLabel, allSame)
      decreases todo
    {
      var pred :| pred in todo;
      LabelsAmongMore(s, node, seen, pred);
      todo, seen := todo - {pred}, seen + {pred};
      var predRep := GetMergeTargetRep(s, pred);
      var predRepLabel := LabelOf(s, predRep);
      if predRep == node || predRepLabel == 0 {
        continue;
      }
      SeenMore(predLabels, lastSeenLabel, allSame, predRepLabel);
      if lastSeenLabel == 0 {
        lastSeenLabel := predRepLabel;
      } else if allSame && predRepLabel != lastSeenLabel {
        allSame := false;
      }
      predLabels := predLabels + {predRepLabel};
    }
    assert seen == Succ(s.pred, node);
    AmongAll(s, node);
    t := AssignLabel(s, node, predLabels, lastSeenLabel, allSame);
  }

  lemma NothingSeen(s: Opt, node: nat)
    ensures Seen({}, 0, true) && LabelsAmong(s, node, {}) == {}
  {
  }

  lemma AmongAll(s: Opt, node: nat)
    ensures LabelsAmong(s, node, Succ(s.pred, node)) == PredLabels(s, node)
  {
  }

  /** Its last part: a non-pointer, a copy of an existing node, or a new node. */
  method AssignLabel(s: Opt, node: nat, predLabels: set<nat>, lastSeenLabel: nat, allSame: bool) returns (t: Opt)
    requires Seen(predLabels, lastSeenLabel, allSame)
    ensures t == Combine(s, node, predLabels)
  {
    if predLabels == {} {
      return s.(peLabel := s.peLabel[node := 0]);
    }
    SeenOne(predLabels, lastSeenLabel, allSame);
    if allSame {
      t := s.(peLabel := s.peLabel[node := lastSeenLabel]);
    } else if predLabels in s.setLabel {
      t := s.(peLabel := s.peLabel[node := s.setLabel[predLabels]]);
    } else {
      t := s.(setLabel := s.setLabel[predLabels := s.next], peLabel := s.peLabel[node := s.next], next := s.next + 1);
    }
  }

  function PtsAmong(s: Opt, ps: set<nat>): set<nat> {
    set p, x | p in ps && RepOf(s, p) in s.ptsSet && x in s.ptsSet[RepOf(s, p)] :: x
  }

  lemma PtsAmongNext(s: Opt, ps: set<nat>, p: nat)
    ensures PtsAmong(s, ps + {p}) == PtsAmong(s, ps) + if RepOf(s, p) in s.ptsSet then s.ptsSet[RepOf(s, p)] else {}
  {
    hide RepOf;
  }

  lemma PredPtsIs(s: Opt, node: nat)
    ensures PtsAmong(s, Succ(s.pred, node)) == PredPts(s, node)
  {
  }

  lemma HuLabelIs(s: Opt, size: nat, node: nat, pts: set<nat>)
    requires node < size && node !in s.indirect && pts == PredPts(s, node)
    ensures var t := s.(ptsSet := s.ptsSet[node := pts]);
      HuLabel(size, s, node) ==
        if pts == {} then t.(peLabel := t.peLabel[node := 0])
        else if pts in t.setLabel then t.(peLabel := t.peLabel[node := t.setLabel[pts]])
        else t.(setLabel := t.setLabel[pts := t.next], peLabel := t.peLabel[node := t.next], next := t.next + 1)
  {
    hide PredPts;
  }

  /** The offline points-to sets of the predecessors, united. */
  method UnitePredPts(s: Opt, node: nat) returns (myPtsSet: set<nat>)
    requires Flat(s.mergeTarget)
    ensures myPtsSet == PredPts(s, node)
  {
    hide Flat, RepOf, Succ;
    myPtsSet := {};
    var todo := Succ(s.pred, node);
    ghost var seen := {};
    assert myPtsSet == PtsAmong(s, seen);
    PredPtsIs(s, node);
    hide PredPts, PtsAmong;
    while todo != {}
      invariant todo + seen == Succ(s.pred, node)
      invariant myPtsSet == PtsAmong(s, seen)
      decreases todo
    {
      var pred :| pred in todo;
      PtsAmongNext(s, seen, pred);
      todo, seen := todo - {pred}, seen + {pred};
      var predRep := GetMergeTargetRep(s, pred);
      if predRep in s.ptsSet {
        myPtsSet := myPtsSet + s.ptsSet[predRep];
      }
    }
    assert seen == Succ(s.pred, node);
  }

  /** HU's propagateLabel labels a node by its offline points-to set. */
  method PropagateHu(s: Opt, size: nat, node: nat) returns (t: Opt)
    requires Flat(s.mergeTarget) && node !in s.ptsSet
    ensures t == HuLabel(size, s, node)
  {
    hide Flat, PredPts;
    if node >= size || node in s.indirect {
      var token := if node >= size * 2 then node - size * 2 else if node >= size then node else node + 2 * size;
      return s.(peLabel := s.peLabel[node := s.next], next := s.next + 1, ptsSet := s.ptsSet[node := {token}]);
    }
    var myPtsSet := UnitePredPts(s, node);
    HuLabelIs(s, size, node, myPtsSet);
    hide HuLabel;
    t := s.(ptsSet := s.ptsSet[node := myPtsSet]);
    if myPtsSet == {} {
      t := t.(peLabel := t.peLabel[node := 0]);
    } else if myPtsSet in t.setLabel {
      t := t.(peLabel := t.peLabel[node := t.setLabel[myPtsSet]]);
    } else {
      t := t.(setLabel := t.setLabel[myPtsSet := t.next], peLabel := t.peLabel[node := t.next], next := t.next + 1);
    }
  }

  // ----- The optimizer -----

  /** labels are the labels of the search that reported log. */
  ghost predicate LabelsOf(cs: seq<Constraint>, size: nat, kind: Kind, log: seq<Component>, labels: map<nat, nat>) {
    exists s :: OptInv(cs, size, kind, s, log) && LabelsOfState(s, log, labels)
  }

  ghost predicate LabelsOfState(s: Opt, log: seq<Component>, labels: map<nat, nat>) {
    labels.Keys == Done(log) && forall x | x in labels :: labels[x] == Lab(s, log, x)
  }

  /** The VAR nodes in seen were scanned: rev names the first of each label, the others were merged into it. */
  ghost predicate MergedSoFar(size: nat, labels: map<nat, nat>, root: seq<nat>, rev: seq<nat>, seen: set<nat>) {
    && |root| == size
    && (forall l | 0 <= l < |rev| && rev[l] != INVALID_INDEX :: rev[l] in seen && rev[l] < size && rev[l] in labels && labels[rev[l]] == l)
    && (forall a | a in seen && a < size && a in labels :: labels[a] < |rev| && rev[labels[a]] != INVALID_INDEX)
    && (forall a | 0 <= a < size :: root[a] == if a in seen && LabelIn(labels, a) != 0 && LabelIn(labels, a) < |rev| then rev[LabelIn(labels, a)] else a)
  }

  lemma AllMerged(size: nat, labels: map<nat, nat>, root: seq<nat>, rev: seq<nat>)
    requires MergedSoFar(size, labels, root, rev, labels.Keys)
    ensures Merges(size, labels, root) && Reverses(size, labels, root, rev)
  {
  }

  /** The label of an unmerged object's ADR node in seen stands for such a node. */
  ghost predicate AdrsFirst(size: nat, labels: map<nat, nat>, rep: seq<nat>, rev: seq<nat>, seen: set<nat>) {
    forall k | 0 <= k < size && k < |rep| && rep[k] == k && k + 2 * size in seen && k + 2 * size in labels ::
      labels[k + 2 * size] < |rev| && rev[labels[k + 2 * size]] >= 2 * size
  }

  lemma NoAdrs(size: nat, labels: map<nat, nat>, rep: seq<nat>, rev: seq<nat>)
    ensures AdrsFirst(size, labels, rep, rev, {})
  {
  }

  lemma AdrStep(size: nat, labels: map<nat, nat>, rep: seq<nat>, rev: seq<nat>, seen: set<nat>, node: nat)
    requires Reverses(size, labels, rep, rev) && AdrsFirst(size, labels, rep, rev, seen)
    requires node < 3 * size && node in labels && labels[node] < |rev|
    ensures node < 2 * size || rep[node - 2 * size] != node - 2 * size ==> AdrsFirst(size, labels, rep, rev, seen + {node})
    ensures node >= 2 * size && rep[node - 2 * size] == node - 2 * size ==>
              Reverses(size, labels, rep, rev[labels[node] := node]) && AdrsFirst(size, labels, rep, rev[labels[node] := node], seen + {node})
  {
  }

  // ----- The rewritten list, without the reversed map -----

  /** a has the label of the address of k, which was not merged into another node. */
  ghost predicate IsAddress(size: nat, labels: map<nat, nat>, rep: seq<nat>, a: nat, k: nat) {
    k < size && k < |rep| && rep[k] == k && k + 2 * size in labels && a in labels && labels[a] == labels[k + 2 * size] != 0
  }

  ghost predicate IsAddressOfNone(size: nat, labels: map<nat, nat>, rep: seq<nat>, a: nat) {
    forall k: nat :: !IsAddress(size, labels, rep, a, k)
  }

  /** c is rewritten to b: non-pointers are dropped, what is known to be one address is resolved, and what then says
      nothing is dropped too. */
  ghost predicate Simplified(size: nat, labels: map<nat, nat>, rep: seq<nat>, c: Constraint, b: Constraint)
    requires c.dest < |rep| && c.src < |rep|
  {
    && c.dest in labels && labels[c.dest] != 0
    && var d, s := rep[c.dest], rep[c.src];
       match c.ty
       case AddrOf => b == Constraint(AddrOf, d, c.src)
       case Load =>
         && c.src in labels && labels[c.src] != 0
         && (IsAddressOfNone(size, labels, rep, c.src) ==> b == Constraint(Load, d, s))
         && (forall k: nat | IsAddress(size, labels, rep, c.src, k) :: k != d && b == Constraint(Copy, d, k))
       case Store =>
         && (IsAddressOfNone(size, labels, rep, c.dest) ==> b == Constraint(Store, d, s))
         && (forall k: nat | IsAddress(size, labels, rep, c.dest, k) :: k != s && b == Constraint(Copy, k, s))
       case Copy =>
         && d != s && c.src in labels && labels[c.src] != 0
         && (IsAddressOfNone(size, labels, rep, c.src) ==> b == Constraint(Copy, d, s))
         && (forall k: nat | IsAddress(size, labels, rep, c.src, k) :: b == Constraint(AddrOf, d, k))
  }

  lemma AddressIsOne(cs: seq<Constraint>, size: nat, log: seq<Component>, labels: map<nat, nat>, rep: seq<nat>, a: nat, j: nat, k: nat)
    requires Labelling(cs, size, log, labels) && IsAddress(size, labels, rep, a, j) && IsAddress(size, labels, rep, a, k)
    ensures j == k
  {
    assert InRange(cs, size) && SccOrder(PredGraph(cs, size), log) && j + 2 * size in Done(log) && k + 2 * size in Done(log);
    assert Sources(cs, size, log, j + 2 * size) == Sources(cs, size, log, k + 2 * size);
    hide *;
    AdrSources(cs, size, log, j);
    AdrSources(cs, size, log, k);
    assert j + 2 * size in {k + 2 * size};
  }

  /** What the lookup yields, without the reversed map. */
  lemma LookupIs(cs: seq<Constraint>, size: nat, log: seq<Component>, labels: map<nat, nat>, rep: seq<nat>, rev: seq<nat>, a: nat)
    requires Setting(cs, size, log, labels, rep, rev) && AdrsFirst(size, labels, rep, rev, labels.Keys) && a < size && LabelIn(labels, a) != 0
    ensures |rep| == size && rep[a] < size && LabelIn(labels, rep[a]) == LabelIn(labels, a)
    ensures var t := Lookup(rev, LabelIn(labels, rep[a]));
      && (t <= size ==> t == rep[a] && IsAddressOfNone(size, labels, rep, a))
      && (t > size ==> IsAddress(size, labels, rep, a, VarOf(t, size)) && forall k: nat | IsAddress(size, labels, rep, a, k) :: k == VarOf(t, size))
  {
    SameLabel(cs, size, log, labels, rep, rev, a);
    assert size > 0 && Labelling(cs, size, log, labels) && Merges(size, labels, rep) && Reverses(size, labels, rep, rev);
    hide *;
    LookupEnds(size, labels, rep, rev, a);
    var t := Lookup(rev, LabelIn(labels, rep[a]));
    if t > size {
      forall k: nat | IsAddress(size, labels, rep, a, k) ensures k == VarOf(t, size) {
        AddressIsOne(cs, size, log, labels, rep, a, k, VarOf(t, size));
      }
    }
  }

  lemma LookupEnds(size: nat, labels: map<nat, nat>, rep: seq<nat>, rev: seq<nat>, a: nat)
    requires size > 0 && Merges(size, labels, rep) && Reverses(size, labels, rep, rev) && AdrsFirst(size, labels, rep, rev, labels.Keys)
    requires a < size && LabelIn(labels, a) != 0 && LabelIn(labels, rep[a]) == LabelIn(labels, a)
    ensures var t := Lookup(rev, LabelIn(labels, rep[a]));
      && (t <= size ==> t == rep[a] && IsAddressOfNone(size, labels, rep, a))
      && (t > size ==> IsAddress(size, labels, rep, a, VarOf(t, size)))
  {
    var t := Lookup(rev, LabelIn(labels, rep[a]));
    assert t == rep[a] || IsAdr(size, labels, rep, t, LabelIn(labels, a));
    if t <= size {
      forall k: nat ensures !IsAddress(size, labels, rep, a, k) {
      }
    } else {
      VarOfAdr(t - 2 * size, size);
      assert t - 2 * size + 2 * size == t;
    }
  }

  /** What a constraint is replaced by, without the reversed map. */
  lemma RewriteIs(cs: seq<Constraint>, size: nat, log: seq<Component>, labels: map<nat, nat>, rep: seq<nat>, rev: seq<nat>, c: Constraint, b: Constraint)
    requires Setting(cs, size, log, labels, rep, rev) && AdrsFirst(size, labels, rep, rev, labels.Keys) && c in cs
    ensures size > 0 && c.dest < |rep| && c.src < |rep| && (b in Rewrite(size, labels, rep, rev, c) <==> Simplified(size, labels, rep, c, b))
  {
    assert size > 0 && c.dest < size && c.src < size && |rep| == size;
    var a := Pointer(c);
    SameLabel(cs, size, log, labels, rep, rev, a);
    if LabelIn(labels, a) != 0 {
      LookupIs(cs, size, log, labels, rep, rev, a);
    }
    hide Setting, AdrsFirst, Lookup, VarOf, IsAddress, IsAddressOfNone;
    RewriteByLookup(size, labels, rep, rev, c, b);
  }

  lemma RewriteByLookup(size: nat, labels: map<nat, nat>, rep: seq<nat>, rev: seq<nat>, c: Constraint, b: Constraint)
    requires size > 0 && c.dest < size && c.src < size && |rep| == size
    requires var a := Pointer(c); rep[a] < size && (LabelIn(labels, a) == 0 <==> LabelIn(labels, rep[a]) == 0)
    requires var a := Pointer(c); var t := Lookup(rev, LabelIn(labels, rep[a]));
      LabelIn(labels, a) != 0 ==>
        && (t <= size ==> t == rep[a] && IsAddressOfNone(size, labels, rep, a))
        && (t > size ==> IsAddress(size, labels, rep, a, VarOf(t, size)) && forall k: nat | IsAddress(size, labels, rep, a, k) :: k == VarOf(t, size))
    ensures b in Rewrite(size, labels, rep, rev, c) <==> Simplified(size, labels, rep, c, b)
  {
    hide Lookup, VarOf, IsAddress;
    var t := Lookup(rev, LabelIn(labels, rep[Pointer(c)]));
    if LabelIn(labels, Pointer(c)) != 0 && t > size {
      assert !IsAddressOfNone(size, labels, rep, Pointer(c));
    }
    hide IsAddressOfNone;
    match c.ty
    case AddrOf =>
    case Load =>
    case Store =>
    case Copy =>
  }

  lemma AllSimplified(cs: seq<Constraint>, size: nat, log: seq<Component>, labels: map<nat, nat>, rep: seq<nat>, rev: seq<nat>, cs2: seq<Constraint>)
    requires Setting(cs, size, log, labels, rep, rev) && AdrsFirst(size, labels, rep, rev, labels.Keys)
    requires Rewritten(size, labels, rep, rev, cs, cs2)
    ensures (forall c | c in cs :: c.dest < |rep| && c.src < |rep|)
    ensures forall b :: b in cs2 <==> exists c :: c in cs && Simplified(size, labels, rep, c, b)
  {
    assert size > 0;
    hide Setting, AdrsFirst, Rewrite, Simplified;
    forall c | c in cs ensures c.dest < |rep| && c.src < |rep| {
      RewriteIs(cs, size, log, labels, rep, rev, c, c);
    }
    forall b, c | c in cs ensures b in Rewrite(size, labels, rep, rev, c) <==> Simplified(size, labels, rep, c, b) {
      RewriteIs(cs, size, log, labels, rep, rev, c, b);
    }
  }

  lemma SameLabel(cs: seq<Constraint>, size: nat, log: seq<Component>, labels: map<nat, nat>, rep: seq<nat>, rev: seq<nat>, a: nat)
    requires Setting(cs, size, log, labels, rep, rev) && a < size
    ensures |rep| == size && rep[a] < size && LabelIn(labels, rep[a]) == LabelIn(labels, a)
  {
    hide Labelling, Reverses, LabelIn;
  }

  lemma LabellingIs(cs: seq<Constraint>, size: nat, kind: Kind, s: Opt, log: seq<Component>, labels: map<nat, nat>)
    requires InRange(cs, size) && SccOrder(PredGraph(cs, size), log) && OptInv(cs, size, kind, s, log) && LabelsOfState(s, log, labels)
    requires forall x: nat | x < 3 * size && Preds(cs, size, x) != {} :: x in Done(log)
    ensures Labelling(cs, size, log, labels) && LabelsOf(cs, size, kind, log, labels)
  {
    hide OptInv, SccOrder, Sources, Lab, Preds, Shape, Done;
    InvShape(cs, size, kind, s, log);
  }

  /** The labels are those of some search. */
  ghost predicate HasSetting(cs: seq<Constraint>, size: nat, labels: map<nat, nat>, rep: seq<nat>, rev: seq<nat>) {
    exists log :: Setting(cs, size, log, labels, rep, rev)
  }

  lemma IndirectAre(cs: seq<Constraint>)
    ensures forall a: nat :: a in AddressTaken(cs) <==> exists d: nat :: Constraint(AddrOf, d, a) in cs
  {
    forall a: nat ensures a in AddressTaken(cs) <==> exists d: nat :: Constraint(AddrOf, d, a) in cs {
      if c :| c in cs && c.ty.AddrOf? && c.src == a {
        assert c == Constraint(AddrOf, c.dest, a);
      }
    }
  }

  class ConstraintOptimizer {
    const nodeFactory: AndersNodeFactory
    const kind: Kind
    const size: nat
    var constraints: seq<Constraint>
    var opt: Opt

    ghost predicate Valid()
      reads this, nodeFactory
    {
      && nodeFactory.Valid() && |nodeFactory.root| == size && 0 < size && 3 * size < INVALID_INDEX
      && InRange(constraints, size)
    }

    /** There is the assumption that no two nodes were merged before. */
    constructor (kind: Kind, constraints: seq<Constraint>, nodeFactory: AndersNodeFactory)
      requires nodeFactory.Valid() && nodeFactory.root == Identity(|nodeFactory.root|)
      requires 0 < |nodeFactory.root| && 3 * |nodeFactory.root| < INVALID_INDEX && InRange(constraints, |nodeFactory.root|)
      modifies nodeFactory`mergeTarget
      ensures this.nodeFactory == nodeFactory && this.kind == kind && this.constraints == constraints
      ensures Valid() && Starts(constraints, size, opt) && forall x | x in opt.pred :: x < 3 * size
    {
      this.nodeFactory, this.kind, this.constraints := nodeFactory, kind, constraints;
      this.size := nodeFactory.GetNumNodes();
      this.opt := Opt(map[], {}, map[], map[], 1, map[], map[]);
      new;
      BuildPredecessorGraph();
    }

    method BuildPredecessorGraph()
      requires Valid() && nodeFactory.root == Identity(size)
      requires opt == Opt(map[], {}, map[], map[], 1, map[], map[])
      modifies this`opt, nodeFactory`mergeTarget
      ensures Valid() && Starts(constraints, size, opt) && forall x | x in opt.pred :: x < 3 * size
      ensures forall a: nat, b: nat | a < size && b < size :: PredsSay(constraints, size, opt.pred, a, b)
      ensures forall a: nat :: a in opt.indirect <==> exists d: nat :: Constraint(AddrOf, d, a) in constraints
    {
      hide Built, PredsSay;
      assert Built([], size, map[], {}) by {
        NothingBuilt(size);
      }
      assert constraints[..0] == [];
      for i := 0 to |constraints|
        invariant Valid() && Built(constraints[..i], size, opt.pred, opt.indirect)
        invariant opt == Opt(opt.pred, opt.indirect, map[], map[], 1, map[], map[])
      {
        var c := constraints[i];
        assert c in constraints;
        BuildOne(c, constraints[..i]);
        assert constraints[..i + 1] == constraints[..i] + [c];
      }
      assert constraints[..|constraints|] == constraints;
      BuiltStarts(constraints, size, opt);
      forall a: nat, b: nat | a < size && b < size ensures PredsSay(constraints, size, opt.pred, a, b) {
        PredsAre(constraints, size, opt.pred, a, b);
      }
      IndirectAre(constraints);
    }

    method BuildOne(c: Constraint, ghost before: seq<Constraint>)
      requires Valid() && nodeFactory.root == Identity(size) && c.dest < size && c.src < size
      requires Built(before, size, opt.pred, opt.indirect)
      modifies this`opt, nodeFactory`mergeTarget
      ensures Valid() && Built(before + [c], size, opt.pred, opt.indirect)
      ensures opt == old(opt).(pred := opt.pred, indirect := opt.indirect)
    {
      hide Built, InsertEdge;
      BuiltOne(before, size, c, opt.pred, opt.indirect);
      var srcTgt := nodeFactory.GetMergeTarget(c.src);
      var dstTgt := nodeFactory.GetMergeTarget(c.dest);
      match c.ty {
        case AddrOf =>
          opt := opt.(indirect := opt.indirect + {srcTgt});
          opt := opt.(pred := InsertEdge(opt.pred, dstTgt, srcTgt + 2 * size));
          opt := opt.(pred := InsertEdge(opt.pred, dstTgt + size, srcTgt));
        case Load =>
          opt := opt.(pred := InsertEdge(opt.pred, dstTgt, srcTgt + size));
        case Store =>
          opt := opt.(pred := InsertEdge(opt.pred, dstTgt + size, srcTgt));
        case Copy =>
          opt := opt.(pred := InsertEdge(opt.pred, dstTgt, srcTgt));
          opt := opt.(pred := InsertEdge(opt.pred, dstTgt + size, srcTgt + size));
      }
    }

    /** Give every node of a component the label of its leader. */
    method CopyLabels(ghost cs: seq<Constraint>, ghost log: seq<Component>)
      requires SccOrder(PredGraph(cs, size), log) && Shape(cs, size, opt, log)
      modifies this`opt
      ensures LabelsOfState(old(opt), log, opt.peLabel) && opt.next == old(opt.next)
    {
      hide SccOrder, Preds, Chase;
      MergedIsFlat(PredGraph(cs, size), opt, log);
      ghost var s := opt;
      assert forall r :: r in s.peLabel <==> r in Done(log) && Leader(log, r) == r;
      assert forall x :: x in s.mergeTarget <==> x in Done(log) && Leader(log, x) != x;
      hide Done, Leader;
      var todo := opt.mergeTarget.Keys;
      while todo != {}
        invariant todo <= opt.mergeTarget.Keys && opt == s.(peLabel := opt.peLabel)
        invariant forall x :: x in opt.peLabel <==> x in s.peLabel || x in s.mergeTarget.Keys - todo
        invariant forall x | x in opt.peLabel :: opt.peLabel[x] == Lab(s, log, x)
        decreases todo
      {
        var n :| n in todo;
        todo := todo - {n};
        RepIsLeader(PredGraph(cs, size), s, log, opt.mergeTarget[n]);
        LeaderFacts(PredGraph(cs, size), log, n);
        var rep := GetMergeTargetRep(opt, opt.mergeTarget[n]);
        opt := opt.(peLabel := opt.peLabel[n := LabelOf(opt, rep)]);
      }
    }

    /** Merge the VAR nodes that have one non-zero label. */
    method MergeVars() returns (rev: seq<nat>)
      requires Valid() && nodeFactory.root == Identity(size)
      requires forall x | x in opt.peLabel :: opt.peLabel[x] < opt.next
      modifies nodeFactory
      ensures Valid() && |rev| == opt.next && MergedSoFar(size, opt.peLabel, nodeFactory.root, rev, opt.peLabel.Keys)
    {
      hide MergedSoFar;
      rev := seq(opt.next, i => INVALID_INDEX);
      NothingMerged(size, opt.peLabel, opt.next);
      var todo := opt.peLabel.Keys;
      ghost var seen := {};
      while todo != {}
        invariant seen + todo == opt.peLabel.Keys && seen !! todo
        invariant Valid() && |rev| == opt.next && MergedSoFar(size, opt.peLabel, nodeFactory.root, rev, seen)
        decreases todo
      {
        var node :| node in todo;
        MergeStep(size, opt.peLabel, nodeFactory.root, rev, seen, node);
        todo, seen := todo - {node}, seen + {node};
        if node >= size {
          continue;
        }
        var target := nodeFactory.GetMergeTarget(node);
        if target != node {
          continue;
        }
        var iLabel := opt.peLabel[node];
        if rev[iLabel] == INVALID_INDEX {
          rev := rev[iLabel := node];
        } else if iLabel != 0 {
          nodeFactory.MergeNode(rev[iLabel], node);
        }
      }
      assert seen == opt.peLabel.Keys;
    }

    /** Let the labels of unmerged objects' ADR nodes stand for those. */
    method CollectAdrs(rev0: seq<nat>) returns (rev: seq<nat>)
      requires Valid() && Reverses(size, opt.peLabel, nodeFactory.root, rev0) && |rev0| == opt.next
      requires forall x | x in opt.peLabel :: opt.peLabel[x] < opt.next && x < 3 * size
      modifies nodeFactory`mergeTarget
      ensures Valid() && Reverses(size, opt.peLabel, nodeFactory.root, rev)
      ensures AdrsFirst(size, opt.peLabel, nodeFactory.root, rev, opt.peLabel.Keys)
    {
      hide Reverses, AdrsFirst, IsForest, InRange;
      rev := rev0;
      NoAdrs(size, opt.peLabel, nodeFactory.root, rev);
      var todo := opt.peLabel.Keys;
      ghost var seen := {};
      while todo != {}
        invariant todo + seen == opt.peLabel.Keys
        invariant Valid() && Reverses(size, opt.peLabel, nodeFactory.root, rev) && |rev| == opt.next
        invariant AdrsFirst(size, opt.peLabel, nodeFactory.root, rev, seen)
        decreases todo
      {
        var node :| node in todo;
        AdrStep(size, opt.peLabel, nodeFactory.root, rev, seen, node);
        todo, seen := todo - {node}, seen + {node};
        if node < size * 2 {
          continue;
        }
        var varNode := node - size * 2;
        var target := nodeFactory.GetMergeTarget(varNode);
        if target != varNode {
          continue;
        }
        rev := rev[opt.peLabel[node] := node];
      }
      assert seen == opt.peLabel.Keys;
    }

    /** What stands for the label of tgt, the representative of a: tgt itself or an ADR node. */
    method LookUp(a: nat, tgt: nat, rev: seq<nat>) returns (t: nat)
      requires Valid() && a < size && tgt == nodeFactory.root[a] && (LabelIn(opt.peLabel, a) != 0 || LabelIn(opt.peLabel, tgt) != 0)
      requires HasSetting(constraints, size, opt.peLabel, nodeFactory.root, rev)
      ensures t == Lookup(rev, LabelIn(opt.peLabel, tgt)) && (t <= size ==> t == tgt)
    {
      hide Setting, Singleton;
      ghost var log :| Setting(constraints, size, log, opt.peLabel, nodeFactory.root, rev);
      RepLabel(constraints, size, log, opt.peLabel, nodeFactory.root, rev, a);
      LookupMeans(constraints, size, log, opt.peLabel, nodeFactory.root, rev, a);
      t := rev[LabelIn(opt.peLabel, tgt)];
    }

    /** Rewrite one constraint. */
    method RewriteOne(c: Constraint, rev: seq<nat>, ghost log: seq<Component>) returns (r: seq<Constraint>)
      requires Valid() && c in constraints && Setting(constraints, size, log, opt.peLabel, nodeFactory.root, rev)
      modifies nodeFactory`mergeTarget
      ensures Valid() && r == Rewrite(size, opt.peLabel, nodeFactory.root, rev, c)
    {
      hide Setting, Lookup, VarOf, LabelIn, IsForest;
      var peLabel := opt.peLabel;
      assert c.dest < size && c.src < size;
      if LabelIn(peLabel, c.dest) == 0 {
        return [];
      }
      var destTgt := nodeFactory.GetMergeTarget(c.dest);
      var srcTgt := nodeFactory.GetMergeTarget(c.src);
      match c.ty {
        case AddrOf =>
          r := [Constraint(AddrOf, destTgt, c.src)];
        case Load =>
          if LabelIn(peLabel, srcTgt) == 0 {
            return [];
          }
          var srcTgtTgt := LookUp(c.src, srcTgt, rev);
          if srcTgtTgt > size {
            srcTgtTgt := VarOf(srcTgtTgt, size);
            r := if srcTgtTgt != destTgt then [Constraint(Copy, destTgt, srcTgtTgt)] else [];
          } else {
            assert srcTgtTgt == srcTgt;
            r := [Constraint(Load, destTgt, srcTgt)];
          }
        case Store =>
          var destTgtTgt := LookUp(c.dest, destTgt, rev);
          if destTgtTgt > size {
            destTgtTgt := VarOf(destTgtTgt, size);
            r := if destTgtTgt != srcTgt then [Constraint(Copy, destTgtTgt, srcTgt)] else [];
          } else {
            assert destTgtTgt == destTgt;
            r := [Constraint(Store, destTgt, srcTgt)];
          }
        case Copy =>
          if destTgt == srcTgt || LabelIn(peLabel, srcTgt) == 0 {
            return [];
          }
          var srcTgtTgt := LookUp(c.src, srcTgt, rev);
          if srcTgtTgt > size {
            srcTgtTgt := VarOf(srcTgtTgt, size);
            r := [Constraint(AddrOf, destTgt, srcTgtTgt)];
          } else {
            r := [Constraint(Copy, destTgt, srcTgt)];
          }
      }
    }

    /** Rewrite all constraints. */
    method RewriteAll(rev: seq<nat>, ghost log: seq<Component>) returns (cs2: seq<Constraint>)
      requires Valid() && Setting(constraints, size, log, opt.peLabel, nodeFactory.root, rev)
      modifies nodeFactory`mergeTarget
      ensures Valid() && Rewritten(size, opt.peLabel, nodeFactory.root, rev, constraints, cs2)
      ensures forall i, j | 0 <= i < j < |cs2| :: cs2[i] != cs2[j]
    {
      hide Setting, Rewrite;
      var newConstraints: seq<Constraint> := [];
      for i := 0 to |constraints|
        invariant Valid()
        invariant Rewritten(size, opt.peLabel, nodeFactory.root, rev, constraints[..i], newConstraints)
      {
        var c := constraints[i];
        assert c in constraints && constraints[..i + 1] == constraints[..i] + [c];
        var r := RewriteOne(c, rev, log);
        RewrittenSnoc(size, opt.peLabel, nodeFactory.root, rev, constraints[..i], newConstraints, c);
        newConstraints := newConstraints + r;
      }
      assert constraints[..|constraints|] == constraints;
      cs2 := Uniquify(newConstraints);
    }

    /** Detect cycles in the predecessor graph, label its nodes, and rewrite the constraints. */
    method Run() returns (ghost log: seq<Component>, ghost labels: map<nat, nat>, ghost rev: seq<nat>)
      requires Valid() && nodeFactory.root == Identity(size) && Starts(constraints, size, opt)
      requires forall x | x in opt.pred :: x < 3 * size
      requires RefZeroHarmless(constraints, size)
      modifies this, nodeFactory
      ensures Valid()
      ensures LabelsOf(old(constraints), size, kind, log, labels)
      ensures Setting(old(constraints), size, log, labels, nodeFactory.root, rev)
      ensures AdrsFirst(size, labels, nodeFactory.root, rev, labels.Keys)
      ensures Rewritten(size, labels, nodeFactory.root, rev, old(constraints), constraints)
      ensures forall b :: b in constraints <==> exists c :: c in old(constraints) && Simplified(size, labels, nodeFactory.root, c, b)
      ensures forall n: nat :: At(Least(constraints, nodeFactory.root), n) == At(Least(old(constraints), nodeFactory.root), n)
      ensures StoresLand(Least(old(constraints), Identity(size)), old(constraints)) ==>
                forall n: nat :: At(Least(constraints, nodeFactory.root), Find(nodeFactory.root, n)) == At(Least(old(constraints), Identity(size)), n)
    {
      hide RefZeroHarmless, Least, StoresLand, OptInv, SccOrder, Lawful, Sources, Starts, Setting, Rewritten, LabelsOfState, MergedSoFar, AdrsFirst;
      ghost var cs := constraints;
      log := Label();
      labels := opt.peLabel;
      var revLabelMap := MergeVars();
      AllMerged(size, opt.peLabel, nodeFactory.root, revLabelMap);
      revLabelMap := CollectAdrs(revLabelMap);
      assert Setting(cs, size, log, labels, nodeFactory.root, revLabelMap) by {
        ItIsASetting(cs, size, log, labels, nodeFactory.root, revLabelMap);
      }
      constraints := RewriteAll(revLabelMap, log);
      rev := revLabelMap;
      RewrittenInRange(cs, size, log, labels, nodeFactory.root, rev, constraints);
      RewritingPreserves(cs, size, log, labels, nodeFactory.root, rev, constraints);
      AllSimplified(cs, size, log, labels, nodeFactory.root, rev, constraints);
      if StoresLand(Least(cs, Identity(size)), cs) {
        RewritingIsExact(cs, size, log, labels, nodeFactory.root, rev, constraints);
      }
    }

    /** The search. */
    method Search() returns (ghost log: seq<Component>)
      requires Valid() && nodeFactory.root == Identity(size) && Starts(constraints, size, opt)
      requires forall x | x in opt.pred :: x < 3 * size
      requires RefZeroHarmless(constraints, size)
      modifies this`opt
      ensures OptInv(constraints, size, kind, opt, log) && SccOrder(PredGraph(constraints, size), log)
      ensures forall x: nat | x < 3 * size && Preds(constraints, size, x) != {} :: x in Done(log)
    {
      ghost var cs := constraints;
      ghost var pred := opt.pred;
      assert forall x: nat | x < 3 * size && Preds(cs, size, x) != {} :: x in pred;
      hide RefZeroHarmless, OptInv, SccOrder, Lawful, Preds, IsForest, Inv, Starts;
      OptimizerIsLawful(cs, size, kind);
      StartIsOk(cs, size, kind, opt);
      var detector := new CycleDetector(Optimizer(kind, size), opt, PredGraph(cs, size), Base(cs, size), Sim(cs, size, kind));
      var order := Listing(opt.pred.Keys);
      detector.RunOnGraph(order);
      log := detector.log;
      opt := detector.state;
    }

    /** The search, and the labels it leaves. */
    method Label() returns (ghost log: seq<Component>)
      requires Valid() && nodeFactory.root == Identity(size) && Starts(constraints, size, opt)
      requires forall x | x in opt.pred :: x < 3 * size
      requires RefZeroHarmless(constraints, size)
      modifies this`opt
      ensures LabelsOf(constraints, size, kind, log, opt.peLabel) && Labelling(constraints, size, log, opt.peLabel)
      ensures forall x | x in opt.peLabel :: opt.peLabel[x] < opt.next && x < 3 * size
    {
      hide RefZeroHarmless, OptInv, SccOrder, Preds, IsForest, Starts, LabelsOfState, Labelling, LabelsOf, Shape;
      log := Search();
      ghost var s := opt;
      InvShape(constraints, size, kind, s, log);
      CopyLabels(constraints, log);
      LabellingIs(constraints, size, kind, s, log, opt.peLabel);
      LabelsBelow(constraints, size, kind, s, log, opt.peLabel);
    }
  }

  lemma NothingBuilt(size: nat)
    ensures Built([], size, map[], {})
  {
  }

  lemma BuiltOne(cs: seq<Constraint>, size: nat, c: Constraint, pred: Graph, indirect: set<nat>)
    requires Built(cs, size, pred, indirect) && c.dest < size && c.src < size
    ensures Built(cs + [c], size, Inserted(pred, c, size), if c.ty.AddrOf? then indirect + {c.src} else indirect)
  {
    hide Inserted, EdgesFrom, Succ;
    forall x: nat ensures Succ(Inserted(pred, c, size), x) == Succ(pred, x) + EdgesFrom(c, size, x)
                       && (x in Inserted(pred, c, size) ==> x in pred || x < 3 * size) {
      InsertedEdges(pred, c, size, x);
    }
    BuiltSnoc(cs, size, c, pred, indirect, Inserted(pred, c, size), if c.ty.AddrOf? then indirect + {c.src} else indirect);
  }

  lemma BuiltStarts(cs: seq<Constraint>, size: nat, s: Opt)
    requires Built(cs, size, s.pred, s.indirect) && s == Opt(s.pred, s.indirect, map[], map[], 1, map[], map[])
    ensures Starts(cs, size, s) && forall x | x in s.pred :: x < 3 * size
  {
  }

  lemma NothingMerged(size: nat, labels: map<nat, nat>, n: nat)
    ensures MergedSoFar(size, labels, Identity(size), seq(n, i => INVALID_INDEX), {})
  {
  }

  /** One more node scanned. */
  lemma MergeStep(size: nat, labels: map<nat, nat>, root: seq<nat>, rev: seq<nat>, seen: set<nat>, node: nat)
    requires MergedSoFar(size, labels, root, rev, seen) && IsRep(root)
    requires node in labels && node !in seen && labels[node] < |rev| && 3 * size < INVALID_INDEX
    ensures node >= size ==> MergedSoFar(size, labels, root, rev, seen + {node})
    ensures node < size ==> root[node] == node
    ensures node < size && rev[labels[node]] == INVALID_INDEX ==> MergedSoFar(size, labels, root, rev[labels[node] := node], seen + {node})
    ensures node < size && rev[labels[node]] != INVALID_INDEX && labels[node] == 0 ==> MergedSoFar(size, labels, root, rev, seen + {node})
    ensures node < size && rev[labels[node]] != INVALID_INDEX && labels[node] != 0 ==>
              rev[labels[node]] < size && root[rev[labels[node]]] == rev[labels[node]] != node
              && MergedSoFar(size, labels, Joined(root, rev[labels[node]], node), rev, seen + {node})
  {
  }

  /** The label of a representative. */
  lemma RepLabel(cs: seq<Constraint>, size: nat, log: seq<Component>, labels: map<nat, nat>, rep: seq<nat>, rev: seq<nat>, a: nat)
    requires Setting(cs, size, log, labels, rep, rev) && a < size
    requires LabelIn(labels, a) != 0 || LabelIn(labels, rep[a]) != 0
    ensures LabelIn(labels, rep[a]) == LabelIn(labels, a) < |rev|
  {
    hide Labelling;
  }

  lemma RewrittenSnoc(size: nat, labels: map<nat, nat>, rep: seq<nat>, rev: seq<nat>, cs1: seq<Constraint>, cs2: seq<Constraint>, c: Constraint)
    requires size > 0 && Rewritten(size, labels, rep, rev, cs1, cs2)
    ensures Rewritten(size, labels, rep, rev, cs1 + [c], cs2 + Rewrite(size, labels, rep, rev, c))
  {
    hide Rewrite;
    forall b ensures b in cs2 + Rewrite(size, labels, rep, rev, c) <==> exists d :: d in cs1 + [c] && b in Rewrite(size, labels, rep, rev, d) {
      if b in cs2 {
        var d :| d in cs1 && b in Rewrite(size, labels, rep, rev, d);
        assert d in cs1 + [c];
      }
      assert c in cs1 + [c];
    }
  }

  method Uniquify(cs: seq<Constraint>) returns (r: seq<Constraint>)
    ensures forall c :: c in r <==> c in cs
    ensures forall i, j | 0 <= i < j < |r| :: r[i] != r[j]
  {
    var todo := set c | c in cs;
    r := [];
    while todo != {}
      invariant forall c :: c in r || c in todo <==> c in cs
      invariant forall c | c in r :: c !in todo
      invariant forall i, j | 0 <= i < j < |r| :: r[i] != r[j]
      decreases todo
    {
      var c :| c in todo;
      todo, r := todo - {c}, r + [c];
    }
  }

  lemma ItIsASetting(cs: seq<Constraint>, size: nat, log: seq<Component>, labels: map<nat, nat>, rep: seq<nat>, rev: seq<nat>)
    requires size > 0 && Labelling(cs, size, log, labels) && Merges(size, labels, rep) && Reverses(size, labels, rep, rev)
    ensures Setting(cs, size, log, labels, rep, rev)
  {
  }

  lemma InvShape(cs: seq<Constraint>, size: nat, kind: Kind, s: Opt, log: seq<Component>)
    requires OptInv(cs, size, kind, s, log)
    ensures Shape(cs, size, s, log) && LabelsOk(cs, size, s, log)
  {
  }

  lemma LabelsBelow(cs: seq<Constraint>, size: nat, kind: Kind, s: Opt, log: seq<Component>, labels: map<nat, nat>)
    requires OptInv(cs, size, kind, s, log) && SccOrder(PredGraph(cs, size), log) && LabelsOfState(s, log, labels)
    ensures forall x | x in labels :: labels[x] < s.next && x < 3 * size
  {
    InvShape(cs, size, kind, s, log);
    DoneClosed(PredGraph(cs, size), log);
    hide OptInv, SccOrder, Sources, Lab, Shape;
  }
}
