/** Rewriting the constraints by label changes nothing but the merges. */
module Rewriting {
  import opened Constraints
  import opened Graphs
  import opened PredecessorGraphs

  /** A label table; nodes that were never visited have label 0. */
  function LabelIn(labels: map<nat, nat>, n: nat): nat {
    if n in labels then labels[n] else 0
  }

  /** What a labelling pass promises about its labels. */
  ghost predicate Labelling(cs: seq<Constraint>, size: nat, log: seq<Component>, labels: map<nat, nat>) {
    && InRange(cs, size) && SccOrder(PredGraph(cs, size), log) && labels.Keys == Done(log)
    && (forall x: nat | x < 3 * size && Preds(cs, size, x) != {} :: x in Done(log))
    && (forall x | x in labels :: labels[x] == 0 <==> Sources(cs, size, log, x) == {})
    && (forall x, y | x in labels && y in labels && labels[x] == labels[y] :: Sources(cs, size, log, x) == Sources(cs, size, log, y))
  }

  /** The VAR nodes with one non-zero label were merged, and nothing else. */
  ghost predicate Merges(size: nat, labels: map<nat, nat>, rep: seq<nat>) {
    && |rep| == size && IsRep(rep)
    && (forall a | 0 <= a < size && rep[a] != a :: LabelIn(labels, a) != 0 && LabelIn(labels, rep[a]) == LabelIn(labels, a))
    && (forall a, b | 0 <= a < size && 0 <= b < size && LabelIn(labels, a) == LabelIn(labels, b) != 0 :: rep[a] == rep[b])
  }

  /** rev maps a label to an unmerged object's ADR node if there is one, else to the VAR node that has it. */
  ghost predicate Reverses(size: nat, labels: map<nat, nat>, rep: seq<nat>, rev: seq<nat>) {
    && |rep| == size
    && (forall a | 0 <= a < size && LabelIn(labels, a) != 0 ::
          LabelIn(labels, a) < |rev| && (rev[LabelIn(labels, a)] == rep[a] || IsAdr(size, labels, rep, rev[LabelIn(labels, a)], LabelIn(labels, a))))
  }

  ghost predicate IsAdr(size: nat, labels: map<nat, nat>, rep: seq<nat>, t: nat, l: nat) {
    && 2 * size <= t < 3 * size && t in labels && labels[t] == l
    && t - 2 * size < |rep| && rep[t - 2 * size] == t - 2 * size
  }

  /** The VAR node of an ADR node. */
  function VarOf(t: nat, size: nat): nat
    requires size > 0
  {
    t % size
  }

  lemma VarOfAdr(k: nat, size: nat)
    requires k < size
    ensures VarOf(k + 2 * size, size) == k
  {
  }

  const INVALID_INDEX: nat := 0xffff_ffff

  function Lookup(rev: seq<nat>, l: nat): nat {
    if l < |rev| then rev[l] else INVALID_INDEX
  }

  /** What a constraint is replaced by: at most one other. */
  function Rewrite(size: nat, labels: map<nat, nat>, rep: seq<nat>, rev: seq<nat>, c: Constraint): seq<Constraint>
    requires size > 0
  {
    if LabelIn(labels, c.dest) == 0 then [] else
    var d, s := Find(rep, c.dest), Find(rep, c.src);
    match c.ty
    case AddrOf => [Constraint(AddrOf, d, c.src)]
    case Load =>
      if LabelIn(labels, s) == 0 then [] else
      var t := Lookup(rev, LabelIn(labels, s));
      if t > size then (if VarOf(t, size) != d then [Constraint(Copy, d, VarOf(t, size))] else [])
      else [Constraint(Load, d, s)]
    case Store =>
      var t := Lookup(rev, LabelIn(labels, d));
      if t > size then (if VarOf(t, size) != s then [Constraint(Copy, VarOf(t, size), s)] else [])
      else [Constraint(Store, d, s)]
    case Copy =>
      if d == s || LabelIn(labels, s) == 0 then [] else
      var t := Lookup(rev, LabelIn(labels, s));
      if t > size then [Constraint(AddrOf, d, VarOf(t, size))]
      else [Constraint(Copy, d, s)]
  }

  /** cs2 holds what the constraints of cs1 are replaced by, in any order and without regard to repetition. */
  ghost predicate Rewritten(size: nat, labels: map<nat, nat>, rep: seq<nat>, rev: seq<nat>, cs1: seq<Constraint>, cs2: seq<Constraint>)
    requires size > 0
  {
    forall b :: b in cs2 <==> exists c :: c in cs1 && b in Rewrite(size, labels, rep, rev, c)
  }

  ghost predicate Setting(cs: seq<Constraint>, size: nat, log: seq<Component>, labels: map<nat, nat>, rep: seq<nat>, rev: seq<nat>) {
    size > 0 && Labelling(cs, size, log, labels) && Merges(size, labels, rep) && Reverses(size, labels, rep, rev)
  }

  /** What the table lookup for a VAR node yields: its representative, or the only object it can point to. */
  lemma LookupMeans(cs: seq<Constraint>, size: nat, log: seq<Component>, labels: map<nat, nat>, rep: seq<nat>, rev: seq<nat>, a: nat)
    requires Setting(cs, size, log, labels, rep, rev) && a < size && LabelIn(labels, a) != 0
    ensures var t := Lookup(rev, LabelIn(labels, rep[a]));
      && LabelIn(labels, rep[a]) == LabelIn(labels, a)
      && (t <= size ==> t == rep[a])
      && (t > size ==> Singleton(cs, size, log, rep, a, VarOf(t, size)))
  {
    hide VarOf, Sources, SccOrder, Preds;
    var t := Lookup(rev, LabelIn(labels, rep[a]));
    if rep[a] != a {
      assert LabelIn(labels, rep[a]) == LabelIn(labels, a);
    }
    if t > size {
      assert IsAdr(size, labels, rep, t, LabelIn(labels, a));
      var k := t - 2 * size;
      VarOfAdr(k, size);
      AdrSources(cs, size, log, k);
    }
  }

  /** a can point to the unmerged object k only. */
  ghost predicate Singleton(cs: seq<Constraint>, size: nat, log: seq<Component>, rep: seq<nat>, a: nat, k: nat) {
    k < size && k < |rep| && rep[k] == k && k + 2 * size in Done(log) && Sources(cs, size, log, a) == {k + 2 * size}
  }

  // ----- The forms a rewritten constraint can take -----

  /** The pointer that a constraint dereferences or copies. */
  function Pointer(c: Constraint): nat {
    if c.ty.Store? then c.dest else c.src
  }

  /** c on the representatives. */
  function Plain(rep: seq<nat>, c: Constraint): Constraint {
    Constraint(c.ty, Find(rep, c.dest), if c.ty.AddrOf? then c.src else Find(rep, c.src))
  }

  /** c, when its pointer can point to k only. */
  function Resolved(rep: seq<nat>, c: Constraint, k: nat): Constraint {
    match c.ty
    case AddrOf => Plain(rep, c)
    case Load => Constraint(Copy, Find(rep, c.dest), k)
    case Store => Constraint(Copy, k, Find(rep, c.src))
    case Copy => Constraint(AddrOf, Find(rep, c.dest), k)
  }

  lemma RewriteForm(cs: seq<Constraint>, size: nat, log: seq<Component>, labels: map<nat, nat>, rep: seq<nat>, rev: seq<nat>,
                    c: Constraint, b: Constraint) returns (k: nat)
    requires Setting(cs, size, log, labels, rep, rev) && c in cs && b in Rewrite(size, labels, rep, rev, c)
    ensures LabelIn(labels, c.dest) != 0
    ensures b == Plain(rep, c) || (!c.ty.AddrOf? && b == Resolved(rep, c, k) && Singleton(cs, size, log, rep, Pointer(c), k))
  {
    assert c.dest < size && c.src < size;
    hide Labelling, VarOf, Lookup;
    k := 0;
    var a := Pointer(c);
    if !c.ty.AddrOf? && LabelIn(labels, rep[a]) != 0 {
      assert LabelIn(labels, a) != 0;
      LookupMeans(cs, size, log, labels, rep, rev, a);
      k := VarOf(Lookup(rev, LabelIn(labels, rep[a])), size);
    }
    assert LabelIn(labels, a) != 0 ==> LabelIn(labels, rep[a]) != 0;
    hide Setting, Singleton;
  }

  /** Every constraint on pointers with labels is kept in one of those forms, or says nothing. */
  lemma RewriteKeeps(cs: seq<Constraint>, size: nat, log: seq<Component>, labels: map<nat, nat>, rep: seq<nat>, rev: seq<nat>,
                     c: Constraint) returns (k: nat)
    requires Setting(cs, size, log, labels, rep, rev) && c in cs
    requires LabelIn(labels, c.dest) != 0 && (c.ty.Load? || c.ty.Copy? ==> LabelIn(labels, c.src) != 0)
    ensures c.dest < size && c.src < size
    ensures || Plain(rep, c) in Rewrite(size, labels, rep, rev, c)
            || (c.ty.Copy? && rep[c.dest] == rep[c.src])
            || (Singleton(cs, size, log, rep, Pointer(c), k)
                && (Resolved(rep, c, k) in Rewrite(size, labels, rep, rev, c)
                    || (c.ty.Load? && k == rep[c.dest]) || (c.ty.Store? && k == rep[c.src])))
  {
    assert c.dest < size && c.src < size;
    k := 0;
    var a := Pointer(c);
    if !c.ty.AddrOf? {
      LookupMeans(cs, size, log, labels, rep, rev, a);
      k := VarOf(Lookup(rev, LabelIn(labels, rep[a])), size);
    }
    hide VarOf, Lookup, Setting, Singleton;
  }

  /** A constraint and its plain form mean the same to a points-to graph that respects the merges. */
  lemma PlainHolds(g: PtsGraph, rep: seq<nat>, c: Constraint)
    requires Respects(g, rep) && c.dest < |rep| && c.src < |rep|
    ensures Holds(g, Plain(rep, c)) <==> Holds(g, c)
  {
    assert At(g, c.src) == At(g, rep[c.src]) && At(g, c.dest) == At(g, rep[c.dest]);
    hide Respects, At;
  }

  lemma ResolvedHolds(g: PtsGraph, rep: seq<nat>, c: Constraint, k: nat)
    requires Respects(g, rep) && c.dest < |rep| && c.src < |rep|
    requires k in At(g, Pointer(c)) && Holds(g, c)
    ensures Holds(g, Resolved(rep, c, k))
  {
    PlainHolds(g, rep, c);
    assert At(g, c.src) == At(g, rep[c.src]) && At(g, c.dest) == At(g, rep[c.dest]);
    hide Respects, At;
  }

  /** Back again, where the pointer points to nothing else. */
  lemma ResolvedHoldsBack(g: PtsGraph, rep: seq<nat>, c: Constraint, k: nat)
    requires Respects(g, rep) && c.dest < |rep| && c.src < |rep| && k < |rep|
    requires !c.ty.AddrOf? && At(g, Pointer(c)) <= {k}
    requires Holds(g, Resolved(rep, c, k)) || (c.ty.Load? && k == rep[c.dest]) || (c.ty.Store? && k == rep[c.src])
    ensures Holds(g, c)
  {
    assert At(g, c.src) == At(g, rep[c.src]) && At(g, c.dest) == At(g, rep[c.dest]);
    hide Respects, At;
  }

  // ----- Solutions of the constraints solve the rewritten constraints -----

  lemma OneSound(cs: seq<Constraint>, size: nat, log: seq<Component>, labels: map<nat, nat>, rep: seq<nat>, rev: seq<nat>,
                 g: PtsGraph, c: Constraint, b: Constraint)
    requires Setting(cs, size, log, labels, rep, rev) && Candidate(g, cs, rep)
    requires c in cs && b in Rewrite(size, labels, rep, rev, c)
    ensures Holds(g, b)
  {
    hide Rewrite, At, Sources, SccOrder;
    var k := RewriteForm(cs, size, log, labels, rep, rev, c, b);
    assert Holds(g, c) && c.dest < |rep| && c.src < |rep|;
    if b == Plain(rep, c) {
      PlainHolds(g, rep, c);
    } else {
      assert k + 2 * size in Sources(cs, size, log, Pointer(c));
      AdrFlows(cs, size, log, Pointer(c), k, g);
      ResolvedHolds(g, rep, c, k);
    }
  }

  lemma RewriteSound(cs: seq<Constraint>, size: nat, log: seq<Component>, labels: map<nat, nat>, rep: seq<nat>, rev: seq<nat>,
                     cs2: seq<Constraint>, g: PtsGraph)
    requires Setting(cs, size, log, labels, rep, rev) && Rewritten(size, labels, rep, rev, cs, cs2)
    requires Candidate(g, cs, rep)
    ensures Candidate(g, cs2, rep)
  {
    forall b | b in cs2 ensures Holds(g, b) {
      var c :| c in cs && b in Rewrite(size, labels, rep, rev, c);
      OneSound(cs, size, log, labels, rep, rev, g, c, b);
    }
  }

  // ----- What the least solution of the rewritten constraints cannot contain -----

  /** A single ADR node flows into n. */
  ghost predicate SingleAdr(cs: seq<Constraint>, size: nat, log: seq<Component>, n: nat) {
    exists r :: r in Sources(cs, size, log, n) && r >= 2 * size && Sources(cs, size, log, n) == {r}
  }

  /** The labels allow n to point to o. */
  ghost predicate Permits(cs: seq<Constraint>, size: nat, log: seq<Component>, n: nat, o: nat) {
    && n in Done(log) && Sources(cs, size, log, n) != {}
    && (SingleAdr(cs, size, log, n) ==> Sources(cs, size, log, n) == {o + 2 * size})
  }

  /** What a predecessor may point to, its successor may. */
  lemma PermitsFlow(cs: seq<Constraint>, size: nat, log: seq<Component>, x: nat, y: nat, o: nat)
    requires InRange(cs, size) && SccOrder(PredGraph(cs, size), log) && x in Done(log) && x < size && y in Preds(cs, size, x)
    requires (y < size && Permits(cs, size, log, y, o)) || (y == o + 2 * size && o < size) || size <= y < 2 * size
    ensures Permits(cs, size, log, x, o)
  {
    EdgeSources(cs, size, log, x, y);
    if size <= y < 2 * size {
      IndirectSources(cs, size, log, y);
    } else if y >= 2 * size {
      AdrSources(cs, size, log, o);
    }
    hide SccOrder, Preds, Done, Sources;
    var sx, sy := Sources(cs, size, log, x), Sources(cs, size, log, y);
    assert sy != {};
    if SingleAdr(cs, size, log, x) {
      var r :| r in sx && r >= 2 * size && sx == {r};
      assert sy <= sx;
      assert sy == {r};
    }
  }

  /** Address-taken nodes may point to anything. */
  lemma TakenPermitsAll(cs: seq<Constraint>, size: nat, log: seq<Component>, labels: map<nat, nat>, n: nat, o: nat)
    requires Labelling(cs, size, log, labels) && n in AddressTaken(cs)
    ensures n < size && Permits(cs, size, log, n, o)
  {
    TakenIsDone(cs, size, log, n);
    IndirectSources(cs, size, log, n);
    hide Sources, Done, SccOrder;
  }

  lemma MergedPermitsSame(cs: seq<Constraint>, size: nat, log: seq<Component>, labels: map<nat, nat>, rep: seq<nat>, n: nat, o: nat)
    requires Labelling(cs, size, log, labels) && Merges(size, labels, rep) && n < size
    ensures Permits(cs, size, log, rep[n], o) <==> Permits(cs, size, log, n, o)
  {
    if rep[n] != n {
      assert LabelIn(labels, rep[n]) == LabelIn(labels, n) != 0;
      assert Sources(cs, size, log, n) == Sources(cs, size, log, rep[n]);
      hide Sources, Done, SccOrder;
    }
  }

  /** r without what the labels rule out. */
  ghost function Trim(cs: seq<Constraint>, size: nat, log: seq<Component>, r: PtsGraph): PtsGraph {
    map n | n in r :: set o | o in r[n] && Permits(cs, size, log, n, o)
  }

  lemma TrimAt(cs: seq<Constraint>, size: nat, log: seq<Component>, r: PtsGraph, n: nat, o: nat)
    ensures o in At(Trim(cs, size, log, r), n) <==> o in At(r, n) && Permits(cs, size, log, n, o)
  {
  }

  lemma HasPred(cs: seq<Constraint>, size: nat, x: nat, y: nat, c: Constraint)
    requires InRange(cs, size) && c in cs && EdgeOf(c, size, x, y)
    ensures x < 3 * size && y in Preds(cs, size, x)
  {
  }

  /** What the source of a copy, or a loaded cell, may point to, the destination may. */
  lemma FlowsToDest(cs: seq<Constraint>, size: nat, log: seq<Component>, labels: map<nat, nat>, c: Constraint, o: nat)
    requires Labelling(cs, size, log, labels) && c in cs && !c.ty.Store?
    requires c.ty.Copy? ==> Permits(cs, size, log, c.src, o)
    requires c.ty.AddrOf? ==> o == c.src
    ensures Permits(cs, size, log, c.dest, o)
  {
    assert c.dest < size && c.src < size;
    var y := match c.ty case AddrOf => c.src + 2 * size case Load => c.src + size case _ => c.src;
    HasPred(cs, size, c.dest, y, c);
    assert Preds(cs, size, c.dest) != {};
    PermitsFlow(cs, size, log, c.dest, y, o);
  }

  ghost predicate SolvesRewritten(cs: seq<Constraint>, size: nat, log: seq<Component>, labels: map<nat, nat>, rep: seq<nat>, rev: seq<nat>,
                                  cs2: seq<Constraint>, r: PtsGraph)
  {
    && Setting(cs, size, log, labels, rep, rev) && Rewritten(size, labels, rep, rev, cs, cs2)
    && Candidate(r, cs2, rep)
    && forall n: nat :: At(r, n) <= AddressTaken(cs)
  }

  /** What the labels rule out can go. */
  lemma TrimHolds(cs: seq<Constraint>, size: nat, log: seq<Component>, labels: map<nat, nat>, r: PtsGraph, c: Constraint)
    requires Labelling(cs, size, log, labels) && c in cs && Holds(r, c)
    requires forall n: nat :: At(r, n) <= AddressTaken(cs)
    ensures Holds(Trim(cs, size, log, r), c)
  {
    var q := Trim(cs, size, log, r);
    hide Trim, Permits, Labelling, At;
    forall n: nat, o ensures o in At(q, n) <==> o in At(r, n) && Permits(cs, size, log, n, o) {
      TrimAt(cs, size, log, r, n, o);
    }
    if c.ty.Store? {
      forall n, o | n in AddressTaken(cs) ensures Permits(cs, size, log, n, o) {
        TakenPermitsAll(cs, size, log, labels, n, o);
      }
    } else {
      forall o | (c.ty.Copy? ==> Permits(cs, size, log, c.src, o)) && (c.ty.AddrOf? ==> o == c.src) ensures Permits(cs, size, log, c.dest, o) {
        FlowsToDest(cs, size, log, labels, c, o);
      }
    }
    hide AddressTaken;
  }

  lemma TrimHoldsResolved(cs: seq<Constraint>, size: nat, log: seq<Component>, labels: map<nat, nat>, rep: seq<nat>, r: PtsGraph,
                          c: Constraint, k: nat)
    requires Labelling(cs, size, log, labels) && Merges(size, labels, rep) && c in cs && Holds(r, Resolved(rep, c, k))
    requires !c.ty.AddrOf? && Singleton(cs, size, log, rep, Pointer(c), k)
    ensures Holds(Trim(cs, size, log, r), Resolved(rep, c, k))
  {
    var q := Trim(cs, size, log, r);
    assert c.dest < size && c.src < size;
    hide Trim, Permits, Labelling, At, Merges, Singleton, Done;
    SingletonPermits(cs, size, log, labels, rep, Pointer(c), k);
    forall n: nat, o ensures o in At(q, n) <==> o in At(r, n) && Permits(cs, size, log, n, o) {
      TrimAt(cs, size, log, r, n, o);
    }
    if c.ty.Store? {
      forall o ensures Permits(cs, size, log, k, o) {
        TakenPermitsAll(cs, size, log, labels, k, o);
      }
    } else {
      forall o | c.ty.Copy? ==> o == k ensures Permits(cs, size, log, rep[c.dest], o) {
        FlowsToDest(cs, size, log, labels, c, o);
        MergedPermitsSame(cs, size, log, labels, rep, c.dest, o);
      }
    }
    hide AddressTaken;
  }

  lemma OneTrim(cs: seq<Constraint>, size: nat, log: seq<Component>, labels: map<nat, nat>, rep: seq<nat>, rev: seq<nat>,
                cs2: seq<Constraint>, r: PtsGraph, c: Constraint, b: Constraint)
    requires SolvesRewritten(cs, size, log, labels, rep, rev, cs2, r) && Respects(Trim(cs, size, log, r), rep)
    requires c in cs && b in cs2 && b in Rewrite(size, labels, rep, rev, c)
    ensures Holds(Trim(cs, size, log, r), b)
  {
    hide Rewrite, Trim, At, Plain, Resolved, Singleton;
    var k := RewriteForm(cs, size, log, labels, rep, rev, c, b);
    assert Holds(r, b) && c.dest < |rep| && c.src < |rep|;
    if b == Plain(rep, c) {
      PlainHolds(r, rep, c);
      TrimHolds(cs, size, log, labels, r, c);
      PlainHolds(Trim(cs, size, log, r), rep, c);
    } else {
      TrimHoldsResolved(cs, size, log, labels, rep, r, c, k);
    }
  }

  /** A node that can point to k only may point to k, and k is an object. */
  lemma SingletonPermits(cs: seq<Constraint>, size: nat, log: seq<Component>, labels: map<nat, nat>, rep: seq<nat>, a: nat, k: nat)
    requires Labelling(cs, size, log, labels) && Singleton(cs, size, log, rep, a, k) && a < size
    ensures k in AddressTaken(cs)
    ensures forall o :: Permits(cs, size, log, a, o) <==> o == k
  {
    hide SccOrder, Preds, AddressTaken;
    SourcesInDone(cs, size, log, a);
    assert k + 2 * size in Sources(cs, size, log, a);
    hide Sources, Done;
    AdrIsTaken(cs, size, log, a, k);
    assert SingleAdr(cs, size, log, a);
  }

  lemma TrimSolves(cs: seq<Constraint>, size: nat, log: seq<Component>, labels: map<nat, nat>, rep: seq<nat>, rev: seq<nat>,
                   cs2: seq<Constraint>, r: PtsGraph)
    requires SolvesRewritten(cs, size, log, labels, rep, rev, cs2, r)
    ensures Candidate(Trim(cs, size, log, r), cs2, rep)
  {
    var q := Trim(cs, size, log, r);
    forall n: nat | n < |rep| ensures At(q, n) == At(q, rep[n]) {
      forall o ensures o in At(q, n) <==> o in At(q, rep[n]) {
        assert At(r, n) == At(r, rep[n]);
        MergedPermitsSame(cs, size, log, labels, rep, n, o);
        TrimAt(cs, size, log, r, n, o);
        TrimAt(cs, size, log, r, rep[n], o);
      }
    }
    forall b | b in cs2 ensures Holds(q, b) {
      var c :| c in cs && b in Rewrite(size, labels, rep, rev, c);
      OneTrim(cs, size, log, labels, rep, rev, cs2, r, c, b);
    }
  }

  lemma RewrittenInRange(cs: seq<Constraint>, size: nat, log: seq<Component>, labels: map<nat, nat>, rep: seq<nat>, rev: seq<nat>,
                         cs2: seq<Constraint>)
    requires Setting(cs, size, log, labels, rep, rev) && Rewritten(size, labels, rep, rev, cs, cs2)
    ensures InRange(cs2, size) && AddressTaken(cs2) <= AddressTaken(cs)
  {
    forall b | b in cs2 ensures b.dest < size && b.src < size && (b.ty.AddrOf? ==> b.src in AddressTaken(cs)) {
      var c :| c in cs && b in Rewrite(size, labels, rep, rev, c);
      OneInRange(cs, size, log, labels, rep, rev, c, b);
      hide Rewrite, Setting;
    }
  }

  lemma OneInRange(cs: seq<Constraint>, size: nat, log: seq<Component>, labels: map<nat, nat>, rep: seq<nat>, rev: seq<nat>,
                   c: Constraint, b: Constraint)
    requires Setting(cs, size, log, labels, rep, rev) && c in cs && b in Rewrite(size, labels, rep, rev, c)
    ensures b.dest < size && b.src < size && (b.ty.AddrOf? ==> b.src in AddressTaken(cs))
  {
    var k := RewriteForm(cs, size, log, labels, rep, rev, c, b);
    assert c.dest < size && c.src < size && |rep| == size && rep[c.dest] < size && rep[c.src] < size;
    if b != Plain(rep, c) && c.ty.Copy? {
      assert k + 2 * size in Sources(cs, size, log, c.src);
      AdrIsTaken(cs, size, log, c.src, k);
    }
    hide Setting, Rewrite, Sources;
  }

  lemma LeastSolvesRewritten(cs: seq<Constraint>, size: nat, log: seq<Component>, labels: map<nat, nat>, rep: seq<nat>, rev: seq<nat>,
                             cs2: seq<Constraint>)
    requires Setting(cs, size, log, labels, rep, rev) && Rewritten(size, labels, rep, rev, cs, cs2)
    ensures SolvesRewritten(cs, size, log, labels, rep, rev, cs2, Least(cs2, rep))
  {
    RewrittenInRange(cs, size, log, labels, rep, rev, cs2);
    LeastIsSolution(cs2, rep);
    forall n: nat ensures At(Least(cs2, rep), n) <= AddressTaken(cs) {
      LeastPointsToTaken(cs2, rep, n);
    }
    hide Labelling, Reverses, Rewritten, Least, AddressTaken;
  }

  /** In the least solution of the rewritten constraints a node points only where the labels permit. */
  lemma LeastIsPermitted(cs: seq<Constraint>, size: nat, log: seq<Component>, labels: map<nat, nat>, rep: seq<nat>, rev: seq<nat>,
                         cs2: seq<Constraint>, n: nat, o: nat)
    requires Setting(cs, size, log, labels, rep, rev) && Rewritten(size, labels, rep, rev, cs, cs2)
    requires o in At(Least(cs2, rep), n)
    ensures Permits(cs, size, log, n, o)
  {
    var r := Least(cs2, rep);
    LeastSolvesRewritten(cs, size, log, labels, rep, rev, cs2);
    TrimSolves(cs, size, log, labels, rep, rev, cs2, r);
    LeastIsLeast(cs2, rep, Trim(cs, size, log, r));
    TrimAt(cs, size, log, r, n, o);
  }

  // ----- The least solution of the rewritten constraints solves the constraints -----

  ghost predicate Permitted(cs: seq<Constraint>, size: nat, log: seq<Component>, r: PtsGraph) {
    forall n: nat, o | o in At(r, n) :: Permits(cs, size, log, n, o)
  }

  lemma OneBack(cs: seq<Constraint>, size: nat, log: seq<Component>, labels: map<nat, nat>, rep: seq<nat>, rev: seq<nat>,
                cs2: seq<Constraint>, r: PtsGraph, c: Constraint)
    requires SolvesRewritten(cs, size, log, labels, rep, rev, cs2, r) && Permitted(cs, size, log, r) && c in cs
    ensures Holds(r, c)
  {
    var a := Pointer(c);
    assert c.dest < size && c.src < size && |rep| == size;
    hide At, Rewrite, Permits, Singleton;
    if !c.ty.AddrOf? && At(r, a) == {} {
      return;
    }
    var o := c.src;
    if !c.ty.AddrOf? {
      o :| o in At(r, a);
      assert Permits(cs, size, log, a, o);
      HasLabel(cs, size, log, labels, a, o);
    }
    if !c.ty.Store? {
      FlowsToDest(cs, size, log, labels, c, o);
      HasLabel(cs, size, log, labels, c.dest, o);
    }
    var k := RewriteKeeps(cs, size, log, labels, rep, rev, c);
    forall b | b in Rewrite(size, labels, rep, rev, c) ensures Holds(r, b) {
      assert b in cs2;
    }
    if Plain(rep, c) in Rewrite(size, labels, rep, rev, c) {
      PlainHolds(r, rep, c);
    } else if !c.ty.AddrOf? && Singleton(cs, size, log, rep, a, k) {
      PointsToOne(cs, size, log, labels, rep, r, a, k);
      hide SolvesRewritten, Permitted;
      assert Respects(r, rep) && k < |rep|;
      ResolvedHoldsBack(r, rep, c, k);
    } else {
      assert At(r, c.src) == At(r, rep[c.src]) && At(r, c.dest) == At(r, rep[c.dest]);
    }
  }

  lemma HasLabel(cs: seq<Constraint>, size: nat, log: seq<Component>, labels: map<nat, nat>, n: nat, o: nat)
    requires Labelling(cs, size, log, labels) && Permits(cs, size, log, n, o)
    ensures LabelIn(labels, n) != 0
  {
  }

  lemma PointsToOne(cs: seq<Constraint>, size: nat, log: seq<Component>, labels: map<nat, nat>, rep: seq<nat>, r: PtsGraph, a: nat, k: nat)
    requires Labelling(cs, size, log, labels) && Permitted(cs, size, log, r) && Singleton(cs, size, log, rep, a, k) && a < size
    ensures At(r, a) <= {k} && k < |rep|
  {
    hide At;
    SingletonPermits(cs, size, log, labels, rep, a, k);
    hide Permits, Labelling, Singleton;
  }

  /** Rewriting changes nothing but the merges: the rewritten constraints have the least solution
      that the constraints have once the merged nodes are one. */
  lemma RewritingPreserves(cs: seq<Constraint>, size: nat, log: seq<Component>, labels: map<nat, nat>, rep: seq<nat>, rev: seq<nat>,
                           cs2: seq<Constraint>)
    requires Setting(cs, size, log, labels, rep, rev) && Rewritten(size, labels, rep, rev, cs, cs2)
    ensures forall n: nat :: At(Least(cs2, rep), n) == At(Least(cs, rep), n)
  {
    var r, l := Least(cs2, rep), Least(cs, rep);
    LeastSolvesRewritten(cs, size, log, labels, rep, rev, cs2);
    forall n: nat, o | o in At(r, n) ensures Permits(cs, size, log, n, o) {
      LeastIsPermitted(cs, size, log, labels, rep, rev, cs2, n, o);
    }
    forall c | c in cs ensures Holds(r, c) {
      OneBack(cs, size, log, labels, rep, rev, cs2, r, c);
    }
    LeastIsSolution(cs, rep);
    RewriteSound(cs, size, log, labels, rep, rev, cs2, l);
    LeastIsLeast(cs, rep, r);
    LeastIsLeast(cs2, rep, l);
  }
}
