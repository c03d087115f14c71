/** What HU's labels mean for the constraints: it evaluates unions, and never finds that a pointer can point to one object only. */
module HashUnions {
  import opened Constraints
  import opened Graphs
  import opened PredecessorGraphs
  import opened Labels
  import opened Rewriting
  import opened PointerEquivalence
  import opened ConstraintOptimize

  /** The same components with a value of their own flow into x and y, some at least, and both or neither are in one. */
  ghost predicate SameValue(cs: seq<Constraint>, size: nat, log: seq<Component>, x: nat, y: nat) {
    && x in Done(log) && y in Done(log) && Sources(cs, size, log, x) == Sources(cs, size, log, y) != {}
    && (IsDirect(cs, size, log, x) <==> IsDirect(cs, size, log, y))
  }

  lemma SameLabelIs(cs: seq<Constraint>, size: nat, log: seq<Component>, labels: map<nat, nat>, x: nat, y: nat)
    requires LabelsOf(cs, size, HU, log, labels) && Labelling(cs, size, log, labels)
    ensures LabelIn(labels, x) == LabelIn(labels, y) != 0 <==> SameValue(cs, size, log, x, y)
  {
    var s :| OptInv(cs, size, HU, s, log) && LabelsOfState(s, log, labels);
    hide OptInv, SccOrder, Sources, IsDirect, Lab, Done;
    if x in labels && y in labels {
      HuLabelsAreSources(cs, size, s, log, x, y);
    }
  }

  lemma IfRespects(cs: seq<Constraint>, size: nat, log: seq<Component>, labels: map<nat, nat>, rep: seq<nat>, l: PtsGraph)
    requires LabelsOf(cs, size, HU, log, labels) && Labelling(cs, size, log, labels) && Merges(size, labels, rep)
    ensures Respects(l, rep) <==> forall x: nat, y: nat | x < size && y < size && SameValue(cs, size, log, x, y) :: At(l, x) == At(l, y)
  {
    hide Labelling, LabelsOf, SameValue, At, LabelIn;
    if forall x: nat, y: nat | x < size && y < size && SameValue(cs, size, log, x, y) :: At(l, x) == At(l, y) {
      forall n: nat | n < size ensures At(l, n) == At(l, rep[n]) {
        SameLabelIs(cs, size, log, labels, rep[n], n);
      }
    }
    if Respects(l, rep) {
      forall x: nat, y: nat | x < size && y < size && SameValue(cs, size, log, x, y) ensures At(l, x) == At(l, y) {
        SameLabelIs(cs, size, log, labels, x, y);
        assert At(l, x) == At(l, rep[x]) && At(l, y) == At(l, rep[y]);
      }
    }
  }

  /** HU's merges and rewriting change no points-to set exactly if nodes with the same value have the same
      set in the least solution; which nodes do the predecessor graph says. */
  lemma HuIsExactIf(cs: seq<Constraint>, size: nat, log: seq<Component>, labels: map<nat, nat>, rep: seq<nat>, rev: seq<nat>,
                    cs2: seq<Constraint>)
    requires LabelsOf(cs, size, HU, log, labels)
    requires Setting(cs, size, log, labels, rep, rev) && Rewritten(size, labels, rep, rev, cs, cs2)
    ensures var l := Least(cs, Identity(size));
      (forall n: nat :: At(Least(cs2, rep), Find(rep, n)) == At(l, n))
      <==> forall x: nat, y: nat | x < size && y < size && SameValue(cs, size, log, x, y) :: At(l, x) == At(l, y)
  {
    ExactIfEqual(cs, size, log, labels, rep, rev, cs2);
    assert Labelling(cs, size, log, labels) && Merges(size, labels, rep);
    hide Least, Labelling, LabelsOf, Rewritten, Reverses, SameValue, At, LabelIn, Merges, Setting, Respects;
    IfRespects(cs, size, log, labels, rep, Least(cs, Identity(size)));
  }

  /** No ADR node has the label of a VAR node. */
  lemma HuNoAdr(cs: seq<Constraint>, size: nat, log: seq<Component>, labels: map<nat, nat>, rep: seq<nat>, a: nat, t: nat)
    requires LabelsOf(cs, size, HU, log, labels) && Labelling(cs, size, log, labels) && a < size && LabelIn(labels, a) != 0
    ensures !IsAdr(size, labels, rep, t, LabelIn(labels, a))
  {
    hide OptInv, Lab, Sources, SccOrder, Done, InRange, Preds, PredGraph;
    var s :| OptInv(cs, size, HU, s, log) && LabelsOfState(s, log, labels);
    assert InRange(cs, size) && SccOrder(PredGraph(cs, size), log) && a in labels;
    if t in labels && 2 * size <= t < 3 * size {
      assert LabelIn(labels, a) == Lab(s, log, a) && labels[t] == Lab(s, log, t) && a in Done(log) && t in Done(log);
      hide *;
      HuAdrsApart(cs, size, s, log, a, t - 2 * size);
      assert t - 2 * size + 2 * size == t;
    }
  }

  lemma LookupPlain(size: nat, labels: map<nat, nat>, rep: seq<nat>, rev: seq<nat>, a: nat)
    requires Merges(size, labels, rep) && Reverses(size, labels, rep, rev) && a < size && LabelIn(labels, a) != 0
    requires forall t: nat :: !IsAdr(size, labels, rep, t, LabelIn(labels, a))
    ensures rep[a] < size && LabelIn(labels, rep[a]) == LabelIn(labels, a) && Lookup(rev, LabelIn(labels, rep[a])) == rep[a]
  {
    hide LabelIn, IsAdr;
    if rep[a] != a {
      assert LabelIn(labels, rep[a]) == LabelIn(labels, a);
    }
  }

  /** So the table lookup yields the representative. */
  lemma HuLooksUp(cs: seq<Constraint>, size: nat, log: seq<Component>, labels: map<nat, nat>, rep: seq<nat>, rev: seq<nat>, a: nat)
    requires LabelsOf(cs, size, HU, log, labels) && Setting(cs, size, log, labels, rep, rev) && a < size && LabelIn(labels, a) != 0
    ensures rep[a] < size && LabelIn(labels, rep[a]) == LabelIn(labels, a) && Lookup(rev, LabelIn(labels, rep[a])) == rep[a]
  {
    hide LabelsOf, Labelling, Merges, Reverses, LabelIn, Lookup, IsAdr;
    forall t: nat ensures !IsAdr(size, labels, rep, t, LabelIn(labels, a)) {
      HuNoAdr(cs, size, log, labels, rep, a, t);
    }
    LookupPlain(size, labels, rep, rev, a);
  }

  lemma RewrittenPlainly(size: nat, labels: map<nat, nat>, rep: seq<nat>, rev: seq<nat>, c: Constraint, b: Constraint)
    requires size > 0 && |rep| == size && c.dest < size && c.src < size && b in Rewrite(size, labels, rep, rev, c)
    requires var p := rep[Pointer(c)];
      p < size && (!c.ty.AddrOf? && LabelIn(labels, p) != 0 ==> Lookup(rev, LabelIn(labels, p)) == p)
    requires c.ty.Store? ==> LabelIn(labels, rep[c.dest]) != 0
    ensures b == Plain(rep, c)
  {
    hide LabelIn, Lookup, VarOf;
  }

  /** And HU merges nodes and drops constraints, but no load or store becomes a copy and no copy an address. */
  lemma HuKeepsForms(cs: seq<Constraint>, size: nat, log: seq<Component>, labels: map<nat, nat>, rep: seq<nat>, rev: seq<nat>,
                     c: Constraint, b: Constraint)
    requires LabelsOf(cs, size, HU, log, labels) && Setting(cs, size, log, labels, rep, rev) && c in cs && b in Rewrite(size, labels, rep, rev, c)
    ensures b == Plain(rep, c)
  {
    var a := Pointer(c);
    HasDest(size, labels, rep, rev, c, b);
    MergedLabel(cs, size, log, labels, rep, rev, c, a);
    hide LabelsOf, Lookup, VarOf, Setting, LabelIn, Rewrite;
    if LabelIn(labels, a) != 0 {
      HuLooksUp(cs, size, log, labels, rep, rev, a);
    }
    RewrittenPlainly(size, labels, rep, rev, c, b);
  }

  lemma HasDest(size: nat, labels: map<nat, nat>, rep: seq<nat>, rev: seq<nat>, c: Constraint, b: Constraint)
    requires size > 0 && b in Rewrite(size, labels, rep, rev, c)
    ensures LabelIn(labels, c.dest) != 0
  {
  }

  lemma MergedLabel(cs: seq<Constraint>, size: nat, log: seq<Component>, labels: map<nat, nat>, rep: seq<nat>, rev: seq<nat>,
                    c: Constraint, a: nat)
    requires Setting(cs, size, log, labels, rep, rev) && c in cs && a == Pointer(c)
    ensures |rep| == size && c.dest < size && c.src < size && rep[a] < size && LabelIn(labels, rep[a]) == LabelIn(labels, a)
  {
    hide SccOrder, Sources, LabelIn, Reverses, PredGraph;
  }
}
