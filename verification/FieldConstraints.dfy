/** Inclusion constraints with offsets, for the field-sensitive analysis. */
module FieldConstraints {
  import opened Constraints

  datatype FieldType = AddrOf | Copy | Load | Store | Gep

  /** dest = &src, dest = src, dest = *(src + off), *(dest + off) = src, dest = src + off. */
  datatype FieldConstraint = Cons(ty: FieldType, dest: nat, src: nat, off: nat)

  /** sz[o] is how many nodes of o's object there are from o on, 0 if o is no object node;
      i2p is the node of pointers made from integers, whose contents are not tracked. */
  datatype Layout = Layout(sz: seq<nat>, i2p: nat)

  predicate IsObject(ly: Layout, o: nat) {
    o < |ly.sz| && ly.sz[o] > 0
  }

  /** Field off of the object at o exists. */
  predicate Fits(ly: Layout, o: nat, off: nat) {
    o < |ly.sz| && off < ly.sz[o]
  }

  /** The fields of an object are object nodes that follow it. */
  ghost predicate LayoutOk(ly: Layout) {
    ly.i2p < |ly.sz| && forall o: nat, off: nat | Fits(ly, o, off) :: IsObject(ly, o + off)
  }

  /** Nothing is copied to or from i2p by a load or store. */
  predicate Tracked(ly: Layout, a: nat, b: nat) {
    a != ly.i2p && b != ly.i2p
  }

  ghost predicate FieldHolds(ly: Layout, p: PtsGraph, c: FieldConstraint) {
    match c.ty
    case AddrOf => c.src in At(p, c.dest)
    case Copy => At(p, c.src) <= At(p, c.dest)
    case Load => forall o | o in At(p, c.src) && Fits(ly, o, c.off) && Tracked(ly, o + c.off, c.dest) :: At(p, o + c.off) <= At(p, c.dest)
    case Store => forall o | o in At(p, c.dest) && Fits(ly, o, c.off) && Tracked(ly, o + c.off, c.src) :: At(p, c.src) <= At(p, o + c.off)
    case Gep => forall o | o in At(p, c.src) && Fits(ly, o, c.off) :: o + c.off in At(p, c.dest)
  }

  /** p solves the constraints and does not tell a node from its representative. */
  ghost predicate FieldSolution(ly: Layout, p: PtsGraph, cs: seq<FieldConstraint>, rep: seq<nat>) {
    (forall c | c in cs :: FieldHolds(ly, p, c)) && Respects(p, rep)
  }

  /** Constraints are between nodes, addresses are those of objects, and i2p is never copied. */
  predicate FieldInRange(ly: Layout, cs: seq<FieldConstraint>) {
    forall c | c in cs :: CanEnter(ly, c)
  }

  predicate CanEnter(ly: Layout, c: FieldConstraint) {
    c.dest < |ly.sz| && c.src < |ly.sz| && (c.ty.AddrOf? ==> IsObject(ly, c.src)) && (c.ty.Copy? ==> c.src != ly.i2p)
  }

  ghost predicate FieldForced(ly: Layout, cs: seq<FieldConstraint>, rep: seq<nat>, n: nat, o: nat) {
    forall q: PtsGraph | FieldSolution(ly, q, cs, rep) :: o in At(q, n)
  }

  ghost function FieldForcedPts(ly: Layout, cs: seq<FieldConstraint>, rep: seq<nat>, n: nat): set<nat> {
    set o: nat | o < |ly.sz| && FieldForced(ly, cs, rep, n, o)
  }

  /** What every solution that respects the merges agrees on. */
  ghost function FieldLeast(ly: Layout, cs: seq<FieldConstraint>, rep: seq<nat>): PtsGraph {
    map n: nat | n < |ly.sz| :: FieldForcedPts(ly, cs, rep, n)
  }

  lemma FieldLeastAt(ly: Layout, cs: seq<FieldConstraint>, rep: seq<nat>, n: nat, o: nat)
    requires n < |ly.sz|
    ensures o in At(FieldLeast(ly, cs, rep), n) <==> o < |ly.sz| && FieldForced(ly, cs, rep, n, o)
  {
  }

  lemma FieldLeastHolds(ly: Layout, cs: seq<FieldConstraint>, rep: seq<nat>, c: FieldConstraint)
    requires LayoutOk(ly) && FieldInRange(ly, cs) && c in cs
    ensures FieldHolds(ly, FieldLeast(ly, cs, rep), c)
  {
    var l := FieldLeast(ly, cs, rep);
    match c.ty
    case AddrOf =>
      forall q | FieldSolution(ly, q, cs, rep) ensures c.src in At(q, c.dest) {
        assert FieldHolds(ly, q, c);
      }
    case Copy =>
      forall x | x in At(l, c.src) ensures x in At(l, c.dest) {
        forall q | FieldSolution(ly, q, cs, rep) ensures x in At(q, c.dest) {
          assert FieldHolds(ly, q, c);
        }
      }
    case Load =>
      forall o, x | o in At(l, c.src) && Fits(ly, o, c.off) && Tracked(ly, o + c.off, c.dest) && x in At(l, o + c.off) ensures x in At(l, c.dest) {
        forall q | FieldSolution(ly, q, cs, rep) ensures x in At(q, c.dest) {
          assert FieldHolds(ly, q, c);
        }
      }
    case Store =>
      forall o, x | o in At(l, c.dest) && Fits(ly, o, c.off) && Tracked(ly, o + c.off, c.src) && x in At(l, c.src) ensures x in At(l, o + c.off) {
        assert IsObject(ly, o + c.off);
        forall q | FieldSolution(ly, q, cs, rep) ensures x in At(q, o + c.off) {
          assert FieldHolds(ly, q, c);
        }
      }
    case Gep =>
      forall o | o in At(l, c.src) && Fits(ly, o, c.off) ensures o + c.off in At(l, c.dest) {
        assert IsObject(ly, o + c.off);
        forall q | FieldSolution(ly, q, cs, rep) ensures o + c.off in At(q, c.dest) {
          assert FieldHolds(ly, q, c);
        }
      }
  }

  /** The least solution is a solution that respects the merges. */
  lemma FieldLeastIsSolution(ly: Layout, cs: seq<FieldConstraint>, rep: seq<nat>)
    requires LayoutOk(ly) && FieldInRange(ly, cs) && |rep| == |ly.sz| && IsRep(rep)
    ensures FieldSolution(ly, FieldLeast(ly, cs, rep), cs, rep)
  {
    var l := FieldLeast(ly, cs, rep);
    forall c | c in cs ensures FieldHolds(ly, l, c) {
      FieldLeastHolds(ly, cs, rep, c);
    }
    forall n: nat | n < |rep| ensures At(l, n) == At(l, rep[n]) {
      forall o: nat ensures o in At(l, n) <==> o in At(l, rep[n]) {
        FieldLeastAt(ly, cs, rep, n, o);
        FieldLeastAt(ly, cs, rep, rep[n], o);
      }
    }
  }

  /** No solution that respects the merges is smaller at any node. */
  lemma FieldLeastIsLeast(ly: Layout, cs: seq<FieldConstraint>, rep: seq<nat>, q: PtsGraph)
    requires FieldSolution(ly, q, cs, rep)
    ensures Below(FieldLeast(ly, cs, rep), q)
  {
    forall n: nat, o: nat | o in At(FieldLeast(ly, cs, rep), n) ensures o in At(q, n) {
      FieldLeastAt(ly, cs, rep, n, o);
    }
  }
}
