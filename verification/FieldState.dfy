/** The state of the field-sensitive solver, its steps on values, and what they keep. */
module FieldStates {
  import opened Constraints
  import opened FieldConstraints

  type Sets = seq<set<nat>>

  /** The three lists of complex constraints that a node has. */
  datatype Kind = KLoad | KStore | KGep

  /** prev is the part of pts that was propagated; lists hold indices into cplx; root[n] is get_node_rep(n);
      hcd maps a pointer to the variable its pointees were found to be on a cycle with. */
  datatype FState = FState(root: seq<nat>, pts: Sets, prev: Sets, copies: Sets,
                           loads: Sets, stores: Sets, geps: Sets, cplx: seq<FieldConstraint>, hcd: map<nat, nat>)

  function List(v: FState, k: Kind): Sets {
    match k case KLoad => v.loads case KStore => v.stores case KGep => v.geps
  }

  predicate IsKind(k: Kind, c: FieldConstraint) {
    match k case KLoad => c.ty.Load? case KStore => c.ty.Store? case KGep => c.ty.Gep?
  }

  /** The node whose points-to set a complex constraint waits for. */
  function Pointer(c: FieldConstraint): nat {
    if c.ty.Store? then c.dest else c.src
  }

  function Live(v: FState): set<nat> {
    set n | 0 <= n < |v.root| && v.root[n] == n
  }

  function Rep(v: FState, n: nat): nat {
    Find(v.root, n)
  }

  ghost predicate Sizes(ly: Layout, v: FState) {
    && |v.root| == |v.pts| == |v.prev| == |v.copies| == |v.loads| == |v.stores| == |v.geps| == |ly.sz|
    && LayoutOk(ly) && IsRep(v.root) && !IsObject(ly, 0)
    && forall n | 0 <= n < |v.root| :: (v.root[n] == ly.i2p <==> n == ly.i2p) && (v.root[n] == 0 <==> n == 0)
  }

  ghost predicate DataOk(ly: Layout, v: FState)
    requires Sizes(ly, v)
  {
    && (forall n, o | 0 <= n < |v.pts| && o in v.pts[n] :: IsObject(ly, o))
    && (forall n, e | 0 <= n < |v.copies| && e in v.copies[n] :: e < |ly.sz|)
    && (forall n | 0 <= n < |v.root| && v.root[n] != n :: v.pts[n] == {} && v.copies[n] == {})
    && (forall n | 0 <= n < |v.root| :: v.prev[n] <= v.pts[n])
    && v.copies[ly.i2p] == {} && v.copies[0] == {}
    && TargetsOk(ly, v.hcd)
  }

  /** No pointer is mapped to node 0, which stands for none, or to i2p. */
  ghost predicate TargetsOk(ly: Layout, hcd: map<nat, nat>) {
    forall n | n in hcd :: n < |ly.sz| && 0 < hcd[n] < |ly.sz| && hcd[n] != ly.i2p
  }

  ghost predicate ListsOk(ly: Layout, v: FState)
    requires Sizes(ly, v)
  {
    forall k, n, id | 0 <= n < |List(v, k)| && id in List(v, k)[n] :: ListedOk(ly, v, k, n, id)
  }

  /** The constraint id is of kind k and waits for n. */
  ghost predicate ListedOk(ly: Layout, v: FState, k: Kind, n: nat, id: nat) {
    && id < |v.cplx| && IsKind(k, v.cplx[id])
    && 0 < v.cplx[id].dest < |ly.sz| && 0 < v.cplx[id].src < |ly.sz| && Rep(v, Pointer(v.cplx[id])) == n
  }

  ghost predicate WellFormed(ly: Layout, v: FState) {
    Sizes(ly, v) && DataOk(ly, v) && ListsOk(ly, v)
  }

  /** What a has, b has: by a copy edge, or because nothing need be copied. */
  ghost predicate HasEdge(ly: Layout, v: FState, a: nat, b: nat) {
    a == b || !Tracked(ly, a, b) || (a < |v.copies| && exists e | e in v.copies[a] :: Rep(v, e) == b)
  }

  /** Constraint c was applied to the pointees in s. */
  ghost predicate Applied(ly: Layout, v: FState, c: FieldConstraint, s: set<nat>) {
    forall o | o in s && Fits(ly, o, c.off) :: AppliedTo(ly, v, c, o)
  }

  ghost predicate AppliedTo(ly: Layout, v: FState, c: FieldConstraint, o: nat) {
    match c.ty
    case Load => HasEdge(ly, v, Rep(v, o + c.off), Rep(v, c.dest))
    case Store => HasEdge(ly, v, Rep(v, c.src), Rep(v, o + c.off))
    case Gep => Rep(v, c.dest) < |v.pts| && o + c.off in v.pts[Rep(v, c.dest)]
    case _ => true
  }

  ghost predicate Copied(v: FState, n: nat, s: set<nat>)
    requires n < |v.copies|
  {
    forall e | e in v.copies[n] :: Rep(v, e) < |v.pts| && s <= v.pts[Rep(v, e)]
  }

  /** The pointees in s were merged with what hcd maps n to. */
  ghost predicate Together(ly: Layout, v: FState, n: nat, s: set<nat>) {
    n in v.hcd ==> forall o | o in s && o != ly.i2p :: Rep(v, o) == Rep(v, v.hcd[n])
  }

  /** A load or store without an offset. */
  predicate Plain(c: FieldConstraint) {
    (c.ty.Load? || c.ty.Store?) && c.off == 0
  }

  /** No plain constraint is listed with n. */
  ghost predicate NonePlain(v: FState, n: nat) {
    forall k, id | n < |List(v, k)| && id in List(v, k)[n] && id < |v.cplx| :: !Plain(v.cplx[id])
  }

  /** They were, and every plain constraint on n was replaced by the one edge that does for all of them. */
  ghost predicate Collapsed(ly: Layout, v: FState, n: nat, s: set<nat>) {
    Together(ly, v, n, s) && (n in v.hcd && s != {} ==> NonePlain(v, n))
  }

  /** The constraints on n were applied to the pointees in s, and s was copied along its edges and collapsed. */
  ghost predicate ClosedFor(ly: Layout, v: FState, n: nat, s: set<nat>)
    requires Sizes(ly, v) && ListsOk(ly, v) && n < |v.root|
  {
    && Copied(v, n, s) && Collapsed(ly, v, n, s)
    && (forall k, id | id in List(v, k)[n] :: ListedOk(ly, v, k, n, id) && Applied(ly, v, v.cplx[id], s))
  }

  /** Representatives are closed for what was propagated, and for all if they are not open. */
  ghost predicate LoopInv(ly: Layout, v: FState, open: set<nat>) {
    && WellFormed(ly, v)
    && forall m | m in Live(v) :: ClosedFor(ly, v, m, v.prev[m]) && (m !in open ==> ClosedFor(ly, v, m, v.pts[m]))
  }

  /** The same while n is being solved: for n, s stands for what was propagated before, and
      prev[n] is what will have been. */
  ghost predicate NodeInv(ly: Layout, v: FState, open: set<nat>, n: nat, s: set<nat>) {
    && WellFormed(ly, v) && n in Live(v) && s <= v.pts[n] && (n !in open ==> v.pts[n] == v.prev[n])
    && (forall m | m in Live(v) && m != n :: ClosedFor(ly, v, m, v.prev[m]) && (m !in open ==> ClosedFor(ly, v, m, v.pts[m])))
    && ClosedFor(ly, v, n, s)
  }

  /** Nothing in the state goes beyond the points-to graph q. */
  ghost predicate Sound(v: FState, q: PtsGraph) {
    && Respects(q, v.root)
    && (forall n, o | 0 <= n < |v.pts| && o in v.pts[n] :: o in At(q, n))
    && (forall n, e | 0 <= n < |v.copies| && e in v.copies[n] :: At(q, n) <= At(q, e))
  }

  /** One of the nodes is an object other than i2p. */
  ghost predicate MeetsObject(ly: Layout, s: set<nat>) {
    exists o :: o in s && IsObject(ly, o) && o != ly.i2p
  }

  ghost predicate SameCons(v: FState, c: FieldConstraint, d: FieldConstraint) {
    c.ty == d.ty && c.off == d.off && Rep(v, c.dest) == Rep(v, d.dest) && Rep(v, c.src) == Rep(v, d.src)
  }

  function KindOf(c: FieldConstraint): Kind {
    match c.ty case Load => KLoad case Store => KStore case _ => KGep
  }

  /** The edge between the destination or source of a load or store and what hcd maps its pointer to:
      it does for all pointees, as they are merged. */
  ghost predicate ByHcd(ly: Layout, v: FState, c: FieldConstraint) {
    && Plain(c) && Rep(v, Pointer(c)) in v.hcd
    && var h := Rep(v, v.hcd[Rep(v, Pointer(c))]);
       if c.ty.Load? then HasEdge(ly, v, h, Rep(v, c.dest)) else HasEdge(ly, v, Rep(v, c.src), h)
  }

  /** The state still says what the constraint says. */
  ghost predicate Covers(ly: Layout, v: FState, c: FieldConstraint)
    requires Sizes(ly, v) && c.dest < |v.root| && c.src < |v.root|
  {
    Stated(ly, v, c) || ByHcd(ly, v, c)
  }

  /** It says so by a fact, an edge or a listed constraint. */
  ghost predicate Stated(ly: Layout, v: FState, c: FieldConstraint)
    requires Sizes(ly, v) && c.dest < |v.root| && c.src < |v.root|
  {
    match c.ty
    case AddrOf => c.src in v.pts[v.root[c.dest]]
    case Copy => v.root[c.src] == v.root[c.dest] || exists e | e in v.copies[v.root[c.src]] :: Rep(v, e) == v.root[c.dest]
    case _ => exists id | id in List(v, KindOf(c))[v.root[Pointer(c)]] :: id < |v.cplx| && SameCons(v, v.cplx[id], c)
  }

  ghost predicate CoversAll(ly: Layout, v: FState, cs: seq<FieldConstraint>)
    requires Sizes(ly, v)
  {
    forall c | c in cs :: c.dest < |v.root| && c.src < |v.root| && Covers(ly, v, c)
  }

  /** The points-to graph the state stands for. */
  function Meaning(v: FState): PtsGraph {
    map n: nat | n < |v.root| :: if v.root[n] < |v.pts| then v.pts[v.root[n]] else {}
  }

  // ----- An emptied worklist means all constraints hold -----

  lemma EdgeCopies(ly: Layout, v: FState, a: nat, b: nat)
    requires WellFormed(ly, v) && a in Live(v) && b < |v.root| && HasEdge(ly, v, a, b) && Tracked(ly, a, b) && ClosedFor(ly, v, a, v.pts[a])
    ensures v.pts[a] <= v.pts[b]
  {
    hide DataOk, ListsOk, LayoutOk, Applied;
  }

  lemma MeaningAt(ly: Layout, v: FState, n: nat)
    requires Sizes(ly, v) && n < |v.root|
    ensures v.root[n] in Live(v) && At(Meaning(v), n) == v.pts[v.root[n]]
  {
  }

  /** A pointee that was merged with h has h's edges. */
  lemma ByHcdApplied(ly: Layout, v: FState, c: FieldConstraint, n: nat, o: nat)
    requires LoopInv(ly, v, {}) && n in Live(v) && c.dest < |v.root| && c.src < |v.root|
    requires ByHcd(ly, v, c) && n == v.root[Pointer(c)] && o in v.pts[n] && Fits(ly, o, c.off)
    ensures AppliedTo(ly, v, c, o)
  {
    assert ClosedFor(ly, v, n, v.pts[n]) && Collapsed(ly, v, n, v.pts[n]);
    assert Rep(v, ly.i2p) == ly.i2p;
    hide LoopInv, ClosedFor, WellFormed;
  }

  lemma ListedApplied(ly: Layout, v: FState, k: Kind, n: nat, c: FieldConstraint) returns (id: nat)
    requires LoopInv(ly, v, {}) && n in Live(v) && c.dest < |v.root| && c.src < |v.root| && Stated(ly, v, c)
    requires !c.ty.AddrOf? && !c.ty.Copy? && k == KindOf(c) && n == v.root[Pointer(c)]
    ensures id < |v.cplx| && SameCons(v, v.cplx[id], c)
    ensures forall o | o in v.pts[n] && Fits(ly, o, c.off) :: AppliedTo(ly, v, v.cplx[id], o)
  {
    id :| id in List(v, k)[n] && id < |v.cplx| && SameCons(v, v.cplx[id], c);
    assert ClosedFor(ly, v, n, v.pts[n]);
    assert Applied(ly, v, v.cplx[id], v.pts[n]);
    hide LoopInv, WellFormed, Stated, AppliedTo, ByHcd;
  }

  lemma SameAppliedTo(ly: Layout, v: FState, c: FieldConstraint, d: FieldConstraint, o: nat)
    requires SameCons(v, d, c) && AppliedTo(ly, v, d, o)
    ensures AppliedTo(ly, v, c, o)
  {
  }

  /** What is not open is done. */
  lemma Known(ly: Layout, v: FState, k: Kind, n: nat, c: FieldConstraint)
    requires LoopInv(ly, v, {}) && n in Live(v) && c.dest < |v.root| && c.src < |v.root| && Covers(ly, v, c)
    requires !c.ty.AddrOf? && !c.ty.Copy? && k == KindOf(c) && n == v.root[Pointer(c)]
    ensures forall o | o in v.pts[n] && Fits(ly, o, c.off) :: AppliedTo(ly, v, c, o)
  {
    assert n < |v.pts|;
    hide LoopInv, AppliedTo, ByHcd, Fits, Stated, SameCons;
    if ByHcd(ly, v, c) {
      forall o | o in v.pts[n] && Fits(ly, o, c.off) ensures AppliedTo(ly, v, c, o) {
        ByHcdApplied(ly, v, c, n, o);
      }
    } else {
      var id := ListedApplied(ly, v, k, n, c);
      assert c.off == v.cplx[id].off by {
        SameOff(v, v.cplx[id], c);
      }
      forall o | o in v.pts[n] && Fits(ly, o, c.off) ensures AppliedTo(ly, v, c, o) {
        SameAppliedTo(ly, v, c, v.cplx[id], o);
      }
    }
  }

  lemma SameOff(v: FState, c: FieldConstraint, d: FieldConstraint)
    requires SameCons(v, c, d)
    ensures c.off == d.off
  {
  }

  lemma OpenNone(ly: Layout, v: FState, n: nat)
    requires LoopInv(ly, v, {}) && n in Live(v)
    ensures WellFormed(ly, v) && ClosedFor(ly, v, n, v.pts[n])
  {
  }

  lemma LoadedAt(ly: Layout, v: FState, c: FieldConstraint, s: nat, d: nat, o: nat)
    requires LoopInv(ly, v, {}) && s in Live(v) && d in Live(v) && Fits(ly, o, c.off) && o + c.off != ly.i2p && d != ly.i2p
    requires HasEdge(ly, v, Rep(v, o + c.off), d)
    ensures At(Meaning(v), o + c.off) <= v.pts[d]
  {
    hide LoopInv, ClosedFor, DataOk, ListsOk, Meaning;
    OpenNone(ly, v, s);
    FieldOf(ly, v, s, o, c.off);
    OpenNone(ly, v, v.root[o + c.off]);
    EdgeCopies(ly, v, v.root[o + c.off], d);
  }

  lemma StoredAt(ly: Layout, v: FState, c: FieldConstraint, s: nat, o: nat)
    requires LoopInv(ly, v, {}) && s in Live(v) && Fits(ly, o, c.off) && o + c.off != ly.i2p && s != ly.i2p
    requires HasEdge(ly, v, s, Rep(v, o + c.off))
    ensures v.pts[s] <= At(Meaning(v), o + c.off)
  {
    hide LoopInv, ClosedFor, DataOk, ListsOk, Meaning;
    OpenNone(ly, v, s);
    FieldOf(ly, v, s, o, c.off);
    EdgeCopies(ly, v, s, v.root[o + c.off]);
  }

  lemma RepFacts(ly: Layout, v: FState, open: set<nat>, n: nat)
    requires LoopInv(ly, v, open) && n < |v.root|
    ensures Sizes(ly, v) && |v.root| == |v.pts| == |v.prev| == |v.copies| == |v.loads| == |v.stores| == |v.geps| == |ly.sz|
    ensures v.root[n] in Live(v) && Rep(v, n) == v.root[n] && (v.root[n] == ly.i2p <==> n == ly.i2p)
  {
  }

  lemma LoadHolds(ly: Layout, v: FState, c: FieldConstraint)
    requires LoopInv(ly, v, {}) && c.dest < |v.root| && c.src < |v.root| && Covers(ly, v, c) && c.ty.Load?
    ensures FieldHolds(ly, Meaning(v), c)
  {
    hide LoopInv, Meaning, HasEdge, Sizes, Covers;
    var s, d := v.root[c.src], v.root[c.dest];
    RepFacts(ly, v, {}, c.src);
    RepFacts(ly, v, {}, c.dest);
    MeaningAt(ly, v, c.src);
    MeaningAt(ly, v, c.dest);
    Known(ly, v, KLoad, s, c);
    forall o | o in v.pts[s] && Fits(ly, o, c.off) && Tracked(ly, o + c.off, c.dest) ensures At(Meaning(v), o + c.off) <= v.pts[d] {
      assert AppliedTo(ly, v, c, o);
      LoadedAt(ly, v, c, s, d, o);
    }
  }

  lemma StoreHolds(ly: Layout, v: FState, c: FieldConstraint)
    requires LoopInv(ly, v, {}) && c.dest < |v.root| && c.src < |v.root| && Covers(ly, v, c) && c.ty.Store?
    ensures FieldHolds(ly, Meaning(v), c)
  {
    hide LoopInv, Meaning, HasEdge, Sizes, Covers;
    var s, d := v.root[c.src], v.root[c.dest];
    RepFacts(ly, v, {}, c.src);
    RepFacts(ly, v, {}, c.dest);
    MeaningAt(ly, v, c.src);
    MeaningAt(ly, v, c.dest);
    Known(ly, v, KStore, d, c);
    forall o | o in v.pts[d] && Fits(ly, o, c.off) && Tracked(ly, o + c.off, c.src) ensures v.pts[s] <= At(Meaning(v), o + c.off) {
      assert AppliedTo(ly, v, c, o);
      StoredAt(ly, v, c, s, o);
    }
  }

  lemma ClosedHolds(ly: Layout, v: FState, c: FieldConstraint)
    requires LoopInv(ly, v, {}) && c.dest < |v.root| && c.src < |v.root| && Covers(ly, v, c)
    ensures FieldHolds(ly, Meaning(v), c)
  {
    var s, d := v.root[c.src], v.root[c.dest];
    MeaningAt(ly, v, c.src);
    MeaningAt(ly, v, c.dest);
    match c.ty
    case AddrOf =>
    case Copy => assert ClosedFor(ly, v, s, v.pts[s]);
    case Load => LoadHolds(ly, v, c);
    case Store => StoreHolds(ly, v, c);
    case Gep =>
      Known(ly, v, KGep, s, c);
      hide LoopInv, WellFormed, Covers, Meaning;
      forall o | o in v.pts[s] && Fits(ly, o, c.off) ensures o + c.off in v.pts[d] {
        assert AppliedTo(ly, v, c, o);
      }
  }

  lemma FieldOf(ly: Layout, v: FState, n: nat, o: nat, off: nat)
    requires Sizes(ly, v) && Fits(ly, o, off) && o + off != ly.i2p
    ensures o + off < |v.root| && v.root[o + off] != ly.i2p && v.root[o + off] in Live(v)
    ensures At(Meaning(v), o + off) == v.pts[v.root[o + off]]
  {
    assert IsObject(ly, o + off);
  }

  lemma SoundIsBelow(ly: Layout, v: FState, q: PtsGraph)
    requires Sizes(ly, v) && Sound(v, q)
    ensures Below(Meaning(v), q)
  {
    forall n: nat, o | o in At(Meaning(v), n) ensures o in At(q, n) {
      assert o in v.pts[v.root[n]];
      assert At(q, n) == At(q, v.root[n]);
    }
  }

  /** With nothing open the state solves the constraints. */
  lemma ClosedSolves(ly: Layout, v: FState, cs: seq<FieldConstraint>, rep: seq<nat>)
    requires LoopInv(ly, v, {}) && CoversAll(ly, v, cs)
    requires |rep| == |v.root| && IsRep(rep) && forall n | 0 <= n < |rep| :: v.root[rep[n]] == v.root[n]
    ensures FieldSolution(ly, Meaning(v), cs, rep)
  {
    assert Sizes(ly, v);
    forall c | c in cs ensures FieldHolds(ly, Meaning(v), c) {
      ClosedHolds(ly, v, c);
    }
    forall n: nat | n < |rep| ensures At(Meaning(v), n) == At(Meaning(v), rep[n]) {
    }
    hide LoopInv, CoversAll, Meaning;
  }
}
