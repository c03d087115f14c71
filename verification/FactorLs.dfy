/** Load/store factoring: n loads A = *(V + k) from one pair (V, k) become one load into a fresh
    node T and n copies A = T, and likewise for stores.
 */
module FactorLs {
  import opened Constraints
  import opened FieldConstraints

  const FACTOR_LS_MIN_SZ: nat := 2

  /** The dereferenced side of a load or store. */
  datatype Key = Key(ref: nat, off: nat)

  type Temps = map<Key, nat>

  /** The load x = *(ref + off), or the store *(ref + off) = x. */
  function Complex(load: bool, k: Key, x: nat): FieldConstraint {
    if load then Cons(FieldType.Load, x, k.ref, k.off) else Cons(FieldType.Store, k.ref, x, k.off)
  }

  /** The copy x = t for a load, t = x for a store. */
  function Link(load: bool, x: nat, t: nat): FieldConstraint {
    if load then Cons(FieldType.Copy, x, t, 0) else Cons(FieldType.Copy, t, x, 0)
  }

  predicate IsComplex(c: FieldConstraint) {
    c.ty.Load? || c.ty.Store?
  }

  function KeyOf(c: FieldConstraint): Key {
    Key(if c.ty.Load? then c.src else c.dest, c.off)
  }

  function OtherOf(c: FieldConstraint): nat {
    if c.ty.Load? then c.dest else c.src
  }

  /** x is loaded from, or stored to, k somewhere in the list. */
  predicate IsOther(cs: seq<FieldConstraint>, load: bool, k: Key, x: nat) {
    Complex(load, k, x) in cs
  }

  /** c is what the factored list has for the pair k. */
  predicate From(cs: seq<FieldConstraint>, load: bool, temps: Temps, k: Key, c: FieldConstraint) {
    if k in temps then
      c == Complex(load, k, temps[k]) || exists x: nat | x in {c.dest, c.src} :: IsOther(cs, load, k, x) && c == Link(load, x, temps[k])
    else
      c in cs && IsComplex(c) && c.ty.Load? == load && KeyOf(c) == k
  }

  /** At least as many others as make factoring pay. */
  ghost predicate Worth(cs: seq<FieldConstraint>, load: bool, k: Key) {
    exists x: nat, y: nat :: IsOther(cs, load, k, x) && IsOther(cs, load, k, y) && x != y
  }

  /** c is in the factored list. */
  ghost predicate Listed(cs: seq<FieldConstraint>, lt: Temps, st: Temps, c: FieldConstraint) {
    || (c in cs && !IsComplex(c))
    || (exists k :: From(cs, true, lt, k, c))
    || (exists k :: From(cs, false, st, k, c))
  }

  /** c is in the factored list, written out by what c is. */
  ghost predicate Factored(cs: seq<FieldConstraint>, lt: Temps, st: Temps, c: FieldConstraint) {
    match c.ty
    case AddrOf => c in cs
    case Gep => c in cs
    case Load => if Key(c.src, c.off) in lt then c.dest == lt[Key(c.src, c.off)] else c in cs
    case Store => if Key(c.dest, c.off) in st then c.src == st[Key(c.dest, c.off)] else c in cs
    case Copy =>
      || c in cs
      || (c.off == 0 && exists k: Key :: k in lt && lt[k] == c.src && Cons(FieldType.Load, c.dest, k.ref, k.off) in cs)
      || (c.off == 0 && exists k: Key :: k in st && st[k] == c.dest && Cons(FieldType.Store, k.ref, c.src, k.off) in cs)
  }

  /** Two different nodes at least are loaded from the pair, or stored to it. */
  ghost predicate TwoLoads(cs: seq<FieldConstraint>, k: Key) {
    exists x: nat, y: nat :: x != y && Cons(FieldType.Load, x, k.ref, k.off) in cs && Cons(FieldType.Load, y, k.ref, k.off) in cs
  }

  ghost predicate TwoStores(cs: seq<FieldConstraint>, k: Key) {
    exists x: nat, y: nat :: x != y && Cons(FieldType.Store, k.ref, x, k.off) in cs && Cons(FieldType.Store, k.ref, y, k.off) in cs
  }

  lemma WorthIsTwo(cs: seq<FieldConstraint>, k: Key)
    ensures Worth(cs, true, k) <==> TwoLoads(cs, k)
    ensures Worth(cs, false, k) <==> TwoStores(cs, k)
  {
    if x: nat, y: nat :| IsOther(cs, true, k, x) && IsOther(cs, true, k, y) && x != y {
      assert Cons(FieldType.Load, x, k.ref, k.off) in cs && Cons(FieldType.Load, y, k.ref, k.off) in cs;
    }
    if x: nat, y: nat :| IsOther(cs, false, k, x) && IsOther(cs, false, k, y) && x != y {
      assert Cons(FieldType.Store, k.ref, x, k.off) in cs && Cons(FieldType.Store, k.ref, y, k.off) in cs;
    }
    if TwoLoads(cs, k) {
      var x: nat, y: nat :| x != y && Cons(FieldType.Load, x, k.ref, k.off) in cs && Cons(FieldType.Load, y, k.ref, k.off) in cs;
      assert IsOther(cs, true, k, x) && IsOther(cs, true, k, y);
    }
    if TwoStores(cs, k) {
      var x: nat, y: nat :| x != y && Cons(FieldType.Store, k.ref, x, k.off) in cs && Cons(FieldType.Store, k.ref, y, k.off) in cs;
      assert IsOther(cs, false, k, x) && IsOther(cs, false, k, y);
    }
  }

  lemma ListedComplex(cs: seq<FieldConstraint>, lt: Temps, st: Temps, c: FieldConstraint)
    requires IsComplex(c)
    ensures Listed(cs, lt, st, c) <==> Factored(cs, lt, st, c)
  {
    var load, k := c.ty.Load?, KeyOf(c);
    var mine := if load then lt else st;
    assert c == Complex(load, k, OtherOf(c));
    assert Listed(cs, lt, st, c) <==> exists j :: From(cs, load, mine, j, c);
    assert From(cs, load, mine, k, c) <==> Factored(cs, lt, st, c);
    assert forall j | From(cs, load, mine, j, c) :: j == k;
  }

  lemma ListedLink(cs: seq<FieldConstraint>, lt: Temps, st: Temps, c: FieldConstraint)
    requires c.ty.Copy?
    ensures Listed(cs, lt, st, c) <==> Factored(cs, lt, st, c)
  {
    forall k ensures From(cs, true, lt, k, c) <==>
      c.off == 0 && k in lt && lt[k] == c.src && Cons(FieldType.Load, c.dest, k.ref, k.off) in cs {
      assert IsOther(cs, true, k, c.dest) <==> Cons(FieldType.Load, c.dest, k.ref, k.off) in cs;
      if c.off == 0 && k in lt && lt[k] == c.src && Cons(FieldType.Load, c.dest, k.ref, k.off) in cs {
        assert c.dest in {c.dest, c.src} && c == Link(true, c.dest, lt[k]);
      }
    }
    forall k ensures From(cs, false, st, k, c) <==>
      c.off == 0 && k in st && st[k] == c.dest && Cons(FieldType.Store, k.ref, c.src, k.off) in cs {
      assert IsOther(cs, false, k, c.src) <==> Cons(FieldType.Store, k.ref, c.src, k.off) in cs;
      if c.off == 0 && k in st && st[k] == c.dest && Cons(FieldType.Store, k.ref, c.src, k.off) in cs {
        assert c.src in {c.dest, c.src} && c == Link(false, c.src, st[k]);
      }
    }
    hide From;
  }

  lemma ListedIsFactored(cs: seq<FieldConstraint>, lt: Temps, st: Temps, c: FieldConstraint)
    ensures Listed(cs, lt, st, c) <==> Factored(cs, lt, st, c)
  {
    if IsComplex(c) {
      ListedComplex(cs, lt, st, c);
    } else if c.ty.Copy? {
      ListedLink(cs, lt, st, c);
    }
  }

  /** The temporaries are different nodes from n0 on, one for each pair worth it. */
  ghost predicate Fresh(cs: seq<FieldConstraint>, lt: Temps, st: Temps, n0: nat, n1: nat) {
    && (forall k :: k in lt <==> Worth(cs, true, k))
    && (forall k :: k in st <==> Worth(cs, false, k))
    && Apart(lt, st, n0, n1)
  }

  lemma FreshSays(cs: seq<FieldConstraint>, lt: Temps, st: Temps, n0: nat, n1: nat, k: Key)
    requires Fresh(cs, lt, st, n0, n1)
    ensures (k in lt <==> Worth(cs, true, k)) && (k in st <==> Worth(cs, false, k))
  {
  }

  ghost predicate Apart(lt: Temps, st: Temps, n0: nat, n1: nat) {
    && n0 <= n1
    && (forall k | k in lt :: n0 <= lt[k] < n1)
    && (forall k | k in st :: n0 <= st[k] < n1)
    && (forall j, k | j in lt && k in lt && lt[j] == lt[k] :: j == k)
    && (forall j, k | j in st && k in st && st[j] == st[k] :: j == k)
    && (forall j, k | j in lt && k in st :: lt[j] != st[k])
  }

  /** No load or store mentions i2p on either side. */
  predicate NoI2p(ly: Layout, cs: seq<FieldConstraint>) {
    forall c | c in cs && IsComplex(c) :: c.dest != ly.i2p && c.src != ly.i2p
  }

  /** The new nodes are no objects, and stand for themselves. */
  function Widen(ly: Layout, n1: nat): (w: Layout)
    requires |ly.sz| <= n1
    ensures |w.sz| == n1 && w.i2p == ly.i2p
    ensures forall o: nat, off: nat :: Fits(w, o, off) <==> Fits(ly, o, off)
  {
    Layout(seq(n1, i requires 0 <= i < n1 => if i < |ly.sz| then ly.sz[i] else 0), ly.i2p)
  }

  function WidenRep(rep: seq<nat>, n1: nat): (w: seq<nat>)
    requires |rep| <= n1
    ensures |w| == n1 && forall i | 0 <= i < n1 :: w[i] == if i < |rep| then rep[i] else i
  {
    seq(n1, i requires 0 <= i < n1 => if i < |rep| then rep[i] else i)
  }

  /** What is loaded from k, and what is stored to it. */
  ghost predicate Flows(ly: Layout, p: PtsGraph, cs: seq<FieldConstraint>, load: bool, k: Key, x: nat) {
    if load then exists o :: o in At(p, k.ref) && Fits(ly, o, k.off) && o + k.off != ly.i2p && x in At(p, o + k.off)
    else exists b: nat :: IsOther(cs, false, k, b) && x in At(p, b)
  }

  ghost predicate InTemp(ly: Layout, p: PtsGraph, cs: seq<FieldConstraint>, lt: Temps, st: Temps, n: nat, x: nat) {
    || (exists k :: k in lt && lt[k] == n && Flows(ly, p, cs, true, k, x))
    || (exists k :: k in st && st[k] == n && Flows(ly, p, cs, false, k, x))
  }

  ghost function AllPts(p: PtsGraph): set<nat> {
    set n, x | n in p && x in p[n] :: x
  }

  /** p on the old nodes, and at each temporary what flows through it. */
  ghost function Extended(ly: Layout, p: PtsGraph, cs: seq<FieldConstraint>, lt: Temps, st: Temps, n1: nat): (q: PtsGraph)
    requires |ly.sz| <= n1
    ensures forall n: nat | n < |ly.sz| :: At(q, n) == At(p, n)
    ensures forall n: nat, x: nat | |ly.sz| <= n < n1 :: x in At(q, n) <==> InTemp(ly, p, cs, lt, st, n, x)
  {
    var q := map n: nat | n < n1 :: if n < |ly.sz| then At(p, n) else set x | x in AllPts(p) && InTemp(ly, p, cs, lt, st, n, x);
    assert forall n: nat, x: nat | |ly.sz| <= n < n1 && InTemp(ly, p, cs, lt, st, n, x) :: x in AllPts(p);
    q
  }

  /** A constraint of the old list holds with the temporaries added. */
  lemma OldHolds(ly: Layout, p: PtsGraph, q: PtsGraph, cs: seq<FieldConstraint>, n1: nat, c: FieldConstraint)
    requires LayoutOk(ly) && FieldInRange(ly, cs) && c in cs && |ly.sz| <= n1
    requires forall n: nat | n < |ly.sz| :: At(q, n) == At(p, n)
    ensures FieldHolds(ly, p, c) <==> FieldHolds(Widen(ly, n1), q, c)
  {
    assert forall o: nat | Fits(ly, o, c.off) :: IsObject(ly, o + c.off) && At(q, o + c.off) == At(p, o + c.off);
  }

  /** What is at a load's temporary is loaded there, and nothing else. */
  lemma AtTemp(ly: Layout, p: PtsGraph, cs: seq<FieldConstraint>, lt: Temps, st: Temps, n1: nat, load: bool, k: Key)
    requires Apart(lt, st, |ly.sz|, n1) && k in (if load then lt else st)
    ensures forall x: nat :: x in At(Extended(ly, p, cs, lt, st, n1), (if load then lt else st)[k]) <==> Flows(ly, p, cs, load, k, x)
  {
    var t := (if load then lt else st)[k];
    forall x: nat ensures InTemp(ly, p, cs, lt, st, t, x) <==> Flows(ly, p, cs, load, k, x) {
      hide Flows;
    }
  }

  /** q is p on the old nodes, and t holds what flows through k. */
  ghost predicate Through(ly: Layout, p: PtsGraph, q: PtsGraph, cs: seq<FieldConstraint>, load: bool, k: Key, t: nat) {
    && k.ref < |ly.sz| && |ly.sz| <= t && ly.i2p < |ly.sz|
    && (forall n: nat | n < |ly.sz| :: At(q, n) == At(p, n))
    && (forall x: nat :: x in At(q, t) <==> Flows(ly, p, cs, load, k, x))
    && (forall b: nat | IsOther(cs, load, k, b) :: b < |ly.sz| && b != ly.i2p && FieldHolds(ly, p, Complex(load, k, b)))
  }

  lemma TempLoads(ly: Layout, p: PtsGraph, q: PtsGraph, cs: seq<FieldConstraint>, n1: nat, k: Key, t: nat)
    requires LayoutOk(ly) && Through(ly, p, q, cs, true, k, t) && t < n1
    ensures FieldHolds(Widen(ly, n1), q, Complex(true, k, t))
    ensures forall b: nat | IsOther(cs, true, k, b) :: FieldHolds(Widen(ly, n1), q, Link(true, b, t))
  {
    forall o | o in At(q, k.ref) && Fits(ly, o, k.off) && Tracked(ly, o + k.off, t) ensures At(q, o + k.off) <= At(q, t) {
      assert IsObject(ly, o + k.off);
      assert forall x | x in At(q, o + k.off) :: Flows(ly, p, cs, true, k, x);
    }
    forall b: nat | IsOther(cs, true, k, b) ensures At(q, t) <= At(q, b) {
      var c := Complex(true, k, b);
      assert FieldHolds(ly, p, c) && c.ty.Load?;
    }
  }

  lemma TempStores(ly: Layout, p: PtsGraph, q: PtsGraph, cs: seq<FieldConstraint>, n1: nat, k: Key, t: nat)
    requires LayoutOk(ly) && Through(ly, p, q, cs, false, k, t) && t < n1
    ensures FieldHolds(Widen(ly, n1), q, Complex(false, k, t))
    ensures forall b: nat | IsOther(cs, false, k, b) :: FieldHolds(Widen(ly, n1), q, Link(false, b, t))
  {
    forall o, x | o in At(q, k.ref) && Fits(ly, o, k.off) && Tracked(ly, o + k.off, t) && x in At(q, t) ensures x in At(q, o + k.off) {
      assert IsObject(ly, o + k.off);
      assert Flows(ly, p, cs, false, k, x);
      var b: nat :| IsOther(cs, false, k, b) && x in At(p, b);
      var c := Complex(false, k, b);
      assert FieldHolds(ly, p, c) && c.ty.Store?;
    }
    forall b: nat | IsOther(cs, false, k, b) ensures At(q, b) <= At(q, t) {
      assert forall x | x in At(p, b) :: Flows(ly, p, cs, false, k, x);
    }
  }

  /** Whatever flows through the pair k is in what flows out of it. */
  lemma FactoredHolds(ly: Layout, p: PtsGraph, cs: seq<FieldConstraint>, rep: seq<nat>, lt: Temps, st: Temps, n1: nat, load: bool, k: Key, c: FieldConstraint)
    requires LayoutOk(ly) && FieldInRange(ly, cs) && NoI2p(ly, cs) && Fresh(cs, lt, st, |ly.sz|, n1)
    requires FieldSolution(ly, p, cs, rep)
    requires k in (if load then lt else st) && From(cs, load, if load then lt else st, k, c)
    ensures FieldHolds(Widen(ly, n1), Extended(ly, p, cs, lt, st, n1), c)
  {
    var q := Extended(ly, p, cs, lt, st, n1);
    var t := (if load then lt else st)[k];
    AtTemp(ly, p, cs, lt, st, n1, load, k);
    assert Worth(cs, load, k);
    forall b: nat | IsOther(cs, load, k, b) ensures k.ref < |ly.sz| && b < |ly.sz| && b != ly.i2p && FieldHolds(ly, p, Complex(load, k, b)) {
      var d := Complex(load, k, b);
      assert d in cs && IsComplex(d);
    }
    assert Through(ly, p, q, cs, load, k, t);
    hide Through, FieldHolds, Widen, Extended;
    if load {
      TempLoads(ly, p, q, cs, n1, k, t);
    } else {
      TempStores(ly, p, q, cs, n1, k, t);
    }
  }

  /** Every solution of the list extends to the temporaries. */
  lemma SolutionExtends(ly: Layout, p: PtsGraph, cs: seq<FieldConstraint>, rep: seq<nat>, lt: Temps, st: Temps, n1: nat, out: seq<FieldConstraint>)
    requires LayoutOk(ly) && FieldInRange(ly, cs) && NoI2p(ly, cs) && |rep| == |ly.sz| && IsRep(rep)
    requires Fresh(cs, lt, st, |ly.sz|, n1)
    requires forall c | c in out :: Listed(cs, lt, st, c)
    requires FieldSolution(ly, p, cs, rep)
    ensures FieldSolution(Widen(ly, n1), Extended(ly, p, cs, lt, st, n1), out, WidenRep(rep, n1))
  {
    var q := Extended(ly, p, cs, lt, st, n1);
    forall c | c in out ensures FieldHolds(Widen(ly, n1), q, c) {
      ListedHolds(ly, p, cs, rep, lt, st, n1, c);
    }
  }

  lemma ListedHolds(ly: Layout, p: PtsGraph, cs: seq<FieldConstraint>, rep: seq<nat>, lt: Temps, st: Temps, n1: nat, c: FieldConstraint)
    requires LayoutOk(ly) && FieldInRange(ly, cs) && NoI2p(ly, cs)
    requires Fresh(cs, lt, st, |ly.sz|, n1)
    requires Listed(cs, lt, st, c)
    requires FieldSolution(ly, p, cs, rep)
    ensures FieldHolds(Widen(ly, n1), Extended(ly, p, cs, lt, st, n1), c)
  {
    var q := Extended(ly, p, cs, lt, st, n1);
    if c in cs {
      OldHolds(ly, p, q, cs, n1, c);
    } else if k :| From(cs, true, lt, k, c) {
      FactoredHolds(ly, p, cs, rep, lt, st, n1, true, k, c);
    } else {
      var k :| From(cs, false, st, k, c);
      FactoredHolds(ly, p, cs, rep, lt, st, n1, false, k, c);
    }
  }

  /** Every solution of the factored list solves the original one on the old nodes. */
  lemma SolutionRestricts(ly: Layout, q: PtsGraph, cs: seq<FieldConstraint>, rep: seq<nat>, lt: Temps, st: Temps, n1: nat, out: seq<FieldConstraint>)
    requires LayoutOk(ly) && FieldInRange(ly, cs) && NoI2p(ly, cs) && |rep| == |ly.sz| && IsRep(rep)
    requires Fresh(cs, lt, st, |ly.sz|, n1)
    requires forall c | Listed(cs, lt, st, c) :: c in out
    requires FieldSolution(Widen(ly, n1), q, out, WidenRep(rep, n1))
    ensures FieldSolution(ly, q, cs, rep)
  {
    forall c | c in cs ensures FieldHolds(ly, q, c) {
      if IsComplex(c) {
        var load, k := c.ty.Load?, KeyOf(c);
        var temps := if load then lt else st;
        assert c == Complex(load, k, OtherOf(c)) && IsOther(cs, load, k, OtherOf(c));
        if k in temps {
          var t := temps[k];
          assert From(cs, load, temps, k, Complex(load, k, t)) && From(cs, load, temps, k, Link(load, OtherOf(c), t));
          assert Listed(cs, lt, st, Complex(load, k, t)) && Listed(cs, lt, st, Link(load, OtherOf(c), t));
          ThroughTemp(ly, q, cs, n1, load, k, OtherOf(c), t);
        } else {
          assert From(cs, load, temps, k, c) && Listed(cs, lt, st, c);
          OldHolds(ly, q, q, cs, n1, c);
        }
      } else {
        assert Listed(cs, lt, st, c);
        OldHolds(ly, q, q, cs, n1, c);
      }
    }
    forall n: nat | n < |rep| ensures At(q, n) == At(q, rep[n]) {
      assert WidenRep(rep, n1)[n] == rep[n];
    }
  }

  /** A load into a temporary and a copy out of it do what the load did. */
  lemma ThroughTemp(ly: Layout, q: PtsGraph, cs: seq<FieldConstraint>, n1: nat, load: bool, k: Key, b: nat, t: nat)
    requires LayoutOk(ly) && |ly.sz| <= t < n1
    requires ly.i2p < |ly.sz|
    requires FieldHolds(Widen(ly, n1), q, Complex(load, k, t)) && FieldHolds(Widen(ly, n1), q, Link(load, b, t))
    ensures FieldHolds(ly, q, Complex(load, k, b))
  {
  }

  /** The least solutions agree on every old node. */
  lemma FactoringPreserves(ly: Layout, cs: seq<FieldConstraint>, rep: seq<nat>, lt: Temps, st: Temps, n1: nat, out: seq<FieldConstraint>, n: nat)
    requires LayoutOk(ly) && FieldInRange(ly, cs) && NoI2p(ly, cs) && |rep| == |ly.sz| && IsRep(rep)
    requires Fresh(cs, lt, st, |ly.sz|, n1)
    requires forall c :: c in out <==> Listed(cs, lt, st, c)
    requires n < |ly.sz|
    ensures At(FieldLeast(Widen(ly, n1), out, WidenRep(rep, n1)), n) == At(FieldLeast(ly, cs, rep), n)
  {
    var wide, wrep := Widen(ly, n1), WidenRep(rep, n1);
    var l := FieldLeast(ly, cs, rep);
    FieldLeastIsSolution(ly, cs, rep);
    SolutionExtends(ly, l, cs, rep, lt, st, n1, out);
    FieldLeastIsLeast(wide, out, wrep, Extended(ly, l, cs, lt, st, n1));
    hide Fresh, Listed, Extended;
    forall o: nat | o in At(l, n) ensures o in At(FieldLeast(wide, out, wrep), n) {
      FieldLeastAt(ly, cs, rep, n, o);
      FieldLeastAt(wide, out, wrep, n, o);
      forall q | FieldSolution(wide, q, out, wrep) ensures o in At(q, n) {
        SolutionRestricts(ly, q, cs, rep, lt, st, n1, out);
      }
    }
  }

  /** The entry of an indirect-call constraint after factoring; a store's temporary hides a load's. */
  function Renamed(temps: Temps, c: FieldConstraint): FieldConstraint {
    if KeyOf(c) !in temps then c
    else if c.ty.Load? then c.(dest := temps[KeyOf(c)])
    else c.(src := temps[KeyOf(c)])
  }

  /** The entry of an indirect call names a constraint of the factored list, except when the other
      kind of access to the same pair has a temporary that is found instead. */
  lemma IcallIsListed(ly: Layout, cs: seq<FieldConstraint>, lt: Temps, st: Temps, n1: nat, c: FieldConstraint)
    requires FieldInRange(ly, cs) && Fresh(cs, lt, st, |ly.sz|, n1) && c in cs && IsComplex(c)
    ensures Listed(cs, lt, st, Renamed(lt + st, c)) <==> if c.ty.Load? then KeyOf(c) !in st else KeyOf(c) in st || KeyOf(c) !in lt
  {
    var load, k, d := c.ty.Load?, KeyOf(c), Renamed(lt + st, c);
    var mine, other := if load then lt else st, if load then st else lt;
    assert c == Complex(load, k, OtherOf(c)) && IsOther(cs, load, k, OtherOf(c));
    assert KeyOf(d) == k && IsComplex(d) && d.ty == c.ty;
    if k in mine && d == Complex(load, k, mine[k]) {
      assert From(cs, load, mine, k, d);
    } else if d == c {
      assert From(cs, load, mine, k, d);
    } else {
      assert k in other && OtherOf(d) == other[k];
      var no := !load;
      assert forall j :: !From(cs, load, mine, j, d);
      assert forall j :: !From(cs, no, other, j, d);
    }
  }

  /** Two loads from the field after that of node 4, as for the result of an indirect call, and two
      stores to it, as from copied structures: the entry of the load is renamed to a load into the
      stores' temporary, which is not in the list. */
  lemma IcallIsLost(ly: Layout, cs: seq<FieldConstraint>, lt: Temps, st: Temps)
    requires |ly.sz| == 7
    requires cs == [Cons(FieldType.Load, 5, 4, 1), Cons(FieldType.Load, 6, 4, 1), Cons(FieldType.Store, 4, 5, 1), Cons(FieldType.Store, 4, 6, 1)]
    requires Fresh(cs, lt, st, 7, 9)
    ensures cs[0] in cs && !Listed(cs, lt, st, Renamed(lt + st, cs[0]))
  {
    var k := Key(4, 1);
    assert cs[2] == Complex(false, k, 5) && cs[3] == Complex(false, k, 6);
    assert IsOther(cs, false, k, 5) && IsOther(cs, false, k, 6);
    assert Worth(cs, false, k) && cs[0] in cs;
    IcallIsListed(ly, cs, lt, st, 9, cs[0]);
  }

  /** What the pair k adds to the list when t is its temporary, or 0 for none. */
  function Entry(load: bool, k: Key, t: nat, x: nat): FieldConstraint {
    if t == 0 then Complex(load, k, x) else Link(load, x, t)
  }

  ghost predicate Added(load: bool, k: Key, others: set<nat>, t: nat, c: FieldConstraint) {
    (t != 0 && c == Complex(load, k, t)) || exists x :: x in others && c == Entry(load, k, t, x)
  }

  /** groups has for each pair the nodes loaded from it, or stored to it. */
  ghost predicate Grouped(cs: seq<FieldConstraint>, load: bool, groups: map<Key, set<nat>>) {
    && (forall k, x: nat :: IsOther(cs, load, k, x) <==> k in groups && x in groups[k])
    && (forall k | k in groups :: groups[k] != {})
  }

  lemma WorthIsSize(cs: seq<FieldConstraint>, load: bool, groups: map<Key, set<nat>>, k: Key)
    requires Grouped(cs, load, groups) && k in groups
    ensures Worth(cs, load, k) <==> |groups[k]| >= FACTOR_LS_MIN_SZ
  {
    var x :| x in groups[k];
    if |groups[k]| >= 2 {
      assert |groups[k] - {x}| > 0;
      var y :| y in groups[k] - {x};
      assert IsOther(cs, load, k, x) && IsOther(cs, load, k, y);
    } else {
      assert |groups[k] - {x}| == 0;
    }
  }

  lemma AddedIsFrom(cs: seq<FieldConstraint>, load: bool, groups: map<Key, set<nat>>, temps: Temps, k: Key, c: FieldConstraint)
    requires Grouped(cs, load, groups) && k in groups && (k in temps ==> temps[k] != 0)
    ensures Added(load, k, groups[k], if k in temps then temps[k] else 0, c) <==> From(cs, load, temps, k, c)
  {
    if k in temps {
      if x: nat :| x in {c.dest, c.src} && IsOther(cs, load, k, x) && c == Link(load, x, temps[k]) {
        assert c == Entry(load, k, temps[k], x);
      }
      if x :| x in groups[k] && c == Entry(load, k, temps[k], x) {
        assert IsOther(cs, load, k, x) && x in {c.dest, c.src};
      }
    } else {
      if c in cs && IsComplex(c) && c.ty.Load? == load && KeyOf(c) == k {
        assert IsOther(cs, load, k, OtherOf(c)) && c == Entry(load, k, 0, OtherOf(c));
      }
      if x :| x in groups[k] && c == Entry(load, k, 0, x) {
        assert IsOther(cs, load, k, x);
      }
    }
  }

  /** The pairs done so far are in the list in place of the loads, or stores, of these pairs. */
  ghost predicate DonePairs(cs: seq<FieldConstraint>, load: bool, groups: map<Key, set<nat>>, done: set<Key>, temps: Temps,
                            start: seq<FieldConstraint>, now: seq<FieldConstraint>) {
    && temps.Keys <= done <= groups.Keys
    && (forall k | k in done :: k in temps <==> |groups[k]| >= FACTOR_LS_MIN_SZ)
    && (forall c :: c in now <==> c in start || exists k :: k in done && From(cs, load, temps, k, c))
  }

  lemma OneMorePair(cs: seq<FieldConstraint>, load: bool, groups: map<Key, set<nat>>, done: set<Key>, temps: Temps, k: Key, t: nat,
                    start: seq<FieldConstraint>, now: seq<FieldConstraint>, next: seq<FieldConstraint>)
    requires Grouped(cs, load, groups) && DonePairs(cs, load, groups, done, temps, start, now)
    requires k in groups && k !in done && (t == 0 <==> |groups[k]| < FACTOR_LS_MIN_SZ)
    requires forall c :: c in next <==> c in now || Added(load, k, groups[k], t, c)
    ensures DonePairs(cs, load, groups, done + {k}, if t == 0 then temps else temps[k := t], start, next)
  {
    var temps' := if t == 0 then temps else temps[k := t];
    assert k !in temps;
    assert forall j | j in done + {k} :: j in temps' <==> |groups[j]| >= FACTOR_LS_MIN_SZ;
    forall c ensures c in next <==> c in start || exists j :: j in done + {k} && From(cs, load, temps', j, c) {
      AddedIsFrom(cs, load, groups, temps', k, c);
      assert forall j | j in done :: From(cs, load, temps', j, c) == From(cs, load, temps, j, c);
      hide Added, From;
    }
  }

  /** Once every pair is done, the list has what is wanted of every pair. */
  lemma AllPairsDone(cs: seq<FieldConstraint>, load: bool, groups: map<Key, set<nat>>, temps: Temps, start: seq<FieldConstraint>, now: seq<FieldConstraint>)
    requires Grouped(cs, load, groups) && DonePairs(cs, load, groups, groups.Keys, temps, start, now)
    ensures forall k :: k in temps <==> Worth(cs, load, k)
    ensures forall c :: c in now <==> c in start || exists k :: From(cs, load, temps, k, c)
  {
    forall k ensures k in temps <==> Worth(cs, load, k) {
      if k in groups {
        WorthIsSize(cs, load, groups, k);
      }
    }
    forall c, k | From(cs, load, temps, k, c) ensures k in groups {
      if k !in temps {
        assert IsOther(cs, load, k, OtherOf(c));
      }
    }
  }

  /** The stores' temporaries follow the loads'. */
  lemma LoadsThenStores(cs: seq<FieldConstraint>, keep: seq<FieldConstraint>, mid: seq<FieldConstraint>, out: seq<FieldConstraint>,
                        lt: Temps, st: Temps, n0: nat, n1: nat, n2: nat)
    requires forall c :: c in keep <==> c in cs && !IsComplex(c)
    requires forall c :: c in mid <==> c in keep || exists k :: From(cs, true, lt, k, c)
    requires forall c :: c in out <==> c in mid || exists k :: From(cs, false, st, k, c)
    requires forall k :: k in lt <==> Worth(cs, true, k)
    requires forall k :: k in st <==> Worth(cs, false, k)
    requires Apart(lt, map[], n0, n1) && Apart(st, map[], n1, n2)
    ensures Fresh(cs, lt, st, n0, n2)
    ensures forall c :: c in out <==> Listed(cs, lt, st, c)
  {
    hide From, Worth;
  }

  /** The entry c becomes d: of the same type, for the same pair, with the pair's temporary if there is one. */
  predicate Becomes(temps: Temps, c: FieldConstraint, d: FieldConstraint) {
    var k := Key(if c.ty.Load? then c.src else c.dest, c.off);
    && d.ty == c.ty && d.off == c.off
    && (c.ty.Load? ==> d.src == c.src && d.dest == if k in temps then temps[k] else c.dest)
    && (!c.ty.Load? ==> d.dest == c.dest && d.src == if k in temps then temps[k] else c.src)
  }

  lemma BecomesRenamed(temps: Temps, c: FieldConstraint, d: FieldConstraint)
    ensures Becomes(temps, c, d) <==> d == Renamed(temps, c)
  {
  }

  /** d is an entry for the instruction i exactly if some old entry for i becomes d. */
  ghost predicate IcallsRenamed(before: map<FieldConstraint, set<nat>>, temps: Temps, after: map<FieldConstraint, set<nat>>) {
    forall d, i :: i in CallsOf(after, d) <==> exists c :: i in CallsOf(before, c) && Becomes(temps, c, d)
  }

  function CallsOf(icalls: map<FieldConstraint, set<nat>>, c: FieldConstraint): set<nat> {
    if c in icalls then icalls[c] else {}
  }

  lemma RenameOne(before: map<FieldConstraint, set<nat>>, todo: set<FieldConstraint>, temps: Temps, after: map<FieldConstraint, set<nat>>, c: FieldConstraint)
    requires c in before && c in todo && IcallsRenamed(before - todo, temps, after)
    ensures
      var d := Renamed(temps, c);
      IcallsRenamed(before - (todo - {c}), temps, after[d := CallsOf(after, d) + before[c]])
  {
    var d := Renamed(temps, c);
    var b0, b1 := before - todo, before - (todo - {c});
    var after' := after[d := CallsOf(after, d) + before[c]];
    assert forall f :: CallsOf(b1, f) == if f == c then before[c] else CallsOf(b0, f);
    assert CallsOf(b0, c) == {};
    assert forall e :: CallsOf(after', e) == if e == d then CallsOf(after, d) + before[c] else CallsOf(after, e);
    BecomesRenamed(temps, c, d);
    hide Renamed, CallsOf;
    forall e, i | i in CallsOf(after', e) ensures exists f :: i in CallsOf(b1, f) && Becomes(temps, f, e) {
      if i in CallsOf(after, e) {
        var f :| i in CallsOf(b0, f) && Becomes(temps, f, e);
        assert i in CallsOf(b1, f);
      } else {
        assert i in CallsOf(b1, c);
      }
    }
    forall f, e, i | i in CallsOf(b1, f) && Becomes(temps, f, e) ensures i in CallsOf(after', e) {
      if f == c {
        BecomesRenamed(temps, c, e);
      } else {
        assert i in CallsOf(b0, f);
      }
    }
  }

  /** What the program guarantees when it factors: no i2p in a load or store, and lookups done. */
  ghost predicate CanSolve(ly: Layout, cs: seq<FieldConstraint>, rep: seq<nat>) {
    LayoutOk(ly) && FieldInRange(ly, cs) && NoI2p(ly, cs) && |rep| == |ly.sz| && IsRep(rep)
  }

  function Insert(groups: map<Key, set<nat>>, k: Key, x: nat): map<Key, set<nat>> {
    groups[k := (if k in groups then groups[k] else {}) + {x}]
  }

  lemma GroupOne(cs: seq<FieldConstraint>, load: bool, groups: map<Key, set<nat>>, c: FieldConstraint)
    requires Grouped(cs, load, groups)
    ensures Grouped(cs + [c], load, if IsComplex(c) && c.ty.Load? == load then Insert(groups, KeyOf(c), OtherOf(c)) else groups)
  {
    forall k, x: nat ensures IsOther(cs + [c], load, k, x) <==> IsOther(cs, load, k, x) || c == Complex(load, k, x) {
    }
  }

  class Factorer {
    const i2p: nat := 1
    var constraints: seq<FieldConstraint>
    var sz: seq<nat>
    var icalls: map<FieldConstraint, set<nat>>

    constructor (constraints: seq<FieldConstraint>, sz: seq<nat>, icalls: map<FieldConstraint, set<nat>>)
      ensures this.constraints == constraints && this.sz == sz && this.icalls == icalls
    {
      this.constraints, this.sz, this.icalls := constraints, sz, icalls;
    }

    /** List one constraint for each other, or factor them through a new node; 0 if not factored. */
    method FactorOne(load: bool, k: Key, others: set<nat>) returns (t: nat)
      requires |sz| > 0
      modifies this`constraints, this`sz
      ensures t == if |others| < FACTOR_LS_MIN_SZ then 0 else old(|sz|)
      ensures sz == if t == 0 then old(sz) else old(sz) + [0]
      ensures forall c :: c in constraints <==> c in old(constraints) || Added(load, k, others, t, c)
    {
      if |others| < FACTOR_LS_MIN_SZ {
        t := 0;
      } else {
        t := |sz|;
        sz := sz + [0];
        constraints := constraints + [Complex(load, k, t)];
      }
      ghost var start := constraints;
      var todo := others;
      while todo != {}
        invariant todo <= others && sz == if t == 0 then old(sz) else old(sz) + [0]
        invariant forall c :: c in constraints <==> c in start || exists x :: x in others - todo && c == Entry(load, k, t, x)
      {
        var x :| x in todo;
        constraints := constraints + [Entry(load, k, t, x)];
        todo := todo - {x};
      }
    }

    /** Factor the loads, or the stores, of every pair. */
    method FactorAll(load: bool, groups: map<Key, set<nat>>, ghost cs: seq<FieldConstraint>) returns (temps: Temps)
      requires |sz| > 0 && Grouped(cs, load, groups)
      modifies this`constraints, this`sz
      ensures forall k :: k in temps <==> Worth(cs, load, k)
      ensures forall c :: c in constraints <==> c in old(constraints) || exists k :: From(cs, load, temps, k, c)
      ensures Apart(temps, map[], old(|sz|), |sz|)
      ensures old(sz) <= sz && forall i | old(|sz|) <= i < |sz| :: sz[i] == 0
    {
      temps := map[];
      var todo := groups.Keys;
      while todo != {}
        invariant todo <= groups.Keys && old(sz) <= sz
        invariant DonePairs(cs, load, groups, groups.Keys - todo, temps, old(constraints), constraints)
        invariant Apart(temps, map[], old(|sz|), |sz|)
        invariant forall i | old(|sz|) <= i < |sz| :: sz[i] == 0
      {
        label Before:
        var k :| k in todo;
        hide DonePairs;
        var t := FactorOne(load, k, groups[k]);
        OneMorePair(cs, load, groups, groups.Keys - todo, temps, k, t, old(constraints), old@Before(constraints), constraints);
        assert groups.Keys - (todo - {k}) == (groups.Keys - todo) + {k};
        if t != 0 {
          temps := temps[k := t];
        }
        todo := todo - {k};
      }
      assert groups.Keys - todo == groups.Keys;
      AllPairsDone(cs, load, groups, temps, old(constraints), constraints);
    }

    /** Group the loads and stores by what they access; the other constraints stay. */
    method Group() returns (loads: map<Key, set<nat>>, stores: map<Key, set<nat>>)
      modifies this`constraints
      ensures Grouped(old(constraints), true, loads) && Grouped(old(constraints), false, stores)
      ensures forall c :: c in constraints <==> c in old(constraints) && !IsComplex(c)
    {
      var oldCons := constraints;
      constraints, loads, stores := [], map[], map[];
      for i := 0 to |oldCons|
        invariant Grouped(oldCons[..i], true, loads) && Grouped(oldCons[..i], false, stores)
        invariant forall c :: c in constraints <==> c in oldCons[..i] && !IsComplex(c)
      {
        var c := oldCons[i];
        assert oldCons[..i + 1] == oldCons[..i] + [c];
        GroupOne(oldCons[..i], true, loads, c);
        GroupOne(oldCons[..i], false, stores, c);
        if c.ty.Load? {
          loads := Insert(loads, KeyOf(c), c.dest);
        } else if c.ty.Store? {
          stores := Insert(stores, KeyOf(c), c.src);
        } else {
          constraints := constraints + [c];
        }
      }
      assert oldCons[..|oldCons|] == oldCons;
    }

    /** The list ends with the pairs factored, the new nodes are no objects, and every entry of an
        indirect call is renamed; the least solution is the same at every old node. */
    method FactorLs() returns (ghost lt: Temps, ghost st: Temps)
      requires |sz| > 0
      modifies this
      ensures Fresh(old(constraints), lt, st, old(|sz|), |sz|)
      ensures forall k :: (k in lt <==> TwoLoads(old(constraints), k)) && (k in st <==> TwoStores(old(constraints), k))
      ensures forall c :: c in constraints <==> Factored(old(constraints), lt, st, c)
      ensures Layout(sz, i2p) == Widen(Layout(old(sz), i2p), |sz|)
      ensures IcallsRenamed(old(icalls), lt + st, icalls)
      ensures forall rep, n: nat | CanSolve(Layout(old(sz), i2p), old(constraints), rep) && n < old(|sz|) ::
        At(FieldLeast(Layout(sz, i2p), constraints, WidenRep(rep, |sz|)), n) == At(FieldLeast(Layout(old(sz), i2p), old(constraints), rep), n)
    {
      ghost var cs, ly := constraints, Layout(sz, i2p);
      var loads, stores := Group();
      label Loads:
      var temps := FactorAll(true, loads, cs);
      lt := temps;
      label Stores:
      var more := FactorAll(false, stores, cs);
      st := more;
      assert Layout(sz, i2p).sz == Widen(ly, |sz|).sz;
      hide *;
      LoadsThenStores(cs, old@Loads(constraints), old@Stores(constraints), constraints, lt, st, |ly.sz|, old@Stores(|sz|), |sz|);
      forall k ensures (k in lt <==> TwoLoads(cs, k)) && (k in st <==> TwoStores(cs, k)) {
        WorthIsTwo(cs, k);
        FreshSays(cs, lt, st, |ly.sz|, |sz|, k);
      }
      forall c ensures c in constraints <==> Factored(cs, lt, st, c) {
        ListedIsFactored(cs, lt, st, c);
      }
      RenameIcalls(temps + more);
      forall rep, n: nat | CanSolve(ly, cs, rep) && n < |ly.sz|
        ensures At(FieldLeast(Layout(sz, i2p), constraints, WidenRep(rep, |sz|)), n) == At(FieldLeast(ly, cs, rep), n)
      {
        FactoringPreserves(ly, cs, rep, lt, st, |sz|, constraints, n);
      }
    }

    /** Rename every entry; entries that become equal are united. */
    method RenameIcalls(temps: Temps)
      modifies this`icalls
      ensures IcallsRenamed(old(icalls), temps, icalls)
    {
      var oldIcalls := icalls;
      icalls := map[];
      var todo := oldIcalls.Keys;
      while todo != {}
        invariant todo <= oldIcalls.Keys
        invariant IcallsRenamed(oldIcalls - todo, temps, icalls)
      {
        var c :| c in todo;
        var d := Renamed(temps, c);
        RenameOne(oldIcalls, todo, temps, icalls, c);
        icalls := icalls[d := CallsOf(icalls, d) + oldIcalls[c]];
        todo := todo - {c};
      }
      assert oldIcalls - todo == oldIcalls;
    }
  }
}
