/** Moving the object nodes to the front, and the offset masks of the field-sensitive analysis. */
module Renumbering {
  import opened Constraints
  import opened FieldConstraints

  const FIRST_VAR_NODE: nat := 3

  /** to and from undo each other. */
  ghost predicate IsRenumbering(to: seq<nat>, from: seq<nat>) {
    && |to| == |from|
    && (forall i | 0 <= i < |to| :: to[i] < |to| && from[to[i]] == i)
    && (forall i | 0 <= i < |to| :: from[i] < |to| && to[from[i]] == i)
  }

  /** The fields of an object stay in place behind it. */
  ghost predicate KeepsBlocks(ly: Layout, to: seq<nat>)
    requires |to| == |ly.sz| && LayoutOk(ly)
  {
    forall o: nat, off: nat | Fits(ly, o, off) :: IsObject(ly, o + off) && to[o + off] == to[o] + off
  }

  function MovedLayout(ly: Layout, to: seq<nat>, from: seq<nat>): (r: Layout)
    requires |from| == |to| == |ly.sz| && ly.i2p < |to| && forall i | 0 <= i < |from| :: from[i] < |ly.sz|
    ensures |r.sz| == |ly.sz|
  {
    Layout(seq(|from|, i requires 0 <= i < |from| => ly.sz[from[i]]), to[ly.i2p])
  }

  function MovedCons(to: seq<nat>, c: FieldConstraint): FieldConstraint
    requires c.dest < |to| && c.src < |to|
  {
    c.(dest := to[c.dest], src := to[c.src])
  }

  function MovedSet(to: seq<nat>, s: set<nat>): set<nat> {
    set x | x in s && x < |to| :: to[x]
  }

  ghost predicate IsMoved(to: seq<nat>, cs: seq<FieldConstraint>, cs': seq<FieldConstraint>) {
    |cs| == |cs'| && forall i | 0 <= i < |cs| :: cs[i].dest < |to| && cs[i].src < |to| && cs'[i] == MovedCons(to, cs[i])
  }

  ghost function MovedPts(p: PtsGraph, to: seq<nat>, from: seq<nat>): (q: PtsGraph)
    requires IsRenumbering(to, from)
    ensures forall n: nat | n < |to| :: At(q, n) == MovedSet(to, At(p, from[n]))
  {
    map n: nat | n < |to| :: MovedSet(to, At(p, from[n]))
  }

  lemma MovedIn(to: seq<nat>, from: seq<nat>, s: set<nat>, x: nat)
    requires IsRenumbering(to, from) && x < |to|
    ensures to[x] in MovedSet(to, s) <==> x in s
    ensures x in MovedSet(to, s) <==> from[x] in s
  {
    if from[x] in s {
      assert to[from[x]] == x;
    }
  }

  /** Renumbering a solution solves the renumbered constraints. */
  lemma MovedSolves(ly: Layout, p: PtsGraph, cs: seq<FieldConstraint>, to: seq<nat>, from: seq<nat>, cs': seq<FieldConstraint>)
    requires LayoutOk(ly) && FieldInRange(ly, cs) && |to| == |ly.sz| && IsRenumbering(to, from) && KeepsBlocks(ly, to)
    requires IsMoved(to, cs, cs') && FieldSolution(ly, p, cs, Identity(|to|))
    ensures FieldSolution(MovedLayout(ly, to, from), MovedPts(p, to, from), cs', Identity(|to|))
  {
    forall c' | c' in cs' ensures FieldHolds(MovedLayout(ly, to, from), MovedPts(p, to, from), c') {
      var i :| 0 <= i < |cs'| && cs'[i] == c';
      assert FieldHolds(ly, p, cs[i]);
      LayoutMoves(ly, to, from, c'.off);
      MovedHolds(ly, MovedLayout(ly, to, from), p, MovedPts(p, to, from), to, from, cs[i]);
    }
  }

  lemma MovedFits(ly: Layout, to: seq<nat>, from: seq<nat>, o: nat, off: nat)
    requires LayoutOk(ly) && |to| == |ly.sz| && IsRenumbering(to, from) && KeepsBlocks(ly, to) && o < |to|
    ensures Fits(MovedLayout(ly, to, from), o, off) <==> Fits(ly, from[o], off)
    ensures Fits(ly, from[o], off) ==> o + off < |to| && from[o + off] == from[o] + off
  {
  }

  /** Everything a constraint with this offset asks of the layout carries over. */
  ghost predicate FitsMoved(ly: Layout, ly': Layout, to: seq<nat>, from: seq<nat>, off: nat) {
    && |from| == |to| && ly.i2p < |to| && ly'.i2p == to[ly.i2p]
    && forall o: nat | Fits(ly', o, off) ::
      o < |to| && o + off < |to| && Fits(ly, from[o], off) && from[o + off] == from[o] + off
  }

  /** q is p renumbered. */
  ghost predicate PtsMoved(p: PtsGraph, q: PtsGraph, to: seq<nat>, from: seq<nat>) {
    |from| == |to| && forall n: nat | n < |to| :: At(q, n) == MovedSet(to, At(p, from[n]))
  }

  lemma AtMoved(p: PtsGraph, q: PtsGraph, to: seq<nat>, from: seq<nat>, n: nat)
    requires IsRenumbering(to, from) && PtsMoved(p, q, to, from) && n < |to|
    ensures |from| == |to| && to[n] < |to| && from[to[n]] == n && to[from[n]] == n
    ensures At(q, to[n]) == MovedSet(to, At(p, n)) && At(q, n) == MovedSet(to, At(p, from[n]))
  {
  }

  lemma MovedSetGrows(to: seq<nat>, s: set<nat>, t: set<nat>)
    requires s <= t
    ensures MovedSet(to, s) <= MovedSet(to, t)
  {
  }

  lemma MovedLoad(ly: Layout, ly': Layout, p: PtsGraph, q: PtsGraph, to: seq<nat>, from: seq<nat>, c: FieldConstraint, o: nat)
    requires IsRenumbering(to, from) && PtsMoved(p, q, to, from) && FitsMoved(ly, ly', to, from, c.off)
    requires c.ty.Load? && c.dest < |to| && c.src < |to| && FieldHolds(ly, p, c)
    requires o in At(q, to[c.src]) && Fits(ly', o, c.off) && Tracked(ly', o + c.off, to[c.dest])
    ensures At(q, o + c.off) <= At(q, to[c.dest])
  {
    hide IsRenumbering, PtsMoved, MovedSet;
    AtMoved(p, q, to, from, c.src);
    AtMoved(p, q, to, from, c.dest);
    AtMoved(p, q, to, from, o + c.off);
    AtMoved(p, q, to, from, ly.i2p);
    MovedIn(to, from, At(p, c.src), o);
    assert Tracked(ly, from[o] + c.off, c.dest);
    MovedSetGrows(to, At(p, from[o] + c.off), At(p, c.dest));
  }

  lemma MovedStore(ly: Layout, ly': Layout, p: PtsGraph, q: PtsGraph, to: seq<nat>, from: seq<nat>, c: FieldConstraint, o: nat)
    requires IsRenumbering(to, from) && PtsMoved(p, q, to, from) && FitsMoved(ly, ly', to, from, c.off)
    requires c.ty.Store? && c.dest < |to| && c.src < |to| && FieldHolds(ly, p, c)
    requires o in At(q, to[c.dest]) && Fits(ly', o, c.off) && Tracked(ly', o + c.off, to[c.src])
    ensures At(q, to[c.src]) <= At(q, o + c.off)
  {
    hide IsRenumbering, PtsMoved, MovedSet;
    AtMoved(p, q, to, from, c.src);
    AtMoved(p, q, to, from, c.dest);
    AtMoved(p, q, to, from, o + c.off);
    AtMoved(p, q, to, from, ly.i2p);
    MovedIn(to, from, At(p, c.dest), o);
    assert Tracked(ly, from[o] + c.off, c.src);
    MovedSetGrows(to, At(p, c.src), At(p, from[o] + c.off));
  }

  lemma GepAt(ly: Layout, p: PtsGraph, c: FieldConstraint, o: nat)
    requires c.ty.Gep? && FieldHolds(ly, p, c) && o in At(p, c.src) && Fits(ly, o, c.off)
    ensures o + c.off in At(p, c.dest)
  {
  }

  lemma MovedGep(ly: Layout, ly': Layout, p: PtsGraph, q: PtsGraph, to: seq<nat>, from: seq<nat>, c: FieldConstraint, o: nat)
    requires IsRenumbering(to, from) && PtsMoved(p, q, to, from) && FitsMoved(ly, ly', to, from, c.off)
    requires c.ty.Gep? && c.dest < |to| && c.src < |to| && FieldHolds(ly, p, c)
    requires o in At(q, to[c.src]) && Fits(ly', o, c.off)
    ensures o + c.off in At(q, to[c.dest])
  {
    hide FieldHolds, IsRenumbering, PtsMoved, MovedSet;
    AtMoved(p, q, to, from, c.src);
    AtMoved(p, q, to, from, c.dest);
    MovedIn(to, from, At(p, c.src), o);
    MovedIn(to, from, At(p, c.dest), o + c.off);
    GepAt(ly, p, c, from[o]);
  }

  lemma LayoutMoves(ly: Layout, to: seq<nat>, from: seq<nat>, off: nat)
    requires LayoutOk(ly) && |to| == |ly.sz| && IsRenumbering(to, from) && KeepsBlocks(ly, to)
    ensures FitsMoved(ly, MovedLayout(ly, to, from), to, from, off)
  {
    var ly' := MovedLayout(ly, to, from);
    forall o: nat | Fits(ly', o, off) ensures o < |to| && o + off < |to| && Fits(ly, from[o], off) && from[o + off] == from[o] + off {
      MovedFits(ly, to, from, o, off);
    }
  }

  lemma MovedHolds(ly: Layout, ly': Layout, p: PtsGraph, q: PtsGraph, to: seq<nat>, from: seq<nat>, c: FieldConstraint)
    requires IsRenumbering(to, from) && PtsMoved(p, q, to, from) && FitsMoved(ly, ly', to, from, c.off)
    requires c.dest < |to| && c.src < |to| && FieldHolds(ly, p, c)
    ensures FieldHolds(ly', q, MovedCons(to, c))
  {
    hide MovedSet, IsRenumbering, PtsMoved, FitsMoved, Tracked, Fits;
    var c' := MovedCons(to, c);
    match c.ty
    case AddrOf =>
      AtMoved(p, q, to, from, c.dest);
      MovedIn(to, from, At(p, c.dest), c.src);
    case Copy =>
      AtMoved(p, q, to, from, c.src);
      AtMoved(p, q, to, from, c.dest);
      MovedSetGrows(to, At(p, c.src), At(p, c.dest));
    case Load =>
      forall o | o in At(q, c'.src) && Fits(ly', o, c.off) && Tracked(ly', o + c.off, c'.dest) ensures At(q, o + c.off) <= At(q, c'.dest) {
        MovedLoad(ly, ly', p, q, to, from, c, o);
      }
    case Store =>
      forall o | o in At(q, c'.dest) && Fits(ly', o, c.off) && Tracked(ly', o + c.off, c'.src) ensures At(q, c'.src) <= At(q, o + c.off) {
        MovedStore(ly, ly', p, q, to, from, c, o);
      }
    case Gep =>
      forall o | o in At(q, c'.src) && Fits(ly', o, c.off) ensures o + c.off in At(q, c'.dest) {
        MovedGep(ly, ly', p, q, to, from, c, o);
      }
  }

  /** Renumbering back. */
  lemma MovedBack(ly: Layout, cs: seq<FieldConstraint>, to: seq<nat>, from: seq<nat>, cs': seq<FieldConstraint>)
    requires LayoutOk(ly) && FieldInRange(ly, cs) && |to| == |ly.sz| && IsRenumbering(to, from) && KeepsBlocks(ly, to) && IsMoved(to, cs, cs')
    ensures var ly' := MovedLayout(ly, to, from);
      LayoutOk(ly') && FieldInRange(ly', cs') && IsRenumbering(from, to) && KeepsBlocks(ly', from) && IsMoved(from, cs', cs) && MovedLayout(ly', from, to) == ly
  {
    var ly' := MovedLayout(ly, to, from);
    forall o: nat, off: nat | Fits(ly', o, off) ensures IsObject(ly', o + off) && from[o + off] == from[o] + off {
      MovedFits(ly, to, from, o, off);
    }
    assert MovedLayout(ly', from, to).sz == ly.sz;
    forall c' | c' in cs' ensures CanEnter(ly', c') {
      var i :| 0 <= i < |cs'| && cs'[i] == c';
      assert cs[i] in cs && CanEnter(ly, cs[i]);
      assert c'.ty.Copy? ==> from[c'.src] == cs[i].src && from[ly'.i2p] == ly.i2p;
    }
  }

  /** The least solution of the renumbered constraints has nothing that was not there before. */
  lemma MovedAtMost(ly: Layout, cs: seq<FieldConstraint>, to: seq<nat>, from: seq<nat>, cs': seq<FieldConstraint>, n: nat)
    requires LayoutOk(ly) && FieldInRange(ly, cs) && |to| == |ly.sz| && IsRenumbering(to, from) && KeepsBlocks(ly, to) && IsMoved(to, cs, cs')
    requires n < |to|
    ensures At(FieldLeast(MovedLayout(ly, to, from), cs', Identity(|to|)), to[n]) <= MovedSet(to, At(FieldLeast(ly, cs, Identity(|to|)), n))
  {
    var ly', id := MovedLayout(ly, to, from), Identity(|to|);
    var l := FieldLeast(ly, cs, id);
    FieldLeastIsSolution(ly, cs, id);
    MovedSolves(ly, l, cs, to, from, cs');
    FieldLeastIsLeast(ly', cs', id, MovedPts(l, to, from));
    AtMoved(l, MovedPts(l, to, from), to, from, n);
    hide LayoutOk, FieldInRange, KeepsBlocks, IsMoved, MovedLayout, FieldSolution, FieldLeast, MovedPts, MovedSet, At;
  }

  /** What every solution has to have at n, every solution of the renumbered constraints has, renumbered. */
  lemma MovedForced(ly: Layout, cs: seq<FieldConstraint>, ly': Layout, cs': seq<FieldConstraint>, to: seq<nat>, from: seq<nat>, n: nat, x: nat)
    requires |from| == |to| == |ly'.sz| && IsRenumbering(from, to) && LayoutOk(ly') && FieldInRange(ly', cs') && KeepsBlocks(ly', from) && IsMoved(from, cs', cs)
    requires MovedLayout(ly', from, to) == ly && n < |to| && x < |to| && x in At(FieldLeast(ly, cs, Identity(|to|)), n)
    ensures to[x] in At(FieldLeast(ly', cs', Identity(|to|)), to[n])
  {
    var id := Identity(|to|);
    FieldLeastAt(ly, cs, id, n, x);
    FieldLeastAt(ly', cs', id, to[n], to[x]);
    forall q | FieldSolution(ly', q, cs', id) ensures to[x] in At(q, to[n]) {
      MovedSolves(ly', q, cs', from, to, cs);
      AtMoved(q, MovedPts(q, from, to), from, to, n);
      MovedIn(from, to, At(q, to[n]), x);
    }
  }

  /** The least solution of the renumbered constraints is the renumbered least solution. */
  lemma RenumberingPreserves(ly: Layout, cs: seq<FieldConstraint>, to: seq<nat>, from: seq<nat>, cs': seq<FieldConstraint>, n: nat)
    requires LayoutOk(ly) && FieldInRange(ly, cs) && |to| == |ly.sz| && IsRenumbering(to, from) && KeepsBlocks(ly, to) && IsMoved(to, cs, cs')
    requires n < |to|
    ensures At(FieldLeast(MovedLayout(ly, to, from), cs', Identity(|to|)), to[n]) == MovedSet(to, At(FieldLeast(ly, cs, Identity(|to|)), n))
  {
    var ly', id := MovedLayout(ly, to, from), Identity(|to|);
    MovedAtMost(ly, cs, to, from, cs', n);
    MovedBack(ly, cs, to, from, cs');
    var l := At(FieldLeast(ly, cs, id), n);
    forall x | x in MovedSet(to, l) ensures x in At(FieldLeast(ly', cs', id), to[n]) {
      var y :| y in l && y < |to| && to[y] == x;
      MovedForced(ly, cs, ly', cs', to, from, n, y);
    }
    hide *;
  }

  /** The first nodes, the objects before a, and the other nodes before b. */
  predicate Taken(sz: seq<nat>, j: nat, a: nat, b: nat) {
    j < |sz| && (j < FIRST_VAR_NODE || (if sz[j] > 0 then j < a else j < b))
  }

  /** How many object nodes there are before i, first nodes not counted. */
  function Objs(sz: seq<nat>, i: nat): (r: nat)
    requires i <= |sz|
    ensures r <= if i <= FIRST_VAR_NODE then 0 else i - FIRST_VAR_NODE
  {
    if i <= FIRST_VAR_NODE then 0 else Objs(sz, i - 1) + if sz[i - 1] > 0 then 1 else 0
  }

  /** Where a node goes: first nodes stay, then come the objects, then the others, each in order. */
  function Slot(sz: seq<nat>, j: nat): nat
    requires j < |sz|
  {
    if j < FIRST_VAR_NODE then j
    else if sz[j] > 0 then FIRST_VAR_NODE + Objs(sz, j)
    else Objs(sz, |sz|) + j - Objs(sz, j)
  }

  /** from lists the nodes taken so far by where they go. */
  ghost predicate Listed(sz: seq<nat>, from: seq<nat>, a: nat, b: nat) {
    && FIRST_VAR_NODE <= a <= |sz| && FIRST_VAR_NODE <= b <= |sz|
    && |from| == Objs(sz, a) + b - Objs(sz, b)
    && (forall k | 0 <= k < |from| :: Taken(sz, from[k], a, b) && Slot(sz, from[k]) == k)
    && (forall j: nat | Taken(sz, j, a, b) :: Slot(sz, j) < |from| && from[Slot(sz, j)] == j)
  }

  ghost predicate MovesTo(sz: seq<nat>, m: seq<nat>, a: nat, b: nat) {
    |m| == |sz| && forall j: nat | Taken(sz, j, a, b) :: m[j] == Slot(sz, j)
  }

  /** The next object, or the next other node once the objects are done, goes to the next place. */
  lemma ListNext(sz: seq<nat>, from: seq<nat>, a: nat, b: nat, j: nat)
    requires Listed(sz, from, a, b) && j < |sz| && (if sz[j] > 0 then j == a && b == FIRST_VAR_NODE else j == b && a == |sz|)
    ensures Slot(sz, j) == |from|
    ensures if sz[j] > 0 then Listed(sz, from + [j], a + 1, b) else Listed(sz, from + [j], a, b + 1)
  {
    var (a', b') := if sz[j] > 0 then (a + 1, b) else (a, b + 1);
    assert Slot(sz, j) == |from|;
    assert Objs(sz, a') + b' - Objs(sz, b') == |from| + 1;
    assert forall i: nat :: Taken(sz, i, a', b') <==> Taken(sz, i, a, b) || i == j;
    hide Objs, Taken, Slot;
  }

  /** A node of the other kind is passed over. */
  lemma ListSkip(sz: seq<nat>, from: seq<nat>, a: nat, b: nat, j: nat)
    requires Listed(sz, from, a, b) && j < |sz| && (if sz[j] > 0 then j == b else j == a)
    ensures if sz[j] > 0 then Listed(sz, from, a, b + 1) else Listed(sz, from, a + 1, b)
    ensures forall i: nat :: Taken(sz, i, a, b) <==> if sz[j] > 0 then Taken(sz, i, a, b + 1) else Taken(sz, i, a + 1, b)
  {
    var (a', b') := if sz[j] > 0 then (a, b + 1) else (a + 1, b);
    assert Objs(sz, a') + b' - Objs(sz, b') == |from|;
    assert forall i: nat :: Taken(sz, i, a', b') <==> Taken(sz, i, a, b);
    hide Objs, Taken, Slot;
  }

  /** Once all nodes are taken, m renumbers them and keeps the fields of an object behind it. */
  lemma AllListed(ly: Layout, m: seq<nat>, from: seq<nat>)
    requires Listed(ly.sz, from, |ly.sz|, |ly.sz|) && MovesTo(ly.sz, m, |ly.sz|, |ly.sz|) && LayoutOk(ly)
    requires forall i | 0 <= i < FIRST_VAR_NODE :: ly.sz[i] <= 1
    ensures IsRenumbering(m, from) && KeepsBlocks(ly, m)
  {
    forall o: nat, off: nat | Fits(ly, o, off) ensures IsObject(ly, o + off) && m[o + off] == m[o] + off {
      if o >= FIRST_VAR_NODE {
        FieldsCount(ly, o, off);
      }
    }
  }

  lemma {:induction false} FieldsCount(ly: Layout, o: nat, off: nat)
    requires LayoutOk(ly) && Fits(ly, o, off) && o >= FIRST_VAR_NODE
    ensures IsObject(ly, o + off) && Objs(ly.sz, o + off) == Objs(ly.sz, o) + off
  {
    if off > 0 {
      FieldsCount(ly, o, off - 1);
    }
  }

  /** The objects fill the places up to the last one, and nothing else after the first nodes does. */
  lemma {:induction false} ObjectsFirst(sz: seq<nat>, j: nat, i: nat)
    requires FIRST_VAR_NODE <= j < i <= |sz|
    ensures sz[j] > 0 ==> Objs(sz, j) < Objs(sz, i)
    ensures j - Objs(sz, j) >= FIRST_VAR_NODE
  {
    if j < i - 1 {
      ObjectsFirst(sz, j, i - 1);
    }
  }

  lemma FirstListed(sz: seq<nat>, from: seq<nat>)
    requires |sz| >= FIRST_VAR_NODE && from == [0, 1, 2]
    ensures Listed(sz, from, FIRST_VAR_NODE, FIRST_VAR_NODE)
  {
  }

  /** What the node table promises before it is renumbered. */
  ghost predicate TableOk(ly: Layout, cs: seq<FieldConstraint>) {
    && LayoutOk(ly) && FieldInRange(ly, cs) && |ly.sz| >= FIRST_VAR_NODE && ly.i2p < FIRST_VAR_NODE
    && forall i | 0 <= i < FIRST_VAR_NODE :: ly.sz[i] <= 1
  }

  /** The objects before n that belong to the group k. */
  predicate InGroup(validOff: set<nat>, sz: seq<nat>, k: nat, n: nat, group: set<nat>)
    requires n <= |sz|
  {
    group == set x: nat | x < n && k > 0 && Home(validOff, sz[x]) == k
  }

  /** With the group of the greatest offset left, the nodes that have a field there are all united. */
  lemma NextGroup(valid: set<nat>, sz: seq<nat>, left: set<nat>, off: nat, om: set<nat>, group: set<nat>)
    requires 0 !in valid && left <= valid && off in left && (forall k | k in left :: k <= off)
    requires (forall k, l | k in left && l in valid - left :: k < l) && InGroup(valid, sz, off, |sz|, group)
    requires forall x :: x in om <==> 0 <= x < |sz| && Home(valid, sz[x]) in valid - left
    ensures forall x :: x in om + group <==> 0 <= x < |sz| && Home(valid, sz[x]) in valid - (left - {off})
    ensures forall x :: x in om + group <==> 0 <= x < |sz| && off < sz[x]
  {
    forall x ensures x in om + group <==> 0 <= x < |sz| && Home(valid, sz[x]) in valid - (left - {off})
      ensures x in om + group <==> 0 <= x < |sz| && off < sz[x]
    {
      if 0 <= x < |sz| {
        HomeIs(valid, sz[x], off);
        hide Home;
        assert off !in valid - left;
      }
    }
  }

  /** The offsets not in left have their masks, and om unites their groups. */
  ghost predicate Masked(valid: set<nat>, sz: seq<nat>, left: set<nat>, om: set<nat>, mask: seq<set<nat>>) {
    && (forall k, l | k in left && l in valid - left :: k < l)
    && (forall x :: x in om <==> 0 <= x < |sz| && Home(valid, sz[x]) in valid - left)
    && (forall k | 0 <= k < |mask| && k !in valid - left :: mask[k] == {})
    && (forall k | k in valid - left :: k < |mask| && forall x :: x in mask[k] <==> 0 <= x < |sz| && k < sz[x])
  }

  lemma NextMask(valid: set<nat>, sz: seq<nat>, left: set<nat>, off: nat, om: set<nat>, group: set<nat>, mask: seq<set<nat>>)
    requires 0 !in valid && left <= valid && off in left && (forall k | k in left :: k <= off)
    requires Masked(valid, sz, left, om, mask) && InGroup(valid, sz, off, |sz|, group) && off < |mask|
    ensures Masked(valid, sz, left - {off}, om + group, mask[off := om + group])
  {
    NextGroup(valid, sz, left, off, om, group);
    hide InGroup, Home;
    assert valid - (left - {off}) == (valid - left) + {off};
    assert forall k | k in left - {off} :: k <= off && k != off;
  }

  lemma AllMasked(valid: set<nat>, sz: seq<nat>, om: set<nat>, mask: seq<set<nat>>, i2p: nat)
    requires Masked(valid, sz, {}, om, mask)
    ensures forall k | k in valid :: k < |mask| && forall x: nat :: x in mask[k] <==> Fits(Layout(sz, i2p), x, k)
    ensures forall k | 0 <= k < |mask| && k !in valid :: mask[k] == {}
  {
    hide Home;
    assert valid - {} == valid;
  }

  predicate Used(cs: seq<FieldConstraint>, k: nat) {
    exists c | c in cs :: c.off == k
  }

  predicate SomeFits(sz: seq<nat>, k: nat) {
    exists x | 0 <= x < |sz| :: sz[x] > k
  }

  /** The largest offset in use up to off, or 0. */
  function Largest(valid: set<nat>, off: nat): (r: nat)
    ensures r <= off
  {
    if off == 0 || off in valid then off else Largest(valid, off - 1)
  }

  /** The largest offset in use that an object of this size has a field at, or 0. */
  function Home(valid: set<nat>, sz: nat): (r: nat)
    ensures r == 0 || r < sz
  {
    if sz < 2 then 0 else Largest(valid, sz - 1)
  }

  lemma {:induction false} LargestIs(valid: set<nat>, off: nat, k: nat)
    requires k in valid && k > 0
    ensures Largest(valid, off) == 0 || Largest(valid, off) in valid
    ensures k <= off <==> k <= Largest(valid, off)
  {
    if off != 0 && off !in valid {
      LargestIs(valid, off - 1, k);
    }
  }

  lemma HomeIs(valid: set<nat>, sz: nat, k: nat)
    requires k in valid && 0 !in valid
    ensures sz > k <==> k <= Home(valid, sz)
    ensures Home(valid, sz) == 0 || Home(valid, sz) in valid
  {
    if sz >= 2 {
      LargestIs(valid, sz - 1, k);
    }
  }

  lemma {:induction false} GreatestExists(s: set<nat>)
    requires s != {}
    ensures exists m :: m in s && forall k | k in s :: k <= m
  {
    var m :| m in s;
    if k :| k in s && k > m {
      var rest := s - {m};
      assert k in rest;
      GreatestExists(rest);
      var g :| g in rest && forall k | k in rest :: k <= g;
      assert g >= k;
      assert forall j | j in s :: j == m || j in rest;
      assert g in s && forall j | j in s :: j <= g;
    }
  }

  /** Only nodes of the object segment have their address taken. */
  lemma AddressesInFront(ly: Layout, cs: seq<FieldConstraint>, to: seq<nat>, from: seq<nat>, cs': seq<FieldConstraint>, last: nat)
    requires FieldInRange(ly, cs) && |to| == |ly.sz| && IsRenumbering(to, from) && IsMoved(to, cs, cs')
    requires FIRST_VAR_NODE <= last + 1 && forall i: nat | FIRST_VAR_NODE <= i < |from| :: ly.sz[from[i]] > 0 ==> i <= last
    ensures forall c | c in cs' && c.ty.AddrOf? :: c.src <= last
  {
    forall c | c in cs' && c.ty.AddrOf? ensures c.src <= last {
      var i :| 0 <= i < |cs'| && cs'[i] == c;
      assert cs[i] in cs && CanEnter(ly, cs[i]) && from[c.src] == cs[i].src;
    }
  }

  /** After both scans and the renaming of the constraints the objects are in front, and all else moved along. */
  lemma AllClumped(ly: Layout, cs: seq<FieldConstraint>, to: seq<nat>, from: seq<nat>, sz2: seq<nat>, cs2: seq<FieldConstraint>, last: nat)
    requires TableOk(ly, cs) && Listed(ly.sz, from, |ly.sz|, |ly.sz|) && MovesTo(ly.sz, to, |ly.sz|, |ly.sz|) && IsMoved(to, cs, cs2)
    requires |sz2| == |from| && (forall k | 0 <= k < |from| :: from[k] < |ly.sz| && sz2[k] == ly.sz[from[k]])
    requires last + 1 == Objs(ly.sz, |ly.sz|) + FIRST_VAR_NODE
    ensures |to| == |ly.sz| == |sz2| && IsRenumbering(to, from) && LayoutOk(ly) && KeepsBlocks(ly, to)
    ensures forall i | 0 <= i < FIRST_VAR_NODE :: to[i] == i
    ensures Layout(sz2, ly.i2p) == MovedLayout(ly, to, from)
    ensures forall i | FIRST_VAR_NODE <= i < |sz2| :: sz2[i] > 0 <==> i <= last
    ensures InOldOrder(ly.sz, to)
    ensures forall c | c in cs2 && c.ty.AddrOf? :: c.src <= last
    ensures forall n | 0 <= n < |to| :: At(FieldLeast(Layout(sz2, ly.i2p), cs2, Identity(|to|)), to[n]) == MovedSet(to, At(FieldLeast(ly, cs, Identity(|to|)), n))
  {
    ListedLength(ly.sz, from, |ly.sz|, |ly.sz|);
    AllListed(ly, to, from);
    SpecialStay(ly.sz, to);
    OrderStays(ly.sz, to);
    ObjectsInFront(ly.sz, from, last);
    hide Listed, MovesTo, FieldLeast, IsMoved, MovedSet, Objs, KeepsBlocks, FieldInRange, LayoutOk, InOldOrder;
    assert sz2 == MovedLayout(ly, to, from).sz;
    AddressesInFront(ly, cs, to, from, cs2, last);
    hide IsRenumbering;
    EachPreserved(ly, cs, to, from, cs2);
  }

  /** Of two objects, or two other nodes, the one that was first stays first. */
  ghost predicate InOldOrder(sz: seq<nat>, to: seq<nat>) {
    |to| == |sz| && forall i, j | FIRST_VAR_NODE <= i < j < |sz| && (sz[i] > 0 <==> sz[j] > 0) :: to[i] < to[j]
  }

  lemma {:induction false} ObjsGrows(sz: seq<nat>, i: nat, j: nat)
    requires FIRST_VAR_NODE <= i <= j <= |sz|
    ensures Objs(sz, i) <= Objs(sz, j) <= Objs(sz, i) + j - i
  {
    if i < j {
      ObjsGrows(sz, i, j - 1);
    }
  }

  lemma OrderStays(sz: seq<nat>, to: seq<nat>)
    requires MovesTo(sz, to, |sz|, |sz|) && |sz| >= FIRST_VAR_NODE
    ensures InOldOrder(sz, to)
  {
    forall i, j | FIRST_VAR_NODE <= i < j < |sz| && (sz[i] > 0 <==> sz[j] > 0) ensures to[i] < to[j] {
      ObjsGrows(sz, i + 1, j);
      assert Objs(sz, i + 1) == Objs(sz, i) + if sz[i] > 0 then 1 else 0;
      assert to[i] == Slot(sz, i) && to[j] == Slot(sz, j) by {
        assert Taken(sz, i, |sz|, |sz|) && Taken(sz, j, |sz|, |sz|);
      }
    }
  }

  lemma SpecialStay(sz: seq<nat>, to: seq<nat>)
    requires MovesTo(sz, to, |sz|, |sz|) && |sz| >= FIRST_VAR_NODE
    ensures forall i | 0 <= i < FIRST_VAR_NODE :: to[i] == i
  {
    forall i | 0 <= i < FIRST_VAR_NODE ensures to[i] == i {
      assert Taken(sz, i, |sz|, |sz|);
    }
  }

  lemma ListedLength(sz: seq<nat>, from: seq<nat>, a: nat, b: nat)
    requires Listed(sz, from, a, b)
    ensures |from| == Objs(sz, a) + b - Objs(sz, b) && (b == FIRST_VAR_NODE ==> Objs(sz, b) == 0)
  {
    hide Taken, Slot;
  }

  /** The nodes listed up to last are the objects. */
  lemma ObjectsInFront(sz: seq<nat>, from: seq<nat>, last: nat)
    requires Listed(sz, from, |sz|, |sz|) && |from| == |sz| && last + 1 == Objs(sz, |sz|) + FIRST_VAR_NODE
    ensures forall i: nat | FIRST_VAR_NODE <= i < |from| :: from[i] < |sz| && (sz[from[i]] > 0 <==> i <= last)
  {
    forall i: nat | FIRST_VAR_NODE <= i < |from| ensures from[i] < |sz| && (sz[from[i]] > 0 <==> i <= last) {
      ObjectsFirst(sz, from[i], |sz|);
    }
  }

  lemma EachPreserved(ly: Layout, cs: seq<FieldConstraint>, to: seq<nat>, from: seq<nat>, cs2: seq<FieldConstraint>)
    requires LayoutOk(ly) && FieldInRange(ly, cs) && |to| == |ly.sz| && IsRenumbering(to, from) && KeepsBlocks(ly, to) && IsMoved(to, cs, cs2)
    ensures forall n | 0 <= n < |to| :: At(FieldLeast(MovedLayout(ly, to, from), cs2, Identity(|to|)), to[n]) == MovedSet(to, At(FieldLeast(ly, cs, Identity(|to|)), n))
  {
    forall n: nat | n < |to|
      ensures At(FieldLeast(MovedLayout(ly, to, from), cs2, Identity(|to|)), to[n]) == MovedSet(to, At(FieldLeast(ly, cs, Identity(|to|)), n))
    {
      RenumberingPreserves(ly, cs, to, from, cs2, n);
    }
  }

  class NodeTable {
    const i2p: nat := 1
    var nodes: seq<nat>
    var constraints: seq<FieldConstraint>
    var lastObjNode: nat

    constructor (nodes: seq<nat>, constraints: seq<FieldConstraint>)
      ensures this.nodes == nodes && this.constraints == constraints
    {
      this.nodes, this.constraints, lastObjNode := nodes, constraints, 0;
    }

    /** Move the nodes that are objects, or the others, to the next places. */
    method MoveNodes(objects: bool, oldNodes: seq<nat>, moveTo: array<nat>, ghost from: seq<nat>) returns (ghost all: seq<nat>)
      requires moveTo.Length == |oldNodes| && |nodes| == |from| && Listed(oldNodes, from, if objects then FIRST_VAR_NODE else |oldNodes|, FIRST_VAR_NODE)
      requires MovesTo(oldNodes, moveTo[..], if objects then FIRST_VAR_NODE else |oldNodes|, FIRST_VAR_NODE)
      requires forall k | 0 <= k < |from| :: from[k] < |oldNodes| && nodes[k] == oldNodes[from[k]]
      modifies this`nodes, moveTo
      ensures |nodes| == |all| && Listed(oldNodes, all, |oldNodes|, if objects then FIRST_VAR_NODE else |oldNodes|)
      ensures MovesTo(oldNodes, moveTo[..], |oldNodes|, if objects then FIRST_VAR_NODE else |oldNodes|)
      ensures forall k | 0 <= k < |all| :: all[k] < |oldNodes| && nodes[k] == oldNodes[all[k]]
    {
      all := from;
      for i := FIRST_VAR_NODE to |oldNodes|
        invariant |nodes| == |all| && Listed(oldNodes, all, if objects then i else |oldNodes|, if objects then FIRST_VAR_NODE else i)
        invariant MovesTo(oldNodes, moveTo[..], if objects then i else |oldNodes|, if objects then FIRST_VAR_NODE else i)
        invariant forall k | 0 <= k < |all| :: all[k] < |oldNodes| && nodes[k] == oldNodes[all[k]]
      {
        ghost var a, b := if objects then i else |oldNodes|, if objects then FIRST_VAR_NODE else i;
        if (oldNodes[i] > 0) == objects {
          ListNext(oldNodes, all, a, b, i);
          moveTo[i] := |nodes|;
          nodes := nodes + [oldNodes[i]];
          all := all + [i];
        } else {
          ListSkip(oldNodes, all, a, b, i);
        }
      }
    }

    /** Move all objects to the front: the first nodes stay, the fields of an object stay behind
        it, all objects are numbered up to lastObjNode, and the least solution moves along. */
    method ClumpAddrTaken() returns (ghost to: seq<nat>, ghost from: seq<nat>)
      requires TableOk(Layout(nodes, i2p), constraints)
      modifies this
      ensures |to| == |old(nodes)| == |nodes| && IsRenumbering(to, from)
      ensures forall i | 0 <= i < FIRST_VAR_NODE :: to[i] == i
      ensures LayoutOk(Layout(old(nodes), i2p)) && KeepsBlocks(Layout(old(nodes), i2p), to)
      ensures Layout(nodes, i2p) == MovedLayout(Layout(old(nodes), i2p), to, from) && IsMoved(to, old(constraints), constraints)
      ensures forall i | FIRST_VAR_NODE <= i < |nodes| :: nodes[i] > 0 <==> i <= lastObjNode
      ensures InOldOrder(old(nodes), to)
      ensures forall c | c in constraints && c.ty.AddrOf? :: c.src <= lastObjNode
      ensures forall n | 0 <= n < |to| :: At(FieldLeast(Layout(nodes, i2p), constraints, Identity(|to|)), to[n])
                                       == MovedSet(to, At(FieldLeast(Layout(old(nodes), i2p), old(constraints), Identity(|to|)), n))
    {
      assert forall c | c in constraints :: c.dest < |nodes| && c.src < |nodes|;
      ghost var ly, cs := Layout(nodes, i2p), constraints;
      var oldNodes := nodes;
      var moveTo := new nat[|oldNodes|];
      moveTo[0], moveTo[1], moveTo[2] := 0, 1, 2;
      nodes := [oldNodes[0], oldNodes[1], oldNodes[2]];
      from := [0, 1, 2];
      FirstListed(oldNodes, from);
      hide TableOk, Listed, MovesTo, IsMoved, FieldLeast, Objs, InOldOrder;
      from := MoveNodes(true, oldNodes, moveTo, from);
      lastObjNode := |nodes| - 1;
      ListedLength(oldNodes, from, |oldNodes|, FIRST_VAR_NODE);
      from := MoveNodes(false, oldNodes, moveTo, from);
      to := moveTo[..];
      MoveConstraints(moveTo);
      AllClumped(ly, cs, to, from, nodes, constraints, lastObjNode);
    }

    method MoveConstraints(moveTo: array<nat>)
      requires forall c | c in constraints :: c.dest < moveTo.Length && c.src < moveTo.Length
      modifies this`constraints
      ensures IsMoved(moveTo[..], old(constraints), constraints)
    {
      for i := 0 to |constraints|
        invariant |constraints| == |old(constraints)|
        invariant forall k | 0 <= k < |constraints| :: constraints[k] == if k < i then MovedCons(moveTo[..], old(constraints)[k]) else old(constraints)[k]
      {
        var c := constraints[i];
        assert c in old(constraints);
        constraints := constraints[i := c.(dest := moveTo[c.dest], src := moveTo[c.src])];
      }
    }

    /** For every offset in use, the mask has exactly the objects with a field there. */
    method PtsInit() returns (offMask: seq<set<nat>>)
      requires lastObjNode < |nodes| && forall i | 0 <= i < |nodes| :: nodes[i] > 0 ==> i <= lastObjNode
      requires forall c | c in constraints && c.off > 0 :: SomeFits(nodes, c.off)
      ensures forall c | c in constraints && c.off > 0 :: c.off < |offMask| && forall x: nat :: x in offMask[c.off] <==> Fits(Layout(nodes, i2p), x, c.off)
      ensures forall k | 0 <= k < |offMask| && (k == 0 || !Used(constraints, k)) :: offMask[k] == {}
    {
      var validOff := set c | c in constraints && c.off > 0 :: c.off;
      forall k | k in validOff ensures SomeFits(nodes, k) {
        var c :| c in constraints && c.off == k;
      }
      var offNodes := GroupByOffset(validOff);
      offMask := SuffixUnions(validOff, offNodes);
    }

    /** Each object in the group of the largest offset in use that it has a field at. */
    method GroupByOffset(validOff: set<nat>) returns (offNodes: seq<set<nat>>)
      requires lastObjNode < |nodes| && forall i | 0 <= i < |nodes| :: nodes[i] > 0 ==> i <= lastObjNode
      ensures forall x | 0 <= x < |nodes| :: nodes[x] < 2 || nodes[x] <= |offNodes|
      ensures forall k | 0 <= k < |offNodes| :: InGroup(validOff, nodes, k, |nodes|, offNodes[k])
    {
      var maxSz := 0;
      offNodes := [];
      for i := 0 to lastObjNode + 1
        invariant |offNodes| == maxSz && forall x | 0 <= x < i :: nodes[x] < 2 || nodes[x] <= maxSz
        invariant forall k | 0 <= k < maxSz :: InGroup(validOff, nodes, k, i, offNodes[k])
      {
        var sz := nodes[i];
        if sz >= 2 {
          if maxSz < sz {
            offNodes := offNodes + seq(sz - maxSz, _ => {});
            maxSz := sz;
          }
          var off := sz - 1;
          while off != 0 && off !in validOff
            invariant off < sz && Largest(validOff, off) == Home(validOff, sz)
          {
            off := off - 1;
          }
          if off != 0 {
            offNodes := offNodes[off := offNodes[off] + {i}];
          }
        }
      }
    }

    /** The groups from each offset in use on, united. */
    method SuffixUnions(validOff: set<nat>, offNodes: seq<set<nat>>) returns (offMask: seq<set<nat>>)
      requires 0 !in validOff && forall k | k in validOff :: k < |offNodes|
      requires forall k | 0 <= k < |offNodes| :: InGroup(validOff, nodes, k, |nodes|, offNodes[k])
      ensures |offMask| == |offNodes| && forall k | k in validOff :: forall x: nat :: x in offMask[k] <==> Fits(Layout(nodes, i2p), x, k)
      ensures forall k | 0 <= k < |offMask| && k !in validOff :: offMask[k] == {}
    {
      offMask := seq(|offNodes|, _ => {});
      var om: set<nat>, left := {}, validOff;
      assert Masked(validOff, nodes, left, om, offMask);
      hide InGroup, Home;
      while left != {}
        invariant left <= validOff && |offMask| == |offNodes| && Masked(validOff, nodes, left, om, offMask)
      {
        GreatestExists(left);
        var off :| off in left && forall k | k in left :: k <= off;
        NextMask(validOff, nodes, left, off, om, offNodes[off], offMask);
        hide Masked;
        om := om + offNodes[off];
        offMask := offMask[off := om];
        left := left - {off};
      }
      AllMasked(validOff, nodes, om, offMask, i2p);
    }
  }
}
