/** The solver's priority worklist: two indexed binary min-heaps, each standing for a map from
    values to keys. */
module Heaps {

  const NONE: nat := 0xffff_ffff

  /** Positions 1 to n hold distinct values, and idxv is the exact inverse of hv. */
  ghost predicate Indexed(hv: seq<nat>, idxv: seq<nat>, n: nat) {
    && n < |hv| && |idxv| <= NONE && n < NONE
    && (forall i | 1 <= i <= n :: hv[i] < |idxv| && idxv[hv[i]] == i)
    && (forall v | 0 <= v < |idxv| && idxv[v] != NONE :: 1 <= idxv[v] <= n && hv[idxv[v]] == v)
  }

  /** No key is greater than its children's, but maybe for the one above position i. */
  ghost predicate OrderedAbove(hk: seq<nat>, n: nat, i: nat) {
    && n < |hk|
    && (forall j | 2 <= j <= n && j != i :: hk[j / 2] <= hk[j])
    && (forall j | 2 <= j <= n && j / 2 == i && i >= 2 :: hk[i / 2] <= hk[j])
  }

  /** Likewise, but maybe for those below position i. */
  ghost predicate OrderedBelow(hk: seq<nat>, n: nat, i: nat) {
    && n < |hk|
    && (forall j | 2 <= j <= n && j / 2 != i :: hk[j / 2] <= hk[j])
    && (forall j | 2 <= j <= n && j / 2 == i && i >= 2 :: hk[i / 2] <= hk[j])
  }

  ghost predicate Ordered(hk: seq<nat>, n: nat) {
    n < |hk| && forall j | 2 <= j <= n :: hk[j / 2] <= hk[j]
  }

  /** The keys of the values that are stored. */
  ghost function KeyMap(hk: seq<nat>, idxv: seq<nat>): map<nat, nat> {
    map v: nat | v < |idxv| && idxv[v] < |hk| :: hk[idxv[v]]
  }

  lemma {:induction false} FirstIsLeast(hk: seq<nat>, n: nat, i: nat)
    requires Ordered(hk, n) && 1 <= i <= n
    ensures hk[1] <= hk[i]
  {
    if i > 1 {
      FirstIsLeast(hk, n, i / 2);
    }
  }

  function Swap(s: seq<nat>, i: nat, j: nat): (r: seq<nat>)
    requires i < |s| && j < |s|
    ensures |r| == |s| && forall k | 0 <= k < |s| :: r[k] == if k == i then s[j] else if k == j then s[i] else s[k]
  {
    s[i := s[j]][j := s[i]]
  }

  lemma SwapKeeps(hk: seq<nat>, hv: seq<nat>, idxv: seq<nat>, n: nat, i: nat, j: nat)
    requires Indexed(hv, idxv, n) && |hk| == |hv| && 1 <= i <= n && 1 <= j <= n && i != j && |hk| <= NONE
    ensures hv[i] < |idxv| && hv[j] < |idxv|
    ensures Indexed(Swap(hv, i, j), idxv[hv[j] := i][hv[i] := j], n)
    ensures KeyMap(Swap(hk, i, j), idxv[hv[j] := i][hv[i] := j]) == KeyMap(hk, idxv)
  {
    assert hv[i] != hv[j] by {
      assert idxv[hv[i]] == i && idxv[hv[j]] == j;
    }
    var idx2 := idxv[hv[j] := i][hv[i] := j];
    forall v: nat | v < |idxv| ensures idx2[v] == if v == hv[i] then j else if v == hv[j] then i else idxv[v] {
    }
    forall v: nat | v < |idxv| ensures idx2[v] < |hk| <==> idxv[v] < |hk| {
    }
  }

  /** Two keys exchanged on the way up. */
  lemma UpStep(hk: seq<nat>, n: nat, i: nat)
    requires OrderedAbove(hk, n, i) && 2 <= i <= n && hk[i / 2] > hk[i]
    ensures OrderedAbove(Swap(hk, i, i / 2), n, i / 2)
  {
    var h2, p := Swap(hk, i, i / 2), i / 2;
    forall j | 2 <= j <= n && j != p ensures h2[j / 2] <= h2[j] {
      if j / 2 == i {
      } else if j / 2 == p {
      } else if j == i {
      }
    }
    forall j | 2 <= j <= n && j / 2 == p && p >= 2 ensures h2[p / 2] <= h2[j] {
      assert hk[p / 2] <= hk[p];
    }
  }

  /** And on the way down, with the smaller child. */
  lemma DownStep(hk: seq<nat>, n: nat, i: nat, c: nat)
    requires OrderedBelow(hk, n, i) && 1 <= i && 2 <= c <= n && c / 2 == i && hk[c] < hk[i]
    requires forall j | 2 <= j <= n && j / 2 == i :: hk[c] <= hk[j]
    ensures OrderedBelow(Swap(hk, i, c), n, c)
  {
    var h2 := Swap(hk, i, c);
    forall j | 2 <= j <= n && j / 2 != c ensures h2[j / 2] <= h2[j] {
      if j == i {
        assert hk[i / 2] <= hk[c];
      }
    }
  }

  class Heap {
    var hk: seq<nat>
    var hv: seq<nat>
    var maxv: nat
    var nv: nat
    var idxv: array<nat>

    ghost predicate Valid()
      reads this, idxv
    {
      && |hk| == |hv| == nv + 1 && idxv.Length == maxv + 1 && maxv + 3 < NONE
      && Indexed(hv, idxv[..], nv) && Ordered(hk, nv)
    }

    /** The map from values to keys that the heap stands for. */
    ghost function Map(): map<nat, nat>
      reads this, idxv
    {
      KeyMap(hk, idxv[..])
    }

    constructor (mv: nat)
      requires mv + 3 < NONE
      ensures Valid() && Map() == map[] && maxv == mv && fresh(idxv)
    {
      maxv, nv := mv, 0;
      hk, hv := [0], [0];
      idxv := new nat[mv + 1](_ => NONE);
    }

    predicate Empty()
      reads this
    {
      nv == 0
    }

    method Exchange(i: nat, j: nat, ghost n: nat)
      requires |hk| == |hv| <= NONE && Indexed(hv, idxv[..], n) && 1 <= i <= n && 1 <= j <= n && i != j
      modifies this`hk, this`hv, idxv
      ensures idxv == old(idxv) && hk == Swap(old(hk), i, j) && hv == Swap(old(hv), i, j)
      ensures Indexed(hv, idxv[..], n) && Map() == old(Map())
    {
      SwapKeeps(hk, hv, idxv[..], n, i, j);
      ghost var was: seq<nat> := idxv[..];
      var v, vp := hv[i], hv[j];
      hk := hk[i := hk[j]][j := hk[i]];
      hv := hv[i := vp][j := v];
      idxv[vp] := i;
      idxv[v] := j;
      assert idxv[..] == was[vp := i][v := j];
    }

    /** Percolate up from position i0. */
    method PercUp(i0: nat)
      requires |hk| == |hv| == nv + 1 && Indexed(hv, idxv[..], nv) && 1 <= i0 <= nv && OrderedAbove(hk, nv, i0)
      modifies this`hk, this`hv, idxv
      ensures |hk| == |hv| == nv + 1 && Indexed(hv, idxv[..], nv) && Ordered(hk, nv)
      ensures Map() == old(Map())
    {
      hide Indexed, KeyMap;
      IndexedSize(hv, idxv[..], nv);
      var i := i0;
      while true
        invariant |hk| == |hv| == nv + 1 && Indexed(hv, idxv[..], nv) && 1 <= i <= nv && OrderedAbove(hk, nv, i)
        invariant Map() == old(Map())
        decreases i
      {
        var ip := i / 2;
        if ip == 0 {
          return;
        }
        if hk[ip] <= hk[i] {
          return;
        }
        UpStep(hk, nv, i);
        Exchange(i, ip, nv);
        i := ip;
      }
    }

    /** Percolate down from position i0. */
    method PercDn(i0: nat)
      requires |hk| == |hv| <= NONE && Indexed(hv, idxv[..], nv) && 1 <= i0 <= nv && OrderedBelow(hk, nv, i0)
      modifies this`hk, this`hv, idxv
      ensures |hk| == |hv| == old(|hk|) && Indexed(hv, idxv[..], nv) && Ordered(hk, nv)
      ensures Map() == old(Map())
    {
      hide Indexed, KeyMap;
      var i := i0;
      while true
        invariant |hk| == |hv| == old(|hk|) && Indexed(hv, idxv[..], nv) && 1 <= i <= nv && OrderedBelow(hk, nv, i)
        invariant Map() == old(Map())
        decreases nv - i
      {
        var ic := i * 2;
        if ic > nv {
          return;
        }
        if ic < nv {
          if hk[ic + 1] < hk[ic] {
            ic := ic + 1;
          }
        }
        assert forall j | 2 <= j <= nv && j / 2 == i :: j == 2 * i || j == 2 * i + 1;
        if hk[ic] >= hk[i] {
          return;
        }
        DownStep(hk, nv, i, ic);
        Exchange(i, ic, nv);
        i := ic;
      }
    }

    /** Insert a value, or change its key; returns whether it was there. */
    method Push(v: nat, k: nat) returns (existed: bool)
      requires Valid() && v <= maxv
      modifies this`hk, this`hv, this`nv, idxv
      ensures Valid() && existed == (v in old(Map())) && Map() == old(Map())[v := k]
    {
      SizeBound(hv, idxv[..], nv);
      var i := idxv[v];
      if i == NONE {
        Appended(hk, hv, idxv[..], nv, v, k);
        ghost var was: seq<nat> := idxv[..];
        hk := hk + [k];
        hv := hv + [v];
        nv := nv + 1;
        idxv[v] := nv;
        assert idxv[..] == was[v := nv];
        PercUp(nv);
        return false;
      }
      var pk := hk[i];
      Changed(hk, hv, idxv[..], nv, v, k);
      if k == pk {
        assert hk[i := k] == hk;
        return true;
      }
      hk := hk[i := k];
      if k < pk {
        PercUp(i);
      } else {
        PercDn(i);
      }
      return true;
    }

    /** Move the last item, at nv + 1, to the first position, and down from there. */
    method MoveLast()
      requires |hk| == |hv| == nv + 2 <= NONE && nv > 0 && hv[nv + 1] < idxv.Length
      requires Indexed(hv[1 := hv[nv + 1]], idxv[..][hv[nv + 1] := 1], nv) && OrderedBelow(hk[1 := hk[nv + 1]], nv, 1)
      modifies this`hk, this`hv, idxv
      ensures |hk| == |hv| == nv + 2 && Indexed(hv[..nv + 1], idxv[..], nv) && Ordered(hk[..nv + 1], nv)
      ensures KeyMap(hk[..nv + 1], idxv[..]) == old(KeyMap(hk[1 := hk[nv + 1]], idxv[..][hv[nv + 1] := 1]))
    {
      hide Indexed, KeyMap, Ordered, OrderedBelow;
      ghost var was: seq<nat> := idxv[..];
      hk := hk[1 := hk[nv + 1]];
      var lv := hv[nv + 1];
      hv := hv[1 := lv];
      idxv[lv] := 1;
      assert idxv[..] == was[lv := 1];
      PercDn(1);
      DroppedLast(hk, hv, idxv[..], nv);
    }

    /** Delete and return the value with the least key, and the key. */
    method Pop() returns (v: nat, k: nat)
      requires Valid() && nv > 0
      modifies this`hk, this`hv, this`nv, idxv
      ensures Valid() && v in old(Map()) && k == old(Map())[v] && Map() == old(Map()) - {v}
      ensures forall w | w in old(Map()) :: k <= old(Map())[w]
    {
      hide Indexed, KeyMap, Ordered, OrderedBelow;
      Popped(hk, hv, idxv[..], nv);
      SizeBound(hv, idxv[..], nv);
      k, v := hk[1], hv[1];
      ghost var was: seq<nat> := idxv[..];
      idxv[v] := NONE;
      assert idxv[..] == was[v := NONE];
      nv := nv - 1;
      if nv != 0 {
        MoveLast();
      } else {
        assert hk[..1] == [hk[0]] && hv[..1] == [hv[0]];
        OneIsOrdered([hk[0]]);
      }
      hk := hk[..|hk| - 1];
      hv := hv[..|hv| - 1];
    }
  }

  lemma OneIsOrdered(hk: seq<nat>)
    requires |hk| == 1
    ensures Ordered(hk, 0)
  {
  }

  lemma IndexedSize(hv: seq<nat>, idxv: seq<nat>, n: nat)
    requires Indexed(hv, idxv, n)
    ensures n < NONE
  {
  }

  lemma Appended(hk: seq<nat>, hv: seq<nat>, idxv: seq<nat>, n: nat, v: nat, k: nat)
    requires |hk| == |hv| == n + 1 && Indexed(hv, idxv, n) && Ordered(hk, n) && v < |idxv| && idxv[v] == NONE && n + 2 < NONE
    ensures Indexed(hv + [v], idxv[v := n + 1], n + 1) && OrderedAbove(hk + [k], n + 1, n + 1)
    ensures v !in KeyMap(hk, idxv) && KeyMap(hk + [k], idxv[v := n + 1]) == KeyMap(hk, idxv)[v := k]
  {
  }

  lemma Changed(hk: seq<nat>, hv: seq<nat>, idxv: seq<nat>, n: nat, v: nat, k: nat)
    requires |hk| == |hv| == n + 1 && Indexed(hv, idxv, n) && Ordered(hk, n) && v < |idxv| && idxv[v] != NONE && n + 1 < NONE
    ensures 1 <= idxv[v] <= n && v in KeyMap(hk, idxv) && KeyMap(hk[idxv[v] := k], idxv) == KeyMap(hk, idxv)[v := k]
    ensures k <= hk[idxv[v]] ==> OrderedAbove(hk[idxv[v] := k], n, idxv[v])
    ensures k >= hk[idxv[v]] ==> OrderedBelow(hk[idxv[v] := k], n, idxv[v])
  {
    var i := idxv[v];
    forall j | 2 <= j <= n && j / 2 == i && i >= 2 ensures hk[i / 2] <= hk[j] {
      assert hk[i / 2] <= hk[i] <= hk[j];
    }
  }

  /** The first value taken out and the last put in its place. */
  lemma Popped(hk: seq<nat>, hv: seq<nat>, idxv: seq<nat>, n: nat)
    requires |hk| == |hv| == n + 1 && Indexed(hv, idxv, n) && Ordered(hk, n) && n > 0
    ensures hv[1] < |idxv| && hv[1] in KeyMap(hk, idxv) && KeyMap(hk, idxv)[hv[1]] == hk[1]
    ensures forall w | w in KeyMap(hk, idxv) :: hk[1] <= KeyMap(hk, idxv)[w]
    ensures n > 1 ==> hv[n] < |idxv| && OrderedBelow(hk[1 := hk[n]], n - 1, 1)
    ensures n > 1 ==> Indexed(hv[1 := hv[n]], idxv[hv[1] := NONE][hv[n] := 1], n - 1)
    ensures n > 1 ==> KeyMap(hk[1 := hk[n]], idxv[hv[1] := NONE][hv[n] := 1]) == KeyMap(hk, idxv) - {hv[1]}
    ensures n == 1 ==> Indexed([hv[0]], idxv[hv[1] := NONE], 0) && KeyMap([hk[0]], idxv[hv[1] := NONE]) == KeyMap(hk, idxv) - {hv[1]}
  {
    forall i | 1 <= i <= n ensures hk[1] <= hk[i] {
      FirstIsLeast(hk, n, i);
    }
    assert idxv[hv[n]] == n && idxv[hv[1]] == 1;
  }

  lemma DroppedLast(hk: seq<nat>, hv: seq<nat>, idxv: seq<nat>, n: nat)
    requires |hk| == |hv| == n + 2 <= NONE && Indexed(hv, idxv, n) && Ordered(hk, n)
    ensures Indexed(hv[..n + 1], idxv, n) && Ordered(hk[..n + 1], n) && KeyMap(hk[..n + 1], idxv) == KeyMap(hk, idxv)
  {
  }

  /** Two heaps: what is pushed is kept for the next pass. */
  class Worklist {
    var curr: Heap
    var next: Heap

    ghost predicate Valid()
      reads this, curr, next, curr.idxv, next.idxv
    {
      && curr.Valid() && next.Valid() && curr != next && curr.idxv != next.idxv
      && curr.maxv == next.maxv
    }

    ghost function Curr(): map<nat, nat>
      reads this, curr, curr.idxv
    {
      curr.Map()
    }

    ghost function Next(): map<nat, nat>
      reads this, next, next.idxv
    {
      next.Map()
    }

    /** The objects that make up the worklist. */
    ghost function Repr(): set<object>
      reads this, curr, next
    {
      {this, curr, next, curr.idxv, next.idxv}
    }

    constructor (nn: nat)
      requires nn + 3 < NONE
      ensures Valid() && fresh(Repr()) && curr.maxv == nn && Curr() == map[] && Next() == map[]
    {
      curr := new Heap(nn);
      next := new Heap(nn);
    }

    predicate Empty()
      reads this, curr
    {
      curr.Empty()
    }

    /** Go on to the next pass if nothing is left in the current one. */
    method SwapIfEmpty() returns (swapped: bool)
      requires Valid()
      modifies this
      ensures Valid() && Repr() == old(Repr()) && curr.maxv == old(curr.maxv) && swapped == (old(Curr()) == map[])
      ensures swapped ==> Curr() == old(Next()) && Next() == map[]
      ensures !swapped ==> Curr() == old(Curr()) && Next() == old(Next())
    {
      EmptyMap(curr.hk, curr.hv, curr.idxv[..], curr.nv);
      if curr.Empty() {
        curr, next := next, curr;
        return true;
      }
      return false;
    }

    method Push(n: nat, p: nat)
      requires Valid() && n <= next.maxv
      modifies next, next.idxv
      ensures Valid() && Repr() == old(Repr()) && curr.maxv == old(curr.maxv)
      ensures Next() == old(Next())[n := p] && Curr() == old(Curr())
    {
      var existed := next.Push(n, p);
    }

    /** The node with the least key in the current pass. */
    method Pop() returns (n: nat, p: nat)
      requires Valid() && !Empty()
      modifies curr, curr.idxv
      ensures Valid() && Repr() == old(Repr()) && curr.maxv == old(curr.maxv)
      ensures n in old(Curr()) && p == old(Curr())[n] && Curr() == old(Curr()) - {n} && Next() == old(Next())
      ensures forall w | w in old(Curr()) :: p <= old(Curr())[w]
    {
      n, p := curr.Pop();
    }
  }

  lemma EmptyMap(hk: seq<nat>, hv: seq<nat>, idxv: seq<nat>, n: nat)
    requires |hk| == |hv| == n + 1 && Indexed(hv, idxv, n)
    ensures n == 0 <==> KeyMap(hk, idxv) == map[]
  {
    if n > 0 {
      assert hv[1] in KeyMap(hk, idxv);
    }
  }

  /** A heap holds at most one entry for each value it may hold. */
  lemma SizeBound(hv: seq<nat>, idxv: seq<nat>, n: nat)
    requires Indexed(hv, idxv, n)
    ensures n <= |idxv|
  {
    ValuesCount(hv, idxv, n, n);
    BelowCount(|idxv|);
    assert Values(hv, n) <= Below(|idxv|);
    Bounded(Values(hv, n), Below(|idxv|));
  }

  ghost function Values(hv: seq<nat>, n: nat): set<nat>
    requires n < |hv|
  {
    set i | 1 <= i <= n :: hv[i]
  }

  ghost function Below(n: nat): set<nat> {
    if n == 0 then {} else Below(n - 1) + {n - 1}
  }

  lemma {:induction false} ValuesCount(hv: seq<nat>, idxv: seq<nat>, n: nat, k: nat)
    requires Indexed(hv, idxv, n) && k <= n
    ensures |Values(hv, k)| == k
  {
    if k > 0 {
      ValuesCount(hv, idxv, n, k - 1);
      assert Values(hv, k) == Values(hv, k - 1) + {hv[k]};
      assert hv[k] !in Values(hv, k - 1);
    }
  }

  lemma {:induction false} BelowCount(n: nat)
    ensures |Below(n)| == n && forall v: nat :: v in Below(n) <==> v < n
  {
    if n > 0 {
      BelowCount(n - 1);
    }
  }

  lemma {:induction false} Bounded(a: set<nat>, b: set<nat>)
    requires a <= b
    ensures |a| <= |b|
  {
    if x :| x in a {
      Bounded(a - {x}, b - {x});
    }
  }
}
