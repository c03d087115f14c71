/** A set of naturals as a sorted list of fixed-size elements, with a cursor at the last one used. */
module Bitmap {

  const ELEMENT_SIZE: nat := 128

  /** The bits of the numbers from index * ELEMENT_SIZE on. */
  datatype Element = Element(index: nat, bits: set<nat>)

  /** The form is canonical: elements in order, none empty. */
  ghost predicate ListOk(es: seq<Element>) {
    && (forall i, j | 0 <= i < j < |es| :: es[i].index < es[j].index)
    && (forall i | 0 <= i < |es| :: ElementOk(es[i]))
  }

  ghost predicate ElementOk(e: Element) {
    e.bits != {} && forall b | b in e.bits :: b < ELEMENT_SIZE
  }

  predicate InElement(e: Element, n: nat) {
    e.index == n / ELEMENT_SIZE && n % ELEMENT_SIZE in e.bits
  }

  /** n is in the set. */
  ghost predicate Has(es: seq<Element>, n: nat) {
    exists i :: 0 <= i < |es| && InElement(es[i], n)
  }

  /** The number of bit b of element k. */
  lemma BitNumber(k: nat, b: nat)
    requires b < ELEMENT_SIZE
    ensures (k * ELEMENT_SIZE + b) / ELEMENT_SIZE == k && (k * ELEMENT_SIZE + b) % ELEMENT_SIZE == b
  {
  }

  /** Equal sets have equal lists. */
  lemma {:induction false} Canonical(a: seq<Element>, b: seq<Element>)
    requires ListOk(a) && ListOk(b) && forall n: nat :: Has(a, n) <==> Has(b, n)
    ensures a == b
  {
    if a != [] && b != [] {
      FirstAgrees(a, b);
      FirstAgrees(b, a);
      forall n: nat ensures Has(a[1..], n) <==> Has(b[1..], n) {
        HasTail(a, n);
        HasTail(b, n);
      }
      Canonical(a[1..], b[1..]);
      assert a[0] == b[0] && a == [a[0]] + a[1..] && b == [b[0]] + b[1..];
    } else if a != [] {
      var b0 :| b0 in a[0].bits;
      HasBit(a, 0, b0);
    } else if b != [] {
      var b0 :| b0 in b[0].bits;
      HasBit(b, 0, b0);
    }
  }

  lemma HasBit(es: seq<Element>, i: nat, b: nat)
    requires ListOk(es) && i < |es| && b in es[i].bits
    ensures Has(es, es[i].index * ELEMENT_SIZE + b)
  {
    assert ElementOk(es[i]);
    BitNumber(es[i].index, b);
    assert InElement(es[i], es[i].index * ELEMENT_SIZE + b);
  }

  lemma HasTail(es: seq<Element>, n: nat)
    requires es != [] && ListOk(es)
    ensures Has(es[1..], n) <==> Has(es, n) && n / ELEMENT_SIZE != es[0].index
  {
    if i :| 0 <= i < |es| - 1 && InElement(es[1..][i], n) {
      assert InElement(es[i + 1], n) && es[0].index < es[i + 1].index;
    }
    if i :| 0 <= i < |es| && InElement(es[i], n) && n / ELEMENT_SIZE != es[0].index {
      assert InElement(es[1..][i - 1], n);
    }
  }

  lemma FirstAgrees(a: seq<Element>, b: seq<Element>)
    requires ListOk(a) && ListOk(b) && a != [] && b != [] && forall n: nat | Has(a, n) :: Has(b, n)
    ensures b[0].index <= a[0].index && (b[0].index == a[0].index ==> a[0].bits <= b[0].bits)
  {
    forall x | x in a[0].bits ensures b[0].index <= a[0].index && (b[0].index == a[0].index ==> x in b[0].bits) {
      var n := a[0].index * ELEMENT_SIZE + x;
      HasBit(a, 0, x);
      assert ElementOk(a[0]);
      BitNumber(a[0].index, x);
      var i :| 0 <= i < |b| && InElement(b[i], n);
      assert i == 0 || b[0].index < b[i].index;
    }
    assert ElementOk(a[0]);
    var x :| x in a[0].bits;
  }

  /** The search for element k ends at i: at k if there is one, else beside where it would be. */
  ghost predicate FoundAt(es: seq<Element>, k: nat, i: nat) {
    && i <= |es|
    && (forall j | 0 <= j < i :: es[j].index < k)
    && (i < |es| && es[i].index < k ==> forall j | i < j < |es| :: es[j].index > k)
    && (i < |es| && es[i].index > k ==> forall j | i <= j < |es| :: es[j].index > k)
  }

  /** If the search did not end at element k, no number of that element is in the set. */
  lemma NotFound(es: seq<Element>, k: nat, i: nat, n: nat)
    requires ListOk(es) && FoundAt(es, k, i) && n / ELEMENT_SIZE == k
    ensures Has(es, n) <==> i < |es| && InElement(es[i], n)
  {
    if Has(es, n) {
      var j :| 0 <= j < |es| && InElement(es[j], n);
      assert j == i;
    }
  }

  /** Changing the bits of one element changes the numbers of that element only. */
  lemma Updated(es: seq<Element>, i: nat, e: Element, n: nat)
    requires ListOk(es) && i < |es| && e.index == es[i].index
    ensures Has(es[i := e], n) <==> if n / ELEMENT_SIZE == e.index then n % ELEMENT_SIZE in e.bits else Has(es, n)
  {
    var fs := es[i := e];
    assert n / ELEMENT_SIZE == e.index ==> (InElement(fs[i], n) <==> n % ELEMENT_SIZE in e.bits);
    forall j | 0 <= j < |es| ensures j != i ==> fs[j] == es[j] && fs[j].index != e.index {
      assert j < i ==> es[j].index < es[i].index;
      assert i < j ==> es[i].index < es[j].index;
    }
    if Has(es, n) && n / ELEMENT_SIZE != e.index {
      var j :| 0 <= j < |es| && InElement(es[j], n);
      assert InElement(fs[j], n);
    }
    if Has(fs, n) {
      var j :| 0 <= j < |fs| && InElement(fs[j], n);
      assert j != i ==> InElement(es[j], n);
    }
  }

  lemma Removed(es: seq<Element>, i: nat, n: nat)
    requires ListOk(es) && i < |es|
    ensures Has(es[..i] + es[i + 1..], n) <==> Has(es, n) && n / ELEMENT_SIZE != es[i].index
  {
    var fs := es[..i] + es[i + 1..];
    if j :| 0 <= j < |es| && InElement(es[j], n) && n / ELEMENT_SIZE != es[i].index {
      assert fs[if j < i then j else j - 1] == es[j];
      assert InElement(fs[if j < i then j else j - 1], n);
    }
    if j :| 0 <= j < |fs| && InElement(fs[j], n) {
      var h := if j < i then j else j + 1;
      assert fs[j] == es[h] && InElement(es[h], n);
      assert h < i ==> es[h].index < es[i].index;
      assert i < h ==> es[i].index < es[h].index;
    }
  }

  /** The list with new bits in one element, or without it if there are none. */
  function Replaced(es: seq<Element>, i: nat, e: Element): seq<Element>
    requires i < |es|
  {
    if e.bits == {} then es[..i] + es[i + 1..] else es[i := e]
  }

  lemma ReplacedOk(es: seq<Element>, i: nat, e: Element)
    requires ListOk(es) && i < |es| && e.index == es[i].index && e.bits <= es[i].bits
    ensures ListOk(Replaced(es, i, e)) && forall a | 0 <= a < i :: Replaced(es, i, e)[a].index == es[a].index
  {
    assert ElementOk(es[i]);
  }

  lemma ReplacedHas(es: seq<Element>, i: nat, e: Element, n: nat)
    requires ListOk(es) && i < |es| && e.index == es[i].index
    ensures Has(Replaced(es, i, e), n) <==> if n / ELEMENT_SIZE == e.index then n % ELEMENT_SIZE in e.bits else Has(es, n)
    ensures Replaced(es, i, es[i]) == es || es[i].bits == {}
  {
    if e.bits == {} {
      Removed(es, i, n);
    } else {
      Updated(es, i, e, n);
    }
  }

  /** Taking n out of its element, and the element out of the list if nothing is left of it. */
  function Without(es: seq<Element>, i: nat, n: nat): seq<Element>
    requires i < |es|
  {
    Replaced(es, i, es[i].(bits := es[i].bits - {n % ELEMENT_SIZE}))
  }

  lemma WithoutHas(es: seq<Element>, i: nat, n: nat, m: nat)
    requires ListOk(es) && i < |es| && es[i].index == n / ELEMENT_SIZE
    ensures ListOk(Without(es, i, n)) && (Has(Without(es, i, n), m) <==> Has(es, m) && m != n)
  {
    var e := es[i].(bits := es[i].bits - {n % ELEMENT_SIZE});
    assert ElementOk(es[i]);
    ReplacedOk(es, i, e);
    ReplacedHas(es, i, e, m);
    ReplacedHas(es, i, es[i], m);
    assert m == n <==> m / ELEMENT_SIZE == n / ELEMENT_SIZE && m % ELEMENT_SIZE == n % ELEMENT_SIZE;
    hide Has, ListOk;
  }

  lemma Inserted(es: seq<Element>, i: nat, e: Element, n: nat)
    requires ListOk(es) && i <= |es| && ElementOk(e)
    requires (forall j | 0 <= j < i :: es[j].index < e.index) && (forall j | i <= j < |es| :: es[j].index > e.index)
    ensures ListOk(es[..i] + [e] + es[i..])
    ensures Has(es[..i] + [e] + es[i..], n) <==> Has(es, n) || InElement(e, n)
  {
    var fs := es[..i] + [e] + es[i..];
    assert forall j | 0 <= j < |fs| :: fs[j] == if j < i then es[j] else if j == i then e else es[j - 1];
    if j :| 0 <= j < |es| && InElement(es[j], n) {
      assert InElement(fs[if j < i then j else j + 1], n);
    }
    if InElement(e, n) {
      assert InElement(fs[i], n);
    }
    if j :| 0 <= j < |fs| && InElement(fs[j], n) && j != i {
      assert InElement(es[if j < i then j else j - 1], n);
    }
  }

  function With(es: seq<Element>, i: nat, n: nat): seq<Element>
    requires i < |es|
  {
    es[i := es[i].(bits := es[i].bits + {n % ELEMENT_SIZE})]
  }

  lemma WithOk(es: seq<Element>, i: nat, n: nat)
    requires ListOk(es) && i < |es|
    ensures ListOk(With(es, i, n))
  {
    assert ElementOk(es[i]);
  }

  lemma WithHas(es: seq<Element>, i: nat, n: nat, m: nat)
    requires ListOk(es) && i < |es| && es[i].index == n / ELEMENT_SIZE
    ensures Has(With(es, i, n), m) <==> Has(es, m) || m == n
  {
    Updated(es, i, With(es, i, n)[i], m);
    Updated(es, i, es[i], m);
    assert es[i := es[i]] == es;
    hide Has;
  }

  /** A new element goes before the one the search ended at, or behind it if that is too low. */
  lemma InsertAt(es: seq<Element>, k: nat, i: nat, n: nat)
    requires ListOk(es) && FoundAt(es, k, i) && k == n / ELEMENT_SIZE && (i < |es| ==> es[i].index != k)
    ensures
      var p := if i < |es| && es[i].index < k then i + 1 else i;
      var r := es[..p] + [Element(k, {n % ELEMENT_SIZE})] + es[p..];
      ListOk(r) && forall m: nat :: Has(r, m) <==> Has(es, m) || m == n
  {
    var p := if i < |es| && es[i].index < k then i + 1 else i;
    var e := Element(k, {n % ELEMENT_SIZE});
    forall m: nat ensures ListOk(es[..p] + [e] + es[p..]) && (Has(es[..p] + [e] + es[p..], m) <==> Has(es, m) || m == n) {
      Inserted(es, p, e, m);
      assert m == n <==> InElement(e, m);
      hide Has, ListOk;
    }
  }

  ghost predicate Grown(before: seq<Element>, after: seq<Element>) {
    exists n: nat :: Has(after, n) && !Has(before, n)
  }

  /** cur has the numbers of es and those of the first j elements of rs, and the elements before
      the i-th need not be looked at again. */
  ghost predicate UnionUpTo(es: seq<Element>, rs: seq<Element>, cur: seq<Element>, i: nat, j: nat) {
    && ListOk(es) && ListOk(rs) && ListOk(cur) && i <= |cur| && j <= |rs|
    && (forall n: nat :: Has(cur, n) <==> Has(es, n) || Has(rs[..j], n))
    && (j < |rs| ==> forall a | 0 <= a < i :: cur[a].index < rs[j].index)
  }

  lemma HasSnoc(rs: seq<Element>, j: nat, n: nat)
    requires j < |rs|
    ensures Has(rs[..j + 1], n) <==> Has(rs[..j], n) || InElement(rs[j], n)
  {
    if i :| 0 <= i < j && InElement(rs[..j][i], n) {
      assert rs[..j + 1][i] == rs[i];
    }
    if InElement(rs[j], n) {
      assert rs[..j + 1][j] == rs[j];
    }
    var upTo := rs[..j + 1];
    if i :| 0 <= i < |upTo| && InElement(upTo[i], n) {
      assert i < j ==> rs[..j][i] == rs[i];
    }
  }

  lemma UnionStart(es: seq<Element>, rs: seq<Element>)
    requires ListOk(es) && ListOk(rs)
    ensures UnionUpTo(es, rs, es, 0, 0) && !Grown(es, es)
  {
  }

  lemma UnionEnd(es: seq<Element>, rs: seq<Element>, cur: seq<Element>, i: nat)
    requires UnionUpTo(es, rs, cur, i, |rs|)
    ensures ListOk(cur) && forall n: nat :: Has(cur, n) <==> Has(es, n) || Has(rs, n)
    ensures Grown(es, cur) <==> exists n: nat :: Has(cur, n) && !Has(es, n)
  {
    assert rs[..|rs|] == rs;
  }

  lemma UnionInsert(es: seq<Element>, rs: seq<Element>, cur: seq<Element>, i: nat, j: nat)
    requires UnionUpTo(es, rs, cur, i, j) && j < |rs| && (i < |cur| ==> cur[i].index > rs[j].index)
    ensures
      var next := cur[..i] + [rs[j]] + cur[i..];
      UnionUpTo(es, rs, next, i + 1, j + 1) && Grown(es, next)
  {
    var next := cur[..i] + [rs[j]] + cur[i..];
    assert ElementOk(rs[j]);
    forall n: nat ensures ListOk(next) && (Has(next, n) <==> Has(es, n) || Has(rs[..j + 1], n)) {
      Inserted(cur, i, rs[j], n);
      HasSnoc(rs, j, n);
    }
    var b :| b in rs[j].bits;
    BitNumber(rs[j].index, b);
    var n := rs[j].index * ELEMENT_SIZE + b;
    Inserted(cur, i, rs[j], n);
    assert Has(next, n) && !Has(cur, n);
  }

  lemma UnionMeet(es: seq<Element>, rs: seq<Element>, cur: seq<Element>, i: nat, j: nat, changed: bool)
    requires UnionUpTo(es, rs, cur, i, j) && j < |rs| && i < |cur| && cur[i].index == rs[j].index && (changed <==> Grown(es, cur))
    ensures
      var e := cur[i].(bits := cur[i].bits + rs[j].bits);
      UnionUpTo(es, rs, cur[i := e], i + 1, j + 1) && (changed || e != cur[i] <==> Grown(es, cur[i := e]))
      && (cur == rs && i == j ==> cur[i := e] == cur)
  {
    var e := cur[i].(bits := cur[i].bits + rs[j].bits);
    var next := cur[i := e];
    assert ElementOk(cur[i]) && ElementOk(rs[j]);
    assert ListOk(next);
    forall n: nat ensures Has(next, n) <==> Has(cur, n) || InElement(rs[j], n) {
      Updated(cur, i, e, n);
      Updated(cur, i, cur[i], n);
      assert cur[i := cur[i]] == cur;
    }
    forall n: nat ensures Has(next, n) <==> Has(es, n) || Has(rs[..j + 1], n) {
      HasSnoc(rs, j, n);
    }
    if b :| b in rs[j].bits && b !in cur[i].bits {
      BitNumber(e.index, b);
      var n := e.index * ELEMENT_SIZE + b;
      Updated(cur, i, e, n);
      Updated(cur, i, cur[i], n);
      assert cur[i := cur[i]] == cur;
      assert Has(next, n) && !Has(cur, n);
    } else {
      assert e == cur[i] && next == cur;
    }
  }

  lemma UnionPass(es: seq<Element>, rs: seq<Element>, cur: seq<Element>, i: nat, j: nat)
    requires UnionUpTo(es, rs, cur, i, j) && j < |rs| && i < |cur| && cur[i].index < rs[j].index
    ensures UnionUpTo(es, rs, cur, i + 1, j)
  {
  }

  /** cur has the numbers of es that are not in the first j elements of rs, and the elements before
      the i-th need not be looked at again. */
  ghost predicate MinusUpTo(es: seq<Element>, rs: seq<Element>, cur: seq<Element>, i: nat, j: nat) {
    && ListOk(es) && ListOk(rs) && ListOk(cur) && i <= |cur| && j <= |rs|
    && (forall n: nat :: Has(cur, n) <==> Has(es, n) && !Has(rs[..j], n))
    && (j < |rs| ==> forall a | 0 <= a < i :: cur[a].index < rs[j].index)
  }

  lemma MinusStart(es: seq<Element>, rs: seq<Element>)
    requires ListOk(es) && ListOk(rs)
    ensures MinusUpTo(es, rs, es, 0, 0) && !Grown(es, es)
    ensures es == [] || rs == [] ==> forall n: nat :: !Has(es, n) || !Has(rs, n)
  {
  }

  /** A number of the list is not in elements that come after all of the list's. */
  lemma NotBehind(cur: seq<Element>, rs: seq<Element>, j: nat, n: nat)
    requires ListOk(rs) && j < |rs| && (forall a | 0 <= a < |cur| :: cur[a].index < rs[j].index) && Has(cur, n)
    ensures Has(rs, n) ==> Has(rs[..j], n)
  {
    var a :| 0 <= a < |cur| && InElement(cur[a], n);
    if b :| 0 <= b < |rs| && InElement(rs[b], n) {
      assert b < j;
      assert InElement(rs[..j][b], n);
    }
  }

  lemma MinusEnd(es: seq<Element>, rs: seq<Element>, cur: seq<Element>, i: nat, j: nat)
    requires MinusUpTo(es, rs, cur, i, j) && (j == |rs| || i == |cur|)
    ensures ListOk(cur) && forall n: nat :: Has(cur, n) <==> Has(es, n) && !Has(rs, n)
  {
    assert rs[..|rs|] == rs;
    forall n: nat | Has(cur, n) && j < |rs| ensures !Has(rs, n) {
      NotBehind(cur, rs, j, n);
    }
    forall n: nat | Has(rs[..j], n) ensures Has(rs, n) {
      var b :| 0 <= b < j && InElement(rs[..j][b], n);
      assert InElement(rs[b], n);
    }
  }

  lemma MinusSkip(es: seq<Element>, rs: seq<Element>, cur: seq<Element>, i: nat, j: nat)
    requires MinusUpTo(es, rs, cur, i, j) && j < |rs| && i < |cur| && cur[i].index > rs[j].index
    ensures MinusUpTo(es, rs, cur, i, j + 1)
  {
    forall n: nat ensures Has(cur, n) <==> Has(es, n) && !Has(rs[..j + 1], n) {
      HasSnoc(rs, j, n);
      if InElement(rs[j], n) {
        assert forall a | i <= a < |cur| :: cur[a].index > rs[j].index;
        NotFound(cur, rs[j].index, i, n);
      }
    }
  }

  lemma MinusMeet(es: seq<Element>, rs: seq<Element>, cur: seq<Element>, i: nat, j: nat, changed: bool)
    requires MinusUpTo(es, rs, cur, i, j) && j < |rs| && i < |cur| && cur[i].index == rs[j].index && (changed <==> Grown(cur, es))
    ensures
      var e := cur[i].(bits := cur[i].bits - rs[j].bits);
      var next := Replaced(cur, i, e);
      MinusUpTo(es, rs, next, if e.bits == {} then i else i + 1, j + 1) && (changed || e != cur[i] <==> Grown(next, es))
  {
    var e := cur[i].(bits := cur[i].bits - rs[j].bits);
    var next := Replaced(cur, i, e);
    assert ElementOk(cur[i]) && ElementOk(rs[j]);
    ReplacedOk(cur, i, e);
    forall n: nat ensures (Has(next, n) <==> Has(cur, n) && !InElement(rs[j], n)) && (Has(rs[..j + 1], n) <==> Has(rs[..j], n) || InElement(rs[j], n)) {
      ReplacedHas(cur, i, e, n);
      ReplacedHas(cur, i, cur[i], n);
      HasSnoc(rs, j, n);
    }
    if b :| b in rs[j].bits && b in cur[i].bits {
      BitNumber(e.index, b);
      HasBit(cur, i, b);
      var n := e.index * ELEMENT_SIZE + b;
      assert Has(es, n) && !Has(next, n);
    } else {
      assert e == cur[i] && next == cur;
    }
    hide Has, ListOk, InElement, Replaced;
  }

  lemma MinusPass(es: seq<Element>, rs: seq<Element>, cur: seq<Element>, i: nat, j: nat)
    requires MinusUpTo(es, rs, cur, i, j) && j < |rs| && i < |cur| && cur[i].index < rs[j].index
    ensures MinusUpTo(es, rs, cur, i + 1, j)
  {
  }

  /** n is the least number of the set from low on. */
  ghost predicate IsNext(es: seq<Element>, low: nat, n: nat) {
    low <= n && Has(es, n) && forall m: nat | Has(es, m) && low <= m :: n <= m
  }

  /** All numbers of the first i elements are below low. */
  ghost predicate AllBelow(es: seq<Element>, i: nat, low: nat) {
    i <= |es| && forall j, k | 0 <= j < i && k in es[j].bits :: es[j].index * ELEMENT_SIZE + k < low
  }

  lemma BitsBefore(es: seq<Element>, i: nat, n: nat)
    requires ListOk(es) && i < |es| && es[i].index == n / ELEMENT_SIZE
    ensures AllBelow(es, i, n)
  {
    forall j, k | 0 <= j < i && k in es[j].bits ensures es[j].index * ELEMENT_SIZE + k < n {
      assert es[j].index < es[i].index && ElementOk(es[j]);
    }
  }

  lemma BitsUpTo(es: seq<Element>, i: nat, n: nat)
    requires AllBelow(es, i, n) && i < |es| && es[i].index == n / ELEMENT_SIZE && forall k | k in es[i].bits :: k <= n % ELEMENT_SIZE
    ensures AllBelow(es, i + 1, n + 1)
  {
  }

  lemma LeastBit(es: seq<Element>, i: nat, b: nat, low: nat)
    requires ListOk(es) && AllBelow(es, i, low) && i < |es| && b in es[i].bits && low <= es[i].index * ELEMENT_SIZE + b
    requires forall k | k in es[i].bits && k < b :: es[i].index * ELEMENT_SIZE + k < low
    ensures IsNext(es, low, es[i].index * ELEMENT_SIZE + b) && (es[i].index * ELEMENT_SIZE + b) / ELEMENT_SIZE == es[i].index
  {
    assert ElementOk(es[i]);
    HasBit(es, i, b);
    BitNumber(es[i].index, b);
    forall m: nat | Has(es, m) && low <= m ensures es[i].index * ELEMENT_SIZE + b <= m {
      var j :| 0 <= j < |es| && InElement(es[j], m);
      assert i < j ==> es[i].index < es[j].index;
    }
  }

  lemma NothingLeft(es: seq<Element>, low: nat)
    requires AllBelow(es, |es|, low)
    ensures forall n: nat :: Has(es, n) ==> n < low
  {
    forall n: nat | Has(es, n) ensures n < low {
      var j :| 0 <= j < |es| && InElement(es[j], n);
    }
  }

  class SparseBitVector {
    var elements: seq<Element>
    var curr: nat

    ghost predicate Valid()
      reads this
    {
      ListOk(elements) && curr <= |elements|
    }

    constructor ()
      ensures Valid() && forall n: nat :: !Has(elements, n)
    {
      elements, curr := [], 0;
    }

    /** Search linearly from the cursor, in the direction of element k. */
    method FindLowerBound(k: nat) returns (i: nat)
      requires Valid()
      modifies this`curr
      ensures Valid() && FoundAt(elements, k, i) && curr == i
    {
      if elements == [] {
        curr := 0;
        return 0;
      }
      if curr == |elements| {
        curr := curr - 1;
      }
      i := curr;
      if elements[curr].index == k {
        return i;
      } else if elements[curr].index > k {
        while i != 0 && elements[i].index > k
          invariant i < |elements| && forall j | i < j < |elements| :: elements[j].index > k
        {
          i := i - 1;
        }
      } else {
        while i != |elements| && elements[i].index < k
          invariant i <= |elements| && forall j | 0 <= j < i :: elements[j].index < k
        {
          i := i + 1;
        }
      }
      curr := i;
    }

    method Test(n: nat) returns (r: bool)
      requires Valid()
      modifies this`curr
      ensures Valid() && (r <==> Has(elements, n))
    {
      if elements == [] {
        return false;
      }
      var i := FindLowerBound(n / ELEMENT_SIZE);
      NotFound(elements, n / ELEMENT_SIZE, i, n);
      if i == |elements| || elements[i].index != n / ELEMENT_SIZE {
        return false;
      }
      return n % ELEMENT_SIZE in elements[i].bits;
    }

    /** Take n out; an element that becomes empty is deleted. */
    method Reset(n: nat)
      requires Valid()
      modifies this
      ensures Valid() && forall m: nat :: Has(elements, m) <==> Has(old(elements), m) && m != n
    {
      if elements == [] {
        return;
      }
      var k := n / ELEMENT_SIZE;
      var i := FindLowerBound(k);
      NotFound(elements, k, i, n);
      if i == |elements| || elements[i].index != k {
        return;
      }
      ghost var es := elements;
      forall m: nat ensures ListOk(Without(es, i, n)) && (Has(Without(es, i, n), m) <==> Has(es, m) && m != n) {
        WithoutHas(es, i, n, m);
      }
      elements := elements[i := elements[i].(bits := elements[i].bits - {n % ELEMENT_SIZE})];
      if elements[i].bits == {} {
        // the cursor is now at the element behind the deleted one
        elements := elements[..i] + elements[i + 1..];
        assert elements == es[..i] + es[i + 1..];
      }
    }

    /** Put n in, in a new element if there is none for it. */
    method Set(n: nat)
      requires Valid()
      modifies this
      ensures Valid() && forall m: nat :: Has(elements, m) <==> Has(old(elements), m) || m == n
    {
      var k := n / ELEMENT_SIZE;
      ghost var es := elements;
      var i := 0;
      if elements != [] {
        i := FindLowerBound(k);
      }
      hide ListOk, Has;
      if i < |elements| && elements[i].index == k {
        elements := elements[i := elements[i].(bits := elements[i].bits + {n % ELEMENT_SIZE})];
        WithOk(es, i, n);
        forall m: nat ensures Has(elements, m) <==> Has(es, m) || m == n {
          WithHas(es, i, n, m);
        }
      } else {
        InsertAt(es, k, i, n);
        if i < |elements| && elements[i].index < k {
          i := i + 1;
        }
        elements := elements[..i] + [Element(k, {n % ELEMENT_SIZE})] + elements[i..];
        assert ListOk(elements);
        assert forall m: nat :: Has(elements, m) <==> Has(es, m) || m == n;
      }
      assert ListOk(elements);
      assert forall m: nat :: Has(elements, m) <==> Has(es, m) || m == n;
      curr := i;
    }

    /** Whether the two sets have the same numbers. */
    method Equals(rhs: SparseBitVector) returns (r: bool)
      requires Valid() && rhs.Valid()
      ensures r <==> forall n: nat :: Has(elements, n) <==> Has(rhs.elements, n)
    {
      var i := 0;
      r := false;
      while i < |elements| && i < |rhs.elements|
        invariant i <= |elements| && i <= |rhs.elements| && elements[..i] == rhs.elements[..i] && !r
      {
        if elements[i] != rhs.elements[i] {
          break;
        }
        i := i + 1;
      }
      r := i == |elements| && i == |rhs.elements|;
      assert r <==> elements == rhs.elements;
      if forall n: nat :: Has(elements, n) <==> Has(rhs.elements, n) {
        Canonical(elements, rhs.elements);
      }
    }

    /** Put all numbers of rhs in; whether that changed the set. */
    method Union(rhs: SparseBitVector) returns (changed: bool)
      requires Valid() && rhs.Valid()
      modifies this
      ensures Valid() && forall n: nat :: Has(elements, n) <==> Has(old(elements), n) || Has(old(rhs.elements), n)
      ensures changed <==> exists n: nat :: Has(elements, n) && !Has(old(elements), n)
    {
      changed := false;
      ghost var es, rs := elements, rhs.elements;
      var i, j := 0, 0;
      if rhs.elements == [] {
        return;
      }
      UnionStart(es, rs);
      hide *;
      while j != |rhs.elements|
        invariant rhs.elements == rs && (rhs == this ==> i == j && elements == es)
        invariant i <= |elements| && j <= |rs| && UnionUpTo(es, rs, elements, i, j) && (changed <==> Grown(es, elements))
        decreases |rs| - j, |elements| - i
      {
        ghost var cur := elements;
        var r := rhs.elements[j];
        if i == |elements| || elements[i].index > r.index {
          UnionInsert(es, rs, cur, i, j);
          elements := elements[..i] + [r] + elements[i..];
          i, j, changed := i + 1, j + 1, true;
        } else if elements[i].index == r.index {
          var e := elements[i].(bits := elements[i].bits + r.bits);
          UnionMeet(es, rs, cur, i, j, changed);
          changed := changed || e != elements[i];
          elements := elements[i := e];
          i, j := i + 1, j + 1;
        } else {
          UnionPass(es, rs, cur, i, j);
          i := i + 1;
        }
      }
      UnionEnd(es, rs, elements, i);
      curr := 0;
    }

    /** Take all numbers of rhs out; whether that changed the set. */
    method IntersectWithComplement(rhs: SparseBitVector) returns (changed: bool)
      requires Valid() && rhs.Valid() && rhs != this
      modifies this
      ensures Valid() && forall n: nat :: Has(elements, n) <==> Has(old(elements), n) && !Has(rhs.elements, n)
      ensures changed <==> exists n: nat :: Has(old(elements), n) && !Has(elements, n)
    {
      changed := false;
      ghost var es := elements;
      var i, j := 0, 0;
      MinusStart(es, rhs.elements);
      if elements == [] || rhs.elements == [] {
        return;
      }
      hide ListOk, Has, MinusUpTo, Grown;
      while j != |rhs.elements|
        invariant i <= |elements| && j <= |rhs.elements| && MinusUpTo(es, rhs.elements, elements, i, j) && (changed <==> Grown(elements, es))
        decreases |rhs.elements| - j, |elements| - i
      {
        if i == |elements| {
          break;
        }
        if elements[i].index > rhs.elements[j].index {
          MinusSkip(es, rhs.elements, elements, i, j);
          j := j + 1;
        } else if elements[i].index == rhs.elements[j].index {
          var e := elements[i].(bits := elements[i].bits - rhs.elements[j].bits);
          MinusMeet(es, rhs.elements, elements, i, j, changed);
          changed := changed || e != elements[i];
          if e.bits == {} {
            elements := elements[..i] + elements[i + 1..];
          } else {
            elements := elements[i := e];
            i := i + 1;
          }
          j := j + 1;
        } else {
          MinusPass(es, rhs.elements, elements, i, j);
          i := i + 1;
        }
      }
      MinusEnd(es, rhs.elements, elements, i, j);
      GrownIs(elements, es);
      curr := 0;
    }
  }

  lemma GrownIs(before: seq<Element>, after: seq<Element>)
    ensures Grown(before, after) <==> exists n: nat :: Has(after, n) && !Has(before, n)
  {
  }

  lemma InOrder(es: seq<Element>, i: nat)
    requires ListOk(es) && i < |es|
    ensures ElementOk(es[i]) && (i > 0 ==> es[i - 1].index < es[i].index)
  {
  }

  /** A walk over the numbers of a set. */
  class BitIterator {
    const elements: seq<Element>
    var atEnd: bool
    var iter: nat
    var bitNumber: nat

    /** The walk is at the least number from low on, or at the end if there is none. */
    ghost predicate At(low: nat)
      reads this
    {
      if atEnd then forall n: nat :: Has(elements, n) ==> n < low
      else IsNext(elements, low, bitNumber) && iter < |elements| && elements[iter].index == bitNumber / ELEMENT_SIZE
    }

    constructor (vector: SparseBitVector)
      requires vector.Valid()
      ensures elements == vector.elements && At(0)
    {
      elements := vector.elements;
      atEnd, iter, bitNumber := |vector.elements| == 0, 0, 0;
      new;
      if !atEnd {
        assert ElementOk(elements[0]);
        var b := FindNext(elements[0].bits, 0);
        LeastBit(elements, 0, b, 0);
        bitNumber := elements[0].index * ELEMENT_SIZE + b;
      }
    }

    /** Go on to the next number. */
    method Advance()
      requires ListOk(elements) && !atEnd && exists low :: At(low)
      modifies this
      ensures At(old(bitNumber) + 1)
    {
      hide ListOk, Has, IsNext, AllBelow;
      ghost var was := bitNumber;
      BitsBefore(elements, iter, was);
      InOrder(elements, iter);
      bitNumber := bitNumber + 1;
      var b := FindNext(elements[iter].bits, bitNumber % ELEMENT_SIZE);
      if b == -1 || bitNumber % ELEMENT_SIZE == 0 {
        BitsUpTo(elements, iter, was);
        iter := iter + 1;
        if iter == |elements| {
          NothingLeft(elements, was + 1);
          atEnd := true;
          return;
        }
        InOrder(elements, iter);
        b := FindNext(elements[iter].bits, 0);
      }
      LeastBit(elements, iter, b, was + 1);
      bitNumber := elements[iter].index * ELEMENT_SIZE + b;
    }
  }

  /** The least bit from c on, or -1. */
  method FindNext(bits: set<nat>, c: nat) returns (b: int)
    ensures b == -1 ==> forall k | c <= k < ELEMENT_SIZE :: k !in bits
    ensures b != -1 ==> c <= b < ELEMENT_SIZE && b in bits && forall k | c <= k < b :: k !in bits
  {
    b := c;
    while b < ELEMENT_SIZE
      invariant forall k | c <= k < b :: k !in bits
      invariant c <= b
    {
      if b in bits {
        return;
      }
      b := b + 1;
    }
    b := -1;
  }
}
