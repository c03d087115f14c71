/** Listing the numbers that one satisfying assignment of a BDD stands for.

    An assignment gives the bits of a number in its even positions; a bit may be left open.
 */
module Assignments {
  import opened Powers

  datatype Trit = Zero | One | DontCare

  /** x is a number of k bits that agrees with the assignment, read from its highest bit. */
  predicate Matches(v: seq<Trit>, k: nat, x: nat)
    requires 2 * k <= |v| + 1
  {
    if k == 0 then x == 0
    else if x < Pow2(k - 1) then v[2 * (k - 1)] != One && Matches(v, k - 1, x)
    else v[2 * (k - 1)] != Zero && Matches(v, k - 1, x - Pow2(k - 1))
  }

  /** Bit i of x, counted from the lowest. */
  function Bit(x: nat, i: nat): nat {
    if i == 0 then x % 2 else Bit(x / 2, i - 1)
  }

  /** The bits of x are those in the even positions of v, where these are not left open. */
  ghost predicate Agrees(v: seq<Trit>, k: nat, x: nat)
    requires 2 * k <= |v| + 1
  {
    x < Pow2(k) && forall i: nat | i < k :: (v[2 * i] == One ==> Bit(x, i) == 1) && (v[2 * i] == Zero ==> Bit(x, i) == 0)
  }

  /** Adding the next power of two sets that bit and no other. */
  lemma {:induction false} BitsOfSum(y: nat, k: nat, i: nat)
    requires y < Pow2(k) && i <= k
    ensures Bit(y + Pow2(k), i) == if i == k then 1 else Bit(y, i)
    ensures Bit(y, k) == 0
    decreases k
  {
    if k > 0 {
      assert (y + Pow2(k)) / 2 == y / 2 + Pow2(k - 1);
      BitsOfSum(y / 2, k - 1, if i > 0 then i - 1 else 0);
    }
  }

  /** What is read from the highest bit down is what the bits are one by one. */
  lemma {:induction false} MatchesIsAgrees(v: seq<Trit>, k: nat, x: nat)
    requires 2 * k <= |v| + 1
    ensures Matches(v, k, x) <==> Agrees(v, k, x)
  {
    if k > 0 {
      var h := Pow2(k - 1);
      var y := if x < h then x else x - h;
      MatchesIsAgrees(v, k - 1, y);
      assert Pow2(k) == 2 * h;
      if y < h {
        forall i: nat | i < k ensures Bit(x, i) == if i == k - 1 then (if x < h then 0 else 1) else Bit(y, i) {
          BitsOfSum(y, k - 1, i);
        }
      }
      hide Bit, Pow2;
    }
  }

  /** The number with every open bit 0, and the masks of the open bits, lowest first. */
  function Base(v: seq<Trit>, k: nat): nat
    requires 2 * k <= |v| + 1
  {
    if k == 0 then 0 else Base(v, k - 1) + if v[2 * (k - 1)] == One then Pow2(k - 1) else 0
  }

  function Masks(v: seq<Trit>, k: nat): seq<nat>
    requires 2 * k <= |v| + 1
  {
    if k == 0 then [] else Masks(v, k - 1) + if v[2 * (k - 1)] == DontCare then [Pow2(k - 1)] else []
  }

  /** The sum of the masks chosen by the bits of i. */
  function Pick(dc: seq<nat>, i: nat): nat {
    if dc == [] then 0
    else
      var n := |dc| - 1;
      if i < Pow2(n) then Pick(dc[..n], i) else Pick(dc[..n], i - Pow2(n)) + dc[n]
  }

  /** Choosing among the masks gives every matching number, larger choices larger numbers. */
  lemma {:induction false} PickMatches(v: seq<Trit>, k: nat, i: nat)
    requires 2 * k <= |v| + 1 && i < Pow2(|Masks(v, k)|)
    ensures Base(v, k) + Pick(Masks(v, k), i) < Pow2(k)
    ensures Matches(v, k, Base(v, k) + Pick(Masks(v, k), i))
  {
    if k > 0 {
      var dc, low := Masks(v, k), Masks(v, k - 1);
      if v[2 * (k - 1)] == DontCare {
        assert dc[..|dc| - 1] == low;
        PickMatches(v, k - 1, if i < Pow2(|low|) then i else i - Pow2(|low|));
      } else {
        assert dc == low;
        PickMatches(v, k - 1, i);
      }
    }
  }

  lemma {:induction false} MatchesPick(v: seq<Trit>, k: nat, x: nat) returns (i: nat)
    requires 2 * k <= |v| + 1 && Matches(v, k, x)
    ensures i < Pow2(|Masks(v, k)|) && x == Base(v, k) + Pick(Masks(v, k), i)
  {
    i := 0;
    if k > 0 {
      var dc, low := Masks(v, k), Masks(v, k - 1);
      i := MatchesPick(v, k - 1, if x < Pow2(k - 1) then x else x - Pow2(k - 1));
      if v[2 * (k - 1)] == DontCare {
        assert dc[..|dc| - 1] == low;
        if x >= Pow2(k - 1) {
          i := i + Pow2(|low|);
        }
      } else {
        assert dc == low;
      }
    }
  }

  lemma {:induction false} PickGrows(v: seq<Trit>, k: nat, i: nat, j: nat)
    requires 2 * k <= |v| + 1 && i < j < Pow2(|Masks(v, k)|)
    ensures Pick(Masks(v, k), i) < Pick(Masks(v, k), j)
  {
    if k > 0 {
      var dc, low := Masks(v, k), Masks(v, k - 1);
      var n := |low|;
      if v[2 * (k - 1)] == DontCare {
        assert dc[..|dc| - 1] == low;
        if j < Pow2(n) {
          PickGrows(v, k - 1, i, j);
        } else if i >= Pow2(n) {
          PickGrows(v, k - 1, i - Pow2(n), j - Pow2(n));
        } else {
          PickMatches(v, k - 1, i);
        }
      } else {
        assert dc == low;
        PickGrows(v, k - 1, i, j);
      }
    }
  }

  /** The list has each matching number once. */
  ghost predicate Lists(v: seq<Trit>, k: nat, s: seq<nat>)
    requires 2 * k <= |v| + 1
  {
    && (forall x: nat :: x in s <==> Matches(v, k, x))
    && (forall i, j | 0 <= i < j < |s| :: s[i] != s[j])
  }

  lemma AllPicksList(v: seq<Trit>, k: nat, s: seq<nat>)
    requires 2 * k <= |v| + 1 && |s| == Pow2(|Masks(v, k)|)
    requires forall i | 0 <= i < |s| :: s[i] == Base(v, k) + Pick(Masks(v, k), i)
    ensures Lists(v, k, s)
  {
    forall x: nat | Matches(v, k, x) ensures x in s {
      var i := MatchesPick(v, k, x);
      assert s[i] == x;
    }
    forall i: nat | i < |s| ensures Matches(v, k, s[i]) {
      PickMatches(v, k, i);
    }
    forall i: nat, j: nat | i < j < |s| ensures s[i] != s[j] {
      PickGrows(v, k, i, j);
    }
  }

  /** One more bit of i. */
  lemma NextBit(i: nat, m: nat)
    requires m > 0
    ensures i % (2 * m) == i % m + if (i / m) % 2 == 1 then m else 0
  {
    var q, r := i / m, i % m;
    var h, b := q / 2, q % 2;
    var t := b * m + r;
    assert i == h * (2 * m) + t by {
      assert i == q * m + r && q == 2 * h + b;
      assert (2 * h + b) * m == h * (2 * m) + b * m;
    }
    assert b == 0 || b == 1;
    assert 0 <= t < 2 * m;
    RemainderIs(i, 2 * m, h, t);
  }

  lemma RemainderIs(i: nat, d: nat, h: nat, t: nat)
    requires 0 <= t < d && i == h * d + t
    ensures i % d == t
  {
    var q, r := i / d, i % d;
    assert i == q * d + r && 0 <= r < d;
    assert (q + 1) * d == q * d + d && (h + 1) * d == h * d + d;
    if h > q {
      MulLe(q + 1, h, d);
    } else if h < q {
      MulLe(h + 1, q, d);
    }
  }

  lemma MulLe(a: nat, b: nat, d: nat)
    requires a <= b
    ensures a * d <= b * d
  {
    assert (b - a) * d >= 0;
    assert (b - a) * d == b * d - a * d;
  }

  lemma {:induction false} PickOfPrefix(dc: seq<nat>, i: nat, j: nat)
    requires j < |dc|
    ensures Pick(dc[..j + 1], i % Pow2(j + 1)) == Pick(dc[..j], i % Pow2(j)) + if (i / Pow2(j)) % 2 == 1 then dc[j] else 0
  {
    NextBit(i, Pow2(j));
    assert dc[..j + 1][..j] == dc[..j];
  }

  /** base with the masks chosen by the bits of i. */
  method AddPicked(base: nat, dc: seq<nat>, i: nat) returns (x: nat)
    requires i < Pow2(|dc|)
    ensures x == base + Pick(dc, i)
  {
    x := base;
    var m := 1;
    assert i % 1 == 0;
    for j := 0 to |dc|
      invariant m == Pow2(j) && x == base + Pick(dc[..j], i % m)
    {
      PickOfPrefix(dc, i, j);
      if (i / m) % 2 == 1 {
        x := x + dc[j];
      }
      m := 2 * m;
    }
    assert dc[..|dc|] == dc;
    RemainderIs(i, m, 0, i);
  }

  /** The order in which up to two open bits are expanded. */
  lemma SmallList(v: seq<Trit>, k: nat, base: nat, dc: seq<nat>, s: seq<nat>)
    requires 2 * k <= |v| + 1 && base == Base(v, k) && dc == Masks(v, k) && |dc| <= 2
    requires s == (if |dc| == 2 then [base + dc[1], base + dc[1] + dc[0]] else []) + (if |dc| >= 1 then [base + dc[0]] else []) + [base]
    ensures Lists(v, k, s)
  {
    var n := Pow2(|dc|);
    assert n == if |dc| == 2 then 4 else if |dc| == 1 then 2 else 1;
    if |dc| > 0 {
      assert Pick(dc[..1], 0) == 0 && Pick(dc[..1], 1) == dc[0] by {
        assert dc[..1][..0] == [];
      }
      assert dc[..|dc|] == dc;
    }
    var t := seq(n, i requires 0 <= i < n => base + Pick(dc, i));
    AllPicksList(v, k, t);
    assert |s| == n;
    if |dc| == 2 {
      assert s[0] == t[2] && s[1] == t[3] && s[2] == t[1] && s[3] == t[0];
    } else if |dc| == 1 {
      assert s[0] == t[1] && s[1] == t[0];
    } else {
      assert s[0] == t[0];
    }
    hide Pick, Base, Masks, Matches;
  }

  /** Append every number the assignment stands for; no two masks share a bit, so | is +. */
  method Sat2Vec(v: seq<Trit>, k: nat, bddexp: seq<nat>) returns (r: seq<nat>)
    requires 2 * k <= |v| + 1
    ensures bddexp <= r && Lists(v, k, r[|bddexp|..])
    ensures forall x: nat :: x in r[|bddexp|..] <==> Agrees(v, k, x)
  {
    hide Agrees;
    var base, dc, m := 0, [], 1;
    for i := 0 to k
      invariant base == Base(v, i) && dc == Masks(v, i) && m == Pow2(i)
    {
      match v[2 * i] {
        case DontCare => dc := dc + [m];
        case One => base := base + m;
        case Zero =>
      }
      m := 2 * m;
    }
    var ndc := |dc|;
    if ndc <= 2 {
      r := bddexp;
      if ndc == 2 {
        var x := base + dc[1];
        r := r + [x, x + dc[0]];
      }
      if ndc >= 1 {
        r := r + [base + dc[0]];
      }
      r := r + [base];
      SmallList(v, k, base, dc, r[|bddexp|..]);
    } else {
      var more: seq<nat> := [];
      for i := 0 to Pow2(ndc)
        invariant |more| == i && forall h | 0 <= h < i :: more[h] == base + Pick(dc, h)
      {
        var x := AddPicked(base, dc, i);
        more := more + [x];
      }
      AllPicksList(v, k, more);
      r := bddexp + more;
      assert r[|bddexp|..] == more;
    }
    forall x: nat ensures x in r[|bddexp|..] <==> Agrees(v, k, x) {
      MatchesIsAgrees(v, k, x);
    }
  }
}
