/** The cache that turns a BDD into the sorted vector of the numbers it stands for. */
module BddCache {
  import opened Powers
  import opened Assignments

  const BVC_MAX: nat := 128
  const BVC_REMOVE: nat := 8

  /** Sizes at which the cache is full, and down to which it is emptied then. */
  const FULL: nat := BVC_MAX * 0x4_0000
  const KEEP: nat := (BVC_MAX - BVC_REMOVE) * 0x4_0000

  ghost predicate IsExpansion(v: seq<nat>, s: set<nat>) {
    && (forall i, j | 0 <= i < j < |v| :: v[i] < v[j])
    && (forall x :: x in v <==> x in s)
  }

  /** The time an id was last asked for, and its vector. */
  datatype Item = Item(time: nat, vec: seq<nat>)

  type Cache = map<nat, Item>

  ghost function Total(c: Cache): nat {
    if c == map[] then 0 else var id :| id in c; |c[id].vec| + Total(c - {id})
  }

  lemma {:induction false} TotalMinus(c: Cache, id: nat)
    requires id in c
    ensures Total(c) == |c[id].vec| + Total(c - {id})
    decreases |c|
  {
    var k :| k in c && Total(c) == |c[k].vec| + Total(c - {k});
    if k != id {
      TotalMinus(c - {k}, id);
      TotalMinus(c - {id}, k);
      assert c - {k} - {id} == c - {id} - {k};
    }
  }

  /** A queue entry says when an id was asked for. */
  datatype Use = Use(time: nat, id: nat)

  /** Every queued id is cached, the last use of every cached id is queued, no two uses have the
      same time, and size is the size of all vectors. */
  ghost predicate CacheOk(meaning: map<nat, set<nat>>, c: Cache, lru: set<Use>, size: nat, now: nat) {
    && (forall u | u in lru :: u.id in c && u.time <= c[u.id].time)
    && (forall id | id in c :: Use(c[id].time, id) in lru && c[id].time <= now)
    && (forall t, u | t in lru && u in lru && t.time == u.time :: t == u)
    && (forall id | id in c :: id in meaning && c[id].vec != [] && IsExpansion(c[id].vec, meaning[id]))
    && size == Total(c)
  }

  /** u is the oldest use in the queue. */
  predicate IsTop(lru: set<Use>, u: Use) {
    u in lru && forall t | t in lru :: u.time < t.time || (u.time == t.time && u.id <= t.id)
  }

  lemma {:induction false} TopExists(lru: set<Use>)
    requires lru != {}
    ensures exists u :: IsTop(lru, u)
    decreases |lru|
  {
    var u :| u in lru;
    if lru == {u} {
      assert IsTop(lru, u);
    } else {
      var rest := lru - {u};
      assert rest != {};
      TopExists(rest);
      var t :| IsTop(rest, t);
      assert IsTop(lru, if u.time < t.time || (u.time == t.time && u.id <= t.id) then u else t);
    }
  }

  /** An id is dropped when its last use is the oldest in the queue. */
  function Dropped(c: Cache, u: Use): Cache {
    if u.id in c && u.time == c[u.id].time then c - {u.id} else c
  }

  /** The ids dropped are those that were not used after some time. */
  ghost predicate OldestGone(before: Cache, after: Cache, time: int) {
    after == map id | id in before && before[id].time > time :: before[id]
  }

  lemma DroppedTotal(c: Cache, u: Use)
    requires u.id in c
    ensures Total(c) == Total(Dropped(c, u)) + if u.time == c[u.id].time then |c[u.id].vec| else 0
  {
    TotalMinus(c, u.id);
  }

  lemma DropIsOldest(meaning: map<nat, set<nat>>, c: Cache, lru: set<Use>, size: nat, now: nat, u: Use)
    requires CacheOk(meaning, c, lru, size, now) && IsTop(lru, u)
    ensures OldestGone(c, Dropped(c, u), u.time)
  {
    hide Total, IsExpansion;
    forall id | id in c ensures id in Dropped(c, u) <==> c[id].time > u.time {
      assert Use(c[id].time, id) in lru && Use(c[u.id].time, u.id) in lru;
    }
  }

  /** Popping the oldest use keeps the cache right, and drops no id unless it is the one
      least recently used. */
  lemma PopKeeps(meaning: map<nat, set<nat>>, c: Cache, lru: set<Use>, size: nat, now: nat, u: Use, d: Cache)
    requires CacheOk(meaning, c, lru, size, now) && IsTop(lru, u)
    requires d == Dropped(c, u)
    ensures u.id in c && CacheOk(meaning, d, lru - {u}, Total(d), now)
    ensures size == Total(d) + if d == c then 0 else |c[u.id].vec|
  {
    DroppedTotal(c, u);
    hide Total, IsExpansion;
    forall t | t in lru - {u} ensures t.id in d && t.time <= d[t.id].time {
    }
  }

  ghost predicate NewerThan(lru: set<Use>, time: int) {
    forall u | u in lru :: u.time > time
  }

  lemma NothingGone(c: Cache)
    ensures OldestGone(c, c, -1)
  {
  }

  lemma FullIsQueued(meaning: map<nat, set<nat>>, c: Cache, lru: set<Use>, size: nat, now: nat)
    requires CacheOk(meaning, c, lru, size, now) && size > 0
    ensures lru != {}
  {
    var id :| id in c;
    assert Use(c[id].time, id) in lru;
  }

  lemma OldestNewer(lru: set<Use>, u: Use)
    requires IsTop(lru, u) && forall t | t in lru && t.time == u.time :: t == u
    ensures NewerThan(lru - {u}, u.time)
  {
  }

  lemma EvictOne(meaning: map<nat, set<nat>>, before: Cache, c: Cache, lru: set<Use>, size: nat, now: nat, last: int, u: Use, d: Cache)
    requires CacheOk(meaning, c, lru, size, now) && IsTop(lru, u) && d == Dropped(c, u)
    requires OldestGone(before, c, last) && NewerThan(lru, last)
    ensures u in lru && u.id in c && CacheOk(meaning, d, lru - {u}, Total(d), now)
    ensures size == Total(d) + if u.time == c[u.id].time then |c[u.id].vec| else 0
    ensures OldestGone(before, d, u.time) && NewerThan(lru - {u}, u.time)
  {
    PopKeeps(meaning, c, lru, size, now, u, d);
    DropIsOldest(meaning, c, lru, size, now, u);
    assert u.time == c[u.id].time ==> u.id !in d;
    OldestNewer(lru, u);
    hide Total, IsExpansion, Dropped, IsTop;
    assert OldestGone(before, d, u.time);
    hide CacheOk;
  }

  lemma Touch(meaning: map<nat, set<nat>>, c: Cache, lru: set<Use>, size: nat, now: nat, id: nat)
    requires CacheOk(meaning, c, lru, size, now) && id in c
    ensures CacheOk(meaning, c[id := Item(now + 1, c[id].vec)], lru + {Use(now + 1, id)}, size, now + 1)
  {
    hide Total, IsExpansion;
    var d, lru2 := c[id := Item(now + 1, c[id].vec)], lru + {Use(now + 1, id)};
    SameTotal(c, id, now + 1);
    TouchUses(c, d, lru, lru2, now, id);
    assert forall i | i in d :: i in meaning && d[i].vec != [] && IsExpansion(d[i].vec, meaning[i]);
    assert CacheOk(meaning, d, lru2, size, now + 1);
  }

  /** The queue keeps the last uses of all ids, with one more. */
  lemma TouchUses(c: Cache, d: Cache, lru: set<Use>, lru2: set<Use>, now: nat, id: nat)
    requires (forall u | u in lru :: u.id in c && u.time <= c[u.id].time) && id in c
    requires forall i | i in c :: Use(c[i].time, i) in lru && c[i].time <= now
    requires forall t, u | t in lru && u in lru && t.time == u.time :: t == u
    requires d == c[id := Item(now + 1, c[id].vec)] && lru2 == lru + {Use(now + 1, id)}
    ensures (forall u | u in lru2 :: u.id in d && u.time <= d[u.id].time)
    ensures forall i | i in d :: Use(d[i].time, i) in lru2 && d[i].time <= now + 1
    ensures forall t, u | t in lru2 && u in lru2 && t.time == u.time :: t == u
  {
  }

  lemma SameTotal(c: Cache, id: nat, time: nat)
    requires id in c
    ensures Total(c[id := Item(time, c[id].vec)]) == Total(c)
  {
    var d := c[id := Item(time, c[id].vec)];
    TotalMinus(c, id);
    TotalMinus(d, id);
    assert c - {id} == d - {id};
  }

  lemma Add(meaning: map<nat, set<nat>>, c: Cache, lru: set<Use>, size: nat, now: nat, id: nat, v: seq<nat>)
    requires CacheOk(meaning, c, lru, size, now) && id !in c
    requires id in meaning && v != [] && IsExpansion(v, meaning[id])
    ensures CacheOk(meaning, c[id := Item(now + 1, v)], lru + {Use(now + 1, id)}, size + |v|, now + 2)
  {
    var d := c[id := Item(now + 1, v)];
    TotalMinus(d, id);
    assert d - {id} == c;
    hide Total, IsExpansion;
  }

  lemma NoneLater(meaning: map<nat, set<nat>>, c: Cache, lru: set<Use>, size: nat, now: nat)
    requires CacheOk(meaning, c, lru, size, now)
    ensures forall id | id in c :: c[id].time <= now && id in meaning && IsExpansion(c[id].vec, meaning[id])
  {
  }

  /** id has the item and is the last one used; the others are as before, except that, when the
      cache was full, those used least recently are gone. */
  ghost predicate Stored(before: Cache, after: Cache, id: nat, item: Item, full: bool) {
    && id in after && after[id] == item
    && (forall i | i in after && i != id :: i in before && after[i] == before[i] && after[i].time < item.time)
    && (forall i, j | i in before && i !in after && j in after && j != id :: before[i].time < after[j].time)
    && (!full ==> before.Keys <= after.Keys)
  }

  lemma StoredOne(before: Cache, c: Cache, last: int, id: nat, item: Item, full: bool)
    requires OldestGone(before, c, last) && (!full ==> last == -1)
    requires forall i | i in before :: before[i].time < item.time
    ensures c.Keys <= before.Keys && Stored(before, c[id := item], id, item, full)
  {
  }

  /** The constant false, or a function with the disjoint assignments that satisfy it. */
  datatype Bdd = False | Node(id: nat, assignments: seq<seq<Trit>>)

  ghost predicate Stands(b: Bdd, bits: nat, x: nat) {
    b.Node? && exists i :: 0 <= i < |b.assignments| && 2 * bits <= |b.assignments[i]| + 1 && Matches(b.assignments[i], bits, x)
  }

  ghost function Numbers(b: Bdd, bits: nat): set<nat> {
    set x: nat | x < Pow2(bits) && Stands(b, bits, x)
  }

  /** The bits of x agree with one of the assignments. */
  ghost predicate Agree(b: Bdd, bits: nat, x: nat)
    requires b.Node?
  {
    exists a :: a in b.assignments && 2 * bits <= |a| + 1 && Agrees(a, bits, x)
  }

  lemma ExpansionAgrees(v: seq<nat>, b: Bdd, bits: nat)
    requires IsExpansion(v, Numbers(b, bits)) && b.Node?
    ensures forall x: nat :: x in v <==> Agree(b, bits, x)
  {
    hide Numbers, Agree;
    forall x: nat ensures x in v <==> Agree(b, bits, x) {
      NumbersAgree(b, bits, x);
    }
  }

  /** The numbers of a BDD are those that agree with one of its assignments. */
  lemma NumbersAgree(b: Bdd, bits: nat, x: nat)
    requires b.Node?
    ensures x in Numbers(b, bits) <==> Agree(b, bits, x)
  {
    hide Matches, Agrees;
    if a :| a in b.assignments && 2 * bits <= |a| + 1 && Agrees(a, bits, x) {
      MatchesIsAgrees(a, bits, x);
      AgreesIsSmall(a, bits, x);
      var i :| 0 <= i < |b.assignments| && b.assignments[i] == a;
      assert Stands(b, bits, x);
    }
    if x in Numbers(b, bits) {
      var i :| 0 <= i < |b.assignments| && 2 * bits <= |b.assignments[i]| + 1 && Matches(b.assignments[i], bits, x);
      MatchesIsAgrees(b.assignments[i], bits, x);
    }
  }

  lemma AgreesIsSmall(a: seq<Trit>, bits: nat, x: nat)
    requires 2 * bits <= |a| + 1 && Agrees(a, bits, x)
    ensures x < Pow2(bits)
  {
  }

  ghost predicate BddOk(b: Bdd, bits: nat) {
    b.Node? ==>
      && b.assignments != []
      && (forall a | a in b.assignments :: 2 * bits <= |a| + 1)
      && forall i, j, x: nat | 0 <= i < j < |b.assignments| && Matches(b.assignments[i], bits, x) :: !Matches(b.assignments[j], bits, x)
  }

  lemma {:induction false} MatchIsSmall(v: seq<Trit>, k: nat, x: nat)
    requires 2 * k <= |v| + 1 && Matches(v, k, x)
    ensures x < Pow2(k)
  {
    if k > 0 {
      MatchIsSmall(v, k - 1, if x < Pow2(k - 1) then x else x - Pow2(k - 1));
    }
  }

  function Insert(s: seq<nat>, x: nat): seq<nat> {
    if s == [] || x <= s[0] then [x] + s else [s[0]] + Insert(s[1..], x)
  }

  function Sorted(s: seq<nat>): seq<nat> {
    if s == [] then [] else Insert(Sorted(s[1..]), s[0])
  }

  lemma {:induction false} InsertIs(s: seq<nat>, x: nat)
    requires x !in s && forall i, j | 0 <= i < j < |s| :: s[i] < s[j]
    ensures forall y :: y in Insert(s, x) <==> y in s || y == x
    ensures var r := Insert(s, x); |r| == |s| + 1 && forall i, j | 0 <= i < j < |r| :: r[i] < r[j]
  {
    if s != [] && x > s[0] {
      InsertIs(s[1..], x);
      assert s == [s[0]] + s[1..];
      var t := Insert(s[1..], x);
      forall j | 0 <= j < |t| ensures t[j] > s[0] {
        assert t[j] in t;
        if t[j] != x {
          var i :| 0 <= i < |s| - 1 && s[1..][i] == t[j];
        }
      }
    }
  }

  lemma {:induction false} SortedIs(s: seq<nat>)
    requires forall i, j | 0 <= i < j < |s| :: s[i] != s[j]
    ensures |Sorted(s)| == |s| && IsExpansion(Sorted(s), set x | x in s)
  {
    if s != [] {
      SortedIs(s[1..]);
      assert s == [s[0]] + s[1..];
      assert s[0] !in s[1..];
      InsertIs(Sorted(s[1..]), s[0]);
    }
  }

  /** The numbers of the first k assignments, once each. */
  ghost predicate Listed(b: Bdd, bits: nat, k: nat, s: seq<nat>)
    requires b.Node? && BddOk(b, bits) && k <= |b.assignments|
  {
    && (forall x: nat :: x in s <==> exists i :: 0 <= i < k && b.assignments[i] in b.assignments && Matches(b.assignments[i], bits, x))
    && (forall i, j | 0 <= i < j < |s| :: s[i] != s[j])
  }

  lemma ListedNext(b: Bdd, bits: nat, k: nat, s: seq<nat>, t: seq<nat>)
    requires b.Node? && BddOk(b, bits) && k < |b.assignments| && Listed(b, bits, k, s)
    requires b.assignments[k] in b.assignments && s <= t && Lists(b.assignments[k], bits, t[|s|..])
    ensures Listed(b, bits, k + 1, t)
  {
    var more := t[|s|..];
    assert t == s + more;
    forall i, j | 0 <= i < j < |t| ensures t[i] != t[j] {
      if i < |s| <= j {
        assert t[i] in s && t[j] in more;
        var h :| 0 <= h < k && b.assignments[h] in b.assignments && Matches(b.assignments[h], bits, t[i]);
      }
    }
  }

  lemma AllListed(b: Bdd, bits: nat, s: seq<nat>)
    requires b.Node? && BddOk(b, bits) && Listed(b, bits, |b.assignments|, s)
    ensures IsExpansion(Sorted(s), Numbers(b, bits)) && Sorted(s) != []
  {
    SortedIs(s);
    forall x ensures x in s <==> x in Numbers(b, bits) {
      if i :| 0 <= i < |b.assignments| && b.assignments[i] in b.assignments && Matches(b.assignments[i], bits, x) {
        MatchIsSmall(b.assignments[i], bits, x);
      }
    }
    var a := b.assignments[0];
    assert a in b.assignments;
    PickMatches(a, bits, 0);
    assert Base(a, bits) + Pick(Masks(a, bits), 0) in s;
  }

  class Bdd2Vec {
    const bits: nat
    ghost const meaning: map<nat, set<nat>>
    var bvCache: Cache
    var bvcSz: nat
    var evicted: set<nat>
    var bvTime: nat
    var bvLru: set<Use>

    ghost predicate Valid()
      reads this
    {
      CacheOk(meaning, bvCache, bvLru, bvcSz, bvTime)
    }

    constructor (bits: nat, ghost meaning: map<nat, set<nat>>)
      ensures Valid() && bvCache == map[] && this.bits == bits && this.meaning == meaning
    {
      this.bits, this.meaning := bits, meaning;
      bvCache, bvcSz, evicted, bvTime, bvLru := map[], 0, {}, 0, {};
    }

    /** Free the least recently used vectors until there is room. */
    method Evict(ghost now: nat) returns (ghost last: int)
      requires CacheOk(meaning, bvCache, bvLru, bvcSz, now) && bvcSz >= FULL
      modifies this`bvCache, this`bvcSz, this`evicted, this`bvLru
      ensures CacheOk(meaning, bvCache, bvLru, bvcSz, now) && bvcSz < KEEP
      ensures OldestGone(old(bvCache), bvCache, last)
      ensures evicted == old(evicted) + (old(bvCache).Keys - bvCache.Keys)
    {
      last := -1;
      ghost var before := bvCache;
      NothingGone(before);
      hide CacheOk, OldestGone, Total, IsTop;
      while bvcSz >= KEEP
        invariant CacheOk(meaning, bvCache, bvLru, bvcSz, now) && OldestGone(before, bvCache, last) && NewerThan(bvLru, last)
        invariant bvCache.Keys <= before.Keys && evicted == old(evicted) + (before.Keys - bvCache.Keys)
        decreases bvLru
      {
        FullIsQueued(meaning, bvCache, bvLru, bvcSz, now);
        TopExists(bvLru);
        var u :| IsTop(bvLru, u);
        ghost var c := bvCache;
        EvictOne(meaning, before, c, bvLru, bvcSz, now, last, u, Dropped(c, u));
        bvLru := bvLru - {u};
        if u.time == bvCache[u.id].time {
          bvcSz := bvcSz - |bvCache[u.id].vec|;
          bvCache := bvCache - {u.id};
          evicted := evicted + {u.id};
        }
        last := u.time;
      }
    }

    /** List the numbers of every assignment and sort them. */
    method Expand(b: Bdd) returns (v: seq<nat>)
      requires b.Node? && BddOk(b, bits)
      ensures IsExpansion(v, Numbers(b, bits)) && v != []
    {
      var bddexp: seq<nat> := [];
      for i := 0 to |b.assignments|
        invariant Listed(b, bits, i, bddexp)
      {
        var a := b.assignments[i];
        assert a in b.assignments;
        ghost var was := bddexp;
        bddexp := Sat2Vec(a, bits, bddexp);
        ListedNext(b, bits, i, was, bddexp);
      }
      AllListed(b, bits, bddexp);
      v := Sorted(bddexp);
    }

    /** The vector of a cached BDD. */
    method Hit(id: nat, ghost now: nat) returns (v: seq<nat>)
      requires CacheOk(meaning, bvCache, bvLru, bvcSz, now) && bvTime == now + 1 && id in bvCache
      modifies this`bvCache, this`bvLru
      ensures Valid() && id in meaning && IsExpansion(v, meaning[id])
      ensures Stored(old(bvCache), bvCache, id, Item(now + 1, v), false)
    {
      hide CacheOk, IsExpansion, OldestGone, Stored;
      NoneLater(meaning, bvCache, bvLru, bvcSz, now);
      v := bvCache[id].vec;
      NothingGone(bvCache);
      StoredOne(bvCache, bvCache, -1, id, Item(now + 1, v), false);
      Touch(meaning, bvCache, bvLru, bvcSz, now, id);
      bvCache := bvCache[id := Item(bvTime, v)];
      bvLru := bvLru + {Use(bvTime, id)};
    }

    /** The vector of a BDD that is not cached; the least recently used ones may go. */
    method Miss(b: Bdd, ghost now: nat) returns (v: seq<nat>)
      requires CacheOk(meaning, bvCache, bvLru, bvcSz, now) && bvTime == now + 1
      requires b.Node? && BddOk(b, bits) && b.id !in bvCache
      requires b.id in meaning && meaning[b.id] == Numbers(b, bits)
      modifies this
      ensures Valid() && IsExpansion(v, Numbers(b, bits))
      ensures Stored(old(bvCache), bvCache, b.id, Item(now + 1, v), old(bvcSz) >= FULL)
    {
      hide CacheOk, Numbers, IsExpansion, BddOk, OldestGone;
      ghost var last := -1;
      NothingGone(bvCache);
      NoneLater(meaning, bvCache, bvLru, bvcSz, now);
      if bvcSz >= FULL {
        last := Evict(now);
      }
      v := Expand(b);
      StoredOne(old(bvCache), bvCache, last, b.id, Item(now + 1, v), old(bvcSz) >= FULL);
      Add(meaning, bvCache, bvLru, bvcSz, now, b.id, v);
      bvCache := bvCache[b.id := Item(bvTime, v)];
      bvcSz := bvcSz + |v|;
      bvLru := bvLru + {Use(bvTime, b.id)};
      bvTime := bvTime + 1;
    }

    /** The vector of a BDD, from the cache or new; its id becomes the last one used. */
    method Get(b: Bdd) returns (v: seq<nat>)
      requires Valid() && BddOk(b, bits)
      requires b.Node? ==> b.id in meaning && meaning[b.id] == Numbers(b, bits)
      modifies this
      ensures Valid() && IsExpansion(v, Numbers(b, bits))
      ensures b.False? ==> v == [] && bvCache == old(bvCache)
      ensures b.Node? ==> forall x: nat :: x in v <==> Agree(b, bits, x)
      ensures b.Node? ==> Stored(old(bvCache), bvCache, b.id, Item(old(bvTime) + 1, v), b.id !in old(bvCache) && old(bvcSz) >= FULL)
    {
      if b.False? {
        return [];
      }
      hide CacheOk, Numbers, IsExpansion, BddOk, Stored, Agree;
      bvTime := bvTime + 1;
      if b.id in bvCache {
        v := Hit(b.id, old(bvTime));
      } else {
        v := Miss(b, old(bvTime));
      }
      ExpansionAgrees(v, b, bits);
    }
  }
}
