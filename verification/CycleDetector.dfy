/** Nuutila's variant of Tarjan's algorithm, as the abstract base class of the three detectors.

    The pure virtual functions of the base class are the function values in `Client`, and a
    client's own data is the value `state` they act on.  The graph may change while it is
    searched, because a client may merge the nodes of a component into its root; `Lawful`
    says what the search needs of a client, relative to the graph g as it is at the start.
 */
module CycleDetectors {
  import opened Graphs

  datatype Client<!S> = Client(
    getRep: (S, nat) -> (S, nat),          // the node an index stands for now, created if it is missing
    children: (S, nat) -> set<nat>,        // the indices a node has edges to
    onCycle: (S, nat, nat) -> S,           // processNodeOnCycle(node, rep)
    onRep: (S, nat) -> S)                  // processCycleRepNode(rep)

  /** The call-backs for one component: its other nodes in order, then its root. */
  function Report<S>(client: Client<S>, s: S, c: Component): S {
    client.onRep(Fold(client, s, c.root, c.others), c.root)
  }

  function Fold<S>(client: Client<S>, s: S, root: nat, others: seq<nat>): S {
    if others == [] then s
    else client.onCycle(Fold(client, s, root, others[..|others| - 1]), others[|others| - 1], root)
  }

  lemma FoldSnoc<S>(client: Client<S>, s: S, root: nat, others: seq<nat>, x: nat)
    ensures Fold(client, s, root, others + [x]) == client.onCycle(Fold(client, s, root, others), x, root)
  {
    assert (others + [x])[..|others|] == others;
  }

  /** sim(s, log) is the client's own account of its state once the components in log were reported.
      base[i] is the node index i stood for at the start. */
  ghost predicate Lawful<S(!new)>(client: Client<S>, g: Graph, base: map<nat, nat>, sim: (S, seq<Component>) -> bool) {
    && Closed(g)
    && (forall i | i in base :: base[i] in g)
    && (forall n | n in g :: n in base && base[n] == n)
    && (forall s, log, i | sim(s, log) && SccOrder(g, log) && i in base :: GetRepLaw(client, base, sim, s, log, i))
    && (forall s, log, n | sim(s, log) && SccOrder(g, log) && n in g && n !in Done(log) :: ChildrenLaw(client, g, base, s, n))
    && (forall s, log, c | sim(s, log) && SccOrder(g, log) && ComesNext(g, Done(log), c) :: sim(Report(client, s, c), log + [c]))
  }

  ghost predicate GetRepLaw<S(!new)>(client: Client<S>, base: map<nat, nat>, sim: (S, seq<Component>) -> bool,
                                     s: S, log: seq<Component>, i: nat)
    requires i in base
  {
    var (t, r) := client.getRep(s, i);
    sim(t, log) && if base[i] in Done(log) then r in Done(log) else r == base[i]
  }

  ghost predicate ChildrenLaw<S(!new)>(client: Client<S>, g: Graph, base: map<nat, nat>, s: S, n: nat)
    requires n in g
  {
    && (forall k | k in client.children(s, n) :: k in base && base[k] in g[n])
    && (forall m | m in g[n] :: exists k | k in client.children(s, n) :: base[k] == m)
  }

  /** The search's own data.  disc, the time a node was first visited, is what num holds before it is lowered. */
  datatype Marks = Marks(stack: seq<nat>, num: map<nat, nat>, disc: map<nat, nat>, comp: set<nat>, time: nat)

  ghost predicate Books(g: Graph, gray: set<nat>, m: Marks) {
    && m.num.Keys == m.disc.Keys == gray + Elems(m.stack) + m.comp
    && m.num.Keys <= g.Keys
    && gray !! Elems(m.stack) && gray !! m.comp && Elems(m.stack) !! m.comp
    && NoDups(m.stack)
    && (forall x | x in m.num :: m.num[x] <= m.disc[x] < m.time)
    && (forall x, y | x in m.disc && y in m.disc && x != y :: m.disc[x] != m.disc[y])
  }

  ghost predicate Active(m: Marks, x: nat) {
    x in m.num && x !in m.comp
  }

  /** x reaches an unfinished or stacked node that was visited at time m.num[x]. */
  ghost predicate Justified(g: Graph, m: Marks, x: nat)
    requires m.num.Keys == m.disc.Keys && x in m.num
  {
    exists w :: Active(m, w) && m.disc[w] == m.num[x] && Reaches(g, x, w)
  }

  /** x reaches an unfinished node visited before it. */
  ghost predicate Anchored(g: Graph, gray: set<nat>, m: Marks, x: nat)
    requires x in m.disc
  {
    exists r :: r in gray && r in m.disc && m.disc[r] < m.disc[x] && Reaches(g, x, r)
  }

  /** The edges of x were followed and its number lowered accordingly. */
  ghost predicate Scanned(m: Marks, x: nat, succs: set<nat>)
    requires m.num.Keys == m.disc.Keys && x in m.num
  {
    forall w | w in succs :: w in m.num && (w !in m.comp ==> m.num[x] <= m.disc[w])
  }

  ghost predicate EdgesSeen(g: Graph, m: Marks)
    requires m.num.Keys == m.disc.Keys
  {
    && (forall x | x in m.comp :: Succ(g, x) <= m.comp)
    && (forall x | x in m.stack :: x in m.num && Scanned(m, x, Succ(g, x)))
  }

  ghost predicate GraysReach(g: Graph, gray: set<nat>, m: Marks)
    requires m.num.Keys == m.disc.Keys && gray <= m.disc.Keys
  {
    forall r, x | r in gray && Active(m, x) && m.disc[r] <= m.disc[x] :: Reaches(g, r, x)
  }

  ghost predicate AllAnchored(g: Graph, gray: set<nat>, m: Marks) {
    forall x | x in m.stack :: x in m.disc && Anchored(g, gray, m, x)
  }

  ghost predicate AllJustified(g: Graph, m: Marks)
    requires m.num.Keys == m.disc.Keys
  {
    forall x {:trigger Justified(g, m, x)} | Active(m, x) :: Justified(g, m, x)
  }

  /** gray holds the nodes whose visit is under way. */
  ghost predicate Inv(g: Graph, gray: set<nat>, m: Marks) {
    && Closed(g)
    && Books(g, gray, m)
    && EdgesSeen(g, m)
    && GraysReach(g, gray, m)
    && AllAnchored(g, gray, m)
    && AllJustified(g, m)
  }

  function Begun(m: Marks, n: nat): Marks {
    m.(num := m.num[n := m.time], disc := m.disc[n := m.time], time := m.time + 1)
  }

  lemma BegunBooks(g: Graph, gray: set<nat>, m: Marks, n: nat)
    requires Books(g, gray, m) && EdgesSeen(g, m) && n in g && n !in m.num
    ensures Books(g, gray + {n}, Begun(m, n)) && EdgesSeen(g, Begun(m, n))
  {
    forall x | x in m.stack ensures Scanned(Begun(m, n), x, Succ(g, x)) {
      assert Scanned(m, x, Succ(g, x));
    }
  }

  lemma BegunAnchored(g: Graph, gray: set<nat>, m: Marks, n: nat)
    requires Books(g, gray, m) && AllAnchored(g, gray, m) && n !in m.num
    ensures AllAnchored(g, gray + {n}, Begun(m, n))
  {
    forall x | x in m.stack ensures x in Begun(m, n).disc && Anchored(g, gray + {n}, Begun(m, n), x) {
      var r :| r in gray && r in m.disc && m.disc[r] < m.disc[x] && Reaches(g, x, r);
      assert r in gray + {n};
    }
  }

  lemma BegunJustified(g: Graph, gray: set<nat>, m: Marks, n: nat)
    requires Books(g, gray, m) && AllJustified(g, m) && n in g && n !in m.num
    ensures AllJustified(g, Begun(m, n))
  {
    var m' := Begun(m, n);
    ReachesSelf(g, n);
    forall x | Active(m', x) ensures Justified(g, m', x) {
      if x == n {
        assert Active(m', n);
      } else {
        assert Active(m, x) && Justified(g, m, x);
        var w :| Active(m, w) && m.disc[w] == m.num[x] && Reaches(g, x, w);
        assert Active(m', w);
      }
    }
  }

  lemma BeginVisit(g: Graph, gray: set<nat>, m: Marks, n: nat)
    requires Inv(g, gray, m) && n in g && n !in m.num
    requires forall r | r in gray :: Reaches(g, r, n)
    ensures Inv(g, gray + {n}, Begun(m, n))
  {
    BegunBooks(g, gray, m, n);
    BegunAnchored(g, gray, m, n);
    BegunJustified(g, gray, m, n);
    ReachesSelf(g, n);
    forall r, x | r in gray + {n} && Active(Begun(m, n), x) && Begun(m, n).disc[r] <= Begun(m, n).disc[x]
      ensures Reaches(g, r, x)
    {
      if x != n {
        assert Active(m, x);
      }
    }
  }

  function Lowered(m: Marks, n: nat, k: nat): Marks
    requires k in m.num
  {
    m.(num := m.num[n := m.num[k]])
  }

  lemma LoweredJustified(g: Graph, gray: set<nat>, m: Marks, n: nat, k: nat)
    requires Books(g, gray, m) && AllJustified(g, m) && n in gray && k in Succ(g, n) && Closed(g)
    requires Active(m, k)
    ensures AllJustified(g, Lowered(m, n, k))
  {
    var m' := Lowered(m, n, k);
    ReachesEdge(g, n, k);
    forall x | Active(m', x) ensures Justified(g, m', x) {
      var y := if x == n then k else x;
      assert Active(m, y) && Justified(g, m, y);
      var w :| Active(m, w) && m.disc[w] == m.num[y] && Reaches(g, y, w);
      if x == n {
        ReachesTrans(g, n, k, w);
      }
      assert Active(m', w);
    }
  }

  lemma LoweredEdges(g: Graph, gray: set<nat>, m: Marks, n: nat, k: nat)
    requires Books(g, gray, m) && EdgesSeen(g, m) && n in gray && Active(m, k) && m.num[k] < m.num[n]
    ensures Books(g, gray, Lowered(m, n, k)) && EdgesSeen(g, Lowered(m, n, k))
  {
    forall x | x in m.stack ensures Scanned(Lowered(m, n, k), x, Succ(g, x)) {
      assert Scanned(m, x, Succ(g, x));
    }
  }

  lemma LowerNumber(g: Graph, gray: set<nat>, m: Marks, n: nat, k: nat)
    requires Inv(g, gray, m) && n in gray && k in Succ(g, n)
    requires Active(m, k) && m.num[k] < m.num[n]
    ensures Inv(g, gray, Lowered(m, n, k))
  {
    LoweredEdges(g, gray, m, n, k);
    LoweredJustified(g, gray, m, n, k);
    forall x | x in m.stack ensures Anchored(g, gray, Lowered(m, n, k), x) {
      assert Anchored(g, gray, m, x);
    }
    forall r, x | r in gray && Active(Lowered(m, n, k), x) && m.disc[r] <= m.disc[x] ensures Reaches(g, r, x) {
      assert Active(m, x);
    }
  }

  function Suspended(m: Marks, n: nat): Marks {
    m.(stack := m.stack + [n])
  }

  /** A node whose number was lowered reaches an unfinished node visited before it. */
  lemma LoweredIsAnchored(g: Graph, gray: set<nat>, m: Marks, n: nat)
    requires Inv(g, gray, m) && n in gray && m.num[n] < m.disc[n]
    ensures Anchored(g, gray - {n}, m, n)
  {
    assert Active(m, n) && Justified(g, m, n);
    var w :| Active(m, w) && m.disc[w] == m.num[n] && Reaches(g, n, w);
    if w !in gray {
      assert w in m.stack && Anchored(g, gray, m, w);
      var r :| r in gray && r in m.disc && m.disc[r] < m.disc[w] && Reaches(g, w, r);
      ReachesTrans(g, n, w, r);
      assert r in gray - {n};
    } else {
      assert w in gray - {n};
    }
  }

  lemma SuspendedAnchored(g: Graph, gray: set<nat>, m: Marks, n: nat)
    requires Inv(g, gray, m) && n in gray && Anchored(g, gray - {n}, m, n)
    ensures AllAnchored(g, gray - {n}, Suspended(m, n))
  {
    var rest := gray - {n};
    var up :| up in rest && up in m.disc && m.disc[up] < m.disc[n] && Reaches(g, n, up);
    forall x | x in Suspended(m, n).stack ensures Anchored(g, rest, Suspended(m, n), x) {
      if x != n {
        assert Anchored(g, gray, m, x);
        var r :| r in gray && r in m.disc && m.disc[r] < m.disc[x] && Reaches(g, x, r);
        if r == n {
          ReachesTrans(g, x, n, up);
        } else {
          assert r in rest;
        }
      }
    }
  }

  /** A node that reaches one visited earlier waits on the stack. */
  lemma Suspend(g: Graph, gray: set<nat>, m: Marks, n: nat)
    requires Inv(g, gray, m) && n in gray
    requires m.num[n] < m.disc[n] && Scanned(m, n, Succ(g, n))
    ensures Inv(g, gray - {n}, Suspended(m, n))
  {
    var m' := Suspended(m, n);
    LoweredIsAnchored(g, gray, m, n);
    SuspendedAnchored(g, gray, m, n);
    assert Elems(m'.stack) == Elems(m.stack) + {n};
    assert Books(g, gray - {n}, m');
    forall x | x in m'.stack ensures Scanned(m', x, Succ(g, x)) {
      assert Scanned(m, x, Succ(g, x));
    }
    forall x | Active(m', x) ensures Justified(g, m', x) {
      assert Active(m, x) && Justified(g, m, x);
      var w :| Active(m, w) && m.disc[w] == m.num[x] && Reaches(g, x, w);
      assert Active(m', w);
    }
    forall r, x | r in gray - {n} && Active(m', x) && m.disc[r] <= m.disc[x] ensures Reaches(g, r, x) {
      assert Active(m, x);
    }
  }

  function Reverse(s: seq<nat>): (r: seq<nat>)
    ensures |r| == |s| && forall i | 0 <= i < |s| :: r[i] == s[|s| - 1 - i]
  {
    if s == [] then [] else Reverse(s[1..]) + [s[0]]
  }

  lemma ReverseElems(s: seq<nat>)
    ensures Elems(Reverse(s)) == Elems(s)
    ensures NoDups(s) ==> NoDups(Reverse(s))
  {
    forall x ensures x in Elems(Reverse(s)) <==> x in Elems(s) {
      if x in s {
        var i :| 0 <= i < |s| && s[i] == x;
        assert Reverse(s)[|s| - 1 - i] == x;
      }
    }
  }

  /** n kept its own number, and `low` is the part of the stack that was there before n. */
  ghost predicate AtRoot(g: Graph, gray: set<nat>, m: Marks, n: nat, low: nat) {
    && Inv(g, gray, m) && n in gray && low <= |m.stack|
    && m.num[n] == m.disc[n] && Scanned(m, n, Succ(g, n))
    && (forall r | r in gray && r != n :: m.disc[r] < m.disc[n])
    && (forall i | 0 <= i < low :: m.disc[m.stack[i]] < m.disc[n])
    && (forall i | low <= i < |m.stack| :: m.disc[n] <= m.num[m.stack[i]])
  }

  function Detected(m: Marks, n: nat, low: nat): Component
    requires low <= |m.stack|
  {
    Component(n, Reverse(m.stack[low..]))
  }

  lemma DetectedNodes(g: Graph, gray: set<nat>, m: Marks, n: nat, low: nat)
    requires Inv(g, gray, m) && n in gray && low <= |m.stack|
    ensures Nodes(Detected(m, n, low)) == {n} + Elems(m.stack[low..])
    ensures Elems(m.stack) == Elems(m.stack[..low]) + Elems(m.stack[low..])
    ensures Elems(m.stack[..low]) !! Elems(m.stack[low..])
    ensures n !in Detected(m, n, low).others && NoDups(Detected(m, n, low).others)
  {
    ReverseElems(m.stack[low..]);
    assert m.stack == m.stack[..low] + m.stack[low..];
    assert forall x :: x in Detected(m, n, low).others <==> x in Elems(Reverse(m.stack[low..]));
  }

  /** Every node that is about to be popped reaches n and is reached from it. */
  lemma PoppedAreMutual(g: Graph, gray: set<nat>, m: Marks, n: nat, low: nat, x: nat)
    requires AtRoot(g, gray, m, n, low) && x in m.stack[low..]
    ensures Mutual(g, n, x)
  {
    assert x in m.stack && Active(m, x) && Active(m, n);
    assert m.disc[n] <= m.disc[x];
    assert Anchored(g, gray, m, x);
    var r :| r in gray && r in m.disc && m.disc[r] < m.disc[x] && Reaches(g, x, r);
    assert m.disc[r] <= m.disc[n];
    ReachesTrans(g, x, r, n);
  }

  /** The popped nodes and n have no edge to a node that stays active. */
  lemma PoppedAreClosed(g: Graph, gray: set<nat>, m: Marks, n: nat, low: nat)
    requires AtRoot(g, gray, m, n, low)
    ensures forall x | x in Nodes(Detected(m, n, low)) :: Succ(g, x) <= m.comp + Nodes(Detected(m, n, low))
  {
    DetectedNodes(g, gray, m, n, low);
    forall x, w | x in Nodes(Detected(m, n, low)) && w in Succ(g, x) ensures w in m.comp + Nodes(Detected(m, n, low)) {
      assert x == n || x in m.stack;
      assert Scanned(m, x, Succ(g, x));
      if w !in m.comp {
        assert m.disc[n] <= m.num[x] <= m.disc[w];
        assert w !in gray - {n};
        if w != n {
          assert w in m.stack && w in Elems(m.stack);
        }
      }
    }
  }

  lemma DetectedComesNext(g: Graph, gray: set<nat>, m: Marks, n: nat, low: nat)
    requires AtRoot(g, gray, m, n, low)
    ensures ComesNext(g, m.comp, Detected(m, n, low))
  {
    var c := Detected(m, n, low);
    DetectedNodes(g, gray, m, n, low);
    PoppedAreClosed(g, gray, m, n, low);
    forall x: nat ensures x in Nodes(c) <==> x in g && Mutual(g, n, x) {
      if x in Nodes(c) {
        if x == n {
          ReachesSelf(g, n);
        } else {
          PoppedAreMutual(g, gray, m, n, low, x);
        }
      } else if x in g && Mutual(g, n, x) {
        assert n in m.comp + Nodes(c);
        ReachesInside(g, m.comp + Nodes(c), n, x);
        assert x in m.comp;
        ReachesInside(g, m.comp, x, n);
        assert false;
      }
    }
  }

  function Reported(m: Marks, n: nat, low: nat): Marks
    requires low <= |m.stack|
  {
    m.(stack := m.stack[..low], comp := m.comp + Nodes(Detected(m, n, low)))
  }

  lemma ReportedJustified(g: Graph, gray: set<nat>, m: Marks, n: nat, low: nat)
    requires AtRoot(g, gray, m, n, low)
    ensures AllJustified(g, Reported(m, n, low))
  {
    var m' := Reported(m, n, low);
    DetectedNodes(g, gray, m, n, low);
    forall x | Active(m', x) ensures Justified(g, m', x) {
      assert Active(m, x) && Justified(g, m, x) && m.disc[x] < m.disc[n];
      var w :| Active(m, w) && m.disc[w] == m.num[x] && Reaches(g, x, w);
      assert Active(m', w);
    }
  }

  lemma ReportedAnchored(g: Graph, gray: set<nat>, m: Marks, n: nat, low: nat)
    requires AtRoot(g, gray, m, n, low)
    ensures AllAnchored(g, gray - {n}, Reported(m, n, low))
  {
    forall x | x in m.stack[..low] ensures Anchored(g, gray - {n}, Reported(m, n, low), x) {
      assert x in m.stack && Anchored(g, gray, m, x);
      var r :| r in gray && r in m.disc && m.disc[r] < m.disc[x] && Reaches(g, x, r);
      assert r in gray - {n};
    }
  }

  lemma ReportedBooks(g: Graph, gray: set<nat>, m: Marks, n: nat, low: nat)
    requires AtRoot(g, gray, m, n, low)
    ensures Books(g, gray - {n}, Reported(m, n, low)) && EdgesSeen(g, Reported(m, n, low))
  {
    DetectedNodes(g, gray, m, n, low);
    PoppedAreClosed(g, gray, m, n, low);
    forall x | x in m.stack[..low] ensures x in m.num && Scanned(Reported(m, n, low), x, Succ(g, x)) {
      assert x in m.stack && Scanned(m, x, Succ(g, x));
    }
  }

  /** Once its component is reported, n's visit leaves the invariant as it was. */
  lemma CloseComponent(g: Graph, gray: set<nat>, m: Marks, n: nat, low: nat)
    requires AtRoot(g, gray, m, n, low)
    ensures Inv(g, gray - {n}, Reported(m, n, low))
  {
    ReportedBooks(g, gray, m, n, low);
    ReportedAnchored(g, gray, m, n, low);
    ReportedJustified(g, gray, m, n, low);
    forall r, x | r in gray - {n} && Active(Reported(m, n, low), x) && m.disc[r] <= m.disc[x] ensures Reaches(g, r, x) {
      assert Active(m, x);
    }
  }

  /** What a visit to n leaves as it was, and what it promises of the part of the stack it added. */
  ghost predicate Grew(was: Marks, now: Marks, n: nat) {
    && was.num.Keys <= now.num.Keys && was.num.Keys == was.disc.Keys && now.num.Keys == now.disc.Keys
    && (forall x | x in was.num :: now.num[x] == was.num[x] && now.disc[x] == was.disc[x])
    && (forall x | x in now.disc && x !in was.disc :: was.time <= now.disc[x])
    && was.time <= now.time
    && was.comp <= now.comp
    && was.stack <= now.stack
    && (forall i | |was.stack| <= i < |now.stack| :: now.stack[i] !in was.num && now.stack[i] in now.num)
    && n in now.num
    && (n in now.comp ==> now.stack == was.stack)
    && (n !in now.comp ==> forall i | |was.stack| <= i < |now.stack| :: now.num[n] <= now.num[now.stack[i]])
  }

  /** The state of a visit to n, with its edges to `left` still to be followed. */
  ghost predicate Visiting(g: Graph, was: Marks, now: Marks, n: nat, left: set<nat>) {
    && was.num.Keys == was.disc.Keys && now.num.Keys == now.disc.Keys
    && n in now.num && now.disc[n] == was.time < now.time && was.num.Keys + {n} <= now.num.Keys
    && (forall x | x in was.num :: now.num[x] == was.num[x] && now.disc[x] == was.disc[x])
    && (forall x | x in now.disc && x !in was.disc && x != n :: was.time < now.disc[x])
    && was.comp <= now.comp
    && was.stack <= now.stack
    && (forall i | |was.stack| <= i < |now.stack| :: now.stack[i] !in was.num && now.stack[i] in now.num && now.num[n] <= now.num[now.stack[i]])
    && Scanned(now, n, Succ(g, n) - left)
  }

  function LoweredIf(m: Marks, n: nat, k: nat): Marks
    requires n in m.num && k in m.num
  {
    if k !in m.comp && m.num[n] > m.num[k] then Lowered(m, n, k) else m
  }

  /** After the edge to k was followed, by a visit if k was new. */
  lemma EdgeFollowed(g: Graph, was: Marks, before: Marks, mid: Marks, n: nat, k: nat, left: set<nat>)
    requires Visiting(g, was, before, n, left) && n !in was.num
    requires Grew(before, mid, k)
    requires k in mid.num ==> mid.num[k] <= mid.disc[k]
    ensures Visiting(g, was, LoweredIf(mid, n, k), n, left - {k})
  {
    var now := LoweredIf(mid, n, k);
    forall w | w in Succ(g, n) - (left - {k}) ensures w in now.num && (w !in now.comp ==> now.num[n] <= now.disc[w]) {
      if w != k {
        assert w in Succ(g, n) - left;
        assert w in before.num;
      }
    }
    forall i | |was.stack| <= i < |now.stack|
      ensures now.stack[i] !in was.num && now.stack[i] in now.num && now.num[n] <= now.num[now.stack[i]]
    {
      if i < |before.stack| {
        assert now.stack[i] == before.stack[i];
      }
    }
  }

  lemma StartVisiting(g: Graph, gray: set<nat>, was: Marks, n: nat)
    requires Inv(g, gray, was) && n in g && n !in was.num
    ensures Visiting(g, was, Begun(was, n), n, g[n])
  {
  }

  lemma VisitingBasics(g: Graph, gray: set<nat>, was: Marks, now: Marks, n: nat)
    requires Inv(g, gray + {n}, now) && Visiting(g, was, now, n, {})
    ensures Scanned(now, n, Succ(g, n)) && now.num[n] <= now.disc[n] == was.time
    ensures n !in now.stack && n !in now.comp
  {
    assert Succ(g, n) - {} == Succ(g, n);
  }

  lemma SuspendedGrew(g: Graph, was: Marks, now: Marks, n: nat)
    requires Visiting(g, was, now, n, {}) && n !in was.num && n !in now.comp
    ensures Grew(was, Suspended(now, n), n)
  {
  }

  /** A visit to n that ends with n on the stack. */
  lemma EndSuspended(g: Graph, gray: set<nat>, was: Marks, now: Marks, n: nat)
    requires n !in was.num && gray + {n} - {n} == gray
    requires Inv(g, gray + {n}, now) && Visiting(g, was, now, n, {}) && now.num[n] != was.time
    ensures Inv(g, gray, Suspended(now, n))
    ensures Grew(was, Suspended(now, n), n)
  {
    VisitingBasics(g, gray, was, now, n);
    SuspendedGrew(g, was, now, n);
    hide Inv, Visiting, Grew, Scanned;
    Suspend(g, gray + {n}, now, n);
  }

  /** A visit to n that ends with n as the root of a component. */
  lemma EndsAtRoot(g: Graph, gray: set<nat>, was: Marks, now: Marks, n: nat)
    requires Inv(g, gray, was) && n !in was.num && gray + {n} - {n} == gray
    requires Inv(g, gray + {n}, now) && Visiting(g, was, now, n, {}) && now.num[n] == was.time
    ensures AtRoot(g, gray + {n}, now, n, |was.stack|) && |was.stack| <= |now.stack|
    ensures forall i | 0 <= i < |now.stack| :: now.stack[i] in now.num && (now.num[now.stack[i]] < was.time <==> i < |was.stack|)
  {
    var low := |was.stack|;
    VisitingBasics(g, gray, was, now, n);
    hide Justified, Anchored, Reaches;
    forall i | 0 <= i < low ensures now.stack[i] in now.num && now.disc[now.stack[i]] < now.disc[n] {
      assert now.stack[i] == was.stack[i] && was.stack[i] in was.stack;
      assert was.stack[i] in was.num;
    }
    forall i | low <= i < |now.stack| ensures now.disc[n] <= now.num[now.stack[i]] {
    }
  }

  lemma EndReported(g: Graph, gray: set<nat>, was: Marks, now: Marks, n: nat)
    requires AtRoot(g, gray + {n}, now, n, |was.stack|) && gray + {n} - {n} == gray
    requires Visiting(g, was, now, n, {}) && n !in was.num
    ensures Inv(g, gray, Reported(now, n, |was.stack|))
    ensures Grew(was, Reported(now, n, |was.stack|), n)
  {
    CloseComponent(g, gray + {n}, now, n, |was.stack|);
    assert now.stack[..|was.stack|] == was.stack;
  }

  lemma Basics(g: Graph, gray: set<nat>, m: Marks)
    requires Inv(g, gray, m)
    ensures Closed(g) && m.num.Keys == m.disc.Keys <= g.Keys && m.comp <= m.num.Keys && gray <= m.num.Keys
    ensures forall x | x in m.num :: m.num[x] <= m.disc[x] < m.time
  {
  }

  lemma SomeElement(s: seq<nat>)
    requires s != []
    ensures exists x :: x in s
  {
    assert s[0] in s;
  }

  /** With no visit under way nothing waits on the stack. */
  lemma StackIsEmpty(g: Graph, m: Marks)
    requires Inv(g, {}, m)
    ensures m.stack == [] && m.comp == m.num.Keys
  {
    if m.stack != [] {
      SomeElement(m.stack);
    }
  }

  lemma LawGetRep<S(!new)>(client: Client<S>, g: Graph, base: map<nat, nat>, sim: (S, seq<Component>) -> bool,
                           s: S, log: seq<Component>, i: nat)
    requires Lawful(client, g, base, sim) && sim(s, log) && SccOrder(g, log) && i in base
    ensures base[i] in g && GetRepLaw(client, base, sim, s, log, i)
  {
  }

  lemma LawChildren<S(!new)>(client: Client<S>, g: Graph, base: map<nat, nat>, sim: (S, seq<Component>) -> bool,
                             s: S, log: seq<Component>, n: nat)
    requires Lawful(client, g, base, sim) && sim(s, log) && SccOrder(g, log) && n in g && n !in Done(log)
    ensures ChildrenLaw(client, g, base, s, n)
  {
  }

  lemma LawReport<S(!new)>(client: Client<S>, g: Graph, base: map<nat, nat>, sim: (S, seq<Component>) -> bool,
                           s: S, log: seq<Component>, c: Component)
    requires Lawful(client, g, base, sim) && sim(s, log) && SccOrder(g, log) && ComesNext(g, Done(log), c)
    ensures sim(Report(client, s, c), log + [c])
    ensures SccOrder(g, log + [c]) && Done(log + [c]) == Done(log) + Nodes(c)
  {
    DoneSnoc(log, c);
    SccOrderSnoc(g, log, c);
  }

  lemma GrewNot(m: Marks, n: nat)
    requires m.num.Keys == m.disc.Keys && n in m.num
    requires n in m.comp || n in m.num
    ensures Grew(m, m, n)
  {
  }

  lemma GrewKeys(was: Marks, now: Marks, n: nat)
    requires Grew(was, now, n)
    ensures was.num.Keys <= now.num.Keys && n in now.num
  {
  }

  class CycleDetector<S(!new)> {
    const client: Client<S>
    ghost const g: Graph
    ghost const base: map<nat, nat>
    ghost const sim: (S, seq<Component>) -> bool

    var state: S
    var sccStack: seq<nat>
    var dfsNum: map<nat, nat>
    var inComponent: set<nat>
    var timestamp: nat

    ghost var disc: map<nat, nat>
    ghost var log: seq<Component>

    constructor (client: Client<S>, state: S, ghost g: Graph, ghost base: map<nat, nat>, ghost sim: (S, seq<Component>) -> bool)
      requires Lawful(client, g, base, sim) && sim(state, [])
      ensures this.client == client && this.g == g && this.base == base && this.sim == sim
      ensures Valid({}) && log == [] && this.state == state
    {
      this.client, this.g, this.base, this.sim := client, g, base, sim;
      this.state := state;
      sccStack, dfsNum, inComponent, timestamp := [], map[], {}, 0;
      disc, log := map[], [];
    }

    ghost function Now(): Marks
      reads this
    {
      Marks(sccStack, dfsNum, disc, inComponent, timestamp)
    }

    ghost predicate Valid(gray: set<nat>)
      reads this
    {
      && Lawful(client, g, base, sim)
      && Inv(g, gray, Now())
      && SccOrder(g, log) && Done(log) == inComponent
      && sim(state, log)
    }

    method GetRep(i: nat) returns (r: nat)
      requires i in base && Lawful(client, g, base, sim) && sim(state, log) && SccOrder(g, log)
      modifies this`state
      ensures sim(state, log)
      ensures base[i] in g && if base[i] in Done(log) then r in Done(log) else r == base[i]
    {
      LawGetRep(client, g, base, sim, state, log, i);
      hide Lawful, SccOrder;
      var (t, rep) := client.getRep(state, i);
      state := t;
      r := rep;
    }

    method Visit(node: nat, ghost gray: set<nat>)
      requires Valid(gray) && node in g && node !in dfsNum
      requires forall r | r in gray :: Reaches(g, r, node)
      modifies this
      ensures Valid(gray)
      ensures Grew(old(Now()), Now(), node)
      ensures old(log) <= log
      decreases g.Keys - dfsNum.Keys, 0
    {
      hide Inv, Lawful, Visiting, Grew, SccOrder, Done, Reaches;
      ghost var was := Now();
      var myTimeStamp := timestamp;
      BeginVisit(g, gray, was, node);
      StartVisiting(g, gray, was, node);
      Basics(g, gray, was);
      timestamp := timestamp + 1;
      dfsNum, disc := dfsNum[node := myTimeStamp], disc[node := myTimeStamp];
      assert Now() == Begun(was, node);

      LawChildren(client, g, base, sim, state, log, node);
      var todo := client.children(state, node);
      ghost var left := g[node];
      while todo != {}
        invariant Valid(gray + {node}) && Visiting(g, was, Now(), node, left)
        invariant old(log) <= log && was.num.Keys + {node} <= dfsNum.Keys
        invariant forall k | k in todo :: k in base && base[k] in g[node]
        invariant forall m | m in left :: exists k | k in todo :: base[k] == m
        decreases todo
      {
        var k :| k in todo;
        todo := todo - {k};
        FollowEdge(node, k, gray, was, left);
        left := left - {base[k]};
      }
      assert left == {};
      Finish(node, myTimeStamp, gray, was);
    }

    /** One iteration of the loop over the successor edges of node. */
    method FollowEdge(node: nat, k: nat, ghost gray: set<nat>, ghost was: Marks, ghost left: set<nat>)
      requires Valid(gray + {node}) && Visiting(g, was, Now(), node, left) && node !in was.num
      requires k in base && node in g && base[k] in g[node]
      requires forall r | r in gray :: Reaches(g, r, node)
      modifies this
      ensures Valid(gray + {node}) && Visiting(g, was, Now(), node, left - {base[k]})
      ensures old(log) <= log && old(dfsNum.Keys) <= dfsNum.Keys
      decreases g.Keys - dfsNum.Keys, 1
    {
      hide Inv, Lawful, Visiting, Grew, SccOrder, Done, Reaches;
      ghost var target := base[k];
      ghost var before := Now();
      var succRep := GetRep(k);
      Basics(g, gray + {node}, before);
      if succRep !in dfsNum {
        ReachesEdge(g, node, succRep);
        forall r | r in gray + {node} ensures Reaches(g, r, succRep) {
          if r != node {
            ReachesTrans(g, r, node, succRep);
          }
        }
        Visit(succRep, gray + {node});
      } else {
        GrewNot(before, target);
      }
      ghost var mid := Now();
      Basics(g, gray + {node}, mid);
      GrewKeys(before, mid, target);
      EdgeFollowed(g, was, before, mid, node, target, left);
      if succRep !in inComponent && dfsNum[node] > dfsNum[succRep] {
        LowerNumber(g, gray + {node}, mid, node, succRep);
        dfsNum := dfsNum[node := dfsNum[succRep]];
      }
      assert Now() == LoweredIf(mid, node, target);
    }

    /** What follows that loop: node is put on the stack, or it is the root of a component. */
    method Finish(node: nat, myTimeStamp: nat, ghost gray: set<nat>, ghost was: Marks)
      requires Valid(gray + {node}) && Visiting(g, was, Now(), node, {})
      requires Inv(g, gray, was) && node !in was.num && myTimeStamp == was.time
      modifies this
      ensures Valid(gray)
      ensures Grew(was, Now(), node)
      ensures old(log) <= log
    {
      hide Inv, Lawful, Visiting, Grew, SccOrder, Done, Reaches, AtRoot, ComesNext;
      ghost var m := Now();
      Basics(g, gray, was);
      Basics(g, gray + {node}, m);
      assert gray + {node} - {node} == gray;
      if myTimeStamp != dfsNum[node] {
        EndSuspended(g, gray, was, m, node);
        sccStack := sccStack + [node];
        assert Now() == Suspended(m, node);
        return;
      }
      ghost var low := |was.stack|;
      EndsAtRoot(g, gray, was, m, node);
      ghost var c := Detected(m, node, low);
      DetectedNodes(g, gray + {node}, m, node, low);
      DetectedComesNext(g, gray + {node}, m, node, low);
      EndReported(g, gray, was, m, node);
      ReportComponent(node, myTimeStamp, low, c);
      assert Now() == Reported(m, node, low);
    }

    /** node is the root of a component: its other nodes are popped, then node is reported. */
    method ReportComponent(node: nat, myTimeStamp: nat, ghost low: nat, ghost c: Component)
      requires Lawful(client, g, base, sim) && sim(state, log) && SccOrder(g, log) && Done(log) == inComponent
      requires ComesNext(g, inComponent, c) && c.root == node
      requires low + |c.others| == |sccStack|
      requires forall i | 0 <= i < |c.others| :: c.others[i] == sccStack[|sccStack| - 1 - i]
      requires forall i | 0 <= i < |sccStack| :: sccStack[i] in dfsNum && (dfsNum[sccStack[i]] < myTimeStamp <==> i < low)
      modifies this`state, this`inComponent, this`sccStack, this`log
      ensures sccStack == old(sccStack[..low]) && inComponent == old(inComponent) + Nodes(c)
      ensures log == old(log) + [c]
      ensures sim(state, log) && SccOrder(g, log) && Done(log) == inComponent
    {
      hide Lawful, SccOrder, Done, ComesNext;
      ghost var s0 := state;
      inComponent := inComponent + {node};
      PopComponent(node, myTimeStamp, low, c, s0);
      state := client.onRep(state, node);
      log := log + [c];
      LawReport(client, g, base, sim, s0, old(log), c);
      assert inComponent == old(inComponent) + Nodes(c);
    }

    /** The loop that pops the other nodes of node's component. */
    method PopComponent(node: nat, myTimeStamp: nat, ghost low: nat, ghost c: Component, ghost s0: S)
      requires low + |c.others| == |sccStack|
      requires forall i | 0 <= i < |c.others| :: c.others[i] == sccStack[|sccStack| - 1 - i]
      requires forall i | 0 <= i < |sccStack| :: sccStack[i] in dfsNum && (dfsNum[sccStack[i]] < myTimeStamp <==> i < low)
      requires state == s0
      modifies this`state, this`inComponent, this`sccStack
      ensures sccStack == old(sccStack[..low])
      ensures inComponent == old(inComponent) + Elems(c.others)
      ensures state == Fold(client, s0, node, c.others)
    {
      ghost var i := 0;
      while sccStack != []
        invariant 0 <= i <= |c.others| && sccStack == old(sccStack)[..|old(sccStack)| - i]
        invariant inComponent == old(inComponent) + Elems(c.others[..i])
        invariant state == Fold(client, s0, node, c.others[..i])
        decreases |sccStack|
      {
        var cycleNode := sccStack[|sccStack| - 1];
        if dfsNum[cycleNode] < myTimeStamp {
          break;
        }
        FoldSnoc(client, s0, node, c.others[..i], cycleNode);
        assert c.others[..i + 1] == c.others[..i] + [cycleNode];
        state := client.onCycle(state, cycleNode, node);
        inComponent := inComponent + {cycleNode};
        sccStack := sccStack[..|sccStack| - 1];
        i := i + 1;
      }
      assert c.others[..i] == c.others;
    }

    /** Search from every node listed, in that order. */
    method RunOnGraph(order: seq<nat>)
      requires Valid({}) && forall i | i in order :: i in base
      modifies this
      ensures Valid({}) && old(log) <= log
      ensures sccStack == [] && inComponent == dfsNum.Keys
      ensures forall i | i in order :: base[i] in Done(log)
    {
      hide Inv, Lawful, Grew, SccOrder;
      StackIsEmpty(g, Now());
      for j := 0 to |order|
        invariant Valid({}) && old(log) <= log
        invariant sccStack == [] && inComponent == dfsNum.Keys
        invariant forall i | 0 <= i < j :: base[order[i]] in Done(log)
      {
        RunOnNode(order[j]);
      }
    }

    /** Search from one node. */
    method RunOnNode(node: nat)
      requires Valid({}) && node in base
      modifies this
      ensures Valid({}) && old(log) <= log
      ensures sccStack == [] && inComponent == dfsNum.Keys
      ensures base[node] in Done(log) && old(Done(log)) <= Done(log)
    {
      hide Inv, Lawful, Grew, SccOrder;
      ghost var before := Now();
      StackIsEmpty(g, before);
      var repNode := GetRep(node);
      if repNode !in dfsNum {
        Visit(repNode, {});
        GrewKeys(before, Now(), repNode);
      }
      StackIsEmpty(g, Now());
    }
  }
}
