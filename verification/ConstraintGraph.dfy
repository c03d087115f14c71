/** The online constraint graph, node collapsing, and what the solver's state means. */
module ConstraintGraphs {
  import opened Constraints
  import opened NodeFactory

  datatype Edges = Edges(copies: set<nat>, loads: set<nat>, stores: set<nat>)

  type ConstraintGraph = map<nat, Edges>

  function EdgesOf(g: ConstraintGraph, n: nat): Edges {
    if n in g then g[n] else Edges({}, {}, {})
  }

  function InsertCopyEdge(g: ConstraintGraph, src: nat, dst: nat): ConstraintGraph {
    g[src := EdgesOf(g, src).(copies := EdgesOf(g, src).copies + {dst})]
  }

  function InsertLoadEdge(g: ConstraintGraph, src: nat, dst: nat): ConstraintGraph {
    g[src := EdgesOf(g, src).(loads := EdgesOf(g, src).loads + {dst})]
  }

  function InsertStoreEdge(g: ConstraintGraph, src: nat, dst: nat): ConstraintGraph {
    g[src := EdgesOf(g, src).(stores := EdgesOf(g, src).stores + {dst})]
  }

  function GetOrInsertNode(g: ConstraintGraph, n: nat): ConstraintGraph {
    if n in g then g else g[n := Edges({}, {}, {})]
  }

  function Union(a: Edges, b: Edges): Edges {
    Edges(a.copies + b.copies, a.loads + b.loads, a.stores + b.stores)
  }

  function MergeNodes(g: ConstraintGraph, dst: nat, src: nat): ConstraintGraph {
    if src !in g then g else g[dst := Union(EdgesOf(g, dst), g[src])]
  }

  /** What the solver works on; root[n] is what getMergeTarget(n) returns. */
  datatype View = View(root: seq<nat>, pts: PtsGraph, graph: ConstraintGraph)

  /** Merge node src into dst, with its points-to set and its edges. */
  function CollapseNodes(v: View, dst: nat, src: nat): View
    requires dst < |v.root|
  {
    if dst == src then v else
    var pts := if src in v.pts then v.pts[dst := At(v.pts, dst) + v.pts[src]] else v.pts;
    View(Joined(v.root, dst, src), pts - {src}, MergeNodes(v.graph, dst, src) - {src})
  }

  datatype Field = Pts | Copies | Loads | Stores

  /** One of the four sets a node carries. */
  function Data(v: View, f: Field, n: nat): set<nat> {
    match f
    case Pts => At(v.pts, n)
    case Copies => EdgesOf(v.graph, n).copies
    case Loads => EdgesOf(v.graph, n).loads
    case Stores => EdgesOf(v.graph, n).stores
  }

  /** The representatives of the nodes in s. */
  function Reps(root: seq<nat>, s: set<nat>): set<nat> {
    set e | e in s :: Find(root, e)
  }

  /** The representatives a node has edges of one kind to. */
  function Targets(v: View, f: Field, n: nat): set<nat> {
    Reps(v.root, Data(v, f, n))
  }

  function Live(v: View): set<nat> {
    set n | 0 <= n < |v.root| && v.root[n] == n
  }

  /** Only representatives carry data, and all data are nodes. */
  ghost predicate WellFormed(v: View) {
    && IsRep(v.root)
    && v.pts.Keys <= Live(v) && v.graph.Keys <= Live(v)
    && (forall f, n, x | x in Data(v, f, n) :: x < |v.root|)
  }

  /** The edges and points-to sets still say what the constraint says. */
  ghost predicate Covers(v: View, c: Constraint)
    requires c.dest < |v.root| && c.src < |v.root|
  {
    match c.ty
    case AddrOf => c.src in At(v.pts, v.root[c.dest])
    case Copy => v.root[c.dest] in Targets(v, Copies, v.root[c.src])
    case Load => v.root[c.dest] in Targets(v, Loads, v.root[c.src])
    case Store => v.root[c.src] in Targets(v, Stores, v.root[c.dest])
  }

  ghost predicate CoversAll(v: View, cs: seq<Constraint>)
    requires InRange(cs, |v.root|)
  {
    forall c | c in cs :: Covers(v, c)
  }

  /** Nothing in the state goes beyond the points-to graph l. */
  ghost predicate Sound(v: View, l: PtsGraph) {
    && Respects(l, v.root)
    && (forall n: nat, o | o in At(l, n) :: o < |v.root|)
    && (forall n: nat | n < |v.root| :: SoundAt(v, l, n))
  }

  ghost predicate SoundAt(v: View, l: PtsGraph, n: nat) {
    && At(v.pts, n) <= At(l, n)
    && (forall e | e in Data(v, Copies, n) :: At(l, n) <= At(l, e))
    && (forall e, o | e in Data(v, Loads, n) && o in At(l, n) :: At(l, o) <= At(l, e))
    && (forall e, o | e in Data(v, Stores, n) && o in At(l, n) :: At(l, e) <= At(l, o))
  }

  /** The points-to set of n was propagated along its copy edges, and its load and store edges
      were turned into copy edges for every node it points to. */
  ghost predicate ClosedAt(v: View, n: nat) {
    && (forall r | r in Targets(v, Copies, n) :: At(v.pts, n) <= At(v.pts, r))
    && (forall o, r | o in At(v.pts, n) && r in Targets(v, Loads, n) :: r in Targets(v, Copies, Find(v.root, o)))
    && (forall o, r | o in At(v.pts, n) && r in Targets(v, Stores, n) :: Find(v.root, o) in Targets(v, Copies, r))
  }

  /** Every representative outside `open` is closed. */
  ghost predicate ClosedOutside(v: View, open: set<nat>) {
    forall n | n in Live(v) && n !in open :: ClosedAt(v, n)
  }

  /** The points-to graph the state stands for: read through the representatives. */
  function Meaning(v: View): PtsGraph {
    map n: nat | n < |v.root| :: At(v.pts, Find(v.root, n))
  }

  /** Nodes merged before are merged still. */
  ghost predicate Coarser(before: seq<nat>, after: seq<nat>) {
    && |before| == |after|
    && (forall n | 0 <= n < |before| :: before[n] < |before| && after[before[n]] == after[n])
  }

  lemma SoundIsBelow(v: View, l: PtsGraph)
    requires IsRep(v.root) && Sound(v, l)
    ensures Below(Meaning(v), l)
  {
    forall n: nat ensures At(Meaning(v), n) <= At(l, n) {
      if n < |v.root| {
        assert SoundAt(v, l, v.root[n]);
      }
    }
  }

  lemma MeaningRespects(v: View, rep: seq<nat>)
    requires IsRep(v.root) && Coarser(rep, v.root)
    ensures Respects(Meaning(v), rep)
  {
  }

  /** With nothing left open, the state is the least solution. */
  lemma ClosedIsLeast(v: View, cs: seq<Constraint>, rep: seq<nat>)
    requires WellFormed(v) && InRange(cs, |v.root|) && IsRep(rep) && Coarser(rep, v.root)
    requires CoversAll(v, cs) && Sound(v, Least(cs, rep)) && ClosedOutside(v, {})
    ensures forall n: nat :: At(Meaning(v), n) == At(Least(cs, rep), n)
  {
    ClosedSolves(v, cs);
    MeaningRespects(v, rep);
    SoundIsBelow(v, Least(cs, rep));
    hide WellFormed, CoversAll, Sound, ClosedOutside, IsSolution, Respects, Least, Meaning;
    LeastIsLeast(cs, rep, Meaning(v));
  }

  lemma LoadsHold(v: View, c: Constraint)
    requires WellFormed(v) && c.dest < |v.root| && c.src < |v.root| && Covers(v, c) && ClosedOutside(v, {}) && c.ty.Load?
    ensures Holds(Meaning(v), c)
  {
    var s, d := v.root[c.src], v.root[c.dest];
    assert s in Live(v) && ClosedAt(v, s);
    forall o | o in At(v.pts, s) ensures At(v.pts, Find(v.root, o)) <= At(v.pts, d) {
      assert o in Data(v, Pts, s);
      assert d in Targets(v, Copies, v.root[o]);
      assert ClosedAt(v, v.root[o]);
    }
  }

  lemma StoresHold(v: View, c: Constraint)
    requires WellFormed(v) && c.dest < |v.root| && c.src < |v.root| && Covers(v, c) && ClosedOutside(v, {}) && c.ty.Store?
    ensures Holds(Meaning(v), c)
  {
    var s, d := v.root[c.src], v.root[c.dest];
    assert s in Live(v) && d in Live(v) && ClosedAt(v, s) && ClosedAt(v, d);
    forall o | o in At(v.pts, d) ensures At(v.pts, s) <= At(v.pts, Find(v.root, o)) {
      assert o in Data(v, Pts, d);
    }
  }

  lemma ClosedSolves(v: View, cs: seq<Constraint>)
    requires WellFormed(v) && InRange(cs, |v.root|)
    requires CoversAll(v, cs) && ClosedOutside(v, {})
    ensures IsSolution(Meaning(v), cs)
  {
    forall c | c in cs ensures Holds(Meaning(v), c) {
      var s, d := v.root[c.src], v.root[c.dest];
      assert Covers(v, c);
      match c.ty
      case AddrOf =>
      case Copy => assert s in Live(v) && ClosedAt(v, s);
      case Load => LoadsHold(v, c);
      case Store => StoresHold(v, c);
    }
  }
}
