/** The field-sensitive solver: difference propagation over a priority worklist. */
module FieldSolver {
  import opened Constraints
  import opened NodeFactory
  import opened FieldConstraints
  import opened FieldStates
  import opened FieldTasks
  import opened FieldSteps
  import opened FieldMerge
  import opened FieldInit
  import opened FieldVisits
  import opened FieldCollapses
  import opened FieldCycles
  import opened FieldResults
  import CycleDetectors
  import opened Graphs

  const LCD_SZ: nat := 20
  const LCD_PERIOD: nat := 50000

  class Anders {
    const ly: Layout

    var root: seq<nat>
    var rank: seq<nat>
    var pointsTo: Sets
    var prevPointsTo: Sets
    var copyTo: Sets
    var loadTo: Sets
    var storeFrom: Sets
    var gepTo: Sets
    var cplxCons: seq<FieldConstraint>
    var hcdVar: map<nat, nat>
    var vtimeOf: seq<nat>
    var vtime: nat
    var curr: map<nat, nat>          // the worklist of this pass, from nodes to keys
    var next: map<nat, nat>          // and of the next one
    var lcdStarts: set<nat>
    var lcdEdges: set<(nat, nat)>
    var nNodeRuns: nat
    var lastLcd: nat

    function V(): FState
      reads this`root, this`pointsTo, this`prevPointsTo, this`copyTo, this`loadTo, this`storeFrom, this`gepTo, this`cplxCons, this`hcdVar
    {
      FState(root, pointsTo, prevPointsTo, copyTo, loadTo, storeFrom, gepTo, cplxCons, hcdVar)
    }

    ghost function Open(): set<nat>
      reads this`vtimeOf, this`curr, this`next
    {
      OpenIn(curr, next, vtimeOf)
    }

    ghost predicate QueueOk()
      reads this`vtimeOf, this`rank, this`curr, this`next
    {
      |vtimeOf| == |rank| == |ly.sz| && forall m | m in curr || m in next :: m < |ly.sz|
    }

    constructor (ly: Layout, root: seq<nat>, hcdVar: map<nat, nat>)
      requires |root| == |ly.sz|
      ensures this.ly == ly && V() == Blank(root, hcdVar) && QueueOk()
    {
      var size := |root|;
      this.ly, this.root, this.hcdVar := ly, root, hcdVar;
      this.rank := seq(size, i => 0);
      this.pointsTo, this.prevPointsTo, this.copyTo := seq(size, i => {}), seq(size, i => {}), seq(size, i => {});
      this.loadTo, this.storeFrom, this.gepTo := seq(size, i => {}), seq(size, i => {}), seq(size, i => {});
      this.cplxCons, this.vtimeOf, this.vtime := [], seq(size, i => 0), 1;
      this.curr, this.next := map[], map[];
      this.lcdStarts, this.lcdEdges, this.nNodeRuns, this.lastLcd := {}, {}, 0, 0;
    }

    /** Put n on the worklist, with its visit time for a key. */
    method Push(n: nat)
      requires QueueOk() && n < |ly.sz|
      modifies this`next
      ensures QueueOk()
      ensures Open() == old(Open()) + {n}
    {
      Pushed(curr, next, vtimeOf, n);
      next := next[n := vtimeOf[n]];
    }

    /** Add the copy edge and copy the entire points-to set; returns whether that of dest changed. */
    method AddCopyEdge(src: nat, dest: nat) returns (changed: bool)
      requires |copyTo| == |pointsTo| == |root| && src < |root| && dest < |root|
      modifies this`pointsTo, this`copyTo
      ensures V() == AddEdge(ly, old(V()), src, dest)
      ensures changed <==> V().pts[dest] != old(V()).pts[dest]
    {
      if src == ly.i2p || dest == ly.i2p || src == dest {
        return false;
      }
      if dest !in copyTo[src] {
        copyTo := copyTo[src := copyTo[src] + {dest}];
        var prevPts := pointsTo[dest];
        pointsTo := pointsTo[dest := pointsTo[dest] + pointsTo[src]];
        if pointsTo[dest] != prevPts {
          return true;
        }
      }
      return false;
    }

    /** Add the copy edge of a load or store for one pointee; returns whether the target b changed. */
    method EdgeOne(n: nat, k: Kind, id: nat, o: nat, ghost t: Task, ghost s: set<nat>, ghost open: set<nat>)
      returns (changed: bool, b: nat)
      requires Solving(ly, V(), open, n, s, t) && Waiting(ly, V(), n, k, id, {o}) && Fits(ly, o, cplxCons[id].off)
      modifies this`pointsTo, this`copyTo
      ensures Solving(ly, V(), if changed then open + {b} else open, n, s, t) && b == EdgeTo(old(V()), k, cplxCons[id], o) < |ly.sz|
      ensures Grows(old(V()), V()) && AppliedTo(ly, V(), cplxCons[id], o) && Waiting(ly, V(), n, k, id, {o})
    {
      hide Solving, Fits, IsObject, AppliedTo, Grows, WellFormed, Steps, AddEdge;
      ghost var v := V();
      SolvingSizes(ly, v, open, n, s, t);
      var c := cplxCons[id];
      var a := if k == KLoad then Find(root, o + c.off) else Find(root, c.src);
      b := if k == KLoad then Find(root, c.dest) else Find(root, o + c.off);
      assert a == EdgeFrom(v, k, c, o) && b == EdgeTo(v, k, c, o);
      EdgeStep(ly, v, open, n, s, t, k, id, o);
      StepsIs(ly, v, AddEdge(ly, v, a, b), b, open, n, s, t);
      WaitingStays(ly, v, AddEdge(ly, v, a, b), n, k, id, {o});
      hide *;
      changed := AddCopyEdge(a, b);
    }

    /** Add the copy edges of a load for the new pointees d; returns whether what it sets changed. */
    method LoadEdges(n: nat, id: nat, d: set<nat>, dest: nat, ghost t: Task, ghost s: set<nat>, ghost open: set<nat>)
      returns (chg: bool)
      requires Solving(ly, V(), open, n, s, t) && Waiting(ly, V(), n, KLoad, id, d) && dest == Find(root, cplxCons[id].dest)
      modifies this`pointsTo, this`copyTo
      ensures Solving(ly, V(), if chg then open + {dest} else open, n, s, t)
      ensures Grows(old(V()), V()) && Applied(ly, V(), cplxCons[id], d)
    {
      hide Solving, AppliedTo, Fits, IsObject, Find;
      ghost var v0 := V();
      var c := cplxCons[id];
      var todo := set o | o in d && Fits(ly, o, c.off);
      chg := false;
      assert EdgePart(ly, v0, V(), n, KLoad, id, d, todo) && V().cplx[id] == c;
      hide *;
      while todo != {}
        invariant Solving(ly, V(), if chg then open + {dest} else open, n, s, t)
        invariant EdgePart(ly, v0, V(), n, KLoad, id, d, todo)
        decreases todo
      {
        var o :| o in todo;
        ghost var v := V();
        EdgeNext(ly, v0, v, n, KLoad, id, d, todo, o);
        assert open + {dest} + {dest} == open + {dest};
        var changed, b := EdgeOne(n, KLoad, id, o, t, s, if chg then open + {dest} else open);
        chg := chg || changed;
        EdgeDone(ly, v0, v, V(), n, KLoad, id, d, todo, o);
        todo := todo - {o};
      }
      EdgesDone(ly, v0, V(), n, KLoad, id, d);
    }

    /** Apply a load constraint to the new pointees d. */
    method SolveLoad(n: nat, id: nat, d: set<nat>, ghost t: Task, ghost s: set<nat>)
      requires QueueOk() && Solving(ly, V(), Open(), n, s, t) && Waiting(ly, V(), n, KLoad, id, d)
      modifies this`pointsTo, this`copyTo, this`next
      ensures QueueOk() && Solving(ly, V(), Open(), n, s, t)
      ensures Grows(old(V()), V()) && Applied(ly, V(), cplxCons[id], d)
    {
      ghost var open := Open();
      var dest := Find(root, cplxCons[id].dest);
      SolvingSizes(ly, V(), open, n, s, t);
      DestInRange(ly, V(), KLoad, n, id);
      hide *;
      var chg := LoadEdges(n, id, d, dest, t, s, open);
      if chg {
        Push(dest);
        assert Open() == open + {dest};
      }
    }

    /** Add the copy edge of a store for one pointee, and queue the pointee if it changed. */
    method StoreOne(n: nat, id: nat, o: nat, ghost t: Task, ghost s: set<nat>)
      requires QueueOk() && Solving(ly, V(), Open(), n, s, t)
      requires Waiting(ly, V(), n, KStore, id, {o}) && Fits(ly, o, cplxCons[id].off)
      modifies this`pointsTo, this`copyTo, this`next
      ensures QueueOk() && Solving(ly, V(), Open(), n, s, t)
      ensures Grows(old(V()), V()) && AppliedTo(ly, V(), cplxCons[id], o)
    {
      ghost var open := Open();
      hide *;
      var changed, rn := EdgeOne(n, KStore, id, o, t, s, open);
      if changed {
        Push(rn);
        assert Open() == open + {rn};
      }
    }

    /** Apply a store constraint to the new pointees d. */
    method SolveStore(n: nat, id: nat, d: set<nat>, ghost t: Task, ghost s: set<nat>)
      requires QueueOk() && Solving(ly, V(), Open(), n, s, t) && Waiting(ly, V(), n, KStore, id, d)
      modifies this`pointsTo, this`copyTo, this`next
      ensures QueueOk() && Solving(ly, V(), Open(), n, s, t)
      ensures Grows(old(V()), V()) && Applied(ly, V(), cplxCons[id], d)
    {
      hide Solving, AppliedTo, Fits, IsObject, Find, QueueOk, OpenIn;
      ghost var v0 := V();
      var c := cplxCons[id];
      var todo := set o | o in d && Fits(ly, o, c.off);
      assert EdgePart(ly, v0, V(), n, KStore, id, d, todo);
      hide *;
      while todo != {}
        invariant QueueOk() && Solving(ly, V(), Open(), n, s, t)
        invariant EdgePart(ly, v0, V(), n, KStore, id, d, todo)
        decreases todo
      {
        var o :| o in todo;
        ghost var v := V();
        EdgeNext(ly, v0, v, n, KStore, id, d, todo, o);
        StoreOne(n, id, o, t, s);
        EdgeDone(ly, v0, v, V(), n, KStore, id, d, todo, o);
        todo := todo - {o};
      }
      EdgesDone(ly, v0, V(), n, KStore, id, d);
    }

    /** Apply a GEP constraint to the new pointees d. */
    method SolveGepCons(n: nat, id: nat, d: set<nat>, ghost t: Task, ghost s: set<nat>)
      requires QueueOk() && Solving(ly, V(), Open(), n, s, t)
      requires n < |gepTo| && id in gepTo[n] && id < |cplxCons| && n < |pointsTo| && d <= pointsTo[n]
      modifies this`pointsTo, this`next
      ensures QueueOk() && Solving(ly, V(), Open(), n, s, t)
      ensures Grows(old(V()), V()) && Applied(ly, V(), cplxCons[id], d)
    {
      ghost var v, open := V(), Open();
      SolvingSizes(ly, v, open, n, s, t);
      GepStep(ly, v, open, n, s, t, id, d);
      var c := cplxCons[id];
      var dest := Find(root, c.dest);
      StepsIs(ly, v, AddPts(v, dest, Fields(ly, d, c.off)), dest, open, n, s, t);
      var prevPts := pointsTo[dest];
      var fields := set o | o in d && Fits(ly, o, c.off) :: o + c.off;
      assert fields == Fields(ly, d, c.off);
      pointsTo := pointsTo[dest := pointsTo[dest] + fields];
      assert V() == AddPts(v, dest, fields);
      hide *;
      if pointsTo[dest] != prevPts {
        Push(dest);
        assert Open() == open + {dest};
      }
    }

    /** Apply one constraint, of any kind, to the new pointees d. */
    method SolveOne(n: nat, k: Kind, id: nat, d: set<nat>, ghost t: Task, ghost s: set<nat>)
      requires QueueOk() && Solving(ly, V(), Open(), n, s, t) && InList(V(), n, k, id, d)
      modifies this`pointsTo, this`copyTo, this`next
      ensures QueueOk() && Solving(ly, V(), Open(), n, s, t)
      ensures Grows(old(V()), V()) && Applied(ly, V(), old(V()).cplx[id], d)
    {
      assert k != KGep ==> Waiting(ly, V(), n, k, id, d);
      hide Solving, Waiting, Grows, Applied, OpenIn, QueueOk;
      match k {
        case KLoad => SolveLoad(n, id, d, t, s);
        case KStore => SolveStore(n, id, d, t, s);
        case KGep => SolveGepCons(n, id, d, t, s);
      }
    }

    /** Make constraint id refer to representatives. */
    method UpdateCons(id: nat) returns (c: FieldConstraint)
      requires id < |cplxCons|
      modifies this`cplxCons
      ensures V() == Update(old(V()), id) && id < |V().cplx| && c == V().cplx[id]
    {
      c := cplxCons[id].(dest := Find(root, cplxCons[id].dest), src := Find(root, cplxCons[id].src));
      cplxCons := cplxCons[id := c];
    }

    /** Take constraint id off a list of n. */
    method DropCons(k: Kind, n: nat, id: nat)
      requires n < |List(V(), k)|
      modifies this`loadTo, this`storeFrom, this`gepTo
      ensures V() == Drop(old(V()), k, n, id)
    {
      match k {
        case KLoad => loadTo := loadTo[n := loadTo[n] - {id}];
        case KStore => storeFrom := storeFrom[n := storeFrom[n] - {id}];
        case KGep => gepTo := gepTo[n := gepTo[n] - {id}];
      }
    }

    /** Drop a constraint that was seen before, or whose edge does for all pointees. */
    method DropSpare(n: nat, k: Kind, id: nat, ghost d: set<nat>, ghost consSeen: set<FieldConstraint>,
                     ghost t: Task, ghost s: set<nat>, ghost done: set<Kind>, ghost todo: set<nat>)
      requires Solving(ly, V(), Open(), n, s, t) && id in todo && SpareIn(ly, V(), k, n, id)
      requires Partly(ly, V(), n, k, d, done, todo, consSeen)
      modifies this`loadTo, this`storeFrom, this`gepTo
      ensures Solving(ly, V(), Open(), n, s, t)
      ensures Partly(ly, V(), n, k, d, done, todo - {id}, consSeen) && Evolves(old(V()), V()) && V().cplx == old(V()).cplx
      ensures id < |V().cplx| && (ByHcd(ly, old(V()), V().cplx[id]) ==> ByHcd(ly, V(), V().cplx[id]))
    {
      DropStep(ly, V(), Open(), n, s, t, k, id, d, done, todo, consSeen);
      DropEvolves(V(), k, n, id);
      hide *;
      DropKeepsByHcd(ly, V(), k, n, id);
      DropCons(k, n, id);
    }

    /** Apply a constraint that was not seen yet. */
    method SolveFresh(n: nat, k: Kind, id: nat, d: set<nat>, ghost consSeen: set<FieldConstraint>,
                      ghost t: Task, ghost s: set<nat>, ghost done: set<Kind>, ghost todo: set<nat>)
      requires QueueOk() && Solving(ly, V(), Open(), n, s, t) && id in todo && id < |V().cplx|
      requires Partly(ly, V(), n, k, d, done, todo, consSeen) && (n in V().hcd ==> !Plain(V().cplx[id]))
      modifies this`pointsTo, this`copyTo, this`next
      ensures QueueOk() && Solving(ly, V(), Open(), n, s, t)
      ensures Partly(ly, V(), n, k, d, done, todo - {id}, consSeen + {old(V()).cplx[id]}) && Evolves(old(V()), V())
    {
      ghost var v := V();
      PartlyListed(ly, v, n, k, id, v.cplx[id], d, done, todo, consSeen);
      hide *;
      SolveOne(n, k, id, d, t, s);
      PartlyGrows(ly, v, V(), n, k, d, done, todo, consSeen);
      GrowsEvolves(v, V());
      AppliedIsHandled(ly, v, V(), n, id, d);
      PartlySolved(ly, V(), n, k, id, v.cplx[id], d, done, todo, consSeen);
    }

    /** Add the one edge of a load or store whose pointees were merged into hcdRep. */
    method EdgeByHcd(n: nat, k: Kind, id: nat, hcdRep: nat, ghost t: Task, ghost s: set<nat>)
      requires QueueOk() && Solving(ly, V(), Open(), n, s, t) && Target(V(), n, hcdRep) && OneEdge(V(), n, k, id, hcdRep)
      modifies this`pointsTo, this`copyTo, this`next
      ensures QueueOk() && Solving(ly, V(), Open(), n, s, t) && Grows(old(V()), V())
      ensures id < |V().cplx| && ByHcd(ly, V(), V().cplx[id])
    {
      hide Solving, Steps, ByHcd, Target, AddEdge, OpenIn, QueueOk, Grows;
      ghost var v, open := V(), Open();
      HcdStep(ly, v, open, n, s, t, k, id, hcdRep);
      var a := if k == KLoad then hcdRep else Find(root, cplxCons[id].src);
      var b := if k == KLoad then Find(root, cplxCons[id].dest) else hcdRep;
      assert a == HcdFrom(v, k, v.cplx[id], hcdRep) && b == HcdTo(v, k, v.cplx[id], hcdRep);
      StepsIs(ly, v, AddEdge(ly, v, a, b), b, open, n, s, t);
      assert a < |root| && b < |root| && |copyTo| == |pointsTo| == |root| && |ly.sz| == |root|;
      hide *;
      var changed := AddCopyEdge(a, b);
      if changed {
        Push(b);
        assert Open() == open + {b};
      }
    }

    /** Such a constraint is redundant from then on. */
    method SolveByHcd(n: nat, k: Kind, id: nat, hcdRep: nat, ghost d: set<nat>, ghost consSeen: set<FieldConstraint>,
                      ghost t: Task, ghost s: set<nat>, ghost done: set<Kind>, ghost todo: set<nat>)
      requires QueueOk() && Solving(ly, V(), Open(), n, s, t) && id in todo && Target(V(), n, hcdRep) && OneEdge(V(), n, k, id, hcdRep)
      requires Partly(ly, V(), n, k, d, done, todo, consSeen)
      modifies this`pointsTo, this`copyTo, this`loadTo, this`storeFrom, this`gepTo, this`next
      ensures QueueOk() && Solving(ly, V(), Open(), n, s, t)
      ensures id < |old(V()).cplx| && Partly(ly, V(), n, k, d, done, todo - {id}, consSeen + {old(V()).cplx[id]}) && Evolves(old(V()), V())
    {
      ghost var v := V();
      assert id < |v.cplx|;
      hide *;
      EdgeByHcd(n, k, id, hcdRep, t, s);
      ghost var v1 := V();
      PartlyGrows(ly, v, v1, n, k, d, done, todo, consSeen);
      GrowsEvolves(v, v1);
      EdgeIsSpare(ly, v1, n, k, id, d, done, todo, consSeen);
      DropSpare(n, k, id, d, consSeen, t, s, done, todo);
      EvolvesTrans(v, v1, V());
      PartlyByHcd(ly, V(), n, k, v.cplx[id], d, done, todo - {id}, consSeen);
    }

    /** Drop an updated constraint if it was seen, or apply it: to the one node that all of d were merged
        into, if it has no offset, or to d. */
    method SolveUpdated(n: nat, k: Kind, id: nat, hcdRep: nat, c: FieldConstraint, d: set<nat>, consSeen: set<FieldConstraint>,
                        ghost t: Task, ghost s: set<nat>, ghost done: set<Kind>, ghost todo: set<nat>)
      returns (consSeen': set<FieldConstraint>)
      requires QueueOk() && Solving(ly, V(), Open(), n, s, t) && id in todo && Target(V(), n, hcdRep)
      requires Partly(ly, V(), n, k, d, done, todo, consSeen) && id < |V().cplx| && c == V().cplx[id]
      modifies this`pointsTo, this`copyTo, this`loadTo, this`storeFrom, this`gepTo, this`next
      ensures QueueOk() && Solving(ly, V(), Open(), n, s, t)
      ensures Partly(ly, V(), n, k, d, done, todo - {id}, consSeen') && Evolves(old(V()), V())
    {
      PartlyListed(ly, V(), n, k, id, c, d, done, todo, consSeen);
      SolvingSizes(ly, V(), Open(), n, s, t);
      hide Solving, Partly, OpenIn, Evolves, QueueOk, List, ByHcd, Target, Plain, WellFormed, SoundFor;
      if c in consSeen {
        SeenIsSpare(ly, V(), n, k, id, d, done, todo, consSeen);
        DropSpare(n, k, id, d, consSeen, t, s, done, todo);
        return consSeen;
      }
      consSeen' := consSeen + {c};
      if hcdRep != 0 && k != KGep && c.off == 0 {
        SolveByHcd(n, k, id, hcdRep, d, consSeen, t, s, done, todo);
      } else {
        NotByEdge(ly, V(), k, n, id, hcdRep);
        SolveFresh(n, k, id, d, consSeen, t, s, done, todo);
      }
    }

    /** Constraint id is updated to refer to representatives, and applied to d unless it was seen. */
    method SolveListed(n: nat, k: Kind, id: nat, hcdRep: nat, d: set<nat>, consSeen: set<FieldConstraint>,
                       ghost t: Task, ghost s: set<nat>, ghost done: set<Kind>, ghost todo: set<nat>)
      returns (consSeen': set<FieldConstraint>)
      requires QueueOk() && Solving(ly, V(), Open(), n, s, t) && id in todo && Target(V(), n, hcdRep)
      requires Partly(ly, V(), n, k, d, done, todo, consSeen)
      modifies this`pointsTo, this`copyTo, this`loadTo, this`storeFrom, this`gepTo, this`cplxCons, this`next
      ensures QueueOk() && Solving(ly, V(), Open(), n, s, t)
      ensures Partly(ly, V(), n, k, d, done, todo - {id}, consSeen') && Evolves(old(V()), V())
    {
      hide Solving, Partly, Evolves, Target, OpenIn, QueueOk, Update;
      ghost var v0, open := V(), Open();
      UpdateStep(ly, v0, open, n, s, t, k, id, d, done, todo, consSeen);
      UpdateEvolves(v0, id);
      TargetStays(v0, Update(v0, id), n, hcdRep);
      assert id < |cplxCons|;
      hide *;
      var c := UpdateCons(id);
      ghost var v1 := V();
      consSeen' := SolveUpdated(n, k, id, hcdRep, c, d, consSeen, t, s, done, todo);
      EvolvesTrans(v0, v1, V());
    }

    /** Apply the constraints in one list of n to the new pointees d. */
    method SolveList(n: nat, k: Kind, hcdRep: nat, d: set<nat>, ghost t: Task, ghost s: set<nat>, ghost done: set<Kind>)
      requires QueueOk() && Solving(ly, V(), Open(), n, s, t) && Begun(ly, V(), n, k, d, done) && Target(V(), n, hcdRep)
      modifies this`pointsTo, this`copyTo, this`loadTo, this`storeFrom, this`gepTo, this`cplxCons, this`next
      ensures QueueOk() && Solving(ly, V(), Open(), n, s, t)
      ensures (forall j | j in done + {k} :: DoneFor(ly, V(), j, n, d)) && Evolves(old(V()), V()) && n < |pointsTo| && d <= pointsTo[n]
      ensures Target(V(), n, hcdRep)
    {
      ghost var v0 := V();
      var todo := List(V(), k)[n];
      var consSeen: set<FieldConstraint> := {};
      assert Evolves(v0, v0);
      assert Partly(ly, V(), n, k, d, done, todo, consSeen);
      hide *;
      while todo != {}
        invariant QueueOk() && Solving(ly, V(), Open(), n, s, t)
        invariant Partly(ly, V(), n, k, d, done, todo, consSeen) && Evolves(v0, V()) && Target(V(), n, hcdRep)
        decreases todo
      {
        var id :| id in todo;
        ghost var v := V();
        consSeen := SolveListed(n, k, id, hcdRep, d, consSeen, t, s, done, todo);
        EvolvesTrans(v0, v, V());
        TargetStays(v, V(), n, hcdRep);
        todo := todo - {id};
      }
      PartlyAll(ly, V(), n, k, d, done, consSeen);
    }

    /** Copy d to one representative, and note a possible cycle. */
    method PropOne(n: nat, e: nat, d: set<nat>, ghost t: Task, ghost s: set<nat>)
      requires QueueOk() && Solving(ly, V(), Open(), n, s, t) && OnEdge(V(), n, e, d)
      modifies this`pointsTo, this`next, this`lcdStarts, this`lcdEdges
      ensures QueueOk() && Solving(ly, V(), Open(), n, s, t)
      ensures Grows(old(V()), V()) && V().copies == old(V()).copies && CopiedTo(V(), e, d)
      ensures var dest := Rep(old(V()), e); var found := MayBeCycle(old(V()), n, dest, old(lcdEdges));
        && lcdEdges == (if found then old(lcdEdges) + {(n, dest)} else old(lcdEdges))
        && lcdStarts == (if found then old(lcdStarts) + {n} else old(lcdStarts))
    {
      hide Solving, Steps, OpenIn, QueueOk, Grows, WellFormed;
      ghost var v, open := V(), Open();
      SolvingSizes(ly, v, open, n, s, t);
      PropStep(ly, v, open, n, s, t, e, d);
      var dest := Find(root, e);
      StepsIs(ly, v, AddPts(v, dest, d), dest, open, n, s, t);
      assert CopiedTo(AddPts(v, dest, d), e, d) && AddPts(v, dest, d).copies == v.copies;
      if (n, dest) !in lcdEdges && pointsTo[n] != {} {
        if pointsTo[n] == pointsTo[dest] {
          lcdEdges := lcdEdges + {(n, dest)};
          lcdStarts := lcdStarts + {n};
        }
      }
      var prevPts := pointsTo[dest];
      pointsTo := pointsTo[dest := pointsTo[dest] + d];
      assert V() == AddPts(v, dest, d);
      hide *;
      if pointsTo[dest] != prevPts {
        Push(dest);
        assert Open() == open + {dest};
      }
    }

    /** Propagate d along all copy edges of n. */
    method SolveProp(n: nat, d: set<nat>, ghost t: Task, ghost s: set<nat>)
      requires QueueOk() && Solving(ly, V(), Open(), n, s, t) && n < |copyTo| && n < |pointsTo| && d <= pointsTo[n]
      modifies this`pointsTo, this`next, this`lcdStarts, this`lcdEdges
      ensures QueueOk() && Solving(ly, V(), Open(), n, s, t)
      ensures Grows(old(V()), V()) && n < |V().copies| && Copied(V(), n, d)
    {
      ghost var v0 := V();
      var todo := copyTo[n];
      var copySeen: set<nat> := {};
      assert PropLoop(v0, V(), n, todo, copySeen, d);
      hide Solving, QueueOk, OpenIn, PropLoop, Copied, Grows;
      while todo != {}
        invariant QueueOk() && Solving(ly, V(), Open(), n, s, t) && PropLoop(v0, V(), n, todo, copySeen, d)
        decreases todo
      {
        var e :| e in todo;
        ghost var v := V();
        var dest := Find(root, e);
        PropEdge(ly, v0, v, n, e, dest, todo, copySeen, d);
        ghost var todo0 := todo;
        todo := todo - {e};
        if dest == n || dest in copySeen {
          continue;
        }
        hide *;
        PropOne(n, e, d, t, s);
        PropNext(v0, v, V(), n, e, todo0, copySeen, d);
        copySeen := copySeen + {dest};
      }
      PropAll(v0, V(), n, copySeen, d);
    }

    /** Collapse what n points to if it is known to be on a cycle, handle the constraints on n, then
        propagate what is new along its copy edges. */
    method SolveNode(n: nat, ghost t: Task)
      requires QueueOk() && Between(ly, V(), Open() + {n}, t) && n in Live(V())
      modifies this`root, this`rank, this`pointsTo, this`prevPointsTo, this`copyTo, this`loadTo, this`storeFrom, this`gepTo, this`cplxCons,
               this`hcdVar, this`next, this`lcdStarts, this`lcdEdges, this`vtimeOf, this`vtime, this`nNodeRuns
      ensures QueueOk() && Between(ly, V(), Open(), t)
      ensures (V() == old(V()) && next == old(next)) || Advances(old(V()), V())
    {
      hide Between, OpenIn, Outcome, Visiting, Advances, WellFormed;
      ghost var v0 := V();
      BetweenSizes(ly, v0, Open() + {n}, t);
      nNodeRuns := nNodeRuns + 1;
      Visited(curr, next, vtimeOf, n, vtime);
      ghost var open0 := Open() + {n};
      vtimeOf := vtimeOf[n := vtime];
      vtime := vtime + 1;
      BetweenOpen(ly, v0, open0, Open() + {n}, t);
      var d := pointsTo[n] - prevPointsTo[n];
      if d == {} {
        IdleNode(ly, v0, Open(), n, t);
        return;
      }
      prevPointsTo := prevPointsTo[n := pointsTo[n]];
      assert Started(v0, V(), n, d);
      hide *;
      ghost var s;
      var hcdRep;
      hcdRep, s := Collapse(n, d, v0, t);
      ghost var v1 := V();
      OutcomeIs(ly, v0, v1, n, hcdRep, d, s, Open(), t);
      if root[n] != n {
        assert copyTo[n] == loadTo[n] == storeFrom[n] == gepTo[n] == {};
        return;
      }
      SolveCons(n, hcdRep, d, v0, v1, t, s);
    }

    /** Merge what n points to with what hcdVar maps n to, and queue the result; 0 stands for no result. */
    method Collapse(n: nat, d: set<nat>, ghost v0: FState, ghost t: Task)
      returns (hcdRep: nat, ghost s: set<nat>)
      requires QueueOk() && Started(v0, V(), n, d) && Between(ly, v0, Open() + {n}, t)
      modifies this`root, this`rank, this`pointsTo, this`prevPointsTo, this`copyTo, this`loadTo, this`storeFrom, this`gepTo,
               this`hcdVar, this`vtimeOf, this`next
      ensures QueueOk()
      ensures Outcome(ly, v0, V(), n, hcdRep, d, s, Open(), t)
    {
      StartedSizes(ly, v0, V(), n, d, Open() + {n}, t);
      hcdRep, s := 0, v0.prev[n];
      assert hcdVar == V().hcd && root == V().root;
      hide *;
      if n in hcdVar {
        ghost var h, kept := hcdVar[n], true;
        hcdRep := Find(root, hcdVar[n]);
        CollapseStarts(ly, v0, V(), n, h, hcdRep, d, Open() + {n}, Open() + {n} + {hcdRep}, t);
        hcdRep, kept := CollapsePointees(n, hcdRep, d, v0, h, t);
        s := if kept then s else {};
        CollapseEnds(ly, v0, V(), n, h, hcdRep, d, kept, Open() + {n} + {hcdRep}, Open() + {hcdRep}, t);
      } else {
        NotMapped(ly, v0, V(), n, d, Open(), Open() + {hcdRep}, t);
      }
      ghost var open := Open();
      Push(hcdRep);
      assert Open() == open + {hcdRep};
    }

    /** Merge the new pointees of n, but for i2p, with what hcdVar maps n to. */
    method CollapsePointees(n: nat, first: nat, d: set<nat>, ghost v0: FState, ghost h: nat, ghost t: Task)
      returns (hcdRep: nat, ghost kept: bool)
      requires QueueOk() && first < |ly.sz|
      requires Collapsing(ly, v0, V(), n, h, first, d, d, true, Open() + {n} + {first}, t)
      modifies this`root, this`rank, this`pointsTo, this`prevPointsTo, this`copyTo, this`loadTo, this`storeFrom, this`gepTo,
               this`hcdVar, this`vtimeOf
      ensures QueueOk() && hcdRep < |ly.sz|
      ensures Collapsing(ly, v0, V(), n, h, hcdRep, d, {}, kept, Open() + {n} + {hcdRep}, t)
    {
      hide *;
      hcdRep, kept := first, true;
      var todo := d;
      while todo != {}
        invariant QueueOk() && todo <= d && hcdRep < |ly.sz|
        invariant Collapsing(ly, v0, V(), n, h, hcdRep, d, todo, kept, Open() + {n} + {hcdRep}, t)
        decreases todo
      {
        var o :| o in todo;
        ghost var left := todo - {o};
        assert todo == left + {o};
        hcdRep, kept := CollapseNext(n, o, hcdRep, v0, h, d, left, kept, t);
        todo := todo - {o};
      }
    }

    /** Merge one pointee, unless it is merged already or i2p. */
    method CollapseNext(n: nat, o: nat, hcdRep: nat, ghost v0: FState, ghost h: nat, ghost d: set<nat>, ghost left: set<nat>, ghost kept: bool,
                        ghost t: Task)
      returns (m: nat, ghost kept': bool)
      requires QueueOk() && hcdRep < |ly.sz| && o in d && o !in left && left <= d
      requires Collapsing(ly, v0, V(), n, h, hcdRep, d, left + {o}, kept, Open() + {n} + {hcdRep}, t)
      modifies this`root, this`rank, this`pointsTo, this`prevPointsTo, this`copyTo, this`loadTo, this`storeFrom, this`gepTo,
               this`hcdVar, this`vtimeOf
      ensures QueueOk() && m < |ly.sz|
      ensures Collapsing(ly, v0, V(), n, h, m, d, left, kept', Open() + {n} + {m}, t)
    {
      hide Collapsing, QueueOk, OpenIn, CanMerge, Merged, Sooner, Unite, At;
      ghost var v, open := V(), Open() + {n} + {hcdRep};
      var x := Find(root, o);
      assert x == Find(v.root, o);
      hide *;
      if x == hcdRep || x == ly.i2p {
        CollapsedAlready(ly, v0, v, n, h, hcdRep, d, left, kept, open, t, o, x);
        return hcdRep, kept;
      }
      CanCollapse(ly, v0, v, n, h, hcdRep, d, left + {o}, kept, open, t, o, x);
      m := MergeNodes(hcdRep, x);
      ghost var b := if m == hcdRep then x else hcdRep;
      kept' := kept && n != hcdRep && n != x;
      CollapsedOne(ly, v0, v, V(), n, h, hcdRep, m, b, d, left, kept, open, Open() + {n} + {m}, t, o, x);
    }

    /** Apply the constraints on n to d, and propagate it. */
    method SolveCons(n: nat, hcdRep: nat, d: set<nat>, ghost v0: FState, ghost v1: FState, ghost t: Task, ghost s: set<nat>)
      requires QueueOk() && V() == v1 && Visiting(ly, v0, v1, n, hcdRep, d, s, Open(), t)
      modifies this`pointsTo, this`copyTo, this`loadTo, this`storeFrom, this`gepTo, this`cplxCons, this`next, this`lcdStarts, this`lcdEdges
      ensures QueueOk() && Between(ly, V(), Open(), t) && V().root == v1.root && Advances(v0, V())
    {
      ghost var open1 := Open();
      VisitBegins(ly, v0, v1, n, hcdRep, d, s, open1, t);
      hide *;
      SolveList(n, KLoad, hcdRep, d, t, s, {});
      ghost var v2 := V();
      BegunNext(ly, v2, n, KStore, d, {} + {KLoad}, Open(), s, t);
      SolveList(n, KStore, hcdRep, d, t, s, {} + {KLoad});
      ghost var v3 := V();
      BegunNext(ly, v3, n, KGep, d, {} + {KLoad} + {KStore}, Open(), s, t);
      SolveList(n, KGep, hcdRep, d, t, s, {} + {KLoad} + {KStore});
      ghost var v4 := V();
      EvolvesTrans(v1, v2, v3);
      EvolvesTrans(v1, v3, v4);
      AllDone(ly, v4, n, d);
      Propagate(n, d, s, v1, v4, t);
      VisitEnds(ly, v0, v1, V(), n, hcdRep, d, s, open1, Open(), t);
    }

    /** The propagation at the end of a visit to n. */
    method Propagate(n: nat, d: set<nat>, ghost s: set<nat>, ghost v1: FState, ghost v4: FState, ghost t: Task)
      requires QueueOk() && Solving(ly, V(), Open(), n, s, t) && V() == v4 && AllDoneFor(ly, v4, n, d)
      requires n < |pointsTo| && d <= pointsTo[n] && Evolves(v1, v4)
      modifies this`pointsTo, this`next, this`lcdStarts, this`lcdEdges
      ensures QueueOk() && Solving(ly, V(), Open(), n, s, t) && AllDoneFor(ly, V(), n, d) && Evolves(v1, V())
      ensures n < |V().copies| && Copied(V(), n, d)
    {
      SolvingSizes(ly, v4, Open(), n, s, t);
      assert n < |copyTo|;
      hide *;
      SolveProp(n, d, t, s);
      GrowsAllDone(ly, v4, V(), n, d);
      GrowsEvolves(v4, V());
      EvolvesTrans(v1, v4, V());
    }

    // ----- Lazy cycle detection -----

    /** Move b's edges, constraints and collapse target into a.  Two targets have to be merged too unless
        they have been. */
    method MoveInto(a: nat, b: nat)
      requires a < |root| && b < |root| && a != b && |root| == |pointsTo| == |prevPointsTo| == |copyTo| == |loadTo| == |storeFrom| == |gepTo|
      requires TargetsOk(ly, hcdVar) && |root| == |ly.sz|
      requires a in hcdVar && b in hcdVar ==> Find(root, hcdVar[a]) == Find(root, hcdVar[b])
      modifies this`root, this`pointsTo, this`prevPointsTo, this`copyTo, this`loadTo, this`storeFrom, this`gepTo, this`hcdVar
      ensures V() == Merge(old(V()), a, b)
    {
      hide Both, Joined;
      root := Joined(root, a, b);
      pointsTo := Both(pointsTo, a, b);
      copyTo := copyTo[a := copyTo[a] + copyTo[b] - {a, b}][b := {}];
      loadTo, storeFrom, gepTo := Both(loadTo, a, b), Both(storeFrom, a, b), Both(gepTo, a, b);
      prevPointsTo := prevPointsTo[a := {}][b := {}];
      var hv1 := if a in hcdVar then hcdVar[a] else 0;
      var hv2 := if b in hcdVar then hcdVar[b] else 0;
      if hv2 != 0 {
        if hv1 == 0 {
          hcdVar := hcdVar[a := hv2];
        } else {
          assert Find(root, hv1) == Find(root, hv2);
        }
        hcdVar := hcdVar - {b};
      }
    }

    /** The combined node is visited as soon as either would have been. */
    method VisitSooner(a: nat, b: nat)
      requires QueueOk() && a < |ly.sz| && b < |ly.sz|
      modifies this`vtimeOf
      ensures QueueOk() && old(Open()) <= Open()
      ensures vtimeOf == Sooner(old(vtimeOf), a, b)
    {
      ghost var vt := vtimeOf;
      if vtimeOf[a] > vtimeOf[b] {
        vtimeOf := vtimeOf[a := vtimeOf[b]];
      }
      SoonerWaits(curr, next, vt, vtimeOf, a);
    }

    /** What merging changes. */
    function Now(): Lcd
      reads this`root, this`pointsTo, this`prevPointsTo, this`copyTo, this`loadTo, this`storeFrom, this`gepTo, this`cplxCons, this`hcdVar,
            this`rank, this`vtimeOf, this`next
    {
      Lcd(V(), rank, vtimeOf, next, false)
    }

    /** Unify two representatives; the one of higher rank becomes the parent, which is returned. */
    method MergeNodes(n1: nat, n2: nat) returns (a: nat)
      requires QueueOk() && CanMerge(ly, V(), n1, n2)
      modifies this`root, this`rank, this`pointsTo, this`prevPointsTo, this`copyTo, this`loadTo, this`storeFrom, this`gepTo, this`hcdVar, this`vtimeOf
      ensures QueueOk() && a in {n1, n2} && Merged(old(V()), V(), a, if a == n1 then n2 else n1)
      ensures HasNodes(old(Now()), n1, n2) && Now() == Unite(old(Now()), n1, n2)
      ensures old(Open()) <= Open()
    {
      hide CanMerge, OpenIn, Merge, TargetsOk, Sooner, Waits;
      CanMergeSizes(ly, V(), n1, n2);
      var b := n2;
      a := n1;
      if rank[n1] < rank[n2] {
        a, b := n2, n1;
      } else if rank[n1] == rank[n2] {
        rank := rank[a := rank[a] + 1];
      }
      assert b == if a == n1 then n2 else n1;
      VisitSooner(a, b);
      MoveInto(a, b);
    }

    /** Search for cycles from every start that is a representative still; they are collapsed when they are found. */
    method FindCycles(ghost t: Task) returns (s: Lcd)
      requires QueueOk() && Between(ly, V(), Open(), t)
      modifies this`lcdStarts
      ensures CanGoOn(ly, V(), curr, next, t, s)
    {
      hide Between, OpenIn, Live, Sim, LcdInv, UNITER, CycleDetectors.Lawful, CycleDetectors.Inv;
      ghost var v0, curr0, next0 := V(), curr, next;
      var start := Now();
      assert LcdSizes(ly, start) by {
        BetweenSizes(ly, v0, Open(), t);
      }
      assert CanGoOn(ly, v0, curr0, next0, t, start);
      SearchBegins(ly, v0, curr0, next0, t, start);
      var detector := new CycleDetectors.CycleDetector(UNITER, start, CopyGraph(v0), Base(v0), Sim(ly, v0, curr0, next0, t));
      assert Searching(detector, ly, v0, curr0, next0, t);
      hide *;
      while lcdStarts != {}
        invariant Searching(detector, ly, v0, curr0, next0, t) && CanGoOn(ly, v0, curr0, next0, t, detector.state) && fresh(detector)
        decreases lcdStarts
      {
        var n :| n in lcdStarts;
        lcdStarts := lcdStarts - {n};
        SearchFrom(detector, n, v0, curr0, next0, t);
      }
      s := detector.state;
    }

    /** Search from n, unless it was merged into another node. */
    method SearchFrom(detector: CycleDetectors.CycleDetector<Lcd>, n: nat, ghost v0: FState, ghost curr0: map<nat, nat>, ghost next0: map<nat, nat>,
                      ghost t: Task)
      requires Searching(detector, ly, v0, curr0, next0, t)
      modifies detector
      ensures Searching(detector, ly, v0, curr0, next0, t) && CanGoOn(ly, v0, curr0, next0, t, detector.state)
    {
      hide Sim, CycleDetectors.Lawful, CycleDetectors.Inv, SccOrder, Done, CopyGraph, Base, LcdInv, CanGoOn;
      SearchedOn(ly, v0, curr0, next0, t, detector.state, detector.log);
      if n < |detector.state.v.root| && detector.state.v.root[n] == n {
        detector.RunOnNode(n);
        SearchedOn(ly, v0, curr0, next0, t, detector.state, detector.log);
      }
    }

    /** Detect cycles, and collapse them. */
    method RunLcd(ghost t: Task)
      requires QueueOk() && Between(ly, V(), Open(), t)
      modifies this`root, this`rank, this`pointsTo, this`prevPointsTo, this`copyTo, this`loadTo, this`storeFrom, this`gepTo, this`cplxCons, this`hcdVar,
               this`vtimeOf, this`next, this`lcdStarts, this`lastLcd
      ensures QueueOk() && Between(ly, V(), Open(), t)
      ensures (V() == old(V()) && next == old(next)) || Live(V()) < Live(old(V()))
    {
      lastLcd := nNodeRuns;
      hide Between, OpenIn, Live, LcdSizes, QueueOk;
      var s := FindCycles(t);
      Adopt(s);
    }

    /** Go on with the state of the search. */
    method Adopt(s: Lcd)
      requires QueueOk() && LcdSizes(ly, s)
      modifies this`root, this`rank, this`pointsTo, this`prevPointsTo, this`copyTo, this`loadTo, this`storeFrom, this`gepTo, this`cplxCons, this`hcdVar,
               this`vtimeOf, this`next
      ensures QueueOk() && V() == s.v && next == s.next && Open() == OpenIn(curr, s.next, s.vt)
    {
      rank, vtimeOf, next := s.rank, s.vt, s.next;
      assert QueueOk();
      hide QueueOk, OpenIn;
      SetV(s.v);
    }

    method SetV(v: FState)
      modifies this`root, this`pointsTo, this`prevPointsTo, this`copyTo, this`loadTo, this`storeFrom, this`gepTo, this`cplxCons, this`hcdVar
      ensures V() == v
    {
      root, hcdVar, cplxCons := v.root, v.hcd, v.cplx;
      pointsTo, prevPointsTo, copyTo := v.pts, v.prev, v.copies;
      loadTo, storeFrom, gepTo := v.loads, v.stores, v.geps;
    }

    // ----- The run -----

    /** Enter one constraint. */
    method EnterOne(c: FieldConstraint)
      requires |root| == |pointsTo| == |copyTo| == |loadTo| == |storeFrom| == |gepTo| && IsRep(root) && c.dest < |root| && c.src < |root|
      modifies this`pointsTo, this`copyTo, this`loadTo, this`storeFrom, this`gepTo, this`cplxCons
      ensures V() == Entered(old(V()), c)
    {
      hide Insert;
      var dest, src, ncplx := root[c.dest], root[c.src], |cplxCons|;
      match c.ty {
        case AddrOf => pointsTo := Insert(pointsTo, dest, c.src);
        case Copy => copyTo := Insert(copyTo, src, dest);
        case Load =>
          loadTo := Insert(loadTo, src, ncplx);
          cplxCons := cplxCons + [c];
        case Store =>
          storeFrom := Insert(storeFrom, dest, ncplx);
          cplxCons := cplxCons + [c];
        case Gep =>
          gepTo := Insert(gepTo, src, ncplx);
          cplxCons := cplxCons + [c];
      }
    }

    /** Build the constraint graph, and queue all nodes that point to something and have work to do. */
    method SolveInit(cs: seq<FieldConstraint>, ghost t: Task)
      requires QueueOk() && V() == Blank(root, hcdVar) && Sizes(ly, V()) && t == Task(cs, root, hcdVar) && TaskOk(ly, t)
      modifies this`pointsTo, this`copyTo, this`loadTo, this`storeFrom, this`gepTo, this`cplxCons, this`vtimeOf, this`next, this`curr
      ensures QueueOk() && Between(ly, V(), Open(), t)
    {
      BlankOk(ly, t);
      hide Blank, EnteredTo, Entered, TaskOk, Sizes;
      for i := 0 to |cs|
        invariant QueueOk() && EnteredTo(ly, V(), t, i)
      {
        EnterStep(ly, V(), t, i);
        EnterOne(cs[i]);
      }
      QueueAll(t);
    }

    /** Queue a representative that points to something and has work to do. */
    method QueueOne(i: nat)
      requires QueueOk() && i < |root| && |pointsTo| == |copyTo| == |loadTo| == |storeFrom| == |gepTo| == |root| == |ly.sz|
      modifies this`vtimeOf, this`next
      ensures QueueOk() && old(Open()) <= Open()
      ensures i !in Live(V()) || i in Open() || Idle(V(), i)
    {
      if root[i] != i {
        return;
      }
      SoonerWaits(curr, next, vtimeOf, vtimeOf[i := 0], i);
      vtimeOf := vtimeOf[i := 0];
      hide OpenIn, QueueOk;
      if pointsTo[i] == {} {
        return;
      }
      if copyTo[i] == {} && loadTo[i] == {} && storeFrom[i] == {} && gepTo[i] == {} {
        return;
      }
      Push(i);
    }

    /** The initial worklist. */
    method QueueAll(ghost t: Task)
      requires QueueOk() && EnteredTo(ly, V(), t, |t.cs|)
      modifies this`vtimeOf, this`next, this`curr
      ensures QueueOk() && Between(ly, V(), Open(), t)
    {
      hide OpenIn, EnteredTo, Idle, Between, Live;
      curr, next := map[], map[];
      assert QueueOk();
      EnteredRange(ly, V(), t);
      hide QueueOk;
      for i := 0 to |root|
        invariant QueueOk()
        invariant forall m | m in Live(V()) && m < i && m !in Open() :: Idle(V(), m)
      {
        QueueOne(i);
      }
      AllBetween(ly, V(), t, Open());
      if curr == map[] {
        SwapOpen(next, vtimeOf);
        curr, next := next, map[];
        assert QueueOk();
      }
    }

    /** The node with the least key in the current worklist. */
    method Pop() returns (n: nat, p: nat)
      requires curr != map[]
      modifies this`curr
      ensures n in old(curr) && p == old(curr)[n] && curr == old(curr) - {n}
      ensures forall m | m in old(curr) :: p <= old(curr)[m]
    {
      var some :| some in curr;
      HasLeast(curr, some);
      n :| n in curr && forall m | m in curr :: curr[n] <= curr[m];
      p := curr[n];
      curr := curr - {n};
    }

    /** Go on to the next pass if the current one is done; returns whether there is anything left. */
    method NextPass() returns (more: bool)
      requires QueueOk()
      modifies this`curr, this`next
      ensures QueueOk() && Open() == old(Open()) && |curr| + |next| == old(|curr| + |next|)
      ensures if more then curr != map[] else curr == next == map[]
    {
      if curr == map[] {
        curr, next := next, map[];
        if curr == map[] {
          return false;
        }
      }
      return true;
    }

    /** One entry of the worklist: skipped if its node was merged away, or visited after the entry was
        made; otherwise the node is solved, and cycles are detected if it is time to. */
    method StepOnce(ghost t: Task)
      requires QueueOk() && Between(ly, V(), Open(), t) && curr != map[]
      modifies this
      ensures QueueOk() && Between(ly, V(), Open(), t)
      ensures Smaller(old(V()), old(|curr| + |next|), V(), |curr| + |next|)
    {
      hide Between, LoopInv, WellFormed, OpenIn;
      ghost var v0, curr0, next0, open0 := V(), curr, next, Open();
      BetweenSizes(ly, v0, open0, t);
      var n, p := Pop();
      Popped(curr0, next0, vtimeOf, n);
      if root[n] != n {
        BetweenOpen(ly, v0, open0, Open(), t);
        return;
      }
      if p < vtimeOf[n] {
        BetweenOpen(ly, v0, open0, Open(), t);
        return;
      }
      BetweenOpen(ly, v0, open0, Open() + {n}, t);
      assert n in Live(v0);
      hide *;
      VisitNode(n, t);
    }

    /** Solve a node, and detect cycles if it is time to. */
    method VisitNode(n: nat, ghost t: Task)
      requires QueueOk() && Between(ly, V(), Open() + {n}, t) && n in Live(V())
      modifies this
      ensures QueueOk() && Between(ly, V(), Open(), t)
      ensures Smaller(old(V()), old(|curr| + |next|) + 1, V(), |curr| + |next|)
    {
      ghost var v0, size := V(), |curr| + |next|;
      hide *;
      SolveNode(n, t);
      ghost var v1, size1 := V(), |curr| + |next|;
      if |lcdStarts| >= LCD_SZ || nNodeRuns - lastLcd >= LCD_PERIOD {
        BetweenSizes(ly, v1, Open(), t);
        RunLcd(t);
      }
      SmallerAfter(v0, size + 1, v1, size1, V(), |curr| + |next|);
    }

    /** Solve until the worklist is empty.  The points-to sets are then the least tame ones, and those of the
        least solution exactly when that is tame. */
    method Solve(cs: seq<FieldConstraint>)
      requires QueueOk() && V() == Blank(root, hcdVar) && Sizes(ly, V()) && TaskOk(ly, Task(cs, root, hcdVar))
      modifies this
      ensures Solved(ly, Task(cs, old(root), old(hcdVar)), root, Meaning(V()))
      ensures curr == next == map[]
    {
      ghost var t := Task(cs, root, hcdVar);
      hide Blank, Sizes, TaskOk, Meaning, Solved;
      SolveInit(cs, t);
      nNodeRuns, lastLcd, vtime := 0, 0, 1;
      hide *;
      Drain(t);
      NothingWaits(curr, next, vtimeOf);
      Converged(ly, V(), Open(), t);
    }

    /** The main loop. */
    method Drain(ghost t: Task)
      requires QueueOk() && Between(ly, V(), Open(), t)
      modifies this
      ensures QueueOk() && Between(ly, V(), Open(), t)
      ensures curr == next == map[]
    {
      hide Between;
      while true
        invariant QueueOk() && Between(ly, V(), Open(), t)
        decreases Live(V()), Missing(V()), Unpropagated(V()), |curr| + |next|
      {
        var more := NextPass();
        if !more {
          break;
        }
        StepOnce(t);
      }
    }
  }
}
