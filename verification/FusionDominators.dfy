/** The map of immediate dominators over a run of fusions: what the pass makes of it, and
    exactly when it is still right of the fused graph. */
module FusionDominators {
  import opened Options
  import opened Graphs
  import opened Conditions
  import opened Dominators
  import opened DominatorChanges
  import opened Fusion
  import opened FusionRuns

  /** What a fusion does to the map: the new block gets what the first had, and the entries of
      both go. Entries that name one of them are left to be mapped later. */
  function MovedDoms(idom: Doms, n1: NodeId, n2: NodeId, m: NodeId): Doms {
    idom[m := Entry(idom, n1)] - {n1, n2}
  }

  lemma MovedDomsIs(idom: Doms, n1: NodeId, n2: NodeId, m: NodeId)
    ensures MovedDoms(idom, n1, n2, m) == idom[m := if n1 in idom then idom[n1] else None] - {n1, n2}
  {
  }

  /** Every entry mapped through the record of replaced blocks. */
  function Updated(idom: Doms, nodeMap: map<NodeId, NodeId>): Doms {
    map x | x in idom :: Mapped(idom[x], nodeMap)
  }

  function Mapped(o: Option<NodeId>, nodeMap: map<NodeId, NodeId>): Option<NodeId> {
    if o.Some? then Some(Resolve(nodeMap, o.value)) else None
  }

  lemma MappedIs(o: Option<NodeId>, nodeMap: map<NodeId, NodeId>)
    ensures Mapped(o, nodeMap) == if o.Some? && o.value in nodeMap then Some(nodeMap[o.value]) else o
  {
  }

  lemma UpdatedIs(idom: Doms, idom': Doms, nodeMap: map<NodeId, NodeId>)
    requires idom'.Keys == idom.Keys && forall x :: x in idom ==> idom'[x] == Mapped(idom[x], nodeMap)
    ensures idom' == Updated(idom, nodeMap)
  {
    hide Mapped;
  }

  /** Mapped at last, it is as if every entry had been renamed at every fusion. */
  lemma MovedIsDrawn(idom: Doms, nodeMap: map<NodeId, NodeId>, n1: NodeId, n2: NodeId, m: NodeId)
    requires n1 !in nodeMap && n2 !in nodeMap && m !in nodeMap && m != n1 && m != n2
    ensures Updated(MovedDoms(idom, n1, n2, m), Moved(nodeMap, n1, n2, m))
         == DrawnMap(Updated(idom, nodeMap), n1, n2, m)
  {
    var l, r := Updated(MovedDoms(idom, n1, n2, m), Moved(nodeMap, n1, n2, m)),
                DrawnMap(Updated(idom, nodeMap), n1, n2, m);
    assert l.Keys == r.Keys;
    forall x | x in l
      ensures l[x] == r[x]
    {
      var o := if x == m then Entry(idom, n1) else idom[x];
      MappedMoved(o, nodeMap, n1, n2, m);
    }
  }

  lemma MappedMoved(o: Option<NodeId>, nodeMap: map<NodeId, NodeId>, n1: NodeId, n2: NodeId, m: NodeId)
    requires n1 !in nodeMap && n2 !in nodeMap && m !in nodeMap && m != n1 && m != n2
    ensures Mapped(o, Moved(nodeMap, n1, n2, m)) == RenamedTo(Mapped(o, nodeMap), n1, n2, m)
  {
  }

  lemma UpdatedByNothing(idom: Doms)
    ensures Updated(idom, map[]) == idom
  {
  }

  /** The map after a run, renamed at every fusion. */
  ghost function DomsAfter(idom: Doms, steps: seq<Step>): Doms
    decreases |steps|
  {
    if steps == [] then idom
    else
      var t := steps[|steps| - 1];
      DrawnMap(DomsAfter(idom, steps[..|steps| - 1]), t.n1, t.n2, t.m)
  }

  /** Every block that was absorbed had the one that absorbed it for immediate dominator. */
  ghost predicate Partnered(idom: Doms, steps: seq<Step>)
    decreases |steps|
  {
    steps == [] ||
    var t, dom := steps[|steps| - 1], DomsAfter(idom, steps[..|steps| - 1]);
    Partnered(idom, steps[..|steps| - 1]) && t.n2 in dom && dom[t.n2] == Some(t.n1)
  }

  lemma DomsMore(idom: Doms, steps: seq<Step>, t: Step)
    ensures DomsAfter(idom, steps + [t]) == DrawnMap(DomsAfter(idom, steps), t.n1, t.n2, t.m)
  {
    assert (steps + [t])[..|steps|] == steps;
  }

  /** What a traversal sees of the program: its edges, and the exception edges between blocks
      that are still there. */
  ghost function Shown(p: Prog, catchEdges: Table): Flow {
    Flow(p.entry, p.nodes,
         map y | y in p.nodes :: set x | x in p.nodes && x in p.sucs && (y in p.sucs[x] || Edge(catchEdges, x, y)))
  }

  /** The original flow with each block replaced by what it became, and no edge lost. */
  ghost function Image(f: Flow, p: Prog): Flow
    requires f.Valid()
  {
    Flow(Resolve(p.nodeMap, f.entry), p.nodes,
         map y | y in p.nodes ::
           set a, b | b in f.nodes && a in f.preds[b] && Resolve(p.nodeMap, b) == y :: Resolve(p.nodeMap, a))
  }

  /** An edge of `f` became the edge from `x` to `z`. */
  ghost predicate Became(f: Flow, p: Prog, x: NodeId, z: NodeId)
    requires f.Valid()
  {
    exists a, b :: b in f.nodes && a in f.preds[b] && Resolve(p.nodeMap, a) == x && Resolve(p.nodeMap, b) == z
  }

  /** All there is in `p` comes from `f`. */
  ghost predicate Reflects(f: Flow, p: Prog, catchEdges: Table) {
    && f.Valid() && p.Valid() && p.entry == Resolve(p.nodeMap, f.entry)
    && (forall x :: x in f.nodes ==> Resolve(p.nodeMap, x) in p.nodes)
    && (forall x, z :: x in p.sucs && z in p.sucs[x] ==> Became(f, p, x, z))
    && forall a, h :: Edge(catchEdges, a, h) ==> h in f.nodes && a in f.preds[h]
  }

  /** Exception edges lead from and to blocks of the program. */
  ghost predicate CatchIn(p: Prog, catchEdges: Table) {
    forall a, h :: Edge(catchEdges, a, h) ==> a in p.nodes && h in p.nodes
  }

  lemma ReflectsIs(f: Flow, p: Prog, catchEdges: Table)
    requires Reflects(f, p, catchEdges)
    ensures f.Valid() && p.Valid() && f.entry in f.nodes && p.entry == Resolve(p.nodeMap, f.entry)
    ensures forall x :: x in f.nodes ==> Resolve(p.nodeMap, x) in p.nodes
    ensures forall x, z :: x in p.sucs && z in p.sucs[x] ==> Became(f, p, x, z)
    ensures forall a, h :: Edge(catchEdges, a, h) ==> h in f.nodes && a in f.preds[h]
  {
    hide Became, Prog.Valid, Edge;
  }

  lemma ReflectsIf(f: Flow, p: Prog, catchEdges: Table)
    requires f.Valid() && p.Valid() && p.entry == Resolve(p.nodeMap, f.entry)
    requires forall x :: x in f.nodes ==> Resolve(p.nodeMap, x) in p.nodes
    requires forall x, z :: x in p.sucs && z in p.sucs[x] ==> Became(f, p, x, z)
    requires forall a, h :: Edge(catchEdges, a, h) ==> h in f.nodes && a in f.preds[h]
    ensures Reflects(f, p, catchEdges)
  {
    hide Became, Prog.Valid, Edge;
  }

  lemma ShownIs(p: Prog, catchEdges: Table)
    requires p.Valid()
    ensures var f := Shown(p, catchEdges);
      && f.Valid() && f.entry == p.entry && f.nodes == p.nodes == f.preds.Keys == p.sucs.Keys
      && forall x, y :: y in p.nodes ==>
           (x in f.preds[y] <==> x in p.nodes && (y in p.sucs[x] || Edge(catchEdges, x, y)))
  {
    hide Edge;
    var f := Shown(p, catchEdges);
    assert f.preds.Keys == p.nodes;
  }

  lemma BecameIs(f: Flow, p: Prog, x: NodeId, z: NodeId)
    requires f.Valid() && z in f.nodes && x in f.preds[z]
    ensures Became(f, p, Resolve(p.nodeMap, x), Resolve(p.nodeMap, z))
  {
  }

  lemma LiveStays(p: Prog, x: NodeId)
    requires p.Valid() && x in p.nodes
    ensures Resolve(p.nodeMap, x) == x
  {
  }

  lemma ReflectsSelf(p: Prog, catchEdges: Table)
    requires p.Valid() && p.nodeMap == map[] && CatchIn(p, catchEdges)
    ensures Reflects(Shown(p, catchEdges), p, catchEdges)
    ensures Shown(p, catchEdges).Valid() && Image(Shown(p, catchEdges), p) == Shown(p, catchEdges)
  {
    hide *;
    var f := Shown(p, catchEdges);
    ShownIs(p, catchEdges);
    forall x, z | x in p.sucs && z in p.sucs[x]
      ensures Became(f, p, x, z)
    {
      SucIsNode(p, x, z);
      LiveStays(p, x);
      LiveStays(p, z);
      BecameIs(f, p, x, z);
    }
    forall x | x in f.nodes
      ensures Resolve(p.nodeMap, x) == x
    {
      LiveStays(p, x);
    }
    CatchIsIn(p, catchEdges);
    EntryIsNode(p);
    ReflectsIf(f, p, catchEdges);
    SelfImage(f, p);
  }

  lemma EntryIsNode(p: Prog)
    requires p.Valid()
    ensures p.entry in p.nodes
  {
  }

  lemma SucIsNode(p: Prog, x: NodeId, z: NodeId)
    requires p.Valid() && x in p.sucs && z in p.sucs[x]
    ensures x in p.nodes && z in p.nodes
  {
  }

  lemma CatchIsIn(p: Prog, catchEdges: Table)
    requires CatchIn(p, catchEdges)
    ensures forall a, h :: Edge(catchEdges, a, h) ==> a in p.nodes && h in p.nodes
  {
  }

  lemma SelfImage(f: Flow, p: Prog)
    requires f.Valid() && f.nodes == p.nodes && f.entry in f.nodes && forall x :: x in f.nodes ==>
      Resolve(p.nodeMap, x) == x
    ensures Image(f, p) == f
  {
    hide Resolve;
    forall y | y in p.nodes
      ensures Image(f, p).preds[y] == f.preds[y]
    {
      assert forall a :: a in f.preds[y] ==> Resolve(p.nodeMap, a) == a && Resolve(p.nodeMap, y) == y;
    }
    assert Image(f, p).preds == f.preds;
  }

  lemma BecameAfter(f: Flow, p: Prog, t: Step, x: NodeId, z: NodeId)
    requires f.Valid() && (forall a :: a in f.nodes ==> Resolve(p.nodeMap, a) in p.nodes)
    requires Chosen(p, t) && Became(f, p, x, z)
    ensures Became(f, Result(p, t), Rename(t, x), Rename(t, z))
  {
    hide Result, Chosen;
    var a, b :| b in f.nodes && a in f.preds[b] && Resolve(p.nodeMap, a) == x && Resolve(p.nodeMap, b) == z;
    ResolveMoved(p, t, a);
    ResolveMoved(p, t, b);
  }

  /** A fusion leaves only edges that come from the original. */
  lemma ReflectsStep(f: Flow, p: Prog, t: Step, catchEdges: Table)
    requires Reflects(f, p, catchEdges) && Chosen(p, t)
    ensures Reflects(f, Result(p, t), catchEdges)
  {
    hide *;
    ReflectsIs(f, p, catchEdges);
    var r := Result(p, t);
    ResultValid(p, t);
    MergeNodesOf(p, t);
    ChosenPair(p, t);
    forall x | x in f.nodes
      ensures Resolve(r.nodeMap, x) in r.nodes && Resolve(r.nodeMap, x) == Rename(t, Resolve(p.nodeMap, x))
    {
      ResolveMoved(p, t, x);
      RenameIs(t, Resolve(p.nodeMap, x));
    }
    ResultEntry(p, t);
    forall x, z | x in r.sucs && z in r.sucs[x]
      ensures Became(f, r, x, z)
    {
      EdgeBecame(f, p, t, catchEdges, x, z);
    }
    ReflectsIf(f, r, catchEdges);
  }

  lemma RenameIs(t: Step, x: NodeId)
    ensures Rename(t, x) == if x == t.n1 || x == t.n2 then t.m else x
  {
  }

  lemma ResultEntry(p: Prog, t: Step)
    requires Chosen(p, t)
    ensures Result(p, t).entry == Rename(t, p.entry)
  {
    MergeAt(p, t, t.m);
  }

  lemma EdgeBecame(f: Flow, p: Prog, t: Step, catchEdges: Table, x: NodeId, z: NodeId)
    requires Reflects(f, p, catchEdges) && Chosen(p, t) && x in Result(p, t).sucs && z in Result(p, t).sucs[x]
    ensures Became(f, Result(p, t), x, z)
  {
    var x0, z0 := EdgeBefore(p, t, x, z);
    hide Result, Chosen, Became, Prog.Valid;
    BecameAfter(f, p, t, x0, z0);
  }

  /** The edge that an edge after a fusion was. */
  lemma EdgeBefore(p: Prog, t: Step, x: NodeId, z: NodeId) returns (x0: NodeId, z0: NodeId)
    requires Chosen(p, t) && x in Result(p, t).sucs && z in Result(p, t).sucs[x]
    ensures x0 in p.sucs && z0 in p.sucs[x0] && Rename(t, x0) == x && Rename(t, z0) == z
  {
    MergeNodesOf(p, t);
    MergeAt(p, t, t.m);
    MergeAt(p, t, x);
    assert p.Valid();
    hide Result, Chosen, Merge, Prog.IsBranch, Fusable, NewBlock;
    if x == t.m {
      x0, z0 := if z in p.sucs[t.n1] then t.n1 else t.n2, z;
    } else {
      x0, z0 := x, if z != t.m then z else if t.n1 in p.sucs[x] then t.n1 else t.n2;
    }
  }

  /** And draws the two blocks together in the image. */
  lemma ImageDrawn(f: Flow, p: Prog, t: Step, catchEdges: Table)
    requires Reflects(f, p, catchEdges) && Chosen(p, t)
    ensures Reflects(f, Result(p, t), catchEdges)
    ensures f.Valid() && DrawnTogether(Image(f, p), Image(f, Result(p, t)), t.n1, t.n2, t.m)
  {
    hide *;
    var r := Result(p, t);
    ReflectsStep(f, p, t, catchEdges);
    MergeNodesOf(p, t);
    ImageValid(f, p, catchEdges);
    ImageValid(f, r, catchEdges);
    ChosenPair(p, t);
    ResultEntry(p, t);
    ImageEdges(f, p, t, catchEdges);
    DrawnIf(Image(f, p), Image(f, r), t);
  }

  ghost predicate Leads(f: Flow, x: NodeId, y: NodeId) {
    y in f.preds && x in f.preds[y]
  }

  lemma LeadsIs(f: Flow, x: NodeId, y: NodeId)
    ensures Leads(f, x, y) <==> y in f.preds && x in f.preds[y]
  {
  }

  lemma ImageEdges(f: Flow, p: Prog, t: Step, catchEdges: Table)
    requires Reflects(f, p, catchEdges) && Chosen(p, t)
    requires f.Valid() && Image(f, p).Valid() && Image(f, Result(p, t)).Valid()
    ensures var d, c := Image(f, p), Image(f, Result(p, t));
      && (forall x, y :: y in d.nodes && x in d.preds[y] ==> Leads(c, Rename(t, x), Rename(t, y)))
      && forall x', y' :: y' in c.nodes && x' in c.preds[y'] ==> EdgeBehind(d, t.n1, t.n2, t.m, x', y')
  {
    hide *;
    var d, c := Image(f, p), Image(f, Result(p, t));
    ImageValid(f, p, catchEdges);
    ReflectsStep(f, p, t, catchEdges);
    ImageValid(f, Result(p, t), catchEdges);
    forall x, y | y in d.nodes && x in d.preds[y]
      ensures Leads(c, Rename(t, x), Rename(t, y))
    {
      ImageForth(f, p, t, catchEdges, x, y);
    }
    forall x', y' | y' in c.nodes && x' in c.preds[y']
      ensures EdgeBehind(d, t.n1, t.n2, t.m, x', y')
    {
      ImageBack(f, p, t, catchEdges, x', y');
    }
  }

  lemma ImageForth(f: Flow, p: Prog, t: Step, catchEdges: Table, x: NodeId, y: NodeId)
    requires Reflects(f, p, catchEdges) && Chosen(p, t) && f.Valid() && Image(f, p).Valid()
    requires y in Image(f, p).nodes && x in Image(f, p).preds[y]
    ensures Leads(Image(f, Result(p, t)), Rename(t, x), Rename(t, y))
  {
    hide *;
    LeadsIs(Image(f, Result(p, t)), Rename(t, x), Rename(t, y));
    var r := Result(p, t);
    ReflectsIs(f, p, catchEdges);
    ReflectsStep(f, p, t, catchEdges);
    ImageValid(f, r, catchEdges);
    ImageEdge(f, p, catchEdges, x, y);
    BecameAfter(f, p, t, x, y);
    ImageEdge(f, r, catchEdges, Rename(t, x), Rename(t, y));
  }

  lemma ImageBack(f: Flow, p: Prog, t: Step, catchEdges: Table, x': NodeId, y': NodeId)
    requires Reflects(f, p, catchEdges) && Chosen(p, t) && f.Valid() && Image(f, Result(p, t)).Valid()
    requires y' in Image(f, Result(p, t)).nodes && x' in Image(f, Result(p, t)).preds[y']
    ensures Image(f, p).Valid() && EdgeBehind(Image(f, p), t.n1, t.n2, t.m, x', y')
  {
    hide *;
    ReflectsStep(f, p, t, catchEdges);
    ImageEdge(f, Result(p, t), catchEdges, x', y');
    BehindImage(f, p, t, catchEdges, x', y');
  }

  lemma BecameOf(f: Flow, p: Prog, x: NodeId, z: NodeId) returns (a: NodeId, b: NodeId)
    requires f.Valid() && Became(f, p, x, z)
    ensures b in f.nodes && b in f.preds && a in f.preds[b] && a in f.nodes
    ensures Resolve(p.nodeMap, a) == x && Resolve(p.nodeMap, b) == z
  {
    a, b :| b in f.nodes && a in f.preds[b] && Resolve(p.nodeMap, a) == x && Resolve(p.nodeMap, b) == z;
  }

  lemma BehindIf(f: Flow, n1: NodeId, n2: NodeId, m: NodeId, x: NodeId, y: NodeId)
    requires f.Valid() && y in f.nodes && x in f.preds[y]
    ensures EdgeBehind(f, n1, n2, m, Renamed(n1, n2, m, x), Renamed(n1, n2, m, y))
  {
  }

  lemma RenamedBoth(t: Step, x: NodeId, y: NodeId)
    ensures Rename(t, x) == Renamed(t.n1, t.n2, t.m, x) && Rename(t, y) == Renamed(t.n1, t.n2, t.m, y)
  {
  }

  lemma BehindImage(f: Flow, p: Prog, t: Step, catchEdges: Table, x': NodeId, y': NodeId)
    requires Reflects(f, p, catchEdges) && Chosen(p, t) && f.Valid() && Became(f, Result(p, t), x', y')
    ensures Image(f, p).Valid() && EdgeBehind(Image(f, p), t.n1, t.n2, t.m, x', y')
  {
    hide *;
    var r := Result(p, t);
    ReflectsIs(f, p, catchEdges);
    var a, b := BecameOf(f, r, x', y');
    ResolveMoved(p, t, a);
    ResolveMoved(p, t, b);
    BecameIs(f, p, a, b);
    var x, y := Resolve(p.nodeMap, a), Resolve(p.nodeMap, b);
    ImageEdge(f, p, catchEdges, x, y);
    RenamedBoth(t, x, y);
    BehindIf(Image(f, p), t.n1, t.n2, t.m, x, y);
  }

  lemma DrawnIf(f: Flow, c: Flow, t: Step)
    requires f.Valid() && c.Valid() && t.n1 in f.nodes && t.n2 in f.nodes && t.n1 != t.n2 && t.m !in f.nodes
    requires c.nodes == f.nodes - {t.n1, t.n2} + {t.m} && c.entry == Rename(t, f.entry)
    requires forall x, y :: y in f.nodes && x in f.preds[y] ==> Leads(c, Rename(t, x), Rename(t, y))
    requires forall x', y' :: y' in c.nodes && x' in c.preds[y'] ==> EdgeBehind(f, t.n1, t.n2, t.m, x', y')
    ensures DrawnTogether(f, c, t.n1, t.n2, t.m)
  {
    hide EdgeBehind;
    forall x, y | y in f.nodes && x in f.preds[y]
      ensures Renamed(t.n1, t.n2, t.m, x) in c.preds[Renamed(t.n1, t.n2, t.m, y)]
    {
      assert Rename(t, x) == Renamed(t.n1, t.n2, t.m, x) && Rename(t, y) == Renamed(t.n1, t.n2, t.m, y);
    }
  }

  lemma ChosenPair(p: Prog, t: Step)
    requires Chosen(p, t)
    ensures t.n1 in p.nodes && t.n2 in p.nodes && t.n1 != t.n2 && t.m !in p.nodes
    ensures t.n1 !in p.nodeMap && t.n2 !in p.nodeMap && t.m !in p.nodeMap && t.m != t.n1 && t.m != t.n2
  {
  }

  lemma ImageValid(f: Flow, p: Prog, catchEdges: Table)
    requires Reflects(f, p, catchEdges)
    ensures f.Valid() && Image(f, p).Valid() && Image(f, p).nodes == p.nodes == Image(f, p).preds.Keys
    ensures Image(f, p).entry == Resolve(p.nodeMap, f.entry) == p.entry
  {
    assert f.entry in f.nodes;
    forall y | y in p.nodes
      ensures Image(f, p).preds[y] <= p.nodes
    {
    }
  }

  lemma ImageEdge(f: Flow, p: Prog, catchEdges: Table, x: NodeId, y: NodeId)
    requires Reflects(f, p, catchEdges)
    ensures f.Valid() && Image(f, p).Valid()
    ensures y in Image(f, p).nodes && x in Image(f, p).preds[y] <==> Became(f, p, x, y)
  {
    ImageValid(f, p, catchEdges);
  }

  /** The graph shows no more than the image. */
  lemma ShownWithin(f: Flow, p: Prog, catchEdges: Table)
    requires Reflects(f, p, catchEdges)
    ensures f.Valid() && Within(Shown(p, catchEdges), Image(f, p))
  {
    hide *;
    ReflectsIs(f, p, catchEdges);
    ImageValid(f, p, catchEdges);
    ShownIs(p, catchEdges);
    forall x, y | y in p.nodes && x in Shown(p, catchEdges).preds[y]
      ensures y in Image(f, p).preds && x in Image(f, p).preds[y]
    {
      if y !in p.sucs[x] {
        LiveStays(p, x);
        LiveStays(p, y);
        BecameIs(f, p, x, y);
      }
      ImageEdge(f, p, catchEdges, x, y);
    }
    WithinIf(Shown(p, catchEdges), Image(f, p));
  }

  lemma WithinIf(g: Flow, f: Flow)
    requires f.Valid() && g.Valid() && g.entry == f.entry && g.nodes == f.nodes
    requires forall x, y :: y in f.nodes && x in g.preds[y] ==> y in f.preds && x in f.preds[y]
    ensures Within(g, f)
  {
  }

  /** Over a run whose absorbed blocks had their partners for immediate dominators, the map
      stays right of the image. */
  lemma {:induction false} ImageTells(p0: Prog, steps: seq<Step>, catchEdges: Table, idom: Doms)
    requires Legal(p0, steps) && p0.Valid() && p0.nodeMap == map[] && CatchIn(p0, catchEdges)
    requires TellsIdoms(Shown(p0, catchEdges), idom) && Partnered(idom, steps)
    ensures Reflects(Shown(p0, catchEdges), End(p0, steps), catchEdges)
    ensures TellsIdoms(Image(Shown(p0, catchEdges), End(p0, steps)), DomsAfter(idom, steps))
    decreases |steps|
  {
    hide Chosen, Result, TellsIdoms, Shown, Image, Reflects;
    ReflectsSelf(p0, catchEdges);
    if steps != [] {
      var rest, t := steps[..|steps| - 1], steps[|steps| - 1];
      var f, p := Shown(p0, catchEdges), End(p0, rest);
      ImageTells(p0, rest, catchEdges, idom);
      ImageDrawn(f, p, t, catchEdges);
      DrawnTells(Image(f, p), Image(f, Result(p, t)), t.n1, t.n2, t.m, DomsAfter(idom, rest));
    }
  }

  /** After such a run the map is right of the graph if and only if it is at every block that
      lost an edge: the block is still reached and what the map names is still its immediate
      dominator. */
  lemma RunTells(p0: Prog, steps: seq<Step>, catchEdges: Table, idom: Doms)
    requires Legal(p0, steps) && p0.Valid() && p0.nodeMap == map[] && CatchIn(p0, catchEdges)
    requires TellsIdoms(Shown(p0, catchEdges), idom) && Partnered(idom, steps)
    ensures var f, p := Shown(p0, catchEdges), End(p0, steps);
      && f.Valid() && Within(Shown(p, catchEdges), Image(f, p))
      && (TellsIdoms(Shown(p, catchEdges), DomsAfter(idom, steps)) <==>
            LosersStand(Image(f, p), Shown(p, catchEdges), DomsAfter(idom, steps)))
  {
    hide *;
    var f, p := Shown(p0, catchEdges), End(p0, steps);
    ImageTells(p0, steps, catchEdges, idom);
    ShownWithin(f, p, catchEdges);
    EdgesLost(Image(f, p), Shown(p, catchEdges), DomsAfter(idom, steps));
  }

  /** No exception edge leads to a conditional block. */
  ghost predicate HeadsPlain(p: Prog, catchEdges: Table) {
    forall a, h :: Edge(catchEdges, a, h) ==> !p.IsBranch(h)
  }

  /** Every block that absorbed another had an entry in the map, that is, was reached. */
  ghost predicate FirstsKnown(idom: Doms, steps: seq<Step>)
    decreases |steps|
  {
    steps == [] ||
    (FirstsKnown(idom, steps[..|steps| - 1]) && steps[|steps| - 1].n1 in DomsAfter(idom, steps[..|steps| - 1]))
  }

  /** Of the edges along branches none is lost. */
  ghost predicate NormalKept(p0: Prog, p: Prog) {
    forall a, b :: a in p0.sucs && b in p0.sucs[a] ==> KeptBetween(p, Now(p, a), Now(p, b))
  }

  ghost predicate KeptBetween(p: Prog, x: NodeId, z: NodeId) {
    x != z ==> x in p.sucs && z in p.sucs[x]
  }

  lemma EdgeKept(p: Prog, t: Step, x: NodeId, z: NodeId)
    requires Chosen(p, t) && Clean(p, t) && p.Wired() && KeptBetween(p, x, z) && x in p.nodes
    ensures KeptBetween(Result(p, t), Rename(t, x), Rename(t, z))
  {
    MergeAt(p, t, t.m);
    hide Result, Fusable, NewBlock, Prog.Wired, Callers, Merge;
    if x != z && x != t.n1 && x != t.n2 { CleanAt(p, t, x); }
  }

  lemma NormalKeptStep(p0: Prog, p: Prog, t: Step)
    requires NormalKept(p0, p) && Chosen(p, t) && Clean(p, t) && p.Wired()
    requires forall a :: a in p0.nodes ==> Now(p, a) in p.nodes
    requires p0.Valid()
    ensures NormalKept(p0, Result(p, t))
  {
    hide Result, Chosen, Clean, Prog.Wired, KeptBetween;
    forall a, b | a in p0.sucs && b in p0.sucs[a]
      ensures KeptBetween(Result(p, t), Now(Result(p, t), a), Now(Result(p, t), b))
    {
      ResolveMoved(p, t, a);
      ResolveMoved(p, t, b);
      EdgeKept(p, t, Now(p, a), Now(p, b));
    }
  }

  lemma StemsLive(p0: Prog, p: Prog)
    requires Stems(p0, p)
    ensures forall a :: a in p0.nodes ==> Now(p, a) in p.nodes
    ensures forall b :: b in p0.nodes && !p0.IsBranch(b) ==> Now(p, b) == b && !p.IsBranch(b)
  {
    hide BranchAt;
    forall b | b in p0.nodes && !p0.IsBranch(b)
      ensures Now(p, b) == b && !p.IsBranch(b)
    {
      assert PlainAt(p0, p, b);
    }
  }

  /** What a clean run keeps. */
  lemma {:induction false} CleanRunKeeps(p0: Prog, steps: seq<Step>)
    requires Legal(p0, steps) && AllClean(p0, steps) && p0.Valid() && p0.Wired() && p0.nodeMap == map[]
    ensures End(p0, steps).Valid() && End(p0, steps).Wired()
    ensures Stems(p0, End(p0, steps)) && NormalKept(p0, End(p0, steps))
    decreases |steps|
  {
    hide Chosen, Clean, Result, Stems, Prog.Wired, NormalKept;
    if steps == [] {
      StemsStarts(p0);
      NormalKeptSelf(p0);
    } else {
      var rest, t := steps[..|steps| - 1], steps[|steps| - 1];
      CleanRunKeeps(p0, rest);
      var p := End(p0, rest);
      CleanWired(p, t);
      StemsStep(p0, p, t);
      StemsLive(p0, p);
      NormalKeptStep(p0, p, t);
    }
  }

  lemma NormalKeptSelf(p: Prog)
    requires p.nodeMap == map[]
    ensures NormalKept(p, p)
  {
  }

  /** Where an edge of the image comes from in a clean run: it is there, or it was an exception
      edge. */
  lemma ImageEdgeIs(p0: Prog, p: Prog, catchEdges: Table, x: NodeId, z: NodeId)
    requires Stems(p0, p) && NormalKept(p0, p) && p0.Valid() && CatchIn(p0, catchEdges) && HeadsPlain(p0, catchEdges)
    requires Shown(p0, catchEdges).Valid() && Became(Shown(p0, catchEdges), p, x, z) && x != z
    ensures (x in p.sucs && z in p.sucs[x])
      || (!p.IsBranch(z) && exists a :: Edge(catchEdges, a, z) && Now(p, a) == x)
  {
    hide Stems, Prog.Valid;
    ShownIs(p0, catchEdges);
    StemsLive(p0, p);
    var a, b := BecameOf(Shown(p0, catchEdges), p, x, z);
    hide Shown;
    assert Now(p, a) == x && Now(p, b) == z;
    if b in p0.sucs[a] { assert KeptBetween(p, x, z); }
  }

  /** The absorbed block is come to from its partner only, also in the image. */
  lemma SecondHasOnePred(p0: Prog, p: Prog, t: Step, catchEdges: Table, x: NodeId)
    requires Stems(p0, p) && NormalKept(p0, p) && p0.Valid() && CatchIn(p0, catchEdges) && HeadsPlain(p0, catchEdges)
    requires Reflects(Shown(p0, catchEdges), p, catchEdges) && Chosen(p, t) && Clean(p, t)
    requires Shown(p0, catchEdges).Valid() && Image(Shown(p0, catchEdges), p).Valid()
    requires t.n2 in Image(Shown(p0, catchEdges), p).nodes && x in Image(Shown(p0, catchEdges), p).preds[t.n2]
    ensures x == t.n1 || x == t.n2
  {
    hide *;
    ImageEdge(Shown(p0, catchEdges), p, catchEdges, x, t.n2);
    if x != t.n2 { ImageEdgeIs(p0, p, catchEdges, x, t.n2); }
    CleanSecond(p, t, x);
  }

  lemma CleanSecond(p: Prog, t: Step, x: NodeId)
    requires Chosen(p, t) && Clean(p, t)
    ensures x in p.sucs && t.n2 in p.sucs[x] ==> x == t.n1
    ensures p.IsBranch(t.n2) && p.entry != t.n2
  {
  }

  /** A node that is come to from one node only has this for immediate dominator. */
  lemma {:induction false} OnlyOver(f: Flow, n1: NodeId, n2: NodeId, p: seq<NodeId>)
    requires f.Valid() && n2 in f.nodes && f.entry != n2 && f.IsPath(p) && p[0] == f.entry && p[|p| - 1] == n2
    requires forall x :: x in f.preds[n2] ==> x == n1 || x == n2
    ensures n1 in p
    decreases |p|
  {
    if |p| > 1 {
      LastStep(f, p);
      PathPart(f, p, |p| - 1);
      if p[|p| - 2] == n2 { OnlyOver(f, n1, n2, p[..|p| - 1]); }
    }
  }

  lemma OnlyPredIsIdom(f: Flow, n1: NodeId, n2: NodeId)
    requires f.Valid() && n1 != n2 && n2 in f.nodes && f.entry != n2 && n1 in f.preds[n2]
    requires forall x :: x in f.preds[n2] ==> x == n1 || x == n2
    ensures IsIdom(f, n1, n2)
  {
    forall p | f.IsPath(p) && p[0] == f.entry && p[|p| - 1] == n2
      ensures n1 in p
    {
      OnlyOver(f, n1, n2, p);
    }
    forall e | e != n2 && Dominates(f, e, n2)
      ensures Dominates(f, e, n1)
    {
      DominatesBefore(f, e, n1, n2);
    }
  }

  /** The map knows it. */
  lemma PartnerTold(f: Flow, dom: Doms, n1: NodeId, n2: NodeId)
    requires f.Valid() && TellsIdoms(f, dom) && n1 in dom && n1 != n2 && n2 in f.nodes && f.entry != n2
    requires n1 in f.preds[n2] && forall x :: x in f.preds[n2] ==> x == n1 || x == n2
    ensures n2 in dom && dom[n2] == Some(n1)
  {
    hide TellsIdoms, IsIdom, Flow.Reachable;
    MapIs(f, dom, n1);
    MapIs(f, dom, n2);
    ReachStep(f, n1, n2);
    OnlyPredIsIdom(f, n1, n2);
    IdomIsUnique(f, dom[n2].value, n1, n2);
  }

  lemma PartnerHere(p0: Prog, p: Prog, t: Step, catchEdges: Table, dom: Doms)
    requires Stems(p0, p) && NormalKept(p0, p) && p0.Valid() && CatchIn(p0, catchEdges) && HeadsPlain(p0, catchEdges)
    requires Reflects(Shown(p0, catchEdges), p, catchEdges) && Chosen(p, t) && Clean(p, t) && p.Wired()
    requires Shown(p0, catchEdges).Valid() && TellsIdoms(Image(Shown(p0, catchEdges), p), dom) && t.n1 in dom
    ensures t.n2 in dom && dom[t.n2] == Some(t.n1)
  {
    hide *;
    var f := Shown(p0, catchEdges);
    ReflectsIs(f, p, catchEdges);
    ImageValid(f, p, catchEdges);
    ChosenPair(p, t);
    CleanSecond(p, t, t.n1);
    FirstLeads(p, t);
    ImageEdge(f, p, catchEdges, t.n1, t.n2);
    forall x | x in Image(f, p).preds[t.n2]
      ensures x == t.n1 || x == t.n2
    {
      SecondHasOnePred(p0, p, t, catchEdges, x);
    }
    PartnerTold(Image(f, p), dom, t.n1, t.n2);
  }

  lemma FirstLeads(p: Prog, t: Step)
    requires Chosen(p, t) && p.Wired()
    ensures t.n1 in p.sucs && t.n2 in p.sucs[t.n1]
  {
    assert p.WiredAt(t.n1);
  }

  /** In a clean run absorbed blocks have their partners for immediate dominators. */
  lemma {:induction false} CleanIsPartnered(p0: Prog, steps: seq<Step>, catchEdges: Table, idom: Doms)
    requires Legal(p0, steps) && AllClean(p0, steps) && p0.Valid() && p0.Wired() && p0.nodeMap == map[]
    requires CatchIn(p0, catchEdges) && HeadsPlain(p0, catchEdges)
    requires TellsIdoms(Shown(p0, catchEdges), idom) && FirstsKnown(idom, steps)
    ensures Partnered(idom, steps)
    decreases |steps|
  {
    hide Chosen, Clean, Result, TellsIdoms, Shown, Image, Reflects, Stems, NormalKept, CatchIn, HeadsPlain, Prog.Wired;
    if steps != [] {
      var rest, t := steps[..|steps| - 1], steps[|steps| - 1];
      CleanIsPartnered(p0, rest, catchEdges, idom);
      ImageTells(p0, rest, catchEdges, idom);
      CleanRunKeeps(p0, rest);
      ReflectsIs(Shown(p0, catchEdges), End(p0, rest), catchEdges);
      PartnerHere(p0, End(p0, rest), t, catchEdges, DomsAfter(idom, rest));
    }
  }

  /** `h` was a handler of a block that was fused. */
  ghost predicate HandlesFused(p: Prog, catchEdges: Table, h: NodeId) {
    exists a :: a in p.nodeMap && Edge(catchEdges, a, h)
  }

  lemma LoserHandles(p0: Prog, p: Prog, catchEdges: Table, h: NodeId)
    requires Stems(p0, p) && NormalKept(p0, p) && p0.Valid() && CatchIn(p0, catchEdges) && HeadsPlain(p0, catchEdges)
    requires Reflects(Shown(p0, catchEdges), p, catchEdges) && Shown(p0, catchEdges).Valid()
    requires Within(Shown(p, catchEdges), Image(Shown(p0, catchEdges), p))
    requires Loses(Image(Shown(p0, catchEdges), p), Shown(p, catchEdges), h)
    ensures HandlesFused(p, catchEdges, h)
  {
    var f, g := Shown(p0, catchEdges), Shown(p, catchEdges);
    var u :| u in Image(f, p).preds[h] && u !in g.preds[h] && u != h;
    hide Image, Shown, Stems, NormalKept, Reflects, Prog.Valid, CatchIn, HeadsPlain;
    ReflectsIs(f, p, catchEdges);
    ImageValid(f, p, catchEdges);
    ShownIs(p, catchEdges);
    ImageEdge(f, p, catchEdges, u, h);
    ImageEdgeIs(p0, p, catchEdges, u, h);
  }

  /** After a clean run the map is right if and only if it is at the handlers of fused blocks.
      Where no fused block had one it is right. */
  lemma CleanRunTells(p0: Prog, steps: seq<Step>, catchEdges: Table, idom: Doms)
    requires Legal(p0, steps) && AllClean(p0, steps) && p0.Valid() && p0.Wired() && p0.nodeMap == map[]
    requires CatchIn(p0, catchEdges) && HeadsPlain(p0, catchEdges)
    requires TellsIdoms(Shown(p0, catchEdges), idom) && FirstsKnown(idom, steps)
    ensures var p, dom := End(p0, steps), DomsAfter(idom, steps);
      TellsIdoms(Shown(p, catchEdges), dom) <==>
      forall h :: h in dom && HandlesFused(p, catchEdges, h) ==> StandsAt(Shown(p, catchEdges), dom, h)
  {
    hide *;
    var f, p, dom := Shown(p0, catchEdges), End(p0, steps), DomsAfter(idom, steps);
    var g := Shown(p, catchEdges);
    CleanIsPartnered(p0, steps, catchEdges, idom);
    ImageTells(p0, steps, catchEdges, idom);
    RunTells(p0, steps, catchEdges, idom);
    CleanRunKeeps(p0, steps);
    if TellsIdoms(g, dom) {
      forall h | h in dom
        ensures StandsAt(g, dom, h)
      {
        MapIs(g, dom, h);
        StandsIf(g, dom, h);
      }
    } else if forall h :: h in dom && HandlesFused(p, catchEdges, h) ==> StandsAt(g, dom, h) {
      forall h | h in dom && Loses(Image(f, p), g, h)
        ensures StandsAt(g, dom, h)
      {
        LoserHandles(p0, p, catchEdges, h);
      }
      LosersBy(Image(f, p), g, dom);
    }
  }

  lemma LosersBy(f: Flow, g: Flow, dom: Doms)
    requires Within(g, f) && forall h :: h in dom && Loses(f, g, h) ==> StandsAt(g, dom, h)
    ensures LosersStand(f, g, dom)
  {
  }

  /** A fusion whose second block is the entry always spoils the map: the new entry keeps the
      immediate dominator that the first block had. */
  lemma EntrySecondSpoils(p: Prog, t: Step, catchEdges: Table, dom: Doms)
    requires Chosen(p, t) && p.entry == t.n2 && TellsIdoms(Shown(p, catchEdges), dom) && t.n1 in dom
    ensures !TellsIdoms(Shown(Result(p, t), catchEdges), DrawnMap(dom, t.n1, t.n2, t.m))
  {
    hide *;
    ChosenPair(p, t);
    ShownIs(p, catchEdges) by { ChosenValid(p, t); }
    ResultValid(p, t);
    ShownIs(Result(p, t), catchEdges);
    ResultEntry(p, t);
    RenameIs(t, p.entry);
    MapIs(Shown(p, catchEdges), dom, t.n1);
    DrawnKeys(dom, t.n1, t.n2, t.m);
    BackIs(t.n1, t.m, t.m);
    var dom' := DrawnMap(dom, t.n1, t.n2, t.m);
    if TellsIdoms(Shown(Result(p, t), catchEdges), dom') {
      MapIs(Shown(Result(p, t), catchEdges), dom', t.m);
    }
  }

  lemma ChosenValid(p: Prog, t: Step)
    requires Chosen(p, t)
    ensures p.Valid()
  {
  }

  /** What a program is to be like, and its map, for its clean runs to be decided. */
  ghost predicate WellTold(p: Prog, catchEdges: Table, idom: Doms) {
    && p.Valid() && p.Wired() && p.nodeMap == map[] && CatchIn(p, catchEdges) && HeadsPlain(p, catchEdges)
    && TellsIdoms(Shown(p, catchEdges), idom)
  }

  /** Exactly when the map is right after a run: if absorbed blocks had their partners for
      immediate dominators, when it is at each block that lost an edge; after a clean run, when
      it is at each handler of a fused block. */
  ghost predicate MapLaw(p0: Prog, steps: seq<Step>, catchEdges: Table, idom: Doms)
    requires Legal(p0, steps)
  {
    var p, dom := End(p0, steps), DomsAfter(idom, steps);
    var f, g := Shown(p0, catchEdges), Shown(p, catchEdges);
    && (TellsIdoms(f, idom) && Partnered(idom, steps) ==>
          f.Valid() && Within(g, Image(f, p)) && (TellsIdoms(g, dom) <==> LosersStand(Image(f, p), g, dom)))
    && (WellTold(p0, catchEdges, idom) && AllClean(p0, steps) ==>
          (TellsIdoms(g, dom) <==> forall h :: h in dom && HandlesFused(p, catchEdges, h) ==> StandsAt(g, dom, h)))
  }

  lemma MapLawHolds(p0: Prog, steps: seq<Step>, catchEdges: Table, idom: Doms)
    requires Legal(p0, steps) && p0.Valid() && p0.nodeMap == map[] && CatchIn(p0, catchEdges)
    requires WellTold(p0, catchEdges, idom) && AllClean(p0, steps) ==> FirstsKnown(idom, steps)
    ensures MapLaw(p0, steps, catchEdges, idom)
  {
    hide TellsIdoms, Partnered, LosersStand, StandsAt, HandlesFused, Shown, Image, AllClean, Prog.Valid, Prog.Wired,
      CatchIn, HeadsPlain, FirstsKnown, Legal, End, Within;
    if TellsIdoms(Shown(p0, catchEdges), idom) && Partnered(idom, steps) {
      RunTells(p0, steps, catchEdges, idom);
    }
    if WellTold(p0, catchEdges, idom) && AllClean(p0, steps) {
      CleanRunTells(p0, steps, catchEdges, idom);
    }
  }

  /** After a clean run every block that is reached has an entry. */
  lemma ReachedKnown(p0: Prog, steps: seq<Step>, catchEdges: Table, idom: Doms, x: NodeId)
    requires Legal(p0, steps) && AllClean(p0, steps) && WellTold(p0, catchEdges, idom) && FirstsKnown(idom, steps)
    requires x in End(p0, steps).nodes && Shown(End(p0, steps), catchEdges).Reachable(x)
    ensures x in DomsAfter(idom, steps)
  {
    hide AllClean, Prog.Wired, CatchIn, HeadsPlain, FirstsKnown, Legal, End, Within, TellsIdoms, Shown, Image, Reflects,
      Flow.Reachable, Prog.Valid;
    var f, p := Shown(p0, catchEdges), End(p0, steps);
    CleanIsPartnered(p0, steps, catchEdges, idom);
    ImageTells(p0, steps, catchEdges, idom);
    ShownWithin(f, p, catchEdges);
    ImageValid(f, p, catchEdges);
    WithinReach(Image(f, p), Shown(p, catchEdges), x);
    MapIs(Image(f, p), DomsAfter(idom, steps), x);
  }

  lemma KnownMore(idom: Doms, steps: seq<Step>, t: Step)
    requires FirstsKnown(idom, steps) && t.n1 in DomsAfter(idom, steps)
    ensures FirstsKnown(idom, steps + [t])
  {
    assert (steps + [t])[..|steps|] == steps;
  }

  /** One fusion further. */
  lemma DomsStep(p: Prog, t: Step, idom: Doms, idom0: Doms, steps: seq<Step>)
    requires Chosen(p, t) && Updated(idom, p.nodeMap) == DomsAfter(idom0, steps)
    ensures Updated(MovedDoms(idom, t.n1, t.n2, t.m), Result(p, t).nodeMap) == DomsAfter(idom0, steps + [t])
  {
    hide *;
    ChosenPair(p, t);
    ResultMap(p, t);
    MovedIsDrawn(idom, p.nodeMap, t.n1, t.n2, t.m);
    DomsMore(idom0, steps, t);
  }

  lemma ResultMap(p: Prog, t: Step)
    requires Chosen(p, t)
    ensures Result(p, t).nodeMap == Moved(p.nodeMap, t.n1, t.n2, t.m)
  {
    MergeAt(p, t, t.m);
  }

  /** If the run so far is clean, each of its first blocks had an entry. */
  ghost predicate Told(p0: Prog, steps: seq<Step>, catchEdges: Table, idom: Doms) {
    Legal(p0, steps) && (WellTold(p0, catchEdges, idom) && AllClean(p0, steps) ==> FirstsKnown(idom, steps))
  }

  /** And so have those that are still to be looked at. */
  ghost predicate AheadKnown(p0: Prog, steps: seq<Step>, catchEdges: Table, idom: Doms, ahead: set<NodeId>) {
    Legal(p0, steps) && (WellTold(p0, catchEdges, idom) && AllClean(p0, steps) ==> ahead <= DomsAfter(idom, steps).Keys)
  }

  lemma ToldNone(p0: Prog, catchEdges: Table, idom: Doms)
    ensures Told(p0, [], catchEdges, idom) && DomsAfter(idom, []) == idom
  {
  }

  lemma ToldMore(p0: Prog, steps: seq<Step>, catchEdges: Table, idom: Doms, t: Step, ahead: set<NodeId>)
    requires Told(p0, steps, catchEdges, idom) && AheadKnown(p0, steps, catchEdges, idom, ahead)
    requires Chosen(End(p0, steps), t) && t.n1 in ahead
    ensures Told(p0, steps + [t], catchEdges, idom)
    ensures AheadKnown(p0, steps + [t], catchEdges, idom, ahead - {t.n1, t.n2})
  {
    hide Chosen, WellTold, FirstsKnown, DomsAfter, AllClean, Legal, End, Clean, DrawnMap;
    RunMore(p0, steps, t);
    if WellTold(p0, catchEdges, idom) && AllClean(p0, steps) {
      KnownMore(idom, steps, t);
      DomsMore(idom, steps, t);
      DrawnKeys(DomsAfter(idom, steps), t.n1, t.n2, t.m);
    }
  }

  lemma AheadLess(p0: Prog, steps: seq<Step>, catchEdges: Table, idom: Doms, ahead: set<NodeId>, less: set<NodeId>)
    requires AheadKnown(p0, steps, catchEdges, idom, ahead) && less <= ahead
    ensures AheadKnown(p0, steps, catchEdges, idom, less)
  {
  }

  /** All that is reached is known when a sweep begins. */
  lemma AheadStarts(p0: Prog, steps: seq<Step>, catchEdges: Table, idom: Doms, ahead: set<NodeId>)
    requires Told(p0, steps, catchEdges, idom)
    requires forall x :: x in ahead ==> x in End(p0, steps).nodes && Shown(End(p0, steps), catchEdges).Reachable(x)
    ensures AheadKnown(p0, steps, catchEdges, idom, ahead)
  {
    hide Shown, Flow.Reachable, WellTold, AllClean, Legal, FirstsKnown, End;
    if WellTold(p0, catchEdges, idom) && AllClean(p0, steps) {
      forall x | x in ahead
        ensures x in DomsAfter(idom, steps)
      {
        ReachedKnown(p0, steps, catchEdges, idom, x);
      }
    }
  }

  lemma ToldEnds(p0: Prog, steps: seq<Step>, catchEdges: Table, idom: Doms)
    requires Told(p0, steps, catchEdges, idom) && p0.Valid() && p0.nodeMap == map[] && CatchIn(p0, catchEdges)
    ensures Legal(p0, steps) && MapLaw(p0, steps, catchEdges, idom)
  {
    MapLawHolds(p0, steps, catchEdges, idom);
  }

  /** `try { if (c0 && c1) a(); } catch { h }`, where the first test and `a` are guarded. */
  ghost function GuardedPair(): Prog {
    Prog(0, {0, 1, 2, 3, 5},
         map[0 := {1, 3}, 1 := {2, 3}, 2 := {}, 3 := {}, 5 := {}],
         map[0 := Branch(Test(0, Ne), 1, 3), 1 := Branch(Test(1, Ne), 2, 3), 2 := Other([]), 3 := Other([]),
             5 := Other([])],
         {5}, map[])
  }

  const GUARDS: Table := map[0 := [5], 2 := [5]]

  const FUSE_BOTH := Step(0, 1, 6, true, false)

  lemma GuardedPairShape()
    ensures var p := GuardedPair();
      && p.Valid() && p.Wired() && Callers(p, 1) == {0} && Chosen(p, FUSE_BOTH) && Clean(p, FUSE_BOTH)
  {
    var p := GuardedPair();
    assert p.Valid();
    assert p.WiredAt(0) && p.WiredAt(1) && p.WiredAt(2) && p.WiredAt(3) && p.WiredAt(5);
    assert Callers(p, 1) == {0};
  }

  /** Before, the handler is come to from the entry at once. */
  lemma HandlerBefore(dom: Doms)
    requires TellsIdoms(Shown(GuardedPair(), GUARDS), dom)
    ensures 5 in dom && dom[5] == Some(0) && 0 in dom
  {
    var f := Shown(GuardedPair(), GUARDS);
    hide TellsIdoms;
    assert 0 in f.preds[5];
    assert f.IsPath([0]) && f.IsPath([0, 5]);
    MapIs(f, dom, 5);
    MapIs(f, dom, 0);
    assert dom[5].value in [0, 5];
  }

  lemma GuardedPairEdges()
    ensures var p := GuardedPair();
      p.nodes == {0, 1, 2, 3, 5} && p.entry == 0 && forall x :: x in p.sucs ==> 5 !in p.sucs[x]
    ensures forall x :: Edge(GUARDS, x, 5) ==> x == 0 || x == 2
    ensures FUSE_BOTH == Step(0, 1, 6, true, false)
  {
  }

  /** A node that is come to over one other only does not have the entry for its own. */
  lemma BehindAnother(g: Flow, a: NodeId, h: NodeId)
    requires g.Valid() && h in g.nodes && h != g.entry && a != g.entry && a != h && forall x :: x in g.preds[h] ==>
      x == a
    ensures !IsIdom(g, g.entry, h)
  {
    assert g.IsPath([g.entry]);
    if IsIdom(g, g.entry, h) {
      forall q | g.IsPath(q) && q[0] == g.entry && q[|q| - 1] == h
        ensures a in q
      {
        LastStep(g, q);
      }
      IdomOver(g, a, g.entry, h);
      OnlyItself(g, a);
    }
  }

  /** Afterwards, only behind the guarded block. */
  lemma HandlerAfter()
    ensures Chosen(GuardedPair(), FUSE_BOTH)
    ensures var g := Shown(Result(GuardedPair(), FUSE_BOTH), GUARDS); g.entry == 6 && !IsIdom(g, 6, 5)
  {
    hide *;
    var p, t := GuardedPair(), FUSE_BOTH;
    GuardedPairShape();
    GuardedPairEdges();
    ResultValid(p, t);
    ResultEntry(p, t);
    RenameIs(t, 0);
    MergeNodesOf(p, t);
    ShownIs(Result(p, t), GUARDS);
    forall x | x in Shown(Result(p, t), GUARDS).preds[5]
      ensures x == 2
    {
      if 5 in Result(p, t).sucs[x] {
        var x0, z0 := EdgeBefore(p, t, x, 5);
        RenameIs(t, z0);
      }
    }
    BehindAnother(Shown(Result(p, t), GUARDS), 2, 5);
  }

  /** One clean fusion after which the map is wrong: it still names the fused block for the
      handler of the test that was fused. */
  lemma GuardedPairSpoils(dom: Doms)
    requires TellsIdoms(Shown(GuardedPair(), GUARDS), dom)
    ensures Legal(GuardedPair(), [FUSE_BOTH]) && AllClean(GuardedPair(), [FUSE_BOTH])
    ensures !TellsIdoms(Shown(End(GuardedPair(), [FUSE_BOTH]), GUARDS), DomsAfter(dom, [FUSE_BOTH]))
  {
    hide *;
    var p, t := GuardedPair(), FUSE_BOTH;
    GuardedPairShape();
    GuardedPairEdges();
    OneStep(p, t, dom);
    HandlerBefore(dom);
    HandlerAfter();
    DrawnKeys(dom, 0, 1, 6);
    BackIs(0, 6, 5);
    RenamedIs(0, 1, 6, 0);
    var dom' := DrawnMap(dom, 0, 1, 6);
    var g := Shown(Result(p, t), GUARDS);
    assert dom'[5] == RenamedTo(dom[5], 0, 1, 6) == Some(6);
    if TellsIdoms(g, dom') { MapIs(g, dom', 5); }
  }

  lemma OneStep(p: Prog, t: Step, dom: Doms)
    requires Chosen(p, t) && Clean(p, t)
    ensures Legal(p, [t]) && AllClean(p, [t]) && End(p, [t]) == Result(p, t)
    ensures DomsAfter(dom, [t]) == DrawnMap(dom, t.n1, t.n2, t.m)
  {
    hide Chosen, Clean, Result, DrawnMap;
    assert [t][..0] == [];
    assert End(p, []) == p;
    assert DomsAfter(dom, []) == dom;
  }
}
