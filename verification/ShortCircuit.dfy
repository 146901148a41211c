/** The short-circuit pass: fuses pairs of conditional blocks of a graph, in place, until
    a whole sweep fuses none. */
module ShortCircuit {
  import opened Options
  import opened Graphs
  import opened Conditions
  import opened Dominators
  import opened DominatorChanges
  import opened Fusion
  import opened FusionRuns
  import opened CleanRuns
  import opened FusionDominators

  /** The graph with its block objects, the map of removed blocks, the map of immediate
      dominators and the blocks already dealt with in the current sweep. */
  class Pass {
    const graph: Graph
    var blocks: map<NodeId, Block>
    var nodeMap: map<NodeId, NodeId>
    var idom: Doms
    var done: set<NodeId>
    var nextId: NodeId

    ghost predicate Valid()
      reads this, graph
    {
      && graph.Valid() && graph.entry.Some?
      && (forall n :: n in graph.nodes ==> n in blocks && n < nextId)
      && (forall k :: k in nodeMap ==> k !in graph.nodes && k < nextId && nodeMap[k] in graph.nodes)
      && (forall n :: n in graph.inCatch ==> n < nextId)
    }

    ghost function ToStore(): Store
      requires graph.entry.Some?
      reads this, graph
    {
      Store(graph.entry.value, graph.nodes, graph.edges, blocks, graph.inCatch, nodeMap)
    }

    /** The program the pass has produced so far. */
    ghost function ToProg(): Prog
      requires Valid()
      reads this, graph
    {
      ToStore().ToProg()
    }

    constructor (g: Graph, blocks: map<NodeId, Block>, idom: Doms, nextId: NodeId)
      requires g.Valid() && g.entry.Some?
      requires forall n :: n in g.nodes ==> n in blocks && n < nextId
      requires forall n :: n in g.inCatch ==> n < nextId
      ensures Valid() && graph == g && this.blocks == blocks && nodeMap == map[] && this.idom == idom
    {
      graph, this.blocks, nodeMap, this.idom, done, this.nextId := g, blocks, map[], idom, {}, nextId;
    }

    lemma ProgValid()
      requires Valid()
      ensures ToProg().Valid()
    {
      assert forall n, y :: Edge(graph.edges, n, y) ==> y in graph.nodes;
      hide Mirror, Distinct;
      forall n | n in graph.nodes
        ensures ToProg().sucs[n] <= ToProg().nodes
      {
        assert forall y :: y in ToProg().sucs[n] ==> Edge(graph.edges, n, y);
      }
    }

    /** Replaces `node1` and `node2` by one block that carries both conditions. Exception
        edges out of either and into either go and are not put back: what caught an exception
        in one of them does not catch one in the new block, and a handler that starts with
        one of them is no longer come to. */
    method MergeShortCircuit(node1: NodeId, node2: NodeId, fused: Block) returns (m: NodeId)
      requires Valid() && node1 in graph.nodes && node2 in graph.nodes && node1 != node2
      modifies this, graph
      ensures Valid() && m == old(nextId)
      ensures |graph.nodes| == old(|graph.nodes|) - 1
      ensures old(ToProg().Valid()) && ToProg() == Merge(old(ToProg()), node1, node2, m, fused)
      ensures done == old(done) + {node1, node2} && idom == MovedDoms(old(idom), node1, node2, m)
      ensures Detached(old(graph.catchEdges), graph.catchEdges, node1, node2)
      ensures forall x :: !Edge(graph.catchEdges, m, x) && !Edge(graph.catchEdges, x, m)
    {
      hide *;
      ProgValid();
      StoreParts();
      ghost var s := ToStore();
      NewHasNoCatch(nextId);
      ghost var catchEdges := graph.catchEdges;
      var lpreds, ldests := Detach(node1, node2);
      ghost var edges1 := graph.edges;
      var isEntry := graph.entry == Some(node1) || graph.entry == Some(node2);
      CallersLive(s, lpreds, ldests, node1, node2, nextId);
      m := Install(node1, node2, fused);
      LinkCallers(lpreds, m);
      ghost var edges2 := graph.edges;
      LinkTargets(m, ldests);
      if isEntry {
        graph.SetEntry(m);
      }
      assert graph.entry.Some?;
      StoreIs();
      StepsMerge(s, ToStore(), node1, node2, m, fused, edges1, edges2, lpreds, ldests);
      MergedProg(s, ToStore(), node1, node2, m, fused);
      MergedValid(s, node1, node2, m, fused);
      DetachedKeepsNone(catchEdges, graph.catchEdges, node1, node2, m);
    }

    /** No exception edge leads from or to an id not in use. */
    lemma NewHasNoCatch(m: NodeId)
      requires Valid() && m == nextId
      ensures forall x :: !Edge(graph.catchEdges, m, x) && !Edge(graph.catchEdges, x, m)
    {
      assert forall a, h :: Edge(graph.catchEdges, a, h) ==> a in graph.nodes && h in graph.nodes;
    }

    /** Creates the fused block and records what it replaces. */
    method Install(node1: NodeId, node2: NodeId, fused: Block) returns (m: NodeId)
      requires graph.Tables() && nextId !in graph.nodes
      modifies this, graph`nodes, graph`inCatch
      ensures graph.Tables() && m == old(nextId) && nextId == m + 1
      ensures graph.nodes == old(graph.nodes) + [m] && blocks == old(blocks)[m := fused]
      ensures graph.inCatch == if node1 in old(graph.inCatch) then old(graph.inCatch) + {m} else old(graph.inCatch)
      ensures nodeMap == Moved(old(nodeMap), node1, node2, m) && done == old(done) + {node1, node2}
      ensures idom == MovedDoms(old(idom), node1, node2, m)
    {
      hide *;
      MovedDomsIs(idom, node1, node2, nextId);
      done := done + {node1, node2};
      m := nextId;
      nextId := nextId + 1;
      graph.AddNode(m);
      blocks := blocks[m := fused];
      nodeMap := Moved(nodeMap, node1, node2, m);
      idom := idom[m := if node1 in idom then idom[node1] else None];
      idom := idom - {node1, node2};
      if node1 in graph.inCatch {
        graph.MarkInCatch(m);
      }
    }

    lemma StoreIs()
      requires graph.entry.Some?
      ensures ToStore() == Store(graph.entry.value, graph.nodes, graph.edges, blocks, graph.inCatch, nodeMap)
    {
    }

    lemma MergedValid(s: Store, n1: NodeId, n2: NodeId, m: NodeId, fused: Block)
      requires s.Closed() && StoreBelow(s, m) && n1 in s.nodes && n2 in s.nodes
      requires graph.entry.Some? && graph.Tables() && Merged(s, ToStore(), n1, n2, m, fused) && nextId == m + 1
      ensures Valid() && ToProg() == ToStore().ToProg()
    {
      assert graph.entry.value in graph.nodes;
    }

    lemma StoreParts()
      requires Valid()
      ensures ToProg() == ToStore().ToProg()
      ensures graph.Tables() && graph.entry.Some? && ToStore().Closed() && StoreBelow(ToStore(), nextId)
      ensures ToStore() == Store(graph.entry.value, graph.nodes, graph.edges, blocks, graph.inCatch, nodeMap)
    {
    }

    /** Redirects the callers of the removed blocks to `m`. */
    method LinkCallers(preds: seq<NodeId>, m: NodeId)
      requires graph.Tables() && m in graph.nodes
      requires Distinct(preds) && forall q :: q in preds ==> q in graph.nodes && q in blocks && q !in nodeMap
      modifies this`blocks, graph`edges, graph`reverseEdges
      ensures graph.Tables()
      ensures Linked(old(graph.edges), graph.edges, preds, m)
      ensures Rewritten(old(blocks), blocks, preds, nodeMap)
    {
      hide Graph.Tables;
      assert preds[..|preds|] == preds;
      for i := 0 to |preds|
        invariant graph.Tables()
        invariant Linked(old(graph.edges), graph.edges, preds[..i], m)
        invariant Rewritten(old(blocks), blocks, preds[..i], nodeMap)
      {
        blocks := blocks[preds[i] := Redirect(blocks[preds[i]], nodeMap)];
        graph.AddEdge(Resolve(nodeMap, preds[i]), m);
      }
    }

    /** Gives `m` the successors of the removed blocks. */
    method LinkTargets(m: NodeId, targets: seq<NodeId>)
      requires graph.Tables() && m in graph.nodes
      requires forall y :: y in targets ==> y in graph.nodes && y !in nodeMap
      modifies graph`edges, graph`reverseEdges
      ensures graph.Tables()
      ensures LinkedFrom(old(graph.edges), graph.edges, m, targets)
    {
      hide Graph.Tables;
      assert targets[..|targets|] == targets;
      for i := 0 to |targets|
        invariant graph.Tables()
        invariant LinkedFrom(old(graph.edges), graph.edges, m, targets[..i])
      {
        graph.AddEdge(m, Resolve(nodeMap, targets[i]));
      }
    }

    /** Takes both blocks out of the graph and returns who led to them, catch handlers
        left out, and where they led. */
    method Detach(node1: NodeId, node2: NodeId) returns (preds: seq<NodeId>, targets: seq<NodeId>)
      requires graph.Tables() && node1 in graph.nodes && node2 in graph.nodes && node1 != node2
      modifies graph`nodes, graph`rpo, graph`edges, graph`reverseEdges, graph`catchEdges, graph`reverseCatchEdges
      ensures graph.Tables() && |graph.nodes| == old(|graph.nodes|) - 2
      ensures forall n :: n in graph.nodes <==> n in old(graph.nodes) && n != node1 && n != node2
      ensures Detached(old(graph.edges), graph.edges, node1, node2)
      ensures Detached(old(graph.catchEdges), graph.catchEdges, node1, node2)
      ensures Distinct(preds) && forall q :: q in preds <==> Caller(old(graph.edges), graph.inCatch, node1, node2, q)
      ensures forall y :: y in targets <==> Target(old(graph.edges), node1, node2, y)
    {
      hide *;
      preds, targets := graph.Preds(node1), graph.Sucs(node1);
      ghost var preds1, targets1, edges, nodes := preds, targets, graph.edges, graph.nodes;
      ghost var catchEdges := graph.catchEdges;
      PredsDistinct(node1);
      graph.RemoveNode(node1);
      ghost var preds2, targets2, edges1 := graph.Preds(node2), graph.Sucs(node2), graph.edges;
      ghost var catchEdges1 := graph.catchEdges;
      PredsDistinct(node2);
      preds, targets := Union(preds, graph.Preds(node2)), Union(targets, graph.Sucs(node2));
      graph.RemoveNode(node2);
      preds, targets := Outside(preds, {node1, node2}), Outside(targets, {node1, node2});
      DroppedBoth(nodes, node1, node2);
      DetachedTwice(catchEdges, catchEdges1, graph.catchEdges, node1, node2);
      DetachedBoth(edges, edges1, graph.edges, graph.inCatch, node1, node2, preds1, preds2, targets1, targets2);
    }

    lemma PredsDistinct(n: NodeId)
      requires graph.Tables()
      ensures Distinct(graph.Preds(n)) && Distinct(graph.nodes)
      ensures forall q :: q in graph.Preds(n) <==> Edge(graph.edges, q, n) && q !in graph.inCatch
      ensures graph.Sucs(n) == Get(graph.edges, n)
    {
      assert forall q :: Edge(graph.reverseEdges, n, q) <==> Edge(graph.edges, q, n);
      assert Distinct(Get(graph.reverseEdges, n));
      OutsideDistinct(Get(graph.reverseEdges, n), graph.inCatch);
    }

    ghost predicate IsBranch(n: NodeId)
      reads this
    {
      n in blocks && blocks[n].Branch?
    }

    lemma ChosenBy(t: Step)
      requires Valid() && t.n1 in graph.nodes && t.n2 in blocks && t.n1 != t.n2 && t.m == nextId
      requires blocks[t.n1].Branch? && blocks[t.n2].Branch? && |graph.Preds(t.n2)| == 1
      requires Fusable(blocks[t.n1], t.n2, blocks[t.n2], t.isAnd, t.isNot)
      requires t.n1 != blocks[t.n1].onTrue && t.n1 != blocks[t.n1].onFalse
      requires t.n1 != blocks[t.n2].onTrue && t.n1 != blocks[t.n2].onFalse
      ensures Chosen(ToProg(), t) && t.n2 in graph.nodes
    {
      hide Merge, Fused, Moved, Callers, Mirror, Distinct;
      ProgValid();
      OneCaller(t.n2);
    }

    /** The predecessors the pass counts are the callers of the program. */
    lemma CountsCallers(n: NodeId)
      requires Valid() && ToProg().Valid()
      ensures n in graph.nodes ==> |graph.Preds(n)| == |Callers(ToProg(), n)|
      ensures n !in graph.nodes ==> graph.Preds(n) == []
    {
      PredsDistinct(n);
      assert forall a, b :: Edge(graph.edges, a, b) ==> a in graph.nodes && b in graph.nodes;
      hide Mirror, Distinct, Prog.Valid, Graph.Tables;
      forall x ensures x in Callers(ToProg(), n) <==> x in graph.Preds(n) { }
      CountDistinct(graph.Preds(n), Callers(ToProg(), n));
      if n !in graph.nodes { CountDistinct(graph.Preds(n), {}); }
    }

    lemma OneCaller(n: NodeId)
      requires Valid() && ToProg().Valid() && |graph.Preds(n)| == 1
      ensures |Callers(ToProg(), n)| == 1 && n in graph.nodes
    {
      CountsCallers(n);
    }

    /** The test the pass makes on a branch target. */
    lemma LoneBranchIs(n: NodeId)
      requires Valid() && ToProg().Valid()
      ensures LoneBranch(ToProg(), n) <==> n in blocks && blocks[n].Branch? && |graph.Preds(n)| == 1
    {
      CountsCallers(n);
      hide Callers, Prog.Valid;
    }

    /** `n1` and `n2` are in shape to be fused now. */
    ghost predicate Fits(n1: NodeId, n2: NodeId, isAnd: bool, isNot: bool)
      requires Valid()
      reads this, graph
    {
      && n1 in graph.nodes && n1 in blocks && n2 in blocks && n1 != n2
      && blocks[n1].Branch? && blocks[n2].Branch? && |graph.Preds(n2)| == 1
      && Fusable(blocks[n1], n2, blocks[n2], isAnd, isNot)
      && n1 != blocks[n1].onTrue && n1 != blocks[n1].onFalse
      && n1 != blocks[n2].onTrue && n1 != blocks[n2].onFalse
    }

    lemma FitsBy(n1: NodeId, n2: NodeId, isAnd: bool, isNot: bool)
      requires Valid() && n1 in graph.nodes && n1 in blocks && n2 in blocks
      requires blocks[n1].Branch? && blocks[n2].Branch? && |graph.Preds(n2)| == 1
      requires n1 != blocks[n1].onTrue && n1 != blocks[n1].onFalse
      requires n1 != blocks[n2].onTrue && n1 != blocks[n2].onFalse
      requires if isAnd != isNot then blocks[n1].onTrue == n2 else blocks[n1].onFalse == n2
      requires (if isAnd != isNot then blocks[n1].onFalse else blocks[n1].onTrue) ==
        if isAnd then blocks[n2].onFalse else blocks[n2].onTrue
      ensures Fits(n1, n2, isAnd, isNot)
    {
    }

    lemma FitsParts(n1: NodeId, n2: NodeId, isAnd: bool, isNot: bool)
      requires Valid() && Fits(n1, n2, isAnd, isNot)
      ensures n1 in graph.nodes && n1 in blocks && n2 in blocks && n1 != n2 && blocks[n1].Branch? && blocks[n2].Branch?
      ensures var step := Step(n1, n2, nextId, isAnd, isNot);
              && Chosen(ToProg(), step) && n2 in graph.nodes
              && Result(ToProg(), step) == Merge(ToProg(), n1, n2, nextId, Fused(blocks[n1], blocks[n2], isAnd, isNot))
    {
      hide Merge, Fused;
      ChosenBy(Step(n1, n2, nextId, isAnd, isNot));
    }

    lemma NodesOf()
      requires Valid()
      ensures forall x :: x in graph.nodes <==> x in ToProg().nodes
      ensures forall x :: x in graph.nodes ==> x in blocks
    {
    }

    /** The blocks of the program are the blocks of the pass. */
    lemma RuleIs(n: NodeId)
      requires Valid() && ToProg().Valid() && n in graph.nodes
      ensures ToProg().IsBranch(n) <==> blocks[n].Branch?
      ensures n in ToProg().blocks && ToProg().blocks[n] == blocks[n]
      ensures forall x :: LoneBranch(ToProg(), x) ==>
        x in blocks && x in ToProg().blocks && ToProg().blocks[x] == blocks[x]
      ensures !blocks[n].Branch? || n == blocks[n].onTrue || n == blocks[n].onFalse ==> Rule(ToProg(), n) == None
    {
      hide Callers, Prog.Valid;
    }

    /** Fuses `n` with one of its branch targets exactly when the rule says so, first trying
        the true branch. */
    method Visit(n: NodeId) returns (change: bool, ghost step: Step)
      requires Valid() && n in graph.nodes
      modifies this, graph
      ensures Valid() && old(ToProg()).Valid()
      ensures change <==> Rule(old(ToProg()), n).Some?
      ensures change ==> (var r := Rule(old(ToProg()), n).value; step == Step(n, r.0, old(nextId), r.1, r.2))
      ensures change ==> Chosen(old(ToProg()), step) && ToProg() == Result(old(ToProg()), step)
      ensures change ==> |graph.nodes| == old(|graph.nodes|) - 1
      ensures change ==> Detached(old(graph.catchEdges), graph.catchEdges, step.n1, step.n2)
      ensures idom == if change then MovedDoms(old(idom), step.n1, step.n2, step.m) else old(idom)
      ensures change ==> step.n1 in done && step.n2 in done
      ensures !change ==> ToProg() == old(ToProg()) && unchanged(graph) && done <= old(done) + {n}
      ensures forall x :: x in old(graph.nodes) && x !in graph.nodes ==> x in done
      ensures old(done) <= done
    {
      hide *;
      NodesOf();
      ProgValid();
      RuleIs(n);
      ghost var p := ToProg();
      change, step := false, Step(0, 0, 0, false, false);
      if blocks[n].Branch? && n != blocks[n].onTrue && n != blocks[n].onFalse {
        var thenN, elsN := blocks[n].onTrue, blocks[n].onFalse;
        LoneBranchIs(thenN);
        LoneBranchIs(elsN);
        RuleOf(p, n);
        if thenN in blocks && blocks[thenN].Branch? && |graph.Preds(thenN)| == 1 {
          var t := blocks[thenN];
          ShapeIs(n, thenN, elsN, t, true);
          if n == t.onTrue || n == t.onFalse { return; }
          if t.onFalse == elsN {
            FitsBy(n, thenN, true, false);
            change := true;
            step := Fuse(n, thenN, true, false);
          } else if t.onTrue == elsN {
            FitsBy(n, thenN, false, true);
            change := true;
            step := Fuse(n, thenN, false, true);
          }
        } else if elsN in blocks && blocks[elsN].Branch? && |graph.Preds(elsN)| == 1 {
          var e := blocks[elsN];
          ShapeIs(n, elsN, thenN, e, false);
          if n == e.onFalse || n == e.onTrue { return; }
          if e.onFalse == thenN {
            FitsBy(n, elsN, true, true);
            change := true;
            step := Fuse(n, elsN, true, true);
          } else if e.onTrue == thenN {
            FitsBy(n, elsN, false, false);
            change := true;
            step := Fuse(n, elsN, false, false);
          }
        }
      }
      MarkDone(done + {n});
    }

    method MarkDone(d: set<NodeId>)
      requires Valid()
      modifies this`done
      ensures Valid() && ToProg() == old(ToProg()) && done == d
    {
      done := d;
    }

    /** No reachable block has a pair that the rule would fuse. */
    ghost predicate Settled()
      requires Valid()
      reads this, graph
    {
      forall n :: n in graph.nodes && graph.ToFlow().Reachable(n) ==> Rule(ToProg(), n).None?
    }

    /** One sweep over the blocks in post-order. When it fuses nothing, the pass has
        settled. */
    method Sweep(ghost p0: Prog, ghost before: seq<Step>, ghost catchEdges: Table, ghost idom0: Doms)
      returns (merges: nat, ghost steps: seq<Step>)
      requires Valid() && Ran(p0, before, ToProg()) && CatchCut(catchEdges, graph.catchEdges, ToProg().nodeMap)
      requires Told(p0, before, catchEdges, idom0) && Updated(idom, ToProg().nodeMap) == DomsAfter(idom0, before)
      modifies this, graph
      ensures Valid() && Told(p0, steps, catchEdges, idom0)
      ensures Updated(idom, ToProg().nodeMap) == DomsAfter(idom0, steps)
      ensures Valid() && Ran(p0, steps, ToProg()) && CatchCut(catchEdges, graph.catchEdges, ToProg().nodeMap)
      ensures |graph.nodes| == old(|graph.nodes|) - merges
      ensures merges == 0 ==> Settled()
    {
      hide *;
      merges, steps := 0, before;
      MarkDone({});
      GraphValid();
      var order := graph.PostOrder();
      OrderLive(order);
      OrderKnown(order, p0, before, catchEdges, idom0);
      ghost var start := ToProg();
      ghost var ahead := set x | x in order;
      assert merges == 0 ==> unchanged(graph);
      for i := 0 to |order|
        invariant Valid() && Ran(p0, steps, ToProg())
        invariant CatchCut(catchEdges, graph.catchEdges, ToProg().nodeMap)
        invariant Told(p0, steps, catchEdges, idom0) && AheadKnown(p0, steps, catchEdges, idom0, ahead - done)
        invariant Updated(idom, ToProg().nodeMap) == DomsAfter(idom0, steps)
        invariant |graph.nodes| == old(|graph.nodes|) - merges
        invariant forall x :: x in order && x !in done ==> x in graph.nodes
        invariant merges == 0 ==> unchanged(graph) && ToProg() == start
        invariant merges == 0 ==> forall x :: x in done ==> x in order[..i]
        invariant merges == 0 ==> forall x :: x in order[..i] ==> Rule(start, x).None?
      {
        var n := order[i];
        OrderNext(order, i);
        if n !in done {
          ghost var p, edges, idom1, done1 := ToProg(), graph.catchEdges, idom, done;
          var change;
          ghost var step;
          change, step := Visit(n);
          if change {
            CatchMore(catchEdges, edges, graph.catchEdges, p, step);
            RanIs(p0, steps, p);
            ToldMore(p0, steps, catchEdges, idom0, step, ahead - done1);
            DomsStep(p, step, idom1, idom0, steps);
            RanMore(p0, steps, p, step);
            steps := steps + [step];
            merges := merges + 1;
            AheadLess(p0, steps, catchEdges, idom0, ahead - done1 - {step.n1, step.n2}, ahead - done);
          } else {
            AheadLess(p0, steps, catchEdges, idom0, ahead - done1, ahead - done);
          }
        }
      }
      assert order[..|order|] == order;
      if merges == 0 { SettledBy(order); }
    }

    /** What the traversal finds has entries in the map, if the run so far is clean. */
    lemma OrderKnown(order: seq<NodeId>, p0: Prog, steps: seq<Step>, catchEdges: Table, idom0: Doms)
      requires Valid() && graph.Valid() && graph.entry.Some? && Ran(p0, steps, ToProg())
      requires CatchCut(catchEdges, graph.catchEdges, ToProg().nodeMap) && Told(p0, steps, catchEdges, idom0)
      requires forall n :: n in order <==> n in graph.nodes && graph.ToFlow().Reachable(n)
      ensures AheadKnown(p0, steps, catchEdges, idom0, (set x | x in order) - {})
    {
      hide *;
      RanIs(p0, steps, ToProg());
      NodesOf();
      FlowIsShown(catchEdges);
      AheadStarts(p0, steps, catchEdges, idom0, (set x | x in order) - {});
    }

    /** What the graph shows is what its program does, with the exception edges that are left. */
    lemma FlowIsShown(catchEdges: Table)
      requires Valid() && graph.Valid() && graph.entry.Some?
      requires CatchCut(catchEdges, graph.catchEdges, ToProg().nodeMap)
      ensures graph.ToFlow() == Shown(ToProg(), catchEdges)
    {
      hide *;
      ProgValid();
      NodesOf();
      FlowEntry();
      FlowParts();
      ShownIs(ToProg(), catchEdges);
      forall x, y | y in graph.nodes
        ensures y in graph.ToFlow().preds && y in Shown(ToProg(), catchEdges).preds
        ensures x in graph.ToFlow().preds[y] <==> x in Shown(ToProg(), catchEdges).preds[y]
      {
        FlowEdge(catchEdges, x, y);
      }
      SameFlow(graph.ToFlow(), Shown(ToProg(), catchEdges));
    }

    lemma FlowParts()
      requires Valid() && graph.Valid() && graph.entry.Some?
      ensures var f := graph.ToFlow();
        && f.preds.Keys == f.nodes && (forall y :: y in f.nodes <==> y in graph.nodes)
        && forall x, y :: y in f.nodes ==> (x in f.preds[y] <==> x in graph.AllPreds(y))
    {
      hide Mirror, Distinct, Edge;
    }

    lemma FlowEdge(catchEdges: Table, x: NodeId, y: NodeId)
      requires Valid() && CatchCut(catchEdges, graph.catchEdges, ToProg().nodeMap) && y in graph.nodes
      ensures x in graph.AllPreds(y) <==>
        x in ToProg().nodes && x in ToProg().sucs && (y in ToProg().sucs[x] || Edge(catchEdges, x, y))
    {
      assert Edge(graph.reverseEdges, y, x) <==> Edge(graph.edges, x, y);
      assert Edge(graph.reverseCatchEdges, y, x) <==> Edge(graph.catchEdges, x, y);
      assert Edge(graph.edges, x, y) ==> x in graph.nodes;
      assert Edge(graph.catchEdges, x, y) ==> x in graph.nodes;
    }

    lemma SettledBy(order: seq<NodeId>)
      requires Valid() && graph.entry.Some? && graph.Valid()
      requires forall n :: n in order <==> n in graph.nodes && graph.ToFlow().Reachable(n)
      requires forall x :: x in order ==> Rule(ToProg(), x).None?
      ensures Settled()
    {
    }

    lemma GraphValid()
      requires Valid()
      ensures graph.Valid() && graph.entry.Some?
    {
    }

    lemma OrderLive(order: seq<NodeId>)
      requires Valid() && graph.entry.Some? && graph.Valid()
      requires forall n :: n in order <==> n in graph.nodes && graph.ToFlow().Reachable(n)
      ensures forall n :: n in order ==> n in graph.nodes
    {
    }

    /** The whole pass: a run of fusions that ends where the rule fuses nothing more. It
        carries an iteration cap and reports whether it was hit. Of the exception edges it
        loses exactly those from or to a block that it fused. The map of immediate dominators
        is, once mapped, what renaming at every fusion makes of it, and `MapLaw` says when that
        is right of the graph. */
    method ShortCircuitStruct() returns (bailed: bool, ghost steps: seq<Step>)
      requires Valid() && nodeMap == map[]
      modifies this, graph
      ensures Valid() && !bailed && Settled()
      ensures Ran(old(ToProg()), steps, ToProg())
      ensures Keeps(old(ToProg()), steps, ToProg())
      ensures CatchCut(old(graph.catchEdges), graph.catchEdges, nodeMap)
      ensures Updated(idom, nodeMap) == DomsAfter(old(idom), steps)
      ensures graph.ToFlow() == Shown(ToProg(), old(graph.catchEdges))
      ensures old(graph.ToFlow()) == Shown(old(ToProg()), old(graph.catchEdges))
      ensures MapLaw(old(ToProg()), steps, old(graph.catchEdges), old(idom))
    {
      hide *;
      ghost var p0, catchEdges, idom0 := ToProg(), graph.catchEdges, idom;
      ToldNone(p0, catchEdges, idom0);
      UpdatedByNothing(idom0);
      GraphValid();
      ProgValid();
      CatchInside();
      RanNone(p0);
      NodeMapOf();
      CatchWhole(catchEdges);
      FlowIsShown(catchEdges);
      var n0 := |graph.nodes|;
      var kMaxIters := if n0 * 10 > 1000 then n0 * 10 else 1000;
      var iter := 0;
      var change := true;
      bailed, steps := false, [];
      while change
        invariant Valid() && Ran(p0, steps, ToProg()) && !bailed
        invariant CatchCut(catchEdges, graph.catchEdges, ToProg().nodeMap)
        invariant Told(p0, steps, catchEdges, idom0) && Updated(idom, ToProg().nodeMap) == DomsAfter(idom0, steps)
        invariant if change then iter <= n0 - |graph.nodes| else Settled()
        invariant |graph.nodes| <= n0
        decreases |graph.nodes|, change
      {
        iter := iter + 1;
        if iter > kMaxIters {
          bailed := true;
          break;
        }
        var merges;
        merges, steps := Sweep(p0, steps, catchEdges, idom0);
        change := merges > 0;
        if change {
          Renumber();
        }
      }
      RunKeeps(p0, steps, ToProg());
      NodeMapOf();
      GraphValid();
      FlowIsShown(catchEdges);
      ToldEnds(p0, steps, catchEdges, idom0);
    }

    lemma CatchInside()
      requires Valid()
      ensures CatchIn(ToProg(), graph.catchEdges)
    {
      assert forall a, h :: Edge(graph.catchEdges, a, h) ==> a in graph.nodes && h in graph.nodes;
    }

    /** Maps every entry that names a removed block to the block it became part of. */
    method UpdateDom()
      requires Valid()
      modifies this`idom
      ensures Valid() && idom == Updated(old(idom), nodeMap)
    {
      hide Mapped, Updated, Graph.Valid;
      var rest := idom.Keys;
      while rest != {}
        invariant rest <= idom.Keys == old(idom).Keys
        invariant forall x :: x in idom ==> idom[x] == if x in rest then old(idom)[x] else Mapped(old(idom)[x], nodeMap)
        decreases rest
      {
        var n :| n in rest;
        rest := rest - {n};
        MappedIs(idom[n], nodeMap);
        if idom[n].Some? && idom[n].value in nodeMap {
          idom := idom[n := Some(nodeMap[idom[n].value])];
        }
      }
      UpdatedIs(old(idom), idom, nodeMap);
    }

    lemma NodeMapOf()
      requires Valid()
      ensures ToProg().nodeMap == nodeMap
    {
    }

    /** The pass on the loop at the method entry: it does fuse, and the tests come out in
        another order. */
    method BreaksEntryLoop() returns (bailed: bool)
      requires Valid() && nodeMap == map[] && ToProg() == LoopAtEntry()
      modifies this, graph
      ensures Valid() && !Simulates(LoopAtEntry(), ToProg())
    {
      hide *;
      ghost var steps;
      bailed, steps := ShortCircuitStruct();
      RanIs(LoopAtEntry(), steps, ToProg());
      if steps == [] {
        LoopNotSettled();
      } else {
        LoopRunBreaks(steps);
      }
    }

    /** An edge of the program is one of the graph. */
    lemma FlowHasEdge(x: NodeId, y: NodeId)
      requires Valid() && x in ToProg().sucs && y in ToProg().sucs[x]
      ensures graph.Valid() && graph.entry.Some? && y in graph.nodes && y in graph.ToFlow().nodes
      ensures y in graph.ToFlow().preds && x in graph.ToFlow().preds[y]
    {
      assert Edge(graph.edges, x, y);
      assert Edge(graph.reverseEdges, y, x);
    }

    lemma FlowEntry()
      requires Valid()
      ensures graph.Valid() && graph.entry.Some? && graph.ToFlow().Valid() && graph.ToFlow().entry == ToProg().entry
    {
    }

    lemma LoopReaches()
      requires Valid() && ToProg() == LoopAtEntry()
      ensures graph.Valid() && graph.entry.Some? && 2 in graph.nodes && graph.ToFlow().Reachable(2)
    {
      hide *;
      LoopEdges();
      FlowEntry();
      FlowHasEdge(0, 1);
      FlowHasEdge(1, 2);
      TwoSteps(graph.ToFlow(), 0, 1, 2);
    }

    lemma LoopNotSettled()
      requires Valid() && ToProg() == LoopAtEntry()
      ensures !Settled()
    {
      LoopReaches();
      LoopRule();
      hide LoopAtEntry;
      assert Rule(ToProg(), 2).Some?;
    }

    method Renumber()
      requires Valid()
      modifies graph`num, graph`rpo
      ensures Valid() && ToProg() == old(ToProg()) && graph.nodes == old(graph.nodes)
    {
      hide *;
      GraphValid();
      StoreParts();
      ghost var s := ToStore();
      graph.ComputeRpo();
      StoreIs();
      StillValid(s);
    }

    /** New numbers leave the program as it was. */
    lemma StillValid(s: Store)
      requires graph.entry.Some? && graph.Tables() && s.Closed() && StoreBelow(s, nextId)
      requires s == Store(graph.entry.value, graph.nodes, graph.edges, blocks, graph.inCatch, nodeMap)
      ensures Valid() && ToProg() == s.ToProg()
    {
      assert graph.entry.value in graph.nodes;
    }

    method Fuse(n1: NodeId, n2: NodeId, isAnd: bool, isNot: bool) returns (ghost step: Step)
      requires Valid() && Fits(n1, n2, isAnd, isNot)
      modifies this, graph
      ensures Valid()
      ensures step == Step(n1, n2, old(nextId), isAnd, isNot)
      ensures Chosen(old(ToProg()), step) && ToProg() == Result(old(ToProg()), step)
      ensures |graph.nodes| == old(|graph.nodes|) - 1
      ensures Detached(old(graph.catchEdges), graph.catchEdges, step.n1, step.n2)
      ensures forall x :: x in old(graph.nodes) && x !in graph.nodes ==> x in done
      ensures old(done) + {n1, n2} <= done && idom == MovedDoms(old(idom), step.n1, step.n2, step.m)
    {
      hide *;
      NodesOf();
      FitsParts(n1, n2, isAnd, isNot);
      step := Step(n1, n2, nextId, isAnd, isNot);
      ghost var p := ToProg();
      var fused := Fused(blocks[n1], blocks[n2], isAnd, isNot);
      var m := MergeShortCircuit(n1, n2, fused);
      NodesOf();
      MergeNodes(p, step);
    }
  }

  lemma SameFlow(f: Flow, g: Flow)
    requires f.entry == g.entry && f.nodes == g.nodes == f.preds.Keys == g.preds.Keys
    requires forall x, y :: y in f.nodes ==> (x in f.preds[y] <==> x in g.preds[y])
    ensures f == g
  {
    forall y | y in f.nodes
      ensures f.preds[y] == g.preds[y]
    {
    }
    assert f.preds == g.preds;
  }

  /** A target the pass may absorb: a live conditional block with one visible caller. */
  ghost predicate LoneBranch(p: Prog, x: NodeId) {
    p.Valid() && x in p.nodes && p.IsBranch(x) && |Callers(p, x)| == 1
  }

  /** The pair and the shape in which the pass fuses block `n`, if any. The false branch is
      looked at only where the true branch could not be absorbed at all. */
  ghost function Rule(p: Prog, n: NodeId): Option<(NodeId, bool, bool)> {
    if p.IsBranch(n) then RuleFor(p, n, p.blocks[n].onTrue, p.blocks[n].onFalse) else None
  }

  ghost function RuleFor(p: Prog, n: NodeId, t: NodeId, f: NodeId): Option<(NodeId, bool, bool)> {
    if n == t || n == f then None
    else if LoneBranch(p, t) then Shape(n, t, f, p.blocks[t], true)
    else if LoneBranch(p, f) then Shape(n, f, t, p.blocks[f], false)
    else None
  }

  /** The shape of block `b` next to a conditional whose other target is `far`. */
  function Shape(n: NodeId, near: NodeId, far: NodeId, b: Block, onTrue: bool): Option<(NodeId, bool, bool)> {
    if !b.Branch? || n == b.onTrue || n == b.onFalse then None
    else if b.onFalse == far then Some((near, true, !onTrue))
    else if b.onTrue == far then Some((near, false, onTrue))
    else None
  }

  /** The rule on a conditional block, case by case. */
  lemma RuleOf(p: Prog, n: NodeId)
    requires p.IsBranch(n) && n != p.blocks[n].onTrue && n != p.blocks[n].onFalse
    ensures var t, f := p.blocks[n].onTrue, p.blocks[n].onFalse;
      && (LoneBranch(p, t) ==> t in p.blocks && Rule(p, n) == Shape(n, t, f, p.blocks[t], true))
      && (!LoneBranch(p, t) && LoneBranch(p, f) ==> f in p.blocks && Rule(p, n) == Shape(n, f, t, p.blocks[f], false))
      && (!LoneBranch(p, t) && !LoneBranch(p, f) ==> Rule(p, n) == None)
  {
  }

  /** What the rule finds may be fused, whatever the new block is called. */
  lemma RuleIsChosen(p: Prog, n: NodeId, m: NodeId)
    requires p.Valid() && n in p.nodes && Rule(p, n).Some? && m !in p.nodes && m !in p.nodeMap && m !in p.inCatch
    ensures var r := Rule(p, n).value; Chosen(p, Step(n, r.0, m, r.1, r.2))
  {
    hide Callers, Prog.Valid;
  }

  /** It finds a pair wherever some pair may be fused, except that a false target is not tried
      beside a true target with one visible caller. */
  lemma RuleFindsPair(p: Prog, t: Step)
    requires Chosen(p, t)
    ensures Rule(p, t.n1).Some? || (t.n2 != p.blocks[t.n1].onTrue && LoneBranch(p, p.blocks[t.n1].onTrue))
  {
    hide Callers, Prog.Valid;
  }

  lemma ShapeIs(n: NodeId, near: NodeId, far: NodeId, b: Block, onTrue: bool)
    requires b.Branch?
    ensures n == b.onTrue || n == b.onFalse ==> Shape(n, near, far, b, onTrue) == None
    ensures n != b.onTrue && n != b.onFalse && b.onFalse == far ==>
      Shape(n, near, far, b, onTrue) == Some((near, true, !onTrue))
    ensures n != b.onTrue && n != b.onFalse && b.onFalse != far ==>
      Shape(n, near, far, b, onTrue) == if b.onTrue == far then Some((near, false, onTrue)) else None
  {
  }

  /** `p` is what the legal run `steps` makes of `p0`. */
  ghost predicate Ran(p0: Prog, steps: seq<Step>, p: Prog) {
    Legal(p0, steps) && p == End(p0, steps)
  }

  /** When a run keeps the meaning. Any wired program: if all fusions are clean, as they are
      on tame programs. A fresh program: its walks, with targets mapped in the end, exactly if
      each fusion absorbed a block that only its partner led to, and where plain blocks lead
      exactly if those in catch handlers were spared besides; without mapping, if the edges
      come out right. A sealed one as well: exactly if all fusions are clean. */
  ghost predicate Keeps(p0: Prog, steps: seq<Step>, p: Prog)
    requires Legal(p0, steps)
  {
    && (p0.Valid() && p0.Wired() && p0.nodeMap == map[] && Tame(p0) ==> AllClean(p0, steps))
    && (p0.Valid() && p0.Wired() && p0.nodeMap == map[] && AllClean(p0, steps) ==> Simulates(p0, p))
    && (Fresh(p0) ==> (WalksKept(p0, p) <==> AllPrivate(p0, steps)))
    && (Fresh(p0) ==> (MeaningKept(p0, p) <==> AllPrivate(p0, steps) && HandlersSpared(p0, p)))
    && (Fresh(p0) ==> (Simulates(p0, p) <==> AllPrivate(p0, steps) && EdgesKept(p0, p)))
    && (Fresh(p0) && Sealed(p0) ==> (Simulates(p0, p) <==> AllClean(p0, steps)))
  }

  lemma RunKeeps(p0: Prog, steps: seq<Step>, p: Prog)
    requires Ran(p0, steps, p)
    ensures Legal(p0, steps) && Keeps(p0, steps, p)
  {
    hide Fresh, Sealed, Simulates, EdgesKept, WalksKept, MeaningKept, HandlersSpared, Tame, Prog.Valid, Prog.Wired,
      Legal, End, AllClean, AllPrivate;
    if p0.Valid() && p0.Wired() && p0.nodeMap == map[] {
      if Tame(p0) { TameRunIsClean(p0, steps); }
      if AllClean(p0, steps) { CleanRunSimulates(p0, steps); }
    }
    if Fresh(p0) {
      WalksIffPrivate(p0, steps);
      MeaningIffPrivateAndSpared(p0, steps);
      SimulatesIffPrivateAndEdges(p0, steps);
      if Sealed(p0) { SimulatesIffClean(p0, steps); }
    }
  }

  lemma RanNone(p: Prog)
    ensures Ran(p, [], p)
  {
  }

  lemma RanMore(p0: Prog, steps: seq<Step>, p: Prog, t: Step)
    requires Ran(p0, steps, p) && Chosen(p, t)
    ensures Ran(p0, steps + [t], Result(p, t))
  {
    hide Chosen, Result;
    RunMore(p0, steps, t);
  }

  lemma OrderNext(order: seq<NodeId>, i: nat)
    requires Distinct(order) && i < |order|
    ensures order[..i + 1] == order[..i] + [order[i]] && order[i] in order && order[i] !in order[..i]
  {
  }

  lemma {:induction false} CountDistinct(s: seq<NodeId>, c: set<NodeId>)
    requires Distinct(s) && forall x :: x in s <==> x in c
    ensures |s| == |c|
    decreases |s|
  {
    if s == [] {
      assert c == {};
    } else {
      var rest := s[1..];
      assert s == [s[0]] + rest;
      assert forall k :: 0 <= k < |rest| ==> rest[k] == s[k + 1];
      assert s[0] !in rest;
      CountDistinct(rest, c - {s[0]});
    }
  }

  lemma MergeNodes(p: Prog, t: Step)
    requires Chosen(p, t)
    ensures Result(p, t).nodes == p.nodes - {t.n1, t.n2} + {t.m}
  {
    MergeAt(p, t, t.m);
  }

  lemma RanIs(p0: Prog, steps: seq<Step>, p: Prog)
    requires Ran(p0, steps, p)
    ensures Legal(p0, steps) && p == End(p0, steps) && (steps == [] ==> p == p0)
  {
  }

  lemma TwoSteps(f: Flow, a: NodeId, b: NodeId, c: NodeId)
    requires f.Valid() && f.entry == a && b in f.nodes && c in f.nodes && b in f.preds && c in f.preds
    requires a in f.preds[b] && b in f.preds[c]
    ensures f.Reachable(c)
  {
    assert f.IsPath([a]);
    hide Flow.IsPath;
    ReachStep(f, a, b);
    ReachStep(f, b, c);
  }

  lemma LoopEdges()
    ensures var p := LoopAtEntry(); p.entry == 0 && 0 in p.sucs && 1 in p.sucs && 1 in p.sucs[0] && 2 in p.sucs[1]
  {
  }

  lemma LoopRule()
    ensures Rule(LoopAtEntry(), 2) == Some((0, true, false))
  {
    LoopAtEntryShape();
    hide Callers, Prog.Valid;
  }

  /** The elements of both lists, each once. */
  function Union(s: seq<NodeId>, t: seq<NodeId>): (r: seq<NodeId>)
    ensures forall x :: x in r <==> x in s || x in t
  {
    s + Outside(t, set x | x in s)
  }

  lemma UnionDistinct(s: seq<NodeId>, t: seq<NodeId>)
    requires Distinct(s) && Distinct(t)
    ensures Distinct(Union(s, t))
  {
    var u := Outside(t, set x | x in s);
    OutsideDistinct(t, set x | x in s);
    forall i, j | 0 <= i < j < |s + u|
      ensures (s + u)[i] != (s + u)[j]
    {
      if i < |s| <= j { assert u[j - |s|] in u && s[i] in s; }
    }
  }

  ghost predicate Detached(edges: Table, edges': Table, n1: NodeId, n2: NodeId) {
    forall a, b :: Edge(edges', a, b) <==> Edge(edges, a, b) && a != n1 && a != n2 && b != n1 && b != n2
  }

  lemma DetachedKeepsNone(edges: Table, edges': Table, n1: NodeId, n2: NodeId, m: NodeId)
    requires Detached(edges, edges', n1, n2) && forall x :: !Edge(edges, m, x) && !Edge(edges, x, m)
    ensures forall x :: !Edge(edges', m, x) && !Edge(edges', x, m)
  {
  }

  /** The edges that are left are those between blocks that were not fused away. */
  ghost predicate CatchCut(edges: Table, edges': Table, nodeMap: map<NodeId, NodeId>) {
    forall a, h :: Edge(edges', a, h) <==> Edge(edges, a, h) && a !in nodeMap && h !in nodeMap
  }

  lemma CatchMore(edges: Table, edges1: Table, edges2: Table, p: Prog, t: Step)
    requires Chosen(p, t) && CatchCut(edges, edges1, p.nodeMap) && Detached(edges1, edges2, t.n1, t.n2)
    ensures CatchCut(edges, edges2, Result(p, t).nodeMap)
  {
    MergeAt(p, t, t.m);
    MovedIs(p.nodeMap, t);
    hide Result, Chosen, Moved;
  }

  lemma CatchWhole(edges: Table)
    ensures CatchCut(edges, edges, map[])
  {
  }

  lemma DetachedTwice(edges: Table, edges1: Table, edges2: Table, n1: NodeId, n2: NodeId)
    requires forall a, b :: Edge(edges1, a, b) <==> Edge(edges, a, b) && a != n1 && b != n1
    requires forall a, b :: Edge(edges2, a, b) <==> Edge(edges1, a, b) && a != n2 && b != n2
    ensures Detached(edges, edges2, n1, n2)
  {
  }

  lemma DroppedBoth(nodes: seq<NodeId>, n1: NodeId, n2: NodeId)
    requires Distinct(nodes) && n1 in nodes && n2 in nodes && n1 != n2
    ensures |Drop(Drop(nodes, n1), n2)| == |nodes| - 2
    ensures forall n :: n in Drop(Drop(nodes, n1), n2) <==> n in nodes && n != n1 && n != n2
  {
    hide Distinct;
    DropDistinct(nodes, n1);
    DropDistinct(Drop(nodes, n1), n2);
  }

  lemma DetachedBoth(edges: Table, edges1: Table, edges2: Table, inCatch: set<NodeId>, n1: NodeId, n2: NodeId,
                     preds1: seq<NodeId>, preds2: seq<NodeId>, targets1: seq<NodeId>, targets2: seq<NodeId>)
    requires forall a, b :: Edge(edges1, a, b) <==> Edge(edges, a, b) && a != n1 && b != n1
    requires forall a, b :: Edge(edges2, a, b) <==> Edge(edges1, a, b) && a != n2 && b != n2
    requires Distinct(preds1) && Distinct(preds2) && targets1 == Get(edges, n1) && targets2 == Get(edges1, n2)
    requires forall q :: q in preds1 <==> Edge(edges, q, n1) && q !in inCatch
    requires forall q :: q in preds2 <==> Edge(edges1, q, n2) && q !in inCatch
    ensures Detached(edges, edges2, n1, n2)
    ensures var preds, targets :=
      Outside(Union(preds1, preds2), {n1, n2}), Outside(Union(targets1, targets2), {n1, n2});
            && Distinct(preds) && (forall q :: q in preds <==> Caller(edges, inCatch, n1, n2, q))
            && (forall y :: y in targets <==> Target(edges, n1, n2, y))
  {
    UnionDistinct(preds1, preds2);
    OutsideDistinct(Union(preds1, preds2), {n1, n2});
    hide Distinct;
    assert forall y :: y in targets1 <==> Edge(edges, n1, y);
    assert forall y :: y in targets2 <==> Edge(edges1, n2, y);
    hide Union, Outside;
  }

  ghost predicate Caller(edges: Table, inCatch: set<NodeId>, n1: NodeId, n2: NodeId, q: NodeId) {
    q != n1 && q != n2 && q !in inCatch && (Edge(edges, q, n1) || Edge(edges, q, n2))
  }

  ghost predicate Target(edges: Table, n1: NodeId, n2: NodeId, y: NodeId) {
    y != n1 && y != n2 && (Edge(edges, n1, y) || Edge(edges, n2, y))
  }

  /** The fields of the pass, as values. */
  datatype Store = Store(entry: NodeId, nodes: seq<NodeId>, edges: Table, blocks: map<NodeId, Block>,
    inCatch: set<NodeId>, nodeMap: map<NodeId, NodeId>) {
    ghost predicate Closed() {
      (forall n :: n in nodes ==> n in blocks) && forall a, b :: Edge(edges, a, b) ==> a in nodes && b in nodes
    }

    ghost function ToProg(): Prog
      requires forall n :: n in nodes ==> n in blocks
    {
      Prog(entry, set n | n in nodes,
           map n | n in nodes :: set y | y in Get(edges, n),
           map n | n in nodes :: blocks[n],
           inCatch, nodeMap)
    }
  }

  ghost predicate MergedEdges(edges: Table, edges': Table, inCatch: set<NodeId>, n1: NodeId, n2: NodeId, m: NodeId) {
    forall a, b :: Edge(edges', a, b) <==>
      || (Edge(edges, a, b) && a != n1 && a != n2 && b != n1 && b != n2)
      || (b == m && Caller(edges, inCatch, n1, n2, a))
      || (a == m && Target(edges, n1, n2, b))
  }

  lemma MergedEdgesOf(edges: Table, edges1: Table, edges2: Table, edges': Table, inCatch: set<NodeId>, n1: NodeId,
        n2: NodeId, m: NodeId, preds: seq<NodeId>, targets: seq<NodeId>)
    requires Detached(edges, edges1, n1, n2) && Linked(edges1, edges2, preds, m)
    requires LinkedFrom(edges2, edges', m, targets)
    requires forall q :: q in preds <==> Caller(edges, inCatch, n1, n2, q)
    requires forall y :: y in targets <==> Target(edges, n1, n2, y)
    ensures MergedEdges(edges, edges', inCatch, n1, n2, m)
  {
  }

  ghost predicate Redirected(s: Store, blocks': map<NodeId, Block>, nodeMap: map<NodeId, NodeId>, n1: NodeId,
        n2: NodeId, m: NodeId, fused: Block)
  {
    && blocks'.Keys == s.blocks.Keys + {m}
    && m in blocks' && blocks'[m] == fused
    && forall n :: n in s.blocks && n != m ==>
      blocks'[n] == if Caller(s.edges, s.inCatch, n1, n2, n) then Redirect(s.blocks[n], nodeMap) else s.blocks[n]
  }

  /** `s'` is what the steps of a merge leave of `s`. */
  ghost predicate Merged(s: Store, s': Store, n1: NodeId, n2: NodeId, m: NodeId, fused: Block) {
    && s'.entry == (if s.entry == n1 || s.entry == n2 then m else s.entry)
    && (forall n :: n in s'.nodes <==> n == m || (n in s.nodes && n != n1 && n != n2))
    && MergedEdges(s.edges, s'.edges, s.inCatch, n1, n2, m)
    && Redirected(s, s'.blocks, s'.nodeMap, n1, n2, m, fused)
    && s'.inCatch == (if n1 in s.inCatch then s.inCatch + {m} else s.inCatch)
    && s'.nodeMap == Moved(s.nodeMap, n1, n2, m)
  }

  lemma MergedProg(s: Store, s': Store, n1: NodeId, n2: NodeId, m: NodeId, fused: Block)
    requires s.Closed() && n1 in s.nodes && n2 in s.nodes && n1 != n2 && m !in s.nodes
    requires Merged(s, s', n1, n2, m, fused)
    ensures s'.nodes != [] && forall n :: n in s'.nodes ==> n in s'.blocks
    ensures s'.ToProg() == Merge(s.ToProg(), n1, n2, m, fused)
  {
    hide *;
    MergedNodes(s, s', n1, n2, m, fused);
    MergedFields(s, s', n1, n2, m, fused);
    var p', r := s'.ToProg(), Merge(s.ToProg(), n1, n2, m, fused);
    forall x | x in r.nodes
      ensures p'.sucs[x] == r.sucs[x] && p'.blocks[x] == r.blocks[x]
    {
      MergedAt(s, s', n1, n2, m, fused, x);
    }
    SameProg(p', r);
  }

  lemma SameProg(p: Prog, q: Prog)
    requires p.entry == q.entry && p.inCatch == q.inCatch && p.nodeMap == q.nodeMap
    requires p.nodes == q.nodes == p.sucs.Keys == q.sucs.Keys == p.blocks.Keys == q.blocks.Keys
    requires forall x :: x in q.nodes ==> p.sucs[x] == q.sucs[x] && p.blocks[x] == q.blocks[x]
    ensures p == q
  {
  }

  lemma MergedNodes(s: Store, s': Store, n1: NodeId, n2: NodeId, m: NodeId, fused: Block)
    requires s.Closed() && Merged(s, s', n1, n2, m, fused)
    ensures s'.nodes != [] && (forall n :: n in s.nodes ==> n in s.blocks)
    ensures forall n :: n in s'.nodes ==> n in s'.blocks
  {
    hide Moved, Redirect, MergedEdges, Caller;
    assert m in s'.nodes;
  }

  /** What the program of a store holds. */
  lemma ProgOf(s: Store)
    requires forall n :: n in s.nodes ==> n in s.blocks
    ensures var p := s.ToProg();
      && p.nodes == p.sucs.Keys == p.blocks.Keys && (forall n :: n in p.nodes <==> n in s.nodes)
      && p.entry == s.entry && p.inCatch == s.inCatch && p.nodeMap == s.nodeMap
  {
  }

  lemma ProgAt(s: Store, x: NodeId)
    requires (forall n :: n in s.nodes ==> n in s.blocks) && x in s.nodes
    ensures var p := s.ToProg();
      && x in p.nodes && x in p.sucs && x in p.blocks && p.blocks[x] == s.blocks[x]
      && forall y :: y in p.sucs[x] <==> Edge(s.edges, x, y)
  {
  }

  /** What a merge leaves of the fields, and at a block. */
  lemma MergeFieldsOf(p: Prog, n1: NodeId, n2: NodeId, m: NodeId, fused: Block)
    requires n1 in p.sucs && n2 in p.sucs && p.nodes == p.sucs.Keys == p.blocks.Keys
    ensures var r := Merge(p, n1, n2, m, fused);
      && r.entry == (if p.entry == n1 || p.entry == n2 then m else p.entry)
      && r.nodes == p.nodes - {n1, n2} + {m} == r.sucs.Keys == r.blocks.Keys
      && r.inCatch == (if n1 in p.inCatch then p.inCatch + {m} else p.inCatch)
      && r.nodeMap == Moved(p.nodeMap, n1, n2, m)
  {
    hide Moved, Redirect;
  }

  lemma MergeAtBlock(p: Prog, n1: NodeId, n2: NodeId, m: NodeId, fused: Block, x: NodeId)
    requires n1 in p.sucs && n2 in p.sucs && p.nodes == p.sucs.Keys == p.blocks.Keys
    requires x == m || (x in p.nodes && x != n1 && x != n2)
    ensures var r := Merge(p, n1, n2, m, fused);
      var caller := x in p.nodes && x !in p.inCatch && (n1 in p.sucs[x] || n2 in p.sucs[x]);
      && x in r.sucs && x in r.blocks
      && (x == m ==> r.blocks[x] == fused && r.sucs[x] == p.sucs[n1] + p.sucs[n2] - {n1, n2})
      && (x != m ==> r.sucs[x] == p.sucs[x] - {n1, n2} + (if caller then {m} else {}))
      && (x != m && caller ==> r.blocks[x] == Redirect(p.blocks[x], Moved(p.nodeMap, n1, n2, m)))
      && (x != m && !caller ==> r.blocks[x] == p.blocks[x])
  {
    hide Moved, Redirect;
  }

  lemma MergedFields(s: Store, s': Store, n1: NodeId, n2: NodeId, m: NodeId, fused: Block)
    requires s.Closed() && n1 in s.nodes && n2 in s.nodes && n1 != n2 && m !in s.nodes
    requires Merged(s, s', n1, n2, m, fused)
    requires (forall n :: n in s.nodes ==> n in s.blocks) && forall n :: n in s'.nodes ==> n in s'.blocks
    ensures var p, p', r := s.ToProg(), s'.ToProg(), Merge(s.ToProg(), n1, n2, m, fused);
      && n1 in p.sucs && n2 in p.sucs && p.nodes == p.sucs.Keys == p.blocks.Keys
      && p'.entry == r.entry && p'.inCatch == r.inCatch && p'.nodeMap == r.nodeMap
      && p'.nodes == r.nodes == p'.sucs.Keys == r.sucs.Keys == p'.blocks.Keys == r.blocks.Keys
      && forall x :: x in r.nodes ==> x in s'.nodes
  {
    hide *;
    ProgOf(s);
    ProgOf(s');
    MergedIs(s, s', n1, n2, m, fused);
    MergeFieldsOf(s.ToProg(), n1, n2, m, fused);
    SameNodes(s.ToProg().nodes, s.nodes, s'.ToProg().nodes, s'.nodes, n1, n2, m);
  }

  lemma MergedIs(s: Store, s': Store, n1: NodeId, n2: NodeId, m: NodeId, fused: Block)
    requires Merged(s, s', n1, n2, m, fused)
    ensures s'.entry == (if s.entry == n1 || s.entry == n2 then m else s.entry)
    ensures forall n :: n in s'.nodes <==> n == m || (n in s.nodes && n != n1 && n != n2)
    ensures s'.inCatch == (if n1 in s.inCatch then s.inCatch + {m} else s.inCatch)
    ensures s'.nodeMap == Moved(s.nodeMap, n1, n2, m)
  {
    hide Moved, MergedEdges, Redirected;
  }

  lemma SameNodes(a: set<NodeId>, s: seq<NodeId>, b: set<NodeId>, t: seq<NodeId>, n1: NodeId, n2: NodeId, m: NodeId)
    requires (forall n :: n in a <==> n in s) && forall n :: n in b <==> n in t
    requires forall n :: n in t <==> n == m || (n in s && n != n1 && n != n2)
    ensures b == a - {n1, n2} + {m} && forall x :: x in b ==> x in t
  {
  }

  lemma StepsMerge(s: Store, s': Store, n1: NodeId, n2: NodeId, m: NodeId, fused: Block, edges1: Table, edges2: Table,
        preds: seq<NodeId>, targets: seq<NodeId>)
    requires s'.entry == (if s.entry == n1 || s.entry == n2 then m else s.entry)
    requires forall n :: n in s'.nodes <==> n == m || (n in s.nodes && n != n1 && n != n2)
    requires Detached(s.edges, edges1, n1, n2) && Linked(edges1, edges2, preds, m)
    requires LinkedFrom(edges2, s'.edges, m, targets)
    requires forall q :: q in preds <==> Caller(s.edges, s.inCatch, n1, n2, q)
    requires forall y :: y in targets <==> Target(s.edges, n1, n2, y)
    requires m !in preds && Rewritten(s.blocks[m := fused], s'.blocks, preds, s'.nodeMap)
    requires s'.inCatch == (if n1 in s.inCatch then s.inCatch + {m} else s.inCatch)
    requires s'.nodeMap == Moved(s.nodeMap, n1, n2, m)
    ensures Merged(s, s', n1, n2, m, fused)
  {
    hide Moved, Redirect, Caller, Target;
    MergedEdgesOf(s.edges, edges1, edges2, s'.edges, s.inCatch, n1, n2, m, preds, targets);
  }

  /** Every id in use is below `id`, and removed blocks map to live ones. */
  ghost predicate StoreBelow(s: Store, id: NodeId) {
    && s.entry in s.nodes
    && (forall n :: n in s.nodes ==> n in s.blocks && n < id)
    && (forall k :: k in s.nodeMap ==> k !in s.nodes && k < id && s.nodeMap[k] in s.nodes)
    && (forall n :: n in s.inCatch ==> n < id)
  }

  lemma CallersLive(s: Store, preds: seq<NodeId>, targets: seq<NodeId>, n1: NodeId, n2: NodeId, m: NodeId)
    requires s.Closed() && StoreBelow(s, m)
    requires forall q :: q in preds <==> Caller(s.edges, s.inCatch, n1, n2, q)
    requires forall y :: y in targets <==> Target(s.edges, n1, n2, y)
    ensures m !in s.nodes
    ensures forall q :: q in preds || q in targets ==>
      q in s.nodes && q in s.blocks && q != n1 && q != n2 && q != m && q !in Moved(s.nodeMap, n1, n2, m)
  {
    assert forall q :: q in preds ==> Edge(s.edges, q, n1) || Edge(s.edges, q, n2);
    assert forall q :: q in targets ==> Edge(s.edges, n1, q) || Edge(s.edges, n2, q);
  }

  /** The edges out of a block of the merged store. */
  lemma EdgesOut(s: Store, s': Store, n1: NodeId, n2: NodeId, m: NodeId, fused: Block, x: NodeId, y: NodeId)
    requires s.Closed() && m !in s.nodes && Merged(s, s', n1, n2, m, fused) && x in s'.nodes
    ensures Edge(s'.edges, x, y) <==>
      if x == m then (Edge(s.edges, n1, y) || Edge(s.edges, n2, y)) && y != n1 && y != n2
      else (Edge(s.edges, x, y) && y != n1 && y != n2)
           || (y == m && x !in s.inCatch && (Edge(s.edges, x, n1) || Edge(s.edges, x, n2)))
  {
    hide Moved, Redirected;
  }

  lemma MergedAt(s: Store, s': Store, n1: NodeId, n2: NodeId, m: NodeId, fused: Block, x: NodeId)
    requires s.Closed() && n1 in s.nodes && n2 in s.nodes && n1 != n2 && m !in s.nodes
    requires Merged(s, s', n1, n2, m, fused) && x in s'.nodes
    requires (forall n :: n in s.nodes ==> n in s.blocks) && forall n :: n in s'.nodes ==> n in s'.blocks
    ensures var p', r := s'.ToProg(), Merge(s.ToProg(), n1, n2, m, fused);
      && x in p'.sucs && x in r.sucs && x in p'.blocks && x in r.blocks
      && p'.sucs[x] == r.sucs[x] && p'.blocks[x] == r.blocks[x]
  {
    hide *;
    ProgOf(s);
    ProgAt(s', x);
    MergedKeeps(s, s', n1, n2, m, fused, x);
    MergeAtBlock(s.ToProg(), n1, n2, m, fused, x);
    if x != m { ProgAt(s, x); }
    ProgAt(s, n1);
    ProgAt(s, n2);
    CallerIs(s.edges, s.inCatch, n1, n2, x);
    var p', r := s'.ToProg(), Merge(s.ToProg(), n1, n2, m, fused);
    forall y
      ensures y in p'.sucs[x] <==> y in r.sucs[x]
    {
      EdgesOut(s, s', n1, n2, m, fused, x, y);
    }
  }

  lemma CallerIs(edges: Table, inCatch: set<NodeId>, n1: NodeId, n2: NodeId, q: NodeId)
    ensures Caller(edges, inCatch, n1, n2, q) <==>
      q != n1 && q != n2 && q !in inCatch && (Edge(edges, q, n1) || Edge(edges, q, n2))
  {
    hide Edge;
  }

  lemma MergedKeeps(s: Store, s': Store, n1: NodeId, n2: NodeId, m: NodeId, fused: Block, x: NodeId)
    requires Merged(s, s', n1, n2, m, fused) && x in s'.nodes && x in s'.blocks && s.Closed() && m !in s.nodes
    ensures x == m || (x in s.nodes && x != n1 && x != n2)
    ensures s'.nodeMap == Moved(s.nodeMap, n1, n2, m)
    ensures x == m ==> s'.blocks[x] == fused
    ensures x != m ==> x in s.blocks
    ensures x != m && Caller(s.edges, s.inCatch, n1, n2, x) ==> s'.blocks[x] == Redirect(s.blocks[x], s'.nodeMap)
    ensures x != m && !Caller(s.edges, s.inCatch, n1, n2, x) ==> s'.blocks[x] == s.blocks[x]
  {
    hide Moved, Redirect, MergedEdges, Caller, Edge;
  }

  ghost predicate LinkedFrom(edges: Table, edges': Table, m: NodeId, targets: seq<NodeId>) {
    forall a, b :: Edge(edges', a, b) <==> Edge(edges, a, b) || (a == m && b in targets)
  }

  ghost predicate Linked(edges: Table, edges': Table, preds: seq<NodeId>, m: NodeId) {
    forall a, b :: Edge(edges', a, b) <==> Edge(edges, a, b) || (b == m && a in preds)
  }

  ghost predicate Rewritten(blocks: map<NodeId, Block>, blocks': map<NodeId, Block>, preds: seq<NodeId>,
        nodeMap: map<NodeId, NodeId>)
  {
    && blocks'.Keys == blocks.Keys
    && forall n :: n in blocks ==> blocks'[n] == if n in preds then Redirect(blocks[n], nodeMap) else blocks[n]
  }
}
