/** When a run's fusions being clean, one by one, is exactly what its meaning depends on. */
module CleanRuns {
  import opened Graphs
  import opened Conditions
  import opened Fusion
  import opened FusionRuns

  /** No conditional block outside catch handlers branches to one inside. */
  ghost predicate Sealed(p: Prog) {
    forall b, d :: p.IsBranch(b) && b !in p.inCatch && BranchesTo(p.blocks[b], d) && p.IsBranch(Now(p, d)) ==>
      Now(p, d) !in p.inCatch
  }

  /** A plain catch-handler block has lost an edge to what one of its successors became. */
  ghost predicate LostAt(p0: Prog, p: Prog, q: NodeId, y: NodeId) {
    && q in p0.sucs && q in p.sucs && !p0.IsBranch(q) && !p.IsBranch(q) && q in p.inCatch
    && y in p0.sucs[q] && y in p.nodeMap && p.nodeMap[y] !in p0.nodes && p.sucs[q] <= p0.nodes
  }

  ghost predicate Lost(p0: Prog, p: Prog) {
    exists q, y :: LostAt(p0, p, q, y)
  }

  /** A conditional catch-handler block names a target that is gone. */
  ghost predicate StaleAt(p: Prog, q: NodeId, d: NodeId) {
    p.IsBranch(q) && q in p.inCatch && BranchesTo(p.blocks[q], d) && d in p.nodeMap
  }

  ghost predicate Stale(p: Prog) {
    exists q, d :: StaleAt(p, q, d)
  }

  lemma LostIsNotSimulated(p0: Prog, p: Prog, q: NodeId, y: NodeId)
    requires LostAt(p0, p, q, y)
    ensures !SimulatesAt(p0, p, q)
  {
    var sucs, z := p.sucs[q], Now(p, y);
    assert z !in sucs;
    assert z in set a | a in p0.sucs[q] :: Resolve(p.nodeMap, a);
  }

  lemma LostBreaks(p0: Prog, p: Prog)
    requires Lost(p0, p) && p0.Valid()
    ensures !Simulates(p0, p)
  {
    hide SimulatesAt, SameWalk, Prog.Wired;
    var q, y :| LostAt(p0, p, q, y);
    LostIsNotSimulated(p0, p, q, y);
  }

  lemma LostPersists(p0: Prog, p: Prog, t: Step)
    requires Stems(p0, p) && Lost(p0, p) && Chosen(p, t)
    ensures Lost(p0, Result(p, t))
  {
    KeysAfter(p0, p, t);
    hide Stems, Chosen, Result;
    var q, y :| LostAt(p0, p, q, y);
    LostStays(p0, p, t, q, y);
  }

  lemma LostStays(p0: Prog, p: Prog, t: Step, q: NodeId, y: NodeId)
    requires LostAt(p0, p, q, y) && Chosen(p, t)
    requires forall k :: k in Result(p, t).nodeMap ==> Result(p, t).nodeMap[k] !in p0.nodes
    ensures LostAt(p0, Result(p, t), q, y)
  {
    PlainSurvives(p, t, q);
    MergeAt(p, t, q);
    KindKept(p, t, q);
    hide Merge, Result, Redirect, Fused, Fusable, NewBlock;
    StillRemoved(p, t, y);
  }

  lemma StillRemoved(p: Prog, t: Step, d: NodeId)
    requires Chosen(p, t) && d in p.nodeMap
    ensures d in Result(p, t).nodeMap
  {
    MergeAt(p, t, t.m);
  }

  lemma StaleIsUnwired(p: Prog, q: NodeId, d: NodeId)
    requires StaleAt(p, q, d) && p.Valid()
    ensures !p.Wired()
  {
    var sucs := p.sucs[q];
    assert d !in sucs;
    assert p.WiredAt(q) ==> d in sucs;
  }

  lemma StaleBreaks(p0: Prog, p: Prog)
    requires Stale(p)
    ensures !Simulates(p0, p)
  {
    if Simulates(p0, p) {
      var q, d :| StaleAt(p, q, d);
      StaleIsUnwired(p, q, d);
    }
  }

  /** A private fusion in a sealed program joins two blocks outside catch handlers. */
  lemma PrivateOutside(p0: Prog, p: Prog, t: Step)
    requires Stems(p0, p) && Sealed(p) && Chosen(p, t) && Private(p0, p, t)
    ensures t.n1 !in p.inCatch && t.n2 !in p.inCatch
  {
    var q :| q in Callers(p, t.n2);
    if q != t.n1 {
      LeadsToSecond(p0, p, t, q);
    } else {
      NewTargets(p, t);
      BothBranch(p, t);
      LiveIsItself(p);
      hide Chosen, Stems, Callers;
      assert Now(p, t.n2) == t.n2;
    }
  }

  /** An edge of another block to `n2` makes it shared. */
  lemma LeadsToSecond(p0: Prog, p: Prog, t: Step, q: NodeId)
    requires Stems(p0, p) && Chosen(p, t) && q in p.sucs && t.n2 in p.sucs[q] && q != t.n1
    ensures !Private(p0, p, t)
  {
    hide Chosen;
    if p.IsBranch(q) {
      assert BranchAt(p, q);
      var d :| BranchesTo(p.blocks[q], d) && Now(p, d) == t.n2;
      assert !OnlyBranch(p, t);
    } else {
      assert q in p.nodes;
      assert PlainAt(p0, p, q);
      var y :| y in p0.sucs[q] && Now(p, y) == t.n2;
      assert Start(p0, y);
    }
  }

  lemma SealedStep(p0: Prog, p: Prog, t: Step)
    requires Stems(p0, p) && Sealed(p) && Chosen(p, t) && Private(p0, p, t)
    ensures Sealed(Result(p, t))
  {
    var r := Result(p, t);
    PrivateOutside(p0, p, t);
    InCatchAfter(p, t);
    StemsBranch(p0, p);
    hide Stems, Chosen, Result, Private, BranchAt;
    forall b, d' | r.IsBranch(b) && b !in r.inCatch && BranchesTo(r.blocks[b], d') && r.IsBranch(Now(r, d'))
      ensures Now(r, d') !in r.inCatch
    {
      var d := TargetAfter(p, t, b, d');
      KindAfter(p, t, Now(p, d));
    }
  }

  lemma InCatchAfter(p: Prog, t: Step)
    requires Chosen(p, t) && t.n1 !in p.inCatch
    ensures Result(p, t).inCatch == p.inCatch && t.m !in p.inCatch
  {
    MergeAt(p, t, t.m);
  }

  lemma KindAfter(p: Prog, t: Step, z: NodeId)
    requires Chosen(p, t) && z in p.nodes && Result(p, t).IsBranch(Rename(t, z))
    ensures p.IsBranch(z)
  {
    BothBranch(p, t);
    MergeAt(p, t, Rename(t, z));
  }

  lemma StalePersists(p0: Prog, p: Prog, t: Step)
    requires Stems(p0, p) && Sealed(p) && Stale(p) && Chosen(p, t) && Private(p0, p, t)
    ensures Stale(Result(p, t))
  {
    PrivateOutside(p0, p, t);
    hide Stems, Private, Sealed, Chosen, Result;
    var q, d :| StaleAt(p, q, d);
    StaleStays(p, t, q, d);
  }

  lemma StaleStays(p: Prog, t: Step, q: NodeId, d: NodeId)
    requires StaleAt(p, q, d) && Chosen(p, t) && t.n1 !in p.inCatch && t.n2 !in p.inCatch
    ensures StaleAt(Result(p, t), q, d)
  {
    assert Survives(p, t, q);
    MergeAt(p, t, q);
    hide Merge, Moved, Result, Redirect, Fused, Fusable, NewBlock;
    StillRemoved(p, t, d);
  }

  /** Where a run stands once a fusion was not clean: it can not come right again. */
  ghost predicate Broken(p0: Prog, p: Prog) {
    || OutOfOrder(p0, p)
    || (Stems(p0, p) && Lost(p0, p))
    || (Upright(p0, p) && Sealed(p) && Stale(p))
  }

  lemma BrokenBreaks(p0: Prog, p: Prog)
    requires Broken(p0, p)
    ensures !Simulates(p0, p)
  {
    hide Simulates, OutOfOrder, Lost, Stale, Upright, Sealed, Stems;
    if OutOfOrder(p0, p) {
      OutOfOrderBreaks(p0, p);
    } else if Stems(p0, p) && Lost(p0, p) {
      assert p0.Valid() by { StemsParts(p0, p); }
      LostBreaks(p0, p);
    } else {
      StaleBreaks(p0, p);
    }
  }

  lemma UprightStems(p0: Prog, p: Prog)
    requires Upright(p0, p)
    ensures Stems(p0, p)
  {
  }

  lemma BrokenPersists(p0: Prog, p: Prog, t: Step)
    requires Broken(p0, p) && Chosen(p, t)
    ensures Broken(p0, Result(p, t))
  {
    hide OutOfOrder, Lost, Stale, Upright, Sealed, Stems, Chosen, Result, Private;
    if OutOfOrder(p0, p) {
      OutOfOrderPersists(p0, p, t);
    } else if Stems(p0, p) && Lost(p0, p) {
      StemsStep(p0, p, t);
      LostPersists(p0, p, t);
    } else {
      UprightStems(p0, p);
      UprightStep(p0, p, t);
      if Private(p0, p, t) {
        SealedStep(p0, p, t);
        StalePersists(p0, p, t);
      }
    }
  }

  /** The first fusion that is not clean breaks the run for good. */
  lemma UncleanBreaks(p0: Prog, p: Prog, t: Step)
    requires Upright(p0, p) && Sealed(p) && p.Valid() && p.Wired() && Chosen(p, t) && !Clean(p, t)
    ensures Broken(p0, Result(p, t))
  {
    hide Upright, Sealed, OutOfOrder, Stems, Result, Private, Chosen, Lost, Stale;
    UprightStems(p0, p);
    UprightStep(p0, p, t);
    if Private(p0, p, t) {
      SealedStep(p0, p, t);
      StemsStep(p0, p, t);
      var q := HiddenCaller(p0, p, t);
      if p.IsBranch(q) {
        StaleArises(p, t, q);
      } else {
        LostArises(p0, p, t, q);
      }
    }
  }

  /** An unclean fusion whose second block is private has a catch-handler caller of the
      first. */
  lemma HiddenCaller(p0: Prog, p: Prog, t: Step) returns (q: NodeId)
    requires Stems(p0, p) && p.Wired() && Chosen(p, t) && Private(p0, p, t) && !Clean(p, t)
    ensures q in p.nodes && q in p.inCatch && t.n1 in p.sucs[q] && q != t.n1 && q != t.n2
  {
    NoWayBack(p, t);
    assert Start(p0, p0.entry);
    hide Prog.Wired;
    if a :| a in p.nodes && t.n2 in p.sucs[a] && a != t.n1 {
      LeadsToSecond(p0, p, t, a);
      q := a;
    } else {
      hide Stems, Chosen, Private;
      assert p.entry != t.n2 by { EntryPrivate(p0, p, t); }
      q :| q in p.nodes && t.n1 in p.sucs[q] && q in p.inCatch;
    }
  }

  lemma EntryPrivate(p0: Prog, p: Prog, t: Step)
    requires Stems(p0, p) && Private(p0, p, t)
    ensures p.entry != t.n2
  {
    assert Start(p0, p0.entry);
  }

  lemma StaleArises(p: Prog, t: Step, q: NodeId)
    requires Chosen(p, t) && p.Wired() && Survives(p, t, q) && q in p.inCatch && t.n1 in p.sucs[q] && p.IsBranch(q)
    ensures Stale(Result(p, t))
  {
    assert p.WiredAt(q);
    hide Prog.Wired;
    MergeAt(p, t, q);
    hide Merge, Result, Redirect, Fused, Fusable, NewBlock, Chosen;
    assert StaleAt(Result(p, t), q, t.n1);
  }

  lemma LostArises(p0: Prog, p: Prog, t: Step, q: NodeId)
    requires Stems(p0, p) && Chosen(p, t) && Survives(p, t, q) && q in p.inCatch && t.n1 in p.sucs[q] && !p.IsBranch(q)
    ensures Lost(p0, Result(p, t))
  {
    assert PlainAt(p0, p, q);
    MergeAt(p, t, q);
    KeysAfter(p0, p, t);
    KindKept(p, t, q);
    hide Stems, BranchAt, Merge, Result, Redirect, Fused, Fusable, NewBlock, Chosen;
    assert LostAt(p0, Result(p, t), q, t.n1);
  }

  /** What holds after a run. */
  ghost predicate Decided(p0: Prog, p: Prog, clean: bool) {
    if clean then Simulates(p0, p) && Upright(p0, p) && Sealed(p) else Broken(p0, p)
  }

  lemma DecidedStep(p0: Prog, p: Prog, clean: bool, t: Step)
    requires Decided(p0, p, clean) && Chosen(p, t)
    ensures p.Valid() && Decided(p0, Result(p, t), clean && Clean(p, t))
  {
    assert p.Valid();
    hide Simulates, Upright, Sealed, Broken, Chosen, Result, Private, Prog.Valid;
    if clean {
      SimulationWired(p0, p);
      UprightStems(p0, p);
      UprightStep(p0, p, t);
      if Clean(p, t) {
        SimulatesStep(p0, p, t);
        CleanIsPrivate(p0, p, t);
        SealedStep(p0, p, t);
      } else {
        UncleanBreaks(p0, p, t);
      }
    } else {
      BrokenPersists(p0, p, t);
    }
  }

  lemma SimulationWired(p0: Prog, p: Prog)
    requires Simulates(p0, p)
    ensures p.Valid() && p.Wired()
  {
  }

  /** A clean fusion of a faithful program is private. */
  lemma CleanIsPrivate(p0: Prog, p: Prog, t: Step)
    requires Simulates(p0, p) && Chosen(p, t) && Clean(p, t)
    ensures Private(p0, p, t)
  {
    SimulationWired(p0, p);
    LiveIsItself(p);
    forall b, d | p.IsBranch(b) && b != t.n1 && BranchesTo(p.blocks[b], d) ensures Now(p, d) != t.n2 {
      assert p.WiredAt(b);
      assert d in p.sucs[b];
    }
    forall y | Start(p0, y) ensures Now(p, y) != t.n2 {
      if y != p0.entry {
        var x :| x in p0.sucs && !p0.IsBranch(x) && y in p0.sucs[x];
        assert SimulatesAt(p0, p, x);
        assert Now(p, y) in p.sucs[x];
      }
    }
  }

  lemma DecidedStarts(p: Prog)
    requires Fresh(p) && Sealed(p)
    ensures Decided(p, p, true)
  {
    UprightStarts(p);
    SimulatesSelf(p);
  }

  lemma {:induction false} RunDecided(p0: Prog, steps: seq<Step>)
    requires Fresh(p0) && Sealed(p0) && Legal(p0, steps)
    ensures Decided(p0, End(p0, steps), AllClean(p0, steps))
    decreases |steps|
  {
    hide Decided, Chosen, Result, Fresh, Sealed, Clean;
    if steps == [] {
      DecidedStarts(p0);
    } else {
      RunDecided(p0, steps[..|steps| - 1]);
      DecidedStep(p0, End(p0, steps[..|steps| - 1]), AllClean(p0, steps[..|steps| - 1]), steps[|steps| - 1]);
    }
  }

  /** On a sealed program a run keeps the meaning if and only if every fusion was clean. */
  lemma SimulatesIffClean(p0: Prog, steps: seq<Step>)
    requires Fresh(p0) && Sealed(p0) && Legal(p0, steps)
    ensures Simulates(p0, End(p0, steps)) <==> AllClean(p0, steps)
  {
    RunDecided(p0, steps);
    hide Simulates, Broken, Fresh, Sealed, Legal, AllClean, End, Upright;
    if !AllClean(p0, steps) { BrokenBreaks(p0, End(p0, steps)); }
  }

  /** A run of clean fusions keeps the meaning of any wired program. */
  lemma {:induction false} CleanRunSimulates(p0: Prog, steps: seq<Step>)
    requires p0.Valid() && p0.Wired() && p0.nodeMap == map[] && Legal(p0, steps) && AllClean(p0, steps)
    ensures Simulates(p0, End(p0, steps))
    decreases |steps|
  {
    hide Chosen, Clean, Result, Simulates, Prog.Wired;
    if steps == [] {
      SimulatesSelf(p0);
    } else {
      CleanRunSimulates(p0, steps[..|steps| - 1]);
      SimulatesStep(p0, End(p0, steps[..|steps| - 1]), steps[|steps| - 1]);
    }
  }

  /** Every run on a tame program is clean. */
  lemma {:induction false} TameRunIsClean(p0: Prog, steps: seq<Step>)
    requires p0.Valid() && p0.Wired() && p0.nodeMap == map[] && Tame(p0) && Legal(p0, steps)
    ensures AllClean(p0, steps) && End(p0, steps).Valid() && Tame(End(p0, steps))
    decreases |steps|
  {
    hide Chosen, Clean, Result, Simulates, Prog.Wired, Tame, Prog.Valid;
    if steps != [] {
      var before, t := steps[..|steps| - 1], steps[|steps| - 1];
      TameRunIsClean(p0, before);
      CleanRunSimulates(p0, before);
      SimulationWired(p0, End(p0, before));
      TameIsClean(End(p0, before), t);
      TameStep(End(p0, before), t);
    }
  }

  lemma {:induction false} RunBegins(p0: Prog, steps: seq<Step>)
    requires Legal(p0, steps) && steps != []
    ensures Chosen(p0, steps[0]) && (AllClean(p0, steps) ==> Clean(p0, steps[0]))
    decreases |steps|
  {
    hide Chosen, Clean, Result;
    if |steps| == 1 {
      assert steps[..0] == [];
    } else {
      RunBegins(p0, steps[..|steps| - 1]);
    }
  }

  lemma LoopBranches(b: NodeId)
    ensures LoopAtEntry().IsBranch(b) <==> b == 0 || b == 2
    ensures LoopAtEntry().IsBranch(b) ==> LoopAtEntry().blocks[b].cond == Test(b, Ne)
  {
  }

  lemma LoopStarts()
    ensures Chain(LoopAtEntry(), [0]) && Chain(LoopAtEntry(), [2])
  {
    var p := LoopAtEntry();
    assert 1 in p.sucs && !p.IsBranch(1) && 2 in p.sucs[1];
    assert Start(p, 2) && Start(p, 0);
  }

  lemma LoopEntered()
    ensures Entered(LoopAtEntry())
  {
    LoopStarts();
    hide Start;
    forall b | LoopAtEntry().IsBranch(b) ensures exists c :: Chain(LoopAtEntry(), c) && c[|c| - 1] == b {
      LoopBranches(b);
      assert [b][|[b]| - 1] == b;
    }
  }

  lemma LoopParts()
    ensures LoopAtEntry().nodeMap == map[] && LoopAtEntry().inCatch == {}
  {
  }

  lemma LoopIsFresh()
    ensures Fresh(LoopAtEntry()) && Sealed(LoopAtEntry())
  {
    LoopAtEntryShape();
    LoopStarts();
    LoopParts();
    hide LoopAtEntry, Chain, Prog.Valid, Prog.Wired, Callers, Start, Entered;
    forall b | LoopAtEntry().IsBranch(b) ensures LoopAtEntry().blocks[b].cond == Test(b, Ne) { LoopBranches(b); }
    LoopEntered();
  }

  /** The loop at the method entry admits one fusion, and that one is not clean. */
  lemma LoopHasOneFusion(t: Step)
    requires Chosen(LoopAtEntry(), t)
    ensures t.n1 == 2 && t.n2 == 0 && t.isAnd && !t.isNot && !Clean(LoopAtEntry(), t)
  {
    hide Callers;
  }

  /** So every run that fuses anything on it changes its meaning. */
  lemma LoopRunBreaks(steps: seq<Step>)
    requires Legal(LoopAtEntry(), steps) && steps != []
    ensures !Simulates(LoopAtEntry(), End(LoopAtEntry(), steps))
  {
    hide Fresh, Sealed, Simulates, Chosen, Clean, LoopAtEntry;
    LoopIsFresh();
    RunBegins(LoopAtEntry(), steps);
    LoopHasOneFusion(steps[0]);
    SimulatesIffClean(LoopAtEntry(), steps);
  }
}
