/** Whole runs of fusions: exactly when a run keeps the meaning of the program it started
    from. */
module FusionRuns {
  import opened Graphs
  import opened Conditions
  import opened Fusion

  /** The program after a run; a step that does not fit changes nothing. */
  ghost function End(p: Prog, steps: seq<Step>): Prog
    decreases |steps|
  {
    if steps == [] then p
    else
      var q, t := End(p, steps[..|steps| - 1]), steps[|steps| - 1];
      if Chosen(q, t) then Result(q, t) else q
  }

  /** Every step fits the program it meets. */
  ghost predicate Legal(p: Prog, steps: seq<Step>)
    decreases |steps|
  {
    steps == [] || (Legal(p, steps[..|steps| - 1]) && Chosen(End(p, steps[..|steps| - 1]), steps[|steps| - 1]))
  }

  ghost predicate AllClean(p: Prog, steps: seq<Step>)
    requires Legal(p, steps)
    decreases |steps|
  {
    steps == [] || (AllClean(p, steps[..|steps| - 1]) && Clean(End(p, steps[..|steps| - 1]), steps[|steps| - 1]))
  }

  /** One step more. */
  lemma RunMore(p: Prog, steps: seq<Step>, t: Step)
    requires Legal(p, steps) && Chosen(End(p, steps), t)
    ensures Legal(p, steps + [t]) && End(p, steps + [t]) == Result(End(p, steps), t)
    ensures AllClean(p, steps + [t]) <==> AllClean(p, steps) && Clean(End(p, steps), t)
  {
    assert (steps + [t])[..|steps|] == steps;
  }

  /** Every test is an instruction of its own. */
  ghost predicate DistinctTests(p: Prog) {
    && (forall b :: p.IsBranch(b) ==> TestsOnce(p.blocks[b].cond))
    && forall a, b :: p.IsBranch(a) && p.IsBranch(b) && a != b ==> Tests(p.blocks[a].cond) !! Tests(p.blocks[b].cond)
  }

  /** What a fusion leaves of the conditional blocks: those that survive keep their tests,
      and the fused one joins two. */
  lemma BranchesAfter(p: Prog, t: Step, b: NodeId)
    requires Chosen(p, t) && Result(p, t).IsBranch(b)
    ensures b != t.m ==> Survives(p, t, b) && p.IsBranch(b) && Result(p, t).blocks[b].cond == p.blocks[b].cond
    ensures b == t.m ==> Result(p, t).blocks[b] == NewBlock(p, t)
  {
    MergeAt(p, t, b);
  }

  lemma NewCond(p: Prog, t: Step)
    requires Chosen(p, t)
    ensures var c := NewBlock(p, t).cond;
      c.Join? && c.first == p.blocks[t.n1].cond && c.second == p.blocks[t.n2].cond
  {
  }

  /** Fusing keeps every test an instruction of its own. */
  lemma DistinctStep(p: Prog, t: Step)
    requires Chosen(p, t) && DistinctTests(p)
    ensures DistinctTests(Result(p, t))
  {
    hide *;
    var r := Result(p, t);
    forall a | r.IsBranch(a)
      ensures a in r.blocks && r.blocks[a].Branch? && TestsOnce(r.blocks[a].cond)
    {
      DistinctAt(p, t, a);
    }
    forall a, b | r.IsBranch(a) && r.IsBranch(b) && a != b
      ensures a in r.blocks && b in r.blocks && r.blocks[a].Branch? && r.blocks[b].Branch?
      ensures Tests(r.blocks[a].cond) !! Tests(r.blocks[b].cond)
    {
      DistinctAt(p, t, a);
      DistinctAt(p, t, b);
      DistinctTwo(p, t, a, b);
    }
    DistinctBy(r);
  }

  lemma DistinctAt(p: Prog, t: Step, a: NodeId)
    requires Chosen(p, t) && DistinctTests(p) && Result(p, t).IsBranch(a)
    ensures var r := Result(p, t); a in r.blocks && r.blocks[a].Branch? && TestsOnce(r.blocks[a].cond)
  {
    NewCond(p, t);
    BranchesAfter(p, t, a);
    hide Result, NewBlock, Fusable, Merge;
  }

  lemma DistinctTwo(p: Prog, t: Step, a: NodeId, b: NodeId)
    requires Chosen(p, t) && DistinctTests(p) && Result(p, t).IsBranch(a) && Result(p, t).IsBranch(b) && a != b
    ensures Tests(Result(p, t).blocks[a].cond) !! Tests(Result(p, t).blocks[b].cond)
  {
    NewCond(p, t);
    BranchesAfter(p, t, a);
    BranchesAfter(p, t, b);
    hide Result, NewBlock, Fusable, Merge;
  }

  lemma DistinctBy(p: Prog)
    requires forall a :: p.IsBranch(a) ==> TestsOnce(p.blocks[a].cond)
    requires forall a, b :: p.IsBranch(a) && p.IsBranch(b) && a != b ==>
      Tests(p.blocks[a].cond) !! Tests(p.blocks[b].cond)
    ensures DistinctTests(p)
  {
  }

  /** So the two blocks of a fusion never start with the same test. */
  lemma DistinctFirst(p: Prog, t: Step)
    requires Chosen(p, t) && DistinctTests(p)
    ensures p.blocks[t.n1].cond.FirstTest() != p.blocks[t.n2].cond.FirstTest()
  {
    EvalRuns(p.blocks[t.n1].cond, []);
    EvalRuns(p.blocks[t.n2].cond, []);
  }

  /** Where an execution of tests may begin: at the entry, or behind a plain block. */
  ghost predicate Start(p: Prog, y: NodeId) {
    y == p.entry || exists x :: x in p.sucs && !p.IsBranch(x) && y in p.sucs[x]
  }

  /** Executions of `p` from a start run test `v` just after test `u`. */
  ghost predicate RealPair(p: Prog, u: nat, v: nat) {
    exists y, s, j: nat :: Start(p, y) && PairAt(p, y, s, j, u, v)
  }

  ghost predicate PairAt(p: Prog, y: NodeId, s: Operands, j: nat, u: nat, v: nat) {
    var ts := p.Walk(y, s).tests;
    0 < j < |ts| && ts[j - 1] == u && ts[j] == v
  }

  /** Executions from a start run test `v` first. */
  ghost predicate RealFirst(p: Prog, v: nat) {
    exists y, s :: Start(p, y) && FirstAt(p, y, s, v)
  }

  ghost predicate FirstAt(p: Prog, y: NodeId, s: Operands, v: nat) {
    var ts := p.Walk(y, s).tests;
    |ts| > 0 && ts[0] == v
  }

  /** Every conditional block guards the test. */
  ghost predicate AllGuard(p: Prog, v: nat, before: set<nat>) {
    forall b :: p.IsBranch(b) ==> Guarded(p.blocks[b].cond, v, before)
  }

  /** Then so does every walk. */
  lemma {:induction false} WalkGuarded(p: Prog, v: nat, before: set<nat>, y: NodeId, s: Operands, j: nat)
    requires AllGuard(p, v, before)
    requires j < |p.Walk(y, s).tests| && p.Walk(y, s).tests[j] == v
    ensures j > 0 && p.Walk(y, s).tests[j - 1] in before
    decreases |s|
  {
    if p.IsBranch(y) {
      var c := p.blocks[y].cond;
      var o := Eval(c.Print(), s);
      if j < |o.tests| {
        assert RunsAt(c, s, j, v);
      } else {
        WalkGuarded(p, v, before, if o.value then p.blocks[y].onTrue else p.blocks[y].onFalse, o.rest, j - |o.tests|);
      }
    }
  }

  /** A test that the original runs first, or just after some test, now only runs after
      others. */
  ghost predicate OutOfOrder(p0: Prog, p: Prog) {
    exists v: nat, before :: AllGuard(p, v, before) && (RealFirst(p0, v) || OtherPair(p0, v, before))
  }

  ghost predicate OtherPair(p0: Prog, v: nat, before: set<nat>) {
    exists u: nat :: u !in before && RealPair(p0, u, v)
  }

  lemma GuardPersists(p: Prog, t: Step, v: nat, before: set<nat>)
    requires Chosen(p, t) && AllGuard(p, v, before)
    ensures AllGuard(Result(p, t), v, before)
  {
    hide Guarded, Result, NewBlock, Fusable, Merge;
    NewCond(p, t);
    JoinGuarded(NewBlock(p, t).cond, v, before);
    forall b | Result(p, t).IsBranch(b) ensures Guarded(Result(p, t).blocks[b].cond, v, before) {
      BranchesAfter(p, t, b);
    }
  }

  lemma OutOfOrderPersists(p0: Prog, p: Prog, t: Step)
    requires Chosen(p, t) && OutOfOrder(p0, p)
    ensures OutOfOrder(p0, Result(p, t))
  {
    hide AllGuard, RealFirst, OtherPair, Result, Chosen;
    var v: nat, before :| AllGuard(p, v, before) && (RealFirst(p0, v) || OtherPair(p0, v, before));
    GuardPersists(p, t, v, before);
  }

  /** A simulation runs the same walks from every start. */
  lemma StartsSimulated(p0: Prog, p: Prog, y: NodeId)
    requires Simulates(p0, p) && Start(p0, y)
    ensures SameWalk(p0, y, p, Resolve(p.nodeMap, y))
  {
    hide SameWalk;
    if y != p0.entry {
      var x :| x in p0.sucs && !p0.IsBranch(x) && y in p0.sucs[x];
      assert SimulatesAt(p0, p, x);
    }
  }

  /** No simulation runs a test out of order. */
  lemma OutOfOrderBreaks(p0: Prog, p: Prog)
    requires OutOfOrder(p0, p)
    ensures !Simulates(p0, p)
  {
    if Simulates(p0, p) {
      hide Simulates, AllGuard, Prog.Walk, Start;
      var v: nat, before :| AllGuard(p, v, before) && (RealFirst(p0, v) || OtherPair(p0, v, before));
      if RealFirst(p0, v) {
        var y, s :| Start(p0, y) && FirstAt(p0, y, s, v);
        StartsSimulated(p0, p, y);
        assert p.Walk(Resolve(p.nodeMap, y), s) == p0.Walk(y, s);
        WalkGuarded(p, v, before, Resolve(p.nodeMap, y), s, 0);
      } else {
        var u: nat :| u !in before && RealPair(p0, u, v);
        var y, s, j: nat :| Start(p0, y) && PairAt(p0, y, s, j, u, v);
        StartsSimulated(p0, p, y);
        assert p.Walk(Resolve(p.nodeMap, y), s) == p0.Walk(y, s);
        WalkGuarded(p, v, before, Resolve(p.nodeMap, y), s, j);
      }
    }
  }

  predicate BranchesTo(b: Block, d: NodeId) {
    b.Branch? && (d == b.onTrue || d == b.onFalse)
  }

  /** The fused block leads where the second one led. */
  lemma NewTargets(p: Prog, t: Step)
    requires Chosen(p, t)
    ensures forall d :: BranchesTo(NewBlock(p, t), d) <==> BranchesTo(p.blocks[t.n2], d)
    ensures BranchesTo(p.blocks[t.n1], t.n2)
    ensures forall d :: BranchesTo(p.blocks[t.n1], d) ==> d == t.n2 || BranchesTo(p.blocks[t.n2], d)
  {
  }

  /** Where a branch target stands now. */
  function Now(p: Prog, d: NodeId): NodeId {
    Resolve(p.nodeMap, d)
  }

  /** Targets stand for live blocks, and edges go to what targets stand for. */
  ghost predicate BranchAt(p: Prog, b: NodeId) {
    && b in p.sucs && b in p.blocks
    && (forall d :: BranchesTo(p.blocks[b], d) ==> Now(p, d) in p.nodes)
    && forall z :: z in p.sucs[b] ==> exists d :: BranchesTo(p.blocks[b], d) && Now(p, d) == z
  }

  /** A plain block of the original is still plain and leads at most to what its successors
      became; a catch handler's gains no new successor. */
  ghost predicate PlainAt(p0: Prog, p: Prog, x: NodeId) {
    && x in p.sucs && x in p0.sucs && !p.IsBranch(x)
    && (forall z :: z in p.sucs[x] ==> exists y :: y in p0.sucs[x] && Now(p, y) == z)
    && (x in p.inCatch ==> p.sucs[x] <= p0.sucs[x])
  }

  /** How the blocks of `p` come from those of `p0`. */
  ghost predicate Stems(p0: Prog, p: Prog) {
    && p0.Valid() && p.Valid() && p.entry == Now(p, p0.entry)
    && (forall k :: k in p0.nodes ==> k in p.nodes || k in p.nodeMap)
    && (forall k :: k in p.nodeMap ==> p.nodeMap[k] !in p0.nodes)
    && (forall x :: x in p.nodes && !p.IsBranch(x) ==> x in p0.nodes && !p0.IsBranch(x))
    && (forall x :: x in p0.nodes && !p0.IsBranch(x) ==> PlainAt(p0, p, x))
    && forall b :: p.IsBranch(b) ==> BranchAt(p, b)
  }

  lemma StemsStarts(p: Prog)
    requires p.Valid() && p.Wired() && p.nodeMap == map[]
    ensures Stems(p, p)
  {
    forall b | p.IsBranch(b) ensures BranchAt(p, b) {
      assert p.WiredAt(b);
      assert forall z :: z in p.sucs[b] ==> BranchesTo(p.blocks[b], z) && Now(p, z) == z;
    }
    forall x | x in p.nodes && !p.IsBranch(x) ensures PlainAt(p, p, x) {
      assert forall z :: z in p.sucs[x] ==> Now(p, z) == z;
    }
  }

  /** Where a target stands after a fusion. */
  lemma NowAfter(p: Prog, t: Step, d: NodeId)
    requires Chosen(p, t) && Now(p, d) in p.nodes
    ensures Now(Result(p, t), d) == Rename(t, Now(p, d)) && Now(Result(p, t), d) in Result(p, t).nodes
    ensures Now(Result(p, t), Now(Result(p, t), d)) == Now(Result(p, t), d)
  {
    hide Result, Chosen, Prog.Valid;
    ResolveMoved(p, t, d);
    ResultValid(p, t);
    LiveIsItself(Result(p, t));
    MergeNodesOf(p, t);
  }

  lemma LiveIsItself(p: Prog)
    requires p.Valid()
    ensures forall n :: n in p.nodes ==> Now(p, n) == n
  {
  }

  lemma MergeNodesOf(p: Prog, t: Step)
    requires Chosen(p, t)
    ensures Result(p, t).nodes == p.nodes - {t.n1, t.n2} + {t.m} && t.n1 in p.nodes && t.n2 in p.nodes
    ensures t.m !in p.nodes
  {
    MergeAt(p, t, t.m);
  }

  /** The block a surviving or fused block takes its targets from. */
  function Origin(t: Step, b: NodeId): NodeId {
    if b == t.m then t.n2 else b
  }

  /** A target after a fusion stands for what an old target stands for, renamed. */
  lemma TargetAfter(p: Prog, t: Step, b: NodeId, d': NodeId) returns (d: NodeId)
    requires Chosen(p, t) && Result(p, t).IsBranch(b) && BranchesTo(Result(p, t).blocks[b], d')
    requires forall a :: p.IsBranch(a) ==> BranchAt(p, a)
    ensures p.IsBranch(Origin(t, b)) && BranchesTo(p.blocks[Origin(t, b)], d) && Now(p, d) in p.nodes
    ensures Now(Result(p, t), d') == Rename(t, Now(p, d))
  {
    MergeAt(p, t, b);
    NewTargets(p, t);
    hide Merge, Moved, Fused, Fusable, Result, Prog.Valid;
    BranchesAfter(p, t, b);
    d := d';
    if b != t.m && Calls(p, t, b) {
      var o := p.blocks[b];
      d := if d' == Now(Result(p, t), o.onTrue) then o.onTrue else o.onFalse;
    }
    assert BranchAt(p, Origin(t, b));
    NowAfter(p, t, d);
  }

  /** Targets after a fusion stand for live blocks. */
  lemma TargetsLive(p: Prog, t: Step, b: NodeId)
    requires Chosen(p, t) && Result(p, t).IsBranch(b)
    requires forall a :: p.IsBranch(a) ==> BranchAt(p, a)
    ensures forall d' :: BranchesTo(Result(p, t).blocks[b], d') ==> Now(Result(p, t), d') in Result(p, t).nodes
  {
    hide Result, Chosen, BranchAt;
    forall d' | BranchesTo(Result(p, t).blocks[b], d') ensures Now(Result(p, t), d') in Result(p, t).nodes {
      var d := TargetAfter(p, t, b, d');
      MergeNodesOf(p, t);
    }
  }

  /** An old target of a block has a counterpart after a fusion. */
  lemma TargetKept(p: Prog, t: Step, b: NodeId, d: NodeId) returns (d': NodeId)
    requires Chosen(p, t) && Result(p, t).IsBranch(b)
    requires p.IsBranch(Origin(t, b)) && BranchesTo(p.blocks[Origin(t, b)], d) && Now(p, d) in p.nodes
    ensures BranchesTo(Result(p, t).blocks[b], d') && Now(Result(p, t), d') == Rename(t, Now(p, d))
  {
    MergeAt(p, t, b);
    NewTargets(p, t);
    hide Merge, Moved, Fused, Fusable, Result, Prog.Valid;
    BranchesAfter(p, t, b);
    NowAfter(p, t, d);
    d' := if b != t.m && Calls(p, t, b) then Now(Result(p, t), d) else d;
  }

  /** The edges of a conditional block go to what its targets stand for. */
  lemma BranchStep(p: Prog, t: Step, b: NodeId)
    requires Chosen(p, t) && Result(p, t).IsBranch(b)
    requires forall a :: p.IsBranch(a) ==> BranchAt(p, a)
    ensures BranchAt(Result(p, t), b)
  {
    TargetsLive(p, t, b);
    MergeAt(p, t, b);
    forall z | z in Result(p, t).sucs[b]
      ensures exists d' :: BranchesTo(Result(p, t).blocks[b], d') && Now(Result(p, t), d') == z
    {
      var d := EdgeOrigin(p, t, b, z);
      var d' := TargetKept(p, t, b, d);
    }
  }

  /** Where an edge after a fusion comes from. */
  lemma EdgeOrigin(p: Prog, t: Step, b: NodeId, z: NodeId) returns (d: NodeId)
    requires Chosen(p, t) && Result(p, t).IsBranch(b)
    requires forall a :: p.IsBranch(a) ==> BranchAt(p, a)
    requires b in Result(p, t).sucs && z in Result(p, t).sucs[b]
    ensures p.IsBranch(Origin(t, b)) && BranchesTo(p.blocks[Origin(t, b)], d) && Now(p, d) in p.nodes
    ensures Rename(t, Now(p, d)) == z
  {
    MergeAt(p, t, b);
    BranchesAfter(p, t, b);
    NewTargets(p, t);
    assert BranchAt(p, Origin(t, b));
    assert BranchAt(p, t.n1);
    LiveIsItself(p);
    hide Merge, Moved, Fused, Fusable, Result, Prog.Valid;
    if b == t.m {
      if z in p.sucs[t.n2] {
        d :| BranchesTo(p.blocks[t.n2], d) && Now(p, d) == z;
      } else {
        d :| BranchesTo(p.blocks[t.n1], d) && Now(p, d) == z;
      }
    } else {
      var was := if z != t.m then z else if t.n1 in p.sucs[b] then t.n1 else t.n2;
      assert was in p.sucs[b];
      d :| BranchesTo(p.blocks[b], d) && Now(p, d) == was;
    }
  }

  /** A plain block stays as it was, up to what its successors became. */
  lemma PlainStep(p0: Prog, p: Prog, t: Step, x: NodeId)
    requires Chosen(p, t) && p0.Valid() && PlainAt(p0, p, x) && t.m !in p0.nodes
    ensures PlainAt(p0, Result(p, t), x)
  {
    PlainSurvives(p, t, x);
    MergeAt(p, t, x);
    KindKept(p, t, x);
    hide Merge, Moved, Fused, Fusable, Result, Redirect, Chosen, NewBlock, Prog.Valid;
    forall z | z in Result(p, t).sucs[x]
      ensures exists y :: y in p0.sucs[x] && Now(Result(p, t), y) == z
    {
      var y := PlainOrigin(p0, p, t, x, z);
    }
  }

  lemma PlainOrigin(p0: Prog, p: Prog, t: Step, x: NodeId, z: NodeId) returns (y: NodeId)
    requires Chosen(p, t) && PlainAt(p0, p, x)
    requires z in p.sucs[x] - {t.n1, t.n2} + (if Calls(p, t, x) then {t.m} else {})
    ensures y in p0.sucs[x] && Now(Result(p, t), y) == z
  {
    var was := if z != t.m then z else if t.n1 in p.sucs[x] then t.n1 else t.n2;
    assert was in p.sucs[x] && was in p.nodes;
    y :| y in p0.sucs[x] && Now(p, y) == was;
    NowAfter(p, t, y);
    hide Result;
  }

  lemma StemsBranches(p0: Prog, p: Prog, t: Step)
    requires Stems(p0, p) && Chosen(p, t)
    ensures forall b :: Result(p, t).IsBranch(b) ==> BranchAt(Result(p, t), b)
  {
    hide Chosen, Result, BranchAt, PlainAt, Prog.Valid;
    forall b | Result(p, t).IsBranch(b) ensures BranchAt(Result(p, t), b) { BranchStep(p, t, b); }
  }

  lemma StemsPlains(p0: Prog, p: Prog, t: Step)
    requires Stems(p0, p) && Chosen(p, t) && t.m !in p0.nodes
    ensures forall x :: x in p0.nodes && !p0.IsBranch(x) ==> PlainAt(p0, Result(p, t), x)
    ensures forall x :: x in Result(p, t).nodes && !Result(p, t).IsBranch(x) ==> x in p0.nodes && !p0.IsBranch(x)
  {
    hide Chosen, Result, BranchAt, PlainAt, Prog.Valid;
    forall x | x in p0.nodes && !p0.IsBranch(x) ensures PlainAt(p0, Result(p, t), x) { PlainStep(p0, p, t, x); }
    forall x | x in Result(p, t).nodes && !Result(p, t).IsBranch(x)
      ensures x in p0.nodes && !p0.IsBranch(x)
    {
      PlainBefore(p, t, x);
    }
  }

  lemma StemsEntry(p0: Prog, p: Prog, t: Step)
    requires Stems(p0, p) && Chosen(p, t)
    ensures p0.Valid() && Rename(t, p.entry) == Now(Result(p, t), p0.entry)
  {
    hide BranchAt, PlainAt, Result;
    NowAfter(p, t, p0.entry);
  }

  lemma StemsStep(p0: Prog, p: Prog, t: Step)
    requires Stems(p0, p) && Chosen(p, t)
    ensures Stems(p0, Result(p, t))
  {
    var r := Result(p, t);
    ResultValid(p, t);
    KeysAfter(p0, p, t);
    StemsEntry(p0, p, t);
    StemsBranches(p0, p, t);
    StemsPlains(p0, p, t);
    hide *;
    StemsBy(p0, r);
  }

  lemma StemsBy(p0: Prog, p: Prog)
    requires p0.Valid() && p.Valid() && p.entry == Now(p, p0.entry)
    requires forall k :: k in p0.nodes ==> k in p.nodes || k in p.nodeMap
    requires forall k :: k in p.nodeMap ==> p.nodeMap[k] !in p0.nodes
    requires forall x :: x in p.nodes && !p.IsBranch(x) ==> x in p0.nodes && !p0.IsBranch(x)
    requires forall x :: x in p0.nodes && !p0.IsBranch(x) ==> PlainAt(p0, p, x)
    requires forall b :: p.IsBranch(b) ==> BranchAt(p, b)
    ensures Stems(p0, p)
  {
    hide Prog.Valid, BranchAt, PlainAt, Prog.IsBranch;
  }

  lemma PlainBefore(p: Prog, t: Step, x: NodeId)
    requires Chosen(p, t) && x in Result(p, t).nodes && !Result(p, t).IsBranch(x)
    ensures x in p.nodes && !p.IsBranch(x)
  {
    MergeAt(p, t, t.m);
    MergeAt(p, t, x);
  }

  /** The bookkeeping of ids over a fusion. */
  lemma KeysAfter(p0: Prog, p: Prog, t: Step)
    requires Stems(p0, p) && Chosen(p, t)
    ensures var r := Result(p, t);
      && t.m !in p0.nodes && r.entry == Rename(t, p.entry)
      && (forall k :: k in p0.nodes ==> k in r.nodes || k in r.nodeMap)
      && (forall k :: k in r.nodeMap ==> r.nodeMap[k] !in p0.nodes)
  {
    MergeAt(p, t, t.m);
    hide BranchAt, PlainAt, Result, Merge, Redirect, NewBlock, Fusable, Fused;
    MovedIs(p.nodeMap, t);
    hide Moved, Stems;
    StemsKeys(p0, p, t);
  }

  lemma MovedIs(nodeMap: map<NodeId, NodeId>, t: Step)
    ensures var moved := Moved(nodeMap, t.n1, t.n2, t.m);
      && (forall k :: k in moved <==> k in nodeMap || k == t.n1 || k == t.n2)
      && forall k :: k in moved ==> moved[k] == t.m || (k in nodeMap && moved[k] == nodeMap[k])
  {
  }

  lemma StemsKeys(p0: Prog, p: Prog, t: Step)
    requires Stems(p0, p) && Chosen(p, t)
    ensures t.m !in p0.nodes
    ensures forall k :: k in p0.nodes ==> k in p.nodes || k in p.nodeMap
    ensures forall k :: k in p.nodeMap ==> p.nodeMap[k] !in p0.nodes
  {
    hide BranchAt, PlainAt, Fusable;
  }

  /** Every branch of `p` from one conditional block to another is a pair of tests that the
      original runs one after the other. */
  ghost predicate Follows(p0: Prog, p: Prog) {
    forall b, d :: p.IsBranch(b) && BranchesTo(p.blocks[b], d) && p.IsBranch(Now(p, d)) ==> FollowsAt(p0, p, b, d)
  }

  ghost predicate FollowsAt(p0: Prog, p: Prog, b: NodeId, d: NodeId)
    requires p.IsBranch(b) && p.IsBranch(Now(p, d))
  {
    exists u: nat :: u in Tests(p.blocks[b].cond) && RealPair(p0, u, p.blocks[Now(p, d)].cond.FirstTest())
  }

  /** What every start of the original became begins with a test the original runs first. */
  ghost predicate Begins(p0: Prog, p: Prog) {
    forall y :: Start(p0, y) && p.IsBranch(Now(p, y)) ==> RealFirst(p0, p.blocks[Now(p, y)].cond.FirstTest())
  }

  /** No other branch leads to `n2`. */
  ghost predicate OnlyBranch(p: Prog, t: Step) {
    forall b, d :: p.IsBranch(b) && b != t.n1 && BranchesTo(p.blocks[b], d) ==> Now(p, d) != t.n2
  }

  /** Nothing but `n1`, not even a start, leads to `n2`. */
  ghost predicate Private(p0: Prog, p: Prog, t: Step) {
    (forall y :: Start(p0, y) ==> Now(p, y) != t.n2) && OnlyBranch(p, t)
  }

  lemma FirstInTests(c: Cond)
    ensures c.FirstTest() in Tests(c)
  {
    EvalRuns(c, []);
  }

  /** Fusing a block that something else leads to runs its first test out of order. */
  lemma SharedSecondBreaks(p0: Prog, p: Prog, t: Step)
    requires Chosen(p, t) && DistinctTests(p) && Follows(p0, p) && Begins(p0, p) && !Private(p0, p, t)
    ensures OutOfOrder(p0, Result(p, t))
  {
    var c1, c2 := p.blocks[t.n1].cond, p.blocks[t.n2].cond;
    var v, before := c2.FirstTest(), Tests(c1);
    SecondIsGuarded(p, t);
    assert p.IsBranch(t.n2) && p.IsBranch(t.n1);
    hide Chosen, Result, AllGuard, RealFirst, RealPair, Start;
    if y :| Start(p0, y) && Now(p, y) == t.n2 {
      assert RealFirst(p0, v);
    } else {
      var b, d :| p.IsBranch(b) && b != t.n1 && BranchesTo(p.blocks[b], d) && Now(p, d) == t.n2;
      assert FollowsAt(p0, p, b, d);
      var u: nat :| u in Tests(p.blocks[b].cond) && RealPair(p0, u, v);
      assert u !in before;
      assert OtherPair(p0, v, before);
    }
  }

  lemma SecondIsGuarded(p: Prog, t: Step)
    requires Chosen(p, t) && DistinctTests(p)
    ensures AllGuard(Result(p, t), p.blocks[t.n2].cond.FirstTest(), Tests(p.blocks[t.n1].cond))
  {
    var c := NewBlock(p, t).cond;
    var v := p.blocks[t.n2].cond.FirstTest();
    DistinctStep(p, t);
    NewCond(p, t);
    FirstInTests(p.blocks[t.n2].cond);
    MergeAt(p, t, t.m);
    assert p.IsBranch(t.n2) && Result(p, t).IsBranch(t.m);
    SecondGuarded(c);
    hide Result, NewBlock, Chosen, Guarded, Tests, TestsOnce, Fusable;
    forall b | Result(p, t).IsBranch(b) ensures Guarded(Result(p, t).blocks[b].cond, v, Tests(c.first)) {
      BranchesAfter(p, t, b);
      if b != t.m { AbsentGuarded(p.blocks[b].cond, v, Tests(c.first)); }
    }
  }

  /** A private fusion moves no first test. */
  lemma FirstAfter(p: Prog, t: Step, z: NodeId)
    requires Chosen(p, t) && z in p.nodes && z != t.n2
    ensures Result(p, t).IsBranch(Rename(t, z)) <==> p.IsBranch(z)
    ensures p.IsBranch(z) ==> Result(p, t).blocks[Rename(t, z)].cond.FirstTest() == p.blocks[z].cond.FirstTest()
  {
    MergeAt(p, t, Rename(t, z));
    NewCond(p, t);
  }

  lemma TestsAfter(p: Prog, t: Step, b: NodeId)
    requires Chosen(p, t) && Result(p, t).IsBranch(b)
    ensures p.IsBranch(Origin(t, b)) && Tests(p.blocks[Origin(t, b)].cond) <= Tests(Result(p, t).blocks[b].cond)
    ensures Origin(t, b) != t.n1
  {
    BranchesAfter(p, t, b);
    NewCond(p, t);
  }

  lemma FollowsStep(p0: Prog, p: Prog, t: Step)
    requires Stems(p0, p) && Chosen(p, t) && Follows(p0, p) && Private(p0, p, t)
    ensures Follows(p0, Result(p, t))
  {
    var r := Result(p, t);
    hide Result, Chosen, RealPair, BranchAt, PlainAt;
    forall b, d' | r.IsBranch(b) && BranchesTo(r.blocks[b], d') && r.IsBranch(Now(r, d'))
      ensures FollowsAt(p0, r, b, d')
    {
      var d := TargetAfter(p, t, b, d');
      TestsAfter(p, t, b);
      FirstAfter(p, t, Now(p, d));
      assert FollowsAt(p0, p, Origin(t, b), d);
    }
  }

  lemma StartLive(p0: Prog, p: Prog, y: NodeId)
    requires Stems(p0, p) && Start(p0, y)
    ensures y in p0.nodes && Now(p, y) in p.nodes
  {
  }

  lemma BeginsStep(p0: Prog, p: Prog, t: Step)
    requires Stems(p0, p) && Chosen(p, t) && Begins(p0, p) && Private(p0, p, t)
    ensures Begins(p0, Result(p, t))
  {
    var r := Result(p, t);
    hide Result, Chosen, RealFirst, Stems, Start;
    forall y | Start(p0, y) && r.IsBranch(Now(r, y))
      ensures RealFirst(p0, r.blocks[Now(r, y)].cond.FirstTest())
    {
      StartLive(p0, p, y);
      NowAfter(p, t, y);
      FirstAfter(p, t, Now(p, y));
    }
  }

  /** A chain of conditional blocks from a start, each a branch target of the one before. */
  ghost predicate Chain(p: Prog, c: seq<NodeId>) {
    && |c| > 0 && Start(p, c[0])
    && forall i: nat :: i + 1 < |c| ==> Link(p, c, i)
  }

  ghost predicate Link(p: Prog, c: seq<NodeId>, i: nat)
    requires i + 1 < |c|
  {
    p.IsBranch(c[i]) && BranchesTo(p.blocks[c[i]], c[i + 1])
  }

  /** Every conditional block can be come to along normal edges. */
  ghost predicate Entered(p: Prog) {
    forall b :: p.IsBranch(b) ==> exists c :: Chain(p, c) && c[|c| - 1] == b
  }

  /** From `y`, after some operands and tests, executions are at `b`. */
  ghost predicate ComesTo(p: Prog, y: NodeId, s: Operands, ts: seq<nat>, b: NodeId) {
    forall r: Operands :: p.Walk(y, s + r) == p.Walk(b, r).After(ts)
  }

  /** A branch can be taken either way. */
  lemma TakeBranch(p: Prog, b: NodeId, d: NodeId) returns (s: Operands, ts: seq<nat>)
    requires p.IsBranch(b) && BranchesTo(p.blocks[b], d)
    ensures ComesTo(p, b, s, ts, d) && |ts| > 0 && ts[|ts| - 1] in Tests(p.blocks[b].cond)
  {
    var v := d == p.blocks[b].onTrue;
    s, ts := Steer(p.blocks[b].cond, v);
    forall r: Operands ensures p.Walk(b, s + r) == p.Walk(d, r).After(ts) {
      assert Eval(p.blocks[b].cond.Print(), s + r) == Decided(v, ts, r);
    }
  }

  lemma ComesOn(p: Prog, y: NodeId, s: Operands, ts: seq<nat>, b: NodeId, s2: Operands, ts2: seq<nat>, d: NodeId)
    requires ComesTo(p, y, s, ts, b) && ComesTo(p, b, s2, ts2, d)
    ensures ComesTo(p, y, s + s2, ts + ts2, d)
  {
    hide Prog.Walk;
    forall r: Operands ensures p.Walk(y, s + s2 + r) == p.Walk(d, r).After(ts + ts2) {
      assert s + s2 + r == s + (s2 + r);
      AfterAfter(p.Walk(d, r), ts, ts2);
    }
  }

  lemma {:induction false} ChainComes(p: Prog, c: seq<NodeId>) returns (s: Operands, ts: seq<nat>)
    requires Chain(p, c)
    ensures ComesTo(p, c[0], s, ts, c[|c| - 1])
    decreases |c|
  {
    if |c| == 1 {
      s, ts := [], [];
      ComesNowhere(p, c[0]);
    } else {
      assert Link(p, c, |c| - 2);
      ChainPrefix(p, c);
      var s1, ts1 := ChainComes(p, c[..|c| - 1]);
      var s2, ts2 := TakeBranch(p, c[|c| - 2], c[|c| - 1]);
      ComesOn(p, c[0], s1, ts1, c[|c| - 2], s2, ts2, c[|c| - 1]);
      s, ts := s1 + s2, ts1 + ts2;
    }
  }

  lemma ChainPrefix(p: Prog, c: seq<NodeId>)
    requires Chain(p, c) && |c| > 1
    ensures Chain(p, c[..|c| - 1])
  {
    hide Start;
    var shorter := c[..|c| - 1];
    forall i: nat | i + 1 < |shorter| ensures Link(p, shorter, i) {
      assert Link(p, c, i);
    }
  }

  lemma ComesNowhere(p: Prog, y: NodeId)
    ensures ComesTo(p, y, [], [], y)
  {
    hide Prog.Walk;
    forall r: Operands ensures p.Walk(y, [] + r) == p.Walk(y, r).After([]) {
      assert [] + r == r;
      assert [] + p.Walk(y, r).tests == p.Walk(y, r).tests;
    }
  }

  /** A block without operands asks for its first test. */
  lemma WaitsForFirst(p: Prog, b: NodeId)
    requires p.IsBranch(b)
    ensures p.Walk(b, []) == Waiting([p.blocks[b].cond.FirstTest()])
  {
    FirstAsked(p.blocks[b].cond);
  }

  /** In the original, its own branches are pairs it runs, and its starts are first. */
  lemma FollowsItself(p: Prog)
    requires p.Valid() && p.Wired() && p.nodeMap == map[] && Entered(p)
    ensures Follows(p, p) && Begins(p, p)
  {
    hide Prog.Walk, ComesTo, Start, Prog.Wired;
    forall b, d | p.IsBranch(b) && BranchesTo(p.blocks[b], d) && p.IsBranch(Now(p, d))
      ensures FollowsAt(p, p, b, d)
    {
      var c :| Chain(p, c) && c[|c| - 1] == b;
      var s1, ts1 := ChainComes(p, c);
      var s2, ts2 := TakeBranch(p, b, d);
      ComesOn(p, c[0], s1, ts1, b, s2, ts2, d);
      PairBetween(p, c[0], s1 + s2, ts1 + ts2, d);
    }
    forall y | Start(p, y) && p.IsBranch(Now(p, y))
      ensures RealFirst(p, p.blocks[Now(p, y)].cond.FirstTest())
    {
      WaitsForFirst(p, y);
      assert FirstAt(p, y, [], p.blocks[y].cond.FirstTest());
    }
  }

  lemma PairBetween(p: Prog, y: NodeId, s: Operands, ts: seq<nat>, d: NodeId)
    requires Start(p, y) && ComesTo(p, y, s, ts, d) && |ts| > 0 && p.IsBranch(d)
    ensures RealPair(p, ts[|ts| - 1], p.blocks[d].cond.FirstTest())
  {
    WaitsForFirst(p, d);
    hide Prog.Walk, Start;
    assert s + [] == s;
    assert p.Walk(y, s + []) == p.Walk(d, []).After(ts);
    assert PairAt(p, y, s, |ts|, ts[|ts| - 1], p.blocks[d].cond.FirstTest());
  }

  /** Runs tests like `Walk`, but goes to what a branch target stands for. */
  ghost function Trace(p: Prog, n: NodeId, s: Operands): Arrival
    decreases |s|
  {
    if !p.IsBranch(n) then Reached(n, [], s)
    else
      var o := Eval(p.blocks[n].cond.Print(), s);
      match o
      case Starved(ts) => Waiting(ts)
      case Decided(v, ts, rest) =>
        Trace(p, Now(p, if v then p.blocks[n].onTrue else p.blocks[n].onFalse), rest).After(ts)
  }

  /** In a wired program targets stand for themselves. */
  lemma {:induction false} TraceIsWalk(p: Prog, n: NodeId, s: Operands)
    requires p.Valid() && p.Wired()
    ensures Trace(p, n, s) == p.Walk(n, s)
    decreases |s|
  {
    if p.IsBranch(n) {
      var o := Eval(p.blocks[n].cond.Print(), s);
      assert p.WiredAt(n);
      hide Prog.Wired;
      if o.Decided? { TraceIsWalk(p, if o.value then p.blocks[n].onTrue else p.blocks[n].onFalse, o.rest); }
    }
  }

  /** Before the fusion, a trace from `n1` is one evaluation of the fused condition. */
  lemma FusedTrace(p: Prog, t: Step, s: Operands)
    requires Chosen(p, t)
    ensures var fused := NewBlock(p, t);
            var o := Eval(fused.cond.Print(), s);
            Trace(p, t.n1, s) ==
              if o.Starved? then Waiting(o.tests)
              else Trace(p, Now(p, if o.value then fused.onTrue else fused.onFalse), o.rest).After(o.tests)
  {
    var b1, b2 := p.blocks[t.n1], p.blocks[t.n2];
    LiveIsItself(p);
    if t.isNot { NegIsExact(b1.cond, s); }
    var o1 := Eval(b1.cond.Print(), s);
    if o1.Decided? && o1.value == (t.isAnd != t.isNot) {
      var o2 := Eval(b2.cond.Print(), o1.rest);
      if o2.Decided? {
        AfterAfter(Trace(p, Now(p, if o2.value then b2.onTrue else b2.onFalse), o2.rest), o1.tests, o2.tests);
      }
    }
  }

  /** The targets of a surviving block, one by one. */
  lemma BothTargetsAfter(p: Prog, t: Step, b: NodeId)
    requires Chosen(p, t) && p.IsBranch(b) && Survives(p, t, b) && BranchAt(p, b)
    ensures Result(p, t).IsBranch(b) && Result(p, t).blocks[b].cond == p.blocks[b].cond
    ensures Now(Result(p, t), Result(p, t).blocks[b].onTrue) == Rename(t, Now(p, p.blocks[b].onTrue))
    ensures Now(Result(p, t), Result(p, t).blocks[b].onFalse) == Rename(t, Now(p, p.blocks[b].onFalse))
  {
    MergeAt(p, t, b);
    NowAfter(p, t, p.blocks[b].onTrue);
    NowAfter(p, t, p.blocks[b].onFalse);
    hide Result, Chosen;
  }

  lemma FusedTargetsAfter(p: Prog, t: Step)
    requires Chosen(p, t) && BranchAt(p, t.n2)
    ensures var r, f := Result(p, t), NewBlock(p, t);
      && r.IsBranch(t.m) && r.blocks[t.m] == f && p.IsBranch(t.n2)
      && Now(r, f.onTrue) == Rename(t, Now(p, f.onTrue)) && Now(r, f.onFalse) == Rename(t, Now(p, f.onFalse))
      && BranchesTo(p.blocks[t.n2], f.onTrue) && BranchesTo(p.blocks[t.n2], f.onFalse)
      && Now(p, f.onTrue) in p.nodes && Now(p, f.onFalse) in p.nodes
  {
    MergeAt(p, t, t.m);
    NewTargets(p, t);
    var f := NewBlock(p, t);
    assert BranchesTo(f, f.onTrue) && BranchesTo(f, f.onFalse);
    NowAfter(p, t, f.onTrue);
    NowAfter(p, t, f.onFalse);
    hide Result, Chosen;
  }

  /** A fusion whose second block is private changes no trace. */
  lemma {:induction false} PrivateTrace(p: Prog, t: Step, z: NodeId, s: Operands)
    requires Chosen(p, t) && OnlyBranch(p, t) && z in p.nodes && z != t.n2
    requires forall a :: p.IsBranch(a) ==> BranchAt(p, a)
    ensures Trace(Result(p, t), Rename(t, z), s) == Trace(p, z, s)
    decreases |s|
  {
    hide Result, Chosen, BranchAt;
    if z == t.n1 {
      assert p.IsBranch(t.n2) && t.n1 != t.n2 by { BothBranch(p, t); }
      FusedTargetsAfter(p, t);
      FusedTrace(p, t, s);
      var f := NewBlock(p, t);
      var o := Eval(f.cond.Print(), s);
      if o.Decided? { PrivateTrace(p, t, Now(p, if o.value then f.onTrue else f.onFalse), o.rest); }
    } else if p.IsBranch(z) {
      BothTargetsAfter(p, t, z);
      var o := Eval(p.blocks[z].cond.Print(), s);
      var d := if o.Decided? && o.value then p.blocks[z].onTrue else p.blocks[z].onFalse;
      LiveTarget(p, z, d);
      if o.Decided? { PrivateTrace(p, t, Now(p, d), o.rest); }
    } else {
      PlainStays(p, t, z);
    }
  }

  lemma BothBranch(p: Prog, t: Step)
    requires Chosen(p, t)
    ensures p.IsBranch(t.n1) && p.IsBranch(t.n2) && t.n1 != t.n2
  {
  }

  lemma LiveTarget(p: Prog, b: NodeId, d: NodeId)
    requires p.IsBranch(b) && BranchesTo(p.blocks[b], d) && BranchAt(p, b)
    ensures Now(p, d) in p.nodes
  {
  }

  lemma PlainStays(p: Prog, t: Step, z: NodeId)
    requires Chosen(p, t) && z in p.nodes && !p.IsBranch(z)
    ensures !Result(p, t).IsBranch(z) && Rename(t, z) == z
  {
    MergeAt(p, t, z);
  }

  ghost predicate SameTrace(p0: Prog, y: NodeId, p: Prog) {
    forall s :: Trace(p, Now(p, y), s) == p0.Walk(y, s)
  }

  ghost predicate TracesKept(p0: Prog, p: Prog) {
    forall y :: Start(p0, y) ==> SameTrace(p0, y, p)
  }

  /** What holds as long as every fusion was private. */
  ghost predicate Upright(p0: Prog, p: Prog) {
    Stems(p0, p) && DistinctTests(p) && Follows(p0, p) && Begins(p0, p) && TracesKept(p0, p)
  }

  /** The program a run may start from: wired, nothing fused yet, every test an instruction
      of its own, and every conditional block come to along normal edges. */
  ghost predicate Fresh(p: Prog) {
    p.Valid() && p.Wired() && p.nodeMap == map[] && DistinctTests(p) && Entered(p)
  }

  lemma UprightStarts(p: Prog)
    requires Fresh(p)
    ensures Upright(p, p)
  {
    StemsStarts(p);
    FollowsItself(p);
    hide Prog.Walk, Trace, Prog.Wired, Follows, Begins, Stems, DistinctTests, Start;
    forall y | Start(p, y) ensures SameTrace(p, y, p) {
      forall s ensures Trace(p, y, s) == p.Walk(y, s) { TraceIsWalk(p, y, s); }
    }
  }

  lemma StemsBranch(p0: Prog, p: Prog)
    requires Stems(p0, p)
    ensures forall a :: p.IsBranch(a) ==> BranchAt(p, a)
  {
  }

  lemma TracesStep(p0: Prog, p: Prog, t: Step)
    requires Stems(p0, p) && TracesKept(p0, p) && Chosen(p, t) && Private(p0, p, t)
    ensures TracesKept(p0, Result(p, t))
  {
    StemsBranch(p0, p);
    hide Stems, Chosen, Result, Start, Trace, Prog.Walk, BranchAt, OnlyBranch;
    var r := Result(p, t);
    forall y | Start(p0, y) ensures SameTrace(p0, y, r) {
      StartLive(p0, p, y);
      NowAfter(p, t, y);
      assert SameTrace(p0, y, p);
      forall s ensures Trace(r, Now(r, y), s) == p0.Walk(y, s) {
        PrivateTrace(p, t, Now(p, y), s);
        assert Trace(p, Now(p, y), s) == p0.Walk(y, s);
      }
    }
  }

  lemma UprightStep(p0: Prog, p: Prog, t: Step)
    requires Upright(p0, p) && Chosen(p, t)
    ensures if Private(p0, p, t) then Upright(p0, Result(p, t)) else OutOfOrder(p0, Result(p, t))
  {
    hide Stems, DistinctTests, Follows, Begins, TracesKept, Chosen, Result, Private, OutOfOrder;
    if Private(p0, p, t) {
      StemsStep(p0, p, t);
      DistinctStep(p, t);
      FollowsStep(p0, p, t);
      BeginsStep(p0, p, t);
      TracesStep(p0, p, t);
    } else {
      SharedSecondBreaks(p0, p, t);
    }
  }

  ghost predicate AllPrivate(p0: Prog, steps: seq<Step>)
    decreases |steps|
  {
    steps == []
    || (AllPrivate(p0, steps[..|steps| - 1])
        && Private(p0, End(p0, steps[..|steps| - 1]), steps[|steps| - 1]))
  }

  lemma {:induction false} RunUpright(p0: Prog, steps: seq<Step>)
    requires Fresh(p0) && Legal(p0, steps)
    ensures if AllPrivate(p0, steps) then Upright(p0, End(p0, steps)) else OutOfOrder(p0, End(p0, steps))
    decreases |steps|
  {
    hide Upright, OutOfOrder, Private, Chosen, Result, Fresh;
    if steps == [] {
      UprightStarts(p0);
    } else {
      var before, t := steps[..|steps| - 1], steps[|steps| - 1];
      RunUpright(p0, before);
      if AllPrivate(p0, before) {
        UprightStep(p0, End(p0, before), t);
      } else {
        OutOfOrderPersists(p0, End(p0, before), t);
      }
    }
  }

  /** The edges are what they should be: targets and edges agree, and plain blocks lead to
      what their successors became. */
  ghost predicate EdgesKept(p0: Prog, p: Prog) {
    && p.Valid() && p.Wired()
    && forall x :: x in p0.nodes && !p0.IsBranch(x) ==> EdgesAt(p0, p, x)
  }

  ghost predicate EdgesAt(p0: Prog, p: Prog, x: NodeId) {
    x in p0.sucs && x in p.sucs && p.sucs[x] == set y | y in p0.sucs[x] :: Now(p, y)
  }

  /** A run keeps the meaning of its program if and only if no fusion absorbed a second
      block that anything but the first led to, and the edges are right in the end. */
  lemma SimulatesIffPrivateAndEdges(p0: Prog, steps: seq<Step>)
    requires Fresh(p0) && Legal(p0, steps)
    ensures Simulates(p0, End(p0, steps)) <==> AllPrivate(p0, steps) && EdgesKept(p0, End(p0, steps))
  {
    RunUpright(p0, steps);
    var p := End(p0, steps);
    hide Upright, OutOfOrder, Fresh, AllPrivate, Legal, End;
    if AllPrivate(p0, steps) {
      if EdgesKept(p0, p) { UprightSimulates(p0, p); }
      if Simulates(p0, p) { SimulationEdges(p0, p); }
    } else {
      OutOfOrderBreaks(p0, p);
    }
  }

  lemma SimulationEdges(p0: Prog, p: Prog)
    requires Simulates(p0, p)
    ensures EdgesKept(p0, p)
  {
    hide Prog.Wired, SameWalk;
    forall x | x in p0.nodes && !p0.IsBranch(x) ensures EdgesAt(p0, p, x) {
      assert SimulatesAt(p0, p, x);
    }
  }

  lemma StartsWalk(p0: Prog, p: Prog, y: NodeId)
    requires TracesKept(p0, p) && p.Valid() && p.Wired() && Start(p0, y)
    ensures SameWalk(p0, y, p, Now(p, y))
  {
    hide Prog.Wired, Trace, Prog.Walk, Prog.Valid, Start;
    assert SameTrace(p0, y, p);
    forall s ensures p.Walk(Now(p, y), s) == p0.Walk(y, s) {
      TraceIsWalk(p, Now(p, y), s);
      assert Trace(p, Now(p, y), s) == p0.Walk(y, s);
    }
  }

  lemma PlainSimulated(p0: Prog, p: Prog, x: NodeId)
    requires TracesKept(p0, p) && EdgesKept(p0, p) && x in p0.nodes && !p0.IsBranch(x) && !p.IsBranch(x)
    ensures SimulatesAt(p0, p, x)
  {
    hide Prog.Wired, SameWalk, TracesKept, Prog.Valid;
    assert EdgesAt(p0, p, x);
    forall y | y in p0.sucs[x] ensures SameWalk(p0, y, p, Now(p, y)) {
      assert Start(p0, y);
      StartsWalk(p0, p, y);
    }
  }

  lemma UprightSimulates(p0: Prog, p: Prog)
    requires Upright(p0, p) && EdgesKept(p0, p)
    ensures Simulates(p0, p)
  {
    StemsParts(p0, p);
    StartsWalk(p0, p, p0.entry);
    hide Stems, DistinctTests, Follows, Begins, Prog.Wired, SameWalk, TracesKept, EdgesAt, SimulatesAt, Prog.Valid;
    forall x | x in p0.nodes && !p0.IsBranch(x) ensures SimulatesAt(p0, p, x) { PlainSimulated(p0, p, x); }
  }

  lemma StemsParts(p0: Prog, p: Prog)
    requires Stems(p0, p)
    ensures p0.Valid() && p.Valid() && p.entry == Now(p, p0.entry)
    ensures forall x :: x in p0.nodes && !p0.IsBranch(x) ==> !p.IsBranch(x)
  {
    forall x | x in p0.nodes && !p0.IsBranch(x) ensures !p.IsBranch(x) {
      assert PlainAt(p0, p, x);
    }
  }

  /** The program once every block's targets are mapped to what they became. */
  ghost function Remap(p: Prog): Prog {
    p.(blocks := map b | b in p.blocks :: Redirect(p.blocks[b], p.nodeMap))
  }

  /** Its walks are the traces. */
  lemma {:induction false} RemapWalk(p: Prog, n: NodeId, s: Operands)
    ensures Remap(p).Walk(n, s) == Trace(p, n, s)
    decreases |s|
  {
    if p.IsBranch(n) {
      var o := Eval(p.blocks[n].cond.Print(), s);
      if o.Decided? { RemapWalk(p, Now(p, if o.value then p.blocks[n].onTrue else p.blocks[n].onFalse), o.rest); }
    }
  }

  /** Every walk of the original from a start is one of the remapped program. */
  ghost predicate WalksKept(p0: Prog, p: Prog) {
    forall y :: Start(p0, y) ==> SameWalk(p0, y, Remap(p), Now(p, y))
  }

  lemma TracesAreWalks(p0: Prog, p: Prog)
    ensures TracesKept(p0, p) <==> WalksKept(p0, p)
  {
    hide Trace, Prog.Walk, Start;
    forall y ensures SameTrace(p0, y, p) <==> SameWalk(p0, y, Remap(p), Now(p, y)) {
      forall s ensures Remap(p).Walk(Now(p, y), s) == Trace(p, Now(p, y), s) { RemapWalk(p, Now(p, y), s); }
    }
  }

  /** A test out of order spoils some walk. */
  lemma OutOfOrderSpoils(p0: Prog, p: Prog)
    requires OutOfOrder(p0, p)
    ensures !WalksKept(p0, p)
  {
    hide Prog.Walk, Start, Guarded;
    var r := Remap(p);
    var v: nat, before :| AllGuard(p, v, before) && (RealFirst(p0, v) || OtherPair(p0, v, before));
    assert AllGuard(r, v, before);
    if RealFirst(p0, v) {
      var y, s :| Start(p0, y) && FirstAt(p0, y, s, v);
      FirstSpoils(p0, p, v, before, y, s);
    } else {
      var u: nat :| u !in before && RealPair(p0, u, v);
      var y, s, j: nat :| Start(p0, y) && PairAt(p0, y, s, j, u, v);
      PairSpoils(p0, p, u, v, before, y, s, j);
    }
  }

  lemma FirstSpoils(p0: Prog, p: Prog, v: nat, before: set<nat>, y: NodeId, s: Operands)
    requires AllGuard(Remap(p), v, before) && FirstAt(p0, y, s, v)
    ensures !SameWalk(p0, y, Remap(p), Now(p, y))
  {
    var r := Remap(p);
    hide AllGuard, Prog.Walk, Remap, Now;
    if r.Walk(Now(p, y), s) == p0.Walk(y, s) { WalkGuarded(r, v, before, Now(p, y), s, 0); }
  }

  lemma PairSpoils(p0: Prog, p: Prog, u: nat, v: nat, before: set<nat>, y: NodeId, s: Operands, j: nat)
    requires AllGuard(Remap(p), v, before) && PairAt(p0, y, s, j, u, v) && u !in before
    ensures !SameWalk(p0, y, Remap(p), Now(p, y))
  {
    var r := Remap(p);
    hide AllGuard, Prog.Walk, Remap, Now;
    if r.Walk(Now(p, y), s) == p0.Walk(y, s) { WalkGuarded(r, v, before, Now(p, y), s, j); }
  }

  /** With targets remapped, a run keeps every walk if and only if no fusion absorbed a second
      block that anything but the first led to. */
  lemma WalksIffPrivate(p0: Prog, steps: seq<Step>)
    requires Fresh(p0) && Legal(p0, steps)
    ensures WalksKept(p0, End(p0, steps)) <==> AllPrivate(p0, steps)
  {
    RunUpright(p0, steps);
    var p := End(p0, steps);
    hide OutOfOrder, Fresh, AllPrivate, Legal, End, WalksKept, TracesKept;
    TracesAreWalks(p0, p);
    if !AllPrivate(p0, steps) { OutOfOrderSpoils(p0, p); }
  }

  /** Where a plain block leads: outside catch handlers to what its successors became, inside
      to those of them that were not fused. */
  ghost predicate LeadsAt(p0: Prog, p: Prog, x: NodeId) {
    && x in p0.sucs && x in p.sucs && !p.IsBranch(x) && (x in p.inCatch <==> x in p0.inCatch)
    && (x in p0.inCatch ==> p.sucs[x] == set y | y in p0.sucs[x] && y !in p.nodeMap)
    && (x !in p0.inCatch ==> EdgesAt(p0, p, x))
  }

  lemma LeadsStep(p0: Prog, p: Prog, t: Step, x: NodeId)
    requires Chosen(p, t) && LeadsAt(p0, p, x) && forall y :: y in p0.sucs[x] ==> Now(p, y) in p.nodes
    ensures LeadsAt(p0, Result(p, t), x)
  {
    PlainSurvives(p, t, x);
    KindKept(p, t, x);
    MergeAt(p, t, x);
    hide Result, Chosen, Merge, Moved, Calls, Prog.IsBranch, Prog.Valid;
    MovedIs(p.nodeMap, t);
    if x in p0.inCatch {
      CaughtCallsNot(p, t, x);
    } else {
      FreeStep(p0, p, t, x);
    }
  }

  lemma CaughtCallsNot(p: Prog, t: Step, x: NodeId)
    requires Chosen(p, t) && x in p.inCatch
    ensures !Calls(p, t, x)
  {
  }

  lemma FreeStep(p0: Prog, p: Prog, t: Step, x: NodeId)
    requires Chosen(p, t) && x in p0.sucs && x in p.sucs && x !in p.inCatch && EdgesAt(p0, p, x)
    requires (forall y :: y in p0.sucs[x] ==> Now(p, y) in p.nodes) && x in Result(p, t).sucs
    requires Result(p, t).sucs[x] == p.sucs[x] - {t.n1, t.n2} + (if Calls(p, t, x) then {t.m} else {})
    ensures EdgesAt(p0, Result(p, t), x)
  {
    var r := Result(p, t);
    RenamedSucs(p, t, x, r.sucs[x]);
    hide Result, Chosen, Merge, Moved, Calls, Prog.Valid;
    forall y | y in p0.sucs[x]
      ensures Now(r, y) == Rename(t, Now(p, y))
    {
      ResolveMoved(p, t, y);
    }
    ImageOfImage(p0.sucs[x], p.sucs[x], r.sucs[x], p.nodeMap, r.nodeMap, t);
  }

  lemma RenamedSucs(p: Prog, t: Step, x: NodeId, ys: set<NodeId>)
    requires p.Valid() && x in p.sucs && x !in p.inCatch
    requires ys == p.sucs[x] - {t.n1, t.n2} + (if Calls(p, t, x) then {t.m} else {})
    ensures ys == set y | y in p.sucs[x] :: Rename(t, y)
  {
    var zs := set y | y in p.sucs[x] :: Rename(t, y);
    forall z | z in ys
      ensures z in zs
    {
      var y := if z in p.sucs[x] - {t.n1, t.n2} then z else if t.n1 in p.sucs[x] then t.n1 else t.n2;
      assert Rename(t, y) == z && y in p.sucs[x];
    }
  }

  lemma {:induction false} RunLeads(p0: Prog, steps: seq<Step>)
    requires Legal(p0, steps) && p0.Valid() && p0.Wired() && p0.nodeMap == map[]
    ensures Stems(p0, End(p0, steps))
    ensures forall x :: x in p0.nodes && !p0.IsBranch(x) ==> LeadsAt(p0, End(p0, steps), x)
    decreases |steps|
  {
    hide Chosen, Result, Stems, Prog.Wired, LeadsAt;
    if steps == [] {
      StemsStarts(p0);
      forall x | x in p0.nodes && !p0.IsBranch(x)
        ensures LeadsAt(p0, p0, x)
      {
        LeadsItself(p0, x);
      }
    } else {
      var before, t := steps[..|steps| - 1], steps[|steps| - 1];
      var p := End(p0, before);
      RunLeads(p0, before);
      StemsStep(p0, p, t);
      StemsLiveNow(p0, p);
      forall x | x in p0.nodes && !p0.IsBranch(x)
        ensures LeadsAt(p0, Result(p, t), x)
      {
        LeadsStep(p0, p, t, x);
      }
    }
  }

  lemma LeadsItself(p: Prog, x: NodeId)
    requires p.Valid() && p.nodeMap == map[] && x in p.nodes && !p.IsBranch(x)
    ensures LeadsAt(p, p, x)
  {
    assert p.sucs[x] == set y | y in p.sucs[x] :: Now(p, y);
  }

  lemma StemsLiveNow(p0: Prog, p: Prog)
    requires Stems(p0, p)
    ensures p0.Valid() && forall y :: y in p0.nodes ==> Now(p, y) in p.nodes
  {
    hide BranchAt, PlainAt;
  }

  /** No plain catch-handler block leads to a block that was fused. */
  ghost predicate HandlersSpared(p0: Prog, p: Prog) {
    forall q, y :: q in p0.inCatch && q in p0.sucs && !p0.IsBranch(q) && y in p0.sucs[q] ==> y !in p.nodeMap
  }

  /** With targets mapped in the end: every walk, and where every plain block leads. */
  ghost predicate MeaningKept(p0: Prog, p: Prog) {
    WalksKept(p0, p) && forall x :: x in p0.nodes && !p0.IsBranch(x) ==> EdgesAt(p0, p, x)
  }

  /** Plain blocks lead where they should exactly if those in catch handlers were spared. */
  lemma EdgesIffSpared(p0: Prog, p: Prog)
    requires Stems(p0, p) && forall x :: x in p0.nodes && !p0.IsBranch(x) ==> LeadsAt(p0, p, x)
    ensures (forall x :: x in p0.nodes && !p0.IsBranch(x) ==> EdgesAt(p0, p, x)) <==> HandlersSpared(p0, p)
  {
    StemsFresh(p0, p);
    hide Stems, Prog.Valid;
    forall q | q in p0.nodes && !p0.IsBranch(q)
      ensures EdgesAt(p0, p, q) <==> q !in p0.inCatch || forall y :: y in p0.sucs[q] ==> y !in p.nodeMap
    {
      assert LeadsAt(p0, p, q);
      if q in p0.inCatch {
        var zs := set y | y in p0.sucs[q] :: Now(p, y);
        if y :| y in p0.sucs[q] && y in p.nodeMap {
          assert Now(p, y) in zs && Now(p, y) !in p.sucs[q];
        } else {
          assert forall y :: y in p0.sucs[q] ==> Now(p, y) == y;
          forall y | y in p0.sucs[q]
            ensures y in zs
          {
            assert Now(p, y) == y;
          }
          assert zs == p.sucs[q];
        }
      }
    }
  }

  lemma StemsFresh(p0: Prog, p: Prog)
    requires Stems(p0, p)
    ensures p0.Valid() && p0.sucs.Keys == p0.nodes && forall k :: k in p.nodeMap ==> p.nodeMap[k] !in p0.nodes
    ensures forall x, y :: x in p0.sucs && y in p0.sucs[x] ==> y in p0.nodes
  {
    hide BranchAt, PlainAt;
  }

  /** With targets mapped in the end a run keeps the meaning of its program if and only if
      every block absorbed was led to by its partner only, and no plain catch-handler block led
      to a block that was fused. */
  lemma MeaningIffPrivateAndSpared(p0: Prog, steps: seq<Step>)
    requires Fresh(p0) && Legal(p0, steps)
    ensures MeaningKept(p0, End(p0, steps)) <==> AllPrivate(p0, steps) && HandlersSpared(p0, End(p0, steps))
  {
    WalksIffPrivate(p0, steps);
    RunLeads(p0, steps);
    EdgesIffSpared(p0, End(p0, steps));
    hide WalksKept, AllPrivate, HandlersSpared, EdgesAt, LeadsAt, Legal, End, Fresh;
  }

  lemma {:induction false} RunDistinct(p0: Prog, steps: seq<Step>)
    requires DistinctTests(p0) && Legal(p0, steps)
    ensures DistinctTests(End(p0, steps))
    decreases |steps|
  {
    hide DistinctTests, Chosen, Result;
    if steps != [] {
      RunDistinct(p0, steps[..|steps| - 1]);
      DistinctStep(End(p0, steps[..|steps| - 1]), steps[|steps| - 1]);
    }
  }

  /** Along a run from distinct tests, each fusion of a wired program is faithful exactly
      when it is clean. */
  lemma FaithfulInRun(p0: Prog, steps: seq<Step>, t: Step)
    requires DistinctTests(p0) && Legal(p0, steps) && Chosen(End(p0, steps), t) && End(p0, steps).Wired()
    ensures var p := End(p0, steps); Faithful(p, Result(p, t), t) <==> Clean(p, t)
  {
    RunDistinct(p0, steps);
    hide Faithful, Clean, Result, DistinctTests, Prog.Wired;
    DistinctFirst(End(p0, steps), t);
    FaithfulIffClean(End(p0, steps), t);
  }
}
