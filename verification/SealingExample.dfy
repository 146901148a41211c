/** Why the law of clean runs needs sealing: a run that loses an edge and, four fusions
    later, has it back. */
module SealingExample {
  import opened Graphs
  import opened Conditions
  import opened Fusion
  import opened FusionRuns
  import opened CleanRuns

  /** What a fusion must leave at a surviving block. */
  ghost predicate KeptAs(p: Prog, t: Step, r: Prog, x: NodeId) {
    && x in p.sucs && x in p.blocks && x in r.sucs && x in r.blocks
    && r.sucs[x] == p.sucs[x] - {t.n1, t.n2} + (if CalledBy(p, t, x) then {t.m} else {})
    && r.blocks[x] == if CalledBy(p, t, x) then Redirect(p.blocks[x], r.nodeMap) else p.blocks[x]
  }

  ghost predicate CalledBy(p: Prog, t: Step, x: NodeId)
    requires x in p.sucs
  {
    x !in p.inCatch && (t.n1 in p.sucs[x] || t.n2 in p.sucs[x])
  }

  ghost predicate NewAs(p: Prog, t: Step, r: Prog)
    requires Chosen(p, t)
  {
    && t.m in r.sucs && t.m in r.blocks
    && r.sucs[t.m] == p.sucs[t.n1] + p.sucs[t.n2] - {t.n1, t.n2} && r.blocks[t.m] == NewBlock(p, t)
  }

  /** Programs of the same blocks that agree in every field but what a block leads to. */
  ghost predicate SameShape(p: Prog, r: Prog) {
    && p.entry == r.entry && p.nodes == r.nodes && p.inCatch == r.inCatch && p.nodeMap == r.nodeMap
    && p.nodes == p.sucs.Keys == p.blocks.Keys && r.nodes == r.sucs.Keys == r.blocks.Keys
  }

  ghost predicate SameAt(p: Prog, r: Prog, x: NodeId) {
    && x in p.sucs && x in r.sucs && x in p.blocks && x in r.blocks
    && p.sucs[x] == r.sucs[x] && p.blocks[x] == r.blocks[x]
  }

  lemma SameProg(p: Prog, r: Prog)
    requires SameShape(p, r) && forall x :: x in p.nodes ==> SameAt(p, r, x)
    ensures p == r
  {
    assert forall x :: x in p.sucs ==> SameAt(p, r, x) && p.sucs[x] == r.sucs[x];
    assert p.sucs == r.sucs;
    assert forall x :: x in p.blocks ==> SameAt(p, r, x) && p.blocks[x] == r.blocks[x];
    assert p.blocks == r.blocks;
  }

  /** What a fusion away from the entry and outside catch handlers leaves of the fields. */
  ghost predicate ShapedAs(p: Prog, t: Step, r: Prog) {
    && r.nodes == p.nodes - {t.n1, t.n2} + {t.m} == r.sucs.Keys == r.blocks.Keys
    && r.entry == p.entry && p.entry != t.n1 && p.entry != t.n2
    && t.n1 !in p.inCatch && r.inCatch == p.inCatch && r.nodeMap == Moved(p.nodeMap, t.n1, t.n2, t.m)
  }

  lemma ResultShape(p: Prog, t: Step, r: Prog)
    requires Chosen(p, t) && ShapedAs(p, t, r)
    ensures SameShape(Result(p, t), r)
  {
    hide Chosen, Result, Moved;
    MergeAt(p, t, t.m);
  }

  /** The fusion may be made, and makes `r`. */
  ghost predicate Yields(p: Prog, t: Step, r: Prog) {
    Chosen(p, t) && Result(p, t) == r && r.Valid()
  }

  /** A program that is everywhere what a fusion leaves is its result. */
  lemma ResultIs(p: Prog, t: Step, r: Prog)
    requires Chosen(p, t) && NewAs(p, t, r) && ShapedAs(p, t, r)
    requires forall x :: x in p.nodes && x != t.n1 && x != t.n2 ==> KeptAs(p, t, r, x)
    ensures Yields(p, t, r)
  {
    hide *;
    ShapeIs(p, t, r);
    ResultShape(p, t, r);
    ShapeNodes(Result(p, t), r);
    forall x | x in Result(p, t).nodes
      ensures SameAt(Result(p, t), r, x)
    {
      ResultAt(p, t, r, x);
    }
    SameProg(Result(p, t), r);
    YieldsResult(p, t);
  }

  lemma ShapeIs(p: Prog, t: Step, r: Prog)
    requires ShapedAs(p, t, r)
    ensures r.nodeMap == Moved(p.nodeMap, t.n1, t.n2, t.m)
    ensures forall x :: x in r.nodes ==> x == t.m || (x in p.nodes && x != t.n1 && x != t.n2)
  {
    hide Moved;
  }

  lemma ShapeNodes(p: Prog, r: Prog)
    requires SameShape(p, r)
    ensures p.nodes == r.nodes
  {
  }

  lemma YieldsResult(p: Prog, t: Step)
    requires Chosen(p, t)
    ensures Yields(p, t, Result(p, t))
  {
    hide Chosen, Result;
    ResultValid(p, t);
  }

  lemma ResultAt(p: Prog, t: Step, r: Prog, x: NodeId)
    requires Chosen(p, t) && NewAs(p, t, r) && r.nodeMap == Moved(p.nodeMap, t.n1, t.n2, t.m)
    requires x == t.m || (x in p.nodes && x != t.n1 && x != t.n2 && KeptAs(p, t, r, x))
    ensures SameAt(Result(p, t), r, x)
  {
    MergeAt(p, t, x);
    hide Result, Merge, Moved, Redirect, Fused, Fusable;
  }

  /** Block 1, outside, leads to block 2, inside a catch handler, and that one to block 4. */
  ghost function Mixed(): Prog {
    Prog(0, {0, 1, 2, 3, 4, 5, 6},
         map[0 := {1}, 1 := {2, 3}, 2 := {4, 3}, 3 := {5, 4}, 4 := {6, 0}, 5 := {0, 4}, 6 := {0}],
         map[0 := Other([]), 1 := Branch(Test(1, Ne), 2, 3), 2 := Branch(Test(2, Ne), 4, 3),
             3 := Branch(Test(3, Ne), 5, 4), 4 := Branch(Test(4, Ne), 6, 0),
             5 := Branch(Test(5, Ne), 0, 4), 6 := Branch(Test(6, Ne), 0, 0)],
         {2}, map[])
  }

  ghost function After1(): Prog {
    Prog(0, {0, 1, 2, 3, 5, 10},
         map[0 := {1}, 1 := {2, 3}, 2 := {3}, 3 := {5, 10}, 5 := {0, 10}, 10 := {0}],
         map[0 := Other([]), 1 := Branch(Test(1, Ne), 2, 3), 2 := Branch(Test(2, Ne), 4, 3),
             3 := Branch(Test(3, Ne), 5, 10), 5 := Branch(Test(5, Ne), 0, 10),
             10 := Branch(Join(Test(4, Ne), Test(6, Ne), true, false), 0, 0)],
         {2}, map[4 := 10, 6 := 10])
  }

  ghost function After2(): Prog {
    Prog(0, {0, 3, 5, 10, 11},
         map[0 := {11}, 3 := {5, 10}, 5 := {0, 10}, 10 := {0}, 11 := {3}],
         map[0 := Other([]), 3 := Branch(Test(3, Ne), 5, 10), 5 := Branch(Test(5, Ne), 0, 10),
             10 := Branch(Join(Test(4, Ne), Test(6, Ne), true, false), 0, 0),
             11 := Branch(Join(Test(1, Ne), Test(2, Ne), true, false), 4, 3)],
         {2}, map[4 := 10, 6 := 10, 1 := 11, 2 := 11])
  }

  ghost function After3(): Prog {
    Prog(0, {0, 10, 11, 12},
         map[0 := {11}, 10 := {0}, 11 := {12}, 12 := {10, 0}],
         map[0 := Other([]), 10 := Branch(Join(Test(4, Ne), Test(6, Ne), true, false), 0, 0),
             11 := Branch(Join(Test(1, Ne), Test(2, Ne), true, false), 10, 12),
             12 := Branch(Join(Test(3, Ne), Test(5, Ne), true, false), 0, 10)],
         {2}, map[4 := 10, 6 := 10, 1 := 11, 2 := 11, 3 := 12, 5 := 12])
  }

  ghost function Restored(): Prog {
    Prog(0, {0, 10, 13},
         map[0 := {13}, 10 := {0}, 13 := {10, 0}],
         map[0 := Other([]), 10 := Branch(Join(Test(4, Ne), Test(6, Ne), true, false), 0, 0),
             13 := Branch(Join(Join(Test(1, Ne), Test(2, Ne), true, false), Join(Test(3, Ne), Test(5, Ne), true, false),
                               true, true), 0, 10)],
         {2}, map[4 := 10, 6 := 10, 1 := 13, 2 := 13, 3 := 13, 5 := 13, 11 := 13, 12 := 13])
  }

  lemma Step1Chosen()
    requires Mixed().Valid()
    ensures Chosen(Mixed(), Step(4, 6, 10, true, false))
  {
    hide Prog.Valid;
    assert Callers(Mixed(), 6) == {4};
    hide Callers;
  }

  lemma Step1Kept(x: NodeId)
    requires x in Mixed().nodes && x != 4 && x != 6
    ensures KeptAs(Mixed(), Step(4, 6, 10, true, false), After1(), x)
  {
    match x {
      case 0 =>
      case 1 =>
      case 2 =>
      case 3 =>
      case 5 =>
      case _ =>
    }
  }

  lemma Step1New()
    requires Mixed().Valid()
    ensures Chosen(Mixed(), Step(4, 6, 10, true, false)) && NewAs(Mixed(), Step(4, 6, 10, true, false), After1())
  {
    Step1Chosen();
    hide Chosen, Callers, Prog.Valid;
  }

  lemma Step1Fields()
    ensures ShapedAs(Mixed(), Step(4, 6, 10, true, false), After1())
  {
  }

  lemma Step1Result()
    requires Mixed().Valid()
    ensures Yields(Mixed(), Step(4, 6, 10, true, false), After1())
  {
    hide Mixed, After1, KeptAs, NewAs, ShapedAs, Chosen, Result, Prog.Valid;
    Step1New();
    Step1Fields();
    forall x | x in Mixed().nodes && x != 4 && x != 6
      ensures KeptAs(Mixed(), Step(4, 6, 10, true, false), After1(), x)
    {
      Step1Kept(x);
    }
    ResultIs(Mixed(), Step(4, 6, 10, true, false), After1());
  }

  lemma Step2Chosen()
    requires After1().Valid()
    ensures Chosen(After1(), Step(1, 2, 11, true, false))
  {
    hide Prog.Valid;
    assert Callers(After1(), 2) == {1};
    hide Callers;
  }

  lemma Step2Kept(x: NodeId)
    requires x in After1().nodes && x != 1 && x != 2
    ensures KeptAs(After1(), Step(1, 2, 11, true, false), After2(), x)
  {
    match x {
      case 0 =>
      case 3 =>
      case 5 =>
      case 10 =>
      case _ =>
    }
  }

  lemma Step2New()
    requires After1().Valid()
    ensures Chosen(After1(), Step(1, 2, 11, true, false)) && NewAs(After1(), Step(1, 2, 11, true, false), After2())
  {
    Step2Chosen();
    hide Chosen, Callers, Prog.Valid;
  }

  lemma Step2Fields()
    ensures ShapedAs(After1(), Step(1, 2, 11, true, false), After2())
  {
  }

  lemma Step2Result()
    requires After1().Valid()
    ensures Yields(After1(), Step(1, 2, 11, true, false), After2())
  {
    hide After1, After2, KeptAs, NewAs, ShapedAs, Chosen, Result, Prog.Valid;
    Step2New();
    Step2Fields();
    forall x | x in After1().nodes && x != 1 && x != 2
      ensures KeptAs(After1(), Step(1, 2, 11, true, false), After2(), x)
    {
      Step2Kept(x);
    }
    ResultIs(After1(), Step(1, 2, 11, true, false), After2());
  }

  lemma Step3Chosen()
    requires After2().Valid()
    ensures Chosen(After2(), Step(3, 5, 12, true, false))
  {
    hide Prog.Valid;
    assert Callers(After2(), 5) == {3};
    hide Callers;
  }

  lemma Step3Kept(x: NodeId)
    requires x in After2().nodes && x != 3 && x != 5
    ensures KeptAs(After2(), Step(3, 5, 12, true, false), After3(), x)
  {
    match x {
      case 0 =>
      case 10 =>
      case 11 =>
      case _ =>
    }
  }

  lemma Step3New()
    requires After2().Valid()
    ensures Chosen(After2(), Step(3, 5, 12, true, false)) && NewAs(After2(), Step(3, 5, 12, true, false), After3())
  {
    Step3Chosen();
    hide Chosen, Callers, Prog.Valid;
  }

  lemma Step3Fields()
    ensures ShapedAs(After2(), Step(3, 5, 12, true, false), After3())
  {
  }

  lemma Step3Result()
    requires After2().Valid()
    ensures Yields(After2(), Step(3, 5, 12, true, false), After3())
  {
    hide After2, After3, KeptAs, NewAs, ShapedAs, Chosen, Result, Prog.Valid;
    Step3New();
    Step3Fields();
    forall x | x in After2().nodes && x != 3 && x != 5
      ensures KeptAs(After2(), Step(3, 5, 12, true, false), After3(), x)
    {
      Step3Kept(x);
    }
    ResultIs(After2(), Step(3, 5, 12, true, false), After3());
  }

  lemma Step4Chosen()
    requires After3().Valid()
    ensures Chosen(After3(), Step(11, 12, 13, true, true))
  {
    hide Prog.Valid;
    assert Callers(After3(), 12) == {11};
    hide Callers;
  }

  lemma Step4Kept(x: NodeId)
    requires x in After3().nodes && x != 11 && x != 12
    ensures KeptAs(After3(), Step(11, 12, 13, true, true), Restored(), x)
  {
    match x {
      case 0 =>
      case 10 =>
      case _ =>
    }
  }

  lemma Step4New()
    requires After3().Valid()
    ensures Chosen(After3(), Step(11, 12, 13, true, true)) && NewAs(After3(), Step(11, 12, 13, true, true), Restored())
  {
    Step4Chosen();
    hide Chosen, Callers, Prog.Valid;
  }

  lemma Step4Fields()
    ensures ShapedAs(After3(), Step(11, 12, 13, true, true), Restored())
  {
  }

  lemma Step4Result()
    requires After3().Valid()
    ensures Yields(After3(), Step(11, 12, 13, true, true), Restored())
  {
    hide After3, Restored, KeptAs, NewAs, ShapedAs, Chosen, Result, Prog.Valid;
    Step4New();
    Step4Fields();
    forall x | x in After3().nodes && x != 11 && x != 12
      ensures KeptAs(After3(), Step(11, 12, 13, true, true), Restored(), x)
    {
      Step4Kept(x);
    }
    ResultIs(After3(), Step(11, 12, 13, true, true), Restored());
  }

  lemma Step1Private()
    ensures Private(Mixed(), Mixed(), Step(4, 6, 10, true, false))
  {
    MixedStarts();
    hide Start;
  }

  lemma Step2Private()
    ensures Private(Mixed(), After1(), Step(1, 2, 11, true, false))
  {
    MixedStarts();
    hide Start;
  }

  lemma Step3Private()
    ensures Private(Mixed(), After2(), Step(3, 5, 12, true, false))
  {
    MixedStarts();
    hide Start;
  }

  lemma Step4Private()
    ensures Private(Mixed(), After3(), Step(11, 12, 13, true, true))
  {
    MixedStarts();
    hide Start;
  }

  lemma MixedStarts()
    ensures forall y :: Start(Mixed(), y) <==> y == 0 || y == 1
  {
    assert 0 in Mixed().sucs && !Mixed().IsBranch(0) && 1 in Mixed().sucs[0];
  }

  lemma MixedChain(b: NodeId) returns (c: seq<NodeId>)
    requires Mixed().IsBranch(b)
    ensures Chain(Mixed(), c) && c[|c| - 1] == b
  {
    MixedStarts();
    hide Start;
    c := if b == 1 then [1] else if b == 2 then [1, 2] else if b == 3 then [1, 3] else if b == 4 then [1, 2, 4]
         else if b == 5 then [1, 3, 5] else [1, 2, 4, 6];
  }

  lemma MixedValid()
    ensures Mixed().Valid()
  {
  }

  lemma MixedWired()
    ensures Mixed().Valid() && Mixed().Wired() && Mixed().nodeMap == map[]
  {
    MixedValid();
    hide Prog.Valid;
  }

  lemma MixedTests()
    ensures forall b :: Mixed().IsBranch(b) ==> Mixed().blocks[b].cond == Test(b, Ne)
  {
  }

  lemma MixedFresh()
    ensures Fresh(Mixed())
  {
    MixedWired();
    MixedTests();
    MixedEntered();
    hide Mixed, Entered, Prog.Valid, Prog.Wired, Prog.IsBranch;
  }

  lemma MixedEntered()
    ensures Entered(Mixed())
  {
    hide Mixed, Start;
    forall b | Mixed().IsBranch(b) ensures exists c :: Chain(Mixed(), c) && c[|c| - 1] == b {
      var c := MixedChain(b);
    }
  }

  lemma RestoredWired()
    requires Restored().Valid()
    ensures Restored().Wired()
  {
    hide Prog.Valid;
  }

  lemma RestoredEdges()
    requires Restored().Valid()
    ensures EdgesKept(Mixed(), Restored())
  {
    RestoredWired();
    RestoredEntryEdges();
    OnlyEntryIsPlain();
    hide Mixed, Restored, EdgesAt, Prog.Wired, Prog.Valid;
  }

  lemma RestoredEntryEdges()
    ensures EdgesAt(Mixed(), Restored(), 0)
  {
  }

  lemma OnlyEntryIsPlain()
    ensures forall x :: x in Mixed().nodes && !Mixed().IsBranch(x) ==> x == 0
  {
  }

  /** The four fusions. */
  ghost function Steps(): seq<Step> {
    [Step(4, 6, 10, true, false), Step(1, 2, 11, true, false),
     Step(3, 5, 12, true, false), Step(11, 12, 13, true, true)]
  }

  lemma RunsToRestored()
    ensures Legal(Mixed(), Steps()) && End(Mixed(), Steps()) == Restored() && AllPrivate(Mixed(), Steps())
    ensures Restored().Valid()
  {
    hide Chosen, Result, Private, Mixed, After1, After2, After3, Restored, Prog.Valid;
    MixedValid();
    Step1Result();
    Step2Result();
    Step3Result();
    Step4Result();
    Step1Private();
    Step2Private();
    Step3Private();
    Step4Private();
    var s := Steps();
    assert s[..3] == [Step(4, 6, 10, true, false), Step(1, 2, 11, true, false), Step(3, 5, 12, true, false)];
    assert s[..3][..2] == s[..2] && s[..2][..1] == s[..1] && s[..1][..0] == [];
    assert End(Mixed(), s[..1]) == After1() && Legal(Mixed(), s[..1]) && AllPrivate(Mixed(), s[..1]);
    assert End(Mixed(), s[..2]) == After2() && Legal(Mixed(), s[..2]) && AllPrivate(Mixed(), s[..2]);
    assert End(Mixed(), s[..3]) == After3() && Legal(Mixed(), s[..3]) && AllPrivate(Mixed(), s[..3]);
  }

  /** The first fusion is not clean, and yet the run keeps the meaning: without sealing the
      law of clean runs fails. */
  lemma UncleanYetFaithful()
    ensures Fresh(Mixed()) && Legal(Mixed(), Steps()) && !AllClean(Mixed(), Steps())
    ensures Simulates(Mixed(), End(Mixed(), Steps()))
  {
    MixedFresh();
    RunsToRestored();
    RestoredEdges();
    FirstUnclean();
    hide *;
    SimulatesIffPrivateAndEdges(Mixed(), Steps());
  }

  lemma FirstUnclean()
    requires Legal(Mixed(), Steps())
    ensures !AllClean(Mixed(), Steps())
  {
    MixedHidden();
    hide Mixed, Chosen, Legal, AllClean, Prog.Valid;
    RunBegins(Mixed(), Steps());
  }

  lemma MixedHidden()
    ensures Mixed().Valid() && 2 in Mixed().nodes && 4 in Mixed().sucs[2] && 2 in Mixed().inCatch
  {
  }
}
