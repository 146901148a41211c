/** Two methods for which the analysis reports the origin of a broken pair: a parameter that
    is a pair, and a join whose first side wrote the same origin narrow. And one that has
    widths though it fetches a result that no method returns. */
module PairInputs {
  import opened Options
  import opened InvokeCfg
  import opened OriginFlow
  import opened OriginSoundness
  import opened OriginLaws
  import opened OriginPairs
  import opened PairFlow
  import opened PairExact
  import opened PairTypes
  import opened InvokeArgs

  const FILLER := Insn(0, false, [], NoWrite)

  /** A static method of one long: `const/4 v1, 5`, `invoke-static/range {v0, v1}` and
      `return-void`. */
  function LongParameter(): Body {
    Body([Insn(1, true, [], Define(1, ConstInt(5), false)), Insn(3, true, [], Invoke(7, 0x77, [0, 1])), FILLER, FILLER,
          Insn(1, false, [], NoWrite)], {}, 2, 2)
  }

  /** `if-eqz v2` to a read of field 3 into `v0` alone or into the pair `v0`, `v1`; then
      `const/4 v1, 5`, `invoke-static {v0}` and `return-void`. */
  function TwoReads(): Body {
    Body([Insn(2, true, [5], NoWrite), FILLER,
          Insn(2, true, [], Define(0, FieldRead(3), false)), FILLER,
          Insn(1, false, [7], NoWrite),
          Insn(2, true, [], Define(0, FieldRead(3), true)), FILLER,
          Insn(1, true, [], Define(1, ConstInt(5), false)),
          Insn(3, true, [], Invoke(9, 0x71, [0])), FILLER, FILLER,
          Insn(1, false, [], NoWrite)], {}, 3, 1)
  }

  /** `filled-new-array {v1, v2}`, `move-result-object v0`, `invoke-static {v0}` and
      `return-void`, and behind it the data of a switch, which control never reaches. */
  function FilledArray(): Body {
    Body([Insn(3, true, [], NoWrite), FILLER, FILLER,
          Insn(1, true, [], MoveResult(0, false)),
          Insn(3, true, [], Invoke(9, 0x71, [0])), FILLER, FILLER,
          Insn(1, false, [], NoWrite),
          Insn(4, true, [], NoWrite), FILLER, FILLER, FILLER], {}, 3, 0)
  }

  lemma {:induction false} FilledArrayScan(x: nat)
    ensures IsInsn(FilledArray().code, x) <==> x in {0, 3, 4, 7, 8}
  {
    var code := FilledArray().code;
    assert Visits(code, 0, x) <==> x == 0 || Visits(code, 3, x);
    assert Visits(code, 3, x) <==> x == 3 || Visits(code, 4, x);
    assert Visits(code, 4, x) <==> x == 4 || Visits(code, 7, x);
    assert Visits(code, 7, x) <==> x == 7 || Visits(code, 8, x);
    assert Visits(code, 8, x) <==> x == 8 || Visits(code, 12, x);
  }

  /** What it fetches has no width and needs none. */
  lemma FilledArrayHasWidths()
    ensures HasWidths(FilledArray(), {}, Typing(_ => false, (_, _) => None, _ => None, x => x == 3))
  {
    hide IsInsn;
    forall x: nat
      ensures IsInsn(FilledArray().code, x) <==> x in {0, 3, 4, 7, 8}
    {
      FilledArrayScan(x);
    }
  }

  /** A path may go on with each instruction that the last one leads to. */
  lemma PathOn(b: Body, pairs: set<Reg>, p: seq<nat>, m: PairMachine, y: nat, c: PairMachine)
    requires PairPath(b, pairs, p, m) && PairAt(b, pairs, p, m) == c && Succ(b.code, p[|p| - 1], y)
    ensures PairPath(b, pairs, p + [y], m)
    ensures PairAt(b, pairs, p + [y], m) == Perform(b.code[p[|p| - 1]], c)
  {
    Onward(b, pairs, p, m, p[|p| - 1], y);
  }

  lemma Enters(b: Body, pairs: set<Reg>)
    requires IsInsn(b.code, 0)
    ensures PairPath(b, pairs, [0], AtEntry(b, pairs)) && PairAt(b, pairs, [0], AtEntry(b, pairs)) == AtEntry(b, pairs)
  {
    AtEntryIs(b, pairs);
  }

  lemma {:induction false} LongParameterScan(x: nat)
    ensures IsInsn(LongParameter().code, x) <==> x == 0 || x == 1 || x == 4
  {
    var code := LongParameter().code;
    assert Visits(code, 0, x) <==> x == 0 || Visits(code, 1, x);
    assert Visits(code, 1, x) <==> x == 1 || Visits(code, 4, x);
    assert Visits(code, 4, x) <==> x == 4 || Visits(code, 5, x);
  }

  /** The whole method is one block. */
  lemma LongParameterCfg()
    ensures CfgOf(LongParameter().code, {}, Cfg([0], [[]], [false], [true]))
  {
    var code := LongParameter().code;
    var starts: seq<nat> := [0];
    forall x: nat ensures IsInsn(code, x) <==> x == 0 || x == 1 || x == 4 { LongParameterScan(x); }
    forall a: nat, x: nat ensures Succ(code, a, x) <==> (a == 0 && x == 1) || (a == 1 && x == 4) {}
    forall x: nat ensures IsLeader(code, {}, x) <==> x == 0 {}
    assert BlockOf(starts, 1) == 0;
    assert InvokesIn(code, starts, 0);
    assert BlockIs(code, {}, Cfg(starts, [[]], [false], [true]), 0);
  }

  /** At every depth the parameter is reported for `v0`. */
  lemma LongParameterReported(depth: nat, ins: seq<State>)
    requires var cfg := Cfg([0], [[]], [false], [true]); Sized(cfg) && Whole(LongParameter(), cfg, depth, ins)
    ensures var sites := AllSites(LongParameter(), Cfg([0], [[]], [false], [true]), ins, 1);
      |sites| == 1 && sites[0].offset == 1 && |sites[0].args| == 2 && sites[0].args[0] == (0, Known(Parameter(0)))
  {
    var b, cfg := LongParameter(), Cfg([0], [[]], [false], [true]);
    assert InState(b, cfg, 0, depth) == ParamState(b);
    var s0 := Sim(ins[0], None);
    var s1 := Step(b.code[0], s0);
    assert Known(Parameter(0)) == s1.st[0];
    assert Sites(b.code, 4, 5, Step(b.code[1], s1)) == [];
    assert Sites(b.code, 1, 5, s1) == [SiteAt(b.code[1], 1, s1.st)];
    assert Sites(b.code, 0, 5, s0) == Sites(b.code, 1, 5, s1);
    assert AllSites(b, cfg, ins, 0) == [];
  }

  /** The path over both instructions breaks it. */
  lemma LongParameterPath()
    ensures PairEnds(LongParameter(), {0}, [0, 1], AtEntry(LongParameter(), {0}), 1)
    ensures PairAt(LongParameter(), {0}, [0, 1], AtEntry(LongParameter(), {0})).file(0) == Junk
  {
    hide IsInsn, Path;
    var b, m := LongParameter(), AtEntry(LongParameter(), {0});
    LongParameterScan(0);
    LongParameterScan(1);
    Enters(b, {0});
    PathOn(b, {0}, [0], m, 1, m);
    assert [0] + [1] == [0, 1];
  }

  /** A long parameter whose upper half is overwritten is still reported, at every depth. */
  lemma LongParameterBreaks(cfg: Cfg, depth: nat, ins: seq<State>)
    requires CfgOf(LongParameter().code, {}, cfg) && Sized(cfg) && Whole(LongParameter(), cfg, depth, ins)
    ensures !PairsKept(LongParameter(), {0}, AllSites(LongParameter(), cfg, ins, |cfg.starts|))
  {
    hide CfgOf, IsInsn, InState, AllSites, PairAt, Path;
    var b := LongParameter();
    LongParameterCfg();
    CfgUnique(b.code, {}, cfg, Cfg([0], [[]], [false], [true]));
    LongParameterReported(depth, ins);
    LongParameterPath();
    var sites := AllSites(b, cfg, ins, 1);
    assert Reports(sites, 0, 0) && !Unbroken(b, {0}, sites, 0, 0);
  }

  lemma {:induction false} TwoReadsScan(x: nat)
    ensures IsInsn(TwoReads().code, x) <==> x in {0, 2, 4, 5, 7, 8, 11}
  {
    var code := TwoReads().code;
    assert Visits(code, 0, x) <==> x == 0 || Visits(code, 2, x);
    assert Visits(code, 2, x) <==> x == 2 || Visits(code, 4, x);
    assert Visits(code, 4, x) <==> x == 4 || Visits(code, 5, x);
    assert Visits(code, 5, x) <==> x == 5 || Visits(code, 7, x);
    assert Visits(code, 7, x) <==> x == 7 || Visits(code, 8, x);
    assert Visits(code, 8, x) <==> x == 8 || Visits(code, 11, x);
    assert Visits(code, 11, x) <==> x == 11 || Visits(code, 12, x);
  }

  function TwoReadsCfg(): Cfg {
    Cfg([0, 2, 5, 7], [[], [0], [0], [1, 2]], [false, false, false, false], [false, false, false, true])
  }

  lemma TwoReadsEdges(a: nat, x: nat)
    ensures Succ(TwoReads().code, a, x) <==>
      (a, x) in {(0, 2), (0, 5), (2, 4), (4, 7), (5, 7), (7, 8), (8, 11)}
  {
    TwoReadsScan(a);
    TwoReadsScan(x);
  }

  lemma TwoReadsLeaders(x: nat)
    ensures IsLeader(TwoReads().code, {}, x) <==> x in [0, 2, 5, 7]
  {
    var code := TwoReads().code;
    TwoReadsScan(x);
    forall a: nat ensures IsInsn(code, x) && LeaderAfter(code, a, x) ==> x in [2, 5, 7] {
      TwoReadsScan(a);
    }
    TwoReadsScan(0);
    TwoReadsScan(4);
    TwoReadsScan(5);
    assert HasTarget(code, 0);
    assert x in [2, 5] ==> LeaderAfter(code, 0, x);
    assert x == 7 ==> LeaderAfter(code, 4, x);
  }

  lemma TwoReadsBlocks(x: nat)
    requires x in {0, 2, 4, 5, 7, 8, 11}
    ensures BlockOf([0, 2, 5, 7], x) == if x < 2 then 0 else if x < 5 then 1 else if x < 7 then 2 else 3
  {
    BlockOfIs([0, 2, 5, 7], x, if x < 2 then 0 else if x < 5 then 1 else if x < 7 then 2 else 3);
  }

  lemma TwoReadsLeads(w: nat, q: nat)
    requires w < 4
    ensures LeadsTo(TwoReads().code, [0, 2, 5, 7], q, [0, 2, 5, 7][w]) <==> q in TwoReadsCfg().preds[w]
  {
    hide Succ, IsInsn, BlockOf;
    var code, starts := TwoReads().code, [0, 2, 5, 7];
    forall a: nat ensures Succ(code, a, starts[w]) && BlockOf(starts, a) == q ==> q in TwoReadsCfg().preds[w] {
      TwoReadsEdges(a, starts[w]);
      if a in {0, 2, 4, 5, 7, 8, 11} { TwoReadsBlocks(a); }
    }
    TwoReadsBlocks(0);
    TwoReadsBlocks(4);
    TwoReadsBlocks(5);
    TwoReadsEdges(0, 2);
    TwoReadsEdges(0, 5);
    TwoReadsEdges(4, 7);
    TwoReadsEdges(5, 7);
    assert q in TwoReadsCfg().preds[w] ==> exists a: nat :: Succ(code, a, starts[w]) && BlockOf(starts, a) == q;
  }

  lemma TwoReadsInvokes(w: nat)
    requires w < 4
    ensures InvokesIn(TwoReads().code, [0, 2, 5, 7], w) <==> w == 3
  {
    hide IsInsn, BlockOf;
    forall a: nat ensures IsInsn(TwoReads().code, a) ==> a in {0, 2, 4, 5, 7, 8, 11} { TwoReadsScan(a); }
    TwoReadsScan(8);
    TwoReadsBlocks(8);
  }

  lemma TwoReadsBlock(w: nat)
    requires w < 4
    ensures BlockIs(TwoReads().code, {}, TwoReadsCfg(), w)
  {
    hide LeadsTo, InvokesIn;
    forall q ensures q in TwoReadsCfg().preds[w] <==> LeadsTo(TwoReads().code, [0, 2, 5, 7], q, [0, 2, 5, 7][w]) {
      TwoReadsLeads(w, q);
    }
    TwoReadsInvokes(w);
  }

  lemma TwoReadsIsCfg()
    ensures CfgOf(TwoReads().code, {}, TwoReadsCfg())
  {
    hide BlockIs, IsLeader;
    var cfg := TwoReadsCfg();
    forall x: nat ensures x in cfg.starts <==> IsLeader(TwoReads().code, {}, x) { TwoReadsLeaders(x); }
    forall w | 0 <= w < |cfg.starts| ensures BlockIs(TwoReads().code, {}, cfg, w) { TwoReadsBlock(w); }
  }

  /** Each of the two blocks writes `v0` whatever it is started from. */
  lemma TwoReadsOut(st: State)
    ensures KnownAs(Out(TwoReads(), TwoReadsCfg(), 1, st), 0, FieldRead(3))
    ensures !KnownPair(Out(TwoReads(), TwoReadsCfg(), 1, st), 0, FieldRead(3))
    ensures KnownPair(Out(TwoReads(), TwoReadsCfg(), 2, st), 0, FieldRead(3))
  {
    var b, cfg, code := TwoReads(), TwoReadsCfg(), TwoReads().code;
    var s1 := Step(code[2], Sim(st, None));
    assert Run(code, 4, 5, s1) == Run(code, 5, 5, Step(code[4], s1)) == Step(code[4], s1);
    assert Run(code, 2, 5, Sim(st, None)) == Run(code, 4, 5, s1);
    var s2 := Step(code[5], Sim(st, None));
    assert Run(code, 5, 7, Sim(st, None)) == Run(code, 7, 7, s2) == s2;
  }

  lemma TwoReadsFrontier()
    ensures Sized(TwoReadsCfg()) && Frontier(TwoReadsCfg(), 3, 1) == {1, 2}
  {
    var cfg := TwoReadsCfg();
    assert cfg.preds[3] == [1, 2] && !cfg.isHandler[3];
    forall x ensures x in Frontier(cfg, 3, 1) <==> x in [1, 2] {
      assert x in [1, 2] ==> 3 in Frontier(cfg, 3, 0) && x in cfg.preds[3] && x !in Seen(cfg, 3, 0);
    }
  }

  lemma PickOneTwo()
    ensures Pick({1, 2}, 4) == [1, 2]
  {
    assert Pick({1, 2}, 1) == [];
    assert Pick({1, 2}, 2) == [1];
    assert Pick({1, 2}, 3) == [1, 2];
  }

  lemma TwoReadsWindow(depth: nat) returns (far: seq<nat>)
    requires depth > 0
    ensures Sized(TwoReadsCfg()) && Order(TwoReadsCfg(), 3, depth, 1) == far + [1, 2]
  {
    hide Frontier, Pick;
    TwoReadsFrontier();
    PickOneTwo();
    far := Order(TwoReadsCfg(), 3, depth, 2);
  }

  /** Behind the join the field is known for `v0`, and not as a pair. */
  lemma TwoReadsJoin(depth: nat)
    requires depth > 0 && Sized(TwoReadsCfg())
    ensures var st := InState(TwoReads(), TwoReadsCfg(), 3, depth);
      KnownAs(st, 0, FieldRead(3)) && !st[0].wide
  {
    hide Out, Order, Resolve, Frontier;
    var b, cfg := TwoReads(), TwoReadsCfg();
    var far := TwoReadsWindow(depth);
    var ws := far + [1, 2];
    ResolveEnds(b, cfg, far, 1, 2);
    forall st
      ensures KnownAs(Out(b, cfg, 1, st), 0, FieldRead(3)) && !KnownPair(Out(b, cfg, 1, st), 0, FieldRead(3))
      ensures KnownPair(Out(b, cfg, 2, st), 0, FieldRead(3))
    {
      TwoReadsOut(st);
    }
    var outs := Resolve(b, cfg, ws);
    InKnowsExactly(b, cfg, 3, outs, 0, FieldRead(3));
    MeetPredsWidth(None, [1, 2], outs, 0, FieldRead(3));
  }

  /** What two blocks resolved last leave behind. */
  lemma ResolveEnds(b: Body, cfg: Cfg, far: seq<nat>, u: nat, v: nat)
    requires Sized(cfg) && Blocks(cfg, far + [u, v]) && u != v
    ensures u < |cfg.starts| && v < |cfg.starts|
    ensures var outs := Resolve(b, cfg, far + [u, v]);
      && u in outs && v in outs
      && (exists st :: outs[u] == Out(b, cfg, u, st)) && (exists st :: outs[v] == Out(b, cfg, v, st))
  {
    var ws := far + [u, v];
    assert ws[|ws| - 1] == v && ws[|ws| - 2] == u;
    assert ws[..|ws| - 1] == far + [u];
    assert (far + [u])[..|far|] == far && Blocks(cfg, far);
    var o1 := Resolve(b, cfg, far);
    var o2 := Resolve(b, cfg, far + [u]);
    assert o2 == o1[u := Out(b, cfg, u, In(b, cfg, u, o1))];
    assert Resolve(b, cfg, ws) == o2[v := Out(b, cfg, v, In(b, cfg, v, o2))];
  }

  lemma TwoReadsReported(depth: nat, ins: seq<State>)
    requires Sized(TwoReadsCfg()) && Whole(TwoReads(), TwoReadsCfg(), depth, ins) && depth > 0
    ensures var sites := AllSites(TwoReads(), TwoReadsCfg(), ins, 4);
      && |sites| == 1 && sites[0].offset == 8 && |sites[0].args| == 1
      && sites[0].args[0].0 == 0 && sites[0].args[0].1.origin == Some(FieldRead(3))
  {
    hide InState;
    var b, cfg, code := TwoReads(), TwoReadsCfg(), TwoReads().code;
    TwoReadsJoin(depth);
    var s0 := Sim(ins[3], None);
    var s1 := Step(code[7], s0);
    assert s1.st[0] == ins[3][0];
    assert Sites(code, 11, 12, Step(code[8], s1)) == [] by {
      assert Sites(code, 12, 12, Step(code[11], Step(code[8], s1))) == [];
    }
    assert Sites(code, 8, 12, s1) == [SiteAt(code[8], 8, s1.st)];
    assert Sites(code, 7, 12, s0) == Sites(code, 8, 12, s1);
    assert AllSites(b, cfg, ins, 1) == AllSites(b, cfg, ins, 0) == [];
    assert AllSites(b, cfg, ins, 3) == AllSites(b, cfg, ins, 2) == [];
  }

  /** The path over the wide read breaks it. */
  lemma TwoReadsPath()
    ensures var p := [0] + [5] + [7] + [8];
      && PairEnds(TwoReads(), {}, p, AtEntry(TwoReads(), {}), 8)
      && PairAt(TwoReads(), {}, p, AtEntry(TwoReads(), {})).file(0) == Junk
  {
    hide IsInsn, Path, PairAt, Succ;
    var b, m := TwoReads(), AtEntry(TwoReads(), {});
    TwoReadsScan(0);
    TwoReadsEdges(0, 5);
    TwoReadsEdges(5, 7);
    TwoReadsEdges(7, 8);
    Enters(b, {});
    PathOn(b, {}, [0], m, 5, m);
    var m5 := PairAt(b, {}, [0] + [5], m);
    PathOn(b, {}, [0] + [5], m, 7, m5);
    var m7 := PairAt(b, {}, [0] + [5] + [7], m);
    assert m7 == Perform(b.code[5], m5);
    Arrives(m5.file, 0, Holds(FieldRead(3), true), true, Junk);
    assert m7.file(0) == Holds(FieldRead(3), true);
    PathOn(b, {}, [0] + [5] + [7], m, 8, m7);
  }

  /** A join of the same origin written narrow first and as a pair second is reported, though
      `v1` is overwritten behind it. */
  lemma TwoReadsBreak(cfg: Cfg, depth: nat, ins: seq<State>)
    requires CfgOf(TwoReads().code, {}, cfg) && Sized(cfg) && Whole(TwoReads(), cfg, depth, ins) && depth > 0
    ensures !PairsKept(TwoReads(), {}, AllSites(TwoReads(), cfg, ins, |cfg.starts|))
  {
    hide CfgOf, IsInsn, InState, AllSites, PairAt, Path;
    var b := TwoReads();
    TwoReadsIsCfg();
    CfgUnique(b.code, {}, cfg, TwoReadsCfg());
    TwoReadsReported(depth, ins);
    TwoReadsPath();
    var sites := AllSites(b, cfg, ins, 4);
    assert Reports(sites, 0, 0) && !Unbroken(b, {}, sites, 0, 0);
  }
}
