/** The analysis against 64-bit pairs: a reported origin is unbroken on every path if and only
    if the analysis still reports it when it keeps every width and leaves out what control
    never reaches. */
module PairExact {
  import opened Options
  import opened Sequences
  import opened InvokeCfg
  import opened OriginFlow
  import opened OriginSoundness
  import opened OriginLaws
  import opened OriginPairs
  import opened PairFlow

  /** Some path brings a machine to `x` whose register does not keep the origin. */
  ghost predicate Spoiled(b: Body, pairs: set<Reg>, x: nat, r: Reg, o: Origin) {
    exists p, m :: PairEnds(b, pairs, p, m, x) && !Keeps(PairAt(b, pairs, p, m).file(r), o)
  }

  /** Some path brings a machine to `x` whose register holds the origin as a pair. */
  ghost predicate Paired(b: Body, pairs: set<Reg>, x: nat, r: Reg, o: Origin) {
    exists p, m :: PairEnds(b, pairs, p, m, x) && PairAt(b, pairs, p, m).file(r) == Holds(o, true)
  }

  ghost predicate SimPairSound(s: Sim, m: PairMachine) {
    PairSound(s.st, m) && (s.last.Some? ==> m.last == s.last)
  }

  ghost predicate PairSoundAt(b: Body, pairs: set<Reg>, x: nat, s: Sim) {
    forall p, m :: PairEnds(b, pairs, p, m, x) ==> SimPairSound(s, PairAt(b, pairs, p, m))
  }

  /** What only the first state knows is broken on some path, and what the second knows as a
      pair is one on some path. */
  ghost predicate Tight(b: Body, pairs: set<Reg>, x: nat, st: State, wide: State) {
    && (forall r, o :: KnownAs(st, r, o) && !KnownAs(wide, r, o) ==> Spoiled(b, pairs, x, r, o))
    && (forall r, o :: KnownPair(wide, r, o) ==> Paired(b, pairs, x, r, o))
  }

  /** What is kept at `x` between the simulation and the one with widths. */
  ghost predicate Kept(b: Body, pairs: set<Reg>, x: nat, s: Sim, t: Sim) {
    s.last == t.last && PairSoundAt(b, pairs, x, t) && Tight(b, pairs, x, s.st, t.st)
  }

  lemma PathStarts(b: Body, p: seq<nat>, m: Machine, m': Machine)
    requires Path(b, p, m)
    requires p[0] !in b.handlers ==>
      m'.last == None && forall r :: b.IsParam(r) ==> m'.file(r) == Last(b.ParamOrigin(r))
    ensures Path(b, p, m')
  {
  }

  /** A path may be followed with pairs among the parameters. */
  lemma ReachedWithPairs(b: Body, pairs: set<Reg>, x: nat) returns (p: seq<nat>, m: PairMachine)
    requires Reached(b, x)
    ensures PairEnds(b, pairs, p, m, x)
  {
    var n: Machine;
    p, n :| EndsAt(b, p, n, x);
    m := AtEntry(b, pairs);
    AtEntryIs(b, pairs);
    PathStarts(b, p, n, Flat(m));
  }

  /** A register that is not written keeps its value unless its upper half is overwritten. */
  lemma PerformKeeps(i: Insn, m: PairMachine, r: Reg)
    requires !Writes(i, r)
    ensures Perform(i, m).file(r) == m.file(r) || Perform(i, m).file(r) == Junk
    ensures m.file(r).Holds? && m.file(r).pair && Perform(i, m).file(r) != m.file(r) ==>
      !i.effect.Invoke? && !i.effect.NoWrite? && r + 1 == i.effect.dst
    ensures !i.effect.Invoke? && !i.effect.NoWrite? && r + 1 == i.effect.dst && m.file(r).Holds? && m.file(r).pair ==>
      Perform(i, m).file(r) == Junk
  {
  }

  lemma StepKeepsWidth(i: Insn, s: Sim, r: Reg, o: Origin)
    requires KnownAs(Step(i, s).st, r, o)
    ensures !Writes(i, r) ==> KnownAs(s.st, r, o) && !Breaks(i, s.st, r) && Step(i, s).st[r] == s.st[r]
    ensures Writes(i, r) ==> r == i.effect.dst && Gives(i, s, o) && Step(i, s).st[r].wide == i.effect.wide
  {
  }

  /** The destination receives the value with the width of the instruction. */
  lemma Arrives(f: Reg -> Half, r: Reg, h: Half, wide: bool, high: Half)
    ensures Overwrite(f, r, h, wide, high)(r) == AsPair(h, wide)
  {
    assert After(r) != r;
  }

  /** What the instruction gives its destination in the machine. */
  lemma GivenIs(i: Insn, s: Sim, m: PairMachine, o: Origin)
    requires Gives(i, s, o)
    ensures i.effect.Move? || i.effect.Define? || i.effect.MoveResult?
    ensures i.effect.Move? ==> Perform(i, m).file(i.effect.dst) == AsPair(m.file(i.effect.src), i.effect.wide)
    ensures i.effect.Define? || (i.effect.MoveResult? && s.last == m.last) ==>
      Perform(i, m).file(i.effect.dst) == Holds(o, i.effect.wide)
  {
    match i.effect
    case Move(dst, src, wide) => Arrives(m.file, dst, m.file(src), wide, m.file(After(src)));
    case Define(dst, _, wide) => Arrives(m.file, dst, Holds(o, wide), wide, Junk);
    case MoveResult(dst, wide) =>
      if s.last == m.last { Arrives(m.file, dst, Holds(o, wide), wide, Junk); }
    case Clobber(_, _) =>
    case Invoke(_, _, _) =>
    case NoWrite =>
  }

  /** A known origin that the instruction gives arrives in the destination. */
  lemma GivenArrives(i: Insn, s: Sim, m: PairMachine, o: Origin)
    requires SimPairSound(s, m) && Gives(i, s, o)
    ensures Perform(i, m).file(i.effect.dst) == Holds(o, i.effect.wide)
  {
    GivenIs(i, s, m, o);
    if i.effect.Move? {
      assert KnownAs(s.st, i.effect.src, o);
    }
  }

  /** What the instruction gives in the first simulation only comes from a register that only
      the first knows. */
  lemma GivenOnlyOnce(i: Insn, s: Sim, t: Sim, m: PairMachine, o: Origin)
    requires s.last == t.last && Gives(i, s, o) && !Gives(i, t, o)
    ensures i.effect.Move? && KnownAs(s.st, i.effect.src, o) && !KnownAs(t.st, i.effect.src, o)
    ensures !Keeps(m.file(i.effect.src), o) ==> !Keeps(Perform(i, m).file(i.effect.dst), o)
  {
    GivenIs(i, s, m, o);
  }

  /** An instruction passes on to its successor what is broken before it, and breaks itself
      only where a pair is. */
  lemma SpoiledOnward(b: Body, pairs: set<Reg>, x: nat, y: nat, s: Sim, t: Sim, r: Reg, o: Origin)
    requires Succ(b.code, x, y) && s.last == t.last && Tight(b, pairs, x, s.st, t.st)
    requires KnownAs(Step(b.code[x], s).st, r, o) && !KnownAs(Step(b.code[x], t).st, r, o)
    ensures Spoiled(b, pairs, y, r, o)
  {
    hide IsInsn, Path, PairAt, Step, Perform, Gives;
    var i := b.code[x];
    StepKnowsExactly(i, s, r, o);
    StepKnowsExactly(i, t, r, o);
    var p, m;
    if Writes(i, r) {
      GivenOnlyOnce(i, s, t, AtEntry(b, pairs), o);
      p, m :| PairEnds(b, pairs, p, m, x) && !Keeps(PairAt(b, pairs, p, m).file(i.effect.src), o);
      GivenOnlyOnce(i, s, t, PairAt(b, pairs, p, m), o);
    } else if KnownAs(t.st, r, o) {
      assert KnownPair(t.st, r, o);
      p, m :| PairEnds(b, pairs, p, m, x) && PairAt(b, pairs, p, m).file(r) == Holds(o, true);
      PerformKeeps(i, PairAt(b, pairs, p, m), r);
    } else {
      p, m :| PairEnds(b, pairs, p, m, x) && !Keeps(PairAt(b, pairs, p, m).file(r), o);
      PerformKeeps(i, PairAt(b, pairs, p, m), r);
    }
    Onward(b, pairs, p, m, x, y);
  }

  /** A pair comes from an instruction that writes it or was one before. */
  lemma PairedOnward(b: Body, pairs: set<Reg>, x: nat, y: nat, s: Sim, t: Sim, r: Reg, o: Origin)
    requires Succ(b.code, x, y) && Tight(b, pairs, x, s.st, t.st) && PairSoundAt(b, pairs, x, t) && Reached(b, x)
    requires KnownPair(Step(b.code[x], t).st, r, o)
    ensures Paired(b, pairs, y, r, o)
  {
    hide IsInsn, Path, PairAt, Step, Perform, Gives, SimPairSound, Reached, Writes;
    var i := b.code[x];
    StepKeepsWidth(i, t, r, o);
    var p, m;
    if Writes(i, r) {
      p, m := ReachedWithPairs(b, pairs, x);
      GivenArrives(i, t, PairAt(b, pairs, p, m), o);
    } else {
      assert KnownPair(t.st, r, o);
      p, m :| PairEnds(b, pairs, p, m, x) && PairAt(b, pairs, p, m).file(r) == Holds(o, true);
      PerformKeeps(i, PairAt(b, pairs, p, m), r);
    }
    Onward(b, pairs, p, m, x, y);
  }

  lemma TightOnward(b: Body, pairs: set<Reg>, x: nat, y: nat, s: Sim, t: Sim)
    requires Succ(b.code, x, y) && s.last == t.last && PairSoundAt(b, pairs, x, t) && Reached(b, x)
    requires Tight(b, pairs, x, s.st, t.st)
    ensures Tight(b, pairs, y, Step(b.code[x], s).st, Step(b.code[x], t).st)
  {
    hide IsInsn, Step, PairSoundAt, Reached, KnownAs, KnownPair, Spoiled, Paired;
    var s', t' := Step(b.code[x], s).st, Step(b.code[x], t).st;
    forall r, o | KnownAs(s', r, o) && !KnownAs(t', r, o)
      ensures Spoiled(b, pairs, y, r, o)
    {
      SpoiledOnward(b, pairs, x, y, s, t, r, o);
    }
    forall r, o | KnownPair(t', r, o)
      ensures Paired(b, pairs, y, r, o)
    {
      PairedOnward(b, pairs, x, y, s, t, r, o);
    }
  }

  lemma LastsAgree(i: Insn, s: Sim, t: Sim)
    requires s.last == t.last
    ensures Step(i, s).last == Step(i, t).last
  {
  }

  /** Inside a block control arrives only from the instruction before, and does arrive. */
  lemma InsideBlock(b: Body, cfg: Cfg, x: nat)
    requires Wf(b, cfg) && IsInsn(b.code, x) && x < |b.code|
    requires IsInsn(b.code, Next(b.code, x)) && Next(b.code, x) !in cfg.starts
    ensures Succ(b.code, x, Next(b.code, x))
    ensures forall a: nat :: Succ(b.code, a, Next(b.code, x)) ==> a == x
    ensures Next(b.code, x) != 0 && Next(b.code, x) !in b.handlers
  {
    hide IsInsn, BlockOf, BlockIs;
    WfIs(b, cfg);
    var y := Next(b.code, x);
    assert !IsLeader(b.code, b.handlers, y);
    assert !LeaderAfter(b.code, x, y);
    forall a: nat | Succ(b.code, a, y)
      ensures a == x
    {
      BlockVisits(b, cfg, y);
      assert cfg.starts[BlockOf(cfg.starts, y)] in cfg.starts;
      OnlyFalls(b, cfg, a, y);
      SameNext(b.code, a, x);
    }
  }

  lemma SameNext(code: Code, a: nat, x: nat)
    requires IsInsn(code, a) && IsInsn(code, x) && a < |code| && x < |code| && Next(code, a) == Next(code, x)
    ensures a == x
  {
    VisitsBounds(code, 0, a);
    VisitsBounds(code, 0, x);
    if a < x {
      VisitsOrder(code, 0, a, x);
      VisitsBounds(code, Next(code, a), x);
    } else if x < a {
      VisitsOrder(code, 0, x, a);
      VisitsBounds(code, Next(code, x), a);
    }
  }

  /** Soundness goes along every edge that leads to an instruction. */
  lemma SoundOnward(b: Body, pairs: set<Reg>, x: nat, y: nat, t: Sim)
    requires IsInsn(b.code, x) && x < |b.code| && PairSoundAt(b, pairs, x, t)
    requires y != 0 && y !in b.handlers && forall a: nat :: Succ(b.code, a, y) ==> a == x
    ensures PairSoundAt(b, pairs, y, Step(b.code[x], t))
  {
    hide IsInsn, Succ, Step, Perform, PairAt, PairSound;
    forall p, m | PairEnds(b, pairs, p, m, y)
      ensures SimPairSound(Step(b.code[x], t), PairAt(b, pairs, p, m))
    {
      if |p| > 1 {
        Backward(b, pairs, p, m, y);
        StepKeepsPairs(b.code[x], t, PairAt(b, pairs, p[..|p| - 1], m));
      }
    }
  }

  lemma KeptOnward(b: Body, pairs: set<Reg>, cfg: Cfg, x: nat, s: Sim, t: Sim)
    requires Wf(b, cfg) && IsInsn(b.code, x) && x < |b.code| && Kept(b, pairs, x, s, t) && Reached(b, x)
    requires IsInsn(b.code, Next(b.code, x)) && Next(b.code, x) !in cfg.starts
    ensures Kept(b, pairs, Next(b.code, x), Step(b.code[x], s), Step(b.code[x], t))
  {
    hide IsInsn, Succ, Step, Tight, Reached, CfgOf, PairSoundAt;
    InsideBlock(b, cfg, x);
    SoundOnward(b, pairs, x, Next(b.code, x), t);
    LastsAgree(b.code[x], s, t);
    TightOnward(b, pairs, x, Next(b.code, x), s, t);
  }

  /** No block starts strictly inside block `w`. */
  lemma NoStartInside(b: Body, cfg: Cfg, w: nat, y: nat)
    requires Wf(b, cfg) && w < |cfg.starts| && cfg.starts[w] < y < cfg.EndOf(w, |b.code|)
    ensures y !in cfg.starts
  {
    forall c | 0 <= c < |cfg.starts|
      ensures cfg.starts[c] != y
    {
      if c <= w { AscendingLe(cfg.starts, c, w); } else { AscendingLe(cfg.starts, w + 1, c); }
    }
  }

  /** From one instruction of a block to a later one. */
  lemma {:induction false} KeptInside(b: Body, pairs: set<Reg>, cfg: Cfg, w: nat, a: nat, x: nat, s: Sim, t: Sim)
    requires Wf(b, cfg) && w < |cfg.starts| && cfg.starts[w] <= a && x < cfg.EndOf(w, |b.code|)
    requires IsInsn(b.code, a) && Visits(b.code, a, x) && Kept(b, pairs, a, s, t) && Reached(b, a)
    ensures Kept(b, pairs, x, Run(b.code, a, x, s), Run(b.code, a, x, t)) && Reached(b, x)
    decreases |b.code| - a
  {
    hide Kept, CfgOf, Step, Reached;
    VisitsBounds(b.code, a, x);
    if a != x {
      var n := Next(b.code, a);
      VisitsBounds(b.code, n, x);
      assert Visits(b.code, a, n) by { assert Visits(b.code, n, n); }
      VisitsTrans(b.code, 0, a, n);
      NoStartInside(b, cfg, w, n);
      KeptOnward(b, pairs, cfg, a, s, t);
      InsideBlock(b, cfg, a);
      ReachedOn(b, a, n);
      KeptInside(b, pairs, cfg, w, n, x, Step(b.code[a], s), Step(b.code[a], t));
    }
  }

  /** At any instruction, from the states its block is started with. */
  lemma KeptAt(b: Body, pairs: set<Reg>, cfg: Cfg, x: nat, st: State, wide: State)
    requires Wf(b, cfg) && IsInsn(b.code, x) && cfg.starts[0] <= x
    requires LiveBlock(b, cfg, BlockOf(cfg.starts, x))
    requires Kept(b, pairs, cfg.starts[BlockOf(cfg.starts, x)], Sim(st, None), Sim(wide, None))
    ensures Reached(b, x)
    ensures var a := cfg.starts[BlockOf(cfg.starts, x)];
      Kept(b, pairs, x, Run(b.code, a, x, Sim(st, None)), Run(b.code, a, x, Sim(wide, None)))
  {
    hide Kept, IsInsn, Visits, IsLeader;
    WfIs(b, cfg);
    BlockVisits(b, cfg, x);
    var w := BlockOf(cfg.starts, x);
    assert cfg.starts[w] in cfg.starts;
    StartIsInsn(b, cfg, w);
    KeptInside(b, pairs, cfg, w, cfg.starts[w], x, Sim(st, None), Sim(wide, None));
  }

  lemma StartIsInsn(b: Body, cfg: Cfg, w: nat)
    requires Wf(b, cfg) && w < |cfg.starts|
    ensures IsInsn(b.code, cfg.starts[w])
  {
    assert cfg.starts[w] in cfg.starts;
  }

  /** What is kept of the states that leave block `q`, wherever control passes on to. */
  ghost predicate OutKept(b: Body, pairs: set<Reg>, cfg: Cfg, q: nat, st: State, wide: State)
    requires Wf(b, cfg)
  {
    && (forall p, m, c: nat :: PairEnters(b, pairs, cfg, p, m, q, c) ==> PairSound(wide, PairAt(b, pairs, p, m)))
    && (forall c :: 0 <= c < |cfg.starts| && q in cfg.preds[c] ==> Tight(b, pairs, cfg.starts[c], st, wide))
  }

  /** The path has just entered block `c` from block `q`. */
  ghost predicate PairEnters(b: Body, pairs: set<Reg>, cfg: Cfg, p: seq<nat>, m: PairMachine, q: nat, c: nat)
    requires Wf(b, cfg)
  {
    && c < |cfg.starts| && |p| > 1 && PairEnds(b, pairs, p, m, cfg.starts[c])
    && BlockOf(cfg.starts, p[|p| - 2]) == q
  }

  /** The last instruction of a block, simulated from its start. */
  lemma BlockLast(b: Body, cfg: Cfg, a: nat, c: nat, st: State)
    requires Wf(b, cfg) && c < |cfg.starts| && Succ(b.code, a, cfg.starts[c])
    ensures cfg.starts[0] <= a
    ensures var q := BlockOf(cfg.starts, a);
      Out(b, cfg, q, st) == Step(b.code[a], Run(b.code, cfg.starts[q], a, Sim(st, None))).st
  {
    hide Step, IsLeader;
    LeavesBlock(b, cfg, a, c);
    BlockVisits(b, cfg, a);
    var q := BlockOf(cfg.starts, a);
    RunLast(b.code, cfg.starts[q], a, cfg.EndOf(q, |b.code|), Sim(st, None));
  }

  lemma OutIsKept(b: Body, pairs: set<Reg>, cfg: Cfg, q: nat, st: State, wide: State)
    requires Wf(b, cfg) && LiveBlock(b, cfg, q) && Kept(b, pairs, cfg.starts[q], Sim(st, None), Sim(wide, None))
    ensures OutKept(b, pairs, cfg, q, Out(b, cfg, q, st), Out(b, cfg, q, wide))
  {
    hide IsInsn, CfgOf, Path, PairAt, Perform, Step, Run, Out, Tight, PairSound, Reached;
    WfIs(b, cfg);
    forall p, m, c: nat | PairEnters(b, pairs, cfg, p, m, q, c)
      ensures PairSound(Out(b, cfg, q, wide), PairAt(b, pairs, p, m))
    {
      Backward(b, pairs, p, m, cfg.starts[c]);
      var a := p[|p| - 2];
      BlockLast(b, cfg, a, c, wide);
      KeptAt(b, pairs, cfg, a, st, wide);
      StepKeepsPairs(b.code[a], Run(b.code, cfg.starts[q], a, Sim(wide, None)), PairAt(b, pairs, p[..|p| - 1], m));
    }
    forall c | 0 <= c < |cfg.starts| && q in cfg.preds[c]
      ensures Tight(b, pairs, cfg.starts[c], Out(b, cfg, q, st), Out(b, cfg, q, wide))
    {
      var a := EdgeFrom(b, cfg, q, c);
      BlockLast(b, cfg, a, c, st);
      BlockLast(b, cfg, a, c, wide);
      KeptAt(b, pairs, cfg, a, st, wide);
      var s := cfg.starts[q];
      TightOnward(b, pairs, a, cfg.starts[c], Run(b.code, s, a, Sim(st, None)), Run(b.code, s, a, Sim(wide, None)));
    }
  }

  /** Control comes to any instruction of a block if and only if it comes to its start. */
  lemma BlockReached(b: Body, cfg: Cfg, x: nat)
    requires Wf(b, cfg) && IsInsn(b.code, x) && cfg.starts[0] <= x
    ensures Reached(b, x) <==> LiveBlock(b, cfg, BlockOf(cfg.starts, x))
  {
    hide CfgOf, IsInsn, Visits, Path;
    WfIs(b, cfg);
    BlockVisits(b, cfg, x);
    var w := BlockOf(cfg.starts, x);
    StartIsInsn(b, cfg, w);
    if LiveBlock(b, cfg, w) {
      ReachesInside(b, cfg, w, cfg.starts[w], x);
    }
    if Reached(b, x) {
      var p, m :| EndsAt(b, p, m, x);
      ReachesStart(b, cfg, p, m);
    }
  }

  lemma {:induction false} ReachesInside(b: Body, cfg: Cfg, w: nat, a: nat, x: nat)
    requires Wf(b, cfg) && w < |cfg.starts| && cfg.starts[w] <= a && x < cfg.EndOf(w, |b.code|)
    requires IsInsn(b.code, a) && Visits(b.code, a, x) && Reached(b, a)
    ensures Reached(b, x)
    decreases |b.code| - a
  {
    hide CfgOf, Reached;
    VisitsBounds(b.code, a, x);
    if a != x {
      var n := Next(b.code, a);
      VisitsBounds(b.code, n, x);
      assert Visits(b.code, a, n) by { assert Visits(b.code, n, n); }
      VisitsTrans(b.code, 0, a, n);
      NoStartInside(b, cfg, w, n);
      InsideBlock(b, cfg, a);
      ReachedOn(b, a, n);
      ReachesInside(b, cfg, w, n, x);
    }
  }

  lemma {:induction false} ReachesStart(b: Body, cfg: Cfg, p: seq<nat>, m: Machine)
    requires Wf(b, cfg) && Path(b, p, m)
    ensures cfg.starts[0] <= p[|p| - 1] && LiveBlock(b, cfg, BlockOf(cfg.starts, p[|p| - 1]))
    decreases |p|
  {
    var x := p[|p| - 1];
    WfIs(b, cfg);
    if |p| > 1 { PathPrefix(b, p, m); }
    BlockVisits(b, cfg, x);
    if cfg.starts[BlockOf(cfg.starts, x)] == x {
      assert EndsAt(b, p, m, x);
    } else if |p| == 1 {
      assert IsLeader(b.code, b.handlers, x);
      LeaderBlock(b.code, b.handlers, cfg.starts, x);
    } else {
      OnlyFalls(b, cfg, p[|p| - 2], x);
      ReachesStart(b, cfg, p[..|p| - 1], m);
    }
  }

  lemma EdgeFrom(b: Body, cfg: Cfg, q: nat, c: nat) returns (a: nat)
    requires Wf(b, cfg) && c < |cfg.starts| && q in cfg.preds[c]
    ensures Succ(b.code, a, cfg.starts[c]) && cfg.starts[0] <= a && BlockOf(cfg.starts, a) == q
  {
    assert BlockIs(b.code, b.handlers, cfg, c);
    assert LeadsTo(b.code, cfg.starts, q, cfg.starts[c]);
    a :| Succ(b.code, a, cfg.starts[c]) && BlockOf(cfg.starts, a) == q;
  }

  /** What leaves each block that is reached, in both analyses. */
  ghost predicate OutsKept(b: Body, pairs: set<Reg>, cfg: Cfg, outs: map<nat, State>, wides: map<nat, State>)
    requires Wf(b, cfg)
  {
    && outs.Keys == wides.Keys
    && forall q :: q in outs && LiveBlock(b, cfg, q) ==> OutKept(b, pairs, cfg, q, outs[q], wides[q])
  }

  lemma InIsSoundWide(b: Body, pairs: set<Reg>, cfg: Cfg, w: nat, outs: map<nat, State>, wides: map<nat, State>,
      p: seq<nat>, m: PairMachine)
    requires Wf(b, cfg) && w < |cfg.starts| && OutsKept(b, pairs, cfg, outs, wides)
    requires PairEnds(b, pairs, p, m, cfg.starts[w])
    ensures PairSound(InWide(b, pairs, cfg, w, wides), PairAt(b, pairs, p, m))
  {
    hide CfgOf, IsInsn, InWide, Path, Succ, KnownAs, Perform, Reached, Live, OutsKept, Tight;
    var st := InWide(b, pairs, cfg, w, wides);
    WfIs(b, cfg);
    var h := PairAt(b, pairs, p, m);
    forall r, o | KnownAs(st, r, o)
      ensures Keeps(h.file(r), o) && (h.file(r).pair ==> KnownPair(st, r, o))
    {
      InWideExact(b, pairs, cfg, w, wides, r, o);
      PathBegins(b, p, Flat(m));
      if |p| == 1 {
        JustEntered(b, cfg, w, p, Flat(m));
      } else {
        var q := FromPred(b, cfg, w, p, Flat(m));
        ReachesStart(b, cfg, p[..|p| - 1], Flat(m));
        assert PairEnters(b, pairs, cfg, p, m, q, w);
        assert KnownAs(Leaving(wides, q), r, o);
        KnownIsResolved(wides, q, r, o);
        LeavesSound(b, pairs, cfg, w, q, outs, wides, p, m);
        assert h.file(r).pair ==> KnownPair(Leaving(wides, q), r, o);
      }
    }
    SoundIf(st, h);
  }

  /** Coming from a block that is reached. */
  lemma LeavesSound(b: Body, pairs: set<Reg>, cfg: Cfg, w: nat, q: nat, outs: map<nat, State>, wides: map<nat, State>,
      p: seq<nat>, m: PairMachine)
    requires Wf(b, cfg) && OutsKept(b, pairs, cfg, outs, wides) && q in wides && LiveBlock(b, cfg, q)
    requires PairEnters(b, pairs, cfg, p, m, q, w)
    ensures PairSound(wides[q], PairAt(b, pairs, p, m))
  {
    hide CfgOf, IsInsn, Path, Succ, Perform, Reached, Tight, PairSound, PairAt, BlockOf;
    assert OutKept(b, pairs, cfg, q, outs[q], wides[q]);
  }

  lemma PathBegins(b: Body, p: seq<nat>, m: Machine)
    requires Path(b, p, m)
    ensures |p| > 0
  {
  }

  lemma KnownIsResolved(outs: map<nat, State>, q: nat, r: Reg, o: Origin)
    requires KnownAs(Leaving(outs, q), r, o)
    ensures q in outs && outs[q] == Leaving(outs, q)
  {
  }

  lemma SoundIf(st: State, m: PairMachine)
    requires forall r, o :: KnownAs(st, r, o) ==> Keeps(m.file(r), o) && (m.file(r).pair ==> KnownPair(st, r, o))
    ensures PairSound(st, m)
  {
  }

  /** The method entry brings in each pair. */
  lemma EntryIsPaired(b: Body, pairs: set<Reg>, cfg: Cfg, r: Reg)
    requires Wf(b, cfg) && b.IsParam(r) && r in pairs
    ensures Paired(b, pairs, cfg.starts[0], r, b.ParamOrigin(r))
  {
    WfIs(b, cfg);
    StartIsInsn(b, cfg, 0);
    var m := AtEntry(b, pairs);
    AtEntryIs(b, pairs);
    assert PairEnds(b, pairs, [0], m, 0);
    assert PairAt(b, pairs, [0], m) == m;
  }

  /** A block that is reached is entered by a path or from a block that is reached. */
  lemma LiveHasPred(b: Body, cfg: Cfg, w: nat)
    requires Wf(b, cfg) && LiveBlock(b, cfg, w)
    ensures cfg.isHandler[w] || w == 0 || Live(b, cfg, cfg.preds[w]) != []
  {
    hide CfgOf, Path, Live;
    var p, m :| EndsAt(b, p, m, cfg.starts[w]);
    PathBegins(b, p, m);
    if |p| == 1 {
      if !cfg.isHandler[w] { JustEntered(b, cfg, w, p, m); }
    } else {
      var q := FromPred(b, cfg, w, p, m);
      ReachesStart(b, cfg, p[..|p| - 1], m);
      assert q in Live(b, cfg, cfg.preds[w]);
    }
  }

  lemma InIsTight(b: Body, pairs: set<Reg>, cfg: Cfg, w: nat, outs: map<nat, State>, wides: map<nat, State>)
    requires Wf(b, cfg) && w < |cfg.starts| && OutsKept(b, pairs, cfg, outs, wides)
    requires LiveBlock(b, cfg, w)
    ensures Tight(b, pairs, cfg.starts[w], In(b, cfg, w, outs), InWide(b, pairs, cfg, w, wides))
  {
    hide CfgOf, In, InWide, Spoiled, Paired, KnownAs, Reached, Live;
    var st, wide := In(b, cfg, w, outs), InWide(b, pairs, cfg, w, wides);
    LiveHasPred(b, cfg, w);
    forall r, o | KnownAs(st, r, o) && !KnownAs(wide, r, o)
      ensures Spoiled(b, pairs, cfg.starts[w], r, o)
    {
      InKnowsExactly(b, cfg, w, outs, r, o);
      InWideExact(b, pairs, cfg, w, wides, r, o);
      var q :| q in Live(b, cfg, cfg.preds[w]) && !KnownAs(Leaving(wides, q), r, o);
      KnownIsResolved(outs, q, r, o);
      assert Leaving(wides, q) == wides[q];
      assert Tight(b, pairs, cfg.starts[w], outs[q], wides[q]);
    }
    forall r, o | KnownPair(wide, r, o)
      ensures Paired(b, pairs, cfg.starts[w], r, o)
    {
      InWideExact(b, pairs, cfg, w, wides, r, o);
      if w == 0 && r in pairs {
        EntryIsPaired(b, pairs, cfg, r);
      } else {
        var q :| q in Live(b, cfg, cfg.preds[w]) && KnownPair(Leaving(wides, q), r, o);
        KnownIsResolved(wides, q, r, o);
        assert Tight(b, pairs, cfg.starts[w], outs[q], wides[q]);
      }
    }
  }

  lemma InIsKept(b: Body, pairs: set<Reg>, cfg: Cfg, w: nat, outs: map<nat, State>, wides: map<nat, State>)
    requires Wf(b, cfg) && LiveBlock(b, cfg, w) && OutsKept(b, pairs, cfg, outs, wides)
    ensures Kept(b, pairs, cfg.starts[w], Sim(In(b, cfg, w, outs), None), Sim(InWide(b, pairs, cfg, w, wides), None))
  {
    hide CfgOf, In, InWide, Tight, PairSound, Path, OutsKept, Reached;
    forall p, m | PairEnds(b, pairs, p, m, cfg.starts[w])
      ensures PairSound(InWide(b, pairs, cfg, w, wides), PairAt(b, pairs, p, m))
    {
      InIsSoundWide(b, pairs, cfg, w, outs, wides, p, m);
    }
    InIsTight(b, pairs, cfg, w, outs, wides);
  }

  lemma {:induction false} ResolveIsKept(b: Body, pairs: set<Reg>, cfg: Cfg, ws: seq<nat>)
    requires Wf(b, cfg) && Blocks(cfg, ws)
    ensures OutsKept(b, pairs, cfg, Resolve(b, cfg, ws), ResolveWide(b, pairs, cfg, ws))
    decreases |ws|
  {
    hide In, InWide, Out, OutKept, CfgOf, Kept, Reached;
    if ws != [] {
      var w := ws[|ws| - 1];
      var rest := ws[..|ws| - 1];
      ResolveIsKept(b, pairs, cfg, rest);
      var outs, wides := Resolve(b, cfg, rest), ResolveWide(b, pairs, cfg, rest);
      if LiveBlock(b, cfg, w) {
        InIsKept(b, pairs, cfg, w, outs, wides);
        OutIsKept(b, pairs, cfg, w, In(b, cfg, w, outs), InWide(b, pairs, cfg, w, wides));
      }
    }
  }

  lemma NothingIsKept(b: Body, pairs: set<Reg>, x: nat)
    ensures Kept(b, pairs, x, Sim(map[], None), Sim(map[], None))
  {
  }

  /** Whichever states a block that is reached is started from. */
  lemma StartingIsKept(b: Body, pairs: set<Reg>, cfg: Cfg, depth: nat, ins: seq<State>, w: nat)
    requires Wf(b, cfg) && Starting(b, cfg, depth, ins) && w < |ins| && LiveBlock(b, cfg, w)
    ensures var wides := WideStates(b, pairs, cfg, depth, ins);
      Kept(b, pairs, cfg.starts[w], Sim(ins[w], None), Sim(wides[w], None))
  {
    hide Resolve, ResolveWide, In, InWide, Kept, CfgOf, Order, Reached;
    if ins[w] == map[] {
      NothingIsKept(b, pairs, cfg.starts[w]);
    } else {
      var ws := Order(cfg, w, depth, 1);
      ResolveIsKept(b, pairs, cfg, ws);
      InIsKept(b, pairs, cfg, w, Resolve(b, cfg, ws), ResolveWide(b, pairs, cfg, ws));
    }
  }

  /** A site is read off the simulation of the block that holds it. */
  lemma SiteReadsBlock(b: Body, cfg: Cfg, ins: seq<State>, k: nat)
    requires Wf(b, cfg) && |ins| == |cfg.starts| && k < |AllSites(b, cfg, ins, |cfg.starts|)|
    ensures var x := AllSites(b, cfg, ins, |cfg.starts|)[k].offset;
      && IsInsn(b.code, x) && x < |b.code| && b.code[x].effect.Invoke? && cfg.starts[0] <= x
      && AllSites(b, cfg, ins, |cfg.starts|)[k] == SiteAt(b.code[x], x, BlockStateAt(b, cfg, ins, x))
  {
    hide Run, SiteAt, IsLeader;
    WfIs(b, cfg);
    var x := AllSites(b, cfg, ins, |cfg.starts|)[k].offset;
    var w, j := SiteOf(b, cfg, ins, |cfg.starts|, k);
    SiteIs(b.code, cfg.starts[w], cfg.EndOf(w, |b.code|), Sim(ins[w], None), j);
    VisitsBounds(b.code, cfg.starts[w], x);
    StartIsInsn(b, cfg, w);
    VisitsTrans(b.code, 0, cfg.starts[w], x);
    BlockOfIs(cfg.starts, x, w);
  }

  /** The state just before instruction `x` in the simulation of its block. */
  function BlockStateAt(b: Body, cfg: Cfg, ins: seq<State>, x: nat): State
    requires |cfg.starts| > 0 && cfg.starts[0] <= x && |ins| == |cfg.starts|
  {
    var w := BlockOf(cfg.starts, x);
    Run(b.code, cfg.starts[w], x, Sim(ins[w], None)).st
  }

  /** Both analyses report the same invokes, with the same registers. */
  lemma WideSitesAlign(b: Body, pairs: set<Reg>, cfg: Cfg, depth: nat, ins: seq<State>, k: nat)
    requires Wf(b, cfg) && |ins| == |cfg.starts| && k < |AllSites(b, cfg, ins, |cfg.starts|)|
    ensures |WideSites(b, pairs, cfg, depth, ins)| == |AllSites(b, cfg, ins, |cfg.starts|)|
    ensures var s, t := AllSites(b, cfg, ins, |cfg.starts|)[k], WideSites(b, pairs, cfg, depth, ins)[k];
      t.offset == s.offset && |t.args| == |s.args| && forall i :: 0 <= i < |s.args| ==> t.args[i].0 == s.args[i].0
  {
    hide CfgOf, AllSites, BlockStateAt, Scan, InStateWide;
    var wides := WideStates(b, pairs, cfg, depth, ins);
    SitesAreTheScan(b, cfg, ins, |cfg.starts|);
    SitesAreTheScan(b, cfg, wides, |cfg.starts|);
    SameBare(AllSites(b, cfg, ins, |cfg.starts|), WideSites(b, pairs, cfg, depth, ins), k);
    SiteReadsBlock(b, cfg, ins, k);
    SiteReadsBlock(b, cfg, wides, k);
  }

  lemma SameBare(s: seq<Site>, t: seq<Site>, k: nat)
    requires Strip(s) == Strip(t) && k < |s|
    ensures |s| == |t| && s[k].offset == t[k].offset
  {
    assert Strip(s)[k] == Strip(t)[k];
  }

  /** On every path to the `k`th site its `i`th argument register keeps the reported origin:
      no write has broken it, not even as the lower half of a pair. */
  ghost predicate Unbroken(b: Body, pairs: set<Reg>, sites: seq<Site>, k: nat, i: nat)
    requires k < |sites| && i < |sites[k].args| && sites[k].args[i].1.origin.Some?
  {
    forall p, m :: PairEnds(b, pairs, p, m, sites[k].offset) ==>
      Keeps(PairAt(b, pairs, p, m).file(sites[k].args[i].0), sites[k].args[i].1.origin.value)
  }

  /** An origin reported with every width kept is never broken, at every depth and whatever
      the budgets cut off. */
  lemma WideIsUnbroken(b: Body, pairs: set<Reg>, cfg: Cfg, depth: nat, ins: seq<State>, k: nat, i: nat)
    requires Wf(b, cfg) && Starting(b, cfg, depth, ins) && k < |WideSites(b, pairs, cfg, depth, ins)|
    requires var s := WideSites(b, pairs, cfg, depth, ins)[k]; i < |s.args| && s.args[i].1.origin.Some?
    ensures Unbroken(b, pairs, WideSites(b, pairs, cfg, depth, ins), k, i)
  {
    hide CfgOf, AllSites, IsInsn, InState, Run, Tight, PairAt, Kept, Path, Reached;
    var wides := WideStates(b, pairs, cfg, depth, ins);
    SiteReadsBlock(b, cfg, wides, k);
    var s := WideSites(b, pairs, cfg, depth, ins)[k];
    var x := s.offset;
    BlockReached(b, cfg, x);
    if !Reached(b, x) {
      NothingEnds(b, pairs, x);
      return;
    }
    StartingIsKept(b, pairs, cfg, depth, ins, BlockOf(cfg.starts, x));
    KeptAt(b, pairs, cfg, x, ins[BlockOf(cfg.starts, x)], wides[BlockOf(cfg.starts, x)]);
    KeptIs(b, pairs, x, BlockSimAt(b, cfg, ins, x), BlockSimAt(b, cfg, wides, x));
    assert KnownAs(BlockStateAt(b, cfg, wides, x), s.args[i].0, s.args[i].1.origin.value);
  }

  /** No path leads to what is never reached. */
  lemma NothingEnds(b: Body, pairs: set<Reg>, x: nat)
    requires !Reached(b, x)
    ensures forall p, m :: !PairEnds(b, pairs, p, m, x)
  {
    forall p, m
      ensures !PairEnds(b, pairs, p, m, x)
    {
      if PairEnds(b, pairs, p, m, x) { assert EndsAt(b, p, Flat(m), x); }
    }
  }

  function BlockSimAt(b: Body, cfg: Cfg, ins: seq<State>, x: nat): Sim
    requires |cfg.starts| > 0 && cfg.starts[0] <= x && |ins| == |cfg.starts|
  {
    var w := BlockOf(cfg.starts, x);
    Run(b.code, cfg.starts[w], x, Sim(ins[w], None))
  }

  lemma KeptIs(b: Body, pairs: set<Reg>, x: nat, s: Sim, t: Sim)
    requires Kept(b, pairs, x, s, t)
    ensures PairSoundAt(b, pairs, x, t) && Tight(b, pairs, x, s.st, t.st)
  {
  }

  /** A reported origin is unbroken if and only if the analysis still reports it when it keeps
      every width and leaves out what is never reached. */
  lemma UnbrokenIffWide(b: Body, pairs: set<Reg>, cfg: Cfg, depth: nat, ins: seq<State>, k: nat, i: nat)
    requires Wf(b, cfg) && Starting(b, cfg, depth, ins) && k < |AllSites(b, cfg, ins, |cfg.starts|)|
    requires var s := AllSites(b, cfg, ins, |cfg.starts|)[k]; i < |s.args| && s.args[i].1.origin.Some?
    ensures |WideSites(b, pairs, cfg, depth, ins)| == |AllSites(b, cfg, ins, |cfg.starts|)|
    ensures var s, t := AllSites(b, cfg, ins, |cfg.starts|)[k], WideSites(b, pairs, cfg, depth, ins)[k];
      && |t.args| == |s.args|
      && (t.args[i].1.origin == s.args[i].1.origin <==> Unbroken(b, pairs, AllSites(b, cfg, ins, |cfg.starts|), k, i))
  {
    hide CfgOf, AllSites, IsInsn, Run, PairAt, PairEnds, Kept, Path, PairSoundAt, WideSites, Resolve, Order;
    WideSitesAlign(b, pairs, cfg, depth, ins, k);
    var s, t := AllSites(b, cfg, ins, |cfg.starts|)[k], WideSites(b, pairs, cfg, depth, ins)[k];
    if t.args[i].1.origin == s.args[i].1.origin {
      WideIsUnbroken(b, pairs, cfg, depth, ins, k, i);
    } else {
      LostIsSpoiled(b, pairs, cfg, depth, ins, k, i);
    }
  }

  /** An origin that is lost with every width kept is broken on some path. */
  lemma LostIsSpoiled(b: Body, pairs: set<Reg>, cfg: Cfg, depth: nat, ins: seq<State>, k: nat, i: nat)
    requires Wf(b, cfg) && Starting(b, cfg, depth, ins)
    requires k < |AllSites(b, cfg, ins, |cfg.starts|)| == |WideSites(b, pairs, cfg, depth, ins)|
    requires var s, t := AllSites(b, cfg, ins, |cfg.starts|)[k], WideSites(b, pairs, cfg, depth, ins)[k];
      && s.offset == t.offset && i < |s.args| == |t.args| && s.args[i].1.origin.Some?
      && t.args[i].1.origin != s.args[i].1.origin
    ensures var s := AllSites(b, cfg, ins, |cfg.starts|)[k];
      Spoiled(b, pairs, s.offset, s.args[i].0, s.args[i].1.origin.value)
  {
    hide CfgOf, AllSites, IsInsn, InState, Run, Kept, PairSoundAt, Reached, Spoiled, Paired;
    var wides := WideStates(b, pairs, cfg, depth, ins);
    SiteReadsBlock(b, cfg, ins, k);
    SiteReadsBlock(b, cfg, wides, k);
    var s := AllSites(b, cfg, ins, |cfg.starts|)[k];
    var x := s.offset;
    BlockReached(b, cfg, x);
    assert LiveBlock(b, cfg, BlockOf(cfg.starts, x));
    StartingIsKept(b, pairs, cfg, depth, ins, BlockOf(cfg.starts, x));
    KeptAt(b, pairs, cfg, x, ins[BlockOf(cfg.starts, x)], wides[BlockOf(cfg.starts, x)]);
    KeptIs(b, pairs, x, BlockSimAt(b, cfg, ins, x), BlockSimAt(b, cfg, wides, x));
    assert KnownAs(BlockStateAt(b, cfg, ins, x), s.args[i].0, s.args[i].1.origin.value);
    assert !KnownAs(BlockStateAt(b, cfg, wides, x), s.args[i].0, s.args[i].1.origin.value);
  }
}
