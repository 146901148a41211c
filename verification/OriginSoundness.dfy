/** What a reported origin means: on every path that reaches the invoke, it is the last
    write to the register. */
module OriginSoundness {
  import opened Options
  import opened Sequences
  import opened InvokeCfg
  import opened OriginFlow

  /** What a register holds: the value of some origin, or anything else. */
  datatype Cell = Last(origin: Origin) | Other

  /** A register file and the method whose result is waiting to be fetched. */
  datatype Machine = Machine(file: Reg -> Cell, last: Option<nat>)

  function Put(f: Reg -> Cell, r: Reg, c: Cell, wide: bool, high: Cell): Reg -> Cell {
    (x: Reg) => if wide && x == After(r) then high else if x == r then c else f(x)
  }

  /** Executes one instruction on the registers. */
  function Exec(i: Insn, m: Machine): Machine {
    match i.effect
    case Move(dst, src, wide) => Machine(Put(m.file, dst, m.file(src), wide, m.file(After(src))), None)
    case Define(dst, o, wide) => Machine(Put(m.file, dst, Last(o), wide, Other), None)
    case MoveResult(dst, wide) =>
      Machine(Put(m.file, dst, if m.last.Some? then Last(MethodReturn(m.last.value)) else Other, wide, Other), m.last)
    case Clobber(dst, wide) => Machine(Put(m.file, dst, Other, wide, Other), None)
    case Invoke(callee, _, _) => Machine(m.file, Some(callee))
    case NoWrite => Machine(m.file, None)
  }

  /** A path of instructions: it enters at the method entry, with the parameters in
      place, or at a catch handler, with any registers at all. */
  ghost predicate Path(b: Body, p: seq<nat>, m: Machine) {
    && |p| > 0 && IsInsn(b.code, p[0])
    && (p[0] in b.handlers
        || (p[0] == 0 && m.last == None && forall r :: b.IsParam(r) ==> m.file(r) == Last(b.ParamOrigin(r))))
    && forall i :: 0 < i < |p| ==> Succ(b.code, p[i - 1], p[i])
  }

  /** The machine that started as `m`, just before the last instruction of the path. */
  ghost function At(b: Body, p: seq<nat>, m: Machine): Machine
    requires Path(b, p, m)
  {
    if |p| == 1 then m
    else
      PathPrefix(b, p, m);
      Exec(b.code[p[|p| - 2]], At(b, p[..|p| - 1], m))
  }

  lemma PathPrefix(b: Body, p: seq<nat>, m: Machine)
    requires Path(b, p, m) && |p| > 1
    ensures Path(b, p[..|p| - 1], m) && Succ(b.code, p[|p| - 2], p[|p| - 1])
  {
  }

  ghost predicate KnownAs(st: State, r: Reg, o: Origin) {
    r in st && st[r].origin == Some(o)
  }

  /** Every origin the state knows is what the machine's register holds. */
  ghost predicate Sound(st: State, m: Machine) {
    forall r, o :: KnownAs(st, r, o) ==> m.file(r) == Last(o)
  }

  ghost predicate SimSound(s: Sim, m: Machine) {
    Sound(s.st, m) && (s.last.Some? ==> m.last == s.last)
  }

  lemma StepSound(i: Insn, s: Sim, m: Machine)
    requires SimSound(s, m)
    ensures SimSound(Step(i, s), Exec(i, m))
  {
    forall r, o | KnownAs(Step(i, s).st, r, o)
      ensures Exec(i, m).file(r) == Last(o)
    {
      assert r in s.st ==> (s.st[r].origin == Some(o) ==> KnownAs(s.st, r, o));
      if i.effect.Move? && i.effect.src in s.st {
        assert s.st[i.effect.src].origin == Some(o) ==> KnownAs(s.st, i.effect.src, o);
      }
    }
  }

  /** Running up to `x` and then one instruction more. */
  lemma {:induction false} RunSnoc(code: Code, a: nat, x: nat, s: Sim)
    requires Visits(code, a, x) && x < |code|
    ensures Run(code, a, Next(code, x), s) == Step(code[x], Run(code, a, x, s))
    decreases |code| - a
  {
    VisitsBounds(code, a, x);
    if a != x {
      VisitsBounds(code, Next(code, a), x);
      RunSnoc(code, Next(code, a), x, Step(code[a], s));
    } else {
      assert Run(code, Next(code, a), Next(code, a), Step(code[a], s)) == Step(code[a], s);
    }
  }

  /** Nothing is visited between `x` and an end no further than its successor. */
  lemma {:induction false} RunLast(code: Code, a: nat, x: nat, end: nat, s: Sim)
    requires Visits(code, a, x) && x < |code| && x < end
    requires IsInsn(code, Next(code, x)) ==> end <= Next(code, x)
    requires IsInsn(code, x)
    ensures Run(code, a, end, s) == Step(code[x], Run(code, a, x, s))
    decreases |code| - a
  {
    VisitsBounds(code, a, x);
    if a != x {
      VisitsBounds(code, Next(code, a), x);
      RunLast(code, Next(code, a), x, end, Step(code[a], s));
    } else if Next(code, x) < |code| && code[Next(code, x)].width > 0 {
      assert Visits(code, x, Next(code, x));
      VisitsTrans(code, 0, x, Next(code, x));
    }
  }

  ghost predicate Wf(b: Body, cfg: Cfg) {
    CfgOf(b.code, b.handlers, cfg) && Sized(cfg) && |cfg.starts| > 0
  }

  /** Predecessors are blocks. */
  lemma CfgIsWf(b: Body, cfg: Cfg)
    requires CfgOf(b.code, b.handlers, cfg)
    ensures Sized(cfg)
  {
    forall w, q | 0 <= w < |cfg.preds| && q in cfg.preds[w]
      ensures q < |cfg.starts|
    {
      assert BlockIs(b.code, b.handlers, cfg, w);
      assert LeadsTo(b.code, cfg.starts, q, cfg.starts[w]);
    }
  }

  ghost predicate EndsAt(b: Body, p: seq<nat>, m: Machine, x: nat) {
    Path(b, p, m) && p[|p| - 1] == x
  }

  /** The state holds whenever control reaches `x`. */
  ghost predicate SoundAt(b: Body, x: nat, st: State) {
    forall p, m :: EndsAt(b, p, m, x) ==> Sound(st, At(b, p, m))
  }

  lemma WfIs(b: Body, cfg: Cfg)
    requires Wf(b, cfg)
    ensures StartsOf(b.code, b.handlers, cfg.starts)
  {
  }

  /** A block starts no later than its instructions and reaches all of them. */
  lemma BlockVisits(b: Body, cfg: Cfg, x: nat)
    requires Wf(b, cfg) && IsInsn(b.code, x)
    ensures cfg.starts[0] <= x
    ensures Visits(b.code, cfg.starts[BlockOf(cfg.starts, x)], x)
    ensures x < cfg.EndOf(BlockOf(cfg.starts, x), |b.code|)
  {
    WfIs(b, cfg);
    var w := BlockOf(cfg.starts, x);
    var s := cfg.starts[w];
    assert s in cfg.starts;
    VisitsBounds(b.code, 0, x);
    if s < x {
      VisitsBounds(b.code, 0, s);
      VisitsOrder(b.code, 0, s, x);
      VisitsTrans(b.code, s, Next(b.code, s), x);
    }
  }

  /** Control reaches an instruction that is no leader only from the one before it, in the
      same block. */
  lemma OnlyFalls(b: Body, cfg: Cfg, a: nat, x: nat)
    requires Wf(b, cfg) && Succ(b.code, a, x) && cfg.starts[BlockOf(cfg.starts, x)] != x
    ensures x == Next(b.code, a) && BlockOf(cfg.starts, a) == BlockOf(cfg.starts, x)
  {
    WfIs(b, cfg);
    assert x in b.code[a].targets ==> LeaderAfter(b.code, a, x);
    if IsLeader(b.code, b.handlers, x) {
      LeaderBlock(b.code, b.handlers, cfg.starts, x);
    } else {
      FallLeaves(b.code, b.handlers, cfg.starts, a, BlockOf(cfg.starts, x));
    }
  }

  /** Within a block the simulation keeps what holds on entry. */
  lemma {:induction false} Within(b: Body, cfg: Cfg, p: seq<nat>, m: Machine, st: State)
    requires Wf(b, cfg) && Path(b, p, m)
    requires SoundAt(b, cfg.starts[BlockOf(cfg.starts, p[|p| - 1])], st)
    ensures SimSound(Run(b.code, cfg.starts[BlockOf(cfg.starts, p[|p| - 1])], p[|p| - 1], Sim(st, None)), At(b, p, m))
    decreases |p|
  {
    var x := p[|p| - 1];
    var s := cfg.starts[BlockOf(cfg.starts, x)];
    WfIs(b, cfg);
    if s == x {
      assert EndsAt(b, p, m, x);
    } else {
      if |p| == 1 {
        assert IsLeader(b.code, b.handlers, x);
        LeaderBlock(b.code, b.handlers, cfg.starts, x);
      } else {
        PathPrefix(b, p, m);
        var a := p[|p| - 2];
        OnlyFalls(b, cfg, a, x);
        var q := p[..|p| - 1];
        Within(b, cfg, q, m, st);
        BlockVisits(b, cfg, a);
        RunSnoc(b.code, s, a, Sim(st, None));
        StepSound(b.code[a], Run(b.code, s, a, Sim(st, None)), At(b, q, m));
      }
    }
  }

  /** An instruction that leads to a block start is the last of its own block. */
  lemma LeavesBlock(b: Body, cfg: Cfg, a: nat, c: nat)
    requires Wf(b, cfg) && c < |cfg.starts| && Succ(b.code, a, cfg.starts[c])
    ensures cfg.starts[0] <= a
    ensures IsInsn(b.code, Next(b.code, a)) ==> cfg.EndOf(BlockOf(cfg.starts, a), |b.code|) <= Next(b.code, a)
  {
    WfIs(b, cfg);
    var n := Next(b.code, a);
    if IsInsn(b.code, n) {
      var t := cfg.starts[c];
      if t in b.code[a].targets {
        assert HasTarget(b.code, a);
        assert LeaderAfter(b.code, a, n);
      } else {
        assert t in cfg.starts;
      }
      assert IsLeader(b.code, b.handlers, n);
      LeaderBlock(b.code, b.handlers, cfg.starts, n);
      var k := BlockOf(cfg.starts, n);
      VisitsBounds(b.code, 0, a);
      if k <= BlockOf(cfg.starts, a) {
        AscendingLe(cfg.starts, k, BlockOf(cfg.starts, a));
      } else {
        AscendingLe(cfg.starts, BlockOf(cfg.starts, a) + 1, k);
      }
    }
  }

  /** The state leaving a block holds wherever control passes on to a block. */
  ghost predicate OutSound(b: Body, cfg: Cfg, q: nat, st: State)
    requires Wf(b, cfg) && q < |cfg.starts|
  {
    forall p, m, c: nat :: PassesOn(b, cfg, p, m, q, c) ==> Sound(st, Exec(b.code[p[|p| - 1]], At(b, p, m)))
  }

  /** The path ends in block `q`, at an instruction that leads to block `c`. */
  ghost predicate PassesOn(b: Body, cfg: Cfg, p: seq<nat>, m: Machine, q: nat, c: nat)
    requires Wf(b, cfg)
  {
    && Path(b, p, m) && c < |cfg.starts| && Succ(b.code, p[|p| - 1], cfg.starts[c])
    && BlockOf(cfg.starts, p[|p| - 1]) == q
  }

  lemma OutIsSound(b: Body, cfg: Cfg, q: nat, st: State)
    requires Wf(b, cfg) && q < |cfg.starts| && SoundAt(b, cfg.starts[q], st)
    ensures OutSound(b, cfg, q, Out(b, cfg, q, st))
  {
    forall p, m, c: nat | PassesOn(b, cfg, p, m, q, c)
      ensures Sound(Out(b, cfg, q, st), Exec(b.code[p[|p| - 1]], At(b, p, m)))
    {
      var a := p[|p| - 1];
      Within(b, cfg, p, m, st);
      LeavesBlock(b, cfg, a, c);
      BlockVisits(b, cfg, a);
      RunLast(b.code, cfg.starts[q], a, cfg.EndOf(q, |b.code|), Sim(st, None));
      StepSound(b.code[a], Run(b.code, cfg.starts[q], a, Sim(st, None)), At(b, p, m));
    }
  }

  /** What survives a meet was known to every contribution. */
  lemma {:induction false} MetKnown(acc: Option<State>, preds: seq<nat>, outs: map<nat, State>, r: Reg, o: Origin)
    requires KnownAs(MeetPreds(acc, preds, outs), r, o)
    ensures acc.Some? ==> KnownAs(acc.value, r, o)
    ensures forall q :: q in preds ==> q in outs && KnownAs(outs[q], r, o)
    decreases |preds|
  {
    if preds != [] {
      var contrib := if preds[0] in outs then outs[preds[0]] else map[];
      var met := if acc.Some? then Meet(acc.value, contrib) else contrib;
      MetKnown(Some(met), preds[1..], outs, r, o);
      assert KnownAs(contrib, r, o);
      assert preds == [preds[0]] + preds[1..];
    }
  }

  ghost predicate OutsSound(b: Body, cfg: Cfg, outs: map<nat, State>)
    requires Wf(b, cfg)
  {
    forall q :: q in outs ==> q < |cfg.starts| && OutSound(b, cfg, q, outs[q])
  }

  /** The state on entry to a block holds whenever control reaches it, whatever
      predecessors have been resolved. */
  lemma InIsSound(b: Body, cfg: Cfg, w: nat, outs: map<nat, State>)
    requires Wf(b, cfg) && w < |cfg.starts| && OutsSound(b, cfg, outs)
    ensures SoundAt(b, cfg.starts[w], In(b, cfg, w, outs))
  {
    var st := In(b, cfg, w, outs);
    forall p, m, r, o | EndsAt(b, p, m, cfg.starts[w]) && KnownAs(st, r, o)
      ensures At(b, p, m).file(r) == Last(o)
    {
      ReachedKnown(b, cfg, w, outs, p, m, r, o);
    }
  }

  /** What is known on entry was known to every predecessor, and to the method entry where
      it applies. */
  lemma InKnown(b: Body, cfg: Cfg, w: nat, outs: map<nat, State>, r: Reg, o: Origin)
    requires Sized(cfg) && w < |cfg.starts| && KnownAs(In(b, cfg, w, outs), r, o)
    ensures !cfg.isHandler[w] && (w == 0 ==> b.IsParam(r) && o == b.ParamOrigin(r))
    ensures forall q :: q in cfg.preds[w] ==> q in outs && KnownAs(outs[q], r, o)
  {
    MetKnown(if w == 0 then Some(ParamState(b)) else None, cfg.preds[w], outs, r, o);
    assert w == 0 ==> KnownAs(ParamState(b), r, o);
  }

  /** A path that has only just begun. */
  lemma JustEntered(b: Body, cfg: Cfg, w: nat, p: seq<nat>, m: Machine)
    requires Wf(b, cfg) && w < |cfg.starts| && EndsAt(b, p, m, cfg.starts[w]) && |p| == 1
    requires !cfg.isHandler[w]
    ensures w == 0 && p[0] !in b.handlers
  {
    assert BlockIs(b.code, b.handlers, cfg, w);
    AscendingLe(cfg.starts, 0, w);
  }

  lemma FromPred(b: Body, cfg: Cfg, w: nat, p: seq<nat>, m: Machine) returns (q: nat)
    requires Wf(b, cfg) && w < |cfg.starts| && EndsAt(b, p, m, cfg.starts[w]) && |p| > 1
    ensures q in cfg.preds[w] && PassesOn(b, cfg, p[..|p| - 1], m, q, w)
  {
    PathPrefix(b, p, m);
    q := BlockOf(cfg.starts, p[|p| - 2]);
    assert BlockIs(b.code, b.handlers, cfg, w);
    assert LeadsTo(b.code, cfg.starts, q, cfg.starts[w]);
  }

  lemma ReachedKnown(b: Body, cfg: Cfg, w: nat, outs: map<nat, State>, p: seq<nat>, m: Machine, r: Reg, o: Origin)
    requires Wf(b, cfg) && w < |cfg.starts| && OutsSound(b, cfg, outs)
    requires EndsAt(b, p, m, cfg.starts[w]) && KnownAs(In(b, cfg, w, outs), r, o)
    ensures At(b, p, m).file(r) == Last(o)
  {
    hide CfgOf, StartsOf, In, IsInsn, KnownAs, PassesOn, Succ, BlockOf;
    WfIs(b, cfg);
    InKnown(b, cfg, w, outs, r, o);
    if |p| == 1 {
      JustEntered(b, cfg, w, p, m);
    } else {
      var q := FromPred(b, cfg, w, p, m);
      PathPrefix(b, p, m);
      assert Sound(outs[q], Exec(b.code[p[|p| - 2]], At(b, p[..|p| - 1], m)));
    }
  }

  lemma {:induction false} ResolveIsSound(b: Body, cfg: Cfg, ws: seq<nat>)
    requires Wf(b, cfg) && Blocks(cfg, ws)
    ensures OutsSound(b, cfg, Resolve(b, cfg, ws))
    decreases |ws|
  {
    if ws != [] {
      var w := ws[|ws| - 1];
      var rest := ws[..|ws| - 1];
      ResolveIsSound(b, cfg, rest);
      var outs := Resolve(b, cfg, rest);
      InIsSound(b, cfg, w, outs);
      OutIsSound(b, cfg, w, In(b, cfg, w, outs));
    }
  }

  /** Whichever state a block is started from. */
  lemma StartingIsSound(b: Body, cfg: Cfg, depth: nat, ins: seq<State>, w: nat)
    requires Wf(b, cfg) && Starting(b, cfg, depth, ins) && w < |ins|
    ensures SoundAt(b, cfg.starts[w], ins[w])
  {
    var ws := Order(cfg, w, depth, 1);
    ResolveIsSound(b, cfg, ws);
    InIsSound(b, cfg, w, Resolve(b, cfg, ws));
  }

  /** A site is read off the simulation at the invoke it names. */
  lemma {:induction false} SiteIs(code: Code, off: nat, end: nat, sim: Sim, k: nat)
    requires k < |Sites(code, off, end, sim)|
    ensures var s := Sites(code, off, end, sim)[k];
      && Visits(code, off, s.offset) && s.offset < end && s.offset < |code| && code[s.offset].effect.Invoke?
      && s == SiteAt(code[s.offset], s.offset, Run(code, off, s.offset, sim).st)
    decreases |code| - off
  {
    var first := if code[off].effect.Invoke? then [SiteAt(code[off], off, sim.st)] else [];
    if k < |first| {
      assert Run(code, off, off, sim) == sim;
    } else {
      SiteIs(code, Next(code, off), end, Step(code[off], sim), k - |first|);
      var x := Sites(code, off, end, sim)[k].offset;
      VisitsBounds(code, Next(code, off), x);
    }
  }

  /** The block a site comes from. */
  lemma {:induction false} SiteOf(b: Body, cfg: Cfg, ins: seq<State>, n: nat, k: nat) returns (w: nat, j: nat)
    requires Sized(cfg) && n <= |cfg.starts| == |ins| && k < |AllSites(b, cfg, ins, n)|
    ensures w < n && j < |BlockSites(b, cfg, w, ins[w])|
    ensures BlockSites(b, cfg, w, ins[w])[j] == AllSites(b, cfg, ins, n)[k]
  {
    if k < |AllSites(b, cfg, ins, n - 1)| {
      w, j := SiteOf(b, cfg, ins, n - 1, k);
    } else {
      w, j := n - 1, k - |AllSites(b, cfg, ins, n - 1)|;
    }
  }

  /** A reported origin is the last write to its register on every path to the invoke: at
      every depth and whatever the budgets cut off. */
  lemma ReportedIsLastWrite(b: Body, cfg: Cfg, depth: nat, ins: seq<State>, k: nat, i: nat, p: seq<nat>, m: Machine)
    requires Wf(b, cfg) && Starting(b, cfg, depth, ins)
    requires k < |AllSites(b, cfg, ins, |cfg.starts|)|
    requires var s := AllSites(b, cfg, ins, |cfg.starts|)[k];
      i < |s.args| && s.args[i].1.origin.Some? && EndsAt(b, p, m, s.offset)
    ensures var s := AllSites(b, cfg, ins, |cfg.starts|)[k];
      At(b, p, m).file(s.args[i].0) == Last(s.args[i].1.origin.value)
  {
    var s := AllSites(b, cfg, ins, |cfg.starts|)[k];
    var w, j := SiteOf(b, cfg, ins, |cfg.starts|, k);
    SiteIs(b.code, cfg.starts[w], cfg.EndOf(w, |b.code|), Sim(ins[w], None), j);
    WfIs(b, cfg);
    var x := s.offset;
    VisitsBounds(b.code, cfg.starts[w], x);
    BlockOfIs(cfg.starts, x, w);
    StartingIsSound(b, cfg, depth, ins, w);
    Within(b, cfg, p, m, ins[w]);
    var r, o := s.args[i].0, s.args[i].1.origin.value;
    assert KnownAs(Run(b.code, cfg.starts[w], x, Sim(ins[w], None)).st, r, o);
  }
}
