/** Laws of the whole analysis: a deeper window only adds origins, and every depth reports
    the sites of one linear scan. */
module OriginLaws {
  import opened Options
  import opened Sequences
  import opened InvokeCfg
  import opened OriginFlow
  import opened OriginSoundness

  ghost predicate Knows(st: State, r: Reg) {
    r in st && st[r].origin.Some?
  }

  /** `t` knows all `s` knows. */
  ghost predicate Refines(s: State, t: State) {
    forall r :: Knows(s, r) ==> r in t && t[r] == s[r]
  }

  lemma SetRefines(s: State, t: State, r: Reg, x: Tracked, wide: bool)
    requires Refines(s, t)
    ensures Refines(SetReg(s, r, x, wide), SetReg(t, r, x, wide))
  {
    forall q | Knows(SetReg(s, r, x, wide), q)
      ensures q in SetReg(t, r, x, wide) && SetReg(t, r, x, wide)[q] == SetReg(s, r, x, wide)[q]
    {
      assert q != r ==> Knows(s, q);
    }
  }

  lemma EraseRefines(s: State, t: State, r: Reg, wide: bool)
    requires Refines(s, t)
    ensures Refines(EraseReg(s, r, wide), EraseReg(t, r, wide))
  {
    forall q | Knows(EraseReg(s, r, wide), q)
      ensures q in EraseReg(t, r, wide) && EraseReg(t, r, wide)[q] == EraseReg(s, r, wide)[q]
    {
      assert Knows(s, q);
    }
  }

  /** `r`, with its high half, was written; the register below lost a wide value. */
  ghost predicate Touches(s: State, s': State, r: Reg, wide: bool) {
    forall q :: q != r ==>
      if (wide && q == After(r)) || (q + 1 == r && q in s && s[q].wide) then q !in s'
      else (q in s' <==> q in s) && (q in s ==> s'[q] == s[q])
  }

  lemma WritesTouch(s: State, r: Reg, x: Tracked, wide: bool)
    ensures Touches(s, SetReg(s, r, x, wide), r, wide) && Touches(s, EraseReg(s, r, wide), r, wide)
    ensures !Knows(EraseReg(s, r, wide), r) && (x.origin.None? ==> !Knows(SetReg(s, r, x, wide), r))
  {
  }

  lemma ForgetOne(s: State, t: State, s': State, t': State, r: Reg, wide: bool)
    requires Refines(s, t) && !Knows(s', r)
    requires Touches(s, s', r, wide) && Touches(t, t', r, wide)
    ensures Refines(s', t')
  {
    forall q | Knows(s', q)
      ensures q in t' && t'[q] == s'[q]
    {
      assert Knows(s, q);
    }
  }

  /** Losing a register, or no longer knowing it, against writing anything to it. */
  lemma ForgetRefines(s: State, t: State, r: Reg, x: Tracked, y: Tracked, wide: bool)
    requires Refines(s, t) && y.origin.None?
    ensures Refines(EraseReg(s, r, wide), SetReg(t, r, x, wide))
    ensures Refines(SetReg(s, r, y, wide), SetReg(t, r, x, wide))
    ensures Refines(SetReg(s, r, y, wide), EraseReg(t, r, wide))
  {
    hide *;
    WritesTouch(s, r, y, wide);
    WritesTouch(t, r, x, wide);
    ForgetOne(s, t, EraseReg(s, r, wide), SetReg(t, r, x, wide), r, wide);
    ForgetOne(s, t, SetReg(s, r, y, wide), SetReg(t, r, x, wide), r, wide);
    ForgetOne(s, t, SetReg(s, r, y, wide), EraseReg(t, r, wide), r, wide);
  }

  ghost predicate SimRefines(s: Sim, t: Sim) {
    Refines(s.st, t.st) && s.last == t.last
  }

  lemma StepRefines(i: Insn, s: Sim, t: Sim)
    requires SimRefines(s, t)
    ensures SimRefines(Step(i, s), Step(i, t))
  {
    hide Refines, SetReg, EraseReg, Knows;
    match i.effect
    case Move(dst, src, wide) =>
      MoveRefines(s.st, t.st, dst, src, wide);
    case Define(dst, o, wide) => SetRefines(s.st, t.st, dst, Known(o), wide);
    case MoveResult(dst, wide) =>
      EraseRefines(s.st, t.st, dst, wide);
      if s.last.Some? { SetRefines(s.st, t.st, dst, Known(MethodReturn(s.last.value)), wide); }
    case Clobber(dst, wide) => EraseRefines(s.st, t.st, dst, wide);
    case Invoke(callee, _, _) =>
    case NoWrite =>
  }

  function Moved(s: State, dst: Reg, src: Reg, wide: bool): State {
    if src in s then SetReg(s, dst, s[src], wide) else EraseReg(s, dst, wide)
  }

  lemma MoveRefines(s: State, t: State, dst: Reg, src: Reg, wide: bool)
    requires Refines(s, t)
    ensures Refines(Moved(s, dst, src, wide), Moved(t, dst, src, wide))
  {
    assert Knows(s, src) ==> src in t && t[src] == s[src];
    hide Refines, SetReg, EraseReg;
    var blank := Tracked(None, false, false);
    EraseRefines(s, t, dst, wide);
    ForgetRefines(s, t, dst, if src in t then t[src] else blank,
                  if src in s && !Knows(s, src) then s[src] else blank, wide);
    if Knows(s, src) { SetRefines(s, t, dst, s[src], wide); }
  }

  lemma {:induction false} RunRefines(code: Code, off: nat, end: nat, s: Sim, t: Sim)
    requires SimRefines(s, t)
    ensures SimRefines(Run(code, off, end, s), Run(code, off, end, t))
    decreases |code| - off
  {
    if off < end && off < |code| && code[off].width > 0 {
      StepRefines(code[off], s, t);
      RunRefines(code, Next(code, off), end, Step(code[off], s), Step(code[off], t));
    }
  }

  lemma MeetRefines(s1: State, t1: State, s2: State, t2: State)
    requires Refines(s1, t1) && Refines(s2, t2)
    ensures Refines(Meet(s1, s2), Meet(t1, t2))
  {
    forall r | Knows(Meet(s1, s2), r)
      ensures r in Meet(t1, t2) && Meet(t1, t2)[r] == Meet(s1, s2)[r]
    {
      assert Knows(s1, r) && Knows(s2, r);
    }
  }

  function Leaving(outs: map<nat, State>, q: nat): State {
    if q in outs then outs[q] else map[]
  }

  ghost predicate OutsRefine(o1: map<nat, State>, o2: map<nat, State>) {
    forall q :: Refines(Leaving(o1, q), Leaving(o2, q))
  }

  lemma {:induction false} PredsRefine(a1: Option<State>, a2: Option<State>, preds: seq<nat>, o1: map<nat, State>,
        o2: map<nat, State>)
    requires a1.Some? <==> a2.Some?
    requires a1.Some? ==> Refines(a1.value, a2.value)
    requires OutsRefine(o1, o2)
    ensures Refines(MeetPreds(a1, preds, o1), MeetPreds(a2, preds, o2))
    decreases |preds|
  {
    hide Refines, Meet;
    if preds == [] {
      EmptyRefines(map[]);
    } else {
      var c1, c2 := Leaving(o1, preds[0]), Leaving(o2, preds[0]);
      if a1.Some? { MeetRefines(a1.value, a2.value, c1, c2); }
      PredsRefine(Some(if a1.Some? then Meet(a1.value, c1) else c1),
                  Some(if a2.Some? then Meet(a2.value, c2) else c2), preds[1..], o1, o2);
    }
  }

  lemma EmptyRefines(t: State)
    ensures Refines(map[], t)
  {
  }

  lemma SameRefines(t: State)
    ensures Refines(t, t)
  {
  }

  lemma InRefines(b: Body, cfg: Cfg, w: nat, o1: map<nat, State>, o2: map<nat, State>)
    requires Sized(cfg) && w < |cfg.starts| && OutsRefine(o1, o2)
    ensures Refines(In(b, cfg, w, o1), In(b, cfg, w, o2))
  {
    SameRefines(ParamState(b));
    var acc := if w == 0 then Some(ParamState(b)) else None;
    PredsRefine(acc, acc, cfg.preds[w], o1, o2);
  }

  /** Resolving more blocks beforehand loses nothing. */
  lemma {:induction false} ResolveRefines(b: Body, cfg: Cfg, more: seq<nat>, ws: seq<nat>)
    requires Sized(cfg) && Blocks(cfg, more) && Blocks(cfg, ws) && Blocks(cfg, more + ws)
    ensures OutsRefine(Resolve(b, cfg, ws), Resolve(b, cfg, more + ws))
    decreases |ws|
  {
    hide Refines, In, Run;
    if ws == [] {
      forall q ensures Refines(Leaving(map[], q), Leaving(Resolve(b, cfg, more + ws), q)) {
        EmptyRefines(Leaving(Resolve(b, cfg, more + ws), q));
      }
    } else {
      var w := ws[|ws| - 1];
      var rest := ws[..|ws| - 1];
      assert (more + ws)[..|more + ws| - 1] == more + rest;
      ResolveRefines(b, cfg, more, rest);
      var o1, o2 := Resolve(b, cfg, rest), Resolve(b, cfg, more + rest);
      InRefines(b, cfg, w, o1, o2);
      var i1, i2 := In(b, cfg, w, o1), In(b, cfg, w, o2);
      RunRefines(b.code, cfg.starts[w], cfg.EndOf(w, |b.code|), Sim(i1, None), Sim(i2, None));
      var r1, r2 := Resolve(b, cfg, ws), Resolve(b, cfg, more + ws);
      assert r1 == o1[w := Out(b, cfg, w, i1)] && r2 == o2[w := Out(b, cfg, w, i2)];
      forall q ensures Refines(Leaving(r1, q), Leaving(r2, q)) {
        if q != w { assert Refines(Leaving(o1, q), Leaving(o2, q)); }
      }
    }
  }

  /** The instruction writes register `r`: its destination or, for a wide one, the next. */
  predicate Writes(i: Insn, r: Reg) {
    (i.effect.Move? || i.effect.Define? || i.effect.MoveResult? || i.effect.Clobber?)
    && (r == i.effect.dst || (i.effect.wide && r == After(i.effect.dst)))
  }

  /** The instruction overwrites the high half of a wide value held in `r`. */
  predicate Breaks(i: Insn, s: State, r: Reg) {
    (i.effect.Move? || i.effect.Define? || i.effect.MoveResult? || i.effect.Clobber?)
    && r + 1 == i.effect.dst && r in s && s[r].wide
  }

  /** The instruction gives its destination this origin. */
  predicate Gives(i: Insn, s: Sim, o: Origin) {
    match i.effect
    case Move(_, src, _) => src in s.st && s.st[src].origin == Some(o)
    case Define(_, origin, _) => origin == o
    case MoveResult(_, _) => s.last.Some? && o == MethodReturn(s.last.value)
    case Clobber(_, _) => false
    case Invoke(_, _, _) => false
    case NoWrite => false
  }

  /** What is known after an instruction: the origin it gives its destination, and whatever
      was known of a register it neither writes nor breaks. */
  lemma StepKnowsExactly(i: Insn, s: Sim, r: Reg, o: Origin)
    ensures KnownAs(Step(i, s).st, r, o) <==>
      if Writes(i, r) then r == i.effect.dst && Gives(i, s, o) else KnownAs(s.st, r, o) && !Breaks(i, s.st, r)
  {
  }

  /** The register is tracked, but what it held is known on some of the ways only. */
  ghost predicate Crossed(st: State, r: Reg) {
    r in st && st[r].origin.None?
  }

  /** Whatever is tracked is known or marked as crossed, and never both. */
  ghost predicate Marked(st: State) {
    forall r :: r in st ==> (st[r].origin.None? <==> st[r].crossed)
  }

  /** The instruction gives its destination something, if only the mark of a crossing. */
  predicate Hands(i: Insn, s: Sim) {
    match i.effect
    case Move(_, src, _) => src in s.st
    case Define(_, _, _) => true
    case MoveResult(_, _) => s.last.Some?
    case Clobber(_, _) => false
    case Invoke(_, _, _) => false
    case NoWrite => false
  }

  /** What is crossed after an instruction: a move hands the mark on, and whatever was crossed
      and is neither written nor broken still is. */
  lemma StepCrossesExactly(i: Insn, s: Sim, r: Reg)
    ensures Crossed(Step(i, s).st, r) <==>
      if Writes(i, r) then r == i.effect.dst && i.effect.Move? && Crossed(s.st, i.effect.src)
      else Crossed(s.st, r) && !Breaks(i, s.st, r)
    ensures Marked(s.st) ==> Marked(Step(i, s).st)
  {
  }

  /** On entry to a block exactly those registers are crossed that some contribution tracks and
      not all know alike. */
  lemma {:induction false} MeetPredsCrossExactly(acc: Option<State>, preds: seq<nat>, outs: map<nat, State>, r: Reg)
    requires acc.Some? ==> Marked(acc.value)
    requires forall q :: q in preds ==> Marked(Leaving(outs, q))
    ensures var met := MeetPreds(acc, preds, outs);
      && Marked(met)
      && (r in met <==> (acc.Some? && r in acc.value) || exists q :: q in preds && r in Leaving(outs, q))
    decreases |preds|
  {
    if preds != [] {
      var c := Leaving(outs, preds[0]);
      MeetPredsCrossExactly(Some(if acc.Some? then Meet(acc.value, c) else c), preds[1..], outs, r);
      assert preds == [preds[0]] + preds[1..];
    }
  }

  lemma InCrossesExactly(b: Body, cfg: Cfg, w: nat, outs: map<nat, State>, r: Reg)
    requires Sized(cfg) && w < |cfg.starts| && forall q :: q in outs ==> Marked(outs[q])
    ensures var st := In(b, cfg, w, outs);
      && Marked(st)
      && (Crossed(st, r) <==>
            && !cfg.isHandler[w] && (forall o :: !KnownAs(st, r, o))
            && ((w == 0 && b.IsParam(r)) || exists q :: q in cfg.preds[w] && r in Leaving(outs, q)))
  {
    var acc := if w == 0 then Some(ParamState(b)) else None;
    if !cfg.isHandler[w] {
      MeetPredsCrossExactly(acc, cfg.preds[w], outs, r);
      var st := In(b, cfg, w, outs);
      assert r in st && st[r].origin.Some? ==> KnownAs(st, r, st[r].origin.value);
    }
  }

  lemma {:induction false} RunMarked(code: Code, off: nat, end: nat, s: Sim)
    requires Marked(s.st)
    ensures Marked(Run(code, off, end, s).st)
    decreases |code| - off
  {
    if off < end && off < |code| && code[off].width > 0 {
      StepCrossesExactly(code[off], s, 0);
      RunMarked(code, Next(code, off), end, Step(code[off], s));
    }
  }

  lemma {:induction false} ResolveMarked(b: Body, cfg: Cfg, ws: seq<nat>)
    requires Sized(cfg) && Blocks(cfg, ws)
    ensures forall q :: q in Resolve(b, cfg, ws) ==> Marked(Resolve(b, cfg, ws)[q])
    decreases |ws|
  {
    hide Marked, In, Run;
    if ws != [] {
      var w, rest := ws[|ws| - 1], ws[..|ws| - 1];
      ResolveMarked(b, cfg, rest);
      InCrossesExactly(b, cfg, w, Resolve(b, cfg, rest), 0);
      RunMarked(b.code, cfg.starts[w], cfg.EndOf(w, |b.code|), Sim(In(b, cfg, w, Resolve(b, cfg, rest)), None));
    }
  }

  lemma StartingMarked(b: Body, cfg: Cfg, depth: nat, ins: seq<State>, w: nat)
    requires Sized(cfg) && Starting(b, cfg, depth, ins) && w < |ins|
    ensures Marked(ins[w])
  {
    hide In, Resolve;
    if ins[w] != map[] {
      var ws := Order(cfg, w, depth, 1);
      ResolveMarked(b, cfg, ws);
      InCrossesExactly(b, cfg, w, Resolve(b, cfg, ws), 0);
    }
  }

  /** A meet knows exactly what both sides know alike, and marks every other register that
      either side tracked with an origin. */
  lemma MeetKnowsExactly(dst: State, src: State, r: Reg, o: Origin)
    ensures KnownAs(Meet(dst, src), r, o) <==> KnownAs(dst, r, o) && KnownAs(src, r, o)
    ensures KnownAs(dst, r, o) != KnownAs(src, r, o) ==> r in Meet(dst, src) && Meet(dst, src)[r] == TOMBSTONE
  {
  }

  lemma {:induction false} MeetPredsKnowExactly(acc: Option<State>, preds: seq<nat>, outs: map<nat, State>, r: Reg,
        o: Origin)
    requires acc.Some? || preds != []
    ensures KnownAs(MeetPreds(acc, preds, outs), r, o) <==>
      (acc.Some? ==> KnownAs(acc.value, r, o)) && forall q :: q in preds ==> KnownAs(Leaving(outs, q), r, o)
    decreases |preds|
  {
    if preds != [] {
      var c := Leaving(outs, preds[0]);
      if acc.Some? { MeetKnowsExactly(acc.value, c, r, o); }
      MeetPredsKnowExactly(Some(if acc.Some? then Meet(acc.value, c) else c), preds[1..], outs, r, o);
      assert preds == [preds[0]] + preds[1..];
    }
  }

  /** On entry to a block exactly that is known which the method entry, where it applies,
      and every predecessor know alike; at a handler nothing is. A definition that reaches
      the block on every path of the window survives. */
  lemma InKnowsExactly(b: Body, cfg: Cfg, w: nat, outs: map<nat, State>, r: Reg, o: Origin)
    requires Sized(cfg) && w < |cfg.starts|
    ensures KnownAs(In(b, cfg, w, outs), r, o) <==>
      && !cfg.isHandler[w] && (w == 0 || cfg.preds[w] != [])
      && (w == 0 ==> b.IsParam(r) && o == b.ParamOrigin(r))
      && forall q :: q in cfg.preds[w] ==> KnownAs(Leaving(outs, q), r, o)
  {
    if !cfg.isHandler[w] && (w == 0 || cfg.preds[w] != []) {
      MeetPredsKnowExactly(if w == 0 then Some(ParamState(b)) else None, cfg.preds[w], outs, r, o);
    }
  }

  /** One level more puts blocks in front and changes nothing behind them. */
  lemma {:induction false} OrderDeeper(cfg: Cfg, w: nat, depth: nat, d: nat)
    requires Sized(cfg) && w < |cfg.starts| && d <= depth + 1
    ensures Order(cfg, w, depth + 1, d) == Pick(Frontier(cfg, w, depth + 1), |cfg.starts|) + Order(cfg, w, depth, d)
    decreases depth + 1 - d
  {
    if d == depth + 1 {
      assert Order(cfg, w, depth + 1, d + 1) == [];
      assert Order(cfg, w, depth, d) == [];
    } else {
      OrderDeeper(cfg, w, depth, d + 1);
    }
  }

  lemma InStateDeeper(b: Body, cfg: Cfg, w: nat, depth: nat)
    requires Sized(cfg) && w < |cfg.starts|
    ensures Refines(InState(b, cfg, w, depth), InState(b, cfg, w, depth + 1))
  {
    OrderDeeper(cfg, w, depth, 1);
    var more := Pick(Frontier(cfg, w, depth + 1), |cfg.starts|);
    ResolveRefines(b, cfg, more, Order(cfg, w, depth, 1));
    InRefines(b, cfg, w, Resolve(b, cfg, Order(cfg, w, depth, 1)), Resolve(b, cfg, Order(cfg, w, depth + 1, 1)));
  }

  /** The same invoke, with every known argument of `s` known alike to `t`. */
  ghost predicate SiteRefines(s: Site, t: Site) {
    && s.callee == t.callee && s.offset == t.offset && s.opcode == t.opcode && |s.args| == |t.args|
    && forall i :: 0 <= i < |s.args| ==>
      s.args[i].0 == t.args[i].0 && (s.args[i].1.origin.Some? ==> s.args[i] == t.args[i])
  }

  ghost predicate SitesRefine(s: seq<Site>, t: seq<Site>) {
    |s| == |t| && forall k :: 0 <= k < |s| ==> SiteRefines(s[k], t[k])
  }

  lemma SiteAtRefines(i: Insn, off: nat, s: State, t: State)
    requires i.effect.Invoke? && Refines(s, t)
    ensures SiteRefines(SiteAt(i, off, s), SiteAt(i, off, t))
  {
    forall r ensures Lookup(s, r).origin.Some? ==> Lookup(t, r) == Lookup(s, r) {
      assert r in s && s[r].origin.Some? ==> Knows(s, r);
    }
  }

  lemma {:induction false} BlockSitesRefine(code: Code, off: nat, end: nat, s: Sim, t: Sim)
    requires SimRefines(s, t)
    ensures SitesRefine(Sites(code, off, end, s), Sites(code, off, end, t))
    decreases |code| - off
  {
    hide Refines, SiteAt, Step, SiteRefines;
    if off < end && off < |code| && code[off].width > 0 {
      StepRefines(code[off], s, t);
      BlockSitesRefine(code, Next(code, off), end, Step(code[off], s), Step(code[off], t));
      if code[off].effect.Invoke? { SiteAtRefines(code[off], off, s.st, t.st); }
    }
  }

  /** Where the budgets of the deeper run do not run out, every origin reported at a depth
      is reported alike one level deeper. */
  lemma {:induction false} DeeperKeepsOrigins(b: Body, cfg: Cfg, depth: nat, ins: seq<State>, deeper: seq<State>,
        n: nat)
    requires Sized(cfg) && Starting(b, cfg, depth, ins) && Starting(b, cfg, depth + 1, deeper) && n <= |cfg.starts|
    requires forall w :: 0 <= w < n && cfg.hasInvoke[w] ==> deeper[w] == InState(b, cfg, w, depth + 1)
    ensures SitesRefine(AllSites(b, cfg, ins, n), AllSites(b, cfg, deeper, n))
  {
    hide SiteRefines, InState, Sites, Refines;
    if n > 0 {
      DeeperKeepsOrigins(b, cfg, depth, ins, deeper, n - 1);
      var w := n - 1;
      if cfg.hasInvoke[w] {
        InStateDeeper(b, cfg, w, depth);
        EmptyRefines(deeper[w]);
        BlockSitesRefine(b.code, cfg.starts[w], cfg.EndOf(w, |b.code|), Sim(ins[w], None), Sim(deeper[w], None));
      }
    }
  }

  datatype Bare = Bare(callee: nat, offset: nat, opcode: nat)

  /** The invokes of the linear scan from `off`, up to `end`. */
  function Scan(code: Code, off: nat, end: nat): seq<Bare>
    decreases |code| - off
  {
    if off >= end || off >= |code| || code[off].width == 0 then []
    else (if code[off].effect.Invoke? then [Bare(code[off].effect.callee, off, code[off].effect.opcode)] else [])
         + Scan(code, Next(code, off), end)
  }

  function Strip(s: seq<Site>): seq<Bare> {
    seq(|s|, k requires 0 <= k < |s| => Bare(s[k].callee, s[k].offset, s[k].opcode))
  }

  lemma StripConcat(s: seq<Site>, t: seq<Site>)
    ensures Strip(s + t) == Strip(s) + Strip(t)
  {
  }

  lemma {:induction false} StripSites(code: Code, off: nat, end: nat, sim: Sim)
    ensures Strip(Sites(code, off, end, sim)) == Scan(code, off, end)
    decreases |code| - off
  {
    if off < end && off < |code| && code[off].width > 0 {
      StripSites(code, Next(code, off), end, Step(code[off], sim));
      var first := if code[off].effect.Invoke? then [SiteAt(code[off], off, sim.st)] else [];
      StripConcat(first, Sites(code, Next(code, off), end, Step(code[off], sim)));
    }
  }

  /** A scan may stop at any offset it visits and go on from there. */
  lemma {:induction false} ScanSplit(code: Code, off: nat, mid: nat, end: nat)
    requires Visits(code, off, mid) && mid <= end
    ensures Scan(code, off, end) == Scan(code, off, mid) + Scan(code, mid, end)
    decreases |code| - off
  {
    VisitsBounds(code, off, mid);
    if off == mid {
      assert Scan(code, off, mid) == [];
    } else {
      VisitsBounds(code, Next(code, off), mid);
      ScanSplit(code, Next(code, off), mid, end);
    }
  }

  /** A block without an invoke contributes nothing to the scan. */
  lemma {:induction false} NoInvokes(code: Code, off: nat, end: nat)
    requires forall x: nat :: Visits(code, off, x) && x < end && x < |code| ==> !code[x].effect.Invoke?
    ensures Scan(code, off, end) == []
    decreases |code| - off
  {
    if off < end && off < |code| && code[off].width > 0 {
      assert Visits(code, off, off);
      forall x: nat | Visits(code, Next(code, off), x) && x < end && x < |code|
        ensures !code[x].effect.Invoke?
      {
        assert Visits(code, off, x);
      }
      NoInvokes(code, Next(code, off), end);
    }
  }

  lemma BlockScan(b: Body, cfg: Cfg, w: nat, st: State)
    requires Wf(b, cfg) && w < |cfg.starts|
    ensures Strip(if cfg.hasInvoke[w] then BlockSites(b, cfg, w, st) else []) ==
      Scan(b.code, cfg.starts[w], cfg.EndOf(w, |b.code|))
  {
    var s, e := cfg.starts[w], cfg.EndOf(w, |b.code|);
    if cfg.hasInvoke[w] {
      StripSites(b.code, s, e, Sim(st, None));
    } else {
      WfIs(b, cfg);
      assert BlockIs(b.code, b.handlers, cfg, w);
      assert s in cfg.starts;
      forall x: nat | Visits(b.code, s, x) && x < e && x < |b.code|
        ensures !b.code[x].effect.Invoke?
      {
        VisitsTrans(b.code, 0, s, x);
        VisitsBounds(b.code, s, x);
        BlockOfIs(cfg.starts, x, w);
        assert !InvokesIn(b.code, cfg.starts, w);
      }
      NoInvokes(b.code, s, e);
    }
  }

  /** Where the first `n` blocks end. */
  function Front(b: Body, cfg: Cfg, n: nat): nat {
    if n < |cfg.starts| then cfg.starts[n] else |b.code|
  }

  /** The blocks cut the scan into consecutive pieces. */
  lemma BlocksAdjoin(b: Body, cfg: Cfg, w: nat)
    requires Wf(b, cfg) && w < |cfg.starts|
    ensures Scan(b.code, 0, Front(b, cfg, w + 1)) ==
      Scan(b.code, 0, Front(b, cfg, w)) + Scan(b.code, cfg.starts[w], cfg.EndOf(w, |b.code|))
  {
    WfIs(b, cfg);
    assert cfg.starts[w] in cfg.starts;
    VisitsBounds(b.code, 0, cfg.starts[w]);
    ScanSplit(b.code, 0, cfg.starts[w], Front(b, cfg, w + 1));
  }

  lemma StripLast(b: Body, cfg: Cfg, ins: seq<State>, w: nat)
    requires Sized(cfg) && |ins| == |cfg.starts| && w < |ins|
    ensures Strip(AllSites(b, cfg, ins, w + 1)) ==
      Strip(AllSites(b, cfg, ins, w)) + Strip(if cfg.hasInvoke[w] then BlockSites(b, cfg, w, ins[w]) else [])
  {
    hide Sites;
    StripConcat(AllSites(b, cfg, ins, w), if cfg.hasInvoke[w] then BlockSites(b, cfg, w, ins[w]) else []);
  }

  lemma NothingYet(b: Body, cfg: Cfg, ins: seq<State>)
    requires Wf(b, cfg) && |ins| == |cfg.starts|
    ensures Strip(AllSites(b, cfg, ins, 0)) == [] == Scan(b.code, 0, Front(b, cfg, 0))
  {
    WfIs(b, cfg);
  }

  /** Whatever the depth and the budgets, the sites are those of the linear scan, in its
      order. */
  lemma {:induction false} SitesAreTheScan(b: Body, cfg: Cfg, ins: seq<State>, n: nat)
    requires Wf(b, cfg) && |ins| == |cfg.starts| && n <= |ins|
    ensures Strip(AllSites(b, cfg, ins, n)) == Scan(b.code, 0, Front(b, cfg, n))
  {
    hide CfgOf, Strip, AllSites, Scan, Front, BlockSites;
    if n == 0 {
      NothingYet(b, cfg, ins);
    } else {
      SitesAreTheScan(b, cfg, ins, n - 1);
      StripLast(b, cfg, ins, n - 1);
      BlockScan(b, cfg, n - 1, ins[n - 1]);
      BlocksAdjoin(b, cfg, n - 1);
    }
  }

  /** Block `w` covers offset `x`, and its own scan visits it. */
  ghost predicate Covers(b: Body, cfg: Cfg, w: nat, x: nat) {
    w < |cfg.starts| && cfg.starts[w] <= x < cfg.EndOf(w, |b.code|) && Visits(b.code, cfg.starts[w], x)
  }

  /** Every instruction lies in exactly one block. */
  lemma OneBlock(b: Body, cfg: Cfg, x: nat)
    requires Wf(b, cfg) && IsInsn(b.code, x)
    ensures cfg.starts[0] <= x
    ensures forall w: nat :: Covers(b, cfg, w, x) <==> w == BlockOf(cfg.starts, x)
  {
    hide CfgOf, Visits, IsInsn, IsLeader;
    WfIs(b, cfg);
    BlockVisits(b, cfg, x);
    forall w: nat | Covers(b, cfg, w, x)
      ensures w == BlockOf(cfg.starts, x)
    {
      BlockOfIs(cfg.starts, x, w);
    }
  }

  /** The code and its handlers determine the graph. */
  lemma CfgUnique(code: Code, handlers: set<nat>, c: Cfg, d: Cfg)
    requires CfgOf(code, handlers, c) && CfgOf(code, handlers, d)
    ensures c == d
  {
    AscendingUnique(c.starts, d.starts);
    forall b | 0 <= b < |c.starts|
      ensures c.preds[b] == d.preds[b] && c.isHandler[b] == d.isHandler[b] && c.hasInvoke[b] == d.hasInvoke[b]
    {
      assert BlockIs(code, handlers, c, b) && BlockIs(code, handlers, d, b);
      AscendingUnique(c.preds[b], d.preds[b]);
    }
  }
}
