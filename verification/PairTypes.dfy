/** Code whose registers have widths, as a bytecode verifier assigns them: there keeping the
    widths changes nothing but what is reported of the parameters that are pairs. */
module PairTypes {
  import opened Options
  import opened InvokeCfg
  import opened OriginFlow
  import opened OriginSoundness
  import opened OriginLaws
  import opened OriginPairs
  import opened PairFlow
  import opened PairExact

  /** The width of every origin, and before each instruction the width of every register, if
      it has one there, and of the method result that waits to be fetched. Where it is idle no
      method result waits. */
  datatype Typing = Typing(
    width: Origin -> bool,
    regs: (nat, Reg) -> Option<bool>,
    result: nat -> Option<bool>,
    idle: nat -> bool)

  /** The instruction leaves register `r` with this width, or with none. */
  function WidthAfter(i: Insn, y: Typing, x: nat, r: Reg): Option<bool> {
    if i.effect.Invoke? || i.effect.NoWrite? then y.regs(x, r)
    else if i.effect.wide && r == After(i.effect.dst) then None
    else if r == i.effect.dst then Some(i.effect.wide)
    else if r + 1 == i.effect.dst && y.regs(x, r) == Some(true) then None
    else y.regs(x, r)
  }

  function ResultAfter(i: Insn, y: Typing, x: nat): Option<bool> {
    if i.effect.Invoke? then Some(y.width(MethodReturn(i.effect.callee)))
    else if i.effect.MoveResult? then y.result(x)
    else None
  }

  /** After the instruction no method result waits. */
  predicate IdleAfter(i: Insn, y: Typing, x: nat) {
    !i.effect.Invoke? && (i.effect.MoveResult? ==> y.idle(x))
  }

  /** Every origin is defined, and every value moved and fetched, with its own width; what is
      fetched may be no method's result. */
  predicate FitsHere(i: Insn, y: Typing, x: nat) {
    match i.effect
    case Move(_, src, wide) => y.regs(x, src) == Some(wide)
    case Define(_, o, wide) => y.width(o) == wide
    case MoveResult(_, wide) => y.idle(x) || y.result(x) == Some(wide)
    case Clobber(_, _) => true
    case Invoke(_, _, _) => true
    case NoWrite => true
  }

  /** Widths at `z` are those that instruction `x` leaves, or unknown. */
  ghost predicate Flows(code: Code, y: Typing, x: nat, z: nat)
    requires x < |code|
  {
    && (forall r :: y.regs(z, r).Some? ==> y.regs(z, r) == WidthAfter(code[x], y, x, r))
    && (y.result(z).Some? ==> y.result(z) == ResultAfter(code[x], y, x))
    && (y.idle(z) ==> IdleAfter(code[x], y, x))
  }

  /** The code has these widths, checked instruction by instruction and edge by edge. Nothing
      is asked of a catch handler's entry, nor of the first instruction of what control never
      reaches. */
  ghost predicate HasWidths(b: Body, pairs: set<Reg>, y: Typing) {
    && (forall r :: b.IsParam(r) ==> y.width(b.ParamOrigin(r)) == (r in pairs))
    && (forall r :: b.IsParam(r) && y.regs(0, r).Some? ==> y.regs(0, r).value == (r in pairs))
    && (forall x: nat :: IsInsn(b.code, x) && x < |b.code| ==> FitsHere(b.code[x], y, x))
    && (forall x: nat, z: nat :: Succ(b.code, x, z) ==> Flows(b.code, y, x, z))
  }

  /** The origin of a parameter that is a pair. */
  ghost predicate PairParam(b: Body, pairs: set<Reg>, o: Origin) {
    exists r :: r in pairs && b.IsParam(r) && o == b.ParamOrigin(r)
  }

  /** The second state knows the origin where the first does, both with its width. */
  ghost predicate Alike(y: Typing, x: nat, st: State, wide: State, r: Reg, o: Origin) {
    && (KnownAs(st, r, o) ==> KnownAs(wide, r, o) && st[r].wide == wide[r].wide == y.width(o))
    && (KnownAs(st, r, o) && y.regs(x, r).Some? ==> y.regs(x, r).value == y.width(o))
  }

  /** All but the origins of the pairs among the parameters. */
  ghost predicate Agree(b: Body, pairs: set<Reg>, y: Typing, x: nat, st: State, wide: State) {
    forall r, o :: !PairParam(b, pairs, o) ==> Alike(y, x, st, wide, r, o)
  }

  ghost predicate SimsAgree(b: Body, pairs: set<Reg>, y: Typing, x: nat, s: Sim, t: Sim) {
    && Agree(b, pairs, y, x, s.st, t.st) && s.last == t.last
    && (s.last.Some? && y.result(x).Some? ==> y.result(x).value == y.width(MethodReturn(s.last.value)))
    && (y.idle(x) ==> s.last.None?)
  }

  /** Agreement goes along every edge. */
  lemma AgreeOnward(b: Body, pairs: set<Reg>, y: Typing, x: nat, z: nat, s: Sim, t: Sim)
    requires HasWidths(b, pairs, y) && Succ(b.code, x, z) && SimsAgree(b, pairs, y, x, s, t)
    ensures SimsAgree(b, pairs, y, z, Step(b.code[x], s), Step(b.code[x], t))
  {
    var i := b.code[x];
    WidthsHere(b, pairs, y, x, z);
    hide IsInsn, Step, HasWidths, FitsHere, Flows, PairParam, Alike;
    var s', t' := Step(i, s).st, Step(i, t).st;
    forall r, o | !PairParam(b, pairs, o)
      ensures Alike(y, z, s', t', r, o)
    {
      AlikeOnward(b, pairs, y, x, z, s, t, r, o);
    }
    LastsOnward(b, pairs, y, x, z, s, t);
  }

  lemma WidthsHere(b: Body, pairs: set<Reg>, y: Typing, x: nat, z: nat)
    requires HasWidths(b, pairs, y) && Succ(b.code, x, z)
    ensures x < |b.code| && FitsHere(b.code[x], y, x) && Flows(b.code, y, x, z)
  {
  }

  lemma AlikeOnward(b: Body, pairs: set<Reg>, y: Typing, x: nat, z: nat, s: Sim, t: Sim, r: Reg, o: Origin)
    requires x < |b.code| && FitsHere(b.code[x], y, x) && Flows(b.code, y, x, z)
    requires SimsAgree(b, pairs, y, x, s, t) && !PairParam(b, pairs, o)
    ensures Alike(y, z, Step(b.code[x], s).st, Step(b.code[x], t).st, r, o)
  {
    hide Step, PairParam;
    var i := b.code[x];
    StepKnowsExactly(i, s, r, o);
    StepKnowsExactly(i, t, r, o);
    assert Alike(y, x, s.st, t.st, r, o);
    if i.effect.Move? { assert Alike(y, x, s.st, t.st, i.effect.src, o); }
    if KnownAs(Step(i, s).st, r, o) {
      StepKeepsWidth(i, s, r, o);
      StepKeepsWidth(i, t, r, o);
    }
  }

  lemma LastsOnward(b: Body, pairs: set<Reg>, y: Typing, x: nat, z: nat, s: Sim, t: Sim)
    requires x < |b.code| && Flows(b.code, y, x, z) && SimsAgree(b, pairs, y, x, s, t)
    ensures var s', t' := Step(b.code[x], s), Step(b.code[x], t);
      && s'.last == t'.last
      && (s'.last.Some? && y.result(z).Some? ==> y.result(z).value == y.width(MethodReturn(s'.last.value)))
      && (y.idle(z) ==> s'.last.None?)
  {
  }

  /** From one instruction of a block to a later one. */
  lemma {:induction false} AgreeInside(b: Body, pairs: set<Reg>, y: Typing, cfg: Cfg, w: nat, a: nat, x: nat, s: Sim,
        t: Sim)
    requires HasWidths(b, pairs, y)
    requires Wf(b, cfg) && w < |cfg.starts| && cfg.starts[w] <= a && x < cfg.EndOf(w, |b.code|)
    requires IsInsn(b.code, a) && Visits(b.code, a, x) && SimsAgree(b, pairs, y, a, s, t)
    ensures SimsAgree(b, pairs, y, x, Run(b.code, a, x, s), Run(b.code, a, x, t))
    decreases |b.code| - a
  {
    hide SimsAgree, CfgOf, Step, HasWidths;
    VisitsBounds(b.code, a, x);
    if a != x {
      var n := Next(b.code, a);
      VisitsBounds(b.code, n, x);
      assert Visits(b.code, a, n) by { assert Visits(b.code, n, n); }
      VisitsTrans(b.code, 0, a, n);
      NoStartInside(b, cfg, w, n);
      InsideBlock(b, cfg, a);
      AgreeOnward(b, pairs, y, a, n, s, t);
      AgreeInside(b, pairs, y, cfg, w, n, x, Step(b.code[a], s), Step(b.code[a], t));
    }
  }

  /** At any instruction, from the states its block is started with. */
  lemma AgreeAt(b: Body, pairs: set<Reg>, y: Typing, cfg: Cfg, x: nat, st: State, wide: State)
    requires HasWidths(b, pairs, y) && Wf(b, cfg) && IsInsn(b.code, x) && cfg.starts[0] <= x
    requires Agree(b, pairs, y, cfg.starts[BlockOf(cfg.starts, x)], st, wide)
    ensures var a := cfg.starts[BlockOf(cfg.starts, x)];
      SimsAgree(b, pairs, y, x, Run(b.code, a, x, Sim(st, None)), Run(b.code, a, x, Sim(wide, None)))
  {
    hide HasWidths, Agree, IsInsn, Visits, CfgOf;
    BlockVisits(b, cfg, x);
    var w := BlockOf(cfg.starts, x);
    StartIsInsn(b, cfg, w);
    AgreeInside(b, pairs, y, cfg, w, cfg.starts[w], x, Sim(st, None), Sim(wide, None));
  }

  /** The states that leave block `q` agree wherever it leads to. */
  ghost predicate OutAgree(b: Body, pairs: set<Reg>, y: Typing, cfg: Cfg, q: nat, st: State, wide: State)
    requires Wf(b, cfg)
  {
    forall c :: 0 <= c < |cfg.starts| && q in cfg.preds[c] ==> Agree(b, pairs, y, cfg.starts[c], st, wide)
  }

  lemma OutsAgree(b: Body, pairs: set<Reg>, y: Typing, cfg: Cfg, q: nat, st: State, wide: State)
    requires HasWidths(b, pairs, y) && Wf(b, cfg) && q < |cfg.starts| && Agree(b, pairs, y, cfg.starts[q], st, wide)
    ensures OutAgree(b, pairs, y, cfg, q, Out(b, cfg, q, st), Out(b, cfg, q, wide))
  {
    hide HasWidths, Agree, IsInsn, CfgOf, Run, Step, Out;
    forall c | 0 <= c < |cfg.starts| && q in cfg.preds[c]
      ensures Agree(b, pairs, y, cfg.starts[c], Out(b, cfg, q, st), Out(b, cfg, q, wide))
    {
      var a := EdgeFrom(b, cfg, q, c);
      BlockLast(b, cfg, a, c, st);
      BlockLast(b, cfg, a, c, wide);
      AgreeAt(b, pairs, y, cfg, a, st, wide);
      var s := cfg.starts[q];
      AgreeOnward(b, pairs, y, a, cfg.starts[c], Run(b.code, s, a, Sim(st, None)), Run(b.code, s, a, Sim(wide, None)));
    }
  }

  /** What leaves each block; where control never comes, one state is set against itself. */
  ghost predicate AllOutsAgree(b: Body, pairs: set<Reg>, y: Typing, cfg: Cfg, outs: map<nat, State>,
      wides: map<nat, State>)
    requires Wf(b, cfg)
  {
    && outs.Keys == wides.Keys
    && forall q :: q in outs ==>
         OutAgree(b, pairs, y, cfg, q, outs[q], if LiveBlock(b, cfg, q) then wides[q] else outs[q])
  }

  lemma LeavingAlike(b: Body, pairs: set<Reg>, y: Typing, cfg: Cfg, w: nat, q: nat, outs: map<nat, State>,
      wides: map<nat, State>, r: Reg, o: Origin)
    requires Wf(b, cfg) && w < |cfg.starts| && q in cfg.preds[w] && AllOutsAgree(b, pairs, y, cfg, outs, wides)
    requires !PairParam(b, pairs, o)
    ensures Alike(y, cfg.starts[w], Leaving(outs, q), Leaving(outs, q), r, o)
    ensures LiveBlock(b, cfg, q) ==> Alike(y, cfg.starts[w], Leaving(outs, q), Leaving(wides, q), r, o)
  {
    hide CfgOf, PairParam, Reached;
    if q in outs {
      assert OutAgree(b, pairs, y, cfg, q, outs[q], if LiveBlock(b, cfg, q) then wides[q] else outs[q]);
    }
  }

  /** A parameter that is no pair. */
  lemma ParamWidth(b: Body, pairs: set<Reg>, y: Typing, r: Reg)
    requires HasWidths(b, pairs, y) && b.IsParam(r) && !PairParam(b, pairs, b.ParamOrigin(r))
    ensures r !in pairs && y.width(b.ParamOrigin(r)) == false && (y.regs(0, r).Some? ==> y.regs(0, r).value == false)
    ensures KnownAs(ParamState(b), r, b.ParamOrigin(r)) && ParamState(b)[r].wide == false
  {
  }

  /** What is known on entry to a block has its width, whichever side is the first. */
  lemma InsFit(b: Body, pairs: set<Reg>, y: Typing, cfg: Cfg, w: nat, outs: map<nat, State>, wides: map<nat, State>,
      r: Reg, o: Origin)
    requires HasWidths(b, pairs, y) && Wf(b, cfg) && w < |cfg.starts| && AllOutsAgree(b, pairs, y, cfg, outs, wides)
    requires !PairParam(b, pairs, o)
    ensures Alike(y, cfg.starts[w], In(b, cfg, w, outs), In(b, cfg, w, outs), r, o)
  {
    hide CfgOf, HasWidths, MeetPreds, AllOutsAgree, PairParam, Leaving, ParamState;
    WfIs(b, cfg);
    InKnowsExactly(b, cfg, w, outs, r, o);
    if KnownAs(In(b, cfg, w, outs), r, o) {
      MeetPredsWidth(if w == 0 then Some(ParamState(b)) else None, cfg.preds[w], outs, r, o);
      if w == 0 {
        ParamWidth(b, pairs, y, r);
      } else {
        LeavingAlike(b, pairs, y, cfg, w, cfg.preds[w][0], outs, wides, r, o);
      }
    }
  }

  lemma InsAlike(b: Body, pairs: set<Reg>, y: Typing, cfg: Cfg, w: nat, outs: map<nat, State>, wides: map<nat, State>,
      r: Reg, o: Origin)
    requires HasWidths(b, pairs, y) && Wf(b, cfg) && LiveBlock(b, cfg, w) && AllOutsAgree(b, pairs, y, cfg, outs, wides)
    requires !PairParam(b, pairs, o)
    ensures Alike(y, cfg.starts[w], In(b, cfg, w, outs), InWide(b, pairs, cfg, w, wides), r, o)
  {
    hide CfgOf, HasWidths, MeetPreds, MeetPredsWide, InWide, AllOutsAgree, PairParam, Leaving, ParamState, Reached,
      Live;
    WfIs(b, cfg);
    InsFit(b, pairs, y, cfg, w, outs, wides, r, o);
    InKnowsExactly(b, cfg, w, outs, r, o);
    InWideExact(b, pairs, cfg, w, wides, r, o);
    LiveHasPred(b, cfg, w);
    forall q | q in Live(b, cfg, cfg.preds[w])
      ensures Alike(y, cfg.starts[w], Leaving(outs, q), Leaving(wides, q), r, o)
    {
      LeavingAlike(b, pairs, y, cfg, w, q, outs, wides, r, o);
    }
    if KnownAs(In(b, cfg, w, outs), r, o) {
      assert forall q :: q in Live(b, cfg, cfg.preds[w]) ==> KnownAs(Leaving(outs, q), r, o);
      if w == 0 {
        ParamWidth(b, pairs, y, r);
      } else {
        var q := Live(b, cfg, cfg.preds[w])[0];
        assert q in Live(b, cfg, cfg.preds[w]);
        assert KnownPair(Leaving(wides, q), r, o) <==> y.width(o);
      }
    }
  }

  lemma InsAgree(b: Body, pairs: set<Reg>, y: Typing, cfg: Cfg, w: nat, outs: map<nat, State>, wides: map<nat, State>)
    requires HasWidths(b, pairs, y) && Wf(b, cfg) && w < |cfg.starts| && AllOutsAgree(b, pairs, y, cfg, outs, wides)
    ensures Agree(b, pairs, y, cfg.starts[w], In(b, cfg, w, outs), In(b, cfg, w, outs))
    ensures LiveBlock(b, cfg, w) ==>
      Agree(b, pairs, y, cfg.starts[w], In(b, cfg, w, outs), InWide(b, pairs, cfg, w, wides))
  {
    hide HasWidths, CfgOf, In, InWide, Alike, AllOutsAgree, PairParam, LiveBlock;
    forall r, o | !PairParam(b, pairs, o)
      ensures Alike(y, cfg.starts[w], In(b, cfg, w, outs), In(b, cfg, w, outs), r, o)
      ensures LiveBlock(b, cfg, w) ==>
        Alike(y, cfg.starts[w], In(b, cfg, w, outs), InWide(b, pairs, cfg, w, wides), r, o)
    {
      InsFit(b, pairs, y, cfg, w, outs, wides, r, o);
      if LiveBlock(b, cfg, w) { InsAlike(b, pairs, y, cfg, w, outs, wides, r, o); }
    }
  }

  lemma {:induction false} ResolveAgree(b: Body, pairs: set<Reg>, y: Typing, cfg: Cfg, ws: seq<nat>)
    requires HasWidths(b, pairs, y) && Wf(b, cfg) && Blocks(cfg, ws)
    ensures AllOutsAgree(b, pairs, y, cfg, Resolve(b, cfg, ws), ResolveWide(b, pairs, cfg, ws))
    decreases |ws|
  {
    hide HasWidths, In, InWide, Out, OutAgree, CfgOf, Agree, LiveBlock;
    if ws != [] {
      var w := ws[|ws| - 1];
      var rest := ws[..|ws| - 1];
      ResolveAgree(b, pairs, y, cfg, rest);
      var outs, wides := Resolve(b, cfg, rest), ResolveWide(b, pairs, cfg, rest);
      var st := In(b, cfg, w, outs);
      var wide := InWide(b, pairs, cfg, w, wides);
      InsAgree(b, pairs, y, cfg, w, outs, wides);
      OutsAgree(b, pairs, y, cfg, w, st, if LiveBlock(b, cfg, w) then wide else st);
    }
  }

  lemma NothingAgrees(b: Body, pairs: set<Reg>, y: Typing, x: nat)
    ensures Agree(b, pairs, y, x, map[], map[])
  {
  }

  lemma StartingAgree(b: Body, pairs: set<Reg>, y: Typing, cfg: Cfg, depth: nat, ins: seq<State>, w: nat)
    requires HasWidths(b, pairs, y) && Wf(b, cfg) && Starting(b, cfg, depth, ins) && w < |ins| && LiveBlock(b, cfg, w)
    ensures Agree(b, pairs, y, cfg.starts[w], ins[w], WideStates(b, pairs, cfg, depth, ins)[w])
  {
    hide HasWidths, Resolve, ResolveWide, In, InWide, Agree, CfgOf, Order;
    if ins[w] == map[] {
      NothingAgrees(b, pairs, y, cfg.starts[w]);
    } else {
      var ws := Order(cfg, w, depth, 1);
      ResolveAgree(b, pairs, y, cfg, ws);
      InsAgree(b, pairs, y, cfg, w, Resolve(b, cfg, ws), ResolveWide(b, pairs, cfg, ws));
    }
  }

  lemma NeverBroken(b: Body, pairs: set<Reg>, sites: seq<Site>, k: nat, i: nat)
    requires k < |sites| && i < |sites[k].args| && sites[k].args[i].1.origin.Some? && !Reached(b, sites[k].offset)
    ensures Unbroken(b, pairs, sites, k, i)
  {
    NothingEnds(b, pairs, sites[k].offset);
  }

  /** Where the code has widths, every reported origin but that of a parameter that is a pair
      is unbroken on every path. */
  lemma TypedIsUnbroken(b: Body, pairs: set<Reg>, y: Typing, cfg: Cfg, depth: nat, ins: seq<State>, k: nat, i: nat)
    requires HasWidths(b, pairs, y) && Wf(b, cfg) && Starting(b, cfg, depth, ins)
    requires k < |AllSites(b, cfg, ins, |cfg.starts|)|
    requires var s := AllSites(b, cfg, ins, |cfg.starts|)[k];
      i < |s.args| && s.args[i].1.origin.Some? && !PairParam(b, pairs, s.args[i].1.origin.value)
    ensures Unbroken(b, pairs, AllSites(b, cfg, ins, |cfg.starts|), k, i)
  {
    hide HasWidths, CfgOf, AllSites, IsInsn, InState, Run, Unbroken, PairParam;
    var wides := WideStates(b, pairs, cfg, depth, ins);
    SiteReadsBlock(b, cfg, ins, k);
    WideSitesAlign(b, pairs, cfg, depth, ins, k);
    SiteReadsBlock(b, cfg, wides, k);
    var s := AllSites(b, cfg, ins, |cfg.starts|)[k];
    var x := s.offset;
    BlockReached(b, cfg, x);
    if !Reached(b, x) {
      NeverBroken(b, pairs, AllSites(b, cfg, ins, |cfg.starts|), k, i);
      return;
    }
    StartingAgree(b, pairs, y, cfg, depth, ins, BlockOf(cfg.starts, x));
    AgreeAt(b, pairs, y, cfg, x, ins[BlockOf(cfg.starts, x)], wides[BlockOf(cfg.starts, x)]);
    assert Alike(y, x, BlockStateAt(b, cfg, ins, x), BlockStateAt(b, cfg, wides, x), s.args[i].0,
      s.args[i].1.origin.value);
    UnbrokenIffWide(b, pairs, cfg, depth, ins, k, i);
  }

  /** The sites report an origin there. */
  ghost predicate Reports(sites: seq<Site>, k: nat, i: nat) {
    k < |sites| && i < |sites[k].args| && sites[k].args[i].1.origin.Some?
  }

  /** Every reported origin is unbroken on every path. */
  ghost predicate PairsKept(b: Body, pairs: set<Reg>, sites: seq<Site>) {
    forall k: nat, i: nat :: Reports(sites, k, i) ==> Unbroken(b, pairs, sites, k, i)
  }

  /** Two reports of the same invokes give the same origins where the first gives any. */
  ghost predicate SameReports(s: seq<Site>, t: seq<Site>) {
    && |s| == |t|
    && forall k: nat, i: nat :: Reports(s, k, i) ==>
         Reports(t, k, i) && t[k].args[i].1.origin == s[k].args[i].1.origin
  }

  /** For code with widths and no pair among the parameters all is well. */
  lemma TypedPairsKept(b: Body, y: Typing, cfg: Cfg, depth: nat, ins: seq<State>)
    requires HasWidths(b, {}, y) && Wf(b, cfg) && Starting(b, cfg, depth, ins) && |ins| == |cfg.starts|
    ensures PairsKept(b, {}, AllSites(b, cfg, ins, |cfg.starts|))
  {
    hide HasWidths, CfgOf, AllSites, Starting, Unbroken;
    var sites := AllSites(b, cfg, ins, |cfg.starts|);
    forall k: nat, i: nat | Reports(sites, k, i)
      ensures Unbroken(b, {}, sites, k, i)
    {
      TypedIsUnbroken(b, {}, y, cfg, depth, ins, k, i);
    }
  }

  /** And in any code exactly when the same origins are reported with every width kept and
      without what is never reached. */
  lemma PairsKeptIffWide(b: Body, pairs: set<Reg>, cfg: Cfg, depth: nat, ins: seq<State>)
    requires Wf(b, cfg) && Starting(b, cfg, depth, ins) && |ins| == |cfg.starts|
    ensures var s, t := AllSites(b, cfg, ins, |cfg.starts|), WideSites(b, pairs, cfg, depth, ins);
      SameReports(s, t) <==> PairsKept(b, pairs, s)
  {
    hide CfgOf, AllSites, Starting, Unbroken, WideSites;
    var s, t := AllSites(b, cfg, ins, |cfg.starts|), WideSites(b, pairs, cfg, depth, ins);
    SameLength(b, pairs, cfg, depth, ins);
    forall k: nat, i: nat | Reports(s, k, i)
      ensures i < |t[k].args|
      ensures t[k].args[i].1.origin == s[k].args[i].1.origin <==> Unbroken(b, pairs, s, k, i)
    {
      UnbrokenIffWide(b, pairs, cfg, depth, ins, k, i);
    }
  }

  lemma SameLength(b: Body, pairs: set<Reg>, cfg: Cfg, depth: nat, ins: seq<State>)
    requires Wf(b, cfg) && |ins| == |cfg.starts|
    ensures |WideSites(b, pairs, cfg, depth, ins)| == |AllSites(b, cfg, ins, |cfg.starts|)|
  {
    hide Scan, AllSites;
    SitesAreTheScan(b, cfg, ins, |cfg.starts|);
    SitesAreTheScan(b, cfg, WideStates(b, pairs, cfg, depth, ins), |cfg.starts|);
    assert |Strip(AllSites(b, cfg, ins, |cfg.starts|))| == |AllSites(b, cfg, ins, |cfg.starts|)|;
  }
}
