/** Paths of the machine that knows 64-bit pairs, and the register analysis with every width
    kept: the parameters that are pairs marked, a meet as wide as its widest side, and only
    those sides that control comes from. */
module PairFlow {
  import opened Options
  import opened InvokeCfg
  import opened OriginFlow
  import opened OriginSoundness
  import opened OriginLaws
  import opened OriginPairs

  /** The value keeps origin `o`. */
  predicate Keeps(h: Half, o: Origin) {
    h.Holds? && h.origin == o
  }

  /** The registers without their widths. */
  function Flat(m: PairMachine): Machine {
    Machine((r: Reg) => if m.file(r).Holds? then Last(m.file(r).origin) else Other, m.last)
  }

  ghost predicate ArePairs(b: Body, pairs: set<Reg>, m: PairMachine) {
    forall r :: b.IsParam(r) ==> m.file(r) == Holds(b.ParamOrigin(r), r in pairs)
  }

  /** A path: at the method entry the parameters are in place, `pairs` as the lower halves of
      pairs, and at a catch handler the registers are arbitrary. */
  ghost predicate PairPath(b: Body, pairs: set<Reg>, p: seq<nat>, m: PairMachine) {
    Path(b, p, Flat(m)) && (p[0] in b.handlers || ArePairs(b, pairs, m))
  }

  /** The machine that started as `m`, just before the last instruction of the path. */
  ghost function PairAt(b: Body, pairs: set<Reg>, p: seq<nat>, m: PairMachine): PairMachine
    requires PairPath(b, pairs, p, m)
  {
    if |p| == 1 then m
    else
      PathPrefix(b, p, Flat(m));
      Perform(b.code[p[|p| - 2]], PairAt(b, pairs, p[..|p| - 1], m))
  }

  ghost predicate PairEnds(b: Body, pairs: set<Reg>, p: seq<nat>, m: PairMachine, x: nat) {
    PairPath(b, pairs, p, m) && p[|p| - 1] == x
  }

  /** One instruction further. */
  lemma PathSnoc(b: Body, p: seq<nat>, m: Machine, x: nat, y: nat)
    requires EndsAt(b, p, m, x) && Succ(b.code, x, y)
    ensures EndsAt(b, p + [y], m, y)
  {
    var q := p + [y];
    forall i | 0 < i < |q|
      ensures Succ(b.code, q[i - 1], q[i])
    {
      if i < |p| {
        assert q[i] == p[i] && q[i - 1] == p[i - 1];
      }
    }
  }

  lemma Onward(b: Body, pairs: set<Reg>, p: seq<nat>, m: PairMachine, x: nat, y: nat)
    requires PairEnds(b, pairs, p, m, x) && Succ(b.code, x, y)
    ensures PairEnds(b, pairs, p + [y], m, y)
    ensures PairAt(b, pairs, p + [y], m) == Perform(b.code[x], PairAt(b, pairs, p, m))
  {
    PathSnoc(b, p, Flat(m), x, y);
    assert (p + [y])[..|p|] == p;
  }

  /** Taking the last instruction back. */
  lemma Backward(b: Body, pairs: set<Reg>, p: seq<nat>, m: PairMachine, y: nat)
    requires PairEnds(b, pairs, p, m, y) && |p| > 1
    ensures var x := p[|p| - 2];
      && Succ(b.code, x, y) && PairEnds(b, pairs, p[..|p| - 1], m, x)
      && PairAt(b, pairs, p, m) == Perform(b.code[x], PairAt(b, pairs, p[..|p| - 1], m))
  {
    PathPrefix(b, p, Flat(m));
  }

  /** Control reaches `x` along some path. */
  ghost predicate Reached(b: Body, x: nat) {
    exists p, m :: EndsAt(b, p, m, x)
  }

  lemma ReachedOn(b: Body, x: nat, y: nat)
    requires Reached(b, x) && Succ(b.code, x, y)
    ensures Reached(b, y)
  {
    var p, m :| EndsAt(b, p, m, x);
    PathSnoc(b, p, m, x, y);
  }

  /** The block `q` is one that control reaches. */
  ghost predicate LiveBlock(b: Body, cfg: Cfg, q: nat) {
    q < |cfg.starts| && Reached(b, cfg.starts[q])
  }

  /** Those of the blocks that control reaches. */
  ghost function Live(b: Body, cfg: Cfg, qs: seq<nat>): (r: seq<nat>)
    ensures forall q :: q in r <==> q in qs && LiveBlock(b, cfg, q)
  {
    if qs == [] then []
    else (if LiveBlock(b, cfg, qs[0]) then [qs[0]] else []) + Live(b, cfg, qs[1..])
  }

  /** The parameters with the pairs among them marked. */
  function ParamPairs(b: Body, pairs: set<Reg>): State {
    map r | b.FirstParam() <= r < b.FirstParam() + b.ins :: Known(b.ParamOrigin(r)).(wide := r in pairs)
  }

  /** What both sides agree on, as wide as either has it. */
  function MeetWide(dst: State, src: State): State {
    map r | r in dst.Keys + src.Keys ::
      if r in dst && r in src && SameOrigin(dst[r], src[r]) then dst[r].(wide := dst[r].wide || src[r].wide)
      else TOMBSTONE
  }

  function MeetPredsWide(acc: Option<State>, preds: seq<nat>, outs: map<nat, State>): State
    decreases |preds|
  {
    if preds == [] then (if acc.Some? then acc.value else map[])
    else
      var contrib := Leaving(outs, preds[0]);
      MeetPredsWide(Some(if acc.Some? then MeetWide(acc.value, contrib) else contrib), preds[1..], outs)
  }

  /** The state on entry to block `w`: only blocks that control reaches are met. */
  ghost function InWide(b: Body, pairs: set<Reg>, cfg: Cfg, w: nat, outs: map<nat, State>): State
    requires w < |cfg.starts| == |cfg.preds| == |cfg.isHandler|
  {
    if cfg.isHandler[w] then map[]
    else MeetPredsWide(if w == 0 then Some(ParamPairs(b, pairs)) else None, Live(b, cfg, cfg.preds[w]), outs)
  }

  ghost function ResolveWide(b: Body, pairs: set<Reg>, cfg: Cfg, ws: seq<nat>): map<nat, State>
    requires Sized(cfg) && Blocks(cfg, ws)
    decreases |ws|
  {
    if ws == [] then map[]
    else
      var outs := ResolveWide(b, pairs, cfg, ws[..|ws| - 1]);
      var w := ws[|ws| - 1];
      outs[w := Out(b, cfg, w, InWide(b, pairs, cfg, w, outs))]
  }

  ghost function InStateWide(b: Body, pairs: set<Reg>, cfg: Cfg, w: nat, depth: nat): State
    requires Sized(cfg) && w < |cfg.starts|
  {
    InWide(b, pairs, cfg, w, ResolveWide(b, pairs, cfg, Order(cfg, w, depth, 1)))
  }

  /** The same windows with the widths kept; a block that was started from nothing, or is never
      reached, is started as it was. */
  ghost function WideStates(b: Body, pairs: set<Reg>, cfg: Cfg, depth: nat, ins: seq<State>): (r: seq<State>)
    requires Sized(cfg) && |ins| == |cfg.starts|
    ensures |r| == |ins|
  {
    seq(|ins|, w requires 0 <= w < |ins| =>
      if ins[w] == map[] || !LiveBlock(b, cfg, w) then ins[w] else InStateWide(b, pairs, cfg, w, depth))
  }

  /** The sites the analysis reports when it keeps every width. */
  ghost function WideSites(b: Body, pairs: set<Reg>, cfg: Cfg, depth: nat, ins: seq<State>): seq<Site>
    requires Sized(cfg) && |ins| == |cfg.starts|
  {
    AllSites(b, cfg, WideStates(b, pairs, cfg, depth, ins), |cfg.starts|)
  }

  /** A machine at the method entry. */
  function AtEntry(b: Body, pairs: set<Reg>): PairMachine {
    PairMachine((r: Reg) => if b.IsParam(r) then Holds(b.ParamOrigin(r), r in pairs) else Junk, None)
  }

  lemma AtEntryIs(b: Body, pairs: set<Reg>)
    ensures ArePairs(b, pairs, AtEntry(b, pairs))
    ensures forall r :: b.IsParam(r) ==> Flat(AtEntry(b, pairs)).file(r) == Last(b.ParamOrigin(r))
  {
  }

  /** What the analysis assumes of the parameters is true of the pairs too if and only if no
      parameter is a pair. */
  lemma EntryKeepsPairs(b: Body, pairs: set<Reg>)
    requires forall r :: r in pairs ==> b.IsParam(r)
    ensures (forall m :: ArePairs(b, pairs, m) ==> PairSound(ParamState(b), m)) <==> pairs == {}
  {
    var m0 := AtEntry(b, pairs);
    AtEntryIs(b, pairs);
    if r :| r in pairs {
      assert KnownAs(ParamState(b), r, b.ParamOrigin(r));
      assert !PairSound(ParamState(b), m0);
    }
  }

  lemma MeetWideExact(dst: State, src: State, r: Reg, o: Origin)
    ensures KnownAs(MeetWide(dst, src), r, o) <==> KnownAs(dst, r, o) && KnownAs(src, r, o)
    ensures KnownAs(MeetWide(dst, src), r, o) ==> (MeetWide(dst, src)[r].wide <==> dst[r].wide || src[r].wide)
  {
  }

  /** `r` is known as the lower half of a pair. */
  ghost predicate KnownPair(st: State, r: Reg, o: Origin) {
    KnownAs(st, r, o) && st[r].wide
  }

  /** Known is what all sides know, and as a pair what all know and some knows as a pair. */
  lemma {:induction false} MeetPredsWideExact(acc: Option<State>, preds: seq<nat>, outs: map<nat, State>,
      r: Reg, o: Origin)
    requires acc.Some? || preds != []
    ensures var met := MeetPredsWide(acc, preds, outs);
      && (KnownAs(met, r, o) <==>
            (acc.Some? ==> KnownAs(acc.value, r, o)) && forall q :: q in preds ==> KnownAs(Leaving(outs, q), r, o))
      && (KnownPair(met, r, o) <==>
            && KnownAs(met, r, o)
            && ((acc.Some? && KnownPair(acc.value, r, o))
                || exists q :: q in preds && KnownPair(Leaving(outs, q), r, o)))
    decreases |preds|
  {
    if preds != [] {
      var c := Leaving(outs, preds[0]);
      if acc.Some? { MeetWideExact(acc.value, c, r, o); }
      MeetPredsWideExact(Some(if acc.Some? then MeetWide(acc.value, c) else c), preds[1..], outs, r, o);
      assert preds == [preds[0]] + preds[1..];
    }
  }

  /** On entry to a block exactly that is known which the method entry, where it applies, and
      every predecessor that is reached know alike, and as a pair if one of them knows it so. */
  lemma InWideExact(b: Body, pairs: set<Reg>, cfg: Cfg, w: nat, outs: map<nat, State>, r: Reg, o: Origin)
    requires Sized(cfg) && w < |cfg.starts|
    ensures var st := InWide(b, pairs, cfg, w, outs);
      && (KnownAs(st, r, o) <==>
            && !cfg.isHandler[w] && (w == 0 || Live(b, cfg, cfg.preds[w]) != [])
            && (w == 0 ==> b.IsParam(r) && o == b.ParamOrigin(r))
            && forall q :: q in Live(b, cfg, cfg.preds[w]) ==> KnownAs(Leaving(outs, q), r, o))
      && (KnownPair(st, r, o) <==>
            && KnownAs(st, r, o)
            && ((w == 0 && r in pairs)
                || exists q :: q in Live(b, cfg, cfg.preds[w]) && KnownPair(Leaving(outs, q), r, o)))
  {
    hide Live;
    var preds := Live(b, cfg, cfg.preds[w]);
    if !cfg.isHandler[w] && (w == 0 || preds != []) {
      MeetPredsWideExact(if w == 0 then Some(ParamPairs(b, pairs)) else None, preds, outs, r, o);
    }
  }

  /** A meet of several keeps the width of the first. */
  lemma {:induction false} MeetPredsWidth(acc: Option<State>, preds: seq<nat>, outs: map<nat, State>, r: Reg, o: Origin)
    requires (acc.Some? || preds != []) && KnownAs(MeetPreds(acc, preds, outs), r, o)
    ensures var first := if acc.Some? then acc.value else Leaving(outs, preds[0]);
      KnownAs(first, r, o) && MeetPreds(acc, preds, outs)[r] == first[r]
    decreases |preds|
  {
    if preds != [] {
      var c := Leaving(outs, preds[0]);
      var met := if acc.Some? then Meet(acc.value, c) else c;
      MeetPredsWidth(Some(met), preds[1..], outs, r, o);
    }
  }

  /** The first of the states that meet: the one already there or the first predecessor's. */
  function FirstSide(acc: Option<State>, preds: seq<nat>, outs: map<nat, State>): State {
    if acc.Some? then acc.value else if preds == [] then map[] else Leaving(outs, preds[0])
  }

  /** Whatever holds coming in from any of the predecessors holds after the meet. */
  ghost predicate Carries(preds: seq<nat>, outs: map<nat, State>, met: State) {
    forall q, m :: q in preds && PairSound(Leaving(outs, q), m) ==> PairSound(met, m)
  }

  /** No register known alike to all sides is a pair to a predecessor and not to the first. */
  ghost predicate FirstIsWidest(first: State, preds: seq<nat>, outs: map<nat, State>, met: State) {
    forall r, o, q :: q in preds && KnownAs(met, r, o) && KnownPair(Leaving(outs, q), r, o) ==> KnownPair(first, r, o)
  }

  /** Coming in from the first side soundness survives a meet of several; from the others if
      and only if the first is the widest. */
  lemma MeetPredsKeepPairs(acc: Option<State>, preds: seq<nat>, outs: map<nat, State>)
    requires acc.Some? || preds != []
    ensures var first, met := FirstSide(acc, preds, outs), MeetPreds(acc, preds, outs);
      && (forall m :: PairSound(first, m) ==> PairSound(met, m))
      && (Carries(preds, outs, met) <==> FirstIsWidest(first, preds, outs, met))
  {
    hide Leaving, MeetPreds;
    var first, met := FirstSide(acc, preds, outs), MeetPreds(acc, preds, outs);
    forall r, o | KnownAs(met, r, o)
      ensures KnownAs(first, r, o) && met[r] == first[r]
      ensures forall q :: q in preds ==> KnownAs(Leaving(outs, q), r, o)
    {
      MeetPredsWidth(acc, preds, outs, r, o);
      MeetPredsKnowExactly(acc, preds, outs, r, o);
    }
    if Carries(preds, outs, met) {
      forall r, o, q | q in preds && KnownAs(met, r, o) && KnownPair(Leaving(outs, q), r, o)
        ensures KnownPair(first, r, o)
      {
        DescribedIsSound(Leaving(outs, q));
        assert PairSound(met, Described(Leaving(outs, q)));
      }
    }
  }

  lemma DescribedIsSound(st: State)
    ensures PairSound(st, Described(st))
  {
  }

  /** What a block is started from holds of the pairs that come in from every predecessor if
      and only if the first way in is the widest. The method entry, first at block 0, knows of
      no pair. */
  lemma InKeepsPairs(b: Body, cfg: Cfg, w: nat, outs: map<nat, State>)
    requires Sized(cfg) && w < |cfg.starts|
    ensures var st, preds := In(b, cfg, w, outs), cfg.preds[w];
      var first := FirstSide(if w == 0 then Some(ParamState(b)) else None, preds, outs);
      && (Carries(preds, outs, st) <==> FirstIsWidest(first, preds, outs, st))
      && (w == 0 ==> forall r, o :: !KnownPair(first, r, o))
  {
    hide Carries, FirstIsWidest;
    var preds := cfg.preds[w];
    var acc := if w == 0 then Some(ParamState(b)) else None;
    if !cfg.isHandler[w] && (w == 0 || preds != []) {
      MeetPredsKeepPairs(acc, preds, outs);
    } else {
      NothingCarries(FirstSide(acc, preds, outs), preds, outs);
    }
  }

  lemma NothingCarries(first: State, preds: seq<nat>, outs: map<nat, State>)
    ensures Carries(preds, outs, map[]) && FirstIsWidest(first, preds, outs, map[])
  {
  }
}
