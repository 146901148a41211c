/** The register analysis as functions: the transfer of one instruction, the meet at a
    join, the window of blocks around an invoke and the state it yields. */
module OriginFlow {
  import opened Options
  import opened InvokeCfg

  /** What is known of a register: an origin, or none with a note that a merge dropped
      one. `wide` marks an origin that owns the next register too. */
  datatype Tracked = Tracked(origin: Option<Origin>, crossed: bool, wide: bool)

  type State = map<Reg, Tracked>

  datatype Sim = Sim(st: State, last: Option<nat>)

  /** A method body: its code, the addresses of its catch handlers, and the sizes of its
      register file and of the parameters at the file's high end. */
  datatype Body = Body(code: Code, handlers: set<nat>, registers: nat, ins: nat) {
    function FirstParam(): nat {
      if registers > ins then registers - ins else 0
    }

    predicate IsParam(r: Reg) {
      FirstParam() <= r < FirstParam() + ins
    }

    function ParamOrigin(r: Reg): Origin {
      Parameter(Int16(r - FirstParam()))
    }
  }

  /** Truncation to a signed 16-bit value. */
  function Int16(i: int): int {
    var w := i % 0x1_0000;
    if w < 0x8000 then w else w - 0x1_0000
  }

  /** The register after `r`, in 16 bits. */
  function After(r: Reg): Reg {
    (r + 1) % 0x1_0000
  }

  /** A wide value in the register below loses its high half. */
  function KillAlias(st: State, r: Reg): State {
    if r == 0 || r - 1 !in st || !st[r - 1].wide then st else st - {r - 1}
  }

  function SetReg(st: State, r: Reg, t: Tracked, wide: bool): State {
    var s := st[r := t.(wide := wide)];
    KillAlias(if wide then s - {After(r)} else s, r)
  }

  function EraseReg(st: State, r: Reg, wide: bool): State {
    KillAlias(if wide then st - {r, After(r)} else st - {r}, r)
  }

  function Known(o: Origin): Tracked {
    Tracked(Some(o), false, false)
  }

  function Step(i: Insn, sim: Sim): Sim {
    match i.effect
    case Move(dst, src, wide) =>
      Sim(if src in sim.st then SetReg(sim.st, dst, sim.st[src], wide) else EraseReg(sim.st, dst, wide), None)
    case Define(dst, o, wide) => Sim(SetReg(sim.st, dst, Known(o), wide), None)
    case MoveResult(dst, wide) =>
      Sim(if sim.last.Some? then SetReg(sim.st, dst, Known(MethodReturn(sim.last.value)), wide)
          else EraseReg(sim.st, dst, wide), sim.last)
    case Clobber(dst, wide) => Sim(EraseReg(sim.st, dst, wide), None)
    case Invoke(callee, _, _) => Sim(sim.st, Some(callee))
    case NoWrite => Sim(sim.st, None)
  }

  /** Simulates the instructions from `off` up to `end`. */
  function Run(code: Code, off: nat, end: nat, sim: Sim): Sim
    decreases |code| - off
  {
    if off >= end || off >= |code| || code[off].width == 0 then sim
    else Run(code, Next(code, off), end, Step(code[off], sim))
  }

  datatype Site = Site(callee: nat, offset: nat, opcode: nat, args: seq<(Reg, Tracked)>)

  function Lookup(st: State, r: Reg): Tracked {
    if r in st then st[r] else Tracked(None, false, false)
  }

  function SiteAt(i: Insn, off: nat, st: State): Site
    requires i.effect.Invoke?
  {
    Site(i.effect.callee, off, i.effect.opcode,
         seq(|i.effect.args|, k requires 0 <= k < |i.effect.args| => (i.effect.args[k], Lookup(st, i.effect.args[k]))))
  }

  /** The invoke sites met by the simulation, with the arguments read off the live state. */
  function Sites(code: Code, off: nat, end: nat, sim: Sim): seq<Site>
    decreases |code| - off
  {
    if off >= end || off >= |code| || code[off].width == 0 then []
    else (if code[off].effect.Invoke? then [SiteAt(code[off], off, sim.st)] else [])
         + Sites(code, Next(code, off), end, Step(code[off], sim))
  }

  predicate SameOrigin(a: Tracked, b: Tracked) {
    a.origin == b.origin && (a.origin.None? ==> a.crossed == b.crossed)
  }

  const TOMBSTONE := Tracked(None, true, false)

  /** What both sides agree on; everything else either side tracked is dropped. */
  function Meet(dst: State, src: State): State {
    map r | r in dst.Keys + src.Keys ::
      if r in dst && r in src && SameOrigin(dst[r], src[r]) then dst[r] else TOMBSTONE
  }

  /** The state the method entry defines: its parameters. */
  function ParamState(b: Body): State {
    map r | b.FirstParam() <= r < b.FirstParam() + b.ins :: Known(b.ParamOrigin(r))
  }

  /** Meets the states the predecessors contribute, in order; one that is not resolved
      contributes nothing. `acc` is what was met so far, if anything. */
  function MeetPreds(acc: Option<State>, preds: seq<nat>, outs: map<nat, State>): State
    decreases |preds|
  {
    if preds == [] then (if acc.Some? then acc.value else map[])
    else
      var contrib := if preds[0] in outs then outs[preds[0]] else map[];
      MeetPreds(Some(if acc.Some? then Meet(acc.value, contrib) else contrib), preds[1..], outs)
  }

  /** The state on entry to block `w`: nothing for a catch handler, otherwise the meet of
      the method entry, where it applies, and the predecessors. */
  function In(b: Body, cfg: Cfg, w: nat, outs: map<nat, State>): State
    requires w < |cfg.starts| == |cfg.preds| == |cfg.isHandler|
  {
    if cfg.isHandler[w] then map[]
    else MeetPreds(if w == 0 then Some(ParamState(b)) else None, cfg.preds[w], outs)
  }

  function Out(b: Body, cfg: Cfg, w: nat, st: State): State
    requires w < |cfg.starts|
  {
    Run(b.code, cfg.starts[w], cfg.EndOf(w, |b.code|), Sim(st, None)).st
  }

  predicate Sized(cfg: Cfg) {
    && |cfg.starts| == |cfg.preds| == |cfg.isHandler| == |cfg.hasInvoke|
    && forall w, q :: 0 <= w < |cfg.preds| && q in cfg.preds[w] ==> q < |cfg.starts|
  }

  ghost predicate Blocks(cfg: Cfg, ws: seq<nat>) {
    forall k :: 0 <= k < |ws| ==> ws[k] < |cfg.starts|
  }

  /** The states leaving the blocks of `ws`, resolved one after the other. */
  function Resolve(b: Body, cfg: Cfg, ws: seq<nat>): map<nat, State>
    requires Sized(cfg) && Blocks(cfg, ws)
    decreases |ws|
  {
    if ws == [] then map[]
    else
      var outs := Resolve(b, cfg, ws[..|ws| - 1]);
      var w := ws[|ws| - 1];
      outs[w := Out(b, cfg, w, In(b, cfg, w, outs))]
  }

  /** The blocks whose shortest backward distance from `w` is `d`; the walk stops at
      catch handlers. */
  function Frontier(cfg: Cfg, w: nat, d: nat): (r: set<nat>)
    requires Sized(cfg) && w < |cfg.starts|
    ensures forall x :: x in r ==> x < |cfg.starts|
    decreases d, 0
  {
    if d == 0 then {w}
    else (set f, q | f in Frontier(cfg, w, d - 1) && !cfg.isHandler[f] && q in cfg.preds[f] :: q) - Seen(cfg, w, d - 1)
  }

  function Seen(cfg: Cfg, w: nat, d: nat): (r: set<nat>)
    requires Sized(cfg) && w < |cfg.starts|
    decreases d, 1
  {
    if d == 0 then Frontier(cfg, w, 0) else Seen(cfg, w, d - 1) + Frontier(cfg, w, d)
  }

  /** The members of `s` below `n`, in ascending order. */
  function Pick(s: set<nat>, n: nat): (r: seq<nat>)
    ensures forall x :: x in r <==> x in s && x < n
    ensures forall k :: 0 <= k < |r| ==> r[k] < n
  {
    if n == 0 then [] else if n - 1 in s then Pick(s, n - 1) + [n - 1] else Pick(s, n - 1)
  }

  /** The blocks at backward distances `d` to `depth` of `w`, the farthest first and those
      at the same distance by number. */
  function Order(cfg: Cfg, w: nat, depth: nat, d: nat): (r: seq<nat>)
    requires Sized(cfg) && w < |cfg.starts|
    ensures Blocks(cfg, r)
    decreases depth - d
  {
    if d > depth then [] else Order(cfg, w, depth, d + 1) + Pick(Frontier(cfg, w, d), |cfg.starts|)
  }

  /** The state the analysis gives block `w` at a depth. */
  function InState(b: Body, cfg: Cfg, w: nat, depth: nat): State
    requires Sized(cfg) && w < |cfg.starts|
  {
    In(b, cfg, w, Resolve(b, cfg, Order(cfg, w, depth, 1)))
  }

  function BlockSites(b: Body, cfg: Cfg, w: nat, st: State): seq<Site>
    requires w < |cfg.starts|
  {
    Sites(b.code, cfg.starts[w], cfg.EndOf(w, |b.code|), Sim(st, None))
  }

  /** The sites of the first `n` blocks, each simulated from its state in `ins`; a block
      without an invoke is skipped. */
  function AllSites(b: Body, cfg: Cfg, ins: seq<State>, n: nat): seq<Site>
    requires Sized(cfg) && n <= |cfg.starts| == |ins|
  {
    if n == 0 then []
    else AllSites(b, cfg, ins, n - 1) + (if cfg.hasInvoke[n - 1] then BlockSites(b, cfg, n - 1, ins[n - 1]) else [])
  }

  /** `ins` holds what the analysis may start its blocks from at a depth: the state of the
      window, or nothing where a budget ran out. */
  ghost predicate Starting(b: Body, cfg: Cfg, depth: nat, ins: seq<State>)
    requires Sized(cfg)
  {
    |ins| == |cfg.starts| && forall w :: 0 <= w < |ins| ==> ins[w] == map[] || ins[w] == InState(b, cfg, w, depth)
  }
}
