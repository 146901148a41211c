/** The basic blocks of one code item, built from a single linear pass. Offsets are in
    16-bit code units. */
module InvokeCfg {
  import opened Sequences

  /** Where a register's value came from. */
  datatype Origin =
    | ConstString(idx: nat)
    | ConstInt(value: int)
    | ConstWide(value: int)
    | ConstClass(idx: nat)
    | ConstNull
    | FieldRead(idx: nat)
    | MethodReturn(idx: nat)
    | Parameter(position: int)
    | NewInstance(idx: nat)
    | NewArray(idx: nat)

  type Reg = nat

  /** What an instruction does to the registers. A wide write also takes the register
      after `dst`. */
  datatype Effect =
    | Move(dst: Reg, src: Reg, wide: bool)
    | Define(dst: Reg, origin: Origin, wide: bool)
    | MoveResult(dst: Reg, wide: bool)
    | Clobber(dst: Reg, wide: bool)
    | Invoke(callee: nat, opcode: nat, args: seq<Reg>)
    | NoWrite

  /** One decoded instruction; width 0 stands for one that cannot be decoded. */
  datatype Insn = Insn(width: nat, falls: bool, targets: seq<int>, effect: Effect)

  /** What decoding yields at every code unit. */
  type Code = seq<Insn>

  /** The linear scan that starts at `a` visits `x`. */
  ghost predicate Visits(code: Code, a: nat, x: nat)
    decreases |code| - a
  {
    a < |code| && code[a].width > 0 && (a == x || Visits(code, a + code[a].width, x))
  }

  ghost predicate IsInsn(code: Code, x: nat) {
    Visits(code, 0, x)
  }

  function Next(code: Code, a: nat): nat
    requires a < |code|
  {
    a + code[a].width
  }

  lemma {:induction false} VisitsBounds(code: Code, a: nat, x: nat)
    requires Visits(code, a, x)
    ensures a <= x < |code| && code[x].width > 0
    decreases |code| - a
  {
    if a != x { VisitsBounds(code, a + code[a].width, x); }
  }

  lemma {:induction false} VisitsTrans(code: Code, a: nat, x: nat, y: nat)
    requires Visits(code, a, x) && Visits(code, x, y)
    ensures Visits(code, a, y)
    decreases |code| - a
  {
    if a != x { VisitsTrans(code, a + code[a].width, x, y); }
  }

  /** Of two visited offsets the scan reaches the smaller one first. */
  lemma {:induction false} VisitsOrder(code: Code, a: nat, x: nat, y: nat)
    requires Visits(code, a, x) && Visits(code, a, y) && x < y
    ensures x < |code| && Visits(code, Next(code, x), y)
    decreases |code| - a
  {
    VisitsBounds(code, a, x);
    if a != x {
      VisitsOrder(code, a + code[a].width, x, y);
    }
  }

  /** A jump or fall-through from instruction `a` to instruction `x`. */
  ghost predicate Succ(code: Code, a: nat, x: nat) {
    IsInsn(code, a) && IsInsn(code, x) && a < |code|
    && (x in code[a].targets || (code[a].falls && x == Next(code, a)))
  }

  ghost predicate HasTarget(code: Code, a: nat)
    requires a < |code|
  {
    exists t: nat :: t in code[a].targets && IsInsn(code, t)
  }

  /** Control does not simply run on after `a`. */
  ghost predicate EndsBlock(code: Code, a: nat)
    requires a < |code|
  {
    !code[a].falls || HasTarget(code, a)
  }

  ghost predicate LeaderAfter(code: Code, a: nat, x: nat) {
    IsInsn(code, a) && a < |code| && (x in code[a].targets || (x == Next(code, a) && EndsBlock(code, a)))
  }

  /** An instruction at which a block starts. */
  ghost predicate IsLeader(code: Code, handlers: set<nat>, x: nat) {
    IsInsn(code, x) && (x == 0 || x in handlers || exists a: nat :: LeaderAfter(code, a, x))
  }

  /** The block that owns offset `x`: the last one that does not start after it. */
  function BlockOf(starts: seq<nat>, x: nat): (b: nat)
    requires |starts| > 0 && starts[0] <= x
    ensures b < |starts| && starts[b] <= x
    ensures b + 1 < |starts| ==> x < starts[b + 1]
  {
    var last := |starts| - 1;
    if starts[last] <= x then last else BlockOf(starts[..last], x)
  }

  lemma BlockOfIs(starts: seq<nat>, x: nat, b: nat)
    requires Ascending(starts) && b < |starts| && starts[b] <= x && (b + 1 < |starts| ==> x < starts[b + 1])
    ensures starts[0] <= x && BlockOf(starts, x) == b
  {
    assert b > 0 ==> starts[0] < starts[b];
    var c := BlockOf(starts, x);
    if c < b { AscendingLe(starts, c + 1, b); }
    if b < c { AscendingLe(starts, b + 1, c); }
  }

  datatype Cfg = Cfg(starts: seq<nat>, preds: seq<seq<nat>>, isHandler: seq<bool>, hasInvoke: seq<bool>) {
    /** One past the last unit of block `b`. */
    function EndOf(b: nat, size: nat): nat
      requires b < |starts|
    {
      if b + 1 < |starts| then starts[b + 1] else size
    }
  }

  ghost predicate LeadsTo(code: Code, starts: seq<nat>, q: nat, x: nat)
    requires |starts| > 0 && starts[0] == 0
  {
    exists a: nat :: Succ(code, a, x) && BlockOf(starts, a) == q
  }

  ghost predicate InvokesIn(code: Code, starts: seq<nat>, b: nat)
    requires |starts| > 0 && starts[0] == 0
  {
    exists a: nat :: IsInsn(code, a) && a < |code| && BlockOf(starts, a) == b && code[a].effect.Invoke?
  }

  /** `cfg` is the control-flow graph of the code. */
  ghost predicate CfgOf(code: Code, handlers: set<nat>, cfg: Cfg) {
    && (forall x: nat :: x in cfg.starts <==> IsLeader(code, handlers, x))
    && Ascending(cfg.starts)
    && |cfg.preds| == |cfg.isHandler| == |cfg.hasInvoke| == |cfg.starts|
    && (|cfg.starts| > 0 ==> cfg.starts[0] == 0)
    && forall b :: 0 <= b < |cfg.starts| ==> BlockIs(code, handlers, cfg, b)
  }

  ghost predicate BlockIs(code: Code, handlers: set<nat>, cfg: Cfg, b: nat)
    requires b < |cfg.starts| == |cfg.preds| == |cfg.isHandler| == |cfg.hasInvoke|
    requires cfg.starts[0] == 0
  {
    && Ascending(cfg.preds[b])
    && (forall q :: q in cfg.preds[b] <==> LeadsTo(code, cfg.starts, q, cfg.starts[b]))
    && (cfg.isHandler[b] <==> cfg.starts[b] in handlers)
    && (cfg.hasInvoke[b] <==> InvokesIn(code, cfg.starts, b))
  }

  /** The offsets of the linear scan. */
  method ScanOffsets(code: Code) returns (offs: seq<nat>)
    ensures Ascending(offs) && forall x: nat :: x in offs <==> IsInsn(code, x)
  {
    offs := [];
    var p := 0;
    while p < |code| && code[p].width > 0
      invariant Ascending(offs) && forall x :: x in offs ==> x < p
      invariant forall x: nat :: IsInsn(code, x) <==> x in offs || Visits(code, p, x)
      decreases |code| - p
    {
      AscendingMore(offs, p);
      offs := offs + [p];
      p := p + code[p].width;
    }
  }

  /** The leaders: the first instruction, branch targets, what follows a branch or an
      instruction that does not fall through, and catch handlers. */
  method CollectLeaders(code: Code, handlers: set<nat>, offs: seq<nat>) returns (leaders: set<nat>)
    requires Ascending(offs) && (forall x: nat :: x in offs <==> IsInsn(code, x)) && |offs| > 0
    ensures forall x: nat :: x in leaders <==> IsLeader(code, handlers, x)
  {
    leaders := {offs[0]};
    for i := 0 to |offs|
      invariant forall x: nat :: x in leaders <==> x == offs[0] || LedBy(code, offs[..i], x)
    {
      var a := offs[i];
      assert a in offs;
      VisitsBounds(code, 0, a);
      var targets := set t: nat | t in offs && t in code[a].targets;
      assert HasTarget(code, a) <==> targets != {} by {
        if t: nat :| t in code[a].targets && IsInsn(code, t) { assert t in targets; }
        if targets != {} { var t :| t in targets; assert IsInsn(code, t); }
      }
      ghost var before := leaders;
      leaders := leaders + targets;
      if (!code[a].falls || targets != {}) && Next(code, a) in offs {
        leaders := leaders + {Next(code, a)};
      }
      assert forall x: nat :: x in leaders <==> x in before || (IsInsn(code, x) && LeaderAfter(code, a, x));
      LedByMore(code, offs, i);
    }
    assert offs[..|offs|] == offs;
    assert offs[0] == 0 by { FirstIsZero(code, offs); }
    leaders := leaders + set h | h in offs && h in handlers;
    assert forall a: nat, x: nat :: LeaderAfter(code, a, x) ==> a in offs;
    assert forall x: nat :: LedBy(code, offs, x) <==> IsInsn(code, x) && exists a: nat :: LeaderAfter(code, a, x);
  }

  ghost predicate LedBy(code: Code, offs: seq<nat>, x: nat) {
    IsInsn(code, x) && exists a: nat :: a in offs && LeaderAfter(code, a, x)
  }

  lemma LedByMore(code: Code, offs: seq<nat>, i: nat)
    requires i < |offs|
    ensures forall x: nat :: LedBy(code, offs[..i + 1], x) <==>
      LedBy(code, offs[..i], x) || (IsInsn(code, x) && LeaderAfter(code, offs[i], x))
  {
    assert offs[..i + 1] == offs[..i] + [offs[i]];
  }

  lemma FirstIsZero(code: Code, offs: seq<nat>)
    requires Ascending(offs) && (forall x: nat :: x in offs <==> IsInsn(code, x)) && |offs| > 0
    ensures offs[0] == 0
  {
    assert offs[0] in offs;
    assert IsInsn(code, 0);
    assert 0 in offs;
    var k :| 0 <= k < |offs| && offs[k] == 0;
    AscendingLe(offs, 0, k);
  }

  method InOrder(leaders: set<nat>, offs: seq<nat>) returns (starts: seq<nat>)
    requires Ascending(offs) && forall x :: x in leaders ==> x in offs
    ensures Ascending(starts) && forall x :: x in starts <==> x in leaders
  {
    starts := [];
    for i := 0 to |offs|
      invariant Ascending(starts) && forall x :: x in starts <==> x in leaders && x in offs[..i]
    {
      assert offs[..i + 1] == offs[..i] + [offs[i]];
      if offs[i] in leaders {
        AscendingMore(starts, offs[i]);
        starts := starts + [offs[i]];
      }
    }
    assert offs[..|offs|] == offs;
  }

  /** `starts` lists the leaders. */
  ghost predicate StartsOf(code: Code, handlers: set<nat>, starts: seq<nat>) {
    && Ascending(starts) && |starts| > 0 && starts[0] == 0
    && forall x: nat :: x in starts <==> IsLeader(code, handlers, x)
  }

  lemma StartBlock(starts: seq<nat>, c: nat)
    requires Ascending(starts) && c < |starts|
    ensures starts[0] <= starts[c] && BlockOf(starts, starts[c]) == c
  {
    BlockOfIs(starts, starts[c], c);
  }

  /** A leader is the start of its own block. */
  lemma LeaderBlock(code: Code, handlers: set<nat>, starts: seq<nat>, x: nat)
    requires StartsOf(code, handlers, starts) && IsLeader(code, handlers, x)
    ensures starts[BlockOf(starts, x)] == x
  {
    assert x in starts;
    var c: nat :| c < |starts| && starts[c] == x;
    StartBlock(starts, c);
  }

  /** What follows `a` starts a block exactly when it is owned by another block than `a`. */
  lemma FallLeaves(code: Code, handlers: set<nat>, starts: seq<nat>, a: nat, c: nat)
    requires StartsOf(code, handlers, starts) && IsInsn(code, a) && a < |code| && IsInsn(code, Next(code, a))
    requires c < |starts|
    ensures Next(code, a) == starts[c] <==> BlockOf(starts, Next(code, a)) == c && c != BlockOf(starts, a)
  {
    var b, nb := BlockOf(starts, a), BlockOf(starts, Next(code, a));
    StartBlock(starts, c);
    VisitsBounds(code, 0, a);
    if nb < b {
      AscendingLe(starts, nb + 1, b);
    } else if nb > b {
      AscendingLe(starts, b + 1, nb);
      assert starts[nb] in starts;
      VisitsOrder(code, 0, a, starts[nb]);
      VisitsBounds(code, Next(code, a), starts[nb]);
    }
  }

  ghost predicate FedBy(code: Code, starts: seq<nat>, offs: seq<nat>, q: nat, x: nat)
    requires |starts| > 0 && starts[0] == 0
  {
    exists a: nat :: a in offs && Succ(code, a, x) && BlockOf(starts, a) == q
  }

  lemma FedByMore(code: Code, starts: seq<nat>, offs: seq<nat>, i: nat, q: nat, x: nat)
    requires |starts| > 0 && starts[0] == 0 && i < |offs|
    ensures FedBy(code, starts, offs[..i + 1], q, x) <==>
      FedBy(code, starts, offs[..i], q, x) || (Succ(code, offs[i], x) && BlockOf(starts, offs[i]) == q)
  {
    hide Succ, BlockOf;
    assert offs[..i + 1] == offs[..i] + [offs[i]];
  }

  /** Adds `b` to the predecessors of every block that starts at one of the targets. */
  method AddTargets(starts: seq<nat>, targets: seq<int>, offs: seq<nat>, b: nat, preds: seq<set<nat>>)
    returns (r: seq<set<nat>>)
    requires |starts| > 0 && starts[0] == 0 && |preds| == |starts|
    requires forall c :: 0 <= c < |starts| ==> starts[c] in offs
    requires forall t: nat, c :: t in targets && t in offs && 0 <= c < |starts| ==>
      (t == starts[c] <==> c == BlockOf(starts, t))
    ensures |r| == |preds|
    ensures forall c :: 0 <= c < |r| ==> r[c] == preds[c] + (if starts[c] in targets then {b} else {})
  {
    r := preds;
    for k := 0 to |targets|
      invariant |r| == |preds|
      invariant forall c :: 0 <= c < |r| ==> r[c] == preds[c] + (if starts[c] in targets[..k] then {b} else {})
    {
      var t := targets[k];
      assert targets[..k + 1] == targets[..k] + [t];
      if t >= 0 && t in offs {
        var c := BlockOf(starts, t);
        r := r[c := r[c] + {b}];
      }
    }
    assert targets[..|targets|] == targets;
  }

  /** A visited target of an instruction is the start of the block it leads to. */
  lemma TargetBlocks(code: Code, handlers: set<nat>, starts: seq<nat>, a: nat)
    requires StartsOf(code, handlers, starts) && IsInsn(code, a) && a < |code|
    ensures forall c :: 0 <= c < |starts| ==> IsInsn(code, starts[c])
    ensures forall t: nat, c :: t in code[a].targets && IsInsn(code, t) && 0 <= c < |starts| ==>
      (t == starts[c] <==> c == BlockOf(starts, t))
  {
    forall c | 0 <= c < |starts|
      ensures IsInsn(code, starts[c])
    {
      assert starts[c] in starts;
    }
    forall t: nat, c | t in code[a].targets && IsInsn(code, t) && 0 <= c < |starts|
      ensures t == starts[c] <==> c == BlockOf(starts, t)
    {
      assert LeaderAfter(code, a, t);
      LeaderBlock(code, handlers, starts, t);
      StartBlock(starts, c);
    }
  }

  /** Records block `b` as a predecessor of every block instruction `a` leads to. */
  method AddEdges(code: Code, handlers: set<nat>, starts: seq<nat>, offs: seq<nat>, a: nat, preds: seq<set<nat>>)
    returns (r: seq<set<nat>>)
    requires StartsOf(code, handlers, starts) && (forall x: nat :: x in offs <==> IsInsn(code, x))
    requires a in offs && |preds| == |starts|
    ensures |r| == |preds|
    ensures forall c :: 0 <= c < |r| ==>
      r[c] == preds[c] + (if Succ(code, a, starts[c]) then {BlockOf(starts, a)} else {})
  {
    VisitsBounds(code, 0, a);
    TargetBlocks(code, handlers, starts, a);
    var b := BlockOf(starts, a);
    r := AddTargets(starts, code[a].targets, offs, b, preds);
    if code[a].falls && Next(code, a) in offs {
      var nb := BlockOf(starts, Next(code, a));
      forall c | 0 <= c < |starts|
        ensures Next(code, a) == starts[c] <==> nb == c && c != b
      {
        FallLeaves(code, handlers, starts, a, c);
      }
      if nb != b {
        r := r[nb := r[nb] + {b}];
      }
    }
    hide StartsOf, BlockOf;
  }

  method LinkBlocks(code: Code, handlers: set<nat>, starts: seq<nat>, offs: seq<nat>) returns (preds: seq<set<nat>>)
    requires StartsOf(code, handlers, starts) && (forall x: nat :: x in offs <==> IsInsn(code, x))
    ensures |preds| == |starts|
    ensures forall c, q :: 0 <= c < |preds| ==> (q in preds[c] <==> LeadsTo(code, starts, q, starts[c]))
  {
    preds := seq(|starts|, _ => {});
    for i := 0 to |offs|
      invariant |preds| == |starts|
      invariant forall c, q :: 0 <= c < |preds| ==> (q in preds[c] <==> FedBy(code, starts, offs[..i], q, starts[c]))
    {
      ghost var before := preds;
      preds := AddEdges(code, handlers, starts, offs, offs[i], preds);
      forall c, q | 0 <= c < |preds|
        ensures q in preds[c] <==> FedBy(code, starts, offs[..i + 1], q, starts[c])
      {
        FedByMore(code, starts, offs, i, q, starts[c]);
        assert q in before[c] <==> FedBy(code, starts, offs[..i], q, starts[c]);
      }
    }
    assert offs[..|offs|] == offs;
    assert forall a: nat, x: nat :: Succ(code, a, x) ==> a in offs;
  }

  method FindInvokes(code: Code, starts: seq<nat>, offs: seq<nat>) returns (hasInvoke: seq<bool>)
    requires |starts| > 0 && starts[0] == 0 && forall x: nat :: x in offs <==> IsInsn(code, x)
    ensures |hasInvoke| == |starts|
    ensures forall b :: 0 <= b < |starts| ==> (hasInvoke[b] <==> InvokesIn(code, starts, b))
  {
    hasInvoke := seq(|starts|, _ => false);
    for i := 0 to |offs|
      invariant |hasInvoke| == |starts|
      invariant forall b :: 0 <= b < |starts| ==>
        (hasInvoke[b] <==>
         exists a: nat :: a in offs[..i] && a < |code| && BlockOf(starts, a) == b && code[a].effect.Invoke?)
    {
      var a := offs[i];
      assert a in offs;
      VisitsBounds(code, 0, a);
      assert offs[..i + 1] == offs[..i] + [a];
      if code[a].effect.Invoke? {
        hasInvoke := hasInvoke[BlockOf(starts, a) := true];
      }
    }
    assert offs[..|offs|] == offs;
  }

  /** The members of a set of block numbers, in order. */
  method Listed(s: set<nat>, n: nat) returns (r: seq<nat>)
    requires forall q :: q in s ==> q < n
    ensures Ascending(r) && forall q :: q in r <==> q in s
  {
    r := [];
    for q := 0 to n
      invariant Ascending(r) && forall x :: x in r <==> x in s && x < q
    {
      if q in s {
        AscendingMore(r, q);
        r := r + [q];
      }
    }
  }

  method BuildCfg(code: Code, handlers: set<nat>) returns (cfg: Cfg)
    ensures CfgOf(code, handlers, cfg)
  {
    var offs := ScanOffsets(code);
    if |offs| == 0 {
      NoInsns(code, handlers, offs);
      return Cfg([], [], [], []);
    }
    var leaders := CollectLeaders(code, handlers, offs);
    var starts := InOrder(leaders, offs);
    StartsAtZero(code, handlers, offs, starts);
    hide IsLeader, IsInsn;
    var predSets := LinkBlocks(code, handlers, starts, offs);
    var hasInvoke := FindInvokes(code, starts, offs);
    var preds: seq<seq<nat>> := [];
    for b := 0 to |starts|
      invariant |preds| == b
      invariant forall c :: 0 <= c < b ==> Ascending(preds[c]) && forall q :: q in preds[c] <==> q in predSets[c]
    {
      forall q | q in predSets[b]
        ensures q < |starts|
      {
        assert LeadsTo(code, starts, q, starts[b]);
      }
      var p := Listed(predSets[b], |starts|);
      preds := preds + [p];
    }
    cfg := Cfg(starts, preds, seq(|starts|, b requires 0 <= b < |starts| => starts[b] in handlers), hasInvoke);
    forall b | 0 <= b < |starts|
      ensures BlockIs(code, handlers, cfg, b)
    {
    }
  }

  lemma NoInsns(code: Code, handlers: set<nat>, offs: seq<nat>)
    requires (forall x: nat :: x in offs <==> IsInsn(code, x)) && |offs| == 0
    ensures CfgOf(code, handlers, Cfg([], [], [], []))
  {
  }

  lemma StartsAtZero(code: Code, handlers: set<nat>, offs: seq<nat>, starts: seq<nat>)
    requires Ascending(offs) && (forall x: nat :: x in offs <==> IsInsn(code, x)) && |offs| > 0
    requires Ascending(starts) && forall x: nat :: x in starts <==> IsLeader(code, handlers, x)
    ensures StartsOf(code, handlers, starts)
  {
    FirstIsZero(code, offs);
    assert 0 in offs;
    assert 0 in starts;
    var k :| 0 <= k < |starts| && starts[k] == 0;
    AscendingLe(starts, 0, k);
  }
}
