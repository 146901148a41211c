/** What fusing two conditional blocks means: a program of blocks, the tests an execution
    runs between two plain blocks, and when fusing leaves them alone. */
module Fusion {
  import opened Graphs
  import opened Conditions

  /** A conditional block with its two branch targets, or any other block with the targets
      it names (the cases of a switch). */
  datatype Block =
    | Branch(cond: Cond, onTrue: NodeId, onFalse: NodeId)
    | Other(targets: seq<NodeId>)

  function Resolve(nodeMap: map<NodeId, NodeId>, n: NodeId): NodeId {
    if n in nodeMap then nodeMap[n] else n
  }

  /** Rewrites the targets a block names. */
  function Redirect(b: Block, nodeMap: map<NodeId, NodeId>): Block {
    match b
    case Branch(c, t, f) => Branch(c, Resolve(nodeMap, t), Resolve(nodeMap, f))
    case Other(ts) => Other(seq(|ts|, i requires 0 <= i < |ts| => Resolve(nodeMap, ts[i])))
  }

  /** The graph as the pass sees it. `nodeMap` sends every removed block to the live block
      it became part of. */
  datatype Prog = Prog(
    entry: NodeId,
    nodes: set<NodeId>,
    sucs: map<NodeId, set<NodeId>>,
    blocks: map<NodeId, Block>,
    inCatch: set<NodeId>,
    nodeMap: map<NodeId, NodeId>)
  {
    ghost predicate Valid() {
      && entry in nodes && sucs.Keys == nodes && blocks.Keys == nodes
      && (forall n :: n in nodes ==> sucs[n] <= nodes)
      && (forall k :: k in nodeMap ==> k !in nodes && nodeMap[k] in nodes)
    }

    /** The branch targets and the edges agree. */
    ghost predicate Wired()
      requires Valid()
    {
      forall n :: n in nodes ==> WiredAt(n)
    }

    ghost predicate WiredAt(n: NodeId)
      requires Valid() && n in nodes
    {
      match blocks[n]
      case Branch(_, t, f) => sucs[n] == {t, f}
      case Other(ts) => forall y :: y in ts ==> y in sucs[n]
    }

    predicate IsBranch(n: NodeId) {
      n in blocks && blocks[n].Branch?
    }

    /** Runs tests from `n` until a plain block is reached or the operands run out. */
    ghost function Walk(n: NodeId, s: Operands): Arrival
      decreases |s|
    {
      if !IsBranch(n) then Reached(n, [], s)
      else
        var o := Eval(blocks[n].cond.Print(), s);
        match o
        case Starved(ts) => Waiting(ts)
        case Decided(v, ts, rest) => Walk(if v then blocks[n].onTrue else blocks[n].onFalse, rest).After(ts)
    }
  }

  /** Where a walk ends and the tests it ran, in order. */
  datatype Arrival =
    | Reached(block: NodeId, tests: seq<nat>, rest: Operands)
    | Waiting(tests: seq<nat>)
  {
    ghost function After(earlier: seq<nat>): Arrival {
      this.(tests := earlier + tests)
    }
  }

  /** The four shapes in which the pass fuses `n1` with its successor `n2`. */
  ghost predicate Fusable(b1: Block, n2: NodeId, b2: Block, isAnd: bool, isNot: bool)
    requires b1.Branch? && b2.Branch?
  {
    var near, far := if isAnd != isNot then b1.onTrue else b1.onFalse, if isAnd != isNot then b1.onFalse else b1.onTrue;
    near == n2 && far == if isAnd then b2.onFalse else b2.onTrue
  }

  /** The fused block. */
  function Fused(b1: Block, b2: Block, isAnd: bool, isNot: bool): Block
    requires b1.Branch? && b2.Branch?
  {
    var far := if isAnd != isNot then b1.onFalse else b1.onTrue;
    Branch(Join(b1.cond, b2.cond, isAnd, isNot),
           if isAnd then b2.onTrue else far,
           if isAnd then far else b2.onFalse)
  }

  function Merge(p: Prog, n1: NodeId, n2: NodeId, m: NodeId, fused: Block): Prog
    requires n1 in p.sucs && n2 in p.sucs && p.nodes == p.sucs.Keys == p.blocks.Keys
  {
    var keep := p.nodes - {n1, n2};
    var callers := set q | q in keep && q !in p.inCatch && (n1 in p.sucs[q] || n2 in p.sucs[q]);
    var nodeMap := Moved(p.nodeMap, n1, n2, m);
    Prog(if p.entry == n1 || p.entry == n2 then m else p.entry,
         keep + {m},
         map x | x in keep + {m} ::
           if x == m then p.sucs[n1] + p.sucs[n2] - {n1, n2}
           else p.sucs[x] - {n1, n2} + (if x in callers then {m} else {}),
         map x | x in keep + {m} ::
           if x == m then fused
           else if x in callers then Redirect(p.blocks[x], nodeMap) else p.blocks[x],
         if n1 in p.inCatch then p.inCatch + {m} else p.inCatch,
         nodeMap)
  }

  function Moved(nodeMap: map<NodeId, NodeId>, n1: NodeId, n2: NodeId, m: NodeId): map<NodeId, NodeId> {
    (map k | k in nodeMap :: if nodeMap[k] == n1 || nodeMap[k] == n2 then m else nodeMap[k])[n1 := m][n2 := m]
  }

  /** One fusion: `n1` and its successor `n2` become the new block `m`. */
  datatype Step = Step(n1: NodeId, n2: NodeId, m: NodeId, isAnd: bool, isNot: bool)

  /** What the pass has checked when it fuses: two live conditional blocks in one of the
      four shapes, neither leading back to `n1`, and one predecessor of `n2` outside
      catch handlers. */
  ghost predicate Chosen(p: Prog, t: Step) {
    && p.Valid() && t.n1 in p.nodes && t.n2 in p.nodes && t.n1 != t.n2 && t.m !in p.nodes && t.m !in p.nodeMap
    && t.m !in p.inCatch
    && p.IsBranch(t.n1) && p.IsBranch(t.n2)
    && Fusable(p.blocks[t.n1], t.n2, p.blocks[t.n2], t.isAnd, t.isNot)
    && t.n1 != p.blocks[t.n1].onTrue && t.n1 != p.blocks[t.n1].onFalse
    && t.n1 != p.blocks[t.n2].onTrue && t.n1 != p.blocks[t.n2].onFalse
    && |Callers(p, t.n2)| == 1
  }

  ghost function Callers(p: Prog, n: NodeId): set<NodeId>
    requires p.Valid()
  {
    set q | q in p.nodes && q !in p.inCatch && n in p.sucs[q]
  }

  ghost function NewBlock(p: Prog, t: Step): (b: Block)
    requires p.IsBranch(t.n1) && p.IsBranch(t.n2)
    ensures b.Branch?
  {
    Fused(p.blocks[t.n1], p.blocks[t.n2], t.isAnd, t.isNot)
  }

  ghost function Result(p: Prog, t: Step): Prog
    requires Chosen(p, t)
  {
    Merge(p, t.n1, t.n2, t.m, NewBlock(p, t))
  }

  /** In the unfused program, walking from `n1` is one evaluation of the fused condition. */
  lemma FusedEval(p: Prog, t: Step, s: Operands)
    requires p.IsBranch(t.n1) && p.IsBranch(t.n2)
    requires Fusable(p.blocks[t.n1], t.n2, p.blocks[t.n2], t.isAnd, t.isNot)
    ensures var fused := NewBlock(p, t);
            var o := Eval(fused.cond.Print(), s);
            p.Walk(t.n1, s) == if o.Starved? then Waiting(o.tests)
                               else p.Walk(if o.value then fused.onTrue else fused.onFalse, o.rest).After(o.tests)
  {
    var b1, b2 := p.blocks[t.n1], p.blocks[t.n2];
    if t.isNot { NegIsExact(b1.cond, s); }
    var o1 := Eval(b1.cond.Print(), s);
    if o1.Decided? && o1.value == (t.isAnd != t.isNot) {
      var o2 := Eval(b2.cond.Print(), o1.rest);
      if o2.Decided? {
        AfterAfter(p.Walk(if o2.value then b2.onTrue else b2.onFalse, o2.rest), o1.tests, o2.tests);
      }
    }
  }

  lemma AfterAfter(a: Arrival, x: seq<nat>, y: seq<nat>)
    ensures a.After(y).After(x) == a.After(x + y)
  {
    assert x + (y + a.tests) == (x + y) + a.tests;
  }

  /** The condition under which a fusion is faithful: only `n1` leads to `n2`, no catch
      handler leads to `n1`, and the program does not start at `n2`. */
  ghost predicate Clean(p: Prog, t: Step)
    requires p.Valid()
  {
    && (forall q :: q in p.nodes && t.n2 in p.sucs[q] ==> q == t.n1)
    && (forall q :: q in p.nodes && t.n1 in p.sucs[q] ==> q !in p.inCatch)
    && p.entry != t.n2
  }

  ghost predicate Calls(p: Prog, t: Step, q: NodeId)
    requires p.Valid()
  {
    q in p.nodes && q !in p.inCatch && (t.n1 in p.sucs[q] || t.n2 in p.sucs[q])
  }

  ghost predicate Survives(p: Prog, t: Step, x: NodeId) {
    x in p.nodes && x != t.n1 && x != t.n2
  }

  /** What a fusion leaves at block `x`. */
  lemma MergeAt(p: Prog, t: Step, x: NodeId)
    requires Chosen(p, t) && (x == t.m || Survives(p, t, x))
    ensures var p' := Result(p, t);
            && p'.nodes == p.nodes - {t.n1, t.n2} + {t.m} == p'.sucs.Keys == p'.blocks.Keys
            && p'.nodeMap == Moved(p.nodeMap, t.n1, t.n2, t.m)
            && p'.entry == (if p.entry == t.n1 || p.entry == t.n2 then t.m else p.entry)
            && p'.inCatch == (if t.n1 in p.inCatch then p.inCatch + {t.m} else p.inCatch)
            && p'.sucs[x] == (if x == t.m then p.sucs[t.n1] + p.sucs[t.n2] - {t.n1, t.n2}
                              else p.sucs[x] - {t.n1, t.n2} + (if Calls(p, t, x) then {t.m} else {}))
            && p'.blocks[x] == (if x == t.m then NewBlock(p, t)
                                else if Calls(p, t, x) then Redirect(p.blocks[x], p'.nodeMap) else p.blocks[x])
  {
  }

  lemma MovedKeys(p: Prog, t: Step)
    requires p.Valid() && t.n1 in p.nodes && t.n2 in p.nodes && t.m !in p.nodes && t.m !in p.nodeMap
    ensures var nodeMap := Moved(p.nodeMap, t.n1, t.n2, t.m);
            forall k :: k in nodeMap ==>
              k !in p.nodes - {t.n1, t.n2} + {t.m} && nodeMap[k] in p.nodes - {t.n1, t.n2} + {t.m}
  {
  }

  lemma ResultValid(p: Prog, t: Step)
    requires Chosen(p, t)
    ensures Result(p, t).Valid()
  {
    hide Merge, Moved, Fused, Fusable, Redirect, Result;
    MovedKeys(p, t);
    MergeAt(p, t, t.m);
    forall x | x in Result(p, t).nodes
      ensures Result(p, t).sucs[x] <= Result(p, t).nodes
    {
      MergeAt(p, t, x);
    }
  }

  /** The targets of the fused block differ from the blocks it replaces, unless `n2` leads
      to itself. */
  lemma FusedTargets(p: Prog, t: Step)
    requires Chosen(p, t) && p.Wired() && t.n2 !in p.sucs[t.n2]
    ensures var fused := NewBlock(p, t);
            && fused.onTrue in p.nodes - {t.n1, t.n2} && fused.onFalse in p.nodes - {t.n1, t.n2}
            && p.sucs[t.n1] + p.sucs[t.n2] - {t.n1, t.n2} == {fused.onTrue, fused.onFalse}
  {
    assert p.WiredAt(t.n1) && p.WiredAt(t.n2);
  }

  /** A block that does not lead to `n2` keeps its targets, with `n1` renamed. */
  lemma RedirectLive(p: Prog, t: Step, x: NodeId)
    requires p.Valid() && p.Wired() && x in p.nodes && t.n2 !in p.sucs[x]
    ensures var r := Redirect(p.blocks[x], Moved(p.nodeMap, t.n1, t.n2, t.m));
            match p.blocks[x]
            case Branch(c, a, b) => r == Branch(c, if a == t.n1 then t.m else a, if b == t.n1 then t.m else b)
            case Other(ts) => r.Other? && forall y :: y in r.targets ==>
              (y == t.m && t.n1 in ts) || (y != t.n1 && y in ts)
  {
    assert p.WiredAt(x);
    match p.blocks[x]
    case Branch(c, a, b) => assert a in p.sucs[x] && b in p.sucs[x];
    case Other(ts) =>
      var r := Redirect(p.blocks[x], Moved(p.nodeMap, t.n1, t.n2, t.m)).targets;
      forall i | 0 <= i < |r|
        ensures (r[i] == t.m && t.n1 in ts) || (r[i] != t.n1 && r[i] in ts)
      {
        assert ts[i] in ts;
        assert ts[i] in p.sucs[x];
      }
  }

  /** Under a clean fusion a surviving block only has `n1` renamed among its successors. */
  lemma CleanAt(p: Prog, t: Step, x: NodeId)
    requires Chosen(p, t) && p.Wired() && Clean(p, t) && Survives(p, t, x)
    ensures t.n2 !in p.sucs[x] && p.WiredAt(x)
    ensures x in Result(p, t).nodes && x in Result(p, t).sucs && x in Result(p, t).blocks
    ensures Result(p, t).sucs[x] == if t.n1 in p.sucs[x] then p.sucs[x] - {t.n1} + {t.m} else p.sucs[x]
    ensures Result(p, t).blocks[x] ==
      if t.n1 in p.sucs[x] then Redirect(p.blocks[x], Moved(p.nodeMap, t.n1, t.n2, t.m)) else p.blocks[x]
  {
    hide Merge, Moved, Fused, Fusable, Redirect, Result;
    MergeAt(p, t, x);
  }

  lemma CleanAtNew(p: Prog, t: Step)
    requires Chosen(p, t) && p.Wired() && Clean(p, t)
    ensures t.m in Result(p, t).nodes && t.m in Result(p, t).sucs && t.m in Result(p, t).blocks
    ensures var fused := NewBlock(p, t);
            && Result(p, t).blocks[t.m] == fused
            && Result(p, t).sucs[t.m] == {fused.onTrue, fused.onFalse}
            && Survives(p, t, fused.onTrue) && Survives(p, t, fused.onFalse)
  {
    assert t.n2 !in p.sucs[t.n2];
    MergeAt(p, t, t.m);
    FusedTargets(p, t);
    hide Merge, Moved, Fused, Fusable, Redirect, Result;
  }

  /** A surviving block is still wired. */
  lemma CleanWiredAt(p: Prog, t: Step, r: Prog, x: NodeId)
    requires Chosen(p, t) && p.Wired() && Clean(p, t)
    requires r == Result(p, t) && r.Valid() && x in r.nodes && x != t.m
    ensures r.WiredAt(x)
  {
    StaysOf(p, t, r, x);
    CleanAt(p, t, x);
    RedirectLive(p, t, x);
    hide Merge, Moved, Redirect, Result, Clean, Chosen, Prog.Wired, Prog.Valid;
  }

  lemma StaysOf(p: Prog, t: Step, r: Prog, x: NodeId)
    requires Chosen(p, t) && r == Result(p, t) && x in r.nodes && x != t.m
    ensures Survives(p, t, x)
  {
    MergeAt(p, t, t.m);
    hide Merge, Result;
  }

  lemma CleanWired(p: Prog, t: Step)
    requires Chosen(p, t) && p.Wired() && Clean(p, t)
    ensures Result(p, t).Valid() && Result(p, t).Wired()
  {
    hide Merge, Moved, Fused, Fusable, Redirect, Result, Clean, Chosen;
    ResultValid(p, t);
    CleanAtNew(p, t);
    forall x | x in Result(p, t).nodes
      ensures Result(p, t).WiredAt(x)
    {
      if x != t.m { CleanWiredAt(p, t, Result(p, t), x); }
    }
  }

  /** A clean fusion changes no walk: from every block that survives, and from `n1`
      renamed, the same tests run in the same order and the same block is reached. */
  lemma {:induction false} CleanWalk(p: Prog, t: Step, x: NodeId, s: Operands)
    requires Chosen(p, t) && p.Wired() && Clean(p, t)
    requires x in p.nodes && x != t.n2
    ensures Result(p, t).Walk(if x == t.n1 then t.m else x, s) == p.Walk(x, s)
    decreases |s|
  {
    hide Merge, Moved, Fusable, Redirect, Result, Clean, Fused;
    if x == t.n1 {
      var fused := NewBlock(p, t);
      CleanAtNew(p, t);
      FusedEval(p, t, s);
      var o := Eval(fused.cond.Print(), s);
      if o.Decided? {
        CleanWalk(p, t, if o.value then fused.onTrue else fused.onFalse, o.rest);
      }
    } else {
      CleanAt(p, t, x);
      RedirectLive(p, t, x);
      if p.IsBranch(x) {
        var o := Eval(p.blocks[x].cond.Print(), s);
        if o.Decided? {
          CleanWalk(p, t, if o.value then p.blocks[x].onTrue else p.blocks[x].onFalse, o.rest);
        }
      }
    }
  }

  function Rename(t: Step, y: NodeId): NodeId {
    if y == t.n1 || y == t.n2 then t.m else y
  }

  ghost predicate SameWalk(p: Prog, x: NodeId, p': Prog, x': NodeId) {
    forall s :: p'.Walk(x', s) == p.Walk(x, s)
  }

  /** A surviving block leads where it led before, and every walk it starts is unchanged. */
  ghost predicate FaithfulAt(p: Prog, p': Prog, t: Step, x: NodeId)
  {
    && x in p.sucs && x in p'.sucs
    && p'.sucs[x] == (set y | y in p.sucs[x] :: Rename(t, y))
    && forall y :: y in p.sucs[x] ==> SameWalk(p, y, p', Rename(t, y))
  }

  ghost predicate Faithful(p: Prog, p': Prog, t: Step)
    requires p.Valid()
  {
    && p'.Valid() && p'.Wired()
    && (forall x :: Survives(p, t, x) ==> FaithfulAt(p, p', t, x))
    && SameWalk(p, p.entry, p', p'.entry)
  }

  lemma CleanSameWalk(p: Prog, t: Step, y: NodeId)
    requires Chosen(p, t) && p.Wired() && Clean(p, t) && y in p.nodes && y != t.n2
    ensures SameWalk(p, y, Result(p, t), Rename(t, y))
  {
    hide Merge, Moved, Fused, Fusable, Redirect, Result, Clean, Chosen, Prog.Walk, Prog.Wired;
    forall s
      ensures Result(p, t).Walk(Rename(t, y), s) == p.Walk(y, s)
    {
      CleanWalk(p, t, y, s);
    }
  }

  lemma CleanSucs(p: Prog, t: Step, x: NodeId)
    requires Chosen(p, t) && Clean(p, t) && Survives(p, t, x)
    ensures p.Valid() && x in p.sucs && p.sucs[x] <= p.nodes && t.n2 !in p.sucs[x] && t.m !in p.sucs[x]
  {
  }

  lemma CleanFaithfulAt(p: Prog, t: Step, x: NodeId)
    requires Chosen(p, t) && p.Wired() && Clean(p, t) && Survives(p, t, x)
    ensures FaithfulAt(p, Result(p, t), t, x)
  {
    hide Merge, Moved, Fused, Fusable, Redirect, Result, Clean, Chosen, Prog.Walk, Prog.Wired, Prog.WiredAt, Prog.Valid,
      SameWalk;
    CleanAt(p, t, x);
    CleanSucs(p, t, x);
    forall y | y in p.sucs[x]
      ensures SameWalk(p, y, Result(p, t), Rename(t, y))
    {
      CleanSameWalk(p, t, y);
    }
  }

  lemma CleanIsFaithful(p: Prog, t: Step)
    requires Chosen(p, t) && p.Wired() && Clean(p, t)
    ensures Faithful(p, Result(p, t), t)
  {
    hide Merge, Moved, Fused, Fusable, Redirect, Result, Clean, Chosen, Prog.Walk, Prog.Wired, Prog.Valid, SameWalk,
      FaithfulAt;
    CleanWired(p, t);
    CleanEntry(p, t);
    forall x | Survives(p, t, x)
      ensures FaithfulAt(p, Result(p, t), t, x)
    {
      CleanFaithfulAt(p, t, x);
    }
  }

  lemma CleanEntry(p: Prog, t: Step)
    requires Chosen(p, t) && p.Wired() && Clean(p, t)
    ensures SameWalk(p, p.entry, Result(p, t), Result(p, t).entry)
  {
    hide SameWalk, Merge, Prog.Wired;
    MergeAt(p, t, t.m);
    CleanSameWalk(p, t, p.entry);
  }

  /** The edge of a catch-handler block to a fused block is lost. */
  lemma CatchEdgeLost(p: Prog, t: Step, q: NodeId)
    requires Chosen(p, t) && Survives(p, t, q) && q in p.inCatch && (t.n1 in p.sucs[q] || t.n2 in p.sucs[q])
    ensures q in Result(p, t).sucs && !FaithfulAt(p, Result(p, t), t, q)
  {
    hide Merge, Moved, Fused, Fusable, Redirect, Result;
    MergeAt(p, t, q);
    var y := if t.n1 in p.sucs[q] then t.n1 else t.n2;
    assert Rename(t, y) in set y | y in p.sucs[q] :: Rename(t, y);
    assert t.m !in p.sucs[q];
  }

  /** Coming in at `n2` now runs the first condition's tests as well. */
  lemma EnteringSecondDiffers(p: Prog, t: Step)
    requires Chosen(p, t) && p.blocks[t.n1].cond.FirstTest() != p.blocks[t.n2].cond.FirstTest()
    ensures !SameWalk(p, t.n2, Result(p, t), t.m)
  {
    hide Moved, Redirect, Merge;
    MergeAt(p, t, t.m);
    FirstAsked(NewBlock(p, t).cond);
    FirstAsked(p.blocks[t.n2].cond);
    assert Result(p, t).Walk(t.m, []) == Waiting([p.blocks[t.n1].cond.FirstTest()]);
    assert p.Walk(t.n2, []) == Waiting([p.blocks[t.n2].cond.FirstTest()]);
  }

  lemma SelfLoopDangles(p: Prog, t: Step)
    requires Chosen(p, t) && p.Wired() && t.n2 in p.sucs[t.n2] && Result(p, t).Valid()
    ensures !Result(p, t).Wired()
  {
    assert p.WiredAt(t.n2);
    assert t.n2 in {NewBlock(p, t).onTrue, NewBlock(p, t).onFalse};
    hide Merge, Moved, Fused, Fusable, Redirect, Result;
    MergeAt(p, t, t.m);
    assert !Result(p, t).WiredAt(t.m);
  }

  /** Exactly the clean fusions are faithful. A predecessor of `n2` other than `n1`, a
      catch-handler predecessor, or an entry at `n2` each break one. */
  lemma FaithfulIffClean(p: Prog, t: Step)
    requires Chosen(p, t) && p.Wired()
    requires p.blocks[t.n1].cond.FirstTest() != p.blocks[t.n2].cond.FirstTest()
    ensures Faithful(p, Result(p, t), t) <==> Clean(p, t)
  {
    if Clean(p, t) {
      CleanIsFaithful(p, t);
    } else {
      UncleanIsUnfaithful(p, t);
    }
  }

  lemma UncleanIsUnfaithful(p: Prog, t: Step)
    requires Chosen(p, t) && p.Wired() && !Clean(p, t)
    requires p.blocks[t.n1].cond.FirstTest() != p.blocks[t.n2].cond.FirstTest()
    ensures !Faithful(p, Result(p, t), t)
  {
    NoWayBack(p, t);
    hide Merge, Moved, Fused, Fusable, Redirect, Result, Prog.Walk, Prog.Wired, SameWalk, Faithful;
    if t.n2 in p.sucs[t.n2] {
      SelfLoopUnfaithful(p, t);
    } else if p.entry == t.n2 {
      EntryUnfaithful(p, t);
    } else if q :| q in p.nodes && t.n1 in p.sucs[q] && q in p.inCatch {
      CallerUnfaithful(p, t, q);
    } else {
      var q :| q in p.nodes && t.n2 in p.sucs[q] && q != t.n1;
      CallerUnfaithful(p, t, q);
    }
  }

  lemma NoWayBack(p: Prog, t: Step)
    requires Chosen(p, t) && p.Wired()
    ensures t.n1 !in p.sucs[t.n1] && t.n1 !in p.sucs[t.n2]
  {
    assert p.WiredAt(t.n1) && p.WiredAt(t.n2);
  }

  lemma SelfLoopUnfaithful(p: Prog, t: Step)
    requires Chosen(p, t) && p.Wired() && t.n2 in p.sucs[t.n2]
    ensures !Faithful(p, Result(p, t), t)
  {
    if Result(p, t).Valid() { SelfLoopDangles(p, t); }
  }

  lemma EntryUnfaithful(p: Prog, t: Step)
    requires Chosen(p, t) && p.entry == t.n2
    requires p.blocks[t.n1].cond.FirstTest() != p.blocks[t.n2].cond.FirstTest()
    ensures !Faithful(p, Result(p, t), t)
  {
    hide SameWalk, Merge, Prog.Walk;
    MergeAt(p, t, t.m);
    EnteringSecondDiffers(p, t);
  }

  lemma CallerUnfaithful(p: Prog, t: Step, q: NodeId)
    requires Chosen(p, t) && Survives(p, t, q)
    requires if q in p.inCatch then t.n1 in p.sucs[q] || t.n2 in p.sucs[q] else t.n2 in p.sucs[q]
    requires p.blocks[t.n1].cond.FirstTest() != p.blocks[t.n2].cond.FirstTest()
    ensures !Faithful(p, Result(p, t), t)
  {
    hide SameWalk, Merge, Prog.Walk, Moved, Fused, Fusable, Redirect, Result;
    MergeAt(p, t, q);
    if q in p.inCatch {
      CatchEdgeLost(p, t, q);
    } else {
      EnteringSecondDiffers(p, t);
    }
  }

  /** Plain block `x` of the original program is still there, its successors are the
      blocks they became, and every walk from one of them is unchanged. */
  ghost predicate SimulatesAt(p0: Prog, p: Prog, x: NodeId) {
    && x in p0.sucs && x in p.sucs && !p.IsBranch(x)
    && p.sucs[x] == (set y | y in p0.sucs[x] :: Resolve(p.nodeMap, y))
    && forall y :: y in p0.sucs[x] ==> SameWalk(p0, y, p, Resolve(p.nodeMap, y))
  }

  /** `p` runs the same tests in the same order between the same plain blocks as `p0`. */
  ghost predicate Simulates(p0: Prog, p: Prog) {
    && p0.Valid() && p.Valid() && p.Wired()
    && (forall x :: x in p0.nodes && !p0.IsBranch(x) ==> SimulatesAt(p0, p, x))
    && p.entry == Resolve(p.nodeMap, p0.entry) && SameWalk(p0, p0.entry, p, p.entry)
  }

  lemma SimulatesSelf(p: Prog)
    requires p.Valid() && p.Wired() && p.nodeMap == map[]
    ensures Simulates(p, p)
  {
    hide Prog.Walk, Prog.Wired;
    forall x | x in p.nodes && !p.IsBranch(x)
      ensures SimulatesAt(p, p, x)
    {
      assert p.sucs[x] == set y | y in p.sucs[x] :: Resolve(p.nodeMap, y);
    }
  }

  lemma ResolveMoved(p: Prog, t: Step, y: NodeId)
    requires Chosen(p, t) && Resolve(p.nodeMap, y) in p.nodes
    ensures Resolve(Result(p, t).nodeMap, y) == Rename(t, Resolve(p.nodeMap, y))
  {
    MergeAt(p, t, t.m);
  }

  lemma SimulatesStepAt(p0: Prog, p: Prog, t: Step, x: NodeId)
    requires SimulatesAt(p0, p, x) && Chosen(p, t) && p.Wired() && Clean(p, t)
    ensures SimulatesAt(p0, Result(p, t), x)
  {
    PlainSurvives(p, t, x);
    hide Merge, Moved, Fused, Fusable, Redirect, Result, Chosen, Clean, Prog.Walk, Prog.Wired, Prog.WiredAt, SameWalk;
    CleanFaithfulAt(p, t, x);
    KindKept(p, t, x);
    CleanSucs(p, t, x);
    var p' := Result(p, t);
    forall y | y in p0.sucs[x]
      ensures Resolve(p'.nodeMap, y) == Rename(t, Resolve(p.nodeMap, y)) && SameWalk(p0, y, p', Resolve(p'.nodeMap, y))
    {
      var z := Resolve(p.nodeMap, y);
      assert z in p.sucs[x];
      ResolveMoved(p, t, y);
      SameWalkTrans(p0, y, p, z, p', Rename(t, z));
    }
    ImageOfImage(p0.sucs[x], p.sucs[x], p'.sucs[x], p.nodeMap, p'.nodeMap, t);
  }

  lemma PlainSurvives(p: Prog, t: Step, x: NodeId)
    requires Chosen(p, t) && x in p.sucs && !p.IsBranch(x)
    ensures Survives(p, t, x)
  {
  }

  lemma ImageOfImage(a: set<NodeId>, b: set<NodeId>, c: set<NodeId>, f: map<NodeId, NodeId>, g: map<NodeId, NodeId>,
        t: Step)
    requires b == (set y | y in a :: Resolve(f, y)) && c == (set y | y in b :: Rename(t, y))
    requires forall y :: y in a ==> Resolve(g, y) == Rename(t, Resolve(f, y))
    ensures c == set y | y in a :: Resolve(g, y)
  {
    forall z | z in c
      ensures z in set y | y in a :: Resolve(g, y)
    {
      var y :| y in b && Rename(t, y) == z;
      var w :| w in a && Resolve(f, w) == y;
      assert Resolve(g, w) == z;
    }
    forall y | y in a
      ensures Resolve(g, y) in c
    {
      assert Resolve(f, y) in b;
    }
  }

  lemma SameWalkTrans(p0: Prog, x0: NodeId, p: Prog, x: NodeId, p': Prog, x': NodeId)
    requires SameWalk(p0, x0, p, x) && SameWalk(p, x, p', x')
    ensures SameWalk(p0, x0, p', x')
  {
    hide Prog.Walk;
    forall s
      ensures p'.Walk(x', s) == p0.Walk(x0, s)
    {
      assert p.Walk(x, s) == p0.Walk(x0, s);
    }
  }

  /** A clean fusion keeps the simulation. */
  lemma SimulatesStep(p0: Prog, p: Prog, t: Step)
    requires Simulates(p0, p) && Chosen(p, t) && Clean(p, t)
    ensures Simulates(p0, Result(p, t))
  {
    hide Merge, Moved, Fused, Fusable, Redirect, Result, Prog.Walk, Prog.Wired, SameWalk, SimulatesAt, Clean;
    CleanWired(p, t);
    CleanEntry(p, t);
    SameWalkTrans(p0, p0.entry, p, p.entry, Result(p, t), Result(p, t).entry);
    EntryMoves(p0, p, t);
    forall x | x in p0.nodes && !p0.IsBranch(x)
      ensures SimulatesAt(p0, Result(p, t), x)
    {
      SimulatesStepAt(p0, p, t, x);
    }
  }

  lemma EntryMoves(p0: Prog, p: Prog, t: Step)
    requires Chosen(p, t) && p.entry == Resolve(p.nodeMap, p0.entry)
    ensures Result(p, t).entry == Resolve(Result(p, t).nodeMap, p0.entry)
  {
    MergeAt(p, t, t.m);
  }

  /** Programs the pass cannot get wrong: catch-handler blocks do not lead to conditional
      blocks, and a conditional entry block has no predecessor. */
  ghost predicate Tame(p: Prog)
    requires p.Valid()
  {
    CatchTame(p) && EntryTame(p)
  }

  lemma OnlyMember(s: set<NodeId>, a: NodeId, b: NodeId)
    requires |s| == 1 && a in s && b in s
    ensures a == b
  {
    var rest := s - {a};
    assert |rest| == 0;
    assert b !in rest;
  }

  lemma TameIsClean(p: Prog, t: Step)
    requires Chosen(p, t) && p.Wired() && Tame(p)
    ensures Clean(p, t)
  {
    assert p.WiredAt(t.n1) && t.n2 in p.sucs[t.n1];
    hide Merge, Fused, Fusable, Prog.Wired, Prog.WiredAt;
    forall q | q in p.nodes && t.n2 in p.sucs[q]
      ensures q == t.n1
    {
      OnlyMember(Callers(p, t.n2), q, t.n1);
    }
  }

  lemma TameStep(p: Prog, t: Step)
    requires Chosen(p, t) && p.Wired() && Tame(p)
    ensures Result(p, t).Valid() && Tame(Result(p, t))
  {
    TameIsClean(p, t);
    SecondNotCatch(p, t);
    ResultValid(p, t);
    hide Merge, Moved, Fused, Fusable, Redirect, Result, Prog.Walk, Prog.Wired, Prog.WiredAt, Prog.Valid, Chosen, Clean,
      CatchTame, EntryTame, Prog.IsBranch;
    TameCatch(p, t);
    TameEntry(p, t);
  }

  ghost predicate CatchTame(p: Prog)
    requires p.Valid()
  {
    forall q, y :: q in p.nodes && q in p.inCatch && y in p.sucs[q] ==> !p.IsBranch(y)
  }

  ghost predicate EntryTame(p: Prog)
    requires p.Valid()
  {
    p.IsBranch(p.entry) ==> forall q :: q in p.nodes ==> p.entry !in p.sucs[q]
  }

  lemma TameCatch(p: Prog, t: Step)
    requires Chosen(p, t) && Tame(p) && t.n1 !in p.inCatch && Result(p, t).Valid()
    ensures CatchTame(Result(p, t))
  {
    hide Merge, Moved, Fused, Fusable, Redirect, Result, Prog.Walk;
    var p' := Result(p, t);
    MergeAt(p, t, t.m);
    forall q, y | q in p'.nodes && q in p'.inCatch && y in p'.sucs[q]
      ensures !p'.IsBranch(y)
    {
      MergeAt(p, t, q);
      KindKept(p, t, y);
    }
  }

  lemma TameEntry(p: Prog, t: Step)
    requires Chosen(p, t) && Tame(p) && Clean(p, t) && Result(p, t).Valid()
    ensures EntryTame(Result(p, t))
  {
    hide Merge, Moved, Fused, Fusable, Redirect, Result, Prog.Walk;
    var p' := Result(p, t);
    MergeAt(p, t, t.m);
    forall q | p'.IsBranch(p'.entry) && q in p'.nodes
      ensures p'.entry !in p'.sucs[q]
    {
      MergeAt(p, t, q);
      if p.entry != t.n1 { KindKept(p, t, p.entry); }
    }
  }

  lemma SecondNotCatch(p: Prog, t: Step)
    requires Chosen(p, t) && p.Wired() && Tame(p)
    ensures t.n1 !in p.inCatch
  {
    assert p.WiredAt(t.n1) && t.n2 in p.sucs[t.n1];
  }

  lemma KindKept(p: Prog, t: Step, y: NodeId)
    requires Chosen(p, t) && (y == t.m || Survives(p, t, y))
    ensures Result(p, t).IsBranch(y) == if y == t.m then true else p.IsBranch(y)
  {
    hide Moved;
    MergeAt(p, t, y);
  }

  /** A method that starts at a loop header: `while (c0) { s1; if (!c2) break; }`. */
  ghost function LoopAtEntry(): Prog {
    Prog(0, {0, 1, 2, 3},
         map[0 := {1, 3}, 1 := {2}, 2 := {0, 3}, 3 := {}],
         map[0 := Branch(Test(0, Ne), 1, 3), 1 := Other([]), 2 := Branch(Test(2, Ne), 0, 3), 3 := Other([])],
         {}, map[])
  }

  lemma LoopAtEntryShape()
    ensures LoopAtEntry().Valid() && LoopAtEntry().Wired() && Callers(LoopAtEntry(), 0) == {2}
  {
    var p := LoopAtEntry();
    assert p.Valid();
    assert p.WiredAt(0) && p.WiredAt(1) && p.WiredAt(2) && p.WiredAt(3);
  }

  /** On it the pass fuses the bottom test with the header, moves the entry to the fused
      block, and so runs the bottom test first. */
  lemma EntryLoopIsBroken()
    ensures var p, t := LoopAtEntry(), Step(2, 0, 4, true, false);
            Chosen(p, t) && p.entry == t.n2 && !SameWalk(p, p.entry, Result(p, t), Result(p, t).entry)
  {
    hide Prog.Valid, Prog.Wired, Callers, Merge, Prog.Walk, SameWalk;
    var p, t := LoopAtEntry(), Step(2, 0, 4, true, false);
    LoopAtEntryShape();
    assert Chosen(p, t);
    MergeAt(p, t, 4);
    EnteringSecondDiffers(p, t);
  }
}
