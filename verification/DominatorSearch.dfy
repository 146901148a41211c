/** The depth-first search in front of the dominators: numbers, parents and the predecessors it
    comes over, and that they make a depth-first tree of all that is reachable. */
module DominatorSearch {
  import opened Options
  import opened Graphs
  import opened Dominators

  /** The set kept for `k`, empty if there is none. */
  function At(m: map<NodeId, set<NodeId>>, k: NodeId): set<NodeId> {
    if k in m then m[k] else {}
  }

  function Insert(m: map<NodeId, set<NodeId>>, k: NodeId, v: NodeId): (r: map<NodeId, set<NodeId>>)
    ensures forall x :: At(r, x) == if x == k then At(m, x) + {v} else At(m, x)
  {
    m[k := At(m, k) + {v}]
  }

  /** The nodes numbered so far; zero stands for one not entered. */
  function Numbers(semi: map<NodeId, nat>): map<NodeId, nat> {
    map v | v in semi && semi[v] > 0 :: semi[v]
  }

  lemma NumbersMore(semi: map<NodeId, nat>, w: NodeId, n: nat)
    requires n > 0
    ensures Numbers(semi[w := n]) == Numbers(semi)[w := n]
  {
  }

  /** A node entered last leaves the ancestors of all others as they are. */
  lemma {:induction false} AncMore(t: Tree, z: NodeId, n: nat, p: NodeId, a: NodeId, w: NodeId)
    requires z !in t.num && (forall x :: x in t.num ==> t.num[x] < n) && w in t.num
    ensures Tree(t.num[z := n], t.parent[z := p]).Anc(a, w) <==> t.Anc(a, w)
    decreases t.num[w]
  {
    var t' := Tree(t.num[z := n], t.parent[z := p]);
    assert t'.HasParent(w) <==> t.HasParent(w);
    if t.HasParent(w) { AncMore(t, z, n, p, a, t.parent[w]); }
  }

  /** Its own ancestors are those of its parent. */
  lemma AncNew(t: Tree, z: NodeId, n: nat, p: NodeId, a: NodeId)
    requires z !in t.num && (forall x :: x in t.num ==> t.num[x] < n) && p in t.num
    ensures Tree(t.num[z := n], t.parent[z := p]).Anc(a, z) <==> a == z || t.Anc(a, p)
  {
    var t' := Tree(t.num[z := n], t.parent[z := p]);
    AncMore(t, z, n, p, a, p);
    assert t'.HasParent(z);
  }

  /** The shape of the tree: distinct numbers from the entry's on, parents over edges, and no
      gap among the numbers below a node. */
  ghost predicate Shape(f: Flow, t: Tree, n: nat) {
    && f.Valid() && f.entry in t.num && t.num.Keys <= f.nodes && t.num[f.entry] == 1
    && (forall x, y :: x in t.num && y in t.num && t.num[x] == t.num[y] ==> x == y)
    && (forall w :: w in t.num ==> 1 <= t.num[w] <= n)
    && Parents(f, t) && Gapless(t)
  }

  ghost predicate Parents(f: Flow, t: Tree)
    requires f.Valid() && t.num.Keys <= f.nodes
  {
    forall w :: w in t.num && w != f.entry ==> t.HasParent(w) && t.parent[w] in f.preds[w]
  }

  ghost predicate Gapless(t: Tree) {
    forall a, x, w :: t.Anc(a, w) && Between(t, a, x, w) ==> t.Anc(a, x)
  }

  /** The stack is a line down the tree, and everything entered since a node was is below it. */
  ghost predicate Line(t: Tree, ns: seq<NodeId>) {
    forall k :: 0 <= k < |ns| ==> LineAt(t, ns[..k], ns[k])
  }

  ghost predicate LineAt(t: Tree, above: seq<NodeId>, x: NodeId) {
    && x in t.num
    && (forall a :: a in above ==> t.Anc(a, x))
    && (forall a :: t.Anc(a, x) ==> a == x || a in above)
    && forall y :: y in t.num && t.num[x] <= t.num[y] ==> t.Anc(x, y)
  }

  /** The edges met lead to earlier nodes or down. */
  ghost predicate Met(f: Flow, t: Tree, pred: map<NodeId, set<NodeId>>)
    requires f.Valid()
  {
    forall v, w :: v in At(pred, w) ==> MetAt(f, t, v, w)
  }

  ghost predicate MetAt(f: Flow, t: Tree, v: NodeId, w: NodeId)
    requires f.Valid()
  {
    && v in t.num && w in t.num && w in f.nodes && v in f.preds[w]
    && (t.num[v] < t.num[w] ==> t.Anc(v, w))
  }

  /** Of an open node the edges before `i` were met, of a finished one all. */
  ghost predicate AllMet(f: Flow, pred: map<NodeId, set<NodeId>>, stack: seq<Frame>, out: seq<NodeId>)
    requires f.Valid()
  {
    && (forall k, j :: 0 <= k < |stack| && 0 <= j < stack[k].i <= |stack[k].sucs| ==>
          stack[k].node in At(pred, stack[k].sucs[j]))
    && forall v, w :: v in out && w in f.nodes && v in f.preds[w] ==> v in At(pred, w)
  }

  /** What the search keeps. */
  ghost predicate Searching(f: Flow, t: Tree, n: nat, pred: map<NodeId, set<NodeId>>, stack: seq<Frame>,
      out: seq<NodeId>)
  {
    && Traversal(f, t.num.Keys, stack, out) && Shape(f, t, n) && Line(t, Nodes(stack))
    && Met(f, t, pred) && AllMet(f, pred, stack, out)
  }

  lemma SearchStarts(f: Flow, fr: Frame)
    requires f.Valid() && fr.node == f.entry && fr.i == 0 && ListsSucs(f, fr.node, fr.sucs)
    requires forall b :: b in fr.sucs ==> b in f.nodes
    ensures Searching(f, Tree(map[f.entry := 1], map[]), 1, map[], [fr], [])
  {
    TraversalStarts(f, fr);
    var t := Tree(map[f.entry := 1], map[]);
    assert t.num.Keys == {f.entry};
    assert forall a, w :: t.Anc(a, w) <==> a == w == f.entry;
    hide Tree.Anc, Traversal;
    assert Nodes([fr]) == [f.entry];
    assert [f.entry][..0] == [];
  }

  /** What the search keeps of the node it stands at. */
  lemma TopIs(f: Flow, t: Tree, n: nat, pred: map<NodeId, set<NodeId>>, stack: seq<Frame>, out: seq<NodeId>)
    requires Searching(f, t, n, pred, stack, out) && |stack| > 0
    ensures f.Valid() && Traversal(f, t.num.Keys, stack, out) && Shape(f, t, n) && Line(t, Nodes(stack))
    ensures Met(f, t, pred) && AllMet(f, pred, stack, out)
    ensures var top := stack[|stack| - 1];
      && top.node in t.num && top.i <= |top.sucs| && (forall w :: w in f.nodes ==> w in f.preds)
      && (forall w :: w in top.sucs ==> w in f.nodes && top.node in f.preds[w])
      && (forall w :: w in f.nodes && top.node in f.preds[w] ==> w in top.sucs)
    ensures |Nodes(stack)| == |stack| && Nodes(stack)[|stack| - 1] == stack[|stack| - 1].node
  {
    var top := stack[|stack| - 1];
    assert Open(f, t.num.Keys, top);
    hide Shape, Line, Met, AllMet;
  }

  lemma LineTop(t: Tree, ns: seq<NodeId>)
    requires Line(t, ns) && |ns| > 0
    ensures var x := ns[|ns| - 1];
      && x in t.num && (forall a :: t.Anc(a, x) ==> a in ns)
      && forall y :: y in t.num && t.num[x] <= t.num[y] ==> t.Anc(x, y)
  {
    hide Tree.Anc;
    assert LineAt(t, ns[..|ns| - 1], ns[|ns| - 1]);
  }

  lemma SearchIs(f: Flow, t: Tree, n: nat, pred: map<NodeId, set<NodeId>>, stack: seq<Frame>, out: seq<NodeId>)
    requires f.Valid() && Traversal(f, t.num.Keys, stack, out) && Shape(f, t, n) && Line(t, Nodes(stack))
    requires Met(f, t, pred) && AllMet(f, pred, stack, out)
    ensures Searching(f, t, n, pred, stack, out)
  {
  }

  lemma NodesUpdate(stack: seq<Frame>, top: Frame)
    requires |stack| > 0 && top.node == stack[|stack| - 1].node
    ensures Nodes(stack[|stack| - 1 := top]) == Nodes(stack)
  {
  }

  /** An edge to a node entered before. */
  lemma MeetsOld(f: Flow, t: Tree, n: nat, pred: map<NodeId, set<NodeId>>, stack: seq<Frame>, out: seq<NodeId>)
    requires Searching(f, t, n, pred, stack, out) && |stack| > 0
    requires var top := stack[|stack| - 1]; top.i < |top.sucs| && top.sucs[top.i] in t.num
    ensures var top := stack[|stack| - 1];
      Searching(f, t, n, Insert(pred, top.sucs[top.i], top.node), stack[|stack| - 1 := top.(i := top.i + 1)], out)
  {
    hide *;
    var last := |stack| - 1;
    var top := stack[last];
    var w := top.sucs[top.i];
    assert w in top.sucs;
    TopIs(f, t, n, pred, stack, out);
    Skip(f, t.num.Keys, stack, out);
    NodesUpdate(stack, top.(i := top.i + 1));
    LineTop(t, Nodes(stack));
    MeetsEdge(f, t, pred, top.node, w);
    MetMore(f, pred, stack, out, w);
    SearchIs(f, t, n, Insert(pred, w, top.node), stack[last := top.(i := top.i + 1)], out);
  }

  lemma MeetsEdge(f: Flow, t: Tree, pred: map<NodeId, set<NodeId>>, v: NodeId, w: NodeId)
    requires f.Valid() && Met(f, t, pred) && v in t.num && w in t.num && w in f.nodes && v in f.preds[w]
    requires t.num[v] < t.num[w] ==> t.Anc(v, w)
    ensures Met(f, t, Insert(pred, w, v))
  {
  }

  lemma MetMore(f: Flow, pred: map<NodeId, set<NodeId>>, stack: seq<Frame>, out: seq<NodeId>, w: NodeId)
    requires f.Valid() && AllMet(f, pred, stack, out) && |stack| > 0
    requires var top := stack[|stack| - 1]; top.i < |top.sucs| && top.sucs[top.i] == w
    ensures var top := stack[|stack| - 1];
      AllMet(f, Insert(pred, w, top.node), stack[|stack| - 1 := top.(i := top.i + 1)], out)
  {
  }

  /** An edge to a new node, which is entered. */
  lemma Enters(f: Flow, t: Tree, n: nat, pred: map<NodeId, set<NodeId>>, stack: seq<Frame>, out: seq<NodeId>,
      sucs: seq<NodeId>)
    requires Searching(f, t, n, pred, stack, out) && |stack| > 0
    requires var top := stack[|stack| - 1]; top.i < |top.sucs| && top.sucs[top.i] !in t.num
    requires var top := stack[|stack| - 1]; ListsSucs(f, top.sucs[top.i], sucs)
    requires forall b :: b in sucs ==> b in f.nodes
    ensures var top := stack[|stack| - 1];
      var w := top.sucs[top.i];
      Searching(f, Tree(t.num[w := n + 1], t.parent[w := top.node]), n + 1, Insert(pred, w, top.node),
                stack[|stack| - 1 := top.(i := top.i + 1)] + [Frame(w, sucs, 0)], out)
  {
    hide *;
    var last := |stack| - 1;
    var top := stack[last];
    var w := top.sucs[top.i];
    assert w in top.sucs;
    var t' := Tree(t.num[w := n + 1], t.parent[w := top.node]);
    var stack' := stack[last := top.(i := top.i + 1)] + [Frame(w, sucs, 0)];
    TopIs(f, t, n, pred, stack, out);
    Push(f, t.num.Keys, stack, out, w, sucs);
    assert t'.num.Keys == t.num.Keys + {w};
    PushNodes(stack, top.(i := top.i + 1), Frame(w, sucs, 0));
    ShapeBelow(f, t, n);
    ShapeMore(f, t, n, Nodes(stack), w);
    LineMore(t, n, Nodes(stack), w);
    MetStays(f, t, n, pred, w, top.node);
    AncSelf(t, top.node);
    AncNew(t, w, n + 1, top.node, top.node);
    MeetsEdge(f, t', pred, top.node, w);
    MetMore(f, pred, stack, out, w);
    MetPushed(f, Insert(pred, w, top.node), stack[last := top.(i := top.i + 1)], out, Frame(w, sucs, 0));
    SearchIs(f, t', n + 1, Insert(pred, w, top.node), stack', out);
  }

  lemma PushNodes(stack: seq<Frame>, top: Frame, fr: Frame)
    requires |stack| > 0 && top.node == stack[|stack| - 1].node
    ensures Nodes(stack[|stack| - 1 := top] + [fr]) == Nodes(stack) + [fr.node]
  {
  }

  lemma ShapeBelow(f: Flow, t: Tree, n: nat)
    requires Shape(f, t, n)
    ensures forall x :: x in t.num ==> t.num[x] < n + 1
  {
  }

  lemma MetPushed(f: Flow, pred: map<NodeId, set<NodeId>>, stack: seq<Frame>, out: seq<NodeId>, fr: Frame)
    requires f.Valid() && AllMet(f, pred, stack, out) && fr.i == 0
    ensures AllMet(f, pred, stack + [fr], out)
  {
  }

  /** New ancestors, all at once. */
  lemma AncAll(t: Tree, z: NodeId, n: nat, p: NodeId)
    requires z !in t.num && (forall x :: x in t.num ==> t.num[x] < n) && p in t.num
    ensures var t' := Tree(t.num[z := n], t.parent[z := p]);
      && (forall a, w :: w in t.num ==> (t'.Anc(a, w) <==> t.Anc(a, w)))
      && (forall a :: t'.Anc(a, z) <==> a == z || t.Anc(a, p))
  {
    forall a, w | w in t.num
      ensures Tree(t.num[z := n], t.parent[z := p]).Anc(a, w) <==> t.Anc(a, w)
    {
      AncMore(t, z, n, p, a, w);
    }
    forall a
      ensures Tree(t.num[z := n], t.parent[z := p]).Anc(a, z) <==> a == z || t.Anc(a, p)
    {
      AncNew(t, z, n, p, a);
    }
  }

  lemma MetStays(f: Flow, t: Tree, n: nat, pred: map<NodeId, set<NodeId>>, w: NodeId, p: NodeId)
    requires f.Valid() && Met(f, t, pred) && w !in t.num && (forall x :: x in t.num ==> t.num[x] < n + 1) && p in t.num
    ensures Met(f, Tree(t.num[w := n + 1], t.parent[w := p]), pred)
  {
    AncAll(t, w, n + 1, p);
    hide Tree.Anc;
    forall v, x | v in At(pred, x)
      ensures MetAt(f, Tree(t.num[w := n + 1], t.parent[w := p]), v, x)
    {
      assert MetAt(f, t, v, x);
    }
  }

  lemma ShapeMore(f: Flow, t: Tree, n: nat, ns: seq<NodeId>, w: NodeId)
    requires Shape(f, t, n) && Line(t, ns) && |ns| > 0 && w !in t.num && w in f.nodes && ns[|ns| - 1] in f.preds[w]
    ensures Shape(f, Tree(t.num[w := n + 1], t.parent[w := ns[|ns| - 1]]), n + 1)
  {
    var p := ns[|ns| - 1];
    LineTop(t, ns);
    ShapeBelow(f, t, n);
    hide Tree.Anc, Tree.HasParent, Line, Gapless, Parents;
    GaplessMore(t, n, ns, w);
    ParentsMore(f, t, n, w, p);
  }

  lemma GaplessMore(t: Tree, n: nat, ns: seq<NodeId>, w: NodeId)
    requires Gapless(t) && Line(t, ns) && |ns| > 0 && w !in t.num && (forall x :: x in t.num ==> t.num[x] < n + 1)
    ensures Gapless(Tree(t.num[w := n + 1], t.parent[w := ns[|ns| - 1]]))
  {
    var p := ns[|ns| - 1];
    LineTop(t, ns);
    AncAll(t, w, n + 1, p);
    AncInside(t);
    var t' := Tree(t.num[w := n + 1], t.parent[w := p]);
    hide Tree.Anc, Tree.HasParent, Line;
    forall a, x, y | t'.Anc(a, y) && Between(t', a, x, y)
      ensures t'.Anc(a, x)
    {
      if y != w {
        assert t.Anc(a, y) && Between(t, a, x, y);
      } else if x != w {
        BelowLine(t, ns, a, x);
      } else {
        assert t'.Anc(a, w);
      }
    }
  }

  lemma AncInside(t: Tree)
    ensures forall a, w :: t.Anc(a, w) ==> a in t.num && w in t.num
  {
  }

  lemma ParentsMore(f: Flow, t: Tree, n: nat, w: NodeId, p: NodeId)
    requires f.Valid() && t.num.Keys <= f.nodes && Parents(f, t) && (forall x :: x in t.num ==> t.num[x] < n + 1)
    requires p in t.num && w !in t.num && w in f.nodes && p in f.preds[w]
    ensures var t' := Tree(t.num[w := n + 1], t.parent[w := p]); t'.num.Keys <= f.nodes && Parents(f, t')
  {
    hide Tree.Anc;
    assert forall x :: x in t.num && x != f.entry ==> t.HasParent(x);
  }

  /** What was entered since a node of the line is below it. */
  lemma BelowLine(t: Tree, ns: seq<NodeId>, a: NodeId, x: NodeId)
    requires Line(t, ns) && |ns| > 0 && x in t.num && a in t.num && t.num[a] <= t.num[x]
    requires a in ns
    ensures t.Anc(a, x)
  {
    hide Tree.Anc;
    var k :| 0 <= k < |ns| && ns[k] == a;
    assert LineAt(t, ns[..k], ns[k]);
  }

  lemma LineMore(t: Tree, n: nat, ns: seq<NodeId>, w: NodeId)
    requires Line(t, ns) && |ns| > 0 && w !in t.num && (forall x :: x in t.num ==> t.num[x] < n + 1)
    ensures Line(Tree(t.num[w := n + 1], t.parent[w := ns[|ns| - 1]]), ns + [w])
  {
    var p := ns[|ns| - 1];
    LineTop(t, ns);
    AncAll(t, w, n + 1, p);
    hide Tree.Anc, Tree.HasParent, Line, LineAt;
    var t', ms := Tree(t.num[w := n + 1], t.parent[w := p]), ns + [w];
    forall k | 0 <= k < |ms|
      ensures LineAt(t', ms[..k], ms[k])
    {
      if k < |ns| {
        assert ms[..k] == ns[..k];
        LineAtOld(t, n, ns, k, w);
      } else {
        assert ms[..k] == ns;
        LineAtNew(t, n, ns, w);
      }
    }
    LineBy(t', ms);
  }

  lemma LineBy(t: Tree, ns: seq<NodeId>)
    requires forall k :: 0 <= k < |ns| ==> LineAt(t, ns[..k], ns[k])
    ensures Line(t, ns)
  {
  }

  lemma LineAtOld(t: Tree, n: nat, ns: seq<NodeId>, k: nat, w: NodeId)
    requires Line(t, ns) && k < |ns| && w !in t.num && (forall x :: x in t.num ==> t.num[x] < n + 1)
    ensures LineAt(Tree(t.num[w := n + 1], t.parent[w := ns[|ns| - 1]]), ns[..k], ns[k])
  {
    var p := ns[|ns| - 1];
    LineTop(t, ns);
    AncAll(t, w, n + 1, p);
    hide Tree.Anc, Tree.HasParent;
    assert LineAt(t, ns[..k], ns[k]);
    assert LineAt(t, ns[..|ns| - 1], p);
    if k < |ns| - 1 { assert ns[k] == ns[..|ns| - 1][k]; }
    assert t.Anc(ns[k], p) by { AncSelf(t, p); }
  }

  lemma LineAtNew(t: Tree, n: nat, ns: seq<NodeId>, w: NodeId)
    requires Line(t, ns) && |ns| > 0 && w !in t.num && (forall x :: x in t.num ==> t.num[x] < n + 1)
    ensures LineAt(Tree(t.num[w := n + 1], t.parent[w := ns[|ns| - 1]]), ns, w)
  {
    hide *;
    var p := ns[|ns| - 1];
    var t' := Tree(t.num[w := n + 1], t.parent[w := p]);
    LineTop(t, ns);
    LineAbove(t, ns);
    AncAll(t, w, n + 1, p);
    AncSelf(t', w);
    LineAtIf(t', ns, w);
  }

  lemma LineAtIf(t: Tree, above: seq<NodeId>, x: NodeId)
    requires x in t.num && t.Anc(x, x) && forall y :: y in t.num && t.num[x] <= t.num[y] ==> y == x
    requires forall a :: a in above ==> t.Anc(a, x)
    requires forall a :: t.Anc(a, x) ==> a == x || a in above
    ensures LineAt(t, above, x)
  {
    hide Tree.Anc;
  }

  /** The line is above its last node. */
  lemma LineAbove(t: Tree, ns: seq<NodeId>)
    requires Line(t, ns) && |ns| > 0
    ensures forall a :: a in ns ==> t.Anc(a, ns[|ns| - 1])
  {
    var p := ns[|ns| - 1];
    LineTop(t, ns);
    AncSelf(t, p);
    hide Tree.Anc;
    assert LineAt(t, ns[..|ns| - 1], p);
    assert ns == ns[..|ns| - 1] + [p];
  }

  /** A node all of whose edges were met is left. */
  lemma Leaves(f: Flow, t: Tree, n: nat, pred: map<NodeId, set<NodeId>>, stack: seq<Frame>, out: seq<NodeId>)
    requires Searching(f, t, n, pred, stack, out) && |stack| > 0
    requires var top := stack[|stack| - 1]; top.i == |top.sucs|
    ensures Searching(f, t, n, pred, stack[..|stack| - 1], out + [stack[|stack| - 1].node])
  {
    hide *;
    var last := |stack| - 1;
    var top := stack[last];
    TopIs(f, t, n, pred, stack, out);
    Pop(f, t.num.Keys, stack, out);
    NodesLess(stack);
    LineLess(t, Nodes(stack));
    AllMetMore(f, pred, stack, out);
    SearchIs(f, t, n, pred, stack[..last], out + [top.node]);
  }

  lemma NodesLess(stack: seq<Frame>)
    requires |stack| > 0
    ensures Nodes(stack[..|stack| - 1]) == Nodes(stack)[..|stack| - 1]
  {
  }

  lemma AllMetMore(f: Flow, pred: map<NodeId, set<NodeId>>, stack: seq<Frame>, out: seq<NodeId>)
    requires f.Valid() && AllMet(f, pred, stack, out) && |stack| > 0
    requires var top := stack[|stack| - 1];
      top.i == |top.sucs| && forall w :: w in f.nodes && top.node in f.preds[w] ==> w in top.sucs
    ensures AllMet(f, pred, stack[..|stack| - 1], out + [stack[|stack| - 1].node])
  {
    var top := stack[|stack| - 1];
    forall w | w in f.nodes && top.node in f.preds[w]
      ensures top.node in At(pred, w)
    {
      var j :| 0 <= j < |top.sucs| && top.sucs[j] == w;
    }
  }

  lemma LineLess(t: Tree, ns: seq<NodeId>)
    requires Line(t, ns) && |ns| > 0
    ensures Line(t, ns[..|ns| - 1])
  {
    hide LineAt;
    var ms := ns[..|ns| - 1];
    forall k | 0 <= k < |ms|
      ensures LineAt(t, ms[..k], ms[k])
    {
      assert ms[..k] == ns[..k];
    }
  }

  /** What the search has found in the end. */
  ghost predicate Searched(f: Flow, t: Tree, n: nat, pred: map<NodeId, set<NodeId>>) {
    && DepthFirst(f, t) && t.num[f.entry] == 1 && (forall w :: w in t.num ==> 1 <= t.num[w] <= n)
    && (forall w :: w in f.nodes ==> (w in t.num <==> f.Reachable(w)))
    && forall v, w :: w in t.num ==> (v in At(pred, w) <==> v in t.num && v in f.preds[w])
  }

  lemma SearchEnds(f: Flow, t: Tree, n: nat, pred: map<NodeId, set<NodeId>>, out: seq<NodeId>)
    requires Searching(f, t, n, pred, [], out)
    ensures Searched(f, t, n, pred)
  {
    EndIs(f, t, n, pred, out);
    TraversalEnds(f, t.num.Keys, out);
    PredEnds(f, t, pred, out);
    ShapeIsDepthFirst(f, t, n);
    hide Tree.Anc, Traversal, Distinct, Flow.Reachable, Line, Tree.HasParent, DepthFirst, Gapless, Parents;
  }

  lemma EndIs(f: Flow, t: Tree, n: nat, pred: map<NodeId, set<NodeId>>, out: seq<NodeId>)
    requires Searching(f, t, n, pred, [], out)
    ensures f.Valid() && Shape(f, t, n) && Met(f, t, pred) && AllMet(f, pred, [], out)
    ensures Traversal(f, t.num.Keys, [], out) && forall v :: v in t.num <==> v in out
  {
    hide Tree.Anc, Shape, Line, Met, AllMet;
    assert Nodes([]) == [];
  }

  lemma PredEnds(f: Flow, t: Tree, pred: map<NodeId, set<NodeId>>, out: seq<NodeId>)
    requires f.Valid() && Met(f, t, pred) && AllMet(f, pred, [], out) && forall v :: v in t.num <==> v in out
    ensures forall v, w :: v in t.num && w in f.nodes && v in f.preds[w] ==> v in At(pred, w) && MetAt(f, t, v, w)
    ensures forall v, w :: v in At(pred, w) ==> MetAt(f, t, v, w)
  {
    hide MetAt;
  }

  lemma ShapeIsDepthFirst(f: Flow, t: Tree, n: nat)
    requires f.Valid() && Shape(f, t, n)
    requires forall v, w :: v in t.num && w in f.nodes && v in f.preds[w] ==> MetAt(f, t, v, w)
    ensures DepthFirst(f, t)
  {
    hide Tree.Anc, Tree.HasParent;
    assert forall v, w :: v in t.num && w in f.nodes && v in f.preds[w] ==> MetAt(f, t, v, w) && w in t.num;
  }

  /** The numbers index the nodes. */
  ghost predicate Indexed(t: Tree, vertex: map<nat, NodeId>, n: nat) {
    && (forall i :: i in vertex <==> 1 <= i <= n)
    && forall i :: i in vertex ==> vertex[i] in t.num && t.num[vertex[i]] == i
  }

  /** Every node entered is its own label and has no ancestor yet. */
  ghost predicate Alone(t: Tree, labels: map<NodeId, NodeId>, ancestor: map<NodeId, Option<NodeId>>) {
    forall v :: v in t.num ==> v in labels && labels[v] == v && v in ancestor && ancestor[v].None?
  }

  lemma IndexedMore(t: Tree, vertex: map<nat, NodeId>, n: nat, w: NodeId, p: NodeId)
    requires Indexed(t, vertex, n) && w !in t.num
    ensures Indexed(Tree(t.num[w := n + 1], t.parent[w := p]), vertex[n + 1 := w], n + 1)
  {
  }

  lemma AloneMore(t: Tree, labels: map<NodeId, NodeId>, ancestor: map<NodeId, Option<NodeId>>, w: NodeId, n: nat,
      p: NodeId)
    requires Alone(t, labels, ancestor) && w !in t.num
    ensures Alone(Tree(t.num[w := n], t.parent[w := p]), labels[w := w], ancestor[w := None])
  {
  }

  lemma FlowOf(g: Graph)
    requires g.Valid() && g.entry.Some?
    ensures g.ToFlow().Valid() && g.ToFlow().entry == g.entry.value
    ensures forall v :: ListsSucs(g.ToFlow(), v, g.AllSucs(v))
    ensures forall v, b :: b in g.AllSucs(v) ==> b in g.ToFlow().nodes
    ensures g.ToFlow().nodes == set v | v in g.nodes
  {
    forall v
      ensures ListsSucs(g.ToFlow(), v, g.AllSucs(v)) && forall b :: b in g.AllSucs(v) ==> b in g.ToFlow().nodes
    {
      g.SucsOf(v);
    }
    hide Mirror, Distinct;
  }

  /** Nothing is entered yet. */
  lemma NumbersNone(semi: map<NodeId, nat>, entry: NodeId)
    requires forall v :: v in semi ==> semi[v] == 0
    ensures Numbers(semi[entry := 1]) == map[entry := 1]
  {
  }

  lemma NumbersAre(semi: map<NodeId, nat>, w: NodeId)
    requires w in semi
    ensures w in Numbers(semi) <==> semi[w] > 0
    ensures w in Numbers(semi) ==> Numbers(semi)[w] == semi[w]
  {
  }

  /** Numbers the reachable nodes in the order they are entered, with their parents in the
      tree and, for each node, the predecessors it was come to from. */
  method Search(g: Graph)
    returns (semi: map<NodeId, nat>, vertex: map<nat, NodeId>, parent: map<NodeId, NodeId>,
             pred: map<NodeId, set<NodeId>>, labels: map<NodeId, NodeId>, ancestor: map<NodeId, Option<NodeId>>, n: nat)
    requires g.Valid() && g.entry.Some?
    ensures semi.Keys == g.ToFlow().nodes
    ensures var t := Tree(Numbers(semi), parent);
      Searched(g.ToFlow(), t, n, pred) && Indexed(t, vertex, n) && Alone(t, labels, ancestor)
  {
    hide *;
    FlowOf(g);
    ghost var f := g.ToFlow();
    var root := g.entry.value;
    semi := map v | v in g.nodes :: 0;
    assert semi.Keys == f.nodes;
    parent, pred := map[], map[];
    n := 1;
    EntryIsNode(f);
    NumbersNone(semi, root);
    semi := semi[root := n];
    vertex, labels, ancestor := map[n := root], map[root := root], map[root := None];
    var stack := [Frame(root, g.AllSucs(root), 0)];
    ghost var out: seq<NodeId> := [];
    SearchStarts(f, stack[0]);
    FirstIndexed(root);
    while |stack| > 0
      invariant semi.Keys == f.nodes && Numbers(semi).Keys <= f.nodes
      invariant Searching(f, Tree(Numbers(semi), parent), n, pred, stack, out)
      invariant Indexed(Tree(Numbers(semi), parent), vertex, n) && Alone(Tree(Numbers(semi), parent), labels, ancestor)
      decreases f.nodes - Numbers(semi).Keys, |stack|,
        if |stack| > 0 then |stack[|stack| - 1].sucs| - stack[|stack| - 1].i else 0
    {
      ghost var t := Tree(Numbers(semi), parent);
      TopIs(f, t, n, pred, stack, out);
      var last := |stack| - 1;
      var top := stack[last];
      if top.i < |top.sucs| {
        var w := top.sucs[top.i];
        assert w in top.sucs;
        NumbersAre(semi, w);
        ghost var pred0, stack0 := pred, stack;
        pred := Insert(pred, w, top.node);
        stack := stack[last := top.(i := top.i + 1)];
        if semi[w] == 0 {
          Enters(f, t, n, pred0, stack0, out, g.AllSucs(w));
          NumbersMore(semi, w, n + 1);
          IndexedMore(t, vertex, n, w, top.node);
          AloneMore(t, labels, ancestor, w, n + 1, top.node);
          parent := parent[w := top.node];
          n := n + 1;
          semi := semi[w := n];
          vertex, labels, ancestor := vertex[n := w], labels[w := w], ancestor[w := None];
          stack := stack + [Frame(w, g.AllSucs(w), 0)];
        } else {
          MeetsOld(f, t, n, pred0, stack0, out);
        }
      } else {
        Leaves(f, t, n, pred, stack, out);
        out := out + [top.node];
        stack := stack[..last];
      }
    }
    SearchEnds(f, Tree(Numbers(semi), parent), n, pred, out);
  }

  lemma EntryIsNode(f: Flow)
    requires f.Valid()
    ensures f.entry in f.nodes
  {
  }

  lemma FirstIndexed(root: NodeId)
    ensures var t := Tree(map[root := 1], map[]);
      Indexed(t, map[1 := root], 1) && Alone(t, map[root := root], map[root := None])
  {
  }
}
