/** Dominators by depth-first numbers: semidominators, what they are computed from, and when
    they decide the immediate dominator. */
module Dominators {
  import opened Options
  import opened Graphs

  /** A depth-first tree: the nodes entered, numbered in that order, and their parents. */
  datatype Tree = Tree(num: map<NodeId, nat>, parent: map<NodeId, NodeId>) {
    /** `a` is `w` or one of its ancestors. */
    ghost predicate Anc(a: NodeId, w: NodeId)
      decreases if w in num then num[w] else 0
    {
      && a in num && w in num
      && (a == w || (HasParent(w) && Anc(a, parent[w])))
    }

    ghost predicate HasParent(w: NodeId) {
      w in num && w in parent && parent[w] in num && num[parent[w]] < num[w]
    }

    /** `y` lies below `a` on the way down to `w`. */
    ghost predicate Below(a: NodeId, y: NodeId, w: NodeId) {
      Anc(a, y) && y != a && Anc(y, w)
    }
  }

  lemma {:induction false} AncNum(t: Tree, a: NodeId, w: NodeId)
    requires t.Anc(a, w)
    ensures t.num[a] <= t.num[w] && (t.num[a] == t.num[w] ==> a == w)
    decreases t.num[w]
  {
    if a != w { AncNum(t, a, t.parent[w]); }
  }

  lemma {:induction false} AncTrans(t: Tree, a: NodeId, b: NodeId, c: NodeId)
    requires t.Anc(a, b) && t.Anc(b, c)
    ensures t.Anc(a, c)
    decreases t.num[c]
  {
    if b != c { AncTrans(t, a, b, t.parent[c]); }
  }

  /** Two ancestors of one node lie on one line. */
  lemma {:induction false} AncLine(t: Tree, a: NodeId, b: NodeId, w: NodeId)
    requires t.Anc(a, w) && t.Anc(b, w) && t.num[a] <= t.num[b]
    ensures t.Anc(a, b)
    decreases t.num[w]
  {
    if b == w {
    } else if a == w {
      AncNum(t, b, w);
    } else {
      AncLine(t, a, b, t.parent[w]);
    }
  }

  /** The tree is a depth-first tree of all that `f` reaches: an edge to a later node leads
      down, and what is entered between a node and a descendant is a descendant too. */
  ghost predicate DepthFirst(f: Flow, t: Tree) {
    && f.Valid() && f.entry in t.num && t.num.Keys <= f.nodes
    && (forall x, y :: x in t.num && y in t.num && t.num[x] == t.num[y] ==> x == y)
    && (forall w :: w in t.num ==> t.num[f.entry] <= t.num[w])
    && (forall w :: w in t.num && w != f.entry ==> t.HasParent(w) && t.parent[w] in f.preds[w])
    && (forall v, w :: v in t.num && w in f.nodes && v in f.preds[w] ==> w in t.num)
    && (forall v, w :: v in t.num && w in t.num && v in f.preds[w] && t.num[v] < t.num[w] ==> t.Anc(v, w))
    && forall a, x, w :: t.Anc(a, w) && Between(t, a, x, w) ==> t.Anc(a, x)
  }

  ghost predicate Between(t: Tree, a: NodeId, x: NodeId, w: NodeId) {
    a in t.num && x in t.num && w in t.num && t.num[a] <= t.num[x] <= t.num[w]
  }

  lemma SameByNumber(f: Flow, t: Tree, a: NodeId, b: NodeId)
    requires DepthFirst(f, t) && a in t.num && b in t.num
    ensures t.num[a] == t.num[b] ==> a == b
  {
    hide Tree.Anc, Tree.HasParent;
  }

  /** A path of the flow through numbered nodes. */
  ghost predicate Way(f: Flow, t: Tree, p: seq<NodeId>) {
    f.IsPath(p) && forall i :: 0 <= i < |p| ==> p[i] in t.num
  }

  lemma {:induction false} PathIsWay(f: Flow, t: Tree, p: seq<NodeId>)
    requires DepthFirst(f, t) && f.IsPath(p) && p[0] in t.num
    ensures Way(f, t, p)
    decreases |p|
  {
    if |p| > 1 {
      var q := p[..|p| - 1];
      assert f.IsPath(q);
      PathIsWay(f, t, q);
      assert p[|p| - 2] == q[|q| - 1];
    }
  }

  lemma WayNodes(f: Flow, t: Tree, p: seq<NodeId>)
    requires Way(f, t, p)
    ensures f.IsPath(p) && |p| > 0 && forall i :: 0 <= i < |p| ==> p[i] in t.num
  {
  }

  lemma WayPart(f: Flow, t: Tree, p: seq<NodeId>, i: nat, j: nat)
    requires Way(f, t, p) && i < j <= |p|
    ensures Way(f, t, p[i..j])
  {
    var q := p[i..j];
    forall k | 0 < k < |q|
      ensures q[k] in f.preds && q[k - 1] in f.preds[q[k]]
    {
      assert q[k] == p[i + k] && q[k - 1] == p[i + k - 1];
    }
  }

  /** Two ways that meet. */
  lemma WayJoin(f: Flow, t: Tree, p: seq<NodeId>, q: seq<NodeId>)
    requires Way(f, t, p) && Way(f, t, q) && p[|p| - 1] == q[0]
    ensures Way(f, t, p + q[1..])
    ensures (p + q[1..])[0] == p[0] && (p + q[1..])[|p + q[1..]| - 1] == q[|q| - 1]
  {
    var r := p + q[1..];
    forall k | 0 < k < |r|
      ensures r[k] in f.preds && r[k - 1] in f.preds[r[k]]
    {
      if k < |p| {
        assert r[k] == p[k] && r[k - 1] == p[k - 1];
      } else {
        assert r[k] == q[k - |p| + 1] && r[k - 1] == q[k - |p|];
      }
    }
  }

  /** The way down the tree from an ancestor. */
  lemma {:induction false} TreeWay(f: Flow, t: Tree, a: NodeId, w: NodeId) returns (p: seq<NodeId>)
    requires DepthFirst(f, t) && t.Anc(a, w)
    ensures Way(f, t, p) && p[0] == a && p[|p| - 1] == w
    ensures forall i :: 0 <= i < |p| ==> t.Anc(a, p[i]) && t.Anc(p[i], w)
    decreases t.num[w]
  {
    if a == w {
      p := [w];
    } else {
      p := TreeWay(f, t, a, t.parent[w]);
      AncUp(f, t, w);
      WayJoin(f, t, p, [t.parent[w], w]);
      forall i | 0 <= i < |p|
        ensures t.Anc(p[i], w)
      {
        AncTrans(t, p[i], t.parent[w], w);
      }
      p := p + [w];
    }
  }

  lemma AncUp(f: Flow, t: Tree, w: NodeId)
    requires DepthFirst(f, t) && w in t.num && w != f.entry
    ensures t.HasParent(w) && t.Anc(t.parent[w], w) && Way(f, t, [t.parent[w], w]) && t.parent[w] in f.preds[w]
  {
    assert t.HasParent(w);
    assert t.Anc(t.parent[w], t.parent[w]);
  }

  lemma {:induction false} EntryIsAnc(f: Flow, t: Tree, w: NodeId)
    requires DepthFirst(f, t) && w in t.num
    ensures t.Anc(f.entry, w)
    decreases t.num[w]
  {
    if w != f.entry {
      assert t.HasParent(w);
      EntryIsAnc(f, t, t.parent[w]);
    }
  }

  /** A way to a node that was not entered earlier passes a common ancestor. */
  lemma {:induction false} CommonAncestor(f: Flow, t: Tree, p: seq<NodeId>) returns (i: nat)
    requires DepthFirst(f, t) && Way(f, t, p) && t.num[p[0]] <= t.num[p[|p| - 1]]
    ensures i < |p| && t.Anc(p[i], p[0]) && t.Anc(p[i], p[|p| - 1])
    decreases |p|
  {
    hide *;
    WayNodes(f, t, p);
    var v, w := p[0], p[|p| - 1];
    if |p| == 1 {
      i := 0;
      AncSelf(t, v);
    } else {
      var q := p[..|p| - 1];
      var u := p[|p| - 2];
      WayPart(f, t, p, 0, |p| - 1);
      LastEdge(f, t, p);
      if t.num[u] < t.num[v] {
        i := |p| - 2;
        NoGap(f, t, u, v, w);
      } else {
        i := CommonAncestor(f, t, q);
        AncNum(t, p[i], v);
        if t.num[u] < t.num[w] {
          AncTrans(t, p[i], u, w);
        } else {
          NoGap(f, t, p[i], w, u);
        }
      }
    }
  }

  lemma AncSelf(t: Tree, a: NodeId)
    requires a in t.num
    ensures t.Anc(a, a)
  {
  }

  /** The last edge of a way, which leads down if it leads to a later node. */
  lemma LastEdge(f: Flow, t: Tree, p: seq<NodeId>)
    requires DepthFirst(f, t) && Way(f, t, p) && |p| > 1
    ensures var u, w := p[|p| - 2], p[|p| - 1];
      && u in t.num && w in t.num && w in f.preds && u in f.preds[w] && (t.num[u] < t.num[w] ==> t.Anc(u, w))
  {
    hide Tree.Anc, Tree.HasParent;
  }

  lemma NoGap(f: Flow, t: Tree, a: NodeId, x: NodeId, w: NodeId)
    requires DepthFirst(f, t) && t.Anc(a, w) && a in t.num && x in t.num && w in t.num
    requires t.num[a] <= t.num[x] <= t.num[w]
    ensures t.Anc(a, x)
  {
    hide Tree.Anc, Tree.HasParent;
    assert Between(t, a, x, w);
  }

  /** A way to `w` whose inner nodes are all entered later than `w`. */
  ghost predicate SemiWay(f: Flow, t: Tree, p: seq<NodeId>, w: NodeId) {
    && Way(f, t, p) && |p| > 1 && p[|p| - 1] == w
    && forall i :: 0 < i < |p| - 1 ==> t.num[p[i]] > t.num[w]
  }

  /** `s` is the semidominator of `w`: the node entered first of which such ways start. */
  ghost predicate IsSemi(f: Flow, t: Tree, s: NodeId, w: NodeId) {
    && s in t.num && w in t.num
    && (exists p :: SemiWay(f, t, p, w) && p[0] == s)
    && forall p :: SemiWay(f, t, p, w) ==> t.num[s] <= t.num[p[0]]
  }

  lemma SemiIsUnique(f: Flow, t: Tree, s: NodeId, s': NodeId, w: NodeId)
    requires DepthFirst(f, t) && IsSemi(f, t, s, w) && IsSemi(f, t, s', w)
    ensures s == s'
  {
  }

  lemma SemiIsAncestor(f: Flow, t: Tree, s: NodeId, w: NodeId)
    requires DepthFirst(f, t) && IsSemi(f, t, s, w) && w != f.entry
    ensures t.Anc(s, w) && t.num[s] < t.num[w] && s != w
  {
    AncUp(f, t, w);
    assert SemiWay(f, t, [t.parent[w], w], w);
    var p :| SemiWay(f, t, p, w) && p[0] == s;
    var i := CommonAncestor(f, t, p);
    AncNum(t, p[i], w);
    if i == |p| - 1 { AncNum(t, w, s); }
  }

  /** `d` lies on every path from the entry to `w`. */
  ghost predicate Dominates(f: Flow, d: NodeId, w: NodeId) {
    forall p :: f.IsPath(p) && p[0] == f.entry && p[|p| - 1] == w ==> d in p
  }

  /** `d` is the last of the nodes that dominate `w`, itself left out. */
  ghost predicate IsIdom(f: Flow, d: NodeId, w: NodeId) {
    && d != w && Dominates(f, d, w)
    && forall e :: e != w && Dominates(f, e, w) ==> Dominates(f, e, d)
  }

  /** For each node that has one, what dominates it last; the entry has none. */
  type Doms = map<NodeId, Option<NodeId>>

  /** The map has exactly the reachable nodes: the entry with none, every other with its
      immediate dominator. */
  ghost predicate TellsIdoms(f: Flow, dom: Doms) {
    && (forall x :: x in dom <==> x in f.nodes && f.Reachable(x))
    && f.entry in dom && dom[f.entry] == None
    && forall x :: x in dom && x != f.entry ==> dom[x].Some? && IsIdom(f, dom[x].value, x)
  }

  lemma TellsIf(f: Flow, dom: Doms)
    requires forall x :: x in f.nodes ==> (x in dom <==> f.Reachable(x))
    requires (forall x :: x in dom ==> x in f.nodes) && f.entry in dom && dom[f.entry] == None
    requires forall x :: x in dom && x != f.entry ==> dom[x].Some? && IsIdom(f, dom[x].value, x)
    ensures TellsIdoms(f, dom)
  {
    hide IsIdom, Flow.Reachable;
  }

  /** There is at most one, on any path that leads to the node. */
  lemma IdomIsUnique(f: Flow, d: NodeId, e: NodeId, w: NodeId)
    requires f.Reachable(w) && IsIdom(f, d, w) && IsIdom(f, e, w)
    ensures d == e
  {
    if d != e {
      var p :| f.IsPath(p) && p[0] == f.entry && p[|p| - 1] == w;
      var i :| 0 <= i < |p| && p[i] == d;
      assert f.IsPath(p[..i + 1]);
      NotBoth(f, d, e, p[..i + 1]);
    }
  }

  /** Of two nodes that can be reached one does not dominate the other. */
  lemma {:induction false} NotBoth(f: Flow, d: NodeId, e: NodeId, p: seq<NodeId>)
    requires f.IsPath(p) && p[0] == f.entry && p[|p| - 1] == d && d != e
    ensures !Dominates(f, d, e) || !Dominates(f, e, d)
    decreases |p|
  {
    if Dominates(f, e, d) {
      var i :| 0 <= i < |p| && p[i] == e;
      assert f.IsPath(p[..i + 1]);
      NotBoth(f, e, d, p[..i + 1]);
    }
  }

  lemma DominatorIsAncestor(f: Flow, t: Tree, d: NodeId, w: NodeId)
    requires DepthFirst(f, t) && w in t.num && Dominates(f, d, w)
    ensures t.Anc(d, w)
  {
    EntryIsAnc(f, t, w);
    var p := TreeWay(f, t, f.entry, w);
    assert d in p;
  }

  /** What dominates a node dominates its semidominator. */
  lemma DominatesSemi(f: Flow, t: Tree, d: NodeId, s: NodeId, w: NodeId)
    requires DepthFirst(f, t) && IsSemi(f, t, s, w) && w != f.entry && Dominates(f, d, w) && d != w
    ensures Dominates(f, d, s) && t.Anc(d, s)
  {
    DominatorIsAncestor(f, t, d, w);
    AncNum(t, d, w);
    var q :| SemiWay(f, t, q, w) && q[0] == s;
    forall p | f.IsPath(p) && p[0] == f.entry && p[|p| - 1] == s
      ensures d in p
    {
      PathIsWay(f, t, p);
      WayJoin(f, t, p, q);
      assert d in p + q[1..];
      assert forall i :: 1 <= i < |q| ==> q[i] != d;
    }
    DominatorIsAncestor(f, t, d, s);
  }

  /** The last node of the way that was entered before `d`. */
  lemma {:induction false} LastEarlier(t: Tree, p: seq<NodeId>, d: NodeId, n: nat) returns (x: nat)
    requires 0 < n <= |p| && d in t.num && (forall i :: 0 <= i < |p| ==> p[i] in t.num) && t.num[p[0]] < t.num[d]
    ensures x < n && t.num[p[x]] < t.num[d] && forall i :: x < i < n ==> t.num[p[i]] >= t.num[d]
  {
    if t.num[p[n - 1]] < t.num[d] {
      x := n - 1;
    } else {
      x := LastEarlier(t, p, d, n - 1);
    }
  }

  /** Node `a` lies on the tree between `d` and `w`. */
  ghost predicate OnLine(t: Tree, d: NodeId, a: NodeId, w: NodeId) {
    t.Anc(d, a) && t.Anc(a, w)
  }

  /** The first node after `x` on the line from `d` to `w`. */
  lemma {:induction false} FirstOnLine(t: Tree, p: seq<NodeId>, d: NodeId, w: NodeId, x: nat) returns (y: nat)
    requires x + 1 < |p| && OnLine(t, d, p[|p| - 1], w)
    ensures x < y < |p| && OnLine(t, d, p[y], w) && forall i :: x < i < y ==> !OnLine(t, d, p[i], w)
    decreases |p| - x
  {
    if OnLine(t, d, p[x + 1], w) {
      y := x + 1;
    } else {
      y := FirstOnLine(t, p, d, w, x + 1);
    }
  }

  /** An ancestor of a node on the line that was not entered before its upper end is on it. */
  lemma StaysOnLine(t: Tree, d: NodeId, a: NodeId, b: NodeId, w: NodeId)
    requires OnLine(t, d, b, w) && t.Anc(a, b) && t.num[d] <= t.num[a]
    ensures OnLine(t, d, a, w)
  {
    AncLine(t, d, a, b);
    AncTrans(t, a, b, w);
  }

  /** A way that comes to the tree between `d` and `w` comes there from later nodes only. */
  lemma ComesFromLater(f: Flow, t: Tree, p: seq<NodeId>, d: NodeId, w: NodeId, x: nat, y: nat, i: nat)
    requires DepthFirst(f, t) && Way(f, t, p) && x < i < y < |p| && OnLine(t, d, p[y], w) && d in t.num
    requires forall j :: x < j < |p| ==> p[j] in t.num && t.num[p[j]] >= t.num[d]
    requires forall j :: x < j < y ==> !OnLine(t, d, p[j], w)
    ensures t.num[p[i]] > t.num[p[y]]
  {
    hide *;
    if t.num[p[i]] <= t.num[p[y]] {
      WayPart(f, t, p, i, y + 1);
      var q := p[i..y + 1];
      WayNodes(f, t, q);
      var j := CommonAncestor(f, t, q);
      assert q[j] == p[i + j];
      if i + j < y {
        StaysOnLine(t, d, p[i + j], p[y], w);
      } else {
        AncNum(t, p[y], p[i]);
      }
    }
  }

  /** A path to `w` that misses an ancestor `d` comes back to the tree below it over a node
      entered before `d`. */
  lemma Crossing(f: Flow, t: Tree, p: seq<NodeId>, d: NodeId, w: NodeId) returns (x: nat, y: nat)
    requires DepthFirst(f, t) && f.IsPath(p) && p[0] == f.entry && p[|p| - 1] == w && t.Anc(d, w) && d !in p
    ensures x < y < |p| && Way(f, t, p) && p[x] in t.num && d in t.num && t.num[p[x]] < t.num[d]
    ensures t.Below(d, p[y], w) && SemiWay(f, t, p[x..y + 1], p[y])
  {
    EntryEarlier(f, t, p, d, w);
    hide *;
    PathIsWay(f, t, p);
    WayNodes(f, t, p);
    x := LastEarlier(t, p, d, |p|);
    y := FirstOnLine(t, p, d, w, x);
    LineBelow(t, d, p[y], w);
    forall i | x < i < y
      ensures t.num[p[i]] > t.num[p[y]]
    {
      ComesFromLater(f, t, p, d, w, x, y, i);
    }
    PartIsSemiWay(f, t, p, x, y);
  }

  lemma EntryEarlier(f: Flow, t: Tree, p: seq<NodeId>, d: NodeId, w: NodeId)
    requires DepthFirst(f, t) && f.IsPath(p) && p[0] == f.entry && p[|p| - 1] == w && t.Anc(d, w) && d !in p
    ensures |p| > 0 && f.entry in t.num && d in t.num && t.num[f.entry] < t.num[d] && w in t.num && t.num[d] <= t.num[w]
    ensures OnLine(t, d, w, w)
  {
    AncNum(t, d, w);
    assert p[0] in p;
  }

  lemma LineBelow(t: Tree, d: NodeId, y: NodeId, w: NodeId)
    requires OnLine(t, d, y, w)
    ensures y != d ==> t.Below(d, y, w)
  {
  }

  /** Part of a way, all of whose inner nodes are entered after its last. */
  lemma PartIsSemiWay(f: Flow, t: Tree, p: seq<NodeId>, x: nat, y: nat)
    requires Way(f, t, p) && x < y < |p| && p[y] in t.num
    requires forall i :: x < i < y ==> p[i] in t.num && t.num[p[i]] > t.num[p[y]]
    ensures SemiWay(f, t, p[x..y + 1], p[y])
  {
    WayPart(f, t, p, x, y + 1);
    var q := p[x..y + 1];
    hide Way;
    assert forall i :: 0 < i < |q| - 1 ==> q[i] == p[x + i];
  }

  /** `u`, with semidominator `su`, has the first semidominator of all nodes below `s` on the
      way down to `w`. */
  ghost predicate IsBest(f: Flow, t: Tree, s: NodeId, u: NodeId, su: NodeId, w: NodeId) {
    && t.Below(s, u, w) && IsSemi(f, t, su, u)
    && forall y, sy :: t.Below(s, y, w) && IsSemi(f, t, sy, y) ==> t.num[su] <= t.num[sy]
  }

  /** If no node in between has an earlier semidominator, the semidominator is the immediate
      dominator. */
  lemma SemiIsIdom(f: Flow, t: Tree, s: NodeId, u: NodeId, w: NodeId)
    requires DepthFirst(f, t) && w != f.entry && IsSemi(f, t, s, w) && IsBest(f, t, s, u, s, w)
    ensures IsIdom(f, s, w)
  {
    SemiIsAncestor(f, t, s, w);
    forall p | f.IsPath(p) && p[0] == f.entry && p[|p| - 1] == w
      ensures s in p
    {
      if s !in p {
        var x, y := Crossing(f, t, p, s, w);
        var _ := SemiNoLater(f, t, p[x..y + 1], p[y]);
      }
    }
    forall e | e != w && Dominates(f, e, w)
      ensures Dominates(f, e, s)
    {
      DominatesSemi(f, t, e, s, w);
    }
  }

  /** Where such ways lead there is a semidominator, no later than where any of them starts. */
  lemma {:induction false} SemiNoLater(f: Flow, t: Tree, p: seq<NodeId>, y: NodeId) returns (sy: NodeId)
    requires SemiWay(f, t, p, y) && y in t.num
    ensures IsSemi(f, t, sy, y) && t.num[sy] <= t.num[p[0]]
    decreases t.num[p[0]]
  {
    if q :| SemiWay(f, t, q, y) && t.num[q[0]] < t.num[p[0]] {
      sy := SemiNoLater(f, t, q, y);
    } else {
      sy := p[0];
    }
  }

  /** Otherwise it is that of the node in between whose semidominator is the first. */
  lemma IdomOfBest(f: Flow, t: Tree, s: NodeId, u: NodeId, su: NodeId, w: NodeId, d: NodeId)
    requires DepthFirst(f, t) && w != f.entry && IsSemi(f, t, s, w) && IsBest(f, t, s, u, su, w)
    requires t.num[su] < t.num[s] && IsIdom(f, d, u)
    ensures IsIdom(f, d, w)
  {
    SemiIsAncestor(f, t, s, w);
    AncNum(t, s, u);
    AncNum(t, u, w);
    BestIsInner(f, t, s, u, w);
    DominatesSemi(f, t, d, su, u);
    AncNum(t, d, su);
    DominatorIsAncestor(f, t, d, u);
    AncTrans(t, d, u, w);
    forall p | f.IsPath(p) && p[0] == f.entry && p[|p| - 1] == w
      ensures d in p
    {
      BestDominates(f, t, s, u, su, w, d, p);
    }
    forall e | e != w && Dominates(f, e, w)
      ensures Dominates(f, e, d)
    {
      DominatesSemi(f, t, e, s, w);
      AncNum(t, e, s);
      DominatesUp(f, t, e, u, w);
    }
  }

  lemma BestIsInner(f: Flow, t: Tree, s: NodeId, u: NodeId, w: NodeId)
    requires DepthFirst(f, t) && t.Below(s, u, w)
    ensures u != f.entry && t.num[s] < t.num[u]
  {
    AncNum(t, s, u);
  }

  /** What dominates `w` and was entered before its ancestor `u` dominates `u`. */
  lemma DominatesUp(f: Flow, t: Tree, e: NodeId, u: NodeId, w: NodeId)
    requires DepthFirst(f, t) && t.Anc(u, w) && Dominates(f, e, w) && e in t.num && t.num[e] < t.num[u]
    ensures Dominates(f, e, u)
  {
    var q := TreeWay(f, t, u, w);
    forall p | f.IsPath(p) && p[0] == f.entry && p[|p| - 1] == u
      ensures e in p
    {
      PathIsWay(f, t, p);
      WayJoin(f, t, p, q);
      assert e in p + q[1..];
      forall i | 0 <= i < |q|
        ensures q[i] != e
      {
        AncNum(t, u, q[i]);
      }
    }
  }

  /** The dominator of `u` lies on every path to `w`: one that misses it would come back below
      it, and lead to `u` without it or to a node whose semidominator is earlier. */
  lemma BestDominates(f: Flow, t: Tree, s: NodeId, u: NodeId, su: NodeId, w: NodeId, d: NodeId, p: seq<NodeId>)
    requires DepthFirst(f, t) && IsBest(f, t, s, u, su, w) && t.num[su] < t.num[s]
    requires t.Anc(d, su) && t.Anc(d, u) && t.Anc(d, w) && t.Anc(s, w) && Dominates(f, d, u)
    requires f.IsPath(p) && p[0] == f.entry && p[|p| - 1] == w
    ensures d in p
  {
    AncNum(t, d, su);
    if d !in p {
      var x, y := Crossing(f, t, p, d, w);
      if t.num[p[y]] <= t.num[s] {
        AncLine(t, p[y], s, w);
        AncTrans(t, p[y], s, u);
        Detour(f, t, p, y, d, u);
      } else {
        AncLine(t, s, p[y], w);
        var _ := SemiNoLater(f, t, p[x..y + 1], p[y]);
      }
    }
  }

  /** A path that comes back to the tree below the dominator `d` of `u`, above `u`, passed it. */
  lemma Detour(f: Flow, t: Tree, p: seq<NodeId>, y: nat, d: NodeId, u: NodeId)
    requires DepthFirst(f, t) && Way(f, t, p) && p[0] == f.entry && y < |p|
    requires t.Anc(d, p[y]) && p[y] != d && t.Anc(p[y], u) && Dominates(f, d, u)
    ensures d in p[..y + 1]
  {
    WayPart(f, t, p, 0, y + 1);
    var q := TreeWay(f, t, p[y], u);
    WayJoin(f, t, p[..y + 1], q);
    AncNum(t, d, p[y]);
    forall i | 0 <= i < |q|
      ensures q[i] != d
    {
      AncNum(t, p[y], q[i]);
    }
    assert d in p[..y + 1] + q[1..];
  }

  /** What the semidominator of `w` is computed from: the earlier predecessors, and the
      semidominators of the later ancestors of all predecessors. */
  ghost predicate Offers(f: Flow, t: Tree, w: NodeId, c: NodeId) {
    w in t.num && w in f.preds && c in t.num && exists v :: v in f.preds[w] && v in t.num && OffersBy(f, t, w, v, c)
  }

  ghost predicate OffersBy(f: Flow, t: Tree, w: NodeId, v: NodeId, c: NodeId)
    requires w in t.num && v in t.num
  {
    (c == v && t.num[v] < t.num[w]) || exists u :: Later(t, w, u, v) && IsSemi(f, t, c, u)
  }

  /** `u` is an ancestor of `v` entered after `w`. */
  ghost predicate Later(t: Tree, w: NodeId, u: NodeId, v: NodeId) {
    w in t.num && t.Anc(u, v) && t.num[u] > t.num[w]
  }

  /** The first of what is offered is the semidominator. */
  lemma FirstOfferIsSemi(f: Flow, t: Tree, w: NodeId, s: NodeId)
    requires DepthFirst(f, t) && w in t.num && w != f.entry && w in f.preds && Offers(f, t, w, s)
    requires forall c :: Offers(f, t, w, c) ==> t.num[s] <= t.num[c]
    ensures IsSemi(f, t, s, w)
  {
    var v :| v in f.preds[w] && v in t.num && OffersBy(f, t, w, v, s);
    OfferIsWay(f, t, w, v, s);
    forall p | SemiWay(f, t, p, w)
      ensures t.num[s] <= t.num[p[0]]
    {
      WayIsOffered(f, t, w, p);
    }
  }

  lemma OfferIsWay(f: Flow, t: Tree, w: NodeId, v: NodeId, s: NodeId)
    requires DepthFirst(f, t) && w in t.num && w in f.preds && v in f.preds[w] && v in t.num && OffersBy(f, t, w, v, s)
    ensures exists p :: SemiWay(f, t, p, w) && p[0] == s
  {
    EdgeIsWay(f, t, v, w);
    if s == v && t.num[v] < t.num[w] {
      assert SemiWay(f, t, [v, w], w);
    } else {
      var u :| Later(t, w, u, v) && IsSemi(f, t, s, u);
      OfferBelow(f, t, w, v, u, s);
    }
  }

  lemma OfferBelow(f: Flow, t: Tree, w: NodeId, v: NodeId, u: NodeId, s: NodeId)
    requires DepthFirst(f, t) && w in t.num && v in t.num && Way(f, t, [v, w]) && Later(t, w, u, v)
    requires IsSemi(f, t, s, u)
    ensures exists p :: SemiWay(f, t, p, w) && p[0] == s
  {
    hide *;
    var p := SemiWayOf(f, t, s, u);
    LaterIs(t, w, u, v);
    var q := TreeWay(f, t, u, v);
    WayNodes(f, t, q);
    forall i | 0 <= i < |q|
      ensures t.num[q[i]] > t.num[w]
    {
      AncNum(t, u, q[i]);
    }
    InnerIs(t, p, w, u);
    InnerIs(t, q, w, u);
    LaterJoin(f, t, p, q, w);
    InnerPair(t, v, w);
    LaterJoin(f, t, p + q[1..], [v, w], w);
    InnerSemi(f, t, p + q[1..] + [v, w][1..], w);
  }

  lemma SemiWayOf(f: Flow, t: Tree, s: NodeId, u: NodeId) returns (p: seq<NodeId>)
    requires IsSemi(f, t, s, u)
    ensures Way(f, t, p) && |p| > 1 && p[0] == s && p[|p| - 1] == u && u in t.num
    ensures forall i :: 0 < i < |p| - 1 ==> p[i] in t.num && t.num[p[i]] > t.num[u]
  {
    p :| SemiWay(f, t, p, u) && p[0] == s;
  }

  lemma LaterIs(t: Tree, w: NodeId, u: NodeId, v: NodeId)
    requires Later(t, w, u, v)
    ensures w in t.num && u in t.num && v in t.num && t.Anc(u, v) && t.num[u] > t.num[w]
  {
  }

  lemma InnerIs(t: Tree, p: seq<NodeId>, w: NodeId, u: NodeId)
    requires w in t.num && u in t.num && t.num[u] > t.num[w]
    requires forall i :: 0 < i < |p| - 1 ==> p[i] in t.num && (t.num[p[i]] > t.num[u] || t.num[p[i]] > t.num[w])
    ensures InnerLater(t, p, w)
  {
  }

  lemma InnerPair(t: Tree, v: NodeId, w: NodeId)
    requires w in t.num
    ensures InnerLater(t, [v, w], w)
  {
  }

  lemma InnerSemi(f: Flow, t: Tree, p: seq<NodeId>, w: NodeId)
    requires Way(f, t, p) && |p| > 1 && p[|p| - 1] == w && InnerLater(t, p, w)
    ensures SemiWay(f, t, p, w)
  {
    hide Way;
  }

  lemma EdgeIsWay(f: Flow, t: Tree, v: NodeId, w: NodeId)
    requires DepthFirst(f, t) && w in t.num && w in f.preds && v in f.preds[w] && v in t.num
    ensures Way(f, t, [v, w])
  {
  }

  /** The inner nodes of the way are entered after `w`. */
  ghost predicate InnerLater(t: Tree, p: seq<NodeId>, w: NodeId) {
    w in t.num && forall i :: 0 < i < |p| - 1 ==> p[i] in t.num && t.num[p[i]] > t.num[w]
  }

  lemma LaterJoin(f: Flow, t: Tree, p: seq<NodeId>, q: seq<NodeId>, w: NodeId)
    requires Way(f, t, p) && Way(f, t, q) && p[|p| - 1] == q[0] && |p| > 1 && w in t.num
    requires InnerLater(t, p, w) && InnerLater(t, q, w) && t.num[q[0]] > t.num[w]
    ensures var r := p + q[1..];
      Way(f, t, r) && |r| > 1 && r[0] == p[0] && r[|r| - 1] == q[|q| - 1] && InnerLater(t, r, w)
  {
    WayJoin(f, t, p, q);
    hide Way;
    var r := p + q[1..];
    forall i | 0 < i < |r| - 1
      ensures r[i] in t.num && t.num[r[i]] > t.num[w]
    {
      if i < |p| { assert r[i] == p[i]; } else { assert r[i] == q[i - |p| + 1]; }
    }
  }

  /** The first node of the way, behind its start, that is an ancestor of `v`. */
  lemma {:induction false} FirstAncestor(t: Tree, p: seq<NodeId>, v: NodeId, j: nat) returns (k: nat)
    requires 0 < j < |p| && t.Anc(p[j], v)
    ensures 0 < k <= j && t.Anc(p[k], v) && forall i :: 0 < i < k ==> !t.Anc(p[i], v)
    decreases j
  {
    if i :| 0 < i < j && t.Anc(p[i], v) {
      k := FirstAncestor(t, p, v, i);
    } else {
      k := j;
    }
  }

  /** A way comes to the line above `v` from later nodes only. */
  lemma FromLaterAlone(f: Flow, t: Tree, p: seq<NodeId>, v: NodeId, k: nat, i: nat)
    requires DepthFirst(f, t) && Way(f, t, p) && 0 < i < k < |p| && t.Anc(p[k], v)
    requires forall j :: 0 < j < k ==> !t.Anc(p[j], v)
    ensures p[i] in t.num && p[k] in t.num && t.num[p[i]] > t.num[p[k]]
  {
    hide *;
    WayNodes(f, t, p);
    if t.num[p[i]] <= t.num[p[k]] {
      WayPart(f, t, p, i, k + 1);
      var q := p[i..k + 1];
      var j := CommonAncestor(f, t, q);
      assert q[j] == p[i + j];
      if i + j < k {
        AncTrans(t, p[i + j], p[k], v);
      } else {
        AncNum(t, p[k], p[i]);
      }
    }
  }

  /** No way starts earlier than all that is offered. */
  lemma WayIsOffered(f: Flow, t: Tree, w: NodeId, p: seq<NodeId>)
    requires DepthFirst(f, t) && w in f.preds && w != f.entry && w in t.num && SemiWay(f, t, p, w)
    ensures exists c :: Offers(f, t, w, c) && t.num[c] <= t.num[p[0]]
  {
    hide *;
    SemiWayIs(f, t, p, w);
    LastEdge(f, t, p);
    var v := p[|p| - 2];
    if |p| == 2 {
      AncUp(f, t, w);
      ParentIs(t, w);
      EdgeOffers(f, t, w, if t.num[v] < t.num[w] then v else t.parent[w]);
    } else {
      AncSelf(t, v);
      var k := FirstAncestor(t, p, v, |p| - 2);
      forall i | 0 < i < k
        ensures t.num[p[i]] > t.num[p[k]]
      {
        FromLaterAlone(f, t, p, v, k, i);
      }
      PartIsSemiWay(f, t, p, 0, k);
      var c := SemiNoLater(f, t, p[0..k + 1], p[k]);
      AncestorOffers(f, t, w, v, p[k], c);
    }
  }

  lemma SemiWayIs(f: Flow, t: Tree, p: seq<NodeId>, w: NodeId)
    requires SemiWay(f, t, p, w)
    ensures Way(f, t, p) && |p| > 1 && p[|p| - 1] == w && w in t.num
    ensures forall i :: 0 <= i < |p| ==> p[i] in t.num && (0 < i < |p| - 1 ==> t.num[p[i]] > t.num[w])
  {
  }

  lemma ParentIs(t: Tree, w: NodeId)
    requires t.HasParent(w)
    ensures w in t.num && w in t.parent && t.parent[w] in t.num && t.num[t.parent[w]] < t.num[w]
  {
  }

  lemma EdgeOffers(f: Flow, t: Tree, w: NodeId, v: NodeId)
    requires w in t.num && w in f.preds && v in f.preds[w] && v in t.num && t.num[v] < t.num[w]
    ensures Offers(f, t, w, v)
  {
    assert OffersBy(f, t, w, v, v);
  }

  lemma AncestorOffers(f: Flow, t: Tree, w: NodeId, v: NodeId, u: NodeId, c: NodeId)
    requires w in t.num && w in f.preds && v in f.preds[w] && v in t.num && u in t.num && t.num[u] > t.num[w]
    requires t.Anc(u, v) && IsSemi(f, t, c, u)
    ensures Offers(f, t, w, c)
  {
    assert Later(t, w, u, v);
    assert OffersBy(f, t, w, v, c);
  }
}
