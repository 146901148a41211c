/** What becomes of immediate dominators when edges go, and when a node is drawn into another. */
module DominatorChanges {
  import opened Options
  import opened Graphs
  import opened Dominators

  /** The same nodes, and no other edges than `f` has. */
  ghost predicate Within(g: Flow, f: Flow) {
    && f.Valid() && g.Valid() && g.entry == f.entry && g.nodes == f.nodes
    && forall x :: x in f.nodes ==> g.preds[x] <= f.preds[x]
  }

  /** An edge from another node to `h` is gone. */
  ghost predicate Loses(f: Flow, g: Flow, h: NodeId)
    requires Within(g, f)
  {
    h in f.nodes && exists a :: a in f.preds[h] && a !in g.preds[h] && a != h
  }

  /** Node `h` is still reached, and what the map names is still its immediate dominator. */
  ghost predicate StandsAt(g: Flow, dom: Doms, h: NodeId) {
    && g.Reachable(h) && h in dom
    && (h != g.entry ==> dom[h].Some? && IsIdom(g, dom[h].value, h))
  }

  /** Every node that loses an edge, and was reached, stands. */
  ghost predicate LosersStand(f: Flow, g: Flow, dom: Doms)
    requires Within(g, f)
  {
    forall h :: h in dom && Loses(f, g, h) ==> StandsAt(g, dom, h)
  }

  lemma PathOn(f: Flow, p: seq<NodeId>, x: NodeId)
    requires f.IsPath(p) && x in f.nodes && x in f.preds && p[|p| - 1] in f.preds[x]
    ensures f.IsPath(p + [x]) && (p + [x])[0] == p[0] && (p + [x])[|p|] == x
  {
    var q := p + [x];
    forall i | 0 < i < |q|
      ensures q[i] in f.preds && q[i - 1] in f.preds[q[i]]
    {
      if i < |p| { assert q[i] == p[i] && q[i - 1] == p[i - 1]; }
    }
  }

  lemma PathPart(f: Flow, p: seq<NodeId>, n: nat)
    requires f.IsPath(p) && 0 < n <= |p|
    ensures f.IsPath(p[..n]) && p[..n][0] == p[0] && p[..n][n - 1] == p[n - 1]
  {
  }

  lemma LastStep(f: Flow, p: seq<NodeId>)
    requires f.IsPath(p) && |p| > 1
    ensures p[|p| - 1] in f.nodes && p[|p| - 1] in f.preds && p[|p| - 2] in f.preds[p[|p| - 1]]
  {
  }

  lemma LastIs(f: Flow, p: seq<NodeId>)
    requires f.IsPath(p)
    ensures |p| > 0 && p[|p| - 1] in f.nodes
  {
  }

  lemma LosesIf(f: Flow, g: Flow, u: NodeId, x: NodeId)
    requires Within(g, f) && x in f.nodes && u in f.preds[x] && u !in g.preds[x] && u != x
    ensures Loses(f, g, x)
  {
  }

  lemma WithinPath(f: Flow, g: Flow, p: seq<NodeId>)
    requires Within(g, f) && g.IsPath(p)
    ensures f.IsPath(p)
  {
  }

  lemma WithinReach(f: Flow, g: Flow, x: NodeId)
    requires Within(g, f) && g.Reachable(x)
    ensures f.Reachable(x)
  {
    var p :| g.IsPath(p) && p[0] == g.entry && p[|p| - 1] == x;
    WithinPath(f, g, p);
  }

  lemma MapIs(f: Flow, dom: Doms, x: NodeId)
    requires TellsIdoms(f, dom)
    ensures x in dom <==> x in f.nodes && f.Reachable(x)
    ensures x in dom && x != f.entry ==> dom[x].Some? && IsIdom(f, dom[x].value, x)
    ensures f.entry in dom && dom[f.entry] == None
  {
    hide IsIdom, Flow.Reachable;
  }

  /** What is reached stays so if those that lose an edge do. */
  lemma {:induction false} StillReached(f: Flow, g: Flow, dom: Doms, p: seq<NodeId>)
    requires Within(g, f) && TellsIdoms(f, dom) && LosersStand(f, g, dom) && f.IsPath(p) && p[0] == f.entry
    ensures g.Reachable(p[|p| - 1])
    decreases |p|
  {
    hide TellsIdoms, IsIdom;
    var x := p[|p| - 1];
    if |p| == 1 {
      assert g.IsPath([f.entry]);
    } else {
      var u := p[|p| - 2];
      PathPart(f, p, |p| - 1);
      LastStep(f, p);
      StillReached(f, g, dom, p[..|p| - 1]);
      if u in g.preds[x] {
        ReachStep(g, u, x);
      } else if u != x {
        MapIs(f, dom, x);
        LosesIf(f, g, u, x);
      }
    }
  }

  lemma DominatesBefore(g: Flow, d: NodeId, u: NodeId, x: NodeId)
    requires g.Valid() && Dominates(g, d, x) && d != x && x in g.nodes && u in g.preds[x]
    ensures Dominates(g, d, u)
  {
    forall p | g.IsPath(p) && p[0] == g.entry && p[|p| - 1] == u
      ensures d in p
    {
      PathOn(g, p, x);
      assert d in p + [x];
    }
  }

  /** Then nothing dominates that did not before. */
  lemma {:induction false} NoNewDominator(f: Flow, g: Flow, dom: Doms, d: NodeId, p: seq<NodeId>)
    requires Within(g, f) && TellsIdoms(f, dom) && LosersStand(f, g, dom) && f.IsPath(p) && p[0] == f.entry
    requires Dominates(g, d, p[|p| - 1])
    ensures d in p
    decreases |p|
  {
    hide *;
    LastIs(f, p);
    var x := p[|p| - 1];
    WithinIs(f, g);
    if |p| == 1 {
      OnlyItself(g, d);
    } else if d != x {
      var u := p[|p| - 2];
      PathPart(f, p, |p| - 1);
      LastStep(f, p);
      if u in g.preds[x] {
        DominatesBefore(g, d, u, x);
        NoNewDominator(f, g, dom, d, p[..|p| - 1]);
      } else if u == x {
        NoNewDominator(f, g, dom, d, p[..|p| - 1]);
      } else if x == f.entry {
        OnlyItself(g, d);
      } else {
        var e := LoserKeeps(f, g, dom, x, p);
        var i := OnPath(f, e, x, p);
        IdomDominates(g, e, x);
        IdomOver(g, d, e, x);
        PathPart(f, p, i + 1);
        NoNewDominator(f, g, dom, d, p[..i + 1]);
      }
    }
  }

  lemma OnlyItself(g: Flow, d: NodeId)
    requires g.Valid() && Dominates(g, d, g.entry)
    ensures d == g.entry
  {
    assert g.IsPath([g.entry]);
  }

  lemma OnPath(f: Flow, e: NodeId, x: NodeId, p: seq<NodeId>) returns (i: nat)
    requires f.IsPath(p) && p[0] == f.entry && p[|p| - 1] == x && IsIdom(f, e, x)
    ensures i < |p| - 1 && p[i] == e
  {
    assert e in p;
    i :| 0 <= i < |p| && p[i] == e;
  }

  lemma IdomOver(g: Flow, d: NodeId, e: NodeId, x: NodeId)
    requires IsIdom(g, e, x) && Dominates(g, d, x) && d != x
    ensures Dominates(g, d, e)
  {
  }

  /** A node on the path that loses an edge has its old immediate dominator. */
  lemma LoserKeeps(f: Flow, g: Flow, dom: Doms, x: NodeId, p: seq<NodeId>) returns (e: NodeId)
    requires Within(g, f) && TellsIdoms(f, dom) && LosersStand(f, g, dom) && f.IsPath(p) && p[0] == f.entry
    requires |p| > 1 && x == p[|p| - 1] && x in f.nodes && p[|p| - 2] != x && p[|p| - 2] !in g.preds[x]
    ensures x != f.entry ==> IsIdom(f, e, x) && IsIdom(g, e, x)
  {
    hide TellsIdoms, IsIdom;
    MapIs(f, dom, x);
    LastStep(f, p);
    assert f.Reachable(x);
    LosesIf(f, g, p[|p| - 2], x);
    if x != f.entry { e := dom[x].value; } else { e := x; }
  }

  /** The map is right of what is left exactly if it is right at the nodes that lose an edge. */
  lemma EdgesLost(f: Flow, g: Flow, dom: Doms)
    requires Within(g, f) && TellsIdoms(f, dom)
    ensures TellsIdoms(g, dom) <==> LosersStand(f, g, dom)
  {
    hide *;
    WithinIs(f, g);
    if TellsIdoms(g, dom) {
      forall h | h in dom
        ensures StandsAt(g, dom, h)
      {
        MapIs(g, dom, h);
        StandsIf(g, dom, h);
      }
      LosersIf(f, g, dom);
    }
    if LosersStand(f, g, dom) {
      MapIs(f, dom, f.entry);
      forall x
        ensures x in dom <==> x in g.nodes && g.Reachable(x)
        ensures x in dom && x != g.entry ==> dom[x].Some? && IsIdom(g, dom[x].value, x)
      {
        MapIs(f, dom, x);
        StaysSo(f, g, dom, x);
      }
      TellsIf(g, dom);
    }
  }

  lemma WithinIs(f: Flow, g: Flow)
    requires Within(g, f)
    ensures f.Valid() && g.Valid() && g.entry == f.entry && g.nodes == f.nodes && f.entry in f.nodes
  {
  }

  lemma StandsIf(g: Flow, dom: Doms, h: NodeId)
    requires g.Reachable(h) && h in dom && (h != g.entry ==> dom[h].Some? && IsIdom(g, dom[h].value, h))
    ensures StandsAt(g, dom, h)
  {
  }

  lemma LosersIf(f: Flow, g: Flow, dom: Doms)
    requires Within(g, f) && forall h :: h in dom ==> StandsAt(g, dom, h)
    ensures LosersStand(f, g, dom)
  {
    hide StandsAt, Loses;
  }

  lemma StaysSo(f: Flow, g: Flow, dom: Doms, x: NodeId)
    requires Within(g, f) && TellsIdoms(f, dom) && LosersStand(f, g, dom)
    requires x in dom <==> x in f.nodes && f.Reachable(x)
    requires x in dom && x != f.entry ==> dom[x].Some? && IsIdom(f, dom[x].value, x)
    ensures x in g.nodes && g.Reachable(x) <==> x in dom
    ensures x in dom && x != g.entry ==> IsIdom(g, dom[x].value, x)
  {
    if x in dom {
      var p :| f.IsPath(p) && p[0] == f.entry && p[|p| - 1] == x;
      StillReached(f, g, dom, p);
      if x != f.entry { IdomStays(f, g, dom, dom[x].value, x); }
    } else if g.Reachable(x) {
      WithinReach(f, g, x);
    }
  }

  lemma IdomStays(f: Flow, g: Flow, dom: Doms, d: NodeId, x: NodeId)
    requires Within(g, f) && TellsIdoms(f, dom) && LosersStand(f, g, dom) && IsIdom(f, d, x)
    ensures IsIdom(g, d, x)
  {
    hide TellsIdoms, LosersStand;
    DominatesWithin(f, g, d, x);
    forall e | e != x && Dominates(g, e, x)
      ensures Dominates(g, e, d)
    {
      forall p | f.IsPath(p) && p[0] == f.entry && p[|p| - 1] == x
        ensures e in p
      {
        NoNewDominator(f, g, dom, e, p);
      }
      assert Dominates(f, e, x);
      DominatesWithin(f, g, e, d);
    }
  }

  lemma DominatesWithin(f: Flow, g: Flow, d: NodeId, x: NodeId)
    requires Within(g, f) && Dominates(f, d, x)
    ensures Dominates(g, d, x)
  {
    forall p | g.IsPath(p) && p[0] == g.entry && p[|p| - 1] == x
      ensures d in p
    {
      WithinPath(f, g, p);
    }
  }

  /** The name of a node after `n1` and `n2` became `m`. */
  function Renamed(n1: NodeId, n2: NodeId, m: NodeId, x: NodeId): NodeId {
    if x == n1 || x == n2 then m else x
  }

  /** `c` is `f` with `n1` and `n2` drawn into one node `m`. */
  ghost predicate DrawnTogether(f: Flow, c: Flow, n1: NodeId, n2: NodeId, m: NodeId) {
    && f.Valid() && c.Valid() && n1 in f.nodes && n2 in f.nodes && n1 != n2 && m !in f.nodes
    && c.nodes == f.nodes - {n1, n2} + {m} && c.entry == Renamed(n1, n2, m, f.entry)
    && (forall x, y :: y in f.nodes && x in f.preds[y] ==> Renamed(n1, n2, m, x) in c.preds[Renamed(n1, n2, m, y)])
    && forall x', y' :: y' in c.nodes && x' in c.preds[y'] ==> EdgeBehind(f, n1, n2, m, x', y')
  }

  ghost predicate EdgeBehind(f: Flow, n1: NodeId, n2: NodeId, m: NodeId, x': NodeId, y': NodeId)
    requires f.Valid()
  {
    exists x, y :: y in f.nodes && x in f.preds[y] && Renamed(n1, n2, m, x) == x' && Renamed(n1, n2, m, y) == y'
  }

  /** The node that stands for a node of the smaller flow. */
  function Back(n1: NodeId, m: NodeId, x': NodeId): NodeId {
    if x' == m then n1 else x'
  }

  /** What a path of the smaller flow passes, a path of the larger one passes. */
  ghost predicate Shadows(n1: NodeId, n2: NodeId, m: NodeId, p: seq<NodeId>, q: seq<NodeId>) {
    forall d' :: d' in q ==> if d' == m then n1 in p || n2 in p else d' in p
  }

  lemma {:induction false} Shrinks(f: Flow, c: Flow, n1: NodeId, n2: NodeId, m: NodeId, p: seq<NodeId>)
    returns (q: seq<NodeId>)
    requires DrawnTogether(f, c, n1, n2, m) && f.IsPath(p) && p[0] == f.entry
    ensures c.IsPath(q) && q[0] == c.entry && q[|q| - 1] == Renamed(n1, n2, m, p[|p| - 1])
    ensures Shadows(n1, n2, m, p, q)
    decreases |p|
  {
    var x := p[|p| - 1];
    if |p| == 1 {
      q := [c.entry];
      assert c.IsPath(q);
    } else {
      var r := p[..|p| - 1];
      PathPart(f, p, |p| - 1);
      q := Shrinks(f, c, n1, n2, m, r);
      assert forall z :: z in r ==> z in p;
      PathOn(c, q, Renamed(n1, n2, m, x));
      q := q + [Renamed(n1, n2, m, x)];
    }
  }

  /** Some path leads to `x` without `d`. */
  ghost predicate Avoids(f: Flow, d: NodeId, x: NodeId) {
    exists p :: f.IsPath(p) && p[0] == f.entry && p[|p| - 1] == x && d !in p
  }

  lemma AvoidsIs(f: Flow, d: NodeId, x: NodeId)
    ensures Avoids(f, d, x) <==> !Dominates(f, d, x)
  {
  }

  lemma AvoidsOn(f: Flow, d: NodeId, u: NodeId, x: NodeId)
    requires f.Valid() && Avoids(f, d, u) && x in f.nodes && u in f.preds[x] && d != x
    ensures Avoids(f, d, x)
  {
    var p :| f.IsPath(p) && p[0] == f.entry && p[|p| - 1] == u && d !in p;
    PathOn(f, p, x);
    assert d !in p + [x];
  }

  /** What avoids `d` on the way to a node avoids it on the way to all that dominate the node. */
  lemma AvoidsUp(f: Flow, d: NodeId, a: NodeId, x: NodeId)
    requires Avoids(f, d, x) && Dominates(f, a, x)
    ensures Avoids(f, d, a)
  {
    var p :| f.IsPath(p) && p[0] == f.entry && p[|p| - 1] == x && d !in p;
    var i :| 0 <= i < |p| && p[i] == a;
    PathPart(f, p, i + 1);
  }

  /** And, if it does not dominate it, on to a node whose immediate dominator this is. */
  lemma AvoidsDown(f: Flow, d: NodeId, a: NodeId, x: NodeId)
    requires Avoids(f, d, a) && IsIdom(f, a, x) && d != x
    ensures Avoids(f, d, x)
  {
    AvoidsIs(f, d, a);
    AvoidsIs(f, d, x);
  }

  lemma {:induction false} Grows(f: Flow, c: Flow, n1: NodeId, n2: NodeId, m: NodeId, q: seq<NodeId>, d: NodeId)
    requires DrawnTogether(f, c, n1, n2, m) && IsIdom(f, n1, n2) && f.entry != n2 && c.IsPath(q) && q[0] == c.entry
    requires d != n2 && Renamed(n1, n2, m, d) !in q
    ensures Avoids(f, d, Back(n1, m, q[|q| - 1]))
    decreases |q|
  {
    hide IsIdom, Avoids;
    var y' := q[|q| - 1];
    if |q| == 1 {
      AvoidsEntry(f, d);
    } else {
      var r := q[..|q| - 1];
      PathPart(c, q, |q| - 1);
      Grows(f, c, n1, n2, m, r, d);
      EdgeGrows(f, c, n1, n2, m, r[|r| - 1], y', d);
    }
  }

  lemma AvoidsEntry(f: Flow, d: NodeId)
    requires f.Valid() && d != f.entry
    ensures Avoids(f, d, f.entry)
  {
    assert f.IsPath([f.entry]);
  }

  lemma EdgeGrows(f: Flow, c: Flow, n1: NodeId, n2: NodeId, m: NodeId, x': NodeId, y': NodeId, d: NodeId)
    requires DrawnTogether(f, c, n1, n2, m) && IsIdom(f, n1, n2) && y' in c.nodes && x' in c.preds[y']
    requires d != n2 && Renamed(n1, n2, m, d) != x' && Renamed(n1, n2, m, d) != y'
    requires Avoids(f, d, Back(n1, m, x'))
    ensures Avoids(f, d, Back(n1, m, y'))
  {
    assert EdgeBehind(f, n1, n2, m, x', y');
    var x, y :| y in f.nodes && x in f.preds[y] && Renamed(n1, n2, m, x) == x' && Renamed(n1, n2, m, y) == y';
    assert x' in c.nodes && m !in f.nodes;
    hide DrawnTogether, IsIdom, Avoids, Dominates;
    if x == n2 { AvoidsDown(f, d, n1, n2); }
    AvoidsOn(f, d, x, y);
    if y == n2 {
      IdomDominates(f, n1, n2);
      AvoidsUp(f, d, n1, n2);
    }
  }

  lemma IdomDominates(f: Flow, d: NodeId, x: NodeId)
    requires IsIdom(f, d, x)
    ensures d != x && Dominates(f, d, x)
  {
  }

  /** Dominance is the same before and after. */
  lemma SameDominance(f: Flow, c: Flow, n1: NodeId, n2: NodeId, m: NodeId, d': NodeId, x': NodeId)
    requires DrawnTogether(f, c, n1, n2, m) && IsIdom(f, n1, n2) && f.entry != n2 && d' in c.nodes && x' in c.nodes
    ensures Dominates(c, d', x') <==> Dominates(f, Back(n1, m, d'), Back(n1, m, x'))
  {
    var d, x := Back(n1, m, d'), Back(n1, m, x');
    if Dominates(c, d', x') {
      forall p | f.IsPath(p) && p[0] == f.entry && p[|p| - 1] == x
        ensures d in p
      {
        var q := Shrinks(f, c, n1, n2, m, p);
        assert d' in q;
        if d' == m && n2 in p { Passes(f, n1, n2, p); }
      }
    }
    if Dominates(f, d, x) {
      forall q | c.IsPath(q) && q[0] == c.entry && q[|q| - 1] == x'
        ensures d' in q
      {
        if d' !in q { Grows(f, c, n1, n2, m, q, d); }
      }
    }
  }

  /** A path over `x` passes what dominates it. */
  lemma Passes(f: Flow, d: NodeId, x: NodeId, p: seq<NodeId>)
    requires f.IsPath(p) && p[0] == f.entry && x in p && IsIdom(f, d, x)
    ensures d in p
  {
    var i :| 0 <= i < |p| && p[i] == x;
    PathPart(f, p, i + 1);
    assert d in p[..i + 1];
  }

  lemma SameReach(f: Flow, c: Flow, n1: NodeId, n2: NodeId, m: NodeId, x': NodeId)
    requires DrawnTogether(f, c, n1, n2, m) && IsIdom(f, n1, n2) && f.entry != n2 && x' in c.nodes
    ensures c.Reachable(x') <==> f.Reachable(Back(n1, m, x'))
  {
    if f.Reachable(Back(n1, m, x')) {
      var p :| f.IsPath(p) && p[0] == f.entry && p[|p| - 1] == Back(n1, m, x');
      var q := Shrinks(f, c, n1, n2, m, p);
    }
    if c.Reachable(x') {
      var q :| c.IsPath(q) && q[0] == c.entry && q[|q| - 1] == x';
      var d := NotOn(q, m, f.nodes);
      Grows(f, c, n1, n2, m, q, d);
    }
  }

  /** Some id is used nowhere. */
  lemma NotOn(q: seq<NodeId>, m: NodeId, s: set<NodeId>) returns (d: NodeId)
    ensures d !in q && d != m && d !in s
  {
    var all := s + (set x | x in q) + {m};
    d := Above(all);
    assert d !in all && forall x :: x in q ==> x in all;
  }

  lemma {:induction false} Above(s: set<NodeId>) returns (d: NodeId)
    ensures forall x :: x in s ==> x < d
  {
    if s == {} {
      d := 0;
    } else {
      var x :| x in s;
      var e := Above(s - {x});
      assert s == s - {x} + {x};
      d := if e > x then e else x + 1;
    }
  }

  /** The map after drawing together: `m` takes over what `n1` had. */
  function DrawnMap(dom: Doms, n1: NodeId, n2: NodeId, m: NodeId): Doms {
    map x' | x' in dom.Keys - {n1, n2} + {m} :: RenamedTo(if x' == m then Entry(dom, n1) else dom[x'], n1, n2, m)
  }

  function Entry(dom: Doms, x: NodeId): Option<NodeId> {
    if x in dom then dom[x] else None
  }

  function RenamedTo(o: Option<NodeId>, n1: NodeId, n2: NodeId, m: NodeId): Option<NodeId> {
    if o.Some? then Some(Renamed(n1, n2, m, o.value)) else None
  }

  /** A node drawn into its immediate dominator leaves all immediate dominators as they were. */
  lemma DrawnTells(f: Flow, c: Flow, n1: NodeId, n2: NodeId, m: NodeId, dom: Doms)
    requires DrawnTogether(f, c, n1, n2, m) && TellsIdoms(f, dom) && n2 in dom && dom[n2] == Some(n1)
    ensures TellsIdoms(c, DrawnMap(dom, n1, n2, m))
  {
    hide *;
    DrawnIs(f, c, n1, n2, m);
    MapIs(f, dom, n2);
    MapIs(f, dom, f.entry);
    IdomReached(f, n1, n2);
    MapIs(f, dom, n1);
    var dom' := DrawnMap(dom, n1, n2, m);
    forall x': NodeId
      ensures x' in dom' <==> x' in c.nodes && c.Reachable(x')
      ensures x' in dom' && x' != c.entry ==> dom'[x'].Some? && IsIdom(c, dom'[x'].value, x')
      ensures c.entry in dom' && dom'[c.entry] == None
    {
      DrawnKeys(dom, n1, n2, m);
      BackIs(n1, m, x');
      MapIs(f, dom, if x' == m then n1 else x');
      BackIs(n1, m, c.entry);
      RenamedIs(n1, n2, m, f.entry);
      if x' in c.nodes {
        SameReach(f, c, n1, n2, m, x');
        if x' in dom' && x' != c.entry {
          IdomDrawn(f, c, n1, n2, m, dom[Back(n1, m, x')].value, x');
        }
      }
    }
    TellsIf(c, dom');
  }

  lemma BackIs(n1: NodeId, m: NodeId, x': NodeId)
    ensures Back(n1, m, x') == if x' == m then n1 else x'
  {
  }

  lemma RenamedIs(n1: NodeId, n2: NodeId, m: NodeId, x: NodeId)
    ensures Renamed(n1, n2, m, x) == if x == n1 || x == n2 then m else x
  {
  }

  lemma DrawnIs(f: Flow, c: Flow, n1: NodeId, n2: NodeId, m: NodeId)
    requires DrawnTogether(f, c, n1, n2, m)
    ensures f.Valid() && c.Valid() && n1 in f.nodes && n2 in f.nodes && n1 != n2 && m !in f.nodes
    ensures c.nodes == f.nodes - {n1, n2} + {m} && c.entry == Renamed(n1, n2, m, f.entry)
    ensures f.entry in f.nodes && c.entry in c.nodes
  {
  }

  lemma DrawnKeys(dom: Doms, n1: NodeId, n2: NodeId, m: NodeId)
    ensures var dom' := DrawnMap(dom, n1, n2, m);
      && dom'.Keys == dom.Keys - {n1, n2} + {m}
      && forall x' :: x' in dom' ==>
        dom'[x'] == RenamedTo(Entry(dom, Back(n1, m, x')), n1, n2, m)
        && (Back(n1, m, x') in dom ==> Entry(dom, Back(n1, m, x')) == dom[Back(n1, m, x')])
    ensures forall o: Option<NodeId> ::
      RenamedTo(o, n1, n2, m) == (if o.Some? then Some(Renamed(n1, n2, m, o.value)) else None)
  {
  }

  lemma IdomReached(f: Flow, d: NodeId, x: NodeId)
    requires IsIdom(f, d, x) && f.Reachable(x)
    ensures f.Reachable(d) && d in f.nodes
  {
    var p :| f.IsPath(p) && p[0] == f.entry && p[|p| - 1] == x;
    var i :| 0 <= i < |p| && p[i] == d;
    PathPart(f, p, i + 1);
  }

  lemma IdomDrawn(f: Flow, c: Flow, n1: NodeId, n2: NodeId, m: NodeId, d: NodeId, x': NodeId)
    requires DrawnTogether(f, c, n1, n2, m) && IsIdom(f, n1, n2) && f.entry != n2 && x' in c.nodes
    requires IsIdom(f, d, Back(n1, m, x')) && f.Reachable(Back(n1, m, x')) && f.Reachable(n2)
    ensures IsIdom(c, Renamed(n1, n2, m, d), x')
  {
    hide *;
    var x, d' := Back(n1, m, x'), Renamed(n1, n2, m, d);
    BackIs(n1, m, x');
    RenamedIs(n1, n2, m, d);
    DrawnIs(f, c, n1, n2, m);
    IdomReached(f, d, x);
    IdomDominates(f, d, x);
    SecondBelow(f, n1, n2, d, x);
    BackIs(n1, m, d');
    SameDominance(f, c, n1, n2, m, d', x');
    SameReach(f, c, n1, n2, m, x');
    forall e' | e' != x' && Dominates(c, e', x')
      ensures Dominates(c, e', d')
    {
      DominatorOn(c, e', x');
      BackIs(n1, m, e');
      SameDominance(f, c, n1, n2, m, e', x');
      IdomOver(f, Back(n1, m, e'), d, x);
      SecondBelow(f, n1, n2, d, Back(n1, m, e'));
      SameDominance(f, c, n1, n2, m, e', d');
    }
    IdomIf(c, d', x');
  }

  lemma IdomIf(f: Flow, d: NodeId, x: NodeId)
    requires d != x && Dominates(f, d, x) && forall e :: e != x && Dominates(f, e, x) ==> Dominates(f, e, d)
    ensures IsIdom(f, d, x)
  {
    hide Dominates;
  }

  lemma DominatorOn(c: Flow, e: NodeId, x: NodeId)
    requires c.Reachable(x) && Dominates(c, e, x)
    ensures e in c.nodes
  {
    var p :| c.IsPath(p) && p[0] == c.entry && p[|p| - 1] == x;
    assert e in p;
  }

  /** Where the second dominates, the first does, and what dominates the second the first. */
  lemma SecondBelow(f: Flow, n1: NodeId, n2: NodeId, d: NodeId, x: NodeId)
    requires IsIdom(f, n1, n2) && f.Reachable(n2)
    ensures Dominates(f, n2, x) ==> Dominates(f, n1, x)
    ensures Dominates(f, x, n2) && x != n2 ==> Dominates(f, x, n1)
    ensures !Dominates(f, n2, n1)
  {
    if Dominates(f, n2, x) {
      forall p | f.IsPath(p) && p[0] == f.entry && p[|p| - 1] == x
        ensures n1 in p
      {
        Passes(f, n1, n2, p);
      }
    }
    IdomReached(f, n1, n2);
    var p :| f.IsPath(p) && p[0] == f.entry && p[|p| - 1] == n1;
    NotBoth(f, n1, n2, p);
  }
}
