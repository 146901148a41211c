/** What an interval partition means for the graph it was computed from. */
module IntervalLaws {
  import opened Options
  import opened Graphs
  import opened IntervalAnalysis

  lemma IntervalAt(f: Flow, p: Partition, i: nat)
    requires f.Valid() && Divides(f, p) && i < |p.orders|
    ensures |p.edges| == |p.orders|
    ensures Absorbs(f, p.orders[i]) && Saturated(f, p.orders[i])
    ensures |p.orders[i]| > 0 && p.orders[i][0] in p.orders[i] && p.orders[i][0] in f.nodes
    ensures i == 0 ==> p.orders[i][0] == f.entry
    ensures i > 0 ==> EnteredEarlier(p, i)
  {
  }

  lemma NoOverlap(f: Flow, p: Partition, i: nat, j: nat, n: NodeId)
    requires f.Valid() && Divides(f, p) && i < |p.orders| && j < |p.orders|
    requires n in p.orders[i] && n in p.orders[j]
    ensures i == j
  {
    assert i < j ==> Apart(p.orders[i], p.orders[j]);
    assert j < i ==> Apart(p.orders[j], p.orders[i]);
  }

  lemma EdgeCrosses(f: Flow, p: Partition, i: nat, h: NodeId)
    requires f.Valid() && Divides(f, p) && i < |p.edges| && h in p.edges[i]
    ensures |p.edges| == |p.orders| && Crosses(f, p.orders[i], h) && p.IsHead(h)
  {
  }

  ghost predicate OnlyIn(p: Partition, i: NodeId, n: NodeId) {
    i < |p.orders| && n in p.orders[i] && forall j :: 0 <= j < |p.orders| && n in p.orders[j] ==> j == i
  }

  /** Every node lies in exactly one interval. */
  lemma ExactlyOneInterval(f: Flow, p: Partition, n: NodeId)
    requires f.Valid() && Divides(f, p) && n in f.nodes
    ensures exists i :: OnlyIn(p, i, n)
  {
    assert p.Covers(n);
    hide Divides;
    var i: nat :| i < |p.orders| && n in p.orders[i];
    forall j | 0 <= j < |p.orders| && n in p.orders[j]
      ensures j == i
    {
      NoOverlap(f, p, i, j, n);
    }
    assert OnlyIn(p, i, n);
  }

  /** The header dominates its interval: every path from the entry to a member passes
      through the header and stays inside the interval from there on. */
  lemma {:induction false} HeaderDominates(f: Flow, p: Partition, i: nat, path: seq<NodeId>) returns (t: nat)
    requires f.Valid() && Divides(f, p) && i < |p.orders|
    requires f.IsPath(path) && path[0] == f.entry && path[|path| - 1] in p.orders[i]
    ensures t < |path| && |p.orders[i]| > 0 && path[t] == p.orders[i][0]
    ensures forall u :: t <= u < |path| ==> path[u] in p.orders[i]
  {
    hide Divides, Absorbs, Saturated;
    t := |path| - 1;
    var n := path[t];
    IntervalAt(f, p, i);
    if n != p.orders[i][0] {
      MemberOf(f, p.orders[i], n);
      var shorter := path[..t];
      assert shorter[t - 1] == path[t - 1];
      t := HeaderDominates(f, p, i, shorter);
    }
  }

  lemma MemberOf(f: Flow, order: seq<NodeId>, n: NodeId)
    requires f.Valid() && Absorbs(f, order) && n in order && n != order[0]
    ensures n in f.nodes && n != f.entry && forall q :: q in f.preds[n] ==> q in order
  {
    MemberPreds(f, order, n);
  }

  /** Where `n` stands in the absorption order. */
  ghost function Position(order: seq<NodeId>, n: NodeId): (k: nat)
    requires n in order
    ensures k < |order| && order[k] == n
  {
    var k :| 0 <= k < |order| && order[k] == n;
    k
  }

  lemma PositionDrops(f: Flow, order: seq<NodeId>, a: NodeId, b: NodeId)
    requires f.Valid() && Absorbs(f, order) && b in order && b != order[0] && b in f.nodes && a in f.preds[b]
    ensures a in order && Position(order, a) < Position(order, b)
  {
    var kb := Position(order, b);
    assert AbsorbedAt(f, order, kb);
    assert a in order[..kb];
    var j :| 0 <= j < kb && order[j] == a;
    FirstPosition(f, order, j);
  }

  lemma FirstPosition(f: Flow, order: seq<NodeId>, j: nat)
    requires f.Valid() && Absorbs(f, order) && j < |order|
    ensures Position(order, order[j]) <= j
  {
    var k := Position(order, order[j]);
    assert k > 0 ==> AbsorbedAt(f, order, k);
    if j < k { NotEarlier(order, j, k); }
  }

  lemma NotEarlier(order: seq<NodeId>, j: nat, k: nat)
    requires j < k < |order| && order[k] !in order[..k]
    ensures order[j] != order[k]
  {
    assert order[..k][j] == order[j];
  }

  lemma {:induction false} PositionsRise(f: Flow, order: seq<NodeId>, c: seq<NodeId>)
    requires f.Valid() && Absorbs(f, order) && f.IsPath(c)
    requires forall u :: 0 <= u < |c| ==> c[u] in order
    requires order[0] !in c[1..]
    ensures |c| > 1 ==> Position(order, c[0]) < Position(order, c[|c| - 1])
  {
    if |c| > 1 {
      var last := |c| - 1;
      assert c[last] == c[1..][last - 1];
      PositionDrops(f, order, c[last - 1], c[last]);
      var d := c[..last];
      assert f.IsPath(d);
      assert forall x :: x in d[1..] ==> x in c[1..] by {
        assert c[1..] == d[1..] + [c[last]];
      }
      PositionsRise(f, order, d);
    }
  }

  /** A cycle that stays inside one interval passes through its header. */
  lemma CycleThroughHeader(f: Flow, p: Partition, i: nat, c: seq<NodeId>)
    requires f.Valid() && Divides(f, p) && i < |p.orders|
    requires f.IsPath(c) && |c| > 1 && c[0] == c[|c| - 1]
    requires forall u :: 0 <= u < |c| ==> c[u] in p.orders[i]
    ensures p.orders[i][0] in c
  {
    var order := p.orders[i];
    assert Absorbs(f, order);
    if order[0] !in c {
      assert forall x :: x in c[1..] ==> x in c;
      PositionsRise(f, order, c);
    }
  }

  lemma AllInside(f: Flow, order: seq<NodeId>, n: NodeId)
    requires f.Valid() && Saturated(f, order) && n in f.nodes && n != f.entry && !HasPredOutside(f, order, n)
    ensures n in order
  {
  }

  /** An interval is the largest set its header can absorb, in whatever order. */
  lemma {:induction false} IntervalIsMaximal(f: Flow, p: Partition, i: nat, other: seq<NodeId>, k: nat)
    requires f.Valid() && Divides(f, p) && i < |p.orders|
    requires Absorbs(f, other) && other[0] == p.orders[i][0] && k < |other|
    ensures forall j :: 0 <= j <= k ==> other[j] in p.orders[i]
  {
    hide Divides;
    IntervalAt(f, p, i);
    if k > 0 {
      IntervalIsMaximal(f, p, i, other, k - 1);
      assert AbsorbedAt(f, other, k);
      AllInside(f, p.orders[i], other[k]);
    }
  }

  /** So the partition does not depend on the order in which nodes were visited. */
  lemma IntervalsAreUnique(f: Flow, p: Partition, q: Partition, i: nat, j: nat)
    requires f.Valid() && Divides(f, p) && Divides(f, q) && i < |p.orders| && j < |q.orders|
    requires |p.orders[i]| > 0 && |q.orders[j]| > 0 && p.orders[i][0] == q.orders[j][0]
    ensures forall n :: n in p.orders[i] <==> n in q.orders[j]
  {
    hide Divides, Absorbs, Saturated;
    IntervalAt(f, p, i);
    IntervalAt(f, q, j);
    IntervalIsMaximal(f, p, i, q.orders[j], |q.orders[j]| - 1);
    IntervalIsMaximal(f, q, j, p.orders[i], |p.orders[i]| - 1);
  }

  /** Every header of one partition heads an interval of the other. */
  lemma {:induction false} HeadIsHead(f: Flow, p: Partition, q: Partition, j: nat)
    requires f.Valid() && Divides(f, p) && Divides(f, q) && j < |p.orders|
    ensures |p.orders[j]| > 0 && q.IsHead(p.orders[j][0])
    decreases j
  {
    hide Divides, Absorbs, Saturated, Partition.IsHead;
    IntervalAt(f, p, j);
    if j == 0 {
      FirstHeads(f, p);
      FirstHeads(f, q);
    } else {
      var i: nat :| i < j && p.orders[j][0] in p.edges[i];
      EdgeCrosses(f, p, i, p.orders[j][0]);
      HeadIsHead(f, p, q, i);
      CrossedIsHead(f, p, q, i, p.orders[j][0]);
    }
  }

  lemma FirstHeads(f: Flow, q: Partition)
    requires f.Valid() && Divides(f, q)
    ensures |q.orders| > 0 && |q.orders[0]| > 0 && q.orders[0][0] == f.entry && q.IsHead(f.entry)
  {
    assert Linked(f, q);
  }

  /** A node that an interval leads to without holding it lies in no other interval except
      as its header. */
  lemma CrossedIsHead(f: Flow, p: Partition, q: Partition, i: nat, h: NodeId)
    requires f.Valid() && Divides(f, p) && Divides(f, q) && i < |p.orders| && |p.orders[i]| > 0
    requires Crosses(f, p.orders[i], h) && q.IsHead(p.orders[i][0])
    ensures q.IsHead(h)
  {
    hide Divides;
    var k: nat :| k < |q.orders| && |q.orders[k]| > 0 && q.orders[k][0] == p.orders[i][0];
    IntervalsAreUnique(f, p, q, i, k);
    var m := Holder(f, q, h);
    CrossedHeads(f, q, p.orders[i], k, m, h);
  }

  lemma Holder(f: Flow, q: Partition, h: NodeId) returns (m: nat)
    requires f.Valid() && Divides(f, q) && h in f.nodes
    ensures m < |q.orders| && h in q.orders[m]
  {
    assert q.Covers(h);
    hide Divides;
    m :| 0 <= m < |q.orders| && h in q.orders[m];
  }

  lemma CrossedHeads(f: Flow, q: Partition, order: seq<NodeId>, k: nat, m: nat, h: NodeId)
    requires f.Valid() && Divides(f, q) && Crosses(f, order, h)
    requires k < |q.orders| && m < |q.orders| && SameMembers(order, q.orders[k]) && h in q.orders[m]
    ensures q.IsHead(h)
  {
    hide Divides, Absorbs, Saturated;
    IntervalAt(f, q, m);
    if h != q.orders[m][0] {
      MemberPreds(f, q.orders[m], h);
      var a :| a in f.preds[h] && a in order;
      NoOverlap(f, q, k, m, a);
    }
  }

  /** A graph has one partition: any two have the same headers, and with IntervalsAreUnique
      the same intervals. */
  lemma PartitionIsUnique(f: Flow, p: Partition, q: Partition)
    requires f.Valid() && Divides(f, p) && Divides(f, q)
    ensures forall n :: p.IsHead(n) <==> q.IsHead(n)
    ensures forall i: nat :: i < |p.orders| ==> Matches(p.orders[i], q)
  {
    hide Divides;
    forall n ensures p.IsHead(n) <==> q.IsHead(n) {
      if p.IsHead(n) {
        var i: nat :| i < |p.orders| && |p.orders[i]| > 0 && p.orders[i][0] == n;
        HeadIsHead(f, p, q, i);
      }
      if q.IsHead(n) {
        var j: nat :| j < |q.orders| && |q.orders[j]| > 0 && q.orders[j][0] == n;
        HeadIsHead(f, q, p, j);
      }
    }
    forall i: nat | i < |p.orders| ensures Matches(p.orders[i], q) {
      HeadIsHead(f, p, q, i);
      var j: nat :| j < |q.orders| && |q.orders[j]| > 0 && q.orders[j][0] == p.orders[i][0];
      IntervalsAreUnique(f, p, q, i, j);
      assert SameMembers(p.orders[i], q.orders[j]);
    }
  }

  /** Some interval of the partition has these members. */
  ghost predicate Matches(order: seq<NodeId>, q: Partition) {
    exists j: nat :: j < |q.orders| && SameMembers(order, q.orders[j])
  }

  ghost predicate SameMembers(a: seq<NodeId>, b: seq<NodeId>) {
    forall n :: n in a <==> n in b
  }

  lemma DerivedFlowValid(p: Partition)
    requires |p.orders| > 0
    ensures DerivedFlow(p).Valid()
  {
    var d := DerivedFlow(p);
    forall j | j in d.nodes
      ensures d.preds[j] <= d.nodes
    {
    }
  }

  /** Every interval is reachable from the entry interval along recorded edges. */
  lemma {:induction false} IntervalReachable(f: Flow, p: Partition, j: nat)
    requires f.Valid() && Divides(f, p) && j < |p.orders|
    ensures DerivedFlow(p).Valid() && DerivedFlow(p).Reachable(j)
  {
    hide Divides, Absorbs, Saturated, Flow.Reachable;
    DerivedFlowValid(p);
    IntervalAt(f, p, j);
    if j == 0 {
      EntryReachable(DerivedFlow(p));
    } else {
      var i: NodeId :| i < j && p.orders[j][0] in p.edges[i];
      IntervalReachable(f, p, i);
      assert Recorder(p, i, j);
      ReachStep(DerivedFlow(p), i, j);
    }
  }

  lemma EntryReachable(f: Flow)
    requires f.Valid()
    ensures f.Reachable(f.entry)
  {
    assert f.IsPath([f.entry]);
  }

  /** The derived graph object shows exactly the derived flow, and is fully reachable. */
  lemma DerivedGraph(f: Flow, p: Partition, g: Graph)
    requires f.Valid() && Divides(f, p) && Derives(g, p)
    ensures Shows(g, DerivedFlow(p)) && DerivedFlow(p).AllReachable()
    ensures g.ToFlow() == DerivedFlow(p)
  {
    assert |p.orders| > 0;
    hide Flow.Reachable, Divides;
    var d := DerivedFlow(p);
    DerivedFlowValid(p);
    forall j | j in d.nodes
      ensures d.Reachable(j)
    {
      IntervalReachable(f, p, j);
    }
    DerivedShows(p, g);
    SameFlow(g, d);
  }

  lemma DerivedShows(p: Partition, g: Graph)
    requires |p.orders| > 0 && Derives(g, p) && DerivedFlow(p).Valid()
    ensures Shows(g, DerivedFlow(p))
  {
    forall n, q | n in DerivedFlow(p).nodes
      ensures q in g.AllPreds(n) <==> q in DerivedFlow(p).preds[n]
    {
      assert Edge(g.edges, q, n) <==> Edge(g.reverseEdges, n, q);
      assert Edge(g.catchEdges, q, n) <==> Edge(g.reverseCatchEdges, n, q);
    }
  }

  lemma SameFlow(g: Graph, d: Flow)
    requires Shows(g, d) && g.Valid()
    ensures g.ToFlow() == d
  {
    assert d.preds.Keys == d.nodes && g.entry == Some(d.entry);
    hide Flow.Valid, Mirror, Graph.Valid, Graph.Tables;
    var t := g.ToFlow();
    assert t.nodes == d.nodes;
    forall n | n in d.nodes
      ensures t.preds[n] == d.preds[n]
    {
      assert t.preds[n] == set p | p in g.AllPreds(n);
    }
  }

  /** Some node other than the entry has one predecessor, and that one is another node. */
  ghost predicate HasLonePred(f: Flow)
    requires f.Valid()
  {
    exists n, q :: LonePred(f, n, q)
  }

  ghost predicate LonePred(f: Flow, n: NodeId, q: NodeId)
    requires f.Valid()
  {
    n in f.nodes && n != f.entry && f.preds[n] == {q} && q != n
  }

  /** The interval created last is entered from one interval only. */
  lemma LastHasLonePred(f: Flow, p: Partition)
    requires f.Valid() && Divides(f, p) && |p.orders| > 1
    ensures DerivedFlow(p).Valid() && HasLonePred(DerivedFlow(p))
  {
    var last := |p.orders| - 1;
    assert OnePred(p, last);
    hide Divides, Absorbs, Saturated;
    IntervalAt(f, p, last);
    DerivedFlowValid(p);
    var i: NodeId :| OnlyFrom(p, p.orders[last][0], i);
    EdgeCrosses(f, p, i, p.orders[last][0]);
    DerivedPreds(p, last, i);
    assert LonePred(DerivedFlow(p), last, i);
  }

  lemma DerivedPreds(p: Partition, j: NodeId, i: NodeId)
    requires |p.orders| == |p.edges| && j < |p.orders| && |p.orders[j]| > 0 && OnlyFrom(p, p.orders[j][0], i)
    ensures DerivedFlow(p).preds[j] == {i}
  {
    forall k: NodeId
      ensures k in DerivedFlow(p).preds[j] <==> k == i
    {
      assert Recorder(p, k, j) <==> k < |p.edges| && p.orders[j][0] in p.edges[k];
      assert k in DerivedFlow(p).preds[j] <==> k in Below(|p.orders|) && Recorder(p, k, j);
    }
  }

  lemma LoneAbsorbed(f: Flow, order: seq<NodeId>, n: NodeId, q: NodeId)
    requires f.Valid() && LonePred(f, n, q) && HasPredInside(f, order, n) && Saturated(f, order)
    ensures n in order
  {
    AllInside(f, order, n);
  }

  /** A node with a lone predecessor is absorbed with it, so it heads no interval. */
  lemma LonePredIsNoHead(f: Flow, p: Partition, n: NodeId, q: NodeId)
    requires f.Valid() && Divides(f, p) && LonePred(f, n, q)
    ensures !p.IsHead(n)
  {
    if p.IsHead(n) {
      var j :| 0 <= j < |p.orders| && |p.orders[j]| > 0 && p.orders[j][0] == n;
      hide Divides;
      IntervalAt(f, p, j);
      var i :| 0 <= i < j && n in p.edges[i];
      EdgeCrosses(f, p, i, n);
      IntervalAt(f, p, i);
      LoneAbsorbed(f, p.orders[i], n, q);
    }
  }

  /** Why every node must be reachable: one without predecessors, the entry aside, is
      absorbed by every interval, so from two intervals on they are no partition. */
  lemma OrphanSpoilsPartition(f: Flow, p: Partition, n: NodeId)
    requires f.Valid() && n in f.nodes && n != f.entry && f.preds[n] == {}
    requires |p.orders| > 1
    ensures !Divides(f, p)
  {
    if Divides(f, p) {
      assert Saturated(f, p.orders[0]) && Saturated(f, p.orders[1]);
      OrphanAbsorbed(f, p.orders[0], n);
      OrphanAbsorbed(f, p.orders[1], n);
      NoOverlap(f, p, 0, 1, n);
    }
  }

  lemma OrphanAbsorbed(f: Flow, order: seq<NodeId>, n: NodeId)
    requires f.Valid() && n in f.nodes && n != f.entry && f.preds[n] == {} && Saturated(f, order)
    ensures n in order
  {
    AllInside(f, order, n);
  }

  /** A member with a predecessor is reachable from what was absorbed before it. */
  lemma {:induction false} MembersReachable(f: Flow, order: seq<NodeId>, k: nat)
    requires f.Valid() && Absorbs(f, order) && k < |order| && f.Reachable(order[0])
    requires forall n :: n in f.nodes && n != f.entry ==> f.preds[n] != {}
    ensures f.Reachable(order[k])
    decreases k
  {
    hide Flow.Reachable, Flow.IsPath;
    if k > 0 {
      assert AbsorbedAt(f, order, k);
      var q :| q in f.preds[order[k]];
      var j :| 0 <= j < k && order[..k][j] == q;
      MembersReachable(f, order, j);
      ReachStep(f, q, order[k]);
    }
  }

  lemma {:induction false} HeadReachable(f: Flow, p: Partition, i: nat)
    requires f.Valid() && Divides(f, p) && i < |p.orders|
    requires forall n :: n in f.nodes && n != f.entry ==> f.preds[n] != {}
    ensures |p.orders[i]| > 0 && f.Reachable(p.orders[i][0])
    decreases i
  {
    hide Divides, Flow.Reachable, Absorbs, Saturated;
    IntervalAt(f, p, i);
    if i == 0 {
      EntryReachable(f);
    } else {
      var e: nat :| e < i && p.orders[i][0] in p.edges[e];
      EdgeCrosses(f, p, e, p.orders[i][0]);
      HeadReachable(f, p, e);
      IntervalAt(f, p, e);
      var q :| q in f.preds[p.orders[i][0]] && q in p.orders[e];
      var k: nat :| k < |p.orders[e]| && p.orders[e][k] == q;
      MembersReachable(f, p.orders[e], k);
      ReachStep(f, q, p.orders[i][0]);
    }
  }

  /** From two intervals on, intervals that partition the nodes need every node to be
      reachable. */
  lemma PartitionNeedsReachable(f: Flow, p: Partition)
    requires f.Valid() && Divides(f, p) && |p.orders| > 1
    ensures f.AllReachable()
  {
    forall n | n in f.nodes && n != f.entry ensures f.preds[n] != {} {
      if f.preds[n] == {} { OrphanSpoilsPartition(f, p, n); }
    }
    hide Divides, Flow.Reachable, Absorbs, Saturated;
    forall n | n in f.nodes ensures f.Reachable(n) {
      var i := Holder(f, p, n);
      HeadReachable(f, p, i);
      IntervalAt(f, p, i);
      var k: nat :| k < |p.orders[i]| && p.orders[i][k] == n;
      MembersReachable(f, p.orders[i], k);
    }
  }

  ghost function Heads(p: Partition, k: nat): (r: set<NodeId>)
    requires k <= |p.orders| && forall i :: 0 <= i < |p.orders| ==> |p.orders[i]| > 0
    ensures forall n :: n in r <==> exists i :: 0 <= i < k && p.orders[i][0] == n
  {
    if k == 0 then {} else Heads(p, k - 1) + {p.orders[k - 1][0]}
  }

  lemma {:induction false} HeadsCount(f: Flow, p: Partition, k: nat)
    requires f.Valid() && Divides(f, p) && k <= |p.orders|
    requires forall i :: 0 <= i < |p.orders| ==> |p.orders[i]| > 0
    ensures |Heads(p, k)| == k
  {
    hide Divides, Absorbs, Saturated;
    if k > 0 {
      HeadsCount(f, p, k - 1);
      forall i | 0 <= i < k - 1
        ensures p.orders[i][0] != p.orders[k - 1][0]
      {
        if p.orders[i][0] == p.orders[k - 1][0] { NoOverlap(f, p, i, k - 1, p.orders[i][0]); }
      }
    }
  }

  lemma CountSubset(a: set<NodeId>, b: set<NodeId>)
    requires a <= b
    ensures |a| <= |b|
  {
    assert b == a + (b - a);
  }

  /** Hence a graph with such a node has fewer intervals than nodes. */
  lemma FewerIntervals(f: Flow, p: Partition)
    requires f.Valid() && Divides(f, p) && HasLonePred(f)
    ensures |p.orders| < |f.nodes|
  {
    hide Divides, Absorbs, Saturated;
    forall i | 0 <= i < |p.orders|
      ensures |p.orders[i]| > 0 && p.orders[i][0] in f.nodes
    {
      IntervalAt(f, p, i);
    }
    var n, q :| LonePred(f, n, q);
    LonePredIsNoHead(f, p, n, q);
    var heads := Heads(p, |p.orders|);
    HeadsCount(f, p, |p.orders|);
    CountSubset(heads, f.nodes - {n});
  }
}
