/** Interval analysis: a worklist of headers, each grown into the maximal set of nodes
    whose predecessors all lie inside, and the derived graph over the intervals. */
module IntervalAnalysis {
  import opened Options
  import opened Graphs

  /** One interval: its header and the nodes absorbed so far. `order` remembers the
      order in which they were absorbed. */
  class Interval {
    const head: NodeId
    var content: set<NodeId>
    ghost var order: seq<NodeId>

    ghost predicate Valid()
      reads this
    {
      |order| > 0 && order[0] == head && forall n :: n in content <==> n in order
    }

    constructor (h: NodeId)
      ensures Valid() && head == h && order == [h]
    {
      head, content, order := h, {h}, [h];
    }

    predicate Contains(n: NodeId)
      reads this
    {
      n in content
    }

    method AddNode(n: NodeId) returns (added: bool)
      requires Valid()
      modifies this
      ensures Valid() && added == (n !in old(order))
      ensures order == if added then old(order) + [n] else old(order)
      ensures content == old(content) + {n}
    {
      added := n !in content;
      if added {
        content, order := content + {n}, order + [n];
      }
    }
  }

  /** `order` starts at a header and absorbs, one at a time, nodes other than the entry
      all of whose predecessors were absorbed before. */
  ghost predicate Absorbs(f: Flow, order: seq<NodeId>)
    requires f.Valid()
  {
    && |order| > 0 && order[0] in f.nodes
    && forall k :: 0 < k < |order| ==> AbsorbedAt(f, order, k)
  }

  ghost predicate AbsorbedAt(f: Flow, order: seq<NodeId>, k: nat)
    requires f.Valid() && k < |order|
  {
    && order[k] in f.nodes && order[k] != f.entry
    && order[k] !in order[..k]
    && forall p :: p in f.preds[order[k]] ==> p in order[..k]
  }

  /** No further node can be absorbed. */
  ghost predicate Saturated(f: Flow, order: seq<NodeId>)
    requires f.Valid()
  {
    forall n :: n in f.nodes && n != f.entry && n !in order ==> HasPredOutside(f, order, n)
  }

  ghost predicate HasPredOutside(f: Flow, order: seq<NodeId>, n: NodeId)
    requires f.Valid() && n in f.nodes
  {
    exists p :: p in f.preds[n] && p !in order
  }

  ghost predicate HasPredInside(f: Flow, order: seq<NodeId>, n: NodeId)
    requires f.Valid() && n in f.nodes
  {
    exists p :: p in f.preds[n] && p in order
  }

  /** The outcome of the analysis: the absorption order of every interval, oldest first,
      and the headers each interval recorded as its successors. */
  datatype Partition = Partition(orders: seq<seq<NodeId>>, edges: seq<seq<NodeId>>) {
    ghost predicate Covers(n: NodeId) {
      exists i :: 0 <= i < |orders| && n in orders[i]
    }

    ghost predicate IsHead(n: NodeId) {
      exists i :: 0 <= i < |orders| && |orders[i]| > 0 && orders[i][0] == n
    }
  }

  ghost function Grown(p: Partition, order: seq<NodeId>, found: seq<NodeId>): Partition {
    Partition(p.orders + [order], p.edges + [found])
  }

  /** What every interval and every recorded edge satisfies, at any point of the run. */
  ghost predicate Sound(f: Flow, p: Partition)
    requires f.Valid()
  {
    |p.orders| == |p.edges| && Shaped(f, p) && Linked(f, p)
  }

  ghost predicate Shaped(f: Flow, p: Partition)
    requires f.Valid() && |p.orders| == |p.edges|
  {
    && (forall i :: 0 <= i < |p.orders| ==> Absorbs(f, p.orders[i]) && Saturated(f, p.orders[i]))
    && (forall i, j :: 0 <= i < j < |p.orders| ==> Apart(p.orders[i], p.orders[j]))
    && (forall i, h :: 0 <= i < |p.edges| && h in p.edges[i] ==> Crosses(f, p.orders[i], h))
  }

  ghost predicate Linked(f: Flow, p: Partition)
    requires f.Valid() && |p.orders| == |p.edges|
  {
    && (|p.orders| > 0 ==> |p.orders[0]| > 0 && p.orders[0][0] == f.entry)
    && (forall j :: 0 < j < |p.orders| ==> EnteredEarlier(p, j))
    && (|p.orders| > 1 ==> OnePred(p, |p.orders| - 1))
  }

  ghost predicate Apart(a: seq<NodeId>, b: seq<NodeId>) {
    forall n :: n in a ==> n !in b
  }

  ghost predicate Crosses(f: Flow, order: seq<NodeId>, h: NodeId)
    requires f.Valid()
  {
    h in f.nodes && h !in order && HasPredInside(f, order, h)
  }

  /** An older interval recorded an edge to interval `j`. */
  ghost predicate EnteredEarlier(p: Partition, j: nat)
    requires |p.orders| == |p.edges| && j < |p.orders|
  {
    exists i :: 0 <= i < j && |p.orders[j]| > 0 && p.orders[j][0] in p.edges[i]
  }

  /** Exactly one interval recorded an edge to interval `j`. */
  ghost predicate OnePred(p: Partition, j: nat)
    requires |p.orders| == |p.edges| && j < |p.orders|
  {
    && |p.orders[j]| > 0
    && exists i :: OnlyFrom(p, p.orders[j][0], i)
  }

  ghost predicate OnlyFrom(p: Partition, h: NodeId, i: int) {
    0 <= i < |p.edges| && forall k :: 0 <= k < |p.edges| ==> (h in p.edges[k] <==> k == i)
  }

  /** The finished analysis: the intervals also cover the graph, and recorded edges lead
      to interval headers. */
  ghost predicate Divides(f: Flow, p: Partition)
    requires f.Valid()
  {
    && Sound(f, p) && |p.orders| > 0
    && (forall n :: n in f.nodes ==> p.Covers(n))
    && (forall i, h :: 0 <= i < |p.edges| && h in p.edges[i] ==> p.IsHead(h))
  }

  /** What ties the worklist to the intervals found so far. */
  ghost predicate Pending(f: Flow, p: Partition, heads: seq<NodeId>)
    requires f.Valid()
  {
    && Sound(f, p)
    && (|p.orders| == 0 ==> heads == [f.entry])
    && (|p.orders| > 0 ==> forall h :: h in heads ==> Recorded(p, h))
    && (forall h :: Recorded(p, h) ==> h in heads || p.IsHead(h))
    && (forall a, b :: p.Covers(a) && b in f.nodes && a in f.preds[b] ==> b in heads || p.Covers(b))
    && (forall h :: Recorded(p, h) && !p.IsHead(h) ==> RecordedOnce(p, h))
  }

  ghost predicate Recorded(p: Partition, h: NodeId) {
    exists i :: 0 <= i < |p.edges| && h in p.edges[i]
  }

  ghost predicate RecordedOnce(p: Partition, h: NodeId) {
    forall i, k :: 0 <= i < |p.edges| && 0 <= k < |p.edges| && h in p.edges[i] && h in p.edges[k] ==> i == k
  }

  lemma DropHead(f: Flow, p: Partition, heads: seq<NodeId>)
    requires f.Valid() && Pending(f, p, heads) && |heads| > 0 && p.IsHead(heads[0])
    ensures Pending(f, p, heads[1..])
  {
    assert forall h :: h in heads ==> h == heads[0] || h in heads[1..];
    assert p.Covers(heads[0]);
  }

  lemma MemberPreds(f: Flow, order: seq<NodeId>, n: NodeId)
    requires f.Valid() && Absorbs(f, order) && n in order && n != order[0]
    ensures n in f.nodes && n != f.entry && forall q :: q in f.preds[n] ==> q in order
  {
    var t :| 0 <= t < |order| && order[t] == n;
    assert AbsorbedAt(f, order, t);
  }

  /** A waiting header that was not processed lies in no interval. */
  lemma WaitingIsUncovered(f: Flow, p: Partition, h: NodeId)
    requires f.Valid() && Sound(f, p) && Recorded(p, h) && !p.IsHead(h)
    ensures !p.Covers(h)
  {
    if p.Covers(h) {
      var i :| 0 <= i < |p.edges| && h in p.edges[i];
      var k :| 0 <= k < |p.orders| && h in p.orders[k];
      assert Crosses(f, p.orders[i], h);
      MemberPreds(f, p.orders[k], h);
    }
  }

  lemma CoveredHasCoveredPred(f: Flow, p: Partition, n: NodeId)
    requires f.Valid() && Sound(f, p) && n in f.nodes && p.Covers(n) && n != f.entry && f.preds[n] != {}
    ensures exists q :: q in f.preds[n] && p.Covers(q)
  {
    var i :| 0 <= i < |p.orders| && n in p.orders[i];
    if p.orders[i][0] != n {
      MemberPreds(f, p.orders[i], n);
      var q :| q in f.preds[n];
      assert p.Covers(q);
    } else {
      assert EnteredEarlier(p, i);
      var e :| 0 <= e < i && n in p.edges[e];
      assert Crosses(f, p.orders[e], n);
      var q :| q in f.preds[n] && q in p.orders[e];
      assert p.Covers(q);
    }
  }

  lemma UncoveredPreds(f: Flow, p: Partition, n: NodeId)
    requires f.Valid() && Sound(f, p) && n in f.nodes && n != f.entry && f.preds[n] != {}
    requires forall q :: q in f.preds[n] ==> !p.Covers(q)
    ensures !p.Covers(n)
  {
    if p.Covers(n) { CoveredHasCoveredPred(f, p, n); }
  }

  lemma HasPred(f: Flow, n: NodeId)
    requires f.Valid() && f.Reachable(n) && n != f.entry && n in f.nodes
    ensures f.preds[n] != {}
  {
    var p :| f.IsPath(p) && p[0] == f.entry && p[|p| - 1] == n;
    assert p[|p| - 2] in f.preds[n];
  }

  /** An interval grown from an uncovered header stays clear of all older intervals. */
  lemma {:induction false} NewIntervalApart(f: Flow, p: Partition, order: seq<NodeId>, k: nat)
    requires f.Valid() && f.AllReachable() && Sound(f, p)
    requires Absorbs(f, order) && k < |order| && !p.Covers(order[0])
    ensures forall j :: 0 <= j <= k ==> !p.Covers(order[j])
  {
    hide Sound;
    if k > 0 {
      NewIntervalApart(f, p, order, k - 1);
      var n := order[k];
      assert AbsorbedAt(f, order, k);
      HasPred(f, n);
      UncoveredPreds(f, p, n);
    }
  }

  /** The headers a freshly grown interval adds to the worklist. */
  ghost predicate FoundBy(f: Flow, order: seq<NodeId>, rest: seq<NodeId>, found: seq<NodeId>)
    requires f.Valid()
  {
    forall n :: n in found <==> n !in rest && Crosses(f, order, n)
  }

  lemma StepSound(f: Flow, p: Partition, heads: seq<NodeId>, order: seq<NodeId>, found: seq<NodeId>)
    requires f.Valid() && f.AllReachable() && Pending(f, p, heads) && |heads| > 0 && !p.IsHead(heads[0])
    requires Absorbs(f, order) && Saturated(f, order) && order[0] == heads[0]
    requires FoundBy(f, order, heads[1..], found)
    ensures Sound(f, Grown(p, order, found))
  {
    PendingHead(f, p, heads);
    NotFound(f, order, heads[1..], found);
    hide *;
    SoundAgain(f, p, heads, order, found);
  }

  lemma NotFound(f: Flow, order: seq<NodeId>, rest: seq<NodeId>, found: seq<NodeId>)
    requires f.Valid() && Absorbs(f, order) && FoundBy(f, order, rest, found)
    ensures order[0] in order && order[0] !in found
  {
  }

  lemma SoundAgain(f: Flow, p: Partition, heads: seq<NodeId>, order: seq<NodeId>, found: seq<NodeId>)
    requires f.Valid() && f.AllReachable() && Sound(f, p) && |heads| > 0 && !p.Covers(heads[0])
    requires if |p.orders| == 0 then heads[0] == f.entry else Recorded(p, heads[0]) && RecordedOnce(p, heads[0])
    requires Absorbs(f, order) && Saturated(f, order) && order[0] == heads[0] && heads[0] !in found
    requires FoundBy(f, order, heads[1..], found)
    ensures Sound(f, Grown(p, order, found))
  {
    StepApart(f, p, order);
    StepShaped(f, p, order, heads[1..], found);
    StepLinked(f, p, heads[0], order, found);
    hide Absorbs, Saturated, Shaped, FoundBy, Linked, Recorded, RecordedOnce, Apart, Partition.Covers;
  }

  lemma StepLinked(f: Flow, p: Partition, h: NodeId, order: seq<NodeId>, found: seq<NodeId>)
    requires f.Valid() && Sound(f, p)
    requires if |p.orders| == 0 then h == f.entry else Recorded(p, h) && RecordedOnce(p, h)
    requires |order| > 0 && order[0] == h && h !in found
    ensures Linked(f, Grown(p, order, found))
  {
    if |p.orders| > 0 {
      StepEdges(f, p, h, order, found);
    }
  }

  /** The next unprocessed header is the entry, or was recorded by exactly one interval. */
  lemma PendingHead(f: Flow, p: Partition, heads: seq<NodeId>)
    requires f.Valid() && Pending(f, p, heads) && |heads| > 0 && !p.IsHead(heads[0])
    ensures Sound(f, p) && !p.Covers(heads[0])
    ensures |p.orders| == 0 ==> heads[0] == f.entry
    ensures |p.orders| > 0 ==> Recorded(p, heads[0]) && RecordedOnce(p, heads[0])
  {
    if |p.orders| > 0 {
      assert heads[0] in heads;
      WaitingIsUncovered(f, p, heads[0]);
    }
  }

  lemma StepShaped(f: Flow, p: Partition, order: seq<NodeId>, rest: seq<NodeId>, found: seq<NodeId>)
    requires f.Valid() && |p.orders| == |p.edges| && Shaped(f, p)
    requires Absorbs(f, order) && Saturated(f, order)
    requires FoundBy(f, order, rest, found)
    requires forall i :: 0 <= i < |p.orders| ==> Apart(p.orders[i], order)
    ensures Shaped(f, Grown(p, order, found))
  {
    hide Absorbs, Saturated, Apart, Crosses;
  }

  lemma StepApart(f: Flow, p: Partition, order: seq<NodeId>)
    requires f.Valid() && f.AllReachable() && Sound(f, p)
    requires Absorbs(f, order) && !p.Covers(order[0])
    ensures forall i :: 0 <= i < |p.orders| ==> Apart(p.orders[i], order)
  {
    NewIntervalApart(f, p, order, |order| - 1);
    hide *;
    UncoveredApart(p, order);
  }

  lemma UncoveredApart(p: Partition, order: seq<NodeId>)
    requires forall j :: 0 <= j < |order| ==> !p.Covers(order[j])
    ensures forall i :: 0 <= i < |p.orders| ==> Apart(p.orders[i], order)
  {
    forall i | 0 <= i < |p.orders|
      ensures Apart(p.orders[i], order)
    {
      assert forall n :: n in p.orders[i] ==> p.Covers(n);
    }
  }

  /** The new interval is entered from exactly one older one: a header that waits in the
      worklist is never recorded a second time. */
  lemma StepEdges(f: Flow, p: Partition, h: NodeId, order: seq<NodeId>, found: seq<NodeId>)
    requires f.Valid() && Sound(f, p) && Recorded(p, h)
    requires RecordedOnce(p, h)
    requires |order| > 0 && order[0] == h && h !in found
    ensures var p' := Grown(p, order, found);
            && (forall j :: 0 < j < |p'.orders| ==> EnteredEarlier(p', j))
            && OnePred(p', |p.orders|)
  {
    var p' := Grown(p, order, found);
    var m := |p.orders|;
    var e :| 0 <= e < |p.edges| && h in p.edges[e];
    assert OnlyFrom(p', h, e);
    forall j | 0 < j < |p'.orders|
      ensures EnteredEarlier(p', j)
    {
      if j == m {
        assert h in p'.edges[e];
      } else {
        assert EnteredEarlier(p, j);
        var i :| 0 <= i < j && p.orders[j][0] in p.edges[i];
        assert p'.orders[j][0] in p'.edges[i];
      }
    }
  }

  lemma StepPending(f: Flow, p: Partition, heads: seq<NodeId>, order: seq<NodeId>, found: seq<NodeId>)
    requires f.Valid() && f.AllReachable() && Pending(f, p, heads) && |heads| > 0 && !p.IsHead(heads[0])
    requires Absorbs(f, order) && Saturated(f, order) && order[0] == heads[0]
    requires FoundBy(f, order, heads[1..], found)
    ensures Pending(f, Grown(p, order, found), heads[1..] + found)
  {
    var p' := Grown(p, order, found);
    var rest, m := heads[1..], |p.orders|;
    StepSound(f, p, heads, order, found);
    assert p'.orders[m] == order && p'.edges[m] == found;
    assert forall n :: n in heads <==> n == heads[0] || n in rest;
    Extends(p, order, found);
    forall a, b | p'.Covers(a) && b in f.nodes && a in f.preds[b]
      ensures b in rest + found || p'.Covers(b)
    {
      if a in order && b !in order {
        assert HasPredInside(f, order, b);
        assert Crosses(f, order, b);
      }
    }
    forall h | Recorded(p', h) && !p'.IsHead(h)
      ensures RecordedOnce(p', h)
    {
      if Recorded(p, h) { assert h in rest && h !in found; }
      StillOnce(p, order, found, h);
    }
  }

  lemma StillOnce(p: Partition, order: seq<NodeId>, found: seq<NodeId>, h: NodeId)
    requires |p.orders| == |p.edges|
    requires if Recorded(p, h) then RecordedOnce(p, h) && h !in found else true
    ensures RecordedOnce(Grown(p, order, found), h)
  {
    var p' := Grown(p, order, found);
    forall i, k | 0 <= i < |p'.edges| && 0 <= k < |p'.edges| && h in p'.edges[i] && h in p'.edges[k]
      ensures i == k
    {
      if i < |p.edges| { assert h in p.edges[i]; }
      if k < |p.edges| { assert h in p.edges[k]; }
    }
  }

  lemma Extends(p: Partition, order: seq<NodeId>, found: seq<NodeId>)
    requires |p.orders| == |p.edges| && |order| > 0
    ensures var p' := Grown(p, order, found);
            && (forall n :: p'.Covers(n) <==> p.Covers(n) || n in order)
            && (forall n :: p'.IsHead(n) <==> p.IsHead(n) || n == order[0])
            && (forall n :: Recorded(p', n) <==> Recorded(p, n) || n in found)
  {
    var p' := Grown(p, order, found);
    var m := |p.orders|;
    assert p'.orders[m] == order && p'.edges[m] == found;
    forall n
      ensures p'.Covers(n) <==> p.Covers(n) || n in order
      ensures p'.IsHead(n) <==> p.IsHead(n) || n == order[0]
      ensures Recorded(p', n) <==> Recorded(p, n) || n in found
    {
      if p.Covers(n) { var i :| 0 <= i < m && n in p.orders[i]; assert n in p'.orders[i]; }
      if p.IsHead(n) { var i :| 0 <= i < m && |p.orders[i]| > 0 && p.orders[i][0] == n; assert p'.orders[i][0] == n; }
      if Recorded(p, n) { var i :| 0 <= i < m && n in p.edges[i]; assert n in p'.edges[i]; }
      if p'.Covers(n) { var i :| 0 <= i <= m && n in p'.orders[i]; if i < m { assert n in p.orders[i]; } }
      if p'.IsHead(n) {
        var i :| 0 <= i <= m && |p'.orders[i]| > 0 && p'.orders[i][0] == n;
        if i < m { assert p.orders[i][0] == n; }
      }
      if Recorded(p', n) { var i :| 0 <= i <= m && n in p'.edges[i]; if i < m { assert n in p.edges[i]; } }
    }
  }

  lemma EmptyWorklistDivides(f: Flow, p: Partition)
    requires f.Valid() && f.AllReachable() && Pending(f, p, []) && |p.orders| > 0
    ensures Divides(f, p) && |p.orders[0]| > 0 && p.orders[0][0] == f.entry
    ensures forall i, h :: 0 <= i < |p.edges| && h in p.edges[i] ==> p.IsHead(h)
    ensures |p.edges| == |p.orders|
  {
    var covered := set n | n in f.nodes && p.Covers(n);
    assert p.Covers(f.entry) by { assert p.orders[0][0] == f.entry; }
    forall n | n in f.nodes
      ensures p.Covers(n)
    {
      var q :| f.IsPath(q) && q[0] == f.entry && q[|q| - 1] == n;
      ClosedHoldsReachable(f, covered, q);
    }
    forall i, h | 0 <= i < |p.edges| && h in p.edges[i]
      ensures p.IsHead(h)
    {
      assert Recorded(p, h);
    }
  }

  /** The graph's tables list exactly the predecessors of `f`. */
  ghost predicate Shows(g: Graph, f: Flow)
    reads g
  {
    && f.Valid()
    && g.entry == Some(f.entry)
    && (forall n :: n in g.nodes <==> n in f.nodes)
    && (forall n :: n in f.nodes ==> forall p :: p in g.AllPreds(n) <==> p in f.preds[n])
  }

  ghost predicate Ordered(g: Graph, f: Flow)
    reads g
  {
    && |g.rpo| > 0 && g.rpo[0] == f.entry && Distinct(g.rpo)
    && forall n :: n in g.rpo <==> n in f.nodes
  }

  /** The graph is what the laws of intervals are about: it shows `f`, the entry comes first in
      its order, and every node is reachable. */
  ghost predicate Ready(g: Graph, f: Flow)
    reads g
  {
    g.Valid() && Shows(g, f) && Ordered(g, f) && f.AllReachable()
  }

  /** The nodes a sweep looks at: all but the first of the reverse post-order. */
  function Swept(g: Graph): seq<NodeId>
    reads g
  {
    if g.rpo == [] then [] else g.rpo[1..]
  }

  /** On any graph: `order` starts at a header and absorbs, one at a time, swept nodes all of
      whose predecessors were absorbed before. */
  ghost predicate Grows(g: Graph, order: seq<NodeId>)
    reads g
  {
    |order| > 0 && forall k :: 0 < k < |order| ==> GrowsAt(g, order, k)
  }

  ghost predicate GrowsAt(g: Graph, order: seq<NodeId>, k: nat)
    requires k < |order|
    reads g
  {
    order[k] in Swept(g) && order[k] !in order[..k] && forall p :: p in g.AllPreds(order[k]) ==> p in order[..k]
  }

  ghost predicate PredOutside(g: Graph, order: seq<NodeId>, n: NodeId)
    reads g
  {
    exists p :: p in g.AllPreds(n) && p !in order
  }

  /** None of the swept nodes `ns` can be absorbed. */
  ghost predicate NoneLeft(g: Graph, order: seq<NodeId>, ns: seq<NodeId>)
    reads g
  {
    forall n :: n in ns && n !in order ==> PredOutside(g, order, n)
  }

  /** Node `n` of the graph lies outside and has a predecessor inside. */
  ghost predicate Exits(g: Graph, order: seq<NodeId>, n: NodeId)
    reads g
  {
    n in g.nodes && n !in order && exists p :: p in g.AllPreds(n) && p in order
  }

  /** On a graph that is ready these are the notions of the laws. */
  lemma ReadyGrowth(g: Graph, f: Flow, order: seq<NodeId>)
    requires Ready(g, f) && Grows(g, order) && NoneLeft(g, order, Swept(g)) && order[0] in f.nodes
    ensures Absorbs(f, order) && Saturated(f, order)
    ensures forall n :: Exits(g, order, n) <==> Crosses(f, order, n)
  {
    hide Flow.AllReachable;
    assert forall n :: n in Swept(g) <==> n in f.nodes && n != f.entry by { SweptNodes(g, f); }
    forall k | 0 < k < |order|
      ensures AbsorbedAt(f, order, k)
    {
      assert GrowsAt(g, order, k);
    }
    forall n | n in f.nodes && n != f.entry && n !in order
      ensures HasPredOutside(f, order, n)
    {
      assert PredOutside(g, order, n);
    }
  }

  lemma SweptNodes(g: Graph, f: Flow)
    requires Ordered(g, f)
    ensures forall n :: n in Swept(g) <==> n in f.nodes && n != f.entry
  {
    assert g.rpo == [g.rpo[0]] + Swept(g);
    assert forall k :: 0 <= k < |Swept(g)| ==> Swept(g)[k] == g.rpo[k + 1];
  }

  lemma AbsorbOne(g: Graph, order: seq<NodeId>, n: NodeId)
    requires Grows(g, order) && n in Swept(g) && n !in order
    requires forall p :: p in g.AllPreds(n) ==> p in order
    ensures Grows(g, order + [n])
  {
    var order' := order + [n];
    forall k | 0 < k < |order'|
      ensures GrowsAt(g, order', k)
    {
      assert order'[..k] == order[..k];
      if k < |order| { assert GrowsAt(g, order, k); } else { assert order[..k] == order; }
    }
  }

  ghost function NodesLeft(g: Graph, iv: Interval): set<NodeId>
    reads g, iv
  {
    (set n | n in g.rpo) - iv.content
  }

  /** Absorbs nodes into `iv` until a whole sweep over the reverse post-order adds none. */
  method Grow(g: Graph, iv: Interval)
    requires iv.Valid() && iv.order == [iv.head]
    modifies iv
    ensures iv.Valid() && iv.order[0] == iv.head
    ensures Grows(g, iv.order) && NoneLeft(g, iv.order, Swept(g))
  {
    var change := true;
    while change
      invariant iv.Valid() && Grows(g, iv.order)
      invariant !change ==> NoneLeft(g, iv.order, Swept(g))
      decreases NodesLeft(g, iv), change
    {
      change := Sweep(g, iv);
    }
  }

  method Sweep(g: Graph, iv: Interval) returns (change: bool)
    requires iv.Valid() && Grows(g, iv.order)
    modifies iv
    ensures iv.Valid() && Grows(g, iv.order)
    ensures change ==> old(NodesLeft(g, iv)) > NodesLeft(g, iv)
    ensures !change ==> iv.content == old(iv.content) && NoneLeft(g, iv.order, Swept(g))
  {
    change := false;
    ghost var swept := Swept(g);
    if g.rpo == [] { return; }
    for ri := 1 to |g.rpo|
      invariant iv.Valid() && Grows(g, iv.order)
      invariant if change then old(NodesLeft(g, iv)) > NodesLeft(g, iv) else iv.content == old(iv.content)
      invariant !change ==> NoneLeft(g, iv.order, g.rpo[1..ri])
    {
      var node := g.rpo[ri];
      assert g.rpo[1..ri + 1] == g.rpo[1..ri] + [node];
      assert swept[ri - 1] == node;
      if !iv.Contains(node) {
        var allIn := forall p :: p in g.AllPreds(node) ==> iv.Contains(p);
        if allIn {
          AbsorbOne(g, iv.order, node);
          assert node in NodesLeft(g, iv);
          var added := iv.AddNode(node);
          change := change || added;
        } else {
          assert PredOutside(g, iv.order, node);
        }
      }
    }
    assert g.rpo[1..|g.rpo|] == swept;
  }

  /** The derived graph as a flow: interval `i` precedes `j` when it recorded `j`'s header. */
  ghost function DerivedFlow(p: Partition): Flow {
    Flow(0, Below(|p.orders|),
         map j | j in Below(|p.orders|) :: set i | i in Below(|p.orders|) && Recorder(p, i, j))
  }

  ghost function Below(m: nat): (r: set<NodeId>)
    ensures forall i: NodeId :: i in r <==> i < m
    ensures |r| == m
  {
    if m == 0 then {} else Below(m - 1) + {m - 1}
  }

  ghost predicate Recorder(p: Partition, i: NodeId, j: NodeId) {
    i < |p.edges| && j < |p.orders| && |p.orders[j]| > 0 && p.orders[j][0] in p.edges[i]
  }

  ghost predicate Derives(g: Graph, p: Partition)
    reads g
  {
    DerivesFrom(g, p, Some(0))
  }

  /** The graph of the recorded edges between intervals, starting at `entry`. */
  ghost predicate DerivesFrom(g: Graph, p: Partition, entry: Option<NodeId>)
    reads g
  {
    && g.Valid() && g.entry == entry && |g.nodes| == |p.orders|
    && (forall n: NodeId :: n in g.nodes <==> n < |p.orders|)
    && (forall i: NodeId, j: NodeId :: Edge(g.edges, i, j) <==> Recorder(p, i, j))
    && (forall i, j :: !Edge(g.catchEdges, i, j))
  }

  /** Node `n` has a predecessor in the set. */
  predicate HasPredIn(g: Graph, order: set<NodeId>, n: NodeId)
    reads g
  {
    exists p :: p in g.AllPreds(n) && p in order
  }

  /** The nodes outside `order`, not already waiting, that have a predecessor in it, as listed. */
  function NewHeads(g: Graph, ns: seq<NodeId>, order: set<NodeId>, rest: seq<NodeId>): (r: seq<NodeId>)
    reads g
    ensures forall n :: n in r <==> n in ns && n !in order && n !in rest && HasPredIn(g, order, n)
  {
    if ns == [] then []
    else
      var n := ns[|ns| - 1];
      NewHeads(g, ns[..|ns| - 1], order, rest)
      + if n !in order && n !in rest && HasPredIn(g, order, n) then [n] else []
  }

  lemma NewHeadsMore(g: Graph, ns: seq<NodeId>, n: NodeId, order: set<NodeId>, rest: seq<NodeId>)
    ensures NewHeads(g, [], order, rest) == []
    ensures NewHeads(g, ns + [n], order, rest) ==
      NewHeads(g, ns, order, rest)
      + if n !in order && n !in rest && HasPredIn(g, order, n) then [n] else []
  {
    assert (ns + [n])[..|ns|] == ns;
  }

  lemma {:induction false} NewHeadsDistinct(g: Graph, ns: seq<NodeId>, order: set<NodeId>, rest: seq<NodeId>)
    requires Distinct(ns)
    ensures Distinct(NewHeads(g, ns, order, rest))
    decreases |ns|
  {
    if ns != [] { NewHeadsDistinct(g, ns[..|ns| - 1], order, rest); }
  }

  ghost function Members(s: seq<NodeId>): set<NodeId> {
    set n | n in s
  }

  /** Everything that was ever put in the worklist: the entry, then what the first `k`
      intervals recorded. */
  ghost function Pushed(entry: Option<NodeId>, edges: seq<seq<NodeId>>, k: nat): seq<NodeId>
    requires k <= |edges|
  {
    if k == 0 then (if entry.Some? then [entry.value] else []) else Pushed(entry, edges, k - 1) + edges[k - 1]
  }

  lemma {:induction false} PushedSame(entry: Option<NodeId>, edges: seq<seq<NodeId>>, more: seq<seq<NodeId>>, k: nat)
    requires k <= |edges|
    ensures Pushed(entry, edges + more, k) == Pushed(entry, edges, k)
  {
    if k > 0 { PushedSame(entry, edges, more, k - 1); }
  }

  /** Interval `k` came to its turn as the worklist is a queue: its header was put in at `pos`,
      everything put in before had had its turn, and it recorded, in the order of the graph's
      nodes, exactly the nodes it leads to that do not wait behind its header. */
  ghost predicate TurnAt(g: Graph, p: Partition, k: nat, pos: nat)
    requires k < |p.orders| == |p.edges|
    reads g
  {
    var all, order := Pushed(g.entry, p.edges, k), p.orders[k];
    && |order| > 0 && pos < |all| && all[pos] == order[0] && order[0] !in all[..pos]
    && (forall h :: h in all[..pos] ==> HeadBefore(p, h, k))
    && p.edges[k] == NewHeads(g, g.nodes, Members(order), all[pos + 1..])
  }

  ghost predicate HeadBefore(p: Partition, h: NodeId, k: nat) {
    exists i :: 0 <= i < k && i < |p.orders| && |p.orders[i]| > 0 && p.orders[i][0] == h
  }

  /** Every interval had its turn in this way. */
  ghost predicate InTurn(g: Graph, p: Partition)
    reads g
  {
    |p.orders| == |p.edges| && forall k :: 0 <= k < |p.orders| ==> HadTurn(g, p, k)
  }

  ghost predicate HadTurn(g: Graph, p: Partition, k: nat)
    requires k < |p.orders| == |p.edges|
    reads g
  {
    exists pos :: TurnAt(g, p, k, pos)
  }

  /** Interval `i` is the first after `j` that leads to the header of `j`. */
  ghost predicate FirstBack(g: Graph, p: Partition, j: nat, i: nat)
    requires j < i < |p.orders| && |p.orders[j]| > 0
    reads g
  {
    Exits(g, p.orders[i], p.orders[j][0]) && forall k :: j < k < i ==> !Exits(g, p.orders[k], p.orders[j][0])
  }

  /** The first interval after `j` that leads back to its header records it. */
  ghost predicate BacksRecorded(g: Graph, p: Partition)
    reads g
  {
    && |p.orders| == |p.edges|
    && forall j, i :: 0 <= j < i < |p.orders| && |p.orders[j]| > 0 && FirstBack(g, p, j, i) ==>
         p.orders[j][0] in p.edges[i]
  }

  /** A header in the worklist that had its turn was recorded since, and none is there twice. */
  ghost predicate Requeued(p: Partition, heads: seq<NodeId>) {
    && Distinct(heads) && |p.orders| == |p.edges|
    && forall j :: 0 <= j < |p.orders| && |p.orders[j]| > 0 && p.orders[j][0] in heads ==> RecordedAfter(p, j)
  }

  ghost predicate RecordedAfter(p: Partition, j: nat)
    requires j < |p.orders| == |p.edges| && |p.orders[j]| > 0
  {
    exists i :: j < i < |p.edges| && p.orders[j][0] in p.edges[i]
  }

  /** The worklist is what is left of the queue behind `pos`. */
  ghost predicate Queue(g: Graph, p: Partition, heads: seq<NodeId>, pos: nat)
    reads g
  {
    && InTurn(g, p) && BacksRecorded(g, p) && Requeued(p, heads)
    && var all := Pushed(g.entry, p.edges, |p.edges|);
      pos <= |all| && heads == all[pos..] && forall h :: h in all[..pos] ==> HeadBefore(p, h, |p.orders|)
  }

  lemma QueueStarts(g: Graph)
    ensures Queue(g, Partition([], []), if g.entry.Some? then [g.entry.value] else [], 0)
  {
  }

  lemma HeadsAre(p: Partition, h: NodeId)
    ensures HeadBefore(p, h, |p.orders|) <==> p.IsHead(h)
  {
  }

  /** A header that had its turn is dropped. */
  lemma QueueDrop(g: Graph, p: Partition, heads: seq<NodeId>, pos: nat)
    requires Queue(g, p, heads, pos) && |heads| > 0 && p.IsHead(heads[0])
    ensures Queue(g, p, heads[1..], pos + 1)
  {
    hide InTurn, BacksRecorded, HeadBefore;
    var all := Pushed(g.entry, p.edges, |p.edges|);
    HeadsAre(p, heads[0]);
    assert all[..pos + 1] == all[..pos] + [heads[0]];
    assert heads[1..] == all[pos + 1..];
    DistinctTail(heads);
  }

  lemma DistinctTail(s: seq<NodeId>)
    requires Distinct(s) && |s| > 0
    ensures Distinct(s[1..]) && s[0] !in s[1..] && forall h :: h in s <==> h == s[0] || h in s[1..]
  {
  }

  lemma HeadStays(p: Partition, order: seq<NodeId>, found: seq<NodeId>, h: NodeId, k: nat)
    requires HeadBefore(p, h, k)
    ensures HeadBefore(Grown(p, order, found), h, k)
  {
    var i :| 0 <= i < k && i < |p.orders| && |p.orders[i]| > 0 && p.orders[i][0] == h;
    assert Grown(p, order, found).orders[i][0] == h;
  }

  lemma DistinctBoth(a: seq<NodeId>, b: seq<NodeId>)
    requires Distinct(a) && Distinct(b) && forall n :: n in b ==> n !in a
    ensures Distinct(a + b)
  {
    forall i, j | 0 <= i < j < |a + b|
      ensures (a + b)[i] != (a + b)[j]
    {
      if i < |a| <= j { assert b[j - |a|] in b && a[i] in a; }
    }
  }

  /** The turns so far stay what they were. */
  lemma TurnsStay(g: Graph, p: Partition, order: seq<NodeId>, found: seq<NodeId>, k: nat, pos: nat)
    requires |p.orders| == |p.edges| && k < |p.orders| && TurnAt(g, p, k, pos)
    ensures TurnAt(g, Grown(p, order, found), k, pos)
  {
    var p' := Grown(p, order, found);
    PushedSame(g.entry, p.edges, [found], k);
    hide NewHeads, Pushed, HeadBefore;
    var all := Pushed(g.entry, p.edges, k);
    forall h | h in all[..pos]
      ensures HeadBefore(p', h, k)
    {
      HeadStays(p, order, found, h, k);
    }
  }

  lemma NotBefore(p: Partition, h: NodeId, done: seq<NodeId>)
    requires (forall x :: x in done ==> HeadBefore(p, x, |p.orders|)) && !p.IsHead(h)
    ensures h !in done
  {
    HeadsAre(p, h);
    hide HeadBefore, Partition.IsHead;
  }

  /** The next header, which had no turn yet, has it. */
  lemma TurnMore(g: Graph, p: Partition, heads: seq<NodeId>, pos: nat, order: seq<NodeId>, found: seq<NodeId>)
    requires Queue(g, p, heads, pos) && |heads| > 0 && !p.IsHead(heads[0]) && |order| > 0 && order[0] == heads[0]
    requires found == NewHeads(g, g.nodes, Members(order), heads[1..])
    ensures InTurn(g, Grown(p, order, found))
  {
    var p', n := Grown(p, order, found), |p.orders|;
    PushedSame(g.entry, p.edges, [found], n);
    hide NewHeads, Pushed, BacksRecorded, Requeued, Members, HeadBefore;
    var all := Pushed(g.entry, p.edges, n);
    HeadsAre(p, heads[0]);
    assert heads[1..] == all[pos + 1..];
    forall h | h in all[..pos]
      ensures HeadBefore(p', h, n)
    {
      HeadStays(p, order, found, h, n);
    }
    NotBefore(p, heads[0], all[..pos]);
    assert TurnAt(g, p', n, pos);
    forall k | 0 <= k < n
      ensures HadTurn(g, p', k)
    {
      assert HadTurn(g, p, k);
      var q :| TurnAt(g, p, k, q);
      TurnsStay(g, p, order, found, k, q);
    }
  }

  /** What leads back to an earlier header finds it gone from the worklist, unless an interval
      in between recorded it. */
  lemma BacksMore(g: Graph, p: Partition, heads: seq<NodeId>, order: seq<NodeId>, found: seq<NodeId>)
    requires Grouped(g, p) && BacksRecorded(g, p) && Requeued(p, heads) && |heads| > 0
    requires forall n :: n in found <==> n !in heads[1..] && Exits(g, order, n)
    ensures BacksRecorded(g, Grown(p, order, found))
  {
    hide Exits, Grows, NoneLeft;
    var p', n := Grown(p, order, found), |p.orders|;
    forall j, i | 0 <= j < i < |p'.orders| && |p'.orders[j]| > 0 && FirstBack(g, p', j, i)
      ensures p'.orders[j][0] in p'.edges[i]
    {
      if i < n {
        assert forall k :: j < k < i ==> p'.orders[k] == p.orders[k];
        assert FirstBack(g, p, j, i);
      } else {
        NotWaiting(g, p, p', heads, j);
      }
    }
  }

  lemma NotWaiting(g: Graph, p: Partition, p': Partition, heads: seq<NodeId>, j: nat)
    requires Grouped(g, p) && Requeued(p, heads) && |heads| > 0 && j < |p.orders|
    requires |p'.orders| == |p.orders| + 1 && p'.orders[..|p.orders|] == p.orders && |p'.orders[j]| > 0
    requires FirstBack(g, p', j, |p.orders|)
    ensures p.orders[j][0] !in heads[1..]
  {
    hide Exits, Grows, NoneLeft;
    assert forall k :: 0 <= k < |p.orders| ==> p'.orders[k] == p.orders[k];
    if p.orders[j][0] in heads {
      var _ := LedSince(g, p, heads, j);
    }
  }

  /** A header that waits again was led to since. */
  lemma LedSince(g: Graph, p: Partition, heads: seq<NodeId>, j: nat) returns (i: nat)
    requires Grouped(g, p) && Requeued(p, heads) && j < |p.orders| && |p.orders[j]| > 0 && p.orders[j][0] in heads
    ensures j < i < |p.orders| && Exits(g, p.orders[i], p.orders[j][0])
  {
    hide Exits, Grows, NoneLeft;
    assert RecordedAfter(p, j);
    i :| j < i < |p.edges| && p.orders[j][0] in p.edges[i];
    assert GroupAt(g, p, i);
  }

  lemma RequeuedMore(p: Partition, heads: seq<NodeId>, order: seq<NodeId>, found: seq<NodeId>)
    requires Requeued(p, heads) && |heads| > 0 && |order| > 0 && order[0] == heads[0]
    requires Distinct(found) && forall n :: n in found ==> n !in heads[1..] && n !in order
    ensures Requeued(Grown(p, order, found), heads[1..] + found)
  {
    var p', heads' := Grown(p, order, found), heads[1..] + found;
    DistinctTail(heads);
    DistinctBoth(heads[1..], found);
    assert order[0] in order;
    forall j | 0 <= j < |p'.orders| && |p'.orders[j]| > 0 && p'.orders[j][0] in heads'
      ensures RecordedAfter(p', j)
    {
      var h := p'.orders[j][0];
      if j < |p.orders| {
        if h in found {
          assert h in p'.edges[|p.edges|];
        } else {
          assert RecordedAfter(p, j);
          var i :| j < i < |p.edges| && h in p.edges[i];
          assert h in p'.edges[i];
        }
      }
    }
  }

  lemma QueueMore(g: Graph, p: Partition, heads: seq<NodeId>, pos: nat, order: seq<NodeId>, found: seq<NodeId>)
    requires Grouped(g, p) && Queue(g, p, heads, pos) && |heads| > 0 && !p.IsHead(heads[0])
    requires Distinct(g.nodes) && |order| > 0 && order[0] == heads[0]
    requires found == NewHeads(g, g.nodes, Members(order), heads[1..])
    ensures Queue(g, Grown(p, order, found), heads[1..] + found, pos + 1)
  {
    hide *;
    QueueParts(g, p, heads, pos);
    FoundAre(g, order, heads[1..]);
    NewHeadsDistinct(g, g.nodes, Members(order), heads[1..]);
    TurnMore(g, p, heads, pos, order, found);
    BacksMore(g, p, heads, order, found);
    RequeuedMore(p, heads, order, found);
    QueueRest(g, p, heads, pos, order, found);
  }

  lemma QueueParts(g: Graph, p: Partition, heads: seq<NodeId>, pos: nat)
    requires Queue(g, p, heads, pos)
    ensures BacksRecorded(g, p) && Requeued(p, heads) && InTurn(g, p)
  {
  }

  lemma FoundAre(g: Graph, order: seq<NodeId>, rest: seq<NodeId>)
    ensures forall n :: n in NewHeads(g, g.nodes, Members(order), rest) <==> n !in rest && Exits(g, order, n)
    ensures forall n :: n in NewHeads(g, g.nodes, Members(order), rest) ==> n !in order
  {
  }

  lemma QueueRest(g: Graph, p: Partition, heads: seq<NodeId>, pos: nat, order: seq<NodeId>, found: seq<NodeId>)
    requires Queue(g, p, heads, pos) && |heads| > 0 && |order| > 0 && order[0] == heads[0]
    requires var p' := Grown(p, order, found);
      InTurn(g, p') && BacksRecorded(g, p') && Requeued(p', heads[1..] + found)
    ensures Queue(g, Grown(p, order, found), heads[1..] + found, pos + 1)
  {
    var p', n := Grown(p, order, found), |p.orders|;
    PushedSame(g.entry, p.edges, [found], n);
    hide InTurn, BacksRecorded, Requeued;
    var all, all' := Pushed(g.entry, p.edges, n), Pushed(g.entry, p'.edges, n + 1);
    assert all' == all + found;
    assert all'[..pos + 1] == all[..pos] + [heads[0]];
    assert heads[1..] + found == all'[pos + 1..];
    var front := all'[..pos + 1];
    forall h | h in front
      ensures HeadBefore(p', h, n + 1)
    {
      if h == heads[0] {
        assert p'.orders[n][0] == h;
      } else {
        HeadLater(p, order, found, h);
      }
    }
  }

  lemma HeadLater(p: Partition, order: seq<NodeId>, found: seq<NodeId>, h: NodeId)
    requires HeadBefore(p, h, |p.orders|)
    ensures HeadBefore(Grown(p, order, found), h, |p.orders| + 1)
  {
    var i :| 0 <= i < |p.orders| && |p.orders[i]| > 0 && p.orders[i][0] == h;
    assert Grown(p, order, found).orders[i][0] == h;
  }

  /** The headers outside `iv`, not already waiting, that have a predecessor in it. */
  method CollectHeaders(g: Graph, iv: Interval, rest: seq<NodeId>) returns (found: seq<NodeId>)
    requires iv.Valid() && Distinct(g.nodes)
    ensures forall n :: n in found <==> n !in rest && Exits(g, iv.order, n)
    ensures found == NewHeads(g, g.nodes, Members(iv.order), rest)
  {
    hide *;
    found := [];
    ContentIs(iv);
    NewHeadsMore(g, [], 0, iv.content, rest);
    for k := 0 to |g.nodes|
      invariant found == NewHeads(g, g.nodes[..k], iv.content, rest)
    {
      var node := g.nodes[k];
      assert g.nodes[..k + 1] == g.nodes[..k] + [node];
      NewHeadsMore(g, g.nodes[..k], node, iv.content, rest);
      NotListedBefore(g.nodes, k);
      if node !in iv.content && node !in rest + found {
        if HasPredIn(g, iv.content, node) {
          found := found + [node];
        }
      }
    }
    assert g.nodes[..|g.nodes|] == g.nodes;
    FoundAre(g, iv.order, rest);
  }

  lemma ContentIs(iv: Interval)
    requires iv.Valid()
    ensures iv.content == Members(iv.order)
  {
  }

  lemma NotListedBefore(s: seq<NodeId>, k: nat)
    requires Distinct(s) && k < |s|
    ensures s[k] !in s[..k]
  {
  }

  /** Every node's interval is the last one whose order holds it. */
  ghost predicate OwnsLast(owner: map<NodeId, nat>, p: Partition) {
    && (forall n :: n in owner ==> owner[n] < |p.orders| && n in p.orders[owner[n]])
    && forall i, n :: 0 <= i < |p.orders| && n in p.orders[i] ==> n in owner && i <= owner[n]
  }

  /** Every node's interval is the one whose order holds it. */
  ghost predicate Owns(owner: map<NodeId, nat>, p: Partition) {
    forall i, n :: 0 <= i < |p.orders| && n in p.orders[i] ==> n in owner && owner[n] == i
  }

  function Owned(owner: map<NodeId, nat>, content: set<NodeId>, i: nat): map<NodeId, nat> {
    owner + map n | n in content :: i
  }

  lemma OwnsMore(owner: map<NodeId, nat>, p: Partition, order: seq<NodeId>, content: set<NodeId>, found: seq<NodeId>)
    requires OwnsLast(owner, p) && forall n :: n in content <==> n in order
    ensures OwnsLast(Owned(owner, content, |p.orders|), Grown(p, order, found))
  {
  }

  lemma OwnsIfApart(owner: map<NodeId, nat>, f: Flow, p: Partition)
    requires f.Valid() && OwnsLast(owner, p) && Divides(f, p)
    ensures Owns(owner, p)
  {
    hide Linked, Absorbs, Saturated, Crosses, Flow.Valid;
    forall i, n | 0 <= i < |p.orders| && n in p.orders[i]
      ensures n in owner && owner[n] == i
    {
      forall j | i < j < |p.orders|
        ensures n !in p.orders[j]
      {
        assert Apart(p.orders[i], p.orders[j]);
      }
    }
  }

  /** What holds of the intervals on any graph: each grows from its header until nothing is
      left to absorb, the headers differ and the first is the entry, and the recorded edges
      lead out of their interval. */
  ghost predicate Grouped(g: Graph, p: Partition)
    reads g
  {
    && |p.orders| == |p.edges|
    && (forall i :: 0 <= i < |p.orders| ==> |p.orders[i]| > 0 && GroupAt(g, p, i))
    && (forall i, j :: 0 <= i < j < |p.orders| ==> p.orders[i][0] != p.orders[j][0])
    && (|p.orders| > 0 ==> g.entry == Some(p.orders[0][0]))
  }

  ghost predicate GroupAt(g: Graph, p: Partition, i: nat)
    requires i < |p.orders| == |p.edges|
    reads g
  {
    && Grows(g, p.orders[i]) && NoneLeft(g, p.orders[i], Swept(g)) && p.orders[i][0] in g.nodes
    && forall h :: h in p.edges[i] ==> Exits(g, p.orders[i], h)
  }

  /** The worklist holds what is still to be done on any graph. */
  ghost predicate Waits(g: Graph, p: Partition, heads: seq<NodeId>)
    reads g
  {
    && Grouped(g, p)
    && (forall h :: h in heads ==> h in g.nodes)
    && (forall h :: Recorded(p, h) ==> h in heads || p.IsHead(h))
    && (forall a, b :: p.Covers(a) && b in g.nodes && a in g.AllPreds(b) ==> b in heads || p.Covers(b))
    && (|p.orders| == 0 ==> heads == if g.entry.Some? then [g.entry.value] else [])
  }

  /** The finished analysis of any graph: recorded edges lead to headers, and whatever an edge
      leads to from a covered node is covered, starting with the entry. */
  ghost predicate Finished(g: Graph, p: Partition)
    reads g
  {
    && Grouped(g, p) && (g.entry.Some? <==> |p.orders| > 0)
    && (forall h :: Recorded(p, h) ==> p.IsHead(h))
    && (forall a, b :: p.Covers(a) && b in g.nodes && a in g.AllPreds(b) ==> p.Covers(b))
  }

  lemma WaitsDone(g: Graph, p: Partition)
    requires Waits(g, p, [])
    ensures Finished(g, p) && |p.edges| == |p.orders|
    ensures forall i, h :: 0 <= i < |p.edges| && h in p.edges[i] ==> p.IsHead(h)
  {
    forall i, h | 0 <= i < |p.edges| && h in p.edges[i]
      ensures p.IsHead(h)
    {
      assert Recorded(p, h);
    }
  }

  lemma WaitsDrop(g: Graph, p: Partition, heads: seq<NodeId>)
    requires Waits(g, p, heads) && |heads| > 0 && p.IsHead(heads[0])
    ensures Waits(g, p, heads[1..])
  {
    hide Grouped;
    assert forall h :: h in heads ==> h == heads[0] || h in heads[1..];
    assert p.Covers(heads[0]);
  }

  lemma WaitsMore(g: Graph, p: Partition, heads: seq<NodeId>, order: seq<NodeId>, found: seq<NodeId>)
    requires Waits(g, p, heads) && |heads| > 0 && !p.IsHead(heads[0])
    requires Grows(g, order) && NoneLeft(g, order, Swept(g)) && order[0] == heads[0]
    requires forall n :: n in found <==> n !in heads[1..] && Exits(g, order, n)
    ensures Waits(g, Grown(p, order, found), heads[1..] + found)
  {
    var p', rest := Grown(p, order, found), heads[1..];
    GroupedMore(g, p, order, found);
    Extends(p, order, found);
    hide Grouped, Grows, NoneLeft;
    assert forall h :: h in heads ==> h == heads[0] || h in rest;
    forall a, b | p'.Covers(a) && b in g.nodes && a in g.AllPreds(b)
      ensures b in rest + found || p'.Covers(b)
    {
      if a in order && b !in order { assert Exits(g, order, b); }
    }
  }

  lemma GroupedMore(g: Graph, p: Partition, order: seq<NodeId>, found: seq<NodeId>)
    requires Grouped(g, p) && Grows(g, order) && NoneLeft(g, order, Swept(g)) && order[0] in g.nodes
    requires !p.IsHead(order[0]) && (|p.orders| == 0 ==> g.entry == Some(order[0]))
    requires forall n :: n in found ==> Exits(g, order, n)
    ensures Grouped(g, Grown(p, order, found)) && |p.orders| == |p.edges|
  {
    hide Grows, NoneLeft, Exits;
    var p' := Grown(p, order, found);
    forall i | 0 <= i < |p'.orders|
      ensures GroupAt(g, p', i)
    {
      if i < |p.orders| { assert GroupAt(g, p, i); }
    }
    assert |order| > 0 by { GrowsNonempty(g, order); }
    assert forall i :: 0 <= i < |p.orders| ==> p.orders[i][0] != order[0];
  }

  lemma GrowsNonempty(g: Graph, order: seq<NodeId>)
    requires Grows(g, order)
    ensures |order| > 0
  {
  }

  /** On a graph that is ready the worklist holds what the laws need. */
  ghost predicate ReadyWaits(g: Graph, f: Flow, p: Partition, heads: seq<NodeId>)
    reads g
  {
    Ready(g, f) ==> Pending(f, p, heads)
  }

  /** Grows the interval of the next unprocessed header and collects the headers after it. */
  method NextInterval(g: Graph, ghost f: Flow, ghost p: Partition, heads: seq<NodeId>)
    returns (iv: Interval, found: seq<NodeId>)
    requires Waits(g, p, heads) && |heads| > 0 && !p.IsHead(heads[0])
    requires ReadyWaits(g, f, p, heads) && Distinct(g.nodes)
    ensures fresh(iv) && iv.Valid() && iv.head == heads[0]
    ensures found == NewHeads(g, g.nodes, Members(iv.order), heads[1..])
    ensures Waits(g, Grown(p, iv.order, found), heads[1..] + found)
    ensures ReadyWaits(g, f, Grown(p, iv.order, found), heads[1..] + found)
    ensures |iv.order| > 0 && iv.order[0] == heads[0] && |p.orders| == |p.edges|
  {
    hide Waits, ReadyWaits, Grows, NoneLeft, Exits, NewHeads, Members, Distinct;
    iv := new Interval(heads[0]);
    Grow(g, iv);
    found := CollectHeaders(g, iv, heads[1..]);
    WaitsParts(g, p, heads);
    WaitsMore(g, p, heads, iv.order, found);
    ReadyMore(g, f, p, heads, iv.order, found);
  }

  lemma WaitsParts(g: Graph, p: Partition, heads: seq<NodeId>)
    requires Waits(g, p, heads)
    ensures |p.orders| == |p.edges| && forall h :: h in heads ==> h in g.nodes
    ensures |p.orders| == 0 ==> heads == if g.entry.Some? then [g.entry.value] else []
  {
  }

  lemma ReadyMore(g: Graph, f: Flow, p: Partition, heads: seq<NodeId>, order: seq<NodeId>, found: seq<NodeId>)
    requires Waits(g, p, heads) && ReadyWaits(g, f, p, heads) && |heads| > 0 && !p.IsHead(heads[0])
    requires Grows(g, order) && NoneLeft(g, order, Swept(g)) && order[0] == heads[0]
    requires forall n :: n in found <==> n !in heads[1..] && Exits(g, order, n)
    ensures ReadyWaits(g, f, Grown(p, order, found), heads[1..] + found)
  {
    if Ready(g, f) {
      ReadyParts(g, f);
      WaitsParts(g, p, heads);
      ReadyGrowth(g, f, order);
      hide Waits, Pending, Grows, NoneLeft, Exits, Absorbs, Saturated, Crosses, Flow.AllReachable;
      StepPending(f, p, heads, order, found);
    }
  }

  lemma ReadyParts(g: Graph, f: Flow)
    requires Ready(g, f)
    ensures g.Valid() && Shows(g, f) && Ordered(g, f) && f.AllReachable() && f.Valid() && g.entry == Some(f.entry)
    ensures forall n :: n in g.nodes <==> n in f.nodes
  {
  }

  /** The processed nodes are the headers of the intervals found so far. */
  ghost predicate Processed(processed: set<NodeId>, g: Graph, p: Partition)
    reads g
  {
    (forall n :: n in processed ==> n in g.nodes) && forall n :: n in processed <==> p.IsHead(n)
  }

  lemma ProcessedHead(processed: set<NodeId>, g: Graph, p: Partition, h: NodeId)
    requires Processed(processed, g, p)
    ensures p.IsHead(h) <==> h in processed
    ensures processed <= (set n | n in g.nodes)
  {
  }

  lemma ProcessedMore(processed: set<NodeId>, g: Graph, p: Partition, h: NodeId, order: seq<NodeId>, found: seq<NodeId>)
    requires Processed(processed, g, p) && h in g.nodes && |order| > 0 && order[0] == h && |p.orders| == |p.edges|
    ensures Processed(processed + {h}, g, Grown(p, order, found))
  {
    Extends(p, order, found);
  }

  /** The interval objects hold the absorption orders of the partition. */
  ghost predicate Listed(intervals: seq<Interval>, orders: seq<seq<NodeId>>)
    reads intervals
  {
    && |intervals| == |orders|
    && forall i :: 0 <= i < |intervals| ==> intervals[i].Valid() && intervals[i].order == orders[i]
  }

  lemma ListOne(intervals: seq<Interval>, orders: seq<seq<NodeId>>, iv: Interval)
    requires Listed(intervals, orders) && iv.Valid()
    ensures Listed(intervals + [iv], orders + [iv.order])
  {
  }

  lemma StartsWaiting(g: Graph, f: Flow, heads: seq<NodeId>)
    requires g.Valid() && heads == if g.entry.Some? then [g.entry.value] else []
    ensures Waits(g, Partition([], []), heads) && OwnsLast(map[], Partition([], [])) && Listed([], [])
    ensures Processed({}, g, Partition([], []))
    ensures ReadyWaits(g, f, Partition([], []), heads)
  {
  }

  /** What the last round of the worklist leaves on a graph that is ready. */
  lemma ReadyDone(g: Graph, f: Flow, p: Partition, owner: map<NodeId, nat>)
    requires Ready(g, f) && ReadyWaits(g, f, p, []) && Waits(g, p, []) && OwnsLast(owner, p)
    ensures f.Valid() && Divides(f, p) && Owns(owner, p) && |p.orders| > 0
    ensures g.entry == Some(f.entry) && f.entry in owner && owner[f.entry] == 0
  {
    ReadyParts(g, f);
    WaitsParts(g, p, []);
    hide Pending, Waits, OwnsLast, Divides, Flow.AllReachable, Owns;
    EmptyWorklistDivides(f, p);
    OwnsIfApart(owner, f, p);
    OwnsEntry(owner, p);
  }

  lemma OwnsEntry(owner: map<NodeId, nat>, p: Partition)
    requires Owns(owner, p) && |p.orders| > 0 && |p.orders[0]| > 0
    ensures p.orders[0][0] in owner && owner[p.orders[0][0]] == 0
  {
    assert p.orders[0][0] in p.orders[0];
  }

  lemma LastOwnsEntry(g: Graph, p: Partition, owner: map<NodeId, nat>)
    requires Finished(g, p) && OwnsLast(owner, p) && g.entry.Some?
    ensures g.entry.value in owner
  {
    assert GroupAt(g, p, 0);
    assert p.orders[0][0] in p.orders[0];
  }

  /** One round of interval analysis: the derived graph, whose node `i` is interval `i`,
      the intervals, oldest first, and the interval every node belongs to. On a graph that is
      ready the intervals are a partition and the derived graph starts at the first; on any
      other it starts at the last interval that absorbed the entry, and without an entry
      there is nothing. */
  method Intervals(g: Graph, ghost f: Flow)
    returns (next: Graph, intervals: seq<Interval>, owner: map<NodeId, nat>, ghost part: Partition)
    requires g.Valid()
    ensures fresh(next) && Finished(g, part) && OwnsLast(owner, part) && Listed(intervals, part.orders)
    ensures g.entry.Some? ==> g.entry.value in owner
    ensures InTurn(g, part) && BacksRecorded(g, part)
    ensures DerivesFrom(next, part, if g.entry.Some? then Some(owner[g.entry.value]) else None)
    ensures Ready(g, f) ==> Derives(next, part) && f.Valid() && Divides(f, part) && Owns(owner, part)
  {
    hide *;
    var heads := if g.entry.Some? then [g.entry.value] else [];
    var processed: set<NodeId> := {};
    var edges: seq<seq<NodeId>> := [];
    intervals, owner, part := [], map[], Partition([], []);
    ghost var pos := 0;
    StartsWaiting(g, f, heads);
    QueueStarts(g);
    GraphDistinct(g);
    while |heads| > 0
      invariant Queue(g, part, heads, pos)
      invariant Waits(g, part, heads) && OwnsLast(owner, part)
      invariant ReadyWaits(g, f, part, heads)
      invariant edges == part.edges && |edges| == |intervals| == |part.orders| && Listed(intervals, part.orders)
      invariant Processed(processed, g, part)
      decreases (set n | n in g.nodes) - processed, |heads|
    {
      var head := heads[0];
      WaitsParts(g, part, heads);
      ProcessedHead(processed, g, part, head);
      if head in processed {
        WaitsDrop(g, part, heads);
        ReadyDrop(g, f, part, heads);
        QueueDrop(g, part, heads, pos);
        heads := heads[1..];
        pos := pos + 1;
      } else {
        var iv, found := NextInterval(g, f, part, heads);
        ProcessedMore(processed, g, part, head, iv.order, found);
        processed := processed + {head};
        IntervalHolds(iv);
        OwnsMore(owner, part, iv.order, iv.content, found);
        owner := Owned(owner, iv.content, |intervals|);
        ListOne(intervals, part.orders, iv);
        GrownIs(part, iv.order, found);
        WaitsGrouped(g, part, heads);
        QueueMore(g, part, heads, pos, iv.order, found);
        intervals, edges := intervals + [iv], edges + [found];
        part := Grown(part, iv.order, found);
        heads := heads[1..] + found;
        pos := pos + 1;
      }
    }
    WaitsDone(g, part);
    QueueParts(g, part, heads, pos);
    if g.entry.Some? { LastOwnsEntry(g, part, owner); }
    if Ready(g, f) { ReadyDone(g, f, part, owner); }
    next := BuildDerived(intervals, edges, owner, g.entry, g, part);
    DerivesAtFirst(next, part);
  }

  lemma GraphDistinct(g: Graph)
    requires g.Valid()
    ensures Distinct(g.nodes)
  {
  }

  lemma WaitsGrouped(g: Graph, p: Partition, heads: seq<NodeId>)
    requires Waits(g, p, heads)
    ensures Grouped(g, p)
  {
    hide Grouped;
  }

  lemma ReadyDrop(g: Graph, f: Flow, p: Partition, heads: seq<NodeId>)
    requires ReadyWaits(g, f, p, heads) && |heads| > 0 && p.IsHead(heads[0])
    ensures ReadyWaits(g, f, p, heads[1..])
  {
    if Ready(g, f) { DropHead(f, p, heads); }
  }

  lemma IntervalHolds(iv: Interval)
    requires iv.Valid()
    ensures forall n :: n in iv.content <==> n in iv.order
  {
  }

  lemma GrownIs(p: Partition, order: seq<NodeId>, found: seq<NodeId>)
    ensures Grown(p, order, found).orders == p.orders + [order] && Grown(p, order, found).edges == p.edges + [found]
  {
  }

  lemma DerivesAtFirst(next: Graph, p: Partition)
    ensures DerivesFrom(next, p, Some(0)) ==> Derives(next, p)
  {
  }

  method BuildDerived(intervals: seq<Interval>, edges: seq<seq<NodeId>>, owner: map<NodeId, nat>,
      entry: Option<NodeId>, ghost g: Graph, ghost p: Partition) returns (next: Graph)
    requires |intervals| == |edges| == |p.orders| && edges == p.edges && Listed(intervals, p.orders)
    requires forall i, h :: 0 <= i < |edges| && h in edges[i] ==> p.IsHead(h)
    requires Grouped(g, p) && OwnsLast(owner, p) && (entry.Some? ==> entry.value in owner)
    ensures fresh(next) && DerivesFrom(next, p, if entry.Some? then Some(owner[entry.value]) else None)
  {
    hide *;
    ListedHeads(intervals, g, p);
    OwnedBelow(owner, p);
    var intervHeads;
    next, intervHeads := BuildNodes(intervals, p);
    NothingBuilt(next, p);
    for i := 0 to |edges|
      invariant Built(next, p, i)
    {
      AddRecorded(next, intervHeads, i, edges[i], p);
    }
    StartAt(next, if entry.Some? then Some(owner[entry.value]) else None, p);
  }

  method StartAt(next: Graph, start: Option<NodeId>, ghost p: Partition)
    requires |p.edges| == |p.orders| && Built(next, p, |p.edges|) && (start.Some? ==> start.value < |p.edges|)
    modifies next`entry
    ensures DerivesFrom(next, p, start)
  {
    next.entry := start;
    hide Mirror, Distinct;
  }

  lemma NothingBuilt(next: Graph, p: Partition)
    requires next.Valid() && next.entry == None && next.edges == map[] && next.catchEdges == map[]
    requires |next.nodes| == |p.edges| && forall n: NodeId :: n in next.nodes <==> n < |p.edges|
    ensures Built(next, p, 0)
  {
  }

  /** The edges of the first `k` intervals are in place. */
  ghost predicate Built(next: Graph, p: Partition, k: nat)
    reads next
  {
    && next.Valid() && next.entry == None && (forall i, j :: !Edge(next.catchEdges, i, j))
    && |next.nodes| == |p.edges| && (forall n: NodeId :: n in next.nodes <==> n < |p.edges|)
    && forall a: NodeId, b: NodeId :: Edge(next.edges, a, b) <==> a < k && Recorder(p, a, b)
  }

  lemma OwnedBelow(owner: map<NodeId, nat>, p: Partition)
    requires OwnsLast(owner, p)
    ensures forall n :: n in owner ==> owner[n] < |p.orders|
  {
  }

  method BuildNodes(intervals: seq<Interval>, ghost p: Partition) returns (next: Graph, heads: map<NodeId, nat>)
    requires |intervals| == |p.orders|
    requires forall i :: 0 <= i < |intervals| ==> |p.orders[i]| > 0 && intervals[i].head == p.orders[i][0]
    requires forall i, j :: 0 <= i < j < |intervals| ==> p.orders[i][0] != p.orders[j][0]
    ensures fresh(next) && next.Valid() && next.entry == None && next.edges == map[] && next.catchEdges == map[]
    ensures |next.nodes| == |intervals| && forall n: NodeId :: n in next.nodes <==> n < |intervals|
    ensures HeadIndex(heads, p, |intervals|)
  {
    next := new Graph();
    heads := map[];
    for i := 0 to |intervals|
      invariant next.Valid() && next.entry == None && next.edges == map[] && next.catchEdges == map[]
      invariant |next.nodes| == i && forall n: NodeId :: n in next.nodes <==> n < i
      invariant HeadIndex(heads, p, i)
    {
      next.AddNode(i);
      heads := heads[intervals[i].head := i];
    }
  }

  /** `heads` maps the header of each of the first `k` intervals to its number. */
  ghost predicate HeadIndex(heads: map<NodeId, nat>, p: Partition, k: nat)
    requires k <= |p.orders|
  {
    && (forall j :: 0 <= j < k ==> |p.orders[j]| > 0 && p.orders[j][0] in heads && heads[p.orders[j][0]] == j)
    && (forall h :: h in heads ==> heads[h] < k && |p.orders[heads[h]]| > 0 && p.orders[heads[h]][0] == h)
  }

  lemma ListedHeads(intervals: seq<Interval>, g: Graph, p: Partition)
    requires Listed(intervals, p.orders) && Grouped(g, p)
    ensures forall i :: 0 <= i < |intervals| ==> |p.orders[i]| > 0 && intervals[i].head == p.orders[i][0]
    ensures forall i, j :: 0 <= i < j < |intervals| ==> p.orders[i][0] != p.orders[j][0]
  {
    forall i | 0 <= i < |intervals|
      ensures |p.orders[i]| > 0 && intervals[i].head == p.orders[i][0]
    {
      assert GroupAt(g, p, i);
    }
  }

  /** So are those of interval `i` to the headers in `hs`. */
  ghost predicate PartlyBuilt(next: Graph, p: Partition, i: nat, hs: seq<NodeId>)
    requires |p.edges| == |p.orders|
    reads next
  {
    && next.Valid() && next.entry == None && (forall a, b :: !Edge(next.catchEdges, a, b))
    && |next.nodes| == |p.edges| && (forall n: NodeId :: n in next.nodes <==> n < |p.edges|)
    && forall a: NodeId, b: NodeId :: Edge(next.edges, a, b) <==>
         (a < i && Recorder(p, a, b)) || (a == i && b < |p.orders| && |p.orders[b]| > 0 && p.orders[b][0] in hs)
  }

  method AddRecorded(next: Graph, heads: map<NodeId, nat>, i: nat, edges: seq<NodeId>, ghost p: Partition)
    requires |p.edges| == |p.orders| && i < |p.edges| && edges == p.edges[i]
    requires HeadIndex(heads, p, |p.orders|) && forall h :: h in edges ==> p.IsHead(h)
    requires Built(next, p, i)
    modifies next`edges, next`reverseEdges
    ensures Built(next, p, i + 1)
  {
    hide *;
    PartlyNone(next, p, i);
    for k := 0 to |edges|
      invariant PartlyBuilt(next, p, i, edges[..k])
    {
      var h := edges[k];
      assert edges[..k + 1] == edges[..k] + [h];
      IndexOf(heads, p, h);
      if h in heads {
        AddOne(next, p, i, edges[..k], h, heads[h]);
      }
    }
    assert edges[..|edges|] == edges;
    PartlyAll(next, p, i);
  }

  method AddOne(next: Graph, ghost p: Partition, i: nat, ghost hs: seq<NodeId>, ghost h: NodeId, j: nat)
    requires |p.edges| == |p.orders| && i < |p.edges| && PartlyBuilt(next, p, i, hs)
    requires j < |p.orders| && forall b: nat :: b < |p.orders| && |p.orders[b]| > 0 && p.orders[b][0] == h <==> b == j
    modifies next`edges, next`reverseEdges
    ensures PartlyBuilt(next, p, i, hs + [h])
  {
    hide Mirror, Distinct, Recorder;
    next.AddEdge(i, j);
  }

  lemma IndexOf(heads: map<NodeId, nat>, p: Partition, h: NodeId)
    requires HeadIndex(heads, p, |p.orders|) && p.IsHead(h)
    ensures h in heads && heads[h] < |p.orders|
    ensures forall b: nat :: b < |p.orders| && |p.orders[b]| > 0 && p.orders[b][0] == h <==> b == heads[h]
  {
  }

  lemma PartlyNone(next: Graph, p: Partition, i: nat)
    requires |p.edges| == |p.orders| && Built(next, p, i)
    ensures PartlyBuilt(next, p, i, [])
  {
    hide Mirror, Distinct;
  }

  lemma PartlyAll(next: Graph, p: Partition, i: nat)
    requires |p.edges| == |p.orders| && i < |p.edges| && PartlyBuilt(next, p, i, p.edges[i])
    ensures Built(next, p, i + 1)
  {
    hide Mirror, Distinct;
  }
}
