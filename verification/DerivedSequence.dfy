/** The derived sequence: interval analysis repeated on its own result until a single
    interval is left. */
module DerivedSequence {
  import opened Options
  import opened Graphs
  import opened IntervalAnalysis
  import opened IntervalLaws

  datatype Round = Round(graph: Graph, intervals: seq<Interval>, owner: map<NodeId, nat>)

  /** The flow that round `k` partitions: the input, then each derived graph in turn. */
  ghost function FlowAt(f: Flow, parts: seq<Partition>, k: nat): Flow
    requires k <= |parts|
  {
    if k == 0 then f else DerivedFlow(parts[k - 1])
  }

  /** Each round partitions the result of the one before. */
  ghost predicate Chained(f: Flow, parts: seq<Partition>) {
    forall k :: 0 <= k < |parts| ==> FlowAt(f, parts, k).Valid() && Divides(FlowAt(f, parts, k), parts[k])
  }

  /** After the first round every round leaves strictly fewer intervals. */
  ghost predicate Shrinks(parts: seq<Partition>) {
    forall k :: 0 < k < |parts| ==> |parts[k].orders| < |parts[k - 1].orders|
  }

  lemma RoundShrinks(f: Flow, parts: seq<Partition>, p: Partition)
    requires f.Valid() && Chained(f, parts) && |parts| > 0
    requires |parts[|parts| - 1].orders| > 1
    requires FlowAt(f, parts, |parts|).Valid() && Divides(FlowAt(f, parts, |parts|), p)
    ensures |p.orders| < |parts[|parts| - 1].orders|
  {
    hide Divides, Flow.Valid, HasLonePred;
    var k := |parts| - 1;
    assert FlowAt(f, parts, k).Valid();
    LastHasLonePred(FlowAt(f, parts, k), parts[k]);
    FewerIntervals(DerivedFlow(parts[k]), p);
    assert DerivedFlow(parts[k]).nodes == Below(|parts[k].orders|);
  }

  lemma AddRound(f: Flow, parts: seq<Partition>, p: Partition)
    requires f.Valid() && Chained(f, parts) && Shrinks(parts)
    requires |parts| > 0 ==> |parts[|parts| - 1].orders| > 1
    requires FlowAt(f, parts, |parts|).Valid() && Divides(FlowAt(f, parts, |parts|), p)
    ensures Chained(f, parts + [p]) && Shrinks(parts + [p])
    ensures FlowAt(f, parts + [p], |parts| + 1) == DerivedFlow(p)
    ensures |p.orders| > 0
    ensures |parts| > 0 ==> |p.orders| < |parts[|parts| - 1].orders|
  {
    hide Divides, Flow.Valid, DerivedFlow, Chained;
    NonEmpty(FlowAt(f, parts, |parts|), p);
    if |parts| > 0 {
      RoundShrinks(f, parts, p);
    }
    Prefix(f, parts, p);
    ChainMore(f, parts, p);
  }

  lemma NonEmpty(f: Flow, p: Partition)
    requires f.Valid() && Divides(f, p)
    ensures |p.orders| > 0
  {
  }

  lemma ChainMore(f: Flow, parts: seq<Partition>, p: Partition)
    requires Chained(f, parts) && FlowAt(f, parts, |parts|).Valid() && Divides(FlowAt(f, parts, |parts|), p)
    ensures Chained(f, parts + [p])
  {
    hide Divides, Flow.Valid, DerivedFlow;
    Prefix(f, parts, p);
  }

  lemma Prefix(f: Flow, parts: seq<Partition>, p: Partition)
    ensures forall k :: 0 <= k <= |parts| ==> FlowAt(f, parts + [p], k) == FlowAt(f, parts, k)
  {
  }

  method NumberDerived(g: Graph, ghost f: Flow, ghost p: Partition)
    requires f.Valid() && Divides(f, p) && Derives(g, p)
    modifies g`num, g`rpo
    ensures Ready(g, DerivedFlow(p)) && |g.nodes| == |p.orders| && Derives(g, p)
  {
    hide *;
    DerivedGraph(f, p, g);
    DerivedSize(g, p);
    DerivesIs(g, p);
    Number(g, DerivedFlow(p));
    ReadyParts(g, DerivedFlow(p));
    DerivesIf(g, p);
  }

  lemma DerivesIs(g: Graph, p: Partition)
    requires Derives(g, p)
    ensures g.entry == Some(0) && |g.nodes| == |p.orders|
    ensures forall n: NodeId :: n in g.nodes <==> n < |p.orders|
    ensures forall i: NodeId, j: NodeId :: Edge(g.edges, i, j) <==> Recorder(p, i, j)
    ensures forall i, j :: !Edge(g.catchEdges, i, j)
  {
    hide Edge, Recorder;
  }

  /** Numbering leaves the nodes and the edges alone. */
  lemma DerivesIf(g: Graph, p: Partition)
    requires g.Valid() && g.entry == Some(0) && |g.nodes| == |p.orders|
    requires forall n: NodeId :: n in g.nodes <==> n < |p.orders|
    requires forall i: NodeId, j: NodeId :: Edge(g.edges, i, j) <==> Recorder(p, i, j)
    requires forall i, j :: !Edge(g.catchEdges, i, j)
    ensures Derives(g, p)
  {
    hide Edge, Recorder;
  }

  lemma DerivedSize(g: Graph, p: Partition)
    requires Derives(g, p)
    ensures g.Valid() && |g.nodes| == |p.orders|
  {
  }

  method Number(g: Graph, ghost d: Flow)
    requires g.Valid() && Shows(g, d) && d.AllReachable() && g.ToFlow() == d
    modifies g`num, g`rpo
    ensures Ready(g, d) && |g.nodes| == |old(g.nodes)|
  {
    hide Flow.Valid, Flow.AllReachable, Graph.ToFlow, Flow.Reachable, Mirror, Distinct, Get;
    assert g.entry.Some?;
    g.ComputeRpo();
  }

  /** One round: interval analysis and the numbering of the derived graph. */
  method NextRound(current: Graph, ghost now: Flow) returns (round: Round, ghost part: Partition)
    requires Ready(current, now)
    ensures fresh(round.graph) && |round.graph.nodes| == |part.orders|
    ensures Divides(now, part) && Listed(round.intervals, part.orders) && Owns(round.owner, part)
    ensures Ready(round.graph, DerivedFlow(part))
    ensures InTurn(current, part) && BacksRecorded(current, part) && Derives(round.graph, part)
  {
    var next, intervals, owner;
    hide *;
    ReadyParts(current, now);
    next, intervals, owner, part := Intervals(current, now);
    NumberDerived(next, now, part);
    round := Round(next, intervals, owner);
  }

  /** The rounds made so far, `done` once one of them left a single interval. */
  ghost predicate Progress(f: Flow, parts: seq<Partition>, now: Flow, done: bool) {
    && f.Valid() && Chained(f, parts) && Shrinks(parts)
    && now == FlowAt(f, parts, |parts|)
    && if done then Collapses(parts) else forall k :: 0 <= k < |parts| ==> |parts[k].orders| > 1
  }

  ghost function Remaining(parts: seq<Partition>): nat {
    if |parts| == 0 then 0 else |parts[|parts| - 1].orders|
  }

  lemma Progresses(f: Flow, parts: seq<Partition>, now: Flow, p: Partition)
    requires Progress(f, parts, now, false) && now.Valid() && Divides(now, p)
    ensures Progress(f, parts + [p], DerivedFlow(p), |p.orders| == 1)
    ensures |parts| > 0 ==> Remaining(parts + [p]) < Remaining(parts)
  {
    hide Divides, Flow.Valid, DerivedFlow, Chained, Shrinks;
    AddRound(f, parts, p);
  }

  /** The graph that round `k` looked at. */
  function Seen(g: Graph, results: seq<Round>, k: nat): Graph
    requires k <= |results|
  {
    if k == 0 then g else results[k - 1].graph
  }

  /** Round `k` took the headers in turn and recorded edges accordingly, and its graph has
      exactly the edges recorded. */
  ghost predicate TurnsTaken(seen: Graph, round: Round, part: Partition)
    reads seen, round.graph
  {
    InTurn(seen, part) && BacksRecorded(seen, part) && Derives(round.graph, part)
  }

  /** Runs interval analysis to a single interval, on any graph whose nodes are all
      reachable. That the loop ends is proved, not capped. */
  method DerivedSequenceOf(g: Graph, ghost f: Flow)
    returns (graphs: seq<Graph>, results: seq<Round>, ghost parts: seq<Partition>)
    requires Ready(g, f)
    ensures Chained(f, parts) && Shrinks(parts) && Collapses(parts)
    ensures Recorded(g, graphs, results, parts, true)
    ensures |results| == |parts|
    ensures forall k :: 0 <= k < |results| ==>
      Listed(results[k].intervals, parts[k].orders) && Owns(results[k].owner, parts[k])
    ensures forall k :: 0 <= k < |results| ==> TurnsTaken(Seen(g, results, k), results[k], parts[k])
  {
    hide *;
    graphs, results, parts := [g], [], [];
    var current := g;
    var singleNode := false;
    ghost var now := f;
    Starts(g, f);
    SeenIs(g, []);
    while !singleNode
      invariant Ready(current, now) && Progress(f, parts, now, singleNode)
      invariant Recorded(g, graphs, results, parts, singleNode)
      invariant |results| == |parts|
      invariant forall k :: 0 <= k < |results| ==>
        Listed(results[k].intervals, parts[k].orders) && Owns(results[k].owner, parts[k])
      invariant current == Seen(g, results, |results|)
      invariant forall k :: 0 <= k < |results| ==> TurnsTaken(Seen(g, results, k), results[k], parts[k])
      decreases if |parts| == 0 then 1 else 0, Remaining(parts), !singleNode
    {
      var round;
      ghost var part;
      ReadyParts(current, now);
      label before:
      round, part := NextRound(current, now);
      forall k | 0 <= k < |results|
        ensures TurnsTaken(Seen(g, results, k), results[k], parts[k])
      {
        assert old@before(TurnsTaken(Seen(g, results, k), results[k], parts[k]));
      }
      Progresses(f, parts, now, part);
      singleNode := |round.graph.nodes| == 1;
      RecordOne(g, graphs, results, parts, round, part, singleNode);
      if !singleNode {
        graphs := graphs + [round.graph];
      }
      TakesTurns(current, round, part);
      SeenMore(g, results, parts, round, part);
      results := results + [round];
      parts := parts + [part];
      now := DerivedFlow(part);
      current := round.graph;
    }
    Finished(f, parts, now);
  }

  lemma TakesTurns(seen: Graph, round: Round, part: Partition)
    requires InTurn(seen, part) && BacksRecorded(seen, part) && Derives(round.graph, part)
    ensures TurnsTaken(seen, round, part)
  {
  }

  lemma SeenIs(g: Graph, results: seq<Round>)
    ensures Seen(g, results, |results|) == if |results| == 0 then g else results[|results| - 1].graph
  {
  }

  lemma SeenMore(g: Graph, results: seq<Round>, parts: seq<Partition>, round: Round, part: Partition)
    requires |results| == |parts| && TurnsTaken(Seen(g, results, |results|), round, part)
    requires forall k :: 0 <= k < |results| ==> TurnsTaken(Seen(g, results, k), results[k], parts[k])
    ensures var rs, ps := results + [round], parts + [part];
      && Seen(g, rs, |rs|) == round.graph
      && forall k :: 0 <= k < |rs| ==> TurnsTaken(Seen(g, rs, k), rs[k], ps[k])
  {
    hide TurnsTaken;
  }

  lemma Starts(g: Graph, f: Flow)
    requires Ready(g, f)
    ensures Progress(f, [], f, false) && Recorded(g, [g], [], [], false)
  {
    hide Ordered;
  }

  lemma Finished(f: Flow, parts: seq<Partition>, now: Flow)
    requires Progress(f, parts, now, true)
    ensures Chained(f, parts) && Shrinks(parts) && Collapses(parts)
  {
  }

  /** Only the last round leaves a single interval. */
  ghost predicate Collapses(parts: seq<Partition>) {
    && |parts| > 0 && |parts[|parts| - 1].orders| == 1
    && forall k :: 0 <= k < |parts| - 1 ==> |parts[k].orders| > 1
  }

  /** `graphs` is the input followed by every derived graph of more than one node. */
  ghost predicate Recorded(g: Graph, graphs: seq<Graph>, results: seq<Round>, parts: seq<Partition>, done: bool) {
    && |results| == |parts|
    && |graphs| == (if done then |parts| else |parts| + 1)
    && |graphs| > 0 && graphs[0] == g
    && (forall k :: 0 < k < |graphs| ==> graphs[k] == results[k - 1].graph)
  }

  lemma RecordOne(g: Graph, graphs: seq<Graph>, results: seq<Round>, parts: seq<Partition>, round: Round,
        part: Partition, done: bool)
    requires Recorded(g, graphs, results, parts, false)
    ensures Recorded(g, if done then graphs else graphs + [round.graph], results + [round], parts + [part], done)
  {
  }

  /** Nested membership: interval `i` of round `k` holds node `n` of the input graph,
      directly or inside one of the intervals it is made of. */
  ghost predicate Contains(parts: seq<Partition>, k: nat, i: NodeId, n: NodeId)
    requires k < |parts|
  {
    i < |parts[k].orders| &&
    if k == 0 then n in parts[0].orders[i]
    else exists j :: j in parts[k].orders[i] && Contains(parts, k - 1, j, n)
  }

  ghost predicate OnlyContainer(parts: seq<Partition>, k: nat, i: NodeId, n: NodeId)
    requires k < |parts|
  {
    Contains(parts, k, i, n) && forall j :: Contains(parts, k, j, n) ==> j == i
  }

  /** At every level, every node of the input lies in exactly one interval. */
  lemma {:induction false} ContainedOnce(f: Flow, parts: seq<Partition>, k: nat, n: NodeId) returns (i: NodeId)
    requires Chained(f, parts) && k < |parts| && f.Valid() && n in f.nodes
    ensures OnlyContainer(parts, k, i, n)
  {
    hide *;
    RoundDivides(f, parts, k);
    if k == 0 {
      ExactlyOneInterval(f, parts[0], n);
      i :| OnlyIn(parts[0], i, n);
      DirectMember(parts, i, n);
    } else {
      var m := ContainedOnce(f, parts, k - 1, n);
      ContainerIsNode(f, parts, k, m, n);
      ExactlyOneInterval(FlowAt(f, parts, k), parts[k], m);
      i :| OnlyIn(parts[k], i, m);
      NestedMember(parts, k, m, i, n);
    }
  }

  lemma RoundDivides(f: Flow, parts: seq<Partition>, k: nat)
    requires Chained(f, parts) && k < |parts|
    ensures FlowAt(f, parts, k).Valid() && Divides(FlowAt(f, parts, k), parts[k])
    ensures k == 0 ==> FlowAt(f, parts, k) == f
  {
  }

  lemma DirectMember(parts: seq<Partition>, i: NodeId, n: NodeId)
    requires |parts| > 0 && OnlyIn(parts[0], i, n)
    ensures OnlyContainer(parts, 0, i, n)
  {
  }

  lemma ContainerIsNode(f: Flow, parts: seq<Partition>, k: nat, m: NodeId, n: NodeId)
    requires 0 < k < |parts| && OnlyContainer(parts, k - 1, m, n)
    ensures m in FlowAt(f, parts, k).nodes
  {
  }

  lemma NestedMember(parts: seq<Partition>, k: nat, m: NodeId, i: NodeId, n: NodeId)
    requires 0 < k < |parts| && OnlyContainer(parts, k - 1, m, n) && OnlyIn(parts[k], i, m)
    ensures OnlyContainer(parts, k, i, n)
  {
  }

  /** So the one interval that is left in the end holds the whole graph. */
  lemma LastHoldsAll(f: Flow, parts: seq<Partition>, n: NodeId)
    requires Chained(f, parts) && Collapses(parts) && f.Valid() && n in f.nodes
    ensures Contains(parts, |parts| - 1, 0, n)
  {
    hide Divides, Flow.Valid, Chained;
    var i := ContainedOnce(f, parts, |parts| - 1, n);
    assert i < |parts[|parts| - 1].orders|;
  }
}
