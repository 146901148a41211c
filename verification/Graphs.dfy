/** The control-flow graph of one method body: node list, successor and predecessor
    tables for normal and for exception edges, and the two traversals over them. */
module Graphs {
  import opened Options

  type NodeId = nat
  type Table = map<NodeId, seq<NodeId>>

  /** A table reads as empty where it has no entry. */
  function Get(t: Table, n: NodeId): seq<NodeId> {
    if n in t then t[n] else []
  }

  ghost predicate Distinct<T>(s: seq<T>) {
    forall i, j :: 0 <= i < j < |s| ==> s[i] != s[j]
  }

  predicate Edge(t: Table, a: NodeId, b: NodeId) {
    b in Get(t, a)
  }

  /** Appends `b` to the entry of `a` unless it is already there. */
  function Plus(t: Table, a: NodeId, b: NodeId): (r: Table)
    ensures forall x, y :: Edge(r, x, y) <==> Edge(t, x, y) || (x == a && y == b)
    ensures forall x :: x != a ==> Get(r, x) == Get(t, x)
  {
    if b in Get(t, a) then t else t[a := Get(t, a) + [b]]
  }

  /** `fwd` and `bwd` record the same edges, each at most once, between `nodes` only. */
  ghost predicate Mirror(nodes: seq<NodeId>, fwd: Table, bwd: Table) {
    && (forall a, b :: Edge(fwd, a, b) <==> Edge(bwd, b, a))
    && (forall a :: Distinct(Get(fwd, a)))
    && (forall b :: Distinct(Get(bwd, b)))
    && (forall a, b :: Edge(fwd, a, b) ==> a in nodes && b in nodes)
  }

  lemma MirrorGrows(nodes: seq<NodeId>, nodes': seq<NodeId>, fwd: Table, bwd: Table)
    requires Mirror(nodes, fwd, bwd) && forall n :: n in nodes ==> n in nodes'
    ensures Mirror(nodes', fwd, bwd)
  {
  }

  lemma MirrorPlus(nodes: seq<NodeId>, fwd: Table, bwd: Table, a: NodeId, b: NodeId)
    requires Mirror(nodes, fwd, bwd) && a in nodes && b in nodes
    ensures Mirror(nodes, Plus(fwd, a, b), Plus(bwd, b, a))
  {
    var fwd', bwd' := Plus(fwd, a, b), Plus(bwd, b, a);
    forall x ensures Distinct(Get(fwd', x)) { if x == a { assert Distinct(Get(fwd, x)); } }
    forall y ensures Distinct(Get(bwd', y)) { if y == b { assert Distinct(Get(bwd, y)); } }
  }

  /** What the interval analysis sees of a graph: its nodes and all predecessors. */
  datatype Flow = Flow(entry: NodeId, nodes: set<NodeId>, preds: map<NodeId, set<NodeId>>) {
    ghost predicate Valid() {
      && entry in nodes
      && preds.Keys == nodes
      && forall n :: n in nodes ==> preds[n] <= nodes
    }

    ghost predicate IsPath(p: seq<NodeId>) {
      && |p| > 0
      && (forall i :: 0 <= i < |p| ==> p[i] in nodes)
      && forall i :: 0 < i < |p| ==> p[i] in preds && p[i - 1] in preds[p[i]]
    }

    ghost predicate Reachable(n: NodeId) {
      exists p :: IsPath(p) && p[0] == entry && p[|p| - 1] == n
    }

    ghost predicate AllReachable() {
      forall n :: n in nodes ==> Reachable(n)
    }
  }

  lemma ReachStep(f: Flow, a: NodeId, b: NodeId)
    requires f.Valid() && f.Reachable(a) && b in f.nodes && a in f.preds[b]
    ensures f.Reachable(b)
  {
    var p :| f.IsPath(p) && p[0] == f.entry && p[|p| - 1] == a;
    var q := p + [b];
    assert f.IsPath(q);
  }

  /** A set holding the entry and closed under successors holds every reachable node. */
  lemma {:induction false} ClosedHoldsReachable(f: Flow, s: set<NodeId>, p: seq<NodeId>)
    requires f.Valid() && f.entry in s
    requires forall a, b :: a in s && b in f.nodes && a in f.preds[b] ==> b in s
    requires f.IsPath(p) && p[0] == f.entry
    ensures p[|p| - 1] in s
  {
    if |p| > 1 {
      var q := p[..|p| - 1];
      assert f.IsPath(q);
      ClosedHoldsReachable(f, s, q);
    }
  }

  /** One open node of a depth-first traversal: its successors before `i` are visited. */
  datatype Frame = Frame(node: NodeId, sucs: seq<NodeId>, i: nat)

  ghost predicate ListsSucs(f: Flow, n: NodeId, sucs: seq<NodeId>)
    requires f.Valid()
  {
    forall b :: b in f.nodes ==> (b in sucs <==> n in f.preds[b])
  }

  ghost predicate Open(f: Flow, visited: set<NodeId>, fr: Frame)
    requires f.Valid()
  {
    && fr.node in visited && fr.i <= |fr.sucs|
    && ListsSucs(f, fr.node, fr.sucs) && (forall b :: b in fr.sucs ==> b in f.nodes)
    && forall j :: 0 <= j < fr.i ==> fr.sucs[j] in visited
  }

  ghost predicate Finished(f: Flow, visited: set<NodeId>, n: NodeId)
    requires f.Valid()
  {
    n in visited && forall b :: b in f.nodes && n in f.preds[b] ==> b in visited
  }

  ghost function Nodes(stack: seq<Frame>): (r: seq<NodeId>)
    ensures |r| == |stack| && forall k :: 0 <= k < |r| ==> r[k] == stack[k].node
  {
    seq(|stack|, k requires 0 <= k < |stack| => stack[k].node)
  }

  /** The depth-first invariant: every visited node is reachable and is either on the
      stack or finished, and the entry is at the bottom. */
  ghost predicate Traversal(f: Flow, visited: set<NodeId>, stack: seq<Frame>, out: seq<NodeId>) {
    && f.Valid()
    && (forall n :: n in visited ==> n in f.nodes && f.Reachable(n))
    && (forall k :: 0 <= k < |stack| ==> Open(f, visited, stack[k]))
    && (forall n :: n in out ==> Finished(f, visited, n))
    && (forall n :: n in visited ==> n in out || n in Nodes(stack))
    && Distinct(out + Nodes(stack))
    && (if |stack| > 0 then stack[0].node == f.entry else |out| > 0 && out[|out| - 1] == f.entry)
  }

  lemma TraversalStarts(f: Flow, fr: Frame)
    requires f.Valid() && fr.node == f.entry && fr.i == 0 && ListsSucs(f, fr.node, fr.sucs)
    requires forall b :: b in fr.sucs ==> b in f.nodes
    ensures Traversal(f, {f.entry}, [fr], [])
  {
    assert f.IsPath([f.entry]);
    assert [] + Nodes([fr]) == [f.entry];
  }

  lemma TopOpen(f: Flow, visited: set<NodeId>, stack: seq<Frame>, out: seq<NodeId>)
    requires Traversal(f, visited, stack, out) && |stack| > 0
    ensures var top := stack[|stack| - 1];
            && visited <= f.nodes && top.i <= |top.sucs|
            && forall b :: b in top.sucs ==> b in f.nodes
  {
  }

  lemma Skip(f: Flow, visited: set<NodeId>, stack: seq<Frame>, out: seq<NodeId>)
    requires Traversal(f, visited, stack, out) && |stack| > 0
    requires var top := stack[|stack| - 1]; top.i < |top.sucs| && top.sucs[top.i] in visited
    ensures var top := stack[|stack| - 1];
            Traversal(f, visited, stack[|stack| - 1 := top.(i := top.i + 1)], out)
  {
    var top := stack[|stack| - 1];
    assert Nodes(stack[|stack| - 1 := top.(i := top.i + 1)]) == Nodes(stack);
  }

  lemma OpenMore(f: Flow, visited: set<NodeId>, more: set<NodeId>, fr: Frame)
    requires f.Valid() && Open(f, visited, fr)
    ensures Open(f, visited + more, fr)
    ensures fr.i < |fr.sucs| && fr.sucs[fr.i] in more ==> Open(f, visited + more, fr.(i := fr.i + 1))
  {
  }

  lemma FinishedMore(f: Flow, visited: set<NodeId>, more: set<NodeId>, n: NodeId)
    requires f.Valid() && Finished(f, visited, n)
    ensures Finished(f, visited + more, n)
  {
  }

  /** The nodes on the stack after a push, and that none of them is there twice. */
  lemma PushedNodes(stack: seq<Frame>, out: seq<NodeId>, top: Frame, fr: Frame)
    requires |stack| > 0 && top.node == stack[|stack| - 1].node
    requires Distinct(out + Nodes(stack)) && fr.node !in out + Nodes(stack)
    ensures var stack' := stack[|stack| - 1 := top] + [fr];
      Nodes(stack') == Nodes(stack) + [fr.node] && Distinct(out + Nodes(stack'))
  {
    var stack' := stack[|stack| - 1 := top] + [fr];
    assert Nodes(stack') == Nodes(stack) + [fr.node];
    assert out + Nodes(stack') == out + Nodes(stack) + [fr.node];
  }

  lemma Push(f: Flow, visited: set<NodeId>, stack: seq<Frame>, out: seq<NodeId>, suc: NodeId, sucs: seq<NodeId>)
    requires Traversal(f, visited, stack, out) && |stack| > 0
    requires var top := stack[|stack| - 1]; top.i < |top.sucs| && top.sucs[top.i] == suc
    requires suc !in visited && ListsSucs(f, suc, sucs) && forall b :: b in sucs ==> b in f.nodes
    ensures var top := stack[|stack| - 1];
            Traversal(f, visited + {suc}, stack[|stack| - 1 := top.(i := top.i + 1)] + [Frame(suc, sucs, 0)], out)
  {
    var top := stack[|stack| - 1];
    var next := top.(i := top.i + 1);
    var stack' := stack[|stack| - 1 := next] + [Frame(suc, sucs, 0)];
    assert Open(f, visited, top);
    ReachStep(f, top.node, suc);
    assert forall n :: n in out + Nodes(stack) ==> n in visited;
    assert Open(f, visited + {suc}, Frame(suc, sucs, 0));
    PushedNodes(stack, out, next, Frame(suc, sucs, 0));
    hide Open, Finished, Distinct, Flow.Reachable, Flow.Valid, ListsSucs, Nodes;
    forall k | 0 <= k < |stack'| ensures Open(f, visited + {suc}, stack'[k]) {
      if k < |stack| { OpenMore(f, visited, {suc}, stack[k]); }
    }
    forall n | n in out ensures Finished(f, visited + {suc}, n) {
      FinishedMore(f, visited, {suc}, n);
    }
  }

  lemma Pop(f: Flow, visited: set<NodeId>, stack: seq<Frame>, out: seq<NodeId>)
    requires Traversal(f, visited, stack, out) && |stack| > 0
    requires var top := stack[|stack| - 1]; top.i == |top.sucs|
    ensures Traversal(f, visited, stack[..|stack| - 1], out + [stack[|stack| - 1].node])
  {
    var last := |stack| - 1;
    var top := stack[last];
    assert Open(f, visited, top);
    assert Nodes(stack) == Nodes(stack[..last]) + [top.node];
    PopDistinct(out, Nodes(stack[..last]), top.node);
  }

  lemma PopDistinct(out: seq<NodeId>, below: seq<NodeId>, n: NodeId)
    requires Distinct(out + (below + [n]))
    ensures Distinct(out + [n] + below)
  {
    var all, all' := out + (below + [n]), out + [n] + below;
    forall i, j | 0 <= i < j < |all'|
      ensures all'[i] != all'[j]
    {
      var k := |out|;
      var i', j' := if i < k then i else if i == k then |all| - 1 else i - 1,
                    if j < k then j else if j == k then |all| - 1 else j - 1;
      assert all'[i] == all[i'] && all'[j] == all[j'];
    }
  }

  lemma TraversalEnds(f: Flow, visited: set<NodeId>, out: seq<NodeId>)
    requires Traversal(f, visited, [], out)
    ensures Distinct(out) && |out| > 0 && out[|out| - 1] == f.entry
    ensures forall n :: n in out <==> n in f.nodes && f.Reachable(n)
  {
    assert Nodes([]) == [] && out + Nodes([]) == out;
    forall n | n in f.nodes && f.Reachable(n)
      ensures n in out
    {
      var p :| f.IsPath(p) && p[0] == f.entry && p[|p| - 1] == n;
      assert forall a :: a in visited ==> Finished(f, visited, a);
      assert f.entry in out;
      ClosedHoldsReachable(f, visited, p);
    }
  }

  /** Some path leads from `a` to `b`. */
  ghost predicate Leads(f: Flow, a: NodeId, b: NodeId) {
    exists p :: f.IsPath(p) && p[0] == a && p[|p| - 1] == b
  }

  lemma LeadsItself(f: Flow, a: NodeId)
    requires a in f.nodes
    ensures Leads(f, a, a)
  {
    assert f.IsPath([a]);
  }

  lemma LeadsOn(f: Flow, a: NodeId, b: NodeId, c: NodeId)
    requires f.Valid() && Leads(f, a, b) && c in f.nodes && b in f.preds[c]
    ensures Leads(f, a, c)
  {
    var p :| f.IsPath(p) && p[0] == a && p[|p| - 1] == b;
    assert f.IsPath(p + [c]);
  }

  /** Each open node was come to from the one below it. */
  ghost predicate Climbs(f: Flow, ns: seq<NodeId>) {
    && (forall k :: 0 <= k < |ns| ==> ns[k] in f.nodes)
    && forall k :: 0 < k < |ns| ==> ns[k] in f.preds && ns[k - 1] in f.preds[ns[k]]
  }

  lemma {:induction false} ClimbLeads(f: Flow, ns: seq<NodeId>, k: nat)
    requires f.Valid() && Climbs(f, ns) && k < |ns|
    ensures Leads(f, ns[k], ns[|ns| - 1])
    decreases |ns|
  {
    if k == |ns| - 1 {
      LeadsItself(f, ns[k]);
    } else {
      ClimbLeads(f, ns[..|ns| - 1], k);
      LeadsOn(f, ns[k], ns[|ns| - 2], ns[|ns| - 1]);
    }
  }

  /** What node `a` leads to was finished before it, or leads back to it. */
  ghost predicate BackAt(f: Flow, a: NodeId, before: seq<NodeId>)
    requires f.Valid()
  {
    forall b :: b in f.nodes && a in f.preds[b] ==> b in before || Leads(f, b, a)
  }

  /** The nodes are listed so that an edge to a later one closes a cycle. */
  ghost predicate PostOrdered(f: Flow, out: seq<NodeId>)
    requires f.Valid()
  {
    forall j :: 0 <= j < |out| ==> BackAt(f, out[j], out[..j])
  }

  /** All that the top node leads to is left or open. */
  lemma TopDone(f: Flow, visited: set<NodeId>, stack: seq<Frame>, out: seq<NodeId>)
    requires Traversal(f, visited, stack, out) && |stack| > 0
    requires var top := stack[|stack| - 1]; top.i == |top.sucs|
    ensures f.Valid()
    ensures forall b :: b in f.nodes && stack[|stack| - 1].node in f.preds[b] ==> b in out || b in Nodes(stack)
  {
    hide Flow.Reachable, Distinct, Finished;
    assert Open(f, visited, stack[|stack| - 1]);
  }

  lemma PostOrderedPlus(f: Flow, out: seq<NodeId>, a: NodeId)
    requires f.Valid() && PostOrdered(f, out) && BackAt(f, a, out)
    ensures PostOrdered(f, out + [a])
  {
    hide BackAt;
    var out' := out + [a];
    forall j | 0 <= j < |out'|
      ensures BackAt(f, out'[j], out'[..j])
    {
      if j < |out| {
        assert out'[..j] == out[..j] && BackAt(f, out[j], out[..j]);
      } else {
        assert out'[..j] == out;
      }
    }
  }

  lemma ClimbLess(f: Flow, ns: seq<NodeId>)
    requires Climbs(f, ns) && |ns| > 0
    ensures Climbs(f, ns[..|ns| - 1])
  {
  }

  lemma ClimbPlus(f: Flow, ns: seq<NodeId>, b: NodeId)
    requires f.Valid() && Climbs(f, ns) && |ns| > 0 && b in f.nodes && ns[|ns| - 1] in f.preds[b]
    ensures Climbs(f, ns + [b])
  {
  }

  /** What a node left now leads to was left before it, or is open and leads down to it. */
  lemma PostOrderedMore(f: Flow, visited: set<NodeId>, stack: seq<Frame>, out: seq<NodeId>)
    requires Traversal(f, visited, stack, out) && |stack| > 0 && Climbs(f, Nodes(stack))
    requires f.Valid() && PostOrdered(f, out)
    requires var top := stack[|stack| - 1]; top.i == |top.sucs|
    ensures PostOrdered(f, out + [stack[|stack| - 1].node]) && Climbs(f, Nodes(stack[..|stack| - 1]))
  {
    hide Leads, Traversal, PostOrdered, Climbs;
    var last := |stack| - 1;
    var a, ns := stack[last].node, Nodes(stack);
    assert Nodes(stack[..last]) == ns[..last];
    TopDone(f, visited, stack, out);
    ClimbLess(f, ns);
    forall b | b in f.nodes && a in f.preds[b]
      ensures b in out || Leads(f, b, a)
    {
      if b !in out {
        var k :| 0 <= k < |ns| && ns[k] == b;
        ClimbLeads(f, ns, k);
      }
    }
    PostOrderedPlus(f, out, a);
  }

  lemma ClimbsMore(f: Flow, visited: set<NodeId>, stack: seq<Frame>, out: seq<NodeId>, fr: Frame)
    requires Traversal(f, visited, stack, out) && |stack| > 0 && Climbs(f, Nodes(stack))
    requires var top := stack[|stack| - 1]; top.i < |top.sucs| && top.sucs[top.i] == fr.node
    ensures var top := stack[|stack| - 1]; Climbs(f, Nodes(stack[|stack| - 1 := top.(i := top.i + 1)] + [fr]))
  {
    hide *;
    TopLeads(f, visited, stack, out, fr.node);
    NodesPlus(stack, fr);
    ClimbPlus(f, Nodes(stack), fr.node);
  }

  lemma NodesPlus(stack: seq<Frame>, fr: Frame)
    requires |stack| > 0
    ensures var top := stack[|stack| - 1];
      Nodes(stack[|stack| - 1 := top.(i := top.i + 1)] + [fr]) == Nodes(stack) + [fr.node]
  {
  }

  lemma TopLeads(f: Flow, visited: set<NodeId>, stack: seq<Frame>, out: seq<NodeId>, b: NodeId)
    requires Traversal(f, visited, stack, out) && |stack| > 0 && b in stack[|stack| - 1].sucs
    ensures f.Valid() && b in f.nodes && stack[|stack| - 1].node in f.preds[b]
  {
    hide Flow.Reachable, Distinct, Finished;
    assert Open(f, visited, stack[|stack| - 1]);
  }

  lemma ClimbsOn(f: Flow, stack: seq<Frame>)
    requires |stack| > 0 && Climbs(f, Nodes(stack))
    ensures var top := stack[|stack| - 1]; Climbs(f, Nodes(stack[|stack| - 1 := top.(i := top.i + 1)]))
  {
    var top := stack[|stack| - 1];
    assert Nodes(stack[|stack| - 1 := top.(i := top.i + 1)]) == Nodes(stack);
  }

  /** Visits the listed nodes one after the other, each with all that it leads to: what is
      visited then, and the nodes in the order in which they were left. */
  ghost function VisitAll(t: Table, nodes: set<NodeId>, todo: seq<NodeId>, visited: set<NodeId>)
    : (r: (set<NodeId>, seq<NodeId>))
    ensures visited <= r.0
    decreases |nodes - visited|, |todo|
  {
    if todo == [] then (visited, [])
    else if todo[0] in visited || todo[0] !in nodes then VisitAll(t, nodes, todo[1..], visited)
    else
      Fewer(nodes, visited, visited + {todo[0]});
      var first := VisitAll(t, nodes, Get(t, todo[0]), visited + {todo[0]});
      Fewer(nodes, visited, first.0);
      var rest := VisitAll(t, nodes, todo[1..], first.0);
      (rest.0, first.1 + [todo[0]] + rest.1)
  }

  lemma Fewer(nodes: set<NodeId>, a: set<NodeId>, b: set<NodeId>)
    requires a <= b
    ensures |nodes - b| <= |nodes - a|
    ensures (exists x :: x in nodes && x in b && x !in a) ==> |nodes - b| < |nodes - a|
  {
    var s, r := nodes - a, nodes - b;
    assert s == r + (s - r);
    if x :| x in nodes && x in b && x !in a { assert x in s - r; }
  }

  /** The order in which a recursive traversal from `entry` leaves the nodes. */
  ghost function LeftInOrder(t: Table, nodes: set<NodeId>, entry: NodeId): seq<NodeId> {
    VisitAll(t, nodes, [entry], {}).1
  }

  /** What is still to be left, with these nodes open. */
  ghost function StillToLeave(t: Table, nodes: set<NodeId>, stack: seq<Frame>, visited: set<NodeId>): seq<NodeId> {
    if stack == [] then []
    else
      var top := stack[|stack| - 1];
      if top.i > |top.sucs| then []
      else
        var r := VisitAll(t, nodes, top.sucs[top.i..], visited);
        r.1 + [top.node] + StillToLeave(t, nodes, stack[..|stack| - 1], r.0)
  }

  lemma LeaveStarts(t: Table, nodes: set<NodeId>, entry: NodeId)
    requires entry in nodes
    ensures StillToLeave(t, nodes, [Frame(entry, Get(t, entry), 0)], {entry}) == LeftInOrder(t, nodes, entry)
  {
    var stack := [Frame(entry, Get(t, entry), 0)];
    var r := VisitAll(t, nodes, Get(t, entry), {entry});
    var none: set<NodeId> := {};
    assert none + {entry} == {entry};
    assert stack[..0] == [] && Get(t, entry)[0..] == Get(t, entry);
    assert [entry][1..] == [];
    assert VisitAll(t, nodes, [], r.0) == (r.0, []);
    assert VisitAll(t, nodes, [entry], none).1 == r.1 + [entry] + [];
  }

  lemma LeftAll(t: Table, nodes: set<NodeId>, visited: set<NodeId>)
    ensures StillToLeave(t, nodes, [], visited) == []
  {
  }

  lemma ClimbStarts(f: Flow, fr: Frame)
    requires f.Valid() && fr.node in f.nodes
    ensures Climbs(f, Nodes([fr])) && PostOrdered(f, [])
  {
  }

  /** A successor visited before is skipped. */
  lemma LeaveSkip(t: Table, nodes: set<NodeId>, stack: seq<Frame>, visited: set<NodeId>)
    requires |stack| > 0
    requires var top := stack[|stack| - 1]; top.i < |top.sucs| && top.sucs[top.i] in visited
    ensures var top := stack[|stack| - 1];
      StillToLeave(t, nodes, stack[|stack| - 1 := top.(i := top.i + 1)], visited)
        == StillToLeave(t, nodes, stack, visited)
  {
    var last := |stack| - 1;
    var top := stack[last];
    var stack' := stack[last := top.(i := top.i + 1)];
    assert stack'[..last] == stack[..last];
    assert top.sucs[top.i..][1..] == top.sucs[top.i + 1..];
  }

  /** One that was not is opened. */
  lemma LeavePush(t: Table, nodes: set<NodeId>, stack: seq<Frame>, visited: set<NodeId>, suc: NodeId)
    requires |stack| > 0 && suc !in visited && suc in nodes
    requires var top := stack[|stack| - 1]; top.i < |top.sucs| && top.sucs[top.i] == suc
    ensures var top := stack[|stack| - 1];
      StillToLeave(t, nodes, stack[|stack| - 1 := top.(i := top.i + 1)] + [Frame(suc, Get(t, suc), 0)], visited + {suc})
      == StillToLeave(t, nodes, stack, visited)
  {
    var last := |stack| - 1;
    var top := stack[last];
    var stack' := stack[last := top.(i := top.i + 1)];
    var fr := Frame(suc, Get(t, suc), 0);
    assert (stack' + [fr])[..|stack|] == stack';
    assert stack'[..last] == stack[..last];
    assert top.sucs[top.i..][1..] == top.sucs[top.i + 1..];
    assert fr.sucs[0..] == fr.sucs;
    var first := VisitAll(t, nodes, fr.sucs, visited + {suc});
    var rest := VisitAll(t, nodes, top.sucs[top.i + 1..], first.0);
    var below := StillToLeave(t, nodes, stack[..last], rest.0);
    assert first.1 + [suc] + (rest.1 + [top.node] + below) == (first.1 + [suc] + rest.1) + [top.node] + below;
  }

  /** A node whose successors are done is left. */
  lemma LeavePop(t: Table, nodes: set<NodeId>, stack: seq<Frame>, visited: set<NodeId>)
    requires |stack| > 0
    requires var top := stack[|stack| - 1]; top.i == |top.sucs|
    ensures StillToLeave(t, nodes, stack, visited)
         == [stack[|stack| - 1].node] + StillToLeave(t, nodes, stack[..|stack| - 1], visited)
  {
    var top := stack[|stack| - 1];
    assert top.sucs[top.i..] == [];
    assert VisitAll(t, nodes, [], visited) == (visited, []);
    assert [] + [top.node] == [top.node];
  }

  class Graph {
    var entry: Option<NodeId>
    var nodes: seq<NodeId>
    var edges: Table
    var reverseEdges: Table
    var catchEdges: Table
    var reverseCatchEdges: Table
    var inCatch: set<NodeId>
    var num: map<NodeId, int>
    var rpo: seq<NodeId>

    ghost predicate Tables()
      reads this
    {
      && Distinct(nodes)
      && Mirror(nodes, edges, reverseEdges)
      && Mirror(nodes, catchEdges, reverseCatchEdges)
    }

    ghost predicate Valid()
      reads this
    {
      Tables() && (entry.Some? ==> entry.value in nodes)
    }

    constructor ()
      ensures Valid() && entry.None? && nodes == [] && edges == map[] && reverseEdges == map[]
      ensures catchEdges == map[] && reverseCatchEdges == map[] && inCatch == {}
    {
      entry, nodes, edges, reverseEdges := None, [], map[], map[];
      catchEdges, reverseCatchEdges, inCatch, num, rpo := map[], map[], {}, map[], [];
    }

    function Sucs(n: NodeId): seq<NodeId>
      reads this
    {
      Get(edges, n)
    }

    function AllSucs(n: NodeId): seq<NodeId>
      reads this
    {
      Get(edges, n) + Get(catchEdges, n)
    }

    function AllPreds(n: NodeId): seq<NodeId>
      reads this
    {
      Get(reverseEdges, n) + Get(reverseCatchEdges, n)
    }

    /** Predecessors along normal edges, those inside a catch handler left out. */
    function Preds(n: NodeId): seq<NodeId>
      reads this
    {
      Outside(Get(reverseEdges, n), inCatch)
    }

    /** All successors, as one table. */
    ghost function Onward(): (t: Table)
      reads this
      ensures forall n :: n in nodes ==> Get(t, n) == AllSucs(n)
    {
      map n | n in nodes :: AllSucs(n)
    }

    ghost function ToFlow(): (f: Flow)
      requires Valid() && entry.Some?
      reads this
      ensures f.Valid()
    {
      assert forall n, p :: p in AllPreds(n) ==> Edge(reverseEdges, n, p) || Edge(reverseCatchEdges, n, p);
      Flow(entry.value, set n | n in nodes,
           map n | n in nodes :: set p | p in AllPreds(n))
    }

    method AddNode(n: NodeId)
      requires Tables() && n !in nodes
      modifies this`nodes
      ensures Tables() && nodes == old(nodes) + [n]
    {
      nodes := nodes + [n];
      assert forall x :: x in nodes <==> x in old(nodes) || x == n;
      MirrorGrows(old(nodes), nodes, edges, reverseEdges);
      MirrorGrows(old(nodes), nodes, catchEdges, reverseCatchEdges);
    }

    method SetEntry(n: NodeId)
      requires Tables()
      modifies this`entry
      ensures Tables() && entry == Some(n)
    {
      entry := Some(n);
    }

    method MarkInCatch(n: NodeId)
      requires Tables()
      modifies this`inCatch
      ensures Tables() && inCatch == old(inCatch) + {n}
    {
      inCatch := inCatch + {n};
    }

    method AddEdge(a: NodeId, b: NodeId)
      requires Tables() && a in nodes && b in nodes
      modifies this`edges, this`reverseEdges
      ensures Tables()
      ensures edges == Plus(old(edges), a, b) && reverseEdges == Plus(old(reverseEdges), b, a)
    {
      MirrorPlus(nodes, edges, reverseEdges, a, b);
      edges, reverseEdges := Plus(edges, a, b), Plus(reverseEdges, b, a);
    }

    /** Takes `n` out of the graph and erases both directions of all its edges. */
    method RemoveNode(n: NodeId)
      requires Tables()
      modifies this`nodes, this`rpo, this`edges, this`reverseEdges, this`catchEdges, this`reverseCatchEdges
      ensures Tables()
      ensures nodes == Drop(old(nodes), n) && rpo == Drop(old(rpo), n)
      ensures forall a, b :: Edge(catchEdges, a, b) <==> Edge(old(catchEdges), a, b) && a != n && b != n
      ensures forall a, b :: Edge(reverseCatchEdges, a, b) <==> Edge(old(reverseCatchEdges), a, b) && a != n && b != n
      ensures forall a, b :: Edge(edges, a, b) <==> Edge(old(edges), a, b) && a != n && b != n
      ensures forall a, b :: Edge(reverseEdges, a, b) <==> Edge(old(reverseEdges), a, b) && a != n && b != n
    {
      hide Distinct, Mirror, Edge;
      var fwd, bwd := EraseNode(nodes, edges, reverseEdges, n);
      MirrorErased(nodes, edges, reverseEdges, fwd, bwd, n);
      edges, reverseEdges := fwd, bwd;
      fwd, bwd := EraseNode(nodes, catchEdges, reverseCatchEdges, n);
      MirrorErased(nodes, catchEdges, reverseCatchEdges, fwd, bwd, n);
      catchEdges, reverseCatchEdges := fwd, bwd;
      nodes, rpo := Drop(nodes, n), Drop(rpo, n);
    }

    /** Depth-first post-order from the entry along normal and exception edges: the order in
        which the recursive traversal leaves the nodes. An edge to a node that is left later
        closes a cycle. */
    method PostOrder() returns (out: seq<NodeId>)
      requires Valid()
      ensures entry.None? ==> out == []
      ensures Distinct(out)
      ensures entry.Some? ==> |out| > 0 && out[|out| - 1] == entry.value
      ensures entry.Some? ==> forall n :: n in out <==> n in nodes && ToFlow().Reachable(n)
      ensures entry.Some? ==> PostOrdered(ToFlow(), out)
      ensures out == LeaveOrder()
    {
      hide LeftInOrder, PostOrdered;
      if entry.None? {
        return [];
      }
      forall n { SucsOf(n); }
      out := DepthFirst(ToFlow());
    }

    method DepthFirst(ghost f: Flow) returns (out: seq<NodeId>)
      requires entry.Some? && f.Valid() && entry.value == f.entry && f.nodes == set n | n in nodes
      requires forall n :: ListsSucs(f, n, AllSucs(n))
      requires forall n, b :: b in AllSucs(n) ==> b in f.nodes
      ensures Distinct(out) && |out| > 0 && out[|out| - 1] == f.entry
      ensures forall n :: n in out <==> n in f.nodes && f.Reachable(n)
      ensures PostOrdered(f, out) && out == LeftInOrder(Onward(), f.nodes, f.entry)
    {
      hide *;
      out := [];
      var visited := {entry.value};
      var stack := [Frame(entry.value, AllSucs(entry.value), 0)];
      ghost var t := Onward();
      TraversalStarts(f, stack[0]);
      ClimbStarts(f, stack[0]);
      LeaveStarts(t, f.nodes, f.entry);
      assert entry.value in nodes;
      while |stack| > 0
        invariant Traversal(f, visited, stack, out)
        invariant Climbs(f, Nodes(stack)) && PostOrdered(f, out)
        invariant out + StillToLeave(t, f.nodes, stack, visited) == LeftInOrder(t, f.nodes, f.entry)
        decreases f.nodes - visited, |stack|,
          if |stack| > 0 then |stack[|stack| - 1].sucs| - stack[|stack| - 1].i else 0
      {
        var last := |stack| - 1;
        var top := stack[last];
        TopOpen(f, visited, stack, out);
        if top.i < |top.sucs| {
          var suc := top.sucs[top.i];
          if suc in visited {
            Skip(f, visited, stack, out);
            ClimbsOn(f, stack);
            LeaveSkip(t, f.nodes, stack, visited);
            stack := stack[last := top.(i := top.i + 1)];
          } else {
            Push(f, visited, stack, out, suc, AllSucs(suc));
            ClimbsMore(f, visited, stack, out, Frame(suc, AllSucs(suc), 0));
            LeavePush(t, f.nodes, stack, visited, suc);
            assert suc in nodes;
            visited := visited + {suc};
            stack := stack[last := top.(i := top.i + 1)] + [Frame(suc, AllSucs(suc), 0)];
          }
        } else {
          Pop(f, visited, stack, out);
          PostOrderedMore(f, visited, stack, out);
          LeavePop(t, f.nodes, stack, visited);
          out := out + [top.node];
          stack := stack[..last];
        }
      }
      LeftAll(t, f.nodes, visited);
      TraversalEnds(f, visited, out);
    }

    lemma SucsOf(n: NodeId)
      requires Valid() && entry.Some?
      ensures ListsSucs(ToFlow(), n, AllSucs(n)) && forall b :: b in AllSucs(n) ==> b in ToFlow().nodes
    {
      assert forall b :: b in AllSucs(n) ==> Edge(edges, n, b) || Edge(catchEdges, n, b);
      forall b | b in ToFlow().nodes
        ensures b in AllSucs(n) <==> n in ToFlow().preds[b]
      {
        assert Edge(edges, n, b) <==> Edge(reverseEdges, b, n);
        assert Edge(catchEdges, n, b) <==> Edge(reverseCatchEdges, b, n);
      }
    }

    /** Numbers the reachable nodes in reverse post-order and sorts `rpo` by number. */
    method ComputeRpo()
      requires Valid()
      modifies this`num, this`rpo
      ensures forall n :: n in rpo <==> n in nodes
      ensures Distinct(rpo) && SortedByNum(rpo, num)
      ensures old(entry.Some? && ToFlow().AllReachable()) ==> |rpo| > 0 && rpo[0] == old(entry.value)
      ensures old(entry.Some?) ==> Topological(old(ToFlow()), num)
      ensures NumberedFrom(old(num), num, old(LeaveOrder()), |nodes| + 1)
    {
      hide *;
      var order := PostOrder();
      LeaveOrderIs();
      var numbers := Renumber(num, order, |nodes| + 1);
      NodesDistinct();
      var sorted := SortByNum(nodes, numbers);
      NumberedIs(num, numbers, order, |nodes| + 1);
      if entry.Some? {
        FlowIs();
        NumberedUp(ToFlow(), order, numbers, |nodes| + 1);
        if ToFlow().AllReachable() {
          AllAre(ToFlow());
          EntryFirst(order, sorted, numbers, |nodes| + 1, entry.value);
        }
      }
      num, rpo := numbers, sorted;
    }

    /** The order in which a recursive traversal leaves the nodes, if there is an entry. */
    ghost function LeaveOrder(): seq<NodeId>
      requires Valid()
      reads this
    {
      if entry.None? then [] else LeftInOrder(Onward(), ToFlow().nodes, entry.value)
    }

    lemma LeaveOrderIs()
      requires Valid()
      ensures LeaveOrder() == if entry.None? then [] else LeftInOrder(Onward(), ToFlow().nodes, entry.value)
    {
      hide LeftInOrder, Mirror, Distinct;
    }

    lemma NodesDistinct()
      requires Valid()
      ensures Distinct(nodes)
    {
    }

    lemma FlowIs()
      requires Valid() && entry.Some?
      ensures ToFlow().Valid() && ToFlow().entry == entry.value && entry.value in nodes
      ensures forall n :: n in ToFlow().nodes <==> n in nodes
    {
      hide Mirror, Distinct;
    }
  }

  lemma AllAre(f: Flow)
    requires f.AllReachable()
    ensures forall n :: n in f.nodes ==> f.Reachable(n)
  {
    hide Flow.Reachable;
  }

  lemma NumberedIs(num: map<NodeId, int>, num': map<NodeId, int>, order: seq<NodeId>, nb: int)
    requires NumberedFrom(num, num', order, nb)
    ensures forall j :: 0 <= j < |order| ==> order[j] in num' && num'[order[j]] == nb - (j + 1)
  {
  }

  /** The nodes of `order` are numbered downwards from below `nb`; no other number changes. */
  ghost predicate NumberedFrom(num: map<NodeId, int>, num': map<NodeId, int>, order: seq<NodeId>, nb: int) {
    && (forall j :: 0 <= j < |order| ==> order[j] in num' && num'[order[j]] == nb - (j + 1))
    && forall n :: n !in order ==> (n in num' <==> n in num) && (n in num ==> num'[n] == num[n])
  }

  method Renumber(num: map<NodeId, int>, order: seq<NodeId>, nb: int) returns (r: map<NodeId, int>)
    requires Distinct(order)
    ensures NumberedFrom(num, r, order, nb)
  {
    r := num;
    for k := 0 to |order|
      invariant forall j :: 0 <= j < k ==> order[j] in r && r[order[j]] == nb - (j + 1)
      invariant forall n :: n !in order ==> (n in r <==> n in num) && (n in num ==> r[n] == num[n])
    {
      r := r[order[k] := nb - (k + 1)];
    }
  }

  /** An edge between reachable nodes goes up in number unless it closes a cycle. */
  ghost predicate Topological(f: Flow, num: map<NodeId, int>)
    requires f.Valid()
  {
    forall a, b :: b in f.nodes && a in f.preds[b] && f.Reachable(a) && !Leads(f, b, a) ==> Rank(num, a) < Rank(num, b)
  }

  lemma NumberedUp(f: Flow, order: seq<NodeId>, num: map<NodeId, int>, nb: int)
    requires f.Valid() && Distinct(order) && PostOrdered(f, order)
    requires forall n :: n in order <==> n in f.nodes && f.Reachable(n)
    requires forall j :: 0 <= j < |order| ==> order[j] in num && num[order[j]] == nb - (j + 1)
    ensures Topological(f, num)
  {
    hide Flow.Reachable, Leads;
    forall a, b | b in f.nodes && a in f.preds[b] && f.Reachable(a) && !Leads(f, b, a)
      ensures Rank(num, a) < Rank(num, b)
    {
      assert a in order;
      var i :| 0 <= i < |order| && order[i] == a;
      assert BackAt(f, order[i], order[..i]);
      var j :| 0 <= j < i && order[j] == b;
    }
  }

  /** When the traversal reached every node, the one it left last is numbered first. */
  lemma EntryFirst(order: seq<NodeId>, rpo: seq<NodeId>, num: map<NodeId, int>, nb: int, entry: NodeId)
    requires |order| > 0 && order[|order| - 1] == entry && SortedByNum(rpo, num)
    requires forall j :: 0 <= j < |order| ==> order[j] in num && num[order[j]] == nb - (j + 1)
    requires entry in rpo && forall n :: n in rpo ==> n in order
    ensures rpo[0] == entry
  {
    assert rpo[0] in order;
    var j :| 0 <= j < |order| && order[j] == rpo[0];
    var i :| 0 <= i < |rpo| && rpo[i] == entry;
    assert Rank(num, rpo[0]) <= Rank(num, rpo[i]);
  }

  /** Drops the first occurrence of `x`, the only one in a list without duplicates. */
  function Drop(s: seq<NodeId>, x: NodeId): (r: seq<NodeId>)
    ensures forall y :: y in r ==> y in s
    ensures |r| == if x in s then |s| - 1 else |s|
  {
    if s == [] then [] else if s[0] == x then s[1..] else [s[0]] + Drop(s[1..], x)
  }

  lemma {:induction false} DropDistinct(s: seq<NodeId>, x: NodeId)
    requires Distinct(s)
    ensures Distinct(Drop(s, x)) && forall y :: y in Drop(s, x) <==> y in s && y != x
  {
    if s != [] {
      assert s == [s[0]] + s[1..];
      assert forall k :: 0 <= k < |s| - 1 ==> s[1..][k] == s[k + 1];
      assert s[0] !in s[1..];
      DropDistinct(s[1..], x);
    }
  }

  method DropFrom(t: Table, keys: seq<NodeId>, x: NodeId) returns (r: Table)
    requires Distinct(keys)
    ensures forall a :: Get(r, a) == if a in keys then Drop(Get(t, a), x) else Get(t, a)
  {
    r := t;
    for i := 0 to |keys|
      invariant forall a :: Get(r, a) == if a in keys[..i] then Drop(Get(t, a), x) else Get(t, a)
    {
      assert keys[..i + 1] == keys[..i] + [keys[i]];
      if keys[i] in r {
        r := r[keys[i] := Drop(r[keys[i]], x)];
      }
    }
    assert keys[..|keys|] == keys;
  }

  /** `t'` is `t` without the edges into and out of `x`. */
  ghost predicate Erased(t: Table, t': Table, x: NodeId) {
    && (forall a, b :: Edge(t', a, b) <==> Edge(t, a, b) && a != x && b != x)
    && (forall a :: Distinct(Get(t', a)))
  }

  lemma ErasedFrom(nodes: seq<NodeId>, t: Table, rev: Table, t': Table, x: NodeId)
    requires Mirror(nodes, t, rev)
    requires forall a :: a != x ==> Get(t', a) == if a in Get(rev, x) then Drop(Get(t, a), x) else Get(t, a)
    requires Get(t', x) == []
    ensures Erased(t, t', x)
  {
    forall a
      ensures Distinct(Get(t', a)) && forall b :: Edge(t', a, b) <==> Edge(t, a, b) && a != x && b != x
    {
      assert Distinct(Get(t, a));
      DropDistinct(Get(t, a), x);
      assert Edge(t, a, x) <==> Edge(rev, x, a);
    }
  }

  method EraseNode(nodes: seq<NodeId>, fwd: Table, bwd: Table, x: NodeId) returns (fwd': Table, bwd': Table)
    requires Mirror(nodes, fwd, bwd)
    ensures Erased(fwd, fwd', x) && Erased(bwd, bwd', x)
  {
    fwd' := DropFrom(fwd, Get(bwd, x), x);
    DropDistinct(Get(fwd, x), x);
    ghost var sucs := Get(fwd', x);
    assert Distinct(sucs) && forall a :: a != x ==> (a in sucs <==> a in Get(fwd, x));
    bwd' := DropFrom(bwd, Get(fwd', x), x);
    fwd', bwd' := fwd' - {x}, bwd' - {x};
    hide Distinct;
    ErasedFrom(nodes, fwd, bwd, fwd', x);
    ErasedFrom(nodes, bwd, fwd, bwd', x);
  }

  lemma MirrorErased(nodes: seq<NodeId>, fwd: Table, bwd: Table, fwd': Table, bwd': Table, x: NodeId)
    requires Distinct(nodes) && Mirror(nodes, fwd, bwd) && Erased(fwd, fwd', x) && Erased(bwd, bwd', x)
    ensures Mirror(Drop(nodes, x), fwd', bwd') && Distinct(Drop(nodes, x))
  {
    DropDistinct(nodes, x);
  }

  function Outside(s: seq<NodeId>, hidden: set<NodeId>): (r: seq<NodeId>)
    ensures forall x :: x in r <==> x in s && x !in hidden
  {
    if s == [] then []
    else if s[0] in hidden then Outside(s[1..], hidden)
    else [s[0]] + Outside(s[1..], hidden)
  }

  lemma {:induction false} OutsideDistinct(s: seq<NodeId>, hidden: set<NodeId>)
    requires Distinct(s)
    ensures Distinct(Outside(s, hidden))
  {
    if s != [] {
      assert forall k :: 0 <= k < |s| - 1 ==> s[1..][k] == s[k + 1];
      assert s[0] !in s[1..];
      OutsideDistinct(s[1..], hidden);
    }
  }

  /** A node never visited by a traversal keeps number 0. */
  function Rank(num: map<NodeId, int>, n: NodeId): int {
    if n in num then num[n] else 0
  }

  ghost predicate SortedByNum(s: seq<NodeId>, num: map<NodeId, int>) {
    forall i, j :: 0 <= i < j < |s| ==> Rank(num, s[i]) <= Rank(num, s[j])
  }

  method SortByNum(s: seq<NodeId>, num: map<NodeId, int>) returns (r: seq<NodeId>)
    requires Distinct(s)
    ensures SortedByNum(r, num) && Distinct(r)
    ensures forall n :: n in r <==> n in s
  {
    r := [];
    for k := 0 to |s|
      invariant SortedByNum(r, num) && Distinct(r)
      invariant forall n :: n in r <==> n in s[..k]
    {
      assert s[..k + 1] == s[..k] + [s[k]];
      r := InsertByNum(r, s[k], num);
    }
    assert s[..|s|] == s;
  }

  method InsertByNum(s: seq<NodeId>, x: NodeId, num: map<NodeId, int>) returns (r: seq<NodeId>)
    requires SortedByNum(s, num) && Distinct(s) && x !in s
    ensures SortedByNum(r, num) && Distinct(r)
    ensures forall n :: n in r <==> n in s || n == x
  {
    var i := |s|;
    while i > 0 && Rank(num, x) < Rank(num, s[i - 1])
      invariant 0 <= i <= |s|
      invariant forall j :: i <= j < |s| ==> Rank(num, x) < Rank(num, s[j])
    {
      i := i - 1;
    }
    r := s[..i] + [x] + s[i..];
    Inserted(s, i, x, num);
  }

  lemma Inserted(s: seq<NodeId>, i: nat, x: NodeId, num: map<NodeId, int>)
    requires SortedByNum(s, num) && Distinct(s) && x !in s && i <= |s|
    requires i > 0 ==> Rank(num, s[i - 1]) <= Rank(num, x)
    requires forall j :: i <= j < |s| ==> Rank(num, x) < Rank(num, s[j])
    ensures var r := s[..i] + [x] + s[i..];
            SortedByNum(r, num) && Distinct(r) && forall n :: n in r <==> n in s || n == x
  {
    var r := s[..i] + [x] + s[i..];
    assert forall n :: n in s <==> n in s[..i] || n in s[i..];
    forall j, k | 0 <= j < k < |r|
      ensures r[j] != r[k] && Rank(num, r[j]) <= Rank(num, r[k])
    {
      if j < i { assert Rank(num, s[j]) <= Rank(num, x); }
    }
  }
}
