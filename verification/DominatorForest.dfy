/** The forest of the nodes already taken: paths are compressed as they are queried, and each node
    carries the first semidominator on the way it skips. */
module DominatorForest {
  import opened Options
  import opened Graphs
  import opened Dominators

  type Labels = map<NodeId, NodeId>

  type Ancestors = map<NodeId, Option<NodeId>>

  /** The forest of the nodes above number `lo`: each points to an ancestor with no node at or
      below `lo` in between, and carries the first semidominator on the way there. */
  ghost predicate Forest(t: Tree, semi: map<NodeId, nat>, ancestor: Ancestors, labels: Labels, lo: nat) {
    forall x :: x in t.num ==> TreeAt(t, semi, ancestor, labels, lo, x)
  }

  ghost predicate TreeAt(t: Tree, semi: map<NodeId, nat>, ancestor: Ancestors, labels: Labels, lo: nat, x: NodeId) {
    && x in t.num && x in ancestor && x in labels && x in semi
    && if t.num[x] <= lo then ancestor[x].None? && labels[x] == x
       else ancestor[x].Some? && Shortcut(t, semi, lo, x, ancestor[x].value, labels[x])
  }

  ghost predicate Shortcut(t: Tree, semi: map<NodeId, nat>, lo: nat, x: NodeId, a: NodeId, l: NodeId) {
    && t.Anc(a, x) && a != x && t.Below(a, l, x) && l in semi
    && forall y :: t.Below(a, y, x) ==> y in t.num && t.num[y] > lo && y in semi && semi[l] <= semi[y]
  }

  /** Two shortcuts make one, with the better label. */
  lemma Compressed(t: Tree, semi: map<NodeId, nat>, lo: nat, x: NodeId, a: NodeId, l: NodeId, b: NodeId, k: NodeId)
    requires Shortcut(t, semi, lo, x, a, l) && Shortcut(t, semi, lo, a, b, k)
    ensures l in semi && k in semi && Shortcut(t, semi, lo, x, b, if semi[k] < semi[l] then k else l)
  {
    AncTrans(t, b, a, x);
    AncNum(t, b, a);
    AncNum(t, a, x);
    AncTrans(t, k, a, x);
    AncTrans(t, b, a, l);
    AncNum(t, a, l);
    forall y | t.Below(b, y, x)
      ensures t.Below(b, y, a) || t.Below(a, y, x)
    {
      SplitLine(t, b, y, a, x);
    }
  }

  lemma SplitLine(t: Tree, b: NodeId, y: NodeId, a: NodeId, x: NodeId)
    requires t.Below(b, y, x) && t.Anc(a, x)
    ensures t.Below(b, y, a) || t.Below(a, y, x)
  {
    AncNum(t, y, x);
    AncNum(t, a, x);
    if t.num[y] <= t.num[a] { AncLine(t, y, a, x); } else { AncLine(t, a, y, x); }
  }

  /** Each element of the chain points to the next, which was entered earlier. */
  ghost predicate Chain(t: Tree, ancestor: Ancestors, c: seq<NodeId>, n: nat) {
    && (forall k :: 0 <= k < |c| ==> c[k] in t.num && c[k] in ancestor)
    && (forall j, k :: 0 <= j < k < |c| ==> t.num[c[k]] < t.num[c[j]])
    && forall k :: 0 <= k < n && k + 1 < |c| ==> ancestor[c[k]] == Some(c[k + 1])
  }

  /** `x` points to a root. */
  ghost predicate AtRoot(t: Tree, ancestor: Ancestors, lo: nat, x: NodeId) {
    x in ancestor && ancestor[x].Some? && ancestor[x].value in t.num && t.num[ancestor[x].value] <= lo
  }

  lemma TreeIs(t: Tree, semi: map<NodeId, nat>, ancestor: Ancestors, labels: Labels, lo: nat, x: NodeId)
    requires Forest(t, semi, ancestor, labels, lo) && x in t.num
    ensures x in ancestor && x in labels && x in semi && labels[x] in semi && labels[x] in t.num
    ensures t.num[x] <= lo <==> ancestor[x].None?
    ensures t.num[x] <= lo ==> labels[x] == x
    ensures ancestor[x].Some? ==> ancestor[x].value in t.num && t.num[ancestor[x].value] < t.num[x]
    ensures ancestor[x].Some? ==> Shortcut(t, semi, lo, x, ancestor[x].value, labels[x])
  {
    assert TreeAt(t, semi, ancestor, labels, lo, x);
    if t.num[x] > lo { AncNum(t, ancestor[x].value, x); }
  }

  lemma ForestSet(t: Tree, semi: map<NodeId, nat>, ancestor: Ancestors, labels: Labels, lo: nat, x: NodeId, a: NodeId,
      l: NodeId)
    requires Forest(t, semi, ancestor, labels, lo) && x in t.num && t.num[x] > lo && Shortcut(t, semi, lo, x, a, l)
    ensures Forest(t, semi, ancestor[x := Some(a)], labels[x := l], lo)
  {
    hide Shortcut, Tree.Anc;
    forall y | y in t.num
      ensures TreeAt(t, semi, ancestor[x := Some(a)], labels[x := l], lo, y)
    {
      assert TreeAt(t, semi, ancestor, labels, lo, y);
      assert TreeAt(t, semi, ancestor, labels, lo, x);
    }
  }

  lemma ChainOne(t: Tree, ancestor: Ancestors, v: NodeId)
    requires v in t.num && v in ancestor
    ensures Chain(t, ancestor, [v], 0)
  {
  }

  lemma ChainMore(t: Tree, ancestor: Ancestors, c: seq<NodeId>, a: NodeId)
    requires |c| > 0 && Chain(t, ancestor, c, |c| - 1) && c[|c| - 1] in ancestor && ancestor[c[|c| - 1]] == Some(a)
    requires a in t.num && a in ancestor && t.num[a] < t.num[c[|c| - 1]]
    ensures Chain(t, ancestor, c + [a], |c|)
  {
    var d := c + [a];
    forall j, k | 0 <= j < k < |d|
      ensures t.num[d[k]] < t.num[d[j]]
    {
      if k == |c| && j < |c| - 1 { assert t.num[c[|c| - 1]] < t.num[c[j]]; }
    }
  }

  lemma ChainIs(t: Tree, ancestor: Ancestors, c: seq<NodeId>, n: nat, k: nat)
    requires Chain(t, ancestor, c, n) && k < n && k + 1 < |c|
    ensures c[k] in t.num && c[k + 1] in t.num && c[k] in ancestor && ancestor[c[k]] == Some(c[k + 1])
  {
  }

  /** Writing one element leaves the pointers of those before it. */
  lemma ChainKeeps(t: Tree, ancestor: Ancestors, c: seq<NodeId>, k: nat, a: NodeId)
    requires Chain(t, ancestor, c, k + 1) && k < |c|
    ensures Chain(t, ancestor[c[k] := Some(a)], c, k)
  {
    forall j | 0 <= j < k && j + 1 < |c|
      ensures ancestor[c[k] := Some(a)][c[j]] == Some(c[j + 1])
    {
      assert t.num[c[k]] < t.num[c[j]];
    }
  }

  /** Makes `v` and all on its way point to the root, keeping the best label. */
  method Compress(ghost t: Tree, semi: map<NodeId, nat>, ghost lo: nat, v: NodeId, anc0: Ancestors, labels0: Labels)
    returns (ancestor: Ancestors, labels: Labels)
    requires Forest(t, semi, anc0, labels0, lo) && v in t.num && t.num[v] > lo
    ensures Forest(t, semi, ancestor, labels, lo) && AtRoot(t, ancestor, lo, v)
  {
    hide *;
    ancestor, labels := anc0, labels0;
    var path: seq<NodeId>, cur := [], v;
    TreeIs(t, semi, ancestor, labels, lo, v);
    TreeIs(t, semi, ancestor, labels, lo, ancestor[v].value);
    ChainOne(t, ancestor, v);
    assert path + [cur] == [v];
    while ancestor[cur].Some? && ancestor[ancestor[cur].value].Some?
      invariant cur in t.num && t.num[cur] > lo && cur in ancestor && ancestor[cur].Some?
      invariant ancestor[cur].value in ancestor && ancestor[cur].value in t.num
      invariant Chain(t, ancestor, path + [cur], |path|) && (path + [cur])[0] == v
      decreases t.num[cur]
    {
      TreeIs(t, semi, ancestor, labels, lo, cur);
      TreeIs(t, semi, ancestor, labels, lo, ancestor[cur].value);
      TreeIs(t, semi, ancestor, labels, lo, ancestor[ancestor[cur].value].value);
      ChainMore(t, ancestor, path + [cur], ancestor[cur].value);
      path := path + [cur];
      cur := ancestor[cur].value;
    }
    TreeIs(t, semi, ancestor, labels, lo, ancestor[cur].value);
    ghost var c := path + [cur];
    RootIf(t, ancestor, lo, cur);
    for j := |path| downto 0
      invariant Forest(t, semi, ancestor, labels, lo) && Chain(t, ancestor, c, j) && AtRoot(t, ancestor, lo, c[j])
    {
      var node := path[j];
      assert c[j] == node;
      ChainIs(t, ancestor, c, j + 1, j);
      TreeIs(t, semi, ancestor, labels, lo, node);
      var u := ancestor[node].value;
      TreeIs(t, semi, ancestor, labels, lo, u);
      RootIs(t, ancestor, lo, u);
      Compressed(t, semi, lo, node, u, labels[node], ancestor[u].value, labels[u]);
      ForestSet(t, semi, ancestor, labels, lo, node, ancestor[u].value,
                if semi[labels[u]] < semi[labels[node]] then labels[u] else labels[node]);
      ChainKeeps(t, ancestor, c, j, ancestor[u].value);
      if semi[labels[u]] < semi[labels[node]] {
        labels := labels[node := labels[u]];
      } else {
        SameMap(labels, node);
      }
      ancestor := ancestor[node := ancestor[u]];
      RootIf(t, ancestor, lo, node);
    }
    assert c[0] == v;
  }

  lemma SameMap(m: Labels, k: NodeId)
    requires k in m
    ensures m[k := m[k]] == m
  {
  }

  lemma RootIf(t: Tree, ancestor: Ancestors, lo: nat, x: NodeId)
    requires x in ancestor && ancestor[x].Some? && ancestor[x].value in t.num && t.num[ancestor[x].value] <= lo
    ensures AtRoot(t, ancestor, lo, x)
  {
  }

  lemma RootIs(t: Tree, ancestor: Ancestors, lo: nat, x: NodeId)
    requires AtRoot(t, ancestor, lo, x)
    ensures x in ancestor && ancestor[x].Some? && ancestor[x].value in t.num && t.num[ancestor[x].value] <= lo
  {
  }

  /** What a query answers: a node not in the forest itself, and otherwise the one with the
      first semidominator of its ancestors in the forest. */
  ghost predicate Answers(t: Tree, semi: map<NodeId, nat>, lo: nat, v: NodeId, u: NodeId) {
    && u in t.num && v in t.num && u in semi
    && if t.num[v] <= lo then u == v
       else t.Anc(u, v) && t.num[u] > lo
            && forall y :: t.Anc(y, v) && t.num[y] > lo ==> y in semi && semi[u] <= semi[y]
  }

  /** Behind a shortcut to a root the label is the answer. */
  lemma LabelAnswers(t: Tree, semi: map<NodeId, nat>, lo: nat, v: NodeId, a: NodeId, l: NodeId)
    requires Shortcut(t, semi, lo, v, a, l) && a in t.num && t.num[a] <= lo && v in t.num && t.num[v] > lo
    ensures Answers(t, semi, lo, v, l)
  {
    assert t.Below(a, l, v);
    forall y | t.Anc(y, v) && t.num[y] > lo
      ensures t.Below(a, y, v)
    {
      AncLine(t, a, y, v);
    }
  }

  method Eval(ghost t: Tree, semi: map<NodeId, nat>, ghost lo: nat, v: NodeId, anc0: Ancestors, labels0: Labels)
    returns (u: NodeId, ancestor: Ancestors, labels: Labels)
    requires Forest(t, semi, anc0, labels0, lo) && v in t.num
    ensures Forest(t, semi, ancestor, labels, lo) && Answers(t, semi, lo, v, u)
  {
    hide *;
    TreeIs(t, semi, anc0, labels0, lo, v);
    ancestor, labels := anc0, labels0;
    if ancestor[v].Some? {
      ancestor, labels := Compress(t, semi, lo, v, ancestor, labels);
      TreeIs(t, semi, ancestor, labels, lo, v);
      RootIs(t, ancestor, lo, v);
      LabelAnswers(t, semi, lo, v, ancestor[v].value, labels[v]);
      u := labels[v];
    } else {
      u := v;
      AnswersSelf(t, semi, lo, v);
    }
  }

  lemma AnswersSelf(t: Tree, semi: map<NodeId, nat>, lo: nat, v: NodeId)
    requires v in t.num && v in semi && t.num[v] <= lo
    ensures Answers(t, semi, lo, v, v)
  {
  }

  /** The forest does not depend on numbers of nodes outside. */
  lemma ForestSemi(t: Tree, semi: map<NodeId, nat>, ancestor: Ancestors, labels: Labels, lo: nat, w: NodeId, s: nat)
    requires Forest(t, semi, ancestor, labels, lo) && w in t.num && t.num[w] <= lo
    ensures Forest(t, semi[w := s], ancestor, labels, lo)
  {
    hide *;
    forall x | x in t.num
      ensures TreeAt(t, semi[w := s], ancestor, labels, lo, x)
    {
      TreeIs(t, semi, ancestor, labels, lo, x);
      if t.num[x] > lo { ShortcutSemi(t, semi, lo, x, ancestor[x].value, labels[x], w, s); }
      TreeAtIf(t, semi[w := s], ancestor, labels, lo, x);
    }
    ForestIf(t, semi[w := s], ancestor, labels, lo);
  }

  lemma ShortcutSemi(t: Tree, semi: map<NodeId, nat>, lo: nat, x: NodeId, a: NodeId, l: NodeId, w: NodeId, s: nat)
    requires Shortcut(t, semi, lo, x, a, l) && w in t.num && t.num[w] <= lo
    ensures Shortcut(t, semi[w := s], lo, x, a, l)
  {
    hide Tree.Anc, Tree.Below;
  }

  /** A node with its parent joins the forest. */
  lemma ForestLink(f: Flow, t: Tree, semi: map<NodeId, nat>, ancestor: Ancestors, labels: Labels, w: NodeId)
    requires DepthFirst(f, t) && w in t.num && t.num[w] > 0 && w != f.entry && w in t.parent
    requires Forest(t, semi, ancestor, labels, t.num[w])
    ensures Forest(t, semi, ancestor[w := Some(t.parent[w])], labels, t.num[w] - 1)
  {
    hide *;
    TreeIs(t, semi, ancestor, labels, t.num[w], w);
    AncUp(f, t, w);
    ParentIs(t, w);
    OnlyChild(t, w);
    AncSelf(t, w);
    ShortcutOne(t, semi, w);
    forall x | x in t.num
      ensures TreeAt(t, semi, ancestor[w := Some(t.parent[w])], labels, t.num[w] - 1, x)
    {
      SameByNumber(f, t, x, w);
      TreeIs(t, semi, ancestor, labels, t.num[w], x);
      if t.num[x] > t.num[w] { ShortcutDown(t, semi, t.num[w], x, ancestor[x].value, labels[x]); }
      TreeAtIf(t, semi, ancestor[w := Some(t.parent[w])], labels, t.num[w] - 1, x);
    }
    ForestIf(t, semi, ancestor[w := Some(t.parent[w])], labels, t.num[w] - 1);
  }

  lemma OnlyChild(t: Tree, w: NodeId)
    requires t.HasParent(w)
    ensures forall y :: t.Below(t.parent[w], y, w) ==> y == w
  {
    forall y | t.Below(t.parent[w], y, w)
      ensures y == w
    {
      if y != w {
        AncNum(t, t.parent[w], y);
        AncNum(t, y, t.parent[w]);
      }
    }
  }

  lemma ShortcutOne(t: Tree, semi: map<NodeId, nat>, w: NodeId)
    requires t.HasParent(w) && t.Anc(t.parent[w], w) && t.Anc(w, w) && w in semi && t.num[w] > 0
    requires forall y :: t.Below(t.parent[w], y, w) ==> y == w
    ensures Shortcut(t, semi, t.num[w] - 1, w, t.parent[w], w)
  {
    hide Tree.Anc;
  }

  lemma ShortcutDown(t: Tree, semi: map<NodeId, nat>, lo: nat, x: NodeId, a: NodeId, l: NodeId)
    requires Shortcut(t, semi, lo, x, a, l) && lo > 0
    ensures Shortcut(t, semi, lo - 1, x, a, l)
  {
    hide Tree.Anc, Tree.Below;
  }

  lemma TreeAtIf(t: Tree, semi: map<NodeId, nat>, ancestor: Ancestors, labels: Labels, lo: nat, x: NodeId)
    requires x in t.num && x in ancestor && x in labels && x in semi
    requires t.num[x] <= lo ==> ancestor[x].None? && labels[x] == x
    requires t.num[x] > lo ==> ancestor[x].Some? && Shortcut(t, semi, lo, x, ancestor[x].value, labels[x])
    ensures TreeAt(t, semi, ancestor, labels, lo, x)
  {
    hide Shortcut;
  }

  lemma ForestIf(t: Tree, semi: map<NodeId, nat>, ancestor: Ancestors, labels: Labels, lo: nat)
    requires forall x :: x in t.num ==> TreeAt(t, semi, ancestor, labels, lo, x)
    ensures Forest(t, semi, ancestor, labels, lo)
  {
    hide TreeAt;
  }
}
