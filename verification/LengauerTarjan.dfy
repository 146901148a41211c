/** Immediate dominators: nodes are taken last to first, semidominators are read off the forest,
    and buckets hold what is still to be decided. */
module LengauerTarjan {
  import opened Options
  import opened Graphs
  import opened Dominators
  import opened DominatorSearch
  import opened DominatorForest

  /** The semidominators above number `lo` are known, as numbers; below, a node has its own. */
  ghost predicate Semis(f: Flow, t: Tree, semi: map<NodeId, nat>, vertex: map<nat, NodeId>, lo: nat) {
    forall x :: x in t.num ==> SemiAt(f, t, semi, vertex, lo, x)
  }

  ghost predicate SemiAt(f: Flow, t: Tree, semi: map<NodeId, nat>, vertex: map<nat, NodeId>, lo: nat, x: NodeId) {
    && x in t.num && x in semi && semi[x] in vertex
    && if t.num[x] > lo then IsSemi(f, t, vertex[semi[x]], x) else semi[x] == t.num[x]
  }

  lemma SemiOf(f: Flow, t: Tree, semi: map<NodeId, nat>, vertex: map<nat, NodeId>, n: nat, lo: nat, x: NodeId)
    requires Semis(f, t, semi, vertex, lo) && Indexed(t, vertex, n) && x in t.num
    ensures x in semi && semi[x] in vertex && vertex[semi[x]] in t.num && t.num[vertex[semi[x]]] == semi[x]
    ensures t.num[x] > lo ==> IsSemi(f, t, vertex[semi[x]], x)
    ensures t.num[x] <= lo ==> semi[x] == t.num[x]
  {
    hide IsSemi;
    assert SemiAt(f, t, semi, vertex, lo, x);
  }

  lemma VertexOf(t: Tree, vertex: map<nat, NodeId>, n: nat, i: nat)
    requires Indexed(t, vertex, n) && 1 <= i <= n
    ensures i in vertex && vertex[i] in t.num && t.num[vertex[i]] == i
  {
  }

  /** The numbers so far are the semidominator of `w` as far as the predecessors in `seen` offer
      it, or its own number while nothing was offered. */
  ghost predicate FirstOffer(f: Flow, t: Tree, vertex: map<nat, NodeId>, w: NodeId, s: nat, seen: set<NodeId>) {
    && w in t.num && w in f.preds && s in vertex
    && (s == t.num[w] || Offers(f, t, w, vertex[s]))
    && forall v, c :: v in seen && v in t.num && c in t.num && OffersBy(f, t, w, v, c) ==> s <= t.num[c]
  }

  lemma NoOfferYet(f: Flow, t: Tree, vertex: map<nat, NodeId>, w: NodeId)
    requires w in t.num && w in f.preds && t.num[w] in vertex
    ensures FirstOffer(f, t, vertex, w, t.num[w], {})
  {
  }

  /** A predecessor not entered after `w` offers itself or, if it is `w`, nothing. */
  lemma EarlyOffer(f: Flow, t: Tree, w: NodeId, v: NodeId)
    requires w in t.num && v in t.num && w in f.preds && v in f.preds[w] && t.num[v] <= t.num[w]
    ensures t.num[v] < t.num[w] ==> Offers(f, t, w, v)
    ensures forall c :: OffersBy(f, t, w, v, c) ==> c == v && t.num[v] < t.num[w]
  {
    if t.num[v] < t.num[w] { EdgeOffers(f, t, w, v); }
    forall u
      ensures !Later(t, w, u, v)
    {
      if t.Anc(u, v) { AncNum(t, u, v); }
    }
  }

  lemma AnswersIs(t: Tree, semi: map<NodeId, nat>, lo: nat, v: NodeId, u: NodeId)
    requires Answers(t, semi, lo, v, u)
    ensures u in t.num && v in t.num && u in semi && (t.num[v] <= lo ==> u == v)
    ensures t.num[v] > lo ==> t.Anc(u, v) && t.num[u] > lo
  {
  }

  lemma AnswersFirst(t: Tree, semi: map<NodeId, nat>, lo: nat, v: NodeId, u: NodeId, y: NodeId)
    requires Answers(t, semi, lo, v, u) && t.num[v] > lo && t.Anc(y, v) && y in t.num && t.num[y] > lo
    ensures y in semi && u in semi && semi[u] <= semi[y]
  {
  }

  lemma OffererOf(f: Flow, t: Tree, w: NodeId, v: NodeId, c: NodeId) returns (y: NodeId)
    requires w in t.num && v in t.num && t.num[v] > t.num[w] && OffersBy(f, t, w, v, c)
    ensures y in t.num && t.num[y] > t.num[w] && t.Anc(y, v) && IsSemi(f, t, c, y)
  {
    y :| Later(t, w, y, v) && IsSemi(f, t, c, y);
  }

  /** A later one offers the semidominators of its later ancestors, the answer's the first. */
  lemma LateOffer(f: Flow, t: Tree, semi: map<NodeId, nat>, vertex: map<nat, NodeId>, n: nat, w: NodeId, s: nat,
      v: NodeId, u: NodeId, c: NodeId)
    requires DepthFirst(f, t) && Indexed(t, vertex, n) && w in t.num && v in t.num && t.num[v] > t.num[w]
    requires Semis(f, t, semi, vertex, t.num[w]) && Answers(t, semi[w := s], t.num[w], v, u) && c in t.num
    requires OffersBy(f, t, w, v, c)
    ensures u in semi[w := s] && semi[w := s][u] <= t.num[c]
  {
    hide *;
    var y := OffererOf(f, t, w, v, c);
    SemiOf(f, t, semi, vertex, n, t.num[w], y);
    SemiIsUnique(f, t, c, vertex[semi[y]], y);
    AnswersFirst(t, semi[w := s], t.num[w], v, u, y);
  }

  lemma FirstOfferIs(f: Flow, t: Tree, vertex: map<nat, NodeId>, w: NodeId, s: nat, seen: set<NodeId>)
    requires FirstOffer(f, t, vertex, w, s, seen)
    ensures w in t.num && w in f.preds && s in vertex && (s == t.num[w] || Offers(f, t, w, vertex[s]))
  {
    hide OffersBy, Offers;
  }

  /** One more predecessor is seen. */
  lemma FirstOfferIf(f: Flow, t: Tree, vertex: map<nat, NodeId>, w: NodeId, s: nat, s': nat, seen: set<NodeId>,
      v: NodeId)
    requires FirstOffer(f, t, vertex, w, s, seen) && s' <= s && s' in vertex && w in t.num && v in t.num
    requires s' == s || Offers(f, t, w, vertex[s'])
    requires forall c :: c in t.num && OffersBy(f, t, w, v, c) ==> s' <= t.num[c]
    ensures FirstOffer(f, t, vertex, w, s', seen + {v})
  {
    hide OffersBy, Offers;
  }

  /** Another predecessor: what the query answers is the first it offers. */
  lemma OfferMore(f: Flow, t: Tree, semi: map<NodeId, nat>, vertex: map<nat, NodeId>, n: nat, w: NodeId, s: nat,
      seen: set<NodeId>, v: NodeId, u: NodeId)
    requires DepthFirst(f, t) && Indexed(t, vertex, n) && w in t.num && v in t.num && w in f.preds && v in f.preds[w]
    requires Semis(f, t, semi, vertex, t.num[w]) && s <= t.num[w]
    requires Answers(t, semi[w := s], t.num[w], v, u) && FirstOffer(f, t, vertex, w, s, seen)
    ensures u in semi[w := s] && semi[w := s][u] in vertex
    ensures FirstOffer(f, t, vertex, w, if semi[w := s][u] < s then semi[w := s][u] else s, seen + {v})
  {
    hide *;
    if t.num[v] <= t.num[w] {
      OfferEarly(f, t, semi, vertex, n, w, s, seen, v, u);
    } else {
      OfferLate(f, t, semi, vertex, n, w, s, seen, v, u);
    }
  }

  lemma OfferEarly(f: Flow, t: Tree, semi: map<NodeId, nat>, vertex: map<nat, NodeId>, n: nat, w: NodeId, s: nat,
      seen: set<NodeId>, v: NodeId, u: NodeId)
    requires DepthFirst(f, t) && Indexed(t, vertex, n) && w in t.num && v in t.num && w in f.preds && v in f.preds[w]
    requires Semis(f, t, semi, vertex, t.num[w]) && s <= t.num[w] && t.num[v] <= t.num[w]
    requires Answers(t, semi[w := s], t.num[w], v, u) && FirstOffer(f, t, vertex, w, s, seen)
    ensures u in semi[w := s] && semi[w := s][u] in vertex
    ensures FirstOffer(f, t, vertex, w, if semi[w := s][u] < s then semi[w := s][u] else s, seen + {v})
  {
    hide *;
    AnswersIs(t, semi[w := s], t.num[w], v, u);
    EarlyOffer(f, t, w, v);
    FirstOfferIs(f, t, vertex, w, s, seen);
    SemiOf(f, t, semi, vertex, n, t.num[w], v);
    SameByNumber(f, t, v, w);
    SameByNumber(f, t, v, vertex[semi[v]]);
    FirstOfferIf(f, t, vertex, w, s, if semi[w := s][u] < s then semi[w := s][u] else s, seen, v);
  }

  lemma OfferLate(f: Flow, t: Tree, semi: map<NodeId, nat>, vertex: map<nat, NodeId>, n: nat, w: NodeId, s: nat,
      seen: set<NodeId>, v: NodeId, u: NodeId)
    requires DepthFirst(f, t) && Indexed(t, vertex, n) && w in t.num && v in t.num && w in f.preds && v in f.preds[w]
    requires Semis(f, t, semi, vertex, t.num[w]) && s <= t.num[w] && t.num[v] > t.num[w]
    requires Answers(t, semi[w := s], t.num[w], v, u) && FirstOffer(f, t, vertex, w, s, seen)
    ensures u in semi[w := s] && semi[w := s][u] in vertex
    ensures FirstOffer(f, t, vertex, w, if semi[w := s][u] < s then semi[w := s][u] else s, seen + {v})
  {
    hide *;
    AnswersIs(t, semi[w := s], t.num[w], v, u);
    FirstOfferIs(f, t, vertex, w, s, seen);
    SemiOf(f, t, semi, vertex, n, t.num[w], u);
    AncestorOffers(f, t, w, v, u, vertex[semi[u]]);
    forall c | c in t.num && OffersBy(f, t, w, v, c)
      ensures semi[w := s][u] <= t.num[c]
    {
      LateOffer(f, t, semi, vertex, n, w, s, v, u, c);
    }
    FirstOfferIf(f, t, vertex, w, s, if semi[w := s][u] < s then semi[w := s][u] else s, seen, v);
  }

  /** When all predecessors have offered, the first offer is the semidominator. */
  lemma OffersDone(f: Flow, t: Tree, vertex: map<nat, NodeId>, n: nat, w: NodeId, s: nat, seen: set<NodeId>)
    requires DepthFirst(f, t) && Indexed(t, vertex, n) && w in t.num && w != f.entry
    requires FirstOffer(f, t, vertex, w, s, seen)
    requires forall v :: v in f.preds[w] && v in t.num ==> v in seen
    ensures s in vertex && vertex[s] in t.num && t.num[vertex[s]] == s
    ensures IsSemi(f, t, vertex[s], w)
  {
    AncUp(f, t, w);
    ParentIs(t, w);
    var p := t.parent[w];
    assert OffersBy(f, t, w, p, p);
    hide DepthFirst, OffersBy;
    forall c | Offers(f, t, w, c)
      ensures s <= t.num[c]
    {
      var v :| v in f.preds[w] && v in t.num && OffersBy(f, t, w, v, c);
    }
    FirstOfferIsSemi(f, t, w, vertex[s]);
  }

  type Buckets = map<NodeId, set<NodeId>>

  /** `u` has the first semidominator of all nodes below `s` down to `x`, all above `lo`. */
  ghost predicate FirstBelow(t: Tree, semi: map<NodeId, nat>, lo: nat, s: NodeId, u: NodeId, x: NodeId) {
    && t.Below(s, u, x) && u in semi && x in semi
    && forall y :: t.Below(s, y, x) ==> y in t.num && t.num[y] > lo && y in semi && semi[u] <= semi[y]
  }

  /** `x` has its semidominator recorded, or the node that shares its immediate dominator. */
  ghost predicate DomAt(t: Tree, semi: map<NodeId, nat>, vertex: map<nat, NodeId>, lo: nat, dom: Doms, x: NodeId) {
    && x in dom && x in semi && semi[x] in vertex
    && exists u :: FirstBelow(t, semi, lo, vertex[semi[x]], u, x) && dom[x] == Some(Relative(semi, vertex, u, x))
  }

  function Relative(semi: map<NodeId, nat>, vertex: map<nat, NodeId>, u: NodeId, x: NodeId): NodeId
    requires u in semi && x in semi && semi[x] in vertex
  {
    if semi[u] < semi[x] then u else vertex[semi[x]]
  }

  /** The child of `s` on the way down to `x` is still to come. */
  ghost predicate StillToCome(t: Tree, lo: nat, s: NodeId, x: NodeId) {
    exists c :: t.HasParent(c) && t.parent[c] == s && t.Anc(c, x) && t.num[c] <= lo
  }

  ghost predicate Waits(t: Tree, semi: map<NodeId, nat>, vertex: map<nat, NodeId>, bucket: Buckets, lo: nat, x: NodeId)
  {
    x in semi && semi[x] in vertex && x in At(bucket, vertex[semi[x]]) && StillToCome(t, lo, vertex[semi[x]], x)
  }

  /** Every node above `lo` is decided or waits in a bucket, or in `rest`. */
  ghost predicate Progress(t: Tree, semi: map<NodeId, nat>, vertex: map<nat, NodeId>, bucket: Buckets, dom: Doms,
      lo: nat, rest: set<NodeId>) {
    && (forall x :: x in t.num && t.num[x] > lo ==>
          DomAt(t, semi, vertex, lo, dom, x) || Waits(t, semi, vertex, bucket, lo, x) || x in rest)
    && forall x :: x in dom ==> x in t.num
  }

  /** Buckets hold nodes above `lo` under their semidominators. */
  ghost predicate Sorted(t: Tree, semi: map<NodeId, nat>, vertex: map<nat, NodeId>, bucket: Buckets, lo: nat) {
    forall y, x :: x in At(bucket, y) ==> SortedAt(t, semi, vertex, lo, y, x)
  }

  ghost predicate SortedAt(t: Tree, semi: map<NodeId, nat>, vertex: map<nat, NodeId>, lo: nat, y: NodeId, x: NodeId) {
    x in t.num && t.num[x] > lo && x in semi && semi[x] in vertex && y == vertex[semi[x]]
  }

  lemma NothingDone(t: Tree, semi: map<NodeId, nat>, vertex: map<nat, NodeId>, n: nat)
    requires forall x :: x in t.num ==> t.num[x] <= n
    ensures Progress(t, semi, vertex, map[], map[], n, {}) && Sorted(t, semi, vertex, map[], n)
  {
    hide DomAt, Waits;
  }

  lemma DomIs(t: Tree, semi: map<NodeId, nat>, vertex: map<nat, NodeId>, lo: nat, dom: Doms, x: NodeId)
    returns (u: NodeId)
    requires DomAt(t, semi, vertex, lo, dom, x)
    ensures x in dom && x in semi && u in semi && semi[x] in vertex && dom[x] == Some(Relative(semi, vertex, u, x))
    ensures FirstBelow(t, semi, lo, vertex[semi[x]], u, x)
  {
    hide Tree.Below;
    u :| FirstBelow(t, semi, lo, vertex[semi[x]], u, x) && dom[x] == Some(Relative(semi, vertex, u, x));
  }

  lemma DomIf(t: Tree, semi: map<NodeId, nat>, vertex: map<nat, NodeId>, lo: nat, dom: Doms, x: NodeId, u: NodeId)
    requires x in dom && x in semi && u in semi && semi[x] in vertex && dom[x] == Some(Relative(semi, vertex, u, x))
    requires FirstBelow(t, semi, lo, vertex[semi[x]], u, x)
    ensures DomAt(t, semi, vertex, lo, dom, x)
  {
    hide Tree.Below;
  }

  lemma FirstBelowUp(t: Tree, semi: map<NodeId, nat>, s: NodeId, u: NodeId, x: NodeId, w: NodeId, k: nat)
    requires w in t.num && t.num[w] > 0 && FirstBelow(t, semi, t.num[w], s, u, x)
    ensures FirstBelow(t, semi[w := k], t.num[w] - 1, s, u, x) && u != w
  {
    hide Tree.Below;
    assert t.num[u] > t.num[w];
  }

  /** What was decided stays so when the next node down has its semidominator. */
  lemma DomStays(t: Tree, semi: map<NodeId, nat>, vertex: map<nat, NodeId>, dom: Doms, w: NodeId, s: nat, x: NodeId)
    requires w in t.num && t.num[w] > 0 && x in t.num && t.num[x] > t.num[w]
    requires DomAt(t, semi, vertex, t.num[w], dom, x)
    ensures DomAt(t, semi[w := s], vertex, t.num[w] - 1, dom, x)
  {
    hide *;
    var u := DomIs(t, semi, vertex, t.num[w], dom, x);
    FirstBelowUp(t, semi, vertex[semi[x]], u, x, w, s);
    RelativeStays(semi, vertex, u, x, w, s);
    DomIf(t, semi[w := s], vertex, t.num[w] - 1, dom, x, u);
  }

  lemma RelativeStays(semi: map<NodeId, nat>, vertex: map<nat, NodeId>, u: NodeId, x: NodeId, w: NodeId, s: nat)
    requires u in semi && x in semi && semi[x] in vertex && u != w && x != w
    ensures Relative(semi[w := s], vertex, u, x) == Relative(semi, vertex, u, x)
  {
  }

  /** The child of `s` on the way down to `x`. */
  lemma {:induction false} ChildTowards(t: Tree, s: NodeId, x: NodeId) returns (c: NodeId)
    requires t.Anc(s, x) && s != x
    ensures t.HasParent(c) && t.parent[c] == s && t.Anc(c, x)
    decreases t.num[x]
  {
    if t.parent[x] == s {
      c := x;
    } else {
      c := ChildTowards(t, s, t.parent[x]);
    }
  }

  /** A node that waits for another child than `w` still does when `w` has come. */
  lemma WaitStays(f: Flow, t: Tree, w: NodeId, s: NodeId, x: NodeId)
    requires DepthFirst(f, t) && t.HasParent(w) && t.parent[w] != s && t.num[w] > 0 && StillToCome(t, t.num[w], s, x)
    ensures StillToCome(t, t.num[w] - 1, s, x)
  {
    var c :| t.HasParent(c) && t.parent[c] == s && t.Anc(c, x) && t.num[c] <= t.num[w];
    SameByNumber(f, t, c, w);
  }

  /** `w` itself waits for another node than itself. */
  lemma WaitsForOther(f: Flow, t: Tree, w: NodeId, s: NodeId)
    requires DepthFirst(f, t) && t.HasParent(w) && t.parent[w] != s && t.num[w] > 0 && IsSemi(f, t, s, w)
    requires w != f.entry
    ensures StillToCome(t, t.num[w] - 1, s, w)
  {
    SemiIsAncestor(f, t, s, w);
    var c := ChildTowards(t, s, w);
    AncNum(t, c, w);
  }

  /** What waits does so in the bucket of its semidominator. */
  lemma WaitsIs(t: Tree, semi: map<NodeId, nat>, vertex: map<nat, NodeId>, bucket: Buckets, lo: nat, x: NodeId)
    ensures Waits(t, semi, vertex, bucket, lo, x) <==>
      x in semi && semi[x] in vertex && x in At(bucket, vertex[semi[x]]) && StillToCome(t, lo, vertex[semi[x]], x)
  {
    hide StillToCome;
  }

  lemma ProgressAt(t: Tree, semi: map<NodeId, nat>, vertex: map<nat, NodeId>, bucket: Buckets, dom: Doms, lo: nat,
      rest: set<NodeId>, x: NodeId)
    requires Progress(t, semi, vertex, bucket, dom, lo, rest) && x in t.num && t.num[x] > lo
    ensures DomAt(t, semi, vertex, lo, dom, x) || Waits(t, semi, vertex, bucket, lo, x) || x in rest
  {
    hide DomAt, Waits;
  }

  lemma ProgressIf(t: Tree, semi: map<NodeId, nat>, vertex: map<nat, NodeId>, bucket: Buckets, dom: Doms, lo: nat,
      rest: set<NodeId>)
    requires forall x :: x in dom ==> x in t.num
    requires forall x :: x in t.num && t.num[x] > lo ==>
      DomAt(t, semi, vertex, lo, dom, x) || Waits(t, semi, vertex, bucket, lo, x) || x in rest
    ensures Progress(t, semi, vertex, bucket, dom, lo, rest)
  {
    hide DomAt, Waits;
  }

  lemma ProgressDoms(t: Tree, semi: map<NodeId, nat>, vertex: map<nat, NodeId>, bucket: Buckets, dom: Doms, lo: nat,
      rest: set<NodeId>)
    requires Progress(t, semi, vertex, bucket, dom, lo, rest)
    ensures forall x :: x in dom ==> x in t.num
  {
    hide DomAt, Waits;
  }

  /** The node `w` has come: all under its parent are to be decided now. */
  lemma NextNode(f: Flow, t: Tree, semi: map<NodeId, nat>, vertex: map<nat, NodeId>, bucket: Buckets, dom: Doms,
      w: NodeId, s: nat)
    requires DepthFirst(f, t) && w in t.num && t.num[w] > 0 && w != f.entry && t.HasParent(w) && w in t.parent
    requires Progress(t, semi, vertex, bucket, dom, t.num[w], {})
    requires s in vertex && IsSemi(f, t, vertex[s], w)
    ensures var put, pw := Insert(bucket, vertex[s], w), t.parent[w];
      Progress(t, semi[w := s], vertex, put - {pw}, dom, t.num[w] - 1, At(put, pw))
  {
    hide *;
    var put, pw := Insert(bucket, vertex[s], w), t.parent[w];
    var semi', lo := semi[w := s], t.num[w] - 1;
    forall x | x in t.num && t.num[x] > lo
      ensures DomAt(t, semi', vertex, lo, dom, x) || Waits(t, semi', vertex, put - {pw}, lo, x) || x in At(put, pw)
    {
      NextNodeAt(f, t, semi, vertex, bucket, dom, w, s, x);
    }
    ProgressDoms(t, semi, vertex, bucket, dom, t.num[w], {});
    ProgressIf(t, semi', vertex, put - {pw}, dom, lo, At(put, pw));
  }

  lemma NextNodeAt(f: Flow, t: Tree, semi: map<NodeId, nat>, vertex: map<nat, NodeId>, bucket: Buckets, dom: Doms,
      w: NodeId, s: nat, x: NodeId)
    requires DepthFirst(f, t) && w in t.num && t.num[w] > 0 && w != f.entry && t.HasParent(w) && w in t.parent
    requires Progress(t, semi, vertex, bucket, dom, t.num[w], {}) && x in t.num && t.num[x] >= t.num[w]
    requires s in vertex && IsSemi(f, t, vertex[s], w)
    ensures var put, pw := Insert(bucket, vertex[s], w), t.parent[w];
      DomAt(t, semi[w := s], vertex, t.num[w] - 1, dom, x)
      || Waits(t, semi[w := s], vertex, put - {pw}, t.num[w] - 1, x) || x in At(put, pw)
  {
    hide *;
    SameByNumber(f, t, x, w);
    var put, pw := Insert(bucket, vertex[s], w), t.parent[w];
    var semi', lo := semi[w := s], t.num[w] - 1;
    PutTaken(bucket, vertex[s], w, pw);
    WaitsIs(t, semi', vertex, put - {pw}, lo, x);
    if x == w {
      if vertex[s] != pw { WaitsForOther(f, t, w, vertex[s]); }
    } else {
      ProgressAt(t, semi, vertex, bucket, dom, t.num[w], {}, x);
      if DomAt(t, semi, vertex, t.num[w], dom, x) {
        DomStays(t, semi, vertex, dom, w, s, x);
      } else {
        WaitsIs(t, semi, vertex, bucket, t.num[w], x);
        if vertex[semi[x]] != pw { WaitStays(f, t, w, vertex[semi[x]], x); }
      }
    }
  }

  /** What is in the buckets after one insertion, and after one of them was taken. */
  lemma PutTaken(bucket: Buckets, y: NodeId, w: NodeId, pw: NodeId)
    ensures var put := Insert(bucket, y, w);
      && w in At(put, y) && (forall k, x :: x in At(bucket, k) ==> x in At(put, k))
      && (forall k, x :: x in At(put, k) ==> x in At(bucket, k) || (k == y && x == w))
      && (forall k :: k != pw ==> At(put - {pw}, k) == At(put, k)) && At(put - {pw}, pw) == {}
  {
  }

  /** The buckets stay sorted. */
  lemma SortedNext(t: Tree, semi: map<NodeId, nat>, vertex: map<nat, NodeId>, bucket: Buckets, w: NodeId, s: nat,
      pw: NodeId)
    requires w in t.num && t.num[w] > 0 && Sorted(t, semi, vertex, bucket, t.num[w]) && s in vertex
    ensures var put := Insert(bucket, vertex[s], w);
      && Sorted(t, semi[w := s], vertex, put - {pw}, t.num[w] - 1)
      && forall x :: x in At(put, pw) ==> SortedAt(t, semi[w := s], vertex, t.num[w] - 1, pw, x)
  {
    var put := Insert(bucket, vertex[s], w);
    PutTaken(bucket, vertex[s], w, pw);
    hide At, Insert;
    forall y, x | x in At(put, y)
      ensures SortedAt(t, semi[w := s], vertex, t.num[w] - 1, y, x)
    {
      if x in At(bucket, y) { assert SortedAt(t, semi, vertex, t.num[w], y, x); }
    }
    assert forall y, x :: x in At(put - {pw}, y) ==> x in At(put, y);
  }

  /** What the query answers decides a node that waited for `w`. */
  lemma AnswerDecides(f: Flow, t: Tree, semi: map<NodeId, nat>, vertex: map<nat, NodeId>, w: NodeId, x: NodeId,
      u: NodeId)
    requires DepthFirst(f, t) && t.HasParent(w) && x in t.num && t.num[w] > 0 && t.num[x] >= t.num[w] && w != f.entry
    requires x in semi && semi[x] in vertex && vertex[semi[x]] == t.parent[w] && IsSemi(f, t, t.parent[w], x)
    requires Answers(t, semi, t.num[w] - 1, x, u) && x != f.entry
    ensures FirstBelow(t, semi, t.num[w] - 1, t.parent[w], u, x)
  {
    var pw, lo := t.parent[w], t.num[w] - 1;
    SemiIsAncestor(f, t, pw, x);
    AncUp(f, t, w);
    AnswersIs(t, semi, lo, x, u);
    AncLine(t, pw, u, x);
    forall y | t.Below(pw, y, x)
      ensures y in t.num && t.num[y] > lo && y in semi && semi[u] <= semi[y]
    {
      LateBelow(f, t, w, y, x);
      AnswersFirst(t, semi, lo, x, u, y);
    }
  }

  /** Below its parent on the way down to a later node nothing was entered before `w`. */
  lemma LateBelow(f: Flow, t: Tree, w: NodeId, y: NodeId, x: NodeId)
    requires DepthFirst(f, t) && t.HasParent(w) && t.Below(t.parent[w], y, x) && t.num[w] <= t.num[x]
    ensures y in t.num && t.num[y] >= t.num[w]
  {
    AncNum(t, t.parent[w], y);
    if t.num[y] < t.num[w] {
      NoGap(f, t, y, w, x);
      AncNum(t, y, t.parent[w]);
    }
  }

  /** One node of `rest` is decided. */
  lemma OneDecided(t: Tree, semi: map<NodeId, nat>, vertex: map<nat, NodeId>, bucket: Buckets, dom: Doms, lo: nat,
      rest: set<NodeId>, x: NodeId, u: NodeId)
    requires Progress(t, semi, vertex, bucket, dom, lo, rest) && x in t.num && x in semi && semi[x] in vertex
    requires FirstBelow(t, semi, lo, vertex[semi[x]], u, x)
    ensures u in semi && Progress(t, semi, vertex, bucket, dom[x := Some(Relative(semi, vertex, u, x))], lo, rest - {x})
  {
    hide FirstBelow, Waits, Relative;
    assert u in semi by { FirstBelowIs(t, semi, lo, vertex[semi[x]], u, x); }
    var dom' := dom[x := Some(Relative(semi, vertex, u, x))];
    assert DomAt(t, semi, vertex, lo, dom', x);
    forall y | y in t.num && t.num[y] > lo && y != x && DomAt(t, semi, vertex, lo, dom, y)
      ensures DomAt(t, semi, vertex, lo, dom', y)
    {
    }
  }

  lemma FirstBelowIs(t: Tree, semi: map<NodeId, nat>, lo: nat, s: NodeId, u: NodeId, x: NodeId)
    requires FirstBelow(t, semi, lo, s, u, x)
    ensures u in semi && x in semi && t.Below(s, u, x)
  {
    hide Tree.Below;
  }

  lemma SemisNext(f: Flow, t: Tree, semi: map<NodeId, nat>, vertex: map<nat, NodeId>, w: NodeId, s: nat)
    requires DepthFirst(f, t) && w in t.num && t.num[w] > 0 && Semis(f, t, semi, vertex, t.num[w])
    requires s in vertex && IsSemi(f, t, vertex[s], w)
    ensures Semis(f, t, semi[w := s], vertex, t.num[w] - 1)
  {
    hide IsSemi, DepthFirst;
    forall x | x in t.num
      ensures SemiAt(f, t, semi[w := s], vertex, t.num[w] - 1, x)
    {
      assert SemiAt(f, t, semi, vertex, t.num[w], x);
      SameByNumber(f, t, x, w);
    }
  }

  /** Gives `w` its semidominator, the first that the predecessors' queries answer, and names
      the node in whose bucket it is to wait. */
  method FindSemi(ghost f: Flow, ghost t: Tree, vertex: map<nat, NodeId>, ghost n: nat, preds: set<NodeId>, w: NodeId,
      semi0: map<NodeId, nat>, anc0: Ancestors, labels0: Labels)
    returns (y: Option<NodeId>, semi: map<NodeId, nat>, ancestor: Ancestors, labels: Labels)
    requires DepthFirst(f, t) && Indexed(t, vertex, n) && w in t.num && t.num[w] > 0 && w != f.entry && w in f.preds
    requires Semis(f, t, semi0, vertex, t.num[w]) && Forest(t, semi0, anc0, labels0, t.num[w])
    requires forall v :: v in preds <==> v in t.num && v in f.preds[w]
    ensures w in semi && semi == semi0[w := semi[w]] && semi[w] in vertex && y == Some(vertex[semi[w]])
    ensures IsSemi(f, t, vertex[semi[w]], w) && Semis(f, t, semi, vertex, t.num[w] - 1)
    ensures Forest(t, semi, ancestor, labels, t.num[w])
  {
    hide *;
    y, semi, ancestor, labels := None, semi0, anc0, labels0;
    SemiOf(f, t, semi, vertex, n, t.num[w], w);
    NoOfferYet(f, t, vertex, w);
    var rest := preds;
    ghost var seen: set<NodeId> := {};
    while rest != {}
      invariant w in semi && semi == semi0[w := semi[w]] && semi[w] <= t.num[w]
      invariant Forest(t, semi, ancestor, labels, t.num[w]) && FirstOffer(f, t, vertex, w, semi[w], seen)
      invariant seen + rest == preds
      invariant seen != {} ==> semi[w] in vertex && y == Some(vertex[semi[w]])
      decreases rest
    {
      var v :| v in rest;
      rest := rest - {v};
      var u;
      u, ancestor, labels := Eval(t, semi, t.num[w], v, ancestor, labels);
      OfferMore(f, t, semi0, vertex, n, w, semi[w], seen, v, u);
      if semi[u] < semi[w] {
        ForestSemi(t, semi, ancestor, labels, t.num[w], w, semi[u]);
        semi := semi[w := semi[u]];
      }
      FirstOfferIs(f, t, vertex, w, semi[w], seen + {v});
      y := Some(vertex[semi[w]]);
      seen := seen + {v};
    }
    AncUp(f, t, w);
    ParentIs(t, w);
    assert t.parent[w] in preds;
    OffersDone(f, t, vertex, n, w, semi[w], seen);
    SemisNext(f, t, semi0, vertex, w, semi[w]);
  }

  /** Decides all that waited for `w`, the first child of `pw` to come of those above `lo`. */
  method Drain(ghost f: Flow, ghost t: Tree, semi: map<NodeId, nat>, ghost vertex: map<nat, NodeId>, ghost n: nat,
      ghost lo: nat, ghost w: NodeId, pw: NodeId, ghost bucket: Buckets, waiting: set<NodeId>,
      dom0: Doms, anc0: Ancestors, labels0: Labels)
    returns (dom: Doms, ancestor: Ancestors, labels: Labels)
    requires w in t.num && t.num[w] == lo + 1 && w != f.entry && w in t.parent && pw == t.parent[w]
    requires DepthFirst(f, t) && Indexed(t, vertex, n) && Semis(f, t, semi, vertex, lo)
    requires Forest(t, semi, anc0, labels0, lo) && Progress(t, semi, vertex, bucket, dom0, lo, waiting)
    requires forall x :: x in waiting ==> SortedAt(t, semi, vertex, lo, pw, x)
    ensures Forest(t, semi, ancestor, labels, lo) && Progress(t, semi, vertex, bucket, dom, lo, {})
  {
    hide *;
    dom, ancestor, labels := dom0, anc0, labels0;
    var rest := waiting;
    while rest != {}
      invariant rest <= waiting && Forest(t, semi, ancestor, labels, lo)
      invariant Progress(t, semi, vertex, bucket, dom, lo, rest)
      decreases rest
    {
      var v :| v in rest;
      SortedIs(t, semi, vertex, lo, pw, v);
      var u;
      u, ancestor, labels := Eval(t, semi, lo, v, ancestor, labels);
      DrainOne(f, t, semi, vertex, n, lo, w, bucket, dom, rest, v, u);
      dom := dom[v := Some(if semi[u] < semi[v] then u else pw)];
      rest := rest - {v};
    }
  }

  lemma DrainOne(f: Flow, t: Tree, semi: map<NodeId, nat>, vertex: map<nat, NodeId>, n: nat, lo: nat, w: NodeId,
      bucket: Buckets, dom: Doms, rest: set<NodeId>, v: NodeId, u: NodeId)
    requires w in t.num && t.num[w] == lo + 1 && w != f.entry && w in t.parent
    requires DepthFirst(f, t) && Indexed(t, vertex, n) && Semis(f, t, semi, vertex, lo)
    requires SortedAt(t, semi, vertex, lo, t.parent[w], v) && Answers(t, semi, lo, v, u)
    requires Progress(t, semi, vertex, bucket, dom, lo, rest)
    ensures u in semi && v in semi
    ensures Progress(t, semi, vertex, bucket, dom[v := Some(if semi[u] < semi[v] then u else t.parent[w])], lo,
      rest - {v})
  {
    hide *;
    AncUp(f, t, w);
    SortedIs(t, semi, vertex, lo, t.parent[w], v);
    SemiOf(f, t, semi, vertex, n, lo, v);
    LaterThanEntry(f, t, w, v);
    AnswerDecides(f, t, semi, vertex, w, v, u);
    OneDecided(t, semi, vertex, bucket, dom, lo, rest, v, u);
    RelativeIs(semi, vertex, u, v);
  }

  lemma RelativeIs(semi: map<NodeId, nat>, vertex: map<nat, NodeId>, u: NodeId, x: NodeId)
    requires u in semi && x in semi && semi[x] in vertex
    ensures Relative(semi, vertex, u, x) == if semi[u] < semi[x] then u else vertex[semi[x]]
  {
  }

  lemma SortedIs(t: Tree, semi: map<NodeId, nat>, vertex: map<nat, NodeId>, lo: nat, y: NodeId, x: NodeId)
    requires SortedAt(t, semi, vertex, lo, y, x)
    ensures x in t.num && t.num[x] > lo && x in semi && semi[x] in vertex && y == vertex[semi[x]]
  {
  }

  lemma LaterThanEntry(f: Flow, t: Tree, w: NodeId, v: NodeId)
    requires DepthFirst(f, t) && w in t.num && w != f.entry && v in t.num && t.num[v] >= t.num[w]
    ensures v != f.entry
  {
    AncUp(f, t, w);
    ParentIs(t, w);
    hide Tree.Anc, Tree.HasParent;
  }

  /** `x` has its immediate dominator. */
  ghost predicate Settled(f: Flow, dom: Doms, x: NodeId) {
    x in dom && dom[x].Some? && IsIdom(f, dom[x].value, x)
  }

  /** Nothing waits for the entry. */
  lemma AllDecided(f: Flow, t: Tree, semi: map<NodeId, nat>, vertex: map<nat, NodeId>, bucket: Buckets, dom: Doms)
    requires DepthFirst(f, t) && t.num[f.entry] == 1 && Progress(t, semi, vertex, bucket, dom, 1, {})
    ensures forall x :: x in t.num && t.num[x] > 1 ==> DomAt(t, semi, vertex, 1, dom, x)
  {
    hide *;
    forall x | x in t.num && t.num[x] > 1
      ensures DomAt(t, semi, vertex, 1, dom, x)
    {
      ProgressAt(t, semi, vertex, bucket, dom, 1, {}, x);
      if Waits(t, semi, vertex, bucket, 1, x) {
        WaitsIs(t, semi, vertex, bucket, 1, x);
        NoneBelowEntry(f, t, vertex[semi[x]], x);
      }
    }
  }

  lemma NoneBelowEntry(f: Flow, t: Tree, s: NodeId, x: NodeId)
    requires DepthFirst(f, t) && t.num[f.entry] == 1
    ensures !StillToCome(t, 1, s, x)
  {
    hide Tree.Anc;
  }

  /** What was found below the semidominator is the best. */
  lemma BestFound(f: Flow, t: Tree, semi: map<NodeId, nat>, vertex: map<nat, NodeId>, n: nat, s: NodeId, u: NodeId,
      x: NodeId)
    requires DepthFirst(f, t) && Indexed(t, vertex, n) && Semis(f, t, semi, vertex, 1)
    requires FirstBelow(t, semi, 1, s, u, x)
    ensures u in semi && semi[u] in vertex && vertex[semi[u]] in t.num && t.num[vertex[semi[u]]] == semi[u]
    ensures IsBest(f, t, s, u, vertex[semi[u]], x) && u in t.num && t.num[u] > 1
  {
    hide *;
    FirstBelowIs(t, semi, 1, s, u, x);
    FirstBelowAt(t, semi, 1, s, u, x, u);
    SemiOf(f, t, semi, vertex, n, 1, u);
    forall y, sy | t.Below(s, y, x) && IsSemi(f, t, sy, y)
      ensures sy in t.num && t.num[vertex[semi[u]]] <= t.num[sy]
    {
      FirstBelowAt(t, semi, 1, s, u, x, y);
      SemiOf(f, t, semi, vertex, n, 1, y);
      SemiIsUnique(f, t, sy, vertex[semi[y]], y);
    }
    BestIf(f, t, s, u, vertex[semi[u]], x);
  }

  lemma BestIf(f: Flow, t: Tree, s: NodeId, u: NodeId, su: NodeId, x: NodeId)
    requires t.Below(s, u, x) && IsSemi(f, t, su, u) && su in t.num
    requires forall y, sy :: t.Below(s, y, x) && IsSemi(f, t, sy, y) ==> sy in t.num && t.num[su] <= t.num[sy]
    ensures IsBest(f, t, s, u, su, x)
  {
    hide IsSemi, Tree.Below;
  }

  lemma FirstBelowAt(t: Tree, semi: map<NodeId, nat>, lo: nat, s: NodeId, u: NodeId, x: NodeId, y: NodeId)
    requires FirstBelow(t, semi, lo, s, u, x) && t.Below(s, y, x)
    ensures y in t.num && t.num[y] > lo && y in semi && u in semi && semi[u] <= semi[y]
  {
    hide Tree.Below;
  }

  /** The last pass settles one more node. */
  lemma SettlesNext(f: Flow, t: Tree, semi: map<NodeId, nat>, vertex: map<nat, NodeId>, n: nat, dom: Doms, w: NodeId)
    requires f.entry in t.num && t.num[f.entry] == 1 && w in t.num && t.num[w] > 1
    requires DepthFirst(f, t) && Indexed(t, vertex, n) && Semis(f, t, semi, vertex, 1)
    requires DomAt(t, semi, vertex, 1, dom, w)
    requires forall x :: x in t.num && 1 < t.num[x] < t.num[w] ==> Settled(f, dom, x)
    ensures w in dom && w in semi && semi[w] in vertex && dom[w].Some?
    ensures dom[w].value != vertex[semi[w]] ==> dom[w].value in dom
    ensures Settled(f, if dom[w].value != vertex[semi[w]] then dom[w := dom[dom[w].value]] else dom, w)
  {
    hide *;
    var u := DomIs(t, semi, vertex, 1, dom, w);
    var s := vertex[semi[w]];
    SemiOf(f, t, semi, vertex, n, 1, w);
    SemiIsAncestor(f, t, s, w);
    AncSelf(t, w);
    BelowIf(t, s, w, w);
    FirstBelowAt(t, semi, 1, s, u, w, w);
    FirstBelowIs(t, semi, 1, s, u, w);
    BestFound(f, t, semi, vertex, n, s, u, w);
    RelativeIs(semi, vertex, u, w);
    BelowIs(t, s, u, w);
    if semi[u] < semi[w] {
      SettledIs(f, dom, u);
      IdomOfBest(f, t, s, u, vertex[semi[u]], w, dom[u].value);
      SettledIf(f, dom[w := dom[u]], w);
    } else {
      SemiIsIdom(f, t, s, u, w);
      SettledIf(f, dom, w);
    }
  }

  lemma BelowIf(t: Tree, a: NodeId, y: NodeId, w: NodeId)
    requires t.Anc(a, y) && y != a && t.Anc(y, w)
    ensures t.Below(a, y, w)
  {
  }

  lemma BelowIs(t: Tree, a: NodeId, y: NodeId, w: NodeId)
    requires t.Below(a, y, w)
    ensures y != a && y in t.num && w in t.num && t.num[y] <= t.num[w] && (y != w ==> t.num[y] < t.num[w])
  {
    AncNum(t, y, w);
  }

  lemma SettledIs(f: Flow, dom: Doms, x: NodeId)
    requires Settled(f, dom, x)
    ensures x in dom && dom[x].Some? && IsIdom(f, dom[x].value, x)
  {
  }

  lemma SettledIf(f: Flow, dom: Doms, x: NodeId)
    requires x in dom && dom[x].Some? && IsIdom(f, dom[x].value, x)
    ensures Settled(f, dom, x)
  {
  }

  /** First to last: where another node shares the immediate dominator, it is copied from there. */
  method Settle(ghost f: Flow, ghost t: Tree, semi: map<NodeId, nat>, vertex: map<nat, NodeId>, n: nat, dom0: Doms)
    returns (dom: Doms)
    requires f.entry in t.num && t.num[f.entry] == 1 && n >= 1
    requires DepthFirst(f, t) && Indexed(t, vertex, n) && Semis(f, t, semi, vertex, 1)
    requires forall x :: x in t.num && t.num[x] > 1 ==> DomAt(t, semi, vertex, 1, dom0, x)
    requires forall x :: x in dom0 ==> x in t.num
    requires forall x :: x in t.num ==> t.num[x] <= n
    ensures forall x :: x in t.num && t.num[x] > 1 ==> Settled(f, dom, x)
    ensures forall x :: x in dom ==> x in t.num
  {
    hide *;
    dom := dom0;
    for i := 2 to n + 1
      invariant forall x :: x in t.num && 1 < t.num[x] < i ==> Settled(f, dom, x)
      invariant forall x :: x in t.num && t.num[x] >= i ==> DomAt(t, semi, vertex, 1, dom, x)
      invariant forall x :: x in dom ==> x in t.num
    {
      VertexOf(t, vertex, n, i);
      var w := vertex[i];
      SettlesNext(f, t, semi, vertex, n, dom, w);
      ghost var dom1 := dom;
      if w in dom {
        var dw := dom[w].value;
        if dw != vertex[semi[w]] {
          dom := dom[w := dom[dw]];
        }
      }
      forall x | x in t.num && t.num[x] != i
        ensures Settled(f, dom1, x) ==> Settled(f, dom, x)
        ensures DomAt(t, semi, vertex, 1, dom1, x) ==> DomAt(t, semi, vertex, 1, dom, x)
      {
        Elsewhere(f, t, semi, vertex, dom1, dom, x);
      }
      forall x | x in t.num && t.num[x] == i
        ensures Settled(f, dom, x)
      {
        SameByNumber(f, t, x, w);
      }
    }
  }

  lemma Elsewhere(f: Flow, t: Tree, semi: map<NodeId, nat>, vertex: map<nat, NodeId>, dom: Doms, dom': Doms, x: NodeId)
    requires (x in dom <==> x in dom') && (x in dom ==> dom[x] == dom'[x])
    ensures Settled(f, dom, x) ==> Settled(f, dom', x)
    ensures DomAt(t, semi, vertex, 1, dom, x) ==> DomAt(t, semi, vertex, 1, dom', x)
  {
    hide FirstBelow, IsIdom;
  }

  lemma Starts(f: Flow, t: Tree, semi: map<NodeId, nat>, vertex: map<nat, NodeId>, n: nat, ancestor: Ancestors,
        labels: Labels,
      pred: map<NodeId, set<NodeId>>)
    requires Searched(f, t, n, pred) && Indexed(t, vertex, n) && Alone(t, labels, ancestor) && t.num == Numbers(semi)
    ensures Forest(t, semi, ancestor, labels, n) && Semis(f, t, semi, vertex, n) && n >= 1
    ensures Progress(t, semi, vertex, map[], map[], n, {}) && Sorted(t, semi, vertex, map[], n)
  {
    NothingDone(t, semi, vertex, n);
    hide Progress, Sorted, IsSemi, Shortcut, DepthFirst;
    assert forall x :: x in t.num ==> t.num[x] in vertex;
  }

  lemma SearchedIs(f: Flow, t: Tree, n: nat, pred: map<NodeId, set<NodeId>>)
    requires Searched(f, t, n, pred)
    ensures DepthFirst(f, t) && f.entry in t.num && t.num[f.entry] == 1
    ensures (forall w :: w in t.num ==> 1 <= t.num[w] <= n)
    ensures forall w :: w in f.nodes ==> (w in t.num <==> f.Reachable(w))
    ensures f.preds.Keys == f.nodes && t.num.Keys <= f.nodes && f.entry in f.nodes
    ensures forall v, w :: w in t.num ==> (v in At(pred, w) <==> v in t.num && v in f.preds[w])
  {
    hide Flow.Reachable, Tree.Anc, Tree.HasParent;
  }

  /** Gives every reachable node but the entry its immediate dominator. */
  method DomLt(g: Graph) returns (dom: Doms)
    requires g.Valid() && g.entry.Some?
    ensures TellsIdoms(g.ToFlow(), dom)
  {
    hide *;
    FlowOf(g);
    ghost var f := g.ToFlow();
    var semi, vertex, parent, pred, labels, ancestor, n := Search(g);
    ghost var t := Tree(Numbers(semi), parent);
    SearchedIs(f, t, n, pred);
    Starts(f, t, semi, vertex, n, ancestor, labels, pred);
    var bucket: Buckets := map[];
    dom := map[];
    for i := n + 1 downto 2
      invariant Forest(t, semi, ancestor, labels, i - 1) && Semis(f, t, semi, vertex, i - 1)
      invariant Progress(t, semi, vertex, bucket, dom, i - 1, {}) && Sorted(t, semi, vertex, bucket, i - 1)
    {
      VertexOf(t, vertex, n, i);
      var w := vertex[i];
      var y;
      ghost var semi0 := semi;
      y, semi, ancestor, labels := FindSemi(f, t, vertex, n, At(pred, w), w, semi, ancestor, labels);
      AncUp(f, t, w);
      ParentIs(t, w);
      var pw := parent[w];
      NextNode(f, t, semi0, vertex, bucket, dom, w, semi[w]);
      SortedNext(t, semi0, vertex, bucket, w, semi[w], pw);
      if y.Some? { bucket := Insert(bucket, y.value, w); }
      ForestLink(f, t, semi, ancestor, labels, w);
      ancestor := ancestor[w := Some(pw)];
      var waiting := At(bucket, pw);
      bucket := bucket - {pw};
      dom, ancestor, labels := Drain(f, t, semi, vertex, n, i - 1, w, pw, bucket, waiting, dom, ancestor, labels);
    }
    AllDecided(f, t, semi, vertex, bucket, dom);
    ProgressDoms(t, semi, vertex, bucket, dom, 1, {});
    dom := Settle(f, t, semi, vertex, n, dom);
    DomsDone(f, t, dom);
    dom := dom[g.entry.value := None];
    TellsIf(f, dom);
  }

  lemma DomsDone(f: Flow, t: Tree, dom: Doms)
    requires DepthFirst(f, t) && f.entry in t.num && t.num[f.entry] == 1
    requires forall x :: x in t.num ==> t.num[x] >= 1
    requires forall x :: x in t.num && t.num[x] > 1 ==> Settled(f, dom, x)
    ensures forall x :: x in t.num && x != f.entry ==> x in dom && dom[x].Some? && IsIdom(f, dom[x].value, x)
  {
    hide *;
    forall x | x in t.num && x != f.entry
      ensures x in dom && dom[x].Some? && IsIdom(f, dom[x].value, x)
    {
      SameByNumber(f, t, x, f.entry);
      SettledIs(f, dom, x);
    }
  }
}
