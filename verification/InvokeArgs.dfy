/** The analysis itself: one linear scan for the sites, and per invoke-bearing block a
    backward window, resolved farthest first within a work budget. */
module InvokeArgs {
  import opened Options
  import opened InvokeCfg
  import opened OriginFlow
  import opened OriginSoundness
  import opened OriginLaws
  import opened PairFlow
  import opened PairExact
  import opened PairTypes

  const MAX_WORK: nat := 0x40_0000
  const MAX_WINDOW_ENTRIES: nat := 0x1_0000

  method EnumerateInvokeSites(code: Code) returns (out: seq<Bare>)
    ensures out == Scan(code, 0, |code|)
  {
    out := [];
    var p := 0;
    while p < |code|
      invariant out + Scan(code, p, |code|) == Scan(code, 0, |code|)
      decreases |code| - p
    {
      var i := code[p];
      if i.width == 0 { break; }
      if i.effect.Invoke? {
        out := out + [Bare(i.effect.callee, p, i.effect.opcode)];
      }
      p := p + i.width;
    }
  }

  /** The instructions a block simulation goes through. */
  function Steps(code: Code, off: nat, end: nat): nat
    decreases |code| - off
  {
    if off >= end || off >= |code| || code[off].width == 0 then 0 else 1 + Steps(code, Next(code, off), end)
  }

  /** What is left of the simulation at `q`. */
  ghost predicate Left(code: Code, q: nat, end: nat, sim: Sim, after: Sim, sites: seq<Site>, steps: nat) {
    Run(code, q, end, sim) == after && Sites(code, q, end, sim) == sites && Steps(code, q, end) == steps
  }

  lemma LeftNone(code: Code, q: nat, end: nat, sim: Sim, after: Sim, sites: seq<Site>, steps: nat)
    requires q >= end || q >= |code| || code[q].width == 0
    requires Left(code, q, end, sim, after, sites, steps)
    ensures after == sim && sites == [] && steps == 0
  {
  }

  lemma LeftNext(code: Code, q: nat, end: nat, sim: Sim, after: Sim, sites: seq<Site>, steps: nat)
    returns (rest: seq<Site>, left: nat)
    requires q < end && q < |code| && code[q].width > 0
    requires Left(code, q, end, sim, after, sites, steps)
    ensures Left(code, Next(code, q), end, Step(code[q], sim), after, rest, left) && steps == 1 + left
    ensures sites == (if code[q].effect.Invoke? then [SiteAt(code[q], q, sim.st)] else []) + rest
  {
    rest, left := Sites(code, Next(code, q), end, Step(code[q], sim)), Steps(code, Next(code, q), end);
  }

  /** Simulates block `w` over `st`, collecting its invoke sites when asked to. */
  method RunBlock(b: Body, cfg: Cfg, w: nat, st: State, emit: bool)
    returns (after: State, sites: seq<Site>, simulated: nat)
    requires w < |cfg.starts|
    ensures after == Out(b, cfg, w, st)
    ensures sites == if emit then BlockSites(b, cfg, w, st) else []
    ensures simulated == Steps(b.code, cfg.starts[w], cfg.EndOf(w, |b.code|))
  {
    hide Run, Sites, Steps, Step, SiteAt, Left;
    var code := b.code;
    var q, end := cfg.starts[w], cfg.EndOf(w, |code|);
    var sim := Sim(st, None);
    sites, simulated := [], 0;
    ghost var final, all, steps := Run(code, q, end, sim), Sites(code, q, end, sim), Steps(code, q, end);
    LeftAll(code, q, end, sim);
    ghost var met: seq<Site>, rest, left := [], all, steps;
    while q < end && q < |code|
      invariant Left(code, q, end, sim, final, rest, left)
      invariant met + rest == all && simulated + left == steps
      invariant sites == if emit then met else []
      decreases |code| - q
    {
      var i := code[q];
      if i.width == 0 { break; }
      simulated := simulated + 1;
      ghost var one := if i.effect.Invoke? then [SiteAt(i, q, sim.st)] else [];
      ghost var was := met;
      rest, left := LeftNext(code, q, end, sim, final, rest, left);
      met := met + one;
      assert met + rest == was + (one + rest);
      if emit && i.effect.Invoke? {
        sites := sites + [SiteAt(i, q, sim.st)];
      }
      sim := Step(i, sim);
      q := q + i.width;
    }
    LeftNone(code, q, end, sim, final, rest, left);
    after := sim.st;
  }

  lemma LeftAll(code: Code, q: nat, end: nat, sim: Sim)
    ensures Left(code, q, end, sim, Run(code, q, end, sim), Sites(code, q, end, sim), Steps(code, q, end))
  {
  }

  /** `dist` gives the blocks seen up to distance `d`, each with its distance. */
  ghost predicate Distances(cfg: Cfg, w: nat, d: nat, dist: map<nat, nat>)
    requires Sized(cfg) && w < |cfg.starts|
  {
    forall x, k: nat :: k <= d ==> (x in dist && dist[x] == k <==> Away(cfg, w, k, x))
  }

  ghost predicate UpTo(dist: map<nat, nat>, d: nat) {
    forall x :: x in dist ==> dist[x] <= d
  }

  /** What the blocks of `fs` add to distance `d + 1`. */
  ghost predicate Adds(cfg: Cfg, fs: seq<nat>, x: nat)
    requires Sized(cfg) && Blocks(cfg, fs)
  {
    exists i :: 0 <= i < |fs| && !cfg.isHandler[fs[i]] && x in cfg.preds[fs[i]]
  }

  /** Puts those of `ps` not met before at distance `k`. */
  method Emplace(ps: seq<nat>, dist: map<nat, nat>, k: nat, found: seq<nat>)
    returns (dist': map<nat, nat>, found': seq<nat>)
    ensures forall x :: x in dist' <==> x in dist || x in ps
    ensures forall x :: x in dist' ==> dist'[x] == if x in dist then dist[x] else k
    ensures forall x :: x in found' <==> x in found || (x in ps && x !in dist)
  {
    dist', found' := dist, found;
    for j := 0 to |ps|
      invariant forall x :: x in dist' <==> x in dist || x in ps[..j]
      invariant forall x :: x in dist' ==> dist'[x] == if x in dist then dist[x] else k
      invariant forall x :: x in found' <==> x in found || (x in ps[..j] && x !in dist)
    {
      assert ps[..j + 1] == ps[..j] + [ps[j]];
      if ps[j] !in dist' {
        dist' := dist'[ps[j] := k];
        found' := found' + [ps[j]];
      }
    }
    assert ps[..|ps|] == ps;
  }

  /** One level of the backward walk; it does not go past a catch handler. */
  method Widen(cfg: Cfg, frontier: seq<nat>, dist: map<nat, nat>, k: nat) returns (dist': map<nat, nat>, next: seq<nat>)
    requires Sized(cfg) && Blocks(cfg, frontier)
    ensures forall x :: x in dist' <==> x in dist || Adds(cfg, frontier, x)
    ensures forall x :: x in dist' ==> dist'[x] == if x in dist then dist[x] else k
    ensures forall x :: x in next <==> Adds(cfg, frontier, x) && x !in dist
  {
    dist', next := dist, [];
    for i := 0 to |frontier|
      invariant forall x :: x in dist' <==> x in dist || Adds(cfg, frontier[..i], x)
      invariant forall x :: x in dist' ==> dist'[x] == if x in dist then dist[x] else k
      invariant forall x :: x in next <==> Adds(cfg, frontier[..i], x) && x !in dist
    {
      AddsMore(cfg, frontier, i);
      if !cfg.isHandler[frontier[i]] {
        dist', next := Emplace(cfg.preds[frontier[i]], dist', k, next);
      }
    }
    assert frontier[..|frontier|] == frontier;
  }

  lemma AddsMore(cfg: Cfg, fs: seq<nat>, i: nat)
    requires Sized(cfg) && Blocks(cfg, fs) && i < |fs|
    ensures forall x :: Adds(cfg, fs[..i + 1], x) <==>
      Adds(cfg, fs[..i], x) || (!cfg.isHandler[fs[i]] && x in cfg.preds[fs[i]])
  {
    assert fs[..i + 1] == fs[..i] + [fs[i]];
    forall x | Adds(cfg, fs[..i], x)
      ensures Adds(cfg, fs[..i + 1], x)
    {
      var j :| 0 <= j < i && !cfg.isHandler[fs[..i][j]] && x in cfg.preds[fs[..i][j]];
      assert fs[..i + 1][j] == fs[j];
    }
    forall x | !cfg.isHandler[fs[i]] && x in cfg.preds[fs[i]]
      ensures Adds(cfg, fs[..i + 1], x)
    {
      assert fs[..i + 1][i] == fs[i];
    }
  }

  /** Block `x` is at backward distance `k`. */
  predicate Away(cfg: Cfg, w: nat, k: nat, x: nat)
    requires Sized(cfg) && w < |cfg.starts|
  {
    x in Frontier(cfg, w, k)
  }

  lemma {:induction false} SeenIs(cfg: Cfg, w: nat, d: nat, x: nat)
    requires Sized(cfg) && w < |cfg.starts|
    ensures x in Seen(cfg, w, d) <==> exists k: nat :: k <= d && Away(cfg, w, k, x)
  {
    if d > 0 {
      SeenIs(cfg, w, d - 1, x);
      assert x in Seen(cfg, w, d) <==> x in Seen(cfg, w, d - 1) || Away(cfg, w, d, x);
    } else {
      assert x in Seen(cfg, w, 0) <==> Away(cfg, w, 0, x);
    }
  }

  /** What a frontier leads to. */
  lemma AddsIs(cfg: Cfg, fs: seq<nat>, s: set<nat>, x: nat)
    requires Sized(cfg) && Blocks(cfg, fs)
    requires forall y :: y in fs <==> y in s
    ensures Adds(cfg, fs, x) <==> exists f :: f in s && f < |cfg.starts| && !cfg.isHandler[f] && x in cfg.preds[f]
  {
    if f :| f in s && f < |cfg.starts| && !cfg.isHandler[f] && x in cfg.preds[f] {
      assert f in fs;
    }
    if Adds(cfg, fs, x) {
      var i: nat :| i < |fs| && !cfg.isHandler[fs[i]] && x in cfg.preds[fs[i]];
      assert fs[i] in fs;
    }
  }

  /** The next level of the walk is the next frontier. */
  lemma NextFrontier(cfg: Cfg, w: nat, d: nat, fs: seq<nat>, dist: map<nat, nat>, x: nat)
    requires Sized(cfg) && w < |cfg.starts| && Blocks(cfg, fs)
    requires Distances(cfg, w, d, dist) && UpTo(dist, d)
    requires forall y :: y in fs <==> y in Frontier(cfg, w, d)
    ensures x in Frontier(cfg, w, d + 1) <==> Adds(cfg, fs, x) && x !in dist
  {
    hide Adds;
    SeenIs(cfg, w, d, x);
    if x in dist { assert Away(cfg, w, dist[x], x); }
    AddsIs(cfg, fs, Frontier(cfg, w, d), x);
  }

  /** A frontier with nothing in it ends the walk. */
  lemma {:induction false} NoMore(cfg: Cfg, w: nat, d: nat, k: nat)
    requires Sized(cfg) && w < |cfg.starts| && Frontier(cfg, w, d) == {} && d <= k
    ensures Frontier(cfg, w, k) == {}
  {
    if d < k { NoMore(cfg, w, d, k - 1); }
  }

  lemma {:induction false} OrderStops(cfg: Cfg, w: nat, depth: nat, d: nat, k: nat)
    requires Sized(cfg) && w < |cfg.starts| && d <= depth && k <= d + 1
    requires d < depth ==> Frontier(cfg, w, d + 1) == {}
    ensures Order(cfg, w, depth, k) == Order(cfg, w, d, k)
    decreases depth + 1 - k
  {
    if k <= d {
      OrderStops(cfg, w, depth, d, k + 1);
    } else {
      OrderEmpty(cfg, w, depth, k);
    }
  }

  lemma {:induction false} OrderEmpty(cfg: Cfg, w: nat, depth: nat, k: nat)
    requires Sized(cfg) && w < |cfg.starts|
    requires k <= depth ==> Frontier(cfg, w, k) == {}
    ensures Order(cfg, w, depth, k) == []
    decreases depth + 1 - k
  {
    if k <= depth {
      NoMore(cfg, w, k, k + 1);
      OrderEmpty(cfg, w, depth, k + 1);
      PickNone(|cfg.starts|);
    }
  }

  lemma {:induction false} PickNone(n: nat)
    ensures Pick({}, n) == []
  {
    if n > 0 { PickNone(n - 1); }
  }

  /** The walk so far: `fs` is the frontier at distance `d`. */
  ghost predicate Walked(cfg: Cfg, w: nat, d: nat, fs: seq<nat>, dist: map<nat, nat>)
    requires Sized(cfg) && w < |cfg.starts|
  {
    && Blocks(cfg, fs) && (forall y :: y in fs <==> y in Frontier(cfg, w, d))
    && Distances(cfg, w, d, dist) && UpTo(dist, d)
  }

  lemma WalkedFurther(cfg: Cfg, w: nat, d: nat, fs: seq<nat>, dist: map<nat, nat>, fs': seq<nat>, dist': map<nat, nat>)
    requires Sized(cfg) && w < |cfg.starts| && Walked(cfg, w, d, fs, dist)
    requires forall x :: x in dist' <==> x in dist || Adds(cfg, fs, x)
    requires forall x :: x in dist' ==> dist'[x] == if x in dist then dist[x] else d + 1
    requires forall x :: x in fs' <==> Adds(cfg, fs, x) && x !in dist
    ensures Walked(cfg, w, d + 1, fs', dist')
  {
    forall x ensures x in fs' <==> x in Frontier(cfg, w, d + 1) {
      NextFrontier(cfg, w, d, fs, dist, x);
    }
    FurtherDistances(cfg, w, d, fs, dist, fs', dist');
    forall k | 0 <= k < |fs'| ensures fs'[k] < |cfg.starts| {
      assert fs'[k] in fs';
    }
  }

  lemma FurtherDistances(cfg: Cfg, w: nat, d: nat, fs: seq<nat>, dist: map<nat, nat>, fs': seq<nat>,
        dist': map<nat, nat>)
    requires Sized(cfg) && w < |cfg.starts| && Distances(cfg, w, d, dist) && UpTo(dist, d) && Blocks(cfg, fs)
    requires forall x :: x in dist' <==> x in dist || Adds(cfg, fs, x)
    requires forall x :: x in dist' ==> dist'[x] == if x in dist then dist[x] else d + 1
    requires forall x :: x in fs' <==> Adds(cfg, fs, x) && x !in dist
    requires forall x :: x in fs' <==> x in Frontier(cfg, w, d + 1)
    ensures Distances(cfg, w, d + 1, dist') && UpTo(dist', d + 1)
  {
    hide Adds, Frontier;
    forall x, k: nat | k <= d + 1
      ensures x in dist' && dist'[x] == k <==> Away(cfg, w, k, x)
    {
      assert Away(cfg, w, d + 1, x) <==> x in fs';
      if k <= d { assert x in dist && dist[x] == k <==> Away(cfg, w, k, x); }
    }
  }

  /** The blocks within `depth` predecessor edges of `w`, farthest first and then by
      number. */
  method Window(cfg: Cfg, w: nat, depth: nat) returns (window: seq<nat>)
    requires Sized(cfg) && w < |cfg.starts|
    ensures window == Order(cfg, w, depth, 0)
  {
    hide *;
    var dist: map<nat, nat>, frontier := map[w := 0], [w];
    WalkStarts(cfg, w);
    var d: nat := 0;
    while d < depth && frontier != []
      invariant d <= depth && Walked(cfg, w, d, frontier, dist)
    {
      WalkedBlocks(cfg, w, d, frontier, dist);
      var dist', next := Widen(cfg, frontier, dist, d + 1);
      WalkedFurther(cfg, w, d, frontier, dist, next, dist');
      dist, frontier := dist', next;
      d := d + 1;
    }
    window := FarthestFirst(cfg, w, d, frontier, dist);
    WalkEnds(cfg, w, depth, d, frontier, dist);
  }

  lemma WalkStarts(cfg: Cfg, w: nat)
    requires Sized(cfg) && w < |cfg.starts|
    ensures Walked(cfg, w, 0, [w], map[w := 0])
  {
    forall x: nat, k: nat | k <= 0
      ensures x in map[w := 0] && map[w := 0][x] == k <==> Away(cfg, w, k, x)
    {
      assert Frontier(cfg, w, 0) == {w};
    }
  }

  lemma WalkedBlocks(cfg: Cfg, w: nat, d: nat, fs: seq<nat>, dist: map<nat, nat>)
    requires Sized(cfg) && w < |cfg.starts| && Walked(cfg, w, d, fs, dist)
    ensures Blocks(cfg, fs)
  {
  }

  lemma WalkEnds(cfg: Cfg, w: nat, depth: nat, d: nat, fs: seq<nat>, dist: map<nat, nat>)
    requires Sized(cfg) && w < |cfg.starts| && Walked(cfg, w, d, fs, dist) && d <= depth
    requires d < depth ==> fs == []
    ensures Order(cfg, w, depth, 0) == Order(cfg, w, d, 0)
  {
    if d < depth {
      assert forall y :: y !in fs;
      assert Frontier(cfg, w, d) == {};
      NoMore(cfg, w, d, d + 1);
    }
    OrderStops(cfg, w, depth, d, 0);
  }

  /** Lists the blocks by falling distance and then by rising number. */
  method FarthestFirst(cfg: Cfg, w: nat, d: nat, ghost fs: seq<nat>, dist: map<nat, nat>) returns (window: seq<nat>)
    requires Sized(cfg) && w < |cfg.starts| && Walked(cfg, w, d, fs, dist)
    ensures window == Order(cfg, w, d, 0)
  {
    hide Frontier, Order, Pick;
    window := [];
    var k: nat := d + 1;
    OrderNone(cfg, w, d);
    while k > 0
      invariant k <= d + 1 && window == Order(cfg, w, d, k)
    {
      k := k - 1;
      ghost var before := window;
      PickNothing(Frontier(cfg, w, k));
      for x := 0 to |cfg.starts|
        invariant window == before + Pick(Frontier(cfg, w, k), x)
      {
        PickOne(Frontier(cfg, w, k), x);
        assert x in dist && dist[x] == k <==> Away(cfg, w, k, x);
        if x in dist && dist[x] == k {
          window := window + [x];
        }
      }
      OrderOne(cfg, w, d, k);
    }
  }

  lemma OrderNone(cfg: Cfg, w: nat, d: nat)
    requires Sized(cfg) && w < |cfg.starts|
    ensures Order(cfg, w, d, d + 1) == []
  {
  }

  lemma OrderOne(cfg: Cfg, w: nat, depth: nat, d: nat)
    requires Sized(cfg) && w < |cfg.starts| && d <= depth
    ensures Order(cfg, w, depth, d) == Order(cfg, w, depth, d + 1) + Pick(Frontier(cfg, w, d), |cfg.starts|)
  {
  }

  lemma PickNothing(s: set<nat>)
    ensures Pick(s, 0) == []
  {
  }

  lemma PickOne(s: set<nat>, n: nat)
    ensures Pick(s, n + 1) == if n in s then Pick(s, n) + [n] else Pick(s, n)
  {
  }

  /** The window ends with the block itself. */
  lemma OrderEndsHere(cfg: Cfg, w: nat, depth: nat)
    requires Sized(cfg) && w < |cfg.starts|
    ensures Order(cfg, w, depth, 0) == Order(cfg, w, depth, 1) + [w]
    ensures w !in Order(cfg, w, depth, 1)
  {
    PickSelf(w, |cfg.starts|);
    assert Frontier(cfg, w, 0) == {w};
    NotAgain(cfg, w, depth, 1);
  }

  lemma {:induction false} PickSelf(w: nat, n: nat)
    ensures Pick({w}, n) == if w < n then [w] else []
  {
    if n > 0 { PickSelf(w, n - 1); }
  }

  lemma {:induction false} NotAgain(cfg: Cfg, w: nat, depth: nat, d: nat)
    requires Sized(cfg) && w < |cfg.starts| && d > 0
    ensures w !in Order(cfg, w, depth, d)
    decreases depth + 1 - d
  {
    if d <= depth {
      NotAgain(cfg, w, depth, d + 1);
      SeenIs(cfg, w, d - 1, w);
      assert Away(cfg, w, 0, w);
    }
  }

  /** The instructions simulated in resolving the blocks of `ws`. */
  function Cost(b: Body, cfg: Cfg, ws: seq<nat>): nat
    requires Blocks(cfg, ws)
    decreases |ws|
  {
    if ws == [] then 0
    else
      var w := ws[|ws| - 1];
      Cost(b, cfg, ws[..|ws| - 1]) + Steps(b.code, cfg.starts[w], cfg.EndOf(w, |b.code|))
  }

  /** The register entries the resolved states hold together. */
  function Stored(b: Body, cfg: Cfg, ws: seq<nat>): nat
    requires Sized(cfg) && Blocks(cfg, ws)
    decreases |ws|
  {
    if ws == [] then 0
    else Stored(b, cfg, ws[..|ws| - 1]) + |Out(b, cfg, ws[|ws| - 1], Incoming(b, cfg, ws, |ws| - 1))|
  }

  /** The state on entry to `ws[k]` once the blocks before it are resolved. */
  function Incoming(b: Body, cfg: Cfg, ws: seq<nat>, k: nat): State
    requires Sized(cfg) && Blocks(cfg, ws) && k < |ws|
  {
    In(b, cfg, ws[k], Resolve(b, cfg, ws[..k]))
  }

  /** A budget runs out before `ws[k]` is resolved. */
  ghost predicate Trips(b: Body, cfg: Cfg, ws: seq<nat>, work: nat, k: nat)
    requires Sized(cfg) && Blocks(cfg, ws)
  {
    k < |ws|
    && (work + Cost(b, cfg, ws[..k]) > MAX_WORK
        || Stored(b, cfg, ws[..k]) + |Incoming(b, cfg, ws, k)| > MAX_WINDOW_ENTRIES)
  }

  /** A budget runs out somewhere in the window. */
  ghost predicate CutShort(b: Body, cfg: Cfg, ws: seq<nat>, work: nat)
    requires Sized(cfg) && Blocks(cfg, ws)
  {
    exists k: nat :: Trips(b, cfg, ws, work, k)
  }

  lemma ResolveMore(b: Body, cfg: Cfg, ws: seq<nat>, k: nat)
    requires Sized(cfg) && Blocks(cfg, ws) && k < |ws|
    ensures Resolve(b, cfg, ws[..k + 1]) ==
      Resolve(b, cfg, ws[..k])[ws[k] := Out(b, cfg, ws[k], Incoming(b, cfg, ws, k))]
    ensures Stored(b, cfg, ws[..k + 1]) == Stored(b, cfg, ws[..k]) + |Out(b, cfg, ws[k], Incoming(b, cfg, ws, k))|
    ensures Cost(b, cfg, ws[..k + 1]) ==
      Cost(b, cfg, ws[..k]) + Steps(b.code, cfg.starts[ws[k]], cfg.EndOf(ws[k], |b.code|))
  {
    assert ws[..k + 1][..k] == ws[..k];
  }

  /** The state of a block from what its predecessors and the method entry give. */
  method MeetInto(b: Body, cfg: Cfg, w: nat, outs: map<nat, State>) returns (st: State)
    requires Sized(cfg) && w < |cfg.starts|
    ensures st == In(b, cfg, w, outs)
  {
    st := map[];
    if !cfg.isHandler[w] {
      var acc := None;
      if w == 0 { acc := Some(ParamState(b)); }
      var ps := cfg.preds[w];
      for i := 0 to |ps|
        invariant MeetPreds(acc, ps[i..], outs) == In(b, cfg, w, outs)
      {
        var contrib := if ps[i] in outs then outs[ps[i]] else map[];
        acc := Some(if acc.Some? then Meet(acc.value, contrib) else contrib);
      }
      st := if acc.Some? then acc.value else map[];
    }
  }

  /** The state block `w` is simulated from, and the work spent so far. A budget that runs
      out leaves nothing. */
  method Resolved(b: Body, cfg: Cfg, w: nat, depth: nat, work: nat) returns (st: State, work': nat)
    requires Sized(cfg) && w < |cfg.starts|
    ensures !CutShort(b, cfg, Order(cfg, w, depth, 1), work) ==>
      st == InState(b, cfg, w, depth) && work' == work + Cost(b, cfg, Order(cfg, w, depth, 1))
    ensures CutShort(b, cfg, Order(cfg, w, depth, 1), work) ==> st == map[]
  {
    hide *;
    var window := Window(cfg, w, depth);
    OrderEndsHere(cfg, w, depth);
    ghost var ws := Order(cfg, w, depth, 1);
    var outs: map<nat, State>, stored: nat, n: nat := map[], 0, 0;
    work' := work;
    NoneResolved(b, cfg, ws, work);
    while true
      invariant n <= |ws| && Blocks(cfg, ws) && So(b, cfg, ws, work, n, outs, stored, work')
      decreases |ws| - n
    {
      var v := window[n];
      WindowBlock(cfg, ws, w, n);
      st := MeetInto(b, cfg, v, outs);
      if v == w {
        WholeWindow(b, cfg, w, depth, work, outs, stored, work');
        return;
      }
      TripsIs(b, cfg, ws, work, n, outs, stored, work');
      if work' > MAX_WORK || stored + |st| > MAX_WINDOW_ENTRIES {
        st := map[];
        return;
      }
      var after, _, simulated := RunBlock(b, cfg, v, st, false);
      OneResolved(b, cfg, ws, work, n, outs, stored, work', after, simulated);
      work' := work' + simulated;
      stored := stored + |after|;
      outs := outs[v := after];
      n := n + 1;
    }
  }

  /** The first `n` blocks of `ws` are resolved and no budget has run out. */
  ghost predicate So(b: Body, cfg: Cfg, ws: seq<nat>, work: nat, n: nat, outs: map<nat, State>, stored: nat, work': nat)
    requires Sized(cfg) && Blocks(cfg, ws) && n <= |ws|
  {
    && outs == Resolve(b, cfg, ws[..n]) && stored == Stored(b, cfg, ws[..n]) && work' == work + Cost(b, cfg, ws[..n])
    && forall k: nat :: k < n ==> !Trips(b, cfg, ws, work, k)
  }

  lemma NoneResolved(b: Body, cfg: Cfg, ws: seq<nat>, work: nat)
    requires Sized(cfg) && Blocks(cfg, ws)
    ensures So(b, cfg, ws, work, 0, map[], 0, work)
  {
  }

  lemma WindowBlock(cfg: Cfg, ws: seq<nat>, w: nat, n: nat)
    requires Blocks(cfg, ws) && n <= |ws| && w < |cfg.starts| && w !in ws
    ensures (ws + [w])[n] < |cfg.starts|
    ensures (ws + [w])[n] == w <==> n == |ws|
    ensures n < |ws| ==> (ws + [w])[n] == ws[n]
  {
  }

  lemma TripsIs(b: Body, cfg: Cfg, ws: seq<nat>, work: nat, n: nat, outs: map<nat, State>, stored: nat, work': nat)
    requires Sized(cfg) && Blocks(cfg, ws) && n < |ws| && So(b, cfg, ws, work, n, outs, stored, work')
    ensures Trips(b, cfg, ws, work, n) ==> CutShort(b, cfg, ws, work)
    ensures Trips(b, cfg, ws, work, n) <==> work' > MAX_WORK || stored + |In(b, cfg, ws[n], outs)| > MAX_WINDOW_ENTRIES
  {
    hide Resolve, Stored, Cost, In;
  }

  lemma OneResolved(b: Body, cfg: Cfg, ws: seq<nat>, work: nat, n: nat, outs: map<nat, State>, stored: nat,
        work': nat, after: State, steps: nat)
    requires Sized(cfg) && Blocks(cfg, ws) && n < |ws| && So(b, cfg, ws, work, n, outs, stored, work')
    requires !Trips(b, cfg, ws, work, n) && after == Out(b, cfg, ws[n], In(b, cfg, ws[n], outs))
    requires steps == Steps(b.code, cfg.starts[ws[n]], cfg.EndOf(ws[n], |b.code|))
    ensures So(b, cfg, ws, work, n + 1, outs[ws[n] := after], stored + |after|, work' + steps)
  {
    ResolveMore(b, cfg, ws, n);
    hide Resolve, Stored, Cost, In, Trips, Out, Steps, Sized, Cfg.EndOf;
  }

  lemma WholeWindow(b: Body, cfg: Cfg, w: nat, depth: nat, work: nat, outs: map<nat, State>, stored: nat, work': nat)
    requires Sized(cfg) && w < |cfg.starts|
    requires var ws := Order(cfg, w, depth, 1); So(b, cfg, ws, work, |ws|, outs, stored, work')
    ensures InState(b, cfg, w, depth) == In(b, cfg, w, outs)
    ensures work' == work + Cost(b, cfg, Order(cfg, w, depth, 1))
    ensures !CutShort(b, cfg, Order(cfg, w, depth, 1), work)
  {
    hide Resolve, Stored, Cost, In;
    var ws := Order(cfg, w, depth, 1);
    assert ws[..|ws|] == ws;
  }

  /** The work of the first `n` blocks when no budget runs out. */
  function TotalWork(b: Body, cfg: Cfg, depth: nat, n: nat): nat
    requires Sized(cfg) && n <= |cfg.starts|
  {
    if n == 0 then 0
    else TotalWork(b, cfg, depth, n - 1)
         + (if cfg.hasInvoke[n - 1] then Cost(b, cfg, Order(cfg, n - 1, depth, 1)) else 0)
  }

  /** Neither the work of the method nor the entries of any window reach their limits. */
  ghost predicate WithinBudget(b: Body, cfg: Cfg, depth: nat)
    requires Sized(cfg)
  {
    && TotalWork(b, cfg, depth, |cfg.starts|) <= MAX_WORK
    && forall w: nat :: w < |cfg.starts| && cfg.hasInvoke[w] ==> SmallWindow(b, cfg, Order(cfg, w, depth, 1))
  }

  ghost predicate SmallWindow(b: Body, cfg: Cfg, ws: seq<nat>)
    requires Sized(cfg) && Blocks(cfg, ws)
  {
    forall k: nat :: k < |ws| ==> Stored(b, cfg, ws[..k]) + |Incoming(b, cfg, ws, k)| <= MAX_WINDOW_ENTRIES
  }

  lemma {:induction false} CostGrows(b: Body, cfg: Cfg, ws: seq<nat>, k: nat)
    requires Blocks(cfg, ws) && k <= |ws|
    ensures Cost(b, cfg, ws[..k]) <= Cost(b, cfg, ws)
    decreases |ws|
  {
    if k < |ws| {
      CostGrows(b, cfg, ws[..|ws| - 1], k);
      assert ws[..|ws| - 1][..k] == ws[..k];
    } else {
      assert ws[..k] == ws;
    }
  }

  lemma {:induction false} TotalGrows(b: Body, cfg: Cfg, depth: nat, m: nat, n: nat)
    requires Sized(cfg) && m <= n <= |cfg.starts|
    ensures TotalWork(b, cfg, depth, m) <= TotalWork(b, cfg, depth, n)
  {
    if m < n { TotalGrows(b, cfg, depth, m, n - 1); }
  }

  /** Within the budgets no window is cut short. */
  lemma NoTrip(b: Body, cfg: Cfg, depth: nat, w: nat)
    requires Sized(cfg) && WithinBudget(b, cfg, depth) && w < |cfg.starts| && cfg.hasInvoke[w]
    ensures TotalWork(b, cfg, depth, w) <= MAX_WORK
    ensures !CutShort(b, cfg, Order(cfg, w, depth, 1), TotalWork(b, cfg, depth, w))
  {
    hide Order, Stored, Incoming, Cost;
    TotalGrows(b, cfg, depth, w, |cfg.starts|);
    TotalGrows(b, cfg, depth, w + 1, |cfg.starts|);
    var ws := Order(cfg, w, depth, 1);
    forall k: nat | k < |ws|
      ensures !Trips(b, cfg, ws, TotalWork(b, cfg, depth, w), k)
    {
      CostGrows(b, cfg, ws, k);
      assert SmallWindow(b, cfg, ws);
    }
  }

  /** Every origin `sites` reports is the last write to its register on every path to the
      invoke. */
  ghost predicate LastWrites(b: Body, sites: seq<Site>) {
    forall k: nat, i: nat, p, m :: Reaches(b, sites, k, i, p, m) ==>
      At(b, p, m).file(sites[k].args[i].0) == Last(sites[k].args[i].1.origin.value)
  }

  /** Path `p` ends at site `k`, whose argument `i` has an origin. */
  ghost predicate Reaches(b: Body, sites: seq<Site>, k: nat, i: nat, p: seq<nat>, m: Machine) {
    k < |sites| && i < |sites[k].args| && sites[k].args[i].1.origin.Some? && EndsAt(b, p, m, sites[k].offset)
  }

  lemma AllLastWrites(b: Body, cfg: Cfg, depth: nat, ins: seq<State>)
    requires Wf(b, cfg) && Starting(b, cfg, depth, ins)
    ensures LastWrites(b, AllSites(b, cfg, ins, |cfg.starts|))
  {
    hide Starting, AllSites, CfgOf;
    assert |ins| == |cfg.starts| by { StartingSize(b, cfg, depth, ins); }
    var sites := AllSites(b, cfg, ins, |cfg.starts|);
    forall k: nat, i: nat, p, m | Reaches(b, sites, k, i, p, m)
      ensures At(b, p, m).file(sites[k].args[i].0) == Last(sites[k].args[i].1.origin.value)
    {
      ReportedIsLastWrite(b, cfg, depth, ins, k, i, p, m);
    }
  }

  lemma StartingSize(b: Body, cfg: Cfg, depth: nat, ins: seq<State>)
    requires Sized(cfg) && Starting(b, cfg, depth, ins)
    ensures |ins| == |cfg.starts|
  {
  }

  /** The analysis has dealt with the first `n` blocks. */
  ghost predicate Dealt(b: Body, cfg: Cfg, depth: nat, n: nat, ins: seq<State>, work: nat)
    requires Sized(cfg) && n <= |cfg.starts|
  {
    && |ins| == n
    && (forall w :: 0 <= w < n ==> ins[w] == map[] || ins[w] == InState(b, cfg, w, depth))
    && (WithinBudget(b, cfg, depth) ==> work == TotalWork(b, cfg, depth, n))
    && (WithinBudget(b, cfg, depth) ==>
          forall w :: 0 <= w < n && cfg.hasInvoke[w] ==> ins[w] == InState(b, cfg, w, depth))
  }

  lemma DealtNone(b: Body, cfg: Cfg, depth: nat)
    requires Sized(cfg)
    ensures Dealt(b, cfg, depth, 0, [], 0)
  {
  }

  /** A block without an invoke costs nothing and is not simulated. */
  lemma DealtSkip(b: Body, cfg: Cfg, depth: nat, n: nat, ins: seq<State>, work: nat)
    requires Sized(cfg) && n < |cfg.starts| && Dealt(b, cfg, depth, n, ins, work) && !cfg.hasInvoke[n]
    ensures Dealt(b, cfg, depth, n + 1, ins + [map[]], work)
  {
    hide InState, WithinBudget;
  }

  lemma DealtNext(b: Body, cfg: Cfg, depth: nat, n: nat, ins: seq<State>, work: nat, st: State, work': nat)
    requires Sized(cfg) && n < |cfg.starts| && Dealt(b, cfg, depth, n, ins, work) && cfg.hasInvoke[n]
    requires st == map[] || st == InState(b, cfg, n, depth)
    requires WithinBudget(b, cfg, depth) ==>
      st == InState(b, cfg, n, depth) && work' == work + Cost(b, cfg, Order(cfg, n, depth, 1))
    ensures Dealt(b, cfg, depth, n + 1, ins + [st], work')
  {
    hide InState, WithinBudget, Order, Cost;
  }

  lemma DealtWork(b: Body, cfg: Cfg, depth: nat, n: nat, ins: seq<State>, work: nat)
    requires Sized(cfg) && n <= |cfg.starts| && Dealt(b, cfg, depth, n, ins, work) && WithinBudget(b, cfg, depth)
    ensures work == TotalWork(b, cfg, depth, n)
  {
  }

  lemma DealtMore(b: Body, cfg: Cfg, depth: nat, n: nat, ins: seq<State>, work: nat, st: State, work': nat)
    requires Sized(cfg) && n < |cfg.starts| && Dealt(b, cfg, depth, n, ins, work) && cfg.hasInvoke[n]
    requires var ws := Order(cfg, n, depth, 1);
      && (work <= MAX_WORK && !CutShort(b, cfg, ws, work) ==>
            st == InState(b, cfg, n, depth) && work' == work + Cost(b, cfg, ws))
      && (work > MAX_WORK || CutShort(b, cfg, ws, work) ==> st == map[])
    ensures Dealt(b, cfg, depth, n + 1, ins + [st], work')
  {
    hide InState, WithinBudget, CutShort, Order, Cost, Dealt, TotalWork;
    if WithinBudget(b, cfg, depth) {
      NoTrip(b, cfg, depth, n);
      DealtWork(b, cfg, depth, n, ins, work);
    }
    DealtNext(b, cfg, depth, n, ins, work, st, work');
  }

  lemma {:induction false} SitesOfFirst(b: Body, cfg: Cfg, ins: seq<State>, more: seq<State>, n: nat)
    requires Sized(cfg) && n <= |cfg.starts| == |ins| == |more| && ins[..n] == more[..n]
    ensures AllSites(b, cfg, ins, n) == AllSites(b, cfg, more, n)
  {
    if n > 0 {
      assert ins[n - 1] == ins[..n][n - 1] == more[..n][n - 1];
      assert ins[..n - 1] == ins[..n][..n - 1] == more[..n - 1];
      SitesOfFirst(b, cfg, ins, more, n - 1);
    }
  }

  /** The states not chosen yet count as empty. */
  ghost function Padded(cfg: Cfg, ins: seq<State>): (r: seq<State>)
    requires |ins| <= |cfg.starts|
    ensures |r| == |cfg.starts| && r[..|ins|] == ins
  {
    ins + seq(|cfg.starts| - |ins|, _ => map[])
  }

  /** One more block's sites. */
  lemma SitesMore(b: Body, cfg: Cfg, ins: seq<State>, st: State)
    requires Sized(cfg) && |ins| < |cfg.starts|
    ensures AllSites(b, cfg, Padded(cfg, ins + [st]), |ins| + 1)
         == AllSites(b, cfg, Padded(cfg, ins), |ins|)
           + (if cfg.hasInvoke[|ins|] then BlockSites(b, cfg, |ins|, st) else [])
  {
    var n := |ins|;
    var p, q := Padded(cfg, ins), Padded(cfg, ins + [st]);
    assert q[..n] == q[..n + 1][..n] == ins;
    assert q[n] == q[..n + 1][n] == st;
    SitesOfFirst(b, cfg, p, q, n);
  }

  lemma DealtAll(b: Body, cfg: Cfg, depth: nat, ins: seq<State>, work: nat)
    requires Sized(cfg) && Dealt(b, cfg, depth, |cfg.starts|, ins, work)
    ensures Starting(b, cfg, depth, ins) && Padded(cfg, ins) == ins
    ensures WithinBudget(b, cfg, depth) ==> Whole(b, cfg, depth, ins)
  {
    assert Padded(cfg, ins)[..|ins|] == Padded(cfg, ins);
  }

  /** The site lists the registers of the invoke it names, in order, each with what the state
      there says of it: an origin if it knows one, a crossing if it does not but tracks the
      register, and neither otherwise. */
  ghost predicate ReadsInvoke(i: Insn, st: State, s: Site) {
    && i.effect.Invoke? && s.callee == i.effect.callee && s.opcode == i.effect.opcode
    && |s.args| == |i.effect.args|
    && forall j :: 0 <= j < |s.args| ==> s.args[j].0 == i.effect.args[j] && TellsOf(st, s.args[j].0, s.args[j].1)
  }

  ghost predicate TellsOf(st: State, r: Reg, told: Tracked) {
    && (forall o :: told.origin == Some(o) <==> KnownAs(st, r, o))
    && (told.crossed <==> Crossed(st, r))
  }

  /** So does every site, with the state just before its instruction. */
  ghost predicate SitesRead(b: Body, cfg: Cfg, ins: seq<State>, out: seq<Site>) {
    && (|out| > 0 ==> |cfg.starts| > 0) && |ins| == |cfg.starts|
    && forall k :: 0 <= k < |out| ==> ReadsAt(b, cfg, ins, out[k])
  }

  ghost predicate ReadsAt(b: Body, cfg: Cfg, ins: seq<State>, s: Site)
    requires |cfg.starts| > 0 && |ins| == |cfg.starts|
  {
    && IsInsn(b.code, s.offset) && s.offset < |b.code| && cfg.starts[0] <= s.offset
    && ReadsInvoke(b.code[s.offset], BlockStateAt(b, cfg, ins, s.offset), s)
  }

  lemma SiteReads(i: Insn, x: nat, st: State)
    requires i.effect.Invoke? && Marked(st)
    ensures ReadsInvoke(i, st, SiteAt(i, x, st))
  {
  }

  lemma AllSitesRead(b: Body, cfg: Cfg, depth: nat, ins: seq<State>)
    requires CfgOf(b.code, b.handlers, cfg) && Sized(cfg) && Starting(b, cfg, depth, ins) && |ins| == |cfg.starts|
    ensures SitesRead(b, cfg, ins, AllSites(b, cfg, ins, |cfg.starts|))
  {
    hide CfgOf, AllSites, SiteAt, Run, ReadsInvoke, Marked, InState, Starting;
    var out := AllSites(b, cfg, ins, |cfg.starts|);
    if |cfg.starts| > 0 {
      forall k | 0 <= k < |out|
        ensures ReadsAt(b, cfg, ins, out[k])
      {
        SiteReadsBlock(b, cfg, ins, k);
        var x := out[k].offset;
        var w := BlockOf(cfg.starts, x);
        StartingMarked(b, cfg, depth, ins, w);
        RunMarked(b.code, cfg.starts[w], x, Sim(ins[w], None));
        SiteReads(b.code[x], x, BlockStateAt(b, cfg, ins, x));
      }
    } else {
      NoSites(b, cfg, ins);
    }
  }

  lemma NoSites(b: Body, cfg: Cfg, ins: seq<State>)
    requires Sized(cfg) && |ins| == |cfg.starts| == 0
    ensures AllSites(b, cfg, ins, 0) == []
  {
  }

  /** The invokes of a method with the origin of each argument register. Every origin is a
      last write, the sites are those of the linear scan, and within the budgets each
      block starts from the state of its whole window. */
  method AnalyzeInvokes(b: Body, depth: nat) returns (out: seq<Site>, ghost cfg: Cfg, ghost ins: seq<State>)
    ensures CfgOf(b.code, b.handlers, cfg) && Sized(cfg)
    ensures Starting(b, cfg, depth, ins) && out == AllSites(b, cfg, ins, |cfg.starts|)
    ensures WithinBudget(b, cfg, depth) ==> Whole(b, cfg, depth, ins)
    ensures LastWrites(b, out)
    ensures Strip(out) == Scan(b.code, 0, |b.code|)
    ensures SitesRead(b, cfg, ins, out)
    ensures forall y :: HasWidths(b, {}, y) ==> PairsKept(b, {}, out)
    ensures forall pairs: set<Reg> ::
      PairsKept(b, pairs, out) <==> SameReports(out, WideSites(b, pairs, cfg, depth, ins))
  {
    hide *;
    var graph := BuildCfg(b.code, b.handlers);
    cfg := graph;
    CfgIsWf(b, graph);
    out, ins := [], [];
    var work: nat := 0;
    DealtNone(b, graph, depth);
    SitesNone(b, graph);
    for w := 0 to |graph.starts|
      invariant Dealt(b, graph, depth, w, ins, work) && |ins| == w
      invariant out == AllSites(b, graph, Padded(graph, ins), w)
    {
      HasInvokeSize(graph);
      if graph.hasInvoke[w] {
        var st, spent := map[], work;
        if work <= MAX_WORK {
          st, spent := Resolved(b, graph, w, depth, work);
        }
        DealtMore(b, graph, depth, w, ins, work, st, spent);
        SitesMore(b, graph, ins, st);
        var _, sites, _ := RunBlock(b, graph, w, st, true);
        out := out + sites;
        work := spent;
        ins := ins + [st];
      } else {
        DealtSkip(b, graph, depth, w, ins, work);
        SitesMore(b, graph, ins, map[]);
        ins := ins + [map[]];
      }
    }
    DealtAll(b, graph, depth, ins, work);
    StartingSize(b, graph, depth, ins);
    WholeAnalysis(b, graph, depth, ins);
    PairAnalysis(b, graph, depth, ins);
    AllSitesRead(b, graph, depth, ins);
  }

  lemma HasInvokeSize(cfg: Cfg)
    requires Sized(cfg)
    ensures |cfg.hasInvoke| == |cfg.starts|
  {
  }

  lemma SitesNone(b: Body, cfg: Cfg)
    requires Sized(cfg)
    ensures AllSites(b, cfg, Padded(cfg, []), 0) == []
  {
  }

  lemma WholeAnalysis(b: Body, cfg: Cfg, depth: nat, ins: seq<State>)
    requires CfgOf(b.code, b.handlers, cfg) && Sized(cfg) && Starting(b, cfg, depth, ins)
    ensures LastWrites(b, AllSites(b, cfg, ins, |cfg.starts|))
    ensures Strip(AllSites(b, cfg, ins, |cfg.starts|)) == Scan(b.code, 0, |b.code|)
  {
    if |cfg.starts| > 0 {
      AllLastWrites(b, cfg, depth, ins);
      SitesAreTheScan(b, cfg, ins, |cfg.starts|);
    } else {
      assert IsInsn(b.code, 0) ==> IsLeader(b.code, b.handlers, 0);
      assert Scan(b.code, 0, |b.code|) == [];
    }
  }

  lemma NoPairs(b: Body, pairs: set<Reg>)
    ensures PairsKept(b, pairs, []) && SameReports([], [])
  {
  }

  lemma PairAnalysis(b: Body, cfg: Cfg, depth: nat, ins: seq<State>)
    requires CfgOf(b.code, b.handlers, cfg) && Sized(cfg) && Starting(b, cfg, depth, ins) && |ins| == |cfg.starts|
    ensures forall y :: HasWidths(b, {}, y) ==> PairsKept(b, {}, AllSites(b, cfg, ins, |cfg.starts|))
    ensures forall pairs: set<Reg> ::
      var s, t := AllSites(b, cfg, ins, |cfg.starts|), WideSites(b, pairs, cfg, depth, ins);
      PairsKept(b, pairs, s) <==> SameReports(s, t)
  {
    hide HasWidths, CfgOf, Starting, PairsKept, SameReports, Sites, InState, InStateWide;
    forall y | HasWidths(b, {}, y)
      ensures PairsKept(b, {}, AllSites(b, cfg, ins, |cfg.starts|))
    {
      if |cfg.starts| > 0 { TypedPairsKept(b, y, cfg, depth, ins); } else { NoPairs(b, {}); }
    }
    forall pairs: set<Reg>
      ensures var s, t := AllSites(b, cfg, ins, |cfg.starts|), WideSites(b, pairs, cfg, depth, ins);
        PairsKept(b, pairs, s) <==> SameReports(s, t)
    {
      if |cfg.starts| > 0 { PairsKeptIffWide(b, pairs, cfg, depth, ins); } else { NoPairs(b, pairs); }
    }
  }

  /** The blocks that hold an invoke start from the state of their whole window. */
  ghost predicate Whole(b: Body, cfg: Cfg, depth: nat, ins: seq<State>)
    requires Sized(cfg)
  {
    && Starting(b, cfg, depth, ins)
    && forall w :: 0 <= w < |ins| && cfg.hasInvoke[w] ==> ins[w] == InState(b, cfg, w, depth)
  }

  /** What one more level of depth does to the reported sites. */
  lemma DeeperIsMore(b: Body, cfg: Cfg, depth: nat, ins: seq<State>, cfg': Cfg, deeper: seq<State>)
    requires CfgOf(b.code, b.handlers, cfg) && CfgOf(b.code, b.handlers, cfg') && Sized(cfg) && Sized(cfg')
    requires Starting(b, cfg, depth, ins) && Whole(b, cfg', depth + 1, deeper)
    ensures SitesRefine(AllSites(b, cfg, ins, |cfg.starts|), AllSites(b, cfg', deeper, |cfg'.starts|))
  {
    CfgUnique(b.code, b.handlers, cfg, cfg');
    DeeperKeepsOrigins(b, cfg, depth, ins, deeper, |cfg.starts|);
  }
}
