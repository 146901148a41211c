/** Any number of callers at once: their critical sections, clears and resizes interleave
    in any order. */
module CacheRuns {
  import opened Options
  import opened Cache

  /** One atomic step: a caller's lookup, its insertion once its own computation is done, a
      clear or a change of capacity. */
  datatype Step = Look(caller: nat, key: Key) | Put(caller: nat) | Clear | Resize(capacity: nat)

  /** `pending` holds the callers that missed and are computing, `returned` what calls have
      returned, and `used` the keys used since the last clear. */
  datatype System = System(es: seq<Entry>, capacity: nat, pending: map<nat, Key>, returned: seq<Entry>, used: seq<Key>)

  type Pipe = Key -> Option<Text>

  function Apply(pipe: Pipe, sys: System, step: Step): System {
    match step
    case Look(c, key) =>
      if c in sys.pending then sys
      else
        var i := Position(sys.es, key);
        if i.Some? then
          sys.(es := ToFront(sys.es, i.value), returned := sys.returned + [Entry(key, sys.es[i.value].value)],
               used := sys.used + [key])
        else sys.(pending := sys.pending[c := key])
    case Put(c) =>
      if c !in sys.pending then sys
      else
        var key := sys.pending[c];
        var idle := sys.(pending := sys.pending - {c});
        if pipe(key).None? then idle.(returned := sys.returned + [Entry(key, "")])
        else
          var i := Position(sys.es, key);
          var value := if i.Some? then sys.es[i.value].value else pipe(key).value;
          idle.(es := Inserted(sys.es, sys.capacity, key, pipe(key).value),
                returned := sys.returned + [Entry(key, value)], used := sys.used + [key])
    case Clear => sys.(es := [], used := [])
    case Resize(n) => sys.(capacity := n, es := Trim(sys.es, n))
  }

  /** The state after a run of steps from an empty cache. */
  function Run(pipe: Pipe, capacity: nat, steps: seq<Step>): System
    decreases |steps|
  {
    if steps == [] then System([], capacity, map[], [], [])
    else Apply(pipe, Run(pipe, capacity, steps[..|steps| - 1]), steps[|steps| - 1])
  }

  /** The keys of a history of uses, each once, the most recently used first. */
  function Recent(used: seq<Key>): seq<Key> {
    if used == [] then []
    else [used[|used| - 1]] + Without(Recent(used[..|used| - 1]), used[|used| - 1])
  }

  ghost predicate NoRepeats(s: seq<Key>) {
    forall i, j :: 0 <= i < j < |s| ==> s[i] != s[j]
  }

  predicate Begins(a: seq<Key>, b: seq<Key>) {
    |a| <= |b| && a == b[..|a|]
  }

  lemma {:induction false} WithoutAbsent(s: seq<Key>, x: Key)
    requires x !in s
    ensures Without(s, x) == s
  {
    if s != [] { WithoutAbsent(s[1..], x); }
  }

  lemma {:induction false} WithoutAt(s: seq<Key>, i: nat)
    requires NoRepeats(s) && i < |s|
    ensures Without(s, s[i]) == s[..i] + s[i + 1..]
    decreases |s|
  {
    if i == 0 {
      WithoutAbsent(s[1..], s[0]);
    } else {
      WithoutAt(s[1..], i - 1);
      assert s[1..][..i - 1] == s[1..i] && s[1..][i..] == s[i + 1..];
      assert s[..i] == [s[0]] + s[1..i];
    }
  }

  lemma {:induction false} WithoutBegins(a: seq<Key>, b: seq<Key>, x: Key)
    requires Begins(a, b)
    ensures Begins(Without(a, x), Without(b, x))
    decreases |a|
  {
    if a != [] {
      assert a[1..] == b[1..][..|a| - 1];
      WithoutBegins(a[1..], b[1..], x);
    }
  }

  lemma {:induction false} WithoutNoRepeats(s: seq<Key>, x: Key)
    requires NoRepeats(s)
    ensures NoRepeats(Without(s, x))
  {
    if x in s {
      var i :| 0 <= i < |s| && s[i] == x;
      WithoutAt(s, i);
    } else {
      WithoutAbsent(s, x);
    }
  }

  lemma FirstNoRepeats(x: Key, s: seq<Key>)
    requires NoRepeats(s) && x !in s
    ensures NoRepeats([x] + s)
  {
    assert forall i :: 0 <= i < |s| ==> s[i] in s;
  }

  lemma KeysToFront(es: seq<Entry>, i: nat)
    requires i < |es|
    ensures Keys(ToFront(es, i)) == [es[i].key] + (Keys(es)[..i] + Keys(es)[i + 1..])
  {
  }

  lemma TouchAbsent(es: seq<Entry>, key: Key, value: Text)
    requires Position(es, key).None?
    ensures key !in Keys(es) && Keys(Touch(es, key, value)) == [key] + Keys(es)
  {
    assert forall k :: 0 <= k < |es| ==> Keys(es)[k] == es[k].key;
  }

  lemma TouchPresent(es: seq<Entry>, key: Key, value: Text)
    requires Position(es, key).Some?
    ensures var i := Position(es, key).value;
      Keys(es)[i] == key && Keys(Touch(es, key, value)) == [key] + (Keys(es)[..i] + Keys(es)[i + 1..])
  {
    KeysToFront(es, Position(es, key).value);
  }

  /** A use puts the key first and keeps the rest in order. */
  lemma TouchedKeys(es: seq<Entry>, key: Key, value: Text)
    requires NoRepeats(Keys(es))
    ensures Keys(Touch(es, key, value)) == [key] + Without(Keys(es), key)
    ensures NoRepeats(Keys(Touch(es, key, value)))
  {
    hide *;
    if Position(es, key).Some? {
      TouchPresent(es, key, value);
      WithoutAt(Keys(es), Position(es, key).value);
    } else {
      TouchAbsent(es, key, value);
      WithoutAbsent(Keys(es), key);
    }
    WithoutNoRepeats(Keys(es), key);
    FirstNoRepeats(key, Without(Keys(es), key));
  }

  /** What every state of every run keeps: no key twice, values as the pipeline yields
      them, a size within the capacity, entries by recency of use, and calls that returned
      what they would have without a cache. */
  ghost predicate Kept(pipe: Pipe, sys: System) {
    && NoRepeats(Keys(sys.es))
    && Honest(sys.es, pipe)
    && (sys.capacity != 0 ==> |sys.es| <= sys.capacity)
    && Begins(Keys(sys.es), Recent(sys.used))
    && forall r :: r in sys.returned ==> r.value == Uncached(pipe, r.key)
  }

  /** The entries after a use that may insert. */
  lemma InsertedKeeps(pipe: Pipe, es: seq<Entry>, capacity: nat, used: seq<Key>, key: Key, value: Text)
    requires NoRepeats(Keys(es)) && Honest(es, pipe) && (capacity != 0 ==> |es| <= capacity)
    requires Begins(Keys(es), Recent(used)) && pipe(key) == Some(value)
    ensures var r := Inserted(es, capacity, key, value);
      && NoRepeats(Keys(r)) && Honest(r, pipe) && (capacity != 0 ==> |r| <= capacity)
      && Begins(Keys(r), Recent(used + [key]))
  {
    TouchedKeys(es, key, value);
    WithoutBegins(Keys(es), Recent(used), key);
    assert (used + [key])[..|used|] == used;
    var t := Touch(es, key, value);
    assert Begins(Keys(t), Recent(used + [key]));
    TouchIsHonest(pipe, es, key, value);
    TrimKeeps(pipe, t, capacity, Recent(used + [key]));
    hide Recent, Honest, Without, NoRepeats;
  }

  lemma TouchIsHonest(pipe: Pipe, es: seq<Entry>, key: Key, value: Text)
    requires Honest(es, pipe) && pipe(key) == Some(value)
    ensures Honest(Touch(es, key, value), pipe)
  {
  }

  lemma TrimKeeps(pipe: Pipe, es: seq<Entry>, capacity: nat, recent: seq<Key>)
    requires NoRepeats(Keys(es)) && Honest(es, pipe) && Begins(Keys(es), recent)
    ensures var r := Trim(es, capacity);
      NoRepeats(Keys(r)) && Honest(r, pipe) && (capacity != 0 ==> |r| <= capacity) && Begins(Keys(r), recent)
  {
    var r := Trim(es, capacity);
    assert Keys(r) == Keys(es)[..|r|];
    assert Keys(es)[..|r|] == recent[..|r|];
  }

  lemma LookKeeps(pipe: Pipe, sys: System, c: nat, key: Key)
    requires Kept(pipe, sys)
    ensures Kept(pipe, Apply(pipe, sys, Look(c, key)))
  {
    var i := Position(sys.es, key);
    if i.Some? {
      var e := sys.es[i.value];
      assert e in sys.es;
      InsertedKeeps(pipe, sys.es, sys.capacity, sys.used, key, e.value);
    }
    hide Recent, Honest, NoRepeats, Begins, ToFront;
  }

  lemma PutKeeps(pipe: Pipe, sys: System, c: nat)
    requires Kept(pipe, sys)
    ensures Kept(pipe, Apply(pipe, sys, Put(c)))
  {
    if c in sys.pending && pipe(sys.pending[c]).Some? {
      var key := sys.pending[c];
      InsertedKeeps(pipe, sys.es, sys.capacity, sys.used, key, pipe(key).value);
      var i := Position(sys.es, key);
      if i.Some? { assert sys.es[i.value] in sys.es; }
    }
    hide Recent, NoRepeats, Begins, Inserted;
  }

  lemma ApplyKeeps(pipe: Pipe, sys: System, step: Step)
    requires Kept(pipe, sys)
    ensures Kept(pipe, Apply(pipe, sys, step))
  {
    match step
    case Look(c, key) => LookKeeps(pipe, sys, c, key);
    case Put(c) => PutKeeps(pipe, sys, c);
    case Clear =>
    case Resize(n) => TrimKeeps(pipe, sys.es, n, Recent(sys.used));
  }

  /** Under any interleaving of any number of callers. */
  lemma {:induction false} EveryRunKeeps(pipe: Pipe, capacity: nat, steps: seq<Step>)
    ensures Kept(pipe, Run(pipe, capacity, steps))
    decreases |steps|
  {
    if steps != [] {
      EveryRunKeeps(pipe, capacity, steps[..|steps| - 1]);
      ApplyKeeps(pipe, Run(pipe, capacity, steps[..|steps| - 1]), steps[|steps| - 1]);
    }
  }

  function Least(capacity: nat, n: nat): nat {
    if capacity != 0 && capacity < n then capacity else n
  }

  /** The cache is as full as its capacity allows. */
  ghost predicate Full(sys: System) {
    |sys.es| == Least(sys.capacity, |Recent(sys.used)|)
  }

  lemma {:induction false} WithoutLength(s: seq<Key>, x: Key)
    requires NoRepeats(s)
    ensures |Without(s, x)| == if x in s then |s| - 1 else |s|
  {
    if x in s {
      var i :| 0 <= i < |s| && s[i] == x;
      WithoutAt(s, i);
    } else {
      WithoutAbsent(s, x);
    }
  }

  lemma {:induction false} RecentNoRepeats(used: seq<Key>)
    ensures NoRepeats(Recent(used))
  {
    if used != [] {
      RecentNoRepeats(used[..|used| - 1]);
      WithoutNoRepeats(Recent(used[..|used| - 1]), used[|used| - 1]);
      FirstNoRepeats(used[|used| - 1], Without(Recent(used[..|used| - 1]), used[|used| - 1]));
    }
  }

  lemma UseStaysFull(pipe: Pipe, sys: System, key: Key, value: Text)
    requires Kept(pipe, sys) && Full(sys)
    ensures |Inserted(sys.es, sys.capacity, key, value)| == Least(sys.capacity, |Recent(sys.used + [key])|)
  {
    assert (sys.used + [key])[..|sys.used|] == sys.used;
    RecentNoRepeats(sys.used);
    var ks, recent := Keys(sys.es), Recent(sys.used);
    WithoutLength(recent, key);
    var i := Position(sys.es, key);
    if i.Some? {
      assert ks[i.value] == key == recent[i.value];
    } else if key in recent {
      var j :| 0 <= j < |recent| && recent[j] == key;
      assert j < |ks| ==> ks[j] == key && sys.es[j].key == key;
    }
    hide Recent, Without, Kept, NoRepeats;
  }

  /** With a fixed capacity the cache holds exactly the most recently used keys, as many as
      the capacity allows, in the order of their last use. */
  lemma {:induction false} HoldsMostRecent(pipe: Pipe, capacity: nat, steps: seq<Step>)
    requires forall s :: s in steps ==> !s.Resize?
    ensures var sys := Run(pipe, capacity, steps);
      sys.capacity == capacity && Keys(sys.es) == Recent(sys.used)[..Least(capacity, |Recent(sys.used)|)]
    decreases |steps|
  {
    EveryRunKeeps(pipe, capacity, steps);
    if steps != [] {
      var before, step := steps[..|steps| - 1], steps[|steps| - 1];
      assert forall s :: s in before ==> s in steps;
      HoldsMostRecent(pipe, capacity, before);
      EveryRunKeeps(pipe, capacity, before);
      var sys := Run(pipe, capacity, before);
      FullStep(pipe, sys, step);
    }
  }

  lemma FullStep(pipe: Pipe, sys: System, step: Step)
    requires Kept(pipe, sys) && Full(sys) && !step.Resize?
    ensures Full(Apply(pipe, sys, step))
  {
    match step
    case Look(c, key) =>
      var i := Position(sys.es, key);
      if i.Some? { UseStaysFull(pipe, sys, key, sys.es[i.value].value); }
    case Put(c) =>
      if c in sys.pending && pipe(sys.pending[c]).Some? {
        UseStaysFull(pipe, sys, sys.pending[c], pipe(sys.pending[c]).value);
      }
    case Clear =>
  }
}
