/** The decompiler's result cache: a recency list with an index into it, shared by any
    number of callers that look up, compute outside the lock, and insert. */
module Cache {
  import opened Options

  type Key = string
  type Text = string

  /** A list node; its number stands for the node's stable address. */
  datatype Node = Node(id: nat, key: Key, value: Text)

  datatype Entry = Entry(key: Key, value: Text)

  function Keys(es: seq<Entry>): (r: seq<Key>)
    ensures |r| == |es| && forall i :: 0 <= i < |r| ==> r[i] == es[i].key
  {
    seq(|es|, i requires 0 <= i < |es| => es[i].key)
  }

  /** A sequence without one of its members. */
  function Without(s: seq<Key>, x: Key): (r: seq<Key>)
    ensures forall y :: y in r <==> y in s && y != x
  {
    if s == [] then [] else (if s[0] == x then [] else [s[0]]) + Without(s[1..], x)
  }

  /** The entry of a key, moved to the front. */
  function ToFront(es: seq<Entry>, i: nat): (r: seq<Entry>)
    requires i < |es|
    ensures |r| == |es| && multiset(r) == multiset(es)
  {
    assert es == es[..i] + [es[i]] + es[i + 1..];
    [es[i]] + es[..i] + es[i + 1..]
  }

  function Position(es: seq<Entry>, key: Key): (r: Option<nat>)
    ensures r.Some? ==> r.value < |es| && es[r.value].key == key && forall i :: 0 <= i < r.value ==> es[i].key != key
    ensures r.None? ==> forall i :: 0 <= i < |es| ==> es[i].key != key
  {
    if es == [] then None
    else if es[0].key == key then Some(0)
    else
      var r := Position(es[1..], key);
      if r.None? then None else Some(r.value + 1)
  }

  /** A use of a key: its entry moves to the front, or comes in there. */
  function Touch(es: seq<Entry>, key: Key, value: Text): seq<Entry> {
    var i := Position(es, key);
    if i.Some? then ToFront(es, i.value) else [Entry(key, value)] + es
  }

  /** The entries a capacity leaves; zero means no bound. */
  function Trim(es: seq<Entry>, capacity: nat): seq<Entry> {
    if capacity != 0 && |es| > capacity then es[..capacity] else es
  }

  /** What an insertion leaves: a key already present is only used. */
  function Inserted(es: seq<Entry>, capacity: nat, key: Key, value: Text): seq<Entry> {
    if Position(es, key).Some? then Touch(es, key, value) else Trim(Touch(es, key, value), capacity)
  }

  class ResultCache {
    var list: seq<Node>
    var index: map<Key, nat>
    var capacity: nat
    var nextId: nat

    constructor (capacity: nat)
      ensures Valid() && Entries() == [] && this.capacity == capacity
    {
      list, index, this.capacity, nextId := [], map[], capacity, 0;
    }

    /** Index and list hold the same keys, each once, the index points at the key's own
        node, and a nonzero capacity bounds the size. */
    ghost predicate Valid()
      reads this
    {
      Consistent(list, index, nextId) && (capacity != 0 ==> |list| <= capacity)
    }

    ghost function Entries(): seq<Entry>
      reads this
    {
      EntriesOf(list)
    }

    /** The first critical section of a call: a hit moves to the front. */
    method Lookup(key: Key) returns (r: Option<Text>)
      requires Valid()
      modifies this
      ensures Valid() && capacity == old(capacity)
      ensures var i := Position(old(Entries()), key);
        if i.Some? then r == Some(old(Entries())[i.value].value) && Entries() == ToFront(old(Entries()), i.value)
        else r == None && Entries() == old(Entries())
    {
      IndexFinds(list, index, nextId, key);
      if key in index {
        var i := NodeAt(list, index[key]);
        r := Some(list[i].value);
        Splice(i);
      } else {
        r := None;
      }
    }

    /** Moves node `i` to the front; the index stays as it is. */
    method Splice(i: nat)
      requires Valid() && i < |list|
      modifies this`list
      ensures Valid() && Entries() == ToFront(old(Entries()), i)
    {
      SpliceKeeps(list, index, nextId, i);
      list := [list[i]] + list[..i] + list[i + 1..];
    }

    /** Drops nodes from the tail while there are too many. */
    method Evict()
      requires Consistent(list, index, nextId)
      modifies this
      ensures Valid() && capacity == old(capacity) && Entries() == Trim(old(Entries()), capacity)
    {
      hide Consistent;
      while capacity != 0 && |list| > capacity
        invariant Consistent(list, index, nextId) && capacity == old(capacity)
        invariant |list| <= |old(list)| && list == old(list)[..|list|]
        invariant capacity == 0 || |old(list)| <= capacity ==> |list| == |old(list)|
        invariant capacity != 0 && |old(list)| > capacity ==> |list| >= capacity
        decreases |list|
      {
        DropLastKeeps(list, index, nextId);
        index := index - {list[|list| - 1].key};
        list := list[..|list| - 1];
      }
    }

    /** The second critical section: another caller may have been faster. */
    method Insert(key: Key, value: Text) returns (r: Text)
      requires Valid()
      modifies this
      ensures Valid() && capacity == old(capacity)
      ensures Entries() == Inserted(old(Entries()), capacity, key, value)
      ensures var i := Position(old(Entries()), key); r == if i.Some? then old(Entries())[i.value].value else value
    {
      IndexFinds(list, index, nextId, key);
      if key in index {
        var i := NodeAt(list, index[key]);
        r := list[i].value;
        Splice(i);
        return;
      }
      EmplaceKeeps(list, index, nextId, key, value);
      list := [Node(nextId, key, value)] + list;
      index := index[key := nextId];
      nextId := nextId + 1;
      Evict();
      r := value;
    }

    method ClearCache()
      requires Valid()
      modifies this
      ensures Valid() && capacity == old(capacity) && Entries() == []
    {
      index := map[];
      list := [];
    }

    method CacheSize() returns (n: nat)
      ensures n == |Entries()|
    {
      n := |list|;
    }

    method SetCacheCapacity(cap: nat)
      requires Valid()
      modifies this
      ensures Valid() && capacity == cap && Entries() == Trim(old(Entries()), cap)
    {
      capacity := cap;
      Evict();
    }

    /** A whole call by a caller alone: what it returns is what the pipeline yields, nothing
        where the method cannot be located. */
    method DecompileMethod(key: Key, pipe: Key -> Option<Text>) returns (r: Text)
      requires Valid() && Honest(Entries(), pipe)
      modifies this
      ensures Valid() && Honest(Entries(), pipe) && r == Uncached(pipe, key)
      ensures pipe(key).Some? ==> Entries() == Inserted(old(Entries()), capacity, key, r)
    {
      hide Consistent, Position, ToFront, Inserted, Honest, Valid;
      CallIsHonest(Entries(), capacity, pipe, key);
      var hit := Lookup(key);
      if hit.Some? { return hit.value; }
      var located := pipe(key);
      if located.None? { return ""; }
      r := Insert(key, located.value);
    }
  }

  function EntriesOf(list: seq<Node>): (r: seq<Entry>)
    ensures |r| == |list|
  {
    seq(|list|, i requires 0 <= i < |list| => Entry(list[i].key, list[i].value))
  }

  ghost predicate Consistent(list: seq<Node>, index: map<Key, nat>, nextId: nat) {
    && (forall i, j :: 0 <= i < j < |list| ==> list[i].key != list[j].key && list[i].id != list[j].id)
    && (forall i :: 0 <= i < |list| ==> list[i].id < nextId && list[i].key in index && index[list[i].key] == list[i].id)
    && forall k :: k in index ==> Has(list, k)
  }

  ghost predicate Has(list: seq<Node>, key: Key) {
    exists i :: 0 <= i < |list| && list[i].key == key
  }

  /** The node an index entry points at. */
  method NodeAt(list: seq<Node>, id: nat) returns (i: nat)
    requires exists k :: 0 <= k < |list| && list[k].id == id
    ensures i < |list| && list[i].id == id
  {
    i := 0;
    while list[i].id != id
      invariant i < |list| && forall k :: 0 <= k < i ==> list[k].id != id
      decreases |list| - i
    {
      i := i + 1;
    }
  }

  /** The index holds a key exactly when the list does, and points at its entry. */
  lemma IndexFinds(list: seq<Node>, index: map<Key, nat>, nextId: nat, key: Key)
    requires Consistent(list, index, nextId)
    ensures key in index <==> Position(EntriesOf(list), key).Some?
    ensures key in index ==> exists k :: 0 <= k < |list| && list[k].id == index[key]
    ensures key in index ==> forall k :: 0 <= k < |list| && list[k].id == index[key] ==>
      k == Position(EntriesOf(list), key).value
  {
    var es := EntriesOf(list);
    var i := Position(es, key);
    assert forall k :: 0 <= k < |list| ==> es[k].key == list[k].key;
    if key in index {
      assert Has(list, key);
      var k :| 0 <= k < |list| && list[k].key == key;
      assert list[k].id == index[key];
    }
  }

  /** Where the node now at `k` was before node `i` moved to the front. */
  function Source(i: nat, k: nat): nat {
    if k == 0 then i else if k <= i then k - 1 else k
  }

  lemma MovedIs(list: seq<Node>, i: nat)
    requires i < |list|
    ensures var r := [list[i]] + list[..i] + list[i + 1..];
      |r| == |list| && forall k: nat :: k < |r| ==> Source(i, k) < |list| && r[k] == list[Source(i, k)]
  {
  }

  lemma MovedKeeps(list: seq<Node>, index: map<Key, nat>, nextId: nat, i: nat, r: seq<Node>)
    requires Consistent(list, index, nextId) && i < |list| == |r|
    requires forall k: nat :: k < |r| ==> Source(i, k) < |list| && r[k] == list[Source(i, k)]
    ensures Consistent(r, index, nextId)
  {
    forall k: nat, l: nat | k < l < |r| ensures r[k].key != r[l].key && r[k].id != r[l].id {
      var a, b := Source(i, k), Source(i, l);
      assert a != b;
      assert a < b || b < a;
    }
    forall key | key in index ensures Has(r, key) {
      assert Has(list, key);
      var j :| 0 <= j < |list| && list[j].key == key;
      var k: nat := if j < i then j + 1 else if j == i then 0 else j;
      assert Source(i, k) == j;
    }
  }

  lemma SpliceKeeps(list: seq<Node>, index: map<Key, nat>, nextId: nat, i: nat)
    requires Consistent(list, index, nextId) && i < |list|
    ensures Consistent([list[i]] + list[..i] + list[i + 1..], index, nextId)
    ensures EntriesOf([list[i]] + list[..i] + list[i + 1..]) == ToFront(EntriesOf(list), i)
  {
    hide Consistent;
    MovedIs(list, i);
    MovedKeeps(list, index, nextId, i, [list[i]] + list[..i] + list[i + 1..]);
  }

  lemma DropLastKeeps(list: seq<Node>, index: map<Key, nat>, nextId: nat)
    requires Consistent(list, index, nextId) && list != []
    ensures Consistent(list[..|list| - 1], index - {list[|list| - 1].key}, nextId)
  {
    var r := list[..|list| - 1];
    forall key | key in index && key != list[|list| - 1].key ensures Has(r, key) {
      assert Has(list, key);
      var j :| 0 <= j < |list| && list[j].key == key;
      assert r[j] == list[j];
    }
  }

  lemma EmplaceKeeps(list: seq<Node>, index: map<Key, nat>, nextId: nat, key: Key, value: Text)
    requires Consistent(list, index, nextId) && key !in index
    ensures Consistent([Node(nextId, key, value)] + list, index[key := nextId], nextId + 1)
    ensures EntriesOf([Node(nextId, key, value)] + list) == [Entry(key, value)] + EntriesOf(list)
  {
    var r := [Node(nextId, key, value)] + list;
    assert forall k :: 1 <= k < |r| ==> r[k] == list[k - 1];
    EmplacedKeeps(list, index, nextId, key, r);
  }

  lemma EmplacedKeeps(list: seq<Node>, index: map<Key, nat>, nextId: nat, key: Key, r: seq<Node>)
    requires Consistent(list, index, nextId) && key !in index && |r| == |list| + 1
    requires r[0].key == key && r[0].id == nextId && forall k :: 1 <= k < |r| ==> r[k] == list[k - 1]
    ensures Consistent(r, index[key := nextId], nextId + 1)
  {
    forall k | k in index && k != key ensures Has(r, k) {
      assert Has(list, k);
      var j :| 0 <= j < |list| && list[j].key == k;
      assert r[j + 1] == list[j];
    }
  }

  /** The result of a call that never meets a cache. */
  function Uncached(pipe: Key -> Option<Text>, key: Key): Text {
    if pipe(key).Some? then pipe(key).value else ""
  }

  /** Every stored value is what the pipeline yields for its key. */
  ghost predicate Honest(es: seq<Entry>, pipe: Key -> Option<Text>) {
    forall e :: e in es ==> pipe(e.key) == Some(e.value)
  }

  /** A call finds and leaves honest entries. */
  lemma CallIsHonest(es: seq<Entry>, capacity: nat, pipe: Key -> Option<Text>, key: Key)
    requires Honest(es, pipe)
    ensures var i := Position(es, key);
      && (i.Some? ==> es[i.value].value == Uncached(pipe, key) && pipe(key).Some? && Honest(ToFront(es, i.value), pipe)
                      && Inserted(es, capacity, key, Uncached(pipe, key)) == ToFront(es, i.value))
      && (i.None? && pipe(key).Some? ==> Honest(Inserted(es, capacity, key, pipe(key).value), pipe))
  {
    var i := Position(es, key);
    if i.Some? {
      assert es[i.value] in es;
    }
  }
}
