/** The order of a dex file's strings, and the two rules a string table may pass by. */
module StringTable {
  import opened Options
  import opened EncodedValue
  import opened Mutf8

  /** The order of UTF-16 strings by their code units. */
  predicate Less(a: seq<Unit>, b: seq<Unit>) {
    b != [] && (a == [] || a[0] < b[0] || (a[0] == b[0] && Less(a[1..], b[1..])))
  }

  /** The first `k` units are the same, and then `a` ends or has the smaller unit. */
  predicate DiffersAt(a: seq<Unit>, b: seq<Unit>, k: nat) {
    k <= |a| && k < |b| && a[..k] == b[..k] && (k == |a| || a[k] < b[k])
  }

  lemma FirstSame(a: seq<Unit>, b: seq<Unit>, k: nat)
    requires DiffersAt(a, b, k)
    ensures k > 0 ==> a != [] && b != [] && a[0] == b[0]
  {
    if k > 0 { assert a[0] == a[..k][0] == b[..k][0] == b[0]; }
  }

  /** The order is lexicographic. */
  lemma {:induction false} LessIsLexicographic(a: seq<Unit>, b: seq<Unit>)
    ensures Less(a, b) <==> exists k: nat :: DiffersAt(a, b, k)
    decreases |a|
  {
    if a == [] || b == [] || a[0] != b[0] {
      if Less(a, b) { assert DiffersAt(a, b, 0); }
      if k: nat :| DiffersAt(a, b, k) { FirstSame(a, b, k); }
    } else {
      LessIsLexicographic(a[1..], b[1..]);
      if Less(a, b) {
        var k: nat :| DiffersAt(a[1..], b[1..], k);
        assert a[..k + 1] == [a[0]] + a[1..][..k] && b[..k + 1] == [b[0]] + b[1..][..k];
        assert DiffersAt(a, b, k + 1);
      }
      if k: nat :| DiffersAt(a, b, k) {
        assert k > 0;
        assert a[1..][..k - 1] == a[..k][1..] && b[1..][..k - 1] == b[..k][1..];
        assert DiffersAt(a[1..], b[1..], k - 1);
      }
    }
  }

  lemma {:induction false} LessIsTotal(a: seq<Unit>, b: seq<Unit>)
    ensures Less(a, b) || a == b || Less(b, a)
    ensures !(Less(a, b) && Less(b, a)) && (a == b ==> !Less(a, b))
  {
    if a != [] && b != [] && a[0] == b[0] {
      LessIsTotal(a[1..], b[1..]);
      assert a == [a[0]] + a[1..] && b == [b[0]] + b[1..];
    }
  }

  lemma {:induction false} LessIsTransitive(a: seq<Unit>, b: seq<Unit>, c: seq<Unit>)
    requires Less(a, b) && Less(b, c)
    ensures Less(a, c)
  {
    if a != [] && a[0] == b[0] == c[0] {
      LessIsTransitive(a[1..], b[1..], c[1..]);
    }
  }

  /** A common first unit does not matter. */
  lemma LessTails(u: Unit, a: seq<Unit>, b: seq<Unit>)
    ensures Less([u] + a, [u] + b) <==> Less(a, b)
  {
    assert ([u] + a)[1..] == a && ([u] + b)[1..] == b;
  }

  /** The units the comparator's decoder reads one after the other, up to the terminator. */
  function Iterated(s: Bytes, p: nat): seq<int>
    requires Decode(s, p).Some?
    decreases |s| - p
  {
    if s[p] == 0 then []
    else
      ReadsUnit(s, p);
      var (u, q) := GetUtf16FromUtf8(s, p);
      [u] + Iterated(s, q)
  }

  /** On an accepted string that is the string itself. */
  lemma {:induction false} IteratedIsDecoded(s: Bytes, p: nat)
    requires Decode(s, p).Some?
    ensures Iterated(s, p) == Decode(s, p).value.0
    decreases |s| - p
  {
    if s[p] != 0 {
      ReadsUnit(s, p);
      IteratedIsDecoded(s, UnitAt(s, p).value.1);
    }
  }

  function Units(s: Bytes, p: nat): seq<Unit> {
    if Decode(s, p).Some? then Decode(s, p).value.0 else []
  }

  lemma UnitsUnfold(s: Bytes, p: nat)
    requires Decode(s, p).Some? && s[p] != 0
    ensures UnitAt(s, p).Some? && Decode(s, UnitAt(s, p).value.1).Some?
    ensures Units(s, p) == [UnitAt(s, p).value.0] + Units(s, UnitAt(s, p).value.1)
  {
  }

  lemma UnitsEnd(s: Bytes, p: nat)
    requires Decode(s, p).Some?
    ensures p < |s| && (s[p] == 0 <==> Units(s, p) == [])
  {
  }

  /** The sign of `r` is the order of `a` and `b`. */
  ghost predicate Signs(r: int, a: seq<Unit>, b: seq<Unit>) {
    (r < 0 <==> Less(a, b)) && (r == 0 <==> a == b) && (r > 0 <==> Less(b, a))
  }

  lemma SignsTails(r: int, u: Unit, a: seq<Unit>, b: seq<Unit>)
    ensures Signs(r, [u] + a, [u] + b) <==> Signs(r, a, b)
  {
    LessTails(u, a, b);
    LessTails(u, b, a);
    assert ([u] + a)[1..] == a && ([u] + b)[1..] == b;
  }

  lemma SignsHeads(u: Unit, v: Unit, a: seq<Unit>, b: seq<Unit>)
    requires u != v
    ensures Signs(u - v, [u] + a, [v] + b)
  {
    assert ([u] + a)[0] == u && ([v] + b)[0] == v;
  }

  lemma SignsEnds(a: seq<Unit>, b: seq<Unit>)
    ensures a == [] ==> Signs(if b == [] then 0 else -1, a, b)
    ensures b == [] && a != [] ==> Signs(1, a, b)
  {
  }

  /** The result for two different characters: by leading unit, then by trailing unit. */
  function Difference(u: nat, v: nat): int {
    var leading := u % 0x1_0000 - v % 0x1_0000;
    if leading != 0 then leading else u / 0x1_0000 - v / 0x1_0000
  }

  lemma DifferenceOfUnits(u: Unit, v: Unit)
    requires u != v
    ensures Difference(u, v) == u - v
  {
  }

  /** Compares two accepted strings: the sign is their order by UTF-16 code units. */
  method Compare(s: Bytes, p1: nat, p2: nat) returns (r: int)
    requires Decode(s, p1).Some? && Decode(s, p2).Some?
    ensures Signs(r, Units(s, p1), Units(s, p2))
  {
    hide *;
    var c1, c2 := p1, p2;
    while true
      invariant Decode(s, c1).Some? && Decode(s, c2).Some?
      invariant forall r :: Signs(r, Units(s, c1), Units(s, c2)) ==> Signs(r, Units(s, p1), Units(s, p2))
      decreases |s| - c1
    {
      UnitsEnd(s, c1);
      UnitsEnd(s, c2);
      SignsEnds(Units(s, c1), Units(s, c2));
      if s[c1] == 0 { return if s[c2] == 0 then 0 else -1; }
      if s[c2] == 0 { return 1; }
      UnitsUnfold(s, c1);
      UnitsUnfold(s, c2);
      ReadsUnit(s, c1);
      ReadsUnit(s, c2);
      var (u, q1) := GetUtf16FromUtf8(s, c1);
      var (v, q2) := GetUtf16FromUtf8(s, c2);
      if u != v {
        SignsHeads(u, v, Units(s, q1), Units(s, q2));
        DifferenceOfUnits(u, v);
        return Difference(u, v);
      }
      forall r ensures Signs(r, Units(s, c1), Units(s, c2)) <==> Signs(r, Units(s, q1), Units(s, q2)) {
        SignsTails(r, u, Units(s, q1), Units(s, q2));
      }
      c1, c2 := q1, q2;
    }
  }

  predicate Bounded(table: seq<nat>, n: nat) {
    forall k :: 0 <= k < |table| ==> table[k] < n
  }

  /** The image and the offsets of its strings, each accepted by the string gate, with the
      string indices its type, prototype, field and method tables use as identifiers. */
  datatype Strings = Strings(image: Bytes, offs: seq<nat>, descriptors: seq<nat>, shorties: seq<nat>,
    fieldNames: seq<nat>, methodNames: seq<nat>) {
    ghost predicate Valid() {
      && (forall i :: 0 <= i < |offs| ==> Decode(image, offs[i]).Some?)
      && Bounded(descriptors, |offs|) && Bounded(shorties, |offs|) && Bounded(fieldNames, |offs|)
      && Bounded(methodNames, |offs|)
    }

    function Content(i: nat): seq<Unit>
      requires i < |offs|
    {
      Units(image, offs[i])
    }

    predicate Ident(i: nat) {
      i in descriptors || i in shorties || i in fieldNames || i in methodNames
    }

    /** Strings `i` and `j` are in strict order. */
    predicate InOrder(i: nat, j: nat)
      requires i < |offs| && j < |offs|
    {
      Less(Content(i), Content(j))
    }

    /** The strict rule: every two strings are in order. */
    ghost predicate Sorted() {
      forall i: nat, j: nat :: i < j < |offs| ==> InOrder(i, j)
    }

    /** The first half of the lenient rule: every two identifiers are in order. */
    ghost predicate IdentsSorted() {
      forall i: nat, j: nat :: i < j < |offs| && Ident(i) && Ident(j) ==> InOrder(i, j)
    }

    /** The second half: only the first string may be empty. */
    ghost predicate EmptyFirst() {
      forall i: nat :: 0 < i < |offs| ==> Content(i) != []
    }
  }

  lemma InOrderTransitive(t: Strings, i: nat, j: nat, k: nat)
    requires i < |t.offs| && j < |t.offs| && k < |t.offs| && t.InOrder(i, j) && t.InOrder(j, k)
    ensures t.InOrder(i, k)
  {
    LessIsTransitive(t.Content(i), t.Content(j), t.Content(k));
  }

  predicate Adjacent(t: Strings, k: nat)
    requires k + 1 < |t.offs|
  {
    t.InOrder(k, k + 1)
  }

  /** Neighbours in order put every two in order. */
  lemma {:induction false} NeighboursSuffice(t: Strings, i: nat, j: nat)
    requires i < j < |t.offs| && forall k: nat :: k + 1 < |t.offs| ==> Adjacent(t, k)
    ensures t.InOrder(i, j)
    decreases j
  {
    assert Adjacent(t, j - 1);
    if i + 1 < j {
      NeighboursSuffice(t, i, j - 1);
      InOrderTransitive(t, i, j - 1, j);
    }
  }

  /** What passes the strict rule would pass the lenient one. */
  lemma SortedIsLenient(t: Strings)
    requires t.Sorted()
    ensures t.IdentsSorted() && t.EmptyFirst()
  {
    forall i: nat | 0 < i < |t.offs|
      ensures t.Content(i) != []
    {
      assert t.InOrder(0, i);
    }
  }

  /** A sorted table holds no string twice. */
  lemma SortedIsDistinct(t: Strings, i: nat, j: nat)
    requires t.Sorted() && i < |t.offs| && j < |t.offs| && t.Content(i) == t.Content(j)
    ensures i == j
  {
    LessIsTotal(t.Content(i), t.Content(j));
    assert i < j ==> t.InOrder(i, j);
    assert j < i ==> t.InOrder(j, i);
  }

  /** Under the lenient rule no two identifiers are the same string. */
  lemma IdentsAreDistinct(t: Strings, i: nat, j: nat)
    requires t.IdentsSorted() && i < |t.offs| && j < |t.offs| && t.Ident(i) && t.Ident(j)
    requires t.Content(i) == t.Content(j)
    ensures i == j
  {
    LessIsTotal(t.Content(i), t.Content(j));
    assert i < j ==> t.InOrder(i, j);
    assert j < i ==> t.InOrder(j, i);
  }

  /** The sign of a comparison, as the two rules use it. */
  lemma SignOrders(t: Strings, i: nat, j: nat, r: int)
    requires i < |t.offs| && j < |t.offs| && Signs(r, t.Content(i), t.Content(j))
    ensures r < 0 <==> t.InOrder(i, j)
  {
  }

  method MarkAll(ident: seq<bool>, table: seq<nat>) returns (r: seq<bool>)
    requires Bounded(table, |ident|)
    ensures |r| == |ident|
    ensures forall i: nat :: i < |r| ==> (r[i] <==> ident[i] || i in table)
  {
    r := ident;
    for k := 0 to |table|
      invariant |r| == |ident|
      invariant forall i: nat :: i < |r| ==> (r[i] <==> ident[i] || i in table[..k])
    {
      assert table[..k + 1] == table[..k] + [table[k]];
      r := r[table[k] := true];
    }
    assert table[..|table|] == table;
  }

  /** Identifiers below `n` are in order, `prev` being the last of them, and of the strings
      below `n` only the first may be empty. */
  ghost predicate Checked(t: Strings, n: nat, prev: nat)
    requires n <= |t.offs|
  {
    && (prev == |t.offs| || (prev < n && t.Ident(prev)))
    && (forall i: nat :: i < n && t.Ident(i) ==> prev < n && i <= prev)
    && (forall i: nat, j: nat :: i < j < n && t.Ident(i) && t.Ident(j) ==> t.InOrder(i, j))
    && forall i: nat :: 0 < i < n ==> t.Content(i) != []
  }

  lemma CheckedSkip(t: Strings, n: nat, prev: nat)
    requires n < |t.offs| && Checked(t, n, prev) && !t.Ident(n) && (n > 0 ==> t.Content(n) != [])
    ensures Checked(t, n + 1, prev)
  {
    hide Strings.Ident, Strings.InOrder, Strings.Content;
  }

  lemma CheckedNext(t: Strings, n: nat, prev: nat)
    requires n < |t.offs| && Checked(t, n, prev) && t.Ident(n) && (n > 0 ==> t.Content(n) != [])
    requires prev != |t.offs| ==> prev < |t.offs| && t.InOrder(prev, n)
    ensures Checked(t, n + 1, n)
  {
    forall i: nat | i < n && t.Ident(i)
      ensures t.InOrder(i, n)
    {
      if i < prev { InOrderTransitive(t, i, prev, n); }
    }
    hide Strings.Ident, Strings.InOrder, Strings.Content;
  }

  /** The lenient pass over a table that is not sorted. */
  method AcceptUnsortedValueStrings(t: Strings) returns (ok: bool)
    requires t.Valid()
    ensures ok <==> t.IdentsSorted() && t.EmptyFirst()
  {
    var n := |t.offs|;
    var ident := seq(n, _ => false);
    ident := MarkAll(ident, t.descriptors);
    ident := MarkAll(ident, t.shorties);
    ident := MarkAll(ident, t.fieldNames);
    ident := MarkAll(ident, t.methodNames);
    assert forall i: nat :: i < n ==> (ident[i] <==> t.Ident(i));
    hide Strings.Ident, Strings.InOrder, Decode, Units, Less, Signs;
    var prev := n;
    for i := 0 to n
      invariant prev <= n && Checked(t, i, prev)
    {
      UnitsEnd(t.image, t.offs[i]);
      ContentIs(t, i);
      if i != 0 && t.image[t.offs[i]] == 0 { return false; }
      if !ident[i] {
        CheckedSkip(t, i, prev);
        continue;
      }
      if prev != n {
        var r := Compare(t.image, t.offs[prev], t.offs[i]);
        SignOrders(t, prev, i, r);
        if r >= 0 { return false; }
      }
      CheckedNext(t, i, prev);
      prev := i;
    }
    return true;
  }

  /** The string table's order check. The strict rule takes only a sorted table; the lenient
      one takes exactly those whose identifiers are sorted and whose empty string, if any,
      comes first. */
  method CheckStringIds(t: Strings, strict: bool) returns (ok: bool, outOfOrder: nat)
    requires t.Valid()
    ensures ok <==> if strict then t.Sorted() else t.IdentsSorted() && t.EmptyFirst()
    ensures ok ==> (outOfOrder == 0 <==> t.Sorted())
  {
    hide Strings.Ident, Strings.InOrder, Decode, Units, Less, Signs, Strings.EmptyFirst, Strings.IdentsSorted,
      Strings.Content;
    outOfOrder := 0;
    var i: nat := 1;
    while i < |t.offs|
      invariant 1 <= i
      invariant outOfOrder == 0 <==> forall k: nat :: k + 1 < i && k + 1 < |t.offs| ==> Adjacent(t, k)
      invariant strict ==> outOfOrder == 0
    {
      var r := Compare(t.image, t.offs[i - 1], t.offs[i]);
      ContentIs(t, i - 1);
      ContentIs(t, i);
      SignOrders(t, i - 1, i, r);
      assert Adjacent(t, i - 1) <==> r < 0;
      if r >= 0 {
        if strict { return false, outOfOrder; }
        outOfOrder := outOfOrder + 1;
      }
      i := i + 1;
    }
    if outOfOrder == 0 {
      forall a: nat, b: nat | a < b < |t.offs| ensures t.InOrder(a, b) { NeighboursSuffice(t, a, b); }
      SortedIsLenient(t);
      return true, 0;
    }
    ok := AcceptUnsortedValueStrings(t);
  }

  lemma ContentIs(t: Strings, i: nat)
    requires i < |t.offs|
    ensures t.Content(i) == Units(t.image, t.offs[i])
  {
  }
}
