/** Strictly ascending sequences. */
module Sequences {
  ghost predicate Ascending(s: seq<nat>) {
    forall i, j :: 0 <= i < j < |s| ==> s[i] < s[j]
  }

  lemma AscendingLe(s: seq<nat>, i: nat, j: nat)
    requires Ascending(s) && i <= j < |s|
    ensures s[i] <= s[j]
  {
  }

  /** Appending a larger element. */
  lemma AscendingMore(s: seq<nat>, x: nat)
    requires Ascending(s) && forall y :: y in s ==> y < x
    ensures Ascending(s + [x])
  {
    assert forall i :: 0 <= i < |s| ==> s[i] in s;
  }

  /** Ascending lists with the same members are the same. */
  lemma {:induction false} AscendingUnique(s: seq<nat>, t: seq<nat>)
    requires Ascending(s) && Ascending(t) && forall x :: x in s <==> x in t
    ensures s == t
    decreases |s|
  {
    HasLast(s);
    HasLast(t);
    if s != [] && t != [] {
      AscendingLast(s, t[|t| - 1]);
      AscendingLast(t, s[|s| - 1]);
      AscendingButLast(s);
      AscendingButLast(t);
      var s', t' := s[..|s| - 1], t[..|t| - 1];
      assert s[|s| - 1] == t[|t| - 1];
      assert forall x :: x in s' <==> x in s && x != s[|s| - 1];
      assert forall x :: x in t' <==> x in t && x != t[|t| - 1];
      assert forall x :: x in s' <==> x in t';
      AscendingUnique(s', t');
      assert s == s[..|s| - 1] + [s[|s| - 1]];
    }
  }

  lemma HasLast(s: seq<nat>)
    ensures s != [] ==> s[|s| - 1] in s
  {
  }

  lemma AscendingButLast(s: seq<nat>)
    requires Ascending(s) && s != []
    ensures Ascending(s[..|s| - 1])
    ensures forall x :: x in s[..|s| - 1] <==> x in s && x != s[|s| - 1]
  {
    var a := s[|s| - 1];
    assert s == s[..|s| - 1] + [a];
  }

  lemma AscendingLast(s: seq<nat>, x: nat)
    requires Ascending(s) && x in s
    ensures x <= s[|s| - 1]
  {
  }

  /** An ascending sequence climbs by at least one at each step. */
  lemma {:induction false} Climb(s: seq<nat>, i: nat, j: nat)
    requires Ascending(s) && i <= j < |s|
    ensures s[j] - s[i] >= j - i
    decreases j
  {
    if i < j { Climb(s, i, j - 1); }
  }

  /** An ascending sequence as long as the range that holds it lists the whole range. */
  lemma FillsRange(s: seq<nat>, lo: nat, hi: nat)
    requires Ascending(s) && lo <= hi && |s| == hi - lo
    requires forall k :: 0 <= k < |s| ==> lo <= s[k] < hi
    ensures forall x :: x in s <==> lo <= x < hi
  {
    forall k | 0 <= k < |s| ensures s[k] == lo + k {
      Climb(s, 0, k);
      Climb(s, k, |s| - 1);
    }
    forall x | lo <= x < hi ensures x in s {
      assert s[x - lo] == x;
    }
  }

  /** An ascending sequence that lists a whole range is as long as the range. */
  lemma RangeLength(s: seq<nat>, lo: nat, hi: nat)
    requires Ascending(s) && lo <= hi && forall x :: x in s <==> lo <= x < hi
    ensures |s| == hi - lo
  {
    var t := seq(hi - lo, k requires 0 <= k < hi - lo => lo + k);
    assert forall x :: x in t <==> lo <= x < hi by {
      forall x | lo <= x < hi ensures x in t { assert t[x - lo] == x; }
    }
    AscendingUnique(s, t);
  }
}
