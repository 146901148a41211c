/** The gate's check of method handle sections, shared by the slices of one image: a memo of
    what each section needs, and a budget for the entries walked. */
module MethodHandles {
  import opened Options
  import opened EncodedValue
  import opened CodeItem
  import opened Containers

  const LAST_FIELD_KIND: nat := 3
  const LAST_KIND: nat := 8
  const ENTRY: nat := 8

  /** A section, by its offset from the data base and its number of entries. */
  type Key = (nat, nat)

  /** The smallest table sizes that admit every index of a section. */
  datatype Needs = Needs(fields: nat, methods: nat)

  /** The section lies in the image. */
  predicate Fits(image: Bytes, base: nat, k: Key) {
    base + k.0 + ENTRY * k.1 <= |image|
  }

  function Kind(image: Bytes, p: nat): nat
    requires p + ENTRY <= |image|
  {
    U2(image, p)
  }

  function Member(image: Bytes, p: nat): nat
    requires p + ENTRY <= |image|
  {
    U2(image, p + 4)
  }

  /** A walk of `n` entries from `p` accepts: every kind is known and every index is in its
      table. */
  predicate Walk(image: Bytes, p: nat, n: nat, fields: nat, methods: nat)
    requires p + ENTRY * n <= |image|
    decreases n
  {
    n == 0
    || (Kind(image, p) <= LAST_KIND
        && Member(image, p) < (if Kind(image, p) <= LAST_FIELD_KIND then fields else methods)
        && Walk(image, p + ENTRY, n - 1, fields, methods))
  }

  predicate FreshWalk(image: Bytes, base: nat, k: Key, fields: nat, methods: nat)
    requires Fits(image, base, k)
  {
    Walk(image, base + k.0, k.1, fields, methods)
  }

  function Max(a: nat, b: nat): nat {
    if a < b then b else a
  }

  /** One past the largest index of each kind among `n` entries. */
  function NeedsFrom(image: Bytes, p: nat, n: nat): Needs
    requires p + ENTRY * n <= |image|
    decreases n
  {
    if n == 0 then Needs(0, 0)
    else
      var rest := NeedsFrom(image, p + ENTRY, n - 1);
      if Kind(image, p) <= LAST_FIELD_KIND then Needs(Max(rest.fields, Member(image, p) + 1), rest.methods)
      else Needs(rest.fields, Max(rest.methods, Member(image, p) + 1))
  }

  /** Every kind among `n` entries is known. */
  predicate KindsOk(image: Bytes, p: nat, n: nat)
    requires p + ENTRY * n <= |image|
    decreases n
  {
    n == 0 || (Kind(image, p) <= LAST_KIND && KindsOk(image, p + ENTRY, n - 1))
  }

  /** Every index is below its limit exactly when the largest is. */
  lemma {:induction false} WalkByNeeds(image: Bytes, p: nat, n: nat, fields: nat, methods: nat)
    requires p + ENTRY * n <= |image|
    ensures Walk(image, p, n, fields, methods) <==>
      KindsOk(image, p, n) && NeedsFrom(image, p, n).fields <= fields && NeedsFrom(image, p, n).methods <= methods
    decreases n
  {
    if n > 0 { WalkByNeeds(image, p + ENTRY, n - 1, fields, methods); }
  }

  type Memo = map<Key, Needs>

  /** The state shared by the slices of an image. */
  datatype State = State(memo: Memo, left: nat)

  /** The memo tells of each section what a walk of it would find. */
  ghost predicate Faithful(image: Bytes, base: nat, memo: Memo) {
    forall k :: k in memo ==>
      Fits(image, base, k) && KindsOk(image, base + k.0, k.1) && memo[k] == NeedsFrom(image, base + k.0, k.1)
  }

  function Seed(size: nat): nat {
    size / ENTRY + 1
  }

  /** A new verifier seeds a budget that stands at zero with nothing walked. */
  function Seeded(st: State, size: nat): State {
    if st.left == 0 && st.memo == map[] then st.(left := Seed(size)) else st
  }

  /** A section a slice names, and the slice's own table sizes. */
  datatype Call = Call(key: Key, fields: nat, methods: nat)

  /** The budget turns a section away. */
  predicate Refused(st: State, c: Call) {
    c.key !in st.memo && c.key.1 > st.left
  }

  /** What a check leaves behind. */
  function After(image: Bytes, base: nat, st: State, c: Call): State
    requires Fits(image, base, c.key)
  {
    if c.key in st.memo || Refused(st, c) then st
    else
      var left := st.left - c.key.1;
      if FreshWalk(image, base, c.key, c.fields, c.methods) then
        State(st.memo[c.key := NeedsFrom(image, base + c.key.0, c.key.1)], left)
      else State(st.memo, left)
  }

  class ImageState {
    var memo: Memo
    var left: nat

    constructor ()
      ensures memo == map[] && left == 0
    {
      memo, left := map[], 0;
    }

    ghost function Abs(): State
      reads this
    {
      State(memo, left)
    }

    method NewVerifier(imageSize: nat)
      modifies this
      ensures Abs() == Seeded(old(Abs()), imageSize)
    {
      if left == 0 && memo == map[] {
        left := imageSize / ENTRY + 1;
      }
    }

    /** The check of one section, whose entries are walked at most once. It accepts exactly
        when a fresh walk against the caller's own tables would, unless the budget turns the
        section away. */
    method VerifyMethodHandleSection(image: Bytes, base: nat, off: nat, count: nat, fieldIds: nat, methodIds: nat)
      returns (ok: bool)
      requires Fits(image, base, (off, count)) && Faithful(image, base, memo)
      modifies this
      ensures Abs() == After(image, base, old(Abs()), Call((off, count), fieldIds, methodIds))
      ensures var c := Call((off, count), fieldIds, methodIds);
        ok <==> FreshWalk(image, base, c.key, fieldIds, methodIds) && !Refused(old(Abs()), c)
      ensures Faithful(image, base, memo)
    {
      hide Walk, NeedsFrom, KindsOk;
      var key := (off, count);
      WalkByNeeds(image, base + off, count, fieldIds, methodIds);
      if key in memo {
        return memo[key].fields <= fieldIds && memo[key].methods <= methodIds;
      }
      if count > left { return false; }
      left := left - count;
      var good, needs := WalkEntries(image, base + off, count, fieldIds, methodIds);
      if !good { return false; }
      memo := memo[key := needs];
      return true;
    }
  }

  /** The walk: it stops at the first entry that does not fit and otherwise finds what the
      section needs. */
  method WalkEntries(image: Bytes, start: nat, count: nat, fieldIds: nat, methodIds: nat)
    returns (ok: bool, needs: Needs)
    requires start + ENTRY * count <= |image|
    ensures ok <==> Walk(image, start, count, fieldIds, methodIds)
    ensures ok ==> needs == NeedsFrom(image, start, count)
  {
    needs := Needs(0, 0);
    var p := start;
    for i := 0 to count
      invariant p == start + ENTRY * i
      invariant Walk(image, start, count, fieldIds, methodIds) <==> Walk(image, p, count - i, fieldIds, methodIds)
      invariant var rest, all := NeedsFrom(image, p, count - i), NeedsFrom(image, start, count);
        all == Needs(Max(needs.fields, rest.fields), Max(needs.methods, rest.methods))
    {
      hide U2;
      if Kind(image, p) > LAST_KIND { return false, needs; }
      var isField := Kind(image, p) <= LAST_FIELD_KIND;
      var member := Member(image, p);
      if member >= (if isField then fieldIds else methodIds) { return false, needs; }
      needs := if isField then needs.(fields := Max(needs.fields, member + 1))
        else needs.(methods := Max(needs.methods, member + 1));
      p := p + ENTRY;
    }
    ok := true;
  }

  /** How the check decides, on whatever the memo says. */
  predicate Decides(image: Bytes, base: nat, st: State, c: Call)
    requires Fits(image, base, c.key)
  {
    if c.key in st.memo then st.memo[c.key].fields <= c.fields && st.memo[c.key].methods <= c.methods
    else c.key.1 <= st.left && FreshWalk(image, base, c.key, c.fields, c.methods)
  }

  ghost predicate AllFit(image: Bytes, base: nat, calls: seq<Call>) {
    forall i :: 0 <= i < |calls| ==> Fits(image, base, calls[i].key)
  }

  /** The state once the slices of `calls` are checked in turn, each by a verifier of its
      own, and the entries that accepting walks charged. */
  function Run(image: Bytes, base: nat, calls: seq<Call>): (State, nat)
    requires AllFit(image, base, calls)
    decreases |calls|
  {
    if calls == [] then (State(map[], 0), 0)
    else
      var (before, spent) := Run(image, base, calls[..|calls| - 1]);
      var st, c := Seeded(before, |image|), calls[|calls| - 1];
      (After(image, base, st, c),
       if c.key !in st.memo && !Refused(st, c) && FreshWalk(image, base, c.key, c.fields, c.methods)
       then spent + c.key.1 else spent)
  }

  /** The state the last of the calls meets. */
  function Meets(image: Bytes, base: nat, calls: seq<Call>): State
    requires AllFit(image, base, calls) && calls != []
  {
    Seeded(Run(image, base, calls[..|calls| - 1]).0, |image|)
  }

  /** In every run over one data base the memo stays faithful, and the accepting walks
      charge no more than one seed between them. */
  lemma {:induction false} RunKeeps(image: Bytes, base: nat, calls: seq<Call>)
    requires AllFit(image, base, calls)
    ensures var (st, spent) := Run(image, base, calls);
      && Faithful(image, base, st.memo) && spent + st.left <= Seed(|image|) && (st.memo == map[] ==> spent == 0)
    decreases |calls|
  {
    hide *;
    if calls == [] {
      RunNone(image, base);
    } else {
      AllButLastFit(image, base, calls);
      RunKeeps(image, base, calls[..|calls| - 1]);
      RunLast(image, base, calls);
    }
  }

  lemma AllButLastFit(image: Bytes, base: nat, calls: seq<Call>)
    requires AllFit(image, base, calls) && calls != []
    ensures AllFit(image, base, calls[..|calls| - 1])
  {
  }

  lemma RunNone(image: Bytes, base: nat)
    ensures Run(image, base, []) == (State(map[], 0), 0) && Faithful(image, base, map[])
  {
  }

  lemma RunLast(image: Bytes, base: nat, calls: seq<Call>)
    requires AllFit(image, base, calls) && calls != [] && AllFit(image, base, calls[..|calls| - 1])
    requires var (st, spent) := Run(image, base, calls[..|calls| - 1]);
      && Faithful(image, base, st.memo) && spent + st.left <= Seed(|image|) && (st.memo == map[] ==> spent == 0)
    ensures var (st, spent) := Run(image, base, calls);
      && Faithful(image, base, st.memo) && spent + st.left <= Seed(|image|) && (st.memo == map[] ==> spent == 0)
  {
    var st, c := Meets(image, base, calls), calls[|calls| - 1];
    AfterKeeps(image, base, st, c);
    hide Walk, NeedsFrom, KindsOk, Seed, Faithful, FreshWalk, Fits;
  }

  /** One check keeps the memo faithful. */
  lemma AfterKeeps(image: Bytes, base: nat, st: State, c: Call)
    requires Fits(image, base, c.key) && Faithful(image, base, st.memo)
    ensures Faithful(image, base, After(image, base, st, c).memo)
  {
    WalkByNeeds(image, base + c.key.0, c.key.1, c.fields, c.methods);
    hide Walk, NeedsFrom, KindsOk;
  }

  /** Over any sequence of slices sharing one data base, the memoised check accepts exactly
      when a fresh walk against that slice's own tables does, unless the budget turns the
      section away. */
  lemma MemoRefinesWalk(image: Bytes, base: nat, calls: seq<Call>)
    requires AllFit(image, base, calls) && calls != []
    ensures var st, c := Meets(image, base, calls), calls[|calls| - 1];
      Decides(image, base, st, c) <==> FreshWalk(image, base, c.key, c.fields, c.methods) && !Refused(st, c)
  {
    RunKeeps(image, base, calls[..|calls| - 1]);
    var c := calls[|calls| - 1];
    WalkByNeeds(image, base + c.key.0, c.key.1, c.fields, c.methods);
    hide Walk, NeedsFrom, KindsOk, Seed;
  }

  /** A sequence of sections that a well-formed image may name: each passes a fresh walk,
      and two of them are the same or share no byte. */
  ghost predicate Legitimate(image: Bytes, base: nat, calls: seq<Call>)
    requires AllFit(image, base, calls)
  {
    && (forall i :: 0 <= i < |calls| ==> FreshWalk(image, base, calls[i].key, calls[i].fields, calls[i].methods))
    && forall i, j :: 0 <= i < j < |calls| ==> Apart(calls[i].key, calls[j].key)
  }

  predicate Apart(a: Key, b: Key) {
    a == b || a.0 + ENTRY * a.1 <= b.0 || b.0 + ENTRY * b.1 <= a.0
  }

  /** The sections of the calls, each once, in order of first mention. */
  function Sections(calls: seq<Call>): (r: seq<Key>)
    ensures forall k :: k in r <==> exists i :: 0 <= i < |calls| && calls[i].key == k
    decreases |calls|
  {
    if calls == [] then []
    else
      var before, k := Sections(calls[..|calls| - 1]), calls[|calls| - 1].key;
      if k in before then before else before + [k]
  }

  function Total(ks: seq<Key>): nat {
    if ks == [] then 0 else Total(ks[..|ks| - 1]) + ks[|ks| - 1].1
  }

  function Range(a: nat, n: nat): (r: set<nat>)
    ensures |r| == n && forall x: nat :: x in r <==> a <= x < a + n
  {
    if n == 0 then {} else Range(a, n - 1) + {a + n - 1}
  }

  /** The bytes of a section. */
  function Span(k: Key): set<nat> {
    Range(k.0, ENTRY * k.1)
  }

  function Spans(ks: seq<Key>): set<nat> {
    if ks == [] then {} else Spans(ks[..|ks| - 1]) + Span(ks[|ks| - 1])
  }

  lemma {:induction false} SpansIn(ks: seq<Key>, x: nat)
    requires x in Spans(ks)
    ensures exists i :: 0 <= i < |ks| && x in Span(ks[i])
    decreases |ks|
  {
    if x !in Span(ks[|ks| - 1]) { SpansIn(ks[..|ks| - 1], x); }
  }

  /** Sections that share no byte are together no larger than what holds them. */
  lemma {:induction false} SpansSize(ks: seq<Key>, size: nat)
    requires PairwiseApart(ks)
    requires forall i :: 0 <= i < |ks| ==> ks[i].0 + ENTRY * ks[i].1 <= size
    ensures |Spans(ks)| == ENTRY * Total(ks)
    ensures forall x :: x in Spans(ks) ==> x < size
    decreases |ks|
  {
    if ks != [] {
      var before, k := ks[..|ks| - 1], ks[|ks| - 1];
      SpansSize(before, size);
      forall x | x in Spans(before) ensures x !in Span(k) {
        SpansIn(before, x);
      }
      assert Spans(before) !! Span(k);
    }
  }

  lemma {:induction false} Below(s: set<nat>, n: nat)
    requires forall x :: x in s ==> x < n
    ensures |s| <= n
  {
    if n == 0 {
      assert s == {};
    } else {
      Below(s - {n - 1}, n - 1);
    }
  }

  /** No two of the sections are the same or share a byte. */
  ghost predicate PairwiseApart(ks: seq<Key>) {
    forall i, j :: 0 <= i < j < |ks| ==> ks[i] != ks[j] && Apart(ks[i], ks[j])
  }

  lemma {:induction false} SectionsApart(image: Bytes, base: nat, calls: seq<Call>)
    requires AllFit(image, base, calls) && Legitimate(image, base, calls)
    ensures PairwiseApart(Sections(calls))
    decreases |calls|
  {
    if calls != [] {
      var before, k := calls[..|calls| - 1], calls[|calls| - 1].key;
      SectionsApart(image, base, before);
      var ks := Sections(before);
      forall i | 0 <= i < |ks| ensures Apart(ks[i], k) {
        assert ks[i] in ks;
        var j :| 0 <= j < |before| && before[j].key == ks[i];
        assert Apart(calls[j].key, calls[|calls| - 1].key);
      }
      assert forall i :: 0 <= i < |ks| ==> ks[i] in ks;
    }
  }

  /** The entries of the sections are within the seed. */
  lemma TotalWithinSeed(image: Bytes, base: nat, calls: seq<Call>)
    requires AllFit(image, base, calls) && Legitimate(image, base, calls)
    ensures Total(Sections(calls)) < Seed(|image|)
  {
    var ks := Sections(calls);
    SectionsApart(image, base, calls);
    forall i | 0 <= i < |ks| ensures ks[i].0 + ENTRY * ks[i].1 <= |image| {
      assert ks[i] in ks;
      var j :| 0 <= j < |calls| && calls[j].key == ks[i];
      assert Fits(image, base, calls[j].key);
    }
    SpansSize(ks, |image|);
    Below(Spans(ks), |image|);
  }

  /** Over legitimate sections the memo holds each section once and the budget what they
      leave of the seed. */
  lemma {:induction false} LegitimateRun(image: Bytes, base: nat, calls: seq<Call>)
    requires AllFit(image, base, calls) && Legitimate(image, base, calls) && calls != []
    ensures var st := Run(image, base, calls).0;
      st.left + Total(Sections(calls)) == Seed(|image|) && forall k :: k in st.memo <==> k in Sections(calls)
    ensures !Refused(Meets(image, base, calls), calls[|calls| - 1])
    decreases |calls|
  {
    var before, c := calls[..|calls| - 1], calls[|calls| - 1];
    assert FreshWalk(image, base, c.key, c.fields, c.methods);
    TotalWithinSeed(image, base, calls);
    if before != [] {
      LegitimateRun(image, base, before);
      TotalWithinSeed(image, base, before);
    }
    TotalMore(Sections(before), c.key);
    hide Walk, NeedsFrom, KindsOk, Seed, FreshWalk;
  }

  lemma TotalMore(ks: seq<Key>, k: Key)
    ensures Total(ks + [k]) == Total(ks) + k.1
    ensures Total([]) == 0
  {
    assert (ks + [k])[..|ks|] == ks;
  }

  /** A well-formed image never runs out of budget: every one of its sections is accepted. */
  lemma LegitimateAccepted(image: Bytes, base: nat, calls: seq<Call>)
    requires AllFit(image, base, calls) && Legitimate(image, base, calls) && calls != []
    ensures Decides(image, base, Meets(image, base, calls), calls[|calls| - 1])
  {
    LegitimateRun(image, base, calls);
    MemoRefinesWalk(image, base, calls);
    assert FreshWalk(image, base, calls[|calls| - 1].key, calls[|calls| - 1].fields, calls[|calls| - 1].methods);
  }

  /** A handle of an accepted kind, for field 5, and one of no known kind. */
  const GOOD_ENTRY: Bytes := [0, 0, 0, 0, 5, 0, 0, 0]
  const BAD_ENTRY: Bytes := [0xff, 0xff, 0, 0, 5, 0, 0, 0]

  /** One self-contained dex after the other: a header with whatever follows it, then a
      section of one handle. */
  function TwoDexes(head: Bytes, head2: Bytes): Bytes {
    head + GOOD_ENTRY + head2 + BAD_ENTRY
  }

  /** The headers claim their own dex and no container. */
  ghost predicate Heads(head: Bytes, head2: Bytes) {
    && |head| == |head2| && |head| >= HEADER && |head| % 4 == 0
    && U4(head, 0x20) == |head| + ENTRY == U4(head2, 0x20)
    && U4(head, 0x24) < HEADER && U4(head2, 0x24) < HEADER
  }

  /** A plain header: 0x80 bytes of file, a header size of 0x70. */
  function PlainHead(): Bytes {
    seq(HEADER, i => if i == 0x20 then 0x80 else if i == 0x24 then 0x70 else 0)
  }

  lemma HeadsExist()
    ensures Heads(PlainHead(), PlainHead())
  {
    var h := PlainHead();
    assert U4(h, 0x20) == 0x80 && U4(h, 0x24) == 0x70;
  }

  lemma U4Inside(s: Bytes, t: Bytes, p: nat, q: nat)
    requires p + 4 <= |s| && q + 4 <= |t| && s[p..p + 4] == t[q..q + 4]
    ensures U4(s, p) == U4(t, q)
  {
    assert s[p..p + 4][0] == s[p] && s[p..p + 4][1] == s[p + 1] && s[p..p + 4][2] == s[p + 2]
      && s[p..p + 4][3] == s[p + 3];
  }

  /** The image is cut into these two dexes, each with its own data base. */
  lemma TwoDexesCut(head: Bytes, head2: Bytes)
    requires Heads(head, head2)
    ensures var s, n := TwoDexes(head, head2), |head| + ENTRY;
      && Holds(s, 0) && Holds(s, n) && SliceAt(s, 0).selfContained && SliceAt(s, n).selfContained
      && SliceAt(s, 0).End() == n && SliceAt(s, n).End() == |s|
  {
    var s, n := TwoDexes(head, head2), |head| + ENTRY;
    assert s[..|head|] == head && s[n..n + |head2|] == head2;
    assert s[0x20..0x24] == head[0x20..0x24] && s[0x24..0x28] == head[0x24..0x28];
    assert s[n + 0x20..n + 0x24] == head2[0x20..0x24] && s[n + 0x24..n + 0x28] == head2[0x24..0x28];
    hide U4, TwoDexes;
    U4Inside(s, head, 0x20, 0x20);
    U4Inside(s, head, 0x24, 0x24);
    U4Inside(s, head2, n + 0x20, 0x20);
    U4Inside(s, head2, n + 0x24, 0x24);
  }

  lemma TwoDexesEntries(head: Bytes, head2: Bytes)
    requires |head| == |head2|
    ensures var s, n := TwoDexes(head, head2), |head|;
      && |s| == 2 * n + 2 * ENTRY
      && Kind(s, n) == 0 && Member(s, n) == 5 && Kind(s, 2 * n + ENTRY) == 0xffff
  {
    var s, n := TwoDexes(head, head2), |head|;
    assert s[n..n + ENTRY] == GOOD_ENTRY && s[2 * n + ENTRY..2 * n + 2 * ENTRY] == BAD_ENTRY;
    assert s[n] == GOOD_ENTRY[0] && s[n + 1] == GOOD_ENTRY[1] && s[n + 4] == GOOD_ENTRY[4] && s[n + 5] == GOOD_ENTRY[5];
    assert s[2 * n + ENTRY] == BAD_ENTRY[0] && s[2 * n + ENTRY + 1] == BAD_ENTRY[1];
  }

  /** The key is an offset from the data base. Two verifiers over one such image, the state
      seeded as they are made, name different bytes by the same key: the second accepts its
      section unwalked, though a walk of it fails. */
  lemma MemoAcrossBases(head: Bytes, head2: Bytes)
    requires Heads(head, head2)
    ensures var s, c := TwoDexes(head, head2), Call((|head|, 1), 6, 0);
      var base2 := |head| + ENTRY;
      && Fits(s, 0, c.key) && Fits(s, base2, c.key)
      && var first := Seeded(State(map[], 0), |s|);
         var second := Seeded(After(s, 0, first, c), |s|);
         Decides(s, 0, first, c) && Decides(s, base2, second, c) && !FreshWalk(s, base2, c.key, c.fields, c.methods)
  {
    var s, c := TwoDexes(head, head2), Call((|head|, 1), 6, 0);
    TwoDexesEntries(head, head2);
    hide TwoDexes, Kind, Member, U2;
    assert Walk(s, |head| + ENTRY, 0, 6, 0) && NeedsFrom(s, |head| + ENTRY, 0) == Needs(0, 0);
    assert FreshWalk(s, 0, c.key, 6, 0);
  }

  /** What the memo holds for a section decides as a fresh walk of the bytes at base `b`. */
  ghost predicate Serves(image: Bytes, b: nat, k: Key, n: Needs)
    requires Fits(image, b, k)
  {
    forall fields: nat, methods: nat :: FreshWalk(image, b, k, fields, methods) <==>
      n.fields <= fields && n.methods <= methods
  }

  /** A remembered section serves a slice with another base exactly when the bytes there
      have known kinds and the same needs. */
  lemma ServesIffSameNeeds(image: Bytes, b: nat, k: Key, n: Needs)
    requires Fits(image, b, k)
    ensures Serves(image, b, k, n) <==> KindsOk(image, b + k.0, k.1) && NeedsFrom(image, b + k.0, k.1) == n
  {
    hide Walk, NeedsFrom, KindsOk;
    var m := NeedsFrom(image, b + k.0, k.1);
    forall fields: nat, methods: nat
      ensures FreshWalk(image, b, k, fields, methods) <==>
        KindsOk(image, b + k.0, k.1) && m.fields <= fields && m.methods <= methods
    {
      WalkByNeeds(image, b + k.0, k.1, fields, methods);
    }
    if Serves(image, b, k, n) {
      assert FreshWalk(image, b, k, n.fields, n.methods);
      assert FreshWalk(image, b, k, m.fields, m.methods);
    }
  }

  /** A slice's section, with the data base of its verifier. */
  datatype Visit = Visit(base: nat, call: Call)

  ghost predicate VisitsFit(image: Bytes, vs: seq<Visit>) {
    forall i :: 0 <= i < |vs| ==> Fits(image, vs[i].base, vs[i].call.key)
  }

  /** The state once the slices are checked in turn, whatever their bases. */
  function AfterVisits(image: Bytes, vs: seq<Visit>): State
    requires VisitsFit(image, vs)
    decreases |vs|
  {
    if vs == [] then State(map[], 0)
    else
      var v := vs[|vs| - 1];
      After(image, v.base, Finds(image, vs), v.call)
  }

  /** The state the last slice's verifier finds. */
  function Finds(image: Bytes, vs: seq<Visit>): State
    requires VisitsFit(image, vs) && vs != []
    decreases |vs|, 0
  {
    Seeded(AfterVisits(image, vs[..|vs| - 1]), |image|)
  }

  /** The base at which the section of this key was first walked and accepted. */
  function FirstBase(image: Bytes, vs: seq<Visit>, k: Key): Option<nat>
    requires VisitsFit(image, vs)
    decreases |vs|
  {
    if vs == [] then None
    else
      var v, before := vs[|vs| - 1], FirstBase(image, vs[..|vs| - 1], k);
      if before.Some? then before
      else if v.call.key == k && !Refused(Finds(image, vs), v.call)
           && FreshWalk(image, v.base, k, v.call.fields, v.call.methods) then Some(v.base)
      else None
  }

  /** What the state remembers of a section: what the bytes at its first base need. */
  ghost predicate Remembers(image: Bytes, st: State, k: Key, base: Option<nat>) {
    && (k in st.memo <==> base.Some?)
    && (base.Some? ==> Fits(image, base.value, k) && KindsOk(image, base.value + k.0, k.1)
                       && st.memo[k] == NeedsFrom(image, base.value + k.0, k.1))
  }

  /** In every run, over any bases, the memo holds for each section what it needed where it
      was first accepted. */
  lemma {:induction false} VisitsRemember(image: Bytes, vs: seq<Visit>, k: Key)
    requires VisitsFit(image, vs)
    ensures Remembers(image, AfterVisits(image, vs), k, FirstBase(image, vs, k))
    decreases |vs|
  {
    if vs != [] {
      var v := vs[|vs| - 1];
      VisitsRemember(image, vs[..|vs| - 1], k);
      WalkByNeeds(image, v.base + v.call.key.0, v.call.key.1, v.call.fields, v.call.methods);
      hide Walk, NeedsFrom, KindsOk, Seed;
    }
  }

  /** The last verdict is the fresh walk's at the slice's own base, unless refused. */
  predicate VerdictHolds(image: Bytes, vs: seq<Visit>, fields: nat, methods: nat)
    requires VisitsFit(image, vs) && vs != []
  {
    var v := vs[|vs| - 1];
    var c := Call(v.call.key, fields, methods);
    Decides(image, v.base, Finds(image, vs), c) <==>
    FreshWalk(image, v.base, c.key, fields, methods) && !Refused(Finds(image, vs), c)
  }

  /** The section needs the same at both bases. */
  predicate NeedsAlike(image: Bytes, k: Key, a: nat, b: nat)
    requires Fits(image, a, k) && Fits(image, b, k)
  {
    KindsOk(image, b + k.0, k.1) && NeedsFrom(image, a + k.0, k.1) == NeedsFrom(image, b + k.0, k.1)
  }

  /** One verdict, for one pair of tables. */
  lemma VerdictAt(image: Bytes, vs: seq<Visit>, f: nat, m: nat)
    requires VisitsFit(image, vs) && vs != []
    ensures var v := vs[|vs| - 1];
      var k, first := v.call.key, FirstBase(image, vs[..|vs| - 1], v.call.key);
      && (first.Some? ==> Fits(image, first.value, k))
      && (VerdictHolds(image, vs, f, m) <==>
            first.Some? ==> (FreshWalk(image, first.value, k, f, m) <==> FreshWalk(image, v.base, k, f, m)))
  {
    var v := vs[|vs| - 1];
    var k, first := v.call.key, FirstBase(image, vs[..|vs| - 1], v.call.key);
    VisitsRemember(image, vs[..|vs| - 1], k);
    FindsMemo(image, vs);
    if first.Some? { WalkByNeeds(image, first.value + k.0, k.1, f, m); }
    hide Walk, NeedsFrom, KindsOk, Seed, AfterVisits, FirstBase, Finds;
  }

  /** Over any sequence of slices and bases, a verdict is the fresh walk's, unless refused, if
      and only if the section was not accepted before or passes at the slice's own base just
      when it passes where it was first accepted; and whatever the slice's tables, if and only
      if it needs the same at both. */
  lemma VerdictIffAlike(image: Bytes, vs: seq<Visit>)
    requires VisitsFit(image, vs) && vs != []
    ensures var v := vs[|vs| - 1];
      var k, first := v.call.key, FirstBase(image, vs[..|vs| - 1], v.call.key);
      && (first.Some? ==> Fits(image, first.value, k))
      && (forall f: nat, m: nat :: VerdictHolds(image, vs, f, m) <==>
            first.Some? ==> (FreshWalk(image, first.value, k, f, m) <==> FreshWalk(image, v.base, k, f, m)))
      && ((forall f: nat, m: nat :: VerdictHolds(image, vs, f, m)) <==>
            first.Some? ==> NeedsAlike(image, k, first.value, v.base))
  {
    hide *;
    LastFits(image, vs);
    var v := vs[|vs| - 1];
    var k, first := v.call.key, FirstBase(image, vs[..|vs| - 1], v.call.key);
    VerdictAt(image, vs, 0, 0);
    forall f: nat, m: nat
      ensures VerdictHolds(image, vs, f, m) <==>
        first.Some? ==> (FreshWalk(image, first.value, k, f, m) <==> FreshWalk(image, v.base, k, f, m))
    {
      VerdictAt(image, vs, f, m);
    }
    if first.Some? {
      VisitsRemember(image, vs[..|vs| - 1], k);
      AlikeIffWalks(image, k, first.value, v.base, AfterVisits(image, vs[..|vs| - 1]));
    }
  }

  lemma LastFits(image: Bytes, vs: seq<Visit>)
    requires VisitsFit(image, vs) && vs != []
    ensures VisitsFit(image, vs[..|vs| - 1]) && Fits(image, vs[|vs| - 1].base, vs[|vs| - 1].call.key)
  {
  }

  /** Two bases need the same if and only if they pass the same tables. */
  lemma AlikeIffWalks(image: Bytes, k: Key, a: nat, b: nat, st: State)
    requires Fits(image, a, k) && Fits(image, b, k) && Remembers(image, st, k, Some(a))
    ensures NeedsAlike(image, k, a, b) <==>
      forall f: nat, m: nat :: FreshWalk(image, a, k, f, m) <==> FreshWalk(image, b, k, f, m)
  {
    var n := NeedsFrom(image, a + k.0, k.1);
    ServesIffSameNeeds(image, a, k, n);
    ServesIffSameNeeds(image, b, k, n);
    hide Walk, NeedsFrom, KindsOk, FreshWalk, Serves;
    SameServes(image, a, b, k, n);
  }

  lemma FindsMemo(image: Bytes, vs: seq<Visit>)
    requires VisitsFit(image, vs) && vs != []
    ensures Finds(image, vs).memo == AfterVisits(image, vs[..|vs| - 1]).memo
  {
  }

  /** Needs that decide at one base decide at another if and only if the walks do. */
  lemma SameServes(image: Bytes, a: nat, b: nat, k: Key, n: Needs)
    requires Fits(image, a, k) && Fits(image, b, k) && Serves(image, a, k, n)
    ensures Serves(image, b, k, n) <==>
      forall f: nat, m: nat :: FreshWalk(image, a, k, f, m) <==> FreshWalk(image, b, k, f, m)
  {
    hide FreshWalk;
  }
}
