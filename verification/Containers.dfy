/** Multi-dex images: cutting an image into its logical dexes, following what the Android
    runtime would open of them, and keeping v41 containers whole. */
module Containers {
  import opened EncodedValue
  import opened Sequences
  import opened CodeItem

  const HEADER: nat := 0x78

  datatype Mode = Isolated | Runtime

  /** One logical dex. `own` tells whether the runtime would open it judged on its own,
      `open` whether it would in sequence. */
  datatype Slice = Slice(offset: nat, size: nat, selfContained: bool, lastEntry: bool, begin: nat, end: nat, ok: bool,
    own: bool, open: bool) {
    function End(): nat {
      offset + size
    }
  }

  /** The slice whose header is at `off`, not judged yet. */
  function SliceAt(s: Bytes, off: nat): (r: Slice)
    requires off + HEADER <= |s|
    ensures r.offset == off
  {
    var size := U4(s, off + 0x20);
    var self := U4(s, off + 0x24) < HEADER;
    var containerOff := if self then 0 else U4(s, off + 0x74);
    var containerSize := if self then size else U4(s, off + 0x70);
    var begin := if containerOff <= off then off - containerOff else off;
    Slice(off, size, self, self || containerOff + size == containerSize, begin,
          if self then off + size else begin + containerSize, false, false, false)
  }

  /** There is room for a header at `off`, and for all the file size in it claims. */
  predicate Holds(s: Bytes, off: nat) {
    off + HEADER <= |s| && U4(s, off + 0x20) >= HEADER && off + U4(s, off + 0x20) <= |s|
  }

  /** The slices from `off` on. */
  function Split(s: Bytes, off: nat): seq<Slice>
    decreases |s| - off
  {
    if !Holds(s, off) then []
    else [SliceAt(s, off)] + Split(s, off + SliceAt(s, off).size)
  }

  method LogicalDexSlices(s: Bytes) returns (slices: seq<Slice>)
    ensures slices == Split(s, 0)
  {
    hide Split, SliceAt, U4;
    slices := [];
    var off := 0;
    while true
      invariant off <= |s| && slices + Split(s, off) == Split(s, 0)
      decreases |s| - off
    {
      SplitUnfolds(s, off);
      if off + HEADER > |s| { break; }
      var size := U4(s, off + 0x20);
      if size < HEADER || off + size > |s| { break; }
      slices := slices + [SliceAt(s, off)];
      off := off + size;
      SplitUnfolds(s, off);
      if off >= |s| { break; }
    }
  }

  lemma SplitUnfolds(s: Bytes, off: nat)
    ensures Holds(s, off) ==> SliceAt(s, off).size == U4(s, off + 0x20)
    ensures Split(s, off) == if Holds(s, off) then [SliceAt(s, off)] + Split(s, off + SliceAt(s, off).size) else []
  {
  }

  /** Slices lie end to end from `off` on, each with room for its header, inside `n` bytes. */
  ghost predicate EndToEnd(slices: seq<Slice>, off: nat, n: nat) {
    && (slices != [] ==> slices[0].offset == off)
    && (forall i :: 0 <= i < |slices| ==> slices[i].size >= HEADER && slices[i].End() <= n)
    && forall i: nat :: i + 1 < |slices| ==> Touch(slices, i)
  }

  predicate Touch(slices: seq<Slice>, i: nat)
    requires i + 1 < |slices|
  {
    slices[i].End() == slices[i + 1].offset
  }

  /** The cut is end to end, and what follows it holds no further dex. */
  lemma {:induction false} SplitIsMaximal(s: Bytes, off: nat)
    ensures EndToEnd(Split(s, off), off, |s|)
    ensures !Holds(s, if Split(s, off) == [] then off else Split(s, off)[|Split(s, off)| - 1].End())
    decreases |s| - off
  {
    if Holds(s, off) {
      var rest := Split(s, off + SliceAt(s, off).size);
      SplitIsMaximal(s, off + SliceAt(s, off).size);
      var all := Split(s, off);
      assert all == [SliceAt(s, off)] + rest;
      hide Split, SliceAt, Holds;
      forall i: nat | i + 1 < |all| ensures Touch(all, i) {
        if i > 0 { assert Touch(rest, i - 1); }
      }
    }
  }

  /** Offsets rise. */
  ghost predicate Rising(slices: seq<Slice>) {
    forall i, j :: 0 <= i < j < |slices| ==> slices[i].offset < slices[j].offset
  }

  lemma {:induction false} EndToEndRises(slices: seq<Slice>, off: nat, n: nat, i: nat, j: nat)
    requires EndToEnd(slices, off, n) && i < j < |slices|
    ensures slices[i].offset < slices[j].offset
    decreases j
  {
    assert Touch(slices, j - 1);
    if i + 1 < j { EndToEndRises(slices, off, n, i, j - 1); }
  }

  lemma SplitRises(s: Bytes)
    ensures Rising(Split(s, 0))
  {
    SplitIsMaximal(s, 0);
    var all := Split(s, 0);
    forall i, j | 0 <= i < j < |all| ensures all[i].offset < all[j].offset {
      EndToEndRises(all, 0, |s|, i, j);
    }
  }

  /** No slice before `i` ends the image. */
  ghost predicate Reads(slices: seq<Slice>, i: nat)
    requires i <= |slices|
  {
    forall k :: 0 <= k < i ==> !slices[k].lastEntry
  }

  /** Slice `i` stops the source: the runtime reads it and cannot open it. */
  ghost predicate Stops(slices: seq<Slice>, i: nat)
    requires i < |slices|
  {
    !slices[i].own && Reads(slices, i)
  }

  /** The runtime opens slice `i`: it reads that far and can open everything up to it. */
  ghost predicate Opens(slices: seq<Slice>, broken: bool, i: nat)
    requires i < |slices|
  {
    !broken && Reads(slices, i) && forall k :: 0 <= k <= i ==> slices[k].own
  }

  /** The image ends the source: it has no dex, or one that stops, or it promises an entry
      it does not hold. */
  ghost predicate Breaks(slices: seq<Slice>) {
    slices == [] || StoppedBy(slices, |slices|) || Reads(slices, |slices|)
  }

  /** One of the first `n` slices stops the source. */
  ghost predicate StoppedBy(slices: seq<Slice>, n: nat)
    requires n <= |slices|
  {
    exists i: nat :: i < n && Stops(slices, i)
  }

  lemma StoppedByMore(slices: seq<Slice>, n: nat)
    requires n < |slices|
    ensures StoppedBy(slices, n + 1) <==> StoppedBy(slices, n) || Stops(slices, n)
  {
  }

  /** What the runtime opens is a beginning of the image. */
  lemma OpensPrefix(slices: seq<Slice>, broken: bool, i: nat, j: nat)
    requires i < j < |slices| && Opens(slices, broken, j)
    ensures Opens(slices, broken, i)
  {
  }

  /** Slice `i` is taken before the sibling rule looks at it. */
  ghost predicate Taken(slices: seq<Slice>, mode: Mode, broken: bool, i: nat)
    requires i < |slices|
  {
    slices[i].ok && (mode == Runtime ==> Opens(slices, broken, i))
  }

  /** Slice `i` belongs to the container that begins at `begin`. */
  predicate MemberOf(slices: seq<Slice>, begin: nat, i: nat)
    requires i < |slices|
  {
    !slices[i].selfContained && slices[i].begin == begin
  }

  predicate StartsIn(slices: seq<Slice>, begin: nat, end: nat, i: nat)
    requires i < |slices|
  {
    begin <= slices[i].offset < end
  }

  /** Slice `c` is the first member of its container. */
  ghost predicate FirstMember(slices: seq<Slice>, begin: nat, c: nat) {
    c < |slices| && MemberOf(slices, begin, c) && forall i :: 0 <= i < c ==> !MemberOf(slices, begin, i)
  }

  /** A container survives, by the all-pairs rule: its range, as its first member declares
      it, fits the image, all its members are taken, and the slices that start in the range
      are exactly its members. */
  ghost predicate Whole(slices: seq<Slice>, n: nat, taken: seq<bool>, begin: nat)
    requires |taken| == |slices|
  {
    && (forall c: nat :: FirstMember(slices, begin, c) ==>
         slices[c].end <= n
         && forall i :: 0 <= i < |slices| ==>
           (StartsIn(slices, begin, slices[c].end, i) <==> MemberOf(slices, begin, i)))
    && forall i :: 0 <= i < |slices| && MemberOf(slices, begin, i) ==> taken[i]
  }

  /** Slice `i` survives: it is taken, and unless every slice is, its container is whole. */
  ghost predicate Survives(slices: seq<Slice>, n: nat, taken: seq<bool>, i: nat)
    requires i < |slices| == |taken|
  {
    taken[i] && (AllTaken(taken) || slices[i].selfContained || Whole(slices, n, taken, slices[i].begin))
  }

  ghost predicate AllTaken(taken: seq<bool>) {
    forall i :: 0 <= i < |taken| ==> taken[i]
  }

  ghost function TakenSeq(slices: seq<Slice>, mode: Mode, broken: bool): (r: seq<bool>)
    ensures |r| == |slices|
  {
    seq(|slices|, i requires 0 <= i < |slices| => Taken(slices, mode, broken, i))
  }

  /** Taking more keeps every survivor. */
  lemma SurvivesMonotone(slices: seq<Slice>, n: nat, fewer: seq<bool>, more: seq<bool>, i: nat)
    requires i < |slices| == |fewer| == |more| && forall k :: 0 <= k < |fewer| ==> fewer[k] ==> more[k]
    requires Survives(slices, n, fewer, i)
    ensures Survives(slices, n, more, i)
  {
  }

  /** Whatever the runtime mode accepts of an image, the isolated mode accepts. */
  lemma RuntimeWithinIsolated(slices: seq<Slice>, n: nat, broken: bool, i: nat)
    requires i < |slices| && Survives(slices, n, TakenSeq(slices, Runtime, broken), i)
    ensures Survives(slices, n, TakenSeq(slices, Isolated, broken), i)
  {
    SurvivesMonotone(slices, n, TakenSeq(slices, Runtime, broken), TakenSeq(slices, Isolated, broken), i);
  }

  /** An image of a source, cut and judged slice by slice. */
  datatype Image = Image(size: nat, slices: seq<Slice>)

  /** One of the first `k` images of a source ends it. */
  ghost predicate BrokenBy(images: seq<Image>, k: nat)
    requires k <= |images|
  {
    exists j :: 0 <= j < k && Breaks(images[j].slices)
  }

  /** The verdict on slice `i` of image `k` of a source. */
  ghost predicate Accepts(images: seq<Image>, mode: Mode, k: nat, i: nat)
    requires k < |images| && i < |images[k].slices|
  {
    Survives(images[k].slices, images[k].size, TakenSeq(images[k].slices, mode, BrokenBy(images, k)), i)
  }

  ghost predicate OpensInSource(images: seq<Image>, k: nat, i: nat)
    requires k < |images| && i < |images[k].slices|
  {
    Opens(images[k].slices, BrokenBy(images, k), i)
  }

  /** Over any list of images of one source, the runtime mode accepts a subset of what the
      isolated mode does. */
  lemma SourceRuntimeWithinIsolated(images: seq<Image>, k: nat, i: nat)
    requires k < |images| && i < |images[k].slices| && Accepts(images, Runtime, k, i)
    ensures Accepts(images, Isolated, k, i)
    ensures OpensInSource(images, k, i)
  {
    RuntimeWithinIsolated(images[k].slices, images[k].size, BrokenBy(images, k), i);
  }

  /** Nothing opens after the image, or the slice, that ends the source. */
  lemma NothingAfterBreak(images: seq<Image>, k: nat, i: nat, l: nat, j: nat)
    requires k <= l < |images| && i < |images[k].slices| && j < |images[l].slices|
    requires Stops(images[k].slices, i) && (k == l ==> i <= j)
    ensures !OpensInSource(images, l, j)
  {
    if k < l { assert Breaks(images[k].slices); }
  }

  /** Every range runs forward. */
  ghost predicate Forward(slices: seq<Slice>) {
    forall i :: 0 <= i < |slices| ==> slices[i].begin <= slices[i].end
  }

  lemma {:induction false} SplitForward(s: Bytes, off: nat)
    ensures Forward(Split(s, off))
    decreases |s| - off
  {
    if Holds(s, off) {
      SplitForward(s, off + SliceAt(s, off).size);
      assert SliceAt(s, off).begin <= SliceAt(s, off).end;
      assert Split(s, off) == [SliceAt(s, off)] + Split(s, off + SliceAt(s, off).size);
    }
  }

  /** The first slice whose offset is at least `off`, by halving. */
  method FirstAt(slices: seq<Slice>, off: nat) returns (lo: nat)
    requires Rising(slices)
    ensures lo <= |slices|
    ensures forall i :: 0 <= i < |slices| ==> (slices[i].offset < off <==> i < lo)
  {
    var hi := |slices|;
    lo := 0;
    while lo < hi
      invariant lo <= hi <= |slices|
      invariant forall i :: 0 <= i < lo ==> slices[i].offset < off
      invariant forall i :: hi <= i < |slices| ==> slices[i].offset >= off
    {
      var mid := lo + (hi - lo) / 2;
      if slices[mid].offset < off { lo := mid + 1; } else { hi := mid; }
    }
  }

  /** How many of the ascending `idx` are below `x`. */
  method LowerBound(idx: seq<nat>, x: nat) returns (lo: nat)
    requires Ascending(idx)
    ensures lo <= |idx|
    ensures forall k :: 0 <= k < |idx| ==> (idx[k] < x <==> k < lo)
  {
    var hi := |idx|;
    lo := 0;
    while lo < hi
      invariant lo <= hi <= |idx|
      invariant forall k :: 0 <= k < lo ==> idx[k] < x
      invariant forall k :: hi <= k < |idx| ==> idx[k] >= x
    {
      var mid := lo + (hi - lo) / 2;
      if idx[mid] < x { lo := mid + 1; } else { hi := mid; }
    }
  }

  /** `idx` lists the members of a container. */
  ghost predicate Lists(slices: seq<Slice>, begin: nat, idx: seq<nat>) {
    Ascending(idx) && forall i: nat :: i in idx <==> i < |slices| && MemberOf(slices, begin, i)
  }

  ghost function OkSeq(slices: seq<Slice>): (r: seq<bool>)
    ensures |r| == |slices|
  {
    seq(|slices|, i requires 0 <= i < |slices| => slices[i].ok)
  }

  /** Counting members inside a run of slices tells whether the run is exactly the
      members. */
  lemma CountsTell(idx: seq<nat>, lo: nat, hi: nat, a: nat, b: nat)
    requires Ascending(idx) && lo <= hi && a <= b <= |idx|
    requires forall k :: 0 <= k < |idx| ==> (idx[k] < lo <==> k < a) && (idx[k] < hi <==> k < b)
    ensures b - a == hi - lo && b - a == |idx| <==> forall x: nat :: x in idx <==> lo <= x < hi
  {
    if b - a == hi - lo && b - a == |idx| {
      FillsRange(idx, lo, hi);
    }
    if forall x: nat :: x in idx <==> lo <= x < hi {
      RangeLength(idx, lo, hi);
      if |idx| > 0 { assert idx[0] in idx && idx[|idx| - 1] in idx; }
    }
  }

  lemma FirstListed(slices: seq<Slice>, begin: nat, idx: seq<nat>)
    requires Lists(slices, begin, idx) && idx != []
    ensures forall c: nat :: FirstMember(slices, begin, c) <==> c == idx[0]
  {
    assert idx[0] in idx;
    forall i: nat | i < |slices| && MemberOf(slices, begin, i) ensures idx[0] <= i {
      assert i in idx;
    }
  }

  /** Whether a container survives: its members counted against the run of slices in its
      range. */
  method ContainerIsWhole(slices: seq<Slice>, n: nat, begin: nat, idx: seq<nat>) returns (whole: bool)
    requires Rising(slices) && Forward(slices) && Lists(slices, begin, idx) && idx != []
    ensures whole <==> Whole(slices, n, OkSeq(slices), begin)
  {
    assert idx[0] in idx;
    FirstListed(slices, begin, idx);
    var c := slices[idx[0]];
    whole := c.end <= n;
    var allOk := true;
    for k := 0 to |idx|
      invariant allOk <==> forall j :: 0 <= j < k ==> idx[j] in idx && slices[idx[j]].ok
    {
      assert idx[k] in idx;
      allOk := allOk && slices[idx[k]].ok;
    }
    whole := whole && allOk;
    MembersOk(slices, begin, idx);
    var lo := FirstAt(slices, begin);
    var hi := FirstAt(slices, c.end);
    RunBounds(slices, begin, c.end, lo, hi);
    var inLo := LowerBound(idx, lo);
    var inHi := LowerBound(idx, hi);
    BoundsRise(idx, lo, hi, inLo, inHi);
    var inside := inHi - inLo;
    CountsTell(idx, lo, hi, inLo, inHi);
    if inside != hi - lo || inside != |idx| { whole := false; }
    hide StartsIn, MemberOf, FirstMember, Rising, Forward;
  }

  lemma MembersOk(slices: seq<Slice>, begin: nat, idx: seq<nat>)
    requires Lists(slices, begin, idx)
    ensures (forall j :: 0 <= j < |idx| ==> idx[j] in idx && slices[idx[j]].ok) <==>
      forall i :: 0 <= i < |slices| && MemberOf(slices, begin, i) ==> OkSeq(slices)[i]
  {
    forall j | 0 <= j < |idx| ensures idx[j] in idx { }
  }

  /** The slices that start in a range are a run of indices. */
  lemma RunBounds(slices: seq<Slice>, begin: nat, end: nat, lo: nat, hi: nat)
    requires begin <= end && lo <= |slices| && hi <= |slices|
    requires forall i :: 0 <= i < |slices| ==> (slices[i].offset < begin <==> i < lo)
    requires forall i :: 0 <= i < |slices| ==> (slices[i].offset < end <==> i < hi)
    ensures lo <= hi && forall i :: 0 <= i < |slices| ==> (StartsIn(slices, begin, end, i) <==> lo <= i < hi)
  {
    assert hi < |slices| ==> slices[hi].offset >= end;
  }

  lemma BoundsRise(idx: seq<nat>, lo: nat, hi: nat, a: nat, b: nat)
    requires lo <= hi && a <= |idx| && b <= |idx|
    requires forall k :: 0 <= k < |idx| ==> (idx[k] < lo <==> k < a)
    requires forall k :: 0 <= k < |idx| ==> (idx[k] < hi <==> k < b)
    ensures a <= b
  {
    assert b < |idx| ==> idx[b] >= hi;
  }

  /** Where a source's opening has got to. */
  class ArtSequence {
    const mode: Mode
    var broken: bool

    constructor (mode: Mode)
      ensures this.mode == mode && !broken
    {
      this.mode := mode;
      broken := false;
    }

    method Break()
      modifies this
      ensures broken
    {
      broken := true;
    }
  }

  /** The slices as the sequence rule leaves them, `i` of them dealt with. */
  ghost predicate Sequenced(slices: seq<Slice>, mode: Mode, broken: bool, i: nat, r: seq<Slice>)
    requires i <= |slices| == |r|
  {
    && (forall k :: 0 <= k < i ==>
          r[k] == slices[k].(ok := Taken(slices, mode, broken, k), open := Opens(slices, broken, k)))
    && forall k :: i <= k < |r| ==> r[k] == slices[k]
  }

  /** The sequence rule over the slices of one image. */
  method FollowSequence(slices: seq<Slice>, art: ArtSequence) returns (r: seq<Slice>, imageEnded: bool)
    modifies art
    ensures |r| == |slices| && Sequenced(slices, art.mode, old(art.broken), |slices|, r)
    ensures art.broken <==> old(art.broken) || StoppedBy(slices, |slices|)
    ensures imageEnded <==> |slices| > 0 && !Reads(slices, |slices| - 1)
  {
    hide Opens, StoppedBy, Sequenced;
    NoneStopped(slices);
    SequencedNone(slices, art.mode, art.broken);
    r := slices;
    imageEnded := false;
    for i := 0 to |slices|
      invariant |r| == |slices| && Sequenced(slices, art.mode, old(art.broken), i, r)
      invariant imageEnded <==> i > 0 && !Reads(slices, i - 1)
      invariant art.broken <==> old(art.broken) || StoppedBy(slices, i)
    {
      if i > 0 && slices[i - 1].lastEntry { imageEnded := true; }
      assert imageEnded <==> !Reads(slices, i);
      OpensNext(slices, old(art.broken), i);
      StoppedByMore(slices, i);
      var open := true;
      if art.broken {
        open := false;
      } else if imageEnded {
        open := false;
      } else if !slices[i].own {
        art.Break();
        open := false;
      }
      ghost var before := r;
      SequencedNext(slices, art.mode, old(art.broken), i, r);
      r := r[i := r[i].(open := open)];
      if art.mode == Runtime && r[i].ok && !open {
        r := r[i := r[i].(ok := false)];
      }
      SequencedMore(slices, art.mode, old(art.broken), i, before, r);
    }
  }

  lemma SequencedNone(slices: seq<Slice>, mode: Mode, broken: bool)
    ensures Sequenced(slices, mode, broken, 0, slices)
  {
  }

  lemma SequencedNext(slices: seq<Slice>, mode: Mode, broken: bool, i: nat, r: seq<Slice>)
    requires i < |slices| == |r| && Sequenced(slices, mode, broken, i, r)
    ensures r[i] == slices[i]
  {
  }

  lemma SequencedMore(slices: seq<Slice>, mode: Mode, broken: bool, i: nat, r: seq<Slice>, r': seq<Slice>)
    requires i < |slices| == |r| == |r'| && Sequenced(slices, mode, broken, i, r)
    requires r' == r[i := slices[i].(ok := Taken(slices, mode, broken, i), open := Opens(slices, broken, i))]
    ensures Sequenced(slices, mode, broken, i + 1, r')
  {
    hide Taken, Opens;
  }

  lemma NoneStopped(slices: seq<Slice>)
    ensures !StoppedBy(slices, 0)
  {
  }

  /** Slice `i` opens when nothing before it stops the source or ends the image, and it
      opens by itself. */
  lemma OpensNext(slices: seq<Slice>, broken: bool, i: nat)
    requires i < |slices|
    ensures Opens(slices, broken, i) <==> !broken && !StoppedBy(slices, i) && Reads(slices, i) && slices[i].own
  {
    if !broken && !StoppedBy(slices, i) && Reads(slices, i) && slices[i].own {
      forall k | 0 <= k <= i ensures slices[k].own {
        assert k < i ==> !Stops(slices, k);
      }
    }
    assert Opens(slices, broken, i) ==> forall k: nat :: k < i ==> !Stops(slices, k);
  }

  /** The containers of an image, each with its members in order. */
  method Members(slices: seq<Slice>) returns (members: map<nat, seq<nat>>)
    ensures forall b :: b in members ==> members[b] != [] && Lists(slices, b, members[b])
    ensures forall i :: 0 <= i < |slices| && !slices[i].selfContained ==> slices[i].begin in members
  {
    members := map[];
    for i := 0 to |slices|
      invariant forall b :: b in members ==> members[b] != [] && ListsTo(slices, b, members[b], i)
      invariant forall k :: 0 <= k < i && !slices[k].selfContained ==> slices[k].begin in members
      invariant forall b: nat :: b !in members ==> ListsTo(slices, b, [], i)
    {
      var b := slices[i].begin;
      if !slices[i].selfContained {
        var before := if b in members then members[b] else [];
        AscendingMore(before, i);
        members := members[b := before + [i]];
      }
    }
  }

  ghost predicate ListsTo(slices: seq<Slice>, begin: nat, idx: seq<nat>, n: nat)
    requires n <= |slices|
  {
    Ascending(idx) && forall i: nat :: i in idx <==> i < n && MemberOf(slices, begin, i)
  }

  /** The sibling rule: the members of every container that is not whole. */
  method BadMembers(slices: seq<Slice>, n: nat) returns (bad: seq<bool>)
    requires Rising(slices) && Forward(slices)
    ensures |bad| == |slices|
    ensures forall i :: 0 <= i < |slices| ==>
      (bad[i] <==> !slices[i].selfContained && !Whole(slices, n, OkSeq(slices), slices[i].begin))
  {
    hide Rising, Forward, Whole;
    var members := Members(slices);
    bad := seq(|slices|, _ => false);
    var left := members.Keys;
    while left != {}
      invariant left <= members.Keys && |bad| == |slices|
      invariant forall i :: 0 <= i < |slices| ==>
        (bad[i] <==>
         !slices[i].selfContained && slices[i].begin !in left && !Whole(slices, n, OkSeq(slices), slices[i].begin))
      decreases |left|
    {
      var begin :| begin in left;
      var idx := members[begin];
      var whole := ContainerIsWhole(slices, n, begin, idx);
      left := left - {begin};
      if !whole {
        for k := 0 to |idx|
          invariant |bad| == |slices|
          invariant forall i :: 0 <= i < |slices| ==>
            (bad[i] <==> !slices[i].selfContained
                         && (slices[i].begin !in left + {begin} || i in idx[..k])
                           && !Whole(slices, n, OkSeq(slices), slices[i].begin))
        {
          assert idx[k] in idx && idx[..k + 1] == idx[..k] + [idx[k]];
          bad := bad[idx[k] := true];
        }
        assert idx[..|idx|] == idx;
      }
    }
  }

  /** Judges the slices of one image of a source, each with its own verdict already:
      the runtime's sequence first, then the sibling rule. */
  method ClassifySourceImage(slices: seq<Slice>, n: nat, art: ArtSequence) returns (r: seq<Slice>)
    requires Rising(slices) && Forward(slices)
    modifies art
    ensures |r| == |slices|
    ensures forall i :: 0 <= i < |r| ==>
      (r[i].ok <==> Survives(slices, n, TakenSeq(slices, art.mode, old(art.broken)), i))
    ensures forall i :: 0 <= i < |r| ==> (r[i].open <==> Opens(slices, old(art.broken), i))
    ensures forall i :: 0 <= i < |r| ==> r[i] == slices[i].(ok := r[i].ok, open := r[i].open)
    ensures art.broken <==> old(art.broken) || Breaks(slices)
  {
    hide *;
    if slices == [] {
      art.Break();
      NothingBreaks(slices);
      return slices;
    }
    var sequenced, imageEnded := FollowSequence(slices, art);
    if !art.broken && !imageEnded && !slices[|slices| - 1].lastEntry {
      art.Break();
    }
    BreaksIs(slices, imageEnded);
    SequencedShape(slices, art.mode, old(art.broken), sequenced);
    var rejected := CountRejected(sequenced);
    r := sequenced;
    if rejected != 0 {
      var bad := BadMembers(sequenced, n);
      r := DropBad(sequenced, bad);
      DroppedIs(sequenced, n, bad, r);
    }
    RulesAgree(slices, n, art.mode, old(art.broken), sequenced, rejected, r);
  }

  lemma NothingBreaks(slices: seq<Slice>)
    ensures slices == [] ==> Breaks(slices)
  {
  }

  lemma BreaksIs(slices: seq<Slice>, imageEnded: bool)
    requires slices != [] && (imageEnded <==> !Reads(slices, |slices| - 1))
    ensures Breaks(slices) <==> StoppedBy(slices, |slices|) || (!imageEnded && !slices[|slices| - 1].lastEntry)
  {
  }

  /** The slices differ at most in what was judged of them. */
  ghost predicate SameBut(slices: seq<Slice>, r: seq<Slice>) {
    |r| == |slices| && forall i :: 0 <= i < |r| ==> r[i] == slices[i].(ok := r[i].ok, open := r[i].open)
  }

  lemma SequencedShape(slices: seq<Slice>, mode: Mode, broken: bool, r: seq<Slice>)
    requires |r| == |slices| && Sequenced(slices, mode, broken, |slices|, r)
    ensures SameBut(slices, r) && OkSeq(r) == TakenSeq(slices, mode, broken)
    ensures Rising(slices) ==> Rising(r)
    ensures Forward(slices) ==> Forward(r)
  {
    hide Taken, Opens;
  }

  /** Being whole does not depend on what was judged. */
  lemma SameWhole(slices: seq<Slice>, r: seq<Slice>, n: nat, taken: seq<bool>, begin: nat)
    requires SameBut(slices, r) && |taken| == |slices|
    ensures Whole(r, n, taken, begin) <==> Whole(slices, n, taken, begin)
  {
    assert forall i: nat :: i < |r| ==> (MemberOf(r, begin, i) <==> MemberOf(slices, begin, i));
    assert forall c: nat :: FirstMember(r, begin, c) <==> FirstMember(slices, begin, c);
    forall i: nat, end: nat | i < |r| ensures StartsIn(r, begin, end, i) <==> StartsIn(slices, begin, end, i) { }
    hide MemberOf, FirstMember, StartsIn;
  }

  method CountRejected(slices: seq<Slice>) returns (rejected: nat)
    ensures rejected == 0 <==> AllTaken(OkSeq(slices))
  {
    rejected := 0;
    for i := 0 to |slices|
      invariant rejected == 0 <==> forall k :: 0 <= k < i ==> slices[k].ok
    {
      rejected := rejected + if slices[i].ok then 0 else 1;
    }
    assert forall k :: 0 <= k < |slices| ==> OkSeq(slices)[k] == slices[k].ok;
  }

  method DropBad(slices: seq<Slice>, bad: seq<bool>) returns (r: seq<Slice>)
    requires |bad| == |slices|
    ensures Dropped(slices, bad, r)
  {
    r := slices;
    for i := 0 to |r|
      invariant |r| == |slices|
      invariant forall k :: 0 <= k < i ==> r[k] == slices[k].(ok := slices[k].ok && !bad[k])
      invariant forall k :: i <= k < |r| ==> r[k] == slices[k]
    {
      if r[i].ok && bad[i] {
        r := r[i := r[i].(ok := false)];
      }
    }
  }

  ghost predicate Dropped(slices: seq<Slice>, bad: seq<bool>, r: seq<Slice>)
    requires |bad| == |slices|
  {
    |r| == |slices| && forall k :: 0 <= k < |r| ==> r[k] == slices[k].(ok := slices[k].ok && !bad[k])
  }

  ghost predicate DroppedBad(slices: seq<Slice>, n: nat, r: seq<Slice>) {
    |r| == |slices| && forall k :: 0 <= k < |r| ==>
      r[k] == slices[k].(
        ok := slices[k].ok && (slices[k].selfContained || Whole(slices, n, OkSeq(slices), slices[k].begin)))
  }

  lemma DroppedIs(slices: seq<Slice>, n: nat, bad: seq<bool>, r: seq<Slice>)
    requires |bad| == |slices| && Dropped(slices, bad, r)
    requires forall i :: 0 <= i < |slices| ==>
      (bad[i] <==> !slices[i].selfContained && !Whole(slices, n, OkSeq(slices), slices[i].begin))
    ensures DroppedBad(slices, n, r)
  {
    hide Whole;
  }

  /** Sequence rule and sibling rule together are the survival rule. */
  lemma RulesAgree(slices: seq<Slice>, n: nat, mode: Mode, broken: bool, sequenced: seq<Slice>, rejected: nat,
        r: seq<Slice>)
    requires |sequenced| == |slices| && Sequenced(slices, mode, broken, |slices|, sequenced)
    requires rejected == 0 <==> AllTaken(OkSeq(sequenced))
    requires if rejected == 0 then r == sequenced else DroppedBad(sequenced, n, r)
    ensures |r| == |slices|
    ensures forall i :: 0 <= i < |r| ==> (r[i].ok <==> Survives(slices, n, TakenSeq(slices, mode, broken), i))
    ensures forall i :: 0 <= i < |r| ==> (r[i].open <==> Opens(slices, broken, i))
    ensures forall i :: 0 <= i < |r| ==> r[i] == slices[i].(ok := r[i].ok, open := r[i].open)
  {
    SequencedShape(slices, mode, broken, sequenced);
    var taken := TakenSeq(slices, mode, broken);
    forall i | 0 <= i < |slices|
      ensures Whole(sequenced, n, taken, sequenced[i].begin) <==> Whole(slices, n, taken, slices[i].begin)
    {
      SameWhole(slices, sequenced, n, taken, slices[i].begin);
    }
    hide Whole, Opens, Taken;
  }

  /** The verdict on each slice by itself: whether the gate accepts it, and whether the
      runtime would open it alone. */
  type Judge = (Bytes, nat) -> (bool, bool)

  function Judged(s: Bytes, slices: seq<Slice>, judge: Judge): (r: seq<Slice>)
    ensures |r| == |slices|
  {
    seq(|slices|, i requires 0 <= i < |slices| =>
      slices[i].(ok := judge(s, slices[i].offset).0, own := judge(s, slices[i].offset).1))
  }

  /** The images of a source, cut and judged. */
  function JudgedImages(images: seq<Bytes>, judge: Judge): (r: seq<Image>)
    ensures |r| == |images|
  {
    seq(|images|, k requires 0 <= k < |images| => Image(|images[k]|, Judged(images[k], Split(images[k], 0), judge)))
  }

  /** Judging moves no slice. */
  lemma JudgedShape(s: Bytes, judge: Judge)
    ensures Rising(Judged(s, Split(s, 0), judge)) && Forward(Judged(s, Split(s, 0), judge))
  {
    SplitRises(s);
    SplitForward(s, 0);
    hide Split;
  }

  method ClassifyImageSlices(s: Bytes, judge: Judge) returns (slices: seq<Slice>)
    ensures slices == Judged(s, Split(s, 0), judge)
  {
    hide Split;
    var cut := LogicalDexSlices(s);
    slices := [];
    for i := 0 to |cut|
      invariant |slices| == i && forall k :: 0 <= k < i ==> slices[k] == Judged(s, cut, judge)[k]
    {
      var (ok, own) := judge(s, cut[i].offset);
      slices := slices + [cut[i].(ok := ok, own := own)];
    }
  }

  lemma BrokenByMore(images: seq<Image>, k: nat)
    requires k < |images|
    ensures BrokenBy(images, k + 1) <==> BrokenBy(images, k) || Breaks(images[k].slices)
  {
    hide Breaks;
  }

  lemma BrokenByNone(images: seq<Image>)
    ensures !BrokenBy(images, 0)
  {
  }

  /** The rows of image `k` carry the verdicts and flags of the source's rules. */
  ghost predicate RowsAt(images: seq<Image>, mode: Mode, k: nat, rows: seq<Slice>)
    requires k < |images|
  {
    && |rows| == |images[k].slices|
    && forall i: nat :: i < |rows| ==>
         (rows[i].ok <==> Accepts(images, mode, k, i)) && (rows[i].open <==> OpensInSource(images, k, i))
         && rows[i] == images[k].slices[i].(ok := rows[i].ok, open := rows[i].open)
  }

  /** Classifies all images of one source, threading one sequence through them: each is
      cut, judged and ruled upon, and the rows are what the rules for the whole list say. */
  method ClassifySource(images: seq<Bytes>, judge: Judge, mode: Mode) returns (rows: seq<seq<Slice>>)
    ensures |rows| == |images|
    ensures forall k: nat :: k < |rows| ==> RowsAt(JudgedImages(images, judge), mode, k, rows[k])
  {
    hide *;
    ghost var judged := JudgedImages(images, judge);
    var art := new ArtSequence(mode);
    rows := [];
    BrokenByNone(judged);
    for k := 0 to |images|
      invariant |rows| == k && art.mode == mode && fresh(art)
      invariant art.broken <==> BrokenBy(judged, k)
      invariant forall j: nat :: j < k ==> RowsAt(judged, mode, j, rows[j])
    {
      var slices := ClassifyImageSlices(images[k], judge);
      JudgedShape(images[k], judge);
      var r := ClassifySourceImage(slices, |images[k]|, art);
      ImageIs(images, judge, k);
      BrokenByMore(judged, k);
      RowsAre(judged, mode, k, r);
      rows := rows + [r];
    }
  }

  /** Of two runs over one source, the runtime's accepts a subset of the isolated one's, and
      both report the same openings. */
  lemma RunsCompare(images: seq<Image>, k: nat, i: nat, runtime: seq<Slice>, isolated: seq<Slice>)
    requires k < |images| && i < |images[k].slices|
    requires RowsAt(images, Runtime, k, runtime) && RowsAt(images, Isolated, k, isolated)
    ensures runtime[i].ok ==> isolated[i].ok && runtime[i].open
    ensures runtime[i].open == isolated[i].open
  {
    hide Accepts, OpensInSource;
    if Accepts(images, Runtime, k, i) { SourceRuntimeWithinIsolated(images, k, i); }
  }

  lemma ImageIs(images: seq<Bytes>, judge: Judge, k: nat)
    requires k < |images|
    ensures JudgedImages(images, judge)[k] == Image(|images[k]|, Judged(images[k], Split(images[k], 0), judge))
  {
  }

  lemma RowsAre(images: seq<Image>, mode: Mode, k: nat, r: seq<Slice>)
    requires k < |images| && |r| == |images[k].slices|
    requires forall i :: 0 <= i < |r| ==>
      (r[i].ok <==>
         Survives(images[k].slices, images[k].size, TakenSeq(images[k].slices, mode, BrokenBy(images, k)), i))
    requires forall i :: 0 <= i < |r| ==> (r[i].open <==> Opens(images[k].slices, BrokenBy(images, k), i))
    requires forall i :: 0 <= i < |r| ==> r[i] == images[k].slices[i].(ok := r[i].ok, open := r[i].open)
    ensures RowsAt(images, mode, k, r)
  {
    hide Survives, Opens, BrokenBy;
  }
}
