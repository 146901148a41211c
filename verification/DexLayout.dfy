/** How numbers and headers are written, and what cutting an image yields that was laid out by
    the format: plain dexes and containers, end to end. */
module DexLayout {
  import opened Options
  import opened EncodedValue
  import opened CodeItem
  import opened Containers
  import opened ByteForms

  /** Numbers of four bytes, one after the other. */
  function Words(ws: seq<nat>): (r: Bytes)
    ensures |r| == 4 * |ws|
  {
    if ws == [] then [] else Stored(ws[0], 4) + Words(ws[1..])
  }

  lemma {:induction false} WordAt(ws: seq<nat>, i: nat)
    requires i < |ws|
    ensures Words(ws)[4 * i..4 * i + 4] == Stored(ws[i], 4)
    decreases i
  {
    if i > 0 {
      WordAt(ws[1..], i - 1);
      assert Words(ws)[4 * i..4 * i + 4] == Words(ws[1..])[4 * (i - 1)..4 * (i - 1) + 4];
    }
  }

  /** The fields of a dex header, as the format declares them. */
  datatype DexHeader = DexHeader(
    magic: Bytes,
    checksum: nat,
    signature: Bytes,
    fileSize: nat,
    headerSize: nat,
    endianTag: nat,
    linkSize: nat,
    linkOff: nat,
    mapOff: nat,
    stringIdsSize: nat,
    stringIdsOff: nat,
    typeIdsSize: nat,
    typeIdsOff: nat,
    protoIdsSize: nat,
    protoIdsOff: nat,
    fieldIdsSize: nat,
    fieldIdsOff: nat,
    methodIdsSize: nat,
    methodIdsOff: nat,
    classDefsSize: nat,
    classDefsOff: nat,
    dataSize: nat,
    dataOff: nat,
    containerSize: nat,
    containerOff: nat)
  {
    predicate Valid() {
      && |magic| == 8 && |signature| == 20
      && fileSize < WORD && headerSize < WORD && containerSize < WORD && containerOff < WORD
    }

    function Numbers(): seq<nat> {
      [fileSize, headerSize, endianTag, linkSize, linkOff, mapOff, stringIdsSize, stringIdsOff,
       typeIdsSize, typeIdsOff, protoIdsSize, protoIdsOff, fieldIdsSize, fieldIdsOff,
       methodIdsSize, methodIdsOff, classDefsSize, classDefsOff, dataSize, dataOff,
       containerSize, containerOff]
    }

    function Written(): Bytes {
      magic + Stored(checksum, 4) + signature + Words(Numbers())
    }
  }

  /** Where the fields are found again. */
  lemma HeaderReads(s: Bytes, off: nat, h: DexHeader)
    requires h.Valid() && HoldsAt(s, off, h.Written())
    ensures |h.Written()| == HEADER && off + HEADER <= |s|
    ensures U4(s, off + 0x20) == h.fileSize && U4(s, off + 0x24) == h.headerSize
    ensures U4(s, off + 0x70) == h.containerSize && U4(s, off + 0x74) == h.containerOff
  {
    NumberReads(s, off, h, 0);
    NumberReads(s, off, h, 1);
    NumberReads(s, off, h, 20);
    NumberReads(s, off, h, 21);
  }

  /** The header is what stands before its numbers, and the numbers. */
  lemma WrittenIs(h: DexHeader)
    requires h.Valid()
    ensures var front := h.magic + Stored(h.checksum, 4) + h.signature;
      |front| == 0x20 && h.Written() == front + Words(h.Numbers()) && |h.Written()| == HEADER && |h.Numbers()| == 22
  {
    hide Words, Stored;
  }

  lemma NumberReads(s: Bytes, off: nat, h: DexHeader, i: nat)
    requires h.Valid() && HoldsAt(s, off, h.Written()) && i < |h.Numbers()| && h.Numbers()[i] < WORD
    ensures |h.Written()| == HEADER && off + HEADER <= |s| && off + 0x24 + 4 * i <= |s|
    ensures U4(s, off + 0x20 + 4 * i) == h.Numbers()[i]
  {
    hide *;
    var front, ws := h.magic + Stored(h.checksum, 4) + h.signature, h.Numbers();
    WrittenIs(h);
    WordAt(ws, i);
    HoldsIs(s, off, h.Written());
    PartOfPart(s, off, HEADER, 0x20 + 4 * i, 0x24 + 4 * i);
    PartBehind(front, Words(ws), 4 * i, 4 * i + 4);
    HoldsIf(s, off + 0x20 + 4 * i, Stored(ws[i], 4));
    ReadsBack4(s, off + 0x20 + 4 * i, ws[i]);
  }

  /** A dex: its header and what follows in its own bytes. */
  datatype Dex = Dex(header: DexHeader, body: Bytes) {
    /** The header is written and names the size of the dex. */
    predicate Valid() {
      header.Valid() && header.fileSize == HEADER + |body|
    }
  }

  /** What an image is made of: dexes by themselves, and containers of dexes. */
  datatype Unit = Plain(dex: Dex) | Joined(dexes: seq<Dex>)

  /** The bytes of dexes laid end to end. */
  function DexBytes(ds: seq<Dex>): Bytes {
    if ds == [] then [] else ds[0].header.Written() + ds[0].body + DexBytes(ds[1..])
  }

  function Total(ds: seq<Dex>): nat {
    if ds == [] then 0 else HEADER + |ds[0].body| + Total(ds[1..])
  }

  lemma {:induction false} DexBytesSize(ds: seq<Dex>)
    requires forall d :: d in ds ==> d.Valid()
    ensures |DexBytes(ds)| == Total(ds)
  {
    if ds != [] {
      assert ds[0].Valid();
      DexBytesSize(ds[1..]);
    }
  }

  /** Each dex of a container has the long header, says how long the container is, and where in
      it it lies itself. */
  predicate InContainer(ds: seq<Dex>, before: nat, total: nat) {
    ds == [] ||
    (ds[0].Valid() && ds[0].header.headerSize >= HEADER
     && ds[0].header.containerSize == total && ds[0].header.containerOff == before
     && InContainer(ds[1..], before + ds[0].header.fileSize, total))
  }

  predicate UnitValid(u: Unit) {
    match u
    case Plain(d) => d.Valid() && d.header.headerSize < HEADER
    case Joined(ds) => ds != [] && InContainer(ds, 0, Total(ds))
  }

  function UnitDexes(u: Unit): seq<Dex> {
    match u
    case Plain(d) => [d]
    case Joined(ds) => ds
  }

  function ImageBytes(us: seq<Unit>): Bytes {
    if us == [] then [] else DexBytes(UnitDexes(us[0])) + ImageBytes(us[1..])
  }

  /** One slice per dex of a container that lies at `begin`: all carry its range, and the last
      is the last entry. */
  function SlicesOf(ds: seq<Dex>, begin: nat, off: nat, end: nat): seq<Slice> {
    if ds == [] then []
    else
      var size := HEADER + |ds[0].body|;
      [Slice(off, size, false, |ds| == 1, begin, end, false, false, false)] + SlicesOf(ds[1..], begin, off + size, end)
  }

  function UnitSlices(u: Unit, off: nat): seq<Slice> {
    match u
    case Plain(d) =>
      var size := HEADER + |d.body|;
      [Slice(off, size, true, true, off, off + size, false, false, false)]
    case Joined(ds) => SlicesOf(ds, off, off, off + Total(ds))
  }

  function ImageSlices(us: seq<Unit>, off: nat): seq<Slice> {
    if us == [] then []
    else UnitSlices(us[0], off) + ImageSlices(us[1..], off + Total(UnitDexes(us[0])))
  }

  /** A dex of its own is cut out as one. */
  lemma PlainSlice(s: Bytes, off: nat, d: Dex)
    requires UnitValid(Plain(d)) && HoldsAt(s, off, d.header.Written() + d.body)
    ensures off + HEADER <= |s| && Holds(s, off) && SliceAt(s, off) == UnitSlices(Plain(d), off)[0]
  {
    HoldsParts(s, off, d.header.Written(), d.body);
    HeaderReads(s, off, d.header);
    hide DexHeader.Written, U4, HoldsAt;
    DexFits(s, off, d);
  }

  lemma DexFits(s: Bytes, off: nat, d: Dex)
    requires d.Valid() && HoldsAt(s, off, d.header.Written() + d.body)
    ensures off + HEADER + |d.body| <= |s| && |d.header.Written() + d.body| == HEADER + |d.body|
  {
  }

  /** A dex of a container is cut out with the container's range. */
  lemma MemberSlice(s: Bytes, off: nat, begin: nat, ds: seq<Dex>, total: nat)
    requires ds != [] && begin <= off && InContainer(ds, off - begin, total) && total == off - begin + Total(ds)
    requires HoldsAt(s, off, ds[0].header.Written() + ds[0].body)
    ensures Holds(s, off) && SliceAt(s, off) == SlicesOf(ds, begin, off, begin + total)[0]
  {
    var d := ds[0];
    HoldsParts(s, off, d.header.Written(), d.body);
    HeaderReads(s, off, d.header);
    DexFits(s, off, d);
    assert Total(ds[1..]) == 0 <==> |ds| == 1;
    hide DexHeader.Written, U4, HoldsAt;
  }

  lemma {:induction false} SplitMembers(s: Bytes, off: nat, begin: nat, ds: seq<Dex>, total: nat)
    requires begin <= off && InContainer(ds, off - begin, total) && total == off - begin + Total(ds)
    requires HoldsAt(s, off, DexBytes(ds))
    ensures Split(s, off) == SlicesOf(ds, begin, off, begin + total) + Split(s, off + Total(ds))
    decreases |ds|
  {
    hide *;
    MembersUnfold(off, begin, ds, total);
    if ds != [] {
      var one, size := ds[0].header.Written() + ds[0].body, HEADER + |ds[0].body|;
      HoldsParts(s, off, one, DexBytes(ds[1..]));
      MemberSlice(s, off, begin, ds, total);
      DexFits(s, off, ds[0]);
      SplitMembers(s, off + size, begin, ds[1..], total);
      SplitUnfolds(s, off);
      assert Split(s, off) == [SliceAt(s, off)] + Split(s, off + size);
    }
  }

  lemma MembersUnfold(off: nat, begin: nat, ds: seq<Dex>, total: nat)
    requires begin <= off && InContainer(ds, off - begin, total)
    ensures ds == [] ==> Total(ds) == 0 && DexBytes(ds) == [] && SlicesOf(ds, begin, off, begin + total) == []
    ensures ds != [] ==>
      var size := HEADER + |ds[0].body|;
      && ds[0].Valid() && InContainer(ds[1..], off + size - begin, total) && Total(ds) == size + Total(ds[1..])
      && DexBytes(ds) == ds[0].header.Written() + ds[0].body + DexBytes(ds[1..])
      && SlicesOf(ds, begin, off, begin + total) != []
      && SlicesOf(ds, begin, off, begin + total)
         == [SlicesOf(ds, begin, off, begin + total)[0]] + SlicesOf(ds[1..], begin, off + size, begin + total)
      && SlicesOf(ds, begin, off, begin + total)[0].size == size
  {
    hide DexHeader.Written;
  }

  lemma SplitUnit(s: Bytes, off: nat, u: Unit)
    requires UnitValid(u) && HoldsAt(s, off, DexBytes(UnitDexes(u)))
    ensures Split(s, off) == UnitSlices(u, off) + Split(s, off + Total(UnitDexes(u)))
  {
    hide *;
    UnitUnfold(u, off);
    if u.Plain? {
      PlainSlice(s, off, u.dex);
      SplitUnfolds(s, off);
      assert Split(s, off) == [SliceAt(s, off)] + Split(s, off + HEADER + |u.dex.body|);
    } else {
      SplitMembers(s, off, off, u.dexes, Total(u.dexes));
    }
  }

  lemma UnitUnfold(u: Unit, off: nat)
    requires UnitValid(u)
    ensures u.Plain? ==>
      && DexBytes(UnitDexes(u)) == u.dex.header.Written() + u.dex.body
      && Total(UnitDexes(u)) == HEADER + |u.dex.body|
      && |UnitSlices(u, off)| == 1 && UnitSlices(u, off)[0].size == HEADER + |u.dex.body|
    ensures u.Joined? ==>
      && UnitDexes(u) == u.dexes && InContainer(u.dexes, 0, Total(u.dexes))
      && UnitSlices(u, off) == SlicesOf(u.dexes, off, off, off + Total(u.dexes))
  {
    hide DexHeader.Written;
    if u.Plain? {
      var ds := [u.dex];
      assert ds[1..] == [] && DexBytes(ds[1..]) == [] && Total(ds[1..]) == 0;
      assert DexBytes(ds) == ds[0].header.Written() + ds[0].body + DexBytes(ds[1..]);
    }
  }

  lemma {:induction false} InContainerValid(ds: seq<Dex>, before: nat, total: nat)
    requires InContainer(ds, before, total)
    ensures forall d :: d in ds ==> d.Valid()
    decreases |ds|
  {
    hide DexHeader.Written;
    if ds != [] {
      InContainerValid(ds[1..], before + ds[0].header.fileSize, total);
      assert forall d :: d in ds ==> d == ds[0] || d in ds[1..];
    }
  }

  lemma UnitSize(u: Unit)
    requires UnitValid(u)
    ensures |DexBytes(UnitDexes(u))| == Total(UnitDexes(u))
  {
    if u.Joined? { InContainerValid(u.dexes, 0, Total(u.dexes)); }
    DexBytesSize(UnitDexes(u));
  }

  /** An image laid out by the format is cut into just its dexes: each plain one by itself, and
      those of a container with the range of the whole container, the last of them its last
      entry. Fewer bytes behind it than a header takes are left alone. */
  lemma {:induction false} LaidOutIsCut(s: Bytes, off: nat, us: seq<Unit>)
    requires (forall u :: u in us ==> UnitValid(u)) && HoldsAt(s, off, ImageBytes(us))
    requires |s| < off + |ImageBytes(us)| + HEADER
    ensures Split(s, off) == ImageSlices(us, off)
    decreases |us|
  {
    hide *;
    ImageUnfold(us, off);
    if us == [] {
      SplitUnfolds(s, off);
      TooShort(s, off);
    } else {
      var one := DexBytes(UnitDexes(us[0]));
      HoldsParts(s, off, one, ImageBytes(us[1..]));
      UnitSize(us[0]);
      SplitUnit(s, off, us[0]);
      assert forall u :: u in us[1..] ==> u in us;
      LaidOutIsCut(s, off + |one|, us[1..]);
    }
  }

  lemma TooShort(s: Bytes, off: nat)
    requires |s| < off + HEADER
    ensures !Holds(s, off)
  {
  }

  lemma ImageUnfold(us: seq<Unit>, off: nat)
    ensures us == [] ==> ImageBytes(us) == [] && ImageSlices(us, off) == []
    ensures us != [] ==>
      && ImageBytes(us) == DexBytes(UnitDexes(us[0])) + ImageBytes(us[1..])
      && ImageSlices(us, off) == UnitSlices(us[0], off) + ImageSlices(us[1..], off + Total(UnitDexes(us[0])))
  {
    hide DexBytes, UnitDexes, UnitSlices, Total;
  }

  lemma {:induction false} MembersAre(ds: seq<Dex>, begin: nat, off: nat, end: nat)
    requires begin <= off && end == off + Total(ds)
    ensures |SlicesOf(ds, begin, off, end)| == |ds|
    ensures forall x :: x in SlicesOf(ds, begin, off, end) ==>
      !x.selfContained && x.begin == begin && x.end == end && off <= x.offset < end
    decreases |ds|
  {
    if ds != [] {
      var size := HEADER + |ds[0].body|;
      MembersAre(ds[1..], begin, off + size, end);
    }
  }

  /** The slices of a unit at `off`: one dex by itself, or all with the range of the unit. */
  lemma UnitSlicesAre(u: Unit, off: nat)
    requires UnitValid(u)
    ensures forall x :: x in UnitSlices(u, off) ==>
      && off <= x.offset < off + Total(UnitDexes(u)) && (x.selfContained <==> u.Plain?)
      && x.begin == off && x.end == off + Total(UnitDexes(u))
  {
    hide *;
    UnitUnfold(u, off);
    if u.Joined? { MembersAre(u.dexes, off, off, off + Total(u.dexes)); } else { PlainSliceIs(u, off); }
  }

  lemma PlainSliceIs(u: Unit, off: nat)
    requires u.Plain?
    ensures HEADER == 0x78
    ensures var size := HEADER + |u.dex.body|;
      UnitSlices(u, off) == [Slice(off, size, true, true, off, off + size, false, false, false)]
  {
  }

  lemma {:induction false} ImageSlicesAbove(us: seq<Unit>, off: nat)
    requires forall u :: u in us ==> UnitValid(u)
    ensures forall x :: x in ImageSlices(us, off) ==>
      off <= x.begin <= x.offset < x.end && x.end <= off + |ImageBytes(us)|
    decreases |us|
  {
    hide *;
    ImageUnfold(us, off);
    if us != [] {
      assert forall u :: u in us[1..] ==> u in us;
      UnitSize(us[0]);
      UnitSlicesAre(us[0], off);
      ImageSlicesAbove(us[1..], off + Total(UnitDexes(us[0])));
    }
  }

  /** A slice starts in the range of another's container exactly if it belongs to it. */
  ghost predicate RangeTells(x: Slice, y: Slice) {
    !x.selfContained ==> (x.begin <= y.offset < x.end <==> !y.selfContained && y.begin == x.begin)
  }

  ghost predicate SameContainer(x: Slice, y: Slice) {
    !x.selfContained && !y.selfContained && y.begin == x.begin ==> y.end == x.end
  }

  lemma {:induction false} RangesTell(us: seq<Unit>, off: nat)
    requires forall u :: u in us ==> UnitValid(u)
    ensures forall x, y :: x in ImageSlices(us, off) && y in ImageSlices(us, off) ==>
      RangeTells(x, y) && SameContainer(x, y)
    decreases |us|
  {
    hide ImageSlices, UnitSlices, Total, UnitValid, DexBytes, ImageBytes, UnitDexes;
    ImageUnfold(us, off);
    if us != [] {
      var next := off + Total(UnitDexes(us[0]));
      assert forall u :: u in us[1..] ==> u in us;
      UnitSlicesAre(us[0], off);
      ImageSlicesAbove(us[1..], next);
      RangesTell(us[1..], next);
    }
  }

  /** The slices of the image, whatever was judged of each. */
  ghost predicate SamePlaces(cut: seq<Slice>, all: seq<Slice>) {
    |all| == |cut| && forall k :: 0 <= k < |all| ==>
      all[k] == cut[k].(ok := all[k].ok, own := all[k].own, open := all[k].open)
  }

  /** The range of a container of such an image lies in it and holds just its members. */
  lemma RangeIsMembers(us: seq<Unit>, n: nat, all: seq<Slice>, i: nat, c: nat)
    requires (forall u :: u in us ==> UnitValid(u)) && |ImageBytes(us)| <= n
    requires SamePlaces(ImageSlices(us, 0), all) && i < |all| && c < |all|
    requires !all[i].selfContained && FirstMember(all, all[i].begin, c)
    ensures all[c].end <= n
    ensures forall k :: 0 <= k < |all| ==>
      (StartsIn(all, all[i].begin, all[c].end, k) <==> MemberOf(all, all[i].begin, k))
  {
    var cut := ImageSlices(us, 0);
    ImageSlicesAbove(us, 0);
    RangesTell(us, 0);
    hide ImageSlices, ImageBytes, UnitValid, UnitSlices;
    assert cut[c] in cut && cut[i] in cut;
    forall k | 0 <= k < |all|
      ensures StartsIn(all, all[i].begin, all[c].end, k) <==> MemberOf(all, all[i].begin, k)
    {
      assert cut[k] in cut && RangeTells(cut[c], cut[k]);
    }
  }

  /** In an image laid out by the format a slice survives if and only if it is taken and, unless
      all are, it is a dex by itself or all dexes of its container are taken. */
  lemma LaidOutSurvives(us: seq<Unit>, n: nat, all: seq<Slice>, taken: seq<bool>, i: nat)
    requires (forall u :: u in us ==> UnitValid(u)) && |ImageBytes(us)| <= n
    requires SamePlaces(ImageSlices(us, 0), all) && i < |all| == |taken|
    ensures Survives(all, n, taken, i) <==>
      && taken[i]
      && (AllTaken(taken) || all[i].selfContained
          || forall j: nat :: j < |all| && MemberOf(all, all[i].begin, j) ==> taken[j])
  {
    hide ImageSlices, ImageBytes, UnitValid, SamePlaces;
    if !all[i].selfContained {
      forall c: nat | c < |all| && FirstMember(all, all[i].begin, c)
        ensures all[c].end <= n
        ensures forall k :: 0 <= k < |all| ==>
          (StartsIn(all, all[i].begin, all[c].end, k) <==> MemberOf(all, all[i].begin, k))
      {
        RangeIsMembers(us, n, all, i, c);
      }
    }
  }
}
