/** Code items: the gate's walk over try ranges and catch handlers, and the reader that
    collects handler addresses behind it. */
module CodeItem {
  import opened Options
  import opened EncodedValue
  import opened EncodedReaders

  /** A signed LEB128 number of at most five bytes, and where it ends. The last byte's sign
      bit extends it unless the bytes fill 32 bits already. */
  function Sleb(s: Bytes, p: nat): (r: Option<(int, nat)>)
    ensures r.Some? ==> p < r.value.1 <= |s|
  {
    var u := Uleb(s, p, ULEB_BYTES);
    if u.None? then None
    else
      var (full, q) := u.value;
      Some((Extended(full, q - p, s[q - 1]), q))
  }

  function Extended(full: nat, n: nat, last: Byte): int {
    if n < 5 && last % 0x80 >= 0x40 then full - Weight(n)
    else Signed32(full % WORD)
  }

  function Signed32(v: nat): int {
    if v < 0x8000_0000 then v else v - WORD
  }

  lemma {:induction false} UlebLength(s: Bytes, p: nat, k: nat)
    requires Uleb(s, p, k).Some?
    ensures Uleb(s, p, k).value.1 <= p + k
    decreases k
  {
    if s[p] >= 0x80 { UlebLength(s, p + 1, k - 1); }
  }

  /** The number whose `n` bytes are read and amount to `acc`. */
  lemma SlebEnds(s: Bytes, p: nat, n: nat, acc: nat)
    requires Uleb(s, p, ULEB_BYTES) == Some((acc, p + n)) && 1 <= n <= 5 && acc < Weight(n)
    ensures p + n <= |s|
    ensures Sleb(s, p) ==
      Some((if 7 * n < 32 && s[p + n - 1] % 0x80 >= 0x40 then acc % WORD - Weight(n) else Signed32(acc % WORD), p + n))
  {
  }

  lemma SlebFails(s: Bytes, p: nat)
    ensures Uleb(s, p, ULEB_BYTES).None? ==> Sleb(s, p).None?
  {
  }

  /** The gate's signed reader. */
  method ReadSleb(s: Bytes, p: nat) returns (ok: bool, out: int, p': nat)
    ensures ok <==> Sleb(s, p).Some?
    ensures ok ==> (out, p') == Sleb(s, p).value
  {
    hide Uleb, HalfRead, Weight, Chunk, Sleb;
    HalfStart(s, p);
    var result: nat, c: nat, i: nat := 0, p, 0;
    ghost var acc: nat := 0;
    while true
      invariant i <= 5 && c == p + i && (c <= |s| || i == 0)
      invariant HalfRead(s, p, c, i, acc) && result == acc % WORD
      decreases 5 - i
    {
      if i >= 5 || c >= |s| {
        HalfFails(s, p, c, i, acc);
        SlebFails(s, p);
        return false, 0, p;
      }
      var b := s[c];
      Wrap(acc, Chunk(b, i));
      result := (result + Chunk(b, i)) % WORD;
      c, i := c + 1, i + 1;
      if b < 0x80 {
        ReadLast(s, p, c - 1, i - 1, acc);
        acc := acc + Chunk(b, i - 1);
        SlebEnds(s, p, i, acc);
        return true, if 7 * i < 32 && b % 0x80 >= 0x40 then result - Weight(i) else Signed32(result), c;
      }
      ReadOn(s, p, c - 1, i - 1, acc);
      acc := acc + Chunk(b, i - 1);
    }
  }

  /** The reader behind the gate. */
  method ReadSlebBounded(s: Bytes, p: nat) returns (out: int, p': nat)
    requires p <= |s|
    ensures p <= p' <= |s|
    ensures Sleb(s, p).Some? ==> (out, p') == Sleb(s, p).value
  {
    hide Uleb, HalfRead, Weight, Chunk, Sleb;
    HalfStart(s, p);
    var result: nat, i: nat, b: Byte := 0, 0, 0;
    p' := p;
    ghost var acc: nat := 0;
    while p' < |s| && 7 * i < 32
      invariant i <= 5 && p' == p + i <= |s|
      invariant HalfRead(s, p, p', i, acc) && result == acc % WORD
      decreases 5 - i
    {
      b := s[p'];
      Wrap(acc, Chunk(b, i));
      result := (result + Chunk(b, i)) % WORD;
      p', i := p' + 1, i + 1;
      if b < 0x80 {
        ReadLast(s, p, p' - 1, i - 1, acc);
        acc := acc + Chunk(b, i - 1);
        SlebEnds(s, p, i, acc);
        return if 7 * i < 32 && b % 0x80 >= 0x40 then result - Weight(i) else Signed32(result), p';
      }
      ReadOn(s, p, p' - 1, i - 1, acc);
      acc := acc + Chunk(b, i - 1);
    }
    HalfFails(s, p, p', i, acc);
    SlebFails(s, p);
    return if 7 * i < 32 && b % 0x80 >= 0x40 then result - Weight(i) else Signed32(result), p';
  }

  datatype Catch = Catch(typeIdx: nat, addr: nat)

  /** A handler: its typed catches and, where there is one, the address that catches all. */
  datatype Handler = Handler(catches: seq<Catch>, all: Option<nat>)

  datatype Try = Try(start: nat, count: nat, handlerOff: nat)

  /** What a handler's addresses and types must stay below. */
  datatype Bounds = Bounds(types: nat, insns: nat)

  function ParseCatches(s: Bytes, p: nat, n: nat, l: Bounds): (r: Option<(seq<Catch>, nat)>)
    requires p <= |s|
    ensures r.Some? ==> p <= r.value.1 <= |s| && |r.value.0| == n
    decreases n
  {
    if n == 0 then Some(([], p))
    else
      var t := Uleb(s, p, ULEB_BYTES);
      if t.None? || t.value.0 % WORD >= l.types then None
      else
        var a := Uleb(s, t.value.1, ULEB_BYTES);
        if a.None? || a.value.0 % WORD >= l.insns then None
        else
          var rest := ParseCatches(s, a.value.1, n - 1, l);
          if rest.None? then None
          else Some(([Catch(t.value.0 % WORD, a.value.0 % WORD)] + rest.value.0, rest.value.1))
  }

  function Abs(i: int): nat {
    if i < 0 then -i else i
  }

  function ParseHandler(s: Bytes, p: nat, l: Bounds): (r: Option<(Handler, nat)>)
    ensures r.Some? ==> p < r.value.1 <= |s|
  {
    var size := Sleb(s, p);
    if size.None? || size.value.0 < -65536 || size.value.0 > 65536 then None
    else
      var catches := ParseCatches(s, size.value.1, Abs(size.value.0), l);
      if catches.None? then None
      else if size.value.0 > 0 then Some((Handler(catches.value.0, None), catches.value.1))
      else
        var a := Uleb(s, catches.value.1, ULEB_BYTES);
        if a.None? || a.value.0 % WORD >= l.insns then None
        else Some((Handler(catches.value.0, Some(a.value.0 % WORD)), a.value.1))
  }

  /** The starts of `n` handlers, one behind the other from `p` on. */
  function HandlerStarts(s: Bytes, p: nat, n: nat, l: Bounds): Option<seq<nat>>
    decreases n
  {
    if n == 0 then Some([])
    else
      var h := ParseHandler(s, p, l);
      if h.None? then None
      else
        var rest := HandlerStarts(s, h.value.1, n - 1, l);
        if rest.None? then None else Some([p] + rest.value)
  }

  function U2(s: Bytes, p: nat): (r: nat)
    requires p + 2 <= |s|
    ensures r < 0x1_0000
  {
    var a: int := s[p];
    var b: int := s[p + 1];
    a + 0x100 * b
  }

  function U4(s: Bytes, p: nat): (r: nat)
    requires p + 4 <= |s|
    ensures r < WORD
  {
    U2(s, p) + 0x1_0000 * U2(s, p + 2)
  }

  function Addrs(h: Handler): set<nat> {
    (set c | c in h.catches :: c.addr) + (if h.all.Some? then {h.all.value} else {})
  }

  lemma {:induction false} CatchesBelow(s: Bytes, p: nat, n: nat, l: Bounds)
    requires p <= |s| && ParseCatches(s, p, n, l).Some?
    ensures forall c :: c in ParseCatches(s, p, n, l).value.0 ==> c.addr < l.insns && c.typeIdx < l.types
    decreases n
  {
    if n > 0 {
      var q := Uleb(s, Uleb(s, p, ULEB_BYTES).value.1, ULEB_BYTES).value.1;
      CatchesBelow(s, q, n - 1, l);
    }
  }

  /** Every address of an accepted handler lies in the code. */
  lemma AddrsBelow(s: Bytes, p: nat, l: Bounds)
    requires ParseHandler(s, p, l).Some?
    ensures forall a :: a in Addrs(ParseHandler(s, p, l).value.0) ==> a < l.insns
  {
    var size := Sleb(s, p).value;
    CatchesBelow(s, size.1, Abs(size.0), l);
  }

  lemma {:induction false} StartsParse(s: Bytes, p: nat, n: nat, l: Bounds, x: nat)
    requires HandlerStarts(s, p, n, l).Some? && x in HandlerStarts(s, p, n, l).value
    ensures ParseHandler(s, x, l).Some?
    decreases n
  {
    hide ParseHandler;
    if n > 0 && x != p {
      StartsParse(s, ParseHandler(s, p, l).value.1, n - 1, l, x);
    }
  }

  /** A code item's fixed part. */
  datatype Header = Header(registers: nat, ins: nat, outs: nat, tries: nat, insns: nat)

  function HeaderAt(s: Bytes, off: nat): (h: Header)
    requires off + 16 <= |s|
    ensures h.tries < 0x1_0000 && h.insns < WORD
  {
    Header(U2(s, off), U2(s, off + 2), U2(s, off + 4), U2(s, off + 6), U4(s, off + 12))
  }

  function TryAt(s: Bytes, tries: nat, t: nat): (r: Try)
    requires tries + 8 * (t + 1) <= |s|
    ensures r.start < WORD && r.count < 0x1_0000 && r.handlerOff < 0x1_0000
  {
    Try(U4(s, tries + 8 * t), U2(s, tries + 8 * t + 4), U2(s, tries + 8 * t + 6))
  }

  /** Where the gate puts the try items: behind the instructions, padded to an even count. */
  function TriesOff(h: Header, off: nat): nat {
    off + 16 + 2 * h.insns + 2 * (h.insns % 2)
  }

  function HandlersBase(h: Header, off: nat): nat {
    TriesOff(h, off) + 8 * h.tries
  }

  ghost predicate HeaderOk(s: Bytes, off: nat) {
    off + 16 <= |s|
    && var h := HeaderAt(s, off);
    h.ins <= h.registers && (h.outs <= 5 || h.outs <= h.registers) && off + 16 + 2 * h.insns <= |s|
  }

  ghost predicate TriesFit(s: Bytes, off: nat)
    requires HeaderOk(s, off)
  {
    var h := HeaderAt(s, off);
    HandlersBase(h, off) <= |s| && (h.insns % 2 == 1 ==> U2(s, off + 16 + 2 * h.insns) == 0)
  }

  /** Try `t` lies in the code, no earlier than the one before it, and names one of the
      handlers that start at `starts`. */
  ghost predicate TryOk(s: Bytes, off: nat, starts: seq<nat>, t: nat)
    requires HeaderOk(s, off) && TriesFit(s, off) && t < HeaderAt(s, off).tries
  {
    var h := HeaderAt(s, off);
    var i := TryAt(s, TriesOff(h, off), t);
    && i.start < h.insns && i.start + i.count <= h.insns
    && HandlersBase(h, off) + i.handlerOff in starts
    && (t > 0 ==> EndOf(s, off, t - 1) <= i.start)
  }

  /** Where try `t` ends. */
  function EndOf(s: Bytes, off: nat, t: nat): nat
    requires off + 16 <= |s| && HandlersBase(HeaderAt(s, off), off) <= |s| && t < HeaderAt(s, off).tries
  {
    var i := TryAt(s, TriesOff(HeaderAt(s, off), off), t);
    i.start + i.count
  }

  /** The handlers behind their count, up to 65535 of them. */
  function Starts(s: Bytes, base: nat, l: Bounds): Option<seq<nat>>
  {
    var n := Uleb(s, base, ULEB_BYTES);
    if n.None? || n.value.0 % WORD == 0 || n.value.0 % WORD >= 65536 then None
    else HandlerStarts(s, n.value.1, n.value.0 % WORD, l)
  }

  function BoundsOf(s: Bytes, off: nat, types: nat): Bounds
    requires off + 16 <= |s|
  {
    Bounds(types, HeaderAt(s, off).insns)
  }

  /** A code item as the gate accepts it, its instructions aside. */
  ghost predicate Accepted(s: Bytes, off: nat, types: nat) {
    && HeaderOk(s, off)
    && (HeaderAt(s, off).tries > 0 ==>
      && TriesFit(s, off)
      && Starts(s, HandlersBase(HeaderAt(s, off), off), BoundsOf(s, off, types)).Some?
      && forall t: nat :: t < HeaderAt(s, off).tries ==>
           TryOk(s, off, Starts(s, HandlersBase(HeaderAt(s, off), off), BoundsOf(s, off, types)).value, t))
  }

  /** Accepted try ranges are sorted and disjoint and lie in the code. */
  lemma {:induction false} TriesSorted(s: Bytes, off: nat, types: nat, i: nat, j: nat)
    requires Accepted(s, off, types) && i < j < HeaderAt(s, off).tries
    ensures EndOf(s, off, i) <= TryAt(s, TriesOff(HeaderAt(s, off), off), j).start
    ensures EndOf(s, off, j) <= HeaderAt(s, off).insns
    decreases j
  {
    var starts := Starts(s, HandlersBase(HeaderAt(s, off), off), BoundsOf(s, off, types)).value;
    assert TryOk(s, off, starts, j);
    if i + 1 < j {
      TriesSorted(s, off, types, i, j - 1);
    }
  }

  /** The handler a try names. */
  function HandlerOf(s: Bytes, off: nat, t: nat): nat
    requires off + 16 <= |s| && HandlersBase(HeaderAt(s, off), off) <= |s| && t < HeaderAt(s, off).tries
  {
    HandlersBase(HeaderAt(s, off), off) + TryAt(s, TriesOff(HeaderAt(s, off), off), t).handlerOff
  }

  /** The offset in a try is the start of one of the handlers the gate walked. */
  lemma TryNamesStart(s: Bytes, off: nat, types: nat, t: nat)
    requires Accepted(s, off, types) && t < HeaderAt(s, off).tries
    ensures HandlerOf(s, off, t) in Starts(s, HandlersBase(HeaderAt(s, off), off), BoundsOf(s, off, types)).value
  {
    hide Starts;
    assert TryOk(s, off, Starts(s, HandlersBase(HeaderAt(s, off), off), BoundsOf(s, off, types)).value, t);
  }

  lemma StartParses(s: Bytes, base: nat, l: Bounds, x: nat)
    requires Starts(s, base, l).Some? && x in Starts(s, base, l).value
    ensures ParseHandler(s, x, l).Some?
  {
    var n := Uleb(s, base, ULEB_BYTES).value;
    StartsParse(s, n.1, n.0 % WORD, l, x);
  }

  /** Every try of an accepted item names a handler that parses. */
  lemma TryHandlerParses(s: Bytes, off: nat, types: nat, t: nat)
    requires Accepted(s, off, types) && t < HeaderAt(s, off).tries
    ensures ParseHandler(s, HandlerOf(s, off, t), BoundsOf(s, off, types)).Some?
  {
    hide Starts;
    TryNamesStart(s, off, types, t);
    StartParses(s, HandlersBase(HeaderAt(s, off), off), BoundsOf(s, off, types), HandlerOf(s, off, t));
  }

  /** Where the reader puts the try items: at the next address divisible by four. */
  function AlignedOff(h: Header, off: nat): nat {
    (off + 16 + 2 * h.insns + 3) / 4 * 4
  }

  /** Gate and reader look for the try items at the same place exactly when the code item
      itself is aligned. */
  lemma SamePlaceIffAligned(h: Header, off: nat)
    ensures AlignedOff(h, off) == TriesOff(h, off) <==> off % 4 == 0
  {
  }

  /** The gate's loop over the typed catches of a handler. */
  method VerifyCatches(s: Bytes, p: nat, n: nat, l: Bounds) returns (ok: bool, p': nat)
    requires p <= |s|
    ensures ok <==> ParseCatches(s, p, n, l).Some?
    ensures ok ==> p' == ParseCatches(s, p, n, l).value.1
  {
    hide Uleb;
    p' := p;
    var size: nat := n;
    while size > 0
      invariant size <= n && p' <= |s|
      invariant ParseCatches(s, p, n, l).Some? <==> ParseCatches(s, p', size, l).Some?
      invariant ParseCatches(s, p, n, l).Some? ==>
        ParseCatches(s, p, n, l).value.1 == ParseCatches(s, p', size, l).value.1
    {
      size := size - 1;
      var typed, typeIdx, q := ReadUleb(s, p');
      if !typed || typeIdx >= l.types { return false, p; }
      var read, addr, r := ReadUleb(s, q);
      if !read || addr >= l.insns { return false, p; }
      p' := r;
    }
    ok := true;
  }

  method VerifyHandler(s: Bytes, p: nat, l: Bounds) returns (ok: bool, p': nat)
    ensures ok <==> ParseHandler(s, p, l).Some?
    ensures ok ==> p' == ParseHandler(s, p, l).value.1
  {
    hide Uleb, Sleb, ParseCatches;
    var sized, size, q := ReadSleb(s, p);
    if !sized || size < -65536 || size > 65536 { return false, p; }
    var catchAll := size <= 0;
    if catchAll { size := -size; }
    ok, p' := VerifyCatches(s, q, size, l);
    if !ok { return; }
    if catchAll {
      var read, addr, r := ReadUleb(s, p');
      if !read || addr >= l.insns { return false, p; }
      p' := r;
    }
  }

  /** The gate's loop over the handlers; it notes where each starts. */
  method VerifyHandlers(s: Bytes, base: nat, p: nat, n: nat, l: Bounds) returns (ok: bool, offsets: seq<nat>)
    requires base <= p
    ensures ok <==> HandlerStarts(s, p, n, l).Some?
    ensures ok ==> |offsets| == |HandlerStarts(s, p, n, l).value|
    ensures ok ==> forall i :: 0 <= i < |offsets| ==> base + offsets[i] == HandlerStarts(s, p, n, l).value[i]
  {
    hide ParseHandler;
    offsets := [];
    var c := p;
    ghost var met: seq<nat> := [];
    for i := 0 to n
      invariant base <= c && |offsets| == |met| == i
      invariant forall k :: 0 <= k < i ==> base + offsets[k] == met[k]
      invariant HandlerStarts(s, p, n, l).Some? <==> HandlerStarts(s, c, n - i, l).Some?
      invariant HandlerStarts(s, p, n, l).Some? ==>
        HandlerStarts(s, p, n, l).value == met + HandlerStarts(s, c, n - i, l).value
    {
      var good, q := VerifyHandler(s, c, l);
      if !good { return false, offsets; }
      offsets := offsets + [c - base];
      met := met + [c];
      c := q;
    }
    ok := true;
  }

  /** The gate's loop over the tries, against the offsets it noted. */
  method VerifyTries(s: Bytes, off: nat, offsets: seq<nat>, ghost starts: seq<nat>) returns (ok: bool)
    requires HeaderOk(s, off) && TriesFit(s, off) && |s| < WORD
    requires |offsets| == |starts|
    requires forall i :: 0 <= i < |offsets| ==> HandlersBase(HeaderAt(s, off), off) + offsets[i] == starts[i]
    ensures ok <==> forall t: nat :: t < HeaderAt(s, off).tries ==> TryOk(s, off, starts, t)
  {
    hide HeaderAt, TryAt;
    var h := HeaderAt(s, off);
    var items := TriesOff(h, off);
    var lastAddr := 0;
    for t := 0 to h.tries
      invariant lastAddr == if t == 0 then 0 else EndOf(s, off, t - 1)
      invariant forall k: nat :: k < t ==> TryOk(s, off, starts, k)
    {
      TryAtFits(s, off, t);
      var ti := TryAt(s, items, t);
      if ti.start < lastAddr || ti.start >= h.insns {
        assert !TryOk(s, off, starts, t);
        return false;
      }
      var found := false;
      for j := 0 to |offsets|
        invariant !found
        invariant forall k :: 0 <= k < j ==> offsets[k] != ti.handlerOff
      {
        if ti.handlerOff == offsets[j] {
          found := true;
          assert starts[j] in starts;
          break;
        }
      }
      if !found {
        assert !TryOk(s, off, starts, t);
        return false;
      }
      lastAddr := (ti.start + ti.count) % WORD;
      if lastAddr > h.insns {
        assert !TryOk(s, off, starts, t);
        return false;
      }
    }
    ok := true;
  }

  lemma TryAtFits(s: Bytes, off: nat, t: nat)
    requires HeaderOk(s, off) && TriesFit(s, off) && |s| < WORD && t < HeaderAt(s, off).tries
    ensures var h := HeaderAt(s, off);
      && TriesOff(h, off) + 8 * (t + 1) <= |s| && 2 * h.insns < |s|
      && (TryAt(s, TriesOff(h, off), t).start < h.insns ==>
            TryAt(s, TriesOff(h, off), t).start + TryAt(s, TriesOff(h, off), t).count < WORD)
  {
  }

  /** The gate on a code item. `insnsOk` is the verdict on the instructions. */
  method VerifyCodeItem(s: Bytes, off: nat, types: nat, insnsOk: bool) returns (ok: bool)
    requires |s| < WORD
    ensures ok <==> Accepted(s, off, types) && insnsOk
  {
    hide Uleb, HandlerStarts, TryOk, HeaderAt;
    if off > |s| || |s| - off < 16 { return false; }
    var h := HeaderAt(s, off);
    if h.ins > h.registers { return false; }
    if h.outs > 5 && h.outs > h.registers { return false; }
    var insns := off + 16;
    if (|s| - insns) / 2 < h.insns { return false; }
    if !insnsOk { return false; }
    if h.tries == 0 { return true; }
    var items := insns + 2 * h.insns;
    if h.insns % 2 == 1 {
      if |s| - items < 2 { return false; }
      if U2(s, items) != 0 { return false; }
      items := items + 2;
    }
    if (|s| - items) / 8 < h.tries { return false; }
    var base := items + 8 * h.tries;
    var read, size, p := ReadUleb(s, base);
    if !read || size == 0 || size >= 65536 { return false; }
    var good, offsets := VerifyHandlers(s, base, p, size, Bounds(types, h.insns));
    if !good { return false; }
    ghost var starts := HandlerStarts(s, p, size, Bounds(types, h.insns)).value;
    ok := VerifyTries(s, off, offsets, starts);
  }

  /** The reader has met the catches `met` of those from `q` on and stands at `p`. */
  ghost predicate Reading(s: Bytes, q: nat, typed: nat, l: Bounds, p: nat, j: nat, met: seq<Catch>)
    requires q <= |s| && p <= |s| && j <= typed
  {
    && ParseCatches(s, p, typed - j, l).Some? && ParseCatches(s, q, typed, l).Some?
    && met + ParseCatches(s, p, typed - j, l).value.0 == ParseCatches(s, q, typed, l).value.0
    && ParseCatches(s, p, typed - j, l).value.1 == ParseCatches(s, q, typed, l).value.1
  }

  lemma ReadingStarts(s: Bytes, p: nat, l: Bounds)
    requires ParseHandler(s, p, l).Some?
    ensures Sleb(s, p).Some? && Reading(s, Sleb(s, p).value.1, Abs(Sleb(s, p).value.0), l, Sleb(s, p).value.1, 0, [])
  {
  }

  /** One catch further. */
  lemma ReadingNext(s: Bytes, q: nat, typed: nat, l: Bounds, p: nat, j: nat, met: seq<Catch>, typeIdx: nat, r: nat,
        addr: nat, e: nat)
    requires q <= |s| && p <= |s| && j < typed && Reading(s, q, typed, l, p, j, met)
    requires Uleb(s, p, ULEB_BYTES).Some? ==>
      typeIdx == Uleb(s, p, ULEB_BYTES).value.0 % WORD && r == Uleb(s, p, ULEB_BYTES).value.1
    requires Uleb(s, r, ULEB_BYTES).Some? ==>
      addr == Uleb(s, r, ULEB_BYTES).value.0 % WORD && e == Uleb(s, r, ULEB_BYTES).value.1
    ensures e <= |s| && Reading(s, q, typed, l, e, j + 1, met + [Catch(typeIdx, addr)])
  {
    hide Uleb;
  }

  /** The typed catches are read, and what is left is the address that catches all. */
  lemma ReadingDone(s: Bytes, p: nat, l: Bounds, c: nat, j: nat, met: seq<Catch>)
    requires ParseHandler(s, p, l).Some? && c <= |s|
    requires var (size, q) := Sleb(s, p).value;
      j <= Abs(size) && Reading(s, q, Abs(size), l, c, j, met) && (j == Abs(size) || c == |s|)
    ensures var (size, q), h := Sleb(s, p).value, ParseHandler(s, p, l).value;
      && h.0.catches == met
      && (size > 0 ==> h.0.all == None && h.1 == c)
      && (size <= 0 ==> Uleb(s, c, ULEB_BYTES).Some? && c < |s|)
      && (size <= 0 ==> var u := Uleb(s, c, ULEB_BYTES).value; h.0.all == Some(u.0 % WORD) && h.1 == u.1)
  {
    CatchesAtEnd(s, c, Abs(Sleb(s, p).value.0) - j, l);
  }

  /** The reader's walk over one handler: the addresses it meets, and where it stops. */
  method ReadHandlerAddrs(s: Bytes, p: nat, ghost l: Bounds) returns (addrs: set<nat>, p': nat)
    requires p <= |s|
    ensures ParseHandler(s, p, l).Some? ==>
      addrs == Addrs(ParseHandler(s, p, l).value.0) && p' == ParseHandler(s, p, l).value.1
  {
    hide Uleb, Sleb, ParseHandler, Reading, ParseCatches;
    var size;
    size, p' := ReadSlebBounded(s, p);
    var typed := Abs(size);
    ghost var parsed := ParseHandler(s, p, l).Some?;
    if parsed { ReadingStarts(s, p, l); }
    ghost var q := p';
    ghost var met: seq<Catch> := [];
    addrs := {};
    var j: nat := 0;
    while j < typed && p' < |s|
      invariant j <= typed && p' <= |s|
      invariant parsed ==> Reading(s, q, typed, l, p', j, met)
      invariant addrs == set c | c in met :: c.addr
      decreases typed - j
    {
      var typeIdx, r := ReadULEB128(s, p');
      var addr, e := ReadULEB128(s, r);
      if parsed { ReadingNext(s, q, typed, l, p', j, met, typeIdx, r, addr, e); }
      met := met + [Catch(typeIdx, addr)];
      addrs := addrs + {addr};
      p' := e;
      j := j + 1;
    }
    if parsed { ReadingDone(s, p, l, p', j, met); }
    if size <= 0 && p' < |s| {
      var addr, e := ReadULEB128(s, p');
      addrs := addrs + {addr};
      p' := e;
    }
  }

  /** No catch starts at the end of the bytes. */
  lemma CatchesAtEnd(s: Bytes, p: nat, n: nat, l: Bounds)
    requires p <= |s| && ParseCatches(s, p, n, l).Some?
    ensures p == |s| ==> n == 0
    ensures n == 0 ==> ParseCatches(s, p, n, l) == Some(([], p))
  {
  }

  /** The addresses of all handlers that the tries of a code item name. */
  ghost predicate HandlerAddrs(s: Bytes, off: nat, types: nat, n: nat, addrs: set<nat>)
    requires Accepted(s, off, types) && n <= HeaderAt(s, off).tries
  {
    forall a :: a in addrs <==> exists t: nat :: t < n && Leads(s, off, types, t, a)
  }

  ghost predicate Leads(s: Bytes, off: nat, types: nat, t: nat, a: nat)
    requires Accepted(s, off, types) && t < HeaderAt(s, off).tries
  {
    TryHandlerParses(s, off, types, t);
    a in Addrs(ParseHandler(s, HandlerOf(s, off, t), BoundsOf(s, off, types)).value.0)
  }

  lemma LeadsAre(s: Bytes, off: nat, types: nat, t: nat, addrs: set<nat>)
    requires Accepted(s, off, types) && t < HeaderAt(s, off).tries
    requires ParseHandler(s, HandlerOf(s, off, t), BoundsOf(s, off, types)).Some? ==>
      addrs == Addrs(ParseHandler(s, HandlerOf(s, off, t), BoundsOf(s, off, types)).value.0)
    ensures forall a :: a in addrs <==> Leads(s, off, types, t, a)
    ensures forall a :: a in addrs ==> a < HeaderAt(s, off).insns
  {
    hide ParseHandler, Accepted;
    TryHandlerParses(s, off, types, t);
    AddrsBelow(s, HandlerOf(s, off, t), BoundsOf(s, off, types));
  }

  lemma AcceptedFits(s: Bytes, off: nat, types: nat)
    requires Accepted(s, off, types)
    ensures HeaderAt(s, off).tries > 0 ==> HandlersBase(HeaderAt(s, off), off) <= |s|
  {
  }

  /** The handler addresses the analysis reads for a code item. On an aligned item that the
      gate accepted they are exactly the addresses of the handlers its tries name, and all
      lie in the code. */
  method CollectHandlers(s: Bytes, off: nat, ghost types: nat) returns (addrs: set<nat>)
    requires off + 16 <= |s|
    ensures Accepted(s, off, types) && off % 4 == 0 ==>
      && HandlerAddrs(s, off, types, HeaderAt(s, off).tries, addrs)
      && forall a :: a in addrs ==> a < HeaderAt(s, off).insns
  {
    hide Accepted, HeaderAt, TryAt, ParseHandler, Leads;
    var h := HeaderAt(s, off);
    addrs := {};
    var tries := AlignedOff(h, off);
    var base := tries + 8 * h.tries;
    SamePlaceIffAligned(h, off);
    ghost var good := Accepted(s, off, types) && off % 4 == 0;
    if good { AcceptedFits(s, off, types); }
    if h.tries > 0 && base <= |s| {
      for i := 0 to h.tries
        invariant good ==> HandlerAddrs(s, off, types, i, addrs) && forall a :: a in addrs ==> a < h.insns
      {
        var p := base + TryAt(s, tries, i).handlerOff;
        if p < |s| {
          var more, _ := ReadHandlerAddrs(s, p, BoundsOf(s, off, types));
          addrs := addrs + more;
          if good { LeadsAre(s, off, types, i, more); }
        } else if good {
          TryHandlerParses(s, off, types, i);
        }
      }
    }
  }
}
