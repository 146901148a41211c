/** How code items are written, and that the gate accepts one so written exactly when it keeps
    the rules. */
module CodeItemForms {
  import opened Options
  import opened EncodedValue
  import opened EncodedReaders
  import opened CodeItem
  import opened ByteForms

  /** A signed LEB128 number as it is written. */
  datatype SlebForm = SlebForm(value: int, width: nat) {
    predicate Fits() {
      && 1 <= width <= ULEB_BYTES
      && if width < 5 then InHalves(value, width) else -0x8000_0000 <= value < 0x8000_0000
    }

    /** Two's complement in seven bits per byte. */
    function Low(): int {
      if value < 0 then value + Pow128(width) else value
    }

    function Written(): Bytes {
      Leb(if Low() >= 0 then Low() else 0, width)
    }
  }

  predicate InHalves(v: int, k: nat) {
    var all: int := Pow128(k);
    -all <= 2 * v < all
  }

  lemma Pow128s()
    ensures Pow128(0) == 1 && Pow128(1) == 0x80 && Pow128(2) == 0x4000 && Pow128(3) == 0x20_0000
    ensures Pow128(4) == 0x1000_0000 && Pow128(5) == 0x8_0000_0000
  {
    assert Pow128(1) == 0x80 * Pow128(0);
    assert Pow128(2) == 0x80 * Pow128(1);
    assert Pow128(3) == 0x80 * Pow128(2);
    assert Pow128(4) == 0x80 * Pow128(3);
    assert Pow128(5) == 0x80 * Pow128(4);
  }

  /** The last byte shows whether the number is in the upper half. */
  lemma {:induction false} LastShows(v: nat, k: nat)
    requires k >= 1 && v < Pow128(k)
    ensures Leb(v, k)[k - 1] % 0x80 >= 0x40 <==> 2 * v >= Pow128(k)
    decreases k
  {
    assert Pow128(k) == 0x80 * Pow128(k - 1);
    if k == 1 {
      assert Pow128(0) == 1;
    } else {
      assert Pow128(k - 1) == 0x80 * Pow128(k - 2);
      LastShows(v / 0x80, k - 1);
      assert Leb(v, k)[k - 1] == Leb(v / 0x80, k - 1)[k - 2];
    }
  }

  /** The low bits are in the upper half if and only if the number is negative. */
  lemma LowFits(x: SlebForm)
    requires x.Fits()
    ensures 0 <= x.Low() < Pow128(x.width)
    ensures x.width < 5 ==> (2 * x.Low() >= Pow128(x.width) <==> x.value < 0)
  {
    Pow128s();
    hide Pow128;
  }

  /** Extending the sign, or cutting off what is beyond 32 bits, gives the number back. */
  lemma ExtendedIs(x: SlebForm, last: Byte)
    requires x.Fits() && x.Low() >= 0 && (x.width < 5 ==> (last % 0x80 >= 0x40 <==> x.value < 0))
    ensures Extended(x.Low(), x.width, last) == x.value
  {
    Pow128s();
    hide Pow128;
    if x.width < 5 {
      assert Weight(x.width) == Pow128(x.width);
      if x.value >= 0 { assert x.Low() == x.value < 0x8000_0000; }
    } else if x.value < 0 {
      assert x.Low() % WORD == x.value + WORD;
    }
  }

  lemma SlebIs(s: Bytes, p: nat, full: nat, k: nat)
    requires Uleb(s, p, ULEB_BYTES) == Some((full, p + k)) && k >= 1
    ensures p + k <= |s| && Sleb(s, p) == Some((Extended(full, k, s[p + k - 1]), p + k))
  {
    hide Uleb, Extended;
  }

  lemma LastByte(s: Bytes, p: nat, bytes: Bytes)
    requires HoldsAt(s, p, bytes) && |bytes| > 0
    ensures p + |bytes| <= |s| && s[p + |bytes| - 1] == bytes[|bytes| - 1]
  {
    assert s[p + |bytes| - 1] == s[p..p + |bytes|][|bytes| - 1];
  }

  lemma SlebFormIs(x: SlebForm)
    requires x.Fits() && x.Low() >= 0
    ensures x.Written() == Leb(x.Low(), x.width) && 1 <= x.width <= ULEB_BYTES
  {
    hide Leb, SlebForm.Low;
  }

  lemma SlebReads(s: Bytes, p: nat, x: SlebForm)
    requires x.Fits() && HoldsAt(s, p, x.Written())
    ensures Sleb(s, p) == Some((x.value, p + x.width)) && |x.Written()| == x.width
  {
    hide *;
    LowFits(x);
    SlebFormIs(x);
    LebReads(s, p, x.Low(), x.width, ULEB_BYTES);
    LastShows(x.Low(), x.width);
    LastByte(s, p, Leb(x.Low(), x.width));
    SlebIs(s, p, x.Low(), x.width);
    ExtendedIs(x, s[p + x.width - 1]);
  }

  datatype CatchForm = CatchForm(typeIdx: LebForm, addr: LebForm)

  /** A handler as it is written: how many typed catches, negated if an address that catches all
      follows them. */
  datatype HandlerForm = HandlerForm(size: SlebForm, catches: seq<CatchForm>, all: Option<LebForm>) {
    predicate Fits() {
      && size.Fits() && size.value == (if all.Some? then -|catches| else |catches|)
      && (all.None? ==> |catches| > 0) && |catches| <= 65536
      && AllFit(catches) && (all.Some? ==> all.value.Fits())
    }

    function Written(): Bytes {
      size.Written() + (CatchesWritten(catches) + if all.Some? then all.value.Written() else [])
    }

    /** Its types and addresses are in bounds. */
    predicate Within(l: Bounds) {
      CatchesWithin(catches, l) && (all.Some? ==> all.value.value % WORD < l.insns)
    }

    function Says(): Handler {
      Handler(CatchesSay(catches), if all.Some? then Some(all.value.value % WORD) else None)
    }
  }

  predicate AllFit(cs: seq<CatchForm>) {
    forall c :: c in cs ==> c.typeIdx.Fits() && c.addr.Fits()
  }

  function CatchesWritten(cs: seq<CatchForm>): Bytes {
    if cs == [] then [] else cs[0].typeIdx.Written() + (cs[0].addr.Written() + CatchesWritten(cs[1..]))
  }

  predicate CatchesWithin(cs: seq<CatchForm>, l: Bounds) {
    cs == []
    || (cs[0].typeIdx.value % WORD < l.types && cs[0].addr.value % WORD < l.insns && CatchesWithin(cs[1..], l))
  }

  function CatchesSay(cs: seq<CatchForm>): seq<Catch> {
    if cs == [] then []
    else [Catch(cs[0].typeIdx.value % WORD, cs[0].addr.value % WORD)] + CatchesSay(cs[1..])
  }

  lemma {:induction false} CatchesRead(s: Bytes, p: nat, cs: seq<CatchForm>, l: Bounds)
    requires p <= |s| && AllFit(cs) && HoldsAt(s, p, CatchesWritten(cs))
    ensures ParseCatches(s, p, |cs|, l) ==
      if CatchesWithin(cs, l) then Some((CatchesSay(cs), p + |CatchesWritten(cs)|)) else None
    decreases |cs|
  {
    hide *;
    CatchesAre(cs, l);
    CatchesUnfold(s, p, |cs|, l);
    if cs != [] {
      var t, a, rest := cs[0].typeIdx, cs[0].addr, CatchesWritten(cs[1..]);
      HoldsParts(s, p, t.Written(), a.Written() + rest);
      LebFormReads(s, p, t);
      HoldsParts(s, p + t.width, a.Written(), rest);
      LebFormReads(s, p + t.width, a);
      HoldsIs(s, p + t.width + a.width, rest);
      CatchesRead(s, p + t.width + a.width, cs[1..], l);
    }
  }

  lemma CatchesAre(cs: seq<CatchForm>, l: Bounds)
    requires AllFit(cs)
    ensures cs == [] ==> CatchesWritten(cs) == [] && CatchesWithin(cs, l) && CatchesSay(cs) == []
    ensures cs != [] ==>
      var t, a := cs[0].typeIdx, cs[0].addr;
      && t.Fits() && a.Fits() && AllFit(cs[1..])
      && CatchesWritten(cs) == t.Written() + (a.Written() + CatchesWritten(cs[1..]))
      && (CatchesWithin(cs, l) <==>
            t.value % WORD < l.types && a.value % WORD < l.insns && CatchesWithin(cs[1..], l))
      && CatchesSay(cs) == [Catch(t.value % WORD, a.value % WORD)] + CatchesSay(cs[1..])
  {
    hide LebForm.Fits, LebForm.Written;
    if cs != [] { assert cs[0] in cs; }
  }

  lemma CatchesUnfold(s: Bytes, p: nat, n: nat, l: Bounds)
    requires p <= |s|
    ensures n == 0 ==> ParseCatches(s, p, n, l) == Some(([], p))
    ensures n > 0 ==>
      var t := Uleb(s, p, ULEB_BYTES);
      ParseCatches(s, p, n, l) ==
        if t.None? || t.value.0 % WORD >= l.types then None
        else
          var a := Uleb(s, t.value.1, ULEB_BYTES);
          if a.None? || a.value.0 % WORD >= l.insns then None
          else
            var rest := ParseCatches(s, a.value.1, n - 1, l);
            if rest.None? then None
            else Some(([Catch(t.value.0 % WORD, a.value.0 % WORD)] + rest.value.0, rest.value.1))
  {
    hide Uleb;
  }

  /** A handler so written is read if and only if it is in bounds. */
  lemma HandlerReads(s: Bytes, p: nat, h: HandlerForm, l: Bounds)
    requires h.Fits() && HoldsAt(s, p, h.Written())
    ensures ParseHandler(s, p, l) == if h.Within(l) then Some((h.Says(), p + |h.Written()|)) else None
  {
    hide HoldsAt, Leb, Uleb, Sleb, ParseCatches, CatchesWithin, CatchesSay, CatchesWritten, SlebForm.Fits,
      SlebForm.Written, LebForm.Written, LebForm.Fits, AllFit;
    var all := if h.all.Some? then h.all.value.Written() else [];
    HoldsParts(s, p, h.size.Written(), CatchesWritten(h.catches) + all);
    SlebReads(s, p, h.size);
    var q := p + h.size.width;
    HoldsParts(s, q, CatchesWritten(h.catches), all);
    HoldsIs(s, q, CatchesWritten(h.catches));
    CatchesRead(s, q, h.catches, l);
    if h.all.Some? { LebFormReads(s, q + |CatchesWritten(h.catches)|, h.all.value); }
  }

  function HandlersWritten(hs: seq<HandlerForm>): Bytes {
    if hs == [] then [] else hs[0].Written() + HandlersWritten(hs[1..])
  }

  predicate HandlersFit(hs: seq<HandlerForm>) {
    hs == [] || (hs[0].Fits() && HandlersFit(hs[1..]))
  }

  predicate HandlersWithin(hs: seq<HandlerForm>, l: Bounds) {
    hs == [] || (hs[0].Within(l) && HandlersWithin(hs[1..], l))
  }

  /** Where each handler starts, the first at `p`. */
  function Positions(hs: seq<HandlerForm>, p: nat): seq<nat> {
    if hs == [] then [] else [p] + Positions(hs[1..], p + |hs[0].Written()|)
  }

  lemma {:induction false} HandlersRead(s: Bytes, p: nat, hs: seq<HandlerForm>, l: Bounds)
    requires HandlersFit(hs) && HoldsAt(s, p, HandlersWritten(hs))
    ensures HandlerStarts(s, p, |hs|, l) == if HandlersWithin(hs, l) then Some(Positions(hs, p)) else None
    decreases |hs|
  {
    hide HoldsAt, ParseHandler, HandlerForm.Fits, HandlerForm.Within, HandlerForm.Written, HandlerForm.Says;
    if hs != [] {
      HoldsParts(s, p, hs[0].Written(), HandlersWritten(hs[1..]));
      HandlerReads(s, p, hs[0], l);
      HandlersRead(s, p + |hs[0].Written()|, hs[1..], l);
    }
  }

  lemma {:induction false} PositionsMoved(hs: seq<HandlerForm>, p: nat, d: nat)
    ensures |Positions(hs, p)| == |hs| == |Positions(hs, d + p)|
    ensures forall x: nat :: d + x in Positions(hs, d + p) <==> x in Positions(hs, p)
    decreases |hs|
  {
    hide HandlerForm.Written;
    if hs != [] {
      PositionsMoved(hs[1..], p + |hs[0].Written()|, d);
    }
  }

  function TriesWritten(ts: seq<Try>): (r: Bytes)
    requires TriesFitFields(ts)
    ensures |r| == 8 * |ts|
  {
    if ts == [] then []
    else
      Stored(ts[0].start, 4) + Stored(ts[0].count, 2) + Stored(ts[0].handlerOff, 2) + TriesWritten(ts[1..])
  }

  predicate TriesFitFields(ts: seq<Try>) {
    forall t :: t in ts ==> t.start < WORD && t.count < 0x1_0000 && t.handlerOff < 0x1_0000
  }

  lemma {:induction false} TriesRead(s: Bytes, p: nat, ts: seq<Try>, t: nat)
    requires TriesFitFields(ts) && HoldsAt(s, p, TriesWritten(ts)) && t < |ts|
    ensures p + 8 * (t + 1) <= |s| && TryAt(s, p, t) == ts[t]
    decreases t
  {
    hide *;
    var one := Stored(ts[0].start, 4) + Stored(ts[0].count, 2) + Stored(ts[0].handlerOff, 2);
    TriesAre(ts);
    HoldsParts(s, p, one, TriesWritten(ts[1..]));
    if t == 0 {
      HoldsParts(s, p, Stored(ts[0].start, 4) + Stored(ts[0].count, 2), Stored(ts[0].handlerOff, 2));
      HoldsParts(s, p, Stored(ts[0].start, 4), Stored(ts[0].count, 2));
      HoldsIs(s, p, one);
      ReadsBack4(s, p, ts[0].start);
      ReadsBack2(s, p + 4, ts[0].count);
      ReadsBack2(s, p + 6, ts[0].handlerOff);
      TryAtIs(s, p, 0);
    } else {
      TriesRead(s, p + 8, ts[1..], t - 1);
      TryAtIs(s, p, t);
      TryAtIs(s, p + 8, t - 1);
    }
  }

  lemma TriesAre(ts: seq<Try>)
    requires TriesFitFields(ts) && ts != []
    ensures TriesFitFields(ts[1..])
    ensures ts[0].start < WORD && ts[0].count < 0x1_0000 && ts[0].handlerOff < 0x1_0000
    ensures TriesWritten(ts)
         == Stored(ts[0].start, 4) + Stored(ts[0].count, 2) + Stored(ts[0].handlerOff, 2) + TriesWritten(ts[1..])
  {
    assert ts[0] in ts;
    hide Stored;
  }

  lemma TryAtIs(s: Bytes, p: nat, t: nat)
    requires p + 8 * (t + 1) <= |s|
    ensures TryAt(s, p, t) == Try(U4(s, p + 8 * t), U2(s, p + 8 * t + 4), U2(s, p + 8 * t + 6))
  {
    hide U2, U4;
  }

  /** A code item as it is written. The instructions are given as their bytes. */
  datatype ItemForm = ItemForm(registers: nat, ins: nat, outs: nat, debugInfoOff: nat, insns: Bytes, tries: seq<Try>,
    count: LebForm, handlers: seq<HandlerForm>) {
    function Units(): nat {
      |insns| / 2
    }

    /** Every number fits the field it is written in. */
    predicate Fits() {
      && registers < 0x1_0000 && ins < 0x1_0000 && outs < 0x1_0000 && |tries| < 0x1_0000
      && |insns| % 2 == 0 && Units() < WORD && TriesFitFields(tries)
      && (tries != [] ==> count.Fits() && count.value % WORD == |handlers| && HandlersFit(handlers))
    }

    function Fixed(): Bytes {
      Stored(registers, 2) + (Stored(ins, 2) + (Stored(outs, 2) + (Stored(|tries|, 2)
      + (Stored(debugInfoOff, 4) + (Stored(Units(), 4) + insns)))))
    }

    function Padding(): Bytes {
      if Units() % 2 == 1 then [0, 0] else []
    }

    function Written(): Bytes
      requires Fits()
    {
      Fixed()
      + if tries == [] then []
        else Padding() + (TriesWritten(tries) + (count.Written() + HandlersWritten(handlers)))
    }

    /** The rules of the format: registers hold the arguments, and try ranges are in order and
        inside the code and name handlers, whose types and addresses are in bounds. */
    ghost predicate Proper(types: nat) {
      && ins <= registers && (outs <= 5 || outs <= registers)
      && (tries != [] ==>
            && 0 < |handlers| < 65536 && HandlersWithin(handlers, Bounds(types, Units()))
            && forall t: nat :: t < |tries| ==> TryProper(t))
    }

    ghost predicate TryProper(t: nat)
      requires t < |tries|
    {
      var i := tries[t];
      && i.start < Units() && i.start + i.count <= Units()
      && i.handlerOff in Positions(handlers, count.width)
      && (t > 0 ==> tries[t - 1].start + tries[t - 1].count <= i.start)
    }
  }

  /** The fixed part is read back. */
  lemma FixedReads(s: Bytes, off: nat, it: ItemForm)
    requires it.Fits() && HoldsAt(s, off, it.Fixed())
    ensures off + 16 + |it.insns| <= |s| && |it.Fixed()| == 16 + |it.insns|
    ensures HeaderAt(s, off) == Header(it.registers, it.ins, it.outs, |it.tries|, it.Units())
  {
    var a, b, c, d, e, f := Stored(it.registers, 2), Stored(it.ins, 2), Stored(it.outs, 2), Stored(|it.tries|, 2),
                            Stored(it.debugInfoOff, 4), Stored(it.Units(), 4);
    hide HoldsAt, Stored, U2, U4, TriesFitFields, HandlersFit, LebForm.Fits;
    HoldsIs(s, off, it.Fixed());
    HoldsParts(s, off, a, b + (c + (d + (e + (f + it.insns)))));
    HoldsParts(s, off + 2, b, c + (d + (e + (f + it.insns))));
    HoldsParts(s, off + 4, c, d + (e + (f + it.insns)));
    HoldsParts(s, off + 6, d, e + (f + it.insns));
    HoldsParts(s, off + 8, e, f + it.insns);
    HoldsParts(s, off + 12, f, it.insns);
    ReadsBack2(s, off, it.registers);
    ReadsBack2(s, off + 2, it.ins);
    ReadsBack2(s, off + 4, it.outs);
    ReadsBack2(s, off + 6, |it.tries|);
    ReadsBack4(s, off + 12, it.Units());
  }

  /** Where the parts behind the instructions stand. */
  lemma TriesStand(s: Bytes, off: nat, it: ItemForm)
    requires it.Fits() && it.tries != [] && HoldsAt(s, off, it.Written())
    ensures HoldsAt(s, off, it.Fixed()) && off + 16 + |it.insns| <= |s|
    ensures HeaderAt(s, off) == Header(it.registers, it.ins, it.outs, |it.tries|, it.Units())
    ensures var h := HeaderAt(s, off);
      && HoldsAt(s, off + 16 + 2 * h.insns, it.Padding()) && HoldsAt(s, TriesOff(h, off), TriesWritten(it.tries))
      && HoldsAt(s, HandlersBase(h, off), it.count.Written())
      && HoldsAt(s, HandlersBase(h, off) + it.count.width, HandlersWritten(it.handlers))
  {
    hide *;
    WrittenIs(it);
    ItemIs(it);
    var tail := TriesWritten(it.tries) + (it.count.Written() + HandlersWritten(it.handlers));
    HoldsParts(s, off, it.Fixed(), it.Padding() + tail);
    FixedReads(s, off, it);
    OffsetsAre(it, HeaderAt(s, off), off);
    var q := off + 16 + |it.insns|;
    HoldsParts(s, q, it.Padding(), tail);
    var r := q + |it.Padding()|;
    HoldsParts(s, r, TriesWritten(it.tries), it.count.Written() + HandlersWritten(it.handlers));
    HoldsParts(s, r + 8 * |it.tries|, it.count.Written(), HandlersWritten(it.handlers));
  }

  lemma WrittenIs(it: ItemForm)
    requires it.Fits() && it.tries != []
    ensures TriesFitFields(it.tries) && it.count.Fits()
    ensures it.Written()
         == it.Fixed() + (it.Padding() + (TriesWritten(it.tries) + (it.count.Written() + HandlersWritten(it.handlers))))
    ensures |it.count.Written()| == it.count.width
  {
    hide TriesFitFields, HandlersFit, HandlersWritten, TriesWritten, ItemForm.Fixed, ItemForm.Padding, LebForm.Fits,
      Leb;
  }

  lemma OffsetsAre(it: ItemForm, h: Header, off: nat)
    requires h.insns == it.Units() && h.tries == |it.tries|
    ensures TriesOff(h, off) == off + 16 + 2 * h.insns + |it.Padding()|
    ensures HandlersBase(h, off) == TriesOff(h, off) + 8 * |it.tries|
  {
  }

  lemma PaddingReads(s: Bytes, p: nat, it: ItemForm)
    requires HoldsAt(s, p, it.Padding())
    ensures it.Units() % 2 == 1 ==> p + 2 <= |s| && U2(s, p) == 0
  {
    if it.Units() % 2 == 1 {
      var pad: Bytes := [0, 0];
      assert s[p..p + 2] == pad;
      assert s[p] == s[p..p + 2][0] && s[p + 1] == s[p..p + 2][1];
    }
  }

  /** An item without tries needs its header to be right. */
  lemma BareItemAccepted(s: Bytes, off: nat, it: ItemForm, types: nat)
    requires it.Fits() && it.tries == [] && HoldsAt(s, off, it.Written())
    ensures Accepted(s, off, types) <==> it.Proper(types)
  {
    assert it.Written() == it.Fixed() + [];
    assert it.Fixed() + [] == it.Fixed();
    FixedReads(s, off, it);
    hide HoldsAt, HeaderAt, ItemForm.Fixed, TriesFitFields, HandlersFit;
  }

  /** The header is right if registers hold what they must. */
  lemma HeaderOkIff(s: Bytes, off: nat, it: ItemForm)
    requires off + 16 + 2 * it.Units() <= |s|
    requires HeaderAt(s, off) == Header(it.registers, it.ins, it.outs, |it.tries|, it.Units())
    ensures HeaderOk(s, off) <==> it.ins <= it.registers && (it.outs <= 5 || it.outs <= it.registers)
  {
    hide HeaderAt;
  }

  /** The count of the handlers and these. */
  lemma StartsIs(s: Bytes, base: nat, it: ItemForm, l: Bounds)
    requires it.Fits() && it.tries != [] && HoldsAt(s, base, it.count.Written())
    requires HoldsAt(s, base + it.count.width, HandlersWritten(it.handlers))
    ensures Starts(s, base, l) ==
      if 0 < |it.handlers| < 65536 && HandlersWithin(it.handlers, l)
      then Some(Positions(it.handlers, base + it.count.width)) else None
  {
    hide *;
    WrittenIs(it);
    CountIs(it);
    LebFormReads(s, base, it.count);
    HandlersRead(s, base + it.count.width, it.handlers, l);
    StartsUnfold(s, base, l);
  }

  lemma CountIs(it: ItemForm)
    requires it.Fits() && it.tries != []
    ensures it.count.value % WORD == |it.handlers| && HandlersFit(it.handlers)
  {
    hide TriesFitFields, HandlersFit, LebForm.Fits;
  }

  lemma StartsUnfold(s: Bytes, base: nat, l: Bounds)
    ensures var n := Uleb(s, base, ULEB_BYTES);
      Starts(s, base, l) ==
        if n.None? || n.value.0 % WORD == 0 || n.value.0 % WORD >= 65536 then None
        else HandlerStarts(s, n.value.1, n.value.0 % WORD, l)
  {
    hide Uleb, HandlerStarts;
  }

  lemma AcceptedIs(s: Bytes, off: nat, types: nat)
    requires HeaderOk(s, off) && HeaderAt(s, off).tries > 0
    ensures Accepted(s, off, types) <==>
      && TriesFit(s, off)
      && Starts(s, HandlersBase(HeaderAt(s, off), off), BoundsOf(s, off, types)).Some?
      && forall t: nat :: t < HeaderAt(s, off).tries ==>
           TryOk(s, off, Starts(s, HandlersBase(HeaderAt(s, off), off), BoundsOf(s, off, types)).value, t)
  {
    hide HeaderOk, HeaderAt, Starts, TryOk;
  }

  lemma ProperIs(it: ItemForm, types: nat)
    requires it.tries != []
    ensures it.Proper(types) <==>
      && it.ins <= it.registers && (it.outs <= 5 || it.outs <= it.registers)
      && 0 < |it.handlers| < 65536 && HandlersWithin(it.handlers, Bounds(types, it.Units()))
      && forall t: nat :: t < |it.tries| ==> it.TryProper(t)
  {
    hide HandlersWithin, ItemForm.TryProper;
  }

  lemma RoomForTries(s: Bytes, off: nat, it: ItemForm, types: nat)
    requires it.Fits() && it.tries != [] && HeaderOk(s, off)
    requires HeaderAt(s, off) == Header(it.registers, it.ins, it.outs, |it.tries|, it.Units())
    requires it.Units() % 2 == 1 ==> off + 18 + 2 * it.Units() <= |s| && U2(s, off + 16 + 2 * it.Units()) == 0
    requires HoldsAt(s, HandlersBase(HeaderAt(s, off), off), it.count.Written())
    ensures TriesFit(s, off) && BoundsOf(s, off, types) == Bounds(types, it.Units())
  {
    hide HeaderAt, U2, HeaderOk;
    HoldsIs(s, HandlersBase(HeaderAt(s, off), off), it.count.Written());
  }

  /** One with tries also needs these and the handlers to be right. */
  lemma GuardedItemAccepted(s: Bytes, off: nat, it: ItemForm, types: nat)
    requires it.Fits() && it.tries != [] && HoldsAt(s, off, it.Written())
    ensures Accepted(s, off, types) <==> it.Proper(types)
  {
    hide *;
    TriesStand(s, off, it);
    ItemIs(it);
    var h := HeaderAt(s, off);
    PaddingReads(s, off + 16 + 2 * h.insns, it);
    HeaderOkIff(s, off, it);
    ProperIs(it, types);
    if HeaderOk(s, off) {
      var base, l := HandlersBase(h, off), Bounds(types, it.Units());
      RoomForTries(s, off, it, types);
      AcceptedIs(s, off, types);
      StartsIs(s, base, it, l);
      if Starts(s, base, l).Some? {
        forall t: nat | t < |it.tries|
          ensures TryOk(s, off, Starts(s, base, l).value, t) <==> it.TryProper(t)
        {
          TryAgrees(s, off, it, t);
        }
      }
    } else {
      BadHeader(s, off, types);
    }
  }

  lemma BadHeader(s: Bytes, off: nat, types: nat)
    requires !HeaderOk(s, off)
    ensures !Accepted(s, off, types)
  {
  }

  lemma ItemIs(it: ItemForm)
    requires it.Fits()
    ensures |it.insns| == 2 * it.Units() && TriesFitFields(it.tries)
  {
    hide TriesFitFields, HandlersFit, LebForm.Fits;
  }

  /** What a try needs, given what it and the one before it say. */
  lemma TryOkIs(s: Bytes, off: nat, starts: seq<nat>, t: nat, h: Header, i: Try, before: Try)
    requires HeaderOk(s, off) && TriesFit(s, off) && h == HeaderAt(s, off) && t < h.tries
    requires TriesOff(h, off) + 8 * (t + 1) <= |s| && TryAt(s, TriesOff(h, off), t) == i
    requires t > 0 ==> TryAt(s, TriesOff(h, off), t - 1) == before
    ensures TryOk(s, off, starts, t) <==>
      && i.start < h.insns && i.start + i.count <= h.insns && HandlersBase(h, off) + i.handlerOff in starts
      && (t > 0 ==> before.start + before.count <= i.start)
  {
    hide HeaderAt, TryAt, HeaderOk;
  }

  lemma TryAgrees(s: Bytes, off: nat, it: ItemForm, t: nat)
    requires off + 16 <= |s| && HeaderOk(s, off) && TriesFit(s, off)
    requires it.Fits() && t < |it.tries| && TriesFitFields(it.tries)
    requires HeaderAt(s, off) == Header(it.registers, it.ins, it.outs, |it.tries|, it.Units())
    requires HoldsAt(s, TriesOff(HeaderAt(s, off), off), TriesWritten(it.tries))
    ensures var base := HandlersBase(HeaderAt(s, off), off);
      TryOk(s, off, Positions(it.handlers, base + it.count.width), t) <==> it.TryProper(t)
  {
    hide *;
    var h := HeaderAt(s, off);
    var base := HandlersBase(h, off);
    PositionsMoved(it.handlers, it.count.width, base);
    TriesRead(s, TriesOff(h, off), it.tries, t);
    var before := if t > 0 then it.tries[t - 1] else it.tries[t];
    if t > 0 { TriesRead(s, TriesOff(h, off), it.tries, t - 1); }
    TryOkIs(s, off, Positions(it.handlers, base + it.count.width), t, h, it.tries[t], before);
    TryProperIs(it, t);
  }

  lemma TryProperIs(it: ItemForm, t: nat)
    requires t < |it.tries|
    ensures it.TryProper(t) <==>
      && it.tries[t].start < it.Units() && it.tries[t].start + it.tries[t].count <= it.Units()
      && it.tries[t].handlerOff in Positions(it.handlers, it.count.width)
      && (t > 0 ==> it.tries[t - 1].start + it.tries[t - 1].count <= it.tries[t].start)
  {
    hide Positions;
  }

  /** The gate accepts a code item written by the format if and only if it keeps the rules. */
  lemma WrittenAccepted(s: Bytes, off: nat, it: ItemForm, types: nat)
    requires it.Fits() && HoldsAt(s, off, it.Written())
    ensures Accepted(s, off, types) <==> it.Proper(types)
  {
    if it.tries == [] { BareItemAccepted(s, off, it, types); } else { GuardedItemAccepted(s, off, it, types); }
  }
}
