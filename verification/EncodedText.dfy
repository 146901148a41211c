/** The two readers that walk static values behind the gate: the one that renders them and
    the one that collects string indices. Both stop where the gate stopped. */
module EncodedText {
  import opened Options
  import opened EncodedValue
  import opened EncodedReaders

  /** A piece of rendered text. Numbers and table entries are kept symbolic. */
  datatype Piece =
    | Lit(text: string)
    | Hex(value: int)
    | Decimal(value: int)
    | LongLiteral(value: int)
    | FloatBits(bits: nat)
    | DoubleBits(bits: nat)
    | StringAt(idx: nat)
    | ClassAt(idx: nat)
    | FieldAt(idx: nat)
    | ProtoAt(idx: nat)
    | HandleAt(idx: nat)
    | MethodAt(idx: nat)
    | TypeNameAt(idx: nat)
    | NameAt(idx: nat)

  /** Rendered text, and whether it is a Java expression. No pieces mean the value could
      not be rendered. */
  datatype Text = Text(pieces: seq<Piece>, expression: bool)

  const NOTHING := Text([], true)
  const HOLE := Lit("?")

  /** The two's complement value of `n` bytes. */
  function Signed(bits: nat, n: nat): int {
    if 2 * bits < Pow256(n) then bits else bits - Pow256(n)
  }

  /** A payload of `n` bytes as the high end of `width` bytes. */
  function HighBytes(bits: nat, n: nat, width: nat): nat {
    if n >= width then bits else bits * Pow256(width - n)
  }

  function RenderScalar(code: nat, arg: nat, bits: nat, handles: set<nat>): Text {
    match code
    case 0x00 => Text([Hex(Signed(bits, 1))], true)
    case 0x02 => Text([Decimal(Signed(bits, arg + 1))], true)
    case 0x04 => Text([Decimal(Signed(bits, arg + 1))], true)
    case 0x06 => Text([LongLiteral(Signed(bits, arg + 1))], true)
    case 0x03 => Text([Decimal(bits)], true)
    case 0x10 => Text([FloatBits(HighBytes(bits, arg + 1, 4))], true)
    case 0x11 => Text([DoubleBits(HighBytes(bits, arg + 1, 8))], true)
    case 0x17 => Text([StringAt(bits)], true)
    case 0x18 => Text([ClassAt(bits)], true)
    case 0x19 => Text([FieldAt(bits)], true)
    case 0x1b => Text([FieldAt(bits)], true)
    case 0x15 => Text([ProtoAt(bits)], true)
    case 0x16 => if bits in handles then Text([HandleAt(bits)], false) else NOTHING
    case 0x1a => Text([MethodAt(bits)], false)
    case 0x1e => Text([Lit("null")], true)
    case 0x1f => Text([Lit(if arg > 0 then "true" else "false")], true)
    case _ => NOTHING
  }

  /** The text of a value; `handles` are the method handles that resolve. */
  function Render(v: Value, handles: set<nat>): Text
    decreases v, 0
  {
    match v
    case Scalar(code, arg, bits) => RenderScalar(code, arg, bits, handles)
    case Array(_, items) =>
      Text([Lit("{")] + RenderItems(items, 0, false, handles) + [Lit("}")], AllExpressions(items, handles))
    case Annotation(t, declared, items) =>
      var list := RenderItems(items, 0, true, handles);
      Text([Lit("@"), TypeNameAt(t)] + (if declared % WORD > 0 then [Lit("(")] + list + [Lit(")")] else []), false)
  }

  function Shown(v: Value, handles: set<nat>): seq<Piece>
    decreases v, 1
  {
    var t := Render(v, handles);
    if t.pieces == [] then [HOLE] else t.pieces
  }

  /** The items from number `i` on, separated by commas. */
  function RenderItems(items: Items, i: nat, named: bool, handles: set<nat>): seq<Piece>
    decreases items, 0
  {
    if items.End? then []
    else (if i > 0 then [Lit(", ")] else [])
         + (if named then [NameAt(items.name), Lit(" = ")] else [])
         + Shown(items.value, handles)
         + RenderItems(items.rest, i + 1, named, handles)
  }

  predicate AllExpressions(items: Items, handles: set<nat>)
    decreases items, 0
  {
    items.End?
    || (Render(items.value, handles).expression && Render(items.value, handles).pieces != []
        && AllExpressions(items.rest, handles))
  }

  /** 256 to the power `8 - n`, for `n` from 1 to 8: how far a shift moves a payload. */
  function Shift(n: nat): (r: nat)
    requires 1 <= n <= 8
    ensures r > 0 && Pow256(n) * r == DOUBLE_WORD
  {
    match n
    case 1 => 0x100_0000_0000_0000
    case 2 => 0x1_0000_0000_0000
    case 3 => 0x100_0000_0000
    case 4 => 0x1_0000_0000
    case 5 => 0x100_0000
    case 6 => 0x1_0000
    case 7 => 0x100
    case 8 => 1
  }

  /** Sign extension in 64 bits: shift the payload to the top and arithmetically back. */
  function SignExtend(v: nat, nbytes: nat): int
    requires 1 <= nbytes <= 8
  {
    ToSigned64(v * Shift(nbytes) % DOUBLE_WORD) / Shift(nbytes)
  }

  function ToSigned64(v: nat): int
    requires v < DOUBLE_WORD
  {
    if v < DOUBLE_WORD / 2 then v else v - DOUBLE_WORD
  }

  lemma ShiftedBelow(v: nat, p: nat, q: nat)
    requires v < p && q > 0
    ensures v * q < p * q && (2 * v < p <==> 2 * (v * q) < p * q)
    ensures v * q - p * q == (v - p) * q
  {
    assert p * q - v * q == (p - v) * q;
    assert p * q - 2 * (v * q) == (p - 2 * v) * q;
    assert 2 * v < p ==> (p - 2 * v) * q > 0;
    assert 2 * v >= p ==> (p - 2 * v) * q <= 0;
  }

  lemma ShiftedBack(x: int, q: nat)
    requires q > 0
    ensures x * q / q == x
  {
    var y := x * q;
    var d := x - y / q;
    DivMod(y, q);
    assert d * q == y % q;
    Multiple(d, q);
  }

  lemma Multiple(d: int, q: int)
    requires q > 0
    ensures d >= 1 ==> d * q >= q
    ensures d <= -1 ==> d * q <= -q
  {
  }

  lemma DivMod(y: int, q: nat)
    requires q > 0
    ensures y == y / q * q + y % q && 0 <= y % q < q
  {
  }

  /** Shifting a payload up and down again gives its two's complement value. */
  lemma SignExtendIsSigned(v: nat, nbytes: nat)
    requires 1 <= nbytes <= 8 && v < Pow256(nbytes)
    ensures SignExtend(v, nbytes) == Signed(v, nbytes)
  {
    hide Pow256, Shift;
    var p, q := Pow256(nbytes), Shift(nbytes);
    ShiftedBelow(v, p, q);
    SmallMod(v * q, DOUBLE_WORD);
    ShiftedBack(v, q);
    ShiftedBack(v - p, q);
  }

  lemma SmallMod(x: nat, m: nat)
    requires x < m
    ensures x % m == x
  {
  }

  /** The bits of a float or double: the stored bytes shifted to the high end. */
  method WidenedBits(raw: nat, nbytes: nat, width: nat) returns (bits: nat)
    requires width == 4 || width == 8
    requires nbytes > 0
    ensures raw < Pow256(nbytes) && nbytes <= width ==> bits == HighBytes(raw, nbytes, width)
  {
    hide *;
    var top := Pow256(width);
    var moved := raw;
    if nbytes < width { moved := raw * Pow256(width - nbytes); }
    bits := moved % top;
    if raw < Pow256(nbytes) && nbytes <= width {
      MovedFits(raw, nbytes, width);
      SmallMod(moved, top);
    }
  }

  lemma MovedFits(raw: nat, nbytes: nat, width: nat)
    requires raw < Pow256(nbytes) && nbytes <= width
    ensures HighBytes(raw, nbytes, width) < Pow256(width)
    ensures HighBytes(raw, nbytes, width) == if nbytes < width then raw * Pow256(width - nbytes) else raw
  {
    PowerProduct(raw, nbytes, width - nbytes);
  }

  lemma {:induction false} PowerProduct(v: nat, n: nat, m: nat)
    requires v < Pow256(n)
    ensures v * Pow256(m) < Pow256(n + m)
  {
    if m > 0 {
      PowerProduct(v, n, m - 1);
      assert v * Pow256(m) == 256 * (v * Pow256(m - 1));
    }
  }

  /** The arms of the decoder that read a payload of fixed width. */
  method DecodeScalar(s: Bytes, p: nat, code: nat, arg: nat, l: Limits, handles: set<nat>) returns (text: Text, p': nat)
    requires p <= |s| && code < 32 && arg < 8 && code != 0x1c && code != 0x1d
    ensures p <= p' <= |s|
    ensures ParseScalar(s, p, code, arg, l).Some? ==>
      p' == ParseScalar(s, p, code, arg, l).value.1
      && text == Render(ParseScalar(s, p, code, arg, l).value.0, handles)
  {
    hide LittleEndian, Pow256, Signed, HighBytes, SignExtend;
    text, p' := NOTHING, p;
    if code == 0x1e { return Text([Lit("null")], true), p; }
    if code == 0x1f { return Text([Lit(if arg > 0 then "true" else "false")], true), p; }
    var nbytes := if code == 0x00 then 1 else arg + 1;
    var v;
    v, p' := ReadIntLE(s, p, nbytes);
    if p + nbytes <= |s| { LittleEndianBound(s[p..p + nbytes]); }
    if p + nbytes <= |s| {
      SignExtendIsSigned(v, nbytes);
      IndexFits(v, nbytes);
    }
    match code {
      case 0x00 =>
        ByteIsSigned(v);
        var byte := v % 0x100;
        text := Text([Hex(if byte < 0x80 then byte else byte - 0x100)], true);
      case 0x02 => text := Text([Decimal(SignExtend(v, nbytes))], true);
      case 0x04 => text := Text([Decimal(SignExtend(v, nbytes))], true);
      case 0x06 => text := Text([LongLiteral(SignExtend(v, nbytes))], true);
      case 0x03 => text := Text([Decimal(v)], true);
      case 0x10 =>
        var bits := WidenedBits(v, nbytes, 4);
        text := Text([FloatBits(bits)], true);
      case 0x11 =>
        var bits := WidenedBits(v, nbytes, 8);
        text := Text([DoubleBits(bits)], true);
      case 0x17 => if v < l.strings { text := Text([StringAt(v)], true); }
      case 0x18 => if v < l.types { text := Text([ClassAt(v)], true); }
      case 0x19 => if v < l.fields { text := Text([FieldAt(v)], true); }
      case 0x1b => if v < l.fields { text := Text([FieldAt(v)], true); }
      case 0x15 => if v < l.protos { text := Text([ProtoAt(v)], true); }
      case 0x16 => if v < WORD && v in handles { text := Text([HandleAt(v)], false); }
      case 0x1a => if v < l.methods { text := Text([MethodAt(v)], false); }
      case _ =>
    }
  }

  /** An index of at most four bytes fits 32 bits. */
  lemma IndexFits(v: nat, n: nat)
    requires v < Pow256(n)
    ensures n <= 4 ==> v < WORD
  {
    if n <= 4 {
      PowerProduct(v, n, 4 - n);
      assert Pow256(4) == 256 * Pow256(3);
      assert Pow256(4 - n) >= 1 && v * Pow256(4 - n) >= v;
    }
  }

  lemma ByteIsSigned(v: nat)
    ensures Pow256(1) == 0x100
    ensures v < 0x100 ==> Signed(v, 1) == if v < 0x80 then v else v - 0x100
  {
    assert Pow256(1) == 256 * Pow256(0);
  }

  /** Renders the value at `p`. Where the gate accepts one, the text is that value's and the
      cursor ends where the gate's did. */
  method DecodeEncodedValueText(s: Bytes, p: nat, l: Limits, handles: set<nat>, depth: nat)
    returns (text: Text, p': nat)
    requires p <= |s|
    ensures p <= p' <= |s|
    ensures ParseValue(s, p, depth, l).Some? ==>
      p' == ParseValue(s, p, depth, l).value.1 && text == Render(ParseValue(s, p, depth, l).value.0, handles)
    decreases |s| - p, 0
  {
    hide ParseScalar, Uleb, ParseItems, RenderItems, AllExpressions, RenderScalar;
    text, p' := NOTHING, p;
    if p >= |s| || depth > MAX_DEPTH { return; }
    var code, arg := s[p] % 32, s[p] / 32;
    p' := p + 1;
    if code == 0x1c {
      var size, q := ReadULEB128(s, p');
      var list, expression;
      list, expression, p' := DecodeItems(s, q, size, depth + 1, false, l, handles);
      text := Text([Lit("{")] + list + [Lit("}")], expression);
    } else if code == 0x1d {
      var typeIdx, q := ReadULEB128(s, p');
      var size, r := ReadULEB128(s, q);
      var list, unused;
      list, unused, p' := DecodeItems(s, r, size, depth + 1, true, l, handles);
      text := Text([Lit("@"), if typeIdx < l.types then TypeNameAt(typeIdx) else HOLE]
                   + (if size > 0 then [Lit("(")] + list + [Lit(")")] else []), false);
    } else {
      text, p' := DecodeScalar(s, p', code, arg, l, handles);
    }
  }

  /** What the decoder's loop has left at item `i`. */
  ghost predicate LeftToRender(s: Bytes, p: nat, n: nat, depth: nat, named: bool, l: Limits, items: Items, q: nat)
    requires p <= |s|
  {
    ParseItems(s, p, n, depth, named, l) == Some((items, q))
  }

  lemma NoneLeft(s: Bytes, p: nat, depth: nat, named: bool, l: Limits, items: Items, q: nat)
    requires p <= |s| && LeftToRender(s, p, 0, depth, named, l, items, q)
    ensures items.End? && q == p
  {
  }

  lemma SomeLeft(s: Bytes, p: nat, n: nat, depth: nat, named: bool, l: Limits, items: Items, q: nat)
    requires p <= |s| && LeftToRender(s, p, n, depth, named, l, items, q) && n > 0
    ensures p < |s| && items.Item?
    ensures named ==> Uleb(s, p, ULEB_BYTES).Some? && Uleb(s, p, ULEB_BYTES).value.0 % WORD == items.name < l.strings
    ensures var r := if named then Uleb(s, p, ULEB_BYTES).value.1 else p;
      && ParseValue(s, r, depth, l).Some? && ParseValue(s, r, depth, l).value.0 == items.value
      && LeftToRender(s, ParseValue(s, r, depth, l).value.1, n - 1, depth, named, l, items.rest, q)
  {
  }

  /** The items so far and those to come make up the whole list. */
  ghost predicate Rendering(items: Items, i: nat, named: bool, handles: set<nat>, done: seq<Piece>, ok: bool,
        all: seq<Piece>, allOk: bool)
  {
    done + RenderItems(items, i, named, handles) == all && ((ok && AllExpressions(items, handles)) <==> allOk)
  }

  lemma RenderingNext(items: Items, i: nat, named: bool, handles: set<nat>, done: seq<Piece>, ok: bool,
        all: seq<Piece>, allOk: bool)
    requires Rendering(items, i, named, handles, done, ok, all, allOk) && items.Item?
    ensures var t := Render(items.value, handles);
      Rendering(items.rest, i + 1, named, handles, done + One(i, named, items.name, t),
                ok && t.expression && t.pieces != [], all, allOk)
  {
    hide Render;
    var t := Render(items.value, handles);
    var one, rest := One(i, named, items.name, t), RenderItems(items.rest, i + 1, named, handles);
    assert Shown(items.value, handles) == if t.pieces == [] then [HOLE] else t.pieces;
    assert RenderItems(items, i, named, handles) == one + rest;
    assert done + (one + rest) == (done + one) + rest;
  }

  /** The pieces of one item. */
  function One(i: nat, named: bool, name: nat, t: Text): seq<Piece> {
    (if i > 0 then [Lit(", ")] else []) + (if named then [NameAt(name), Lit(" = ")] else [])
    + (if t.pieces == [] then [HOLE] else t.pieces)
  }

  lemma OneByOne(before: seq<Piece>, i: nat, named: bool, name: nat, t: Text)
    ensures var a := if i > 0 then before + [Lit(", ")] else before;
      (if named then a + [NameAt(name), Lit(" = ")] else a) + (if t.pieces == [] then [HOLE] else t.pieces) ==
      before + One(i, named, name, t)
  {
  }

  lemma RenderingDone(i: nat, named: bool, handles: set<nat>, done: seq<Piece>, ok: bool, all: seq<Piece>, allOk: bool)
    requires Rendering(End, i, named, handles, done, ok, all, allOk)
    ensures done == all && ok == allOk
  {
  }

  /** The decoder's loop over the items of an array or an annotation. */
  method DecodeItems(s: Bytes, p: nat, size: nat, depth: nat, named: bool, l: Limits, handles: set<nat>)
    returns (list: seq<Piece>, expression: bool, p': nat)
    requires p <= |s|
    ensures p <= p' <= |s|
    ensures ParseItems(s, p, size, depth, named, l).Some? ==>
      var r := ParseItems(s, p, size, depth, named, l).value;
      p' == r.1 && list == RenderItems(r.0, 0, named, handles) && expression == AllExpressions(r.0, handles)
    decreases |s| - p, 1
  {
    hide *;
    list, expression, p' := [], true, p;
    var i: nat := 0;
    ghost var parsed, rest, q := StartsParsed(s, p, size, depth, named, l);
    ghost var all, allOk := RenderItems(rest, 0, named, handles), AllExpressions(rest, handles);
    if parsed { RenderingStarts(rest, named, handles); }
    while i < size && p' < |s|
      invariant p <= p' <= |s| && i <= size
      invariant parsed ==> LeftToRender(s, p', size - i, depth, named, l, rest, q)
      invariant parsed ==> Rendering(rest, i, named, handles, list, expression, all, allOk)
      decreases size - i
    {
      if parsed {
        SomeLeft(s, p', size - i, depth, named, l, rest, q);
        RenderingNext(rest, i, named, handles, list, expression, all, allOk);
      }
      ghost var before := list;
      if i > 0 { list := list + [Lit(", ")]; }
      if named {
        var nameIdx;
        nameIdx, p' := ReadULEB128(s, p');
        list := list + [if nameIdx < l.strings then NameAt(nameIdx) else HOLE, Lit(" = ")];
      }
      var el;
      el, p' := DecodeEncodedValueText(s, p', l, handles, depth);
      list := list + (if el.pieces == [] then [HOLE] else el.pieces);
      if parsed { OneByOne(before, i, named, rest.name, el); }
      expression := expression && el.expression && el.pieces != [];
      i := i + 1;
      if parsed { rest := rest.rest; }
    }
    if parsed {
      if i < size {
        SomeLeft(s, p', size - i, depth, named, l, rest, q);
      } else {
        NoneLeft(s, p', depth, named, l, rest, q);
        RenderingDone(i, named, handles, list, expression, all, allOk);
      }
    }
  }

  lemma StartsParsed(s: Bytes, p: nat, n: nat, depth: nat, named: bool, l: Limits)
    returns (parsed: bool, items: Items, q: nat)
    requires p <= |s|
    ensures parsed <==> ParseItems(s, p, n, depth, named, l).Some?
    ensures parsed ==>
      ParseItems(s, p, n, depth, named, l).value == (items, q) && LeftToRender(s, p, n, depth, named, l, items, q)
  {
    var r := ParseItems(s, p, n, depth, named, l);
    parsed := r.Some?;
    items, q := if parsed then r.value.0 else End, if parsed then r.value.1 else 0;
  }

  lemma RenderingStarts(items: Items, named: bool, handles: set<nat>)
    ensures Rendering(items, 0, named, handles, [], true, RenderItems(items, 0, named, handles),
      AllExpressions(items, handles))
  {
    assert [] + RenderItems(items, 0, named, handles) == RenderItems(items, 0, named, handles);
  }

  /** Every method handle the value names resolves. */
  predicate HandlesResolve(v: Value, handles: set<nat>)
    decreases v
  {
    match v
    case Scalar(code, _, bits) => code == 0x16 ==> bits in handles
    case Array(_, items) => ItemsResolve(items, handles)
    case Annotation(_, _, items) => ItemsResolve(items, handles)
  }

  predicate ItemsResolve(items: Items, handles: set<nat>)
    decreases items
  {
    items.End? || (HandlesResolve(items.value, handles) && ItemsResolve(items.rest, handles))
  }

  predicate IsWhole(pieces: seq<Piece>) {
    pieces != [] && HOLE !in pieces
  }

  /** A value renders whole exactly when the handles it names resolve. */
  lemma {:induction false} WholeIffResolves(v: Value, handles: set<nat>)
    requires Known(v)
    ensures IsWhole(Render(v, handles).pieces) <==> HandlesResolve(v, handles)
    decreases v, 0
  {
    match v
    case Scalar(code, _, bits) =>
    case Array(_, items) => NoHoleIffResolve(items, 0, false, handles);
    case Annotation(_, _, items) => NoHoleIffResolve(items, 0, true, handles);
  }

  lemma {:induction false} NoHoleIffResolve(items: Items, i: nat, named: bool, handles: set<nat>)
    requires ItemsKnown(items)
    ensures HOLE !in RenderItems(items, i, named, handles) <==> ItemsResolve(items, handles)
    decreases items, 0
  {
    hide Render;
    if items.Item? {
      WholeIffResolves(items.value, handles);
      NoHoleIffResolve(items.rest, i + 1, named, handles);
    }
  }

  /** Every scalar has one of the format's type codes, and an annotation without items says
      so. */
  predicate Known(v: Value)
    decreases v
  {
    match v
    case Scalar(code, arg, _) => Width(code, arg).Some?
    case Array(_, items) => ItemsKnown(items)
    case Annotation(_, declared, items) => ItemsKnown(items) && (declared % WORD == 0 ==> items.End?)
  }

  predicate ItemsKnown(items: Items)
    decreases items
  {
    items.End? || (Known(items.value) && ItemsKnown(items.rest))
  }

  lemma {:induction false} ParsedKnown(s: Bytes, p: nat, depth: nat, l: Limits)
    requires ParseValue(s, p, depth, l).Some?
    ensures Known(ParseValue(s, p, depth, l).value.0)
    decreases |s| - p, 0, 0
  {
    var code := s[p] % 32;
    if code == 0x1c {
      var size := Uleb(s, p + 1, ULEB_BYTES).value;
      ItemsParsedKnown(s, size.1, size.0 % WORD, depth + 1, false, l);
    } else if code == 0x1d {
      var t := Uleb(s, p + 1, ULEB_BYTES).value;
      var size := Uleb(s, t.1, ULEB_BYTES).value;
      ItemsParsedKnown(s, size.1, size.0 % WORD, depth + 1, true, l);
    }
  }

  lemma {:induction false} ItemsParsedKnown(s: Bytes, p: nat, n: nat, depth: nat, named: bool, l: Limits)
    requires p <= |s| && ParseItems(s, p, n, depth, named, l).Some?
    ensures ItemsKnown(ParseItems(s, p, n, depth, named, l).value.0)
    decreases |s| - p, 1, n
  {
    if n > 0 {
      var q := if named then Uleb(s, p, ULEB_BYTES).value.1 else p;
      ParsedKnown(s, q, depth, l);
      ItemsParsedKnown(s, ParseValue(s, q, depth, l).value.1, n - 1, depth, named, l);
    }
  }

  /** What the gate accepts, the decoder renders whole if and only if every method handle the
      value names resolves. */
  lemma AcceptedRendersWhole(s: Bytes, p: nat, depth: nat, l: Limits, handles: set<nat>)
    requires ParseValue(s, p, depth, l).Some?
    ensures var v := ParseValue(s, p, depth, l).value.0;
      IsWhole(Render(v, handles).pieces) <==> HandlesResolve(v, handles)
  {
    ParsedKnown(s, p, depth, l);
    WholeIffResolves(ParseValue(s, p, depth, l).value.0, handles);
  }
}
