/** The encoded_value format of a dex file, as a parser: what the bytes at a position say,
    where they end, and which of them the load-time gate admits. */
module EncodedValue {
  import opened Options

  type Byte = x: int | 0 <= x < 256

  type Bytes = seq<Byte>

  const MAX_DEPTH: nat := 16
  const WORD: nat := 0x1_0000_0000

  /** The sizes of the tables that indices point into. */
  datatype Limits = Limits(protos: nat, handles: nat, strings: nat, types: nat, fields: nat, methods: nat)

  /** A value. A scalar keeps its type code, its width argument and its payload, read as an
      unsigned little-endian number; an array or annotation keeps its declared size in
      full, while it holds that many items modulo the 32 bits of the gate's counter. */
  datatype Value =
    | Scalar(code: nat, arg: nat, bits: nat)
    | Array(declared: nat, items: Items)
    | Annotation(typeIdx: nat, declared: nat, items: Items)

  /** The items of an array, or the named ones of an annotation. */
  datatype Items = End | Item(name: nat, value: Value, rest: Items)

  function Length(items: Items): nat {
    if items.End? then 0 else 1 + Length(items.rest)
  }

  /** The number little-endian bytes stand for. */
  function LittleEndian(bs: Bytes): nat {
    if bs == [] then 0 else bs[0] + 256 * LittleEndian(bs[1..])
  }

  /** An unsigned LEB128 number of at most `k` bytes, and where it ends. */
  function Uleb(s: Bytes, p: nat, k: nat): (r: Option<(nat, nat)>)
    ensures r.Some? ==> p < r.value.1 <= |s|
    decreases k
  {
    if k == 0 || p >= |s| then None
    else if s[p] < 0x80 then Some((s[p], p + 1))
    else
      var r := Uleb(s, p + 1, k - 1);
      if r.None? then None else Some((s[p] - 0x80 + 0x80 * r.value.0, r.value.1))
  }

  const ULEB_BYTES: nat := 5

  /** The payload bytes a scalar of this type code and argument takes, where the gate
      admits the pair. */
  function Width(code: nat, arg: nat): Option<nat> {
    if code == 0x00 then (if arg == 0 then Some(1) else None)
    else if code == 0x02 || code == 0x03 then (if arg <= 1 then Some(arg + 1) else None)
    else if code == 0x04 || code == 0x10 then (if arg <= 3 then Some(arg + 1) else None)
    else if code == 0x06 || code == 0x11 then Some(arg + 1)
    else if 0x15 <= code <= 0x1b then (if arg <= 3 then Some(arg + 1) else None)
    else if code == 0x1e then (if arg == 0 then Some(0) else None)
    else if code == 0x1f then (if arg <= 1 then Some(0) else None)
    else None
  }

  /** The table an index of this type code points into. */
  function Table(code: nat, l: Limits): Option<nat> {
    match code
    case 0x15 => Some(l.protos)
    case 0x16 => Some(l.handles)
    case 0x17 => Some(l.strings)
    case 0x18 => Some(l.types)
    case 0x19 => Some(l.fields)
    case 0x1b => Some(l.fields)
    case 0x1a => Some(l.methods)
    case _ => None
  }

  function ParseScalar(s: Bytes, p: nat, code: nat, arg: nat, l: Limits): (r: Option<(Value, nat)>)
    requires p <= |s|
    ensures r.Some? ==> p <= r.value.1 <= |s|
  {
    var w := Width(code, arg);
    if w.None? || p + w.value > |s| then None
    else
      var bits := LittleEndian(s[p..p + w.value]);
      if Table(code, l).Some? && bits >= Table(code, l).value then None
      else Some((Scalar(code, arg, bits), p + w.value))
  }

  /** The value at `p`, at a nesting depth, and where it ends. */
  function ParseValue(s: Bytes, p: nat, depth: nat, l: Limits): (r: Option<(Value, nat)>)
    ensures r.Some? ==> p < r.value.1 <= |s| && depth <= MAX_DEPTH
    decreases |s| - p, 0, 0
  {
    if depth > MAX_DEPTH || p >= |s| then None
    else
      var code, arg := s[p] % 32, s[p] / 32;
      if code == 0x1c then
        if arg != 0 then None
        else
          var size := Uleb(s, p + 1, ULEB_BYTES);
          if size.None? then None
          else
            var items := ParseItems(s, size.value.1, size.value.0 % WORD, depth + 1, false, l);
            if items.None? then None else Some((Array(size.value.0, items.value.0), items.value.1))
      else if code == 0x1d then
        if arg != 0 then None else ParseAnnotation(s, p + 1, depth, l)
      else ParseScalar(s, p + 1, code, arg, l)
  }

  function ParseAnnotation(s: Bytes, p: nat, depth: nat, l: Limits): (r: Option<(Value, nat)>)
    requires p <= |s|
    ensures r.Some? ==> p < r.value.1 <= |s|
    decreases |s| - p, 2, 0
  {
    var t := Uleb(s, p, ULEB_BYTES);
    if t.None? || t.value.0 % WORD >= l.types then None
    else
      var size := Uleb(s, t.value.1, ULEB_BYTES);
      if size.None? then None
      else
        var items := ParseItems(s, size.value.1, size.value.0 % WORD, depth + 1, true, l);
        if items.None? then None
        else Some((Annotation(t.value.0 % WORD, size.value.0, items.value.0), items.value.1))
  }

  function ParseItems(s: Bytes, p: nat, n: nat, depth: nat, named: bool, l: Limits): (r: Option<(Items, nat)>)
    requires p <= |s|
    ensures r.Some? ==> p <= r.value.1 <= |s| && Length(r.value.0) == n
    decreases |s| - p, 1, n
  {
    if n == 0 then Some((End, p))
    else
      var name := if named then Uleb(s, p, ULEB_BYTES) else Some((0, p));
      if name.None? || (named && name.value.0 % WORD >= l.strings) then None
      else
        var v := ParseValue(s, name.value.1, depth, l);
        if v.None? then None
        else
          var rest := ParseItems(s, v.value.1, n - 1, depth, named, l);
          if rest.None? then None
          else Some((Item(name.value.0 % WORD, v.value.0, rest.value.0), rest.value.1))
  }

  /** The values of a bare array at `p`, its size as declared, and where it ends. */
  function ParseArray(s: Bytes, p: nat, l: Limits): (r: Option<(nat, Items, nat)>)
    ensures r.Some? ==> p < r.value.2 <= |s|
  {
    var size := Uleb(s, p, ULEB_BYTES);
    if size.None? then None
    else
      var items := ParseItems(s, size.value.1, size.value.0 % WORD, 0, false, l);
      if items.None? then None else Some((size.value.0, items.value.0, items.value.1))
  }

  /** Every index a value holds points into its table. */
  predicate InRange(v: Value, l: Limits)
    decreases v
  {
    match v
    case Scalar(code, _, bits) => Table(code, l).Some? ==> bits < Table(code, l).value
    case Array(_, items) => ItemsInRange(items, false, l)
    case Annotation(t, _, items) => t < l.types && ItemsInRange(items, true, l)
  }

  predicate ItemsInRange(items: Items, named: bool, l: Limits)
    decreases items
  {
    items.End? || ((named ==> items.name < l.strings) && InRange(items.value, l) && ItemsInRange(items.rest, named, l))
  }

  lemma {:induction false} ParsedInRange(s: Bytes, p: nat, depth: nat, l: Limits)
    requires ParseValue(s, p, depth, l).Some?
    ensures InRange(ParseValue(s, p, depth, l).value.0, l)
    decreases |s| - p, 0, 0
  {
    var code := s[p] % 32;
    if code == 0x1c {
      var size := Uleb(s, p + 1, ULEB_BYTES).value;
      ItemsParsedInRange(s, size.1, size.0 % WORD, depth + 1, false, l);
    } else if code == 0x1d {
      var t := Uleb(s, p + 1, ULEB_BYTES).value;
      var size := Uleb(s, t.1, ULEB_BYTES).value;
      ItemsParsedInRange(s, size.1, size.0 % WORD, depth + 1, true, l);
    }
  }

  lemma {:induction false} ItemsParsedInRange(s: Bytes, p: nat, n: nat, depth: nat, named: bool, l: Limits)
    requires p <= |s| && ParseItems(s, p, n, depth, named, l).Some?
    ensures ItemsInRange(ParseItems(s, p, n, depth, named, l).value.0, named, l)
    decreases |s| - p, 1, n
  {
    if n > 0 {
      var q := if named then Uleb(s, p, ULEB_BYTES).value.1 else p;
      ParsedInRange(s, q, depth, l);
      ItemsParsedInRange(s, ParseValue(s, q, depth, l).value.1, n - 1, depth, named, l);
    }
  }

  /** A number that ends by `e` reads the same when the bytes are cut off there. */
  lemma {:induction false} UlebWithin(s: Bytes, p: nat, k: nat, e: nat)
    requires Uleb(s, p, k).Some? && Uleb(s, p, k).value.1 <= e <= |s|
    ensures Uleb(s[..e], p, k) == Uleb(s, p, k)
    decreases k
  {
    if s[p] >= 0x80 { UlebWithin(s, p + 1, k - 1, e); }
  }

  /** A value that ends by `e` reads the same when the bytes are cut off there: a reader
      with a tighter bound than the gate's still sees the same value. */
  lemma {:induction false} ParsedWithin(s: Bytes, p: nat, depth: nat, l: Limits, e: nat)
    requires ParseValue(s, p, depth, l).Some? && ParseValue(s, p, depth, l).value.1 <= e <= |s|
    ensures ParseValue(s[..e], p, depth, l) == ParseValue(s, p, depth, l)
    decreases |s| - p, 0, 0
  {
    var t := s[..e];
    var code, arg := s[p] % 32, s[p] / 32;
    if code == 0x1c {
      var size := Uleb(s, p + 1, ULEB_BYTES).value;
      UlebWithin(s, p + 1, ULEB_BYTES, e);
      ItemsParsedWithin(s, size.1, size.0 % WORD, depth + 1, false, l, e);
    } else if code == 0x1d {
      var ty := Uleb(s, p + 1, ULEB_BYTES).value;
      var size := Uleb(s, ty.1, ULEB_BYTES).value;
      UlebWithin(s, p + 1, ULEB_BYTES, e);
      UlebWithin(s, ty.1, ULEB_BYTES, e);
      ItemsParsedWithin(s, size.1, size.0 % WORD, depth + 1, true, l, e);
    } else {
      var w := Width(code, arg).value;
      assert s[..e][p + 1..p + 1 + w] == s[p + 1..p + 1 + w];
    }
  }

  lemma {:induction false} ItemsParsedWithin(s: Bytes, p: nat, n: nat, depth: nat, named: bool, l: Limits, e: nat)
    requires p <= |s| && ParseItems(s, p, n, depth, named, l).Some?
    requires ParseItems(s, p, n, depth, named, l).value.1 <= e <= |s|
    ensures p <= e && ParseItems(s[..e], p, n, depth, named, l) == ParseItems(s, p, n, depth, named, l)
    decreases |s| - p, 1, n
  {
    if n > 0 {
      var q := if named then Uleb(s, p, ULEB_BYTES).value.1 else p;
      if named { UlebWithin(s, p, ULEB_BYTES, e); }
      ParsedWithin(s, q, depth, l, e);
      ItemsParsedWithin(s, ParseValue(s, q, depth, l).value.1, n - 1, depth, named, l, e);
    }
  }

  /** A number accepted within the first `e` bytes reads the same when more follow. */
  lemma {:induction false} UlebBeyond(s: Bytes, p: nat, k: nat, e: nat)
    requires e <= |s| && Uleb(s[..e], p, k).Some?
    ensures Uleb(s, p, k) == Uleb(s[..e], p, k)
    decreases k
  {
    if s[p] >= 0x80 { UlebBeyond(s, p + 1, k - 1, e); }
  }

  /** A value accepted within the first `e` bytes reads the same when more follow: a reader
      with a wider bound than the gate's still sees the same value. */
  lemma {:induction false} ParsedBeyond(s: Bytes, p: nat, depth: nat, l: Limits, e: nat)
    requires e <= |s| && ParseValue(s[..e], p, depth, l).Some?
    ensures ParseValue(s, p, depth, l) == ParseValue(s[..e], p, depth, l)
    decreases |s| - p, 0, 0
  {
    var t := s[..e];
    assert t[p] == s[p];
    var code, arg := s[p] % 32, s[p] / 32;
    if code == 0x1c {
      var size := Uleb(t, p + 1, ULEB_BYTES).value;
      UlebBeyond(s, p + 1, ULEB_BYTES, e);
      ItemsParsedBeyond(s, size.1, size.0 % WORD, depth + 1, false, l, e);
    } else if code == 0x1d {
      var ty := Uleb(t, p + 1, ULEB_BYTES).value;
      var size := Uleb(t, ty.1, ULEB_BYTES).value;
      UlebBeyond(s, p + 1, ULEB_BYTES, e);
      UlebBeyond(s, ty.1, ULEB_BYTES, e);
      ItemsParsedBeyond(s, size.1, size.0 % WORD, depth + 1, true, l, e);
    } else {
      var w := Width(code, arg).value;
      assert t[p + 1..p + 1 + w] == s[p + 1..p + 1 + w];
    }
  }

  lemma {:induction false} ItemsParsedBeyond(s: Bytes, p: nat, n: nat, depth: nat, named: bool, l: Limits, e: nat)
    requires p <= e <= |s| && ParseItems(s[..e], p, n, depth, named, l).Some?
    ensures ParseItems(s, p, n, depth, named, l) == ParseItems(s[..e], p, n, depth, named, l)
    decreases |s| - p, 1, n
  {
    if n > 0 {
      var t := s[..e];
      var q := if named then Uleb(t, p, ULEB_BYTES).value.1 else p;
      if named { UlebBeyond(s, p, ULEB_BYTES, e); }
      ParsedBeyond(s, q, depth, l, e);
      ItemsParsedBeyond(s, ParseValue(t, q, depth, l).value.1, n - 1, depth, named, l, e);
    }
  }

  /** So does a bare array. */
  lemma ArrayBeyond(s: Bytes, p: nat, l: Limits, e: nat)
    requires e <= |s| && ParseArray(s[..e], p, l).Some?
    ensures ParseArray(s, p, l) == ParseArray(s[..e], p, l)
  {
    var size := Uleb(s[..e], p, ULEB_BYTES).value;
    UlebBeyond(s, p, ULEB_BYTES, e);
    ItemsParsedBeyond(s, size.1, size.0 % WORD, 0, false, l, e);
  }
}
