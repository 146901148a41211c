/** The reader that collects string indices. It counts items in 64 bits where the gate
    counts in 32, so it keeps step exactly when no declared size needs more. */
module EncodedScan {
  import opened Options
  import opened EncodedValue
  import opened EncodedReaders
  import opened EncodedText

  /** The string indices of a value, in order. */
  function Strings(v: Value): seq<nat>
    decreases v
  {
    match v
    case Scalar(code, _, bits) => if code == 0x17 then [bits] else []
    case Array(_, items) => ItemStrings(items)
    case Annotation(_, _, items) => ItemStrings(items)
  }

  function ItemStrings(items: Items): seq<nat>
    decreases items
  {
    if items.End? then [] else Strings(items.value) + ItemStrings(items.rest)
  }

  /** Some array or annotation declares a size beyond 32 bits, and the scanner, whose depth
      is capped, still reads bytes for its items. */
  predicate Oversize(v: Value, depth: nat)
    decreases v
  {
    match v
    case Scalar(_, _, _) => false
    case Array(declared, items) => (declared >= WORD && depth < MAX_DEPTH) || ItemsOversize(items, depth + 1)
    case Annotation(_, declared, items) => declared >= WORD || ItemsOversize(items, depth + 1)
  }

  predicate ItemsOversize(items: Items, depth: nat)
    decreases items
  {
    items.Item? && (Oversize(items.value, depth) || ItemsOversize(items.rest, depth))
  }

  /** Collects the string indices of the value at `p`. Where the gate accepts a value, it
      ends where the gate did and finds exactly the value's strings, unless a declared size
      is beyond 32 bits: then it runs to the end of the bytes. */
  method ScanEncodedValueStrings(s: Bytes, p: nat, l: Limits, out: seq<nat>, depth: nat)
    returns (out': seq<nat>, p': nat)
    requires p <= |s| < WORD
    ensures p <= p' <= |s|
    ensures p < |s| && depth <= MAX_DEPTH ==> p < p'
    ensures depth > MAX_DEPTH ==> p' == p && out' == out
    ensures ParseValue(s, p, depth, l).Some? ==>
      var r := ParseValue(s, p, depth, l).value;
      if Oversize(r.0, depth) then p' == |s| else p' == r.1 && out' == out + Strings(r.0)
    ensures ParseValue(s, p, depth, l).Some? ==>
      var r := ParseValue(s, p, depth, l).value;
      p' == r.1 <==> !Oversize(r.0, depth) || r.1 == |s|
    decreases |s| - p, 0
  {
    hide ParseScalar, Uleb, ParseItems, ItemStrings, ItemsOversize;
    out', p' := out, p;
    if p >= |s| || depth > MAX_DEPTH { return; }
    var code, arg := s[p] % 32, s[p] / 32;
    p' := p + 1;
    if code == 0x17 {
      var idx;
      idx, p' := ReadIntLE(s, p', arg + 1);
      StringArm(s, p + 1, arg, l);
      out' := out + [idx % WORD];
    } else if code == 0x1c {
      var size, q := ScanUleb(s, p');
      out', p' := ScanItems(s, q, size, depth + 1, false, l, out);
    } else if code == 0x1d {
      var _, q := ScanUleb(s, p');
      var size, r := ScanUleb(s, q);
      out', p' := ScanItems(s, r, size, depth + 1, true, l, out);
    } else if code == 0x1e || code == 0x1f {
      EmptyArm(s, p + 1, code, arg, l);
    } else {
      var avail := |s| - p';
      p' := p' + (if arg + 1 < avail then arg + 1 else avail);
      FixedArm(s, p + 1, code, arg, l);
    }
    assert out == out + [];
  }

  lemma StringArm(s: Bytes, p: nat, arg: nat, l: Limits)
    requires p <= |s|
    ensures var r := ParseScalar(s, p, 0x17, arg, l);
      r.Some? ==> p + arg + 1 <= |s| && r.value == (Scalar(0x17, arg, LittleEndian(s[p..p + arg + 1])), p + arg + 1)
                  && LittleEndian(s[p..p + arg + 1]) < WORD
  {
    var r := ParseScalar(s, p, 0x17, arg, l);
    if r.Some? {
      LittleEndianBound(s[p..p + arg + 1]);
      IndexFits(LittleEndian(s[p..p + arg + 1]), arg + 1);
    }
  }

  lemma EmptyArm(s: Bytes, p: nat, code: nat, arg: nat, l: Limits)
    requires p <= |s| && (code == 0x1e || code == 0x1f)
    ensures var r := ParseScalar(s, p, code, arg, l);
      r.Some? ==> r.value.0.Scalar? && r.value.0.code == code && r.value.1 == p
  {
  }

  lemma FixedArm(s: Bytes, p: nat, code: nat, arg: nat, l: Limits)
    requires p <= |s| && code < 0x1c
    ensures var r := ParseScalar(s, p, code, arg, l);
      r.Some? ==> r.value.0.Scalar? && r.value.0.code == code && p + arg + 1 <= |s| && r.value.1 == p + arg + 1
  {
  }

  /** The strings so far and those to come are all of them, and no size is too large so
      far; or one was, and the bytes are used up. */
  ghost predicate Scanning(s: Bytes, p: nat, n: nat, depth: nat, named: bool, l: Limits, items: Items, q: nat,
        out: seq<nat>, all: seq<nat>, over: bool)
    requires p <= |s|
  {
    || (over && p == |s|)
    || (LeftToRender(s, p, n, depth, named, l, items, q)
        && out + ItemStrings(items) == all && (over <==> ItemsOversize(items, depth)))
  }

  lemma ScanningStarts(s: Bytes, p: nat, n: nat, depth: nat, named: bool, l: Limits, items: Items, q: nat,
        out: seq<nat>)
    requires p <= |s| && LeftToRender(s, p, n, depth, named, l, items, q)
    ensures Scanning(s, p, n, depth, named, l, items, q, out, out + ItemStrings(items), ItemsOversize(items, depth))
  {
  }

  /** The value the scanner finds next, where it is still in step. */
  lemma ScanningNext(s: Bytes, p: nat, n: nat, depth: nat, named: bool, l: Limits, items: Items, q: nat,
        out: seq<nat>, all: seq<nat>, over: bool, r: nat, p': nat, out': seq<nat>)
    requires p < |s| && n > 0 && Scanning(s, p, n, depth, named, l, items, q, out, all, over)
    requires r == if !named then p else if Uleb(s, p, ULEB_BYTES).Some? then Uleb(s, p, ULEB_BYTES).value.1 else r
    requires p' <= |s|
    requires ParseValue(s, r, depth, l).Some? ==>
      var v := ParseValue(s, r, depth, l).value;
      if Oversize(v.0, depth) then p' == |s| else p' == v.1 && out' == out + Strings(v.0)
    ensures items.Item? && Scanning(s, p', n - 1, depth, named, l, items.rest, q, out', all, over)
  {
    hide ParseValue, Oversize, Strings, Uleb, LeftToRender, ItemStrings, ItemsOversize;
    SomeLeft(s, p, n, depth, named, l, items, q);
    var v := ParseValue(s, r, depth, l).value;
    ScanningStep(items, depth, out, all, over);
  }

  lemma ScanningStep(items: Items, depth: nat, out: seq<nat>, all: seq<nat>, over: bool)
    requires items.Item? && out + ItemStrings(items) == all && (over <==> ItemsOversize(items, depth))
    ensures (out + Strings(items.value)) + ItemStrings(items.rest) == all
    ensures over <==> Oversize(items.value, depth) || ItemsOversize(items.rest, depth)
  {
    hide Strings, Oversize;
    assert out + (Strings(items.value) + ItemStrings(items.rest)) ==
      (out + Strings(items.value)) + ItemStrings(items.rest);
  }

  lemma ScanningDone(s: Bytes, p: nat, depth: nat, named: bool, l: Limits, items: Items, q: nat, out: seq<nat>,
        all: seq<nat>, over: bool)
    requires p <= |s| && Scanning(s, p, 0, depth, named, l, items, q, out, all, over)
    ensures if over then p == |s| else p == q && out == all
  {
    if !(over && p == |s|) { NoneLeft(s, p, depth, named, l, items, q); }
  }

  lemma ScanningAtEnd(s: Bytes, p: nat, n: nat, depth: nat, named: bool, l: Limits, items: Items, q: nat,
        out: seq<nat>, all: seq<nat>, over: bool)
    requires p == |s| && n > 0 && Scanning(s, p, n, depth, named, l, items, q, out, all, over)
    ensures over
  {
    if !over { SomeLeft(s, p, n, depth, named, l, items, q); }
  }

  /** Beyond the depth cap the gate accepts no item. */
  lemma TooDeep(s: Bytes, p: nat, n: nat, depth: nat, named: bool, l: Limits)
    requires p <= |s| && depth > MAX_DEPTH && ParseItems(s, p, n, depth, named, l).Some?
    ensures n == 0 && ParseItems(s, p, n, depth, named, l) == Some((End, p))
  {
  }

  /** The scanner's loop over `size` items, the size counted in full. */
  method ScanItems(s: Bytes, p: nat, size: nat, depth: nat, named: bool, l: Limits, out: seq<nat>)
    returns (out': seq<nat>, p': nat)
    requires p <= |s| < WORD
    ensures p <= p' <= |s|
    ensures ParseItems(s, p, size % WORD, depth, named, l).Some? ==>
      var r := ParseItems(s, p, size % WORD, depth, named, l).value;
      if (size >= WORD && (named || depth <= MAX_DEPTH)) || ItemsOversize(r.0, depth) then p' == |s|
      else p' == r.1 && out' == out + ItemStrings(r.0)
    decreases |s| - p, 1
  {
    hide *;
    out', p' := out, p;
    var i: nat := 0;
    ghost var parsed, rest, q := StartsParsed(s, p, size % WORD, depth, named, l);
    ghost var items := rest;
    ghost var all, over := out + ItemStrings(rest), ItemsOversize(rest, depth);
    ghost var inStep := parsed && size < WORD;
    if inStep { ScanningStarts(s, p, size, depth, named, l, rest, q, out); }
    while i < size && p' < |s|
      invariant p <= p' <= |s| && i <= size
      invariant named || depth <= MAX_DEPTH ==> p' >= p + i
      invariant !named && depth > MAX_DEPTH ==> p' == p && out' == out
      invariant inStep ==> Scanning(s, p', size - i, depth, named, l, rest, q, out', all, over)
      decreases size - i
    {
      ghost var start, before := p', out';
      if named {
        var _, r := ScanUleb(s, p');
        p' := r;
      }
      ghost var at := p';
      out', p' := ScanEncodedValueStrings(s, p', l, out', depth);
      if inStep {
        ScanningNext(s, start, size - i, depth, named, l, rest, q, before, all, over, at, p', out');
        rest := rest.rest;
      }
      i := i + 1;
    }
    if inStep {
      if i < size {
        ScanningAtEnd(s, p', size - i, depth, named, l, rest, q, out', all, over);
      } else {
        ScanningDone(s, p', depth, named, l, rest, q, out', all, over);
      }
    } else if parsed && !named && depth > MAX_DEPTH {
      TooDeep(s, p, size % WORD, depth, named, l);
      NoItems(depth);
      assert out + [] == out;
    }
  }

  lemma NoItems(depth: nat)
    ensures ItemStrings(End) == [] && !ItemsOversize(End, depth)
  {
  }

  /** An empty array to the gate, whose declared size is 2 to the power 32, and a null
      after it. */
  const WRAPPED: Bytes := [0x1c, 0x80, 0x80, 0x80, 0x80, 0x10, 0x1e]

  /** The gate stops behind the array; the scanner, which must then run to the end of the
      bytes, does not stop there. */
  lemma WrappedSize(l: Limits)
    ensures ParseValue(WRAPPED, 0, 0, l) == Some((Array(WORD, End), 6))
    ensures Oversize(Array(WORD, End), 0) && 6 < |WRAPPED|
  {
    assert Uleb(WRAPPED, 5, 1) == Some((0x10, 6));
    assert Uleb(WRAPPED, 4, 2) == Some((0x800, 6));
    assert Uleb(WRAPPED, 3, 3) == Some((0x4_0000, 6));
    assert Uleb(WRAPPED, 2, 4) == Some((0x200_0000, 6));
    assert Uleb(WRAPPED, 1, 5) == Some((WORD, 6));
    assert ParseItems(WRAPPED, 6, 0, 1, false, l) == Some((End, 6));
  }

  /** The strings of one class's static values. The gate accepted the array within the dex's
      data, the first `size` bytes, and the scanner's bound is the end of the image. */
  method ScanClassDefStaticStrings(s: Bytes, ghost size: nat, off: nat, l: Limits) returns (ids: seq<nat>)
    requires size <= |s| < WORD
    ensures off > 0 && ParseArray(s[..size], off, l).Some? ==>
      var r := ParseArray(s[..size], off, l).value;
      r.0 < WORD && !ItemsOversize(r.1, 0) ==> ids == ItemStrings(r.1)
  {
    hide Uleb, ParseItems, ItemStrings, ItemsOversize;
    if ParseArray(s[..size], off, l).Some? { ArrayBeyond(s, off, l, size); }
    ids := [];
    if off == 0 || off >= |s| {
      return;
    }
    var count, p := ScanUleb(s, off);
    ids, p := ScanItems(s, p, count, 0, false, l, []);
  }

  function ItemAt(items: Items, i: nat): Value
    requires i < Length(items)
  {
    if i == 0 then items.value else ItemAt(items.rest, i - 1)
  }

  const WINDOW: nat := 0x10_0000

  /** The texts of the first `n` values. */
  function Texts(items: Items, n: nat, handles: set<nat>): (r: seq<Text>)
    requires n <= Length(items)
    ensures |r| == n
  {
    seq(n, i requires 0 <= i < n => Render(ItemAt(items, i), handles))
  }

  /** The static initializers of a class: value `i` belongs to field `i`, and a value that
      renders to nothing is left out. */
  ghost predicate Initializes(m: map<nat, Text>, fields: seq<nat>, ts: seq<Text>)
    requires |ts| <= |fields|
  {
    && (forall i: nat :: i < |ts| && First(fields, ts, i) ==> fields[i] in m && m[fields[i]] == ts[i])
    && forall f :: f in m ==> exists i: nat :: i < |ts| && fields[i] == f && First(fields, ts, i)
  }

  /** Value `i` renders to something, and no value before it does for the same field. */
  ghost predicate First(fields: seq<nat>, ts: seq<Text>, i: nat)
    requires i < |ts| <= |fields|
  {
    ts[i].pieces != [] && forall j: nat :: j < i && fields[j] == fields[i] ==> ts[j].pieces == []
  }

  ghost function Drop(items: Items, i: nat): (r: Items)
    requires i <= Length(items)
    ensures Length(r) == Length(items) - i
  {
    if i == 0 then items else Drop(items.rest, i - 1)
  }

  lemma {:induction false} DropAt(items: Items, i: nat)
    requires i < Length(items)
    ensures Drop(items, i).Item? && Drop(items, i).value == ItemAt(items, i)
    ensures Drop(items, i).rest == Drop(items, i + 1)
  {
    if i > 0 { DropAt(items.rest, i - 1); }
  }

  /** An array that ends by `e` reads the same when the bytes are cut off there. */
  lemma ArrayWithin(s: Bytes, p: nat, l: Limits, e: nat)
    requires ParseArray(s, p, l).Some? && ParseArray(s, p, l).value.2 <= e <= |s|
    ensures ParseArray(s[..e], p, l) == ParseArray(s, p, l)
  {
    var size := Uleb(s, p, ULEB_BYTES).value;
    ItemsParsedWithin(s, size.1, size.0 % WORD, 0, false, l, e);
    UlebWithin(s, p, ULEB_BYTES, e);
  }

  lemma FirstSame(fields: seq<nat>, ts: seq<Text>, t: Text, i: nat)
    requires i < |ts| < |fields|
    ensures First(fields, ts + [t], i) <==> First(fields, ts, i)
  {
    assert forall j: nat :: j <= i ==> (ts + [t])[j] == ts[j];
  }

  lemma InitializesMore(m: map<nat, Text>, fields: seq<nat>, ts: seq<Text>, t: Text)
    requires |ts| < |fields| && Initializes(m, fields, ts)
    ensures Initializes(if t.pieces != [] && fields[|ts|] !in m then m[fields[|ts|] := t] else m, fields, ts + [t])
  {
    hide First;
    var n := |ts|;
    forall i: nat | i < n ensures First(fields, ts + [t], i) <==> First(fields, ts, i) {
      FirstSame(fields, ts, t, i);
    }
    NewFirst(m, fields, ts, t);
  }

  /** The new value is the first of its field exactly when it renders to something and the
      field has none yet. */
  lemma NewFirst(m: map<nat, Text>, fields: seq<nat>, ts: seq<Text>, t: Text)
    requires |ts| < |fields| && Initializes(m, fields, ts)
    ensures First(fields, ts + [t], |ts|) <==> t.pieces != [] && fields[|ts|] !in m
  {
    var n := |ts|;
    if fields[n] in m {
      var i: nat :| i < n && fields[i] == fields[n] && First(fields, ts, i);
      assert (ts + [t])[i] == ts[i];
    } else if j: nat :| j < n && fields[j] == fields[n] && ts[j].pieces != [] {
      var i := FirstOf(fields, ts, j);
    }
  }

  /** Among the values for a field that render to something there is a first one. */
  lemma {:induction false} FirstOf(fields: seq<nat>, ts: seq<Text>, n: nat) returns (i: nat)
    requires n < |ts| <= |fields| && ts[n].pieces != []
    ensures i <= n && fields[i] == fields[n] && First(fields, ts, i)
  {
    i := n;
    if j: nat :| j < n && fields[j] == fields[n] && ts[j].pieces != [] {
      i := FirstOf(fields, ts, j);
    }
  }

  /** The gate has accepted the array, and it fits the window. */
  ghost predicate Accepted(s: Bytes, size: nat, off: nat, l: Limits)
    requires size <= |s|
  {
    off > 0 && ParseArray(s[..size], off, l).Some? && ParseArray(s[..size], off, l).value.2 <= off + WINDOW
  }

  /** Item `i` comes next, and those before it have initialized their fields. */
  ghost predicate Initializing(t: Bytes, p: nat, count: nat, i: nat, l: Limits, items: Items, q: nat,
        fields: seq<nat>, m: map<nat, Text>, handles: set<nat>)
  {
    && i <= count == Length(items) && i <= |fields| && p <= |t|
    && LeftToRender(t, p, count - i, 0, false, l, Drop(items, i), q)
    && Initializes(m, fields, Texts(items, i, handles))
  }

  lemma InitializesNone(fields: seq<nat>)
    ensures Initializes(map[], fields, [])
  {
  }

  lemma InitNone(s: Bytes, size: nat, off: nat, fields: seq<nat>, l: Limits, handles: set<nat>)
    requires size <= |s| && (off == 0 || fields == [] || off >= |s|)
    ensures Accepted(s, size, off, l) ==>
      |fields| == 0 && Initializes(map[], fields, Texts(ParseArray(s[..size], off, l).value.1, 0, handles))
  {
    hide ParseItems;
  }

  /** The window holds the array the gate accepted. */
  lemma InitStarts(s: Bytes, size: nat, off: nat, t: Bytes, count: nat, p: nat, l: Limits, fields: seq<nat>,
        handles: set<nat>) returns (items: Items, q: nat)
    requires size <= |s| && t == s[..if off + WINDOW < |s| then off + WINDOW else |s|] && p <= |t|
    requires var u := Uleb(t, off, ULEB_BYTES); u.Some? ==> count == u.value.0 % WORD && p == u.value.1
    ensures Accepted(s, size, off, l) ==>
      && items == ParseArray(s[..size], off, l).value.1
      && Initializing(t, p, count, 0, l, items, q, fields, map[], handles)
  {
    items, q := End, 0;
    if Accepted(s, size, off, l) {
      ArrayBeyond(s, off, l, size);
      ArrayWithin(s, off, l, |t|);
      hide Uleb, ParseItems, Initializes;
      items, q := ParseArray(s, off, l).value.1, ParseArray(s, off, l).value.2;
      TextsNone(items, handles);
      InitializesNone(fields);
    }
  }

  lemma TextsNone(items: Items, handles: set<nat>)
    ensures Texts(items, 0, handles) == []
  {
  }

  /** Before item `i` is read. */
  lemma InitSome(t: Bytes, p: nat, count: nat, i: nat, l: Limits, items: Items, q: nat, fields: seq<nat>,
        m: map<nat, Text>, handles: set<nat>)
    requires Initializing(t, p, count, i, l, items, q, fields, m, handles) && i < count
    ensures i < Length(items) && ParseValue(t, p, 0, l).Some? && ParseValue(t, p, 0, l).value.0 == ItemAt(items, i)
  {
    hide ParseItems, Initializes;
    DropAt(items, i);
    SomeLeft(t, p, count - i, 0, false, l, Drop(items, i), q);
  }

  /** After it is read. */
  lemma InitNext(t: Bytes, p: nat, count: nat, i: nat, l: Limits, items: Items, q: nat, fields: seq<nat>,
        m: map<nat, Text>, handles: set<nat>, p': nat, m': map<nat, Text>)
    requires Initializing(t, p, count, i, l, items, q, fields, m, handles) && i < count && i < |fields|
    requires ParseValue(t, p, 0, l).Some? && p' == ParseValue(t, p, 0, l).value.1 && i < Length(items)
    requires var x := Render(ItemAt(items, i), handles);
      m' == if x.pieces != [] && fields[i] !in m then m[fields[i] := x] else m
    ensures Initializing(t, p', count, i + 1, l, items, q, fields, m', handles)
  {
    hide ParseItems, Initializes, Render;
    DropAt(items, i);
    SomeLeft(t, p, count - i, 0, false, l, Drop(items, i), q);
    var x := Render(ItemAt(items, i), handles);
    assert Texts(items, i + 1, handles) == Texts(items, i, handles) + [x];
    InitializesMore(m, fields, Texts(items, i, handles), x);
  }

  /** The static initializers of a class, read within a window of bytes of the image. Behind a
      gate that accepted the array within the dex's data, the first `size` bytes, and where it
      fits the window, each field gets its own value. */
  method DecodeStaticInitMap(s: Bytes, ghost size: nat, off: nat, fields: seq<nat>, l: Limits, handles: set<nat>)
    returns (m: map<nat, Text>)
    requires size <= |s|
    ensures Accepted(s, size, off, l) ==>
      var items := ParseArray(s[..size], off, l).value.1;
      Initializes(m, fields, Texts(items, if Length(items) < |fields| then Length(items) else |fields|, handles))
  {
    hide *;
    m := map[];
    if off == 0 || fields == [] || off >= |s| {
      InitNone(s, size, off, fields, l, handles);
      return;
    }
    var end := if off + WINDOW < |s| then off + WINDOW else |s|;
    var t := s[..end];
    var count, p := ReadULEB128(t, off);
    var n := if count > |fields| then |fields| else count;
    ghost var parsed := Accepted(s, size, off, l);
    ghost var items, q := InitStarts(s, size, off, t, count, p, l, fields, handles);
    for i := 0 to n
      invariant off <= p <= |t|
      invariant parsed ==> Initializing(t, p, count, i, l, items, q, fields, m, handles)
    {
      ghost var at, before := p, m;
      if parsed { InitSome(t, p, count, i, l, items, q, fields, m, handles); }
      var value;
      value, p := DecodeEncodedValueText(t, p, l, handles, 0);
      if value.pieces != [] && fields[i] !in m {
        m := m[fields[i] := value];
      }
      if parsed { InitNext(t, at, count, i, l, items, q, fields, before, handles, p, m); }
    }
    if parsed { InitParts(t, p, count, n, l, items, q, fields, m, handles); }
  }

  lemma InitParts(t: Bytes, p: nat, count: nat, i: nat, l: Limits, items: Items, q: nat, fields: seq<nat>,
        m: map<nat, Text>, handles: set<nat>)
    requires Initializing(t, p, count, i, l, items, q, fields, m, handles)
    ensures i <= count == Length(items) && Initializes(m, fields, Texts(items, i, handles))
  {
  }
}
