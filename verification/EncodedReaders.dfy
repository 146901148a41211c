/** The number readers below every decoder, and the load-time gate itself: byte cursors
    proved against the format. */
module EncodedReaders {
  import opened Options
  import opened EncodedValue

  /** 128 to the power `i`. */
  function Weight(i: nat): nat
    requires i <= 5
  {
    match i
    case 0 => 1
    case 1 => 0x80
    case 2 => 0x4000
    case 3 => 0x20_0000
    case 4 => 0x1000_0000
    case 5 => 0x8_0000_0000
  }

  /** `i` bytes of the number at `p` are read, up to `c`, and amount to `acc`. */
  ghost predicate HalfRead(s: Bytes, p: nat, c: nat, i: nat, acc: nat) {
    && i <= ULEB_BYTES && acc < Weight(i)
    && match Uleb(s, c, ULEB_BYTES - i)
       case None => Uleb(s, p, ULEB_BYTES) == None
       case Some(r) => Uleb(s, p, ULEB_BYTES) == Some((acc + Weight(i) * r.0, r.1))
  }

  /** What byte number `i` adds: its low seven bits, shifted into place. */
  function Chunk(b: Byte, i: nat): nat
    requires i <= 5
  {
    b % 0x80 * Weight(i)
  }

  lemma Spread(w: nat, b: nat, v: nat)
    ensures w * (b + 0x80 * v) == b * w + 0x80 * w * v
  {
    assert w * (0x80 * v) == 0x80 * w * v;
  }

  lemma ChunkBound(b: Byte, i: nat, acc: nat)
    requires i < 5 && acc < Weight(i)
    ensures Weight(i + 1) == 0x80 * Weight(i)
    ensures acc + Chunk(b, i) < Weight(i + 1)
  {
    var m, w := b % 0x80, Weight(i);
    assert m * w <= 127 * w;
  }

  lemma ReadOn(s: Bytes, p: nat, c: nat, i: nat, acc: nat)
    requires HalfRead(s, p, c, i, acc) && i < ULEB_BYTES && c < |s| && s[c] >= 0x80
    ensures HalfRead(s, p, c + 1, i + 1, acc + Chunk(s[c], i))
    ensures acc + Chunk(s[c], i) < Weight(i + 1)
  {
    ChunkBound(s[c], i, acc);
    var r := Uleb(s, c + 1, ULEB_BYTES - (i + 1));
    if r.Some? {
      Spread(Weight(i), s[c] - 0x80, r.value.0);
      assert s[c] % 0x80 == s[c] - 0x80;
    }
    hide Weight;
  }

  lemma ReadLast(s: Bytes, p: nat, c: nat, i: nat, acc: nat)
    requires HalfRead(s, p, c, i, acc) && i < ULEB_BYTES && c < |s| && s[c] < 0x80
    ensures Uleb(s, p, ULEB_BYTES) == Some((acc + Chunk(s[c], i), c + 1)) && acc + Chunk(s[c], i) < Weight(i + 1)
  {
    ChunkBound(s[c], i, acc);
    hide Weight;
  }

  lemma Wrap(acc: nat, x: nat)
    ensures (acc % WORD + x) % WORD == (acc + x) % WORD
  {
  }

  /** No number of five bytes fills 64 bits. */
  lemma WeightBound(i: nat)
    requires i <= 5
    ensures Weight(i) <= 0x8_0000_0000
  {
  }

  /** A number of five bytes at most, wrapped to 32 bits; anything longer is refused. */
  method ReadUleb(s: Bytes, p: nat) returns (ok: bool, out: nat, p': nat)
    ensures ok <==> Uleb(s, p, ULEB_BYTES).Some?
    ensures ok ==> out == Uleb(s, p, ULEB_BYTES).value.0 % WORD && p' == Uleb(s, p, ULEB_BYTES).value.1
  {
    hide Uleb, HalfRead, Weight, Chunk;
    HalfStart(s, p);
    var result: nat, c: nat := 0, p;
    ghost var acc: nat := 0;
    for i: nat := 0 to 5
      invariant c <= |s| || i == 0
      invariant HalfRead(s, p, c, i, acc) && result == acc % WORD
    {
      if c >= |s| {
        HalfFails(s, p, c, i, acc);
        return false, 0, p;
      }
      var b := s[c];
      result := (result + Chunk(b, i)) % WORD;
      Wrap(acc, Chunk(b, i));
      if b < 0x80 {
        ReadLast(s, p, c, i, acc);
        return true, result, c + 1;
      }
      ReadOn(s, p, c, i, acc);
      acc := acc + Chunk(b, i);
      c := c + 1;
    }
    HalfFails(s, p, c, 5, acc);
    return false, 0, p;
  }

  lemma HalfStart(s: Bytes, p: nat)
    ensures HalfRead(s, p, p, 0, 0)
  {
  }

  lemma HalfFails(s: Bytes, p: nat, c: nat, i: nat, acc: nat)
    requires HalfRead(s, p, c, i, acc) && (c >= |s| || i == ULEB_BYTES)
    ensures Uleb(s, p, ULEB_BYTES).None?
  {
  }

  /** The decoder's reader: it stops quietly where the gate refuses. */
  method ReadULEB128(s: Bytes, p: nat) returns (result: nat, p': nat)
    requires p <= |s|
    ensures p <= p' <= |s| && (p < |s| ==> p < p')
    ensures Uleb(s, p, ULEB_BYTES).Some? ==>
      result == Uleb(s, p, ULEB_BYTES).value.0 % WORD && p' == Uleb(s, p, ULEB_BYTES).value.1
  {
    hide Uleb, HalfRead, Weight, Chunk;
    HalfStart(s, p);
    result, p' := 0, p;
    ghost var acc: nat := 0;
    var i: nat := 0;
    while p' < |s|
      invariant p <= p' <= |s| && i < 5 && (p' == p ==> i == 0)
      invariant HalfRead(s, p, p', i, acc) && result == acc % WORD
      decreases |s| - p'
    {
      var b := s[p'];
      result := (result + Chunk(b, i)) % WORD;
      Wrap(acc, Chunk(b, i));
      p' := p' + 1;
      if b < 0x80 {
        ReadLast(s, p, p' - 1, i, acc);
        return;
      }
      ReadOn(s, p, p' - 1, i, acc);
      acc := acc + Chunk(b, i);
      i := i + 1;
      if 7 * i >= 32 {
        HalfFails(s, p, p', i, acc);
        return;
      }
    }
    HalfFails(s, p, p', i, acc);
  }

  const DOUBLE_WORD: nat := 0x1_0000_0000_0000_0000

  /** The scanner's reader: 64 bits wide, so it keeps what the gate wraps away. */
  method ScanUleb(s: Bytes, p: nat) returns (result: nat, p': nat)
    requires p <= |s|
    ensures p <= p' <= |s| && (p < |s| ==> p < p')
    ensures Uleb(s, p, ULEB_BYTES).Some? ==>
      result == Uleb(s, p, ULEB_BYTES).value.0 && p' == Uleb(s, p, ULEB_BYTES).value.1
  {
    hide Uleb, HalfRead, Weight;
    assert Weight(0) == 1 by { WeightOne(); }
    HalfStart(s, p);
    result, p' := 0, p;
    var i: nat, weight: nat := 0, 1;
    while p' < |s| && 7 * i < 64
      invariant p <= p' <= |s| && (p' == p ==> i == 0)
      invariant i <= 5 ==> weight == Weight(i) && HalfRead(s, p, p', i, result)
      invariant i > 5 ==> Uleb(s, p, ULEB_BYTES).None?
      decreases |s| - p'
    {
      var b := s[p'];
      ghost var acc: nat := result;
      if i < 5 {
        HalfAcc(s, p, p', i, acc);
        ChunkBound(b, i, acc);
        WeightBound(i + 1);
      }
      result := (result + b % 0x80 * weight) % DOUBLE_WORD;
      p' := p' + 1;
      if b < 0x80 {
        if i < 5 {
          ReadLast(s, p, p' - 1, i, acc);
        } else if i == 5 {
          HalfFails(s, p, p' - 1, i, acc);
        }
        return;
      }
      if i < 5 {
        ReadOn(s, p, p' - 1, i, acc);
      } else if i == 5 {
        HalfFails(s, p, p' - 1, i, acc);
      }
      i := i + 1;
      weight := weight * 0x80;
    }
    if i <= 5 { HalfFails(s, p, p', i, result); }
  }

  lemma WeightOne()
    ensures Weight(0) == 1
  {
  }

  lemma HalfAcc(s: Bytes, p: nat, c: nat, i: nat, acc: nat)
    requires HalfRead(s, p, c, i, acc)
    ensures acc < Weight(i)
  {
  }

  /** 256 to the power `n`. */
  function Pow256(n: nat): (r: nat)
    ensures r > 0
  {
    if n == 0 then 1 else 256 * Pow256(n - 1)
  }

  lemma {:induction false} LittleEndianMore(bs: Bytes, b: Byte)
    ensures LittleEndian(bs + [b]) == LittleEndian(bs) + Pow256(|bs|) * b
  {
    if bs == [] {
      assert (bs + [b])[1..] == [];
    } else {
      assert (bs + [b])[1..] == bs[1..] + [b];
      LittleEndianMore(bs[1..], b);
    }
  }

  lemma {:induction false} LittleEndianBound(bs: Bytes)
    ensures LittleEndian(bs) < Pow256(|bs|)
  {
    if bs != [] { LittleEndianBound(bs[1..]); }
  }

  /** Little-endian bytes, as many of `nbytes` as there are. */
  method ReadIntLE(s: Bytes, p: nat, nbytes: nat) returns (v: nat, p': nat)
    requires p <= |s|
    ensures p <= p' <= |s|
    ensures p + nbytes <= |s| ==> p' == p + nbytes && v == LittleEndian(s[p..p + nbytes])
  {
    v, p' := 0, p;
    var i: nat, weight: nat := 0, 1;
    while i < nbytes && p' < |s|
      invariant i <= nbytes && p' == p + i <= |s|
      invariant weight == Pow256(i) && v == LittleEndian(s[p..p'])
    {
      assert s[p..p' + 1] == s[p..p'] + [s[p']];
      LittleEndianMore(s[p..p'], s[p']);
      v := v + weight * s[p'];
      weight := 256 * weight;
      p' := p' + 1;
      i := i + 1;
    }
  }

  /** The gate's `skip`. */
  method Skip(s: Bytes, p: nat, n: nat) returns (ok: bool, p': nat)
    requires p <= |s|
    ensures ok <==> p + n <= |s|
    ensures ok ==> p' == p + n
  {
    if |s| - p < n { return false, p; }
    return true, p + n;
  }

  /** The gate's `idx`: an index of `arg + 1` bytes, below its table's size. */
  method Index(s: Bytes, p: nat, arg: nat, limit: nat) returns (ok: bool, p': nat)
    requires p <= |s|
    ensures ok <==> arg <= 3 && p + arg + 1 <= |s| && LittleEndian(s[p..p + arg + 1]) < limit
    ensures ok ==> p' == p + arg + 1
  {
    p' := p;
    if arg > 3 { return false, p'; }
    var v: nat, i: nat, weight: nat := 0, 0, 1;
    while i <= arg
      invariant i <= arg + 1 && p' == p + i <= |s|
      invariant weight == Pow256(i) && v == LittleEndian(s[p..p'])
    {
      if p' >= |s| { return false, p'; }
      assert s[p..p' + 1] == s[p..p'] + [s[p']];
      LittleEndianMore(s[p..p'], s[p']);
      v := v + weight * s[p'];
      weight := 256 * weight;
      p' := p' + 1;
      i := i + 1;
    }
    return v < limit, p';
  }

  /** The gate's arms of fixed width. */
  method VerifyScalar(s: Bytes, p: nat, code: nat, arg: nat, l: Limits) returns (ok: bool, p': nat)
    requires p <= |s| && code < 32 && arg < 8 && code != 0x1c && code != 0x1d
    ensures ok <==> ParseScalar(s, p, code, arg, l).Some?
    ensures ok ==> p' == ParseScalar(s, p, code, arg, l).value.1
  {
    hide LittleEndian;
    ok, p' := false, p;
    match code {
      case 0x00 => if arg == 0 { ok, p' := Skip(s, p, 1); }
      case 0x02 => if arg <= 1 { ok, p' := Skip(s, p, arg + 1); }
      case 0x03 => if arg <= 1 { ok, p' := Skip(s, p, arg + 1); }
      case 0x04 => if arg <= 3 { ok, p' := Skip(s, p, arg + 1); }
      case 0x10 => if arg <= 3 { ok, p' := Skip(s, p, arg + 1); }
      case 0x06 => ok, p' := Skip(s, p, arg + 1);
      case 0x11 => ok, p' := Skip(s, p, arg + 1);
      case 0x15 => ok, p' := Index(s, p, arg, l.protos);
      case 0x16 => ok, p' := Index(s, p, arg, l.handles);
      case 0x17 => ok, p' := Index(s, p, arg, l.strings);
      case 0x18 => ok, p' := Index(s, p, arg, l.types);
      case 0x19 => ok, p' := Index(s, p, arg, l.fields);
      case 0x1b => ok, p' := Index(s, p, arg, l.fields);
      case 0x1a => ok, p' := Index(s, p, arg, l.methods);
      case 0x1e => ok := arg == 0;
      case 0x1f => ok := arg <= 1;
      case _ =>
    }
  }

  /** The gate: it accepts exactly the encodings of a value and stops where the value
      does. */
  method VerifyEncodedValue(s: Bytes, p: nat, depth: nat, l: Limits) returns (ok: bool, p': nat)
    ensures ok <==> ParseValue(s, p, depth, l).Some?
    ensures ok ==> p' == ParseValue(s, p, depth, l).value.1
    decreases |s| - p, 0
  {
    hide ParseScalar, Uleb;
    if depth > MAX_DEPTH || p >= |s| { return false, p; }
    var code, arg := s[p] % 32, s[p] / 32;
    if code == 0x1c {
      if arg != 0 { return false, p; }
      var sized, size, q := ReadUleb(s, p + 1);
      if !sized { return false, p; }
      ok, p' := VerifyItems(s, q, size, depth + 1, false, l);
    } else if code == 0x1d {
      if arg != 0 { return false, p; }
      ok, p' := VerifyEncodedAnnotation(s, p + 1, depth, l);
    } else {
      ok, p' := VerifyScalar(s, p + 1, code, arg, l);
    }
  }

  method VerifyEncodedAnnotation(s: Bytes, p: nat, depth: nat, l: Limits) returns (ok: bool, p': nat)
    requires p <= |s|
    ensures ok <==> ParseAnnotation(s, p, depth, l).Some?
    ensures ok ==> p' == ParseAnnotation(s, p, depth, l).value.1
    decreases |s| - p, 2
  {
    hide Uleb;
    var typed, typeIdx, q := ReadUleb(s, p);
    if !typed || typeIdx >= l.types { return false, p; }
    var sized, size, r := ReadUleb(s, q);
    if !sized { return false, p; }
    ok, p' := VerifyItems(s, r, size, depth + 1, true, l);
  }

  /** The gate's loop over the items of an array or an annotation. */
  method VerifyItems(s: Bytes, p: nat, size: nat, depth: nat, named: bool, l: Limits) returns (ok: bool, p': nat)
    requires p <= |s|
    ensures ok <==> ParseItems(s, p, size, depth, named, l).Some?
    ensures ok ==> p' == ParseItems(s, p, size, depth, named, l).value.1
    decreases |s| - p, 1
  {
    hide Uleb, ParseValue;
    p' := p;
    for i := 0 to size
      invariant p <= p' <= |s|
      invariant ParseItems(s, p, size, depth, named, l).Some? <==> ParseItems(s, p', size - i, depth, named, l).Some?
      invariant ParseItems(s, p, size, depth, named, l).Some? ==>
        ParseItems(s, p, size, depth, named, l).value.1 == ParseItems(s, p', size - i, depth, named, l).value.1
    {
      if named {
        var nameOk, name, q := ReadUleb(s, p');
        if !nameOk || name >= l.strings { return false, p'; }
        p' := q;
      }
      ok, p' := VerifyEncodedValue(s, p', depth, l);
      if !ok { return false, p'; }
    }
    ok := true;
  }

  /** A bare encoded_array: a size and as many values. */
  method VerifyEncodedArrayAt(s: Bytes, off: nat, l: Limits) returns (ok: bool)
    ensures ok <==> ParseArray(s, off, l).Some?
  {
    hide Uleb;
    if off >= |s| { return false; }
    var sized, size, q := ReadUleb(s, off);
    if !sized { return false; }
    var accepted, _ := VerifyItems(s, q, size, 0, false, l);
    ok := accepted;
  }
}
