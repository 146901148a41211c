/** Modified UTF-8, the encoding of a dex file's strings: one to three bytes for each
    UTF-16 code unit, ended by a zero byte. */
module Mutf8 {
  import opened Options
  import opened EncodedValue

  type Unit = x: int | 0 <= x < 0x1_0000

  /** The canonical bytes of one code unit; unit 0 takes two, so that no zero byte appears. */
  function EncodeUnit(u: Unit): (r: Bytes)
    ensures 1 <= |r| <= 3 && forall k :: 0 <= k < |r| ==> r[k] != 0
  {
    if u != 0 && u < 0x80 then [u]
    else if u < 0x800 then [0xc0 + u / 0x40, 0x80 + u % 0x40]
    else [0xe0 + u / 0x1000, 0x80 + u / 0x40 % 0x40, 0x80 + u % 0x40]
  }

  function Encode(us: seq<Unit>): Bytes {
    if us == [] then [] else EncodeUnit(us[0]) + Encode(us[1..])
  }

  /** The bytes at `p` are the encoding of `us` and its terminator. */
  ghost predicate Spells(s: Bytes, p: nat, us: seq<Unit>) {
    var e := Encode(us);
    p + |e| + 1 <= |s| && s[p..p + |e| + 1] == e + [0]
  }

  predicate Follows(b: Byte) {
    0x80 <= b < 0xc0
  }

  /** The payload bits of a sequence of two bytes. */
  function Two(a: int, b: int): (r: int)
    ensures 0 <= r < 0x800
  {
    a % 0x20 * 0x40 + b % 0x40
  }

  function Three(a: int, b: int, c: int): (r: int)
    ensures 0 <= r < 0x1_0000
  {
    a % 0x10 * 0x1000 + b % 0x40 * 0x40 + c % 0x40
  }

  /** One code unit in canonical form, and where it ends. */
  function UnitAt(s: Bytes, p: nat): (r: Option<(Unit, nat)>)
    ensures r.Some? ==> p < r.value.1 <= |s| && s[p] != 0
  {
    if p >= |s| || s[p] == 0 then None
    else if s[p] < 0x80 then Some((s[p], p + 1))
    else if 0xc0 <= s[p] < 0xe0 then
      if p + 1 >= |s| || !Follows(s[p + 1]) then None
      else
        var v := Two(s[p], s[p + 1]);
        if v != 0 && v < 0x80 then None else Some((v, p + 2))
    else if 0xe0 <= s[p] < 0xf0 then
      if p + 2 >= |s| || !Follows(s[p + 1]) || !Follows(s[p + 2]) then None
      else
        var v := Three(s[p], s[p + 1], s[p + 2]);
        if v < 0x800 then None else Some((v, p + 3))
    else None
  }

  /** The units of the string at `p`, and where its terminator ends. */
  function Decode(s: Bytes, p: nat): (r: Option<(seq<Unit>, nat)>)
    ensures r.Some? ==> p < r.value.1 <= |s|
    decreases |s| - p
  {
    if p >= |s| then None
    else if s[p] == 0 then Some(([], p + 1))
    else
      var u := UnitAt(s, p);
      if u.None? then None
      else
        var rest := Decode(s, u.value.1);
        if rest.None? then None else Some(([u.value.0] + rest.value.0, rest.value.1))
  }

  lemma TwoSplits(a: int, b: int)
    requires 0xc0 <= a < 0xe0 && 0x80 <= b < 0xc0
    ensures 0xc0 + Two(a, b) / 0x40 == a && 0x80 + Two(a, b) % 0x40 == b
  {
  }

  lemma TwoJoins(v: int)
    requires 0 <= v < 0x800
    ensures Two(0xc0 + v / 0x40, 0x80 + v % 0x40) == v
  {
  }

  lemma ThreeIs(a: int, b: int, c: int)
    requires 0xe0 <= a < 0xf0 && 0x80 <= b < 0xc0 && 0x80 <= c < 0xc0
    ensures Three(a, b, c) == ((a - 0xe0) * 0x40 + (b - 0x80)) * 0x40 + (c - 0x80)
  {
  }

  lemma ThreeSplits(a: int, b: int, c: int)
    requires 0xe0 <= a < 0xf0 && 0x80 <= b < 0xc0 && 0x80 <= c < 0xc0
    ensures var v := Three(a, b, c); 0xe0 + v / 0x1000 == a && 0x80 + v / 0x40 % 0x40 == b && 0x80 + v % 0x40 == c
  {
    ThreeIs(a, b, c);
    hide *;
    var x, y, z, v := a - 0xe0, b - 0x80, c - 0x80, Three(a, b, c);
    var u := x * 0x40 + y;
    Digits(u, z);
    Digits(x, y);
    DivTwice(v);
    assert v == u * 0x40 + z;
  }

  /** The last six bits and the rest. */
  lemma Digits(x: int, y: int)
    requires 0 <= y < 0x40
    ensures (x * 0x40 + y) / 0x40 == x && (x * 0x40 + y) % 0x40 == y
  {
  }

  lemma DivTwice(v: int)
    ensures v / 0x1000 == v / 0x40 / 0x40
  {
  }

  lemma ThreeJoins(v: int)
    requires 0 <= v < 0x1_0000
    ensures Three(0xe0 + v / 0x1000, 0x80 + v / 0x40 % 0x40, 0x80 + v % 0x40) == v
  {
    DivTwice(v);
    Digits(3, v / 0x40 / 0x40 % 0x10);
  }

  /** A canonical unit is the encoding of its value, and only of that. */
  lemma UnitIsEncoded(s: Bytes, p: nat)
    requires UnitAt(s, p).Some?
    ensures s[p..UnitAt(s, p).value.1] == EncodeUnit(UnitAt(s, p).value.0)
  {
    var one: int := s[p];
    if one >= 0xe0 {
      ThreeSplits(one, s[p + 1], s[p + 2]);
    } else if one >= 0xc0 {
      TwoSplits(one, s[p + 1]);
    }
    hide Two, Three;
  }

  lemma EncodedIsUnit(s: Bytes, p: nat, u: Unit)
    requires p + |EncodeUnit(u)| <= |s| && s[p..p + |EncodeUnit(u)|] == EncodeUnit(u)
    ensures UnitAt(s, p) == Some((u, p + |EncodeUnit(u)|))
  {
    var e := EncodeUnit(u);
    var t := s[p..p + |e|];
    assert s[p] == t[0];
    if |e| > 1 { assert s[p + 1] == t[1]; }
    if |e| > 2 { assert s[p + 2] == t[2]; }
    if 0 < u < 0x80 {
      assert UnitAt(s, p) == Some((u, p + 1));
    } else if u < 0x800 {
      ReadsTwo(s, p, u);
    } else {
      ReadsThree(s, p, u);
    }
  }

  lemma ReadsTwo(s: Bytes, p: nat, u: Unit)
    requires p + 1 < |s| && u < 0x800 && (u == 0 || u >= 0x80)
    requires s[p] == 0xc0 + u / 0x40 && s[p + 1] == 0x80 + u % 0x40
    ensures UnitAt(s, p) == Some((u, p + 2))
  {
    TwoJoins(u);
    assert 0xc0 <= 0xc0 + u / 0x40 < 0xe0 && 0x80 <= 0x80 + u % 0x40 < 0xc0;
    hide Two, Three;
  }

  lemma ReadsThree(s: Bytes, p: nat, u: Unit)
    requires p + 2 < |s| && u >= 0x800
    requires s[p] == 0xe0 + u / 0x1000 && s[p + 1] == 0x80 + u / 0x40 % 0x40 && s[p + 2] == 0x80 + u % 0x40
    ensures UnitAt(s, p) == Some((u, p + 3))
  {
    ThreeJoins(u);
    assert 0xe0 <= 0xe0 + u / 0x1000 < 0xf0 && 0x80 <= 0x80 + u / 0x40 % 0x40 < 0xc0 && 0x80 <= 0x80 + u % 0x40 < 0xc0;
    hide Two, Three;
  }

  /** What decodes is spelled by the bytes, up to the end found. */
  lemma {:induction false} DecodedIsSpelled(s: Bytes, p: nat)
    requires Decode(s, p).Some?
    ensures Spells(s, p, Decode(s, p).value.0)
    ensures Decode(s, p).value.1 == p + |Encode(Decode(s, p).value.0)| + 1
    decreases |s| - p
  {
    hide UnitAt, EncodeUnit;
    if s[p] == 0 {
      assert s[p..p + 1] == [] + [0];
    } else {
      UnitIsEncoded(s, p);
      var u := UnitAt(s, p).value;
      DecodedIsSpelled(s, u.1);
      var us := Decode(s, u.1).value.0;
      assert ([u.0] + us)[1..] == us;
      SpelledUnit(s, p, u.0, us);
    }
  }

  /** A string is spelled by its first unit's bytes and the spelling of the rest. */
  lemma SpelledUnit(s: Bytes, p: nat, u: Unit, us: seq<Unit>)
    ensures Encode([u] + us) == EncodeUnit(u) + Encode(us)
    ensures var q := p + |EncodeUnit(u)|;
      Spells(s, p, [u] + us) <==> q <= |s| && s[p..q] == EncodeUnit(u) && Spells(s, q, us)
  {
    hide EncodeUnit;
    var e, f := EncodeUnit(u), Encode(us) + [0];
    assert ([u] + us)[1..] == us;
    assert Encode([u] + us) + [0] == e + f;
    var q, r := p + |e|, p + |e| + |f|;
    if r <= |s| {
      Cut(s, p, e, f);
    }
  }

  lemma Cut(s: Bytes, p: nat, e: Bytes, f: Bytes)
    requires p + |e| + |f| <= |s|
    ensures s[p..p + |e| + |f|] == e + f <==> s[p..p + |e|] == e && s[p + |e|..p + |e| + |f|] == f
  {
    var t := s[p..p + |e| + |f|];
    assert t[..|e|] == s[p..p + |e|];
    assert t[|e|..] == s[p + |e|..p + |e| + |f|];
    assert (e + f)[..|e|] == e && (e + f)[|e|..] == f;
    assert t == t[..|e|] + t[|e|..];
  }

  /** What is spelled decodes, to the same units. */
  lemma {:induction false} SpelledDecodes(s: Bytes, p: nat, us: seq<Unit>)
    requires Spells(s, p, us)
    ensures Decode(s, p) == Some((us, p + |Encode(us)| + 1))
    decreases |us|
  {
    hide UnitAt, EncodeUnit;
    if us == [] {
      assert s[p..p + 1][0] == 0;
    } else {
      assert us == [us[0]] + us[1..];
      SpelledUnit(s, p, us[0], us[1..]);
      EncodedIsUnit(s, p, us[0]);
      SpelledDecodes(s, p + |EncodeUnit(us[0])|, us[1..]);
    }
  }

  /** Decoding accepts exactly the spelling of one string. */
  lemma DecodeIffSpelled(s: Bytes, p: nat, us: seq<Unit>)
    ensures Spells(s, p, us) <==> Decode(s, p).Some? && Decode(s, p).value.0 == us
  {
    if Spells(s, p, us) { SpelledDecodes(s, p, us); }
    if Decode(s, p).Some? { DecodedIsSpelled(s, p); }
  }

  /** Two strings with the same bytes are the same. */
  lemma EncodeInjective(us: seq<Unit>, vs: seq<Unit>)
    requires Encode(us) == Encode(vs)
    ensures us == vs
  {
    var s := Encode(us) + [0];
    assert s[0..|s|] == s;
    SpelledDecodes(s, 0, us);
    SpelledDecodes(s, 0, vs);
  }

  /** The gate on string data: it accepts the bytes with a length exactly when they spell
      a string of that length. */
  method VerifyMutf8(s: Bytes, p: nat, utf16Len: nat) returns (ok: bool)
    ensures ok <==> Decode(s, p).Some? && |Decode(s, p).value.0| == utf16Len
    ensures ok <==> exists us :: |us| == utf16Len && Spells(s, p, us)
  {
    hide Spells, Encode, Two, Three;
    var c, units := p, 0;
    SpelledBy(s, p, utf16Len);
    while true
      invariant p <= c
      invariant Decode(s, p).Some? <==> Decode(s, c).Some?
      invariant Decode(s, c).Some? ==> |Decode(s, p).value.0| == units + |Decode(s, c).value.0|
      decreases |s| - c
    {
      if c >= |s| { return false; }
      var b: int := s[c];
      c := c + 1;
      if b == 0 { break; }
      if b < 0x80 {
      } else if b < 0xc0 {
        return false;
      } else if b < 0xe0 {
        if c >= |s| { return false; }
        var b2: int := s[c];
        c := c + 1;
        if b2 / 0x40 != 2 { return false; }
        var v := Two(b, b2);
        if v != 0 && v < 0x80 { return false; }
      } else if b < 0xf0 {
        if c >= |s| { return false; }
        var b2: int := s[c];
        c := c + 1;
        if b2 / 0x40 != 2 { return false; }
        if c >= |s| { return false; }
        var b3: int := s[c];
        c := c + 1;
        if b3 / 0x40 != 2 { return false; }
        if Three(b, b2, b3) < 0x800 { return false; }
      } else {
        return false;
      }
      units := units + 1;
    }
    if units != utf16Len { return false; }
    return true;
  }

  lemma SpelledBy(s: Bytes, p: nat, n: nat)
    ensures (Decode(s, p).Some? && |Decode(s, p).value.0| == n) <==> exists us :: |us| == n && Spells(s, p, us)
  {
    hide Spells;
    if Decode(s, p).Some? { DecodeIffSpelled(s, p, Decode(s, p).value.0); }
    if us :| |us| == n && Spells(s, p, us) { DecodeIffSpelled(s, p, us); }
  }

  /** The bytes the comparator's decoder reads, by the lead byte. */
  function Span(lead: Byte): nat {
    if lead < 0x80 then 1 else if lead / 0x20 % 2 == 0 then 2 else if lead / 0x10 % 2 == 0 then 3 else 4
  }

  /** The comparator's decoder: one code unit, or a surrogate pair with the trailing unit in
      the high half. */
  function GetUtf16FromUtf8(s: Bytes, p: nat): (nat, nat)
    requires p < |s| && p + Span(s[p]) <= |s|
  {
    var one: int := s[p];
    if one < 0x80 then (one, p + 1)
    else
      var two: int := s[p + 1];
      if one / 0x20 % 2 == 0 then (Two(one, two), p + 2)
      else
        var three: int := s[p + 2];
        if one / 0x10 % 2 == 0 then (Three(one, two, three), p + 3)
        else
          var four: int := s[p + 3];
          var point := one % 0x10 * 0x4_0000 + two % 0x40 * 0x1000 + three % 0x40 * 0x40 + four % 0x40;
          ((point / 0x400 + 0xd7c0) % 0x1_0000 + (point % 0x400 + 0xdc00) * 0x1_0000, p + 4)
  }

  /** On a canonical unit the comparator's decoder reads that unit. */
  lemma ReadsUnit(s: Bytes, p: nat)
    requires UnitAt(s, p).Some?
    ensures p + Span(s[p]) <= |s| && GetUtf16FromUtf8(s, p) == UnitAt(s, p).value
  {
    hide Two, Three;
  }
}
