/** The smali renderer's string escaping: UTF-16 code units become code points, code points
    become escaped characters, and those UTF-8 bytes. Each stage has its inverse. */
module SmaliEscape {
  import opened Options
  import opened EncodedValue
  import opened Mutf8

  /** A Unicode scalar value. */
  type Point = x: int | 0 <= x < 0x11_0000 && !(0xd800 <= x < 0xe000)

  const REPLACEMENT: Point := 0xfffd

  predicate High(u: Unit) {
    0xd800 <= u < 0xdc00
  }

  predicate Low(u: Unit) {
    0xdc00 <= u < 0xe000
  }

  function Pair(h: Unit, l: Unit): Point
    requires High(h) && Low(l)
  {
    0x1_0000 + (h - 0xd800) * 0x400 + (l - 0xdc00)
  }

  /** The code points of UTF-16 text: pairs are combined, and a surrogate without a partner
      is replaced. */
  function Points(us: seq<Unit>): seq<Point> {
    if us == [] then []
    else if High(us[0]) && |us| > 1 && Low(us[1]) then [Pair(us[0], us[1])] + Points(us[2..])
    else [if High(us[0]) || Low(us[0]) then REPLACEMENT else us[0]] + Points(us[1..])
  }

  function UnitsOf(p: Point): seq<Unit> {
    if p < 0x1_0000 then [p] else [0xd800 + (p - 0x1_0000) / 0x400, 0xdc00 + (p - 0x1_0000) % 0x400]
  }

  function Utf16(ps: seq<Point>): seq<Unit> {
    if ps == [] then [] else UnitsOf(ps[0]) + Utf16(ps[1..])
  }

  /** Every surrogate has its partner. */
  predicate WellFormed(us: seq<Unit>) {
    us == []
    || (if High(us[0]) then |us| > 1 && Low(us[1]) && WellFormed(us[2..]) else !Low(us[0]) && WellFormed(us[1..]))
  }

  /** The code points give the text back exactly when it holds no lone surrogate. */
  lemma {:induction false} PointsLosslessIffWellFormed(us: seq<Unit>)
    ensures Utf16(Points(us)) == us <==> WellFormed(us)
    ensures |Utf16(Points(us))| == |us|
    decreases |us|
  {
    if us != [] {
      if High(us[0]) && |us| > 1 && Low(us[1]) {
        PointsLosslessIffWellFormed(us[2..]);
        PairSplits(us[0], us[1]);
        var p := Pair(us[0], us[1]);
        assert Points(us)[1..] == Points(us[2..]);
        assert us == [us[0], us[1]] + us[2..];
        assert Utf16(Points(us)) == [us[0], us[1]] + Utf16(Points(us[2..]));
        assert Utf16(Points(us))[2..] == Utf16(Points(us[2..]));
      } else {
        PointsLosslessIffWellFormed(us[1..]);
        assert Points(us)[1..] == Points(us[1..]);
        assert us == [us[0]] + us[1..];
        assert Utf16(Points(us)) == [Points(us)[0]] + Utf16(Points(us[1..]));
        assert Utf16(Points(us))[1..] == Utf16(Points(us[1..]));
        assert Utf16(Points(us))[0] == Points(us)[0];
      }
    }
  }

  lemma PairSplits(h: Unit, l: Unit)
    requires High(h) && Low(l)
    ensures Pair(h, l) >= 0x1_0000 && UnitsOf(Pair(h, l)) == [h, l]
  {
  }

  const QUOTE: Point := 0x22
  const BACKSLASH: Point := 0x5c

  function HexDigit(d: nat): Point
    requires d < 16
  {
    if d < 10 then 0x30 + d else 0x61 + (d - 10)
  }

  function FromHex(c: Point): Option<nat> {
    if 0x30 <= c <= 0x39 then Some(c - 0x30) else if 0x61 <= c <= 0x66 then Some(c - 0x61 + 10) else None
  }

  /** The characters that stand for one code point in a literal. */
  function EscapePoint(p: Point): seq<Point> {
    if p == BACKSLASH then [BACKSLASH, BACKSLASH]
    else if p == QUOTE then [BACKSLASH, QUOTE]
    else if p == 0x0a then [BACKSLASH, 0x6e]
    else if p == 0x0d then [BACKSLASH, 0x72]
    else if p == 0x09 then [BACKSLASH, 0x74]
    else if p < 0x20 then [BACKSLASH, 0x78, HexDigit(p / 16), HexDigit(p % 16)]
    else [p]
  }

  function Escaped(ps: seq<Point>): seq<Point> {
    if ps == [] then [] else EscapePoint(ps[0]) + Escaped(ps[1..])
  }

  /** The code point a literal starts with, and how many characters it takes. */
  function UnescapeOne(cs: seq<Point>): (r: Option<(Point, nat)>)
    requires cs != []
    ensures r.Some? ==> 0 < r.value.1 <= |cs|
  {
    if cs[0] == QUOTE then None
    else if cs[0] != BACKSLASH then Some((cs[0], 1))
    else if |cs| < 2 then None
    else if cs[1] == BACKSLASH || cs[1] == QUOTE then Some((cs[1], 2))
    else if cs[1] == 0x6e then Some((0x0a, 2))
    else if cs[1] == 0x72 then Some((0x0d, 2))
    else if cs[1] == 0x74 then Some((0x09, 2))
    else if cs[1] == 0x78 && |cs| >= 4 && FromHex(cs[2]).Some? && FromHex(cs[3]).Some? then
      Some((FromHex(cs[2]).value * 16 + FromHex(cs[3]).value, 4))
    else None
  }

  /** Reads the characters of a literal; a bare quote or an unknown escape is no literal. */
  function Unescape(cs: seq<Point>): Option<seq<Point>>
    decreases |cs|
  {
    if cs == [] then Some([])
    else
      var one := UnescapeOne(cs);
      if one.None? then None
      else
        var rest := Unescape(cs[one.value.1..]);
        if rest.None? then None else Some([one.value.0] + rest.value)
  }

  lemma EscapedOne(p: Point, rest: seq<Point>)
    ensures UnescapeOne(EscapePoint(p) + rest) == Some((p, |EscapePoint(p)|))
  {
  }

  /** Unescaping undoes escaping. */
  lemma {:induction false} EscapeRoundTrip(ps: seq<Point>)
    ensures Unescape(Escaped(ps)) == Some(ps)
    decreases |ps|
  {
    if ps != [] {
      var e, rest := EscapePoint(ps[0]), Escaped(ps[1..]);
      EscapedOne(ps[0], rest);
      EscapeRoundTrip(ps[1..]);
      assert (e + rest)[|e|..] == rest;
      assert ps == [ps[0]] + ps[1..];
    }
  }

  /** A reader that skips whatever follows a backslash meets no quote. */
  predicate NoBareQuote(cs: seq<Point>)
    decreases |cs|
  {
    cs == []
    || (if cs[0] == BACKSLASH then |cs| > 1 && NoBareQuote(cs[2..]) else cs[0] != QUOTE && NoBareQuote(cs[1..]))
  }

  /** Every quote in an escaped text is escaped, and no control character is raw. */
  lemma {:induction false} EscapedIsSafe(ps: seq<Point>)
    ensures NoBareQuote(Escaped(ps))
    ensures forall c :: c in Escaped(ps) ==> c >= 0x20
    decreases |ps|
  {
    if ps != [] {
      EscapedIsSafe(ps[1..]);
      OneIsSafe(ps[0], Escaped(ps[1..]));
    }
  }

  lemma OneIsSafe(p: Point, rest: seq<Point>)
    requires NoBareQuote(rest)
    ensures NoBareQuote(EscapePoint(p) + rest)
    ensures forall c :: c in EscapePoint(p) ==> c >= 0x20
  {
    var e := EscapePoint(p);
    var cs := e + rest;
    if |e| == 1 {
      assert cs[1..] == rest;
    } else if |e| == 2 {
      assert cs[2..] == rest;
    } else {
      assert cs[2..] == [e[2], e[3]] + rest;
      assert cs[2..][1..] == [e[3]] + rest;
      assert cs[2..][1..][1..] == rest;
    }
  }

  /** No other way to spell the first code point is as short. */
  lemma ShortestOne(cs: seq<Point>)
    requires cs != [] && cs[0] >= 0x20 && UnescapeOne(cs).Some?
    ensures var (p, n) := UnescapeOne(cs).value;
      |EscapePoint(p)| <= n && (|EscapePoint(p)| == n ==> cs[..n] == EscapePoint(p))
  {
    var (p, n) := UnescapeOne(cs).value;
    if n == 4 && p < 0x20 && |EscapePoint(p)| == 4 {
      assert FromHex(cs[2]).value == p / 16 && FromHex(cs[3]).value == p % 16;
      assert HexDigit(p / 16) == cs[2] && HexDigit(p % 16) == cs[3];
      assert cs[..4] == [cs[0], cs[1], cs[2], cs[3]];
    } else if n == 2 {
      assert cs[..2] == [cs[0], cs[1]];
    } else if n == 1 {
      assert cs[..1] == [cs[0]];
    }
  }

  /** The escaped text is the shortest literal without raw controls that says these code points,
      and the only one so short: what need not be escaped stands for itself. */
  lemma {:induction false} EscapedIsShortest(cs: seq<Point>, ps: seq<Point>)
    requires Unescape(cs) == Some(ps) && forall c :: c in cs ==> c >= 0x20
    ensures |Escaped(ps)| <= |cs| && (|Escaped(ps)| == |cs| ==> cs == Escaped(ps))
    decreases |cs|
  {
    hide EscapePoint, UnescapeOne;
    if cs != [] {
      var (p, n) := UnescapeOne(cs).value;
      assert cs[0] in cs;
      assert forall c :: c in cs[n..] ==> c in cs;
      ShortestOne(cs);
      assert ps == [p] + ps[1..];
      EscapedIsShortest(cs[n..], ps[1..]);
      assert cs == cs[..n] + cs[n..];
    }
  }

  lemma SameBehind(p: Point, a: seq<Point>, b: seq<Point>)
    ensures [p] + a == [p] + b <==> a == b
  {
    assert ([p] + a)[1..] == a && ([p] + b)[1..] == b;
  }

  /** Text of printable characters without quotes and backslashes is left as it is. */
  lemma {:induction false} PrintableStays(ps: seq<Point>)
    ensures Escaped(ps) == ps <==> forall p :: p in ps ==> p >= 0x20 && p != QUOTE && p != BACKSLASH
    ensures |Escaped(ps)| >= |ps|
    decreases |ps|
  {
    if ps != [] {
      PrintableStays(ps[1..]);
      var p, e, rest := ps[0], EscapePoint(ps[0]), Escaped(ps[1..]);
      var plain := p >= 0x20 && p != QUOTE && p != BACKSLASH;
      assert if plain then e == [p] else |e| > 1;
      assert ps == [p] + ps[1..] && Escaped(ps) == e + rest;
      assert forall q :: q in ps <==> q == p || q in ps[1..];
      if plain {
        SameBehind(p, rest, ps[1..]);
      } else {
        assert |e + rest| > |ps| && p in ps;
      }
    }
  }

  /** The UTF-8 bytes of one code point. */
  function Utf8Point(p: Point): Bytes {
    if p < 0x80 then [p]
    else if p < 0x800 then [0xc0 + p / 0x40, 0x80 + p % 0x40]
    else if p < 0x1_0000 then [0xe0 + p / 0x1000, 0x80 + p / 0x40 % 0x40, 0x80 + p % 0x40]
    else [0xf0 + p / 0x4_0000, 0x80 + p / 0x1000 % 0x40, 0x80 + p / 0x40 % 0x40, 0x80 + p % 0x40]
  }

  /** In the pool's encoding a unit that is not zero and no surrogate has its UTF-8 bytes; zero
      has two bytes, neither of them zero. */
  lemma UnitIsUtf8(u: Unit)
    ensures u != 0 && !High(u) && !Low(u) ==> EncodeUnit(u) == Utf8Point(u)
    ensures EncodeUnit(0) == [0xc0, 0x80]
  {
  }

  function Utf8(cs: seq<Point>): Bytes {
    if cs == [] then [] else Utf8Point(cs[0]) + Utf8(cs[1..])
  }

  function Four(a: int, b: int, c: int, d: int): int {
    a % 8 * 0x4_0000 + b % 0x40 * 0x1000 + c % 0x40 * 0x40 + d % 0x40
  }

  predicate IsScalar(p: int) {
    0 <= p < 0x11_0000 && !(0xd800 <= p < 0xe000)
  }

  /** One code point in the shortest form, as section 3 of RFC 3629 has it. */
  function Utf8At(s: Bytes, i: nat): (r: Option<(Point, nat)>)
    requires i < |s|
    ensures r.Some? ==> i < r.value.1 <= |s|
  {
    if s[i] < 0x80 then Some((s[i], i + 1))
    else if s[i] < 0xc0 then None
    else if s[i] < 0xe0 then
      if i + 1 >= |s| || !Follows(s[i + 1]) || Two(s[i], s[i + 1]) < 0x80 then None
      else Some((Two(s[i], s[i + 1]), i + 2))
    else if s[i] < 0xf0 then
      if i + 2 >= |s| || !Follows(s[i + 1]) || !Follows(s[i + 2]) then None
      else
        var p := Three(s[i], s[i + 1], s[i + 2]);
        if p < 0x800 || !IsScalar(p) then None else Some((p, i + 3))
    else if s[i] < 0xf8 then
      if i + 3 >= |s| || !Follows(s[i + 1]) || !Follows(s[i + 2]) || !Follows(s[i + 3]) then None
      else
        var p := Four(s[i], s[i + 1], s[i + 2], s[i + 3]);
        if p < 0x1_0000 || !IsScalar(p) then None else Some((p, i + 4))
    else None
  }

  /** The characters of UTF-8 bytes, where they are valid. */
  function FromUtf8(s: Bytes, i: nat): Option<seq<Point>>
    requires i <= |s|
    decreases |s| - i
  {
    if i == |s| then Some([])
    else
      var one := Utf8At(s, i);
      if one.None? then None
      else
        var rest := FromUtf8(s, one.value.1);
        if rest.None? then None else Some([one.value.0] + rest.value)
  }

  lemma FourJoins(p: int)
    requires 0x1_0000 <= p < 0x11_0000
    ensures Four(0xf0 + p / 0x4_0000, 0x80 + p / 0x1000 % 0x40, 0x80 + p / 0x40 % 0x40, 0x80 + p % 0x40) == p
  {
    DivTwice(p);
    DivThrice(p);
    var r1, r2, r3 := p / 0x40, p / 0x40 / 0x40, p / 0x40 / 0x40 / 0x40;
    assert p == r1 * 0x40 + p % 0x40 && r1 == r2 * 0x40 + r1 % 0x40 && r2 == r3 * 0x40 + r2 % 0x40;
    Continued(p % 0x40);
    Continued(r1 % 0x40);
    Continued(r2 % 0x40);
  }

  lemma DivThrice(p: int)
    ensures p / 0x4_0000 == p / 0x40 / 0x40 / 0x40
  {
  }

  lemma Continued(d: int)
    requires 0 <= d < 0x40
    ensures (0x80 + d) % 0x40 == d
  {
  }

  lemma Utf8PointReads(s: Bytes, i: nat, p: Point)
    requires i + |Utf8Point(p)| <= |s| && s[i..i + |Utf8Point(p)|] == Utf8Point(p)
    ensures Utf8At(s, i) == Some((p, i + |Utf8Point(p)|))
  {
    var e := Utf8Point(p);
    var t := s[i..i + |e|];
    assert s[i] == t[0];
    if |e| > 1 { assert s[i + 1] == t[1]; }
    if |e| > 2 { assert s[i + 2] == t[2]; }
    if |e| > 3 { assert s[i + 3] == t[3]; }
    if 0x80 <= p < 0x800 { TwoJoins(p); }
    if 0x800 <= p < 0x1_0000 { ThreeJoins(p); }
    if p >= 0x1_0000 { FourJoins(p); }
    hide Two, Three, Four;
  }

  /** Encoding gives valid UTF-8, and decoding undoes it. */
  lemma {:induction false} Utf8RoundTrip(s: Bytes, i: nat, cs: seq<Point>)
    requires i <= |s| && s[i..] == Utf8(cs)
    ensures FromUtf8(s, i) == Some(cs)
    decreases |cs|
  {
    hide Utf8Point, Utf8At;
    if cs != [] {
      var e := Utf8Point(cs[0]);
      NotEmpty(cs[0]);
      assert s[i..][..|e|] == e && s[i..i + |e|] == s[i..][..|e|];
      Utf8PointReads(s, i, cs[0]);
      assert s[i + |e|..] == s[i..][|e|..];
      Utf8RoundTrip(s, i + |e|, cs[1..]);
      assert cs == [cs[0]] + cs[1..];
    }
  }

  lemma NotEmpty(p: Point)
    ensures Utf8Point(p) != []
  {
  }

  /** A byte below 0x20 can only come from a character below 0x20. */
  lemma {:induction false} RawControls(cs: seq<Point>)
    requires forall c :: c in cs ==> c >= 0x20
    ensures forall b :: b in Utf8(cs) ==> b >= 0x20
    decreases |cs|
  {
    if cs != [] {
      assert cs[0] in cs && forall c :: c in cs[1..] ==> c in cs;
      RawControls(cs[1..]);
      assert forall b :: b in Utf8Point(cs[0]) ==> b >= 0x20 by { NoControl(cs[0]); }
    }
  }

  lemma NoControl(p: Point)
    requires p >= 0x20
    ensures forall b :: b in Utf8Point(p) ==> b >= 0x20
  {
  }

  /** A continuation byte stands at `p`. */
  predicate Continues(s: Bytes, p: nat) {
    p < |s| && s[p] / 0x40 == 2
  }

  /** The renderer's own decoder, which stops short of a missing continuation byte and then
      yields the lead byte alone. */
  function ReadBounded(s: Bytes, p: nat): (r: (nat, nat))
    requires p < |s|
    ensures p < r.1 <= |s|
  {
    var one: int := s[p];
    if one < 0x80 || !Continues(s, p + 1) then (one, p + 1)
    else if one / 0x20 % 2 == 0 then (GetUtf16FromUtf8(s, p).0, p + 2)
    else if !Continues(s, p + 2) then (one, p + 2)
    else if one / 0x10 % 2 == 0 then (GetUtf16FromUtf8(s, p).0, p + 3)
    else if !Continues(s, p + 3) then (one, p + 3)
    else (GetUtf16FromUtf8(s, p).0, p + 4)
  }

  lemma {:induction false} EncodeEnds(s: Bytes, p: nat, us: seq<Unit>)
    requires p <= |s| && s[p..] == Encode(us)
    ensures p == |s| <==> us == []
    ensures us != [] ==> p < |s| && UnitAt(s, p) == Some((us[0], p + |EncodeUnit(us[0])|))
                         && p + |EncodeUnit(us[0])| <= |s| && s[p + |EncodeUnit(us[0])|..] == Encode(us[1..])
  {
    hide EncodeUnit, UnitAt;
    if us != [] {
      var e := EncodeUnit(us[0]);
      assert s[p..][..|e|] == e && s[p..p + |e|] == s[p..][..|e|];
      EncodedIsUnit(s, p, us[0]);
      assert s[p + |e|..] == s[p..][|e|..];
    }
  }

  /** On a canonical unit the bounded decoder reads that unit. */
  lemma ReadsUnitBounded(s: Bytes, p: nat)
    requires p < |s| && UnitAt(s, p).Some?
    ensures ReadBounded(s, p) == UnitAt(s, p).value
  {
    ReadsUnit(s, p);
  }

  /** The units `us` are read, and `rest` is what the bytes from `p` on still encode. */
  ghost predicate Reading(s: Bytes, p: nat, us: seq<int>, rest: seq<Unit>, all: seq<Unit>) {
    p <= |s| && s[p..] == Encode(rest) && us + rest == all
  }

  lemma ReadingNext(s: Bytes, p: nat, us: seq<int>, rest: seq<Unit>, all: seq<Unit>)
    requires Reading(s, p, us, rest, all) && p < |s|
    ensures rest != [] && ReadBounded(s, p).0 == rest[0]
    ensures Reading(s, ReadBounded(s, p).1, us + [rest[0]], rest[1..], all)
  {
    hide Encode, EncodeUnit, UnitAt, ReadBounded;
    EncodeEnds(s, p, rest);
    ReadsUnitBounded(s, p);
    assert us + rest == (us + [rest[0]]) + rest[1..];
  }

  lemma ReadingStarts(s: Bytes, all: seq<Unit>)
    requires s == Encode(all)
    ensures Reading(s, 0, [], all, all)
  {
    assert s[0..] == s;
  }

  lemma ReadingDone(s: Bytes, us: seq<int>, rest: seq<Unit>, all: seq<Unit>)
    requires Reading(s, |s|, us, rest, all)
    ensures us == all
  {
    EncodeEnds(s, |s|, rest);
  }

  lemma CharBound(s: Bytes, p: nat)
    requires p < |s|
    ensures ReadBounded(s, p).0 < 0x1_0000_0000
  {
  }

  /** Decodes the bytes of a string without its terminator. */
  method Mutf8ToUtf16(s: Bytes) returns (us: seq<int>)
    ensures forall vs: seq<Unit> :: s == Encode(vs) ==> us == vs
    ensures AllUnits(us)
  {
    hide Encode, ReadBounded, Reading;
    us := [];
    var p := 0;
    ghost var some := exists vs: seq<Unit> :: s == Encode(vs);
    ghost var all: seq<Unit>, rest: seq<Unit> := [], [];
    if some {
      all :| s == Encode(all);
      rest := all;
      ReadingStarts(s, all);
    }
    while p < |s|
      invariant p <= |s| && AllUnits(us)
      invariant some ==> Reading(s, p, us, rest, all)
      decreases |s| - p
    {
      CharBound(s, p);
      if some { ReadingNext(s, p, us, rest, all); }
      var (ch, q) := ReadBounded(s, p);
      us := us + [ch % 0x1_0000];
      if ch / 0x1_0000 != 0 { us := us + [ch / 0x1_0000]; }
      p := q;
      if some { rest := rest[1..]; }
    }
    if some {
      ReadingDone(s, us, rest, all);
      forall vs: seq<Unit> | s == Encode(vs) ensures us == vs {
        EncodeInjective(all, vs);
      }
    }
  }

  predicate AllUnits(us: seq<int>) {
    forall i :: 0 <= i < |us| ==> 0 <= us[i] < 0x1_0000
  }

  lemma PointsUnfold(us: seq<Unit>)
    ensures us != [] ==>
      Points(us) == if High(us[0]) && |us| > 1 && Low(us[1]) then [Pair(us[0], us[1])] + Points(us[2..])
                    else [if High(us[0]) || Low(us[0]) then REPLACEMENT else us[0]] + Points(us[1..])
  {
  }

  lemma EscapedFirst(p: Point, ps: seq<Point>)
    ensures Utf8(Escaped([p] + ps)) == Utf8(EscapePoint(p)) + Utf8(Escaped(ps))
  {
    assert ([p] + ps)[1..] == ps;
    Utf8Concat(EscapePoint(p), Escaped(ps));
  }

  lemma {:induction false} Utf8Concat(a: seq<Point>, b: seq<Point>)
    ensures Utf8(a + b) == Utf8(a) + Utf8(b)
    decreases |a|
  {
    if a == [] {
      assert a + b == b;
    } else {
      assert (a + b)[1..] == a[1..] + b;
      Utf8Concat(a[1..], b);
    }
  }

  /** The bytes the switch appends for one code point. */
  method AppendEscaped(out: Bytes, p: Point) returns (r: Bytes)
    ensures r == out + Utf8(EscapePoint(p))
  {
    Utf8Ascii(EscapePoint(p));
    if p == BACKSLASH {
      r := out + [0x5c, 0x5c];
    } else if p == QUOTE {
      r := out + [0x5c, 0x22];
    } else if p == 0x0a {
      r := out + [0x5c, 0x6e];
    } else if p == 0x0d {
      r := out + [0x5c, 0x72];
    } else if p == 0x09 {
      r := out + [0x5c, 0x74];
    } else if p < 0x20 {
      r := out + [0x5c, 0x78, HexDigit(p / 16), HexDigit(p % 16)];
    } else if p < 0x80 {
      r := out + [p];
    } else {
      Utf8Single(p);
      if p < 0x800 {
        r := out + [0xc0 + p / 0x40, 0x80 + p % 0x40];
      } else if p < 0x1_0000 {
        r := out + [0xe0 + p / 0x1000, 0x80 + p / 0x40 % 0x40, 0x80 + p % 0x40];
      } else {
        r := out + [0xf0 + p / 0x4_0000, 0x80 + p / 0x1000 % 0x40, 0x80 + p / 0x40 % 0x40, 0x80 + p % 0x40];
      }
    }
  }

  /** ASCII characters are their own bytes. */
  lemma {:induction false} Utf8Ascii(cs: seq<Point>)
    ensures (forall c :: c in cs ==> c < 0x80) ==>
      |Utf8(cs)| == |cs| && forall i :: 0 <= i < |cs| ==> Utf8(cs)[i] == cs[i]
    decreases |cs|
  {
    if cs != [] {
      assert forall c :: c in cs[1..] ==> c in cs;
      assert cs[0] in cs;
      Utf8Ascii(cs[1..]);
    }
  }

  lemma Utf8Single(p: Point)
    ensures Utf8([p]) == Utf8Point(p)
  {
    assert [p][1..] == [];
  }

  /** The escaped bytes of UTF-16 text. */
  function EscapedBytes(us: seq<Unit>): Bytes {
    Utf8(Escaped(Points(us)))
  }

  /** How many units the next code point takes, and the code point. */
  lemma EscapedBytesUnfold(us: seq<Unit>)
    requires us != []
    ensures EscapedBytes(us) ==
      if High(us[0]) && |us| > 1 && Low(us[1]) then Utf8(EscapePoint(Pair(us[0], us[1]))) + EscapedBytes(us[2..])
      else Utf8(EscapePoint(if High(us[0]) || Low(us[0]) then REPLACEMENT else us[0])) + EscapedBytes(us[1..])
  {
    hide Escaped, Utf8, EscapePoint;
    PointsUnfold(us);
    if High(us[0]) && |us| > 1 && Low(us[1]) {
      EscapedFirst(Pair(us[0], us[1]), Points(us[2..]));
    } else {
      EscapedFirst(if High(us[0]) || Low(us[0]) then REPLACEMENT else us[0], Points(us[1..]));
    }
  }

  /** The next code point of the text from `i` on. */
  lemma EscapedNext(us: seq<Unit>, i: nat)
    requires i < |us|
    ensures High(us[i]) && i + 1 < |us| && Low(us[i + 1]) ==>
      EscapedBytes(us[i..]) == Utf8(EscapePoint(Pair(us[i], us[i + 1]))) + EscapedBytes(us[i + 2..])
    ensures !(High(us[i]) && i + 1 < |us| && Low(us[i + 1])) ==>
      EscapedBytes(us[i..]) ==
        Utf8(EscapePoint(if High(us[i]) || Low(us[i]) then REPLACEMENT else us[i])) + EscapedBytes(us[i + 1..])
  {
    hide EscapedBytes, Utf8, EscapePoint;
    var rest := us[i..];
    EscapedBytesUnfold(rest);
    assert rest[1..] == us[i + 1..];
    if i + 1 < |us| { assert rest[2..] == us[i + 2..]; }
  }

  /** The escaped text of UTF-16 code units. */
  method EscapeUnits(us: seq<Unit>) returns (out: Bytes)
    ensures out == Utf8(Escaped(Points(us)))
  {
    hide Points, Escaped, Utf8, EscapePoint, EscapedBytes;
    out := [];
    var i := 0;
    assert us[0..] == us;
    while i < |us|
      invariant i <= |us| && out + EscapedBytes(us[i..]) == EscapedBytes(us)
      decreases |us| - i
    {
      EscapedNext(us, i);
      ghost var from := i;
      var p: Point;
      if High(us[i]) && i + 1 < |us| && Low(us[i + 1]) {
        var h: int, l: int := us[i], us[i + 1];
        p := 0x1_0000 + (h - 0xd800) * 0x400 + (l - 0xdc00);
        i := i + 1;
      } else if High(us[i]) || Low(us[i]) {
        p := REPLACEMENT;
      } else {
        p := us[i];
      }
      i := i + 1;
      assert EscapedBytes(us[from..]) == Utf8(EscapePoint(p)) + EscapedBytes(us[i..]);
      ghost var before := out;
      out := AppendEscaped(out, p);
      AppendMore(before, Utf8(EscapePoint(p)), EscapedBytes(us[i..]));
    }
    assert us[i..] == [];
    EscapedNone(us);
  }

  lemma AppendMore(a: Bytes, b: Bytes, c: Bytes)
    ensures (a + b) + c == a + (b + c)
  {
  }

  lemma EscapedNone(us: seq<Unit>)
    ensures EscapedBytes([]) == [] && EscapedBytes(us) == Utf8(Escaped(Points(us)))
  {
  }

  /** What an escaped literal says: valid UTF-8 without raw controls or bare quotes, from
      which the code points can be read back. */
  ghost predicate Literal(out: Bytes, ps: seq<Point>) {
    && FromUtf8(out, 0).Some?
    && Unescape(FromUtf8(out, 0).value) == Some(ps)
    && NoBareQuote(FromUtf8(out, 0).value)
    && (forall b :: b in out ==> b >= 0x20)
    && Shortest(FromUtf8(out, 0).value, ps)
  }

  /** No literal without raw controls that says the same is as short. */
  ghost predicate Shortest(cs: seq<Point>, ps: seq<Point>) {
    forall other :: Unescape(other) == Some(ps) && (forall c :: c in other ==> c >= 0x20) ==>
      |cs| <= |other| && (|cs| == |other| ==> other == cs)
  }

  lemma EscapedShortest(ps: seq<Point>)
    ensures Shortest(Escaped(ps), ps)
  {
    hide Unescape, Escaped;
    forall other | Unescape(other) == Some(ps) && forall c :: c in other ==> c >= 0x20
      ensures |Escaped(ps)| <= |other| && (|Escaped(ps)| == |other| ==> other == Escaped(ps))
    {
      EscapedIsShortest(other, ps);
    }
  }

  /** Escaped bytes are such a literal. */
  lemma EscapedIsLiteral(ps: seq<Point>)
    ensures Literal(Utf8(Escaped(ps)), ps)
  {
    var cs := Escaped(ps);
    var out := Utf8(cs);
    assert out[0..] == out;
    Utf8RoundTrip(out, 0, cs);
    EscapeRoundTrip(ps);
    EscapedIsSafe(ps);
    EscapedShortest(ps);
    RawControls(cs);
  }

  /** The smali form of a string: for an accepted string, a literal of exactly its code
      points. */
  method EscapeSmaliString(s: Bytes) returns (out: Bytes)
    ensures forall us: seq<Unit> :: s == Encode(us) ==> Literal(out, Points(us))
    ensures exists us: seq<Unit> :: out == Utf8(Escaped(Points(us))) && Literal(out, Points(us))
  {
    hide Encode, Points, Utf8, Escaped, Literal;
    var decoded := Mutf8ToUtf16(s);
    var us: seq<Unit> := decoded;
    out := EscapeUnits(us);
    EscapedIsLiteral(Points(us));
  }
}
