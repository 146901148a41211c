/** How numbers are written: little-endian and as LEB128. Reading gives back what was written,
    and whatever is read was written so. */
module ByteForms {
  import opened Options
  import opened EncodedValue
  import opened EncodedReaders
  import opened CodeItem

  /** The `n` low bytes of a number, least significant first. */
  function Stored(v: nat, n: nat): (r: Bytes)
    ensures |r| == n
  {
    if n == 0 then [] else [v % 0x100] + Stored(v / 0x100, n - 1)
  }

  /** `s` holds these bytes at `p`. */
  predicate HoldsAt(s: Bytes, p: nat, bytes: Bytes) {
    p + |bytes| <= |s| && s[p..p + |bytes|] == bytes
  }

  lemma ReadsBack2(s: Bytes, p: nat, v: nat)
    requires v < 0x1_0000 && HoldsAt(s, p, Stored(v, 2))
    ensures U2(s, p) == v
  {
    var b := Stored(v, 2);
    assert Stored(v / 0x100, 1) == [v / 0x100 % 0x100] + Stored(v / 0x100 / 0x100, 0);
    assert s[p] == s[p..p + 2][0] == b[0] && s[p + 1] == s[p..p + 2][1] == b[1];
  }

  lemma ReadsBack4(s: Bytes, p: nat, v: nat)
    requires v < WORD && HoldsAt(s, p, Stored(v, 4))
    ensures U4(s, p) == v
  {
    var b := Stored(v, 4);
    var w := v / 0x1_0000;
    FourBytes(v);
    var t := s[p..p + 4];
    assert s[p..p + 2] == t[..2] && s[p + 2..p + 4] == t[2..];
    ReadsBack2(s, p, v % 0x1_0000);
    ReadsBack2(s, p + 2, w);
  }

  /** Four bytes are two for the low half and two for the high half. */
  lemma FourBytes(v: nat)
    requires v < WORD
    ensures Stored(v, 4)[..2] == Stored(v % 0x1_0000, 2)
    ensures Stored(v, 4)[2..] == Stored(v / 0x1_0000, 2)
    ensures v % 0x1_0000 < 0x1_0000 && v / 0x1_0000 < 0x1_0000
  {
    var a := v / 0x100;
    assert a / 0x100 == v / 0x1_0000;
    assert v % 0x1_0000 % 0x100 == v % 0x100;
    assert v % 0x1_0000 / 0x100 == a % 0x100;
    assert Stored(v, 4) == [v % 0x100] + ([a % 0x100] + Stored(a / 0x100, 2));
    var lo := v % 0x1_0000;
    assert Stored(lo, 2) == [lo % 0x100] + ([lo / 0x100 % 0x100] + Stored(lo / 0x100 / 0x100, 0));
  }

  lemma PartOfPart(s: Bytes, a: nat, n: nat, i: nat, k: nat)
    requires a + n <= |s| && i <= k <= n
    ensures s[a..a + n][i..k] == s[a + i..a + k]
  {
    var l, r := s[a..a + n][i..k], s[a + i..a + k];
    assert |l| == |r|;
    forall j | 0 <= j < |l|
      ensures l[j] == r[j]
    {
    }
  }

  lemma PartBehind(front: Bytes, rest: Bytes, i: nat, k: nat)
    requires i <= k <= |rest|
    ensures (front + rest)[|front| + i..|front| + k] == rest[i..k]
  {
  }

  lemma HoldsIs(s: Bytes, p: nat, bytes: Bytes)
    requires HoldsAt(s, p, bytes)
    ensures p + |bytes| <= |s| && s[p..p + |bytes|] == bytes
  {
  }

  lemma HoldsIf(s: Bytes, p: nat, bytes: Bytes)
    requires p + |bytes| <= |s| && s[p..p + |bytes|] == bytes
    ensures HoldsAt(s, p, bytes)
  {
  }

  /** What a part of the bytes holds. */
  lemma HoldsParts(s: Bytes, p: nat, a: Bytes, b: Bytes)
    requires HoldsAt(s, p, a + b)
    ensures HoldsAt(s, p, a) && HoldsAt(s, p + |a|, b)
  {
    var all := s[p..p + |a + b|];
    assert s[p..p + |a|] == all[..|a|] && s[p + |a|..p + |a| + |b|] == all[|a|..];
  }

  lemma {:induction false} StoredReads(v: nat, n: nat)
    requires v < Pow256(n)
    ensures LittleEndian(Stored(v, n)) == v
    decreases n
  {
    if n > 0 {
      assert Pow256(n) == 256 * Pow256(n - 1);
      StoredReads(v / 0x100, n - 1);
      assert Stored(v, n)[1..] == Stored(v / 0x100, n - 1);
    }
  }

  lemma {:induction false} ReadStored(bs: Bytes)
    ensures Stored(LittleEndian(bs), |bs|) == bs
    decreases |bs|
  {
    if bs != [] {
      ReadStored(bs[1..]);
      var v := LittleEndian(bs);
      assert v % 0x100 == bs[0] && v / 0x100 == LittleEndian(bs[1..]);
    }
  }

  function Pow128(k: nat): nat {
    if k == 0 then 1 else 0x80 * Pow128(k - 1)
  }

  /** A number as LEB128 in `k` bytes: seven bits each, all but the last marked. */
  function Leb(v: nat, k: nat): (r: Bytes)
    ensures |r| == k
    decreases k
  {
    if k == 0 then [] else if k == 1 then [v % 0x80] else [0x80 + v % 0x80] + Leb(v / 0x80, k - 1)
  }

  /** It is read back, where so many bytes are allowed. */
  lemma {:induction false} LebReads(s: Bytes, p: nat, v: nat, k: nat, most: nat)
    requires 1 <= k <= most && v < Pow128(k) && HoldsAt(s, p, Leb(v, k))
    ensures Uleb(s, p, most) == Some((v, p + k))
    decreases k
  {
    assert Pow128(k) == 0x80 * Pow128(k - 1);
    var b := Leb(v, k);
    assert s[p] == s[p..p + k][0] == b[0];
    if k > 1 {
      HoldsParts(s, p, [0x80 + v % 0x80], Leb(v / 0x80, k - 1));
      LebReads(s, p + 1, v / 0x80, k - 1, most - 1);
    } else {
      assert Pow128(0) == 1;
    }
  }

  lemma LebLast(s: Bytes, p: nat)
    requires p < |s| && s[p] < 0x80
    ensures HoldsAt(s, p, Leb(s[p], 1))
  {
    assert s[p..p + 1] == [s[p]] == Leb(s[p], 1);
  }

  /** A marked byte put before a number. */
  lemma LebBefore(s: Bytes, p: nat, v: nat, j: nat)
    requires p < |s| && 0x80 <= s[p] && v % 0x80 == s[p] - 0x80 && 1 <= j && HoldsAt(s, p + 1, Leb(v / 0x80, j))
    ensures HoldsAt(s, p, Leb(v, j + 1))
  {
    var tail := Leb(v / 0x80, j);
    assert Leb(v, j + 1) == [s[p]] + tail;
    hide Leb;
    HoldsJoined(s, p, tail);
  }

  lemma HoldsJoined(s: Bytes, p: nat, tail: Bytes)
    requires p < |s| && HoldsAt(s, p + 1, tail)
    ensures HoldsAt(s, p, [s[p]] + tail)
  {
    assert s[p..p + 1 + |tail|] == [s[p]] + s[p + 1..p + 1 + |tail|];
  }

  /** What is read was written so. */
  lemma {:induction false} ReadLeb(s: Bytes, p: nat, most: nat) returns (k: nat)
    requires Uleb(s, p, most).Some?
    ensures var (v, q) := Uleb(s, p, most).value;
      1 <= k <= most && q == p + k && v < Pow128(k) && HoldsAt(s, p, Leb(v, k))
    decreases most
  {
    hide HoldsAt, Leb;
    var (v, q) := Uleb(s, p, most).value;
    if s[p] < 0x80 {
      k := 1;
      LebLast(s, p);
      assert Pow128(1) == 0x80 * Pow128(0);
    } else {
      var rest := Uleb(s, p + 1, most - 1).value;
      var j := ReadLeb(s, p + 1, most - 1);
      k := j + 1;
      assert Pow128(k) == 0x80 * Pow128(j);
      assert v % 0x80 == s[p] - 0x80 && v / 0x80 == rest.0;
      LebBefore(s, p, v, j);
    }
  }

  /** A LEB128 number as it is written: which, and in how many bytes. */
  datatype LebForm = LebForm(value: nat, width: nat) {
    predicate Fits() {
      1 <= width <= ULEB_BYTES && value < Pow128(width)
    }

    function Written(): Bytes {
      Leb(value, width)
    }
  }

  lemma LebFormReads(s: Bytes, p: nat, x: LebForm)
    requires x.Fits() && HoldsAt(s, p, x.Written())
    ensures Uleb(s, p, ULEB_BYTES) == Some((x.value, p + x.width)) && |x.Written()| == x.width
  {
    LebReads(s, p, x.value, x.width, ULEB_BYTES);
  }

  /** A number read is one written. */
  lemma ReadIsLeb(s: Bytes, p: nat) returns (x: LebForm)
    requires Uleb(s, p, ULEB_BYTES).Some?
    ensures x.Fits() && HoldsAt(s, p, x.Written()) && |x.Written()| == x.width
    ensures Uleb(s, p, ULEB_BYTES) == Some((x.value, p + x.width))
  {
    var k := ReadLeb(s, p, ULEB_BYTES);
    x := LebForm(Uleb(s, p, ULEB_BYTES).value.0, k);
  }

  /** Two parts that are held side by side are held together. */
  lemma HoldsBoth(s: Bytes, p: nat, a: Bytes, b: Bytes)
    requires HoldsAt(s, p, a) && HoldsAt(s, p + |a|, b)
    ensures HoldsAt(s, p, a + b)
  {
    assert s[p..p + |a + b|] == s[p..p + |a|] + s[p + |a|..p + |a| + |b|];
  }

  lemma HoldsByte(s: Bytes, p: nat, b: Byte)
    requires p < |s| && s[p] == b
    ensures HoldsAt(s, p, [b])
  {
    assert s[p..p + 1] == [b];
  }

  lemma LebIs(x: LebForm)
    requires x.Fits()
    ensures 1 <= x.width <= ULEB_BYTES
  {
  }

  lemma HoldsNothing(s: Bytes, p: nat)
    requires p <= |s|
    ensures HoldsAt(s, p, [])
  {
  }

  lemma WordIs()
    ensures WORD == 0x1_0000_0000
  {
  }
}
