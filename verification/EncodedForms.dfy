/** What encoded values say and how they are written: the gate accepts exactly what is written
    by the format, and reads what was written. */
module EncodedForms {
  import opened Options
  import opened EncodedValue
  import opened EncodedReaders
  import EncodedText
  import opened ByteForms

  /** What a scalar says. */
  datatype Spoken =
    | SaysByte(value: int)
    | SaysShort(value: int)
    | SaysChar(value: int)
    | SaysInt(value: int)
    | SaysLong(value: int)
    | SaysFloat(pattern: nat)
    | SaysDouble(pattern: nat)
    | SaysMethodType(idx: nat)
    | SaysMethodHandle(idx: nat)
    | SaysString(idx: nat)
    | SaysType(idx: nat)
    | SaysField(idx: nat)
    | SaysMethod(idx: nat)
    | SaysEnum(idx: nat)
    | SaysNull
    | SaysBoolean(truth: bool)

  /** The type code that announces it. */
  function CodeOf(m: Spoken): (r: nat)
    ensures r < 32
  {
    match m
    case SaysByte(_) => 0x00
    case SaysShort(_) => 0x02
    case SaysChar(_) => 0x03
    case SaysInt(_) => 0x04
    case SaysLong(_) => 0x06
    case SaysFloat(_) => 0x10
    case SaysDouble(_) => 0x11
    case SaysMethodType(_) => 0x15
    case SaysMethodHandle(_) => 0x16
    case SaysString(_) => 0x17
    case SaysType(_) => 0x18
    case SaysField(_) => 0x19
    case SaysMethod(_) => 0x1a
    case SaysEnum(_) => 0x1b
    case SaysNull => 0x1e
    case SaysBoolean(_) => 0x1f
  }

  /** `v` is a signed number of `n` bytes. */
  predicate SignedIn(v: int, n: nat) {
    var all: int := Pow256(n);
    -all <= 2 * v < all
  }

  predicate IndexIn(i: nat, n: nat, size: nat) {
    1 <= n <= 4 && i < Pow256(n) && i < size
  }

  /** It can be written in `n` bytes behind its code, and an index points into its table. */
  predicate FitsIn(m: Spoken, n: nat, l: Limits) {
    match m
    case SaysByte(v) => n == 1 && SignedIn(v, n)
    case SaysShort(v) => 1 <= n <= 2 && SignedIn(v, n)
    case SaysChar(v) => 1 <= n <= 2 && 0 <= v < Pow256(n)
    case SaysInt(v) => 1 <= n <= 4 && SignedIn(v, n)
    case SaysLong(v) => 1 <= n <= 8 && SignedIn(v, n)
    case SaysFloat(p) => 1 <= n <= 4 && p < Pow256(4) && p % Pow256(4 - n) == 0
    case SaysDouble(p) => 1 <= n <= 8 && p < Pow256(8) && p % Pow256(8 - n) == 0
    case SaysMethodType(i) => IndexIn(i, n, l.protos)
    case SaysMethodHandle(i) => IndexIn(i, n, l.handles)
    case SaysString(i) => IndexIn(i, n, l.strings)
    case SaysType(i) => IndexIn(i, n, l.types)
    case SaysField(i) => IndexIn(i, n, l.fields)
    case SaysMethod(i) => IndexIn(i, n, l.methods)
    case SaysEnum(i) => IndexIn(i, n, l.fields)
    case SaysNull => n == 0
    case SaysBoolean(_) => n == 0
  }

  /** The number that its bytes hold: two's complement, and of a float only the high bytes. */
  function PayloadOf(m: Spoken, n: nat): int {
    match m
    case SaysByte(v) => Complement(v, n)
    case SaysShort(v) => Complement(v, n)
    case SaysChar(v) => v
    case SaysInt(v) => Complement(v, n)
    case SaysLong(v) => Complement(v, n)
    case SaysFloat(p) => if n <= 4 then p / Pow256(4 - n) else p
    case SaysDouble(p) => if n <= 8 then p / Pow256(8 - n) else p
    case SaysMethodType(i) => i
    case SaysMethodHandle(i) => i
    case SaysString(i) => i
    case SaysType(i) => i
    case SaysField(i) => i
    case SaysMethod(i) => i
    case SaysEnum(i) => i
    case SaysNull => 0
    case SaysBoolean(_) => 0
  }

  function Complement(v: int, n: nat): int {
    if v < 0 then v + Pow256(n) else v
  }

  /** The argument beside the code: the number of bytes less one, or the truth itself. */
  function ArgOf(m: Spoken, n: nat): int {
    if m.SaysBoolean? then (if m.truth then 1 else 0) else if n == 0 then 0 else n - 1
  }

  lemma PayloadFits(m: Spoken, n: nat, l: Limits)
    requires FitsIn(m, n, l)
    ensures 0 <= PayloadOf(m, n) < Pow256(n) && 0 <= ArgOf(m, n) < 8
  {
    hide *;
    ArgFits(m, n, l);
    if m.SaysByte? || m.SaysShort? || m.SaysChar? || m.SaysInt? || m.SaysLong? {
      NumberFits(m, n, l);
    } else if m.SaysFloat? || m.SaysDouble? || m.SaysNull? || m.SaysBoolean? {
      OtherFits(m, n, l);
    } else {
      IndexFits(m, n, l);
    }
  }

  lemma ArgFits(m: Spoken, n: nat, l: Limits)
    requires FitsIn(m, n, l)
    ensures 0 <= ArgOf(m, n) < 8
  {
    hide Pow256, SignedIn;
  }

  lemma NumberFits(m: Spoken, n: nat, l: Limits)
    requires FitsIn(m, n, l) && (m.SaysByte? || m.SaysShort? || m.SaysChar? || m.SaysInt? || m.SaysLong?)
    ensures 0 <= PayloadOf(m, n) < Pow256(n)
  {
    hide Pow256, Complement, SignedIn;
    if !m.SaysChar? { ComplementFits(m.value, n); }
  }

  lemma OtherFits(m: Spoken, n: nat, l: Limits)
    requires FitsIn(m, n, l) && (m.SaysFloat? || m.SaysDouble? || m.SaysNull? || m.SaysBoolean?)
    ensures 0 <= PayloadOf(m, n) < Pow256(n)
  {
    hide Pow256;
    if m.SaysFloat? { HighPart(m.pattern, 4, n); }
    if m.SaysDouble? { HighPart(m.pattern, 8, n); }
  }

  lemma IndexFits(m: Spoken, n: nat, l: Limits)
    requires FitsIn(m, n, l)
    requires !m.SaysByte? && !m.SaysShort? && !m.SaysChar? && !m.SaysInt? && !m.SaysLong?
    requires !m.SaysFloat? && !m.SaysDouble? && !m.SaysNull? && !m.SaysBoolean?
    ensures 0 <= PayloadOf(m, n) < Pow256(n)
  {
    hide Pow256;
  }

  lemma ComplementFits(v: int, n: nat)
    requires SignedIn(v, n)
    ensures 0 <= Complement(v, n) < Pow256(n)
  {
    hide Pow256;
  }

  /** The high `n` of `w` bytes. */
  lemma HighPart(p: nat, w: nat, n: nat)
    requires n <= w && p < Pow256(w)
    ensures p / Pow256(w - n) < Pow256(n)
    ensures p % Pow256(w - n) == 0 ==> p == p / Pow256(w - n) * Pow256(w - n)
  {
    PowSum(n, w - n);
    var d := Pow256(w - n);
    Divide(p, d, Pow256(n));
  }

  lemma Divide(p: nat, d: nat, q: nat)
    requires d > 0 && p < q * d
    ensures p / d < q && p == p / d * d + p % d
  {
    var a := p / d;
    assert p == a * d + p % d;
    if a >= q {
      Grow(q, a, d);
      assert false;
    }
  }

  lemma Grow(a: nat, b: nat, d: nat)
    requires a <= b
    ensures a * d <= b * d
  {
  }

  lemma {:induction false} PowSum(a: nat, b: nat)
    ensures Pow256(a + b) == Pow256(a) * Pow256(b)
  {
    if a > 0 {
      PowSum(a - 1, b);
      assert Pow256(a + b) == 256 * Pow256(a - 1 + b);
      assert Pow256(a) * Pow256(b) == 256 * (Pow256(a - 1) * Pow256(b));
    }
  }

  /** A value as it is written, with the widths chosen. Sizes are kept as the number written,
      in how many bytes. */
  datatype Form =
    | Leaf(says: Spoken, width: nat)
    | ListForm(size: LebForm, items: Forms)
    | NoteForm(typeIdx: LebForm, size: LebForm, items: Forms)

  /** The items of a list, or the named ones of an annotation. */
  datatype Forms = NoForm | MoreForms(name: LebForm, value: Form, rest: Forms)

  function Count(fs: Forms): nat {
    if fs.NoForm? then 0 else 1 + Count(fs.rest)
  }

  /** The form keeps the rules of the format within these tables, at a nesting depth. A size
      counts its items in 32 bits. */
  predicate Proper(f: Form, depth: nat, l: Limits)
    decreases f
  {
    depth <= MAX_DEPTH &&
    match f
    case Leaf(m, n) => FitsIn(m, n, l)
    case ListForm(size, items) =>
      size.Fits() && size.value % WORD == Count(items) && AllProper(items, depth + 1, false, l)
    case NoteForm(t, size, items) =>
      && t.Fits() && t.value % WORD < l.types
      && size.Fits() && size.value % WORD == Count(items) && AllProper(items, depth + 1, true, l)
  }

  predicate AllProper(fs: Forms, depth: nat, named: bool, l: Limits)
    decreases fs
  {
    fs.NoForm?
    || ((named ==> fs.name.Fits() && fs.name.value % WORD < l.strings)
        && Proper(fs.value, depth, l) && AllProper(fs.rest, depth, named, l))
  }

  /** The bytes of a form. */
  function Written(f: Form): Bytes
    decreases f
  {
    match f
    case Leaf(m, n) => [(CodeOf(m) + 32 * ArgOf(m, n)) % 256]
      + Stored(if PayloadOf(m, n) >= 0 then PayloadOf(m, n) else 0, n)
    case ListForm(size, items) => [0x1c] + size.Written() + AllWritten(items, false)
    case NoteForm(t, size, items) => [0x1d] + t.Written() + size.Written() + AllWritten(items, true)
  }

  function AllWritten(fs: Forms, named: bool): Bytes
    decreases fs
  {
    if fs.NoForm? then []
    else (if named then fs.name.Written() else []) + Written(fs.value) + AllWritten(fs.rest, named)
  }

  /** The value a form stands for. */
  function ValueOf(f: Form): Value
    decreases f
  {
    match f
    case Leaf(m, n) =>
      Scalar(CodeOf(m), if ArgOf(m, n) >= 0 then ArgOf(m, n) else 0, if PayloadOf(m, n) >= 0 then PayloadOf(m, n)
        else 0)
    case ListForm(size, items) => Array(size.value, ItemsOf(items, false))
    case NoteForm(t, size, items) => Annotation(t.value % WORD, size.value, ItemsOf(items, true))
  }

  function ItemsOf(fs: Forms, named: bool): Items
    decreases fs
  {
    if fs.NoForm? then End
    else Item(if named then fs.name.value % WORD else 0, ValueOf(fs.value), ItemsOf(fs.rest, named))
  }

  /** The gate knows the code, the argument and the table of a scalar that fits. */
  lemma KnowsScalar(m: Spoken, n: nat, l: Limits)
    requires FitsIn(m, n, l)
    ensures 0 <= ArgOf(m, n) < 8 && Width(CodeOf(m), ArgOf(m, n)) == Some(n) && PayloadOf(m, n) >= 0
    ensures Table(CodeOf(m), l).Some? ==> PayloadOf(m, n) < Table(CodeOf(m), l).value
  {
    PayloadFits(m, n, l);
    hide Pow256;
  }

  /** The first byte of a written value. */
  lemma FirstByte(s: Bytes, p: nat, b: Byte, rest: Bytes)
    requires HoldsAt(s, p, [b] + rest)
    ensures p < |s| && s[p] == b && HoldsAt(s, p + 1, rest)
  {
    HoldsParts(s, p, [b], rest);
    HoldsIs(s, p, [b]);
    assert s[p..p + 1][0] == b;
  }

  lemma ScalarUnfolds(s: Bytes, p: nat, depth: nat, l: Limits)
    requires p < |s| && depth <= MAX_DEPTH && s[p] % 32 != 0x1c && s[p] % 32 != 0x1d
    ensures ParseValue(s, p, depth, l) == ParseScalar(s, p + 1, s[p] % 32, s[p] / 32, l)
  {
  }

  lemma ScalarIs(s: Bytes, p: nat, code: nat, arg: nat, n: nat, bits: nat, l: Limits)
    requires Width(code, arg) == Some(n) && p + n <= |s| && LittleEndian(s[p..p + n]) == bits
    requires Table(code, l).Some? ==> bits < Table(code, l).value
    ensures ParseScalar(s, p, code, arg, l) == Some((Scalar(code, arg, bits), p + n))
  {
    hide Width, Table, LittleEndian;
  }

  lemma HeadSplits(code: nat, arg: nat)
    requires code < 32 && arg < 8
    ensures code + 32 * arg < 256 && (code + 32 * arg) % 32 == code && (code + 32 * arg) / 32 == arg
  {
  }

  /** A scalar written by the format is read. */
  lemma LeafReads(s: Bytes, p: nat, m: Spoken, n: nat, depth: nat, l: Limits)
    requires FitsIn(m, n, l) && depth <= MAX_DEPTH && HoldsAt(s, p, Written(Leaf(m, n)))
    ensures ParseValue(s, p, depth, l) == Some((ValueOf(Leaf(m, n)), p + |Written(Leaf(m, n))|))
  {
    hide *;
    PayloadFits(m, n, l);
    KnowsScalar(m, n, l);
    LeafIs(m, n);
    var arg: nat, payload: nat := ArgOf(m, n), PayloadOf(m, n);
    HeadSplits(CodeOf(m), arg);
    FirstByte(s, p, CodeOf(m) + 32 * arg, Stored(payload, n));
    HoldsIs(s, p + 1, Stored(payload, n));
    StoredReads(payload, n);
    NotNested(m);
    ScalarUnfolds(s, p, depth, l);
    ScalarIs(s, p + 1, CodeOf(m), arg, n, payload, l);
  }

  lemma NotNested(m: Spoken)
    ensures CodeOf(m) != 0x1c && CodeOf(m) != 0x1d && CodeOf(m) < 32
  {
  }

  lemma LeafIs(m: Spoken, n: nat)
    requires 0 <= ArgOf(m, n) < 8 && PayloadOf(m, n) >= 0
    ensures CodeOf(m) + 32 * ArgOf(m, n) < 256
    ensures Written(Leaf(m, n)) == [CodeOf(m) + 32 * ArgOf(m, n)] + Stored(PayloadOf(m, n), n)
    ensures |Written(Leaf(m, n))| == 1 + n
    ensures ValueOf(Leaf(m, n)) == Scalar(CodeOf(m), ArgOf(m, n), PayloadOf(m, n))
  {
    hide Stored, CodeOf, ArgOf, PayloadOf;
  }

  /** What is written by the format is accepted and read as the value it stands for. */
  lemma {:induction false} FormReads(s: Bytes, p: nat, f: Form, depth: nat, l: Limits)
    requires Proper(f, depth, l) && HoldsAt(s, p, Written(f))
    ensures ParseValue(s, p, depth, l) == Some((ValueOf(f), p + |Written(f)|))
    decreases f
  {
    hide *;
    FormIs(f, depth, l);
    match f
    case Leaf(m, n) =>
      LeafReads(s, p, m, n, depth, l);
    case ListForm(size, items) =>
      FirstByte(s, p, 0x1c, size.Written() + AllWritten(items, false));
      HoldsParts(s, p + 1, size.Written(), AllWritten(items, false));
      LebFormReads(s, p + 1, size);
      HoldsIs(s, p + 1 + size.width, AllWritten(items, false));
      FormsRead(s, p + 1 + size.width, items, depth + 1, false, l);
      ListUnfolds(s, p, depth, l);
    case NoteForm(t, size, items) =>
      FirstByte(s, p, 0x1d, t.Written() + (size.Written() + AllWritten(items, true)));
      HoldsParts(s, p + 1, t.Written(), size.Written() + AllWritten(items, true));
      LebFormReads(s, p + 1, t);
      HoldsParts(s, p + 1 + t.width, size.Written(), AllWritten(items, true));
      LebFormReads(s, p + 1 + t.width, size);
      HoldsIs(s, p + 1 + t.width + size.width, AllWritten(items, true));
      FormsRead(s, p + 1 + t.width + size.width, items, depth + 1, true, l);
      NoteUnfolds(s, p, depth, l);
  }

  /** What a form that keeps the rules is made of. */
  lemma FormIs(f: Form, depth: nat, l: Limits)
    requires Proper(f, depth, l)
    ensures depth <= MAX_DEPTH
    ensures f.Leaf? ==> FitsIn(f.says, f.width, l)
    ensures f.ListForm? ==>
      && f.size.Fits() && f.size.value % WORD == Count(f.items) && AllProper(f.items, depth + 1, false, l)
      && Written(f) == [0x1c] + (f.size.Written() + AllWritten(f.items, false))
      && ValueOf(f) == Array(f.size.value, ItemsOf(f.items, false))
    ensures f.NoteForm? ==>
      && f.typeIdx.Fits() && f.typeIdx.value % WORD < l.types
      && f.size.Fits() && f.size.value % WORD == Count(f.items) && AllProper(f.items, depth + 1, true, l)
      && Written(f) == [0x1d] + (f.typeIdx.Written() + (f.size.Written() + AllWritten(f.items, true)))
      && ValueOf(f) == Annotation(f.typeIdx.value % WORD, f.size.value, ItemsOf(f.items, true))
  {
    hide FitsIn, LebForm.Written, LebForm.Fits, AllWritten, AllProper, ItemsOf;
    if f.NoteForm? {
      assert [0x1d] + f.typeIdx.Written() + f.size.Written() + AllWritten(f.items, true)
          == [0x1d] + (f.typeIdx.Written() + (f.size.Written() + AllWritten(f.items, true)));
    }
  }

  lemma ListUnfolds(s: Bytes, p: nat, depth: nat, l: Limits)
    requires p < |s| && depth <= MAX_DEPTH && s[p] == 0x1c && Uleb(s, p + 1, ULEB_BYTES).Some?
    ensures var (size, q) := Uleb(s, p + 1, ULEB_BYTES).value;
      var items := ParseItems(s, q, size % WORD, depth + 1, false, l);
      ParseValue(s, p, depth, l) ==
        if items.None? then None else Some((Array(size, items.value.0), items.value.1))
  {
    hide Uleb, ParseItems;
  }

  lemma NoteUnfolds(s: Bytes, p: nat, depth: nat, l: Limits)
    requires p < |s| && depth <= MAX_DEPTH && s[p] == 0x1d && Uleb(s, p + 1, ULEB_BYTES).Some?
    requires var (t, q) := Uleb(s, p + 1, ULEB_BYTES).value; t % WORD < l.types && Uleb(s, q, ULEB_BYTES).Some?
    ensures var (t, q) := Uleb(s, p + 1, ULEB_BYTES).value;
      var (size, r) := Uleb(s, q, ULEB_BYTES).value;
      var items := ParseItems(s, r, size % WORD, depth + 1, true, l);
      ParseValue(s, p, depth, l) ==
        if items.None? then None else Some((Annotation(t % WORD, size, items.value.0), items.value.1))
  {
    hide Uleb, ParseItems;
  }

  lemma {:induction false} FormsRead(s: Bytes, p: nat, fs: Forms, depth: nat, named: bool, l: Limits)
    requires p <= |s| && AllProper(fs, depth, named, l) && HoldsAt(s, p, AllWritten(fs, named))
    ensures ParseItems(s, p, Count(fs), depth, named, l) == Some((ItemsOf(fs, named), p + |AllWritten(fs, named)|))
    decreases fs
  {
    hide *;
    FormsAre(fs, depth, named, l);
    ItemsUnfold(s, p, Count(fs), depth, named, l);
    if fs.MoreForms? {
      var front := if named then fs.name.Written() else [];
      HoldsParts(s, p, front, Written(fs.value) + AllWritten(fs.rest, named));
      HoldsParts(s, p + |front|, Written(fs.value), AllWritten(fs.rest, named));
      if named { LebFormReads(s, p, fs.name); }
      HoldsIs(s, p + |front| + |Written(fs.value)|, AllWritten(fs.rest, named));
      FormReads(s, p + |front|, fs.value, depth, l);
      FormsRead(s, p + |front| + |Written(fs.value)|, fs.rest, depth, named, l);
    }
  }

  lemma FormsAre(fs: Forms, depth: nat, named: bool, l: Limits)
    requires AllProper(fs, depth, named, l)
    ensures fs.NoForm? ==> Count(fs) == 0 && AllWritten(fs, named) == [] && ItemsOf(fs, named) == End
    ensures fs.MoreForms? ==>
      && (named ==> fs.name.Fits() && fs.name.value % WORD < l.strings)
      && Proper(fs.value, depth, l) && AllProper(fs.rest, depth, named, l) && Count(fs) == 1 + Count(fs.rest)
      && AllWritten(fs, named)
         == (if named then fs.name.Written() else []) + (Written(fs.value) + AllWritten(fs.rest, named))
      && ItemsOf(fs, named)
         == Item(if named then fs.name.value % WORD else 0, ValueOf(fs.value), ItemsOf(fs.rest, named))
  {
    hide Proper, Written, ValueOf, LebForm.Written, LebForm.Fits;
    if fs.MoreForms? {
      var front := if named then fs.name.Written() else [];
      assert front + Written(fs.value) + AllWritten(fs.rest, named)
          == front + (Written(fs.value) + AllWritten(fs.rest, named));
    }
  }

  lemma ItemsUnfold(s: Bytes, p: nat, n: nat, depth: nat, named: bool, l: Limits)
    requires p <= |s|
    ensures n == 0 ==> ParseItems(s, p, n, depth, named, l) == Some((End, p))
    ensures n > 0 ==>
      var name := if named then Uleb(s, p, ULEB_BYTES) else Some((0, p));
      ParseItems(s, p, n, depth, named, l) ==
        if name.None? || (named && name.value.0 % WORD >= l.strings) then None
        else
          var v := ParseValue(s, name.value.1, depth, l);
          if v.None? then None
          else
            var rest := ParseItems(s, v.value.1, n - 1, depth, named, l);
            if rest.None? then None
            else Some((Item(if named then name.value.0 % WORD else 0, v.value.0, rest.value.0), rest.value.1))
  {
    hide Uleb, ParseValue;
  }

  /** The signed number that `n` bytes holding `bits` stand for. */
  function Uncomplement(bits: nat, n: nat): int {
    if 2 * bits < Pow256(n) then bits else bits - Pow256(n)
  }

  /** What a scalar read from the bytes says. */
  function SaysOf(code: nat, arg: nat, bits: nat): Spoken {
    var n := arg + 1;
    match code
    case 0x00 => SaysByte(Uncomplement(bits, n))
    case 0x02 => SaysShort(Uncomplement(bits, n))
    case 0x03 => SaysChar(bits)
    case 0x04 => SaysInt(Uncomplement(bits, n))
    case 0x06 => SaysLong(Uncomplement(bits, n))
    case 0x10 => SaysFloat(if n <= 4 then bits * Pow256(4 - n) else bits)
    case 0x11 => SaysDouble(if n <= 8 then bits * Pow256(8 - n) else bits)
    case 0x15 => SaysMethodType(bits)
    case 0x16 => SaysMethodHandle(bits)
    case 0x17 => SaysString(bits)
    case 0x18 => SaysType(bits)
    case 0x19 => SaysField(bits)
    case 0x1a => SaysMethod(bits)
    case 0x1b => SaysEnum(bits)
    case 0x1f => SaysBoolean(arg > 0)
    case _ => SaysNull
  }

  lemma UncomplementFits(bits: nat, n: nat)
    requires bits < Pow256(n)
    ensures SignedIn(Uncomplement(bits, n), n) && Complement(Uncomplement(bits, n), n) == bits
  {
    hide Pow256;
  }

  lemma ComplementBack(v: int, n: nat)
    requires SignedIn(v, n) && Complement(v, n) >= 0
    ensures Uncomplement(Complement(v, n), n) == v
  {
    hide Pow256;
  }

  /** A payload moved to the high end. */
  lemma HighFits(bits: nat, w: nat, n: nat)
    requires n <= w && bits < Pow256(n)
    ensures bits * Pow256(w - n) < Pow256(w) && bits * Pow256(w - n) % Pow256(w - n) == 0
    ensures bits * Pow256(w - n) / Pow256(w - n) == bits
  {
    PowSum(n, w - n);
    hide Pow256;
    var d := Pow256(w - n);
    MultipleBelow(bits, Pow256(n), d);
    MultipleOf(bits, d);
  }

  lemma MultipleBelow(a: nat, b: nat, d: nat)
    requires a < b && d > 0
    ensures a * d < b * d
  {
  }

  lemma MultipleOf(a: nat, d: nat)
    requires d > 0
    ensures a * d % d == 0 && a * d / d == a
  {
    EncodedText.ShiftedBack(a, d);
    EncodedText.DivMod(a * d, d);
  }

  /** What the gate accepts as a scalar fits what it says. */
  lemma SaysFits(code: nat, arg: nat, n: nat, bits: nat, l: Limits)
    requires Width(code, arg) == Some(n) && arg < 8 && bits < Pow256(n)
    requires Table(code, l).Some? ==> bits < Table(code, l).value
    ensures var m := SaysOf(code, arg, bits);
      FitsIn(m, n, l) && CodeOf(m) == code && ArgOf(m, n) == arg && PayloadOf(m, n) == bits
  {
    hide Pow256, SignedIn, Complement, Uncomplement;
    if code == 0x1e || code == 0x1f {
      ConstantSays(code, arg, n, bits, l);
    } else if code <= 0x06 {
      NumberSays(code, arg, n, bits, l);
    } else if code == 0x10 || code == 0x11 {
      PatternSays(code, arg, n, bits, l);
    } else {
      IndexSays(code, arg, n, bits, l);
    }
  }

  lemma ConstantSays(code: nat, arg: nat, n: nat, bits: nat, l: Limits)
    requires Width(code, arg) == Some(n) && arg < 8 && bits < Pow256(n) && (code == 0x1e || code == 0x1f)
    ensures var m := SaysOf(code, arg, bits);
      FitsIn(m, n, l) && CodeOf(m) == code && ArgOf(m, n) == arg && PayloadOf(m, n) == bits
  {
    assert Pow256(0) == 1;
    hide Pow256;
    assert n == 0;
  }

  lemma NumberSays(code: nat, arg: nat, n: nat, bits: nat, l: Limits)
    requires Width(code, arg) == Some(n) && arg < 8 && bits < Pow256(n) && code <= 0x06
    ensures var m := SaysOf(code, arg, bits);
      FitsIn(m, n, l) && CodeOf(m) == code && ArgOf(m, n) == arg && PayloadOf(m, n) == bits
  {
    hide Pow256, SignedIn, Complement, Uncomplement;
    UncomplementFits(bits, n);
    assert n == arg + 1;
  }

  lemma PatternSays(code: nat, arg: nat, n: nat, bits: nat, l: Limits)
    requires Width(code, arg) == Some(n) && arg < 8 && bits < Pow256(n) && (code == 0x10 || code == 0x11)
    ensures var m := SaysOf(code, arg, bits);
      FitsIn(m, n, l) && CodeOf(m) == code && ArgOf(m, n) == arg && PayloadOf(m, n) == bits
  {
    hide Pow256;
    if code == 0x10 { HighFits(bits, 4, n); } else { HighFits(bits, 8, n); }
  }

  lemma IndexSays(code: nat, arg: nat, n: nat, bits: nat, l: Limits)
    requires Width(code, arg) == Some(n) && bits < Pow256(n) && 0x15 <= code <= 0x1b
    requires Table(code, l).Some? ==> bits < Table(code, l).value
    ensures var m := SaysOf(code, arg, bits);
      FitsIn(m, n, l) && CodeOf(m) == code && ArgOf(m, n) == arg && PayloadOf(m, n) == bits
  {
    hide Pow256;
  }

  /** What is written is what is said. */
  lemma SaysBack(m: Spoken, n: nat, l: Limits)
    requires FitsIn(m, n, l)
    ensures ArgOf(m, n) >= 0 && PayloadOf(m, n) >= 0 && SaysOf(CodeOf(m), ArgOf(m, n), PayloadOf(m, n)) == m
  {
    PayloadFits(m, n, l);
    hide Pow256, Complement, Uncomplement, SignedIn;
    if m.SaysByte? || m.SaysShort? || m.SaysInt? || m.SaysLong? { ComplementBack(m.value, n); }
    if m.SaysFloat? { HighPart(m.pattern, 4, n); }
    if m.SaysDouble? { HighPart(m.pattern, 8, n); }
  }

  /** Whatever the gate accepts is written by the format. */
  lemma {:induction false} ReadIsForm(s: Bytes, p: nat, depth: nat, l: Limits) returns (f: Form)
    requires ParseValue(s, p, depth, l).Some?
    ensures Proper(f, depth, l) && HoldsAt(s, p, Written(f))
    ensures ParseValue(s, p, depth, l) == Some((ValueOf(f), p + |Written(f)|))
    decreases |s| - p, 0, 0
  {
    hide *;
    ValueStarts(s, p, depth, l);
    if s[p] == 0x1c {
      ListUnfolds(s, p, depth, l);
      f := ReadIsList(s, p, depth, l);
    } else if s[p] == 0x1d {
      NoteUnfolds(s, p, depth, l);
      f := ReadIsNote(s, p, depth, l);
    } else {
      f := ReadIsLeaf(s, p, depth, l);
    }
  }

  /** How an accepted value begins. */
  lemma ValueStarts(s: Bytes, p: nat, depth: nat, l: Limits)
    requires ParseValue(s, p, depth, l).Some?
    ensures p < |s| && depth <= MAX_DEPTH && (s[p] % 32 == 0x1c ==> s[p] == 0x1c)
    ensures (s[p] % 32 == 0x1d ==> s[p] == 0x1d)
    ensures s[p] == 0x1c ==> Uleb(s, p + 1, ULEB_BYTES).Some?
    ensures s[p] == 0x1d ==>
      && Uleb(s, p + 1, ULEB_BYTES).Some? && Uleb(s, p + 1, ULEB_BYTES).value.0 % WORD < l.types
      && Uleb(s, Uleb(s, p + 1, ULEB_BYTES).value.1, ULEB_BYTES).Some?
  {
    hide Uleb, ParseItems, ParseScalar;
    assert s[p] == s[p] % 32 + 32 * (s[p] / 32);
  }

  lemma ReadIsLeaf(s: Bytes, p: nat, depth: nat, l: Limits) returns (f: Form)
    requires ParseValue(s, p, depth, l).Some? && p < |s| && depth <= MAX_DEPTH && s[p] % 32 != 0x1c && s[p] % 32 != 0x1d
    ensures Proper(f, depth, l) && HoldsAt(s, p, Written(f))
    ensures ParseValue(s, p, depth, l) == Some((ValueOf(f), p + |Written(f)|))
  {
    hide *;
    ScalarUnfolds(s, p, depth, l);
    var code, arg := s[p] % 32, s[p] / 32;
    var n, bits := ScalarParts(s, p + 1, code, arg, l);
    SaysFits(code, arg, n, bits, l);
    f := Leaf(SaysOf(code, arg, bits), n);
    ReadStored(s[p + 1..p + 1 + n]);
    LeafIs(SaysOf(code, arg, bits), n);
    ProperLeaf(SaysOf(code, arg, bits), n, depth, l);
    HeadAgain(s, p, n);
  }

  lemma ProperLeaf(m: Spoken, n: nat, depth: nat, l: Limits)
    requires FitsIn(m, n, l) && depth <= MAX_DEPTH
    ensures Proper(Leaf(m, n), depth, l)
  {
    hide FitsIn;
  }

  lemma HeadAgain(s: Bytes, p: nat, n: nat)
    requires p + 1 + n <= |s|
    ensures s[p] % 32 + 32 * (s[p] / 32) == s[p] && HoldsAt(s, p, [s[p]] + s[p + 1..p + 1 + n])
  {
    assert s[p..p + 1 + n] == [s[p]] + s[p + 1..p + 1 + n];
  }

  lemma ScalarParts(s: Bytes, p: nat, code: nat, arg: nat, l: Limits) returns (n: nat, bits: nat)
    requires p <= |s| && ParseScalar(s, p, code, arg, l).Some?
    ensures Width(code, arg) == Some(n) && p + n <= |s| && bits == LittleEndian(s[p..p + n]) < Pow256(n)
    ensures Table(code, l).Some? ==> bits < Table(code, l).value
    ensures ParseScalar(s, p, code, arg, l) == Some((Scalar(code, arg, bits), p + n))
  {
    hide Width, Table, LittleEndian, Pow256;
    n := Width(code, arg).value;
    bits := LittleEndian(s[p..p + n]);
    LittleEndianBound(s[p..p + n]);
  }

  lemma {:induction false} ReadIsList(s: Bytes, p: nat, depth: nat, l: Limits) returns (f: Form)
    requires ParseValue(s, p, depth, l).Some? && p < |s| && depth <= MAX_DEPTH && s[p] == 0x1c
    requires Uleb(s, p + 1, ULEB_BYTES).Some?
    requires var (size, q) := Uleb(s, p + 1, ULEB_BYTES).value;
      var items := ParseItems(s, q, size % WORD, depth + 1, false, l);
      ParseValue(s, p, depth, l) == if items.None? then None else Some((Array(size, items.value.0), items.value.1))
    ensures Proper(f, depth, l) && HoldsAt(s, p, Written(f))
    ensures ParseValue(s, p, depth, l) == Some((ValueOf(f), p + |Written(f)|))
    decreases |s| - p - 1, 2, 0
  {
    hide *;
    var size := ReadIsLeb(s, p + 1);
    LebIs(size);
    WordIs();
    var items := ReadAreForms(s, p + 1 + size.width, size.value % WORD, depth + 1, false, l);
    f := ListForm(size, items);
    ListProper(size, items, depth, l);
    FormIs(f, depth, l);
    HoldsByte(s, p, 0x1c);
    HoldsBoth(s, p + 1, size.Written(), AllWritten(items, false));
    HoldsBoth(s, p, [0x1c], size.Written() + AllWritten(items, false));
  }

  lemma ListProper(size: LebForm, items: Forms, depth: nat, l: Limits)
    requires depth <= MAX_DEPTH && size.Fits() && size.value % WORD == Count(items)
    requires AllProper(items, depth + 1, false, l)
    ensures Proper(ListForm(size, items), depth, l)
  {
  }

  lemma NoteProper(t: LebForm, size: LebForm, items: Forms, depth: nat, l: Limits)
    requires depth <= MAX_DEPTH && t.Fits() && t.value % WORD < l.types
    requires size.Fits() && size.value % WORD == Count(items) && AllProper(items, depth + 1, true, l)
    ensures Proper(NoteForm(t, size, items), depth, l)
  {
  }

  lemma {:induction false} ReadIsNote(s: Bytes, p: nat, depth: nat, l: Limits) returns (f: Form)
    requires ParseValue(s, p, depth, l).Some? && p < |s| && depth <= MAX_DEPTH && s[p] == 0x1d
    requires Uleb(s, p + 1, ULEB_BYTES).Some?
    requires var (t, q) := Uleb(s, p + 1, ULEB_BYTES).value; t % WORD < l.types && Uleb(s, q, ULEB_BYTES).Some?
    requires var (t, q) := Uleb(s, p + 1, ULEB_BYTES).value;
      var (size, r) := Uleb(s, q, ULEB_BYTES).value;
      var items := ParseItems(s, r, size % WORD, depth + 1, true, l);
      ParseValue(s, p, depth, l) ==
        if items.None? then None else Some((Annotation(t % WORD, size, items.value.0), items.value.1))
    ensures Proper(f, depth, l) && HoldsAt(s, p, Written(f))
    ensures ParseValue(s, p, depth, l) == Some((ValueOf(f), p + |Written(f)|))
    decreases |s| - p - 1, 2, 0
  {
    hide *;
    var t := ReadIsLeb(s, p + 1);
    LebIs(t);
    var size := ReadIsLeb(s, p + 1 + t.width);
    LebIs(size);
    WordIs();
    var items := ReadAreForms(s, p + 1 + t.width + size.width, size.value % WORD, depth + 1, true, l);
    f := NoteForm(t, size, items);
    NoteProper(t, size, items, depth, l);
    FormIs(f, depth, l);
    HoldsByte(s, p, 0x1d);
    HoldsBoth(s, p + 1 + t.width, size.Written(), AllWritten(items, true));
    HoldsBoth(s, p + 1, t.Written(), size.Written() + AllWritten(items, true));
    HoldsBoth(s, p, [0x1d], t.Written() + (size.Written() + AllWritten(items, true)));
  }

  lemma {:induction false} ReadAreForms(s: Bytes, p: nat, n: nat, depth: nat, named: bool, l: Limits)
    returns (fs: Forms)
    requires p <= |s| && ParseItems(s, p, n, depth, named, l).Some?
    ensures AllProper(fs, depth, named, l) && Count(fs) == n && HoldsAt(s, p, AllWritten(fs, named))
    ensures ParseItems(s, p, n, depth, named, l) == Some((ItemsOf(fs, named), p + |AllWritten(fs, named)|))
    decreases |s| - p, 1, n
  {
    hide *;
    ItemsUnfold(s, p, n, depth, named, l);
    if n == 0 {
      fs := NoForm;
      NoFormProper(depth, named, l);
      FormsAre(fs, depth, named, l);
      HoldsNothing(s, p);
    } else {
      var name := LebForm(0, 1);
      if named { name := ReadIsLeb(s, p); LebIs(name); }
      var front := if named then name.Written() else [];
      var value := ReadIsForm(s, p + |front|, depth, l);
      var q := p + |front| + |Written(value)|;
      ItemsRest(s, p, n, depth, named, l, p + |front|, q);
      var rest := ReadAreForms(s, q, n - 1, depth, named, l);
      fs := MoreForms(name, value, rest);
      MoreProper(name, value, rest, depth, named, l);
      FormsAre(fs, depth, named, l);
      HoldsBoth(s, p + |front|, Written(value), AllWritten(rest, named));
      if !named { HoldsNothing(s, p); }
      HoldsBoth(s, p, front, Written(value) + AllWritten(rest, named));
    }
  }

  lemma NoFormProper(depth: nat, named: bool, l: Limits)
    ensures AllProper(NoForm, depth, named, l)
  {
  }

  lemma MoreProper(name: LebForm, value: Form, rest: Forms, depth: nat, named: bool, l: Limits)
    requires named ==> name.Fits() && name.value % WORD < l.strings
    requires Proper(value, depth, l) && AllProper(rest, depth, named, l)
    ensures AllProper(MoreForms(name, value, rest), depth, named, l)
  {
  }

  /** Behind the first item of an accepted list the rest is accepted. */
  lemma ItemsRest(s: Bytes, p: nat, n: nat, depth: nat, named: bool, l: Limits, r: nat, q: nat)
    requires p <= |s| && n > 0 && ParseItems(s, p, n, depth, named, l).Some?
    requires r == if named && Uleb(s, p, ULEB_BYTES).Some? then Uleb(s, p, ULEB_BYTES).value.1 else p
    requires ParseValue(s, r, depth, l).Some? && ParseValue(s, r, depth, l).value.1 == q
    ensures q <= |s| && r < q && p <= r && ParseItems(s, q, n - 1, depth, named, l).Some?
  {
    hide ParseValue;
  }

  /** The gate accepts a value, and reads it as this one up to there, if and only if that is how
      it is written by the format. */
  lemma AcceptedIffWritten(s: Bytes, p: nat, depth: nat, l: Limits, v: Value, e: nat)
    ensures ParseValue(s, p, depth, l) == Some((v, e)) <==> exists f :: WrittenAt(s, p, depth, l, f, v, e)
  {
    hide *;
    if ParseValue(s, p, depth, l) == Some((v, e)) {
      var f := ReadIsForm(s, p, depth, l);
      WrittenIs(s, p, depth, l, f, v, e);
    }
    if f :| WrittenAt(s, p, depth, l, f, v, e) {
      WrittenIs(s, p, depth, l, f, v, e);
      FormReads(s, p, f, depth, l);
    }
  }

  /** The bytes from `p` to `e` are a form that keeps the rules and stands for `v`. */
  ghost predicate WrittenAt(s: Bytes, p: nat, depth: nat, l: Limits, f: Form, v: Value, e: nat) {
    Proper(f, depth, l) && HoldsAt(s, p, Written(f)) && ValueOf(f) == v && e == p + |Written(f)|
  }

  lemma WrittenIs(s: Bytes, p: nat, depth: nat, l: Limits, f: Form, v: Value, e: nat)
    ensures WrittenAt(s, p, depth, l, f, v, e) <==>
      Proper(f, depth, l) && HoldsAt(s, p, Written(f)) && ValueOf(f) == v && e == p + |Written(f)|
  {
    hide Proper, HoldsAt, Written, ValueOf;
  }
}
