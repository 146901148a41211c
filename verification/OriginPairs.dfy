/** Origins against a machine that knows 64-bit pairs: a write to the upper half of a pair
    breaks what the lower half held. */
module OriginPairs {
  import opened Options
  import opened InvokeCfg
  import opened OriginFlow
  import opened OriginSoundness

  /** A register's value: of some origin, perhaps as the lower half of a pair, or anything. */
  datatype Half = Holds(origin: Origin, pair: bool) | Junk

  datatype PairMachine = PairMachine(file: Reg -> Half, last: Option<nat>)

  function AsPair(h: Half, pair: bool): Half {
    if h.Holds? then Holds(h.origin, pair) else Junk
  }

  /** Writes `r`, and with a wide value the register after it. A pair that began just below
      `r` is broken. */
  function Overwrite(f: Reg -> Half, r: Reg, h: Half, wide: bool, high: Half): Reg -> Half {
    (x: Reg) =>
      if wide && x == After(r) then AsPair(high, false)
      else if x == r then AsPair(h, wide)
      else if x + 1 == r && f(x).Holds? && f(x).pair then Junk
      else f(x)
  }

  function Perform(i: Insn, m: PairMachine): PairMachine {
    match i.effect
    case Move(dst, src, wide) => PairMachine(Overwrite(m.file, dst, m.file(src), wide, m.file(After(src))), None)
    case Define(dst, o, wide) => PairMachine(Overwrite(m.file, dst, Holds(o, wide), wide, Junk), None)
    case MoveResult(dst, wide) =>
      var h := if m.last.Some? then Holds(MethodReturn(m.last.value), wide) else Junk;
      PairMachine(Overwrite(m.file, dst, h, wide, Junk), m.last)
    case Clobber(dst, wide) => PairMachine(Overwrite(m.file, dst, Junk, wide, Junk), None)
    case Invoke(callee, _, _) => PairMachine(m.file, Some(callee))
    case NoWrite => PairMachine(m.file, None)
  }

  /** What is known of a register is there, unbroken, and the state knows of every pair. */
  ghost predicate PairSound(st: State, m: PairMachine) {
    forall r, o :: KnownAs(st, r, o) ==> m.file(r).Holds? && m.file(r).origin == o && (m.file(r).pair ==> st[r].wide)
  }

  /** Writing a known value, or one of an origin nobody knows. */
  lemma SetKeepsPairs(st: State, m: PairMachine, r: Reg, t: Tracked, wide: bool, h: Half, high: Half, last: Option<nat>)
    requires PairSound(st, m)
    requires t.origin.Some? ==> h.Holds? && h.origin == t.origin.value
    ensures PairSound(SetReg(st, r, t, wide), PairMachine(Overwrite(m.file, r, h, wide, high), last))
  {
    forall x, o | KnownAs(SetReg(st, r, t, wide), x, o)
      ensures var c := Overwrite(m.file, r, h, wide, high)(x);
        c.Holds? && c.origin == o && (c.pair ==> SetReg(st, r, t, wide)[x].wide)
    {
      assert x != r ==> KnownAs(st, x, o);
    }
  }

  lemma EraseKeepsPairs(st: State, m: PairMachine, r: Reg, wide: bool, h: Half, high: Half, last: Option<nat>)
    requires PairSound(st, m)
    ensures PairSound(EraseReg(st, r, wide), PairMachine(Overwrite(m.file, r, h, wide, high), last))
  {
    forall x, o | KnownAs(EraseReg(st, r, wide), x, o)
      ensures var c := Overwrite(m.file, r, h, wide, high)(x);
        c.Holds? && c.origin == o && (c.pair ==> EraseReg(st, r, wide)[x].wide)
    {
      assert KnownAs(st, x, o);
    }
  }

  /** The transfer keeps it. This is where dropping the register below a write is needed:
      it may hold a pair that the write breaks. */
  lemma StepKeepsPairs(i: Insn, s: Sim, m: PairMachine)
    requires PairSound(s.st, m) && (s.last.Some? ==> m.last == s.last)
    ensures PairSound(Step(i, s).st, Perform(i, m)) && (Step(i, s).last.Some? ==> Perform(i, m).last == Step(i, s).last)
  {
    if i.effect.Move? && i.effect.src in s.st && s.st[i.effect.src].origin.Some? {
      assert KnownAs(s.st, i.effect.src, s.st[i.effect.src].origin.value);
    }
    hide SetReg, EraseReg, Overwrite, KnownAs;
    match i.effect
    case Move(dst, src, wide) =>
      if src in s.st {
        assert s.st[src].origin.Some? ==> m.file(src).Holds? && m.file(src).origin == s.st[src].origin.value;
        SetKeepsPairs(s.st, m, dst, s.st[src], wide, m.file(src), m.file(After(src)), None);
      } else {
        EraseKeepsPairs(s.st, m, dst, wide, m.file(src), m.file(After(src)), None);
      }
    case Define(dst, o, wide) => SetKeepsPairs(s.st, m, dst, Known(o), wide, Holds(o, wide), Junk, None);
    case MoveResult(dst, wide) =>
      var h := if m.last.Some? then Holds(MethodReturn(m.last.value), wide) else Junk;
      if s.last.Some? {
        SetKeepsPairs(s.st, m, dst, Known(MethodReturn(s.last.value)), wide, h, Junk, m.last);
      } else {
        EraseKeepsPairs(s.st, m, dst, wide, h, Junk, m.last);
      }
    case Clobber(dst, wide) => EraseKeepsPairs(s.st, m, dst, wide, Junk, Junk, None);
    case Invoke(callee, _, _) => SameFile(s.st, m, Some(callee));
    case NoWrite => SameFile(s.st, m, None);
  }

  lemma SameFile(st: State, m: PairMachine, last: Option<nat>)
    requires PairSound(st, m)
    ensures PairSound(st, PairMachine(m.file, last))
  {
  }

  /** Over a whole block. */
  lemma {:induction false} RunKeepsPairs(code: Code, off: nat, end: nat, s: Sim, m: PairMachine)
    requires PairSound(s.st, m) && (s.last.Some? ==> m.last == s.last)
    ensures PairSound(Run(code, off, end, s).st, PerformAll(code, off, end, m))
    decreases |code| - off
  {
    if off < end && off < |code| && code[off].width > 0 {
      StepKeepsPairs(code[off], s, m);
      RunKeepsPairs(code, Next(code, off), end, Step(code[off], s), Perform(code[off], m));
    }
  }

  function PerformAll(code: Code, off: nat, end: nat, m: PairMachine): PairMachine
    decreases |code| - off
  {
    if off >= end || off >= |code| || code[off].width == 0 then m
    else PerformAll(code, Next(code, off), end, Perform(code[off], m))
  }

  /** The meet compares origins and not widths, and keeps the width of its first side. */
  ghost predicate WidthsAgree(dst: State, src: State) {
    forall r, o :: KnownAs(dst, r, o) && KnownAs(src, r, o) && src[r].wide ==> dst[r].wide
  }

  /** The registers a state describes. */
  function Described(st: State): PairMachine {
    PairMachine((r: Reg) => if r in st && st[r].origin.Some? then Holds(st[r].origin.value, st[r].wide) else Junk, None)
  }

  /** Coming in from the first side, soundness always survives the meet; from the second it
      does if and only if no register known alike to both is a pair there and not a pair
      to the first side. */
  lemma MeetKeepsPairs(dst: State, src: State)
    ensures forall m :: PairSound(dst, m) ==> PairSound(Meet(dst, src), m)
    ensures (forall m :: PairSound(src, m) ==> PairSound(Meet(dst, src), m)) <==> WidthsAgree(dst, src)
  {
    var met := Meet(dst, src);
    assert forall r, o :: KnownAs(met, r, o) ==> KnownAs(dst, r, o) && KnownAs(src, r, o) && met[r] == dst[r];
    if forall m :: PairSound(src, m) ==> PairSound(met, m) {
      var m0 := Described(src);
      assert PairSound(src, m0);
      forall r, o | KnownAs(dst, r, o) && KnownAs(src, r, o) && src[r].wide ensures dst[r].wide {
        assert KnownAs(met, r, o);
      }
    }
  }
}
