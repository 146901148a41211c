/** Short-circuit conditions: the tree a fused block carries, its in-place negation, and
    the expression the emitters print for it. */
module Conditions {
  /** The relation of one if-test; `Flip` is the complement table. */
  datatype Rel = Eq | Ne | Lt | Ge | Gt | Le

  function Flip(r: Rel): Rel {
    match r
    case Eq => Ne
    case Ne => Eq
    case Lt => Ge
    case Ge => Lt
    case Gt => Le
    case Le => Gt
  }

  predicate Holds(r: Rel, a: int, b: int) {
    match r
    case Eq => a == b
    case Ne => a != b
    case Lt => a < b
    case Ge => a >= b
    case Gt => a > b
    case Le => a <= b
  }

  /** One test instruction, or two conditions joined by `&&` or `||`, the first of them
      to be negated when `isNot`. */
  datatype Cond =
    | Test(ins: nat, rel: Rel)
    | Join(first: Cond, second: Cond, isAnd: bool, isNot: bool)
  {
    function Neg(): (r: Cond)
      ensures r.Size() == Size()
    {
      match this
      case Test(i, rel) => Test(i, Flip(rel))
      case Join(c, d, isAnd, isNot) => Join(c.Neg(), d.Neg(), !isAnd, isNot)
    }

    function Size(): nat {
      match this
      case Test(_, _) => 1
      case Join(c, d, _, _) => 1 + c.Size() + d.Size()
    }

    /** What is printed: the negation of the first part is carried out. */
    function Print(): Expr
      decreases Size()
    {
      match this
      case Test(i, rel) => Leaf(i, rel)
      case Join(c, d, isAnd, isNot) =>
        Binary(isAnd, (if isNot then c.Neg() else c).Print(), d.Print())
    }

    /** The tree as printing leaves it: the negated first part stays negated. */
    function AfterPrint(): Cond
      decreases Size()
    {
      match this
      case Test(_, _) => this
      case Join(c, d, isAnd, isNot) =>
        Join((if isNot then c.Neg() else c).AfterPrint(), d.AfterPrint(), isAnd, isNot)
    }

    ghost predicate HasNot() {
      match this
      case Test(_, _) => false
      case Join(c, d, _, isNot) => isNot || c.HasNot() || d.HasNot()
    }

    function FirstTest(): nat {
      match this
      case Test(i, _) => i
      case Join(c, _, _, _) => c.FirstTest()
    }
  }

  datatype Expr =
    | Leaf(ins: nat, rel: Rel)
    | Binary(isAnd: bool, left: Expr, right: Expr)

  /** The operand pairs the tests will meet, in the order in which they are executed. */
  type Operands = seq<(int, int)>

  /** Either a decision with the tests executed and the operands left over, or the tests
      up to and including the one that had no operands. */
  datatype Outcome =
    | Decided(value: bool, tests: seq<nat>, rest: Operands)
    | Starved(tests: seq<nat>)
  {
    function Not(): Outcome {
      if Decided? then this.(value := !value) else this
    }

    function After(earlier: seq<nat>): Outcome {
      this.(tests := earlier + tests)
    }
  }

  /** Left-to-right evaluation; the right side runs only when the left does not decide. */
  function Eval(e: Expr, s: Operands): (o: Outcome)
    ensures o.Decided? ==> |o.rest| < |s|
    ensures |o.tests| > 0
  {
    match e
    case Leaf(i, rel) => if |s| == 0 then Starved([i]) else Decided(Holds(rel, s[0].0, s[0].1), [i], s[1..])
    case Binary(isAnd, l, r) =>
      var o := Eval(l, s);
      if o.Starved? || o.value != isAnd then o else Eval(r, o.rest).After(o.tests)
  }

  /** Negating a tree in place negates its printed meaning and keeps its tests. */
  lemma {:induction false} NegIsExact(c: Cond, s: Operands)
    ensures Eval(c.Neg().Print(), s) == Eval(c.Print(), s).Not()
    decreases c.Size()
  {
    match c
    case Test(i, rel) =>
    case Join(a, b, isAnd, isNot) =>
      var first := if isNot then a.Neg() else a;
      assert first.Size() == a.Size();
      NegIsExact(first, s);
      if isNot { NegTwice(a); }
      var o := Eval(first.Print(), s);
      if o.Decided? { NegIsExact(b, o.rest); }
  }

  lemma {:induction false} NegTwice(c: Cond)
    ensures c.Neg().Neg() == c
  {
    match c
    case Test(i, rel) =>
    case Join(a, b, _, _) =>
      NegTwice(a);
      NegTwice(b);
  }

  lemma {:induction false} FirstAsked(c: Cond)
    ensures Eval(c.Print(), []) == Starved([c.FirstTest()])
    decreases c.Size()
  {
    match c
    case Test(i, rel) =>
    case Join(a, b, _, isNot) =>
      if isNot {
        NegFirst(a);
        FirstAsked(a.Neg());
      } else {
        FirstAsked(a);
      }
  }

  lemma {:induction false} NegFirst(c: Cond)
    ensures c.Neg().FirstTest() == c.FirstTest()
  {
    match c
    case Test(i, rel) =>
    case Join(a, b, _, _) => NegFirst(a);
  }

  /** The test instructions of a tree. */
  function Tests(c: Cond): set<nat> {
    match c
    case Test(i, _) => {i}
    case Join(a, b, _, _) => Tests(a) + Tests(b)
  }

  /** No instruction is tested in two places of the tree. */
  ghost predicate TestsOnce(c: Cond) {
    c.Join? ==> TestsOnce(c.first) && TestsOnce(c.second) && Tests(c.first) !! Tests(c.second)
  }

  lemma {:induction false} NegTests(c: Cond)
    ensures Tests(c.Neg()) == Tests(c) && (TestsOnce(c.Neg()) <==> TestsOnce(c))
  {
    if c.Join? {
      NegTests(c.first);
      NegTests(c.second);
    }
  }

  /** An evaluation runs tests of the tree, the first test first. */
  lemma {:induction false} EvalRuns(c: Cond, s: Operands)
    ensures var o := Eval(c.Print(), s);
      o.tests[0] == c.FirstTest() && forall j :: 0 <= j < |o.tests| ==> o.tests[j] in Tests(c)
    ensures c.FirstTest() in Tests(c)
    decreases c.Size()
  {
    if c.Join? {
      var first := if c.isNot then c.first.Neg() else c.first;
      assert first.Size() == c.first.Size();
      NegTests(c.first);
      NegFirst(c.first);
      EvalRuns(first, s);
      var o := Eval(first.Print(), s);
      if o.Decided? { EvalRuns(c.second, o.rest); }
    }
  }

  /** Whenever an evaluation runs test `v`, a test of `before` runs just before it. */
  ghost predicate Guarded(c: Cond, v: nat, before: set<nat>) {
    forall s: Operands, j: nat :: RunsAt(c, s, j, v) ==> j > 0 && Eval(c.Print(), s).tests[j - 1] in before
  }

  ghost predicate RunsAt(c: Cond, s: Operands, j: nat, v: nat) {
    var ts := Eval(c.Print(), s).tests;
    j < |ts| && ts[j] == v
  }

  /** A tree without the test guards it. */
  lemma AbsentGuarded(c: Cond, v: nat, before: set<nat>)
    requires v !in Tests(c)
    ensures Guarded(c, v, before)
  {
    forall s: Operands, j: nat | RunsAt(c, s, j, v) ensures false {
      EvalRuns(c, s);
    }
  }

  /** What a join runs: its first part, possibly negated, then perhaps its second. */
  lemma JoinRuns(c: Cond, s: Operands)
    requires c.Join?
    ensures var o1, o := Eval(c.first.Print(), s), Eval(c.Print(), s);
      || o.tests == o1.tests
      || (o1.Decided? && o.tests == o1.tests + Eval(c.second.Print(), o1.rest).tests)
  {
    if c.isNot { NegIsExact(c.first, s); }
  }

  /** A join guards what both parts guard. */
  lemma JoinGuarded(c: Cond, v: nat, before: set<nat>)
    requires c.Join? && Guarded(c.first, v, before) && Guarded(c.second, v, before)
    ensures Guarded(c, v, before)
  {
    forall s: Operands, j: nat | RunsAt(c, s, j, v)
      ensures j > 0 && Eval(c.Print(), s).tests[j - 1] in before
    {
      JoinRuns(c, s);
      var o1 := Eval(c.first.Print(), s);
      if j < |o1.tests| {
        assert RunsAt(c.first, s, j, v);
      } else {
        assert RunsAt(c.second, o1.rest, j - |o1.tests|, v);
      }
    }
  }

  /** The first test of the second part only ever runs just after a test of the first. */
  lemma SecondGuarded(c: Cond)
    requires c.Join? && TestsOnce(c)
    ensures Guarded(c, c.second.FirstTest(), Tests(c.first))
  {
    var v := c.second.FirstTest();
    forall s: Operands, j: nat | RunsAt(c, s, j, v)
      ensures j > 0 && Eval(c.Print(), s).tests[j - 1] in Tests(c.first)
    {
      JoinRuns(c, s);
      var o1 := Eval(c.first.Print(), s);
      EvalRuns(c.first, s);
      if o1.Decided? {
        EvalRuns(c.second, o1.rest);
        if j >= |o1.tests| { FirstRunsOnce(c.second, o1.rest, j - |o1.tests|); }
      }
      EvalRuns(c.second, []);
    }
  }

  /** Where no instruction is tested twice, the first test runs once. */
  lemma {:induction false} FirstRunsOnce(c: Cond, s: Operands, j: nat)
    requires TestsOnce(c) && RunsAt(c, s, j, c.FirstTest())
    ensures j == 0
    decreases c.Size()
  {
    if c.Join? {
      JoinRuns(c, s);
      var o1 := Eval(c.first.Print(), s);
      EvalRuns(c.first, s);
      if j < |o1.tests| {
        FirstRunsOnce(c.first, s, j);
      } else {
        EvalRuns(c.second, o1.rest);
      }
    }
  }

  /** Operands that make a tree come out as `v`, whatever operands follow. */
  lemma {:induction false} Steer(c: Cond, v: bool) returns (s: Operands, ts: seq<nat>)
    ensures forall r: Operands :: Eval(c.Print(), s + r) == Decided(v, ts, r)
    ensures |ts| > 0 && ts[|ts| - 1] in Tests(c)
    decreases c.Size()
  {
    if c.Test? {
      var pair := if Holds(c.rel, 0, 0) == v then (0, 0) else if Holds(c.rel, 0, 1) == v then (0, 1) else (1, 0);
      s, ts := [pair], [c.ins];
      forall r: Operands ensures Eval(c.Print(), s + r) == Decided(v, ts, r) {
        assert (s + r)[1..] == r;
      }
    } else {
      s, ts := SteerJoin(c, v);
    }
  }

  lemma {:induction false} SteerJoin(c: Cond, v: bool) returns (s: Operands, ts: seq<nat>)
    requires c.Join?
    ensures forall r: Operands :: Eval(c.Print(), s + r) == Decided(v, ts, r)
    ensures |ts| > 0 && ts[|ts| - 1] in Tests(c)
    decreases c.Size(), 0
  {
    var first := if c.isNot then c.first.Neg() else c.first;
    assert first.Size() == c.first.Size();
    NegTests(c.first);
    if v != c.isAnd {
      s, ts := Steer(first, v);
    } else {
      var s1, ts1 := Steer(first, c.isAnd);
      var s2, ts2 := Steer(c.second, v);
      s, ts := s1 + s2, ts1 + ts2;
      forall r: Operands ensures Eval(c.Print(), s + r) == Decided(v, ts, r) {
        assert s + r == s1 + (s2 + r);
      }
    }
  }

  /** Printing is one-shot: a second print of the same tree gives the same expression if
      and only if no part of it is marked for negation. */
  lemma {:induction false} PrintTwice(c: Cond)
    ensures c.AfterPrint().Print() == c.Print() <==> !c.HasNot()
    decreases c.Size()
  {
    match c
    case Test(i, rel) =>
    case Join(a, b, isAnd, isNot) =>
      PrintTwice(b);
      if !isNot { PrintTwice(a); }
  }

  /** A condition as the blocks hold it: shared, and negated in place. */
  class CondNode {
    const ins: nat
    const isNot: bool
    const parts: (CondNode?, CondNode?)
    var rel: Rel
    var isAnd: bool
    ghost const repr: set<object>

    ghost predicate Valid()
      reads this, repr
      decreases repr
    {
      && this in repr
      && if parts.0 == null || parts.1 == null then true else
         && parts.0 in repr && parts.1 in repr
         && parts.0.repr < repr && parts.1.repr < repr
         && this !in parts.0.repr && this !in parts.1.repr && parts.0.repr !! parts.1.repr
         && parts.0.Valid() && parts.1.Valid()
    }

    ghost function Tree(): Cond
      requires Valid()
      reads this, repr
      decreases repr
    {
      if parts.0 == null || parts.1 == null then Test(ins, rel)
      else Join(parts.0.Tree(), parts.1.Tree(), isAnd, isNot)
    }

    constructor OfTest(ins: nat, rel: Rel)
      ensures Valid() && fresh(repr) && Tree() == Test(ins, rel)
    {
      this.ins, this.rel, this.isAnd, this.isNot, this.parts := ins, rel, false, false, (null, null);
      repr := {this};
    }

    constructor OfJoin(first: CondNode, second: CondNode, isAnd: bool, isNot: bool)
      requires first.Valid() && second.Valid() && first.repr !! second.repr
      ensures Valid() && fresh(repr - first.repr - second.repr)
      ensures Tree() == Join(first.Tree(), second.Tree(), isAnd, isNot)
    {
      this.ins, this.rel, this.isAnd, this.isNot, this.parts := 0, Eq, isAnd, isNot, (first, second);
      repr := {this} + first.repr + second.repr;
    }

    /** Negates the tree in place. */
    method Neg()
      requires Valid()
      modifies repr
      ensures Valid() && Tree() == old(Tree()).Neg()
      decreases repr
    {
      if parts.0 == null || parts.1 == null {
        rel := Flip(rel);
      } else {
        isAnd := !isAnd;
        parts.0.Neg();
        parts.1.Neg();
      }
    }

    /** Prints the condition; a part marked for negation is negated on the way. */
    method Visit() returns (e: Expr)
      requires Valid()
      modifies repr
      ensures Valid() && e == old(Tree()).Print() && Tree() == old(Tree()).AfterPrint()
      decreases repr
    {
      if parts.0 == null || parts.1 == null {
        e := Leaf(ins, rel);
      } else {
        if isNot {
          parts.0.Neg();
        }
        var left := parts.0.Visit();
        var right := parts.1.Visit();
        e := Binary(isAnd, left, right);
      }
    }
  }
}
