/** Reading rendered values back: the text of a value says what the value says, up to what text
    cannot tell apart and the handles that do not resolve. */
module EncodedPrint {
  import opened Options
  import opened EncodedValue
  import opened EncodedText
  import opened EncodedScan
  import opened EncodedForms
  import opened ByteForms

  /** What a text says: a scalar, nothing that could be rendered, a list, or an annotation. */
  datatype Said = Plain(m: Spoken) | Missing | Several(items: SaidItems) | Noted(typeIdx: nat, items: SaidItems)

  datatype SaidItems = NoItem | SaidItem(name: nat, value: Said, rest: SaidItems)

  /** Text does not tell short, char and int apart, nor fields and enum constants. */
  function Blurred(m: Spoken): Spoken {
    match m
    case SaysShort(v) => SaysInt(v)
    case SaysChar(v) => SaysInt(v)
    case SaysEnum(i) => SaysField(i)
    case _ => m
  }

  /** What a value says; a method handle that does not resolve says nothing. */
  function Meaning(v: Value, handles: set<nat>): Said
    decreases v
  {
    match v
    case Scalar(code, arg, bits) =>
      var m := SaysOf(code, arg, bits);
      if m.SaysMethodHandle? && m.idx !in handles then Missing else Plain(Blurred(m))
    case Array(_, items) => Several(Meanings(items, false, handles))
    case Annotation(t, _, items) => Noted(t, Meanings(items, true, handles))
  }

  function Meanings(items: Items, named: bool, handles: set<nat>): SaidItems
    decreases items
  {
    if items.End? then NoItem
    else
      SaidItem(if named then items.name else 0, Meaning(items.value, handles), Meanings(items.rest, named, handles))
  }

  /** What a single piece says. */
  function ReadPiece(t: Piece): Option<Said> {
    match t
    case Hex(v) => Some(Plain(SaysByte(v)))
    case Decimal(v) => Some(Plain(SaysInt(v)))
    case LongLiteral(v) => Some(Plain(SaysLong(v)))
    case FloatBits(b) => Some(Plain(SaysFloat(b)))
    case DoubleBits(b) => Some(Plain(SaysDouble(b)))
    case StringAt(i) => Some(Plain(SaysString(i)))
    case ClassAt(i) => Some(Plain(SaysType(i)))
    case FieldAt(i) => Some(Plain(SaysField(i)))
    case ProtoAt(i) => Some(Plain(SaysMethodType(i)))
    case HandleAt(i) => Some(Plain(SaysMethodHandle(i)))
    case MethodAt(i) => Some(Plain(SaysMethod(i)))
    case Lit(text) =>
      if text == "null" then Some(Plain(SaysNull))
      else if text == "true" then Some(Plain(SaysBoolean(true)))
      else if text == "false" then Some(Plain(SaysBoolean(false)))
      else if text == "?" then Some(Missing)
      else None
    case TypeNameAt(_) => None
    case NameAt(_) => None
  }

  /** Reads the term at `p`: braces hold a list, and an annotation has its items, if any, in
      parentheses. */
  function ReadTerm(ps: seq<Piece>, p: nat): (r: Option<(Said, nat)>)
    ensures r.Some? ==> p < r.value.1 <= |ps|
    decreases |ps| - p, 0
  {
    if p >= |ps| then None
    else if ps[p] == Lit("{") then
      var items := ReadItems(ps, p + 1, true, false);
      if items.None? then None else Some((Several(items.value.0), items.value.1))
    else if ps[p] == Lit("@") then
      if p + 1 >= |ps| || !ps[p + 1].TypeNameAt? then None
      else if p + 2 < |ps| && ps[p + 2] == Lit("(") then
        var items := ReadItems(ps, p + 3, true, true);
        if items.None? then None else Some((Noted(ps[p + 1].idx, items.value.0), items.value.1))
      else Some((Noted(ps[p + 1].idx, NoItem), p + 2))
    else if ReadPiece(ps[p]).None? then None
    else Some((ReadPiece(ps[p]).value, p + 1))
  }

  /** Reads items up to and with what closes them. */
  function ReadItems(ps: seq<Piece>, p: nat, first: bool, named: bool): (r: Option<(SaidItems, nat)>)
    ensures r.Some? ==> p < r.value.1 <= |ps|
    decreases |ps| - p, 1
  {
    if p >= |ps| then None
    else if ps[p] == Closing(named) then Some((NoItem, p + 1))
    else if !first && ps[p] != Lit(", ") then None
    else
      var q := if first then p else p + 1;
      if named && (q + 1 >= |ps| || !ps[q].NameAt? || ps[q + 1] != Lit(" = ")) then None
      else
        var value := ReadTerm(ps, if named then q + 2 else q);
        if value.None? then None
        else
          var rest := ReadItems(ps, value.value.1, false, named);
          if rest.None? then None
          else Some((SaidItem(if named then ps[q].idx else 0, value.value.0, rest.value.0), rest.value.1))
  }

  function Closing(named: bool): Piece {
    if named then Lit(")") else Lit("}")
  }

  /** These pieces stand at `p`. */
  predicate StandsAt(ps: seq<Piece>, p: nat, part: seq<Piece>) {
    p + |part| <= |ps| && ps[p..p + |part|] == part
  }

  lemma StandsParts(ps: seq<Piece>, p: nat, a: seq<Piece>, b: seq<Piece>)
    requires StandsAt(ps, p, a + b)
    ensures StandsAt(ps, p, a) && StandsAt(ps, p + |a|, b)
  {
    var all := ps[p..p + |a + b|];
    assert ps[p..p + |a|] == all[..|a|] && ps[p + |a|..p + |a| + |b|] == all[|a|..];
  }

  lemma StandsOne(ps: seq<Piece>, p: nat, t: Piece, rest: seq<Piece>)
    requires StandsAt(ps, p, [t] + rest)
    ensures p < |ps| && ps[p] == t && StandsAt(ps, p + 1, rest)
  {
    StandsParts(ps, p, [t], rest);
    assert ps[p..p + 1][0] == t;
  }

  /** Nothing that could belong to an annotation without items stands at `p`. */
  predicate NoParenthesis(ps: seq<Piece>, p: nat) {
    p < |ps| ==> ps[p] != Lit("(")
  }

  /** A scalar is one piece, which says it. */
  lemma ScalarShown(code: nat, arg: nat, bits: nat, handles: set<nat>)
    requires Width(code, arg).Some?
    ensures var v := Scalar(code, arg, bits);
      |Shown(v, handles)| == 1 && ReadPiece(Shown(v, handles)[0]) == Some(Meaning(v, handles))
      && Shown(v, handles)[0] != Lit("{") && Shown(v, handles)[0] != Lit("@")
  {
  }

  /** How the text of a value begins. */
  lemma ShownStarts(v: Value, handles: set<nat>)
    requires Known(v)
    ensures |Shown(v, handles)| > 0 && Shown(v, handles)[0] != Closing(false) && Shown(v, handles)[0] != Lit("(")
  {
    if v.Scalar? { ScalarShown(v.code, v.arg, v.bits, handles); }
  }

  /** What the text of a list or an annotation is made of. */
  lemma NestedShown(v: Value, handles: set<nat>)
    requires Known(v) && !v.Scalar?
    ensures v.Array? ==>
      && ItemsKnown(v.items)
      && Shown(v, handles) == [Lit("{")] + (RenderItems(v.items, 0, false, handles) + [Closing(false)])
      && Meaning(v, handles) == Several(Meanings(v.items, false, handles))
    ensures v.Annotation? ==>
      && ItemsKnown(v.items)
      && Meaning(v, handles) == Noted(v.typeIdx, Meanings(v.items, true, handles))
      && if v.declared % WORD > 0 then
           Shown(v, handles)
           == [Lit("@")] + ([TypeNameAt(v.typeIdx)]
                            + ([Lit("(")] + (RenderItems(v.items, 0, true, handles) + [Closing(true)])))
         else Shown(v, handles) == [Lit("@")] + ([TypeNameAt(v.typeIdx)] + []) && v.items.End?
  {
    hide RenderItems, Meanings, ItemsKnown;
    if v.Annotation? && v.declared % WORD > 0 {
      var list := RenderItems(v.items, 0, true, handles);
      assert [Lit("@"), TypeNameAt(v.typeIdx)] + ([Lit("(")] + list + [Lit(")")])
          == [Lit("@")] + ([TypeNameAt(v.typeIdx)] + ([Lit("(")] + (list + [Lit(")")])));
    }
  }

  /** The text of a known value is read back as what the value says, all of it and no more. */
  lemma {:induction false} ShownReads(v: Value, handles: set<nat>, ps: seq<Piece>, p: nat)
    requires Known(v) && StandsAt(ps, p, Shown(v, handles)) && NoParenthesis(ps, p + |Shown(v, handles)|)
    ensures ReadTerm(ps, p) == Some((Meaning(v, handles), p + |Shown(v, handles)|))
    decreases v, 1
  {
    hide *;
    match v
    case Scalar(code, arg, bits) =>
      KnownScalar(code, arg, bits);
      ScalarShown(code, arg, bits, handles);
      OnePiece(ps, p, Shown(v, handles));
      PieceReads(ps, p);
    case Array(_, items) =>
      NestedShown(v, handles);
      StandsOne(ps, p, Lit("{"), RenderItems(items, 0, false, handles) + [Closing(false)]);
      ListReads(ps, p);
      ItemsShownRead(items, 0, false, handles, ps, p + 1);
    case Annotation(t, declared, items) =>
      NestedShown(v, handles);
      WordIs();
      if declared % WORD > 0 {
        var inner := RenderItems(items, 0, true, handles) + [Closing(true)];
        StandsOne(ps, p, Lit("@"), [TypeNameAt(t)] + ([Lit("(")] + inner));
        StandsOne(ps, p + 1, TypeNameAt(t), [Lit("(")] + inner);
        StandsOne(ps, p + 2, Lit("("), inner);
        NoteReads(ps, p);
        ItemsShownRead(items, 0, true, handles, ps, p + 3);
      } else {
        var none: seq<Piece> := [];
        StandsOne(ps, p, Lit("@"), [TypeNameAt(t)] + none);
        StandsOne(ps, p + 1, TypeNameAt(t), none);
        NoParenthesisIs(ps, p + 2);
        NoteReads(ps, p);
        NoMeanings(handles);
      }
  }

  lemma KnownScalar(code: nat, arg: nat, bits: nat)
    requires Known(Scalar(code, arg, bits))
    ensures Width(code, arg).Some?
  {
  }

  lemma OnePiece(ps: seq<Piece>, p: nat, part: seq<Piece>)
    requires StandsAt(ps, p, part) && |part| == 1
    ensures p < |ps| && ps[p] == part[0]
  {
    assert ps[p..p + 1][0] == part[0];
  }

  lemma NoParenthesisIs(ps: seq<Piece>, p: nat)
    requires NoParenthesis(ps, p)
    ensures p < |ps| ==> ps[p] != Lit("(")
  {
  }

  lemma NoMeanings(handles: set<nat>)
    ensures Meanings(End, true, handles) == NoItem
  {
  }

  lemma PieceReads(ps: seq<Piece>, p: nat)
    requires p < |ps| && ps[p] != Lit("{") && ps[p] != Lit("@") && ReadPiece(ps[p]).Some?
    ensures ReadTerm(ps, p) == Some((ReadPiece(ps[p]).value, p + 1))
  {
    hide ReadPiece;
  }

  lemma ListReads(ps: seq<Piece>, p: nat)
    requires p < |ps| && ps[p] == Lit("{")
    ensures var items := ReadItems(ps, p + 1, true, false);
      ReadTerm(ps, p) == if items.None? then None else Some((Several(items.value.0), items.value.1))
  {
    hide ReadItems;
  }

  lemma NoteReads(ps: seq<Piece>, p: nat)
    requires p + 1 < |ps| && ps[p] == Lit("@") && ps[p + 1].TypeNameAt?
    ensures p + 2 < |ps| && ps[p + 2] == Lit("(") ==>
      var items := ReadItems(ps, p + 3, true, true);
      ReadTerm(ps, p) == if items.None? then None else Some((Noted(ps[p + 1].idx, items.value.0), items.value.1))
    ensures p + 2 >= |ps| || ps[p + 2] != Lit("(") ==> ReadTerm(ps, p) == Some((Noted(ps[p + 1].idx, NoItem), p + 2))
  {
    hide ReadItems;
  }

  /** What comes before the text of an item. */
  function Before(i: nat, named: bool, name: nat): seq<Piece> {
    (if i > 0 then [Lit(", ")] else []) + if named then [NameAt(name), Lit(" = ")] else []
  }

  lemma ItemPieces(items: Items, i: nat, named: bool, handles: set<nat>)
    requires ItemsKnown(items)
    ensures items.End? ==> RenderItems(items, i, named, handles) == []
    ensures items.Item? ==>
      && Known(items.value) && ItemsKnown(items.rest)
      && RenderItems(items, i, named, handles)
         == Before(i, named, items.name) + Shown(items.value, handles)
            + RenderItems(items.rest, i + 1, named, handles)
  {
    hide Shown, Known;
  }

  lemma NothingBefore(i: nat, named: bool, name: nat)
    ensures forall t :: t in Before(i, named, name) ==> !t.StringAt?
  {
  }

  lemma ItemsShown(items: Items, i: nat, named: bool, handles: set<nat>)
    requires ItemsKnown(items)
    ensures items.End? ==>
      && RenderItems(items, i, named, handles) + [Closing(named)] == [Closing(named)] + []
      && Meanings(items, named, handles) == NoItem
    ensures items.Item? ==>
      && Known(items.value) && ItemsKnown(items.rest)
      && RenderItems(items, i, named, handles) + [Closing(named)]
         == Before(i, named, items.name)
            + (Shown(items.value, handles) + (RenderItems(items.rest, i + 1, named, handles) + [Closing(named)]))
      && Meanings(items, named, handles)
         == SaidItem(if named then items.name else 0, Meaning(items.value, handles),
                     Meanings(items.rest, named, handles))
  {
    hide Shown, Meaning, Known;
    if items.Item? {
      var a, b, c := Before(i, named, items.name), Shown(items.value, handles),
                     RenderItems(items.rest, i + 1, named, handles);
      ItemPieces(items, i, named, handles);
      assert a + b + c + [Closing(named)] == a + (b + (c + [Closing(named)]));
    }
  }

  /** What stands at the beginning of the items, or behind the first of them. */
  lemma BeforeReads(ps: seq<Piece>, p: nat, i: nat, named: bool, name: nat, rest: seq<Piece>)
    requires StandsAt(ps, p, Before(i, named, name) + rest) && |rest| > 0
    requires (i == 0 && !named ==> rest[0] != Closing(false))
    ensures p < |ps| && ps[p] != Closing(named) && (i > 0 ==> ps[p] == Lit(", "))
    ensures var q := if i > 0 then p + 1 else p;
      && (named ==> q + 1 < |ps| && ps[q] == NameAt(name) && ps[q + 1] == Lit(" = "))
      && p + |Before(i, named, name)| == if named then q + 2 else q
    ensures StandsAt(ps, p + |Before(i, named, name)|, rest)
  {
    var part := Before(i, named, name) + rest;
    assert forall k :: 0 <= k < |part| ==> ps[p..p + |part|][k] == part[k];
    assert forall k :: 0 <= k < |part| ==> ps[p + k] == part[k];
    StandsParts(ps, p, Before(i, named, name), rest);
  }

  lemma ItemsUnread(ps: seq<Piece>, p: nat, first: bool, named: bool)
    requires p < |ps|
    ensures ps[p] == Closing(named) ==> ReadItems(ps, p, first, named) == Some((NoItem, p + 1))
    ensures ps[p] != Closing(named) && (first || ps[p] == Lit(", ")) ==>
      var q := if first then p else p + 1;
      (named ==> q + 1 < |ps| && ps[q].NameAt? && ps[q + 1] == Lit(" = ")) ==>
      var value := ReadTerm(ps, if named then q + 2 else q);
      ReadItems(ps, p, first, named) ==
        if value.None? then None
        else
          var rest := ReadItems(ps, value.value.1, false, named);
          if rest.None? then None
          else Some((SaidItem(if named then ps[q].idx else 0, value.value.0, rest.value.0), rest.value.1))
  {
    hide ReadTerm, Closing;
  }

  /** Where the text of the first item stands, and what follows it. */
  lemma ItemStands(items: Items, i: nat, named: bool, handles: set<nat>, ps: seq<Piece>, p: nat) returns (r: nat)
    requires ItemsKnown(items) && items.Item?
    requires StandsAt(ps, p, RenderItems(items, i, named, handles) + [Closing(named)])
    ensures p < |ps| && ps[p] != Closing(named) && (i > 0 ==> ps[p] == Lit(", "))
    ensures var q := if i > 0 then p + 1 else p;
      && (named ==> q + 1 < |ps| && ps[q] == NameAt(items.name) && ps[q + 1] == Lit(" = "))
      && r == if named then q + 2 else q
    ensures Known(items.value) && StandsAt(ps, r, Shown(items.value, handles))
    ensures var e := r + |Shown(items.value, handles)|;
      && NoParenthesis(ps, e) && ItemsKnown(items.rest)
      && StandsAt(ps, e, RenderItems(items.rest, i + 1, named, handles) + [Closing(named)])
      && e + |RenderItems(items.rest, i + 1, named, handles)| == p + |RenderItems(items, i, named, handles)|
  {
    hide *;
    ItemsShown(items, i, named, handles);
    ItemPieces(items, i, named, handles);
    var shown, rest := Shown(items.value, handles), RenderItems(items.rest, i + 1, named, handles) + [Closing(named)];
    ShownStarts(items.value, handles);
    BeforeReads(ps, p, i, named, items.name, shown + rest);
    r := p + |Before(i, named, items.name)|;
    StandsParts(ps, r, shown, rest);
    RestStarts(ps, r + |shown|, items.rest, i + 1, named, handles);
  }

  lemma {:induction false} ItemsShownRead(items: Items, i: nat, named: bool, handles: set<nat>, ps: seq<Piece>, p: nat)
    requires ItemsKnown(items) && StandsAt(ps, p, RenderItems(items, i, named, handles) + [Closing(named)])
    ensures ReadItems(ps, p, i == 0, named)
         == Some((Meanings(items, named, handles), p + |RenderItems(items, i, named, handles)| + 1))
    decreases items, 0
  {
    hide *;
    ItemsMean(items, named, handles);
    if items.End? {
      ItemsShown(items, i, named, handles);
      ItemPieces(items, i, named, handles);
      StandsOne(ps, p, Closing(named), []);
      ItemsUnread(ps, p, i == 0, named);
    } else {
      var r := ItemStands(items, i, named, handles, ps, p);
      ShownReads(items.value, handles, ps, r);
      ItemsShownRead(items.rest, i + 1, named, handles, ps, r + |Shown(items.value, handles)|);
      ItemsUnread(ps, p, i == 0, named);
    }
  }

  lemma ItemsMean(items: Items, named: bool, handles: set<nat>)
    ensures Meanings(items, named, handles) ==
      if items.End? then NoItem
      else SaidItem(if named then items.name else 0, Meaning(items.value, handles),
                    Meanings(items.rest, named, handles))
  {
    hide Meaning;
  }

  /** Behind an item comes a comma or what closes the items. */
  lemma RestStarts(ps: seq<Piece>, p: nat, items: Items, i: nat, named: bool, handles: set<nat>)
    requires i > 0 && StandsAt(ps, p, RenderItems(items, i, named, handles) + [Closing(named)])
    ensures NoParenthesis(ps, p)
  {
    var part := RenderItems(items, i, named, handles) + [Closing(named)];
    assert ps[p..p + |part|][0] == part[0];
  }

  /** The text of any value the gate accepts says what the value says. */
  lemma AcceptedReadsBack(s: Bytes, p: nat, depth: nat, l: Limits, handles: set<nat>)
    requires ParseValue(s, p, depth, l).Some?
    ensures var v := ParseValue(s, p, depth, l).value.0;
      ReadTerm(Shown(v, handles), 0) == Some((Meaning(v, handles), |Shown(v, handles)|))
  {
    ParsedKnown(s, p, depth, l);
    var v := ParseValue(s, p, depth, l).value.0;
    hide ParseValue, Shown, Known, ReadTerm, Meaning;
    ShownReads(v, handles, Shown(v, handles), 0);
  }

  /** The strings a text names, in order. */
  function StringsIn(ps: seq<Piece>): seq<nat> {
    if ps == [] then [] else (if ps[0].StringAt? then [ps[0].idx] else []) + StringsIn(ps[1..])
  }

  lemma {:induction false} StringsBoth(a: seq<Piece>, b: seq<Piece>)
    ensures StringsIn(a + b) == StringsIn(a) + StringsIn(b)
    decreases |a|
  {
    if a == [] {
      assert a + b == b;
    } else {
      StringsBoth(a[1..], b);
      assert (a + b)[1..] == a[1..] + b && (a + b)[0] == a[0];
      var one := if a[0].StringAt? then [a[0].idx] else [];
      assert StringsIn(a + b) == one + StringsIn(a[1..] + b) && StringsIn(a) == one + StringsIn(a[1..]);
      assert one + (StringsIn(a[1..]) + StringsIn(b)) == (one + StringsIn(a[1..])) + StringsIn(b);
    }
  }

  lemma ScalarStrings(code: nat, arg: nat, bits: nat, handles: set<nat>)
    requires Width(code, arg).Some?
    ensures StringsIn(Shown(Scalar(code, arg, bits), handles)) == Strings(Scalar(code, arg, bits))
  {
    assert StringsIn(Shown(Scalar(code, arg, bits), handles)[1..]) == [];
  }

  /** What stands around the items names no string. */
  lemma NestedStrings(v: Value, handles: set<nat>)
    requires Known(v) && !v.Scalar?
    requires StringsIn(RenderItems(v.items, 0, v.Annotation?, handles)) == ItemStrings(v.items)
    ensures StringsIn(Shown(v, handles)) == ItemStrings(v.items)
  {
    hide *;
    NestedShown(v, handles);
    WordIs();
    NoItemStrings();
    var list := RenderItems(v.items, 0, v.Annotation?, handles);
    var close := [Closing(v.Annotation?)];
    ClosesAlone(v.Annotation?);
    NoStrings(close);
    StringsBoth(list, close);
    if v.Array? {
      NoStrings([Lit("{")]);
      StringsBoth([Lit("{")], list + close);
    } else {
      var head: seq<Piece> := [Lit("@"), TypeNameAt(v.typeIdx)];
      NoStrings(head);
      if v.declared % WORD > 0 {
        assert Shown(v, handles) == (head + [Lit("(")]) + (list + close);
        NoStrings(head + [Lit("(")]);
        StringsBoth(head + [Lit("(")], list + close);
      } else {
        assert Shown(v, handles) == head;
      }
    }
  }

  lemma ClosesAlone(named: bool)
    ensures !Closing(named).StringAt?
  {
  }

  lemma StringsOf(v: Value)
    ensures !v.Scalar? ==> Strings(v) == ItemStrings(v.items)
  {
  }

  lemma KnownItems(v: Value)
    requires Known(v)
    ensures if v.Scalar? then Width(v.code, v.arg).Some? else ItemsKnown(v.items)
  {
  }

  /** They are those of the value, as the scanner collects them. */
  lemma {:induction false} StringsShown(v: Value, handles: set<nat>)
    requires Known(v)
    ensures StringsIn(Shown(v, handles)) == Strings(v)
    decreases v, 1
  {
    hide *;
    KnownItems(v);
    StringsOf(v);
    if v.Scalar? {
      ScalarStrings(v.code, v.arg, v.bits, handles);
    } else {
      ItemStringsShown(v.items, 0, v.Annotation?, handles);
      NestedStrings(v, handles);
    }
  }

  lemma {:induction false} NoStrings(ps: seq<Piece>)
    requires forall t :: t in ps ==> !t.StringAt?
    ensures StringsIn(ps) == []
    decreases |ps|
  {
    if ps != [] { NoStrings(ps[1..]); }
  }

  lemma {:induction false} ItemStringsShown(items: Items, i: nat, named: bool, handles: set<nat>)
    requires ItemsKnown(items)
    ensures StringsIn(RenderItems(items, i, named, handles)) == ItemStrings(items)
    decreases items, 0
  {
    hide *;
    ItemPieces(items, i, named, handles);
    if items.End? {
      NoStrings([]);
      NoItemStrings();
    } else {
      var a, b, c := Before(i, named, items.name), Shown(items.value, handles),
                     RenderItems(items.rest, i + 1, named, handles);
      StringsShown(items.value, handles);
      ItemStringsShown(items.rest, i + 1, named, handles);
      NothingBefore(i, named, items.name);
      NoStrings(a);
      StringsBoth(a + b, c);
      StringsBoth(a, b);
      MoreItemStrings(items);
    }
  }

  lemma NoItemStrings()
    ensures ItemStrings(End) == []
  {
  }

  lemma MoreItemStrings(items: Items)
    requires items.Item?
    ensures ItemStrings(items) == Strings(items.value) + ItemStrings(items.rest)
  {
  }

  /** Every index a piece names is inside its own table. */
  predicate PieceIn(t: Piece, l: Limits) {
    match t
    case StringAt(i) => i < l.strings
    case NameAt(i) => i < l.strings
    case ClassAt(i) => i < l.types
    case TypeNameAt(i) => i < l.types
    case FieldAt(i) => i < l.fields
    case ProtoAt(i) => i < l.protos
    case HandleAt(i) => i < l.handles
    case MethodAt(i) => i < l.methods
    case _ => true
  }

  predicate PiecesIn(ps: seq<Piece>, l: Limits) {
    forall t :: t in ps ==> PieceIn(t, l)
  }

  lemma ScalarInTables(code: nat, arg: nat, bits: nat, handles: set<nat>, l: Limits)
    requires Width(code, arg).Some? && InRange(Scalar(code, arg, bits), l)
    ensures PiecesIn(Shown(Scalar(code, arg, bits), handles), l)
  {
  }

  lemma NestedInTables(v: Value, handles: set<nat>, l: Limits)
    requires Known(v) && !v.Scalar? && InRange(v, l)
    requires PiecesIn(RenderItems(v.items, 0, v.Annotation?, handles), l)
    ensures PiecesIn(Shown(v, handles), l)
  {
    NestedShown(v, handles);
    hide Shown, RenderItems, Known, ItemsInRange;
  }

  lemma InRangeItems(v: Value, l: Limits)
    requires InRange(v, l) && !v.Scalar?
    ensures ItemsInRange(v.items, v.Annotation?, l)
  {
  }

  lemma {:induction false} ShownInTables(v: Value, handles: set<nat>, l: Limits)
    requires Known(v) && InRange(v, l)
    ensures PiecesIn(Shown(v, handles), l)
    decreases v, 1
  {
    hide *;
    KnownItems(v);
    if v.Scalar? {
      ScalarInTables(v.code, v.arg, v.bits, handles, l);
    } else {
      InRangeItems(v, l);
      ItemsInTables(v.items, 0, v.Annotation?, handles, l);
      NestedInTables(v, handles, l);
    }
  }

  lemma {:induction false} ItemsInTables(items: Items, i: nat, named: bool, handles: set<nat>, l: Limits)
    requires ItemsKnown(items) && ItemsInRange(items, named, l)
    ensures PiecesIn(RenderItems(items, i, named, handles), l)
    decreases items, 0
  {
    hide Shown, Known, InRange;
    if items.Item? {
      ShownInTables(items.value, handles, l);
      ItemsInTables(items.rest, i + 1, named, handles, l);
    }
  }

  /** An accepted value's text names its strings in order and stays inside every table. */
  lemma AcceptedNamesTables(s: Bytes, p: nat, depth: nat, l: Limits, handles: set<nat>)
    requires ParseValue(s, p, depth, l).Some?
    ensures var v := ParseValue(s, p, depth, l).value.0;
      StringsIn(Shown(v, handles)) == Strings(v) && PiecesIn(Shown(v, handles), l)
  {
    ParsedKnown(s, p, depth, l);
    ParsedInRange(s, p, depth, l);
    hide ParseValue, Shown, Known, InRange, Strings;
    StringsShown(ParseValue(s, p, depth, l).value.0, handles);
    ShownInTables(ParseValue(s, p, depth, l).value.0, handles, l);
  }

  /** What a text says can stand in an expression: no method, method handle or annotation, and
      in a list nothing that could not be rendered. */
  predicate Expressible(t: Said)
    decreases t
  {
    match t
    case Plain(m) => !m.SaysMethodHandle? && !m.SaysMethod?
    case Missing => false
    case Several(items) => AllExpressible(items)
    case Noted(_, _) => false
  }

  predicate AllExpressible(items: SaidItems)
    decreases items
  {
    items.NoItem? || (Expressible(items.value) && AllExpressible(items.rest))
  }

  /** The flag beside a text tells whether it is an expression. */
  lemma {:induction false} FlagIsExpressible(v: Value, handles: set<nat>)
    requires Known(v)
    ensures (Render(v, handles).pieces != [] && Render(v, handles).expression) <==> Expressible(Meaning(v, handles))
    decreases v, 1
  {
    match v
    case Scalar(code, arg, bits) =>
    case Array(_, items) => FlagsAreExpressible(items, false, handles);
    case Annotation(t, declared, items) =>
  }

  lemma {:induction false} FlagsAreExpressible(items: Items, named: bool, handles: set<nat>)
    requires ItemsKnown(items)
    ensures AllExpressions(items, handles) <==> AllExpressible(Meanings(items, named, handles))
    decreases items, 0
  {
    hide Render, Known, Meaning;
    if items.Item? {
      FlagIsExpressible(items.value, handles);
      FlagsAreExpressible(items.rest, named, handles);
    }
  }
}
