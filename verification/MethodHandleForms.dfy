/** How method handle items are written, and that a walk accepts a section so written exactly
    when every handle names a field or method that exists. */
module MethodHandleForms {
  import opened Options
  import opened EncodedValue
  import opened CodeItem
  import opened MethodHandles
  import opened ByteForms

  /** What a method handle does. The format numbers these in order from zero. */
  datatype HandleKind =
    | StaticPut
    | StaticGet
    | InstancePut
    | InstanceGet
    | InvokeStatic
    | InvokeInstance
    | InvokeConstructor
    | InvokeDirect
    | InvokeInterface
    | Unknown(code: nat)
  {
    function Code(): nat {
      match this
      case StaticPut => 0
      case StaticGet => 1
      case InstancePut => 2
      case InstanceGet => 3
      case InvokeStatic => 4
      case InvokeInstance => 5
      case InvokeConstructor => 6
      case InvokeDirect => 7
      case InvokeInterface => 8
      case Unknown(code) => code
    }

    predicate OfField() {
      StaticPut? || StaticGet? || InstancePut? || InstanceGet?
    }
  }

  /** A method handle item: what it does, the field or method it names, and two unused fields. */
  datatype HandleForm = HandleForm(kind: HandleKind, unused: nat, member: nat, unused2: nat) {
    predicate Fits() {
      && member < 0x1_0000
      && (kind.Unknown? ==> 9 <= kind.code < 0x1_0000)
    }

    function Written(): Bytes {
      Stored(kind.Code(), 2) + (Stored(unused, 2) + (Stored(member, 2) + Stored(unused2, 2)))
    }

    /** It is of a known kind and names what is there. */
    predicate Names(fields: nat, methods: nat) {
      !kind.Unknown? && member < if kind.OfField() then fields else methods
    }
  }

  function SectionWritten(hs: seq<HandleForm>): (r: Bytes)
    ensures |r| == ENTRY * |hs|
  {
    if hs == [] then [] else hs[0].Written() + SectionWritten(hs[1..])
  }

  lemma EntryReads(image: Bytes, p: nat, h: HandleForm)
    requires h.Fits() && HoldsAt(image, p, h.Written())
    ensures p + ENTRY <= |image| && Kind(image, p) == h.kind.Code() && Member(image, p) == h.member
  {
    var a, b, c, d := Stored(h.kind.Code(), 2), Stored(h.unused, 2), Stored(h.member, 2), Stored(h.unused2, 2);
    hide HoldsAt, Stored, U2;
    HoldsIs(image, p, h.Written());
    HoldsParts(image, p, a, b + (c + d));
    HoldsParts(image, p + 2, b, c + d);
    HoldsParts(image, p + 4, c, d);
    ReadsBack2(image, p, h.kind.Code());
    ReadsBack2(image, p + 4, h.member);
  }

  /** A section so written passes if and only if each handle names what is there. */
  lemma {:induction false} SectionPasses(image: Bytes, p: nat, hs: seq<HandleForm>, fields: nat, methods: nat)
    requires (forall h :: h in hs ==> h.Fits()) && HoldsAt(image, p, SectionWritten(hs))
    ensures p + ENTRY * |hs| <= |image|
    ensures Walk(image, p, |hs|, fields, methods) <==> forall h :: h in hs ==> h.Names(fields, methods)
    decreases |hs|
  {
    HoldsIs(image, p, SectionWritten(hs));
    hide HoldsAt, Stored, Kind, Member;
    if hs != [] {
      assert hs[0] in hs && forall h :: h in hs <==> h == hs[0] || h in hs[1..];
      HoldsParts(image, p, hs[0].Written(), SectionWritten(hs[1..]));
      EntryReads(image, p, hs[0]);
      SectionPasses(image, p + ENTRY, hs[1..], fields, methods);
    }
  }
}
