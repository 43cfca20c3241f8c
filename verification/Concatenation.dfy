/**
 * Decoding acts on byte strings: decoding a concatenation is decoding the first part and then the
 * second into the result.
 */
module Concatenation {
  import opened Wrappers
  import opened Bits
  import opened Varints
  import opened Descriptors
  import opened WireFormat

  // ---- No parser looks past what it consumes.

  lemma {:induction false} RawVarintExtends(s: seq<byte>, t: seq<byte>)
    requires RawVarint(s).Some?
    ensures RawVarint(s + t) == RawVarint(s)
    ensures (s + t)[RawVarint(s).value.1..] == s[RawVarint(s).value.1..] + t
  {
    if s[0] >= 128 {
      assert (s + t)[1..] == s[1..] + t;
      RawVarintExtends(s[1..], t);
    }
  }

  lemma {:induction false} Decode32FromExtends(s: seq<byte>, result: nat, bitpos: nat, t: seq<byte>)
    requires result < 0x1_0000_0000 && bitpos < 256 && Decode32From(s, result, bitpos).Some?
    ensures var (v, rest) := Decode32From(s, result, bitpos).value;
      Decode32From(s + t, result, bitpos) == Some((v, rest + t))
    decreases |s|
  {
    assert (s + t)[1..] == s[1..] + t;
    if s[0] >= 128 {
      var next := if bitpos + 7 < 256 then bitpos + 7 else bitpos + 7 - 256;
      var result' := if bitpos >= 32 then result else Merge32(result, Group(s[0]), bitpos);
      Decode32FromExtends(s[1..], result', next, t);
    }
  }

  lemma Decode32Extends(s: seq<byte>, t: seq<byte>)
    requires Decode32(s).Some?
    ensures Decode32(s + t) == Some((Decode32(s).value.0, Decode32(s).value.1 + t))
  {
    assert (s + t)[1..] == s[1..] + t;
    if s[0] >= 128 {
      Decode32FromExtends(s[1..], Group(s[0]), 7, t);
    }
  }

  lemma DelimitedExtends(s: seq<byte>, t: seq<byte>)
    requires DecodeDelimited(s).Some?
    ensures DecodeDelimited(s + t) == Some((DecodeDelimited(s).value.0, DecodeDelimited(s).value.1 + t))
  {
    Decode32Extends(s, t);
    var (len, rest) := Decode32(s).value;
    assert (rest + t)[..len] == rest[..len] && (rest + t)[len..] == rest[len..] + t;
  }

  lemma NumExtends(f: Field, s: seq<byte>, t: seq<byte>)
    requires Packable(f.ltype) && DecodeNum(f, s).Some?
    ensures DecodeNum(f, s + t) == Some((DecodeNum(f, s).value.0, DecodeNum(f, s).value.1 + t))
  {
    match f.ltype
    case Fixed32T => assert (s + t)[..4] == s[..4] && (s + t)[4..] == s[4..] + t;
    case Fixed64T => assert (s + t)[..8] == s[..8] && (s + t)[8..] == s[8..] + t;
    case _ => RawVarintExtends(s, t);
  }

  lemma SkipExtends(wireType: nat, s: seq<byte>, t: seq<byte>)
    requires SkipField(wireType, s).Some?
    ensures SkipField(wireType, s + t) == Some(SkipField(wireType, s).value + t)
  {
    match wireType
    case 0 => RawVarintExtends(s, t);
    case 1 => assert (s + t)[8..] == s[8..] + t;
    case 2 => DelimitedExtends(s, t);
    case 5 => assert (s + t)[4..] == s[4..] + t;
    case _ =>
  }

  lemma ValExtends(f: Field, prior: Val, s: seq<byte>, t: seq<byte>)
    requires ValidField(f) && ValOk(f, prior) && DecodeVal(f, prior, s).Ok?
    ensures DecodeVal(f, prior, s + t) == Ok((DecodeVal(f, prior, s).value.0, DecodeVal(f, prior, s).value.1 + t))
  {
    if Packable(f.ltype) {
      NumExtends(f, s, t);
    } else {
      if Decode32(s).Some? {
        Decode32Extends(s, t);
      }
      if DecodeDelimited(s).Some? {
        DelimitedExtends(s, t);
      }
    }
  }

  lemma FieldExtends(fields: seq<Field>, st: State, i: nat, wireType: nat, s: seq<byte>, t: seq<byte>)
    requires ValidFields(fields) && StateOk(fields, st) && i < |fields| && DecodeFieldAt(fields, st, i, wireType, s).Ok?
    ensures var (st1, rest) := DecodeFieldAt(fields, st, i, wireType, s).value;
      DecodeFieldAt(fields, st, i, wireType, s + t) == Ok((st1, rest + t))
  {
    var st1 := EnterField(fields, st, i).value;
    SlotExtends(FieldAt(fields, i), SlotAt(fields, st1.slots, i), st1.fixedCount, wireType, s, t);
  }

  lemma SlotExtends(f: Field, slot: Slot, count: nat, wireType: nat, s: seq<byte>, t: seq<byte>)
    requires ValidField(f) && SlotOk(f, slot) && DecodeSlot(f, slot, count, wireType, s).Ok?
    ensures var (slot', count', rest) := DecodeSlot(f, slot, count, wireType, s).value;
      DecodeSlot(f, slot, count, wireType, s + t) == Ok((slot', count', rest + t))
  {
    match slot
    case One(v) => ValExtends(f, v, s, t);
    case Opt(_, v) => ValExtends(f, v, s, t);
    case Rep(c, items) => ItemsExtend(f, items, c, wireType, s, t);
    case Fix(items) => ItemsExtend(f, items, count, wireType, s, t);
    case Union(which, v) => ValExtends(f, UnionStart(f, which, v), s, t);
  }

  lemma ItemsExtend(f: Field, items: seq<Val>, count: nat, wireType: nat, s: seq<byte>, t: seq<byte>)
    requires ValidField(f)
    requires |items| == f.arraySize && forall k :: 0 <= k < |items| ==> ValOk(f, items[k])
    requires DecodeItems(f, items, count, wireType, s).Ok?
    ensures var (items', count', rest) := DecodeItems(f, items, count, wireType, s).value;
      DecodeItems(f, items, count, wireType, s + t) == Ok((items', count', rest + t))
  {
    if wireType == 2 && Packable(f.ltype) {
      DelimitedExtends(s, t);
    } else {
      ValExtends(f, items[count], s, t);
    }
  }

  lemma TagExtends(s: seq<byte>, t: seq<byte>)
    requires !DecodeTag(s).BadTag?
    ensures DecodeTag(s + t) == DecodeTag(s).(rest := DecodeTag(s).rest + t)
  {
    Decode32Extends(s, t);
  }

  // ---- The loop.

  /** What has been decoded without reaching a zero tag does not depend on what follows. */
  lemma {:induction false} RunConcat(fields: seq<Field>, st: State, a: seq<byte>, b: seq<byte>)
    requires ValidFields(fields) && StateOk(fields, st)
    ensures match Run(fields, st, a)
      case Running(st1) => Run(fields, st, a + b) == Run(fields, st1, b)
      case Stopped(st1, rest) => Run(fields, st, a + b) == Stopped(st1, rest + b)
      case Failed(_) => true
    decreases |a|
  {
    if a == [] {
      assert a + b == b;
    } else if !Run(fields, st, a).Failed? {
      TagExtends(a, b);
      match DecodeTag(a)
      case Terminator(_) =>
      case Tag(wireType, tag, rest) =>
        match FindField(fields, tag) {
          case Some(i) =>
            FieldExtends(fields, st, i, wireType, rest, b);
            var (st1, rest1) := DecodeFieldAt(fields, st, i, wireType, rest).value;
            RunConcat(fields, st1, rest1, b);
          case None =>
            SkipExtends(wireType, rest, b);
            RunConcat(fields, st, SkipField(wireType, rest).value, b);
        }
    }
  }

  predicate HasNoRunningChecks(fields: seq<Field>) {
    forall i :: 0 <= i < |fields| ==> !fields[i].htype.Required? && !IsFixedCount(fields[i])
  }

  lemma {:induction false} NothingRequired(fields: seq<Field>, n: nat)
    requires HasNoRunningChecks(fields) && n <= |fields|
    ensures RequiredBefore(fields, n) == 0
  {
    if n > 0 {
      NothingRequired(fields, n - 1);
    }
  }

  lemma FieldKeepsOnlySlots(fields: seq<Field>, slots: seq<Slot>, i: nat, wireType: nat, s: seq<byte>)
    requires ValidFields(fields) && SlotsOk(fields, slots) && i < |fields|
    requires !fields[i].htype.Required? && !IsFixedCount(fields[i])
    requires DecodeFieldAt(fields, Initial(slots), i, wireType, s).Ok?
    ensures var st := DecodeFieldAt(fields, Initial(slots), i, wireType, s).value.0; st == Initial(st.slots)
  {
    assert EnterField(fields, Initial(slots), i) == Ok(Initial(slots));
    var f, slot := FieldAt(fields, i), SlotAt(fields, slots, i);
    assert !slot.Fix?;
    assert DecodeSlot(f, slot, 0, wireType, s).value.1 == 0;
  }

  /** Without required and fixed-count fields the loop carries nothing but the struct. */
  lemma {:induction false} RunKeepsOnlySlots(fields: seq<Field>, slots: seq<Slot>, s: seq<byte>)
    requires ValidFields(fields) && SlotsOk(fields, slots) && HasNoRunningChecks(fields)
    ensures var r := Run(fields, Initial(slots), s); !r.Failed? ==> r.st == Initial(r.st.slots)
    decreases |s|
  {
    if s != [] && DecodeTag(s).Tag? {
      var Tag(wireType, tag, rest) := DecodeTag(s);
      match FindField(fields, tag) {
        case Some(i) =>
          var r := DecodeFieldAt(fields, Initial(slots), i, wireType, rest);
          if r.Ok? {
            FieldKeepsOnlySlots(fields, slots, i, wireType, rest);
            RunKeepsOnlySlots(fields, r.value.0.slots, r.value.1);
          }
        case None =>
          if SkipField(wireType, rest).Some? {
            RunKeepsOnlySlots(fields, slots, SkipField(wireType, rest).value);
          }
      }
    }
  }

  /**
   * Decoding is an action of concatenation: for descriptors without required and fixed-count fields,
   * decoding `a + b` is decoding `a` and then `b` into the result.
   */
  lemma DecodingIsAnAction(fields: seq<Field>, slots: seq<Slot>, a: seq<byte>, b: seq<byte>)
    requires ValidFields(fields) && SlotsOk(fields, slots) && HasNoRunningChecks(fields)
    requires Run(fields, Initial(slots), a).Running?
    ensures DecodeNoInit(fields, slots, a).Ok?
    ensures DecodeNoInit(fields, slots, a + b) == DecodeNoInit(fields, DecodeNoInit(fields, slots, a).value.0, b)
  {
    NothingRequired(fields, |fields|);
    RunKeepsOnlySlots(fields, slots, a);
    RunConcat(fields, Initial(slots), a, b);
  }
}
