/**
 * Fields that a descriptor does not know: what is skipped, by wire type, and why a reader without any
 * knowledge of a message can step over everything an encoder writes.
 */
module UnknownFields {
  import opened Wrappers
  import opened Bits
  import opened Varints
  import opened Descriptors
  import opened WireFormat
  import opened RoundTrip
  import opened WireBytes
  import opened Concatenation

  // ---- What is skipped.

  /**
   * The bytes of one value, by wire type: one varint of any length, eight bytes, a length that announces
   * the rest, or four bytes. Other wire types have no values.
   */
  predicate IsValue(wireType: nat, p: seq<byte>) {
    match wireType
    case 0 => Marked(p)
    case 1 => |p| == 8
    case 2 => Decode32(p).Some? && Decode32(p).value.0 == |Decode32(p).value.1|
    case 5 => |p| == 4
    case _ => false
  }

  lemma {:induction false} RawOfMarked(p: seq<byte>, tail: seq<byte>)
    requires Marked(p)
    ensures RawVarint(p + tail).Some? && RawVarint(p + tail).value.1 == |p| && (p + tail)[|p|..] == tail
  {
    if |p| > 1 {
      assert (p + tail)[1..] == p[1..] + tail;
      RawOfMarked(p[1..], tail);
    }
  }

  lemma {:induction false} Decode32FromPrefix(s: seq<byte>, result: nat, bitpos: nat, t: seq<byte>) returns (n: nat)
    requires result < 0x1_0000_0000 && bitpos < 256 && Decode32From(s, result, bitpos).Some?
    ensures n == |s| - |Decode32From(s, result, bitpos).value.1| && s[n..] == Decode32From(s, result, bitpos).value.1
    ensures Decode32From(s[..n] + t, result, bitpos) == Some((Decode32From(s, result, bitpos).value.0, t))
    decreases |s|
  {
    if s[0] >= 128 {
      var next := if bitpos + 7 < 256 then bitpos + 7 else bitpos + 7 - 256;
      var result' := if bitpos >= 32 then result else Merge32(result, Group(s[0]), bitpos);
      var m := Decode32FromPrefix(s[1..], result', next, t);
      n := m + 1;
      assert (s[..n] + t)[1..] == s[1..][..m] + t;
    } else {
      n := 1;
      assert (s[..1] + t)[1..] == t;
    }
  }

  /** A length is read from its own bytes alone. */
  lemma Decode32Prefix(s: seq<byte>, t: seq<byte>) returns (n: nat)
    requires Decode32(s).Some?
    ensures n == |s| - |Decode32(s).value.1| && s[n..] == Decode32(s).value.1
    ensures Decode32(s[..n] + t) == Some((Decode32(s).value.0, t))
  {
    if s[0] >= 128 {
      var m := Decode32FromPrefix(s[1..], Group(s[0]), 7, t);
      n := m + 1;
      assert (s[..n] + t)[1..] == s[1..][..m] + t;
    } else {
      n := 1;
      assert (s[..1] + t)[1..] == t;
    }
  }

  /** A value is skipped, and what follows it is left. */
  lemma ValueIsSkipped(wireType: nat, p: seq<byte>, tail: seq<byte>)
    requires IsValue(wireType, p)
    ensures SkipField(wireType, p + tail) == Some(tail)
  {
    match wireType
    case 0 => RawOfMarked(p, tail);
    case 1 => assert (p + tail)[8..] == tail;
    case 2 =>
      Decode32Extends(p, tail);
      var rest := Decode32(p).value.1;
      assert (rest + tail)[|rest|..] == tail;
    case 5 => assert (p + tail)[4..] == tail;
  }

  /** What is skipped is a value. */
  lemma SkippedIsValue(wireType: nat, s: seq<byte>) returns (n: nat)
    requires SkipField(wireType, s).Some?
    ensures n <= |s| && s[n..] == SkipField(wireType, s).value && IsValue(wireType, s[..n])
  {
    match wireType
    case 0 =>
      n := RawVarint(s).value.1;
      RawSpells(s);
    case 1 => n := 8;
    case 2 =>
      var (len, rest) := Decode32(s).value;
      var m := Decode32Prefix(s, rest[..len]);
      n := m + len;
      assert s[..n] == s[..m] + rest[..len] && s[n..] == rest[len..];
    case 5 => n := 4;
  }

  /** Skipping succeeds exactly when a value of the wire type comes first, and then leaves what follows it. */
  lemma SkipsExactly(wireType: nat, s: seq<byte>)
    ensures SkipField(wireType, s).Some? <==> exists n :: 0 <= n <= |s| && IsValue(wireType, s[..n])
    ensures forall n :: 0 <= n <= |s| && IsValue(wireType, s[..n]) ==> SkipField(wireType, s) == Some(s[n..])
  {
    forall n | 0 <= n <= |s| && IsValue(wireType, s[..n])
      ensures SkipField(wireType, s) == Some(s[n..])
    {
      assert s[..n] + s[n..] == s;
      ValueIsSkipped(wireType, s[..n], s[n..]);
    }
    if SkipField(wireType, s).Some? {
      var n := SkippedIsValue(wireType, s);
    }
  }

  // ---- Unknown fields between known ones.

  /** One complete field with a tag that the descriptor does not know. */
  predicate IsUnknownField(fields: seq<Field>, wireType: nat, tag: nat, u: seq<byte>) {
    && 0 < tag && (forall i :: 0 <= i < |fields| ==> fields[i].tag != tag)
    && DecodeTag(u).Tag? && DecodeTag(u).wireType == wireType && DecodeTag(u).tag == tag
    && IsValue(wireType, DecodeTag(u).rest)
  }

  lemma UnknownIsSkipped(fields: seq<Field>, st: State, wireType: nat, tag: nat, u: seq<byte>, b: seq<byte>)
    requires ValidFields(fields) && StateOk(fields, st) && IsUnknownField(fields, wireType, tag, u)
    ensures Run(fields, st, u + b) == Run(fields, st, b)
  {
    hide SkipField, IsValue;
    TagExtends(u, b);
    ValueIsSkipped(wireType, DecodeTag(u).rest, b);
    assert FindField(fields, tag).None?;
  }

  /** Forward compatibility: an unknown field between two fields changes nothing, for every descriptor. */
  lemma UnknownFieldsAreIgnored(
      fields: seq<Field>, slots: seq<Slot>, a: seq<byte>, wireType: nat, tag: nat, u: seq<byte>, b: seq<byte>)
    requires ValidFields(fields) && SlotsOk(fields, slots) && IsUnknownField(fields, wireType, tag, u)
    requires Run(fields, Initial(slots), a).Running?
    ensures DecodeNoInit(fields, slots, a + u + b) == DecodeNoInit(fields, slots, a + b)
  {
    var st := Run(fields, Initial(slots), a).st;
    assert a + u + b == a + (u + b);
    RunConcat(fields, Initial(slots), a, u + b);
    RunConcat(fields, Initial(slots), a, b);
    UnknownIsSkipped(fields, st, wireType, tag, u, b);
  }

  // ---- Messages unknown as a whole.

  /** The length prefix of a submessage fits 32 bits. */
  predicate PrefixFits(f: Field, v: Val)
    requires ValOk(f, v)
  {
    f.ltype.SubmessageT? && Encode(f.ltype.fields, v.slots).Some? ==> |Encode(f.ltype.fields, v.slots).value| <= 0xFFFF_FFFF
  }

  predicate PrefixesFit(f: Field, s: Slot)
    requires SlotOk(f, s)
  {
    match f.htype
    case Required => PrefixFits(f, s.v)
    case Optional => IsWritten(f, s) ==> PrefixFits(f, s.v)
    case Repeated =>
      Entries(f, s) <= f.arraySize ==>
        if Packable(f.ltype) then
          EncodeItems(f, s.items, Entries(f, s), false).Some? ==> |EncodeItems(f, s.items, Entries(f, s), false).value| <= 0xFFFF_FFFF
        else forall k :: 0 <= k < Entries(f, s) ==> PrefixFits(f, s.items[k])
    case Oneof => s.which == f.tag ==> PrefixFits(f, s.v)
  }

  /** What the encoder writes for a value is a value of wire type 0, 1, 5 or 2, by its kind. */
  lemma EncodedIsValue(f: Field, v: Val)
    requires ValidField(f) && ValOk(f, v) && EncodeVal(f, v).Some? && PrefixFits(f, v)
    ensures f.ltype.VarintT? || f.ltype.UVarintT? || f.ltype.SVarintT? ==> IsValue(0, EncodeVal(f, v).value)
    ensures f.ltype.Fixed64T? ==> IsValue(1, EncodeVal(f, v).value)
    ensures f.ltype.Fixed32T? ==> IsValue(5, EncodeVal(f, v).value)
    ensures HasWireType(f.ltype, 2) ==> IsValue(2, EncodeVal(f, v).value)
    ensures forall tail :: SkipField(WireType(f.ltype), EncodeVal(f, v).value + tail) == Some(tail)
  {
    var b := EncodeVal(f, v).value;
    if Packable(f.ltype) {
      NumberBytes(f, v);
    } else {
      var content := if f.ltype.SubmessageT? then Encode(f.ltype.fields, v.slots).value else v.data;
      LengthIsValue(content);
    }
    forall tail
      ensures SkipField(WireType(f.ltype), b + tail) == Some(tail)
    {
      ValueIsSkipped(WireType(f.ltype), b, tail);
    }
  }

  lemma LengthIsValue(content: seq<byte>)
    requires |content| <= 0xFFFF_FFFF
    ensures IsValue(2, EncodeString(content))
  {
    DelimitedReadsBack(content, []);
    assert EncodeString(content) + [] == EncodeString(content) && content + [] == content;
  }

  /** A reader that does not know the tag steps over the field. */
  lemma RunSkips(reader: seq<Field>, st: State, wireType: nat, tag: nat, p: seq<byte>, tail: seq<byte>)
    requires ValidFields(reader) && StateOk(reader, st) && FindField(reader, tag).None?
    requires 0 < tag < 0x2000_0000 && wireType < 8 && IsValue(wireType, p)
    ensures Run(reader, st, EncodeTag(wireType, tag) + p + tail) == Run(reader, st, tail)
  {
    hide SkipField, IsValue, DecodeTag, EncodeTag, FindField, ValidFields, StateOk;
    TagReadsBack(wireType, tag, p + tail);
    ValueIsSkipped(wireType, p, tail);
    assert EncodeTag(wireType, tag) + p + tail == EncodeTag(wireType, tag) + (p + tail);
    RunUnknown(reader, st, EncodeTag(wireType, tag) + (p + tail));
  }

  lemma RunUnknown(reader: seq<Field>, st: State, s: seq<byte>)
    requires ValidFields(reader) && StateOk(reader, st) && s != [] && DecodeTag(s).Tag? && DecodeTag(s).tag > 0
    requires FindField(reader, DecodeTag(s).tag).None? && SkipField(DecodeTag(s).wireType, DecodeTag(s).rest).Some?
    ensures Run(reader, st, s) == Run(reader, st, SkipField(DecodeTag(s).wireType, DecodeTag(s).rest).value)
  {
    hide SkipField, DecodeTag, FindField, ValidFields, StateOk;
  }

  lemma TaggedIsSkipped(reader: seq<Field>, st: State, f: Field, v: Val, tail: seq<byte>)
    requires ValidFields(reader) && StateOk(reader, st) && FindField(reader, f.tag).None?
    requires ValidField(f) && ValOk(f, v) && PrefixFits(f, v) && EncodeTagged(f, v).Some?
    ensures Run(reader, st, EncodeTagged(f, v).value + tail) == Run(reader, st, tail)
  {
    hide Run, IsValue, ValidFields, StateOk, PrefixFits, FindField, EncodeTag;
    EncodedIsValue(f, v);
    RunSkips(reader, st, WireType(f.ltype), f.tag, EncodeVal(f, v).value, tail);
  }

  lemma {:induction false} ItemsAreSkipped(reader: seq<Field>, st: State, f: Field, items: seq<Val>, n: nat, tail: seq<byte>)
    requires ValidFields(reader) && StateOk(reader, st) && FindField(reader, f.tag).None?
    requires ValidField(f) && n <= |items| && forall k :: 0 <= k < |items| ==> ValOk(f, items[k])
    requires (forall k :: 0 <= k < n ==> PrefixFits(f, items[k])) && EncodeItems(f, items, n, true).Some?
    ensures Run(reader, st, EncodeItems(f, items, n, true).value + tail) == Run(reader, st, tail)
  {
    hide Run, ValidFields, StateOk, PrefixFits, FindField, EncodeTagged, EncodeVal, ValOk;
    if n == 0 {
      assert [] + tail == tail;
    } else {
      var a, b := EncodeItems(f, items, n - 1, true).value, EncodeTagged(f, items[n - 1]).value;
      assert a + b + tail == a + (b + tail);
      ItemsAreSkipped(reader, st, f, items, n - 1, b + tail);
      TaggedIsSkipped(reader, st, f, items[n - 1], tail);
    }
  }

  lemma FieldIsSkipped(reader: seq<Field>, st: State, f: Field, s: Slot, tail: seq<byte>)
    requires ValidFields(reader) && StateOk(reader, st) && FindField(reader, f.tag).None?
    requires ValidField(f) && SlotOk(f, s) && PrefixesFit(f, s) && EncodeField(f, s).Some?
    ensures Run(reader, st, EncodeField(f, s).value + tail) == Run(reader, st, tail)
  {
    hide Run, ValidFields, StateOk, PrefixFits, FindField, EncodeTagged, EncodeVal, ValOk, EncodeItems, EncodeTag, EncodeString;
    if f.htype.Repeated? && 0 < Entries(f, s) {
      var n := Entries(f, s);
      if Packable(f.ltype) {
        var body := EncodeItems(f, s.items, n, false).value;
        LengthIsValue(body);
        RunSkips(reader, st, 2, f.tag, EncodeString(body), tail);
      } else {
        ItemsAreSkipped(reader, st, f, s.items, n, tail);
      }
    } else if f.htype.Repeated? || !IsWritten(f, s) {
      assert [] + tail == tail;
    } else {
      TaggedIsSkipped(reader, st, f, s.v, tail);
    }
  }

  lemma {:induction false} FieldsAreSkipped(
      reader: seq<Field>, st: State, fields: seq<Field>, slots: seq<Slot>, n: nat, tail: seq<byte>)
    requires ValidFields(reader) && StateOk(reader, st)
    requires ValidFields(fields) && SlotsOk(fields, slots) && n <= |fields| && EncodeFields(fields, slots, n).Some?
    requires forall i :: 0 <= i < n ==> FindField(reader, fields[i].tag).None? && PrefixesFit(fields[i], SlotAt(fields, slots, i))
    ensures Run(reader, st, EncodeFields(fields, slots, n).value + tail) == Run(reader, st, tail)
  {
    hide Run, StateOk, PrefixesFit, FindField, EncodeField;
    if n == 0 {
      assert [] + tail == tail;
    } else {
      var f, s := FieldAt(fields, n - 1), SlotAt(fields, slots, n - 1);
      var a, b := EncodeFields(fields, slots, n - 1).value, EncodeField(f, s).value;
      assert a + b + tail == a + (b + tail);
      FieldsAreSkipped(reader, st, fields, slots, n - 1, b + tail);
      FieldIsSkipped(reader, st, f, s, tail);
    }
  }

  /**
   * A reader that knows none of the tags steps over a whole message: what the encoder wrote, whatever
   * its descriptor, followed by anything, reads as what follows.
   */
  lemma MessageIsSkipped(
      reader: seq<Field>, dest: seq<Slot>, fields: seq<Field>, slots: seq<Slot>, b: seq<byte>, tail: seq<byte>)
    requires ValidFields(reader) && SlotsOk(reader, dest) && ValidFields(fields) && SlotsOk(fields, slots)
    requires forall i, j :: 0 <= i < |fields| && 0 <= j < |reader| ==> fields[i].tag != reader[j].tag
    requires forall i :: 0 <= i < |fields| ==> PrefixesFit(fields[i], SlotAt(fields, slots, i))
    requires Encode(fields, slots) == Some(b)
    ensures DecodeNoInit(reader, dest, b + tail) == DecodeNoInit(reader, dest, tail)
    ensures Decode(reader, dest, b + tail) == Decode(reader, dest, tail)
  {
    FieldsAreSkipped(reader, Initial(dest), fields, slots, |fields|, tail);
    FieldsAreSkipped(reader, Initial(SetDefaults(reader, dest, |reader|)), fields, slots, |fields|, tail);
  }
}
