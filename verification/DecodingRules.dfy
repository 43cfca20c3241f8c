/**
 * What the decoder of nanopb accepts and refuses, value by value and field by field, in terms of the
 * bytes: ranges, lengths, truncation, arrays, oneofs and the end of a message.
 */
module DecodingRules {
  import opened Wrappers
  import opened Bits
  import opened Varints
  import opened Descriptors
  import opened WireFormat
  import opened RoundTrip
  import opened WireBytes
  import opened Concatenation

  // ---- Numbers.

  /** The two's complement reading of the `bits` lowest bits. */
  function TwosComplement(v: nat, bits: nat): int
    requires bits > 0
  {
    if v % Pow2(bits) < Pow2(bits - 1) then v % Pow2(bits) else v % Pow2(bits) - Pow2(bits)
  }

  /** The number a varint field of 1, 2, 4 or 8 bytes stands for: only 8-byte fields use all 64 bits of a plain signed one. */
  function Meant(lt: LType, size: nat, v: nat): int {
    if lt.UVarintT? then v
    else if lt.SVarintT? then (if v % 2 == 0 then v / 2 else -((v + 1) / 2))
    else if size == 8 then TwosComplement(v, 64)
    else TwosComplement(v, 32)
  }

  /** The numbers a field of `size` bytes can hold. */
  predicate Holds(lt: LType, size: nat, n: int) {
    && size in {1, 2, 4, 8}
    && if lt.UVarintT? then 0 <= n < Pow2(8 * size) else 0 <= n + Pow2(8 * size - 1) < Pow2(8 * size)
  }

  lemma PowersOfBytes()
    ensures Pow2(7) == 0x80 && Pow2(8) == 0x100 && Pow2(15) == 0x8000 && Pow2(16) == 0x1_0000
    ensures Pow2(31) == 0x8000_0000 && Pow2(32) == 0x1_0000_0000
    ensures Pow2(63) == 0x8000_0000_0000_0000 && Pow2(64) == 0x1_0000_0000_0000_0000
  {
    Pow2Values();
    assert Pow2(8) == 2 * Pow2(7);
    assert Pow2(15) == 2 * Pow2(14) && Pow2(16) == 2 * Pow2(15);
  }

  lemma HoldsInRange(lt: LType, size: nat, n: int)
    requires lt.VarintT? || lt.UVarintT? || lt.SVarintT?
    ensures Holds(lt, size, n) <==> IsIntSize(size) && InRange(lt, size, n)
  {
    hide Pow2;
    PowersOfBytes();
    if size in {1, 2, 4, 8} {
      assert 8 * size in {8, 16, 32, 64};
    }
  }

  lemma MeantIs(lt: LType, size: nat, v: nat)
    requires v < 0x1_0000_0000_0000_0000 && (lt.VarintT? || lt.UVarintT? || lt.SVarintT?)
    ensures Meant(lt, size, v) ==
            if lt.UVarintT? then v else if lt.SVarintT? then UnZigZag(v) else if size == 8 then ToSigned64(v) else ToSigned32(v)
  {
    hide Pow2;
    PowersOfBytes();
    Mod64Is(v);
  }

  lemma Mod64Is(v: nat)
    requires v < 0x1_0000_0000_0000_0000
    ensures v % 0x1_0000_0000_0000_0000 == v
  {}

  /** A varint field takes exactly the varints of at most ten bytes whose number it can hold. */
  lemma VarintFieldReads(f: Field, s: seq<byte>, v: nat, tail: seq<byte>)
    requires (f.ltype.VarintT? || f.ltype.UVarintT? || f.ltype.SVarintT?) && Spells(s, v)
    ensures var n := Meant(f.ltype, f.dataSize, v % 0x1_0000_0000_0000_0000);
            DecodeNum(f, s + tail) == if |s| <= 10 && Holds(f.ltype, f.dataSize, n) then Some((n, tail)) else None
  {
    hide Meant, Holds, Spells, InRange;
    var w := v % 0x1_0000_0000_0000_0000;
    Decode64Exactly(s, v, tail);
    MeantIs(f.ltype, f.dataSize, w);
    HoldsInRange(f.ltype, f.dataSize, Meant(f.ltype, f.dataSize, w));
  }

  /** A fixed-width field takes the next four or eight bytes, the low byte first. */
  lemma FixedFieldReads(f: Field, s: seq<byte>, tail: seq<byte>)
    requires (f.ltype.Fixed32T? && |s| == 4) || (f.ltype.Fixed64T? && |s| == 8)
    ensures DecodeNum(f, s + tail).Some? && DecodeNum(f, s + tail).value.1 == tail
    ensures var n := DecodeNum(f, s + tail).value.0; n >= 0 && IsFixed(s, n, |s|)
  {
    var n := FixedValue(s);
    assert (s + tail)[..|s|] == s && (s + tail)[|s|..] == tail;
    FixedBytesOfValue(s);
    forall k | 0 <= k < |s|
      ensures s[k] == Above(n, k) % 256
    {
      FixedDigits(n, |s|, k);
    }
  }

  // ---- Values with a length.

  /** A string ends before its first NUL. */
  lemma {:induction false} CStringIsPrefix(s: seq<byte>)
    ensures CString(s) <= s && (|CString(s)| < |s| ==> s[|CString(s)|] == 0)
  {
    if s != [] && s[0] != 0 {
      CStringIsPrefix(s[1..]);
    }
  }

  /**
   * A byte array has to fit its struct, whose four bytes of size count; a string needs room for a NUL;
   * fixed-length bytes have the length of their array, or none, which zeroes it.
   */
  lemma BlobReads(f: Field, prior: Val, data: seq<byte>, tail: seq<byte>)
    requires ValidField(f) && ValOk(f, prior) && (f.ltype.BytesT? || f.ltype.StringT? || f.ltype.FixedBytesT?)
    requires |data| <= 0xFFFF_FFFF
    ensures DecodeVal(f, prior, Varint(|data|) + data + tail) ==
            if f.ltype.BytesT? then (if |data| + 4 <= f.dataSize then Ok((Blob(data), tail)) else Fail(Malformed))
            else if f.ltype.StringT? then (if |data| < f.dataSize then Ok((Blob(CString(data)), tail)) else Fail(Malformed))
            else if |data| == 0 then Ok((Blob(Zeros(f.dataSize)), tail))
            else if |data| == f.dataSize then Ok((Blob(data), tail))
            else Fail(Malformed)
  {
    DelimitedReadsBack(data, tail);
    assert EncodeString(data) + tail == Varint(|data|) + data + tail;
  }

  /** A submessage is decoded from exactly its announced bytes; its error is the error of the whole. */
  lemma SubmessageReads(f: Field, prior: Val, body: seq<byte>, tail: seq<byte>)
    requires ValidField(f) && ValOk(f, prior) && f.ltype.SubmessageT? && |body| <= 0xFFFF_FFFF
    ensures ValidFields(f.ltype.fields) && prior.Msg? && SlotsOk(f.ltype.fields, prior.slots)
    ensures var sub := f.ltype.fields;
            var r := if f.htype.Repeated? then Decode(sub, prior.slots, body) else DecodeNoInit(sub, prior.slots, body);
            DecodeVal(f, prior, Varint(|body|) + body + tail) ==
              if r.Fail? then Fail(r.error) else Ok((Msg(r.value.0), tail))
  {
    hide DecodeNoInit, SetDefaults, EncodeString, Decode32;
    SubmessageStep(f, prior, EncodeString(body) + tail);
    DelimitedReadsBack(body, tail);
    StringBytes(body, tail);
  }

  lemma StringBytes(body: seq<byte>, tail: seq<byte>)
    ensures EncodeString(body) + tail == Varint(|body|) + body + tail
  {}

  lemma SubmessageStep(f: Field, prior: Val, s: seq<byte>)
    requires ValidField(f) && ValOk(f, prior) && f.ltype.SubmessageT?
    ensures ValidFields(f.ltype.fields) && prior.Msg? && SlotsOk(f.ltype.fields, prior.slots)
    ensures DecodeVal(f, prior, s) ==
            match DecodeDelimited(s)
            case None => Fail(Malformed)
            case Some((body, rest)) =>
              var start := if f.htype.Repeated? then SetDefaults(f.ltype.fields, prior.slots, |f.ltype.fields|) else prior.slots;
              match DecodeNoInit(f.ltype.fields, start, body)
              case Fail(e) => Fail(e)
              case Ok((slots, _)) => Ok((Msg(slots), rest))
  {}

  /** Two occurrences of a submessage outside an array and a oneof merge: the second is decoded into the first. */
  lemma SubmessagesMerge(f: Field, prior: Val, a: seq<byte>, b: seq<byte>)
    requires ValidField(f) && ValOk(f, prior) && f.ltype.SubmessageT? && !f.htype.Repeated?
    requires |a| <= 0xFFFF_FFFF && |b| <= 0xFFFF_FFFF && |a + b| <= 0xFFFF_FFFF
    requires HasNoRunningChecks(f.ltype.fields) && Run(f.ltype.fields, Initial(prior.slots), a).Running?
    ensures var first := DecodeVal(f, prior, Varint(|a|) + a);
            && first.Ok? && ValOk(f, first.value.0)
            && DecodeVal(f, first.value.0, Varint(|b|) + b) == DecodeVal(f, prior, Varint(|a + b|) + (a + b))
  {
    hide Run, DecodeVal, DecodeNoInit, SetDefaults, ValOk, ValidField, Varint;
    SubmessageReads(f, prior, a, []);
    SubmessageReads(f, prior, a + b, []);
    assert Varint(|a|) + a + [] == Varint(|a|) + a && Varint(|b|) + b + [] == Varint(|b|) + b;
    assert Varint(|a + b|) + (a + b) + [] == Varint(|a + b|) + (a + b);
    DecodingIsAnAction(f.ltype.fields, prior.slots, a, b);
    var first := DecodeVal(f, prior, Varint(|a|) + a).value.0;
    SubmessageReads(f, first, b, []);
  }

  // ---- Oneofs and arrays.

  /** A member of a oneof is read afresh: what the union held does not matter. */
  lemma OneofRestarts(f: Field, which: nat, v: Val, which': nat, v': Val, count: nat, wireType: nat, s: seq<byte>)
    requires ValidField(f) && f.htype.Oneof? && SlotOk(f, Union(which, v)) && SlotOk(f, Union(which', v'))
    ensures DecodeSlot(f, Union(which, v), count, wireType, s) == DecodeSlot(f, Union(which', v'), count, wireType, s)
  {
    ZeroValOk(f);
    assert UnionStart(f, which, v) == UnionStart(f, which', v');
  }

  /** A struct whose oneof names a member that the descriptor does not have is refused as soon as that oneof is written to. */
  lemma StaleUnionRefused(fields: seq<Field>, st: State, i: nat, wireType: nat, s: seq<byte>)
    requires ValidFields(fields) && StateOk(fields, st) && i < |fields| && fields[i].htype.Oneof?
    ensures var which := SlotAt(fields, st.slots, i).which;
            which != 0 && (forall j :: 0 <= j < |fields| ==> fields[j].tag != which) ==> DecodeFieldAt(fields, st, i, wireType, s) == Fail(Malformed)
  {
    hide DecodeSlot;
    assert EnterField(fields, st, i).Ok?;
  }

  /** It starts from defaults, or zeros where it has none. */
  lemma OneofStartsFresh(f: Field, which: nat, v: Val)
    requires ValidField(f) && SlotOk(f, Union(which, v)) && f.htype.Oneof? && f.ltype.SubmessageT?
    ensures FreshVal(f, UnionStart(f, which, v))
  {
    ZeroValOk(f);
    DefaultsFresh(f.ltype.fields, ZeroVal(f).slots);
  }

  /** An array of numbers reads the same packed, entry by entry, and with a tag for every entry. */
  lemma PackedOrNot(f: Field, items: seq<Val>, count: nat, wireType: nat, b: seq<byte>, tail: seq<byte>, n: int)
    requires ValidField(f) && Packable(f.ltype) && |items| == f.arraySize && forall k :: 0 <= k < |items| ==> ValOk(f, items[k])
    requires count < f.arraySize && wireType != 2 && b != [] && DecodeNum(f, b + tail) == Some((n, tail))
    ensures DecodeItems(f, items, count, wireType, b + tail) == Ok((items[count := Num(n)], count + 1, tail))
    ensures ValOk(f, Num(n))
    ensures DecodePacked(f, items, count, b + tail) == DecodePacked(f, items[count := Num(n)], count + 1, tail)
  {}

  /** A full array takes no more: another entry is an error, packed or not. */
  lemma FullArrayRefuses(f: Field, items: seq<Val>, count: nat, wireType: nat, s: seq<byte>, body: seq<byte>)
    requires ValidField(f) && |items| == f.arraySize && (forall k :: 0 <= k < |items| ==> ValOk(f, items[k])) && count >= f.arraySize
    ensures wireType != 2 || !Packable(f.ltype) ==> DecodeItems(f, items, count, wireType, s) == Fail(Malformed)
    ensures Packable(f.ltype) && 0 < |body| <= 0xFFFF_FFFF ==>
              DecodeItems(f, items, count, 2, Varint(|body|) + body + s) == Fail(Malformed)
  {
    if Packable(f.ltype) && 0 < |body| <= 0xFFFF_FFFF {
      DelimitedReadsBack(body, s);
      StringBytes(body, s);
    }
  }

  /** A packed array with a number that cannot be read is an error. */
  lemma BadEntryRefused(f: Field, items: seq<Val>, count: nat, s: seq<byte>)
    requires ValidField(f) && Packable(f.ltype) && |items| == f.arraySize && forall k :: 0 <= k < |items| ==> ValOk(f, items[k])
    requires s != [] && DecodeNum(f, s).None?
    ensures DecodePacked(f, items, count, s) == None
  {}

  /**
   * A fixed-count array that was sent with n of its entries is counted: unless n is its size, the message
   * can neither end nor go on to another such array.
   */
  lemma FixedArrayIsCounted(fields: seq<Field>, st: State, i: nat, items: seq<Val>, n: nat, b: seq<byte>, tail: seq<byte>)
    returns (st': State)
    requires ValidFields(fields) && StateOk(fields, st) && i < |fields| && Packable(fields[i].ltype) && IsFixedCount(fields[i])
    requires (st.fixedField.Some? ==> st.fixedField.value != i && st.fixedCount == fields[st.fixedField.value].arraySize)
    requires |items| == fields[i].arraySize && forall k :: 0 <= k < |items| ==> ValOk(fields[i], items[k])
    requires n <= |items| && EncodeItems(fields[i], items, n, false) == Some(b) && |b| <= 0xFFFF_FFFF
    ensures StateOk(fields, st')
    ensures Run(fields, st, EncodeTag(2, fields[i].tag) + (Varint(|b|) + b + tail)) == Run(fields, st', tail)
    ensures Finish(fields, st') == Fail(WrongFixedCount) <==> n != fields[i].arraySize
    ensures forall j, wireType, s :: 0 <= j < |fields| && j != i && IsFixedCount(fields[j]) && n != fields[i].arraySize ==>
              DecodeFieldAt(fields, st', j, wireType, s) == Fail(WrongFixedCount)
  {
    var f, slot := FieldAt(fields, i), SlotAt(fields, st.slots, i);
    DelimitedReadsBack(b, tail);
    StringBytes(b, tail);
    assert b + [] == b;
    var after := PackedReadsBack(f, items, n, b, slot.items, []);
    var s := Varint(|b|) + b + tail;
    assert DecodeItems(f, slot.items, 0, 2, s) == Ok((after, n, tail));
    assert DecodeSlot(f, slot, 0, 2, s) == Ok((Fix(after), n, tail));
    st' := StoresSlot(fields, st, i, 2, s, Fix(after), n, tail);
  }

  // ---- The end of a message.

  /** Nothing decodes to the defaults, unless a field is required. */
  lemma EmptyMessage(fields: seq<Field>, dest: seq<Slot>)
    requires ValidFields(fields) && SlotsOk(fields, dest)
    ensures FreshSlots(fields, SetDefaults(fields, dest, |fields|))
    ensures Decode(fields, dest, []) ==
            if exists i :: 0 <= i < |fields| && fields[i].htype.Required? then Fail(MissingRequired)
            else Ok((SetDefaults(fields, dest, |fields|), []))
  {
    DefaultsFresh(fields, dest);
    RequiredIsCounted(fields, |fields|);
    if RequiredBefore(fields, |fields|) > 0 {
      assert 0 !in Initial(SetDefaults(fields, dest, |fields|)).seen;
    }
  }

  lemma {:induction false} RequiredIsCounted(fields: seq<Field>, n: nat)
    requires n <= |fields|
    ensures RequiredBefore(fields, n) > 0 <==> exists i :: 0 <= i < n && fields[i].htype.Required?
  {
    if n > 0 {
      RequiredIsCounted(fields, n - 1);
    }
  }

  /** A zero byte where a tag should be ends the message, and what follows it is left. */
  lemma ZeroTagStops(fields: seq<Field>, slots: seq<Slot>, a: seq<byte>, rest: seq<byte>)
    requires ValidFields(fields) && SlotsOk(fields, slots) && Run(fields, Initial(slots), a).Running?
    ensures DecodeNoInit(fields, slots, a + [0] + rest) ==
            if DecodeNoInit(fields, slots, a).Fail? then DecodeNoInit(fields, slots, a)
            else Ok((DecodeNoInit(fields, slots, a).value.0, rest))
  {
    var st := Run(fields, Initial(slots), a).st;
    assert a + [0] + rest == a + ([0] + rest);
    RunConcat(fields, Initial(slots), a, [0] + rest);
    assert ([0] + rest)[1..] == rest;
    assert Decode32([0] + rest) == Some((0, rest));
  }

  /** A message that ends within a tag is an error. */
  lemma TagCutShort(fields: seq<Field>, slots: seq<Slot>, a: seq<byte>, t: seq<byte>)
    requires ValidFields(fields) && SlotsOk(fields, slots) && Run(fields, Initial(slots), a).Running?
    requires t != [] && forall k :: 0 <= k < |t| ==> t[k] >= 128
    ensures DecodeNoInit(fields, slots, a + t) == Fail(Malformed)
  {
    RunConcat(fields, Initial(slots), a, t);
    Unterminated(t);
  }

  lemma {:induction false} UnterminatedFrom(t: seq<byte>, result: nat, bitpos: nat)
    requires result < 0x1_0000_0000 && bitpos < 256 && forall k :: 0 <= k < |t| ==> t[k] >= 128
    ensures Decode32From(t, result, bitpos) == None
    decreases |t|
  {
    if t != [] {
      var next := if bitpos + 7 < 256 then bitpos + 7 else bitpos + 7 - 256;
      UnterminatedFrom(t[1..], if bitpos >= 32 then result else Merge32(result, Group(t[0]), bitpos), next);
    }
  }

  lemma Unterminated(t: seq<byte>)
    requires forall k :: 0 <= k < |t| ==> t[k] >= 128
    ensures Decode32(t) == None && RawVarint(t) == None
  {
    if t != [] {
      UnterminatedFrom(t[1..], Group(t[0]), 7);
    }
    RawSpells(t);
  }

  /** A value cut short is an error, wherever it is cut. */
  lemma ValueCutShort(f: Field, v: Val, prior: Val, n: nat)
    requires ValidField(f) && ValOk(f, v) && ValOk(f, prior) && EncodeVal(f, v).Some? && n < |EncodeVal(f, v).value|
    requires |EncodeVal(f, v).value| < 0x8000_0000_0000_0000
    ensures DecodeVal(f, prior, EncodeVal(f, v).value[..n]).Fail?
  {
    var b := EncodeVal(f, v).value;
    if Packable(f.ltype) {
      NumberBytes(f, v);
      if !f.ltype.Fixed32T? && !f.ltype.Fixed64T? {
        Unterminated(b[..n]);
      }
    } else {
      var l, content := DelimitedBytes(f, v);
      if n < |l| {
        assert b[..n] == l[..n];
        Unterminated(b[..n]);
        if f.ltype.SubmessageT? { SubmessageStep(f, prior, b[..n]); }
      } else {
        LengthWithoutContent(l, content, content[..n - |l|]);
        assert b[..n] == l + content[..n - |l|];
        if f.ltype.SubmessageT? { SubmessageStep(f, prior, b[..n]); }
      }
    }
  }

  lemma LengthWithoutContent(l: seq<byte>, content: seq<byte>, part: seq<byte>)
    requires IsVarint(l, |content|) && |part| < |content| < 0x8000_0000_0000_0000
    ensures DecodeDelimited(l + part) == None
    ensures Decode32(l + part).Some? ==> Decode32(l + part).value.0 > 0
  {
    VarintUnique(l, |content|);
    if |content| <= 0xFFFF_FFFF {
      Decode32OfVarint(|content|, part);
      Mod32Is(|content|, 0, |content|);
    } else {
      Decode32RejectsLarge(|content|, part);
    }
  }

  /** There is one shortest varint. */
  lemma {:induction false} VarintUnique(s: seq<byte>, v: nat)
    requires IsVarint(s, v)
    ensures s == Varint(v)
  {
    SpellsRest(s, v);
    if |s| > 1 {
      RestLater(v, |s| - 2);
      VarintUnique(s[1..], v / 128);
      RestVanishes(v / 128, |s| - 2);
    }
  }

  lemma {:induction false} RestVanishes(v: nat, i: nat)
    requires Rest(v, i) > 0
    ensures v > 0
  {
    if i > 0 {
      RestVanishes(v, i - 1);
    }
  }

  // ---- What a proto3 encoder leaves out.

  /** A field that counts as default writes nothing. */
  lemma {:induction false} DefaultWritesNothing(f: Field, s: Slot)
    requires ValidField(f) && SlotOk(f, s) && IsDefault(f, s)
    ensures EncodeField(f, s) == Some([])
  {
    hide IsZero, EncodeTagged, EncodeItems;
  }

  lemma {:induction false} TaggedNotEmpty(f: Field, v: Val)
    requires ValOk(f, v)
    ensures EncodeTagged(f, v) != Some([])
  {}

  lemma {:induction false} ItemsNotEmpty(f: Field, items: seq<Val>, n: nat)
    requires 0 < n <= |items| && forall k :: 0 <= k < |items| ==> ValOk(f, items[k])
    ensures EncodeItems(f, items, n, true) != Some([])
  {
    hide EncodeTagged, ValOk;
    TaggedNotEmpty(f, items[n - 1]);
  }

  /** A field that writes nothing counts as default, except a oneof set to another member and an array without room. */
  lemma {:induction false} SilentIsDefault(f: Field, s: Slot)
    requires SlotOk(f, s) && EncodeField(f, s) == Some([])
    ensures IsDefault(f, s) || (f.htype.Oneof? && s.which != 0) || (IsFixedCount(f) && f.arraySize == 0)
  {
    hide IsZero, EncodeTagged, EncodeItems, ValOk;
    if f.htype.Repeated? {
      if 0 < Entries(f, s) <= f.arraySize {
        ItemsNotEmpty(f, s.items, Entries(f, s));
      }
    } else if IsWritten(f, s) {
      TaggedNotEmpty(f, s.v);
    }
  }

  lemma {:induction false} AllSilent(fields: seq<Field>, slots: seq<Slot>, n: nat)
    requires SlotsOk(fields, slots) && n <= |fields|
    ensures EncodeFields(fields, slots, n) == Some([]) <==> forall i :: 0 <= i < n ==> EncodeField(fields[i], SlotAt(fields, slots, i)) == Some([])
  {
    hide EncodeField, SlotsOk;
    if n > 0 {
      AllSilent(fields, slots, n - 1);
      var a, b := EncodeFields(fields, slots, n - 1), EncodeField(fields[n - 1], SlotAt(fields, slots, n - 1));
      if a.Some? && b.Some? {
        assert a.value + b.value == [] <==> |a.value| + |b.value| == 0;
      }
    }
  }

  /**
   * A proto3 field is left out exactly when its number is zero or its bytes are none; fixed-length bytes
   * are always written.
   */
  lemma {:induction false} LeftOutExactly(f: Field, v: Val)
    requires ValidField(f) && IsSingular(f) && ValOk(f, v) && !f.ltype.SubmessageT?
    ensures EncodeField(f, One(v)) == Some([]) <==>
              if Packable(f.ltype) then v.n == 0 else v.data == [] && !f.ltype.FixedBytesT?
  {
    hide EncodeTagged;
    TaggedNotEmpty(f, v);
  }

  /** A submessage is left out exactly when it would have no bytes itself, unless it holds a oneof that names no member. */
  lemma {:induction false} SubmessageLeftOutExactly(f: Field, v: Val)
    requires ValidField(f) && IsSingular(f) && ValOk(f, v) && f.ltype.SubmessageT?
    ensures EncodeField(f, One(v)) == Some([]) ==> Encode(f.ltype.fields, v.slots) == Some([])
    ensures Encode(f.ltype.fields, v.slots) == Some([]) && NothingOdd(f.ltype.fields, v.slots) ==> EncodeField(f, One(v)) == Some([])
  {
    hide EncodeTagged, EncodeField, IsDefault, SlotOk, SlotsOk;
    var sub := f.ltype.fields;
    SingularField(f, v);
    AllSilent(sub, v.slots, |sub|);
    forall i | 0 <= i < |sub|
      ensures IsDefault(sub[i], SlotAt(sub, v.slots, i)) ==> EncodeField(sub[i], SlotAt(sub, v.slots, i)) == Some([])
      ensures EncodeField(sub[i], SlotAt(sub, v.slots, i)) == Some([]) && NothingOdd(sub, v.slots) ==> IsDefault(sub[i], SlotAt(sub, v.slots, i))
    {
      var g, s := FieldAt(sub, i), SlotAt(sub, v.slots, i);
      if IsDefault(g, s) { DefaultWritesNothing(g, s); }
      if EncodeField(g, s) == Some([]) { SilentIsDefault(g, s); }
    }
  }

  lemma {:induction false} SingularField(f: Field, v: Val)
    requires ValidField(f) && IsSingular(f) && ValOk(f, v) && f.ltype.SubmessageT?
    ensures ValidFields(f.ltype.fields) && v.Msg? && SlotsOk(f.ltype.fields, v.slots)
    ensures EncodeField(f, One(v)) == Some([]) <==> forall i :: 0 <= i < |f.ltype.fields| ==> IsDefault(f.ltype.fields[i], SlotAt(f.ltype.fields, v.slots, i))
  {
    hide EncodeTagged, IsDefault;
    TaggedNotEmpty(f, v);
    assert IsZero(f, v) <==> AllDefault(f.ltype.fields, v.slots);
  }

  predicate NothingOdd(fields: seq<Field>, slots: seq<Slot>)
    requires SlotsOk(fields, slots)
  {
    forall i :: 0 <= i < |fields| ==>
      && (fields[i].htype.Oneof? ==> SlotAt(fields, slots, i).which == 0)
      && (IsFixedCount(fields[i]) ==> fields[i].arraySize > 0)
  }
}
