/** What `pb_encode` writes, `pb_decode` reads back. */
module RoundTrip {
  import opened Wrappers
  import opened Bits
  import opened Varints
  import opened Descriptors
  import opened WireFormat

  // ---- Equality of structs, up to the contents of absent fields.

  predicate SameVal(f: Field, a: Val, b: Val)
    requires ValOk(f, a) && ValOk(f, b)
    decreases f, 0
  {
    if f.ltype.SubmessageT? then SameSlots(f.ltype.fields, a.slots, b.slots) else a == b
  }

  predicate SameSlot(f: Field, a: Slot, b: Slot)
    requires SlotOk(f, a) && SlotOk(f, b)
    decreases f, 2
  {
    match f.htype
    case Required => SameVal(f, a.v, b.v)
    case Optional =>
      if f.sizeOffset == 0 then SameVal(f, a.v, b.v)
      else a.has == b.has && (a.has ==> SameVal(f, a.v, b.v))
    case Repeated =>
      Entries(f, a) == Entries(f, b) && Entries(f, a) <= f.arraySize && SameItems(f, a.items, b.items, Entries(f, a))
    case Oneof => (a.which == f.tag <==> b.which == f.tag) && (a.which == f.tag ==> SameVal(f, a.v, b.v))
  }

  predicate SameItems(f: Field, a: seq<Val>, b: seq<Val>, n: nat)
    requires n <= |a| && n <= |b|
    requires (forall k :: 0 <= k < |a| ==> ValOk(f, a[k])) && (forall k :: 0 <= k < |b| ==> ValOk(f, b[k]))
    decreases f, 1
  {
    forall k :: 0 <= k < n ==> SameVal(f, a[k], b[k])
  }

  predicate SameSlots(fields: seq<Field>, a: seq<Slot>, b: seq<Slot>)
    requires SlotsOk(fields, a) && SlotsOk(fields, b)
    decreases fields, 0
  {
    forall i :: 0 <= i < |fields| ==> SameSlot(fields[i], SlotAt(fields, a, i), SlotAt(fields, b, i))
  }

  // ---- What the wire format can carry.

  /** Every string has its NUL inside the array and every length prefix below fits 32 bits. */
  predicate CarriesVal(f: Field, v: Val)
    requires ValOk(f, v)
    decreases f, 0
  {
    match f.ltype
    case StringT => |v.data| < f.dataSize
    case SubmessageT(sub) =>
      && CarriesSlots(sub, v.slots)
      && (Encode(sub, v.slots).Some? ==> |Encode(sub, v.slots).value| <= 0xFFFF_FFFF)
    case _ => true
  }

  predicate CarriesSlot(f: Field, s: Slot)
    requires SlotOk(f, s)
    decreases f, 3
  {
    match f.htype
    case Required => CarriesVal(f, s.v)
    case Optional => (if f.sizeOffset != 0 then s.has else !IsZero(f, s.v)) ==> CarriesVal(f, s.v)
    case Repeated => CarriesItems(f, s.items, Entries(f, s))
    case Oneof => s.which == f.tag ==> CarriesVal(f, s.v)
  }

  predicate CarriesFirst(f: Field, items: seq<Val>, n: nat)
    requires n <= |items| && forall k :: 0 <= k < |items| ==> ValOk(f, items[k])
    decreases f, 1, n
  {
    n == 0 || (CarriesFirst(f, items, n - 1) && CarriesVal(f, items[n - 1]))
  }

  predicate CarriesItems(f: Field, items: seq<Val>, count: nat)
    requires |items| == f.arraySize && forall k :: 0 <= k < |items| ==> ValOk(f, items[k])
    decreases f, 2
  {
    count <= f.arraySize ==>
      && CarriesFirst(f, items, count)
      && (Packable(f.ltype) && EncodeItems(f, items, count, false).Some? ==>
            |EncodeItems(f, items, count, false).value| <= 0xFFFF_FFFF)
  }

  predicate CarriesFields(fields: seq<Field>, slots: seq<Slot>, n: nat)
    requires SlotsOk(fields, slots) && n <= |fields|
    decreases fields, 0, n
  {
    n == 0 || (CarriesFields(fields, slots, n - 1) && CarriesSlot(fields[n - 1], SlotAt(fields, slots, n - 1)))
  }

  predicate CarriesSlots(fields: seq<Field>, slots: seq<Slot>)
    requires SlotsOk(fields, slots)
    decreases fields, 1
  {
    CarriesFields(fields, slots, |fields|)
  }

  lemma PackableCarries(f: Field, items: seq<Val>, n: nat)
    requires n <= |items| && Packable(f.ltype) && forall k :: 0 <= k < |items| ==> ValOk(f, items[k])
    ensures CarriesFirst(f, items, n)
  {
    if n > 0 {
      PackableCarries(f, items, n - 1);
    }
  }

  /** The default of a proto3 field is zero, in submessages too. */
  predicate DefaultsToZero(f: Field)
    requires ValidField(f)
    decreases f
  {
    if f.ltype.SubmessageT? then
      forall k :: 0 <= k < |f.ltype.fields| && IsSingular(f.ltype.fields[k]) ==> DefaultsToZero(FieldAt(f.ltype.fields, k))
    else f.initial.Some? ==> IsZero(f, f.initial.value)
  }

  /** Whatever a proto3 encoder leaves out, at any depth, is what the decoder fills in. */
  predicate RestoresVal(f: Field, v: Val)
    requires ValidField(f) && ValOk(f, v)
    decreases f, 0
  {
    f.ltype.SubmessageT? ==> RestoresSlots(f.ltype.fields, v.slots)
  }

  predicate RestoresItems(f: Field, items: seq<Val>, n: nat)
    requires ValidField(f) && n <= |items| && forall k :: 0 <= k < |items| ==> ValOk(f, items[k])
    decreases f, 1
  {
    forall k :: 0 <= k < n ==> RestoresVal(f, items[k])
  }

  predicate RestoresSlot(f: Field, s: Slot)
    requires ValidField(f) && SlotOk(f, s)
    decreases f, 2
  {
    match f.htype
    case Required => RestoresVal(f, s.v)
    case Optional =>
      if f.sizeOffset != 0 then s.has ==> RestoresVal(f, s.v)
      else if IsZero(f, s.v) then DefaultsToZero(f)
      else RestoresVal(f, s.v)
    case Repeated => Entries(f, s) <= f.arraySize ==> RestoresItems(f, s.items, Entries(f, s))
    case Oneof => s.which == f.tag ==> RestoresVal(f, s.v)
  }

  predicate RestoresSlots(fields: seq<Field>, slots: seq<Slot>)
    requires ValidFields(fields) && SlotsOk(fields, slots)
    decreases fields, 0
  {
    forall i :: 0 <= i < |fields| ==> RestoresSlot(FieldAt(fields, i), SlotAt(fields, slots, i))
  }

  // ---- Defaults.

  predicate FreshVal(f: Field, v: Val)
    requires ValOk(f, v)
    decreases f, 0
  {
    if f.ltype.SubmessageT? then FreshSlots(f.ltype.fields, v.slots)
    else v == if f.initial.Some? then f.initial.value else ZeroVal(f)
  }

  /** Nothing has been stored in this field since the defaults were. */
  predicate FreshSlot(f: Field, s: Slot)
    requires SlotOk(f, s)
    decreases f, 1
  {
    match f.htype
    case Required => FreshVal(f, s.v)
    case Optional => (f.sizeOffset != 0 ==> !s.has) && FreshVal(f, s.v)
    case Repeated => f.sizeOffset != 0 ==> s.count == 0
    case Oneof => s.which == 0
  }

  predicate FreshSlots(fields: seq<Field>, slots: seq<Slot>)
    requires SlotsOk(fields, slots)
    decreases fields, 0
  {
    forall i :: 0 <= i < |fields| ==> FreshSlot(fields[i], SlotAt(fields, slots, i))
  }

  lemma {:induction false} DefaultIsFresh(f: Field, prior: Val)
    requires ValidField(f) && ValOk(f, prior)
    ensures FreshVal(f, DefaultVal(f, prior))
    decreases f, 0
  {
    if f.ltype.SubmessageT? {
      DefaultsAreFresh(f.ltype.fields, prior.slots, |f.ltype.fields|);
    }
  }

  lemma {:induction false} DefaultSlotIsFresh(f: Field, prior: Slot)
    requires ValidField(f) && SlotOk(f, prior)
    ensures FreshSlot(f, DefaultSlot(f, prior))
    decreases f, 1
  {
    match prior {
      case One(v) => DefaultIsFresh(f, v);
      case Opt(_, v) => DefaultIsFresh(f, v);
      case _ =>
    }
  }

  lemma StoringFresh(fields: seq<Field>, before: seq<Slot>, after: seq<Slot>, s: Slot, n: nat)
    requires n < |fields| && SlotsOk(fields, before) && SlotsOk(fields, after)
    requires SlotOk(fields[n], s) && FreshSlot(fields[n], s) && after == before[SlotOf(fields, n) := s]
    requires forall i :: 0 <= i < n ==> FreshSlot(fields[i], SlotAt(fields, before, i))
    ensures forall i :: 0 <= i < n + 1 ==> FreshSlot(fields[i], SlotAt(fields, after, i))
  {
    forall i | 0 <= i < n
      ensures FreshSlot(fields[i], SlotAt(fields, after, i))
    {
      if SlotOf(fields, i) == SlotOf(fields, n) {
        SharedSlotIsUnion(fields, i, n);
        assert SlotAt(fields, after, i) == s;
      } else {
        assert SlotAt(fields, after, i) == SlotAt(fields, before, i);
      }
    }
    assert SlotAt(fields, after, n) == s;
  }

  /** `pb_message_set_to_defaults` makes every field fresh, whatever the struct held. */
  lemma {:induction false} DefaultsAreFresh(fields: seq<Field>, prior: seq<Slot>, n: nat)
    requires n <= |fields| && ValidFields(fields) && SlotsOk(fields, prior)
    ensures forall i :: 0 <= i < n ==> FreshSlot(fields[i], SlotAt(fields, SetDefaults(fields, prior, n), i))
    decreases fields, n
  {
    if n > 0 {
      DefaultsAreFresh(fields, prior, n - 1);
      var before := SetDefaults(fields, prior, n - 1);
      var f, s := FieldAt(fields, n - 1), SlotAt(fields, before, n - 1);
      DefaultSlotIsFresh(f, s);
      StoringFresh(fields, before, SetDefaults(fields, prior, n), DefaultSlot(f, s), n - 1);
    }
  }

  lemma DefaultsFresh(fields: seq<Field>, prior: seq<Slot>)
    requires ValidFields(fields) && SlotsOk(fields, prior)
    ensures FreshSlots(fields, SetDefaults(fields, prior, |fields|))
  {
    DefaultsAreFresh(fields, prior, |fields|);
  }

  /** A field left out because it is zero reads back the same exactly when its default is zero. */
  lemma {:induction false} OmittedReadsBack(f: Field, v: Val, left: Val)
    requires ValidField(f) && ValOk(f, v) && ValOk(f, left) && FreshVal(f, left) && IsZero(f, v) && IsSingular(f)
    ensures SameVal(f, v, left) <==> DefaultsToZero(f)
    decreases f
  {
    if f.ltype.SubmessageT? {
      var sub := f.ltype.fields;
      forall i | 0 <= i < |sub|
        ensures SameSlot(sub[i], SlotAt(sub, v.slots, i), SlotAt(sub, left.slots, i))
           <==> (IsSingular(sub[i]) ==> DefaultsToZero(FieldAt(sub, i)))
      {
        var a, b := SlotAt(sub, v.slots, i), SlotAt(sub, left.slots, i);
        var g := FieldAt(sub, i);
        assert IsDefault(g, a) && FreshSlot(g, b);
        if IsSingular(sub[i]) {
          OmittedReadsBack(g, a.v, b.v);
        }
      }
    }
  }

  // ---- Numbers, tags and length prefixes.

  lemma {:induction false} FixedReadsBack(v: nat, size: nat)
    requires v < Pow2(8 * size)
    ensures FixedValue(FixedBytes(v, size)) == v
  {
    if size > 0 {
      assert Pow2(8 * size) == 256 * Pow2(8 * (size - 1)) by {
        Pow2Add(8, 8 * (size - 1));
        Pow2Values();
        assert Pow2(8) == 2 * Pow2(7);
      }
      FixedReadsBack(v / 256, size - 1);
    }
  }

  /** Zigzag is undone on every signed number and keeps 64-bit numbers within 64 bits. */
  lemma ZigZagReadsBack(n: int)
    ensures UnZigZag(ZigZag(n)) == n
    ensures -0x8000_0000_0000_0000 <= n < 0x8000_0000_0000_0000 <==> ZigZag(n) < 0x1_0000_0000_0000_0000
  {
    if n < 0 {
      Halves(1, -n - 1);
    } else {
      Halves(0, n);
    }
  }

  lemma Halves(r: nat, q: nat)
    requires r < 2
    ensures (2 * q + r) % 2 == r && (2 * q + r) / 2 == q
  {}

  /** Every number a field of its size and kind can hold is read back. */
  lemma NumReadsBack(f: Field, n: int, b: seq<byte>, tail: seq<byte>)
    requires Packable(f.ltype) && InRange(f.ltype, f.dataSize, n) && EncodeVal(f, Num(n)) == Some(b)
    ensures DecodeNum(f, b + tail) == Some((n, tail))
  {
    var s := b + tail;
    match f.ltype {
      case Fixed32T =>
        Pow2Values();
        FixedReadsBack(n, 4);
        assert s[..4] == b && s[4..] == tail;
      case Fixed64T =>
        Pow2Values();
        FixedReadsBack(n, 8);
        assert s[..8] == b && s[8..] == tail;
      case UVarintT =>
        Decode64OfVarint(n, tail);
      case SVarintT =>
        ZigZagReadsBack(n);
        Decode64OfVarint(ZigZag(n), tail);
      case VarintT =>
        var v := ToUnsigned64(n);
        Decode64OfVarint(v, tail);
        if f.dataSize != 8 {
          if n < 0 {
            Mod32Is(v, 0xFFFF_FFFF, n + 0x1_0000_0000);
          } else {
            Mod32Is(v, 0, n);
          }
        }
    }
  }

  lemma TagReadsBack(wireType: nat, tag: nat, tail: seq<byte>)
    requires wireType < 8 && 0 < tag < 0x2000_0000
    ensures DecodeTag(EncodeTag(wireType, tag) + tail) == Tag(wireType, tag, tail)
  {
    var v := 8 * tag + wireType;
    Decode32OfVarint(v, tail);
    Mod32Is(v, 0, v);
    Split8(wireType, tag);
  }

  lemma Split8(r: nat, q: nat)
    requires r < 8
    ensures (8 * q + r) % 8 == r && (8 * q + r) / 8 == q
  {}

  /** A length prefix is read back exactly when it fits 32 bits. */
  lemma DelimitedReadsBack(data: seq<byte>, tail: seq<byte>)
    requires |data| < 0x8000_0000_0000_0000
    ensures DecodeDelimited(EncodeString(data) + tail) == if |data| <= 0xFFFF_FFFF then Some((data, tail)) else None
    ensures |data| <= 0xFFFF_FFFF ==> Decode32(EncodeString(data) + tail) == Some((|data|, data + tail))
    ensures |data| > 0xFFFF_FFFF ==> Decode32(EncodeString(data) + tail) == None
  {
    assert EncodeString(data) + tail == Varint(|data|) + (data + tail);
    if |data| <= 0xFFFF_FFFF {
      Decode32OfVarint(|data|, data + tail);
      Mod32Is(|data|, 0, |data|);
      assert (data + tail)[..|data|] == data && (data + tail)[|data|..] == tail;
    } else {
      Decode32RejectsLarge(|data|, data + tail);
    }
  }

  lemma FindsItself(fields: seq<Field>, i: nat)
    requires ValidFields(fields) && i < |fields|
    ensures FindField(fields, fields[i].tag) == Some(i)
  {}

  /** The loop on a known field: one occurrence, then the rest. */
  lemma RunTagged(fields: seq<Field>, st: State, i: nat, wireType: nat, s: seq<byte>)
    requires ValidFields(fields) && StateOk(fields, st) && i < |fields| && wireType < 8
    ensures Run(fields, st, EncodeTag(wireType, fields[i].tag) + s)
         == match DecodeFieldAt(fields, st, i, wireType, s)
            case Fail(e) => Failed(e)
            case Ok((st1, rest)) => Run(fields, st1, rest)
  {
    var tag := FieldAt(fields, i).tag;
    TagReadsBack(wireType, tag, s);
    FindsItself(fields, i);
    assert EncodeTag(wireType, tag) + s != [];
  }

  // ---- Arrays of packable numbers.

  /** A packed array is read back entry by entry after the entries already stored. */
  lemma {:induction false} PackedReadsBack(
      f: Field, items: seq<Val>, n: nat, b: seq<byte>, into: seq<Val>, tail: seq<byte>) returns (after: seq<Val>)
    requires ValidField(f) && Packable(f.ltype)
    requires |items| == f.arraySize && forall k :: 0 <= k < |items| ==> ValOk(f, items[k])
    requires |into| == f.arraySize && forall k :: 0 <= k < |into| ==> ValOk(f, into[k])
    requires n <= f.arraySize && EncodeItems(f, items, n, false) == Some(b)
    ensures |after| == f.arraySize && forall k :: 0 <= k < |after| ==> ValOk(f, after[k])
    ensures DecodePacked(f, into, 0, b + tail) == DecodePacked(f, after, n, tail)
    ensures forall k :: 0 <= k < n ==> after[k] == items[k]
  {
    if n == 0 {
      after := into;
      assert b + tail == tail;
    } else {
      var a := EncodeItems(f, items, n - 1, false).value;
      var c := EncodeVal(f, items[n - 1]).value;
      assert b + tail == a + (c + tail);
      var mid := PackedReadsBack(f, items, n - 1, a, into, c + tail);
      NumReadsBack(f, items[n - 1].n, c, tail);
      assert c + tail != [];
      after := mid[n - 1 := items[n - 1]];
    }
  }

  // ---- Fields and messages.

  /** The number of required fields already seen, all of them, after the first n fields. */
  predicate SeenAll(fields: seq<Field>, st: State, n: nat)
    requires n <= |fields|
  {
    forall q :: 0 <= q < RequiredBefore(fields, n) && q < MAX_REQUIRED ==> q in st.seen
  }

  /** Between two fields: the ones before n are done, the others untouched. */
  ghost predicate Stage(fields: seq<Field>, slots: seq<Slot>, st: State, n: nat)
    requires ValidFields(fields) && SlotsOk(fields, slots) && n <= |fields|
  {
    && StateOk(fields, st)
    && !FixedIncomplete(fields, st) && (st.fixedField.Some? ==> st.fixedField.value < n)
    && SeenAll(fields, st, n)
    && (forall i :: 0 <= i < n ==> Done(FieldAt(fields, i), SlotAt(fields, slots, i), SlotAt(fields, st.slots, i)))
    && (forall i :: n <= i < |fields| ==> Untouched(fields, FieldAt(fields, i), SlotAt(fields, st.slots, i)))
  }

  /** Fresh, except that another member of the same oneof may have been stored. */
  predicate Untouched(fields: seq<Field>, f: Field, t: Slot)
    requires SlotOk(f, t)
  {
    if f.htype.Oneof? then t.which != f.tag && !BadUnion(fields, f, t) else FreshSlot(f, t)
  }

  predicate Done(f: Field, s: Slot, t: Slot)
    requires ValidField(f) && SlotOk(f, s) && SlotOk(f, t)
  {
    SameSlot(f, s, t) <==> RestoresSlot(f, s)
  }

  /** Whether the encoder writes anything for a field. */
  predicate IsWritten(f: Field, s: Slot)
    requires SlotOk(f, s)
  {
    match f.htype
    case Required => true
    case Optional => if f.sizeOffset != 0 then s.has else !IsZero(f, s.v)
    case Repeated => Entries(f, s) > 0
    case Oneof => s.which == f.tag
  }

  /** A field for which nothing is written. */
  lemma FieldSkipped(fields: seq<Field>, slots: seq<Slot>, st: State, i: nat)
    requires ValidFields(fields) && SlotsOk(fields, slots) && i < |fields| && Stage(fields, slots, st, i)
    requires !IsWritten(fields[i], SlotAt(fields, slots, i))
    ensures Stage(fields, slots, st, i + 1) && CarriesSlot(fields[i], SlotAt(fields, slots, i))
  {
    var f := FieldAt(fields, i);
    var s, t := SlotAt(fields, slots, i), SlotAt(fields, st.slots, i);
    assert f.htype.Repeated? ==> EncodeItems(f, s.items, 0, false) == Some([]);
    assert Untouched(fields, f, t);
    if IsSingular(f) {
      OmittedReadsBack(f, s.v, t.v);
    }
    assert Done(f, s, t);
  }

  /** A field that has been read: the other fields are as they were. */
  lemma FieldStored(fields: seq<Field>, slots: seq<Slot>, st: State, i: nat, st': State)
    requires ValidFields(fields) && SlotsOk(fields, slots) && i < |fields| && Stage(fields, slots, st, i)
    requires StateOk(fields, st') && !FixedIncomplete(fields, st') && (st'.fixedField.Some? ==> st'.fixedField.value <= i)
    requires SeenAll(fields, st', i + 1)
    requires st'.slots == st.slots[SlotOf(fields, i) := SlotAt(fields, st'.slots, i)]
    requires Done(FieldAt(fields, i), SlotAt(fields, slots, i), SlotAt(fields, st'.slots, i))
    requires fields[i].htype.Oneof? ==>
      SlotAt(fields, slots, i).which == fields[i].tag == SlotAt(fields, st'.slots, i).which
    ensures Stage(fields, slots, st', i + 1)
  {
    forall j | 0 <= j < |fields|
      ensures j < i + 1 ==> Done(FieldAt(fields, j), SlotAt(fields, slots, j), SlotAt(fields, st'.slots, j))
      ensures j >= i + 1 ==> Untouched(fields, FieldAt(fields, j), SlotAt(fields, st'.slots, j))
    {
      if j != i {
        if SlotOf(fields, j) == SlotOf(fields, i) {
          SharedSlotIsUnion(fields, if i < j then i else j, if i < j then j else i);
          assert fields[i].tag != fields[j].tag;
          assert SlotAt(fields, st'.slots, j) == SlotAt(fields, st'.slots, i);
          assert SlotAt(fields, slots, j) == SlotAt(fields, slots, i);
          assert FindField(fields, fields[i].tag).Some?;
        } else {
          assert SlotAt(fields, st'.slots, j) == SlotAt(fields, st.slots, j);
        }
      }
    }
  }

  /** The state once field i is entered, before its value is read. */
  function Entered(fields: seq<Field>, st: State, i: nat): (r: State)
    requires i < |fields| && StateOk(fields, st) && EnterField(fields, st, i).Ok?
  {
    EnterField(fields, st, i).value
  }

  /** Between two fields there is no array left half received, so the next field can be entered. */
  lemma CanEnter(fields: seq<Field>, slots: seq<Slot>, st: State, i: nat)
    requires ValidFields(fields) && SlotsOk(fields, slots) && i < |fields| && Stage(fields, slots, st, i)
    ensures EnterField(fields, st, i).Ok?
    ensures Untouched(fields, FieldAt(fields, i), SlotAt(fields, st.slots, i))
    ensures !BadUnion(fields, fields[i], SlotAt(fields, st.slots, i))
    ensures IsFixedCount(fields[i]) ==> Entered(fields, st, i).fixedCount == 0
    ensures SeenAll(fields, Entered(fields, st, i), i + 1)
  {
    assert Untouched(fields, FieldAt(fields, i), SlotAt(fields, st.slots, i));
    EnteringSees(fields, st, i);
  }

  lemma EnteringSees(fields: seq<Field>, st: State, i: nat)
    requires i < |fields| && StateOk(fields, st) && SeenAll(fields, st, i) && EnterField(fields, st, i).Ok?
    ensures SeenAll(fields, Entered(fields, st, i), i + 1)
  {}

  /** One occurrence of field i, once its slot is known to be read as `slot`. */
  lemma StoresSlot(
      fields: seq<Field>, st: State, i: nat, wireType: nat, s: seq<byte>, slot: Slot, count: nat, tail: seq<byte>)
      returns (st': State)
    requires ValidFields(fields) && StateOk(fields, st) && i < |fields| && EnterField(fields, st, i).Ok?
    requires wireType < 8 && !BadUnion(fields, fields[i], SlotAt(fields, st.slots, i))
    requires DecodeSlot(FieldAt(fields, i), SlotAt(fields, st.slots, i), Entered(fields, st, i).fixedCount, wireType, s)
          == Ok((slot, count, tail))
    ensures StateOk(fields, st') && st'.slots == st.slots[SlotOf(fields, i) := slot]
    ensures st'.fixedCount == count && st'.seen == Entered(fields, st, i).seen
    ensures st'.fixedField == Entered(fields, st, i).fixedField
    ensures SlotAt(fields, st'.slots, i) == slot
    ensures Run(fields, st, EncodeTag(wireType, fields[i].tag) + s) == Run(fields, st', tail)
  {
    var st1 := Entered(fields, st, i);
    StoreKeepsSlotsOk(fields, st1.slots, i, slot);
    st' := st1.(slots := st1.slots[SlotOf(fields, i) := slot], fixedCount := count);
    RunTagged(fields, st, i, wireType, s);
  }

  /** When the slot cannot be read, the whole decode fails. */
  lemma FailsSlot(fields: seq<Field>, st: State, i: nat, wireType: nat, s: seq<byte>)
    requires ValidFields(fields) && StateOk(fields, st) && i < |fields| && EnterField(fields, st, i).Ok?
    requires wireType < 8
    requires DecodeSlot(FieldAt(fields, i), SlotAt(fields, st.slots, i), Entered(fields, st, i).fixedCount, wireType, s).Fail?
    ensures Run(fields, st, EncodeTag(wireType, fields[i].tag) + s).Failed?
  {
    RunTagged(fields, st, i, wireType, s);
  }

  /** The value of a field written once, read into its slot. */
  lemma {:induction false} SlotReadsBack(
      fields: seq<Field>, f: Field, s: Slot, t: Slot, count: nat, wireType: nat, b: seq<byte>, tail: seq<byte>)
    requires ValidField(f) && SlotOk(f, s) && SlotOk(f, t) && Untouched(fields, f, t)
    requires !f.htype.Repeated? && IsWritten(f, s)
    requires EncodeVal(f, s.v) == Some(b) && |b| < 0x8000_0000_0000_0000
    ensures var r := DecodeSlot(f, t, count, wireType, b + tail);
      if CarriesVal(f, s.v) then r.Ok? && r.value.1 == count && r.value.2 == tail && Done(f, s, r.value.0)
      else r.Fail?
    decreases f, 1
  {
    var prior := if t.Union? then UnionStart(f, t.which, t.v) else t.v;
    if t.Union? && f.ltype.SubmessageT? {
      ZeroValOk(f);
      DefaultsFresh(f.ltype.fields, ZeroVal(f).slots);
    } else if !t.Union? {
      assert FreshVal(f, t.v);
    }
    ValReadsBack(f, s.v, prior, b, tail);
  }

  /** A field written once, with its tag: required, optional and present, or the set member of a oneof. */
  lemma {:induction false} SingleReadsBack(
      fields: seq<Field>, slots: seq<Slot>, st: State, i: nat, c: seq<byte>, tail: seq<byte>) returns (st': State)
    requires ValidFields(fields) && SlotsOk(fields, slots) && i < |fields| && Stage(fields, slots, st, i)
    requires !fields[i].htype.Repeated? && IsWritten(fields[i], SlotAt(fields, slots, i))
    requires EncodeTagged(fields[i], SlotAt(fields, slots, i).v) == Some(c) && |c| < 0x8000_0000_0000_0000
    ensures if CarriesVal(fields[i], SlotAt(fields, slots, i).v)
            then Stage(fields, slots, st', i + 1) && Run(fields, st, c + tail) == Run(fields, st', tail)
            else Run(fields, st, c + tail).Failed?
    decreases fields[i], 2
  {
    var f, wt := FieldAt(fields, i), WireType(fields[i].ltype);
    var s, t := SlotAt(fields, slots, i), SlotAt(fields, st.slots, i);
    var b := EncodeVal(f, s.v).value;
    assert c + tail == EncodeTag(wt, f.tag) + (b + tail);
    CanEnter(fields, slots, st, i);
    var st1 := Entered(fields, st, i);
    SlotReadsBack(fields, f, s, t, st1.fixedCount, wt, b, tail);
    if CarriesVal(f, s.v) {
      var slot := DecodeSlot(f, t, st1.fixedCount, wt, b + tail).value.0;
      st' := StoresSlot(fields, st, i, wt, b + tail, slot, st1.fixedCount, tail);
      FieldStored(fields, slots, st, i, st');
    } else {
      st' := st;
      FailsSlot(fields, st, i, wt, b + tail);
    }
  }

  lemma {:induction false} ValReadsBack(f: Field, v: Val, prior: Val, b: seq<byte>, tail: seq<byte>)
    requires ValidField(f) && ValOk(f, v) && ValOk(f, prior)
    requires EncodeVal(f, v) == Some(b) && |b| < 0x8000_0000_0000_0000
    requires f.ltype.SubmessageT? && !f.htype.Repeated? ==> FreshSlots(f.ltype.fields, prior.slots)
    ensures var r := DecodeVal(f, prior, b + tail);
      if CarriesVal(f, v) then r.Ok? && r.value.1 == tail && (SameVal(f, v, r.value.0) <==> RestoresVal(f, v))
      else r.Fail?
    decreases f, 0
  {
    if Packable(f.ltype) {
      NumReadsBack(f, v.n, b, tail);
    } else if f.ltype.SubmessageT? {
      var sub := f.ltype.fields;
      var body := Encode(sub, v.slots).value;
      DelimitedReadsBack(body, tail);
      if |body| <= 0xFFFF_FFFF {
        var start := if f.htype.Repeated? then SetDefaults(sub, prior.slots, |sub|) else prior.slots;
        if f.htype.Repeated? {
          DefaultsFresh(sub, prior.slots);
        }
        MessageReadsBack(sub, v.slots, start, body);
      }
    } else {
      DelimitedReadsBack(v.data, tail);
    }
  }

  lemma {:induction false} MessageReadsBack(fields: seq<Field>, slots: seq<Slot>, start: seq<Slot>, b: seq<byte>)
    requires ValidFields(fields) && SlotsOk(fields, slots) && SlotsOk(fields, start) && FreshSlots(fields, start)
    requires Encode(fields, slots) == Some(b) && |b| < 0x8000_0000_0000_0000
    ensures var r := DecodeNoInit(fields, start, b);
      if CarriesSlots(fields, slots)
      then r.Ok? && r.value.1 == [] && (SameSlots(fields, slots, r.value.0) <==> RestoresSlots(fields, slots))
      else r.Fail?
    decreases fields, 4
  {
    assert b + [] == b;
    forall i | 0 <= i < |fields|
      ensures Untouched(fields, FieldAt(fields, i), SlotAt(fields, start, i))
    {
      assert FreshSlot(fields[i], SlotAt(fields, start, i));
    }
    var st := FieldsReadBack(fields, slots, Initial(start), |fields|, b, []);
    if CarriesSlots(fields, slots) {
      assert Run(fields, Initial(start), b) == Running(st);
      forall i | 0 <= i < |fields|
        ensures SameSlot(fields[i], SlotAt(fields, slots, i), SlotAt(fields, st.slots, i))
           <==> RestoresSlot(FieldAt(fields, i), SlotAt(fields, slots, i))
      {
        assert Done(FieldAt(fields, i), SlotAt(fields, slots, i), SlotAt(fields, st.slots, i));
      }
    }
  }

  lemma {:induction false} FieldsReadBack(
      fields: seq<Field>, slots: seq<Slot>, st: State, n: nat, b: seq<byte>, tail: seq<byte>) returns (st': State)
    requires ValidFields(fields) && SlotsOk(fields, slots) && n <= |fields| && Stage(fields, slots, st, 0)
    requires EncodeFields(fields, slots, n) == Some(b) && |b| < 0x8000_0000_0000_0000
    ensures if CarriesFields(fields, slots, n)
            then Stage(fields, slots, st', n) && Run(fields, st, b + tail) == Run(fields, st', tail)
            else Run(fields, st, b + tail).Failed?
    decreases fields, 3, n
  {
    if n == 0 {
      st' := st;
      assert b + tail == tail;
    } else {
      var a := EncodeFields(fields, slots, n - 1).value;
      var c := EncodeField(fields[n - 1], SlotAt(fields, slots, n - 1)).value;
      assert b + tail == a + (c + tail);
      var mid := FieldsReadBack(fields, slots, st, n - 1, a, c + tail);
      st' := mid;
      if CarriesFields(fields, slots, n - 1) {
        st' := FieldReadsBack(fields, slots, mid, n - 1, c, tail);
      }
    }
  }

  lemma {:induction false} FieldReadsBack(
      fields: seq<Field>, slots: seq<Slot>, st: State, i: nat, c: seq<byte>, tail: seq<byte>) returns (st': State)
    requires ValidFields(fields) && SlotsOk(fields, slots) && i < |fields| && Stage(fields, slots, st, i)
    requires EncodeField(fields[i], SlotAt(fields, slots, i)) == Some(c) && |c| < 0x8000_0000_0000_0000
    ensures if CarriesSlot(fields[i], SlotAt(fields, slots, i))
            then Stage(fields, slots, st', i + 1) && Run(fields, st, c + tail) == Run(fields, st', tail)
            else Run(fields, st, c + tail).Failed?
    decreases fields[i], 5
  {
    var f, s := FieldAt(fields, i), SlotAt(fields, slots, i);
    st' := st;
    if f.htype.Repeated? {
      if Entries(f, s) == 0 {
        assert c + tail == tail;
        FieldSkipped(fields, slots, st, i);
      } else if Packable(f.ltype) {
        st' := PackedFieldReadsBack(fields, slots, st, i, c, tail);
      } else {
        st' := UnpackedFieldReadsBack(fields, slots, st, i, c, tail);
      }
    } else if !IsWritten(f, s) {
      assert c + tail == tail;
      FieldSkipped(fields, slots, st, i);
    } else {
      st' := SingleReadsBack(fields, slots, st, i, c, tail);
    }
  }

  lemma {:induction false} PackedFieldReadsBack(
      fields: seq<Field>, slots: seq<Slot>, st: State, i: nat, c: seq<byte>, tail: seq<byte>) returns (st': State)
    requires ValidFields(fields) && SlotsOk(fields, slots) && i < |fields| && Stage(fields, slots, st, i)
    requires fields[i].htype.Repeated? && Packable(fields[i].ltype) && Entries(fields[i], SlotAt(fields, slots, i)) > 0
    requires EncodeField(fields[i], SlotAt(fields, slots, i)) == Some(c) && |c| < 0x8000_0000_0000_0000
    ensures if CarriesSlot(fields[i], SlotAt(fields, slots, i))
            then Stage(fields, slots, st', i + 1) && Run(fields, st, c + tail) == Run(fields, st', tail)
            else Run(fields, st, c + tail).Failed?
  {
    var f, s, t := FieldAt(fields, i), SlotAt(fields, slots, i), SlotAt(fields, st.slots, i);
    ArrayEncoding(f, s, c);
    var body := EncodeItems(f, s.items, Entries(f, s), false).value;
    assert c + tail == EncodeTag(2, f.tag) + (EncodeString(body) + tail);
    CanEnter(fields, slots, st, i);
    var st1 := Entered(fields, st, i);
    PackedSlotReadsBack(f, s, t, st1.fixedCount, body, tail);
    if |body| <= 0xFFFF_FFFF {
      var (slot, count, _) := DecodeSlot(f, t, st1.fixedCount, 2, EncodeString(body) + tail).value;
      st' := StoresSlot(fields, st, i, 2, EncodeString(body) + tail, slot, count, tail);
      FieldStored(fields, slots, st, i, st');
    } else {
      st' := st;
      FailsSlot(fields, st, i, 2, EncodeString(body) + tail);
    }
  }

  lemma {:induction false} PackedSlotReadsBack(f: Field, s: Slot, t: Slot, count: nat, body: seq<byte>, tail: seq<byte>)
    requires ValidField(f) && SlotOk(f, s) && SlotOk(f, t) && FreshSlot(f, t) && (f.sizeOffset == 0 ==> count == 0)
    requires f.htype.Repeated? && Packable(f.ltype) && Entries(f, s) <= f.arraySize
    requires EncodeItems(f, s.items, Entries(f, s), false) == Some(body) && |body| < 0x8000_0000_0000_0000
    ensures var r := DecodeSlot(f, t, count, 2, EncodeString(body) + tail);
      if |body| <= 0xFFFF_FFFF
      then r.Ok? && r.value.1 == (if f.sizeOffset == 0 then f.arraySize else count) && r.value.2 == tail && Done(f, s, r.value.0)
      else r.Fail?
  {
    DelimitedReadsBack(body, tail);
    if |body| <= 0xFFFF_FFFF {
      assert body + [] == body;
      var after := PackedReadsBack(f, s.items, Entries(f, s), body, t.items, []);
      assert DecodePacked(f, t.items, 0, body) == Some((after, Entries(f, s)));
      var slot := if f.sizeOffset != 0 then Rep(Entries(f, s), after) else Fix(after);
      assert DecodeItems(f, t.items, 0, 2, EncodeString(body) + tail) == Ok((after, Entries(f, s), tail));
      assert DoneItems(f, s.items, after, Entries(f, s));
      ItemsDone(f, s, slot);
    }
  }

  /** After n entries of the array in field i have been read. */
  ghost predicate Part(fields: seq<Field>, slots: seq<Slot>, st: State, i: nat, mid: State, n: nat)
    requires ValidFields(fields) && SlotsOk(fields, slots) && i < |fields| && fields[i].htype.Repeated?
    requires StateOk(fields, st) && n <= fields[i].arraySize
  {
    var f := FieldAt(fields, i);
    && StateOk(fields, mid) && mid.seen == st.seen
    && var s, t := SlotAt(fields, slots, i), SlotAt(fields, mid.slots, i);
    && mid.slots == st.slots[SlotOf(fields, i) := t]
    && (if f.sizeOffset != 0 then t.count == n && mid.fixedField == st.fixedField && mid.fixedCount == st.fixedCount
        else if n == 0 then mid == st else mid.fixedField == Some(i) && mid.fixedCount == n)
    && DoneItems(f, s.items, t.items, n)
  }

  predicate DoneItems(f: Field, a: seq<Val>, b: seq<Val>, n: nat)
    requires ValidField(f) && n <= |a| && n <= |b|
    requires (forall k :: 0 <= k < |a| ==> ValOk(f, a[k])) && (forall k :: 0 <= k < |b| ==> ValOk(f, b[k]))
  {
    forall k :: 0 <= k < n ==> (SameVal(f, a[k], b[k]) <==> RestoresVal(f, a[k]))
  }

  lemma ItemsDone(f: Field, s: Slot, t: Slot)
    requires ValidField(f) && SlotOk(f, s) && SlotOk(f, t) && f.htype.Repeated?
    requires Entries(f, s) == Entries(f, t) <= f.arraySize && DoneItems(f, s.items, t.items, Entries(f, s))
    ensures Done(f, s, t)
  {}

  /** What the encoder writes for an array that is not empty. */
  lemma ArrayEncoding(f: Field, s: Slot, c: seq<byte>)
    requires SlotOk(f, s) && f.htype.Repeated? && Entries(f, s) > 0 && EncodeField(f, s) == Some(c)
    ensures Entries(f, s) <= f.arraySize
    ensures if Packable(f.ltype) then
        && EncodeItems(f, s.items, Entries(f, s), false).Some?
        && c == EncodeTag(2, f.tag) + EncodeString(EncodeItems(f, s.items, Entries(f, s), false).value)
        && (CarriesSlot(f, s) <==> |EncodeItems(f, s.items, Entries(f, s), false).value| <= 0xFFFF_FFFF)
      else
        && EncodeItems(f, s.items, Entries(f, s), true) == Some(c)
        && (CarriesSlot(f, s) <==> CarriesFirst(f, s.items, Entries(f, s)))
  {
    if Packable(f.ltype) {
      PackableCarries(f, s.items, Entries(f, s));
    }
  }

  /** An array whose entries each carry their tag. */
  lemma {:induction false} ItemsReadBack(
      fields: seq<Field>, slots: seq<Slot>, st: State, i: nat, n: nat, c: seq<byte>, tail: seq<byte>)
      returns (mid: State)
    requires ValidFields(fields) && SlotsOk(fields, slots) && i < |fields| && Stage(fields, slots, st, i)
    requires fields[i].htype.Repeated? && !Packable(fields[i].ltype) && n <= fields[i].arraySize
    requires EncodeItems(fields[i], SlotAt(fields, slots, i).items, n, true) == Some(c) && |c| < 0x8000_0000_0000_0000
    ensures if CarriesFirst(fields[i], SlotAt(fields, slots, i).items, n)
            then Part(fields, slots, st, i, mid, n) && Run(fields, st, c + tail) == Run(fields, mid, tail)
            else Run(fields, st, c + tail).Failed?
    decreases fields[i], 3, n
  {
    var f, s := FieldAt(fields, i), SlotAt(fields, slots, i);
    mid := st;
    if n == 0 {
      assert c + tail == tail;
      assert Untouched(fields, f, SlotAt(fields, st.slots, i));
    } else {
      var a := EncodeItems(f, s.items, n - 1, true).value;
      var d := EncodeTagged(f, s.items[n - 1]).value;
      var b := EncodeVal(f, s.items[n - 1]).value;
      assert c + tail == a + (d + tail);
      assert d + tail == EncodeTag(WireType(f.ltype), f.tag) + (b + tail);
      var before := ItemsReadBack(fields, slots, st, i, n - 1, a, d + tail);
      if CarriesFirst(f, s.items, n - 1) {
        mid := ItemReadsBack(fields, slots, st, i, n, before, b, tail);
      }
    }
  }

  /** The next entry of an array whose entries each carry their tag. */
  lemma {:induction false} ItemReadsBack(
      fields: seq<Field>, slots: seq<Slot>, st: State, i: nat, n: nat, before: State, b: seq<byte>, tail: seq<byte>)
      returns (mid: State)
    requires ValidFields(fields) && SlotsOk(fields, slots) && i < |fields| && Stage(fields, slots, st, i)
    requires fields[i].htype.Repeated? && !Packable(fields[i].ltype) && 0 < n <= fields[i].arraySize
    requires Part(fields, slots, st, i, before, n - 1)
    requires EncodeVal(fields[i], SlotAt(fields, slots, i).items[n - 1]) == Some(b) && |b| < 0x8000_0000_0000_0000
    ensures var s := EncodeTag(WireType(fields[i].ltype), fields[i].tag) + (b + tail);
      if CarriesVal(fields[i], SlotAt(fields, slots, i).items[n - 1])
      then Part(fields, slots, st, i, mid, n) && Run(fields, before, s) == Run(fields, mid, tail)
      else Run(fields, before, s).Failed?
    decreases fields[i], 2
  {
    var f, wt := FieldAt(fields, i), WireType(fields[i].ltype);
    var s, t := SlotAt(fields, slots, i), SlotAt(fields, before.slots, i);
    CanEnterAgain(fields, slots, st, i, before, n - 1);
    var count := Entered(fields, before, i).fixedCount;
    var v, slot, count' := EntryReadsBack(f, s, t, count, wt, n - 1, b, tail);
    if CarriesVal(f, s.items[n - 1]) {
      mid := StoresSlot(fields, before, i, wt, b + tail, slot, count', tail);
      PartGrows(fields, slots, st, i, before, mid, n - 1, v);
    } else {
      mid := before;
      FailsSlot(fields, before, i, wt, b + tail);
    }
  }

  /** The value of one such entry, read into its slot. */
  lemma {:induction false} EntryReadsBack(
      f: Field, s: Slot, t: Slot, count: nat, wireType: nat, n: nat, b: seq<byte>, tail: seq<byte>)
      returns (v: Val, slot: Slot, count': nat)
    requires ValidField(f) && SlotOk(f, s) && SlotOk(f, t) && f.htype.Repeated? && !Packable(f.ltype)
    requires n < f.arraySize && (if f.sizeOffset != 0 then t.count == n else count == n)
    requires EncodeVal(f, s.items[n]) == Some(b) && |b| < 0x8000_0000_0000_0000
    ensures ValOk(f, v)
    ensures slot == if f.sizeOffset != 0 then Rep(n + 1, t.items[n := v]) else Fix(t.items[n := v])
    ensures count' == if f.sizeOffset != 0 then count else n + 1
    ensures if CarriesVal(f, s.items[n])
            then DecodeSlot(f, t, count, wireType, b + tail) == Ok((slot, count', tail))
              && (SameVal(f, s.items[n], v) <==> RestoresVal(f, s.items[n]))
            else DecodeSlot(f, t, count, wireType, b + tail).Fail?
    decreases f, 1
  {
    ValReadsBack(f, s.items[n], t.items[n], b, tail);
    ItemSlot(f, t, count, wireType, n, b + tail);
    v := if CarriesVal(f, s.items[n]) then DecodeVal(f, t.items[n], b + tail).value.0 else t.items[n];
    slot := if f.sizeOffset != 0 then Rep(n + 1, t.items[n := v]) else Fix(t.items[n := v]);
    count' := if f.sizeOffset != 0 then count else n + 1;
  }

  lemma PartGrows(
      fields: seq<Field>, slots: seq<Slot>, st: State, i: nat, before: State, mid: State, n: nat, v: Val)
    requires ValidFields(fields) && SlotsOk(fields, slots) && i < |fields| && fields[i].htype.Repeated?
    requires StateOk(fields, st) && StateOk(fields, mid) && n < fields[i].arraySize
    requires Part(fields, slots, st, i, before, n) && ValOk(fields[i], v)
    requires var f, s, t := FieldAt(fields, i), SlotAt(fields, slots, i), SlotAt(fields, before.slots, i);
      && (SameVal(f, s.items[n], v) <==> RestoresVal(f, s.items[n]))
      && SlotAt(fields, mid.slots, i)
           == (if f.sizeOffset != 0 then Rep(n + 1, t.items[n := v]) else Fix(t.items[n := v]))
    requires mid.slots == before.slots[SlotOf(fields, i) := SlotAt(fields, mid.slots, i)] && mid.seen == st.seen
    requires if IsFixedCount(fields[i]) then mid.fixedField == Some(i) && mid.fixedCount == n + 1
             else mid.fixedField == st.fixedField && mid.fixedCount == st.fixedCount
    ensures Part(fields, slots, st, i, mid, n + 1)
  {
    var f, s, t := FieldAt(fields, i), SlotAt(fields, slots, i), SlotAt(fields, before.slots, i);
    var t' := SlotAt(fields, mid.slots, i);
    forall k | 0 <= k < n + 1
      ensures SameVal(f, s.items[k], t'.items[k]) <==> RestoresVal(f, s.items[k])
    {
      assert k < n ==> t'.items[k] == t.items[k];
    }
  }

  /** Within an array its next entry can be received at index n. */
  lemma CanEnterAgain(fields: seq<Field>, slots: seq<Slot>, st: State, i: nat, before: State, n: nat)
    requires ValidFields(fields) && SlotsOk(fields, slots) && i < |fields| && Stage(fields, slots, st, i)
    requires fields[i].htype.Repeated? && n < fields[i].arraySize && Part(fields, slots, st, i, before, n)
    ensures EnterField(fields, before, i).Ok? && Entered(fields, before, i).seen == st.seen
    ensures if IsFixedCount(fields[i])
            then Entered(fields, before, i).fixedField == Some(i) && Entered(fields, before, i).fixedCount == n
            else Entered(fields, before, i) == before
    ensures !BadUnion(fields, fields[i], SlotAt(fields, before.slots, i))
  {}

  /** Reading one entry of an array whose entries each carry their tag. */
  lemma ItemSlot(f: Field, t: Slot, count: nat, wireType: nat, n: nat, s: seq<byte>)
    requires ValidField(f) && SlotOk(f, t) && f.htype.Repeated? && !Packable(f.ltype) && n < f.arraySize
    requires if f.sizeOffset != 0 then t.count == n else count == n
    ensures DecodeSlot(f, t, count, wireType, s)
         == match DecodeVal(f, t.items[n], s)
            case Fail(e) => Fail(e)
            case Ok((v, rest)) =>
              if f.sizeOffset != 0 then Ok((Rep(n + 1, t.items[n := v]), count, rest))
              else Ok((Fix(t.items[n := v]), n + 1, rest))
  {}

  lemma {:induction false} UnpackedFieldReadsBack(
      fields: seq<Field>, slots: seq<Slot>, st: State, i: nat, c: seq<byte>, tail: seq<byte>) returns (st': State)
    requires ValidFields(fields) && SlotsOk(fields, slots) && i < |fields| && Stage(fields, slots, st, i)
    requires fields[i].htype.Repeated? && !Packable(fields[i].ltype) && Entries(fields[i], SlotAt(fields, slots, i)) > 0
    requires EncodeField(fields[i], SlotAt(fields, slots, i)) == Some(c) && |c| < 0x8000_0000_0000_0000
    ensures if CarriesSlot(fields[i], SlotAt(fields, slots, i))
            then Stage(fields, slots, st', i + 1) && Run(fields, st, c + tail) == Run(fields, st', tail)
            else Run(fields, st, c + tail).Failed?
    decreases fields[i], 4
  {
    var f, s := FieldAt(fields, i), SlotAt(fields, slots, i);
    ArrayEncoding(f, s, c);
    st' := ItemsReadBack(fields, slots, st, i, Entries(f, s), c, tail);
    if CarriesSlot(f, s) {
      ItemsDone(f, s, SlotAt(fields, st'.slots, i));
      FieldStored(fields, slots, st, i, st');
    }
  }

  /**
   * Message round trip. Decoding what was encoded, into any struct, consumes every byte and gives back
   * the same message exactly when every string keeps its NUL inside its array, every length prefix
   * fits 32 bits, and everything a proto3 encoder leaves out defaults to zero.
   */
  lemma MessageRoundTrip(fields: seq<Field>, slots: seq<Slot>, dest: seq<Slot>, b: seq<byte>)
    requires ValidFields(fields) && SlotsOk(fields, slots) && SlotsOk(fields, dest)
    requires Encode(fields, slots) == Some(b) && |b| < 0x8000_0000_0000_0000
    ensures var r := Decode(fields, dest, b);
      && (r.Ok? <==> CarriesSlots(fields, slots))
      && (r.Ok? ==> r.value.1 == [])
      && (r.Ok? && SameSlots(fields, slots, r.value.0) <==> CarriesSlots(fields, slots) && RestoresSlots(fields, slots))
  {
    DefaultsFresh(fields, dest);
    MessageReadsBack(fields, slots, SetDefaults(fields, dest, |fields|), b);
  }
}
