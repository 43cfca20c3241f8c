/**
 * Field descriptors and message structs of nanopb, and the wire format as functions on them.
 *
 * A struct is a sequence of slots, one for each field, except that the members of a oneof share
 * one slot, as they share one union in memory.
 */
module Descriptors {
  import opened Wrappers
  import opened Bits

  datatype LType =
    | VarintT | UVarintT | SVarintT | Fixed32T | Fixed64T
    | BytesT | StringT | SubmessageT(fields: seq<Field>) | FixedBytesT

  datatype HType = Required | Optional | Repeated | Oneof

  /** `sizeOffset` is nonzero when a has-flag, a count or a which-tag sits beside the data. */
  datatype Field = Field(
    tag: nat, ltype: LType, htype: HType,
    dataOffset: nat, sizeOffset: int, dataSize: nat, arraySize: nat,
    initial: Option<Val>)

  /** Strings are the characters before the terminating NUL; byte arrays their `size` first bytes. */
  datatype Val = Num(n: int) | Blob(data: seq<byte>) | Msg(slots: seq<Slot>)

  datatype Slot =
    | One(v: Val)
    | Opt(has: bool, v: Val)
    | Rep(count: nat, items: seq<Val>)
    | Fix(items: seq<Val>)
    | Union(which: nat, v: Val)

  /** `PB_SIZE_MAX` with PB_FIELD_32BIT: as a data offset it says "same union as the field before". */
  const SIZE_MAX: nat := 0xFFFF_FFFF
  /** Where the bytes start in a `pb_bytes_array_t`. */
  const BYTES_OFFSET: nat := 4
  const MAX_REQUIRED: nat := 64

  predicate Packable(lt: LType) {
    lt.VarintT? || lt.UVarintT? || lt.SVarintT? || lt.Fixed32T? || lt.Fixed64T?
  }

  function WireType(lt: LType): nat {
    if lt.VarintT? || lt.UVarintT? || lt.SVarintT? then 0
    else if lt.Fixed64T? then 1
    else if lt.Fixed32T? then 5
    else 2
  }

  /** A repeated field without a count: every entry is always present. */
  predicate IsFixedCount(f: Field) {
    f.htype.Repeated? && f.sizeOffset == 0
  }

  /** A proto3 field: optional, but without a has-flag. */
  predicate IsSingular(f: Field) {
    f.htype.Optional? && f.sizeOffset == 0
  }

  // ---- Layout: which slot a field lives in.

  predicate SharesUnion(fields: seq<Field>, i: nat)
    requires i < |fields|
  {
    i > 0 && fields[i - 1].htype.Oneof? && fields[i].htype.Oneof? && fields[i].dataOffset == SIZE_MAX
  }

  /** The number of slots the first n fields take. */
  function SlotCount(fields: seq<Field>, n: nat): nat
    requires n <= |fields|
  {
    if n == 0 then 0 else SlotCount(fields, n - 1) + (if SharesUnion(fields, n - 1) then 0 else 1)
  }

  function SlotOf(fields: seq<Field>, i: nat): (k: nat)
    requires i < |fields|
    ensures k < SlotCount(fields, |fields|)
  {
    SlotCountMonotone(fields, i + 1, |fields|);
    SlotCountPositive(fields, i);
    SlotCount(fields, i + 1) - 1
  }

  lemma SlotCountMonotone(fields: seq<Field>, m: nat, n: nat)
    requires m <= n <= |fields|
    ensures SlotCount(fields, m) <= SlotCount(fields, n)
  {
    if m < n {
      SlotCountMonotone(fields, m, n - 1);
    }
  }

  lemma SlotCountPositive(fields: seq<Field>, i: nat)
    requires i < |fields|
    ensures SlotCount(fields, i + 1) > 0
  {
    if i > 0 && SharesUnion(fields, i) {
      SlotCountPositive(fields, i - 1);
    }
  }

  /** Two different fields in one slot are both members of one oneof. */
  lemma SharedSlotIsUnion(fields: seq<Field>, i: nat, j: nat)
    requires i < j < |fields| && SlotOf(fields, i) == SlotOf(fields, j)
    ensures fields[i].htype.Oneof? && fields[j].htype.Oneof?
  {
    SlotCountMonotone(fields, i + 1, j);
    SlotCountMonotone(fields, j, j + 1);
    if i + 1 < j {
      SharedSlotIsUnion(fields, i, j - 1);
    }
  }

  // ---- Well-typed structs and descriptors.

  predicate IsIntSize(size: nat) {
    size == 1 || size == 2 || size == 4 || size == 8
  }

  /** The values an integer of `size` bytes holds, by kind. */
  predicate InRange(lt: LType, size: nat, n: int) {
    match lt
    case UVarintT =>
      0 <= n < (if size == 1 then 0x100 else if size == 2 then 0x1_0000
                else if size == 4 then 0x1_0000_0000 else 0x1_0000_0000_0000_0000)
    case Fixed32T => 0 <= n < 0x1_0000_0000
    case Fixed64T => 0 <= n < 0x1_0000_0000_0000_0000
    case _ =>
      var half := if size == 1 then 0x80 else if size == 2 then 0x8000
                  else if size == 4 then 0x8000_0000 else 0x8000_0000_0000_0000;
      -half <= n < half
  }

  predicate ValOk(f: Field, v: Val)
    decreases f, 0
  {
    match f.ltype
    case BytesT => v.Blob?
    case StringT => v.Blob? && |v.data| <= f.dataSize && 0 !in v.data
    case FixedBytesT => v.Blob? && |v.data| == f.dataSize
    case SubmessageT(sub) => v.Msg? && SlotsOk(sub, v.slots)
    case _ => v.Num? && InRange(f.ltype, f.dataSize, v.n)
  }

  predicate SlotOk(f: Field, s: Slot)
    decreases f, 1
  {
    match f.htype
    case Required => s.One? && ValOk(f, s.v)
    case Optional => if f.sizeOffset != 0 then s.Opt? && ValOk(f, s.v) else s.One? && ValOk(f, s.v)
    case Repeated =>
      && (if f.sizeOffset != 0 then s.Rep? else s.Fix?)
      && |s.items| == f.arraySize
      && forall k :: 0 <= k < |s.items| ==> ValOk(f, s.items[k])
    case Oneof => s.Union? && (s.which == f.tag ==> ValOk(f, s.v))
  }

  predicate SlotsOk(fields: seq<Field>, slots: seq<Slot>)
    decreases fields, 2
  {
    && |slots| == SlotCount(fields, |fields|)
    && forall i :: 0 <= i < |fields| ==> SlotOkAt(fields, slots, i)
  }

  predicate SlotOkAt(fields: seq<Field>, slots: seq<Slot>, i: nat)
    requires i < |fields| && |slots| == SlotCount(fields, |fields|)
    decreases fields, 1
  {
    SlotOk(fields[i], slots[SlotOf(fields, i)])
  }

  /** What the generator of descriptors guarantees; integer sizes are left to the codec to check. */
  predicate ValidField(f: Field)
    decreases f, 0
  {
    && 0 < f.tag < 0x2000_0000
    && 0 < f.dataSize <= SIZE_MAX && f.arraySize <= SIZE_MAX
    && (f.htype.Oneof? ==> f.sizeOffset != 0)
    && (f.initial.Some? ==> !f.ltype.SubmessageT? && ValOk(f, f.initial.value))
    && (f.ltype.SubmessageT? ==>
          && ValidFields(f.ltype.fields)
          && (IsSingular(f) ==> forall k :: 0 <= k < |f.ltype.fields| ==> !IsFixedCount(f.ltype.fields[k])))
  }

  predicate ValidFields(fields: seq<Field>)
    decreases fields, 1
  {
    && (forall i :: 0 <= i < |fields| ==> ValidFieldAt(fields, i))
    && (forall i, j :: 0 <= i < j < |fields| ==> fields[i].tag != fields[j].tag)
  }

  predicate ValidFieldAt(fields: seq<Field>, i: nat)
    requires i < |fields|
    decreases fields, 0
  {
    ValidField(fields[i])
  }

  /** The slot of field i. */
  function SlotAt(fields: seq<Field>, slots: seq<Slot>, i: nat): (s: Slot)
    requires SlotsOk(fields, slots) && i < |fields|
    ensures SlotOk(fields[i], s)
  {
    assert SlotOkAt(fields, slots, i);
    slots[SlotOf(fields, i)]
  }

  function FieldAt(fields: seq<Field>, i: nat): (f: Field)
    requires ValidFields(fields) && i < |fields|
    ensures f == fields[i] && ValidField(f)
  {
    assert ValidFieldAt(fields, i);
    fields[i]
  }

  /** The field with a given tag. */
  function FindField(fields: seq<Field>, tag: nat): (r: Option<nat>)
    ensures r.Some? ==> r.value < |fields| && fields[r.value].tag == tag
    ensures r.None? <==> forall i :: 0 <= i < |fields| ==> fields[i].tag != tag
  {
    if |fields| == 0 then None
    else if fields[|fields| - 1].tag == tag then Some(|fields| - 1)
    else FindField(fields[..|fields| - 1], tag)
  }

  /** How many required fields stand before position n. */
  function RequiredBefore(fields: seq<Field>, n: nat): nat
    requires n <= |fields|
  {
    if n == 0 then 0 else RequiredBefore(fields, n - 1) + (if fields[n - 1].htype.Required? then 1 else 0)
  }

  // ---- Zeroed and default structs.

  function Zeros(n: nat): (s: seq<byte>)
    ensures |s| == n && forall k :: 0 <= k < n ==> s[k] == 0
  {
    seq(n, k => 0)
  }

  /** What `memset(p, 0, data_size)` leaves. */
  function ZeroVal(f: Field): Val
    decreases f, 0
  {
    match f.ltype
    case BytesT => Blob([])
    case StringT => Blob([])
    case FixedBytesT => Blob(Zeros(f.dataSize))
    case SubmessageT(sub) => Msg(ZeroSlots(sub, |sub|))
    case _ => Num(0)
  }

  function ZeroSlot(f: Field): Slot
    decreases f, 1
  {
    match f.htype
    case Required => One(ZeroVal(f))
    case Optional => if f.sizeOffset != 0 then Opt(false, ZeroVal(f)) else One(ZeroVal(f))
    case Repeated =>
      var items := seq(f.arraySize, k => ZeroVal(f));
      if f.sizeOffset != 0 then Rep(0, items) else Fix(items)
    case Oneof => Union(0, Num(0))
  }

  function ZeroSlots(fields: seq<Field>, n: nat): (slots: seq<Slot>)
    requires n <= |fields|
    ensures |slots| == SlotCount(fields, n)
    decreases fields, n
  {
    if n == 0 then []
    else
      var before := ZeroSlots(fields, n - 1);
      if SharesUnion(fields, n - 1) then before else before + [ZeroSlot(fields[n - 1])]
  }

  lemma ZeroValOk(f: Field)
    requires ValidField(f)
    ensures ValOk(f, ZeroVal(f))
    decreases f, 0
  {
    if f.ltype.SubmessageT? {
      var sub := f.ltype.fields;
      forall i | 0 <= i < |sub|
        ensures SlotOkAt(sub, ZeroSlots(sub, |sub|), i)
      {
        ZeroSlotAt(sub, i, |sub|);
        var g := FieldAt(sub, i);
        if !sub[i].htype.Oneof? {
          ZeroValOk(g);
        }
      }
    }
  }

  lemma ZeroSlotAt(fields: seq<Field>, i: nat, n: nat)
    requires i < n <= |fields|
    ensures SlotOf(fields, i) < SlotCount(fields, n)
    ensures if fields[i].htype.Oneof? then ZeroSlots(fields, n)[SlotOf(fields, i)] == Union(0, Num(0))
            else ZeroSlots(fields, n)[SlotOf(fields, i)] == ZeroSlot(fields[i])
  {
    SlotCountMonotone(fields, i + 1, n);
    SlotCountPositive(fields, i);
    if i < n - 1 {
      ZeroSlotAt(fields, i, n - 1);
    } else if SharesUnion(fields, i) {
      ZeroSlotAt(fields, i - 1, i);
    }
  }

  /** What `pb_field_set_to_default` leaves of one field, given what was there. */
  function DefaultVal(f: Field, prior: Val): (v: Val)
    requires ValidField(f) && ValOk(f, prior)
    ensures ValOk(f, v)
    decreases f, 0
  {
    if f.ltype.SubmessageT? then Msg(SetDefaults(f.ltype.fields, prior.slots, |f.ltype.fields|))
    else if f.initial.Some? then f.initial.value
    else ZeroVal(f)
  }

  function DefaultSlot(f: Field, prior: Slot): (s: Slot)
    requires ValidField(f) && SlotOk(f, prior)
    ensures SlotOk(f, s)
    decreases f, 1
  {
    match prior
    case One(v) => One(DefaultVal(f, v))
    case Opt(_, v) => Opt(false, DefaultVal(f, v))
    case Rep(_, items) => Rep(0, items)
    case Fix(items) => Fix(items)
    case Union(_, v) => Union(0, v)
  }

  /** Storing a well-typed slot for one field leaves the whole struct well-typed. */
  lemma StoreKeepsSlotsOk(fields: seq<Field>, slots: seq<Slot>, i: nat, s: Slot)
    requires ValidFields(fields) && SlotsOk(fields, slots) && i < |fields| && SlotOk(fields[i], s)
    requires s.Union? ==> s.which == 0 || s.which == fields[i].tag
    ensures SlotsOk(fields, slots[SlotOf(fields, i) := s])
  {
    var k := SlotOf(fields, i);
    var after := slots[k := s];
    forall j | 0 <= j < |fields|
      ensures SlotOkAt(fields, after, j)
    {
      var f, g, t := FieldAt(fields, i), FieldAt(fields, j), SlotAt(fields, slots, j);
      if j < i && SlotOf(fields, j) == k {
        SharedSlotIsUnion(fields, j, i);
      } else if i < j && SlotOf(fields, j) == k {
        SharedSlotIsUnion(fields, i, j);
      }
    }
    assert SlotsOk(fields, after);
  }

  /** The struct after the defaults of its first n fields have been stored. */
  function SetDefaults(fields: seq<Field>, prior: seq<Slot>, n: nat): (slots: seq<Slot>)
    requires n <= |fields| && ValidFields(fields) && SlotsOk(fields, prior)
    ensures SlotsOk(fields, slots)
    decreases fields, n
  {
    if n == 0 then prior
    else
      var before := SetDefaults(fields, prior, n - 1);
      var k := SlotOf(fields, n - 1);
      var s := DefaultSlot(FieldAt(fields, n - 1), SlotAt(fields, before, n - 1));
      StoreKeepsSlotsOk(fields, before, n - 1, s);
      before[k := s]
  }
}
