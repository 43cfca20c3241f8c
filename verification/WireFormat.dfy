/** The wire format of messages as functions: what `pb_encode` writes and what `pb_decode` reads. */
module WireFormat {
  import opened Wrappers
  import opened Bits
  import opened Varints
  import opened Descriptors

  /** Little-endian bytes of a fixed-width number. */
  function FixedBytes(v: nat, size: nat): (s: seq<byte>)
    ensures |s| == size
  {
    if size == 0 then [] else [v % 256] + FixedBytes(v / 256, size - 1)
  }

  function FixedValue(s: seq<byte>): nat {
    if s == [] then 0 else s[0] + 256 * FixedValue(s[1..])
  }

  /** A signed 64-bit number as the unsigned one with the same bits. */
  function ToUnsigned64(n: int): (v: nat)
    requires -0x8000_0000_0000_0000 <= n < 0x1_0000_0000_0000_0000
  {
    if n < 0 then n + 0x1_0000_0000_0000_0000 else n
  }

  function ToSigned64(v: nat): int {
    if v < 0x8000_0000_0000_0000 then v else v - 0x1_0000_0000_0000_0000
  }

  /** The C cast of an unsigned 64-bit number to `int32_t`. */
  function ToSigned32(v: nat): int {
    var w := v % 0x1_0000_0000;
    if w < 0x8000_0000 then w else w - 0x1_0000_0000
  }

  /** Zigzag: `~(n << 1)` for negative numbers, `n << 1` for the others. */
  function ZigZag(n: int): (v: nat)
  {
    if n < 0 then -2 * n - 1 else 2 * n
  }

  function UnZigZag(v: nat): int {
    if v % 2 == 1 then -(v / 2) - 1 else v / 2
  }

  // ---- Encoding.

  function EncodeTag(wireType: nat, tag: nat): seq<byte> {
    Varint(8 * tag + wireType)
  }

  function EncodeString(data: seq<byte>): seq<byte> {
    Varint(|data|) + data
  }

  /** The value of a field without its tag; None where the encoder reports an error. */
  function EncodeVal(f: Field, v: Val): (r: Option<seq<byte>>)
    requires ValOk(f, v)
    decreases f, 0
  {
    match f.ltype
    case VarintT => if IsIntSize(f.dataSize) then Some(Varint(ToUnsigned64(v.n))) else None
    case UVarintT => if IsIntSize(f.dataSize) then Some(Varint(v.n)) else None
    case SVarintT => if IsIntSize(f.dataSize) then Some(Varint(ZigZag(v.n))) else None
    case Fixed32T => Some(FixedBytes(v.n, 4))
    case Fixed64T => Some(FixedBytes(v.n, 8))
    case BytesT => if |v.data| + BYTES_OFFSET > f.dataSize then None else Some(EncodeString(v.data))
    case StringT => Some(EncodeString(v.data))
    case FixedBytesT => Some(EncodeString(v.data))
    case SubmessageT(sub) =>
      match EncodeFields(sub, v.slots, |sub|) {
        case None => None
        case Some(body) => Some(EncodeString(body))
      }
  }

  /** Tag and value. */
  function EncodeTagged(f: Field, v: Val): Option<seq<byte>>
    requires ValOk(f, v)
    decreases f, 1
  {
    match EncodeVal(f, v)
    case None => None
    case Some(s) => Some(EncodeTag(WireType(f.ltype), f.tag) + s)
  }

  /** The first n entries of an array, one after the other, each with its tag or without. */
  function EncodeItems(f: Field, items: seq<Val>, n: nat, tagged: bool): Option<seq<byte>>
    requires n <= |items| && forall k :: 0 <= k < |items| ==> ValOk(f, items[k])
    decreases f, 2, n
  {
    if n == 0 then Some([])
    else
      match (EncodeItems(f, items, n - 1, tagged), if tagged then EncodeTagged(f, items[n - 1]) else EncodeVal(f, items[n - 1]))
      case (Some(a), Some(b)) => Some(a + b)
      case _ => None
  }

  function EncodeArray(f: Field, items: seq<Val>, count: nat): Option<seq<byte>>
    requires |items| == f.arraySize && forall k :: 0 <= k < |items| ==> ValOk(f, items[k])
    decreases f, 3
  {
    if count == 0 then Some([])
    else if count > f.arraySize then None
    else if Packable(f.ltype) then
      match EncodeItems(f, items, count, false) {
        case None => None
        case Some(body) => Some(EncodeTag(2, f.tag) + EncodeString(body))
      }
    else EncodeItems(f, items, count, true)
  }

  /** `pb_check_proto3_default_value`: whether a proto3 encoder leaves the field out. */
  predicate IsDefault(f: Field, s: Slot)
    requires SlotOk(f, s)
    decreases f, 1
  {
    match f.htype
    case Required => false
    // Without a count the first data bytes would be taken for one; descriptors rule that out.
    case Repeated => s.Rep? && s.count == 0
    case Oneof => s.which == 0
    case Optional => if f.sizeOffset != 0 then !s.has else IsZero(f, s.v)
  }

  predicate IsZero(f: Field, v: Val)
    requires ValOk(f, v)
    decreases f, 0
  {
    match f.ltype
    case BytesT => |v.data| == 0
    case StringT => |v.data| == 0
    case FixedBytesT => f.dataSize == 0
    case SubmessageT(sub) => AllDefault(sub, v.slots)
    case _ => v.n == 0
  }

  predicate AllDefault(fields: seq<Field>, slots: seq<Slot>)
    requires SlotsOk(fields, slots)
    decreases fields, 0
  {
    forall i :: 0 <= i < |fields| ==> IsDefault(fields[i], SlotAt(fields, slots, i))
  }

  /** How many entries of an array the encoder takes. */
  function Entries(f: Field, s: Slot): nat
    requires SlotOk(f, s) && f.htype.Repeated?
  {
    if f.sizeOffset != 0 then s.count else f.arraySize
  }

  function EncodeField(f: Field, s: Slot): Option<seq<byte>>
    requires SlotOk(f, s)
    decreases f, 4
  {
    match f.htype
    case Required => EncodeTagged(f, s.v)
    case Optional =>
      if (if f.sizeOffset != 0 then s.has else !IsZero(f, s.v)) then EncodeTagged(f, s.v) else Some([])
    case Repeated => EncodeArray(f, s.items, Entries(f, s))
    case Oneof => if s.which == f.tag then EncodeTagged(f, s.v) else Some([])
  }

  /** The first n fields of a struct. */
  function EncodeFields(fields: seq<Field>, slots: seq<Slot>, n: nat): Option<seq<byte>>
    requires n <= |fields| && SlotsOk(fields, slots)
    decreases fields, 5, n
  {
    if n == 0 then Some([])
    else
      match (EncodeFields(fields, slots, n - 1), EncodeField(fields[n - 1], SlotAt(fields, slots, n - 1)))
      case (Some(a), Some(b)) => Some(a + b)
      case _ => None
  }

  function Encode(fields: seq<Field>, slots: seq<Slot>): Option<seq<byte>>
    requires SlotsOk(fields, slots)
  {
    EncodeFields(fields, slots, |fields|)
  }

  // ---- Decoding.

  datatype DecodeError = Malformed | WrongFixedCount | MissingRequired

  /** The bytes up to the first NUL: how C reads back what was stored in a char array. */
  function CString(s: seq<byte>): (r: seq<byte>)
    ensures |r| <= |s| && 0 !in r
    ensures 0 !in s ==> r == s
  {
    if s == [] || s[0] == 0 then [] else [s[0]] + CString(s[1..])
  }

  /** A length prefix and the bytes it announces, split from what follows. */
  function DecodeDelimited(s: seq<byte>): (r: Option<(seq<byte>, seq<byte>)>)
    ensures r.Some? ==> |r.value.0| + |r.value.1| < |s|
  {
    match Decode32(s)
    case None => None
    case Some((len, rest)) => if |rest| < len then None else Some((rest[..len], rest[len..]))
  }

  function DecodeNum(f: Field, s: seq<byte>): (r: Option<(int, seq<byte>)>)
    requires Packable(f.ltype)
    ensures r.Some? ==> |r.value.1| < |s| && InRange(f.ltype, f.dataSize, r.value.0)
  {
    match f.ltype
    case Fixed32T => if |s| < 4 then None else FixedValueBound(s[..4]); Some((FixedValue(s[..4]), s[4..]))
    case Fixed64T => if |s| < 8 then None else FixedValueBound(s[..8]); Some((FixedValue(s[..8]), s[8..]))
    case _ =>
      match Decode64(s) {
        case None => None
        case Some((v, rest)) =>
          var n := if f.ltype.UVarintT? then v
                   else if f.ltype.SVarintT? then UnZigZag(v)
                   else if f.dataSize == 8 then ToSigned64(v) else ToSigned32(v);
          if IsIntSize(f.dataSize) && InRange(f.ltype, f.dataSize, n) then Some((n, rest)) else None
      }
  }

  lemma FixedValueBelow(s: seq<byte>)
    ensures FixedValue(s) < Pow2(8 * |s|)
  {
    if s != [] {
      FixedValueBelow(s[1..]);
      Pow2Add(8, 8 * |s[1..]|);
      assert Pow2(8) == 256 by { Pow2Values(); assert Pow2(8) == 2 * Pow2(7); }
    }
  }

  lemma FixedValueBound(s: seq<byte>)
    ensures |s| == 4 ==> FixedValue(s) < 0x1_0000_0000
    ensures |s| == 8 ==> FixedValue(s) < 0x1_0000_0000_0000_0000
  {
    FixedValueBelow(s);
    Pow2Values();
  }

  /** `wire_type` and tag, the end of a zero-terminated message, or an error. */
  datatype TagResult = Tag(wireType: nat, tag: nat, rest: seq<byte>) | Terminator(rest: seq<byte>) | BadTag

  function DecodeTag(s: seq<byte>): (r: TagResult)
    ensures r.Tag? ==> |r.rest| < |s| && r.wireType < 8
    ensures r.Terminator? ==> |r.rest| < |s|
  {
    match Decode32(s)
    case None => BadTag
    case Some((v, rest)) => if v == 0 then Terminator(rest) else Tag(v % 8, v / 8, rest)
  }

  /** The bytes after a field nobody knows. */
  function SkipField(wireType: nat, s: seq<byte>): (r: Option<seq<byte>>)
    ensures r.Some? ==> |r.value| <= |s|
  {
    match wireType
    case 0 => (match RawVarint(s) case None => None case Some((_, n)) => Some(s[n..]))
    case 1 => if |s| < 8 then None else Some(s[8..])
    case 2 => (match DecodeDelimited(s) case None => None case Some((_, rest)) => Some(rest))
    case 5 => if |s| < 4 then None else Some(s[4..])
    case _ => None
  }

  /**
   * The state of `pb_decode_noinit`: the struct, the fixed-count field now being received with the
   * number of its entries so far, and which of the first 64 required fields have occurred.
   */
  datatype State = State(slots: seq<Slot>, fixedField: Option<nat>, fixedCount: nat, seen: set<nat>)

  datatype Outcome =
    | Running(st: State)
    | Stopped(st: State, rest: seq<byte>)  // after a zero tag
    | Failed(error: DecodeError)

  ghost predicate StateOk(fields: seq<Field>, st: State) {
    && SlotsOk(fields, st.slots)
    && (st.fixedField.Some? ==> st.fixedField.value < |fields| && IsFixedCount(fields[st.fixedField.value]))
  }

  function DecodeVal(f: Field, prior: Val, s: seq<byte>): (r: Result<(Val, seq<byte>), DecodeError>)
    requires ValidField(f) && ValOk(f, prior)
    ensures r.Ok? ==> ValOk(f, r.value.0) && |r.value.1| < |s|
    decreases |s|, 0
  {
    if Packable(f.ltype) then
      match DecodeNum(f, s) {
        case None => Fail(Malformed)
        case Some((n, rest)) => Ok((Num(n), rest))
      }
    else if f.ltype.FixedBytesT? && Decode32(s).Some? && Decode32(s).value.0 == 0 then
      Ok((Blob(Zeros(f.dataSize)), Decode32(s).value.1))
    else
      match DecodeDelimited(s) {
        case None => Fail(Malformed)
        case Some((body, rest)) =>
          match f.ltype
          case BytesT =>
            if |body| + BYTES_OFFSET > f.dataSize then Fail(Malformed) else Ok((Blob(body), rest))
          case StringT =>
            if |body| + 1 > f.dataSize then Fail(Malformed) else Ok((Blob(CString(body)), rest))
          case SubmessageT(sub) =>
            var start := if f.htype.Repeated? then SetDefaults(sub, prior.slots, |sub|) else prior.slots;
            (match DecodeNoInit(sub, start, body) {
               case Fail(e) => Fail(e)
               case Ok((slots, _)) => Ok((Msg(slots), rest))
             })
          case _ =>
            if |body| != f.dataSize then Fail(Malformed) else Ok((Blob(body), rest))
      }
  }

  /** The entries of a packed array, stored from index `count` on. */
  function DecodePacked(f: Field, items: seq<Val>, count: nat, s: seq<byte>): (r: Option<(seq<Val>, nat)>)
    requires ValidField(f) && Packable(f.ltype)
    requires |items| == f.arraySize && forall k :: 0 <= k < |items| ==> ValOk(f, items[k])
    ensures r.Some? ==> |r.value.0| == f.arraySize && forall k :: 0 <= k < f.arraySize ==> ValOk(f, r.value.0[k])
    decreases |s|
  {
    if s == [] then Some((items, count))
    else if count >= f.arraySize then None
    else
      match DecodeNum(f, s)
      case None => None
      case Some((n, rest)) => DecodePacked(f, items[count := Num(n)], count + 1, rest)
  }

  /** One occurrence of a field; `count` is where the next entry of a fixed-count array goes. */
  function DecodeSlot(f: Field, slot: Slot, count: nat, wireType: nat, s: seq<byte>)
    : (r: Result<(Slot, nat, seq<byte>), DecodeError>)
    requires ValidField(f) && SlotOk(f, slot)
    ensures r.Ok? ==> SlotOk(f, r.value.0) && |r.value.2| < |s|
    ensures r.Ok? && f.htype.Oneof? ==> r.value.0.which == f.tag
    decreases |s|, 2
  {
    match slot
    case One(v) => (match DecodeVal(f, v, s) case Fail(e) => Fail(e) case Ok((w, rest)) => Ok((One(w), count, rest)))
    case Opt(_, v) => (match DecodeVal(f, v, s) case Fail(e) => Fail(e) case Ok((w, rest)) => Ok((Opt(true, w), count, rest)))
    case Rep(c, items) =>
      (match DecodeItems(f, items, c, wireType, s)
       case Fail(e) => Fail(e)
       case Ok((items', c', rest)) => Ok((Rep(c', items'), count, rest)))
    case Fix(items) =>
      (match DecodeItems(f, items, count, wireType, s)
       case Fail(e) => Fail(e)
       case Ok((items', c', rest)) => Ok((Fix(items'), c', rest)))
    case Union(which, v) =>
      var prior := UnionStart(f, which, v);
      (match DecodeVal(f, prior, s) case Fail(e) => Fail(e) case Ok((w, rest)) => Ok((Union(f.tag, w), count, rest)))
  }

  /** A submessage in a oneof is zeroed and set to defaults; anything else is overwritten whole. */
  function UnionStart(f: Field, which: nat, v: Val): (prior: Val)
    requires ValidField(f) && (which == f.tag ==> ValOk(f, v))
    ensures ValOk(f, prior)
  {
    ZeroValOk(f);
    if f.ltype.SubmessageT? then Msg(SetDefaults(f.ltype.fields, ZeroVal(f).slots, |f.ltype.fields|))
    else ZeroVal(f)
  }

  function DecodeItems(f: Field, items: seq<Val>, count: nat, wireType: nat, s: seq<byte>)
    : (r: Result<(seq<Val>, nat, seq<byte>), DecodeError>)
    requires ValidField(f)
    requires |items| == f.arraySize && forall k :: 0 <= k < |items| ==> ValOk(f, items[k])
    ensures r.Ok? ==> |r.value.0| == f.arraySize && forall k :: 0 <= k < f.arraySize ==> ValOk(f, r.value.0[k])
    ensures r.Ok? ==> |r.value.2| < |s|
    decreases |s|, 1
  {
    if wireType == 2 && Packable(f.ltype) then
      match DecodeDelimited(s) {
        case None => Fail(Malformed)
        case Some((body, rest)) =>
          match DecodePacked(f, items, count, body)
          case None => Fail(Malformed)
          case Some((items', count')) => Ok((items', count', rest))
      }
    else if count >= f.arraySize then Fail(Malformed)
    else
      match DecodeVal(f, items[count], s)
      case Fail(e) => Fail(e)
      case Ok((v, rest)) => Ok((items[count := v], count + 1, rest))
  }

  /** The bookkeeping before field i is read: which fixed-count array is being received. */
  function EnterField(fields: seq<Field>, st: State, i: nat): (r: Result<State, DecodeError>)
    requires i < |fields| && StateOk(fields, st)
    ensures r.Ok? ==> StateOk(fields, r.value) && r.value.slots == st.slots
  {
    var seen := if fields[i].htype.Required? && RequiredBefore(fields, i) < MAX_REQUIRED
                then st.seen + {RequiredBefore(fields, i)} else st.seen;
    if IsFixedCount(fields[i]) && st.fixedField != Some(i) then
      if FixedIncomplete(fields, st) then Fail(WrongFixedCount)
      else Ok(st.(fixedField := Some(i), fixedCount := 0, seen := seen))
    else Ok(st.(seen := seen))
  }

  predicate FixedIncomplete(fields: seq<Field>, st: State)
    requires st.fixedField.Some? ==> st.fixedField.value < |fields|
  {
    st.fixedField.Some? && st.fixedCount != fields[st.fixedField.value].arraySize
  }

  /** A which-tag that names no field is an error once the union is written to. */
  predicate BadUnion(fields: seq<Field>, f: Field, slot: Slot) {
    slot.Union? && slot.which != 0 && slot.which != f.tag && FindField(fields, slot.which).None?
  }

  function DecodeFieldAt(fields: seq<Field>, st: State, i: nat, wireType: nat, s: seq<byte>)
    : (r: Result<(State, seq<byte>), DecodeError>)
    requires ValidFields(fields) && StateOk(fields, st) && i < |fields|
    ensures r.Ok? ==> StateOk(fields, r.value.0) && |r.value.1| < |s|
    decreases |s|, 3
  {
    var k := SlotOf(fields, i);
    match EnterField(fields, st, i)
    case Fail(e) => Fail(e)
    case Ok(st1) =>
      if BadUnion(fields, fields[i], SlotAt(fields, st1.slots, i)) then Fail(Malformed)
      else
        match DecodeSlot(FieldAt(fields, i), SlotAt(fields, st1.slots, i), st1.fixedCount, wireType, s)
        case Fail(e) => Fail(e)
        case Ok((slot, count, rest)) =>
          StoreKeepsSlotsOk(fields, st1.slots, i, slot);
          Ok((st1.(slots := st1.slots[k := slot], fixedCount := count), rest))
  }

  /** The loop of `pb_decode_noinit` over all of `s`. */
  function Run(fields: seq<Field>, st: State, s: seq<byte>): (r: Outcome)
    requires ValidFields(fields) && StateOk(fields, st)
    ensures !r.Failed? ==> StateOk(fields, r.st)
    decreases |s|, 4
  {
    if s == [] then Running(st)
    else
      match DecodeTag(s)
      case BadTag => Failed(Malformed)
      case Terminator(rest) => Stopped(st, rest)
      case Tag(wireType, tag, rest) =>
        match FindField(fields, tag)
        case Some(i) =>
          (match DecodeFieldAt(fields, st, i, wireType, rest)
           case Fail(e) => Failed(e)
           case Ok((st1, rest1)) => Run(fields, st1, rest1))
        case None =>
          // In a message without fields the iterator stands on the terminator, whose tag is 0.
          if fields == [] && tag == 0 then Failed(Malformed)
          else
            match SkipField(wireType, rest)
            case None => Failed(Malformed)
            case Some(rest1) => Run(fields, st, rest1)
  }

  predicate MissingRequiredField(fields: seq<Field>, seen: set<nat>) {
    exists k :: 0 <= k < RequiredBefore(fields, |fields|) && k < MAX_REQUIRED && k !in seen
  }

  /** The checks after the loop. */
  function Finish(fields: seq<Field>, st: State): Result<seq<Slot>, DecodeError>
    requires st.fixedField.Some? ==> st.fixedField.value < |fields|
  {
    if FixedIncomplete(fields, st) then Fail(WrongFixedCount)
    else if MissingRequiredField(fields, st.seen) then Fail(MissingRequired)
    else Ok(st.slots)
  }

  function Initial(slots: seq<Slot>): State {
    State(slots, None, 0, {})
  }

  /** The struct after decoding into it, and the bytes left behind a zero tag. */
  function DecodeNoInit(fields: seq<Field>, slots: seq<Slot>, s: seq<byte>)
    : (r: Result<(seq<Slot>, seq<byte>), DecodeError>)
    requires ValidFields(fields) && SlotsOk(fields, slots)
    ensures r.Ok? ==> SlotsOk(fields, r.value.0)
    decreases |s|, 5
  {
    match Run(fields, Initial(slots), s)
    case Failed(e) => Fail(e)
    case Running(st) => (match Finish(fields, st) case Fail(e) => Fail(e) case Ok(r) => Ok((r, [])))
    case Stopped(st, rest) => (match Finish(fields, st) case Fail(e) => Fail(e) case Ok(r) => Ok((r, rest)))
  }

  function Decode(fields: seq<Field>, dest: seq<Slot>, s: seq<byte>)
    : (r: Result<(seq<Slot>, seq<byte>), DecodeError>)
    requires ValidFields(fields) && SlotsOk(fields, dest)
    ensures r.Ok? ==> SlotsOk(fields, r.value.0)
  {
    DecodeNoInit(fields, SetDefaults(fields, dest, |fields|), s)
  }
}
