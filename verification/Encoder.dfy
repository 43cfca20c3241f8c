/** The encoder of nanopb: a sizing pass and a writing pass over the same struct. */
module Encoder {
  import opened Wrappers
  import opened Bits
  import opened Descriptors
  import opened WireFormat
  import opened Streams
  import opened FieldIterator
  import opened WireBytes

  /** `size_t` can hold the length. */
  predicate IsSize(r: Option<seq<byte>>) {
    r.Some? ==> |r.value| < 0x1_0000_0000_0000_0000
  }

  /** No length inside the struct overflows `size_t`. */
  predicate SizesFit(fields: seq<Field>, slots: seq<Slot>)
    requires SlotsOk(fields, slots)
    decreases fields, 0
  {
    forall i :: 0 <= i < |fields| ==> SlotSizesFit(fields[i], SlotAt(fields, slots, i))
  }

  predicate SlotSizesFit(f: Field, s: Slot)
    requires SlotOk(f, s)
    decreases f, 1
  {
    match f.htype
    case Repeated =>
      && (Entries(f, s) <= f.arraySize ==> IsSize(EncodeItems(f, s.items, Entries(f, s), false)))
      && forall k :: 0 <= k < |s.items| ==> ValSizesFit(f, s.items[k])
    case Oneof => s.which == f.tag ==> ValSizesFit(f, s.v)
    case _ => ValSizesFit(f, s.v)
  }

  predicate ValSizesFit(f: Field, v: Val)
    requires ValOk(f, v)
    decreases f, 0
  {
    match f.ltype
    case SubmessageT(sub) => SizesFit(sub, v.slots) && IsSize(Encode(sub, v.slots))
    case BytesT => |v.data| <= SIZE_MAX
    case _ => true
  }

  /**
   * What every encoding step does to its stream: it succeeds exactly when the value can be encoded
   * and the bytes fit; then it has appended them; and it never takes back what was written.
   */
  ghost predicate Emitted(s: OStream, before: seq<byte>, encoding: Option<seq<byte>>, ok: bool)
    reads s, s.buf
  {
    && s.Valid() && before <= s.out
    && (ok <==> encoding.Some? && (s.buf == null || |before| + |encoding.value| <= s.maxSize))
    && (ok ==> s.out == before + encoding.value)
  }

  /** No byte before the position of the stream or past its limit changes. */
  twostate predicate WritesForward(s: OStream)
    reads s, s.buf
  {
    s.buf != null ==>
      forall k :: 0 <= k < s.buf.Length && (k < old(s.state) || s.start + s.maxSize <= k) ==> s.buf[k] == old(s.buf[k])
  }

  /** `pb_encode_tag` */
  method PutTag(s: OStream, wireType: nat, tag: nat) returns (ok: bool)
    requires s.Valid() && wireType < 8 && tag < 0x2000_0000
    modifies s, s.buf
    ensures Emitted(s, old(s.out), Some(EncodeTag(wireType, tag)), ok)
    ensures WritesForward(s)
  {
    ok := s.EncodeVarint(8 * tag + wireType);
  }

  /** `pb_encode_string` */
  method PutString(s: OStream, data: seq<byte>) returns (ok: bool)
    requires s.Valid() && |data| <= SIZE_MAX
    modifies s, s.buf
    ensures Emitted(s, old(s.out), Some(EncodeString(data)), ok)
    ensures WritesForward(s)
  {
    ok := s.EncodeVarint(|data|);
    if ok {
      ok := s.Write(data);
    }
  }

  lemma FixedBytesOf(v: nat)
    ensures FixedBytes(v, 4) == [v % 256, v / 256 % 256, v / 256 / 256 % 256, v / 256 / 256 / 256 % 256]
  {
    var a, b, c := v / 256, v / 256 / 256, v / 256 / 256 / 256;
    assert FixedBytes(c, 1) == [c % 256] + FixedBytes(c / 256, 0);
    assert FixedBytes(b, 2) == [b % 256] + FixedBytes(c, 1);
    assert FixedBytes(a, 3) == [a % 256] + FixedBytes(b, 2);
  }

  lemma FixedBytesStep(v: nat, n: nat)
    ensures FixedBytes(v, n + 1) == [v % 256] + FixedBytes(v / 256, n)
  {}

  lemma FixedBytesHalves(v: nat)
    ensures FixedBytes(v, 8) == FixedBytes(v, 4) + FixedBytes(v / 256 / 256 / 256 / 256, 4)
  {
    hide FixedBytes;
    FixedBytesOf(v);
    FixedBytesStep(v, 7);
    FixedBytesStep(v / 256, 6);
    FixedBytesStep(v / 256 / 256, 5);
    FixedBytesStep(v / 256 / 256 / 256, 4);
  }

  /** The encoder of one value, by the kind of its field. */
  method PutVal(s: OStream, f: Field, v: Val) returns (ok: bool)
    requires s.Valid() && ValidField(f) && ValOk(f, v) && ValSizesFit(f, v)
    modifies s, s.buf
    ensures Emitted(s, old(s.out), EncodeVal(f, v), ok)
    ensures WritesForward(s)
    decreases f, 0
  {
    match f.ltype {
      case VarintT =>
        if !IsIntSize(f.dataSize) { return false; }
        ok := s.EncodeVarint(ToUnsigned64(v.n));
      case UVarintT =>
        if !IsIntSize(f.dataSize) { return false; }
        ok := s.EncodeVarint(v.n);
      case SVarintT =>
        if !IsIntSize(f.dataSize) { return false; }
        ok := s.EncodeVarint(ZigZag(v.n));
      case Fixed32T =>
        FixedBytesOf(v.n);
        ok := s.Write([v.n % 256, v.n / 256 % 256, v.n / 256 / 256 % 256, v.n / 256 / 256 / 256 % 256]);
      case Fixed64T =>
        var high := v.n / 256 / 256 / 256 / 256;
        FixedBytesOf(v.n);
        FixedBytesOf(high);
        FixedBytesHalves(v.n);
        ok := s.Write([v.n % 256, v.n / 256 % 256, v.n / 256 / 256 % 256, v.n / 256 / 256 / 256 % 256,
                       high % 256, high / 256 % 256, high / 256 / 256 % 256, high / 256 / 256 / 256 % 256]);
      case BytesT =>
        if |v.data| + BYTES_OFFSET > f.dataSize { return false; }
        ok := PutString(s, v.data);
      case StringT =>
        ok := PutString(s, v.data);
      case FixedBytesT =>
        ok := PutString(s, v.data);
      case SubmessageT(sub) =>
        var changed;
        ok, changed := PutSubmessage(s, sub, v.slots);
    }
  }

  /**
   * `pb_encode_submessage`: the length from a sizing pass, then the message through a substream limited
   * to it. "submsg size changed" is never reported.
   */
  method PutSubmessage(s: OStream, fields: seq<Field>, slots: seq<Slot>) returns (ok: bool, sizeChanged: bool)
    requires s.Valid() && ValidFields(fields) && SlotsOk(fields, slots)
    requires SizesFit(fields, slots) && IsSize(Encode(fields, slots))
    modifies s, s.buf
    ensures !sizeChanged
    ensures Emitted(s, old(s.out), match Encode(fields, slots) case None => None case Some(b) => Some(EncodeString(b)), ok)
    ensures WritesForward(s)
    decreases fields, 5
  {
    sizeChanged := false;
    var sizing := new OStream.Sizing();
    ok := PutMessage(sizing, fields, slots);
    if !ok {
      return;
    }
    var size := sizing.bytesWritten;
    ok := s.EncodeVarint(size);
    if !ok {
      return;
    }
    if s.buf == null {
      s.Count(size, Encode(fields, slots).value);
      return;
    }
    if s.bytesWritten + size > s.maxSize {
      return false, false;
    }
    ok, sizeChanged := PutThroughSubstream(s, fields, slots, size);
  }

  /** The second pass: a substream limited to the size the first pass found. */
  method PutThroughSubstream(s: OStream, fields: seq<Field>, slots: seq<Slot>, size: nat)
    returns (ok: bool, sizeChanged: bool)
    requires s.Valid() && ValidFields(fields) && SlotsOk(fields, slots) && SizesFit(fields, slots)
    requires s.buf != null && s.bytesWritten + size <= s.maxSize
    requires Encode(fields, slots).Some? && |Encode(fields, slots).value| == size
    modifies s, s.buf
    ensures ok && !sizeChanged && s.Valid() && s.out == old(s.out) + Encode(fields, slots).value
    ensures WritesForward(s)
    decreases fields, 4
  {
    var substream := new OStream.OnBuffer(s.buf, s.state, size);
    var status := PutMessage(substream, fields, slots);
    assert s.buf[s.start..s.state] == s.out;
    s.bytesWritten := s.bytesWritten + substream.bytesWritten;
    s.state := substream.state;
    s.out := s.out + substream.out;
    assert s.buf[s.start..s.state] == s.out;
    sizeChanged := substream.bytesWritten != size;
    ok := status && !sizeChanged;
  }

  /** `pb_encode` */
  method PutMessage(s: OStream, fields: seq<Field>, slots: seq<Slot>) returns (ok: bool)
    requires s.Valid() && ValidFields(fields) && SlotsOk(fields, slots) && SizesFit(fields, slots)
    modifies s, s.buf
    ensures Emitted(s, old(s.out), Encode(fields, slots), ok)
    ensures WritesForward(s)
    decreases fields, 3
  {
    var iter := new FieldIter(fields, 0);
    if |fields| == 0 {
      return true;
    }
    ghost var before := s.out;
    var more := true;
    while more
      invariant iter.Valid() && iter.fields == fields && fresh(iter)
      invariant Emitted(s, before, EncodeFields(fields, slots, if more then iter.pos else |fields|), true)
      invariant WritesForward(s)
      decreases more, |fields| - iter.pos
    {
      ok := PutNextField(s, fields, slots, iter.pos, before);
      if !ok {
        EncodePrefix(fields, slots, iter.pos + 1, |fields|);
        return;
      }
      more := iter.Next();
    }
    ok := true;
  }

  /** One round of the loop: field i after the fields before it. */
  method PutNextField(s: OStream, fields: seq<Field>, slots: seq<Slot>, i: nat, ghost before: seq<byte>)
    returns (ok: bool)
    requires s.Valid() && ValidFields(fields) && SlotsOk(fields, slots) && SizesFit(fields, slots) && i < |fields|
    requires Emitted(s, before, EncodeFields(fields, slots, i), true)
    modifies s, s.buf
    ensures Emitted(s, before, EncodeFields(fields, slots, i + 1), ok)
    ensures WritesForward(s)
    decreases fields, 2
  {
    ok := PutField(s, FieldAt(fields, i), SlotAt(fields, slots, i));
  }

  /** The encoding of the first fields is a prefix of the whole encoding. */
  lemma EncodePrefix(fields: seq<Field>, slots: seq<Slot>, m: nat, n: nat)
    requires m <= n <= |fields| && SlotsOk(fields, slots)
    ensures EncodeFields(fields, slots, m).None? ==> EncodeFields(fields, slots, n).None?
    ensures EncodeFields(fields, slots, n).Some? ==>
      && EncodeFields(fields, slots, m).Some?
      && |EncodeFields(fields, slots, m).value| <= |EncodeFields(fields, slots, n).value|
  {
    if m < n {
      EncodePrefix(fields, slots, m, n - 1);
    }
  }

  /** Tag and value of one occurrence, under wire type 0, 1, 5 or 2 by the kind of the field. */
  method PutTagged(s: OStream, f: Field, v: Val) returns (ok: bool)
    requires s.Valid() && ValidField(f) && ValOk(f, v) && ValSizesFit(f, v)
    modifies s, s.buf
    ensures Emitted(s, old(s.out), EncodeTagged(f, v), ok)
    ensures ok ==>
              var wireType := if f.ltype.VarintT? || f.ltype.UVarintT? || f.ltype.SVarintT? then 0
                              else if f.ltype.Fixed64T? then 1
                              else if f.ltype.Fixed32T? then 5
                              else 2;
              && EncodeVal(f, v).Some?
              && DecodeTag(s.out[|old(s.out)|..]) == Tag(wireType, f.tag, EncodeVal(f, v).value)
    ensures WritesForward(s)
    decreases f, 1
  {
    hide EncodeTag, EncodeVal, ValOk;
    ghost var before, tag := s.out, EncodeTag(WireType(f.ltype), f.tag);
    ok := PutTag(s, WireType(f.ltype), f.tag);
    if ok {
      ok := PutVal(s, f, v);
      if EncodeVal(f, v).Some? {
        ghost var b := EncodeVal(f, v).value;
        assert before + tag + b == before + (tag + b);
        if ok {
          TaggedReads(f, v, []);
          assert s.out[|before|..] == tag + b == tag + b + [] && b + [] == b;
        }
      }
    }
  }

  /** `encode_basic_field` */
  method PutField(s: OStream, f: Field, slot: Slot) returns (ok: bool)
    requires s.Valid() && ValidField(f) && SlotOk(f, slot) && SlotSizesFit(f, slot)
    modifies s, s.buf
    ensures Emitted(s, old(s.out), EncodeField(f, slot), ok)
    ensures WritesForward(s)
    decreases f, 7
  {
    match f.htype {
      case Required =>
        ok := PutTagged(s, f, slot.v);
      case Optional =>
        var present;
        if f.sizeOffset != 0 {
          present := slot.has;
        } else {
          var zero := CheckZero(f, slot.v);
          present := !zero;
        }
        if present {
          ok := PutTagged(s, f, slot.v);
        } else {
          ok := true;
        }
      case Repeated =>
        ok := PutArray(s, f, slot.items, if f.sizeOffset != 0 then slot.count else f.arraySize);
      case Oneof =>
        if slot.which == f.tag {
          ok := PutTagged(s, f, slot.v);
        } else {
          ok := true;
        }
    }
  }

  /** `encode_array` */
  method PutArray(s: OStream, f: Field, items: seq<Val>, count: nat) returns (ok: bool)
    requires s.Valid() && ValidField(f)
    requires |items| == f.arraySize && forall k :: 0 <= k < |items| ==> ValOk(f, items[k]) && ValSizesFit(f, items[k])
    requires count <= f.arraySize ==> IsSize(EncodeItems(f, items, count, false))
    modifies s, s.buf
    ensures Emitted(s, old(s.out), EncodeArray(f, items, count), ok)
    ensures WritesForward(s)
    decreases f, 6
  {
    if count == 0 {
      return true;
    }
    if count > f.arraySize {
      return false;
    }
    if !Packable(f.ltype) {
      ok := PutItems(s, f, items, count, true);
      return;
    }
    ok := PutTag(s, 2, f.tag);
    if ok {
      ok := PutPacked(s, f, items, count);
    }
  }

  /** The length and the entries of a packed array. */
  method PutPacked(s: OStream, f: Field, items: seq<Val>, count: nat) returns (ok: bool)
    requires s.Valid() && ValidField(f) && Packable(f.ltype) && count <= |items|
    requires forall k :: 0 <= k < |items| ==> ValOk(f, items[k]) && ValSizesFit(f, items[k])
    requires IsSize(EncodeItems(f, items, count, false))
    modifies s, s.buf
    ensures Emitted(s, old(s.out),
      match EncodeItems(f, items, count, false) case None => None case Some(b) => Some(EncodeString(b)), ok)
    ensures WritesForward(s)
    decreases f, 5
  {
    var size := PackedSize(f, items, count);
    if size.None? {
      return false;
    }
    ok := s.EncodeVarint(size.value);
    if !ok {
      return;
    }
    if s.buf == null {
      s.Count(size.value, EncodeItems(f, items, count, false).value);
    } else {
      ok := PutItems(s, f, items, count, false);
    }
  }

  /** The total size of a packed array: computed for fixed-width entries, else found by a sizing pass. */
  method PackedSize(f: Field, items: seq<Val>, count: nat) returns (size: Option<nat>)
    requires ValidField(f) && Packable(f.ltype) && count <= |items|
    requires forall k :: 0 <= k < |items| ==> ValOk(f, items[k]) && ValSizesFit(f, items[k])
    ensures size == match EncodeItems(f, items, count, false) case None => None case Some(b) => Some(|b|)
    decreases f, 4
  {
    if f.ltype.Fixed32T? {
      size := Some(4 * count);
      FixedItemsLength(f, items, count);
    } else if f.ltype.Fixed64T? {
      size := Some(8 * count);
      FixedItemsLength(f, items, count);
    } else {
      var sizing := new OStream.Sizing();
      var ok := PutItems(sizing, f, items, count, false);
      size := if ok then Some(sizing.bytesWritten) else None;
    }
  }

  lemma {:induction false} FixedItemsLength(f: Field, items: seq<Val>, n: nat)
    requires n <= |items| && forall k :: 0 <= k < |items| ==> ValOk(f, items[k])
    requires f.ltype.Fixed32T? || f.ltype.Fixed64T?
    ensures var r := EncodeItems(f, items, n, false);
      r.Some? && |r.value| == (if f.ltype.Fixed32T? then 4 * n else 8 * n)
  {
    if n > 0 {
      FixedItemsLength(f, items, n - 1);
    }
  }

  /** The entries of an array one after the other, each with its tag or without. */
  method PutItems(s: OStream, f: Field, items: seq<Val>, count: nat, tagged: bool) returns (ok: bool)
    requires s.Valid() && ValidField(f) && count <= |items| && (tagged || Packable(f.ltype))
    requires forall k :: 0 <= k < |items| ==> ValOk(f, items[k]) && ValSizesFit(f, items[k])
    modifies s, s.buf
    ensures Emitted(s, old(s.out), EncodeItems(f, items, count, tagged), ok)
    ensures WritesForward(s)
    decreases f, 3
  {
    ghost var before := s.out;
    for i := 0 to count
      invariant Emitted(s, before, EncodeItems(f, items, i, tagged), true)
      invariant WritesForward(s)
    {
      ok := PutNextItem(s, f, items, i, tagged, before);
      if !ok {
        ItemsPrefix(f, items, i + 1, count, tagged);
        return;
      }
    }
    ok := true;
  }

  /** One round of the loop: entry i after the entries before it. */
  method PutNextItem(s: OStream, f: Field, items: seq<Val>, i: nat, tagged: bool, ghost before: seq<byte>)
    returns (ok: bool)
    requires s.Valid() && ValidField(f) && i < |items| && (tagged || Packable(f.ltype))
    requires forall k :: 0 <= k < |items| ==> ValOk(f, items[k]) && ValSizesFit(f, items[k])
    requires Emitted(s, before, EncodeItems(f, items, i, tagged), true)
    modifies s, s.buf
    ensures Emitted(s, before, EncodeItems(f, items, i + 1, tagged), ok)
    ensures WritesForward(s)
    decreases f, 2
  {
    hide DecodeTag, EncodeTagged, EncodeVal;
    if tagged {
      ok := PutTagged(s, f, items[i]);
    } else {
      ok := PutVal(s, f, items[i]);
    }
  }

  lemma ItemsPrefix(f: Field, items: seq<Val>, m: nat, n: nat, tagged: bool)
    requires m <= n <= |items| && forall k :: 0 <= k < |items| ==> ValOk(f, items[k])
    ensures EncodeItems(f, items, m, tagged).None? ==> EncodeItems(f, items, n, tagged).None?
    ensures EncodeItems(f, items, n, tagged).Some? ==>
      && EncodeItems(f, items, m, tagged).Some?
      && |EncodeItems(f, items, m, tagged).value| <= |EncodeItems(f, items, n, tagged).value|
  {
    if m < n {
      ItemsPrefix(f, items, m, n - 1, tagged);
    }
  }

  // ---- Proto3 default values.

  /** `pb_check_proto3_default_value` on a field of a submessage. */
  method CheckDefault(f: Field, s: Slot) returns (isDefault: bool)
    requires ValidField(f) && SlotOk(f, s)
    ensures isDefault == IsDefault(f, s)
    decreases f, 1
  {
    match f.htype
    case Required => isDefault := false;
    case Repeated => isDefault := s.Rep? && s.count == 0;
    case Oneof => isDefault := s.which == 0;
    case Optional =>
      if f.sizeOffset != 0 {
        isDefault := !s.has;
      } else {
        isDefault := CheckZero(f, s.v);
      }
  }

  /** Its part for proto3 singular fields: every field of a submessage has to be default. */
  method CheckZero(f: Field, v: Val) returns (zero: bool)
    requires ValidField(f) && ValOk(f, v)
    ensures zero == IsZero(f, v)
    decreases f, 0
  {
    match f.ltype {
      case BytesT => return |v.data| == 0;
      case StringT => return |v.data| == 0;
      case FixedBytesT => return f.dataSize == 0;
      case SubmessageT(sub) =>
        var iter := new FieldIter(sub, 0);
        if |sub| == 0 {
          return true;
        }
        while true
          invariant iter.Valid() && iter.fields == sub && fresh(iter)
          invariant forall i :: 0 <= i < iter.pos ==> IsDefault(sub[i], SlotAt(sub, v.slots, i))
          decreases |sub| - iter.pos
        {
          ghost var here := iter.pos;
          var isDefault := CheckDefault(FieldAt(sub, iter.pos), SlotAt(sub, v.slots, iter.pos));
          if !isDefault {
            assert !IsDefault(sub[here], SlotAt(sub, v.slots, here));
            return false;
          }
          var more := iter.Next();
          if !more {
            return true;
          }
        }
      case _ => return v.n == 0;
    }
  }

  // ---- Entry points.

  /** `pb_get_encoded_size` */
  method GetEncodedSize(fields: seq<Field>, slots: seq<Slot>) returns (size: Option<nat>)
    requires ValidFields(fields) && SlotsOk(fields, slots) && SizesFit(fields, slots)
    ensures size == match Encode(fields, slots) case None => None case Some(b) => Some(|b|)
  {
    var sizing := new OStream.Sizing();
    var ok := PutMessage(sizing, fields, slots);
    if ok {
      size := Some(sizing.bytesWritten);
    } else {
      size := None;
    }
  }

  /**
   * Two passes agree: writing into a buffer succeeds exactly when its capacity is at least the size the
   * sizing pass found, and then writes exactly that many bytes; no byte past the capacity ever changes.
   */
  method EncodeToBuffer(b: array<byte>, capacity: nat, fields: seq<Field>, slots: seq<Slot>)
    returns (ok: bool, size: Option<nat>, written: nat)
    requires capacity <= b.Length
    requires ValidFields(fields) && SlotsOk(fields, slots) && SizesFit(fields, slots)
    modifies b
    ensures ok <==> size.Some? && size.value <= capacity
    ensures ok ==> written == size.value && Encode(fields, slots) == Some(b[..written])
    ensures written <= capacity && b[capacity..] == old(b[capacity..])
  {
    size := GetEncodedSize(fields, slots);
    var s := new OStream.OnBuffer(b, 0, capacity);
    ok := PutMessage(s, fields, slots);
    written := s.bytesWritten;
  }
}
