/** The decoder of nanopb: streams, substreams and the loop over the fields of a message. */
module Decoder {
  import opened Wrappers
  import opened Bits
  import opened Varints
  import opened Descriptors
  import opened WireFormat
  import opened Streams
  import opened FieldIterator
  import opened RequiredFieldSet

  /** A step that read what the wire format says, and left the stream after it. */
  ghost predicate Consumed<T>(s: IStream, spec: Result<(T, seq<byte>), DecodeError>, r: Result<T, DecodeError>)
    reads s, s.buf
  {
    && s.Valid()
    && match spec
       case Fail(e) => r == Fail(e)
       case Ok((v, rest)) => r == Ok(v) && s.Remaining() == rest
  }

  // ---- Substreams.

  /** `pb_make_string_substream`: a stream limited to the announced length; the rest stays behind it. */
  method MakeSubstream(s: IStream) returns (sub: Option<IStream>)
    requires s.Valid()
    modifies s
    ensures s.Valid() && sub.Some? == DecodeDelimited(old(s.Remaining())).Some?
    ensures sub.Some? ==>
      && fresh(sub.value) && sub.value.Valid() && sub.value.buf == s.buf
      && sub.value.End() + s.bytesLeft == old(s.End())
      && sub.value.Remaining() == DecodeDelimited(old(s.Remaining())).value.0
      && s.buf[sub.value.End()..old(s.End())] == DecodeDelimited(old(s.Remaining())).value.1
  {
    hide Decode32;
    var size := s.DecodeVarint32();
    if size.None? || s.bytesLeft < size.value {
      return None;
    }
    ghost var rest := s.Remaining();
    var substream := new IStream(s.buf, s.state, size.value);
    s.bytesLeft := s.bytesLeft - size.value;
    assert rest[..size.value] == substream.Remaining();
    assert rest[size.value..] == s.buf[substream.End()..old(s.End())];
    return Some(substream);
  }

  /** `pb_close_string_substream`: whatever the substream left is skipped. */
  method CloseSubstream(s: IStream, sub: IStream)
    requires sub.Valid() && sub.buf == s.buf && sub != s && sub.End() + s.bytesLeft <= s.buf.Length
    modifies s, sub
    ensures s.Valid() && s.bytesLeft == old(s.bytesLeft) && s.state == old(sub.End())
  {
    if sub.bytesLeft != 0 {
      var skipped := sub.Read(sub.bytesLeft);
    }
    s.state := sub.state;
  }

  // ---- Skipping.

  /** `pb_skip_field` */
  method Skip(s: IStream, wireType: nat) returns (ok: bool)
    requires s.Valid()
    modifies s
    ensures s.Valid() && ok == SkipField(wireType, old(s.Remaining())).Some?
    ensures ok ==> s.Remaining() == SkipField(wireType, old(s.Remaining())).value && s.End() == old(s.End())
  {
    match wireType {
      case 0 => ok := SkipVarint(s);
      case 1 => var data := s.Read(8); ok := data.Some?;
      case 2 =>
        var size := s.DecodeVarint32();
        if size.None? { return false; }
        var data := s.Read(size.value);
        ok := data.Some?;
      case 5 => var data := s.Read(4); ok := data.Some?;
      case _ => ok := false;
    }
  }

  /** `pb_skip_varint` */
  method SkipVarint(s: IStream) returns (ok: bool)
    requires s.Valid()
    modifies s
    ensures s.Valid() && ok == RawVarint(old(s.Remaining())).Some?
    ensures ok ==> s.Remaining() == old(s.Remaining())[RawVarint(old(s.Remaining())).value.1..] && s.End() == old(s.End())
  {
    ghost var whole := s.Remaining();
    ghost var i := 0;
    while true
      invariant s.Valid() && i <= |whole| && s.Remaining() == whole[i..] && s.End() == old(s.End())
      invariant RawVarint(whole).Some? <==> RawVarint(whole[i..]).Some?
      invariant RawVarint(whole).Some? ==> RawVarint(whole).value.1 == i + RawVarint(whole[i..]).value.1
      decreases |whole| - i
    {
      var b := s.ReadByte();
      if b.None? {
        return false;
      }
      assert whole[i..][1..] == whole[i + 1..];
      i := i + 1;
      if b.value < 128 {
        return true;
      }
    }
  }

  // ---- Values.

  /** The decoders of packable numbers. */
  method GetNum(s: IStream, f: Field) returns (r: Option<int>)
    requires s.Valid() && Packable(f.ltype)
    modifies s
    ensures s.Valid() && r.Some? == DecodeNum(f, old(s.Remaining())).Some?
    ensures r.Some? ==> (r.value, s.Remaining()) == DecodeNum(f, old(s.Remaining())).value && s.End() == old(s.End())
  {
    if f.ltype.Fixed32T? {
      var data := s.Read(4);
      r := if data.None? then None else Some(FixedValue(data.value));
    } else if f.ltype.Fixed64T? {
      var data := s.Read(8);
      r := if data.None? then None else Some(FixedValue(data.value));
    } else {
      var value := s.DecodeVarint();
      if value.None? {
        return None;
      }
      var n := if f.ltype.UVarintT? then value.value
               else if f.ltype.SVarintT? then UnZigZag(value.value)
               else if f.dataSize == 8 then ToSigned64(value.value) else ToSigned32(value.value);
      // The cast to the size of the field has to keep the value.
      r := if IsIntSize(f.dataSize) && InRange(f.ltype, f.dataSize, n) then Some(n) else None;
    }
  }

  /** The decoder of one value, by the kind of its field. */
  method GetVal(s: IStream, f: Field, prior: Val) returns (r: Result<Val, DecodeError>)
    requires s.Valid() && ValidField(f) && ValOk(f, prior)
    modifies s
    ensures Consumed(s, DecodeVal(f, prior, old(s.Remaining())), r)
    ensures r.Ok? ==> s.End() == old(s.End())
    decreases |s.Remaining()|, 1
  {
    if Packable(f.ltype) {
      var n := GetNum(s, f);
      return if n.None? then Fail(Malformed) else Ok(Num(n.value));
    }
    if f.ltype.SubmessageT? {
      r := GetSubmessage(s, f, prior);
      return;
    }
    r := GetBlob(s, f);
  }

  /** `pb_dec_bytes`, `pb_dec_string` and `pb_dec_fixed_length_bytes` */
  method GetBlob(s: IStream, f: Field) returns (r: Result<Val, DecodeError>)
    requires s.Valid() && ValidField(f) && !Packable(f.ltype) && !f.ltype.SubmessageT?
    modifies s
    ensures forall prior :: ValOk(f, prior) ==> Consumed(s, DecodeVal(f, prior, old(s.Remaining())), r)
    ensures s.End() == old(s.End())
  {
    ghost var whole := s.Remaining();
    var size := s.DecodeVarint32();
    if size.None? {
      return Fail(Malformed);
    }
    if f.ltype.FixedBytesT? {
      if size.value == 0 {
        return Ok(Blob(Zeros(f.dataSize)));
      }
      if size.value != f.dataSize {
        return Fail(Malformed);
      }
    } else if f.ltype.BytesT? {
      if size.value + BYTES_OFFSET > f.dataSize {
        return Fail(Malformed);
      }
    } else {
      // Space for the NUL; the 32-bit sum must not wrap.
      if (size.value + 1) % 0x1_0000_0000 < size.value || size.value + 1 > f.dataSize {
        return Fail(Malformed);
      }
    }
    var data := s.Read(size.value);
    if data.None? {
      return Fail(Malformed);
    }
    r := Ok(Blob(if f.ltype.StringT? then CString(data.value) else data.value));
  }

  lemma SubmessageVal(f: Field, prior: Val, s: seq<byte>)
    requires ValidField(f) && ValOk(f, prior) && f.ltype.SubmessageT?
    ensures ValidFields(f.ltype.fields) && prior.Msg? && SlotsOk(f.ltype.fields, prior.slots)
    ensures DecodeVal(f, prior, s) ==
            match DecodeDelimited(s)
            case None => Fail(Malformed)
            case Some((body, rest)) =>
              var start := if f.htype.Repeated? then SetDefaults(f.ltype.fields, prior.slots, |f.ltype.fields|) else prior.slots;
              match DecodeNoInit(f.ltype.fields, start, body)
              case Fail(e) => Fail(e)
              case Ok((slots, _)) => Ok((Msg(slots), rest))
  {}

  /** `pb_dec_submessage` */
  method GetSubmessage(s: IStream, f: Field, prior: Val) returns (r: Result<Val, DecodeError>)
    requires s.Valid() && ValidField(f) && ValOk(f, prior) && f.ltype.SubmessageT?
    modifies s
    ensures Consumed(s, DecodeVal(f, prior, old(s.Remaining())), r)
    ensures r.Ok? ==> s.End() == old(s.End())
    decreases |s.Remaining()|, 0
  {
    hide Decode32, DecodeNoInit, DecodeVal, DecodeDelimited, SetDefaults, ValidField, ValidFields, ValOk, SlotsOk;
    ghost var end := s.End();
    SubmessageVal(f, prior, s.Remaining());
    var sub := MakeSubstream(s);
    if sub.None? {
      return Fail(Malformed);
    }
    var start := prior.slots;
    if f.htype.Repeated? {
      // New array entries need to be initialized.
      start := SetToDefaults(f.ltype.fields, start);
    }
    var slots := GetMessageNoInit(sub.value, f.ltype.fields, start);
    if slots.Fail? {
      return Fail(slots.error);
    }
    CloseSubstream(s, sub.value);
    r := Ok(Msg(slots.value));
  }

  /** `pb_field_set_to_default` */
  method DefaultOf(f: Field, prior: Slot) returns (s: Slot)
    requires ValidField(f) && SlotOk(f, prior)
    ensures s == DefaultSlot(f, prior)
    decreases f
  {
    match prior
    case Rep(_, items) => s := Rep(0, items);
    case Fix(items) => s := Fix(items);
    case Union(_, v) => s := Union(0, v);
    case One(v) =>
      var w := InitialVal(f, v);
      s := One(w);
    case Opt(_, v) =>
      var w := InitialVal(f, v);
      s := Opt(false, w);
  }

  /** Its part that stores a default value, a zero, or defaults in a submessage. */
  method InitialVal(f: Field, prior: Val) returns (v: Val)
    requires ValidField(f) && ValOk(f, prior)
    ensures v == DefaultVal(f, prior)
    decreases f, 0
  {
    if f.ltype.SubmessageT? {
      var slots := SetToDefaults(f.ltype.fields, prior.slots);
      v := Msg(slots);
    } else if f.initial.Some? {
      v := f.initial.value;
    } else {
      v := ZeroVal(f);
    }
  }

  lemma {:induction false} SetDefaultsStep(fields: seq<Field>, prior: seq<Slot>, i: nat)
    requires i < |fields| && ValidFields(fields) && SlotsOk(fields, prior)
    ensures var before := SetDefaults(fields, prior, i);
      SetDefaults(fields, prior, i + 1)
        == before[SlotOf(fields, i) := DefaultSlot(FieldAt(fields, i), SlotAt(fields, before, i))]
  {}

  /** One round of the loop below. */
  method DefaultField(fields: seq<Field>, ghost prior: seq<Slot>, i: nat, slots: seq<Slot>) returns (after: seq<Slot>)
    requires i < |fields| && ValidFields(fields) && SlotsOk(fields, prior) && slots == SetDefaults(fields, prior, i)
    ensures after == SetDefaults(fields, prior, i + 1)
    decreases fields, 0
  {
    SetDefaultsStep(fields, prior, i);
    var s := DefaultOf(FieldAt(fields, i), SlotAt(fields, slots, i));
    after := slots[SlotOf(fields, i) := s];
  }

  /** `pb_message_set_to_defaults` */
  method SetToDefaults(fields: seq<Field>, prior: seq<Slot>) returns (slots: seq<Slot>)
    requires ValidFields(fields) && SlotsOk(fields, prior)
    ensures slots == SetDefaults(fields, prior, |fields|)
    decreases fields
  {
    slots := prior;
    var iter := new FieldIter(fields, 0);
    if |fields| == 0 {
      return;
    }
    var more := true;
    while more
      invariant iter.Valid() && iter.fields == fields && fresh(iter)
      invariant slots == SetDefaults(fields, prior, if more then iter.pos else |fields|)
      decreases more, |fields| - iter.pos
    {
      slots := DefaultField(fields, prior, iter.pos, slots);
      more := iter.Next();
    }
  }

  // ---- Fields.

  /** The entries of a packed array, from index `count` on; None also when they overflow the array. */
  method GetPacked(sub: IStream, f: Field, prior: seq<Val>, start: nat) returns (r: Option<(seq<Val>, nat)>)
    requires sub.Valid() && ValidField(f) && Packable(f.ltype)
    requires |prior| == f.arraySize && forall k :: 0 <= k < |prior| ==> ValOk(f, prior[k])
    modifies sub
    ensures r == DecodePacked(f, prior, start, old(sub.Remaining()))
    ensures r.Some? ==> sub.Valid() && sub.End() == old(sub.End())
  {
    var items, count: nat := prior, start;
    while sub.bytesLeft > 0 && count < f.arraySize
      invariant sub.Valid() && sub.End() == old(sub.End())
      invariant |items| == f.arraySize && forall k :: 0 <= k < |items| ==> ValOk(f, items[k])
      invariant DecodePacked(f, prior, start, old(sub.Remaining())) == DecodePacked(f, items, count, sub.Remaining())
      decreases sub.bytesLeft
    {
      ghost var before := sub.Remaining();
      var n := GetNum(sub, f);
      if n.None? {
        return None;
      }
      items := items[count := Num(n.value)];
      count := count + 1;
    }
    return if sub.bytesLeft != 0 then None else Some((items, count));
  }

  /** The static cases of `decode_static_field` for arrays. */
  method GetItems(s: IStream, f: Field, items: seq<Val>, count: nat, wireType: nat)
    returns (r: Result<(seq<Val>, nat), DecodeError>)
    requires s.Valid() && ValidField(f)
    requires |items| == f.arraySize && forall k :: 0 <= k < |items| ==> ValOk(f, items[k])
    modifies s
    ensures s.Valid()
    ensures match DecodeItems(f, items, count, wireType, old(s.Remaining()))
      case Fail(e) => r == Fail(e)
      case Ok((items', count', rest)) => r == Ok((items', count')) && s.Remaining() == rest && s.End() == old(s.End())
    decreases |s.Remaining()|, 2
  {
    if wireType == 2 && Packable(f.ltype) {
      var sub := MakeSubstream(s);
      if sub.None? {
        return Fail(Malformed);
      }
      var packed := GetPacked(sub.value, f, items, count);
      if packed.None? {
        return Fail(Malformed);
      }
      CloseSubstream(s, sub.value);
      return Ok(packed.value);
    }
    if count >= f.arraySize {
      return Fail(Malformed);
    }
    var v := GetVal(s, f, items[count]);
    r := match v case Fail(e) => Fail(e) case Ok(w) => Ok((items[count := w], count + 1));
  }

  /** `decode_static_field` */
  method GetSlot(s: IStream, f: Field, slot: Slot, count: nat, wireType: nat)
    returns (r: Result<(Slot, nat), DecodeError>)
    requires s.Valid() && ValidField(f) && SlotOk(f, slot)
    modifies s
    ensures s.Valid()
    ensures match DecodeSlot(f, slot, count, wireType, old(s.Remaining()))
      case Fail(e) => r == Fail(e)
      case Ok((slot', count', rest)) => r == Ok((slot', count')) && s.Remaining() == rest && s.End() == old(s.End())
    decreases |s.Remaining()|, 3
  {
    match slot {
      case One(v) =>
        var w := GetVal(s, f, v);
        r := match w case Fail(e) => Fail(e) case Ok(w) => Ok((One(w), count));
      case Opt(_, v) =>
        var w := GetVal(s, f, v);
        r := match w case Fail(e) => Fail(e) case Ok(w) => Ok((Opt(true, w), count));
      case Rep(c, items) =>
        var w := GetItems(s, f, items, c, wireType);
        r := match w case Fail(e) => Fail(e) case Ok((items', c')) => Ok((Rep(c', items'), count));
      case Fix(items) =>
        var w := GetItems(s, f, items, count, wireType);
        r := match w case Fail(e) => Fail(e) case Ok((items', c')) => Ok((Fix(items'), c'));
      case Union(which, v) =>
        // Submessages are zeroed and set to defaults; anything else is overwritten whole.
        ZeroValOk(f);
        var start := ZeroVal(f);
        if f.ltype.SubmessageT? {
          var slots := SetToDefaults(f.ltype.fields, start.slots);
          start := Msg(slots);
        }
        var w := GetVal(s, f, start);
        r := match w case Fail(e) => Fail(e) case Ok(w) => Ok((Union(f.tag, w), count));
    }
  }

  datatype TagRead = GotTag(wireType: nat, tag: nat) | ZeroTag | NoTag

  /** `pb_decode_tag` */
  method GetTag(s: IStream) returns (t: TagRead)
    requires s.Valid()
    modifies s
    ensures s.Valid()
    ensures match DecodeTag(old(s.Remaining()))
      case BadTag => t == NoTag
      case Terminator(rest) => t == ZeroTag && s.Remaining() == rest && s.End() == old(s.End())
      case Tag(wireType, tag, rest) => t == GotTag(wireType, tag) && s.Remaining() == rest && s.End() == old(s.End())
  {
    var v := s.DecodeVarint32();
    t := if v.None? then NoTag else if v.value == 0 then ZeroTag else GotTag(v.value % 8, v.value / 8);
  }

  /** The local state of the loop, as the wire format describes it. */
  ghost function LoopState(dest: seq<Slot>, fixedField: Option<nat>, fixedCount: nat, seen: SeenFields): State
    reads seen
  {
    State(dest, fixedField, fixedCount, seen.seen)
  }

  lemma {:induction false} RequiredGrows(fields: seq<Field>, m: nat, n: nat)
    requires m <= n <= |fields|
    ensures RequiredBefore(fields, m) <= RequiredBefore(fields, n)
    ensures m < n && fields[m].htype.Required? ==> RequiredBefore(fields, m) < RequiredBefore(fields, n)
  {
    if m < n - 1 {
      RequiredGrows(fields, m, n - 1);
    } else if m < n {
      assert RequiredBefore(fields, n) == RequiredBefore(fields, m) + (if fields[m].htype.Required? then 1 else 0);
    }
  }

  /** One round of the loop for a known field: the one the iterator stands on. */
  method GetField(s: IStream, iter: FieldIter, dest: seq<Slot>, fixedField: Option<nat>, fixedCount: nat,
                  seen: SeenFields, wireType: nat)
    returns (r: Result<(seq<Slot>, Option<nat>, nat), DecodeError>)
    requires s.Valid() && iter.Valid() && seen.Valid() && iter.fields != [] && ValidFields(iter.fields)
    requires StateOk(iter.fields, LoopState(dest, fixedField, fixedCount, seen))
    modifies s, iter, seen, seen.words
    ensures s.Valid() && iter.Valid() && seen.Valid()
    ensures match DecodeFieldAt(iter.fields, old(LoopState(dest, fixedField, fixedCount, seen)), old(iter.pos), wireType,
                                old(s.Remaining()))
      case Fail(e) => r == Fail(e)
      case Ok((st, rest)) =>
        && r.Ok? && st == LoopState(r.value.0, r.value.1, r.value.2, seen)
        && s.Remaining() == rest && s.End() == old(s.End())
    ensures var i := old(iter.pos);
      (iter.fields[i].htype.Required? ==> seen.seen <= old(seen.seen) + {RequiredBefore(iter.fields, i)})
      && (!iter.fields[i].htype.Required? ==> seen.seen == old(seen.seen))
    decreases |s.Remaining()|, 4
  {
    var i := iter.pos;
    var f := FieldAt(iter.fields, i);
    var entered := Enter(iter, fixedField, fixedCount, seen, dest);
    if entered.Fail? {
      return Fail(entered.error);
    }
    var slot := SlotAt(iter.fields, dest, i);
    var released := Release(iter, slot);
    if !released {
      return Fail(Malformed);
    }
    var w := GetSlot(s, f, slot, entered.value.1, wireType);
    if w.Ok? {
      StoreKeepsSlotsOk(iter.fields, dest, i, w.value.0);
    }
    r := match w
      case Fail(e) => Fail(e)
      case Ok((slot', count')) => Ok((dest[SlotOf(iter.fields, i) := slot'], entered.value.0, count'));
  }

  /** The bookkeeping before a field is read. */
  method Enter(iter: FieldIter, fixedField: Option<nat>, fixedCount: nat, seen: SeenFields, ghost dest: seq<Slot>)
    returns (r: Result<(Option<nat>, nat), DecodeError>)
    requires iter.Valid() && seen.Valid() && iter.fields != [] && ValidFields(iter.fields)
    requires StateOk(iter.fields, LoopState(dest, fixedField, fixedCount, seen))
    modifies seen, seen.words
    ensures seen.Valid()
    ensures match EnterField(iter.fields, old(LoopState(dest, fixedField, fixedCount, seen)), iter.pos)
      case Fail(e) => r == Fail(e)
      case Ok(st) => r.Ok? && st == LoopState(dest, r.value.0, r.value.1, seen)
    ensures (iter.fields[iter.pos].htype.Required? ==> seen.seen <= old(seen.seen) + {RequiredBefore(iter.fields, iter.pos)})
      && (!iter.fields[iter.pos].htype.Required? ==> seen.seen == old(seen.seen))
  {
    var f := iter.fields[iter.pos];
    var field, count := fixedField, fixedCount;
    if f.htype.Repeated? && f.sizeOffset == 0 {
      // A fixed-count array: its count lives in the loop, not in the struct.
      if field != Some(iter.pos) {
        if field.Some? && count != iter.fields[field.value].arraySize {
          return Fail(WrongFixedCount);
        }
        field, count := Some(iter.pos), 0;
      }
    }
    if f.htype.Required? && iter.requiredIndex < MAX_REQUIRED {
      seen.Mark(iter.requiredIndex);
    }
    return Ok((field, count));
  }

  /** `pb_release_union_field`: the old member of a oneof is looked up, and then the new one again. */
  method Release(iter: FieldIter, slot: Slot) returns (ok: bool)
    requires iter.Valid() && iter.fields != [] && ValidFields(iter.fields)
    requires SlotOk(iter.fields[iter.pos], slot)
    modifies iter
    ensures iter.Valid() && ok == !BadUnion(iter.fields, iter.fields[old(iter.pos)], slot)
  {
    var f := iter.fields[iter.pos];
    if f.htype.Oneof? && slot.which != 0 && slot.which != f.tag {
      var known := iter.Find(slot.which);
      if !known {
        return false;
      }
      var back := iter.Find(f.tag);
    }
    return true;
  }

  /** What the loop does with the field after a tag. */
  ghost function OneField(fields: seq<Field>, st: State, wireType: nat, tag: nat, s: seq<byte>)
    : (r: Result<(State, seq<byte>), DecodeError>)
    requires ValidFields(fields) && StateOk(fields, st)
    ensures r.Ok? ==> StateOk(fields, r.value.0) && |r.value.1| <= |s|
  {
    match FindField(fields, tag)
    case Some(i) => DecodeFieldAt(fields, st, i, wireType, s)
    case None =>
      if fields == [] && tag == 0 then Fail(Malformed)
      else match SkipField(wireType, s) case None => Fail(Malformed) case Some(rest) => Ok((st, rest))
  }

  lemma {:induction false} RunOne(fields: seq<Field>, st: State, s: seq<byte>)
    requires ValidFields(fields) && StateOk(fields, st)
    ensures s == [] ==> Run(fields, st, s) == Running(st)
    ensures s != [] ==>
              Run(fields, st, s) ==
              match DecodeTag(s)
              case BadTag => Failed(Malformed)
              case Terminator(rest) => Stopped(st, rest)
              case Tag(wireType, tag, rest) =>
                match OneField(fields, st, wireType, tag, rest)
                case Fail(e) => Failed(e)
                case Ok((st1, rest1)) => Run(fields, st1, rest1)
  {}

  /** One round of the loop after the tag: a known field, an unknown one, or none at all. */
  method GetOne(s: IStream, iter: FieldIter, dest: seq<Slot>, fixedField: Option<nat>, fixedCount: nat,
                seen: SeenFields, wireType: nat, tag: nat)
    returns (r: Result<(seq<Slot>, Option<nat>, nat), DecodeError>)
    requires s.Valid() && iter.Valid() && seen.Valid() && ValidFields(iter.fields)
    requires StateOk(iter.fields, LoopState(dest, fixedField, fixedCount, seen))
    requires forall k :: k in seen.seen ==> k < RequiredBefore(iter.fields, |iter.fields|)
    modifies s, iter, seen, seen.words
    ensures s.Valid() && iter.Valid() && seen.Valid()
    ensures match OneField(iter.fields, old(LoopState(dest, fixedField, fixedCount, seen)), wireType, tag, old(s.Remaining()))
      case Fail(e) => r == Fail(e)
      case Ok((st, rest)) =>
        && r.Ok? && st == LoopState(r.value.0, r.value.1, r.value.2, seen)
        && s.Remaining() == rest && s.End() == old(s.End())
    ensures forall k :: k in seen.seen ==> k < RequiredBefore(iter.fields, |iter.fields|)
    decreases |s.Remaining()|, 5
  {
    var found := iter.Find(tag);
    if !found {
      var skipped := Skip(s, wireType);
      return if skipped then Ok((dest, fixedField, fixedCount)) else Fail(Malformed);
    }
    if |iter.fields| == 0 {
      // The terminator is taken for a required varint of size 0, which no number fits.
      var n := s.DecodeVarint();
      return Fail(Malformed);
    }
    assert FindField(iter.fields, tag) == Some(iter.pos);
    RequiredGrows(iter.fields, iter.pos, |iter.fields|);
    r := GetField(s, iter, dest, fixedField, fixedCount, seen, wireType);
  }

  /** `pb_decode_noinit` */
  method GetMessageNoInit(s: IStream, fields: seq<Field>, slots: seq<Slot>) returns (r: Result<seq<Slot>, DecodeError>)
    requires s.Valid() && ValidFields(fields) && SlotsOk(fields, slots)
    modifies s
    ensures Consumed(s, DecodeNoInit(fields, slots, old(s.Remaining())), r)
    ensures r.Ok? ==> s.End() == old(s.End())
    decreases |s.Remaining()|, 6
  {
    hide Run, OneField, Finish, DecodeTag, RequiredBefore;
    ghost var whole := s.Remaining();
    var dest, fixedField, fixedCount := slots, None, 0;
    var seen := new SeenFields();
    var iter := new FieldIter(fields, 0);
    while s.bytesLeft != 0
      invariant s.Valid() && iter.Valid() && iter.fields == fields && seen.Valid() && s.End() == old(s.End())
      invariant fresh(iter) && fresh(seen) && fresh(seen.words)
      invariant StateOk(fields, LoopState(dest, fixedField, fixedCount, seen))
      invariant Run(fields, Initial(slots), whole) == Run(fields, LoopState(dest, fixedField, fixedCount, seen), s.Remaining())
      invariant forall k :: k in seen.seen ==> k < RequiredBefore(fields, |fields|)
      decreases s.bytesLeft
    {
      RunOne(fields, LoopState(dest, fixedField, fixedCount, seen), s.Remaining());
      var t := GetTag(s);
      if t.NoTag? {
        return Fail(Malformed);
      }
      if t.ZeroTag? {
        break;
      }
      var w := GetOne(s, iter, dest, fixedField, fixedCount, seen, t.wireType, t.tag);
      if w.Fail? {
        return Fail(w.error);
      }
      dest, fixedField, fixedCount := w.value.0, w.value.1, w.value.2;
    }
    RunOne(fields, LoopState(dest, fixedField, fixedCount, seen), []);
    r := CheckFinished(fields, iter, dest, fixedField, fixedCount, seen);
  }

  /** The checks after the loop: the last fixed-count array is complete and no required field is missing. */
  method CheckFinished(fields: seq<Field>, iter: FieldIter, dest: seq<Slot>, fixedField: Option<nat>, fixedCount: nat,
                       seen: SeenFields)
    returns (r: Result<seq<Slot>, DecodeError>)
    requires iter.Valid() && iter.fields == fields && seen.Valid()
    requires fixedField.Some? ==> fixedField.value < |fields|
    requires forall k :: k in seen.seen ==> k < RequiredBefore(fields, |fields|)
    modifies iter
    ensures r == Finish(fields, LoopState(dest, fixedField, fixedCount, seen))
  {
    if fixedField.Some? && fixedCount != fields[fixedField.value].arraySize {
      return Fail(WrongFixedCount);
    }
    // The number of required fields: seek to the end of the field array.
    var required: nat, lastType := iter.requiredIndex, Required;
    if |fields| > 0 {
      lastType := fields[iter.pos].htype;
    }
    var more := iter.Next();
    while more
      invariant iter.Valid() && iter.fields == fields
      invariant more ==> iter.pos > 0
      invariant !more ==> iter.pos == 0
      invariant |fields| == 0 ==> required == 0
      invariant |fields| > 0 ==>
        (var last := if more then iter.pos - 1 else |fields| - 1;
         required == RequiredBefore(fields, last) && lastType == fields[last].htype)
      decreases more, |fields| - iter.pos
    {
      required, lastType := iter.requiredIndex, fields[iter.pos].htype;
      more := iter.Next();
    }
    if lastType.Required? && |fields| > 0 {
      required := required + 1;
    }
    if required > MAX_REQUIRED {
      required := MAX_REQUIRED;
    }
    assert required == if RequiredBefore(fields, |fields|) > MAX_REQUIRED then MAX_REQUIRED else RequiredBefore(fields, |fields|);
    var all := seen.HasAll(required);
    return if all then Ok(dest) else Fail(MissingRequired);
  }

  // ---- Entry points.

  /** `pb_decode` */
  method GetMessage(s: IStream, fields: seq<Field>, dest: seq<Slot>) returns (r: Result<seq<Slot>, DecodeError>)
    requires s.Valid() && ValidFields(fields) && SlotsOk(fields, dest)
    modifies s
    ensures Consumed(s, Decode(fields, dest, old(s.Remaining())), r)
  {
    var slots := SetToDefaults(fields, dest);
    r := GetMessageNoInit(s, fields, slots);
  }
}
