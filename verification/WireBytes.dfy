/**
 * The bytes of the wire format, position by position: groups of varints, digits of fixed-width numbers,
 * tags with their wire types, and values.
 */
module WireBytes {
  import opened Wrappers
  import opened Bits
  import opened Varints
  import opened Descriptors
  import opened WireFormat
  import opened RoundTrip

  // ---- Varints.

  /** The bytes of one varint: all but the last are marked as continued. */
  predicate Marked(s: seq<byte>) {
    s != [] && s[|s| - 1] < 128 && forall k :: 0 <= k < |s| - 1 ==> s[k] >= 128
  }

  /** Byte k of a varint has bits 7k to 7k + 6 of the number, and no bits are left over. */
  predicate Spells(s: seq<byte>, v: nat) {
    Marked(s) && Rest(v, |s|) == 0 && forall k :: 0 <= k < |s| ==> s[k] % 128 == Rest(v, k) % 128
  }

  /** The shortest varint of a number. */
  predicate IsVarint(s: seq<byte>, v: nat) {
    Spells(s, v) && (|s| > 1 ==> Rest(v, |s| - 1) > 0)
  }

  /** What is left after i groups is the number shifted right by 7i bits. */
  lemma {:induction false} RestIsShift(v: nat, i: nat) returns (low: nat)
    ensures v == Rest(v, i) * Pow2(7 * i) + low && low < Pow2(7 * i)
  {
    if i == 0 {
      low := 0;
    } else {
      var below := RestIsShift(v, i - 1);
      var p, g := Pow2(7 * (i - 1)), GroupAt(v, i - 1);
      low := g * p + below;
      assert Pow2(7 * i) == 128 * p by { Pow2Add(7, 7 * (i - 1)); Pow2Values(); }
      assert Rest(v, i - 1) == g + 128 * Rest(v, i);
      Regroup(Rest(v, i), g, p, below);
    }
  }

  lemma Regroup(rest: nat, g: nat, p: nat, below: nat)
    requires g < 128 && below < p
    ensures (g + 128 * rest) * p + below == rest * (128 * p) + (g * p + below)
    ensures g * p + below < 128 * p
  {
    assert g * p <= 127 * p;
  }

  lemma {:induction false} RestLater(v: nat, i: nat)
    ensures Rest(v / 128, i) == Rest(v, i + 1)
  {
    if i > 0 {
      RestLater(v, i - 1);
    }
  }

  /** The encoder writes the shortest varint, byte by byte. */
  lemma {:induction false} VarintBytes(v: nat)
    ensures IsVarint(Varint(v), v)
  {
    var s := Varint(v);
    if v >= 128 {
      var t := Varint(v / 128);
      VarintBytes(v / 128);
      forall k | 0 <= k < |s|
        ensures s[k] % 128 == Rest(v, k) % 128 && (k < |s| - 1 <==> s[k] >= 128)
      {
        if k > 0 {
          assert s[k] == t[k - 1];
          RestLater(v, k - 1);
        }
      }
      RestLater(v, |t|);
      RestLater(v, |t| - 1);
    }
  }

  /** Past its first byte a varint spells what is left of the number. */
  lemma SpellsRest(s: seq<byte>, v: nat)
    requires Spells(s, v)
    ensures s[0] % 128 == v % 128
    ensures |s| > 1 ==> Spells(s[1..], v / 128)
    ensures |s| == 1 ==> v / 128 == 0
  {
    assert s[0] % 128 == Rest(v, 0) % 128;
    if |s| > 1 {
      var t := s[1..];
      forall k | 0 <= k < |t|
        ensures t[k] % 128 == Rest(v / 128, k) % 128
      {
        RestLater(v, k);
        assert t[k] == s[k + 1];
      }
      RestLater(v, |t|);
    } else {
      assert Rest(v, 1) == v / 128;
    }
  }

  /** Whatever bytes spell a number, shortest or not, are read as it. */
  lemma {:induction false} RawOfSpelled(s: seq<byte>, v: nat, tail: seq<byte>)
    requires Spells(s, v)
    ensures RawVarint(s + tail) == Some((v, |s|)) && (s + tail)[|s|..] == tail
  {
    SpellsRest(s, v);
    if |s| > 1 {
      RawOfSpelled(s[1..], v / 128, tail);
      assert (s + tail)[1..] == s[1..] + tail;
    }
  }

  /** What is read as a number spells it. */
  lemma {:induction false} RawSpells(s: seq<byte>)
    ensures RawVarint(s).None? <==> forall k :: 0 <= k < |s| ==> s[k] >= 128
    ensures RawVarint(s).Some? ==> Spells(s[..RawVarint(s).value.1], RawVarint(s).value.0)
  {
    if s != [] {
      if s[0] >= 128 {
        RawSpells(s[1..]);
        if RawVarint(s[1..]).Some? {
          var (w, n) := RawVarint(s[1..]).value;
          var v, u := RawVarint(s).value.0, s[..n + 1];
          assert v / 128 == w && v % 128 == s[0] - 128;
          forall k | 0 <= k < |u|
            ensures u[k] % 128 == Rest(v, k) % 128 && (k < |u| - 1 <==> u[k] >= 128)
          {
            if k > 0 {
              assert u[k] == s[1..][..n][k - 1];
              RestLater(v, k - 1);
            }
          }
          RestLater(v, n);
        } else {
          assert forall k :: 1 <= k < |s| ==> s[k] == s[1..][k - 1];
        }
      } else {
        assert Rest(s[0], 1) == 0 && s[..1] == [s[0]];
      }
    }
  }

  /** The 64-bit decoder takes exactly the varints of at most ten bytes, modulo 2^64. */
  lemma Decode64Exactly(s: seq<byte>, v: nat, tail: seq<byte>)
    requires Spells(s, v)
    ensures Decode64(s + tail) == if |s| <= 10 then Some((v % 0x1_0000_0000_0000_0000, tail)) else None
  {
    RawOfSpelled(s, v, tail);
  }

  // ---- Fixed-width numbers.

  /** The number shifted right by 8k bits. */
  function Above(v: nat, k: nat): nat {
    if k == 0 then v else Above(v, k - 1) / 256
  }

  lemma {:induction false} AboveLater(v: nat, k: nat)
    ensures Above(v / 256, k) == Above(v, k + 1)
  {
    if k > 0 {
      AboveLater(v, k - 1);
    }
  }

  /** Little-endian: byte k has bits 8k to 8k + 7. */
  lemma {:induction false} FixedDigits(v: nat, size: nat, k: nat)
    requires k < size
    ensures FixedBytes(v, size)[k] == Above(v, k) % 256
  {
    if k > 0 {
      FixedDigits(v / 256, size - 1, k - 1);
      AboveLater(v, k - 1);
    }
  }

  /** Reading is the inverse on all bytes. */
  lemma {:induction false} FixedBytesOfValue(s: seq<byte>)
    ensures FixedBytes(FixedValue(s), |s|) == s
  {
    if s != [] {
      FixedBytesOfValue(s[1..]);
      var v := FixedValue(s);
      assert v % 256 == s[0] && v / 256 == FixedValue(s[1..]);
    }
  }

  // ---- Zigzag.

  /** Zigzag pairs n with -n - 1, the numbers of smaller magnitude first and the negative one odd; every number is some number's zigzag. */
  lemma ZigZagOrder(n: int, k: nat, v: nat)
    ensures ZigZag(n) % 2 == 0 <==> n >= 0
    ensures ZigZag(n) < 2 * k <==> 0 <= n + k < 2 * k
    ensures ZigZag(UnZigZag(v)) == v
  {
    if n < 0 {
      Halves(1, -n - 1);
    } else {
      Halves(0, n);
    }
    if v % 2 == 1 {
      assert v == 2 * (v / 2) + 1;
    }
  }

  // ---- Tags.

  /** The tag of a field is the varint of eight times its number plus the wire type. */
  lemma TagBytes(wireType: nat, tag: nat)
    ensures IsVarint(EncodeTag(wireType, tag), 8 * tag + wireType)
  {
    VarintBytes(8 * tag + wireType);
  }

  /** Varints have wire type 0, 64-bit numbers 1, 32-bit numbers 5, and whatever has a length 2. */
  predicate HasWireType(lt: LType, wireType: nat) {
    match lt
    case VarintT => wireType == 0
    case UVarintT => wireType == 0
    case SVarintT => wireType == 0
    case Fixed64T => wireType == 1
    case Fixed32T => wireType == 5
    case BytesT => wireType == 2
    case StringT => wireType == 2
    case SubmessageT(_) => wireType == 2
    case FixedBytesT => wireType == 2
  }

  /** What a field is written with reads as its number and the wire type of its kind, before the value. */
  lemma TaggedReads(f: Field, v: Val, tail: seq<byte>)
    requires ValidField(f) && ValOk(f, v) && EncodeTagged(f, v).Some?
    ensures EncodeVal(f, v).Some?
    ensures var t := DecodeTag(EncodeTagged(f, v).value + tail);
            && t.Tag? && t.tag == f.tag && t.rest == EncodeVal(f, v).value + tail && HasWireType(f.ltype, t.wireType)
            && t.wireType == if f.ltype.VarintT? || f.ltype.UVarintT? || f.ltype.SVarintT? then 0
                             else if f.ltype.Fixed64T? then 1
                             else if f.ltype.Fixed32T? then 5
                             else 2
  {
    var w, b := WireType(f.ltype), EncodeVal(f, v).value;
    TagReadsBack(w, f.tag, b + tail);
    assert EncodeTag(w, f.tag) + b + tail == EncodeTag(w, f.tag) + (b + tail);
  }

  /** The whole of a tagged value: the varint of the tag and the value's bytes. */
  lemma TaggedBytes(f: Field, v: Val) returns (t: seq<byte>, wireType: nat)
    requires ValidField(f) && ValOk(f, v) && EncodeTagged(f, v).Some?
    ensures EncodeVal(f, v).Some? && EncodeTagged(f, v).value == t + EncodeVal(f, v).value
    ensures HasWireType(f.ltype, wireType) && IsVarint(t, 8 * f.tag + wireType)
  {
    wireType := WireType(f.ltype);
    t := EncodeTag(wireType, f.tag);
    TagBytes(wireType, f.tag);
  }

  /** An array of numbers is written under one tag of wire type 2, its length before its entries. */
  lemma PackedBytes(f: Field, items: seq<Val>, count: nat) returns (t: seq<byte>, l: seq<byte>, body: seq<byte>)
    requires |items| == f.arraySize && forall k :: 0 <= k < |items| ==> ValOk(f, items[k])
    requires Packable(f.ltype) && count > 0 && EncodeArray(f, items, count).Some?
    ensures EncodeArray(f, items, count).value == t + l + body && EncodeItems(f, items, count, false) == Some(body)
    ensures IsVarint(t, 8 * f.tag + 2) && IsVarint(l, |body|)
  {
    body := EncodeItems(f, items, count, false).value;
    t, l := EncodeTag(2, f.tag), Varint(|body|);
    TagBytes(2, f.tag);
    VarintBytes(|body|);
    assert t + (l + body) == t + l + body;
  }

  // ---- Values.

  /** The content that goes behind a length, for the kinds that have one. */
  ghost predicate IsContent(f: Field, v: Val, content: seq<byte>)
    requires ValOk(f, v) && HasWireType(f.ltype, 2)
  {
    if f.ltype.SubmessageT? then Encode(f.ltype.fields, v.slots) == Some(content) else content == v.data
  }

  /** Little-endian digits, and nothing else. */
  predicate IsFixed(s: seq<byte>, v: nat, size: nat) {
    |s| == size && forall k :: 0 <= k < size ==> s[k] == Above(v, k) % 256
  }

  /**
   * The bytes of a number: of an unsigned one its varint, of a signed one the varint of its 64-bit two's
   * complement or of twice its magnitude, less one when negative, and of a fixed-width one its digits.
   */
  predicate IsNumber(lt: LType, n: int, s: seq<byte>)
    requires Packable(lt)
  {
    match lt
    case UVarintT => n >= 0 && IsVarint(s, n)
    case VarintT => if n >= 0 then IsVarint(s, n) else n + 0x1_0000_0000_0000_0000 >= 0 && IsVarint(s, n + 0x1_0000_0000_0000_0000)
    case SVarintT => if n >= 0 then IsVarint(s, 2 * n) else IsVarint(s, -2 * n - 1)
    case Fixed32T => n >= 0 && IsFixed(s, n, 4)
    case Fixed64T => n >= 0 && IsFixed(s, n, 8)
  }

  lemma NumberBytes(f: Field, v: Val)
    requires ValOk(f, v) && Packable(f.ltype)
    ensures EncodeVal(f, v).None? <==> !f.ltype.Fixed32T? && !f.ltype.Fixed64T? && f.dataSize !in {1, 2, 4, 8}
    ensures EncodeVal(f, v).Some? ==> IsNumber(f.ltype, v.n, EncodeVal(f, v).value)
  {
    match f.ltype
    case UVarintT => VarintBytes(v.n);
    case VarintT => VarintBytes(ToUnsigned64(v.n));
    case SVarintT => VarintBytes(ZigZag(v.n));
    case Fixed32T =>
      forall k | 0 <= k < 4 ensures FixedBytes(v.n, 4)[k] == Above(v.n, k) % 256 { FixedDigits(v.n, 4, k); }
    case Fixed64T =>
      forall k | 0 <= k < 8 ensures FixedBytes(v.n, 8)[k] == Above(v.n, k) % 256 { FixedDigits(v.n, 8, k); }
  }

  /** Anything else is its length and its content; it is refused when a byte array is too large for its struct or a submessage is refused. */
  lemma DelimitedBytes(f: Field, v: Val) returns (l: seq<byte>, content: seq<byte>)
    requires ValOk(f, v) && HasWireType(f.ltype, 2)
    ensures EncodeVal(f, v).None? <==>
              || (f.ltype.BytesT? && |v.data| + 4 > f.dataSize)
              || (f.ltype.SubmessageT? && Encode(f.ltype.fields, v.slots).None?)
    ensures EncodeVal(f, v).Some? ==> EncodeVal(f, v).value == l + content && IsVarint(l, |content|) && IsContent(f, v, content)
  {
    l, content := [], [];
    if EncodeVal(f, v).Some? {
      content := if f.ltype.SubmessageT? then Encode(f.ltype.fields, v.slots).value else v.data;
      l := Varint(|content|);
      VarintBytes(|content|);
    }
  }

  // ---- Examples.

  function Single(tag: nat, lt: LType, size: nat): Field {
    Field(tag, lt, Required, 0, 0, size, 0, None)
  }

  /** A message of one required field is that field with its tag. */
  lemma {:induction false} SingleField(f: Field, v: Val)
    requires f.htype.Required? && ValOk(f, v)
    ensures SlotsOk([f], [One(v)]) && Encode([f], [One(v)]) == EncodeTagged(f, v)
  {
    var fields, slots := [f], [One(v)];
    assert SlotCount(fields, 0) == 0 && SlotCount(fields, 1) == 1;
    assert SlotOkAt(fields, slots, 0);
    assert EncodeFields(fields, slots, 0) == Some([]);
    assert EncodeField(fields[0], SlotAt(fields, slots, 0)) == EncodeTagged(f, v);
    if EncodeTagged(f, v).Some? {
      assert [] + EncodeTagged(f, v).value == EncodeTagged(f, v).value;
    }
    assert EncodeFields(fields, slots, 1) == EncodeTagged(f, v);
  }

  lemma TaggedIs(f: Field, v: Val, t: seq<byte>, b: seq<byte>)
    requires ValOk(f, v) && EncodeTag(WireType(f.ltype), f.tag) == t && EncodeVal(f, v) == Some(b)
    ensures EncodeTagged(f, v) == Some(t + b)
  {}

  /** The examples of the encoding guide of Protocol Buffers, and a fixed-width field. */
  lemma Examples()
    ensures Varint(1) == [0x01] && Varint(300) == [0xAC, 0x02]
    ensures EncodeTagged(Single(1, VarintT, 4), Num(150)) == Some([0x08, 0x96, 0x01])
    ensures EncodeTagged(Single(1, Fixed32T, 4), Num(7)) == Some([0x0D, 0x07, 0x00, 0x00, 0x00])
    ensures EncodeTagged(Single(2, StringT, 8), Blob([0x74, 0x65, 0x73, 0x74])) == Some([0x12, 0x04, 0x74, 0x65, 0x73, 0x74])
  {
    assert Varint(300) == [0xAC] + Varint(2);
    assert Varint(150) == [0x96] + Varint(1) == [0x96, 0x01];
    assert EncodeVal(Single(1, VarintT, 4), Num(150)) == Some(Varint(150)) && EncodeTag(0, 1) == [0x08];
    assert EncodeVal(Single(1, Fixed32T, 4), Num(7)) == Some(FixedBytes(7, 4)) && EncodeTag(5, 1) == [0x0D];
    assert FixedBytes(7, 4) == [7, 0, 0, 0] by {
      assert FixedBytes(7, 4) == [7] + FixedBytes(0, 3) && FixedBytes(0, 3) == [0] + FixedBytes(0, 2) && FixedBytes(0, 2) == [0] + FixedBytes(0, 1);
    }
    var test := [0x74, 0x65, 0x73, 0x74];
    assert EncodeVal(Single(2, StringT, 8), Blob(test)) == Some(Varint(4) + test) && EncodeTag(2, 2) == [0x12];
    TaggedIs(Single(1, VarintT, 4), Num(150), [0x08], [0x96, 0x01]);
    TaggedIs(Single(1, Fixed32T, 4), Num(7), [0x0D], [0x07, 0x00, 0x00, 0x00]);
    TaggedIs(Single(2, StringT, 8), Blob(test), [0x12], [0x04] + test);
    assert [0x08] + [0x96, 0x01] == [0x08, 0x96, 0x01];
    assert [0x0D] + [0x07, 0x00, 0x00, 0x00] == [0x0D, 0x07, 0x00, 0x00, 0x00];
    assert [0x12] + ([0x04] + test) == [0x12, 0x04, 0x74, 0x65, 0x73, 0x74];
  }
}
