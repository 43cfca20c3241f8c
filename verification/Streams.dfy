/** The output and input streams of nanopb over byte buffers, and the varint codecs on them. */
module Streams {
  import opened Wrappers
  import opened Bits
  import opened Varints

  /**
   * `pb_ostream_t`. A stream without a buffer only counts bytes. `out` is what has been written,
   * or would have been.
   */
  class OStream {
    const buf: array?<byte>
    ghost const start: nat
    const maxSize: nat
    var state: nat
    var bytesWritten: nat
    ghost var out: seq<byte>

    ghost predicate Valid()
      reads this, buf
    {
      && |out| == bytesWritten
      && (buf != null ==>
            && start + maxSize <= buf.Length && bytesWritten <= maxSize
            && state == start + bytesWritten && buf[start..state] == out)
    }

    /** Whether n more bytes can be written. */
    ghost predicate Fits(n: nat)
      reads this
    {
      buf == null || bytesWritten + n <= maxSize
    }

    /** `PB_OSTREAM_SIZING` */
    constructor Sizing()
      ensures Valid() && buf == null && out == []
    {
      buf, start, maxSize, state, bytesWritten, out := null, 0, 0, 0, 0, [];
    }

    /** `pb_ostream_from_buffer`, and the substream that starts at the position of another stream. */
    constructor OnBuffer(b: array<byte>, at: nat, limit: nat)
      requires at + limit <= b.Length
      ensures Valid() && buf == b && start == at == state && maxSize == limit && out == []
    {
      buf, start, maxSize, state, bytesWritten, out := b, at, limit, at, 0, [];
    }

    /** `pb_write` */
    method Write(data: seq<byte>) returns (ok: bool)
      requires Valid()
      modifies this, buf
      ensures Valid()
      ensures ok <==> old(Fits(|data|))
      ensures out == if ok then old(out) + data else old(out)
      ensures buf != null ==> forall k :: 0 <= k < buf.Length && (k < old(state) || start + maxSize <= k) ==> buf[k] == old(buf[k])
    {
      if buf != null {
        if bytesWritten + |data| > maxSize {
          return false;
        }
        var dest := state;
        state := dest + |data|;
        for i := 0 to |data|
          modifies buf
          invariant buf[dest..dest + i] == data[..i]
          invariant forall k :: 0 <= k < buf.Length && !(dest <= k < dest + i) ==> buf[k] == old(buf[k])
        {
          buf[dest + i] := data[i];
        }
        assert buf[start..dest] == out;
        assert buf[start..dest + |data|] == buf[start..dest] + buf[dest..dest + |data|];
      }
      bytesWritten := bytesWritten + |data|;
      out := out + data;
      return true;
    }

    /** `pb_write(stream, NULL, size)` on a stream that only counts. */
    method Count(size: nat, ghost data: seq<byte>)
      requires Valid() && buf == null && |data| == size
      modifies this
      ensures Valid() && out == old(out) + data
    {
      bytesWritten := bytesWritten + size;
      out := out + data;
    }

    // ---- Varints.

    /** `pb_encode_varint` */
    method EncodeVarint(value: nat) returns (ok: bool)
      requires Valid() && value < 0x1_0000_0000_0000_0000
      modifies this, buf
      ensures Valid()
      ensures ok <==> old(Fits(|Varint(value)|))
      ensures out == if ok then old(out) + Varint(value) else old(out)
      ensures buf != null ==> forall k :: 0 <= k < buf.Length && (k < old(state) || start + maxSize <= k) ==> buf[k] == old(buf[k])
    {
      if value <= 0x7F {
        ok := Write([value]);
        return;
      }
      var buffer, n := FillVarint(value);
      ok := Write(buffer[..n]);
    }
  }

  /** The encoder's ten-byte buffer, and how much of it is used. */
  method FillVarint(value: nat) returns (buffer: array<byte>, n: nat)
    requires 0 < value < 0x1_0000_0000_0000_0000
    ensures fresh(buffer) && n <= buffer.Length && buffer[..n] == Varint(value)
  {
    buffer, n := new byte[10], 0;
    var rest: nat := value;
    ghost var full := Continued(value);
    assert |full| == |Varint(value)| <= 10 by { ContinuedVarint(value); VarintFits(value); }
    while rest != 0
      invariant n <= |full| <= 10 && buffer[..n] == full[..n] && full[n..] == Continued(rest)
      decreases rest
    {
      assert full[n] == rest % 128 + 128 && full[n + 1..] == full[n..][1..];
      buffer[n] := rest % 128 + 128;
      rest := rest / 128;
      n := n + 1;
    }
    assert n == |full|;
    buffer[n - 1] := buffer[n - 1] - 128;
    assert buffer[..n] == full[n - 1 := full[n - 1] - 128];
    ContinuedVarint(value);
  }

  /** The groups of a number, each still marked as continued. */
  ghost function Continued(v: nat): (s: seq<byte>)
    ensures forall k :: 0 <= k < |s| ==> s[k] >= 128
  {
    if v == 0 then [] else [v % 128 + 128] + Continued(v / 128)
  }

  /** Clearing the top bit of the last group gives the canonical varint. */
  lemma {:induction false} ContinuedVarint(v: nat)
    requires v > 0
    ensures |Continued(v)| == |Varint(v)|
    ensures var s := Continued(v); s[|s| - 1 := s[|s| - 1] - 128] == Varint(v)
  {
    if v >= 128 {
      ContinuedVarint(v / 128);
      var s, t := Continued(v), Continued(v / 128);
      assert s == [v % 128 + 128] + t;
      assert s[|s| - 1 := s[|s| - 1] - 128] == [v % 128 + 128] + t[|t| - 1 := t[|t| - 1] - 128];
    } else {
      assert Continued(v / 128) == [];
    }
  }

  /** `pb_istream_t` over a buffer; `bytesLeft` limits how far it may read. */
  class IStream {
    const buf: array<byte>
    var state: nat
    var bytesLeft: nat

    ghost predicate Valid()
      reads this
    {
      state + bytesLeft <= buf.Length
    }

    ghost function Remaining(): seq<byte>
      requires Valid()
      reads this, buf
    {
      buf[state..state + bytesLeft]
    }

    /** Where the bytes this stream may read end. */
    ghost function End(): nat
      reads this
    {
      state + bytesLeft
    }

    constructor (b: array<byte>, at: nat, count: nat)
      requires at + count <= b.Length
      ensures Valid() && buf == b && state == at && bytesLeft == count
    {
      buf, state, bytesLeft := b, at, count;
    }

    /** `pb_readbyte` */
    method ReadByte() returns (b: Option<byte>)
      requires Valid()
      modifies this
      ensures Valid() && End() == old(End())
      ensures b.Some? <==> old(Remaining()) != []
      ensures b.Some? ==> old(Remaining()) == [b.value] + Remaining()
      ensures b.None? ==> Remaining() == []
    {
      if bytesLeft == 0 {
        return None;
      }
      b := Some(buf[state]);
      state := state + 1;
      bytesLeft := bytesLeft - 1;
    }

    /** `pb_read`: the next `count` bytes, or nothing at all. */
    method Read(count: nat) returns (data: Option<seq<byte>>)
      requires Valid()
      modifies this
      ensures Valid() && End() == old(End())
      ensures data.Some? <==> count <= |old(Remaining())|
      ensures data.Some? ==> data.value == old(Remaining())[..count] && Remaining() == old(Remaining())[count..]
    {
      if bytesLeft < count {
        return None;
      }
      data := Some(buf[state..state + count]);
      state := state + count;
      bytesLeft := bytesLeft - count;
    }

    /** `pb_decode_varint32` */
    method DecodeVarint32() returns (r: Option<nat>)
      requires Valid()
      modifies this
      ensures Valid() && End() == old(End())
      ensures r.Some? <==> Decode32(old(Remaining())).Some?
      ensures r.Some? ==> (r.value, Remaining()) == Decode32(old(Remaining())).value
    {
      ghost var whole := Remaining();
      var b := ReadByte();
      if b.None? {
        return None;
      }
      if b.value < 128 {
        return Some(b.value);
      }
      assert whole[1..] == Remaining();
      var result: nat, bitpos: nat := Group(b.value), 7;
      while true
        invariant Valid() && End() == old(End()) && result < 0x1_0000_0000 && bitpos < 256
        invariant Decode32(whole) == Decode32From(Remaining(), result, bitpos)
        decreases |Remaining()|
      {
        ghost var before := Remaining();
        b := ReadByte();
        if b.None? {
          return None;
        }
        assert before[1..] == Remaining();
        var byte_ := b.value;
        if bitpos >= 32 {
          var signExtension := if bitpos < 63 then 0xFF else 0x01;
          if Group(byte_) != 0 && (result < 0x8000_0000 || byte_ != signExtension) {
            return None;
          }
        } else {
          result := Merge32(result, Group(byte_), bitpos);
        }
        bitpos := if bitpos + 7 < 256 then bitpos + 7 else bitpos + 7 - 256;
        if byte_ < 128 {
          if bitpos == 35 && byte_ >= 16 {
            return None;
          }
          return Some(result);
        }
      }
    }

    /** `pb_decode_varint` */
    method DecodeVarint() returns (r: Option<nat>)
      requires Valid()
      modifies this
      ensures Valid() && End() == old(End())
      ensures r.Some? <==> Decode64(old(Remaining())).Some?
      ensures r.Some? ==> (r.value, Remaining()) == Decode64(old(Remaining())).value
    {
      ghost var whole := Remaining();
      var result: nat, bitpos: nat := 0, 0;
      ghost var i: nat := 0;
      while true
        invariant Valid() && End() == old(End()) && bitpos == 7 * i
        invariant i <= |whole| && Remaining() == whole[i..] && Decoding64(whole, i, result)
        decreases 10 - i
      {
        if bitpos >= 64 {
          return None;
        }
        var b := ReadByte();
        if b.None? {
          return None;
        }
        Decoding64Step(whole, i, result);
        result := Merge64(result, Group(b.value), bitpos);
        bitpos := bitpos + 7;
        i := i + 1;
        if b.value < 128 {
          return Some(result);
        }
      }
    }
  }

  /** After i continued bytes of `whole`, `result` holds the number they spell. */
  ghost predicate Decoding64(whole: seq<byte>, i: nat, result: nat)
    requires i <= |whole|
  {
    var r, s := RawVarint(whole), RawVarint(whole[i..]);
    && i <= 10 && (i < 10 ==> result < Pow2(7 * i))
    && (r.Some? <==> s.Some?)
    && (r.Some? ==> r.value.1 == i + s.value.1)
    && (r.Some? && i < 10 ==> r.value.0 == result + ShiftLeft(s.value.0, 7 * i))
  }

  lemma Decoding64Step(whole: seq<byte>, i: nat, result: nat)
    requires i < |whole| && i < 10 && Decoding64(whole, i, result)
    ensures whole[i..][1..] == whole[i + 1..]
    ensures var next := Merge64(result, Group(whole[i]), 7 * i);
      if whole[i] >= 128 then Decoding64(whole, i + 1, next)
      else Decode64(whole) == Some((next, whole[i + 1..]))
  {
    var rest := whole[i..];
    assert rest[1..] == whole[i + 1..];
    if whole[i] >= 128 {
      var t := RawVarint(rest[1..]);
      Merge64Adds(result, Group(whole[i]), 7 * i, if t.Some? then t.value.0 else 0);
    } else {
      Merge64Adds(result, Group(whole[i]), 7 * i, 0);
    }
  }

  /** Seven more bits or-ed into a 64-bit result. */
  function Merge64(result: nat, group: nat, bitpos: nat): nat {
    Or(result, ShiftLeft(group, bitpos) % 0x1_0000_0000_0000_0000)
  }

  lemma {:induction false} ShiftSum(a: nat, b: nat, k: nat)
    ensures ShiftLeft(a + b, k) == ShiftLeft(a, k) + ShiftLeft(b, k)
  {
    if k > 0 {
      ShiftSum(a, b, k - 1);
    }
  }

  lemma {:induction false} ShiftBound(g: nat, m: nat, k: nat)
    requires g < Pow2(m)
    ensures ShiftLeft(g, k) <= Pow2(m + k) - Pow2(k)
  {
    if k > 0 {
      ShiftBound(g, m, k - 1);
    }
  }

  /** The 64-bit loop adds each group above the ones before; of the tenth only the lowest bit fits. */
  lemma Merge64Adds(low: nat, g: nat, bitpos: nat, rest: nat)
    requires (bitpos <= 56 || bitpos == 63) && low < Pow2(bitpos) && g < 128
    ensures low + ShiftLeft(g + 128 * rest, bitpos) == low + ShiftLeft(g, bitpos) + ShiftLeft(rest, bitpos + 7)
    ensures Merge64(low, g, bitpos) == (low + ShiftLeft(g, bitpos)) % 0x1_0000_0000_0000_0000
    ensures bitpos <= 56 ==> Merge64(low, g, bitpos) == low + ShiftLeft(g, bitpos) < Pow2(bitpos + 7)
  {
    ShiftSum(g, 128 * rest, bitpos);
    ShiftAdds(rest, 7, bitpos);
    ShiftSeven(rest);
    Pow2Values();
    if bitpos <= 56 {
      ShiftBound(g, 7, bitpos);
      Pow2Monotone(bitpos + 7, 63);
      OrDisjoint(low, g, bitpos);
      SmallMod64(low + ShiftLeft(g, bitpos));
      SmallMod64(ShiftLeft(g, bitpos));
    } else {
      TopGroup(low, g);
    }
  }

  /** Of a group at bit 63 the higher six bits are shifted out. */
  lemma TopGroup(low: nat, g: nat)
    requires low < 0x8000_0000_0000_0000
    ensures Merge64(low, g, 63) == (low + ShiftLeft(g, 63)) % 0x1_0000_0000_0000_0000
  {
    Shift63(g); Shift63(g % 2);
    Pow2Values();
    OrDisjoint(low, g % 2, 63);
    Mod64Is(ShiftLeft(g, 63), g / 2, ShiftLeft(g % 2, 63));
    Mod64Is(low + ShiftLeft(g, 63), g / 2, low + ShiftLeft(g % 2, 63));
  }

  lemma Shift63(g: nat)
    ensures ShiftLeft(g, 63) == 0x8000_0000_0000_0000 * g
  {
    ShiftValues(g);
    ShiftValues(0x1000_0000 * g);
    ShiftSeven(0x100_0000_0000_0000 * g);
    ShiftAdds(g, 28, 28);
    ShiftAdds(g, 56, 7);
  }

  lemma Mod64Is(x: nat, q: nat, r: nat)
    requires x == q * 0x1_0000_0000_0000_0000 + r && r < 0x1_0000_0000_0000_0000
    ensures x % 0x1_0000_0000_0000_0000 == r
  {}

  lemma SmallMod64(x: nat)
    requires x < 0x1_0000_0000_0000_0000
    ensures x % 0x1_0000_0000_0000_0000 == x
  {}
}
