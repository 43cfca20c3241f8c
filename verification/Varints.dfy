/**
 * The base-128 varints of the Protocol Buffers wire format, as mathematical functions on byte
 * sequences, with the acceptance conditions of the 64-bit and of the 32-bit decoder.
 */
module Varints {
  import opened Wrappers
  import opened Bits

  /** The canonical encoding: seven bits a byte, least significant group first. */
  function Varint(v: nat): (s: seq<byte>)
    ensures |s| > 0
  {
    if v < 128 then [v] else [v % 128 + 128] + Varint(v / 128)
  }

  /** The seven data bits of a byte: `b & 0x7F`. */
  function Group(b: byte): (g: nat)
    ensures g < 128
  {
    if b < 128 then b else b - 128
  }

  /** The number a varint at the head of `s` spells, at any length, and its number of bytes. */
  function RawVarint(s: seq<byte>): (r: Option<(nat, nat)>)
    ensures r.Some? ==> 0 < r.value.1 <= |s|
  {
    if s == [] then None
    else if s[0] < 128 then Some((s[0], 1))
    else match RawVarint(s[1..]) {
      case None => None
      case Some((v, n)) => Some((Group(s[0]) + 128 * v, n + 1))
    }
  }

  /** What the 64-bit decoder accepts: at most ten bytes; bits past the 64th are shifted out. */
  function Decode64(s: seq<byte>): (r: Option<(nat, seq<byte>)>)
    ensures r.Some? ==> r.value.0 < 0x1_0000_0000_0000_0000 && |r.value.1| < |s|
  {
    match RawVarint(s)
    case Some((v, n)) => if n <= 10 then Some((v % 0x1_0000_0000_0000_0000, s[n..])) else None
    case None => None
  }

  /** Seven more bits or-ed into a 32-bit result; bits shifted past the 32nd are lost. */
  function Merge32(result: nat, group: nat, bitpos: nat): (r: nat)
    requires result < 0x1_0000_0000
    ensures r < 0x1_0000_0000
  {
    assert Or(result, ShiftLeft(group, bitpos) % 0x1_0000_0000) < 0x1_0000_0000 by {
      Pow2Values();
      OrBound(result, ShiftLeft(group, bitpos) % 0x1_0000_0000, 32);
    }
    Or(result, ShiftLeft(group, bitpos) % 0x1_0000_0000)
  }

  /** The loop of the 32-bit decoder, entered with `result` holding the bits below `bitpos`. */
  function Decode32From(s: seq<byte>, result: nat, bitpos: nat): (r: Option<(nat, seq<byte>)>)
    requires result < 0x1_0000_0000 && bitpos < 256
    ensures r.Some? ==> |r.value.1| < |s|
  {
    if s == [] then None
    else
      var b := s[0];
      var next := if bitpos + 7 < 256 then bitpos + 7 else bitpos + 7 - 256;
      if bitpos >= 32 && Group(b) != 0
         && (result < 0x8000_0000 || b != (if bitpos < 63 then 0xFF else 0x01)) then None
      else
        var result' := if bitpos >= 32 then result else Merge32(result, Group(b), bitpos);
        if b >= 128 then Decode32From(s[1..], result', next)
        else if next == 35 && b >= 16 then None
        else Some((result', s[1..]))
  }

  /** What the 32-bit decoder accepts and returns. */
  function Decode32(s: seq<byte>): (r: Option<(nat, seq<byte>)>)
    ensures r.Some? ==> |r.value.1| < |s|
  {
    if s == [] then None
    else if s[0] < 128 then Some((s[0], s[1..]))
    else Decode32From(s[1..], Group(s[0]), 7)
  }

  // ---- Canonical encodings and the number they spell.

  lemma {:induction false} RawOfVarint(v: nat, tail: seq<byte>)
    ensures RawVarint(Varint(v) + tail) == Some((v, |Varint(v)|))
    ensures (Varint(v) + tail)[|Varint(v)|..] == tail
  {
    var s := Varint(v) + tail;
    if v >= 128 {
      RawOfVarint(v / 128, tail);
      assert s[1..] == Varint(v / 128) + tail;
    }
  }

  /** A varint has at most n bytes exactly when the number is below 128^n. */
  lemma {:induction false} VarintLength(v: nat, n: nat)
    requires n > 0
    ensures |Varint(v)| <= n <==> v < Pow2(7 * n)
  {
    assert Pow2(7 * n) == 128 * Pow2(7 * (n - 1)) by { Pow2Add(7, 7 * (n - 1)); Pow2Values(); }
    if v >= 128 {
      if n > 1 {
        VarintLength(v / 128, n - 1);
      } else {
        assert Pow2(0) == 1;
      }
    } else {
      assert Pow2(7 * (n - 1)) >= 1;
    }
  }

  /** The encoding of a 64-bit number fits the encoder's ten-byte buffer. */
  lemma VarintFits(v: nat)
    requires v < 0x1_0000_0000_0000_0000
    ensures |Varint(v)| <= 10
  {
    Pow2Values();
    Pow2Monotone(64, 70);
    VarintLength(v, 10);
  }

  /** The 64-bit decoder inverts the encoder on every 64-bit number and leaves what follows. */
  lemma Decode64OfVarint(v: nat, tail: seq<byte>)
    requires v < 0x1_0000_0000_0000_0000
    ensures Decode64(Varint(v) + tail) == Some((v, tail))
  {
    RawOfVarint(v, tail);
    VarintFits(v);
  }

  // ---- The 32-bit decoder. `Rest`, `GroupAt` and `Low32` follow its loop over the groups of one number.

  /** The number left after its i lowest seven-bit groups. */
  function Rest(v: nat, i: nat): nat {
    if i == 0 then v else Rest(v, i - 1) / 128
  }

  function GroupAt(v: nat, i: nat): (g: nat)
    ensures g < 128
    ensures Rest(v, i) == g + 128 * Rest(v, i + 1)
  {
    Rest(v, i) % 128
  }

  /** The 32-bit result after i groups. */
  function Low32(v: nat, i: nat): (r: nat)
    ensures r < 0x1_0000_0000
  {
    if i == 0 then 0
    else if 7 * (i - 1) >= 32 then Low32(v, i - 1)
    else Merge32(Low32(v, i - 1), GroupAt(v, i - 1), 7 * (i - 1))
  }

  lemma Split128(g: nat, rest: nat, w: nat)
    requires w == g + 128 * rest && g < 128
    ensures w % 128 == g && w / 128 == rest
  {}

  lemma Mod32Is(x: nat, q: nat, r: nat)
    requires x == q * 0x1_0000_0000 + r && r < 0x1_0000_0000
    ensures x % 0x1_0000_0000 == r
  {}

  /** A number written out in its five lowest groups and the rest. */
  lemma FiveGroups(v: nat)
    ensures v == GroupAt(v, 0) + 0x80 * GroupAt(v, 1) + 0x4000 * GroupAt(v, 2) + 0x20_0000 * GroupAt(v, 3)
                 + 0x1000_0000 * Rest(v, 4)
    ensures Rest(v, 4) == GroupAt(v, 4) + 128 * Rest(v, 5)
  {
    assert Rest(v, 0) == GroupAt(v, 0) + 128 * Rest(v, 1);
    assert Rest(v, 1) == GroupAt(v, 1) + 128 * Rest(v, 2);
    assert Rest(v, 2) == GroupAt(v, 2) + 128 * Rest(v, 3);
    assert Rest(v, 3) == GroupAt(v, 3) + 128 * Rest(v, 4);
  }

  lemma FiveMoreGroups(v: nat)
    ensures Rest(v, 5) == GroupAt(v, 5) + 0x80 * GroupAt(v, 6) + 0x4000 * GroupAt(v, 7) + 0x20_0000 * GroupAt(v, 8)
                          + 0x1000_0000 * Rest(v, 9)
    ensures Rest(v, 8) == GroupAt(v, 8) + 128 * Rest(v, 9)
    ensures Rest(v, 7) == GroupAt(v, 7) + 128 * Rest(v, 8)
    ensures Rest(v, 6) == GroupAt(v, 6) + 128 * Rest(v, 7)
    ensures Rest(v, 5) == GroupAt(v, 5) + 128 * Rest(v, 6)
  {
    assert Rest(v, 5) == GroupAt(v, 5) + 128 * Rest(v, 6);
    assert Rest(v, 6) == GroupAt(v, 6) + 128 * Rest(v, 7);
    assert Rest(v, 7) == GroupAt(v, 7) + 128 * Rest(v, 8);
    assert Rest(v, 8) == GroupAt(v, 8) + 128 * Rest(v, 9);
  }

  /** Seven new bits below bit 28 land above the ones already there. */
  lemma MergeAdds(low: nat, g: nat, bitpos: nat, p: nat)
    requires p == Pow2(bitpos) && ShiftLeft(g, bitpos) == p * g
    requires p in {1, 0x80, 0x4000, 0x20_0000} && low < p && g < 128
    ensures Merge32(low, g, bitpos) == low + p * g
  {
    OrDisjoint(low, g, bitpos);
  }

  /** Of the fifth group only the lowest four bits fit. */
  lemma MergeAddsTop(low: nat, g: nat)
    requires low < 0x1000_0000 && g < 128
    ensures Merge32(low, g, 28) == low + (g % 16) * 0x1000_0000
  {
    Pow2Values();
    ShiftValues(g);
    ShiftValues(g % 16);
    Mod32Is(0x1000_0000 * g, g / 16, 0x1000_0000 * (g % 16));
    OrDisjoint(low, g % 16, 28);
  }

  lemma Low32Tiny(v: nat)
    ensures Low32(v, 1) == GroupAt(v, 0)
    ensures Low32(v, 2) == GroupAt(v, 0) + 0x80 * GroupAt(v, 1)
  {
    var g0, g1 := GroupAt(v, 0), GroupAt(v, 1);
    MergeAdds(0, g0, 0, 1);
    assert Low32(v, 1) == Merge32(0, g0, 0);
    Pow2Values();
    ShiftValues(g1);
    MergeAdds(g0, g1, 7, 0x80);
  }

  lemma Low32Small(v: nat)
    ensures Low32(v, 1) == GroupAt(v, 0)
    ensures Low32(v, 2) == GroupAt(v, 0) + 0x80 * GroupAt(v, 1)
    ensures Low32(v, 3) == GroupAt(v, 0) + 0x80 * GroupAt(v, 1) + 0x4000 * GroupAt(v, 2)
    ensures Low32(v, 4) == GroupAt(v, 0) + 0x80 * GroupAt(v, 1) + 0x4000 * GroupAt(v, 2) + 0x20_0000 * GroupAt(v, 3)
  {
    Low32Tiny(v);
    var g2, g3 := GroupAt(v, 2), GroupAt(v, 3);
    Pow2Values();
    ShiftValues(g2); ShiftValues(g3);
    MergeAdds(Low32(v, 2), g2, 14, 0x4000);
    assert Low32(v, 3) == Merge32(Low32(v, 2), g2, 14);
    MergeAdds(Low32(v, 3), g3, 21, 0x20_0000);
  }

  lemma Low32Full(v: nat, i: nat)
    requires i >= 5
    ensures Low32(v, i) == v % 0x1_0000_0000
  {
    if i > 5 {
      Low32Full(v, i - 1);
    } else {
      Low32Small(v);
      FiveGroups(v);
      var low, g4 := Low32(v, 4), GroupAt(v, 4);
      MergeAddsTop(low, g4);
      assert Low32(v, 5) == low + (g4 % 16) * 0x1000_0000;
      Mod32Is(v, g4 / 16 + 8 * Rest(v, 5), low + (g4 % 16) * 0x1000_0000);
    }
  }

  /** Once every group is in, the result is the number modulo 2^32. */
  lemma Low32Done(v: nat, i: nat)
    requires i > 0 && Rest(v, i) == 0
    ensures Low32(v, i) == v % 0x1_0000_0000
  {
    if i >= 5 {
      Low32Full(v, i);
    } else {
      Low32Small(v);
      FiveGroups(v);
      assert i < 4 ==> Rest(v, i + 1) == 0;
      assert i < 3 ==> Rest(v, i + 2) == 0;
      assert i < 2 ==> Rest(v, i + 3) == 0;
      Mod32Is(v, 0, v);
    }
  }

  /** Whenever both decoders accept, they consume the same bytes and agree modulo 2^32. */
  lemma {:induction false} DecodersAgreeFrom(s: seq<byte>, v: nat, i: nat)
    requires i > 0 && RawVarint(s).Some? && RawVarint(s).value.0 == Rest(v, i)
    requires RawVarint(s).value.1 + i <= 10
    requires Decode32From(s, Low32(v, i), 7 * i).Some?
    ensures Decode32From(s, Low32(v, i), 7 * i).value == (v % 0x1_0000_0000, s[RawVarint(s).value.1..])
  {
    if s[0] >= 128 {
      var (w, n) := RawVarint(s[1..]).value;
      Split128(Group(s[0]), w, Rest(v, i));
      DecodersAgreeFrom(s[1..], v, i + 1);
      assert s[1..][n..] == s[n + 1..];
    } else {
      Split128(s[0], 0, Rest(v, i));
      Low32Done(v, i + 1);
    }
  }

  lemma ModMod(v: nat)
    ensures v % 0x1_0000_0000_0000_0000 % 0x1_0000_0000 == v % 0x1_0000_0000
  {
    var r, q := v % 0x1_0000_0000_0000_0000, v / 0x1_0000_0000_0000_0000;
    Mod32Is(v, r / 0x1_0000_0000 + q * 0x1_0000_0000, r % 0x1_0000_0000);
  }

  lemma DecodersAgree(s: seq<byte>)
    requires Decode32(s).Some? && Decode64(s).Some?
    ensures Decode32(s).value.1 == Decode64(s).value.1
    ensures Decode32(s).value.0 == Decode64(s).value.0 % 0x1_0000_0000
  {
    var (v, n) := RawVarint(s).value;
    ModMod(v);
    if s[0] >= 128 {
      Split128(Group(s[0]), RawVarint(s[1..]).value.0, v);
      assert Rest(v, 1) == RawVarint(s[1..]).value.0;
      assert Low32(v, 1) == Group(s[0]) by { Low32Small(v); }
      DecodersAgreeFrom(s[1..], v, 1);
      assert s[1..][n - 1..] == s[n..];
    } else {
      Mod32Is(v, 0, v);
    }
  }

  /** What the 32-bit decoder looks at in the group starting at bit 7i of a number in range. */
  lemma GroupFacts(v: nat, i: nat)
    requires 0 < i <= 9 && Rest(v, i) > 0 && v < 0x1_0000_0000_0000_0000
    ensures i == 9 ==> Rest(v, i) == 1 && v >= 0x8000_0000_0000_0000
    ensures i == 4 ==> (Rest(v, 4) < 16 <==> v < 0x1_0000_0000)
    ensures i > 4 ==> v >= 0x1_0000_0000
    ensures i < 4 && Rest(v, i) < 128 ==> v < 0x1_0000_0000
    ensures i <= 4 && Rest(v, i) < 128 ==> v < 0x8_0000_0000
  {
    FiveGroups(v);
    FiveMoreGroups(v);
  }

  lemma SignFacts(v: nat, i: nat)
    requires 5 <= i <= 9 && 0xFFFF_FFFF_8000_0000 <= v < 0x1_0000_0000_0000_0000
    ensures v % 0x1_0000_0000 >= 0x8000_0000
    ensures if i == 9 then Rest(v, 9) == 1 else GroupAt(v, i) == 127 && Rest(v, i) >= 128
  {
    FiveGroups(v);
    FiveMoreGroups(v);
    assert Rest(v, 5) == 0x1FFF_FFFF;
    Mod32Is(v, 0xFFFF_FFFF, v - 0xFFFF_FFFF_0000_0000);
  }

  lemma ContinuationByte(v: nat, i: nat, tail: seq<byte>)
    requires Rest(v, i) >= 128
    ensures var s := Varint(Rest(v, i)) + tail;
      s[0] == GroupAt(v, i) + 128 && s[1..] == Varint(Rest(v, i + 1)) + tail
  {}

  lemma LastByte(v: nat, i: nat, tail: seq<byte>)
    requires Rest(v, i) < 128
    ensures var s := Varint(Rest(v, i)) + tail;
      s[0] == Rest(v, i) == GroupAt(v, i) && s[1..] == tail && Rest(v, i + 1) == 0
  {}

  /** Past bit 32 the decoder only checks that the groups extend the sign of a negative number. */
  lemma {:induction false} AcceptsSign(v: nat, i: nat, tail: seq<byte>)
    requires 5 <= i <= 9 && 0xFFFF_FFFF_8000_0000 <= v < 0x1_0000_0000_0000_0000
    ensures Decode32From(Varint(Rest(v, i)) + tail, v % 0x1_0000_0000, 7 * i) == Some((v % 0x1_0000_0000, tail))
    decreases 9 - i
  {
    SignFacts(v, i);
    if i < 9 {
      ContinuationByte(v, i, tail);
      AcceptsSign(v, i + 1, tail);
    } else {
      LastByte(v, i, tail);
    }
  }

  /** The 32-bit decoder on what remains of a canonical encoding whose i lowest groups are already read. */
  lemma {:induction false} Accepts32(v: nat, i: nat, tail: seq<byte>)
    requires 0 < i <= 5 && Rest(v, i) > 0
    requires v < 0x1_0000_0000 || 0xFFFF_FFFF_8000_0000 <= v < 0x1_0000_0000_0000_0000
    ensures Decode32From(Varint(Rest(v, i)) + tail, Low32(v, i), 7 * i) == Some((v % 0x1_0000_0000, tail))
    decreases 5 - i
  {
    GroupFacts(v, i);
    if i == 5 {
      Low32Full(v, i);
      AcceptsSign(v, i, tail);
    } else if Rest(v, i) >= 128 {
      ContinuationByte(v, i, tail);
      Accepts32(v, i + 1, tail);
    } else {
      LastByte(v, i, tail);
      Low32Done(v, i + 1);
    }
  }

  lemma {:induction false} Rejects32(v: nat, i: nat, tail: seq<byte>)
    requires 0 < i <= 9 && Rest(v, i) > 0
    requires 0x1_0000_0000 <= v < 0x8000_0000_0000_0000
    ensures Decode32From(Varint(Rest(v, i)) + tail, Low32(v, i), 7 * i) == None
    decreases 9 - i
  {
    GroupFacts(v, i);
    if Rest(v, i) >= 128 {
      ContinuationByte(v, i, tail);
      Rejects32(v, i + 1, tail);
    } else {
      LastByte(v, i, tail);
    }
  }

  /** The 32-bit decoder inverts the encoder below 2^32 and on sign-extended negative numbers. */
  lemma Decode32OfVarint(v: nat, tail: seq<byte>)
    requires v < 0x1_0000_0000 || 0xFFFF_FFFF_8000_0000 <= v < 0x1_0000_0000_0000_0000
    ensures Decode32(Varint(v) + tail) == Some((v % 0x1_0000_0000, tail))
  {
    if v >= 128 {
      assert Low32(v, 1) == GroupAt(v, 0) by { Low32Small(v); }
      ContinuationByte(v, 0, tail);
      Accepts32(v, 1, tail);
    } else {
      LastByte(v, 0, tail);
      Mod32Is(v, 0, v);
    }
  }

  /** It rejects the canonical encoding of every positive number too large for 32 bits. */
  lemma Decode32RejectsLarge(v: nat, tail: seq<byte>)
    requires 0x1_0000_0000 <= v < 0x8000_0000_0000_0000
    ensures Decode32(Varint(v) + tail) == None
  {
    assert Low32(v, 1) == GroupAt(v, 0) by { Low32Small(v); }
    ContinuationByte(v, 0, tail);
    Rejects32(v, 1, tail);
  }

  // ---- Ten-byte varints: the check of the bits past the 32nd is looser than a sign extension.

  lemma TopFacts(v: nat, i: nat)
    requires i <= 9 && 0x8000_0000_0000_0000 <= v < 0x1_0000_0000_0000_0000
    ensures if i == 9 then Rest(v, i) == 1 else Rest(v, i) >= 128
  {
    FiveGroups(v);
    FiveMoreGroups(v);
  }

  /** The groups from i on are each zero or all ones. */
  predicate UniformFrom(v: nat, i: nat)
    decreases 9 - i
  {
    i >= 9 || ((GroupAt(v, i) == 0 || GroupAt(v, i) == 127) && UniformFrom(v, i + 1))
  }

  lemma {:induction false} TopGroups(v: nat, i: nat, tail: seq<byte>)
    requires 5 <= i <= 9 && 0x8000_0000_0000_0000 <= v < 0x1_0000_0000_0000_0000
    ensures Decode32From(Varint(Rest(v, i)) + tail, v % 0x1_0000_0000, 7 * i) ==
            if v % 0x1_0000_0000 >= 0x8000_0000 && UniformFrom(v, i) then Some((v % 0x1_0000_0000, tail)) else None
    decreases 9 - i
  {
    TopFacts(v, i);
    if i < 9 {
      ContinuationByte(v, i, tail);
      TopGroups(v, i + 1, tail);
    } else {
      LastByte(v, i, tail);
    }
  }

  lemma {:induction false} ReachesTop(v: nat, i: nat, tail: seq<byte>)
    requires 0 < i <= 5 && 0x8000_0000_0000_0000 <= v < 0x1_0000_0000_0000_0000
    ensures Decode32From(Varint(Rest(v, i)) + tail, Low32(v, i), 7 * i) == Decode32From(Varint(Rest(v, 5)) + tail, v % 0x1_0000_0000, 35)
    decreases 5 - i
  {
    TopFacts(v, i);
    if i < 5 {
      ContinuationByte(v, i, tail);
      ReachesTop(v, i + 1, tail);
    } else {
      Low32Full(v, 5);
    }
  }

  /**
   * The 32-bit decoder on the shortest varint of every 64-bit number: it accepts those below 2^32, and
   * those of ten bytes whose 32-bit part is negative and whose groups from bit 35 on are each zero or all
   * ones, although only all ones extend the sign.
   */
  lemma Decode32Exactly(v: nat, tail: seq<byte>)
    requires v < 0x1_0000_0000_0000_0000
    ensures Decode32(Varint(v) + tail) ==
            if v < 0x1_0000_0000 || (v >= 0x8000_0000_0000_0000 && v % 0x1_0000_0000 >= 0x8000_0000 && UniformFrom(v, 5))
            then Some((v % 0x1_0000_0000, tail)) else None
  {
    if v < 0x1_0000_0000 {
      Decode32OfVarint(v, tail);
    } else if v < 0x8000_0000_0000_0000 {
      Decode32RejectsLarge(v, tail);
    } else {
      assert Low32(v, 1) == GroupAt(v, 0) by { Low32Small(v); }
      ContinuationByte(v, 0, tail);
      ReachesTop(v, 1, tail);
      TopGroups(v, 5, tail);
    }
  }
}
