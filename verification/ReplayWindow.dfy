/** The anti-replay window of DTLS records: a 64-bit map below the highest number seen. */
module ReplayWindow {
  import opened Bits

  /** The number a byte string spells in big-endian order. */
  function BigEndian(s: seq<byte>): nat
  {
    if s == [] then 0 else 256 * BigEndian(s[..|s| - 1]) + s[|s| - 1]
  }

  /** `to_u64_be` */
  method ToU64(s: seq<byte>) returns (n: nat)
    requires |s| == 8
    ensures n == BigEndian(s) < Pow2(64)
  {
    n := 0;
    for i := 0 to 8
      invariant n == BigEndian(s[..i]) < Pow2(8 * i)
    {
      assert s[..i + 1][..i] == s[..i];
      assert Pow2(8 * i + 8) == 256 * Pow2(8 * i) by { Pow2Add(8, 8 * i); assert Pow2(4) == 16; assert Pow2(8) == 256; }
      n := Append8(n, s[i], 8 * i);
    }
    assert s[..8] == s;
  }

  /** `ret <<= 8; ret |= b`, with no bits lost. */
  method Append8(ret: nat, b: byte, ghost bits: nat) returns (n: nat)
    requires ret < Pow2(bits) && bits <= 56
    ensures n == 256 * ret + b
  {
    n := Or(Low(ShiftLeft(ret, 8), 64), b);
    Appends(ret, b, bits);
  }

  lemma Appends(ret: nat, b: byte, bits: nat)
    requires ret < Pow2(bits) && bits <= 56
    ensures Or(Low(ShiftLeft(ret, 8), 64), b) == 256 * ret + b
  {
    ShiftSeven(ret);
    assert ShiftLeft(ret, 8) == 256 * ret;
    assert 256 * ret < Pow2(64) by {
      Pow2Monotone(bits, 56);
      Pow2Add(8, 56);
      assert Pow2(4) == 16; assert Pow2(8) == 256;
    }
    LowIsSame(256 * ret, 64);
    OrSwap(256 * ret, b);
    assert Pow2(8) == 256 by { assert Pow2(4) == 16; }
    OrDisjoint(b, ret, 8);
  }

  lemma {:induction false} LowIsSame(v: nat, n: nat)
    requires v < Pow2(n)
    ensures Low(v, n) == v
  {
    if n > 0 {
      LowIsSame(v / 2, n - 1);
    }
  }

  lemma {:induction false} OrSwap(a: nat, b: nat)
    ensures Or(a, b) == Or(b, a)
  {
    if a != 0 && b != 0 {
      OrSwap(a / 2, b / 2);
    }
  }

  /** The highest number recorded, or zero. */
  ghost predicate IsMax(max: nat, recorded: set<nat>) {
    (forall n :: n in recorded ==> n <= max) && (max in recorded || (max == 0 && recorded == {}))
  }

  /** The set view of the window: a number is stale when recorded, or 64 or more below the highest. */
  ghost predicate Stale(n: nat, max: nat, recorded: set<nat>) {
    n in recorded || n + 64 <= max
  }

  /** Bit i of the map stands for the number i below the highest. */
  ghost predicate MapHolds(bits: nat, max: nat, recorded: set<nat>) {
    bits < Pow2(64) && forall i :: 0 <= i < 64 ==> (Bit(bits, i) <==> i <= max && max - i in recorded)
  }

  /** `DTLS1_BITMAP` */
  class Window {
    var bits: nat
    var max: nat
    ghost var recorded: set<nat>

    ghost predicate Valid()
      reads this
    {
      IsMax(max, recorded) && MapHolds(bits, max, recorded)
    }

    constructor ()
      ensures Valid() && recorded == {} && max == 0
    {
      bits, max, recorded := 0, 0, {};
      new;
      forall k { NoBits(k); }
    }

    /** The `memset` of an epoch change. */
    method Reset()
      modifies this
      ensures Valid() && recorded == {} && max == 0
    {
      bits, max, recorded := 0, 0, {};
      forall k { NoBits(k); }
    }

    /** `dtls1_bitmap_should_discard` */
    method ShouldDiscard(number: seq<byte>) returns (discard: bool)
      requires Valid() && |number| == 8
      ensures discard <==> Stale(BigEndian(number), max, recorded)
    {
      var n := ToU64(number);
      if n > max {
        return false;
      }
      var idx := max - n;
      if idx >= 64 {
        return true;
      }
      SingleBit(bits, idx);
      return And(bits, ShiftLeft(1, idx)) != 0;
    }

    /** `dtls1_bitmap_record` */
    method Record(number: seq<byte>)
      requires Valid() && |number| == 8
      modifies this
      ensures Valid() && recorded == old(recorded) + {BigEndian(number)}
      ensures max == if BigEndian(number) > old(max) then BigEndian(number) else old(max)
    {
      var n := ToU64(number);
      if n > max {
        var shift := n - max;
        SlideHolds(bits, max, recorded, n);
        bits := Slid(bits, shift);
        max := n;
      }
      var idx := max - n;
      MarkHolds(bits, max, recorded, n);
      recorded := recorded + {n};
      if idx < 64 {
        bits := Or(bits, ShiftLeft(1, idx));
      }
    }
  }

  lemma SingleBit(v: nat, i: nat)
    ensures And(v, ShiftLeft(1, i)) != 0 <==> Bit(v, i)
  {
    PowerIsShift(i);
    AndBits(v, Pow2(i), i);
    Pow2Bits(i, i);
    if Bit(v, i) {
      NoBits(i);
    } else {
      forall k | 0 <= k < i + 1
        ensures Bit(And(v, Pow2(i)), k) <==> Bit(0, k)
      {
        AndBits(v, Pow2(i), k); Pow2Bits(i, k); NoBits(k);
      }
      AndBound(v, Pow2(i));
      SameBits(And(v, Pow2(i)), 0, i + 1);
    }
  }

  /** `map <<= shift` on 64 bits, or zero when every bit would be shifted out. */
  function Slid(bits: nat, shift: nat): (slid: nat)
    ensures slid < Pow2(64)
  {
    if shift >= 64 then 0 else Low(ShiftLeft(bits, shift), 64)
  }

  /** Sliding the map up to a new highest number; the bits of what is recorded keep their meaning. */
  lemma SlideHolds(bits: nat, max: nat, recorded: set<nat>, n: nat)
    requires MapHolds(bits, max, recorded) && IsMax(max, recorded) && n > max
    ensures MapHolds(Slid(bits, n - max), n, recorded)
  {
    var shift := n - max;
    forall i | 0 <= i < 64
      ensures Bit(Slid(bits, shift), i) <==> i <= n && n - i in recorded
    {
      NoBits(i);
      LowBits(ShiftLeft(bits, shift), 64, i);
      ShiftBits(bits, shift, i);
      assert i >= shift ==> max - (i - shift) == n - i;
    }
  }

  /** Setting the bit of a number in the window; a number below it leaves the map as it is. */
  lemma MarkHolds(bits: nat, max: nat, recorded: set<nat>, n: nat)
    requires n <= max && MapHolds(bits, max, recorded)
    ensures max < n + 64 ==> MapHolds(Or(bits, ShiftLeft(1, max - n)), max, recorded + {n})
    ensures n + 64 <= max ==> MapHolds(bits, max, recorded + {n})
  {
    var idx := max - n;
    if idx < 64 {
      PowerIsShift(idx);
      Pow2Monotone(idx, 63);
      OrBound(bits, Pow2(idx), 64);
      forall i | 0 <= i < 64
        ensures Bit(Or(bits, Pow2(idx)), i) <==> i <= max && max - i in recorded + {n}
      {
        OrBits(bits, Pow2(idx), i);
        Pow2Bits(idx, i);
      }
    }
  }

  // ---- Runs within one epoch.

  /** A record's number, and whether it passes authentication. */
  datatype Arrival = Arrival(number: nat, authentic: bool)

  /** The numbers of the records let through, in order of arrival: each is tested, opened, then recorded. */
  ghost function Accepted(arrivals: seq<Arrival>, max: nat, recorded: set<nat>): seq<nat>
  {
    if arrivals == [] then []
    else
      var n, rest := arrivals[0].number, arrivals[1..];
      if Stale(n, max, recorded) || !arrivals[0].authentic then Accepted(rest, max, recorded)
      else [n] + Accepted(rest, if n > max then n else max, recorded + {n})
  }

  /** No record is let through twice, whatever arrives in whatever order. */
  lemma {:induction false} NoneAcceptedTwice(arrivals: seq<Arrival>, max: nat, recorded: set<nat>)
    requires IsMax(max, recorded)
    ensures forall i, j :: 0 <= i < j < |Accepted(arrivals, max, recorded)| ==>
              Accepted(arrivals, max, recorded)[i] != Accepted(arrivals, max, recorded)[j]
    ensures forall n :: n in Accepted(arrivals, max, recorded) ==> n !in recorded
  {
    if arrivals != [] {
      var n, rest := arrivals[0].number, arrivals[1..];
      if Stale(n, max, recorded) || !arrivals[0].authentic {
        NoneAcceptedTwice(rest, max, recorded);
      } else {
        NoneAcceptedTwice(rest, if n > max then n else max, recorded + {n});
      }
    }
  }

  /** Records of one epoch, each number sent once, all get through as long as none is overtaken by 64. */
  lemma {:induction false} NoneLost(arrivals: seq<Arrival>, max: nat, recorded: set<nat>)
    requires IsMax(max, recorded)
    requires forall i :: 0 <= i < |arrivals| ==> arrivals[i].authentic && arrivals[i].number !in recorded && max < arrivals[i].number + 64
    requires forall i, j :: 0 <= i < j < |arrivals| ==>
               arrivals[i].number != arrivals[j].number && arrivals[i].number < arrivals[j].number + 64
    ensures |Accepted(arrivals, max, recorded)| == |arrivals|
    ensures forall i :: 0 <= i < |arrivals| ==> Accepted(arrivals, max, recorded)[i] == arrivals[i].number
  {
    if arrivals != [] {
      var n := arrivals[0].number;
      assert !Stale(n, max, recorded);
      NoneLost(arrivals[1..], if n > max then n else max, recorded + {n});
    }
  }
}
