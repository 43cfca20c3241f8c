/** A DTLS handshake message under reassembly, with its bitmask of received bytes. */
module Reassembly {
  import opened Wrappers
  import opened Bits
  import opened HandshakeFragments

  /** `bit_range`: bits `start`, inclusive, to `end`, exclusive. */
  function BitRange(start: nat, end: nat): (w: nat)
    requires start <= 8 && end <= 8
    ensures w < 256
  {
    And(NotLow(start), Pow2(end) - 1) % 0x100
  }

  /** `~((1u << start) - 1)` */
  function NotLow(start: nat): nat
    requires start <= 8
  {
    Pow2Values();
    Pow2Monotone(start, 32);
    0x1_0000_0000 - Pow2(start)
  }

  lemma BitRangeBits(start: nat, end: nat, k: nat)
    requires start <= 8 && end <= 8
    ensures Bit(BitRange(start, end), k) <==> start <= k < end
  {
    BitRangeIs(start, end);
    AndBits(NotLow(start), Ones(end), k);
    NotLowBits(start, k);
    OnesBits(end, k);
  }

  /** The conversion to eight bits loses nothing. */
  lemma BitRangeIs(start: nat, end: nat)
    requires start <= 8 && end <= 8
    ensures BitRange(start, end) == And(NotLow(start), Ones(end))
  {
    EightBits();
    Pow2Monotone(end, 8);
    AndBound(NotLow(start), Ones(end));
    Small(And(NotLow(start), Ones(end)));
  }

  lemma Small(v: nat)
    requires v < 256
    ensures v % 0x100 == v
  {}

  lemma NotLowBits(start: nat, k: nat)
    requires start <= 8
    ensures Bit(NotLow(start), k) <==> start <= k < 32
  {
    Pow2Values();
    BitsBetween(start, 32, k);
  }

  lemma BitsBetween(start: nat, end: nat, k: nat)
    requires start <= end
    ensures Pow2(start) <= Pow2(end)
    ensures Bit(Pow2(end) - Pow2(start), k) <==> start <= k < end
  {
    Pow2Monotone(start, end);
    ComplementBits(Ones(start), end, k);
    OnesBits(start, k);
  }

  /** The bytes of a message received so far. */
  type Partial = seq<Option<byte>>

  /** A message of n bytes none of which has been received. */
  function Nothing(n: nat): (got: Partial)
    ensures |got| == n && forall k :: 0 <= k < n ==> got[k].None?
  {
    seq(n, i => None)
  }

  predicate Has(got: Partial, k: nat) {
    k < |got| && got[k].Some?
  }

  predicate Complete(got: Partial) {
    None !in got
  }

  /** The bytes of `body` written over a partial message from `at`. */
  function Merged(got: Partial, at: nat, body: seq<byte>): (r: Partial)
    requires at + |body| <= |got|
    ensures |r| == |got|
    ensures forall k :: 0 <= k < |got| ==> r[k] == if at <= k < at + |body| then Some(body[k - at]) else got[k]
  {
    got[..at] + seq(|body|, i requires 0 <= i < |body| => Some(body[i])) + got[at + |body|..]
  }

  /** Byte i of a mask holds the positions 8i to 8i + 7: those received and those from `start` to `end`. */
  ghost predicate ByteHolds(b: byte, i: nat, got: Partial, start: nat, end: nat) {
    forall k :: 0 <= k < 8 ==> (Bit(b, k) <==> Has(got, 8 * i + k) || start <= 8 * i + k < end)
  }

  /** `b | bit_range(from, to)` */
  function OrByte(b: byte, from: nat, to: nat): byte
    requires from <= 8 && to <= 8
  {
    assert Or(b, BitRange(from, to)) < 256 by { EightBits(); OrBound(b, BitRange(from, to), 8); }
    Or(b, BitRange(from, to))
  }

  /** What a byte of the mask becomes when the positions from `start` to `end` are marked. */
  function ByteWithRange(b: byte, i: nat, start: nat, end: nat): byte
  {
    var first, last := start / 8, end / 8;
    if i < first || last < i then b
    else if first == last then OrByte(b, start % 8, end % 8)
    else if i == first then OrByte(b, start % 8, 8)
    else if i < last then 0xff
    else if end % 8 == 0 then b
    else OrByte(b, 0, end % 8)
  }

  lemma ByteOfRange(b: byte, i: nat, got: Partial, start: nat, end: nat)
    requires ByteHolds(b, i, got, 0, 0) && start < end
    ensures ByteHolds(ByteWithRange(b, i, start, end), i, got, start, end)
  {
    var first, last := start / 8, end / 8;
    ByteCases(i, start); ByteCases(i, end);
    if i < first || last < i {
      Clip(b, i, got, 0, 0, start, end);
    } else {
      var from, to := if i == first then start % 8 else 0, if i == last then end % 8 else 8;
      RangeBits(b, i, got, from, to);
      Clip(OrByte(b, from, to), i, got, 8 * i + from, 8 * i + to, start, end);
      Clip(0xff, i, got, 8 * i, 8 * i + 8, start, end);
      Clip(b, i, got, 0, 0, start, end);
    }
  }

  lemma RangeBits(b: byte, i: nat, got: Partial, from: nat, to: nat)
    requires ByteHolds(b, i, got, 0, 0) && from <= 8 && to <= 8
    ensures ByteHolds(OrByte(b, from, to), i, got, 8 * i + from, 8 * i + to)
    ensures ByteHolds(0xff, i, got, 8 * i, 8 * i + 8)
  {
    EightBits();
    forall k | 0 <= k < 8
      ensures Bit(OrByte(b, from, to), k) <==> Has(got, 8 * i + k) || 8 * i + from <= 8 * i + k < 8 * i + to
      ensures Bit(0xff, k)
    {
      OrBits(b, BitRange(from, to), k);
      BitRangeBits(from, to, k);
      OnesBits(8, k);
    }
  }

  /** Only the part of a range that lies within a byte matters to it. */
  lemma Clip(b: byte, i: nat, got: Partial, from: nat, to: nat, start: nat, end: nat)
    ensures ByteHolds(b, i, got, from, to) && (forall k {:trigger Has(got, k)} :: 8 * i <= k < 8 * i + 8 ==> (from <= k < to <==> start <= k < end))
            ==> ByteHolds(b, i, got, start, end)
  {}

  lemma EightBits()
    ensures Pow2(8) == 256 && Ones(8) == 0xff
  {
    assert Pow2(4) == 16;
  }

  lemma WholeByte()
    ensures BitRange(0, 8) == 0xff
  {
    EightBits();
    forall k | 0 <= k < 8
      ensures Bit(BitRange(0, 8), k) <==> Bit(0xff, k)
    {
      BitRangeBits(0, 8, k); OnesBits(8, k);
    }
    SameBits(BitRange(0, 8), 0xff, 8);
  }

  /** Whether all positions of a range have been received. */
  predicate HasUpTo(got: Partial, from: nat, to: nat) {
    forall k :: from <= k < to ==> Has(got, k)
  }

  lemma CompleteMeans(got: Partial)
    ensures Complete(got) <==> HasUpTo(got, 0, |got|)
  {
    if HasUpTo(got, 0, |got|) {
      forall k | 0 <= k < |got|
        ensures got[k] != None
      {
        assert Has(got, k);
      }
    }
  }

  /** Where a byte of the mask stands to an end of a range. */
  lemma ByteCases(i: nat, p: nat)
    ensures i < p / 8 ==> 8 * i + 8 <= p
    ensures i == p / 8 ==> 8 * i + p % 8 == p
    ensures i > p / 8 ==> p < 8 * i
  {}

  /** A byte equals the range of its first n bits exactly when those, and no others, are received. */
  lemma ByteComplete(b: byte, i: nat, got: Partial, n: nat)
    requires ByteHolds(b, i, got, 0, 0)
    requires n == if |got| >= 8 * i + 8 then 8 else |got| - 8 * i
    ensures b == BitRange(0, n) <==> HasUpTo(got, 8 * i, 8 * i + n)
    ensures HasUpTo(got, 8 * i, 8 * i + n) <== Complete(got)
  {
    EightBits();
    if b == BitRange(0, n) {
      forall k | 8 * i <= k < 8 * i + n
        ensures Has(got, k)
      {
        BitRangeBits(0, n, k - 8 * i);
        assert Bit(b, k - 8 * i);
      }
    }
    if HasUpTo(got, 8 * i, 8 * i + n) {
      forall k | 0 <= k < 8
        ensures Bit(b, k) <==> Bit(BitRange(0, n), k)
      {
        BitRangeBits(0, n, k);
        assert k < n ==> Has(got, 8 * i + k);
      }
      SameBits(b, BitRange(0, n), 8);
    }
  }

  /** `hm_fragment` */
  class HmFragment {
    const typ: byte
    const seqNo: nat
    const msgLen: nat
    const data: array<byte>
    var reassembly: array?<byte>
    ghost var got: Partial

    ghost predicate Valid()
      reads this, data, reassembly
    {
      && |got| == msgLen && data.Length == 12 + msgLen
      && msgLen < 0x100_0000 && seqNo < 0x1_0000
      && data[..12] == HeaderBytes(Header(typ, msgLen, seqNo, 0, msgLen))
      && (forall k :: 0 <= k < msgLen && got[k].Some? ==> data[12 + k] == got[k].value)
      && (reassembly == null <==> Complete(got))
      && (reassembly != null ==> reassembly != data && reassembly.Length == (msgLen + 7) / 8 && MaskHolds(0, 0))
    }

    ghost predicate MaskHolds(start: nat, end: nat)
      requires reassembly != null
      reads this, reassembly
    {
      forall i :: 0 <= i < reassembly.Length ==> ByteHolds(reassembly[i], i, got, start, end)
    }

    /** The objects that make up this message. */
    ghost function Footprint(): set<object>
      reads this
    {
      {this, data} + if reassembly != null then {reassembly} else {}
    }

    /** `dtls1_hm_fragment_new` */
    constructor (h: Header)
      requires FieldsFit(h)
      ensures Valid() && fresh(Footprint())
      ensures typ == h.typ && seqNo == h.seqNo && msgLen == h.msgLen
      ensures got == Nothing(msgLen)
    {
      typ, seqNo, msgLen := h.typ, h.seqNo, h.msgLen;
      got := Nothing(h.msgLen);
      data := new byte[12 + h.msgLen];
      reassembly := null;
      new;
      var header := HeaderBytes(Header(typ, msgLen, seqNo, 0, msgLen));
      for i := 0 to 12
        modifies data
        invariant data[..i] == header[..i]
      {
        data[i] := header[i];
      }
      if h.msgLen > 0 {
        reassembly := new byte[(h.msgLen + 7) / 8](_ => 0);
        forall k { NoBits(k); }
        assert got[0].None?;
      }
    }

    /** The mask updates of `dtls1_hm_fragment_mark`, before its check for completion. */
    method SetRange(start: nat, end: nat)
      requires reassembly != null && reassembly.Length == (msgLen + 7) / 8 && start < end <= msgLen
      modifies reassembly
      ensures forall i :: 0 <= i < reassembly.Length ==> reassembly[i] == ByteWithRange(old(reassembly[i]), i, start, end)
    {
      var first, last := start / 8, end / 8;
      ghost var mask := reassembly[..];
      if first == last {
        reassembly[first] := OrByte(reassembly[first], start % 8, end % 8);
      } else {
        reassembly[first] := OrByte(reassembly[first], start % 8, 8);
        for i := first + 1 to last
          modifies reassembly
          invariant reassembly[first] == OrByte(mask[first], start % 8, 8)
          invariant forall j :: 0 <= j < reassembly.Length && j != first ==> reassembly[j] == if first < j < i then 0xff else mask[j]
        {
          reassembly[i] := 0xff;
        }
        if end % 8 != 0 {
          reassembly[last] := OrByte(reassembly[last], 0, end % 8);
        }
      }
    }

    /** Whether every byte has been received, by comparing the bytes of the mask. */
    method AllReceived() returns (all: bool)
      requires reassembly != null && reassembly.Length == (msgLen + 7) / 8 && |got| == msgLen && MaskHolds(0, 0)
      ensures all <==> Complete(got)
    {
      WholeByte();
      CompleteMeans(got);
      for i := 0 to msgLen / 8
        invariant HasUpTo(got, 0, 8 * i)
      {
        ByteComplete(reassembly[i], i, got, 8);
        if reassembly[i] != 0xff {
          return false;
        }
      }
      var last, rest := msgLen / 8, msgLen % 8;
      if rest != 0 {
        ByteComplete(reassembly[last], last, got, rest);
        if reassembly[last] != BitRange(0, rest) {
          return false;
        }
      }
      return true;
    }

    /** `dtls1_hm_fragment_mark`; `next` is the partial message with the bytes from `start` to `end` added. */
    method Mark(start: nat, end: nat, ghost next: Partial)
      requires reassembly != null && reassembly.Length == (msgLen + 7) / 8 && |got| == |next| == msgLen
      requires start <= end <= msgLen && MaskHolds(0, 0) && !Complete(got)
      requires forall k :: 0 <= k < msgLen ==> (next[k].Some? <==> got[k].Some? || start <= k < end)
      modifies this`reassembly, this`got, reassembly
      ensures got == next && (reassembly == null <==> Complete(got))
      ensures reassembly != null ==> reassembly == old(reassembly) && MaskHolds(0, 0)
    {
      if start == end {
        SameMarks(got, next);
        got := next;
        return;
      }
      SetRange(start, end);
      forall i | 0 <= i < reassembly.Length
        ensures ByteHolds(reassembly[i], i, next, 0, 0)
      {
        ByteOfRange(old(reassembly[i]), i, got, start, end);
        forall k | 0 <= k < 8
          ensures Bit(reassembly[i], k) <==> Has(next, 8 * i + k)
        {
          assert Has(next, 8 * i + k) <==> Has(got, 8 * i + k) || start <= 8 * i + k < end;
        }
      }
      got := next;
      var all := AllReceived();
      if all {
        reassembly := null;
      }
    }

    /** Copying a fragment's body into place and marking it. */
    method Fill(at: nat, body: seq<byte>)
      requires Valid() && reassembly != null && at + |body| <= msgLen
      modifies this`reassembly, this`got, data, reassembly
      ensures Valid() && (reassembly == null || reassembly == old(reassembly))
      ensures got == Merged(old(got), at, body)
    {
      ghost var before := data[..];
      for i := 0 to |body|
        modifies data
        invariant forall k :: 0 <= k < data.Length ==> data[k] == if 12 + at <= k < 12 + at + i then body[k - 12 - at] else before[k]
      {
        data[12 + at + i] := body[i];
      }
      assert data[..12] == before[..12];
      Mark(at, at + |body|, Merged(got, at, body));
    }

    /** What is at the message's place in the buffer once it is complete. */
    method Body() returns (body: seq<byte>)
      requires Valid() && reassembly == null
      ensures |body| == msgLen && forall k :: 0 <= k < msgLen ==> got[k] == Some(body[k])
    {
      return data[12..];
    }
  }

  /** Partial messages with the same positions received are complete together. */
  lemma SameMarks(got: Partial, next: Partial)
    requires |got| == |next| && forall k :: 0 <= k < |got| ==> (next[k].Some? <==> got[k].Some?)
    ensures Complete(got) <==> Complete(next)
    ensures forall b: byte, i: nat, start: nat, end: nat :: ByteHolds(b, i, got, start, end) ==> ByteHolds(b, i, next, start, end)
  {
    assert forall k: nat :: Has(got, k) <==> Has(next, k);
  }
}
