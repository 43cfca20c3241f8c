/** BoringSSL's record buffer, with its 16-bit offsets, and a stream BIO. */
module RecordBuffers {
  import opened Bits

  /** `(0 - header_len - address) & 7`: the slack that aligns what follows a header of that length. */
  function Slack(headerLen: nat, address: nat): (s: nat)
    ensures s < 8 && (address + s + headerLen) % 8 == 0
  {
    (8 - (headerLen + address) % 8) % 8
  }

  /** An offset moved on in 16 bits. */
  function Moved(offset: nat, len: nat): nat {
    (offset + len) % 0x1_0000
  }

  /**
   * Consuming part of a buffer leaves the offset exact as long as offset and capacity together stay
   * within 16 bits, and otherwise some part of it does not.
   */
  lemma OffsetExact(offset: nat, cap: nat)
    requires offset < 0x1_0000
    ensures offset + cap <= 0x1_0000 <==> forall len {:trigger Moved(offset, len)} :: 0 <= len < cap ==> Moved(offset, len) == offset + len
  {
    if offset + cap > 0x1_0000 {
      assert Moved(offset, 0x1_0000 - offset) == 0;
    }
  }

  /** Capacities up to 0xfff9 are safe at every alignment, and no larger one is. */
  lemma SafeCapacities(cap: nat)
    ensures cap <= 0xfff9 <==> forall headerLen: nat, address: nat {:trigger Slack(headerLen, address)} :: Slack(headerLen, address) + cap <= 0x1_0000
  {
    assert Slack(0, 1) == 7;
  }

  /** `SSLBuffer` */
  class RecordBuffer {
    var buf: array?<byte>
    var offset: nat
    var size: nat
    var cap: nat

    ghost predicate Valid()
      reads this
    {
      && size <= cap && offset + cap <= 0x1_0000 && offset < 0x1_0000
      && (buf == null ==> cap == 0)
      && (buf != null ==> offset + cap <= buf.Length)
    }

    /** `span()`: what the buffer holds. */
    function Contents(): (s: seq<byte>)
      requires Valid()
      reads this, buf
      ensures |s| == size
    {
      if buf == null then [] else buf[offset..offset + size]
    }

    constructor ()
      ensures Valid() && Contents() == [] && buf == null
    {
      buf, offset, size, cap := null, 0, 0, 0;
    }

    method Clear()
      requires Valid()
      modifies this
      ensures Valid() && Contents() == [] && buf == null && cap == 0
    {
      buf, offset, size, cap := null, 0, 0, 0;
    }

    /** `EnsureCap`; `address` is where a new allocation would be. */
    method EnsureCap(headerLen: nat, newCap: nat, address: nat) returns (ok: bool)
      requires Valid() && (newCap <= 0xffff ==> Slack(headerLen, address) + newCap <= 0x1_0000)
      modifies this
      ensures Valid() && Contents() == old(Contents())
      ensures ok <==> newCap <= 0xffff
      ensures ok ==> cap >= newCap
      ensures buf == old(buf) || fresh(buf)
      ensures buf != old(buf) ==> (address + offset + headerLen) % 8 == 0
    {
      if newCap > 0xffff {
        return false;
      }
      if cap >= newCap {
        return true;
      }
      var newBuf := new byte[newCap + 7];
      var newOffset := Slack(headerLen, address);
      if buf != null {
        for i := 0 to size
          modifies newBuf
          invariant newBuf[newOffset..newOffset + i] == buf[offset..offset + i]
        {
          newBuf[newOffset + i] := buf[offset + i];
        }
      }
      buf, offset, cap := newBuf, newOffset, newCap;
      return true;
    }

    /** Filling the front of `remaining()`, then `DidWrite`. */
    method Put(data: seq<byte>)
      requires Valid() && |data| <= cap - size
      modifies this`size, buf
      ensures Valid() && Contents() == old(Contents()) + data
      ensures cap == old(cap)
    {
      if buf != null {
        ghost var before := buf[offset..offset + size];
        for i := 0 to |data|
          modifies buf
          invariant buf[offset..offset + size] == before && buf[offset + size..offset + size + i] == data[..i]
        {
          buf[offset + size + i] := data[i];
        }
        assert buf[offset..offset + size + |data|] == buf[offset..offset + size] + buf[offset + size..offset + size + |data|];
      }
      size := size + |data|;
    }

    method Consume(len: nat)
      requires Valid() && len <= size
      modifies this`offset, this`size, this`cap
      ensures Valid() && Contents() == old(Contents())[len..]
    {
      if len < cap {
        OffsetExact(offset, cap);
        assert Moved(offset, len) == offset + len;
      }
      offset := Moved(offset, len);
      size, cap := size - len, cap - len;
    }
  }

  /** A stream BIO whose answers are arbitrary: it takes any part of what it is given, or fails. */
  class StreamBio {
    const answer: nat -> int
    var calls: nat
    ghost var delivered: seq<byte>
    /** How often it was flushed, and how much had been delivered when a flush last succeeded. */
    ghost var flushes: nat
    ghost var flushed: nat

    constructor (answer: nat -> int)
      ensures delivered == [] && calls == flushes == flushed == 0
    {
      this.answer, calls, delivered, flushes, flushed := answer, 0, [], 0, 0;
    }

    /** Since call number `since` it was called, and its last answer was a failure. */
    ghost predicate Failed(since: nat)
      reads this
    {
      since < calls && answer(calls - 1) <= 0
    }

    /** `BIO_write` */
    method Write(data: seq<byte>) returns (ret: int)
      modifies this
      ensures calls == old(calls) + 1 && ret == (if answer(old(calls)) > |data| then |data| else answer(old(calls)))
      ensures delivered == if ret > 0 then old(delivered) + data[..ret] else old(delivered)
      ensures flushes == old(flushes) && flushed == old(flushed)
    {
      ret := answer(calls);
      calls := calls + 1;
      if ret > |data| {
        ret := |data|;
      }
      if ret > 0 {
        delivered := delivered + data[..ret];
      }
    }

    /** `BIO_flush` */
    method Flush() returns (ret: int)
      modifies this
      ensures calls == old(calls) + 1 && ret == answer(old(calls))
      ensures delivered == old(delivered) && flushes == old(flushes) + 1
      ensures flushed == if ret > 0 then |delivered| else old(flushed)
    {
      ret := answer(calls);
      calls := calls + 1;
      flushes := flushes + 1;
      if ret > 0 {
        flushed := |delivered|;
      }
    }
  }
}
