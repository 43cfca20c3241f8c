/** The TLS write path: a pending flight and a write buffer that drain through partial, retried writes. */
module Writing {
  import opened Wrappers
  import opened Bits
  import opened RecordBuffers

  const APPLICATION_DATA: byte := 23

  /** A sealed record: its type, its plaintext, its bytes on the wire, and the call of the cipher that made them. */
  datatype Sealed = Sealed(typ: byte, plain: seq<byte>, bytes: seq<byte>, call: nat)

  type Cipher = (nat, byte, seq<byte>) -> Option<seq<byte>>

  /** Every record is what the cipher made of its plaintext, each by a call of its own, in the order of the calls. */
  ghost predicate SealedInOrder(records: seq<Sealed>, cipher: Cipher, calls: nat) {
    && (forall k :: 0 <= k < |records| ==> SealedBy(records[k], cipher) && records[k].call < calls)
    && (forall j, k :: 0 <= j < k < |records| ==> records[j].call < records[k].call)
  }

  predicate SealedBy(r: Sealed, cipher: Cipher) {
    cipher(r.call, r.typ, r.plain) == Some(r.bytes)
  }

  lemma SealedNext(records: seq<Sealed>, cipher: Cipher, calls: nat, r: Sealed)
    requires SealedInOrder(records, cipher, calls)
    ensures SealedInOrder(records, cipher, calls + 1)
    ensures r.call == calls && SealedBy(r, cipher) ==> SealedInOrder(records + [r], cipher, calls + 1)
  {}

  /** All records' bytes, in the order of sealing. */
  function Wire(records: seq<Sealed>): seq<byte> {
    if records == [] then [] else Wire(records[..|records| - 1]) + records[|records| - 1].bytes
  }

  /** The plaintext of the application records. */
  function Plain(records: seq<Sealed>): seq<byte> {
    if records == [] then []
    else
      var last := records[|records| - 1];
      Plain(records[..|records| - 1]) + if last.typ == APPLICATION_DATA then last.plain else []
  }

  lemma SealAppends(records: seq<Sealed>, r: Sealed)
    ensures Wire(records + [r]) == Wire(records) + r.bytes
    ensures Plain(records + [r]) == Plain(records) + if r.typ == APPLICATION_DATA then r.plain else []
  {
    assert (records + [r])[..|records|] == records;
  }

  class Writer {
    const bio: StreamBio
    const buffer: RecordBuffer
    /** The record cipher: the n-th call seals, or fails. It adds at most `overhead` bytes. */
    const cipher: Cipher
    const overhead: nat
    const partialWrite: bool        // SSL_MODE_ENABLE_PARTIAL_WRITE
    const movingBuffer: bool        // SSL_MODE_ACCEPT_MOVING_WRITE_BUFFER
    const maxSendFragment: nat
    var flight: Option<seq<byte>>   // pending_flight
    var flightOffset: nat
    var wnum: nat
    var pending: bool               // wpend_pending, and the arguments that go with it
    var pendingTot: nat
    var pendingBuf: nat
    var pendingType: byte
    var pendingRet: nat
    var shutdown: bool
    var seals: nat
    ghost var records: seq<Sealed>
    /** The application bytes reported as written, and those sealed for a write not yet reported. */
    ghost var reported: seq<byte>
    ghost var unreported: seq<byte>

    ghost predicate Valid()
      reads this, buffer, buffer.buf, bio
    {
      && buffer.Valid()
      && CipherOk()
      && flightOffset <= |Flight()|
      && 512 <= maxSendFragment <= 16384
      && Conserved()
      && overhead + maxSendFragment <= 0xfff9
      && (pending ==> pendingRet == pendingTot > 0)
      && (pending && pendingType == APPLICATION_DATA ==> pendingTot <= maxSendFragment && pendingTot <= |unreported|)
      && Plain(records) == reported + unreported
      && SealedInOrder(records, cipher, seals)
    }

    ghost predicate CipherOk() {
      forall n: nat, typ, data {:trigger cipher(n, typ, data)} :: cipher(n, typ, data).Some? ==> |cipher(n, typ, data).value| <= |data| + overhead
    }

    function Flight(): seq<byte>
      reads this`flight
    {
      match flight case Some(f) => f case None => []
    }

    /** Nothing sealed is lost, repeated or out of order: it is delivered, in the write buffer, or in the flight. */
    ghost predicate Conserved()
      requires buffer.Valid() && flightOffset <= |Flight()|
      reads this`flight, this`flightOffset, this`records, buffer, buffer.buf, bio
    {
      bio.delivered + (buffer.Contents() + Flight()[flightOffset..]) == Wire(records)
    }

    constructor (bio: StreamBio, cipher: Cipher, overhead: nat, partialWrite: bool, movingBuffer: bool, maxSendFragment: nat)
      requires bio.delivered == [] && 512 <= maxSendFragment <= 16384 && overhead + maxSendFragment <= 0xfff9
      requires forall n: nat, typ, data {:trigger cipher(n, typ, data)} :: cipher(n, typ, data).Some? ==> |cipher(n, typ, data).value| <= |data| + overhead
      ensures Valid() && this.bio == bio && fresh(buffer) && records == [] && reported == unreported == []
    {
      this.bio, this.cipher, this.overhead := bio, cipher, overhead;
      this.partialWrite, this.movingBuffer, this.maxSendFragment := partialWrite, movingBuffer, maxSendFragment;
      buffer := new RecordBuffer();
      flight, flightOffset, wnum, pending, pendingTot, pendingBuf, pendingType, pendingRet := None, 0, 0, false, 0, 0, 0, 0;
      shutdown, seals, records, reported, unreported := false, 0, [], [], [];
    }

    /** `tls_seal_record` */
    method Seal(typ: byte, data: seq<byte>) returns (sealed: Option<seq<byte>>)
      requires CipherOk()
      modifies this`seals
      ensures sealed == cipher(old(seals), typ, data) && seals == old(seals) + 1
      ensures sealed.Some? ==> |sealed.value| <= |data| + overhead
    {
      sealed := cipher(seals, typ, data);
      seals := seals + 1;
    }

    // ---- The pending flight.

    /** `add_record_to_flight` */
    method AddRecordToFlight(typ: byte, data: seq<byte>) returns (ok: bool)
      requires Valid() && flightOffset == 0 && typ != APPLICATION_DATA
      modifies this`seals, this`flight, this`records
      ensures Valid()
      ensures if ok then Appended(old(records), records, typ, [data]) else records == old(records)
      ensures ok <==> cipher(old(seals), typ, data).Some?
      ensures seals == old(seals) + 1
    {
      hide Wire, Plain, Appended, CipherOk, SealedInOrder;
      ghost var call := seals;
      if flight.None? {
        flight := Some([]);
      }
      ghost var held, contents := flight.value, buffer.Contents();
      assert bio.delivered + (contents + held[0..]) == Wire(records);
      hide Conserved;
      var sealed := Seal(typ, data);
      SealedNext(records, cipher, call, Sealed(typ, data, if sealed.Some? then sealed.value else [], call));
      if sealed.None? {
        ConservedAs(bio.delivered + (contents + held[0..]));
        return false;
      }
      ghost var r := Sealed(typ, data, sealed.value, call);
      SealAppends(records, r);
      AppendedOne(records, r);
      Regroup(bio.delivered, contents, held, sealed.value);
      flight := Some(flight.value + sealed.value);
      records := records + [r];
      ConservedAs(bio.delivered + (contents + (held + sealed.value)[0..]));
      return true;
    }

    /** `ssl3_add_message`: the message is split into records of at most `maxSendFragment` bytes. */
    method AddMessage(msg: seq<byte>) returns (ok: bool, ghost added: seq<seq<byte>>)
      requires Valid() && flightOffset == 0
      modifies this`seals, this`flight, this`records
      ensures Valid() && Appended(old(records), records, 22, added)
      ensures AllWithin(added, maxSendFragment)
      ensures Joined(added) <= msg && (ok ==> Joined(added) == msg)
    {
      hide Wire, Plain, CipherOk, Conserved, Joined, Appended;
      AppendedNone(records, 22);
      assert AllWithin([], maxSendFragment);
      assert maxSendFragment > 0;
      hide Valid, AllWithin;
      var rest := msg;
      added := [];
      ok := false;
      var more := true;
      while more
        invariant Valid() && Appended(old(records), records, 22, added)
        invariant AllWithin(added, maxSendFragment)
        invariant Joined(added) + rest == msg && (!more ==> rest == [])
        decreases more, |rest|
      {
        var chunk := rest[..if |rest| < maxSendFragment then |rest| else maxSendFragment];
        ghost var before := records;
        var done := AddRecordToFlight(22, chunk);
        if !done {
          return false, added;
        }
        AppendedNext(old(records), before, records, 22, added, chunk);
        WithinAppends(added, chunk, maxSendFragment);
        Rejoin(added, rest, |chunk|);
        rest := rest[|chunk|..];
        added := added + [chunk];
        more := rest != [];
      }
      return true, added;
    }

    /** `ssl3_add_change_cipher_spec`, and `ssl3_add_alert` with its two bytes. */
    method AddRecord(typ: byte, data: seq<byte>) returns (ok: bool)
      requires Valid() && flightOffset == 0 && (typ == 20 || typ == 21)
      modifies this`seals, this`flight, this`records
      ensures Valid()
      ensures if ok then Appended(old(records), records, typ, [data]) else records == old(records)
    {
      ok := AddRecordToFlight(typ, data);
    }

    // ---- Draining.

    /** One turn of `tls_write_buffer_flush`. */
    method WriteOut() returns (ret: int)
      requires Valid() && buffer.size > 0
      modifies bio, buffer
      ensures Valid() && buffer.buf == old(buffer.buf)
      ensures ret > 0 ==> buffer.size < old(buffer.size)
      ensures ret <= 0 ==> buffer.Contents() == old(buffer.Contents()) && bio.Failed(old(bio.calls))
      ensures old(bio.calls) < bio.calls && bio.flushes == old(bio.flushes)
    {
      hide Wire, Plain, SealedInOrder;
      var contents := buffer.Contents();
      ret := bio.Write(contents);
      if ret > 0 {
        Moves(old(bio.delivered), contents, Flight()[flightOffset..], ret);
        buffer.Consume(ret);
      }
    }

    /** `tls_write_buffer_flush` */
    method FlushBuffer() returns (ret: int)
      requires Valid()
      modifies bio, buffer
      ensures Valid() && ret <= 1 && (buffer.buf == null || buffer.buf == old(buffer.buf))
      ensures ret > 0 ==> buffer.Contents() == []
      ensures ret <= 0 ==> bio.Failed(old(bio.calls))
      ensures old(bio.calls) <= bio.calls && bio.flushes == old(bio.flushes)
    {
      hide Wire, Plain, SealedInOrder;
      while buffer.size > 0
        invariant Valid() && buffer.buf == old(buffer.buf) && old(bio.calls) <= bio.calls && bio.flushes == old(bio.flushes)
        decreases buffer.size
      {
        var sent := WriteOut();
        if sent <= 0 {
          return sent;
        }
      }
      ghost var contents := buffer.Contents();
      buffer.Clear();
      assert contents == buffer.Contents();
      return 1;
    }

    /** `ssl3_flush_flight` */
    method FlushFlight() returns (ret: int)
      requires Valid()
      modifies this`flight, this`flightOffset, bio, buffer
      ensures Valid() && ret <= 1
      ensures ret > 0 ==> flight.None?
      ensures ret > 0 && old(flight).Some? ==> bio.delivered == Wire(records) && bio.flushed == |bio.delivered|
      ensures ret <= 0 ==> flight == old(flight) && flight.Some?
      ensures var refused := old(flight).Some? && (shutdown || |old(flight).value| > 0x7fff_ffff);
              && (refused ==> ret == -1 && bio.calls == old(bio.calls) && bio.delivered == old(bio.delivered) && flightOffset == old(flightOffset))
              && (!refused && ret <= 0 ==> bio.Failed(old(bio.calls)))
    {
      hide Wire, Plain, SealedInOrder, Conserved;
      if flight.None? {
        return 1;
      }
      if shutdown || |flight.value| > 0x7fff_ffff {
        return -1;
      }
      if buffer.size > 0 {
        ret := FlushBuffer();
        if ret <= 0 {
          return;
        }
      }
      ret := DrainFlight();
      if ret > 0 {
        ret := FinishFlight();
      }
    }

    /** The end of `ssl3_flush_flight`: a flight that is written goes once the BIO is flushed. */
    method FinishFlight() returns (ret: int)
      requires Valid() && flight.Some? && buffer.size == 0 && flightOffset == |flight.value|
      modifies this`flight, this`flightOffset, bio
      ensures Valid() && ret <= 1 && old(bio.calls) <= bio.calls
      ensures ret > 0 ==> flight.None? && bio.delivered == Wire(records) && bio.flushed == |bio.delivered|
      ensures ret <= 0 ==> flight == old(flight) && bio.Failed(old(bio.calls))
    {
      hide Wire, Plain, SealedInOrder, Conserved;
      AllDelivered();
      var flushed := bio.Flush();
      if flushed <= 0 {
        ConservedAs(bio.delivered);
        return -1;
      }
      flight, flightOffset := None, 0;
      ConservedAs(bio.delivered);
      return 1;
    }

    /** One turn of the loop of `ssl3_flush_flight`. */
    method WriteFlight() returns (ret: int)
      requires Valid() && flight.Some? && flightOffset < |flight.value| && buffer.size == 0
      modifies this`flightOffset, bio
      ensures Valid()
      ensures flightOffset == if ret > 0 then old(flightOffset) + ret else old(flightOffset)
      ensures old(bio.calls) < bio.calls && (ret <= 0 ==> bio.Failed(old(bio.calls)))
    {
      hide Wire, Plain, SealedInOrder;
      var rest := flight.value[flightOffset..];
      ghost var total, sent := bio.delivered + ([] + rest), bio.delivered;
      assert buffer.Contents() == [] && total == Wire(records);
      hide Conserved;
      ret := bio.Write(rest);
      if ret > 0 {
        FrontMoves(sent, flight.value, flightOffset, ret);
        flightOffset := flightOffset + ret;
      }
      ConservedAs(total);
    }

    /** The loop of `ssl3_flush_flight`. */
    method DrainFlight() returns (ret: int)
      requires Valid() && flight.Some? && buffer.size == 0
      modifies this`flightOffset, bio
      ensures Valid() && ret <= 1 && old(bio.calls) <= bio.calls
      ensures if ret > 0 then flightOffset == |flight.value| else bio.Failed(old(bio.calls))
    {
      hide Wire, Plain, SealedInOrder, Conserved;
      while flightOffset < |flight.value|
        invariant Valid() && old(bio.calls) <= bio.calls
        decreases |flight.value| - flightOffset
      {
        var sent := WriteFlight();
        if sent <= 0 {
          return sent;
        }
      }
      return 1;
    }

    lemma AllDelivered()
      requires Valid() && buffer.size == 0 && flightOffset == |Flight()|
      ensures bio.delivered == Wire(records) && buffer.Contents() == [] && Flight()[flightOffset..] == []
    {
      hide Wire;
      assert buffer.Contents() == [] && Flight()[flightOffset..] == [];
    }

    // ---- Application data.

    /** What of the current write has been sealed and acknowledged, without the record still pending. */
    ghost function Settled(): (s: seq<byte>)
      reads this`pending, this`pendingType, this`pendingTot, this`unreported
    {
      if pending && pendingType == APPLICATION_DATA && pendingTot <= |unreported| then unreported[..|unreported| - pendingTot]
      else unreported
    }

    /** A retry of the pending write: no shorter, of the same type, and from the same address unless the buffer may move. */
    predicate Conforms(typ: byte, len: nat, address: nat)
      reads this`pendingTot, this`pendingBuf, this`pendingType
    {
      pendingTot <= len && (movingBuffer || pendingBuf == address) && pendingType == typ
    }

    /** `ssl3_write_pending`, for `len` bytes at an address. */
    method WritePending(typ: byte, len: nat, address: nat) returns (ret: int)
      requires Valid() && pending
      modifies this`pending, bio, buffer
      ensures Valid() && (buffer.buf == null || buffer.buf == old(buffer.buf))
      ensures ret > 0 ==> !pending && ret == pendingRet && buffer.Contents() == []
      ensures ret > 0 ==> pendingTot <= len && pendingType == typ && (movingBuffer || pendingBuf == address)
      ensures ret <= 0 ==> pending
      ensures !Conforms(typ, len, address) ==> ret == -1 && bio.delivered == old(bio.delivered) && buffer.Contents() == old(buffer.Contents())
      ensures old(Conforms(typ, len, address)) && ret <= 0 ==> bio.Failed(old(bio.calls))
      ensures bio.flushes == old(bio.flushes) && old(bio.calls) <= bio.calls
    {
      hide Wire, Plain, SealedInOrder;
      if pendingTot > len || (!movingBuffer && pendingBuf != address) || pendingType != typ {
        return -1;
      }
      ret := FlushBuffer();
      if ret <= 0 {
        return;
      }
      pending := false;
      return pendingRet;
    }

    /** The flight still to be written, and a record, fit the buffer's 16-bit offsets or are refused for their size. */
    ghost predicate Room()
      requires flightOffset <= |Flight()|
      reads this`flight, this`flightOffset
    {
      var held := |Flight()| - flightOffset + overhead;
      held + maxSendFragment <= 0xfff9 || held > 0xffff
    }

    /** Moving the pending flight to the empty write buffer, before anything is sealed after it. */
    method MoveFlight(space: nat, prefixLen: nat, newBlock: nat) returns (ok: bool)
      requires Valid() && buffer.size == 0
      requires |Flight()| - flightOffset + space <= 0xfff9 || |Flight()| - flightOffset + space > 0xffff
      modifies this`flight, this`flightOffset, buffer, buffer.buf
      ensures Valid() && (buffer.buf == null || buffer.buf == old(buffer.buf) || fresh(buffer.buf))
      ensures ok ==> flight.None? && buffer.cap - buffer.size >= space
      ensures !ok ==> flight == old(flight) && flightOffset == old(flightOffset) && buffer.size == 0
      ensures ok <==> |old(Flight())| - old(flightOffset) + space <= 0xffff
    {
      hide Wire, Plain, SealedInOrder;
      var rest := Flight()[flightOffset..];
      ok := buffer.EnsureCap(|rest| + prefixLen, |rest| + space, newBlock);
      if !ok {
        return;
      }
      if flight.Some? {
        assert buffer.Contents() == [];
        buffer.Put(rest);
        flight, flightOffset := None, 0;
        assert buffer.Contents() + Flight()[flightOffset..] == [] + rest;
      }
    }

    /** Sealing a record into the write buffer. */
    method SealRecord(typ: byte, data: seq<byte>) returns (ok: bool)
      requires Valid() && !pending && flight.None? && buffer.cap - buffer.size >= |data| + overhead
      modifies this`seals, this`records, this`unreported, buffer`size, buffer.buf
      ensures Valid()
      ensures if ok then Appended(old(records), records, typ, [data]) else records == old(records)
      ensures unreported == if ok && typ == APPLICATION_DATA then old(unreported) + data else old(unreported)
      ensures (ok <==> cipher(old(seals), typ, data).Some?) && seals == old(seals) + 1
    {
      hide Wire, Plain, Appended, CipherOk, SealedInOrder;
      ghost var call := seals;
      ghost var contents, rest := buffer.Contents(), Flight()[flightOffset..];
      assert bio.delivered + (contents + rest) == Wire(records);
      hide Conserved;
      var sealed := Seal(typ, data);
      SealedNext(records, cipher, call, Sealed(typ, data, if sealed.Some? then sealed.value else [], call));
      if sealed.None? {
        ConservedAs(bio.delivered + (buffer.Contents() + rest));
        return false;
      }
      ghost var r := Sealed(typ, data, sealed.value, call);
      SealAppends(records, r);
      AppendedOne(records, r);
      buffer.Put(sealed.value);
      Extends(bio.delivered, contents, sealed.value, rest);
      records := records + [r];
      ConservedAs(bio.delivered + ((contents + sealed.value) + rest));
      if typ == APPLICATION_DATA {
        assert reported + (unreported + data) == (reported + unreported) + data;
        unreported := unreported + data;
      }
      return true;
    }

    /** Sealing a record and remembering the arguments that a retry must repeat. */
    method SealPending(typ: byte, data: seq<byte>, address: nat) returns (ok: bool)
      requires Valid() && !pending && flight.None? && buffer.cap - buffer.size >= |data| + overhead && 0 < |data| <= maxSendFragment
      modifies this`seals, this`records, this`unreported, this`pending, this`pendingTot, this`pendingBuf, this`pendingType, this`pendingRet
      modifies buffer`size, buffer.buf
      ensures Valid()
      ensures if ok then Appended(old(records), records, typ, [data]) else records == old(records)
      ensures ok ==> pending && pendingTot == |data| && pendingType == typ && pendingBuf == address
      ensures !ok ==> !pending
      ensures (ok <==> cipher(old(seals), typ, data).Some?) && seals == old(seals) + 1
      ensures unreported == if ok && typ == APPLICATION_DATA then old(unreported) + data else old(unreported)
    {
      hide Wire, Plain, Appended, CipherOk, Conserved, SealedInOrder;
      ok := SealRecord(typ, data);
      if ok {
        pendingTot, pendingBuf, pendingType, pendingRet, pending := |data|, address, typ, |data|, true;
      }
    }

    lemma ConservedAs(total: seq<byte>)
      requires buffer.Valid() && flightOffset <= |Flight()|
      requires total == Wire(records) && total == bio.delivered + (buffer.Contents() + Flight()[flightOffset..])
      ensures Conserved()
    {}

    /** `do_ssl3_write`. What is retried must begin with what is pending. */
    method DoWrite(typ: byte, data: seq<byte>, address: nat, prefixLen: nat, newBlock: nat) returns (ret: int)
      requires Valid() && (pending || (Room() && |data| <= maxSendFragment))
      requires typ == APPLICATION_DATA ==> unreported <= Settled() + data
      modifies this`flight, this`flightOffset, this`seals, this`records, this`unreported
      modifies this`pending, this`pendingTot, this`pendingBuf, this`pendingType, this`pendingRet, bio, buffer, buffer.buf
      ensures Valid() && ret <= |data| && old(records) <= records && (old(Room()) ==> Room())
      ensures buffer.buf == null || buffer.buf == old(buffer.buf) || fresh(buffer.buf)
      ensures typ != APPLICATION_DATA ==> unreported == old(unreported)
      ensures typ == APPLICATION_DATA && ret > 0 ==> !pending && unreported == Settled() == old(Settled()) + data[..ret]
      ensures typ == APPLICATION_DATA && ret <= 0 ==> Settled() == old(Settled()) && unreported <= Settled() + data
      ensures if old(pending) then records == old(records) else records == old(records) || Appended(old(records), records, typ, [data])
      ensures ret > 0 ==> if old(pending) then ret == old(pendingTot) else ret == |data| && Appended(old(records), records, typ, [data])
      ensures ret > 0 ==> buffer.Contents() == [] && (old(pending) || flight.None?)
      ensures ret <= 0 && old(pending) ==> !old(Conforms(typ, |data|, address)) || bio.Failed(old(bio.calls))
      ensures old(bio.calls) <= bio.calls && old(seals) <= seals
      ensures ret <= 0 && !old(pending) ==>
                || |data| == 0 || |data| > 16384 || old(buffer.size) > 0
                || (flight == old(flight) && flightOffset == old(flightOffset) && |Flight()| - flightOffset + |data| + overhead > 0xffff)
                || (seals == old(seals) + 1 && cipher(old(seals), typ, data).None?)
                || bio.Failed(old(bio.calls))
      ensures bio.flushes == old(bio.flushes)
    {
      hide Wire, Plain, Conserved, SealedInOrder;
      if pending {
        ret := WritePending(typ, |data|, address);
        return;
      }
      if |data| > 16384 || buffer.size > 0 {
        return -1;
      }
      if |data| == 0 {
        return 0;
      }
      var moved := MoveFlight(|data| + overhead, prefixLen, newBlock);
      if !moved {
        return -1;
      }
      var sealed := SealPending(typ, data, address);
      if !sealed {
        return -1;
      }
      ret := WritePending(typ, |data|, address);
    }

    /** Between calls, the count of settled bytes is kept for the retry. */
    ghost predicate Resumable()
      reads this
    {
      wnum == |Settled()|
    }

    /** What a call that succeeds reports. */
    ghost method Report(data: seq<byte>)
      requires Valid() && !pending && unreported == data
      modifies this`reported, this`unreported
      ensures Valid() && reported == old(reported) + data && unreported == []
    {
      hide Wire, Plain, Conserved, SealedInOrder;
      assert reported + data == (reported + data) + [];
      reported, unreported := reported + data, [];
    }

    /** How much of n bytes goes into one record. */
    function Chunk(n: nat): nat {
      if n > maxSendFragment then maxSendFragment else n
    }

    ghost predicate CipherRefused(call: nat) {
      exists part: seq<byte> {:trigger cipher(call, APPLICATION_DATA, part)} :: cipher(call, APPLICATION_DATA, part).None?
    }

    /**
     * What can keep a conforming write from going on: the BIO refused, the cipher did, or the flight still to
     * be written leaves no room in the buffer.
     */
    ghost predicate Blocked(calls: nat, sealed: nat)
      requires flightOffset <= |Flight()|
      reads this`flight, this`flightOffset, this`seals, bio
    {
      || bio.Failed(calls)
      || (sealed < seals && CipherRefused(seals - 1))
      || |Flight()| - flightOffset + overhead > 0xffff
    }

    /** A write of n bytes does not conform to the record that is pending, or finds the buffer in use without one. */
    ghost predicate Misplaced(n: nat, address: nat)
      reads this`pending, this`pendingTot, this`pendingBuf, this`pendingType, buffer
    {
      if pending then !Conforms(APPLICATION_DATA, Chunk(n), address) else buffer.size > 0
    }

    /** One turn of the loop of `ssl3_write_app_data`: a record of what is left of `data`, or the one still pending. */
    method WriteChunk(data: seq<byte>, tot: nat, address: nat, prefixLen: nat, newBlock: nat) returns (ret: int)
      requires Valid() && Room() && tot <= |data| && Settled() == data[..tot] && unreported <= data
      modifies this`flight, this`flightOffset, this`seals, this`records, this`unreported
      modifies this`pending, this`pendingTot, this`pendingBuf, this`pendingType, this`pendingRet, bio, buffer, buffer.buf
      ensures Valid() && Room() && ret <= |data| - tot && old(records) <= records
      ensures buffer.buf == null || buffer.buf == old(buffer.buf) || fresh(buffer.buf)
      ensures if ret > 0 then !pending && unreported == Settled() == data[..tot + ret] else Settled() == data[..tot] && unreported <= data
      ensures ret > 0 ==> buffer.size == 0
      ensures ret <= 0 ==>
                Blocked(old(bio.calls), old(seals)) || tot == |data| || old(Misplaced(|data| - tot, address + tot))
      ensures old(bio.calls) <= bio.calls && old(seals) <= seals
    {
      hide Wire, Plain, Conserved, SealedInOrder;
      var nw := Chunk(|data| - tot);
      Continues(data, tot, nw, nw);
      ghost var call := seals;
      ret := DoWrite(APPLICATION_DATA, data[tot..tot + nw], address + tot, prefixLen, newBlock);
      assert cipher(call, APPLICATION_DATA, data[tot..tot + nw]).None? ==> CipherRefused(call);
      if ret > 0 {
        Continues(data, tot, nw, ret);
      }
    }

    /**
     * `ssl3_write_app_data`. A retry must begin with the bytes already taken. What is reported written
     * is what the records' plaintexts amount to.
     */
    method WriteAppData(data: seq<byte>, address: nat, prefixLen: nat, newBlock: nat) returns (ret: int)
      requires Valid() && Resumable() && Room() && unreported <= data
      modifies this`flight, this`flightOffset, this`seals, this`records, this`reported, this`unreported, this`wnum
      modifies this`pending, this`pendingTot, this`pendingBuf, this`pendingType, this`pendingRet, bio, buffer, buffer.buf
      ensures Valid() && Resumable() && ret <= |data| && old(records) <= records
      ensures ret > 0 ==> reported == old(reported) + data[..ret] && unreported == [] && !pending
      ensures ret > 0 && !partialWrite ==> ret == |data|
      ensures ret <= 0 ==> reported == old(reported) && unreported <= data
      ensures shutdown ==> ret == -1 && records == old(records) && bio.delivered == old(bio.delivered) && wnum == old(wnum)
      ensures ret <= 0 ==>
                shutdown || Blocked(old(bio.calls), old(seals)) || |data| == old(wnum) || old(Misplaced(|data| - wnum, address + wnum))
    {
      hide Wire, Plain, Conserved, SealedInOrder, CipherRefused, CipherOk;
      if shutdown {
        return -1;
      }
      var tot := wnum;
      wnum := 0;
      if |data| < tot {
        return -1;
      }
      var n := |data| - tot;
      while true
        invariant Valid() && Room() && n == |data| - tot && n >= 0 && old(records) <= records && reported == old(reported)
        invariant Settled() == data[..tot] && unreported <= data && wnum == 0
        invariant old(bio.calls) <= bio.calls && old(seals) <= seals && shutdown == old(shutdown)
        invariant Misplaced(n, address + tot) ==> old(Misplaced(|data| - wnum, address + wnum))
        invariant n == 0 ==> |data| == old(wnum)
        invariant buffer.buf == null || buffer.buf == old(buffer.buf) || fresh(buffer.buf)
        decreases n
      {
        ret := WriteChunk(data, tot, address, prefixLen, newBlock);
        if ret <= 0 {
          wnum := tot;
          return;
        }
        if ret == n || partialWrite {
          Report(data[..tot + ret]);
          return tot + ret;
        }
        n := n - ret;
        tot := tot + ret;
      }
    }

    /** `ssl3_dispatch_alert` */
    method DispatchAlert(level: byte, desc: byte, address: nat, prefixLen: nat, newBlock: nat) returns (ret: int)
      requires Valid() && (pending || Room())
      modifies this`flight, this`flightOffset, this`seals, this`records, this`unreported
      modifies this`pending, this`pendingTot, this`pendingBuf, this`pendingType, this`pendingRet, bio, buffer, buffer.buf
      ensures Valid() && old(records) <= records && ret <= 1
      ensures reported + unreported == old(reported + unreported)
      ensures if old(pending) then records == old(records) else records == old(records) || Appended(old(records), records, 21, [[level, desc]])
      ensures ret > 0 && !old(pending) ==> Appended(old(records), records, 21, [[level, desc]])
      ensures ret > 0 ==> buffer.Contents() == []
      ensures bio.flushes == if ret > 0 && level == 2 then old(bio.flushes) + 1 else old(bio.flushes)
    {
      hide Wire, Plain, SealedInOrder, Appended;
      ret := DoWrite(21, [level, desc], address, prefixLen, newBlock);
      if ret <= 0 {
        return;
      }
      if level == 2 {
        var _ := bio.Flush();
      }
      return 1;
    }
  }

  lemma Continues(data: seq<byte>, tot: nat, n: nat, m: nat)
    requires m <= n && tot + n <= |data|
    ensures |data[tot..tot + n]| == n && data[..tot] + data[tot..tot + n][..m] == data[..tot + m]
    ensures data[tot..tot + n][..n] == data[tot..tot + n]
  {}

  lemma FrontMoves(delivered: seq<byte>, flight: seq<byte>, offset: nat, n: nat)
    requires offset + n <= |flight|
    ensures (delivered + flight[offset..][..n]) + ([] + flight[offset + n..]) == delivered + ([] + flight[offset..])
  {
    assert flight[offset..] == flight[offset..][..n] + flight[offset + n..];
  }

  /** Bytes that move from the front of what is held to what is delivered. */
  lemma Moves(delivered: seq<byte>, held: seq<byte>, rest: seq<byte>, n: nat)
    requires n <= |held|
    ensures (delivered + held[..n]) + (held[n..] + rest) == delivered + (held + rest)
  {
    assert held == held[..n] + held[n..];
  }

  /** Records of one type, one for each of the given plaintexts in order. */
  ghost predicate Carry(records: seq<Sealed>, typ: byte, parts: seq<seq<byte>>) {
    |records| == |parts| && forall k :: 0 <= k < |parts| ==> records[k].typ == typ && records[k].plain == parts[k]
  }

  /** Such records have been sealed after those there were. */
  ghost predicate Appended(before: seq<Sealed>, after: seq<Sealed>, typ: byte, parts: seq<seq<byte>>) {
    before <= after && Carry(after[|before|..], typ, parts)
  }

  lemma AppendedNone(records: seq<Sealed>, typ: byte)
    ensures Appended(records, records, typ, []) && Joined([]) == []
  {}

  lemma AppendedOne(records: seq<Sealed>, r: Sealed)
    ensures Appended(records, records + [r], r.typ, [r.plain])
  {
    assert (records + [r])[|records|..] == [r];
  }

  lemma AppendedNext(before: seq<Sealed>, mid: seq<Sealed>, after: seq<Sealed>, typ: byte, parts: seq<seq<byte>>, part: seq<byte>)
    requires Appended(before, mid, typ, parts) && Appended(mid, after, typ, [part])
    ensures Appended(before, after, typ, parts + [part])
  {
    assert before == mid[..|before|] == after[..|before|];
    assert after[|before|..] == mid[|before|..] + after[|mid|..];
  }

  lemma Extends(delivered: seq<byte>, held: seq<byte>, more: seq<byte>, rest: seq<byte>)
    requires rest == []
    ensures delivered + ((held + more) + rest) == (delivered + (held + rest)) + more
  {
    assert (held + more) + rest == held + more && held + rest == held;
  }

  lemma Regroup(a: seq<byte>, b: seq<byte>, c: seq<byte>, x: seq<byte>)
    ensures a + (b + (c + x)[0..]) == (a + (b + c[0..])) + x
  {
    assert (c + x)[0..] == c + x && c[0..] == c;
  }

  ghost predicate AllWithin(parts: seq<seq<byte>>, n: nat) {
    forall part :: part in parts ==> |part| <= n
  }

  lemma WithinAppends(parts: seq<seq<byte>>, part: seq<byte>, n: nat)
    requires AllWithin(parts, n) && |part| <= n
    ensures AllWithin(parts + [part], n)
  {}

  function Joined(parts: seq<seq<byte>>): seq<byte> {
    if parts == [] then [] else Joined(parts[..|parts| - 1]) + parts[|parts| - 1]
  }

  /** Moving the front of what is left to the parts already made. */
  lemma Rejoin(parts: seq<seq<byte>>, rest: seq<byte>, n: nat)
    requires n <= |rest|
    ensures Joined(parts + [rest[..n]]) + rest[n..] == Joined(parts) + rest
  {
    assert (parts + [rest[..n]])[..|parts|] == parts;
    assert rest == rest[..n] + rest[n..];
  }
}
