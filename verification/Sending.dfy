/** The sending half of a DTLS endpoint: a flight of at most seven messages, sealed into packets. */
module Sending {
  import opened Wrappers
  import opened Bits
  import opened HandshakeFragments
  import opened IncomingMessages
  import opened Flights

  const MIN_MTU := 228
  const DEFAULT_MTU := 1472

  type Packet = seq<WireRecord>

  function PacketSize(packet: Packet): nat {
    if packet == [] then 0 else packet[0].size + PacketSize(packet[1..])
  }

  lemma {:induction false} SizeAppends(packet: Packet, r: WireRecord)
    ensures PacketSize(packet + [r]) == PacketSize(packet) + r.size
  {
    if packet != [] {
      SizeAppends(packet[1..], r);
      assert (packet + [r])[1..] == packet[1..] + [r];
    } else {
      assert packet + [r] == [r];
    }
  }

  /** The records of packets, in the order they are written. */
  function Records(packets: seq<Packet>): seq<WireRecord> {
    if packets == [] then [] else Records(packets[..|packets| - 1]) + packets[|packets| - 1]
  }

  lemma RecordsAppend(packets: seq<Packet>, packet: Packet)
    ensures Records(packets + [packet]) == Records(packets) + packet
  {
    assert (packets + [packet])[..|packets|] == packets;
  }

  /** Packets that the BIO took after what it had taken: none is empty or larger than the MTU. */
  ghost predicate Sent(before: seq<Packet>, after: seq<Packet>, packets: seq<Packet>, records: seq<WireRecord>, mtu: nat) {
    && after == before + packets && records == Records(packets)
    && forall i :: 0 <= i < |packets| ==> packets[i] != [] && PacketSize(packets[i]) <= mtu
  }

  lemma SentNone(wire: seq<Packet>, flight: seq<Item>, p: Pos, mtu: nat)
    requires FlightOk(flight)
    ensures Sent(wire, wire, [], [], mtu) && Records([]) == [] && Tiles([], flight, p, p)
  {}

  lemma SentRecords(before: seq<Packet>, after: seq<Packet>, packets: seq<Packet>, records: seq<WireRecord>, mtu: nat)
    requires Sent(before, after, packets, records, mtu)
    ensures records == Records(packets)
  {}

  lemma SentNext(before: seq<Packet>, after: seq<Packet>, packets: seq<Packet>, records: seq<WireRecord>, mtu: nat, packet: Packet)
    requires Sent(before, after, packets, records, mtu) && packet != [] && PacketSize(packet) <= mtu
    ensures Sent(before, after + [packet], packets + [packet], records + packet, mtu)
  {
    RecordsAppend(packets, packet);
    assert before + packets + [packet] == before + (packets + [packet]);
  }

  /** A record that holds the fragment of `todo` bytes at p is the piece of the flight there. */
  lemma FragmentPiece(r: WireRecord, flight: seq<Item>, p: Pos, todo: nat)
    requires FlightOk(flight) && p.msg < |flight| && flight[p.msg].Handshake?
    requires r.typ == HANDSHAKE && r.epoch == flight[p.msg].epoch
    requires p.off + todo <= |flight[p.msg].m.body| && (todo > 0 || flight[p.msg].m.body == [])
    requires r.plain == FragmentAt(flight[p.msg], p.off, todo)
    ensures Piece(r, flight, p) && Carried(r) == todo
  {}

  /** A datagram BIO whose answers are arbitrary; `wire` is what it accepted. */
  class Bio {
    const answer: nat -> int
    var calls: nat
    ghost var wire: seq<Packet>

    constructor (answer: nat -> int)
      ensures wire == [] && calls == 0
    {
      this.answer, calls, wire := answer, 0, [];
    }

    /** Since call number `since` it was called, and its last answer was `ret`. */
    predicate Answered(since: nat, ret: int)
      reads this`calls
    {
      since < calls && answer(calls - 1) == ret
    }

    /** `BIO_write` */
    method Write(packet: Packet) returns (ret: int)
      modifies this
      ensures wire == if ret > 0 then old(wire) + [packet] else old(wire)
      ensures calls == old(calls) + 1 && ret == answer(old(calls))
    {
      ret := answer(calls);
      calls := calls + 1;
      if ret > 0 {
        wire := wire + [packet];
      }
    }

    /** `BIO_flush` */
    method Flush() returns (ret: int)
      modifies this
      ensures wire == old(wire)
      ensures calls == old(calls) + 1 && ret == answer(old(calls))
    {
      ret := answer(calls);
      calls := calls + 1;
    }
  }

  /** `DTLS_OUTGOING_MESSAGE` */
  datatype OutMsg = OutMsg(data: seq<byte>, epoch: nat, isCcs: bool)

  /** How a message of a flight is kept: a handshake message as a single fragment. */
  function Kept(item: Item): OutMsg
    requires ItemOk(item)
  {
    OutMsg(if item.Ccs? then [] else FragmentAt(item, 0, |item.m.body|), item.epoch, item.Ccs?)
  }

  /** What is kept parses as one fragment that is the whole message. */
  lemma KeptParses(flight: seq<Item>, i: nat)
    requires FlightOk(flight) && i < |flight| && flight[i].Handshake?
    ensures ItemOk(flight[i])
    ensures var m := flight[i].m;
            ParseFragment(Kept(flight[i]).data) == Some((Header(m.typ, |m.body|, flight[i].seqNo, 0, |m.body|), m.body, []))
  {
    var item := flight[i];
    assert ItemOk(item);
    hide ParseFragment, HeaderBytes, FlightOk;
    var m := item.m;
    ParseOfBytes(Header(m.typ, |m.body|, item.seqNo, 0, |m.body|), m.body, []);
    assert m.body[0..|m.body|] == m.body && Kept(item).data + [] == Kept(item).data;
  }

  lemma FragmentIs(item: Item, off: nat, todo: nat)
    requires item.Handshake? && ItemOk(item) && off + todo <= |item.m.body|
    ensures FragmentAt(item, off, todo) == HeaderBytes(Header(item.m.typ, |item.m.body|, item.seqNo, off, todo)) + item.m.body[off..off + todo]
  {}

  datatype SealResult = SealError | NoProgress | Partial | Sealed

  datatype PacketResult = Packed | TooSmall | Unsealed

  datatype FlightResult = Done | Shutdown | SealFailed | MtuTooSmall | WriteFailed(ret: int) | FlushFailed

  class Sender {
    const bio: Bio
    const noQueryMtu: bool
    const outgoing: array<OutMsg>
    var outgoingLen: nat
    var written: nat
    var offset: nat
    var complete: bool
    var hasReply: bool
    var writeSeq: nat
    var writeEpoch: nat
    var aead: Aead
    var lastAead: Aead
    var nextNumber: nat
    var lastNumber: nat
    var mtu: nat
    var numTimeouts: nat
    var timeoutMs: nat
    var timerRunning: bool
    var writeShutdown: bool
    ghost var flight: seq<Item>
    /** All handshake messages added so far, and all records the BIO has accepted. */
    ghost var history: seq<Message>
    ghost var log: seq<WireRecord>

    ghost predicate Valid()
      reads this, outgoing
    {
      && outgoing.Length == 7 && outgoingLen <= 7
      && writeSeq < 0x1_0000 && writeEpoch < 0x1_0000
      && AeadOk(aead) && AeadOk(lastAead)
      && nextNumber < 0x1_0000_0000_0000 && lastNumber < 0x1_0000_0000_0000
      && |flight| == outgoingLen && FlightOk(flight)
      && (forall i :: 0 <= i < outgoingLen ==> outgoing[i] == Kept(flight[i]))
      && PosOk(flight, Position())
    }

    /** The flight is part of the history of messages, and every record sent is genuine. */
    ghost predicate Traced()
      reads this, outgoing
    {
      && Valid()
      && |history| <= 0x1_0000 && writeSeq == |history| % 0x1_0000
      && FromHistory(flight, history)
      && forall i :: 0 <= i < |log| ==> SentGenuine(log[i], history)
    }

    ghost function Position(): Pos
      reads this
    {
      Pos(written, offset)
    }

    /** The overhead of records of a message's epoch. */
    ghost function Overhead(epoch: nat): nat
      reads this
    {
      13 + (if epoch == writeEpoch then aead else lastAead).maxOverhead
    }

    /** The next record number of a message's epoch. */
    ghost function NumberFor(epoch: nat): nat
      reads this
    {
      if epoch == writeEpoch then nextNumber else lastNumber
    }

    /** Messages of the current and the previous epoch can be sealed. */
    predicate EpochKnown(epoch: nat)
      reads this`writeEpoch
    {
      epoch == writeEpoch || epoch + 1 == writeEpoch
    }

    constructor (bio: Bio, noQueryMtu: bool, nullCipher: Aead, mtu: nat)
      requires AeadOk(nullCipher)
      ensures Valid() && fresh(outgoing) && this.bio == bio && this.noQueryMtu == noQueryMtu
      ensures outgoingLen == 0 && Position() == Pos(0, 0) && !complete && writeSeq == 0 && writeEpoch == 0 && this.mtu == mtu
    {
      this.bio, this.noQueryMtu, this.mtu := bio, noQueryMtu, mtu;
      outgoing := new OutMsg[7](_ => OutMsg([], 0, true));
      outgoingLen, written, offset, complete, hasReply := 0, 0, 0, false, false;
      writeSeq, writeEpoch, nextNumber, lastNumber := 0, 0, 0, 0;
      aead, lastAead := nullCipher, nullCipher;
      numTimeouts, timeoutMs, timerRunning, writeShutdown := 0, 0, false, false;
      flight, history, log := [], [], [];
    }

    /** `dtls_seal_record`: the record takes the next number of its epoch. */
    method SealRecord(typ: byte, plain: seq<byte>, previous: bool, maxOut: nat) returns (r: Option<WireRecord>)
      requires Valid() && (previous ==> writeEpoch >= 1)
      requires 13 + (if previous then lastAead else aead).maxOverhead + |plain| <= maxOut
      modifies this`nextNumber, this`lastNumber
      ensures Valid()
      ensures var n := if previous then old(lastNumber) else old(nextNumber);
              && (if previous then lastNumber else nextNumber) == (if n + 1 == 0x1_0000_0000_0000 then 0 else n + 1)
              && (if previous then nextNumber == old(nextNumber) else lastNumber == old(lastNumber))
              && (r.Some? ==> r.value.number == n && r.value.epoch == (if previous then writeEpoch - 1 else writeEpoch))
              && (r.None? <==> n + 1 == 0x1_0000_0000_0000 || (if previous then lastAead else aead).sealedLen(|plain|) >= 0x1_0000)
      ensures r.None? ==> (if previous then old(lastNumber) else old(nextNumber)) + 1 == 0x1_0000_0000_0000 || maxOut > 0x1_0000
      ensures r.Some? ==> r.value.typ == typ && r.value.plain == plain && r.value.size <= maxOut
      ensures r.Some? ==> r.value.size == 13 + (if previous then lastAead else aead).sealedLen(|plain|)
    {
      var n := if previous then lastNumber else nextNumber;
      var cipher := if previous then lastAead else aead;
      var length := cipher.sealedLen(|plain|);
      var next := if n + 1 == 0x1_0000_0000_0000 then 0 else n + 1;
      if previous {
        lastNumber := next;
      } else {
        nextNumber := next;
      }
      if next == 0 || length >= 0x1_0000 {
        return None;
      }
      return Some(WireRecord(typ, if previous then writeEpoch - 1 else writeEpoch, n, plain, 13 + length));
    }

    /** `seal_next_message` */
    method SealNextMessage(maxOut: nat) returns (result: SealResult, r: WireRecord)
      requires Valid() && written < outgoingLen
      modifies this`offset, this`nextNumber, this`lastNumber
      ensures Valid()
      ensures !result.Partial? && !result.Sealed? ==> offset == old(offset)
      ensures result.Partial? || result.Sealed? ==>
                && Piece(r, flight, old(Position())) && r.size <= maxOut
                && Advance(flight, old(Position()), Carried(r)) == Pos(if result.Sealed? then written + 1 else written, offset)
      ensures result.SealError? ==>
                var epoch := outgoing[written].epoch;
                !EpochKnown(epoch) || maxOut > 0x1_0000 || old(NumberFor(epoch)) + 1 == 0x1_0000_0000_0000
      ensures result.NoProgress? ==> maxOut < 13 + Overhead(outgoing[written].epoch)
      ensures result.Partial? ==> offset > 0 && Carried(r) + 12 + Overhead(outgoing[written].epoch) == maxOut
      ensures nextNumber <= old(nextNumber) + 1 && lastNumber <= old(lastNumber) + 1
      ensures result.NoProgress? ==> nextNumber == old(nextNumber) && lastNumber == old(lastNumber)
    {
      var msg := outgoing[written];
      r := WireRecord(0, 0, 0, [], 0);
      var previous := writeEpoch >= 1 && msg.epoch == writeEpoch - 1;
      if !previous && msg.epoch != writeEpoch {
        return SealError, r;
      }
      var cipher := if previous then lastAead else aead;
      var overhead, prefix := 13 + cipher.maxOverhead, 13 + cipher.explicitNonceLen;
      if msg.isCcs {
        if maxOut < 1 + overhead {
          return NoProgress, r;
        }
        var sealed := SealRecord(CHANGE_CIPHER_SPEC, [1], previous, maxOut);
        if sealed.None? {
          return SealError, r;
        }
        return Sealed, sealed.value;
      }
      result, r := SealNextFragment(msg, previous, maxOut);
    }

    /** The part of `seal_next_message` for a handshake message. */
    method SealNextFragment(msg: OutMsg, previous: bool, maxOut: nat) returns (result: SealResult, r: WireRecord)
      requires Valid() && written < outgoingLen && msg == outgoing[written] && !msg.isCcs
      requires msg.epoch == if previous then writeEpoch - 1 else writeEpoch
      modifies this`offset, this`nextNumber, this`lastNumber
      ensures Valid()
      ensures !result.Partial? && !result.Sealed? ==> offset == old(offset)
      ensures result.Partial? || result.Sealed? ==>
                && Piece(r, flight, old(Position())) && r.size <= maxOut
                && Advance(flight, old(Position()), Carried(r)) == Pos(if result.Sealed? then written + 1 else written, offset)
      ensures result.SealError? ==> maxOut > 0x1_0000 || old(NumberFor(msg.epoch)) + 1 == 0x1_0000_0000_0000
      ensures result.NoProgress? ==> maxOut < 13 + Overhead(msg.epoch)
      ensures result.Partial? ==> offset > 0 && Carried(r) + 12 + Overhead(msg.epoch) == maxOut
      ensures nextNumber <= old(nextNumber) + 1 && lastNumber <= old(lastNumber) + 1
      ensures result.NoProgress? ==> nextNumber == old(nextNumber) && lastNumber == old(lastNumber)
    {
      hide ParseFragment, HeaderBytes, U24, U16, Piece, FlightOk, FragmentAt;
      r := WireRecord(0, 0, 0, [], 0);
      var cipher := if previous then lastAead else aead;
      var overhead, prefix := 13 + cipher.maxOverhead, 13 + cipher.explicitNonceLen;
      ghost var item := flight[written];
      KeptParses(flight, written);
      var parsed := ParseFragment(msg.data);
      if parsed.None? {
        return SealError, r;
      }
      var (hdr, whole, rest) := parsed.value;
      if hdr.fragOff != 0 || hdr.fragLen != |whole| || hdr.msgLen != |whole| || offset > |whole| || rest != [] {
        return SealError, r;
      }
      var left := |whole| - offset;
      if maxOut < 12 + 1 + overhead || maxOut < prefix {
        return NoProgress, r;
      }
      var todo := if left > maxOut - 12 - overhead then maxOut - 12 - overhead else left;
      FragmentIs(item, offset, todo);
      var frag := HeaderBytes(Header(hdr.typ, hdr.msgLen, hdr.seqNo, offset, todo)) + whole[offset..offset + todo];
      if |frag| > maxOut - prefix {
        return SealError, r;
      }
      var sealed := SealRecord(HANDSHAKE, frag, previous, maxOut);
      if sealed.None? {
        return SealError, r;
      }
      r := sealed.value;
      FragmentPiece(r, flight, Position(), todo);
      if todo == left {
        offset := 0;
        return Sealed, r;
      }
      offset := offset + todo;
      return Partial, r;
    }

    /** The flight's next `count` records can be sealed: known epochs, room in the length field, numbers left. */
    ghost predicate CanSeal(count: nat, next: nat, last: nat)
      reads this`flight, this`writeEpoch, this`mtu
    {
      && (forall i :: 0 <= i < |flight| ==> EpochKnown(flight[i].epoch))
      && mtu <= 0x1_0000
      && next + count < 0x1_0000_0000_0000 && last + count < 0x1_0000_0000_0000
    }

    /** No room is left for more of the flight: its last fragment took all there was, or not one byte more would fit. */
    ghost predicate Filled(packet: Packet)
      requires written < outgoingLen <= outgoing.Length
      reads this, outgoing
    {
      if offset > 0 then
        packet != [] && PacketSize(packet[..|packet| - 1]) + Carried(packet[|packet| - 1]) + 12 + Overhead(outgoing[written].epoch) == mtu
      else mtu < PacketSize(packet) + 13 + Overhead(outgoing[written].epoch)
    }

    /** One turn of the loop of `seal_next_packet`: the next record joins the packet, unless there is no room or sealing fails. */
    method SealIntoPacket(packet: Packet, ghost start: Pos) returns (result: SealResult, grown: Packet)
      requires Valid() && written < outgoingLen && PacketSize(packet) <= mtu && (packet != [] ==> offset == 0)
      requires Tiles(packet, flight, start, Position())
      modifies this`written, this`offset, this`nextNumber, this`lastNumber
      ensures Valid() && Tiles(grown, flight, start, Position()) && PacketSize(grown) <= mtu
      ensures result.Sealed? ==> written == old(written) + 1 && offset == 0 && grown != []
      ensures !result.Sealed? ==> written == old(written)
      ensures result.Partial? ==> offset > 0 && Filled(grown) && grown != []
      ensures !result.Partial? && !result.Sealed? ==> offset == old(offset) && grown == packet
      ensures result.NoProgress? ==> mtu < PacketSize(packet) + 13 + Overhead(outgoing[written].epoch)
      ensures result.SealError? ==> !CanSeal(1, old(nextNumber), old(lastNumber))
      ensures nextNumber <= old(nextNumber) + 1 && lastNumber <= old(lastNumber) + 1
      ensures result.NoProgress? ==> nextNumber == old(nextNumber) && lastNumber == old(lastNumber)
      ensures |grown| == if result.Partial? || result.Sealed? then |packet| + 1 else |packet|
    {
      hide Piece, FragmentAt, Carried, HeaderBytes, Tiles, PacketSize;
      ghost var here, fl := Position(), flight;
      grown := packet;
      var r;
      assert outgoing[written].epoch == flight[written].epoch by { assert outgoing[written] == Kept(flight[written]); }
      result, r := SealNextMessage(mtu - PacketSize(packet));
      if result.Partial? || result.Sealed? {
        TilesSnoc(packet, r, fl, start, here);
        SizeAppends(packet, r);
        grown := packet + [r];
        assert grown[..|grown| - 1] == packet;
        if result.Sealed? {
          written := written + 1;
        }
      }
    }

    /** `seal_next_packet`. After a sealing error, `packet` is what was sealed and will not be sent. */
    method SealNextPacket() returns (result: PacketResult, packet: Packet)
      requires Valid() && written < outgoingLen
      modifies this`written, this`offset, this`nextNumber, this`lastNumber
      ensures Valid()
      ensures Tiles(packet, flight, old(Position()), Position())
      ensures result.Packed? ==> packet != [] && PacketSize(packet) <= mtu
      ensures result.TooSmall? ==> packet == [] && written < outgoingLen && mtu < 13 + Overhead(outgoing[written].epoch)
      ensures result.Packed? && written < outgoingLen ==> Filled(packet)
      ensures nextNumber <= old(nextNumber) + |packet| + 1 && lastNumber <= old(lastNumber) + |packet| + 1
      ensures result.Packed? ==> nextNumber <= old(nextNumber) + |packet| && lastNumber <= old(lastNumber) + |packet|
      ensures result.Unsealed? ==> written < outgoingLen && !CanSeal(|packet| + 1, old(nextNumber), old(lastNumber))
    {
      hide Piece, FragmentAt, Carried, HeaderBytes, Tiles, FlightOk, Kept;
      packet := [];
      SentNone([], flight, Position(), mtu);
      while written < outgoingLen
        invariant Valid()
        invariant Tiles(packet, flight, old(Position()), Position()) && PacketSize(packet) <= mtu
        invariant (written == outgoingLen ==> packet != []) && (packet != [] ==> offset == 0)
        invariant nextNumber <= old(nextNumber) + |packet| && lastNumber <= old(lastNumber) + |packet|
        decreases outgoingLen - written
      {
        var sealed;
        sealed, packet := SealIntoPacket(packet, old(Position()));
        if sealed.SealError? {
          return Unsealed, packet;
        }
        if sealed.NoProgress? || sealed.Partial? {
          break;
        }
      }
      return if packet == [] then TooSmall else Packed, packet;
    }

    /** `dtls1_update_mtu`; `query` is the BIO's answer. */
    method UpdateMtu(query: int)
      requires noQueryMtu ==> mtu >= MIN_MTU
      modifies this`mtu
      ensures mtu >= MIN_MTU
      ensures mtu == if old(mtu) >= MIN_MTU then old(mtu) else if MIN_MTU <= query <= 0x4000_0000 then query else DEFAULT_MTU
    {
      if mtu < MIN_MTU && !noQueryMtu {
        mtu := if 0 <= query <= 0x4000_0000 && query >= MIN_MTU then query else DEFAULT_MTU;
      }
    }

    /** One turn of the loop of `send_flight`; a packet that is not accepted is taken back. */
    method SendPacket() returns (failure: Option<FlightResult>, packet: Packet)
      requires Valid() && written < outgoingLen
      modifies this`written, this`offset, this`nextNumber, this`lastNumber, bio
      ensures Valid()
      ensures failure.None? ==> bio.wire == old(bio.wire) + [packet] && packet != [] && PacketSize(packet) <= mtu
      ensures failure.Some? ==> bio.wire == old(bio.wire) && !failure.value.Done? && !failure.value.FlushFailed? && !failure.value.Shutdown?
      ensures failure.Some? && packet != [] ==> failure.value.SealFailed?
      ensures Tiles(packet, flight, old(Position()), Position())
      ensures Remaining(flight, Position()) + |packet| <= old(Remaining(flight, Position()))
      ensures failure.None? ==> nextNumber <= old(nextNumber) + |packet| && lastNumber <= old(lastNumber) + |packet|
      ensures failure.Some? && failure.value.MtuTooSmall? ==> exists i :: 0 <= i < |flight| && mtu < 13 + Overhead(flight[i].epoch)
      ensures failure.Some? && failure.value.WriteFailed? ==> failure.value.ret <= 0 && bio.Answered(old(bio.calls), failure.value.ret)
      ensures old(bio.calls) <= bio.calls
      ensures failure.Some? && failure.value.SealFailed? ==>
                !CanSeal(old(Remaining(flight, Position())), old(nextNumber), old(lastNumber))
    {
      hide Piece, Tiles, PacketSize, FragmentAt, HeaderBytes;
      var oldWritten, oldOffset := written, offset;
      var sealed;
      sealed, packet := SealNextPacket();
      TilesProgresses(packet, flight, old(Position()), Position());
      if sealed.Unsealed? {
        return Some(SealFailed), packet;
      }
      if sealed.TooSmall? {
        assert outgoing[written] == Kept(flight[written]) && mtu < 13 + Overhead(flight[written].epoch);
        return Some(MtuTooSmall), packet;
      }
      var ret := bio.Write(packet);
      if ret <= 0 {
        written, offset := oldWritten, oldOffset;
        SentNone(bio.wire, flight, Position(), mtu);
        return Some(WriteFailed(ret)), [];
      }
      return None, packet;
    }

    /**
     * `send_flight`. `packets` are those the BIO accepted, and `lost` what a sealing error left sealed
     * but unsent.
     */
    method SendFlight(query: int) returns (result: FlightResult, ghost packets: seq<Packet>, ghost mid: Pos, ghost lost: Packet)
      requires Valid() && (noQueryMtu ==> mtu >= MIN_MTU)
      modifies this`written, this`offset, this`nextNumber, this`lastNumber, this`mtu, bio
      ensures Valid()
      ensures Sent(old(bio.wire), bio.wire, packets, Records(packets), mtu)
      ensures Tiles(Records(packets), flight, old(Position()), mid) && Tiles(lost, flight, mid, Position())
      ensures lost != [] ==> result.SealFailed?
      ensures result.Done? || result.FlushFailed? ==> Position() == Pos(outgoingLen, 0)
      ensures result.WriteFailed? ==> result.ret <= 0 && bio.Answered(old(bio.calls), result.ret)
      ensures result.Done? || result.FlushFailed? ==> old(bio.calls) < bio.calls && (result.Done? <==> bio.answer(bio.calls - 1) > 0)
      ensures result.MtuTooSmall? ==> exists i :: 0 <= i < |flight| && mtu < 13 + Overhead(flight[i].epoch)
      ensures result.SealFailed? ==> !CanSeal(old(Remaining(flight, Position())), old(nextNumber), old(lastNumber))
      ensures result.Shutdown? <==> writeShutdown
    {
      hide Piece, Records, PacketSize, Kept, Tiles, Sent;
      packets, lost := [], [];
      mid := Position();
      ghost var start, whole, wire := mid, Remaining(flight, mid), bio.wire;
      ghost var sent: seq<WireRecord> := [];
      if writeShutdown {
        SentNone(wire, flight, mid, mtu);
        return Shutdown, packets, mid, lost;
      }
      UpdateMtu(query);
      SentNone(wire, flight, mid, mtu);
      while written < outgoingLen
        invariant Valid()
        invariant Sent(wire, bio.wire, packets, sent, mtu) && Tiles(sent, flight, start, mid) && old(bio.calls) <= bio.calls
        invariant mid == Position()
        invariant nextNumber + Remaining(flight, mid) <= old(nextNumber) + whole
        invariant lastNumber + Remaining(flight, mid) <= old(lastNumber) + whole
        decreases Remaining(flight, mid)
      {
        ghost var taken := bio.wire;
        var failure, packet := SendPacket();
        ghost var here := Position();
        if failure.Some? {
          lost := packet;
          SentRecords(wire, bio.wire, packets, sent, mtu);
          return failure.value, packets, mid, lost;
        }
        TilesConcat(sent, packet, flight, start, mid, here);
        SentNext(wire, taken, packets, sent, mtu, packet);
        mid, packets, sent := here, packets + [packet], sent + packet;
      }
      SentRecords(wire, bio.wire, packets, sent, mtu);
      SentNone(wire, flight, mid, mtu);
      var ret := bio.Flush();
      return if ret <= 0 then FlushFailed else Done, packets, mid, lost;
    }

    // ---- Composing flights.

    /** `dtls_clear_outgoing_messages` */
    method Clear()
      requires Valid()
      modifies this`outgoingLen, this`written, this`offset, this`complete, this`hasReply, this`flight
      ensures Valid() && flight == [] && Position() == Pos(0, 0) && !complete && !hasReply
    {
      outgoingLen, written, offset, complete, hasReply := 0, 0, 0, false, false;
      flight := [];
    }

    /** `dtls1_stop_timer` */
    method StopTimer(initialMs: nat)
      modifies this`numTimeouts, this`timeoutMs, this`timerRunning
      ensures numTimeouts == 0 && timeoutMs == initialMs && !timerRunning
    {
      numTimeouts, timeoutMs, timerRunning := 0, initialMs, false;
    }

    /** Putting a message at the end of the flight. */
    method Append(msg: OutMsg, ghost item: Item)
      requires Valid() && ItemOk(item) && msg == Kept(item) && outgoingLen < 7
      modifies this`outgoingLen, this`flight, outgoing
      ensures Valid() && flight == old(flight) + [item]
    {
      outgoing[outgoingLen] := msg;
      outgoingLen := outgoingLen + 1;
      flight := flight + [item];
    }

    /** A complete flight, which the peer must have answered, gives way to a new one. */
    method StartFlight(initialMs: nat)
      requires Traced()
      modifies this`outgoingLen, this`written, this`offset, this`complete, this`hasReply, this`flight
      modifies this`numTimeouts, this`timeoutMs, this`timerRunning
      ensures Traced() && !complete && flight == (if old(complete) then [] else old(flight))
      ensures Position() == if old(complete) then Pos(0, 0) else old(Position())
      ensures hasReply == (!old(complete) && old(hasReply))
    {
      if complete {
        StopTimer(initialMs);
        Clear();
      }
    }

    /** `add_outgoing`, for a message kept as `msg`. A complete flight gives way to a new one. */
    method AddOutgoing(msg: OutMsg, initialMs: nat, ghost item: Item) returns (ok: bool)
      requires Traced() && ItemOk(item) && msg == Kept(item)
      requires item.Handshake? ==> |history| < 0x1_0000 && item.seqNo == writeSeq
      modifies this`outgoingLen, this`written, this`offset, this`complete, this`hasReply, this`flight
      modifies this`numTimeouts, this`timeoutMs, this`timerRunning, this`writeSeq, this`history, outgoing
      ensures Traced() && !complete
      ensures var before := if old(complete) then [] else old(flight);
              (ok <==> |before| < 7) && flight == if ok then before + [item] else before
      ensures Position() == if old(complete) then Pos(0, 0) else old(Position())
      ensures history == if ok && item.Handshake? then old(history) + [item.m] else old(history)
    {
      hide SentGenuine, FragmentAt;
      StartFlight(initialMs);
      if outgoingLen >= 7 || |msg.data| > 0xffff_ffff {
        return false;
      }
      ghost var before, past := flight, history;
      if !msg.isCcs {
        writeSeq := (writeSeq + 1) % 0x1_0000;
        history := history + [item.m];
        LogExtends(log, past, item.m);
      }
      Append(msg, item);
      FlightExtends(before, past, item);
      return true;
    }

    /** `dtls1_init_message` and `dtls1_finish_message`: the fragment length is copied into the message length. */
    method FinishMessage(m: Message) returns (data: Option<seq<byte>>)
      requires Valid()
      ensures data == if |m.body| < 0x100_0000 then Some(FragmentAt(Handshake(writeEpoch, writeSeq, m), 0, |m.body|)) else None
    {
      if |m.body| >= 0x100_0000 {
        return None;
      }
      var draft := [m.typ] + U24(0) + U16(writeSeq) + U24(0) + U24(|m.body|) + m.body;
      assert draft[..1] == [m.typ] && draft[12 - 3..12] == U24(|m.body|);
      assert draft[4..] == U16(writeSeq) + U24(0) + U24(|m.body|) + m.body;
      assert m.body[0..|m.body|] == m.body;
      var fixed := draft[..1] + draft[12 - 3..12] + draft[4..];
      assert fixed == FragmentAt(Handshake(writeEpoch, writeSeq, m), 0, |m.body|);
      return Some(fixed);
    }

    /** Adding a handshake message: `init_message`, `finish_message` and `dtls1_add_message`. */
    method AddMessage(m: Message, initialMs: nat) returns (ok: bool)
      requires Traced() && |history| < 0x1_0000
      modifies this`outgoingLen, this`written, this`offset, this`complete, this`hasReply, this`flight
      modifies this`numTimeouts, this`timeoutMs, this`timerRunning, this`writeSeq, this`history, outgoing
      ensures Traced()
      ensures ok <==> |m.body| < 0x100_0000 && (old(complete) || old(outgoingLen) < 7)
      ensures history == if ok then old(history) + [m] else old(history)
      ensures ok ==> flight == (if old(complete) then [] else old(flight)) + [Handshake(writeEpoch, old(writeSeq), m)]
    {
      var data := FinishMessage(m);
      if data.None? {
        return false;
      }
      ok := AddOutgoing(OutMsg(data.value, writeEpoch, false), initialMs, Handshake(writeEpoch, writeSeq, m));
    }

    /** `dtls1_add_change_cipher_spec` */
    method AddChangeCipherSpec(initialMs: nat) returns (ok: bool)
      requires Traced()
      modifies this`outgoingLen, this`written, this`offset, this`complete, this`hasReply, this`flight
      modifies this`numTimeouts, this`timeoutMs, this`timerRunning, this`writeSeq, this`history, outgoing
      ensures Traced() && history == old(history)
      ensures ok <==> old(complete) || old(outgoingLen) < 7
      ensures ok ==> flight == (if old(complete) then [] else old(flight)) + [Ccs(writeEpoch)]
    {
      ok := AddOutgoing(OutMsg([], writeEpoch, true), initialMs, Ccs(writeEpoch));
    }

    // ---- Transmission.

    /** A transmission that ends early has a reason, and one that is done ends with a flush that the BIO accepted. */
    ghost predicate Explained(result: FlightResult, calls: nat)
      reads this, outgoing, bio
    {
      match result
      case Done => calls < bio.calls && bio.answer(bio.calls - 1) > 0
      case FlushFailed => calls < bio.calls && bio.answer(bio.calls - 1) <= 0
      case WriteFailed(ret) => ret <= 0 && bio.Answered(calls, ret)
      case MtuTooSmall => exists i :: 0 <= i < |flight| && mtu < 13 + Overhead(flight[i].epoch)
      case Shutdown => writeShutdown
      case SealFailed => !writeShutdown
    }

    /** `send_flight`, with what it sent added to the log. */
    method Transmit(query: int) returns (result: FlightResult, ghost packets: seq<Packet>, ghost mid: Pos, ghost lost: Packet)
      requires Traced() && (noQueryMtu ==> mtu >= MIN_MTU)
      modifies this`written, this`offset, this`nextNumber, this`lastNumber, this`mtu, this`log, bio
      ensures Traced() && log == old(log) + Records(packets) && Sent(old(bio.wire), bio.wire, packets, Records(packets), mtu)
      ensures Tiles(Records(packets), flight, old(Position()), mid) && Tiles(lost, flight, mid, Position())
      ensures lost != [] ==> result.SealFailed?
      ensures result.Done? || result.FlushFailed? ==> Position() == Pos(outgoingLen, 0)
      ensures result.MtuTooSmall? ==> exists i :: 0 <= i < |flight| && mtu < 13 + Overhead(flight[i].epoch)
      ensures result.SealFailed? ==> !CanSeal(old(Remaining(flight, Position())), old(nextNumber), old(lastNumber))
      ensures Explained(result, old(bio.calls))
    {
      hide Tiles, Records, Sent, Kept, CanSeal, Remaining;
      result, packets, mid, lost := SendFlight(query);
      TilesGenuine(Records(packets), flight, old(Position()), mid, history);
      log := log + Records(packets);
    }

    /** `dtls1_start_timer`, without the clock. */
    method StartTimer(initialMs: nat)
      modifies this`timeoutMs, this`timerRunning
      ensures timerRunning && timeoutMs == if old(timerRunning) then old(timeoutMs) else initialMs
    {
      if !timerRunning {
        timeoutMs := initialMs;
      }
      timerRunning := true;
    }

    /** `dtls1_flush_flight` */
    method FlushFlight(query: int, initialMs: nat) returns (result: FlightResult, ghost packets: seq<Packet>, ghost mid: Pos)
      requires Traced() && (noQueryMtu ==> mtu >= MIN_MTU)
      modifies this`complete, this`timeoutMs, this`timerRunning
      modifies this`written, this`offset, this`nextNumber, this`lastNumber, this`mtu, this`log, bio
      ensures Traced() && complete && timerRunning && timeoutMs == (if old(timerRunning) then old(timeoutMs) else initialMs)
      ensures Explained(result, old(bio.calls))
      ensures log == old(log) + Records(packets) && Sent(old(bio.wire), bio.wire, packets, Records(packets), mtu)
      ensures Tiles(Records(packets), flight, old(Position()), mid)
      ensures !result.SealFailed? ==> mid == Position()
      ensures result.Done? ==> Position() == Pos(outgoingLen, 0)
    {
      complete := true;
      StartTimer(initialMs);
      ghost var lost;
      result, packets, mid, lost := Transmit(query);
    }

    /** `dtls1_retransmit_outgoing_messages`: the whole flight again, at whatever MTU holds now. */
    method Retransmit(query: int) returns (result: FlightResult, ghost packets: seq<Packet>, ghost mid: Pos)
      requires Traced() && (noQueryMtu ==> mtu >= MIN_MTU)
      modifies this`written, this`offset, this`nextNumber, this`lastNumber, this`mtu, this`log, bio
      ensures Traced()
      ensures log == old(log) + Records(packets) && Sent(old(bio.wire), bio.wire, packets, Records(packets), mtu)
      ensures Tiles(Records(packets), flight, Pos(0, 0), mid)
      ensures !result.SealFailed? ==> mid == Position()
      ensures Explained(result, old(bio.calls))
      ensures result.Done? ==> Position() == Pos(outgoingLen, 0)
    {
      written, offset := 0, 0;
      ghost var lost;
      result, packets, mid, lost := Transmit(query);
    }

    /** `dtls1_check_timeout_num`; `fallback` is the BIO's smaller MTU. */
    method CheckTimeouts(fallback: int) returns (ok: bool)
      modifies this`numTimeouts, this`mtu
      ensures numTimeouts == old(numTimeouts) + 1 && (ok <==> numTimeouts <= 12)
      ensures mtu == if numTimeouts > 2 && !noQueryMtu && MIN_MTU <= fallback <= 0x4000_0000 then fallback else old(mtu)
    {
      numTimeouts := numTimeouts + 1;
      if numTimeouts > 2 && !noQueryMtu {
        if 0 <= fallback <= 0x4000_0000 && fallback >= MIN_MTU {
          mtu := fallback;
        }
      }
      return numTimeouts <= 12;
    }

    /** `DTLSv1_handle_timeout`; None is its return without a retransmission, an expired timer that gave up included. */
    method HandleTimeout(expired: bool, fallback: int, query: int, initialMs: nat)
      returns (result: Option<FlightResult>, ghost packets: seq<Packet>, ghost mid: Pos)
      requires Traced() && (noQueryMtu ==> mtu >= MIN_MTU)
      modifies this`numTimeouts, this`timeoutMs, this`timerRunning
      modifies this`written, this`offset, this`nextNumber, this`lastNumber, this`mtu, this`log, bio
      ensures Traced()
      ensures result.None? <==> !expired || old(numTimeouts) >= 12
      ensures log == old(log) + Records(packets) && Sent(old(bio.wire), bio.wire, packets, Records(packets), mtu)
      ensures result.Some? ==> Tiles(Records(packets), flight, Pos(0, 0), mid)
      ensures result.Some? && result.value.Done? ==> mid == Position() == Pos(outgoingLen, 0)
      ensures result.Some? ==> timerRunning && Explained(result.value, old(bio.calls))
      ensures result.Some? && old(timerRunning) ==> timeoutMs == if 2 * old(timeoutMs) > 60000 then 60000 else 2 * old(timeoutMs)
      ensures numTimeouts == if expired then old(numTimeouts) + 1 else old(numTimeouts)
      ensures result.None? ==> packets == [] && timeoutMs == old(timeoutMs) && timerRunning == old(timerRunning)
    {
      hide Tiles, Records, Sent, Kept, FromHistory, SentGenuine;
      packets, mid := [], Pos(0, 0);
      SentNone(bio.wire, flight, mid, mtu);
      if !expired {
        return None, packets, mid;
      }
      var goOn := CheckTimeouts(fallback);
      if !goOn {
        SentNone(bio.wire, flight, mid, mtu);
        return None, packets, mid;
      }
      timeoutMs := if 2 * timeoutMs > 60000 then 60000 else 2 * timeoutMs;
      StartTimer(initialMs);
      var sent;
      sent, packets, mid := Retransmit(query);
      return Some(sent), packets, mid;
    }

    // ---- Epochs and replies.

    /** `dtls1_set_write_state`: the epoch before the last can no longer be sealed. */
    method SetWriteState(cipher: Aead)
      requires Traced() && AeadOk(cipher)
      modifies this`writeEpoch, this`lastNumber, this`nextNumber, this`lastAead, this`aead
      ensures Traced() && writeEpoch == (old(writeEpoch) + 1) % 0x1_0000
      ensures aead == cipher && lastAead == old(aead) && nextNumber == 0 && lastNumber == old(nextNumber)
    {
      writeEpoch := (writeEpoch + 1) % 0x1_0000;
      lastNumber, nextNumber := nextNumber, 0;
      lastAead, aead := aead, cipher;
    }

    /** What `dtls1_next_message` tells the sender: its complete flight has been answered. */
    method PeerReplied()
      requires Traced()
      modifies this`hasReply
      ensures Traced() && hasReply == (old(hasReply) || complete)
    {
      if complete {
        hasReply := true;
      }
    }

    /** `dtls1_on_handshake_complete`: the final flight stays for retransmission unless it was answered. */
    method OnHandshakeComplete(initialMs: nat)
      requires Traced()
      modifies this`outgoingLen, this`written, this`offset, this`complete, this`hasReply, this`flight
      modifies this`numTimeouts, this`timeoutMs, this`timerRunning
      ensures Traced() && !timerRunning && numTimeouts == 0 && timeoutMs == initialMs
      ensures flight == if old(hasReply) then [] else old(flight)
      ensures !old(hasReply) ==> Position() == old(Position()) && complete == old(complete) && !hasReply
    {
      StopTimer(initialMs);
      if hasReply {
        Clear();
      }
    }
  }

  lemma LogExtends(log: seq<WireRecord>, history: seq<Message>, m: Message)
    requires forall i :: 0 <= i < |log| ==> SentGenuine(log[i], history)
    ensures forall i :: 0 <= i < |log| ==> SentGenuine(log[i], history + [m])
  {
    forall i | 0 <= i < |log| && log[i].typ == HANDSHAKE
      ensures SentGenuine(log[i], history + [m])
    {
      GenuineExtends(log[i].plain, history, m);
    }
  }

  lemma FlightExtends(flight: seq<Item>, history: seq<Message>, item: Item)
    requires FromHistory(flight, history) && (item.Handshake? ==> item.seqNo == |history|)
    ensures FromHistory(flight + [item], if item.Handshake? then history + [item.m] else history)
  {}
}
