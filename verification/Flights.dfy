/** Flights of DTLS handshake messages and their division into records, on values. */
module Flights {
  import opened Wrappers
  import opened Bits
  import opened HandshakeFragments
  import opened IncomingMessages
  import opened Delivery

  /** A record cipher: how much it may add to a plaintext, and how long it makes one. */
  datatype Aead = Aead(explicitNonceLen: nat, maxOverhead: nat, sealedLen: nat -> nat)

  ghost predicate AeadOk(a: Aead) {
    a.explicitNonceLen <= a.maxOverhead && forall n: nat :: a.sealedLen(n) <= n + a.maxOverhead
  }

  /** A record as sealed: `size` is its length on the wire, header included. */
  datatype WireRecord = WireRecord(typ: byte, epoch: nat, number: nat, plain: seq<byte>, size: nat)

  /** A message of a flight: a ChangeCipherSpec, or a handshake message with its sequence number. */
  datatype Item = Ccs(epoch: nat) | Handshake(epoch: nat, seqNo: nat, m: Message)

  /** `outgoing_written` and `outgoing_offset` */
  datatype Pos = Pos(msg: nat, off: nat)

  ghost predicate FlightOk(flight: seq<Item>) {
    forall i :: 0 <= i < |flight| ==> ItemOk(flight[i])
  }

  predicate ItemOk(item: Item) {
    item.Handshake? ==> item.seqNo < 0x1_0000 && |item.m.body| < 0x100_0000
  }

  function BodyOf(item: Item): seq<byte> {
    if item.Ccs? then [] else item.m.body
  }

  ghost predicate PosOk(flight: seq<Item>, p: Pos) {
    p.msg <= |flight| && (p.off > 0 ==> p.msg < |flight| && p.off < |BodyOf(flight[p.msg])|)
  }

  /** The fragment of a message from `off`, `todo` bytes long; the whole message is the fragment of its length from 0. */
  function FragmentAt(item: Item, off: nat, todo: nat): (s: seq<byte>)
    requires item.Handshake? && ItemOk(item) && off + todo <= |item.m.body|
    ensures |s| == 12 + todo
  {
    HeaderBytes(Header(item.m.typ, |item.m.body|, item.seqNo, off, todo)) + item.m.body[off..off + todo]
  }

  /** Where the sender stands after the piece of `todo` bytes at p. */
  function Advance(flight: seq<Item>, p: Pos, todo: nat): Pos
    requires p.msg < |flight|
  {
    if p.off + todo == |BodyOf(flight[p.msg])| then Pos(p.msg + 1, 0) else Pos(p.msg, p.off + todo)
  }

  /** The length of the body's part that a record carries. */
  function Carried(r: WireRecord): nat {
    if r.typ == HANDSHAKE && |r.plain| >= 12 then |r.plain| - 12 else 0
  }

  /** A record carries the piece of the flight at p: a ChangeCipherSpec, or a fragment that makes progress. */
  ghost predicate Piece(r: WireRecord, flight: seq<Item>, p: Pos)
    requires FlightOk(flight)
  {
    && p.msg < |flight| && r.epoch == flight[p.msg].epoch
    && var item, todo := flight[p.msg], Carried(r);
       if item.Ccs? then r.typ == CHANGE_CIPHER_SPEC && r.plain == [1] && p.off == 0
       else
         && r.typ == HANDSHAKE && p.off + todo <= |item.m.body|
         && r.plain == FragmentAt(item, p.off, todo)
         && (todo > 0 || item.m.body == [])
  }

  /** Records that carry the flight from p to q, piece after piece, each byte once. */
  ghost predicate Tiles(rs: seq<WireRecord>, flight: seq<Item>, p: Pos, q: Pos)
    requires FlightOk(flight)
  {
    if rs == [] then p == q
    else Piece(rs[0], flight, p) && Tiles(rs[1..], flight, Advance(flight, p, Carried(rs[0])), q)
  }

  lemma {:induction false} TilesConcat(rs: seq<WireRecord>, ss: seq<WireRecord>, flight: seq<Item>, p: Pos, q: Pos, r: Pos)
    requires FlightOk(flight) && Tiles(rs, flight, p, q) && Tiles(ss, flight, q, r)
    ensures Tiles(rs + ss, flight, p, r)
  {
    if rs == [] {
      assert rs + ss == ss;
    } else {
      TilesConcat(rs[1..], ss, flight, Advance(flight, p, Carried(rs[0])), q, r);
      assert (rs + ss)[1..] == rs[1..] + ss;
    }
  }

  /** How much of the flight is left at p, a position counting one more than its bytes. */
  ghost function Remaining(flight: seq<Item>, p: Pos): nat
    requires PosOk(flight, p)
    decreases |flight| - p.msg
  {
    if p.msg == |flight| then 0
    else |BodyOf(flight[p.msg])| + 1 - p.off + Remaining(flight, Pos(p.msg + 1, 0))
  }

  lemma PieceProgresses(r: WireRecord, flight: seq<Item>, p: Pos)
    requires FlightOk(flight) && PosOk(flight, p) && Piece(r, flight, p)
    ensures PosOk(flight, Advance(flight, p, Carried(r)))
    ensures Remaining(flight, Advance(flight, p, Carried(r))) < Remaining(flight, p)
  {}

  lemma TilesSnoc(rs: seq<WireRecord>, r: WireRecord, flight: seq<Item>, p: Pos, q: Pos)
    requires FlightOk(flight) && Tiles(rs, flight, p, q) && PosOk(flight, q) && Piece(r, flight, q)
    ensures Tiles(rs + [r], flight, p, Advance(flight, q, Carried(r))) && PosOk(flight, Advance(flight, q, Carried(r)))
  {
    PieceProgresses(r, flight, q);
    assert [r][1..] == [];
    TilesConcat(rs, [r], flight, p, q, Advance(flight, q, Carried(r)));
  }

  lemma {:induction false} TilesProgresses(rs: seq<WireRecord>, flight: seq<Item>, p: Pos, q: Pos)
    requires FlightOk(flight) && PosOk(flight, p) && Tiles(rs, flight, p, q)
    ensures PosOk(flight, q) && Remaining(flight, q) + |rs| <= Remaining(flight, p)
  {
    if rs != [] {
      PieceProgresses(rs[0], flight, p);
      TilesProgresses(rs[1..], flight, Advance(flight, p, Carried(rs[0])), q);
    }
  }

  // ---- What a receiver can put together again.

  /** The bodies carried by the pieces of message i, in order. */
  ghost function Reassembled(rs: seq<WireRecord>, flight: seq<Item>, p: Pos, i: nat): seq<byte>
    requires FlightOk(flight)
  {
    if rs == [] || !Piece(rs[0], flight, p) then []
    else
      (if p.msg == i && rs[0].typ == HANDSHAKE then rs[0].plain[12..] else [])
      + Reassembled(rs[1..], flight, Advance(flight, p, Carried(rs[0])), i)
  }

  ghost predicate Before(p: Pos, q: Pos) {
    p.msg < q.msg || (p.msg == q.msg && p.off <= q.off)
  }

  /** The part of message i that lies between two positions. */
  ghost function Stretch(flight: seq<Item>, p: Pos, q: Pos, i: nat): seq<byte>
    requires FlightOk(flight) && PosOk(flight, p) && PosOk(flight, q) && Before(p, q) && i < |flight|
  {
    var body := BodyOf(flight[i]);
    if i < p.msg || q.msg < i then []
    else body[if i == p.msg then p.off else 0..if i == q.msg then q.off else |body|]
  }

  lemma StretchesAdd(flight: seq<Item>, p: Pos, q: Pos, r: Pos, i: nat)
    requires FlightOk(flight) && PosOk(flight, p) && PosOk(flight, q) && PosOk(flight, r) && i < |flight|
    requires Before(p, q) && Before(q, r)
    ensures Stretch(flight, p, q, i) + Stretch(flight, q, r, i) == Stretch(flight, p, r, i)
  {}

  /** The pieces of each message put one after the other are its body: nothing is missing or repeated. */
  lemma {:induction false} TilesReassemble(rs: seq<WireRecord>, flight: seq<Item>, p: Pos, q: Pos, i: nat)
    requires FlightOk(flight) && PosOk(flight, p) && Tiles(rs, flight, p, q) && i < |flight|
    ensures PosOk(flight, q) && Before(p, q)
    ensures Reassembled(rs, flight, p, i) == Stretch(flight, p, q, i)
  {
    if rs != [] {
      var mid := Advance(flight, p, Carried(rs[0]));
      PieceProgresses(rs[0], flight, p);
      TilesReassemble(rs[1..], flight, mid, q, i);
      StretchesAdd(flight, p, mid, q, i);
      PieceIsStretch(rs[0], flight, p, i);
    }
  }

  lemma PieceIsStretch(r: WireRecord, flight: seq<Item>, p: Pos, i: nat)
    requires FlightOk(flight) && PosOk(flight, p) && Piece(r, flight, p) && i < |flight|
    ensures PosOk(flight, Advance(flight, p, Carried(r)))
    ensures Stretch(flight, p, Advance(flight, p, Carried(r)), i) == if p.msg == i && r.typ == HANDSHAKE then r.plain[12..] else []
  {
    PieceProgresses(r, flight, p);
    if p.msg == i && r.typ == HANDSHAKE {
      assert r.plain[12..] == BodyOf(flight[i])[p.off..p.off + Carried(r)];
    }
  }

  // ---- Flights and the peer's history of messages.

  /** Every handshake message of a flight is the one of its number in the history. */
  ghost predicate FromHistory(flight: seq<Item>, history: seq<Message>) {
    forall i :: 0 <= i < |flight| && flight[i].Handshake? ==> flight[i].seqNo < |history| && history[flight[i].seqNo] == flight[i].m
  }

  /** A record whose handshake content is genuine. */
  ghost predicate SentGenuine(r: WireRecord, history: seq<Message>) {
    r.typ == HANDSHAKE ==> GenuineBytes(r.plain, history)
  }

  lemma PieceGenuine(r: WireRecord, flight: seq<Item>, p: Pos, history: seq<Message>)
    requires FlightOk(flight) && FromHistory(flight, history) && Piece(r, flight, p) && flight[p.msg].Handshake?
    ensures var item := flight[p.msg];
            var (h, body) := (Header(item.m.typ, |item.m.body|, item.seqNo, p.off, Carried(r)), item.m.body[p.off..p.off + Carried(r)]);
            ParseFragment(r.plain) == Some((h, body, [])) && Genuine(h, body, history)
    ensures SentGenuine(r, history)
  {
    var item := flight[p.msg];
    var h, body := Header(item.m.typ, |item.m.body|, item.seqNo, p.off, Carried(r)), item.m.body[p.off..p.off + Carried(r)];
    ParseOfBytes(h, body, []);
    assert HeaderBytes(h) + body + [] == r.plain;
    assert GenuineBytes([], history);
  }

  /** Whatever a flight is divided into, its records are genuine. */
  lemma {:induction false} TilesGenuine(rs: seq<WireRecord>, flight: seq<Item>, p: Pos, q: Pos, history: seq<Message>)
    requires FlightOk(flight) && FromHistory(flight, history) && Tiles(rs, flight, p, q)
    ensures forall i :: 0 <= i < |rs| ==> SentGenuine(rs[i], history)
  {
    hide GenuineBytes, FragmentAt, HeaderBytes, ParseFragment, Carried;
    if rs != [] {
      TilesGenuine(rs[1..], flight, Advance(flight, p, Carried(rs[0])), q, history);
      if flight[p.msg].Handshake? {
        PieceGenuine(rs[0], flight, p, history);
      }
    }
  }

  lemma {:induction false} GenuineExtends(bytes: seq<byte>, history: seq<Message>, m: Message)
    requires GenuineBytes(bytes, history)
    ensures GenuineBytes(bytes, history + [m])
    decreases |bytes|
  {
    if bytes != [] {
      GenuineExtends(ParseFragment(bytes).value.2, history, m);
    }
  }
}
