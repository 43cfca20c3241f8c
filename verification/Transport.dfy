/** A sender and a receiver joined by a network that loses, repeats and reorders the sender's records. */
module Transport {
  import opened Wrappers
  import opened HandshakeFragments
  import opened IncomingMessages
  import opened Delivery
  import opened Flights
  import R = ReceivedRecords

  /** A record that arrives is either one of those sent, or does not authenticate. */
  ghost predicate FromNetwork(r: Record, log: seq<WireRecord>) {
    |r.number| == 8 && (r.plain.Some? ==> exists i :: 0 <= i < |log| && IsCopy(r, log[i]))
  }

  ghost predicate IsCopy(r: Record, w: WireRecord)
    requires |r.number| == 8
  {
    r.typ == w.typ && EpochOf(r.number) == w.epoch && r.plain == Some(w.plain)
  }

  ghost predicate Arrivals(es: seq<Event>, log: seq<WireRecord>) {
    forall e :: e in es && e.Arrives? ==> FromNetwork(e.r, log)
  }

  /**
   * Whatever was transmitted and retransmitted, at whatever sizes, and whatever the network does to
   * it, a receiver hands over a prefix of the messages added at the sender.
   */
  lemma HandsOverPrefix(limit: nat, es: seq<Event>, log: seq<WireRecord>, history: seq<Message>)
    requires forall i :: 0 <= i < |log| ==> SentGenuine(log[i], history)
    requires |history| < 0x1_0000 && Arrivals(es, log)
    ensures Run(Rx(0, map[], false, false, 0, false, 0, {}), limit, es).1 <= history
  {
    var rx := Rx(0, map[], false, false, 0, false, 0, {});
    assert EventsOk(es, history);
    DeliversInOrder(rx, limit, es, history);
  }

  /** Some record among `rs`, of the given epoch, holds byte k of message s; with k at its end, some record belongs to it. */
  ghost predicate Brings(rs: seq<WireRecord>, epoch: nat, s: nat, k: nat, len: nat) {
    exists i, f ::
      0 <= i < |rs| && rs[i].typ == HANDSHAKE && rs[i].epoch == epoch && f in FragsIn(rs[i].plain)
      && (if k < len then FragCovers(f, s, k) else f.h.seqNo == s)
  }

  lemma BringsLater(rs: seq<WireRecord>, epoch: nat, s: nat, k: nat, len: nat)
    requires rs != [] && Brings(rs[1..], epoch, s, k, len)
    ensures Brings(rs, epoch, s, k, len)
  {
    var rest := rs[1..];
    var j, f :| 0 <= j < |rest| && rest[j].typ == HANDSHAKE && rest[j].epoch == epoch && f in FragsIn(rest[j].plain)
      && (if k < len then FragCovers(f, s, k) else f.h.seqNo == s);
    assert rs[j + 1] == rest[j];
  }

  /** The piece at p brings the bytes of its message that it carries. */
  lemma PieceBrings(rs: seq<WireRecord>, flight: seq<Item>, p: Pos, history: seq<Message>, k: nat)
    requires rs != [] && FlightOk(flight) && FromHistory(flight, history) && Piece(rs[0], flight, p) && flight[p.msg].Handshake?
    requires p.off <= k < p.off + Carried(rs[0]) || k == |flight[p.msg].m.body|
    ensures Brings(rs, flight[p.msg].epoch, flight[p.msg].seqNo, k, |flight[p.msg].m.body|)
  {
    var r := rs[0];
    PieceGenuine(r, flight, p, history);
    var f := Frag(ParseFragment(r.plain).value.0, ParseFragment(r.plain).value.1);
    assert FragsIn([]) == [];
    assert f in FragsIn(r.plain);
  }

  /** A transmission of a whole flight brings every byte of every message. */
  lemma {:induction false} TilesBring(rs: seq<WireRecord>, flight: seq<Item>, p: Pos, history: seq<Message>, i: nat, k: nat)
    requires FlightOk(flight) && FromHistory(flight, history) && PosOk(flight, p)
    requires Tiles(rs, flight, p, Pos(|flight|, 0))
    requires i < |flight| && flight[i].Handshake? && Before(p, Pos(i, k)) && k <= |flight[i].m.body|
    requires k == |flight[i].m.body| ==> k == 0
    ensures Brings(rs, flight[i].epoch, flight[i].seqNo, k, |flight[i].m.body|)
  {
    hide Brings, FlightOk, FromHistory;
    var r, todo := rs[0], Carried(rs[0]);
    if p.msg == i && (p.off <= k < p.off + todo || flight[i].m.body == []) {
      PieceBrings(rs, flight, p, history, k);
    } else {
      PieceProgresses(r, flight, p);
      TilesBring(rs[1..], flight, Advance(flight, p, todo), history, i, k);
      BringsLater(rs, flight[i].epoch, flight[i].seqNo, k, |flight[i].m.body|);
    }
  }

  /** Every fragment of the records of an epoch has been heard. */
  ghost predicate AllHeard(rs: seq<WireRecord>, epoch: nat, heard: seq<Frag>) {
    forall i, f :: 0 <= i < |rs| && rs[i].typ == HANDSHAKE && rs[i].epoch == epoch && f in FragsIn(rs[i].plain) ==> f in heard
  }

  lemma BroughtIsHeard(rs: seq<WireRecord>, epoch: nat, s: nat, k: nat, len: nat, heard: seq<Frag>)
    requires Brings(rs, epoch, s, k, len) && AllHeard(rs, epoch, heard)
    ensures Mentions(heard, s) && (k < len ==> Covers(heard, s, k))
  {
    var i, f :| 0 <= i < |rs| && rs[i].typ == HANDSHAKE && rs[i].epoch == epoch && f in FragsIn(rs[i].plain)
      && (if k < len then FragCovers(f, s, k) else f.h.seqNo == s);
    assert f in heard;
  }

  /**
   * Once the records of one complete transmission of a flight have got through, among whatever else
   * arrived and in whatever order, each message of the receiver's epoch is handed over in its turn.
   */
  lemma WholeFlightCompletes(rx: Rx, limit: nat, es: seq<Event>, history: seq<Message>, span: Span,
                             rs: seq<WireRecord>, flight: seq<Item>, i: nat)
    requires RxOk(rx) && Agrees(rx, history) && rx.readSeq <= |history| < 0x1_0000 && InReach(rx, span) && rx.slots == map[]
    requires EventsOk(es, history) && AllWithin(es, rx.epoch, span) && (forall e :: e in es ==> SameEpoch(e))
    requires AllFit(history, limit)
    requires FlightOk(flight) && FromHistory(flight, history) && Tiles(rs, flight, Pos(0, 0), Pos(|flight|, 0))
    requires AllHeard(rs, rx.epoch, Heard(rx, limit, es))
    requires i < |flight| && flight[i].Handshake? && flight[i].epoch == rx.epoch
    requires Run(rx, limit, es).0.readSeq == flight[i].seqNo
    ensures var last := Run(rx, limit, es).0;
            Ready(last) && MessageOf(last.slots[last.readSeq]) == flight[i].m
  {
    var s, m, heard := flight[i].seqNo, flight[i].m, Heard(rx, limit, es);
    CompletesWhenAllArrived(rx, limit, es, history, span);
    hide Brings, AllHeard, Tiles, Covers, Mentions, FlightOk, FromHistory, RxOk, Agrees;
    forall k | 0 <= k < |m.body|
      ensures Covers(heard, s, k)
    {
      TilesBring(rs, flight, Pos(0, 0), history, i, k);
      BroughtIsHeard(rs, rx.epoch, s, k, |m.body|, heard);
    }
    TilesBring(rs, flight, Pos(0, 0), history, i, 0);
    BroughtIsHeard(rs, rx.epoch, s, 0, |m.body|, heard);
  }

  // ---- A flight that changes epochs on its way.

  /** The flight has message s, sealed in the given epoch. */
  ghost predicate Carries(flight: seq<Item>, epoch: nat, s: nat) {
    exists i :: 0 <= i < |flight| && flight[i].Handshake? && flight[i].seqNo == s && flight[i].epoch == epoch
  }

  ghost predicate CarriesAll(flight: seq<Item>, epoch: nat, first: nat, end: nat) {
    forall s :: first <= s < end ==> Carries(flight, epoch, s)
  }

  /** Events of one epoch at a receiver that holds nothing, by which every record of a transmission in that epoch is heard. */
  ghost predicate HearsAll(rx: Rx, limit: nat, es: seq<Event>, history: seq<Message>, span: Span, rs: seq<WireRecord>) {
    && RxOk(rx) && rx.slots == map[] && rx.readSeq <= |history| < 0x1_0000 && InReach(rx, span)
    && EventsOk(es, history) && AllWithin(es, rx.epoch, span) && (forall e :: e in es ==> SameEpoch(e))
    && AllHeard(rs, rx.epoch, Heard(rx, limit, es))
  }

  /** When nothing more can be taken, everything of the flight in this epoch has been. */
  lemma EpochHandedOver(rx: Rx, limit: nat, es: seq<Event>, history: seq<Message>, span: Span,
                        rs: seq<WireRecord>, flight: seq<Item>, end: nat)
    requires HearsAll(rx, limit, es, history, span, rs) && AllFit(history, limit)
    requires FlightOk(flight) && FromHistory(flight, history) && Tiles(rs, flight, Pos(0, 0), Pos(|flight|, 0))
    requires rx.readSeq <= end && CarriesAll(flight, rx.epoch, rx.readSeq, end)
    requires !Ready(Run(rx, limit, es).0)
    ensures var (last, out) := Run(rx, limit, es);
            RxOk(last) && end <= last.readSeq <= |history| && out == history[rx.readSeq..last.readSeq] && last.epoch == rx.epoch
  {
    DeliversInOrder(rx, limit, es, history);
    EpochStays(rx, limit, es);
    var last := Run(rx, limit, es).0;
    if last.readSeq < end {
      assert Carries(flight, rx.epoch, last.readSeq);
      var i :| 0 <= i < |flight| && flight[i].Handshake? && flight[i].seqNo == last.readSeq && flight[i].epoch == rx.epoch;
      WholeFlightCompletes(rx, limit, es, history, span, rs, flight, i);
    }
  }

  /**
   * A flight whose first part travels in one epoch and whose rest, after a ChangeCipherSpec, in the
   * next is handed over whole: once the records of one transmission have got through in their epochs,
   * the epoch has been changed with nothing left to take, and nothing is left to take at the end.
   */
  lemma FlightHandedOver(rx: Rx, limit: nat, before: seq<Event>, encrypted: bool, after: seq<Event>, history: seq<Message>,
                         span: Span, nextSpan: Span, rs: seq<WireRecord>, flight: seq<Item>, change: nat, end: nat)
    requires AllFit(history, limit)
    requires FlightOk(flight) && FromHistory(flight, history) && Tiles(rs, flight, Pos(0, 0), Pos(|flight|, 0))
    requires HearsAll(rx, limit, before, history, span, rs)
    requires var mid := Run(rx, limit, before).0;
             && !Ready(mid) && !HasUnprocessed(mid)
             && HearsAll(SetReadState(mid, encrypted), limit, after, history, nextSpan, rs)
             && !Ready(Run(SetReadState(mid, encrypted), limit, after).0)
    requires rx.readSeq <= change <= end
    requires CarriesAll(flight, rx.epoch, rx.readSeq, change) && CarriesAll(flight, (rx.epoch + 1) % 0x1_0000, change, end)
    ensures Numbered(before + ([Switched(encrypted)] + after))
    ensures var (last, out) := Run(rx, limit, before + ([Switched(encrypted)] + after));
            end <= last.readSeq <= |history| && out == history[rx.readSeq..last.readSeq]
  {
    hide *;
    HearsFacts(rx, limit, before, history, span, rs);
    var mid := Run(rx, limit, before).0;
    var next := SetReadState(mid, encrypted);
    HearsFacts(next, limit, after, history, nextSpan, rs);
    SwitchFacts(mid, encrypted);
    EpochHandedOver(rx, limit, before, history, span, rs, flight, change);
    CarriesLater(flight, next.epoch, change, mid.readSeq, end);
    EpochHandedOver(next, limit, after, history, nextSpan, rs, flight, if end < mid.readSeq then mid.readSeq else end);
    PartsJoin(rx, limit, before, encrypted, after, history);
  }

  lemma HearsFacts(rx: Rx, limit: nat, es: seq<Event>, history: seq<Message>, span: Span, rs: seq<WireRecord>)
    requires HearsAll(rx, limit, es, history, span, rs)
    ensures RxOk(rx) && Numbered(es) && RxOk(Run(rx, limit, es).0)
  {
    RunSplits(rx, limit, es, []);
    assert es + [] == es;
  }

  lemma SwitchFacts(mid: Rx, encrypted: bool)
    requires !HasUnprocessed(mid)
    ensures var next := SetReadState(mid, encrypted); next.epoch == (mid.epoch + 1) % 0x1_0000 && next.readSeq == mid.readSeq
  {}

  /** What the two parts of a run hand over, put together. */
  lemma PartsJoin(rx: Rx, limit: nat, before: seq<Event>, encrypted: bool, after: seq<Event>, history: seq<Message>)
    requires RxOk(rx) && Numbered(before) && Numbered(after)
    requires RxOk(Run(rx, limit, before).0) && RxOk(SetReadState(Run(rx, limit, before).0, encrypted))
    requires var (mid, out) := Run(rx, limit, before);
             var (last, more) := Run(SetReadState(mid, encrypted), limit, after);
             && rx.readSeq <= mid.readSeq <= last.readSeq <= |history|
             && out == history[rx.readSeq..mid.readSeq] && more == history[mid.readSeq..last.readSeq]
    ensures Numbered(before + ([Switched(encrypted)] + after))
    ensures var (mid, _) := Run(rx, limit, before);
            var last := Run(SetReadState(mid, encrypted), limit, after).0;
            Run(rx, limit, before + ([Switched(encrypted)] + after)) == (last, history[rx.readSeq..last.readSeq])
  {
    hide *;
    RunSwitches(rx, limit, before, encrypted, after);
    var mid := Run(rx, limit, before).0;
    SlicesJoin(history, rx.readSeq, mid.readSeq, Run(SetReadState(mid, encrypted), limit, after).0.readSeq);
  }

  lemma CarriesLater(flight: seq<Item>, epoch: nat, first: nat, later: nat, end: nat)
    requires CarriesAll(flight, epoch, first, end) && first <= later
    ensures CarriesAll(flight, epoch, later, if end < later then later else end)
  {}

  // ---- The ChangeCipherSpec of a flight.

  /** A transmission of a flight brings a record of type 20 that holds the single byte 1 for each ChangeCipherSpec of the flight, in its epoch. */
  lemma {:induction false} TilesBringChange(rs: seq<WireRecord>, flight: seq<Item>, p: Pos, i: nat) returns (j: nat)
    requires FlightOk(flight) && PosOk(flight, p) && Tiles(rs, flight, p, Pos(|flight|, 0))
    requires i < |flight| && flight[i].Ccs? && p.msg <= i
    ensures j < |rs| && rs[j].typ == 20 && rs[j].plain == [1] && rs[j].epoch == flight[i].epoch
  {
    hide FlightOk;
    if p.msg == i {
      j := 0;
    } else {
      PieceProgresses(rs[0], flight, p);
      j := TilesBringChange(rs[1..], flight, Advance(flight, p, Carried(rs[0])), i);
      j := j + 1;
    }
  }

  /**
   * Once a copy of it has got through to a receiver that has no read keys yet, the ChangeCipherSpec is
   * pending there, unless it has been consumed since.
   */
  lemma FlightChangeIsPending(rx: Rx, limit: nat, es: seq<Event>, rs: seq<WireRecord>, flight: seq<Item>, i: nat) returns (j: nat)
    requires RxOk(rx) && Numbered(es) && FlightOk(flight) && Tiles(rs, flight, Pos(0, 0), Pos(|flight|, 0))
    requires i < |flight| && flight[i].Ccs?
    ensures j < |rs| && rs[j].epoch == flight[i].epoch
    ensures (exists k :: 0 <= k < |es| && GetsThrough(rx, limit, es, k, rs[j]) && R.NoneConsumed(es, k + 1)) ==> Run(rx, limit, es).0.ccs
  {
    j := TilesBringChange(rs, flight, Pos(0, 0), i);
    if k :| 0 <= k < |es| && GetsThrough(rx, limit, es, k, rs[j]) && R.NoneConsumed(es, k + 1) {
      hide Run;
      assert R.Notes(rx, limit, es, k);
      R.PendingExactly(rx, limit, es);
    }
  }

  /** Event k brings a copy of the record to a receiver that admits it and has no read keys yet. */
  ghost predicate GetsThrough(rx: Rx, limit: nat, es: seq<Event>, k: nat, w: WireRecord)
    requires RxOk(rx) && Numbered(es) && k < |es|
  {
    es[k].Arrives? && R.Admitted(R.Before(rx, limit, es, k), es[k].r) && IsCopy(es[k].r, w) && !R.Before(rx, limit, es, k).encrypted
  }
}
