/** The receiving half of a DTLS endpoint: a ring of seven partial messages and a replay window. */
module Receiving {
  import opened Wrappers
  import opened Bits
  import opened HandshakeFragments
  import opened Reassembly
  import opened ReplayWindow
  import opened IncomingMessages

  /** Two sequence numbers of one window of seven never share a place in the ring. */
  lemma RingDistinct(base: nat, s: nat, t: nat)
    requires base <= s < base + 7 && base <= t < base + 7
    ensures s % 7 == t % 7 ==> s == t
  {}

  lemma Overwritten(slots: map<nat, Slot>, s: nat, first: Slot, second: Slot)
    ensures slots[s := first][s := second] == slots[s := second]
  {}

  /** A message started within the window keeps the held messages there. */
  lemma InsertKeepsOk(rx: Rx, h: Header)
    requires RxOk(rx) && rx.readSeq <= h.seqNo < rx.readSeq + 7 && h.seqNo < 0x1_0000
    ensures RxOk(rx.(slots := rx.slots[h.seqNo := SlotFor(rx, h)]))
    ensures forall s :: s in rx.slots ==> rx.readSeq <= s < rx.readSeq + 7
  {
    hide IsMax;
  }

  class Receiver {
    const limit: nat
    const window: Window
    const incoming: array<HmFragment?>
    var readSeq: nat
    var epoch: nat
    var encrypted: bool
    var ccs: bool
    var hasMessage: bool
    ghost var slots: map<nat, Slot>
    /** The objects of the message at each place of the ring. */
    ghost var parts: seq<set<object>>
    ghost var Repr: set<object>

    ghost predicate Valid()
      reads this, Repr
      ensures Valid() ==> this in Repr
    {
      && this in Repr && window in Repr && incoming in Repr
      && window.Valid()
      && RxOk(View())
      && incoming.Length == 7 && |parts| == 7
      && (forall i :: 0 <= i < 7 ==> PlaceOk(i))
      && (forall i, j :: 0 <= i < j < 7 ==> parts[i] !! parts[j])
      && (forall s :: s in slots ==> incoming[s % 7] != null && incoming[s % 7].seqNo == s)
    }

    /** What place i of the ring holds. */
    ghost predicate PlaceOk(i: nat)
      requires incoming in Repr && i < incoming.Length && i < |parts|
      reads this, Repr
    {
      var f := incoming[i];
      parts[i] <= Repr && parts[i] !! {this, window, incoming} &&
      (f != null ==>
        && f in parts[i] && f.Footprint() <= parts[i] && f.Valid()
        && f.seqNo % 7 == i
        && f.seqNo in slots && slots[f.seqNo] == Slot(f.typ, f.got))
    }

    ghost function View(): Rx
      reads this, window
    {
      Rx(readSeq, slots, hasMessage, ccs, epoch, encrypted, window.max, window.recorded)
    }

    constructor (limit: nat)
      ensures Valid() && fresh(Repr) && this.limit == limit
      ensures View() == Rx(0, map[], false, false, 0, false, 0, {})
    {
      this.limit := limit;
      window := new Window();
      incoming := new HmFragment?[7](_ => null);
      readSeq, epoch, encrypted, ccs, hasMessage := 0, 0, false, false, false;
      slots, parts := map[], seq(7, i => {});
      new;
      Repr := {this, window, incoming};
    }

    /** The ring is as it was when no object but the receiver and its window has changed. */
    twostate lemma PlacesKept()
      requires old(Valid()) && slots == old(slots) && parts == old(parts) && Repr == old(Repr)
      requires forall o :: o in Repr && o != this && o != window ==> unchanged(o)
      ensures forall i :: 0 <= i < 7 ==> PlaceOk(i)
    {
      forall i | 0 <= i < 7
        ensures PlaceOk(i)
      {
        assert old(PlaceOk(i));
      }
    }

    /** Starting a new message at its empty place in the ring. */
    method Insert(h: Header) returns (frag: HmFragment)
      requires Valid() && FieldsFit(h) && readSeq <= h.seqNo < readSeq + 7 && incoming[h.seqNo % 7] == null
      modifies this, incoming
      ensures Valid() && fresh(Repr - old(Repr)) && old(Repr) <= Repr
      ensures frag == incoming[h.seqNo % 7] && frag.seqNo == h.seqNo && frag.typ == h.typ && frag.msgLen == h.msgLen
      ensures h.seqNo !in old(slots)
      ensures View() == old(View()).(slots := old(slots)[h.seqNo := SlotFor(old(View()), h)])
    {
      hide HmFragment.Valid, MapHolds, Nothing, Complete, RxOk;
      InsertKeepsOk(View(), h);
      var idx := h.seqNo % 7;
      frag := new HmFragment(h);
      slots := slots[h.seqNo := Slot(frag.typ, frag.got)];
      Repr, parts := Repr + frag.Footprint(), parts[idx := frag.Footprint()];
      incoming[idx] := frag;
      forall i | 0 <= i < 7
        ensures PlaceOk(i)
      {
        assert i != idx ==> old(PlaceOk(i));
      }
      forall s | s in slots
        ensures incoming[s % 7] != null && incoming[s % 7].seqNo == s
      {
        RingDistinct(readSeq, s, h.seqNo);
      }
    }

    /** `dtls1_get_incoming_message` */
    method GetIncoming(h: Header) returns (frag: HmFragment?, alert: Alert)
      requires Valid() && FieldsFit(h)
      modifies this, incoming
      ensures Valid() && fresh(Repr - old(Repr)) && old(Repr) <= Repr
      ensures alert == (if h.seqNo < readSeq || h.seqNo - readSeq >= 7 then InternalError else IllegalParameter)
      ensures frag == null <==>
                || h.seqNo < readSeq || h.seqNo - readSeq >= 7
                || (h.seqNo in old(slots) && (old(slots)[h.seqNo].typ != h.typ || |old(slots)[h.seqNo].got| != h.msgLen))
      ensures frag != null ==> frag == incoming[h.seqNo % 7] && frag.seqNo == h.seqNo && frag.typ == h.typ && frag.msgLen == h.msgLen
      ensures View() == if frag == null then old(View()) else old(View()).(slots := old(slots)[h.seqNo := SlotFor(old(View()), h)])
    {
      alert := InternalError;
      if h.seqNo < readSeq || h.seqNo - readSeq >= 7 {
        return null, alert;
      }
      alert := IllegalParameter;
      frag := incoming[h.seqNo % 7];
      if frag == null {
        frag := Insert(h);
        return;
      }
      assert PlaceOk(h.seqNo % 7);
      RingDistinct(readSeq, frag.seqNo, h.seqNo);
      assert frag.seqNo == h.seqNo;
      if frag.typ != h.typ || frag.msgLen != h.msgLen {
        frag := null;
      } else {
        assert slots == slots[h.seqNo := slots[h.seqNo]];
      }
    }

    /** Copying a fragment into the incomplete message at its place in the ring. */
    method FillPlace(frag: HmFragment, at: nat, body: seq<byte>)
      requires Valid() && frag == incoming[frag.seqNo % 7] && frag.reassembly != null
      requires frag.seqNo in slots && at + |body| <= |slots[frag.seqNo].got|
      modifies this`slots, frag.Footprint()
      ensures Valid()
      ensures View() == old(View()).(slots := old(slots)[frag.seqNo := Filled(old(slots)[frag.seqNo], at, body)])
    {
      hide IsMax, MapHolds, Nothing, Complete;
      ghost var idx := frag.seqNo % 7;
      assert PlaceOk(idx);
      frag.Fill(at, body);
      slots := slots[frag.seqNo := Slot(frag.typ, frag.got)];
      forall i | 0 <= i < 7
        ensures PlaceOk(i)
      {
        assert old(PlaceOk(i));
      }
    }

    /** One turn of the loop of `dtls1_open_handshake`, its fragment parsed. */
    method HandleFragment(h: Header, body: seq<byte>) returns (alert: Option<Alert>)
      requires Valid() && FieldsFit(h) && |body| == h.fragLen
      modifies this, Repr
      ensures Valid() && fresh(Repr - old(Repr)) && old(Repr) <= Repr
      ensures (View(), alert) == TakeFragment(old(View()), limit, h, body)
    {
      if h.fragOff > h.msgLen || h.fragOff + h.fragLen > h.msgLen || h.msgLen > limit {
        return Some(IllegalParameter);
      }
      if epoch == 1 && h.seqNo != readSeq {
        return Some(UnexpectedMessage);
      }
      if h.seqNo < readSeq || h.seqNo > readSeq + 7 {
        return None;
      }
      var frag, error := GetIncoming(h);
      if frag == null {
        return Some(error);
      }
      assert PlaceOk(h.seqNo % 7);
      assert slots[h.seqNo] == SlotFor(old(View()), h) == Slot(frag.typ, frag.got);
      if frag.reassembly == null {
        return None;
      }
      Overwritten(old(slots), h.seqNo, slots[h.seqNo], Filled(slots[h.seqNo], h.fragOff, body));
      FillPlace(frag, h.fragOff, body);
      return None;
    }

    /** The loop of `dtls1_open_handshake` over the fragments of a record. */
    method HandleFragments(bytes: seq<byte>) returns (outcome: Outcome)
      requires Valid()
      modifies this, Repr
      ensures Valid() && fresh(Repr - old(Repr)) && old(Repr) <= Repr
      ensures (View(), outcome) == TakeFragments(old(View()), limit, bytes)
    {
      var cursor := bytes;
      while cursor != []
        invariant Valid() && fresh(Repr - old(Repr)) && old(Repr) <= Repr
        invariant TakeFragments(old(View()), limit, bytes) == TakeFragments(View(), limit, cursor)
        decreases |cursor|
      {
        var parsed := ParseFragment(cursor);
        if parsed.None? {
          return Failed(DecodeError);
        }
        var (h, body, rest) := parsed.value;
        var alert := HandleFragment(h, body);
        if alert.Some? {
          return Failed(alert.value);
        }
        cursor := rest;
      }
      return Success;
    }

    /** `dtls_open_record`, its header decoded and the verdict of authentication given. */
    method Open(r: Record) returns (outcome: Outcome)
      requires Valid() && |r.number| == 8
      modifies window
      ensures Valid() && (View(), outcome) == OpenRecord(old(View()), r)
    {
      if !r.versionOk || EpochOf(r.number) != epoch {
        return Discarded;
      }
      var discard := window.ShouldDiscard(r.number);
      if discard || r.plain.None? {
        return Discarded;
      }
      if |r.plain.value| > 16384 {
        return Failed(RecordOverflow);
      }
      window.Record(r.number);
      PlacesKept();
      return if r.typ == ALERT then PeerAlert else Success;
    }

    /** Setting `has_change_cipher_spec`. */
    method NoteChangeCipherSpec(flag: bool)
      requires Valid()
      modifies this`ccs
      ensures Valid() && View() == old(View()).(ccs := flag)
    {
      ccs := flag;
      PlacesKept();
    }

    /** `dtls1_open_handshake` */
    method Receive(r: Record) returns (outcome: Outcome)
      requires Valid() && |r.number| == 8
      modifies this, Repr
      ensures Valid() && fresh(Repr - old(Repr)) && old(Repr) <= Repr
      ensures (View(), outcome) == OpenHandshake(old(View()), limit, r)
    {
      outcome := Open(r);
      if outcome != Success {
        return;
      }
      if r.typ == APPLICATION_DATA {
        return if encrypted then Discarded else Failed(UnexpectedMessage);
      }
      if r.typ == CHANGE_CIPHER_SPEC {
        if encrypted {
          return Failed(UnexpectedMessage);
        }
        if r.plain.value != [1] {
          return Failed(IllegalParameter);
        }
        NoteChangeCipherSpec(true);
        return Success;
      }
      if r.typ != HANDSHAKE {
        return Failed(UnexpectedMessage);
      }
      outcome := HandleFragments(r.plain.value);
    }

    /** `dtls1_open_change_cipher_spec` */
    method ReceiveChangeCipherSpec(r: Record) returns (outcome: Outcome)
      requires Valid() && |r.number| == 8
      modifies this, Repr
      ensures Valid() && fresh(Repr - old(Repr)) && old(Repr) <= Repr
      ensures var (rx, first) := if old(ccs) then (old(View()), Success) else OpenHandshake(old(View()), limit, r);
              View() == (if first == Success then rx.(ccs := false) else rx)
              && outcome == if first != Success then first else if rx.ccs then Success else Discarded
    {
      if !ccs {
        outcome := Receive(r);
        if outcome != Success {
          return;
        }
      }
      if ccs {
        NoteChangeCipherSpec(false);
        return Success;
      }
      return Discarded;
    }

    /** Whether the current message is complete. */
    method CurrentComplete() returns (complete: bool)
      requires Valid()
      ensures complete <==> Ready(View())
    {
      var frag := incoming[readSeq % 7];
      assert PlaceOk(readSeq % 7);
      if frag != null {
        RingDistinct(readSeq, frag.seqNo, readSeq);
      }
      return frag != null && frag.reassembly == null;
    }

    /** `dtls1_get_message` */
    method GetMessage() returns (m: Option<Message>)
      requires Valid()
      modifies this`hasMessage
      ensures Valid()
      ensures m == if Ready(old(View())) then Some(MessageOf(old(slots)[old(readSeq)])) else None
      ensures View() == if Ready(old(View())) then old(View()).(hasMessage := true) else old(View())
    {
      var complete := CurrentComplete();
      if !complete {
        return None;
      }
      var frag := incoming[readSeq % 7];
      assert PlaceOk(readSeq % 7);
      var body := frag.Body();
      assert body == MessageOf(slots[readSeq]).body;
      hasMessage := true;
      PlacesKept();
      return Some(Message(frag.typ, body));
    }

    /** `dtls1_next_message` */
    method Next()
      requires Valid() && hasMessage
      modifies this, incoming
      ensures Valid() && Repr == old(Repr)
      ensures View() == NextMessage(old(View()))
    {
      var idx := readSeq % 7;
      NextKeepsOk(View());
      forall s | s in slots && s != readSeq
        ensures s % 7 != idx
      {
        RingDistinct(readSeq, s, readSeq);
      }
      incoming[idx] := null;
      slots := slots - {readSeq};
      readSeq := (readSeq + 1) % 0x1_0000;
      hasMessage := false;
      forall i | 0 <= i < 7
        ensures PlaceOk(i)
      {
        assert old(PlaceOk(i));
      }
    }

    /** `dtls_has_unprocessed_handshake_data` */
    method HasUnprocessedData() returns (has: bool)
      requires Valid()
      ensures has <==> HasUnprocessed(View())
    {
      if ccs {
        return true;
      }
      var current := readSeq % 7;
      for i := 0 to 7
        invariant forall j :: 0 <= j < i ==> incoming[j] == null || (hasMessage && j == current)
      {
        assert PlaceOk(i);
        if !(hasMessage && i == current) && incoming[i] != null {
          assert incoming[i].seqNo in slots;
          return true;
        }
      }
      forall s | s in slots
        ensures hasMessage && s == readSeq
      {
        assert incoming[s % 7] != null;
        RingDistinct(readSeq, readSeq, s);
      }
      return false;
    }

    /** `dtls1_set_read_state`; `encrypted` says whether the new context is not the null cipher. */
    method ChangeReadState(encrypted: bool) returns (ok: bool)
      requires Valid()
      modifies this, window
      ensures Valid() && Repr == old(Repr)
      ensures ok <==> !HasUnprocessed(old(View()))
      ensures View() == SetReadState(old(View()), encrypted)
    {
      var unprocessed := HasUnprocessedData();
      if unprocessed {
        return false;
      }
      epoch := (epoch + 1) % 0x1_0000;
      window.Reset();
      this.encrypted := encrypted;
      PlacesKept();
      return true;
    }
  }
}
