/**
 * What a DTLS endpoint does with the records it receives during a handshake, on values: the replay
 * window as a set and the receive ring as a map from sequence numbers to partial messages.
 */
module IncomingMessages {
  import opened Wrappers
  import opened Bits
  import opened HandshakeFragments
  import opened Reassembly
  import opened ReplayWindow

  datatype Message = Message(typ: byte, body: seq<byte>)

  /** A message under reassembly; its length is that of `got`. */
  datatype Slot = Slot(typ: byte, got: Partial)

  datatype Alert = InternalError | IllegalParameter | UnexpectedMessage | DecodeError | RecordOverflow

  datatype Outcome = Success | Discarded | PeerAlert | Failed(alert: Alert)

  /** A record past its header: `plain` is what authentication and decryption give, None when they fail. */
  datatype Record = Record(typ: byte, versionOk: bool, number: seq<byte>, plain: Option<seq<byte>>)

  datatype Rx = Rx(
    readSeq: nat,
    slots: map<nat, Slot>,
    hasMessage: bool,
    ccs: bool,
    epoch: nat,
    encrypted: bool,
    max: nat,
    recorded: set<nat>)

  const CHANGE_CIPHER_SPEC: byte := 20
  const ALERT: byte := 21
  const HANDSHAKE: byte := 22
  const APPLICATION_DATA: byte := 23

  /** The messages held are those of the next seven sequence numbers. */
  ghost predicate RxOk(rx: Rx) {
    && rx.readSeq < 0x1_0000 && rx.epoch < 0x1_0000
    && (forall s :: s in rx.slots ==> rx.readSeq <= s < rx.readSeq + 7 && s < 0x1_0000)
    && (rx.hasMessage ==> Ready(rx))
    && IsMax(rx.max, rx.recorded)
  }

  /** `dtls1_is_current_message_complete` */
  predicate Ready(rx: Rx) {
    rx.readSeq in rx.slots && Complete(rx.slots[rx.readSeq].got)
  }

  // ---- Fragments.

  /** The message a fragment belongs to, as it is before the fragment's body is copied. */
  function SlotFor(rx: Rx, h: Header): Slot {
    if h.seqNo in rx.slots then rx.slots[h.seqNo] else Slot(h.typ, Nothing(h.msgLen))
  }

  function Filled(slot: Slot, at: nat, body: seq<byte>): Slot
    requires at + |body| <= |slot.got|
  {
    slot.(got := Merged(slot.got, at, body))
  }

  /** One turn of the loop of `dtls1_open_handshake`. */
  function TakeFragment(rx: Rx, limit: nat, h: Header, body: seq<byte>): (r: (Rx, Option<Alert>))
    requires |body| == h.fragLen
  {
    if h.fragOff + h.fragLen > h.msgLen || h.msgLen > limit then (rx, Some(IllegalParameter))
    // The encrypted epoch has a single handshake message.
    else if rx.epoch == 1 && h.seqNo != rx.readSeq then (rx, Some(UnexpectedMessage))
    // Fragments from the past, or from too far in the future, are ignored.
    else if h.seqNo < rx.readSeq || h.seqNo > rx.readSeq + 7 then (rx, None)
    else if h.seqNo - rx.readSeq >= 7 then (rx, Some(InternalError))
    else if h.seqNo in rx.slots && (rx.slots[h.seqNo].typ != h.typ || |rx.slots[h.seqNo].got| != h.msgLen) then
      (rx, Some(IllegalParameter))
    else
      var slot := SlotFor(rx, h);
      (rx.(slots := rx.slots[h.seqNo := if Complete(slot.got) then slot else Filled(slot, h.fragOff, body)]), None)
  }

  /** All fragments of a handshake record; those before a bad one keep their effect. */
  function TakeFragments(rx: Rx, limit: nat, bytes: seq<byte>): (r: (Rx, Outcome))
    decreases |bytes|
  {
    if bytes == [] then (rx, Success)
    else match ParseFragment(bytes) {
      case None => (rx, Failed(DecodeError))
      case Some((h, body, rest)) =>
        var (next, alert) := TakeFragment(rx, limit, h, body);
        if alert.Some? then (next, Failed(alert.value)) else TakeFragments(next, limit, rest)
    }
  }

  // ---- Records.

  /** The epoch in the two high bytes of a record's number. */
  function EpochOf(number: seq<byte>): nat
    requires |number| == 8
  {
    Get16(number[..2])
  }

  /** `dtls_open_record`, its header decoded and the verdict of authentication given. */
  ghost function OpenRecord(rx: Rx, r: Record): (o: (Rx, Outcome))
    requires |r.number| == 8
  {
    var n := BigEndian(r.number);
    if !r.versionOk || EpochOf(r.number) != rx.epoch || Stale(n, rx.max, rx.recorded) || r.plain.None? then (rx, Discarded)
    else if |r.plain.value| > 16384 then (rx, Failed(RecordOverflow))
    else (rx.(max := if n > rx.max then n else rx.max, recorded := rx.recorded + {n}), if r.typ == ALERT then PeerAlert else Success)
  }

  /** `dtls1_open_handshake` */
  ghost function OpenHandshake(rx: Rx, limit: nat, r: Record): (o: (Rx, Outcome))
    requires |r.number| == 8
  {
    var (next, verdict) := OpenRecord(rx, r);
    if verdict != Success then (next, verdict)
    else if r.typ == APPLICATION_DATA then
      (next, if next.encrypted then Discarded else Failed(UnexpectedMessage))
    else if r.typ == CHANGE_CIPHER_SPEC then
      if next.encrypted then (next, Failed(UnexpectedMessage))
      else if r.plain.value != [1] then (next, Failed(IllegalParameter))
      else (next.(ccs := true), Success)
    else if r.typ == HANDSHAKE then TakeFragments(next, limit, r.plain.value)
    else (next, Failed(UnexpectedMessage))
  }

  // ---- Messages and epochs.

  /** The message a complete slot holds. */
  function MessageOf(slot: Slot): (m: Message)
    requires Complete(slot.got)
    ensures |m.body| == |slot.got| && forall k :: 0 <= k < |slot.got| ==> slot.got[k] == Some(m.body[k])
  {
    assert forall k :: 0 <= k < |slot.got| ==> slot.got[k] in slot.got && slot.got[k].Some?;
    Message(slot.typ, seq(|slot.got|, k requires 0 <= k < |slot.got| => slot.got[k].value))
  }

  /** `dtls1_next_message` */
  function NextMessage(rx: Rx): Rx {
    rx.(slots := rx.slots - {rx.readSeq}, readSeq := (rx.readSeq + 1) % 0x1_0000, hasMessage := false)
  }

  /** `dtls_has_unprocessed_handshake_data` */
  ghost predicate HasUnprocessed(rx: Rx) {
    rx.ccs || exists s :: s in rx.slots && !(rx.hasMessage && s == rx.readSeq)
  }

  /** `dtls1_set_read_state` */
  ghost function SetReadState(rx: Rx, encrypted: bool): Rx {
    if HasUnprocessed(rx) then rx
    else rx.(epoch := (rx.epoch + 1) % 0x1_0000, encrypted := encrypted, max := 0, recorded := {})
  }

  // ---- Every step keeps the messages held within the window of seven.

  lemma {:induction false} FragmentsKeepOk(rx: Rx, limit: nat, bytes: seq<byte>)
    requires RxOk(rx)
    ensures RxOk(TakeFragments(rx, limit, bytes).0)
    ensures TakeFragments(rx, limit, bytes).0 == rx.(slots := TakeFragments(rx, limit, bytes).0.slots)
    decreases |bytes|
  {
    if bytes != [] {
      match ParseFragment(bytes)
      case None =>
      case Some((h, body, rest)) =>
        var (next, alert) := TakeFragment(rx, limit, h, body);
        if alert.None? {
          FragmentsKeepOk(next, limit, rest);
        }
    }
  }

  lemma OpenKeepsOk(rx: Rx, limit: nat, r: Record)
    requires RxOk(rx) && |r.number| == 8
    ensures RxOk(OpenHandshake(rx, limit, r).0)
    ensures OpenHandshake(rx, limit, r).0.readSeq == rx.readSeq && OpenHandshake(rx, limit, r).0.epoch == rx.epoch
  {
    var (next, verdict) := OpenRecord(rx, r);
    if verdict == Success && r.typ == HANDSHAKE {
      FragmentsKeepOk(next, limit, r.plain.value);
    }
  }

  lemma NextKeepsOk(rx: Rx)
    requires RxOk(rx) && Ready(rx)
    ensures RxOk(NextMessage(rx))
  {}

  /** The read epoch changes only when nothing but the current message is held and no ChangeCipherSpec is pending. */
  lemma EpochChangesWhenDrained(rx: Rx, encrypted: bool)
    requires RxOk(rx)
    ensures RxOk(SetReadState(rx, encrypted))
    ensures SetReadState(rx, encrypted).epoch != rx.epoch <==> !rx.ccs && rx.slots.Keys <= (if rx.hasMessage then {rx.readSeq} else {})
  {}
}
