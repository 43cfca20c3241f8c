/**
 * Handshake messages over a network that loses, repeats and reorders records: what a receiver hands
 * out, against what its peer sent.
 */
module Delivery {
  import opened Wrappers
  import opened Bits
  import opened HandshakeFragments
  import opened Reassembly
  import opened ReplayWindow
  import opened IncomingMessages

  /** A fragment of the message with its sequence number in the peer's history. */
  ghost predicate Genuine(h: Header, body: seq<byte>, history: seq<Message>) {
    && h.seqNo < |history| && h.typ == history[h.seqNo].typ && h.msgLen == |history[h.seqNo].body|
    && |body| == h.fragLen && h.fragOff + h.fragLen <= h.msgLen
    && body == history[h.seqNo].body[h.fragOff..h.fragOff + h.fragLen]
  }

  /** Bytes that are a sequence of genuine fragments. */
  ghost predicate GenuineBytes(bytes: seq<byte>, history: seq<Message>)
    decreases |bytes|
  {
    bytes == [] || match ParseFragment(bytes)
      case None => false
      case Some((h, body, rest)) => Genuine(h, body, history) && GenuineBytes(rest, history)
  }

  /**
   * A record that authenticates was sealed by the peer. A handshake record holds genuine fragments;
   * nothing is said about records of other types, or about those that do not authenticate.
   */
  ghost predicate GenuineRecord(r: Record, history: seq<Message>) {
    |r.number| == 8 && (r.typ == HANDSHAKE && r.plain.Some? ==> GenuineBytes(r.plain.value, history))
  }

  /** What is held of each message is what was sent. */
  ghost predicate Agrees(rx: Rx, history: seq<Message>) {
    forall s :: s in rx.slots ==> s < |history| && SlotAgrees(rx.slots[s], history[s])
  }

  ghost predicate SlotAgrees(slot: Slot, m: Message) {
    && slot.typ == m.typ && |slot.got| == |m.body|
    && forall k :: 0 <= k < |m.body| && slot.got[k].Some? ==> slot.got[k].value == m.body[k]
  }

  /** What can happen at a receiver. */
  datatype Event =
    | Arrives(r: Record)
    | Peeked                       // dtls1_get_message
    | Taken                        // dtls1_next_message
    | CcsConsumed                  // the end of dtls1_open_change_cipher_spec
    | Switched(encrypted: bool)    // dtls1_set_read_state

  /** One event, and the messages it hands over to the handshake. */
  ghost function Step(rx: Rx, limit: nat, e: Event): (Rx, seq<Message>)
    requires RxOk(rx) && (e.Arrives? ==> |e.r.number| == 8)
  {
    match e
    case Arrives(r) => (OpenHandshake(rx, limit, r).0, [])
    case Peeked => (if Ready(rx) then rx.(hasMessage := true) else rx, [])
    case Taken => if rx.hasMessage then (NextMessage(rx), [MessageOf(rx.slots[rx.readSeq])]) else (rx, [])
    case CcsConsumed => (rx.(ccs := false), [])
    case Switched(encrypted) => (SetReadState(rx, encrypted), [])
  }

  ghost predicate EventsOk(es: seq<Event>, history: seq<Message>) {
    forall e :: e in es && e.Arrives? ==> GenuineRecord(e.r, history)
  }

  ghost predicate Numbered(es: seq<Event>) {
    forall e :: e in es && e.Arrives? ==> |e.r.number| == 8
  }

  /** A run, and all messages handed over. */
  ghost function Run(rx: Rx, limit: nat, es: seq<Event>): (Rx, seq<Message>)
    requires RxOk(rx) && Numbered(es)
    decreases |es|
  {
    if es == [] then (rx, [])
    else
      StepKeepsOk(rx, limit, es[0]);
      var (next, now) := Step(rx, limit, es[0]);
      var (last, later) := Run(next, limit, es[1..]);
      (last, now + later)
  }

  lemma StepKeepsOk(rx: Rx, limit: nat, e: Event)
    requires RxOk(rx) && (e.Arrives? ==> |e.r.number| == 8)
    ensures RxOk(Step(rx, limit, e).0)
  {
    match e
    case Arrives(r) => OpenKeepsOk(rx, limit, r);
    case Taken => if rx.hasMessage { NextKeepsOk(rx); }
    case Switched(encrypted) => EpochChangesWhenDrained(rx, encrypted);
    case _ =>
  }

  // ---- Safety.

  lemma MergedAgrees(slot: Slot, m: Message, at: nat, body: seq<byte>)
    requires SlotAgrees(slot, m) && at + |body| <= |m.body| && body == m.body[at..at + |body|]
    ensures SlotAgrees(Filled(slot, at, body), m)
  {}

  lemma FragmentAgrees(rx: Rx, limit: nat, h: Header, body: seq<byte>, history: seq<Message>)
    requires Agrees(rx, history) && Genuine(h, body, history)
    ensures Agrees(TakeFragment(rx, limit, h, body).0, history)
  {
    var slot, m := SlotFor(rx, h), history[h.seqNo];
    assert SlotAgrees(slot, m);
    MergedAgrees(slot, m, h.fragOff, body);
  }

  lemma {:induction false} FragmentsAgree(rx: Rx, limit: nat, bytes: seq<byte>, history: seq<Message>)
    requires Agrees(rx, history) && GenuineBytes(bytes, history)
    ensures Agrees(TakeFragments(rx, limit, bytes).0, history)
    decreases |bytes|
  {
    if bytes != [] {
      var (h, body, rest) := ParseFragment(bytes).value;
      FragmentAgrees(rx, limit, h, body, history);
      var (next, alert) := TakeFragment(rx, limit, h, body);
      if alert.None? {
        FragmentsAgree(next, limit, rest, history);
      }
    }
  }

  /** A complete slot that agrees with a message is that message. */
  lemma CompleteIsMessage(slot: Slot, m: Message)
    requires SlotAgrees(slot, m) && Complete(slot.got)
    ensures MessageOf(slot) == m
  {
    var r := MessageOf(slot);
    forall k | 0 <= k < |m.body|
      ensures r.body[k] == m.body[k]
    {
      assert slot.got[k] == Some(r.body[k]);
    }
    assert r.body == m.body;
  }

  /** One event hands over at most the next message the peer sent, byte for byte. */
  lemma StepDelivers(rx: Rx, limit: nat, e: Event, history: seq<Message>)
    requires RxOk(rx) && Agrees(rx, history) && rx.readSeq <= |history| < 0x1_0000
    requires e.Arrives? ==> GenuineRecord(e.r, history)
    ensures var (next, out) := Step(rx, limit, e);
            && RxOk(next) && Agrees(next, history)
            && rx.readSeq <= next.readSeq <= |history| && out == history[rx.readSeq..next.readSeq]
  {
    StepKeepsOk(rx, limit, e);
    match e
    case Arrives(r) =>
      OpenKeepsOk(rx, limit, r);
      var (next, verdict) := OpenRecord(rx, r);
      if verdict == Success && r.typ == HANDSHAKE {
        FragmentsAgree(next, limit, r.plain.value, history);
      }
    case Taken =>
      if rx.hasMessage {
        CompleteIsMessage(rx.slots[rx.readSeq], history[rx.readSeq]);
      }
    case _ =>
  }

  /**
   * In every run of loss, repetition, reordering and re-fragmentation, the messages handed over are
   * exactly those the peer sent, in order and without a gap, from the first the receiver waited for.
   */
  lemma {:induction false} DeliversInOrder(rx: Rx, limit: nat, es: seq<Event>, history: seq<Message>)
    requires RxOk(rx) && Agrees(rx, history) && rx.readSeq <= |history| < 0x1_0000 && EventsOk(es, history)
    ensures var (last, out) := Run(rx, limit, es);
            && RxOk(last) && Agrees(last, history)
            && rx.readSeq <= last.readSeq <= |history| && out == history[rx.readSeq..last.readSeq]
    decreases |es|
  {
    if es != [] {
      StepDelivers(rx, limit, es[0], history);
      var (next, now) := Step(rx, limit, es[0]);
      DeliversInOrder(next, limit, es[1..], history);
      var last := Run(next, limit, es[1..]).0;
      assert history[rx.readSeq..next.readSeq] + history[next.readSeq..last.readSeq] == history[rx.readSeq..last.readSeq];
    }
  }

  /** A run, cut in two. */
  lemma {:induction false} RunSplits(rx: Rx, limit: nat, es: seq<Event>, fs: seq<Event>)
    requires RxOk(rx) && Numbered(es + fs)
    ensures Numbered(es) && Numbered(fs) && RxOk(Run(rx, limit, es).0)
    ensures Run(rx, limit, es + fs) ==
            (Run(Run(rx, limit, es).0, limit, fs).0, Run(rx, limit, es).1 + Run(Run(rx, limit, es).0, limit, fs).1)
    decreases |es|
  {
    if es == [] {
      assert es + fs == fs && [] + Run(rx, limit, fs).1 == Run(rx, limit, fs).1;
    } else {
      StepKeepsOk(rx, limit, es[0]);
      assert (es + fs)[0] == es[0] && (es + fs)[1..] == es[1..] + fs;
      var (next, now) := Step(rx, limit, es[0]);
      RunSplits(next, limit, es[1..], fs);
      var (mid, soon) := Run(next, limit, es[1..]);
      var (last, late) := Run(mid, limit, fs);
      assert Run(rx, limit, es + fs) == (last, now + (soon + late));
      assert now + (soon + late) == (now + soon) + late;
    }
  }

  lemma NumberedParts(es: seq<Event>, fs: seq<Event>)
    ensures Numbered(es + fs) <==> Numbered(es) && Numbered(fs)
  {
    if Numbered(es + fs) {
      assert forall e :: e in es || e in fs ==> e in es + fs;
    }
  }

  lemma RunFirst(rx: Rx, limit: nat, e: Event, fs: seq<Event>)
    requires RxOk(rx) && Numbered(fs) && !e.Arrives?
    ensures Numbered([e] + fs) && RxOk(Step(rx, limit, e).0)
    ensures var (next, now) := Step(rx, limit, e);
            Run(rx, limit, [e] + fs) == (Run(next, limit, fs).0, now + Run(next, limit, fs).1)
  {
    StepKeepsOk(rx, limit, e);
    assert ([e] + fs)[1..] == fs;
  }

  lemma SlicesJoin(history: seq<Message>, a: nat, b: nat, c: nat)
    requires a <= b <= c <= |history|
    ensures history[a..b] + history[b..c] == history[a..c]
  {}

  /** A run with a change of epoch in the middle. */
  lemma RunSwitches(rx: Rx, limit: nat, es: seq<Event>, encrypted: bool, fs: seq<Event>)
    requires RxOk(rx) && Numbered(es) && Numbered(fs)
    requires RxOk(Run(rx, limit, es).0) && RxOk(SetReadState(Run(rx, limit, es).0, encrypted))
    ensures Numbered(es + ([Switched(encrypted)] + fs))
    ensures var (mid, soon) := Run(rx, limit, es);
            var (last, late) := Run(SetReadState(mid, encrypted), limit, fs);
            Run(rx, limit, es + ([Switched(encrypted)] + fs)) == (last, soon + late)
  {
    var mid := Run(rx, limit, es).0;
    var late := Run(SetReadState(mid, encrypted), limit, fs).1;
    hide Run, Numbered, RxOk;
    RunFirst(mid, limit, Switched(encrypted), fs);
    NumberedParts(es, [Switched(encrypted)] + fs);
    RunSplits(rx, limit, es, [Switched(encrypted)] + fs);
    assert [] + late == late;
  }

  // ---- Replay.

  /** The numbers, epoch included, of the records let through, in order of arrival. */
  ghost function LetThrough(rx: Rx, limit: nat, es: seq<Event>): seq<seq<byte>>
    requires RxOk(rx) && Numbered(es)
    decreases |es|
  {
    if es == [] then []
    else
      StepKeepsOk(rx, limit, es[0]);
      var rest := LetThrough(Step(rx, limit, es[0]).0, limit, es[1..]);
      if es[0].Arrives? && OpenRecord(rx, es[0].r).1 in {Success, PeerAlert} then [es[0].r.number] + rest else rest
  }

  function Switches(es: seq<Event>): nat {
    if es == [] then 0 else (if es[0].Switched? then 1 else 0) + Switches(es[1..])
  }

  /** A number that could still be let through after `rx`: of a later epoch, or new in this one. */
  ghost predicate StillNew(rx: Rx, number: seq<byte>) {
    |number| == 8 && (EpochOf(number) > rx.epoch || (EpochOf(number) == rx.epoch && BigEndian(number) !in rx.recorded))
  }

  /** A step records what it lets through, and what is new after it was new before. */
  lemma StepRecords(rx: Rx, limit: nat, e: Event, number: seq<byte>)
    requires RxOk(rx) && (e.Arrives? ==> |e.r.number| == 8)
    requires e.Switched? ==> rx.epoch + 1 < 0x1_0000
    ensures var next := Step(rx, limit, e).0;
            && rx.epoch <= next.epoch <= rx.epoch + (if e.Switched? then 1 else 0)
            && (StillNew(next, number) ==> StillNew(rx, number))
            && (e.Arrives? && OpenRecord(rx, e.r).1 in {Success, PeerAlert} ==> StillNew(rx, e.r.number) && !StillNew(next, e.r.number))
  {
    hide TakeFragments, BigEndian, Complete, Get16;
    if e.Arrives? {
      var (next, verdict) := OpenRecord(rx, e.r);
      if verdict == Success && e.r.typ == HANDSHAKE {
        FragmentsKeepOk(next, limit, e.r.plain.value);
      }
    }
  }

  /** Whatever arrives and however the epoch moves on, as long as it does not wrap, no record is let through twice. */
  lemma {:induction false} NoRecordTwice(rx: Rx, limit: nat, es: seq<Event>)
    requires RxOk(rx) && Numbered(es) && rx.epoch + Switches(es) < 0x1_0000
    ensures forall i :: 0 <= i < |LetThrough(rx, limit, es)| ==> StillNew(rx, LetThrough(rx, limit, es)[i])
    ensures forall i, j :: 0 <= i < j < |LetThrough(rx, limit, es)| ==> LetThrough(rx, limit, es)[i] != LetThrough(rx, limit, es)[j]
    decreases |es|
  {
    if es != [] {
      hide Step, StillNew, OpenRecord;
      StepKeepsOk(rx, limit, es[0]);
      var next := Step(rx, limit, es[0]).0;
      var all, rest := LetThrough(rx, limit, es), LetThrough(next, limit, es[1..]);
      StepRecords(rx, limit, es[0], []);
      NoRecordTwice(next, limit, es[1..]);
      forall n | n in rest
        ensures StillNew(rx, n)
      {
        StepRecords(rx, limit, es[0], n);
      }
    }
  }

  // ---- Completion.

  /** No message is longer than the receiver allows. */
  ghost predicate AllFit(history: seq<Message>, limit: nat) {
    forall m :: m in history ==> |m.body| <= limit
  }

  datatype Frag = Frag(h: Header, body: seq<byte>)

  ghost function FragsIn(bytes: seq<byte>): seq<Frag>
    decreases |bytes|
  {
    if bytes == [] then []
    else match ParseFragment(bytes) {
      case None => []
      case Some((h, body, rest)) => [Frag(h, body)] + FragsIn(rest)
    }
  }

  /** The fragments an event brings before the receiver. */
  ghost function HeardNow(rx: Rx, e: Event): seq<Frag>
    requires e.Arrives? ==> |e.r.number| == 8
  {
    if e.Arrives? && e.r.typ == HANDSHAKE && OpenRecord(rx, e.r).1 == Success then FragsIn(e.r.plain.value) else []
  }

  ghost function Heard(rx: Rx, limit: nat, es: seq<Event>): seq<Frag>
    requires RxOk(rx) && Numbered(es)
    decreases |es|
  {
    if es == [] then []
    else
      StepKeepsOk(rx, limit, es[0]);
      HeardNow(rx, es[0]) + Heard(Step(rx, limit, es[0]).0, limit, es[1..])
  }

  /** Whether some fragment belongs to message s. */
  ghost predicate Mentions(fs: seq<Frag>, s: nat) {
    exists f :: f in fs && f.h.seqNo == s
  }

  ghost predicate FragCovers(f: Frag, s: nat, k: nat) {
    f.h.seqNo == s && f.h.fragOff <= k < f.h.fragOff + f.h.fragLen
  }

  /** Whether some fragment holds byte k of message s. */
  ghost predicate Covers(fs: seq<Frag>, s: nat, k: nat) {
    exists f :: f in fs && FragCovers(f, s, k)
  }

  ghost predicate Knows(rx: Rx, s: nat, k: nat) {
    s in rx.slots && Has(rx.slots[s].got, k)
  }

  /** Once `fs` has been heard after `rx`, exactly what `rx` knew and what `fs` brought of message s is known. */
  ghost predicate Learned(rx: Rx, fs: seq<Frag>, next: Rx, s: nat) {
    && (s in next.slots <==> s in rx.slots || Mentions(fs, s))
    && (forall k :: Knows(next, s, k) <==> Knows(rx, s, k) || Covers(fs, s, k))
  }

  lemma LearnedTwice(rx: Rx, fs: seq<Frag>, mid: Rx, gs: seq<Frag>, next: Rx, s: nat)
    requires Learned(rx, fs, mid, s) && Learned(mid, gs, next, s)
    ensures Learned(rx, fs + gs, next, s)
  {
    assert Mentions(fs + gs, s) <==> Mentions(fs, s) || Mentions(gs, s);
    forall k: nat
      ensures Covers(fs + gs, s, k) <==> Covers(fs, s, k) || Covers(gs, s, k)
    {}
  }

  lemma FragmentLearned(rx: Rx, limit: nat, h: Header, body: seq<byte>, history: seq<Message>, s: nat)
    requires RxOk(rx) && Agrees(rx, history) && Genuine(h, body, history) && h.msgLen <= limit
    requires rx.epoch == 1 ==> h.seqNo == rx.readSeq
    requires h.seqNo < rx.readSeq + 7 && rx.readSeq <= s && |history| < 0x1_0000
    ensures TakeFragment(rx, limit, h, body).1 == None
    ensures Learned(rx, [Frag(h, body)], TakeFragment(rx, limit, h, body).0, s)
  {
    var f := Frag(h, body);
    var next := TakeFragment(rx, limit, h, body).0;
    assert f in [f];
    if h.seqNo in rx.slots { assert SlotAgrees(rx.slots[h.seqNo], history[h.seqNo]); }
    if h.seqNo == s {
      var slot := SlotFor(rx, h);
      assert Mentions([f], s);
      forall k: nat
        ensures Knows(next, s, k) <==> Knows(rx, s, k) || Covers([f], s, k)
      {
        assert Covers([f], s, k) <==> FragCovers(f, s, k);
        if Complete(slot.got) && k < |slot.got| { assert slot.got[k] in slot.got; }
      }
    }
  }

  /** The sequence numbers of the messages that are sent in one epoch. */
  datatype Span = Span(first: nat, end: nat)

  ghost predicate InSpan(bytes: seq<byte>, span: Span) {
    forall f :: f in FragsIn(bytes) ==> span.first <= f.h.seqNo < span.end
  }

  /** A handshake record of an epoch holds only messages of the span. */
  ghost predicate RecordWithin(r: Record, epoch: nat, span: Span) {
    |r.number| == 8 && EpochOf(r.number) == epoch && r.typ == HANDSHAKE && r.plain.Some? ==> InSpan(r.plain.value, span)
  }

  ghost predicate AllWithin(es: seq<Event>, epoch: nat, span: Span) {
    forall e :: e in es && e.Arrives? ==> RecordWithin(e.r, epoch, span)
  }

  /**
   * What is sent in the epoch goes at most seven messages beyond what the receiver has taken; in the
   * encrypted epoch it is one message.
   */
  ghost predicate InReach(rx: Rx, span: Span) {
    span.end <= rx.readSeq + 7 && (rx.epoch == 1 ==> span.end == span.first + 1 <= rx.readSeq + 1)
  }

  lemma {:induction false} FragmentsLearned(rx: Rx, limit: nat, bytes: seq<byte>, history: seq<Message>, span: Span, s: nat)
    requires RxOk(rx) && Agrees(rx, history) && GenuineBytes(bytes, history) && InSpan(bytes, span) && InReach(rx, span)
    requires rx.readSeq <= s && |history| < 0x1_0000
    requires AllFit(history, limit)
    ensures rx.epoch != 1 || rx.readSeq == span.first ==> TakeFragments(rx, limit, bytes).1 == Success
    ensures Learned(rx, FragsIn(bytes), TakeFragments(rx, limit, bytes).0, s)
    decreases |bytes|
  {
    if bytes != [] {
      var (h, body, rest) := ParseFragment(bytes).value;
      FragmentAgrees(rx, limit, h, body, history);
      assert FragsIn(bytes) == [Frag(h, body)] + FragsIn(rest);
      assert Frag(h, body) in FragsIn(bytes);
      assert history[h.seqNo] in history;
      if rx.epoch == 1 && h.seqNo != rx.readSeq {
        // A message already taken is refused, and nothing changes.
        return;
      }
      FragmentLearned(rx, limit, h, body, history, s);
      var next := TakeFragment(rx, limit, h, body).0;
      FragmentsLearned(next, limit, rest, history, span, s);
      LearnedTwice(rx, [Frag(h, body)], next, FragsIn(rest), TakeFragments(next, limit, rest).0, s);
    }
  }

  /** Everything but a change of epoch. */
  predicate SameEpoch(e: Event) {
    !e.Switched?
  }

  lemma {:induction false} EpochStays(rx: Rx, limit: nat, es: seq<Event>)
    requires RxOk(rx) && Numbered(es) && forall e :: e in es ==> SameEpoch(e)
    ensures Run(rx, limit, es).0.epoch == rx.epoch
    decreases |es|
  {
    if es != [] {
      assert SameEpoch(es[0]) && forall e :: e in es[1..] ==> e in es;
      StepKeepsOk(rx, limit, es[0]);
      if es[0].Arrives? { OpenKeepsOk(rx, limit, es[0].r); }
      EpochStays(Step(rx, limit, es[0]).0, limit, es[1..]);
    }
  }

  lemma NothingLearned(rx: Rx, next: Rx, s: nat)
    requires s in next.slots <==> s in rx.slots
    requires s in rx.slots ==> next.slots[s] == rx.slots[s]
    ensures Learned(rx, [], next, s)
  {}

  lemma StepLearned(rx: Rx, limit: nat, e: Event, history: seq<Message>, span: Span, s: nat)
    requires RxOk(rx) && Agrees(rx, history) && rx.readSeq <= |history| < 0x1_0000 && InReach(rx, span)
    requires (e.Arrives? ==> GenuineRecord(e.r, history) && RecordWithin(e.r, rx.epoch, span)) && SameEpoch(e)
    requires AllFit(history, limit)
    requires Step(rx, limit, e).0.readSeq <= s
    ensures Learned(rx, HeardNow(rx, e), Step(rx, limit, e).0, s)
    ensures Step(rx, limit, e).0.epoch == rx.epoch
  {
    if e.Arrives? {
      OpenKeepsOk(rx, limit, e.r);
      ArrivalLearned(rx, limit, e.r, history, span, s);
    } else {
      NothingLearned(rx, Step(rx, limit, e).0, s);
    }
  }

  lemma ArrivalLearned(rx: Rx, limit: nat, r: Record, history: seq<Message>, span: Span, s: nat)
    requires RxOk(rx) && Agrees(rx, history) && rx.readSeq <= |history| < 0x1_0000 && InReach(rx, span)
    requires GenuineRecord(r, history) && RecordWithin(r, rx.epoch, span) && rx.readSeq <= s
    requires AllFit(history, limit)
    ensures Learned(rx, HeardNow(rx, Arrives(r)), OpenHandshake(rx, limit, r).0, s)
    ensures OpenHandshake(rx, limit, r).0.epoch == rx.epoch
  {
    var (next, verdict) := OpenRecord(rx, r);
    hide TakeFragments, FragsIn, Stale, BigEndian, GenuineBytes, Learned, SlotAgrees, InSpan;
    if verdict == Success && r.typ == HANDSHAKE {
      FragmentsKeepOk(next, limit, r.plain.value);
      FragmentsLearned(next, limit, r.plain.value, history, span, s);
      LearnedAlike(rx, next, HeardNow(rx, Arrives(r)), OpenHandshake(rx, limit, r).0, s);
    } else {
      NothingLearned(rx, OpenHandshake(rx, limit, r).0, s);
    }
  }

  /** Only what is held matters to what is learned. */
  lemma LearnedAlike(rx: Rx, rx': Rx, fs: seq<Frag>, next: Rx, s: nat)
    requires rx.slots == rx'.slots && Learned(rx', fs, next, s)
    ensures Learned(rx, fs, next, s)
  {}

  /**
   * Of a message not yet taken, a receiver holds exactly the bytes that have arrived, as long as the
   * peer's messages are among the next seven, which is as many as a flight may have.
   */
  lemma {:induction false} HoldsWhatArrived(rx: Rx, limit: nat, es: seq<Event>, history: seq<Message>, span: Span, s: nat)
    requires RxOk(rx) && Agrees(rx, history) && rx.readSeq <= |history| < 0x1_0000 && InReach(rx, span)
    requires EventsOk(es, history) && AllWithin(es, rx.epoch, span) && forall e :: e in es ==> SameEpoch(e)
    requires AllFit(history, limit)
    requires Run(rx, limit, es).0.readSeq <= s
    ensures Learned(rx, Heard(rx, limit, es), Run(rx, limit, es).0, s)
    decreases |es|
  {
    if es != [] {
      StepDelivers(rx, limit, es[0], history);
      var next := Step(rx, limit, es[0]).0;
      DeliversInOrder(next, limit, es[1..], history);
      StepLearned(rx, limit, es[0], history, span, s);
      HoldsWhatArrived(next, limit, es[1..], history, span, s);
      LearnedTwice(rx, HeardNow(rx, es[0]), next, Heard(next, limit, es[1..]), Run(next, limit, es[1..]).0, s);
    }
  }

  /**
   * The next message completes exactly when all its bytes have arrived, in whatever pieces and order,
   * and then `dtls1_get_message` gives what the peer sent.
   */
  lemma CompletesWhenAllArrived(rx: Rx, limit: nat, es: seq<Event>, history: seq<Message>, span: Span)
    requires RxOk(rx) && Agrees(rx, history) && rx.readSeq <= |history| < 0x1_0000 && InReach(rx, span)
    requires EventsOk(es, history) && AllWithin(es, rx.epoch, span) && forall e :: e in es ==> SameEpoch(e)
    requires AllFit(history, limit)
    requires rx.slots == map[] && Run(rx, limit, es).0.readSeq < |history|
    ensures var last := Run(rx, limit, es).0;
            var (s, m) := (last.readSeq, history[last.readSeq]);
            && (Ready(last) <==> Mentions(Heard(rx, limit, es), s) && forall k :: 0 <= k < |m.body| ==> Covers(Heard(rx, limit, es), s, k))
            && (Ready(last) ==> MessageOf(last.slots[s]) == m)
  {
    var last := Run(rx, limit, es).0;
    var s, m := last.readSeq, history[last.readSeq];
    var fs := Heard(rx, limit, es);
    DeliversInOrder(rx, limit, es, history);
    HoldsWhatArrived(rx, limit, es, history, span, s);
    if s in last.slots {
      var got := last.slots[s].got;
      assert SlotAgrees(last.slots[s], m);
      CompleteMeans(got);
      if Ready(last) {
        CompleteIsMessage(last.slots[s], m);
        forall k | 0 <= k < |m.body|
          ensures Covers(fs, s, k)
        {
          assert Knows(last, s, k);
        }
      } else {
        var k :| 0 <= k < |got| && !Has(got, k);
        assert !Knows(last, s, k);
      }
    }
  }

  /**
   * Outside the encrypted epoch the only genuine fragment that is an error is the one just past the
   * window: the test that ignores what is too far ahead lets it through, and the ring refuses it.
   */
  lemma GenuineFragmentFails(rx: Rx, limit: nat, h: Header, body: seq<byte>, history: seq<Message>)
    requires RxOk(rx) && Agrees(rx, history) && Genuine(h, body, history) && h.msgLen <= limit && rx.epoch != 1
    ensures TakeFragment(rx, limit, h, body).1.Some? <==> h.seqNo == rx.readSeq + 7
  {
    if h.seqNo in rx.slots {
      assert SlotAgrees(rx.slots[h.seqNo], history[h.seqNo]);
    }
  }
}
