/**
 * What becomes of a record that a DTLS endpoint receives, in terms of the record's bytes and the state
 * of the receiver: the layout of sequence numbers and headers, each record type with its outcome, and
 * which ChangeCipherSpec is pending after a whole run.
 */
module ReceivedRecords {
  import opened Wrappers
  import opened Bits
  import opened HandshakeFragments
  import opened Reassembly
  import opened ReplayWindow
  import opened IncomingMessages
  import opened Delivery

  // ---- Layouts (sections 4.1 and 4.2.2 of RFC 6347).

  lemma {:induction false} BigEndianDigits(s: seq<byte>)
    ensures |s| == 2 ==> BigEndian(s) == 256 * s[0] as nat + s[1]
    ensures |s| == 3 ==> BigEndian(s) == 0x1_0000 * s[0] as nat + 256 * s[1] as nat + s[2]
    ensures |s| == 8 ==> BigEndian(s) == 0x1_0000_0000 * BigEndian(s[..4]) + BigEndian(s[4..])
    ensures |s| == 4 ==> BigEndian(s) == 0x100_0000 * s[0] as nat + 0x1_0000 * s[1] as nat + 256 * s[2] as nat + s[3]
  {
    BigEndianShort(s);
    if |s| == 8 {
      BigEndianShort(s[4..]);
      assert s[..5][..4] == s[..4] && BigEndian(s[..5]) == 256 * BigEndian(s[..4]) + s[4];
      assert s[..6][..5] == s[..5] && BigEndian(s[..6]) == 256 * BigEndian(s[..5]) + s[5];
      assert s[..7][..6] == s[..6] && BigEndian(s[..7]) == 256 * BigEndian(s[..6]) + s[6];
      assert BigEndian(s) == 256 * BigEndian(s[..7]) + s[7];
    }
  }

  lemma BigEndianShort(s: seq<byte>)
    ensures |s| == 2 ==> BigEndian(s) == 256 * s[0] as nat + s[1]
    ensures |s| == 3 ==> BigEndian(s) == 0x1_0000 * s[0] as nat + 256 * s[1] as nat + s[2]
    ensures |s| == 4 ==> BigEndian(s) == 0x100_0000 * s[0] as nat + 0x1_0000 * s[1] as nat + 256 * s[2] as nat + s[3]
  {
    if 2 <= |s| <= 4 {
      assert BigEndian([s[0]]) == s[0] as nat by { assert BigEndian([]) == 0; }
      assert s[..2][..1] == [s[0]];
      assert BigEndian(s[..2]) == 256 * s[0] as nat + s[1];
      if |s| == 2 { assert s[..2] == s; }
      if |s| >= 3 { assert s[..3][..2] == s[..2]; assert BigEndian(s[..3]) == 256 * BigEndian(s[..2]) + s[2]; }
      if |s| == 3 { assert s[..3] == s; }
      if |s| == 4 { assert BigEndian(s) == 256 * BigEndian(s[..3]) + s[3]; }
    }
  }

  /** The epoch is the first two bytes of the number. */
  lemma EpochBytes(number: seq<byte>)
    requires |number| == 8
    ensures EpochOf(number) == 256 * number[0] as nat + number[1] == BigEndian(number[..2])
  {
    BigEndianDigits(number[..2]);
  }

  /** The header of a fragment: type, length of the message, its number, offset and length of the fragment, each big-endian. */
  lemma HeaderLayout(h: Header)
    requires FieldsFit(h)
    ensures var s := HeaderBytes(h);
            && |s| == 12 && s[0] == h.typ && BigEndian(s[1..4]) == h.msgLen && BigEndian(s[4..6]) == h.seqNo
            && BigEndian(s[6..9]) == h.fragOff && BigEndian(s[9..12]) == h.fragLen
  {
    var s := HeaderBytes(h);
    assert s[1..4] == U24(h.msgLen) && s[4..6] == U16(h.seqNo) && s[6..9] == U24(h.fragOff) && s[9..12] == U24(h.fragLen);
    BigEndianDigits(U24(h.msgLen)); BigEndianDigits(U16(h.seqNo)); BigEndianDigits(U24(h.fragOff)); BigEndianDigits(U24(h.fragLen));
  }

  // ---- One record.

  /** Neither recorded before nor 64 or more below the highest number of the epoch. */
  ghost predicate Fresh(rx: Rx, number: seq<byte>) {
    BigEndian(number) !in rx.recorded && rx.max < BigEndian(number) + 64
  }

  /** A record of the current epoch that is fresh, authentic and not too long. */
  ghost predicate Admitted(rx: Rx, r: Record)
    requires |r.number| == 8
  {
    && r.versionOk && 256 * r.number[0] as nat + r.number[1] == rx.epoch && Fresh(rx, r.number)
    && r.plain.Some? && |r.plain.value| <= 16384
  }

  /** The receiver with the number of an admitted record recorded. */
  ghost predicate Recorded(rx: Rx, r: Record, next: Rx)
    requires |r.number| == 8
  {
    && next.recorded == rx.recorded + {BigEndian(r.number)}
    && next.max == (if rx.max < BigEndian(r.number) then BigEndian(r.number) else rx.max)
    && next.readSeq == rx.readSeq && next.hasMessage == rx.hasMessage && next.epoch == rx.epoch && next.encrypted == rx.encrypted
  }

  /** What is not admitted changes nothing, and only an authentic record that is too long is an error. */
  lemma NotAdmitted(rx: Rx, limit: nat, r: Record)
    requires |r.number| == 8 && !Admitted(rx, r)
    ensures OpenHandshake(rx, limit, r) == (rx,
              if r.versionOk && 256 * r.number[0] as nat + r.number[1] == rx.epoch && Fresh(rx, r.number) && r.plain.Some?
              then Failed(RecordOverflow) else Discarded)
  {
    hide BigEndian, TakeFragments;
    EpochBytes(r.number);
  }

  /**
   * What is admitted is recorded. An alert (21) is passed on; application data (23) is dropped under
   * encryption and an error before; a ChangeCipherSpec (20) is an error under encryption, and before
   * it is noted when it is the single byte 1 and an error otherwise; handshake data (22) changes only
   * the messages held; anything else is an error.
   */
  lemma AdmittedOutcome(rx: Rx, limit: nat, r: Record)
    requires |r.number| == 8 && Admitted(rx, r)
    ensures var (next, outcome) := OpenHandshake(rx, limit, r);
            && Recorded(rx, r, next)
            && next.ccs == (rx.ccs || (r.typ == 20 && !rx.encrypted && r.plain.value == [1]))
            && (r.typ == 22 ==> next.slots == TakeFragments(rx, limit, r.plain.value).0.slots)
            && (r.typ != 22 ==> next.slots == rx.slots)
            && outcome ==
               if r.typ == 22 then TakeFragments(rx, limit, r.plain.value).1
               else if r.typ == 21 then PeerAlert
               else if r.typ == 20 && !rx.encrypted && r.plain.value == [1] then Success
               else if r.typ == 20 && !rx.encrypted then Failed(IllegalParameter)
               else if r.typ == 23 && rx.encrypted then Discarded
               else Failed(UnexpectedMessage)
  {
    hide BigEndian, TakeFragments;
    EpochBytes(r.number);
    if r.typ == 22 {
      FragmentsIgnoreWindow(rx, OpenRecord(rx, r).0, limit, r.plain.value);
    }
  }

  /** What fragments do depends on the messages held, the number awaited and the epoch alone, and changes only the messages held. */
  lemma {:induction false} FragmentsIgnoreWindow(rx: Rx, other: Rx, limit: nat, bytes: seq<byte>)
    requires other.slots == rx.slots && other.readSeq == rx.readSeq && other.epoch == rx.epoch
    ensures TakeFragments(other, limit, bytes).0 == other.(slots := TakeFragments(rx, limit, bytes).0.slots)
    ensures TakeFragments(other, limit, bytes).1 == TakeFragments(rx, limit, bytes).1
    decreases |bytes|
  {
    if bytes != [] && ParseFragment(bytes).Some? {
      hide TakeFragment, ParseFragment;
      var (h, body, rest) := ParseFragment(bytes).value;
      FragmentIgnoresWindow(rx, other, limit, h, body);
      if TakeFragment(rx, limit, h, body).1.None? {
        FragmentsIgnoreWindow(TakeFragment(rx, limit, h, body).0, TakeFragment(other, limit, h, body).0, limit, rest);
      }
    }
  }

  lemma FragmentIgnoresWindow(rx: Rx, other: Rx, limit: nat, h: Header, body: seq<byte>)
    requires other.slots == rx.slots && other.readSeq == rx.readSeq && other.epoch == rx.epoch && |body| == h.fragLen
    ensures var (next, alert) := TakeFragment(rx, limit, h, body);
            && TakeFragment(other, limit, h, body) == (other.(slots := next.slots), alert)
            && next == rx.(slots := next.slots)
  {
    hide Complete, Filled;
  }

  // ---- One fragment.

  /** The fragment lies in its message, and the message is not too long. */
  predicate WellSized(h: Header, limit: nat) {
    h.fragOff + h.fragLen <= h.msgLen <= limit
  }

  /** Type and length are those of the message held under the same number, if there is one. */
  predicate Compatible(rx: Rx, h: Header) {
    h.seqNo in rx.slots ==> rx.slots[h.seqNo].typ == h.typ && |rx.slots[h.seqNo].got| == h.msgLen
  }

  /** Each alert with the fragments that raise it; a fragment that raises one, or is out of reach, changes nothing. */
  lemma FragmentRefused(rx: Rx, limit: nat, h: Header, body: seq<byte>)
    requires |body| == h.fragLen && RxOk(rx)
    ensures var (next, alert) := TakeFragment(rx, limit, h, body);
            var ahead := h.seqNo - rx.readSeq;
            && (alert == Some(UnexpectedMessage) <==> WellSized(h, limit) && rx.epoch == 1 && ahead != 0)
            && (alert == Some(InternalError) <==> WellSized(h, limit) && rx.epoch != 1 && ahead == 7)
            && (alert == Some(IllegalParameter) <==> !WellSized(h, limit) || (!Compatible(rx, h) && (rx.epoch == 1 ==> ahead == 0)))
            && (alert == Some(DecodeError) <==> false) && (alert == Some(RecordOverflow) <==> false)
            && (alert.Some? || !(0 <= ahead < 7) ==> next == rx)
  {
    hide Complete, Filled, IsMax;
  }

  /** A fragment that is taken starts its message or adds its bytes to it, unless the message is complete, and touches no other. */
  lemma FragmentTaken(rx: Rx, limit: nat, h: Header, body: seq<byte>)
    requires |body| == h.fragLen && WellSized(h, limit) && Compatible(rx, h)
    requires 0 <= h.seqNo - rx.readSeq < 7 && (rx.epoch == 1 ==> h.seqNo == rx.readSeq)
    ensures var (next, alert) := TakeFragment(rx, limit, h, body);
            && alert.None? && next == rx.(slots := next.slots) && next.slots.Keys == rx.slots.Keys + {h.seqNo}
            && (forall s :: s in rx.slots && s != h.seqNo ==> next.slots[s] == rx.slots[s])
            && next.slots[h.seqNo].typ == h.typ && |next.slots[h.seqNo].got| == h.msgLen
            && forall k :: 0 <= k < h.msgLen ==> next.slots[h.seqNo].got[k] == ByteAfter(rx, h, body, k)
  {
    hide Complete, AllThere, IsMax;
    CompleteIsAllThere(SlotFor(rx, h).got);
    NothingThere(h.msgLen);
  }

  predicate AllThere(got: Partial) {
    forall i :: 0 <= i < |got| ==> got[i].Some?
  }

  lemma CompleteIsAllThere(got: Partial)
    ensures Complete(got) <==> AllThere(got)
  {
    if AllThere(got) {
      forall k | 0 <= k < |got|
        ensures got[k] != None
      {}
    } else {
      var k :| 0 <= k < |got| && got[k].None?;
      assert got[k] in got;
    }
  }

  lemma NothingThere(n: nat)
    ensures n > 0 ==> !AllThere(Nothing(n))
  {
    if n > 0 {
      assert Nothing(n)[0].None?;
    }
  }

  /** Byte k of the fragment's message after the fragment: of a complete message the byte held, else that of the fragment where it covers k. */
  ghost function ByteAfter(rx: Rx, h: Header, body: seq<byte>, k: nat): Option<byte>
    requires |body| == h.fragLen && k < h.msgLen && Compatible(rx, h)
  {
    var held := if h.seqNo in rx.slots then rx.slots[h.seqNo].got[k] else None;
    var whole := h.seqNo in rx.slots && AllThere(rx.slots[h.seqNo].got);
    if !whole && h.fragOff <= k < h.fragOff + h.fragLen then Some(body[k - h.fragOff]) else held
  }

  /** A record is its fragments in order, up to the first that raises an alert. */
  lemma FragmentThenRest(rx: Rx, limit: nat, h: Header, body: seq<byte>, rest: seq<byte>)
    requires FieldsFit(h) && |body| == h.fragLen
    ensures var (next, alert) := TakeFragment(rx, limit, h, body);
            TakeFragments(rx, limit, HeaderBytes(h) + body + rest) ==
              if alert.Some? then (next, Failed(alert.value)) else TakeFragments(next, limit, rest)
  {
    hide TakeFragment, ParseFragment;
    ParseOfBytes(h, body, rest);
  }

  /** Bytes that end within a header, or before the body that the header announces, are a decoding error. */
  lemma FragmentCutShort(rx: Rx, limit: nat, bytes: seq<byte>)
    requires 0 < |bytes| && (12 <= |bytes| ==> |bytes| < 12 + BigEndian(bytes[9..12]))
    ensures TakeFragments(rx, limit, bytes) == (rx, Failed(DecodeError))
    ensures TakeFragments(rx, limit, []) == (rx, Success)
  {
    hide BigEndian;
    if 12 <= |bytes| {
      BigEndianDigits(bytes[9..12]);
    }
  }

  // ---- A whole run.

  /** The state of the run before event i. */
  ghost function Before(rx: Rx, limit: nat, es: seq<Event>, i: nat): Rx
    requires RxOk(rx) && Numbered(es) && i <= |es|
  {
    Run(rx, limit, es[..i]).0
  }

  /** Event i brings a ChangeCipherSpec that is noted: it is admitted, of type 20, the single byte 1, and nothing is encrypted yet. */
  ghost predicate Notes(rx: Rx, limit: nat, es: seq<Event>, i: nat)
    requires RxOk(rx) && Numbered(es) && i < |es|
  {
    && es[i].Arrives? && Admitted(Before(rx, limit, es, i), es[i].r)
    && es[i].r.typ == 20 && es[i].r.plain.value == [1] && !Before(rx, limit, es, i).encrypted
  }

  /** No ChangeCipherSpec is consumed from event i on. */
  predicate NoneConsumed(es: seq<Event>, i: nat) {
    forall j :: i <= j < |es| ==> !es[j].CcsConsumed?
  }

  /** Nothing is held but the current message, and no ChangeCipherSpec is pending. */
  ghost predicate Drained(rx: Rx) {
    !rx.ccs && forall s :: s in rx.slots ==> rx.hasMessage && s == rx.readSeq
  }

  /** Event i changes the read epoch. */
  ghost predicate Changes(rx: Rx, limit: nat, es: seq<Event>, i: nat)
    requires RxOk(rx) && Numbered(es) && i < |es|
  {
    es[i].Switched? && Drained(Before(rx, limit, es, i))
  }

  ghost predicate NoneChanges(rx: Rx, limit: nat, es: seq<Event>, i: nat)
    requires RxOk(rx) && Numbered(es)
  {
    forall j :: i <= j < |es| ==> !Changes(rx, limit, es, j)
  }

  /** Event i brings an admitted record with the number n. */
  ghost predicate Admits(rx: Rx, limit: nat, es: seq<Event>, i: nat, n: nat)
    requires RxOk(rx) && Numbered(es) && i < |es|
  {
    es[i].Arrives? && Admitted(Before(rx, limit, es, i), es[i].r) && BigEndian(es[i].r.number) == n
  }

  lemma RunLast(rx: Rx, limit: nat, es: seq<Event>)
    requires RxOk(rx) && Numbered(es) && es != []
    ensures var (init, last) := (es[..|es| - 1], es[|es| - 1]);
            var mid := Before(rx, limit, es, |es| - 1);
            && RxOk(mid) && Numbered(init) && mid == Run(rx, limit, init).0 && Run(rx, limit, es).0 == Step(mid, limit, last).0
            && forall i :: 0 <= i < |init| ==> es[..i] == init[..i]
  {
    var init, last := es[..|es| - 1], es[|es| - 1];
    assert es == init + [last];
    RunSplits(rx, limit, init, [last]);
    var mid := Run(rx, limit, init).0;
    assert [last][0] == last && [last][1..] == [];
    StepKeepsOk(mid, limit, last);
    assert Run(mid, limit, [last]).0 == Step(mid, limit, last).0;
  }

  /** A change of the read state does nothing unless the receiver is drained; then the next epoch starts with an empty window. */
  lemma ChangeOutcome(rx: Rx, encrypted: bool)
    ensures !Drained(rx) ==> SetReadState(rx, encrypted) == rx
    ensures Drained(rx) ==>
              SetReadState(rx, encrypted) ==
                rx.(epoch := if rx.epoch == 65535 then 0 else rx.epoch + 1, encrypted := encrypted, max := 0, recorded := {})
              || rx.epoch > 65535
  {}

  /** One event and the ChangeCipherSpec pending after it. */
  lemma StepPending(rx: Rx, limit: nat, e: Event)
    requires RxOk(rx) && (e.Arrives? ==> |e.r.number| == 8)
    ensures Step(rx, limit, e).0.ccs <==>
              || (e.Arrives? && Admitted(rx, e.r) && e.r.typ == 20 && e.r.plain.value == [1] && !rx.encrypted)
              || (rx.ccs && !e.CcsConsumed?)
    ensures rx.ccs && !e.CcsConsumed? ==> Step(rx, limit, e).0.epoch == rx.epoch && Step(rx, limit, e).0.encrypted == rx.encrypted
  {
    match e
    case Arrives(r) =>
      hide OpenHandshake, BigEndian;
      if Admitted(rx, r) { AdmittedOutcome(rx, limit, r); } else { NotAdmitted(rx, limit, r); }
    case _ =>
  }

  /** A ChangeCipherSpec was noted and none has been consumed since. */
  ghost predicate NotedSince(rx: Rx, limit: nat, es: seq<Event>)
    requires RxOk(rx) && Numbered(es)
  {
    exists i :: 0 <= i < |es| && Notes(rx, limit, es, i) && NoneConsumed(es, i + 1)
  }

  lemma NotedSinceLast(rx: Rx, limit: nat, es: seq<Event>)
    requires es != [] && RxOk(rx) && Numbered(es) && Numbered(es[..|es| - 1])
    ensures NotedSince(rx, limit, es) <==>
              Notes(rx, limit, es, |es| - 1) || (NotedSince(rx, limit, es[..|es| - 1]) && !es[|es| - 1].CcsConsumed?)
  {
    hide Run, Admitted, RxOk, Numbered, NoneConsumed;
    var n, init := |es| - 1, es[..|es| - 1];
    forall i | 0 <= i < n
      ensures Notes(rx, limit, es, i) == Notes(rx, limit, init, i)
      ensures NoneConsumed(es, i + 1) == (NoneConsumed(init, i + 1) && !es[n].CcsConsumed?)
    {
      assert es[..i] == init[..i];
      NoneConsumedLast(es, i + 1);
    }
    NoneConsumedAfter(es);
    if NotedSince(rx, limit, init) && !es[n].CcsConsumed? {
      var i :| 0 <= i < n && Notes(rx, limit, init, i) && NoneConsumed(init, i + 1);
      assert Notes(rx, limit, es, i) && NoneConsumed(es, i + 1);
    }
    if NotedSince(rx, limit, es) && !Notes(rx, limit, es, n) {
      var i :| 0 <= i < |es| && Notes(rx, limit, es, i) && NoneConsumed(es, i + 1);
      assert Notes(rx, limit, init, i) && NoneConsumed(init, i + 1);
    }
  }

  lemma NoneConsumedAfter(es: seq<Event>)
    ensures NoneConsumed(es, |es|)
  {}

  /**
   * After every run a ChangeCipherSpec is pending exactly when one was noted, or was pending at the
   * start, and none has been consumed since.
   */
  lemma {:induction false} PendingExactly(rx: Rx, limit: nat, es: seq<Event>)
    requires RxOk(rx) && Numbered(es)
    ensures Run(rx, limit, es).0.ccs <==> (rx.ccs && NoneConsumed(es, 0)) || NotedSince(rx, limit, es)
    decreases |es|
  {
    if es != [] {
      hide Step, Admitted, RxOk, Numbered, NotedSince;
      var n := |es| - 1;
      RunLast(rx, limit, es);
      LastNumbered(es);
      PendingExactly(rx, limit, es[..n]);
      StepPending(Before(rx, limit, es, n), limit, es[n]);
      NotedSinceLast(rx, limit, es);
      NoneConsumedLast(es, 0);
    }
  }

  lemma LastNumbered(es: seq<Event>)
    requires Numbered(es) && es != []
    ensures es[|es| - 1].Arrives? ==> |es[|es| - 1].r.number| == 8
    ensures forall i :: 0 <= i < |es| && es[i].Arrives? ==> |es[i].r.number| == 8
  {}

  lemma NoneConsumedLast(es: seq<Event>, i: nat)
    requires es != [] && i <= |es| - 1
    ensures NoneConsumed(es, i) <==> NoneConsumed(es[..|es| - 1], i) && !es[|es| - 1].CcsConsumed?
  {
    if NoneConsumed(es[..|es| - 1], i) && !es[|es| - 1].CcsConsumed? {
      forall j | i <= j < |es|
        ensures !es[j].CcsConsumed?
      {
        if j < |es| - 1 { assert es[..|es| - 1][j] == es[j]; }
      }
    }
  }

  /** While a ChangeCipherSpec is pending no change of the read state has an effect. */
  lemma {:induction false} PendingKeepsEpoch(rx: Rx, limit: nat, es: seq<Event>)
    requires RxOk(rx) && Numbered(es) && rx.ccs && NoneConsumed(es, 0)
    ensures var last := Run(rx, limit, es).0; last.ccs && last.epoch == rx.epoch && last.encrypted == rx.encrypted
    decreases |es|
  {
    if es != [] {
      StepKeepsOk(rx, limit, es[0]);
      StepPending(rx, limit, es[0]);
      assert forall j :: 0 <= j < |es[1..]| ==> es[1..][j] == es[j + 1];
      PendingKeepsEpoch(Step(rx, limit, es[0]).0, limit, es[1..]);
    }
  }

  /** One event and the numbers recorded after it. */
  lemma StepRecorded(rx: Rx, limit: nat, e: Event, n: nat)
    requires RxOk(rx) && (e.Arrives? ==> |e.r.number| == 8)
    ensures n in Step(rx, limit, e).0.recorded <==>
              || (e.Arrives? && Admitted(rx, e.r) && BigEndian(e.r.number) == n)
              || (n in rx.recorded && !(e.Switched? && Drained(rx)))
  {
    match e
    case Arrives(r) =>
      hide OpenHandshake, BigEndian;
      if Admitted(rx, r) { AdmittedOutcome(rx, limit, r); } else { NotAdmitted(rx, limit, r); }
    case Switched(encrypted) =>
    case _ =>
  }

  /** A record with the number n was admitted and the epoch has not changed since. */
  ghost predicate AdmittedSince(rx: Rx, limit: nat, es: seq<Event>, n: nat)
    requires RxOk(rx) && Numbered(es)
  {
    exists i :: 0 <= i < |es| && Admits(rx, limit, es, i, n) && NoneChanges(rx, limit, es, i + 1)
  }

  lemma AdmittedSinceLast(rx: Rx, limit: nat, es: seq<Event>, n: nat)
    requires es != [] && RxOk(rx) && Numbered(es) && Numbered(es[..|es| - 1])
    ensures AdmittedSince(rx, limit, es, n) <==>
              || Admits(rx, limit, es, |es| - 1, n)
              || (AdmittedSince(rx, limit, es[..|es| - 1], n) && !Changes(rx, limit, es, |es| - 1))
  {
    hide Run, Admitted, RxOk, Numbered, Changes, NoneChanges;
    var m, init := |es| - 1, es[..|es| - 1];
    forall i | 0 <= i < m
      ensures Admits(rx, limit, es, i, n) == Admits(rx, limit, init, i, n)
      ensures NoneChanges(rx, limit, es, i + 1) == (NoneChanges(rx, limit, init, i + 1) && !Changes(rx, limit, es, m))
    {
      assert es[..i] == init[..i];
      NoneChangesLast(rx, limit, es, i + 1);
    }
    NoneChangesAfter(rx, limit, es);
    if AdmittedSince(rx, limit, init, n) && !Changes(rx, limit, es, m) {
      var i :| 0 <= i < m && Admits(rx, limit, init, i, n) && NoneChanges(rx, limit, init, i + 1);
      assert Admits(rx, limit, es, i, n) && NoneChanges(rx, limit, es, i + 1);
    }
    if AdmittedSince(rx, limit, es, n) && !Admits(rx, limit, es, m, n) {
      var i :| 0 <= i < |es| && Admits(rx, limit, es, i, n) && NoneChanges(rx, limit, es, i + 1);
      assert Admits(rx, limit, init, i, n) && NoneChanges(rx, limit, init, i + 1);
    }
  }

  lemma NoneChangesAfter(rx: Rx, limit: nat, es: seq<Event>)
    requires RxOk(rx) && Numbered(es)
    ensures NoneChanges(rx, limit, es, |es|)
  {}

  /** After every run the window holds exactly the numbers admitted since the last change of epoch. */
  lemma {:induction false} RecordedExactly(rx: Rx, limit: nat, es: seq<Event>, n: nat)
    requires RxOk(rx) && Numbered(es)
    ensures n in Run(rx, limit, es).0.recorded <==> (n in rx.recorded && NoneChanges(rx, limit, es, 0)) || AdmittedSince(rx, limit, es, n)
    decreases |es|
  {
    if es != [] {
      hide Step, Admitted, RxOk, Numbered, Drained, NoneChanges, AdmittedSince;
      var m := |es| - 1;
      RunLast(rx, limit, es);
      LastNumbered(es);
      RecordedExactly(rx, limit, es[..m], n);
      StepRecorded(Before(rx, limit, es, m), limit, es[m], n);
      AdmittedSinceLast(rx, limit, es, n);
      NoneChangesLast(rx, limit, es, 0);
    }
    NoneChangesAfter(rx, limit, []);
  }

  lemma NoneChangesLast(rx: Rx, limit: nat, es: seq<Event>, i: nat)
    requires es != [] && i <= |es| - 1 && RxOk(rx) && Numbered(es) && Numbered(es[..|es| - 1])
    ensures NoneChanges(rx, limit, es, i) <==> NoneChanges(rx, limit, es[..|es| - 1], i) && !Changes(rx, limit, es, |es| - 1)
  {
    hide Run, RxOk, Numbered, Drained;
    var init := es[..|es| - 1];
    forall j | 0 <= j < |init|
      ensures Changes(rx, limit, es, j) == Changes(rx, limit, init, j)
    {
      assert es[..j] == init[..j];
    }
    if NoneChanges(rx, limit, es, i) {
      assert !Changes(rx, limit, es, |es| - 1);
      forall j | i <= j < |init|
        ensures !Changes(rx, limit, init, j)
      {
        assert !Changes(rx, limit, es, j);
      }
    }
  }
}
