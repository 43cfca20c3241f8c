/** The client's machine, step by step, follows the dialogue. */
module ClientPath {
  import opened Wrappers
  import opened HandshakeState
  import opened Dialogue
  import opened HandshakeSafety
  import C = ClientMachine
  import S = ServerMachine

  /** The client states that a handshake of the plan's kind goes through. */
  predicate ClientOnPath(p: Plan, state: C.State) {
    match state
    case StartConnect | EnterEarlyData | ReadServerHello => true
    case SendClientFinished | FinishFlight | ReadSessionTicket | ProcessChangeCipherSpec | ReadServerFinished | FinishHandshake | Done => true
    case _ => !p.resumed
  }

  /** What a client that waits for a message is sure to get one for. */
  predicate ClientReads(p: Plan, state: C.State) {
    match state
    case ReadServerHello | ReadServerKeyExchange | ReadServerHelloDone | ReadServerFinished => true
    case ReadServerCertificate | ReadCertificateRequest => p.cipher.certAuth
    case ReadCertificateStatus => p.status
    case ReadSessionTicket => p.ticket
    case _ => false
  }

  /** The steps in which something can be left to the application: a certificate, a signature, a Channel ID. */
  predicate ClientPends(c: C.Client) {
    match c.state
    case VerifyServerCertificate | SendClientCertificate | SendCertificateVerify => true
    case SendClientFinished => c.core.channelId
    case _ => false
  }

  ghost predicate ClientWaitOk(p: Plan, c: C.Client) {
    match c.wait
    case Go => !c.state.EnterEarlyData? && !c.state.FinishFlight? && !c.state.ProcessChangeCipherSpec?
    case EarlyReturn => c.state.ReadSessionTicket?
    case Flush => c.state.EnterEarlyData? || c.state.FinishFlight?
    case ReadMessage => ClientReads(p, c.state)
    case ReadCcs => c.state.ProcessChangeCipherSpec?
    case Pending => ClientPends(c)
    case _ => false
  }

  /** The states in which a flight is being put together. */
  predicate ClientGathers(state: C.State) {
    match state
    case SendClientKeyExchange | SendCertificateVerify | SendClientFinished => true
    case _ => false
  }

  /** A client is where the plan has it. */
  ghost predicate ClientAt(p: Plan, c: C.Client) {
    var k, x := c.core, ClientPhase(p, c.state);
    && ClientOnPath(p, c.state) && ClientWaitOk(p, c)
    && k.writeEpoch == (if x > ClientCcs(p) then 1 else 0)
    && k.readEpoch == (if x > ServerCcs(p) then 1 else 0)
    && k.certRequest == (p.request && !ClientEarly(c.state))
    && (k.pending != [] ==> c.wait.Flush? || ClientGathers(c.state))
    && (if x <= 1 then k.hash.None? && k.buffer == Some(Said(p, x))
        else
          && k.hash == Some(Said(p, x))
          && k.resumed == p.resumed && k.cipher == p.cipher && k.ticketExpected == p.ticket && k.statusExpected == p.status
          && k.npn == p.npn && k.channelId == p.channelId)
  }

  ghost predicate ClientGoes(p: Plan, c: C.Client, j: nat, to: (C.Client, bool)) {
    && ClientAt(p, to.0)
    && Moves(p, true, ClientPhase(p, c.state), ClientPhase(p, to.0.state), j, to.1, c.core.pending, [], to.0.core.pending)
  }

  ghost predicate ClientCanGo(p: Plan, cc: C.Config, sc: S.Config, c: C.Client, front: Option<Item>, j: nat) {
    p == PlanOf(cc, sc) && Agreed(cc, sc) && ClientAt(p, c) && NextFrom(p, ClientPhase(p, c.state), front, j, false)
  }

  lemma AtConnect(p: Plan, cc: C.Config, sc: S.Config, c: C.Client, front: Option<Item>, j: nat)
    requires ClientCanGo(p, cc, sc, c, front, j) && c.state.StartConnect?
    ensures ClientGoes(p, c, j, C.StartConnectStep(c, Accept))
  {
    hide MsgAt, Said, ItemAt, Items, Moves, Only;
    OnePhase(p, true, 0, j, c.core.pending);
    SaidNext(p, 0);
    if p.resumed { ResumedPhases(p); } else { FullReply(p); }
  }

  lemma AtServerHelloResumed(p: Plan, cc: C.Config, sc: S.Config, c: C.Client, front: Option<Item>, j: nat)
    requires ClientCanGo(p, cc, sc, c, front, j) && c.state.ReadServerHello? && p.resumed
    ensures front.Some? ==> Peek(c.core, front).Some?
    ensures ClientGoes(p, c, j, C.ReadServerHelloStep(cc, c, Peek(c.core, front), Accept))
  {
    hide MsgAt, Said, ItemAt, Items, Moves, Only, NextFrom, ClientSpeaks;
    OnePhase(p, true, 1, j, c.core.pending);
    SaidNext(p, 1);
    ResumedPhases(p);
    Arrives(p, 1, front, j, false);
  }

  lemma AtServerHelloFull(p: Plan, cc: C.Config, sc: S.Config, c: C.Client, front: Option<Item>, j: nat)
    requires ClientCanGo(p, cc, sc, c, front, j) && c.state.ReadServerHello? && !p.resumed
    ensures front.Some? ==> Peek(c.core, front).Some?
    ensures ClientGoes(p, c, j, C.ReadServerHelloStep(cc, c, Peek(c.core, front), Accept))
  {
    hide MsgAt, Said, ItemAt, Items, Moves, Only, NextFrom, ClientSpeaks;
    OnePhase(p, true, 1, j, c.core.pending);
    SaidNext(p, 1);
    FullPhases(p);
    Arrives(p, 1, front, j, false);
  }

  lemma AtServerCertificate(p: Plan, cc: C.Config, sc: S.Config, c: C.Client, front: Option<Item>, j: nat)
    requires ClientCanGo(p, cc, sc, c, front, j) && c.state.ReadServerCertificate?
    ensures p.cipher.certAuth && front.Some? ==> Peek(c.core, front).Some?
    ensures ClientGoes(p, c, j, C.ReadServerCertificateStep(c, Peek(c.core, front), Accept))
  {
    hide MsgAt, Said, ItemAt, Items, Moves, Only, NextFrom, ClientSpeaks, Core.Hash, Agreed;
    OnePhase(p, true, 2, j, c.core.pending);
    SaidNext(p, 2);
    FullPhases(p);
    Arrives(p, 2, front, j, false);
    if p.cipher.certAuth { ReadsNext(p, c.core.(peerKey := true), 2, 0, Certificate(true)); }
  }

  lemma AtCertificateStatus(p: Plan, cc: C.Config, sc: S.Config, c: C.Client, front: Option<Item>, j: nat)
    requires ClientCanGo(p, cc, sc, c, front, j) && c.state.ReadCertificateStatus?
    ensures front.Some? ==> Peek(c.core, front).Some?
    ensures ClientGoes(p, c, j, C.ReadCertificateStatusStep(c, Peek(c.core, front), Accept))
  {
    hide MsgAt, Said, ItemAt, Items, Moves, Only, NextFrom, ClientSpeaks, Core.Hash, Agreed;
    OnePhase(p, true, 3, j, c.core.pending);
    SaidNext(p, 3);
    FullPhases(p);
    if front.Some? {
      ServerSpeaks(p, 3, front, j);
      if j == 3 { ReadsNext(p, c.core, 3, 0, CertificateStatus); }
    }
  }

  lemma AtVerifyCertificate(p: Plan, cc: C.Config, sc: S.Config, c: C.Client, front: Option<Item>, j: nat)
    requires ClientCanGo(p, cc, sc, c, front, j) && c.state.VerifyServerCertificate?
    ensures ClientGoes(p, c, j, C.VerifyServerCertificateStep(c, Accept))
  {
    hide MsgAt, Said, ItemAt, Items, Moves, Only;
    OnePhase(p, true, 4, j, c.core.pending);
  }

  lemma AtServerKeyExchange(p: Plan, cc: C.Config, sc: S.Config, c: C.Client, front: Option<Item>, j: nat)
    requires ClientCanGo(p, cc, sc, c, front, j) && c.state.ReadServerKeyExchange?
    ensures front.Some? ==> Peek(c.core, front).Some?
    ensures ClientGoes(p, c, j, C.ReadServerKeyExchangeStep(c, Peek(c.core, front), Accept))
  {
    hide MsgAt, Said, ItemAt, Items, Moves, Only, NextFrom, ClientSpeaks, Core.Hash, Agreed;
    OnePhase(p, true, 4, j, c.core.pending);
    SaidNext(p, 4);
    if front.Some? {
      ServerSpeaks(p, 4, front, j);
      if j == 4 { ReadsNext(p, c.core, 4, 0, ServerKeyExchange); }
    }
  }

  lemma AtCertificateRequest(p: Plan, cc: C.Config, sc: S.Config, c: C.Client, front: Option<Item>, j: nat)
    requires ClientCanGo(p, cc, sc, c, front, j) && c.state.ReadCertificateRequest?
    ensures front.Some? ==> Peek(c.core, front).Some?
    ensures ClientGoes(p, c, j, C.ReadCertificateRequestStep(c, Peek(c.core, front), Accept))
  {
    hide MsgAt, Said, ItemAt, Items, Moves, Only, NextFrom, ClientSpeaks, Core.Hash, Agreed;
    OnePhase(p, true, 5, j, c.core.pending);
    SaidNext(p, 5);
    FullPhases(p);
    if front.Some? {
      ServerSpeaks(p, 5, front, j);
      if j == 5 { ReadsNext(p, c.core.(certRequest := true), 5, 0, CertificateRequest); }
    }
  }

  lemma AtServerHelloDone(p: Plan, cc: C.Config, sc: S.Config, c: C.Client, front: Option<Item>, j: nat)
    requires ClientCanGo(p, cc, sc, c, front, j) && c.state.ReadServerHelloDone?
    ensures front.Some? ==> Peek(c.core, front).Some?
    ensures ClientGoes(p, c, j, C.ReadServerHelloDoneStep(c, Peek(c.core, front), Accept))
  {
    hide MsgAt, Said, ItemAt, Items, Moves, Only, NextFrom, ClientSpeaks, Core.Hash, Agreed;
    OnePhase(p, true, 6, j, c.core.pending);
    SaidNext(p, 6);
    if front.Some? {
      ServerSpeaks(p, 6, front, j);
      if j == 6 { ReadsNext(p, c.core, 6, 0, ServerHelloDone); }
    }
  }

  lemma AtClientCertificate(p: Plan, cc: C.Config, sc: S.Config, c: C.Client, front: Option<Item>, j: nat)
    requires ClientCanGo(p, cc, sc, c, front, j) && c.state.SendClientCertificate?
    ensures ClientGoes(p, c, j, C.SendClientCertificateStep(cc, c, Accept))
  {
    hide MsgAt, Said, ItemAt, Items, Moves, Only;
    OnePhase(p, true, 7, j, c.core.pending);
    SaidNext(p, 7);
    FullReply(p);
  }

  lemma AtClientKeyExchange(p: Plan, cc: C.Config, sc: S.Config, c: C.Client, front: Option<Item>, j: nat)
    requires ClientCanGo(p, cc, sc, c, front, j) && c.state.SendClientKeyExchange?
    ensures ClientGoes(p, c, j, C.SendClientKeyExchangeStep(c, Accept))
  {
    hide MsgAt, Said, ItemAt, Items, Moves, Only;
    OnePhase(p, true, 8, j, c.core.pending);
    SaidNext(p, 8);
    FullReply(p);
  }

  lemma AtCertificateVerify(p: Plan, cc: C.Config, sc: S.Config, c: C.Client, front: Option<Item>, j: nat)
    requires ClientCanGo(p, cc, sc, c, front, j) && c.state.SendCertificateVerify?
    requires p.clientKey ==> c.core.buffer == Some(Said(p, 9))
    ensures ClientGoes(p, c, j, C.SendCertificateVerifyStep(cc, c, Accept))
  {
    hide MsgAt, Said, ItemAt, Items, Moves, Only;
    OnePhase(p, true, 9, j, c.core.pending);
    SaidNext(p, 9);
    FullReply(p);
  }

  /** The client's last flight, as what it does to the transcript and to what is pending; nothing else changes but the write keys. */
  lemma FinishedFlight(p: Plan, c: C.Client)
    requires c.core.hash == Some(Said(p, ClientCcs(p))) && c.core.writeEpoch == 0
    requires c.core.npn == p.npn && c.core.channelId == p.channelId
    ensures var (next, used) := C.SendClientFinishedStep(c, Accept);
            var x, sent := ClientCcs(p), next.core;
            && !used && next.wait == Flush && next.state == C.FinishFlight
            && Says(p, sent, c.core.pending, x, x + 4)
            && sent == c.core.(pending := sent.pending, hash := sent.hash, buffer := sent.buffer, log := sent.log, writeEpoch := 1)
  {
    hide MsgAt, Said, ItemAt, Items, ClientSpeaks, Hello, Says, Core.Add, Core.Hash, Core.SendFinished;
    var k, x := c.core, ClientCcs(p);
    ClientReplies(p);
    SaysNothing(p, k, x);
    var keyed := k.AddChangeCipherSpec().ChangeWriteKeys();
    SaysChange(p, k, k.pending, x, x);
    SaysNext(p, keyed, k.pending, x, x + 1, NextProto);
    AddKeeps(keyed, NextProto);
    var proto := if k.npn then keyed.Add(NextProto) else keyed;
    SaysNext(p, proto, k.pending, x, x + 2, ChannelId);
    AddKeeps(proto, ChannelId);
    var id := if k.channelId then proto.Add(ChannelId) else proto;
    SaysFinished(p, id, k.pending, x, x + 3, false);
  }

  lemma AtClientFinishedResumed(p: Plan, cc: C.Config, sc: S.Config, c: C.Client, front: Option<Item>, j: nat)
    requires ClientCanGo(p, cc, sc, c, front, j) && c.state.SendClientFinished? && p.resumed
    ensures ClientGoes(p, c, j, C.SendClientFinishedStep(c, Accept))
  {
    FinishedFlights(p);
    hide MsgAt, Said, ItemAt, Items, Only, NextFrom, ClientSpeaks, C.SendClientFinishedStep;
    FinishedFlight(p, c);
  }

  lemma AtClientFinishedFull(p: Plan, cc: C.Config, sc: S.Config, c: C.Client, front: Option<Item>, j: nat)
    requires ClientCanGo(p, cc, sc, c, front, j) && c.state.SendClientFinished? && !p.resumed
    ensures ClientGoes(p, c, j, C.SendClientFinishedStep(c, Accept))
  {
    FinishedFlights(p);
    hide MsgAt, Said, ItemAt, Items, Only, NextFrom, ClientSpeaks, C.SendClientFinishedStep;
    FinishedFlight(p, c);
  }

  /** After a flush, the client goes on with nothing pending. */
  lemma AtFlushed(p: Plan, cc: C.Config, sc: S.Config, c: C.Client, front: Option<Item>, j: nat)
    requires ClientCanGo(p, cc, sc, c, front, j) && c.wait.Flush?
    ensures var (next, used) := C.Do(cc, c.(core := c.core.(pending := [])), Peek(c.core, front), Accept);
            && !used && ClientAt(p, next) && next.core.pending == []
            && ClientPhase(p, next.state) == ClientPhase(p, c.state)
  {
    hide MsgAt, Said, ItemAt, Items, NextFrom, ClientSpeaks;
  }

  /** Where the client stands before a session ticket. */
  lemma TicketAwaited(p: Plan, c: C.Client)
    requires ClientAt(p, c) && c.state.ReadSessionTicket?
    ensures ClientPhase(p, c.state) == ServerCcs(p) - 1 && (p.ticket ==> ClientAt(p, c.(wait := ReadMessage)))
    ensures c.core.hash == Some(Said(p, ServerCcs(p) - 1)) && c.core.readEpoch == 0 && c.core.ticketExpected == p.ticket
  {
    hide Said;
  }

  /** Where it stands after it. */
  lemma TicketLands(p: Plan, c: C.Client, next: C.Client)
    requires ClientAt(p, c) && c.state.ReadSessionTicket? && next.wait.ReadCcs? && next.state.ProcessChangeCipherSpec?
    requires next.core == c.core.(hash := Some(Said(p, ServerCcs(p))), buffer := next.core.buffer)
    ensures ClientAt(p, next) && ClientPhase(p, next.state) == ServerCcs(p)
  {
    hide Said;
  }

  lemma AtSessionTicket(p: Plan, cc: C.Config, sc: S.Config, c: C.Client, front: Option<Item>, j: nat)
    requires ClientCanGo(p, cc, sc, c, front, j) && c.state.ReadSessionTicket?
    ensures p.ticket && front.Some? ==> Peek(c.core, front).Some?
    ensures ClientGoes(p, c, j, C.ReadSessionTicketStep(c, Peek(c.core, front), Accept))
  {
    hide MsgAt, Said, ItemAt, Items, Moves, Only, NextFrom, ClientSpeaks, ClientAt, ClientPhase, ServerCcs, Phases, PlanOf, Agreed, Core.Hash;
    var x := ServerCcs(p) - 1;
    TicketAwaited(p, c);
    OnePhase(p, true, x, j, c.core.pending);
    ServerCloses(p);
    SaidNext(p, x);
    Arrives(p, x, front, j, false);
    if p.ticket { ReadsNext(p, c.core, x, 0, NewSessionTicket(false)); }
    if !p.ticket || front.Some? { TicketLands(p, c, C.ReadSessionTicketStep(c, Peek(c.core, front), Accept).0); }
  }

  lemma AtServerFinishedResumed(p: Plan, cc: C.Config, sc: S.Config, c: C.Client, front: Option<Item>, j: nat)
    requires ClientCanGo(p, cc, sc, c, front, j) && c.state.ReadServerFinished? && p.resumed
    ensures front.Some? ==> Peek(c.core, front).Some?
    ensures ClientGoes(p, c, j, C.ReadServerFinishedStep(c, Peek(c.core, front)))
  {
    hide MsgAt, Said, ItemAt, Items, Moves, Only, NextFrom, ClientSpeaks;
    OnePhase(p, true, 4, j, c.core.pending);
    SaidNext(p, 4);
    ResumedPhases(p);
    Arrives(p, 4, front, j, false);
  }

  lemma AtServerFinishedFull(p: Plan, cc: C.Config, sc: S.Config, c: C.Client, front: Option<Item>, j: nat)
    requires ClientCanGo(p, cc, sc, c, front, j) && c.state.ReadServerFinished? && !p.resumed
    ensures front.Some? ==> Peek(c.core, front).Some?
    ensures ClientGoes(p, c, j, C.ReadServerFinishedStep(c, Peek(c.core, front)))
  {
    hide MsgAt, Said, ItemAt, Items, Moves, Only, NextFrom, ClientSpeaks;
    OnePhase(p, true, 16, j, c.core.pending);
    SaidNext(p, 16);
    FullClose(p);
    Arrives(p, 16, front, j, false);
  }

  /** The ChangeCipherSpec is what the client waits for. */
  lemma AtServerChangeCipherSpec(p: Plan, cc: C.Config, sc: S.Config, c: C.Client, front: Option<Item>, j: nat)
    requires ClientCanGo(p, cc, sc, c, front, j) && c.state.ProcessChangeCipherSpec? && front.Some?
    ensures front.value == ChangeCipherSpec(c.core.readEpoch)
    ensures var (next, used) := C.Do(cc, c, None, Accept);
            !used && ClientAt(p, next) && ClientPhase(p, next.state) == j + 1 && next.core.pending == c.core.pending
  {
    hide MsgAt, Said, ItemAt, Items;
    var x := ServerCcs(p);
    SaidNext(p, x);
    if p.resumed { ResumedPhases(p); } else { FullClose(p); }
    assert j == x;
  }

  lemma AtFinish(p: Plan, cc: C.Config, sc: S.Config, c: C.Client, front: Option<Item>, j: nat)
    requires ClientCanGo(p, cc, sc, c, front, j) && (c.state.FinishHandshake? || c.state.Done?)
    ensures ClientGoes(p, c, j, C.Do(cc, c, Peek(c.core, front), Accept))
  {
    hide MsgAt, Said, ItemAt, Items, Moves, Only;
    OnePhase(p, true, Phases(p), j, c.core.pending);
  }

  /** What a client's place says about it. */
  lemma ClientFacts(p: Plan, cc: C.Config, sc: S.Config, c: C.Client)
    requires p == PlanOf(cc, sc) && ClientAt(p, c) && ClientOk(cc, c)
    ensures c.state.SendCertificateVerify? && p.clientKey ==> c.core.buffer == Some(Said(p, 9))
    ensures c.wait.Flush? <==> c.state.EnterEarlyData? || c.state.FinishFlight?
    ensures c.wait.ReadCcs? <==> c.state.ProcessChangeCipherSpec?
    ensures c.wait.ReadMessage? ==> ClientReads(p, c.state)
    ensures !c.wait.Failed?
  {
    hide MsgAt, Said, ItemAt, Items;
  }

  /** Any step but those that follow a flush or a ChangeCipherSpec. */
  lemma ClientSteps(p: Plan, cc: C.Config, sc: S.Config, c: C.Client, front: Option<Item>, j: nat)
    requires ClientCanGo(p, cc, sc, c, front, j) && ClientOk(cc, c)
    requires !c.wait.Flush? && !c.wait.ReadCcs?
    ensures c.wait.ReadMessage? && front.Some? ==> Peek(c.core, front).Some?
    ensures ClientGoes(p, c, j, C.Do(cc, c, Peek(c.core, front), Accept))
  {
    ClientFacts(p, cc, sc, c);
    hide Peek, Moves, Says, ClientAt, ClientOk, MsgAt, Said, ItemAt, Items, ClientGoes, ClientCanGo;
    match c.state {
      case StartConnect => AtConnect(p, cc, sc, c, front, j);
      case ReadServerHello =>
        if p.resumed { AtServerHelloResumed(p, cc, sc, c, front, j); } else { AtServerHelloFull(p, cc, sc, c, front, j); }
      case ReadServerCertificate => AtServerCertificate(p, cc, sc, c, front, j);
      case ReadCertificateStatus => AtCertificateStatus(p, cc, sc, c, front, j);
      case VerifyServerCertificate => AtVerifyCertificate(p, cc, sc, c, front, j);
      case ReadServerKeyExchange => AtServerKeyExchange(p, cc, sc, c, front, j);
      case ReadCertificateRequest => AtCertificateRequest(p, cc, sc, c, front, j);
      case ReadServerHelloDone => AtServerHelloDone(p, cc, sc, c, front, j);
      case SendClientCertificate => AtClientCertificate(p, cc, sc, c, front, j);
      case SendClientKeyExchange => AtClientKeyExchange(p, cc, sc, c, front, j);
      case SendCertificateVerify => AtCertificateVerify(p, cc, sc, c, front, j);
      case SendClientFinished =>
        if p.resumed { AtClientFinishedResumed(p, cc, sc, c, front, j); } else { AtClientFinishedFull(p, cc, sc, c, front, j); }
      case ReadSessionTicket => AtSessionTicket(p, cc, sc, c, front, j);
      case ReadServerFinished =>
        if p.resumed { AtServerFinishedResumed(p, cc, sc, c, front, j); } else { AtServerFinishedFull(p, cc, sc, c, front, j); }
      case FinishHandshake => AtFinish(p, cc, sc, c, front, j);
      case Done => AtFinish(p, cc, sc, c, front, j);
      case _ =>
    }
  }

  lemma UsesWhatItPeeks(cc: C.Config, c: C.Client)
    ensures !C.Do(cc, c, None, Accept).1
  {}

  lemma ClientNotFailed(p: Plan, c: C.Client)
    ensures ClientAt(p, c) ==> !c.wait.Failed?
  {}

  /** Every turn follows the dialogue. */
  lemma ClientTurns(p: Plan, cc: C.Config, sc: S.Config, c: C.Client, front: Option<Item>, j: nat)
    requires ClientCanGo(p, cc, sc, c, front, j) && ClientOk(cc, c)
    ensures var (next, used, flushed) := C.Turn(cc, c, front, Accept);
            && ClientAt(p, next) && !next.wait.Failed? && (used ==> front.Some?)
            && Moves(p, true, ClientPhase(p, c.state), ClientPhase(p, next.state), j, used, c.core.pending, flushed, next.core.pending)
  {
    hide MsgAt, Said, ItemAt, Items, ClientAt, ClientOk, C.Do;
    ClientFacts(p, cc, sc, c);
    ClientNotFailed(p, C.Turn(cc, c, front, Accept).0);
    ItemsFew(p, ClientPhase(p, c.state));
    match c.wait
    case Flush => AtFlushed(p, cc, sc, c, front, j);
    case ReadCcs => if front.Some? { AtServerChangeCipherSpec(p, cc, sc, c, front, j); }
    case _ =>
      ClientSteps(p, cc, sc, c, front, j);
      UsesWhatItPeeks(cc, c);
  }

  /** An operation that is still pending leaves the client where it is. */
  lemma PendingDoes(cc: C.Config, c: C.Client, next: Option<Msg>)
    requires ClientOk(cc, c) && !c.wait.Failed? && ClientPends(c)
    ensures C.Do(cc, c, next, Retry) == C.Do(cc, c, next, Accept) || C.Do(cc, c, next, Retry) == (c.(wait := Pending), false)
  {
    hide Core.Hash, Core.Add, Core.SendFinished, ClientLog, BufferIsTranscript;
  }

  lemma PendingStays(p: Plan, c: C.Client)
    requires ClientAt(p, c) && ClientPends(c)
    ensures ClientAt(p, c.(wait := Pending)) && !c.wait.Flush? && !c.wait.ReadCcs? && !c.wait.Failed?
  {
    hide MsgAt, Said, ItemAt, Items;
  }

  /** A turn that finds an operation pending is like one that does not need it, or leaves the client where it is. */
  lemma ClientTurnPends(p: Plan, cc: C.Config, c: C.Client, front: Option<Item>)
    requires ClientAt(p, c) && ClientOk(cc, c) && ClientPends(c)
    ensures ClientAt(p, c.(wait := Pending))
    ensures C.Turn(cc, c, front, Retry) in {C.Turn(cc, c, front, Accept), (c.(wait := Pending), false, [])}
  {
    hide MsgAt, Said, ItemAt, Items, ClientAt, ClientOk, ClientPends, C.Do;
    PendingStays(p, c);
    PendingDoes(cc, c, Peek(c.core, front));
  }

  // ---- Progress.

  /** The steps a client still has to make, on the path that its kind of handshake takes. */
  function ClientLeft(p: Plan, state: C.State): nat {
    match state
    case StartConnect => 18
    case EnterEarlyData => 17
    case ReadServerHello => 16
    case ReadServerCertificate => 15
    case ReadCertificateStatus => 14
    case VerifyServerCertificate => 13
    case ReadServerKeyExchange => 12
    case ReadCertificateRequest => 11
    case ReadServerHelloDone => 10
    case SendClientCertificate => 9
    case SendClientKeyExchange => 8
    case SendCertificateVerify => 7
    case SendClientFinished => if p.resumed then 3 else 6
    case FinishFlight => if p.resumed then 2 else 5
    case ReadSessionTicket => if p.resumed then 6 else 4
    case ProcessChangeCipherSpec => if p.resumed then 5 else 3
    case ReadServerFinished => if p.resumed then 4 else 2
    case FinishHandshake => 1
    case Done => 0
  }

  function ClientRank(p: Plan, c: C.Client): nat {
    2 * ClientLeft(p, c.state) + if c.wait.ReadMessage? then 0 else 1
  }

  /** A step shortens what is left, unless the message it needs is missing. */
  ghost predicate Shortens(p: Plan, cc: C.Config, c: C.Client, next: Option<Msg>) {
    var (n, used) := C.Do(cc, c, next, Accept);
    var shorter := ClientLeft(p, n.state) < ClientLeft(p, c.state);
    && (n.wait.Failed? || shorter || n == (if c.state.Done? then c else c.(wait := ReadMessage)))
    && (next.Some? ==> n.wait.Failed? || shorter || c.state.Done?)
    && (c.state.Done? ==> n == c && !used)
    && (c.state.ProcessChangeCipherSpec? || c.state.FinishFlight? || c.state.EnterEarlyData? ==> shorter)
  }

  lemma EarlyShortens(p: Plan, cc: C.Config, c: C.Client, next: Option<Msg>)
    requires ClientEarly(c.state)
    requires c.state.ReadServerHello? && next.Some? && next.value.ServerHello? ==> (next.value.resumed && cc.hasSession) == p.resumed
    ensures Shortens(p, cc, c, next)
  {
    hide Core.Hash, Core.Add;
  }

  lemma LateShortens(p: Plan, cc: C.Config, c: C.Client, next: Option<Msg>)
    requires !ClientEarly(c.state)
    requires c.state.FinishFlight? || c.state.ReadServerFinished? ==> c.core.resumed == p.resumed
    requires c.state.ProcessChangeCipherSpec? || !c.wait.ReadCcs?
    ensures Shortens(p, cc, c, next)
  {
    hide Core.Hash, Core.Add, Core.SendFinished, Core.GetFinished, Core.AddChangeCipherSpec, Core.ChangeWriteKeys, Core.ChangeReadKeys;
  }

  lemma StepShortens(p: Plan, cc: C.Config, c: C.Client, next: Option<Msg>)
    requires c.state.FinishFlight? || c.state.ReadServerFinished? ==> c.core.resumed == p.resumed
    requires c.state.ReadServerHello? && next.Some? && next.value.ServerHello? ==> (next.value.resumed && cc.hasSession) == p.resumed
    requires c.state.ProcessChangeCipherSpec? || !c.wait.ReadCcs?
    ensures Shortens(p, cc, c, next)
  {
    hide Shortens;
    if ClientEarly(c.state) { EarlyShortens(p, cc, c, next); } else { LateShortens(p, cc, c, next); }
  }

  lemma ClientWaits(p: Plan, cc: C.Config, sc: S.Config, c: C.Client, front: Option<Item>, j: nat)
    requires ClientCanGo(p, cc, sc, c, front, j)
    ensures c.state.FinishFlight? || c.state.ReadServerFinished? ==> c.core.resumed == p.resumed
    ensures c.state.ReadServerHello? && front.Some? && front.value.Record? && front.value.m.ServerHello? ==>
              (front.value.m.resumed && cc.hasSession) == p.resumed
    ensures c.wait.ReadCcs? <==> c.state.ProcessChangeCipherSpec?
    ensures c.wait.Flush? <==> c.state.FinishFlight? || c.state.EnterEarlyData?
  {
    AtResumption(p, cc, sc, c, front, j);
    hide MsgAt, Said, ItemAt, Items;
  }

  /** A turn brings the client closer to its end, unless it waits for something that has not come or is done. */
  lemma ClientProgresses(p: Plan, cc: C.Config, sc: S.Config, c: C.Client, front: Option<Item>, j: nat)
    requires ClientCanGo(p, cc, sc, c, front, j)
    ensures var (next, used, flushed) := C.Turn(cc, c, front, Accept);
            || next.wait.Failed?
            || (next == c && !used && flushed == [] && (c.state.Done? || (front.None? && (c.wait.ReadMessage? || c.wait.ReadCcs?))))
            || ClientRank(p, next) < ClientRank(p, c)
  {
    ClientWaits(p, cc, sc, c, front, j);
    hide MsgAt, Said, ItemAt, Items, C.Do, ClientLeft, ClientAt, ClientCanGo, NextFrom;
    StepShortens(p, cc, c, Peek(c.core, front));
    StepShortens(p, cc, c, None);
    StepShortens(p, cc, c.(core := c.core.(pending := [])), Peek(c.core, front));
  }

  /** The ServerHello tells the client what kind of handshake it is in. */
  lemma AtResumption(p: Plan, cc: C.Config, sc: S.Config, c: C.Client, front: Option<Item>, j: nat)
    requires ClientCanGo(p, cc, sc, c, front, j)
    ensures c.state.ReadServerHello? && front.Some? ==> front.value == Record(0, Hello(p))
  {
    if p.resumed { ResumedPhases(p); } else { FullPhases(p); }
  }

  /** The phase in which a waiting client is sure to hear something. */
  function ClientAwaited(p: Plan, state: C.State): nat {
    match state
    case ReadServerHello => 1
    case ReadServerCertificate => 2
    case ReadCertificateStatus | ReadServerKeyExchange | ReadCertificateRequest | ReadServerHelloDone => 6
    case ReadSessionTicket => ServerCcs(p) - 1
    case ProcessChangeCipherSpec => ServerCcs(p)
    case _ => ServerCcs(p) + 1
  }

  /** A client that waits knows that the next to speak is the server. */
  lemma ClientAwaits(p: Plan, c: C.Client) returns (j: nat)
    requires ClientAt(p, c) && (c.wait.ReadMessage? || c.wait.ReadCcs?)
    ensures ClientPhase(p, c.state) <= j < Phases(p) && ItemAt(p, j) != [] && !ClientSpeaks(p, j)
    ensures forall k :: ClientPhase(p, c.state) <= k < j ==> ItemAt(p, k) == [] || !ClientSpeaks(p, k)
  {
    hide MsgAt, Said, ItemAt;
    if p.resumed { ResumedPhases(p); } else { FullPhases(p); FullClose(p); }
    j := ClientAwaited(p, c.state);
  }
}
