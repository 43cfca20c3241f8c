/** The server's machine, step by step, follows the dialogue. */
module ServerPath {
  import opened Wrappers
  import opened HandshakeState
  import opened Dialogue
  import opened HandshakeSafety
  import C = ClientMachine
  import S = ServerMachine

  /** The server states that a handshake of the plan's kind goes through. */
  predicate ServerOnPath(p: Plan, state: S.State) {
    match state
    case StartAccept | ReadClientHello | SelectCertificate | SelectParameters => true
    case _ => p.resumed ==> ServerResumes(state)
  }

  /** What a server that waits for a message is sure to get one for. */
  predicate ServerReads(p: Plan, state: S.State) {
    match state
    case ReadClientHello | SelectCertificate | SelectParameters | ReadClientKeyExchange | ReadClientFinished => true
    case ReadClientCertificate => p.request
    case ReadCertificateVerify => p.clientKey
    case ReadNextProto => p.npn
    case ReadChannelId => p.channelId
    case _ => false
  }

  /** The steps in which something can be left to the application: a certificate, a private key operation. */
  predicate ServerPends(s: S.Server) {
    match s.state
    case ReadClientHello | SelectCertificate | SelectParameters | VerifyClientCertificate => true
    case SendServerKeyExchange => s.core.cipher.certAuth
    case ReadClientKeyExchange => s.core.cipher.certAuth && !s.core.cipher.ecdhe
    case _ => false
  }

  ghost predicate ServerWaitOk(p: Plan, s: S.Server) {
    match s.wait
    case Go => !s.state.ProcessChangeCipherSpec?
    case Flush => s.state.ReadClientCertificate? || (if p.resumed then s.state.ReadChangeCipherSpec? else s.state.FinishHandshake?)
    case ReadMessage => ServerReads(p, s.state)
    case ReadCcs => s.state.ProcessChangeCipherSpec?
    case Pending => ServerPends(s)
    case _ => false
  }

  /** The states in which a flight is being put together. */
  predicate ServerGathers(state: S.State) {
    match state
    case SendServerCertificate | SendServerKeyExchange | SendServerHelloDone | SendServerFinished => true
    case _ => false
  }

  /** A server is where the plan has it. */
  ghost predicate ServerAt(p: Plan, sc: S.Config, s: S.Server) {
    var k, x := s.core, ServerPhase(p, s.state);
    && ServerOnPath(p, s.state) && ServerWaitOk(p, s)
    && k.writeEpoch == (if x > ServerCcs(p) then 1 else 0)
    && k.readEpoch == (if x > ClientCcs(p) then 1 else 0)
    && (k.pending != [] ==> s.wait.Flush? || ServerGathers(s.state))
    && k.peerKey == (p.clientKey && !ServerEarly(s.state))
    && (if x == 0 then
          && k.hash.None? && k.buffer == Some([])
          && (s.state.SelectCertificate? || s.state.SelectParameters? ==>
                k.npn == p.npn && k.channelId == sc.channelIdOffered && k.statusExpected == p.status)
          && (s.state == S.SelectParameters ==> k.cipher == p.cipher)
        else
          && k.hash == Some(Said(p, x))
          && k.resumed == p.resumed && k.cipher == p.cipher && k.ticketExpected == p.ticket && k.statusExpected == p.status
          && k.npn == p.npn && k.channelId == (if s.state.SendServerHello? then sc.channelIdOffered else p.channelId)
          && k.certRequest == p.request
          && (s.state.SendServerKeyExchange? ==> k.serverParams == p.keyExchange))
  }

  ghost predicate ServerGoes(p: Plan, sc: S.Config, s: S.Server, j: nat, to: (S.Server, bool)) {
    && ServerAt(p, sc, to.0)
    && Moves(p, false, ServerPhase(p, s.state), ServerPhase(p, to.0.state), j, to.1, s.core.pending, [], to.0.core.pending)
  }

  ghost predicate ServerCanGo(p: Plan, cc: C.Config, sc: S.Config, s: S.Server, front: Option<Item>, j: nat) {
    p == PlanOf(cc, sc) && Agreed(cc, sc) && ServerAt(p, sc, s) && NextFrom(p, ServerPhase(p, s.state), front, j, true)
  }

  lemma AtAccept(p: Plan, cc: C.Config, sc: S.Config, s: S.Server, front: Option<Item>, j: nat)
    requires ServerCanGo(p, cc, sc, s, front, j) && s.state.StartAccept?
    ensures ServerGoes(p, sc, s, j, S.StartAcceptStep(s))
  {
    hide MsgAt, Said, ItemAt, Items, Moves, Only;
    OnePhase(p, false, 0, j, s.core.pending);
  }

  lemma AtClientHello(p: Plan, cc: C.Config, sc: S.Config, s: S.Server, front: Option<Item>, j: nat)
    requires ServerCanGo(p, cc, sc, s, front, j) && s.state.ReadClientHello?
    ensures front.Some? ==> Peek(s.core, front).Some?
    ensures ServerGoes(p, sc, s, j, S.ReadClientHelloStep(sc, s, Peek(s.core, front), Accept))
  {
    hide MsgAt, Said, ItemAt, Items, Moves, Only, NextFrom, ClientSpeaks;
    OnePhase(p, false, 0, j, s.core.pending);
    SaidNext(p, 0);
    if p.resumed { ResumedPhases(p); } else { FullReply(p); }
    Arrives(p, 0, front, j, true);
  }

  lemma AtSelectCertificate(p: Plan, cc: C.Config, sc: S.Config, s: S.Server, front: Option<Item>, j: nat)
    requires ServerCanGo(p, cc, sc, s, front, j) && s.state.SelectCertificate?
    ensures front.Some? ==> Peek(s.core, front).Some?
    ensures ServerGoes(p, sc, s, j, S.SelectCertificateStep(sc, s, Peek(s.core, front), Accept))
  {
    hide MsgAt, Said, ItemAt, Items, Moves, Only, NextFrom, ClientSpeaks;
    OnePhase(p, false, 0, j, s.core.pending);
    SaidNext(p, 0);
    if p.resumed { ResumedPhases(p); } else { FullReply(p); }
    Arrives(p, 0, front, j, true);
  }

  lemma AtSelectParameters(p: Plan, cc: C.Config, sc: S.Config, s: S.Server, front: Option<Item>, j: nat)
    requires ServerCanGo(p, cc, sc, s, front, j) && s.state.SelectParameters?
    ensures front.Some? ==> Peek(s.core, front).Some?
    ensures ServerGoes(p, sc, s, j, S.SelectParametersStep(sc, s, Peek(s.core, front), Accept))
  {
    hide MsgAt, Said, ItemAt, Items, Moves, Only, NextFrom, ClientSpeaks;
    SaidFirst(p);
    OnePhase(p, false, 0, j, s.core.pending);
    SaidNext(p, 0);
    if p.resumed { ResumedPhases(p); } else { FullReply(p); }
    Arrives(p, 0, front, j, true);
  }

  /** Where the server stands before its hello. */
  lemma HelloStarts(p: Plan, cc: C.Config, sc: S.Config, s: S.Server)
    requires p == PlanOf(cc, sc) && ServerAt(p, sc, s) && s.state.SendServerHello?
    ensures ServerPhase(p, s.state) == 1 && s.core.hash == Some(Said(p, 1)) && s.core.writeEpoch == 0 && s.core.resumed == p.resumed
    ensures S.KeepsChannelId(sc, s.core) == p.channelId
    ensures S.HelloOf(s.core.(channelId := p.channelId)) == Hello(p)
  {
    hide Said;
  }

  /** Where it stands after it. */
  lemma HelloLands(p: Plan, cc: C.Config, sc: S.Config, s: S.Server, next: S.Server)
    requires p == PlanOf(cc, sc) && ServerAt(p, sc, s) && s.state.SendServerHello? && next.wait.Go?
    requires next.state == if p.resumed then S.SendServerFinished else S.SendServerCertificate
    requires next.core == s.core.(pending := next.core.pending, hash := Some(Said(p, 2)), buffer := next.core.buffer, channelId := p.channelId)
    ensures ServerAt(p, sc, next) && ServerPhase(p, next.state) == 2
  {
    hide Said;
  }

  lemma HelloItem(p: Plan)
    ensures ItemAt(p, 1) == [Record(0, Hello(p))] && ClientSpeaks(p, 1) == false && 2 < Phases(p)
  {
    hide MsgAt, ItemAt;
    if p.resumed { ResumedPhases(p); } else { FullPhases(p); }
  }

  lemma AtServerHello(p: Plan, cc: C.Config, sc: S.Config, s: S.Server, front: Option<Item>, j: nat)
    requires ServerCanGo(p, cc, sc, s, front, j) && s.state.SendServerHello?
    ensures ServerGoes(p, sc, s, j, S.SendServerHelloStep(sc, s, Accept))
  {
    hide MsgAt, Said, ItemAt, Items, Moves, Only, NextFrom, ClientSpeaks, ServerAt, ServerPhase, PlanOf, Agreed, Hello, Core.Hash;
    HelloStarts(p, cc, sc, s);
    HelloItem(p);
    OnePhase(p, false, 1, j, s.core.pending);
    ReadsNext(p, s.core.(channelId := p.channelId), 1, 0, Hello(p));
    HelloLands(p, cc, sc, s, S.SendServerHelloStep(sc, s, Accept).0);
  }

  lemma AtServerCertificate(p: Plan, cc: C.Config, sc: S.Config, s: S.Server, front: Option<Item>, j: nat)
    requires ServerCanGo(p, cc, sc, s, front, j) && s.state.SendServerCertificate?
    ensures ServerGoes(p, sc, s, j, S.SendServerCertificateStep(sc, s, Accept))
  {
    hide MsgAt, Said, ItemAt, Items;
    var k := s.core;
    ItemsFew(p, 2);
    FullPhases(p);
    SaysNext(p, k, k.pending, 2, 2, Certificate(true));
    var certified := if k.cipher.certAuth then k.Add(Certificate(true)) else k;
    SaysNext(p, certified, k.pending, 2, 3, CertificateStatus);
  }

  lemma AtServerKeyExchange(p: Plan, cc: C.Config, sc: S.Config, s: S.Server, front: Option<Item>, j: nat)
    requires ServerCanGo(p, cc, sc, s, front, j) && s.state.SendServerKeyExchange?
    ensures ServerGoes(p, sc, s, j, S.SendServerKeyExchangeStep(s, Accept))
  {
    hide MsgAt, Said, ItemAt, Items, Moves, Only;
    OnePhase(p, false, 4, j, s.core.pending);
    SaidNext(p, 4);
    FullPhases(p);
  }

  lemma AtServerHelloDone(p: Plan, cc: C.Config, sc: S.Config, s: S.Server, front: Option<Item>, j: nat)
    requires ServerCanGo(p, cc, sc, s, front, j) && s.state.SendServerHelloDone?
    ensures ServerGoes(p, sc, s, j, S.SendServerHelloDoneStep(s, Accept))
  {
    hide MsgAt, Said, ItemAt, Items, Core.Hash, Core.Add, NextFrom, Agreed, Hello;
    var k := s.core;
    FullPhases(p);
    SaysNothing(p, k, 5);
    SaysNext(p, k, k.pending, 5, 5, CertificateRequest);
    AddKeeps(k, CertificateRequest);
    var requested := if k.certRequest then k.Add(CertificateRequest) else k;
    SaysNext(p, requested, k.pending, 5, 6, ServerHelloDone);
    AddKeeps(requested, ServerHelloDone);
  }

  /** Where the server stands before a client's certificate. */
  lemma CertificateAwaited(p: Plan, cc: C.Config, sc: S.Config, s: S.Server)
    requires p == PlanOf(cc, sc) && Agreed(cc, sc) && ServerAt(p, sc, s) && s.state.ReadClientCertificate?
    ensures ServerPhase(p, s.state) == 7 && (p.request && s.core.pending == [] ==> ServerAt(p, sc, s.(wait := ReadMessage)))
    ensures s.core.hash == Some(Said(p, 7)) && s.core.readEpoch == 0 && s.core.certRequest == p.request && !s.core.peerKey && !p.resumed
    ensures !p.request ==> !p.clientKey
    ensures p.request && sc.failIfNoCertificate ==> p.clientKey
  {
    hide Said;
  }

  /** Where it stands after it. */
  lemma CertificateLands(p: Plan, sc: S.Config, s: S.Server, next: S.Server)
    requires ServerAt(p, sc, s) && s.state.ReadClientCertificate? && s.core.pending == [] && next.wait.Go? && next.state.VerifyClientCertificate?
    requires next.core == s.core.(hash := Some(Said(p, 8)), buffer := next.core.buffer, peerKey := p.clientKey)
    ensures ServerAt(p, sc, next) && ServerPhase(p, next.state) == 8
  {
    hide Said;
  }

  lemma AtClientCertificate(p: Plan, cc: C.Config, sc: S.Config, s: S.Server, front: Option<Item>, j: nat)
    requires ServerCanGo(p, cc, sc, s, front, j) && s.state.ReadClientCertificate? && s.core.pending == []
    ensures p.request && front.Some? ==> Peek(s.core, front).Some?
    ensures ServerGoes(p, sc, s, j, S.ReadClientCertificateStep(sc, s, Peek(s.core, front), Accept))
  {
    hide MsgAt, Said, ItemAt, Items, Moves, Only, NextFrom, ClientSpeaks, ServerAt, ServerPhase, PlanOf, Agreed, Core.Hash;
    CertificateAwaited(p, cc, sc, s);
    OnePhase(p, false, 7, j, s.core.pending);
    CertificateItem(p);
    SaidNext(p, 7);
    Arrives(p, 7, front, j, true);
    if p.request {
      ReadsNext(p, s.core.(peerKey := p.clientKey), 7, 0, Certificate(p.clientKey));
      if front.Some? {
        CertificateLands(p, sc, s, S.ReadClientCertificateStep(sc, s, Some(Certificate(p.clientKey)), Accept).0);
      }
    } else {
      CertificateLands(p, sc, s, S.ReadClientCertificateStep(sc, s, Peek(s.core, front), Accept).0);
    }
  }

  lemma CertificateItem(p: Plan)
    ensures !p.resumed ==> ItemAt(p, 7) == if p.request then [Record(0, Certificate(p.clientKey))] else []
  {
    if !p.resumed { FullReply(p); }
  }

  lemma AtVerifyCertificate(p: Plan, cc: C.Config, sc: S.Config, s: S.Server, front: Option<Item>, j: nat)
    requires ServerCanGo(p, cc, sc, s, front, j) && s.state.VerifyClientCertificate?
    ensures ServerGoes(p, sc, s, j, S.VerifyClientCertificateStep(s, Accept))
  {
    hide MsgAt, Said, ItemAt, Items, Moves, Only;
    OnePhase(p, false, 8, j, s.core.pending);
  }

  lemma AtClientKeyExchange(p: Plan, cc: C.Config, sc: S.Config, s: S.Server, front: Option<Item>, j: nat)
    requires ServerCanGo(p, cc, sc, s, front, j) && s.state.ReadClientKeyExchange?
    ensures front.Some? ==> Peek(s.core, front).Some?
    ensures ServerGoes(p, sc, s, j, S.ReadClientKeyExchangeStep(s, Peek(s.core, front), Accept))
  {
    hide MsgAt, Said, ItemAt, Items, Moves, Only, NextFrom, ClientSpeaks, Core.Hash, Agreed;
    OnePhase(p, false, 8, j, s.core.pending);
    SaidNext(p, 8);
    FullReply(p);
    Arrives(p, 8, front, j, true);
    if ItemAt(p, 8) != [] { ReadsNext(p, s.core, 8, 0, ClientKeyExchange); }
  }

  lemma AtCertificateVerify(p: Plan, cc: C.Config, sc: S.Config, s: S.Server, front: Option<Item>, j: nat)
    requires ServerCanGo(p, cc, sc, s, front, j) && s.state.ReadCertificateVerify?
    requires p.clientKey ==> s.core.buffer == Some(Said(p, 9))
    ensures p.clientKey && front.Some? ==> Peek(s.core, front).Some?
    ensures ServerGoes(p, sc, s, j, S.ReadCertificateVerifyStep(s, Peek(s.core, front), Accept))
  {
    hide MsgAt, Said, ItemAt, Items, Moves, Only, NextFrom, ClientSpeaks;
    OnePhase(p, false, 9, j, s.core.pending);
    SaidNext(p, 9);
    FullReply(p);
    Arrives(p, 9, front, j, true);
  }

  lemma AtReadChangeCipherSpec(p: Plan, cc: C.Config, sc: S.Config, s: S.Server, front: Option<Item>, j: nat)
    requires ServerCanGo(p, cc, sc, s, front, j) && s.state.ReadChangeCipherSpec?
    requires s.core.pending == []
    ensures ServerGoes(p, sc, s, j, S.ReadChangeCipherSpecStep(s))
  {
    hide MsgAt, Said, ItemAt, Items, Moves, Only;
    OnePhase(p, false, ClientCcs(p), j, s.core.pending);
  }

  /** The ChangeCipherSpec is what the server waits for. */
  lemma AtClientChangeCipherSpec(p: Plan, cc: C.Config, sc: S.Config, s: S.Server, front: Option<Item>, j: nat)
    requires ServerCanGo(p, cc, sc, s, front, j) && s.state.ProcessChangeCipherSpec? && front.Some?
    ensures front.value == ChangeCipherSpec(s.core.readEpoch)
    ensures var (next, used) := S.Do(sc, s, None, Accept);
            !used && ServerAt(p, sc, next) && ServerPhase(p, next.state) == j + 1 && next.core.pending == s.core.pending
  {
    hide MsgAt, Said, ItemAt, Items;
    var x := ClientCcs(p);
    SaidNext(p, x);
    if p.resumed { ResumedPhases(p); } else { FullReply(p); }
    assert j == x;
  }

  /** The states in which the server reads what the client says after its ChangeCipherSpec. */
  predicate ReadsAfterChange(state: S.State) {
    state.ReadNextProto? || state.ReadChannelId? || state.ReadClientFinished?
  }

  /** Where the server stands in them. */
  lemma ChangeAwaited(p: Plan, sc: S.Config, s: S.Server)
    requires ServerAt(p, sc, s) && ReadsAfterChange(s.state)
    ensures ServerPhase(p, s.state) == ClientCcs(p) + if s.state.ReadNextProto? then 1 else if s.state.ReadChannelId? then 2 else 3
    ensures ServerReads(p, s.state) ==> ServerAt(p, sc, s.(wait := ReadMessage))
    ensures s.core.hash == Some(Said(p, ServerPhase(p, s.state))) && s.core.readEpoch == 1
    ensures s.core.resumed == p.resumed && s.core.npn == p.npn && s.core.channelId == p.channelId
  {
    hide Said;
  }

  /** Where it stands after them. */
  lemma ChangeLands(p: Plan, sc: S.Config, s: S.Server, next: S.Server)
    requires ServerAt(p, sc, s) && ReadsAfterChange(s.state) && next.wait.Go?
    requires next.state ==
             if s.state.ReadNextProto? then S.ReadChannelId
             else if s.state.ReadChannelId? then S.ReadClientFinished
             else if p.resumed then S.FinishHandshake else S.SendServerFinished
    requires next.core == s.core.(hash := Some(Said(p, ServerPhase(p, s.state) + 1)), buffer := next.core.buffer, log := next.core.log)
    ensures ServerAt(p, sc, next) && ServerPhase(p, next.state) == ServerPhase(p, s.state) + 1
  {
    hide Said;
  }

  lemma AtNextProto(p: Plan, cc: C.Config, sc: S.Config, s: S.Server, front: Option<Item>, j: nat)
    requires ServerCanGo(p, cc, sc, s, front, j) && s.state.ReadNextProto?
    ensures p.npn && front.Some? ==> Peek(s.core, front).Some?
    ensures ServerGoes(p, sc, s, j, S.ReadNextProtoStep(s, Peek(s.core, front), Accept))
  {
    hide MsgAt, Said, ItemAt, Items, Moves, Only, NextFrom, ClientSpeaks, ServerAt, ServerPhase, ClientCcs, PlanOf, Agreed, Core.Hash;
    var x := ServerPhase(p, s.state);
    ChangeAwaited(p, sc, s);
    OnePhase(p, false, x, j, s.core.pending);
    ClientReplies(p);
    SaidNext(p, x);
    Arrives(p, x, front, j, true);
    if p.npn { ReadsNext(p, s.core, x, 1, NextProto); }
    if !p.npn || front.Some? { ChangeLands(p, sc, s, S.ReadNextProtoStep(s, Peek(s.core, front), Accept).0); }
  }

  lemma AtChannelId(p: Plan, cc: C.Config, sc: S.Config, s: S.Server, front: Option<Item>, j: nat)
    requires ServerCanGo(p, cc, sc, s, front, j) && s.state.ReadChannelId?
    ensures p.channelId && front.Some? ==> Peek(s.core, front).Some?
    ensures ServerGoes(p, sc, s, j, S.ReadChannelIdStep(s, Peek(s.core, front), Accept))
  {
    hide MsgAt, Said, ItemAt, Items, Moves, Only, NextFrom, ClientSpeaks, ServerAt, ServerPhase, ClientCcs, PlanOf, Agreed, Core.Hash;
    var x := ServerPhase(p, s.state);
    ChangeAwaited(p, sc, s);
    OnePhase(p, false, x, j, s.core.pending);
    ClientReplies(p);
    SaidNext(p, x);
    Arrives(p, x, front, j, true);
    if p.channelId { ReadsNext(p, s.core, x, 1, ChannelId); }
    if !p.channelId || front.Some? { ChangeLands(p, sc, s, S.ReadChannelIdStep(s, Peek(s.core, front), Accept).0); }
  }

  lemma AtClientFinished(p: Plan, cc: C.Config, sc: S.Config, s: S.Server, front: Option<Item>, j: nat)
    requires ServerCanGo(p, cc, sc, s, front, j) && s.state.ReadClientFinished?
    ensures front.Some? ==> Peek(s.core, front).Some?
    ensures ServerGoes(p, sc, s, j, S.ReadClientFinishedStep(s, Peek(s.core, front), Accept))
  {
    hide MsgAt, Said, ItemAt, Items, Moves, Only, NextFrom, ClientSpeaks, ServerAt, ServerPhase, ClientCcs, PlanOf, Agreed, Core.Hash;
    var x := ServerPhase(p, s.state);
    ChangeAwaited(p, sc, s);
    OnePhase(p, false, x, j, s.core.pending);
    ClientReplies(p);
    Arrives(p, x, front, j, true);
    if front.Some? {
      var m := Finished(false, Said(p, x));
      ReadsNext(p, s.core.(log := s.core.log + [GotFinished(m, s.core.Transcript())]), x, 1, m);
      ChangeLands(p, sc, s, S.ReadClientFinishedStep(s, Some(m), Accept).0);
    }
  }

  /** The last flight, as what it does to the transcript and to what is pending; nothing else changes but the write keys. */
  lemma FinishedFlight(p: Plan, s: S.Server)
    requires s.core.hash == Some(Said(p, ServerCcs(p) - 1)) && s.core.ticketExpected == p.ticket && s.core.writeEpoch == 0
    ensures var (next, used) := S.SendServerFinishedStep(s, Accept);
            var x, sent := ServerCcs(p) - 1, next.core;
            && !used && next.wait == Flush && next.state == (if s.core.resumed then S.ReadChangeCipherSpec else S.FinishHandshake)
            && Says(p, sent, s.core.pending, x, x + 3)
            && sent == s.core.(pending := sent.pending, hash := sent.hash, buffer := sent.buffer, log := sent.log, writeEpoch := 1)
  {
    hide MsgAt, Said, ItemAt, Items, ClientSpeaks, Hello, Says, Core.Add, Core.Hash, Core.SendFinished;
    var k, x := s.core, ServerCcs(p) - 1;
    ServerCloses(p);
    SaysNothing(p, k, x);
    SaysNext(p, k, k.pending, x, x, NewSessionTicket(false));
    AddKeeps(k, NewSessionTicket(false));
    var ticketed := if k.ticketExpected then k.Add(NewSessionTicket(false)) else k;
    var keyed := ticketed.AddChangeCipherSpec().ChangeWriteKeys();
    SaysChange(p, ticketed, k.pending, x, x + 1);
    SaysFinished(p, keyed, k.pending, x, x + 2, true);
  }

  /** Where the server stands before its last flight. */
  lemma FlightStarts(p: Plan, sc: S.Config, s: S.Server)
    requires ServerAt(p, sc, s) && s.state.SendServerFinished?
    ensures ServerPhase(p, s.state) == ServerCcs(p) - 1
    ensures s.core.hash == Some(Said(p, ServerCcs(p) - 1)) && s.core.ticketExpected == p.ticket && s.core.writeEpoch == 0
    ensures s.core.resumed == p.resumed
  {
    hide Said;
  }

  /** Where it stands after it. */
  lemma FlightLands(p: Plan, sc: S.Config, s: S.Server, next: S.Server)
    requires ServerAt(p, sc, s) && s.state.SendServerFinished? && next.wait.Flush?
    requires next.state == if p.resumed then S.ReadChangeCipherSpec else S.FinishHandshake
    requires next.core == s.core.(pending := next.core.pending, hash := Some(Said(p, ServerCcs(p) + 2)), buffer := next.core.buffer,
                                  log := next.core.log, writeEpoch := 1)
    ensures ServerAt(p, sc, next) && ServerPhase(p, next.state) == ServerCcs(p) + 2
  {
    hide Said;
  }

  lemma AtServerFinished(p: Plan, cc: C.Config, sc: S.Config, s: S.Server, front: Option<Item>, j: nat)
    requires ServerCanGo(p, cc, sc, s, front, j) && s.state.SendServerFinished?
    ensures ServerGoes(p, sc, s, j, S.SendServerFinishedStep(s, Accept))
  {
    hide MsgAt, Said, ItemAt, Items, Only, NextFrom, ClientSpeaks, S.SendServerFinishedStep, ServerAt, ServerPhase, ServerCcs, PlanOf, Agreed;
    FlightStarts(p, sc, s);
    FinishedFlights(p);
    FinishedFlight(p, s);
    FlightLands(p, sc, s, S.SendServerFinishedStep(s, Accept).0);
  }

  lemma AtFinish(p: Plan, cc: C.Config, sc: S.Config, s: S.Server, front: Option<Item>, j: nat)
    requires ServerCanGo(p, cc, sc, s, front, j) && (s.state.FinishHandshake? || s.state.Done?) && s.core.pending == []
    ensures ServerGoes(p, sc, s, j, S.Do(sc, s, Peek(s.core, front), Accept))
  {
    hide MsgAt, Said, ItemAt, Items, Moves, Only;
    OnePhase(p, false, Phases(p), j, s.core.pending);
  }

  /** What a server's place says about it. */
  lemma ServerFacts(p: Plan, cc: C.Config, sc: S.Config, s: S.Server)
    requires p == PlanOf(cc, sc) && ServerAt(p, sc, s) && ServerOk(s)
    ensures s.state.ReadCertificateVerify? && p.clientKey ==> s.core.buffer == Some(Said(p, 9))
    ensures s.wait.ReadCcs? <==> s.state.ProcessChangeCipherSpec?
    ensures s.wait.ReadMessage? ==> ServerReads(p, s.state)
    ensures !s.wait.Failed?
    ensures s.wait.Flush? || s.core.pending == [] || ServerGathers(s.state)
  {
    hide MsgAt, Said, ItemAt, Items;
  }

  /** Any step with nothing to flush first, but the one that follows a ChangeCipherSpec. */
  lemma ServerSteps(p: Plan, cc: C.Config, sc: S.Config, s: S.Server, front: Option<Item>, j: nat)
    requires ServerCanGo(p, cc, sc, s, front, j) && ServerOk(s)
    requires !s.wait.Flush? && !s.wait.ReadCcs?
    ensures s.wait.ReadMessage? && front.Some? ==> Peek(s.core, front).Some?
    ensures ServerGoes(p, sc, s, j, S.Do(sc, s, Peek(s.core, front), Accept))
  {
    ServerFacts(p, cc, sc, s);
    hide Peek, Moves, Says, ServerAt, ServerOk, MsgAt, Said, ItemAt, Items, ServerGoes, ServerCanGo;
    match s.state {
      case StartAccept => AtAccept(p, cc, sc, s, front, j);
      case ReadClientHello => AtClientHello(p, cc, sc, s, front, j);
      case SelectCertificate => AtSelectCertificate(p, cc, sc, s, front, j);
      case SelectParameters => AtSelectParameters(p, cc, sc, s, front, j);
      case SendServerHello => AtServerHello(p, cc, sc, s, front, j);
      case SendServerCertificate => AtServerCertificate(p, cc, sc, s, front, j);
      case SendServerKeyExchange => AtServerKeyExchange(p, cc, sc, s, front, j);
      case SendServerHelloDone => AtServerHelloDone(p, cc, sc, s, front, j);
      case ReadClientCertificate => AtClientCertificate(p, cc, sc, s, front, j);
      case VerifyClientCertificate => AtVerifyCertificate(p, cc, sc, s, front, j);
      case ReadClientKeyExchange => AtClientKeyExchange(p, cc, sc, s, front, j);
      case ReadCertificateVerify => AtCertificateVerify(p, cc, sc, s, front, j);
      case ReadChangeCipherSpec => AtReadChangeCipherSpec(p, cc, sc, s, front, j);
      case ReadNextProto => AtNextProto(p, cc, sc, s, front, j);
      case ReadChannelId => AtChannelId(p, cc, sc, s, front, j);
      case ReadClientFinished => AtClientFinished(p, cc, sc, s, front, j);
      case SendServerFinished => AtServerFinished(p, cc, sc, s, front, j);
      case FinishHandshake => AtFinish(p, cc, sc, s, front, j);
      case Done => AtFinish(p, cc, sc, s, front, j);
      case _ =>
    }
  }

  /** After a flush, the server goes on as if it had nothing pending. */
  lemma AtFlushed(p: Plan, cc: C.Config, sc: S.Config, s: S.Server, front: Option<Item>, j: nat)
    requires ServerCanGo(p, cc, sc, s, front, j) && ServerOk(s) && s.wait.Flush?
    ensures var flushed := s.(wait := Go, core := s.core.(pending := []));
            && ServerCanGo(p, cc, sc, flushed, front, j) && ServerOk(flushed)
            && S.Do(sc, s.(core := flushed.core), Peek(s.core, front), Accept) == S.Do(sc, flushed, Peek(flushed.core, front), Accept)
  {
    hide MsgAt, Said, ItemAt, Items;
  }

  lemma UsesWhatItPeeks(sc: S.Config, s: S.Server)
    ensures !S.Do(sc, s, None, Accept).1
  {}

  lemma ServerNotFailed(p: Plan, sc: S.Config, s: S.Server)
    ensures ServerAt(p, sc, s) ==> !s.wait.Failed?
  {}

  /** Every turn follows the dialogue. */
  lemma ServerTurns(p: Plan, cc: C.Config, sc: S.Config, s: S.Server, front: Option<Item>, j: nat)
    requires ServerCanGo(p, cc, sc, s, front, j) && ServerOk(s)
    ensures var (next, used, flushed) := S.Turn(sc, s, front, Accept);
            && ServerAt(p, sc, next) && !next.wait.Failed? && (used ==> front.Some?)
            && Moves(p, false, ServerPhase(p, s.state), ServerPhase(p, next.state), j, used, s.core.pending, flushed, next.core.pending)
  {
    hide MsgAt, Said, ItemAt, Items, ServerAt, ServerOk, S.Do;
    ServerFacts(p, cc, sc, s);
    ServerNotFailed(p, sc, S.Turn(sc, s, front, Accept).0);
    ItemsFew(p, ServerPhase(p, s.state));
    UsesWhatItPeeks(sc, s);
    match s.wait
    case Flush =>
      var flushed := s.(wait := Go, core := s.core.(pending := []));
      AtFlushed(p, cc, sc, s, front, j);
      ServerSteps(p, cc, sc, flushed, front, j);
      UsesWhatItPeeks(sc, flushed);
      var (next, used) := S.Do(sc, flushed, Peek(flushed.core, front), Accept);
      var x, y := ServerPhase(p, s.state), ServerPhase(p, next.state);
      assert [] + next.core.pending == next.core.pending && [] + Items(p, x, y) == Items(p, x, y);
    case ReadCcs => if front.Some? { AtClientChangeCipherSpec(p, cc, sc, s, front, j); }
    case _ => ServerSteps(p, cc, sc, s, front, j);
  }

  /** An operation that is still pending leaves the server where it is. */
  lemma PendingDoes(sc: S.Config, s: S.Server, next: Option<Msg>)
    requires ServerPends(s)
    ensures S.Do(sc, s, next, Retry) == S.Do(sc, s, next, Accept) || S.Do(sc, s, next, Retry) == (s.(wait := Pending), false)
  {
    hide Core.Hash, Core.Add;
  }

  lemma PendingStays(p: Plan, sc: S.Config, s: S.Server)
    requires ServerAt(p, sc, s) && ServerPends(s)
    ensures ServerAt(p, sc, s.(wait := Pending)) && !s.wait.Flush? && !s.wait.ReadCcs? && !s.wait.Failed?
  {
    hide MsgAt, Said, ItemAt, Items;
  }

  /** A turn that finds an operation pending is like one that does not need it, or leaves the server where it is. */
  lemma ServerTurnPends(p: Plan, sc: S.Config, s: S.Server, front: Option<Item>)
    requires ServerAt(p, sc, s) && ServerPends(s)
    ensures ServerAt(p, sc, s.(wait := Pending))
    ensures S.Turn(sc, s, front, Retry) in {S.Turn(sc, s, front, Accept), (s.(wait := Pending), false, [])}
  {
    hide MsgAt, Said, ItemAt, Items, ServerAt, ServerPends, S.Do;
    PendingStays(p, sc, s);
    PendingDoes(sc, s, Peek(s.core, front));
  }

  // ---- Progress.

  /** The steps a server still has to make, on the path that its kind of handshake takes. */
  function ServerLeft(p: Plan, state: S.State): nat {
    match state
    case StartAccept => 19
    case ReadClientHello => 18
    case SelectCertificate => 17
    case SelectParameters => 16
    case SendServerHello => 15
    case SendServerCertificate => 14
    case SendServerKeyExchange => 13
    case SendServerHelloDone => 12
    case ReadClientCertificate => 11
    case VerifyClientCertificate => 10
    case ReadClientKeyExchange => 9
    case ReadCertificateVerify => 8
    case ReadChangeCipherSpec => 7
    case ProcessChangeCipherSpec => 6
    case ReadNextProto => 5
    case ReadChannelId => 4
    case ReadClientFinished => 3
    case SendServerFinished => if p.resumed then 8 else 2
    case FinishHandshake => 1
    case Done => 0
  }

  function ServerRank(p: Plan, s: S.Server): nat {
    2 * ServerLeft(p, s.state) + if s.wait.ReadMessage? then 0 else 1
  }

  /** A step shortens what is left, unless the message it needs is missing. */
  ghost predicate Shortens(p: Plan, sc: S.Config, s: S.Server, next: Option<Msg>) {
    var (n, used) := S.Do(sc, s, next, Accept);
    var shorter := ServerLeft(p, n.state) < ServerLeft(p, s.state);
    && (n.wait.Failed? || shorter || n == (if s.state.Done? then s else s.(wait := ReadMessage)))
    && (next.Some? ==> n.wait.Failed? || shorter || s.state.Done?)
    && (s.state.Done? ==> n == s && !used)
    && (s.state.ProcessChangeCipherSpec? ==> shorter)
  }

  lemma EarlyShortens(p: Plan, sc: S.Config, s: S.Server, next: Option<Msg>)
    requires ServerEarly(s.state) && (s.state.SendServerHello? ==> s.core.resumed == p.resumed)
    ensures Shortens(p, sc, s, next)
  {
    hide Core.Hash, Core.Add;
  }

  lemma LateShortens(p: Plan, sc: S.Config, s: S.Server, next: Option<Msg>)
    requires !ServerEarly(s.state) && (s.state.ReadClientFinished? || s.state.SendServerFinished? ==> s.core.resumed == p.resumed)
    ensures Shortens(p, sc, s, next)
  {
    hide Core.Hash, Core.Add, Core.SendFinished, Core.GetFinished, Core.AddChangeCipherSpec, Core.ChangeWriteKeys, Core.ChangeReadKeys;
  }

  lemma StepShortens(p: Plan, sc: S.Config, s: S.Server, next: Option<Msg>)
    requires s.state.SendServerHello? || s.state.ReadClientFinished? || s.state.SendServerFinished? ==> s.core.resumed == p.resumed
    ensures Shortens(p, sc, s, next)
  {
    hide Shortens;
    if ServerEarly(s.state) { EarlyShortens(p, sc, s, next); } else { LateShortens(p, sc, s, next); }
  }

  lemma ServerWaits(p: Plan, cc: C.Config, sc: S.Config, s: S.Server, front: Option<Item>, j: nat)
    requires ServerCanGo(p, cc, sc, s, front, j)
    ensures s.state.SendServerHello? || s.state.ReadClientFinished? || s.state.SendServerFinished? ==> s.core.resumed == p.resumed
    ensures s.wait.ReadCcs? <==> s.state.ProcessChangeCipherSpec?
  {
    hide MsgAt, Said, ItemAt, Items;
  }

  /** A turn brings the server closer to its end, unless it waits for something that has not come or is done. */
  lemma ServerProgresses(p: Plan, cc: C.Config, sc: S.Config, s: S.Server, front: Option<Item>, j: nat)
    requires ServerCanGo(p, cc, sc, s, front, j)
    ensures var (next, used, flushed) := S.Turn(sc, s, front, Accept);
            || next.wait.Failed?
            || (next == s && !used && flushed == [] && (s.state.Done? || (front.None? && (s.wait.ReadMessage? || s.wait.ReadCcs?))))
            || ServerRank(p, next) < ServerRank(p, s)
  {
    ServerWaits(p, cc, sc, s, front, j);
    hide MsgAt, Said, ItemAt, Items, S.Do, ServerLeft, ServerAt, ServerCanGo, NextFrom;
    StepShortens(p, sc, s, Peek(s.core, front));
    StepShortens(p, sc, s, None);
    StepShortens(p, sc, s.(core := s.core.(pending := [])), Peek(s.core, front));
  }

  /** The phase in which a waiting server is sure to hear something. */
  function ServerAwaited(p: Plan, state: S.State): nat {
    match state
    case ReadClientHello | SelectCertificate | SelectParameters => 0
    case ReadClientCertificate => 7
    case ReadClientKeyExchange => 8
    case ReadCertificateVerify => 9
    case ProcessChangeCipherSpec => ClientCcs(p)
    case ReadNextProto => ClientCcs(p) + 1
    case ReadChannelId => ClientCcs(p) + 2
    case _ => ClientCcs(p) + 3
  }

  /** A server that waits knows that the next to speak is the client. */
  lemma ServerAwaits(p: Plan, sc: S.Config, s: S.Server) returns (j: nat)
    requires ServerAt(p, sc, s) && (s.wait.ReadMessage? || s.wait.ReadCcs?)
    ensures ServerPhase(p, s.state) <= j < Phases(p) && ItemAt(p, j) != [] && ClientSpeaks(p, j)
    ensures forall k :: ServerPhase(p, s.state) <= k < j ==> ItemAt(p, k) == [] || ClientSpeaks(p, k)
  {
    hide MsgAt, Said, ItemAt;
    if p.resumed { ResumedPhases(p); } else { FullReply(p); }
    j := ServerAwaited(p, s.state);
  }
}
