/** What each handshake machine guarantees on its own, whatever its peer sends. */
module HandshakeSafety {
  import opened Wrappers
  import opened HandshakeState
  import C = ClientMachine
  import S = ServerMachine

  /** What arrives at one turn, and how what the model leaves open turns out. */
  datatype Input = Input(front: Option<Item>, v: Verdict)

  ghost function RunClient(cfg: C.Config, c: C.Client, inputs: seq<Input>): C.Client
    decreases |inputs|
  {
    if inputs == [] then c else RunClient(cfg, C.Turn(cfg, c, inputs[0].front, inputs[0].v).0, inputs[1..])
  }

  ghost function RunServer(cfg: S.Config, s: S.Server, inputs: seq<Input>): S.Server
    decreases |inputs|
  {
    if inputs == [] then s else RunServer(cfg, S.Turn(cfg, s, inputs[0].front, inputs[0].v).0, inputs[1..])
  }

  /** From position i on, this side changes its write keys and sends its Finished. */
  ghost predicate SentAt(log: seq<Event>, i: nat) {
    i + 2 <= |log| && log[i] == WriteKeys && log[i + 1] == SentFinished
  }

  /** From position i on, this side changes its read keys and accepts the peer's Finished over its own transcript. */
  ghost predicate GotAt(log: seq<Event>, i: nat, server: bool) {
    i + 2 <= |log| && log[i] == ReadKeys && log[i + 1].GotFinished? && log[i + 1].m == Finished(!server, log[i + 1].mine)
  }

  /** While the handshake buffer is held, it is what has been hashed. */
  ghost predicate BufferIsTranscript(k: Core) {
    k.buffer.Some? && k.hash.Some? ==> k.buffer == k.hash
  }

  /** Adding a message changes only what is pending and the transcript. */
  lemma AddKeeps(k: Core, m: Msg)
    ensures k.Add(m) == k.(pending := k.Add(m).pending, buffer := k.Add(m).buffer, hash := k.Add(m).hash)
  {}

  /** Nothing the handshake depends on is lost: what was negotiated stays, and the buffer is held if it was. */
  ghost predicate Kept(k: Core, n: Core) {
    && n.resumed == k.resumed && n.cipher == k.cipher && n.certRequest == k.certRequest && n.npn == k.npn && n.channelId == k.channelId
    && n.ticketExpected == k.ticketExpected && n.peerKey == k.peerKey && n.readReleased == k.readReleased
    && n.buffer.Some? == k.buffer.Some? && n.hash.Some? == k.hash.Some?
    && (BufferIsTranscript(k) ==> BufferIsTranscript(n))
  }

  lemma HashIsKept(k: Core, m: Msg)
    ensures Kept(k, k.Hash(m)) && k.Hash(m).log == k.log
  {}

  lemma GotIsKept(k: Core, m: Msg)
    ensures Kept(k, k.GetFinished(m)) && k.GetFinished(m).log == k.log + [GotFinished(m, k.Transcript())]
  {}

  lemma AddIsKept(k: Core, m: Msg)
    ensures Kept(k, k.Add(m)) && k.Add(m).log == k.log
  {}

  lemma ChangeIsKept(k: Core)
    ensures var keyed := k.AddChangeCipherSpec().ChangeWriteKeys(); Kept(k, keyed) && keyed.log == k.log + [WriteKeys]
  {}

  lemma FinishedIsKept(k: Core, server: bool)
    ensures Kept(k, k.SendFinished(server)) && k.SendFinished(server).log == k.log + [SentFinished]
  {}

  lemma KeptTwice(k: Core, mid: Core, n: Core)
    ensures Kept(k, k)
    ensures Kept(k, mid) && Kept(mid, n) ==> Kept(k, n)
  {}

  /** Changing the write keys and sending Finished comes after whatever there was. */
  lemma GotBefore(log: seq<Event>, n: nat, server: bool)
    ensures var after := log + [WriteKeys, SentFinished];
            SentAt(after, |log|) && (GotAt(log, n, server) ==> GotAt(after, n, server))
  {}

  // ---- The client.

  /** Whether the handshake buffer must still be held, should it be needed for a CertificateVerify. */
  ghost predicate ClientNeedsBuffer(cfg: C.Config, c: C.Client) {
    match c.state
    case StartConnect | EnterEarlyData | ReadServerHello => true
    case ReadServerCertificate | ReadCertificateStatus | VerifyServerCertificate | ReadServerKeyExchange | ReadCertificateRequest =>
      c.core.cipher.certAuth
    case ReadServerHelloDone | SendClientCertificate => c.core.certRequest
    case SendClientKeyExchange | SendCertificateVerify => c.core.certRequest && cfg.hasCertificate
    case _ => false
  }

  /** The states before a CertificateRequest can have been read. */
  predicate ClientEarly(state: C.State) {
    match state
    case StartConnect | EnterEarlyData | ReadServerHello | ReadServerCertificate | ReadCertificateStatus
       | VerifyServerCertificate | ReadServerKeyExchange | ReadCertificateRequest => true
    case _ => false
  }

  /** The states a resumption goes through once it is known to be one. */
  predicate ClientResumes(state: C.State) {
    match state
    case ReadSessionTicket | ProcessChangeCipherSpec | ReadServerFinished | SendClientFinished | FinishFlight
       | FinishHandshake | Done => true
    case _ => false
  }

  ghost predicate ClientLog(c: C.Client) {
    var log, resumed := c.core.log, c.core.resumed;
    match c.state
    case SendClientFinished => if resumed then |log| == 2 && GotAt(log, 0, false) else log == []
    case FinishFlight => if resumed then |log| == 4 && GotAt(log, 0, false) && SentAt(log, 2) else |log| == 2 && SentAt(log, 0)
    case ReadSessionTicket | ProcessChangeCipherSpec => if resumed then log == [] else |log| == 2 && SentAt(log, 0)
    case ReadServerFinished =>
      if resumed then log == [ReadKeys] else |log| == 3 && SentAt(log, 0) && log[2] == ReadKeys
    case FinishHandshake | Done => ClientDone(c)
    case _ => log == []
  }

  /** Exactly one Finished sent and one accepted, in the order that session reuse fixes. */
  ghost predicate ClientDone(c: C.Client) {
    var log := c.core.log;
    |log| == 4 && if c.core.resumed then GotAt(log, 0, false) && SentAt(log, 2) else SentAt(log, 0) && GotAt(log, 2, false)
  }

  ghost predicate ClientOk(cfg: C.Config, c: C.Client) {
    || c.wait.Failed?
    || (&& ClientLog(c)
        && (ClientNeedsBuffer(cfg, c) ==> c.core.buffer.Some?)
        && BufferIsTranscript(c.core)
        && (c.core.hash.None? ==> c.state.StartConnect? || c.state.EnterEarlyData? || c.state.ReadServerHello?)
        && (c.core.certRequest ==> !ClientEarly(c.state))
        && (c.core.resumed ==> ClientResumes(c.state)))
  }

  lemma ClientHelloKeepsOk(cfg: C.Config, c: C.Client, next: Option<Msg>, v: Verdict)
    requires ClientOk(cfg, c) && !c.wait.Failed? && !c.core.readReleased
    requires c.state.StartConnect? || c.state.EnterEarlyData? || c.state.ReadServerHello?
    ensures ClientOk(cfg, C.Do(cfg, c, next, v).0) && !C.Do(cfg, c, next, v).0.core.readReleased
  {
    hide SentAt, GotAt;
  }

  lemma ClientCertificateKeepsOk(cfg: C.Config, c: C.Client, next: Option<Msg>, v: Verdict)
    requires ClientOk(cfg, c) && !c.wait.Failed? && !c.core.readReleased
    requires c.state.ReadServerCertificate? || c.state.ReadCertificateStatus? || c.state.VerifyServerCertificate?
    ensures ClientOk(cfg, C.Do(cfg, c, next, v).0) && !C.Do(cfg, c, next, v).0.core.readReleased
  {
    hide SentAt, GotAt, Core.Hash;
    if next.Some? {
      HashIsKept(c.core, next.value);
      HashIsKept(c.core.(peerKey := true), next.value);
    }
  }

  lemma ClientKeyExchangeKeepsOk(cfg: C.Config, c: C.Client, next: Option<Msg>, v: Verdict)
    requires ClientOk(cfg, c) && !c.wait.Failed? && !c.core.readReleased && c.state.ReadServerKeyExchange?
    ensures ClientOk(cfg, C.Do(cfg, c, next, v).0) && !C.Do(cfg, c, next, v).0.core.readReleased
  {
    hide SentAt, GotAt, Core.Hash;
    if next.Some? { HashIsKept(c.core, next.value); }
  }

  lemma ClientRequestKeepsOk(cfg: C.Config, c: C.Client, next: Option<Msg>, v: Verdict)
    requires ClientOk(cfg, c) && !c.wait.Failed? && !c.core.readReleased && c.state.ReadCertificateRequest?
    ensures ClientOk(cfg, C.Do(cfg, c, next, v).0) && !C.Do(cfg, c, next, v).0.core.readReleased
  {
    hide SentAt, GotAt, Core.Hash;
    if next.Some? { HashIsKept(c.core.(certRequest := true), next.value); }
  }

  lemma ClientFlightKeepsOk(cfg: C.Config, c: C.Client, next: Option<Msg>, v: Verdict)
    requires ClientOk(cfg, c) && !c.wait.Failed? && !c.core.readReleased
    requires c.state.ReadServerHelloDone? || c.state.SendClientCertificate? || c.state.SendClientKeyExchange? || c.state.SendCertificateVerify?
    ensures ClientOk(cfg, C.Do(cfg, c, next, v).0) && !C.Do(cfg, c, next, v).0.core.readReleased
  {
    hide SentAt, GotAt;
  }

  /** What the client's last flight does to its core. */
  lemma ClientSends(c: C.Client)
    ensures var next := C.SendClientFinishedStep(c, Accept).0;
            && next.state == C.FinishFlight && next.wait == Flush
            && next.core.log == c.core.log + [WriteKeys, SentFinished] && Kept(c.core, next.core)
  {
    hide Core.Hash, Core.Add, Core.AddChangeCipherSpec, Core.ChangeWriteKeys, Core.SendFinished, Kept;
    var k := c.core;
    var keyed := k.AddChangeCipherSpec().ChangeWriteKeys();
    ChangeIsKept(k);
    AddIsKept(keyed, NextProto);
    var proto := if keyed.npn then keyed.Add(NextProto) else keyed;
    KeptTwice(k, keyed, proto);
    KeptTwice(keyed, keyed, proto);
    AddIsKept(proto, ChannelId);
    var id := if proto.channelId then proto.Add(ChannelId) else proto;
    KeptTwice(k, proto, id);
    KeptTwice(proto, proto, id);
    FinishedIsKept(id, false);
    KeptTwice(k, id, id.SendFinished(false));
  }

  /** The log of a client after its last flight. */
  lemma ClientLogsFlight(c: C.Client, next: C.Client)
    requires ClientLog(c) && c.state.SendClientFinished? && next.state.FinishFlight? && next.core.resumed == c.core.resumed
    requires next.core.log == c.core.log + [WriteKeys, SentFinished]
    ensures ClientLog(next)
  {
    hide SentAt, GotAt;
    GotBefore(c.core.log, 0, false);
  }

  lemma ClientSentKeepsOk(cfg: C.Config, c: C.Client, next: Option<Msg>, v: Verdict)
    requires ClientOk(cfg, c) && !c.wait.Failed? && !c.core.readReleased && c.state == C.SendClientFinished
    ensures ClientOk(cfg, C.Do(cfg, c, next, v).0) && !C.Do(cfg, c, next, v).0.core.readReleased
  {
    if v == Accept {
      hide C.SendClientFinishedStep, ClientLog, BufferIsTranscript;
      ClientSends(c);
      ClientLogsFlight(c, C.SendClientFinishedStep(c, Accept).0);
    }
  }

  lemma ClientGotKeepsOk(cfg: C.Config, c: C.Client, next: Option<Msg>, v: Verdict)
    requires ClientOk(cfg, c) && !c.wait.Failed? && !c.core.readReleased && (c.state.ReadServerFinished? || c.state.FinishHandshake? || c.state.Done?)
    ensures ClientOk(cfg, C.Do(cfg, c, next, v).0) && !C.Do(cfg, c, next, v).0.core.readReleased
  {
    hide Core.Hash, Core.GetFinished;
    if next.Some? { GotIsKept(c.core, next.value); }
  }

  lemma ClientTicketKeepsOk(cfg: C.Config, c: C.Client, next: Option<Msg>, v: Verdict)
    requires ClientOk(cfg, c) && !c.wait.Failed? && !c.core.readReleased && (c.state.FinishFlight? || c.state.ReadSessionTicket?)
    ensures ClientOk(cfg, C.Do(cfg, c, next, v).0) && !C.Do(cfg, c, next, v).0.core.readReleased
  {
    hide SentAt, GotAt, Core.Hash;
    if next.Some? && next.value.NewSessionTicket? { HashIsKept(c.core.(ticketExpected := !next.value.empty), next.value); }
  }

  lemma ClientChangeKeepsOk(cfg: C.Config, c: C.Client, next: Option<Msg>, v: Verdict)
    requires ClientOk(cfg, c) && !c.wait.Failed? && !c.core.readReleased && c.state.ProcessChangeCipherSpec?
    ensures ClientOk(cfg, C.Do(cfg, c, next, v).0) && !C.Do(cfg, c, next, v).0.core.readReleased
  {}

  lemma ClientDoKeepsOk(cfg: C.Config, c: C.Client, next: Option<Msg>, v: Verdict)
    requires ClientOk(cfg, c) && !c.wait.Failed? && !c.core.readReleased
    ensures ClientOk(cfg, C.Do(cfg, c, next, v).0) && !C.Do(cfg, c, next, v).0.core.readReleased
  {
    match c.state
    case ReadServerHelloDone | SendClientCertificate | SendClientKeyExchange | SendCertificateVerify =>
      ClientFlightKeepsOk(cfg, c, next, v);
    case SendClientFinished => ClientSentKeepsOk(cfg, c, next, v);
    case FinishFlight | ReadSessionTicket => ClientTicketKeepsOk(cfg, c, next, v);
    case ProcessChangeCipherSpec => ClientChangeKeepsOk(cfg, c, next, v);
    case ReadServerFinished | FinishHandshake | Done => ClientGotKeepsOk(cfg, c, next, v);
    case StartConnect | EnterEarlyData | ReadServerHello => ClientHelloKeepsOk(cfg, c, next, v);
    case ReadServerCertificate | ReadCertificateStatus | VerifyServerCertificate => ClientCertificateKeepsOk(cfg, c, next, v);
    case ReadServerKeyExchange => ClientKeyExchangeKeepsOk(cfg, c, next, v);
    case ReadCertificateRequest => ClientRequestKeepsOk(cfg, c, next, v);
  }

  lemma ClientTurnOk(cfg: C.Config, c: C.Client, front: Option<Item>, v: Verdict)
    requires ClientOk(cfg, c) && !c.core.readReleased
    ensures ClientOk(cfg, C.Turn(cfg, c, front, v).0) && !C.Turn(cfg, c, front, v).0.core.readReleased
  {
    hide C.Do;
    if !c.wait.Failed? {
      ClientDoKeepsOk(cfg, c, Peek(c.core, front), v);
      ClientDoKeepsOk(cfg, c, None, v);
      ClientDoKeepsOk(cfg, c.(core := c.core.(pending := [])), Peek(c.core, front), v);
    }
  }

  /** Whatever the server sends, the client never reads a released buffer, and only makes allowed moves. */
  lemma {:induction false} ClientRunOk(cfg: C.Config, c: C.Client, inputs: seq<Input>)
    requires ClientOk(cfg, c) && !c.core.readReleased
    ensures ClientOk(cfg, RunClient(cfg, c, inputs)) && !RunClient(cfg, c, inputs).core.readReleased
    decreases |inputs|
  {
    if inputs != [] {
      ClientTurnOk(cfg, c, inputs[0].front, inputs[0].v);
      ClientRunOk(cfg, C.Turn(cfg, c, inputs[0].front, inputs[0].v).0, inputs[1..]);
    }
  }

  /**
   * A client that completes has sent exactly one Finished and accepted exactly one, over its own
   * transcript and after changing its read keys, in the order that session reuse fixes.
   */
  lemma ClientCompletes(cfg: C.Config, inputs: seq<Input>)
    ensures var c := RunClient(cfg, C.START, inputs);
            && !c.core.readReleased
            && (c.state == C.Done && !c.wait.Failed? ==> ClientDone(c))
  {
    ClientRunOk(cfg, C.START, inputs);
  }

  // ---- The server.

  ghost predicate ServerNeedsBuffer(s: S.Server) {
    match s.state
    case StartAccept | ReadClientHello | SelectCertificate | SelectParameters => true
    case SendServerHello | SendServerCertificate | SendServerKeyExchange | SendServerHelloDone | ReadClientCertificate =>
      s.core.certRequest
    case VerifyClientCertificate | ReadClientKeyExchange | ReadCertificateVerify => s.core.peerKey
    case _ => false
  }

  /** The states a resumption goes through once it is known to be one. */
  predicate ServerResumes(state: S.State) {
    match state
    case SendServerHello | SendServerFinished | ReadChangeCipherSpec | ProcessChangeCipherSpec
       | ReadNextProto | ReadChannelId | ReadClientFinished | FinishHandshake | Done => true
    case _ => false
  }

  /** The states before a client certificate can have been read. */
  predicate ServerEarly(state: S.State) {
    match state
    case StartAccept | ReadClientHello | SelectCertificate | SelectParameters | SendServerHello | SendServerCertificate
       | SendServerKeyExchange | SendServerHelloDone | ReadClientCertificate => true
    case _ => false
  }

  /** The number of events before the change of keys: a client's key is verified first. */
  ghost predicate KeyVerified(k: Core, n: nat) {
    n == (if k.peerKey then 1 else 0) && n <= |k.log|
    && (k.peerKey ==> k.log[0].VerifiedClientKey? && k.log[0].m == CertificateVerify(k.log[0].mine))
  }

  ghost predicate ServerLog(s: S.Server) {
    var log, resumed := s.core.log, s.core.resumed;
    var n := if s.core.peerKey then 1 else 0;
    match s.state
    case ReadChangeCipherSpec | ProcessChangeCipherSpec =>
      if resumed then |log| == 2 && SentAt(log, 0) else |log| == n && KeyVerified(s.core, n)
    case ReadNextProto | ReadChannelId | ReadClientFinished =>
      if resumed then |log| == 3 && SentAt(log, 0) && log[2] == ReadKeys
      else |log| == n + 1 && KeyVerified(s.core, n) && log[n] == ReadKeys
    case SendServerFinished =>
      if resumed then log == [] else |log| == n + 2 && KeyVerified(s.core, n) && GotAt(log, n, true)
    case FinishHandshake | Done => ServerDone(s)
    case _ => log == []
  }

  /**
   * Exactly one Finished sent and one accepted, in the order that session reuse fixes, and before
   * either, the verification of the client's key over the whole transcript, if the client gave one.
   */
  ghost predicate ServerDone(s: S.Server) {
    var log := s.core.log;
    if s.core.resumed then |log| == 4 && SentAt(log, 0) && GotAt(log, 2, true)
    else
      var n := if s.core.peerKey then 1 else 0;
      |log| == n + 4 && KeyVerified(s.core, n) && GotAt(log, n, true) && SentAt(log, n + 2)
  }

  ghost predicate ServerOk(s: S.Server) {
    || s.wait.Failed?
    || (&& ServerLog(s)
        && (ServerNeedsBuffer(s) ==> s.core.buffer.Some?)
        && BufferIsTranscript(s.core)
        && (s.core.hash.None? ==> s.state.StartAccept? || s.state.ReadClientHello? || s.state.SelectCertificate? || s.state.SelectParameters?)
        && (s.core.resumed ==> ServerResumes(s.state) && !s.core.peerKey)
        && (s.core.peerKey ==> !ServerEarly(s.state)))
  }

  lemma ServerHelloKeepsOk(cfg: S.Config, s: S.Server, next: Option<Msg>, v: Verdict)
    requires ServerOk(s) && !s.wait.Failed? && !s.core.readReleased
    requires s.state.StartAccept? || s.state.ReadClientHello? || s.state.SelectCertificate? || s.state.SelectParameters? || s.state.SendServerHello?
    ensures ServerOk(S.Do(cfg, s, next, v).0) && !S.Do(cfg, s, next, v).0.core.readReleased
  {
    hide SentAt, GotAt, KeyVerified;
  }

  lemma ServerCertificateKeepsOk(cfg: S.Config, s: S.Server, next: Option<Msg>, v: Verdict)
    requires ServerOk(s) && !s.wait.Failed? && !s.core.readReleased
    requires s.state.SendServerCertificate?
    ensures ServerOk(S.Do(cfg, s, next, v).0) && !S.Do(cfg, s, next, v).0.core.readReleased
  {
    hide Core.Hash;
    HashIsKept(s.core, Certificate(true));
    HashIsKept(s.core.Add(Certificate(true)), CertificateStatus);
  }

  lemma ServerFlightKeepsOk(cfg: S.Config, s: S.Server, next: Option<Msg>, v: Verdict)
    requires ServerOk(s) && !s.wait.Failed? && !s.core.readReleased
    requires s.state.SendServerKeyExchange? || s.state.SendServerHelloDone?
    ensures ServerOk(S.Do(cfg, s, next, v).0) && !S.Do(cfg, s, next, v).0.core.readReleased
  {
    hide SentAt, GotAt, KeyVerified;
  }

  lemma ServerReadsKeepOk(cfg: S.Config, s: S.Server, next: Option<Msg>, v: Verdict)
    requires ServerOk(s) && !s.wait.Failed? && !s.core.readReleased
    requires s.state.ReadClientCertificate? || s.state.VerifyClientCertificate?
    ensures ServerOk(S.Do(cfg, s, next, v).0) && !S.Do(cfg, s, next, v).0.core.readReleased
  {
    hide Core.Hash;
    if next.Some? && next.value.Certificate? { HashIsKept(s.core.(peerKey := next.value.present), next.value); }
  }

  lemma ServerKeyReadsKeepOk(cfg: S.Config, s: S.Server, next: Option<Msg>, v: Verdict)
    requires ServerOk(s) && !s.wait.Failed? && !s.core.readReleased
    requires s.state.ReadClientKeyExchange?
    ensures ServerOk(S.Do(cfg, s, next, v).0) && !S.Do(cfg, s, next, v).0.core.readReleased
  {
    hide Core.Hash;
    if next.Some? { HashIsKept(s.core, next.value); }
  }

  lemma ServerVerifyKeepsOk(cfg: S.Config, s: S.Server, next: Option<Msg>, v: Verdict)
    requires ServerOk(s) && !s.wait.Failed? && !s.core.readReleased
    requires s.state.ReadCertificateVerify?
    ensures ServerOk(S.Do(cfg, s, next, v).0) && !S.Do(cfg, s, next, v).0.core.readReleased
  {}

  lemma ServerKeysKeepOk(cfg: S.Config, s: S.Server, next: Option<Msg>, v: Verdict)
    requires ServerOk(s) && !s.wait.Failed? && !s.core.readReleased
    requires s.state.ReadChangeCipherSpec? || s.state.ProcessChangeCipherSpec? || s.state.ReadNextProto? || s.state.ReadChannelId?
    ensures ServerOk(S.Do(cfg, s, next, v).0) && !S.Do(cfg, s, next, v).0.core.readReleased
  {
    hide Core.Hash;
    if next.Some? { HashIsKept(s.core, next.value); }
  }

  lemma ServerGotKeepsOk(cfg: S.Config, s: S.Server, next: Option<Msg>, v: Verdict)
    requires ServerOk(s) && !s.wait.Failed? && !s.core.readReleased
    requires s.state.ReadClientFinished? || s.state.FinishHandshake? || s.state.Done?
    ensures ServerOk(S.Do(cfg, s, next, v).0) && !S.Do(cfg, s, next, v).0.core.readReleased
  {
    hide Core.Hash, Core.GetFinished;
    if next.Some? { GotIsKept(s.core, next.value); }
  }

  /** What the server's last flight does to its core. */
  lemma ServerSends(s: S.Server)
    ensures var next := S.SendServerFinishedStep(s, Accept).0;
            && next.state == (if s.core.resumed then S.ReadChangeCipherSpec else S.FinishHandshake) && next.wait == Flush
            && next.core.log == s.core.log + [WriteKeys, SentFinished] && Kept(s.core, next.core)
  {
    hide Core.Hash, Core.Add, Core.AddChangeCipherSpec, Core.ChangeWriteKeys, Core.SendFinished, Kept;
    var k := s.core;
    AddIsKept(k, NewSessionTicket(false));
    var ticketed := if k.ticketExpected then k.Add(NewSessionTicket(false)) else k;
    KeptTwice(k, k, ticketed);
    var keyed := ticketed.AddChangeCipherSpec().ChangeWriteKeys();
    ChangeIsKept(ticketed);
    KeptTwice(k, ticketed, keyed);
    FinishedIsKept(keyed, true);
    KeptTwice(k, keyed, keyed.SendFinished(true));
  }

  /** The log of a server after its last flight. */
  lemma ServerLogsFlight(s: S.Server, next: S.Server)
    requires ServerLog(s) && s.state.SendServerFinished? && Kept(s.core, next.core) && (s.core.resumed ==> !s.core.peerKey)
    requires next.state == (if s.core.resumed then S.ReadChangeCipherSpec else S.FinishHandshake)
    requires next.core.log == s.core.log + [WriteKeys, SentFinished]
    ensures ServerLog(next)
  {
    hide SentAt, GotAt, BufferIsTranscript;
    GotBefore(s.core.log, if s.core.peerKey then 1 else 0, true);
  }

  lemma ServerSentKeepsOk(cfg: S.Config, s: S.Server, next: Option<Msg>, v: Verdict)
    requires ServerOk(s) && !s.wait.Failed? && !s.core.readReleased && s.state == S.SendServerFinished
    ensures ServerOk(S.Do(cfg, s, next, v).0) && !S.Do(cfg, s, next, v).0.core.readReleased
  {
    if v == Accept {
      hide S.SendServerFinishedStep, ServerLog;
      ServerSends(s);
      ServerLogsFlight(s, S.SendServerFinishedStep(s, Accept).0);
    }
  }

  lemma ServerDoKeepsOk(cfg: S.Config, s: S.Server, next: Option<Msg>, v: Verdict)
    requires ServerOk(s) && !s.wait.Failed? && !s.core.readReleased
    ensures ServerOk(S.Do(cfg, s, next, v).0) && !S.Do(cfg, s, next, v).0.core.readReleased
  {
    match s.state
    case SendServerCertificate => ServerCertificateKeepsOk(cfg, s, next, v);
    case SendServerKeyExchange | SendServerHelloDone => ServerFlightKeepsOk(cfg, s, next, v);
    case ReadClientCertificate | VerifyClientCertificate => ServerReadsKeepOk(cfg, s, next, v);
    case ReadClientKeyExchange => ServerKeyReadsKeepOk(cfg, s, next, v);
    case ReadCertificateVerify => ServerVerifyKeepsOk(cfg, s, next, v);
    case ReadChangeCipherSpec | ProcessChangeCipherSpec | ReadNextProto | ReadChannelId => ServerKeysKeepOk(cfg, s, next, v);
    case ReadClientFinished | FinishHandshake | Done => ServerGotKeepsOk(cfg, s, next, v);
    case SendServerFinished => ServerSentKeepsOk(cfg, s, next, v);
    case _ => ServerHelloKeepsOk(cfg, s, next, v);
  }

  lemma ServerTurnOk(cfg: S.Config, s: S.Server, front: Option<Item>, v: Verdict)
    requires ServerOk(s) && !s.core.readReleased
    ensures ServerOk(S.Turn(cfg, s, front, v).0) && !S.Turn(cfg, s, front, v).0.core.readReleased
  {
    hide S.Do;
    if !s.wait.Failed? {
      ServerDoKeepsOk(cfg, s, Peek(s.core, front), v);
      ServerDoKeepsOk(cfg, s, None, v);
      ServerDoKeepsOk(cfg, s.(core := s.core.(pending := [])), Peek(s.core, front), v);
    }
  }

  lemma {:induction false} ServerRunOk(cfg: S.Config, s: S.Server, inputs: seq<Input>)
    requires ServerOk(s) && !s.core.readReleased
    ensures ServerOk(RunServer(cfg, s, inputs)) && !RunServer(cfg, s, inputs).core.readReleased
    decreases |inputs|
  {
    if inputs != [] {
      ServerTurnOk(cfg, s, inputs[0].front, inputs[0].v);
      ServerRunOk(cfg, S.Turn(cfg, s, inputs[0].front, inputs[0].v).0, inputs[1..]);
    }
  }

  /**
   * A server that completes has sent exactly one Finished and accepted exactly one, over its own
   * transcript and after changing its read keys; if it holds a client's key, it first verified a
   * CertificateVerify over the transcript. It never reads a released buffer.
   */
  lemma ServerCompletes(cfg: S.Config, inputs: seq<Input>)
    ensures var s := RunServer(cfg, S.START, inputs);
            !s.core.readReleased && (s.state == S.Done && !s.wait.Failed? ==> ServerDone(s))
  {
    ServerRunOk(cfg, S.START, inputs);
  }
}
