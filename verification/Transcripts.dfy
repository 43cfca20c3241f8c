/**
 * The order of handshake messages (section 7.3 of RFC 5246, with the extensions BoringSSL knows): what
 * the transcript of a side that completes is, whatever its peer sends.
 */
module Transcripts {
  import opened Wrappers
  import opened HandshakeState
  import C = ClientMachine
  import S = ServerMachine
  import opened HandshakeSafety
  import opened HandshakeVerdicts
  import D = Dialogue

  /** What a handshake leaves open: the ServerHello, which optional messages come, and whether a certificate or a ticket is empty. */
  datatype Course = Course(
    hello: Msg,
    resumed: bool,
    stapled: bool,
    exchange: bool,
    request: bool,
    certified: bool,
    ticket: Option<bool>)

  predicate HasHello(co: Course) {
    co.hello.ServerHello?
  }

  function If(present: bool, m: Msg): seq<Msg> {
    if present then [m] else []
  }

  function Ticket(co: Course): seq<Msg> {
    match co.ticket case Some(empty) => [NewSessionTicket(empty)] case None => []
  }

  function Names(co: Course): seq<Msg>
    requires HasHello(co)
  {
    If(co.hello.npn, NextProto) + If(co.hello.channelId, ChannelId)
  }

  // ---- A full handshake, message by message.

  function Hellos(co: Course): seq<Msg> {
    [ClientHello, co.hello]
  }

  function ToCertificate(co: Course): seq<Msg>
    requires HasHello(co)
  {
    Hellos(co) + If(co.hello.cipher.certAuth, Certificate(true))
  }

  function ToStatus(co: Course): seq<Msg>
    requires HasHello(co)
  {
    ToCertificate(co) + If(co.stapled, CertificateStatus)
  }

  function ToKeyExchange(co: Course): seq<Msg>
    requires HasHello(co)
  {
    ToStatus(co) + If(co.exchange, ServerKeyExchange)
  }

  function ToRequest(co: Course): seq<Msg>
    requires HasHello(co)
  {
    ToKeyExchange(co) + If(co.request, CertificateRequest)
  }

  function ToHelloDone(co: Course): seq<Msg>
    requires HasHello(co)
  {
    ToRequest(co) + [ServerHelloDone]
  }

  function ToAnswer(co: Course): seq<Msg>
    requires HasHello(co)
  {
    ToHelloDone(co) + If(co.request, Certificate(co.certified))
  }

  function ToClientKey(co: Course): seq<Msg>
    requires HasHello(co)
  {
    ToAnswer(co) + [ClientKeyExchange]
  }

  function ToVerify(co: Course): seq<Msg>
    requires HasHello(co)
  {
    ToClientKey(co) + If(co.request && co.certified, CertificateVerify(ToClientKey(co)))
  }

  function ToNames(co: Course): seq<Msg>
    requires HasHello(co)
  {
    ToVerify(co) + Names(co)
  }

  function ToClientFinished(co: Course): seq<Msg>
    requires HasHello(co)
  {
    ToNames(co) + [Finished(false, ToNames(co))]
  }

  function ToTicket(co: Course): seq<Msg>
    requires HasHello(co)
  {
    ToClientFinished(co) + Ticket(co)
  }

  function Full(co: Course): seq<Msg>
    requires HasHello(co)
  {
    ToTicket(co) + [Finished(true, ToTicket(co))]
  }

  // ---- A resumption.

  function Renewed(co: Course): seq<Msg> {
    Hellos(co) + Ticket(co)
  }

  function ToServerFinished(co: Course): seq<Msg> {
    Renewed(co) + [Finished(true, Renewed(co))]
  }

  function ToLateNames(co: Course): seq<Msg>
    requires HasHello(co)
  {
    ToServerFinished(co) + Names(co)
  }

  function Resumed(co: Course): seq<Msg>
    requires HasHello(co)
  {
    ToLateNames(co) + [Finished(false, ToLateNames(co))]
  }

  /** The transcript of a completed handshake. */
  function Whole(co: Course): seq<Msg>
    requires HasHello(co)
  {
    if co.resumed then Resumed(co) else Full(co)
  }

  // ---- The client.

  /** What the client has in its transcript in each state. */
  function ClientSaid(co: Course, state: C.State): seq<Msg>
    requires HasHello(co)
  {
    match state
    case StartConnect => []
    case EnterEarlyData | ReadServerHello => [ClientHello]
    case ReadServerCertificate => Hellos(co)
    case ReadCertificateStatus => ToCertificate(co)
    case VerifyServerCertificate | ReadServerKeyExchange => ToStatus(co)
    case ReadCertificateRequest => ToKeyExchange(co)
    case ReadServerHelloDone => ToRequest(co)
    case SendClientCertificate => ToHelloDone(co)
    case SendClientKeyExchange => ToAnswer(co)
    case SendCertificateVerify => ToClientKey(co)
    case SendClientFinished => if co.resumed then ToServerFinished(co) else ToVerify(co)
    case FinishFlight => if co.resumed then Resumed(co) else ToClientFinished(co)
    case ReadSessionTicket => if co.resumed then Hellos(co) else ToClientFinished(co)
    case ProcessChangeCipherSpec | ReadServerFinished => if co.resumed then Renewed(co) else ToTicket(co)
    case FinishHandshake | Done => Whole(co)
  }

  /** How far the client has come: before the ServerHello, and with each optional message still ahead or behind. */
  predicate ClientBefore(state: C.State) {
    state.StartConnect? || state.EnterEarlyData? || state.ReadServerHello?
  }

  predicate ClientBeforeExchange(state: C.State) {
    ClientBefore(state) || state.ReadServerCertificate? || state.ReadCertificateStatus? || state.VerifyServerCertificate?
    || state.ReadServerKeyExchange?
  }

  predicate ClientBeforeTicket(co: Course, state: C.State) {
    state.ReadSessionTicket? || (if co.resumed then false
      else ClientEarly(state) || state.ReadServerHelloDone? || state.SendClientCertificate? || state.SendClientKeyExchange?
           || state.SendCertificateVerify? || state.SendClientFinished? || state.FinishFlight?)
  }

  /** The course is one the client allows. */
  predicate ClientAllows(cfg: C.Config, co: Course)
    requires HasHello(co)
  {
    && co.resumed == (co.hello.resumed && cfg.hasSession) && co.certified == cfg.hasCertificate
    && (co.stapled ==> co.hello.status)
    && (co.exchange ==> !co.hello.cipher.certAuth || co.hello.cipher.ecdhe)
    && (co.request ==> co.hello.cipher.certAuth)
  }

  predicate ClientMet(cfg: C.Config, co: Course, k: Core, state: C.State)
    requires HasHello(co)
  {
    && ClientAllows(cfg, co)
    && k.resumed == co.resumed && k.cipher == co.hello.cipher && k.npn == co.hello.npn && k.channelId == co.hello.channelId
    && k.statusExpected == co.hello.status && k.certRequest == co.request
    && (if ClientBeforeTicket(co, state) then co.ticket.None? && k.ticketExpected == co.hello.ticket else co.hello.ticket == co.ticket.Some?)
    && (if ClientBeforeExchange(state) then !co.exchange else !co.resumed && co.hello.cipher.ecdhe ==> co.exchange)
    && (state.ReadServerCertificate? || state.ReadCertificateStatus? ==> !co.stapled)
    && (ClientEarly(state) ==> !co.request)
    && (co.resumed ==> ClientResumes(state))
  }

  /** The client has told the transcript of its state. */
  predicate ClientTells(cfg: C.Config, co: Course, c: C.Client) {
    HasHello(co) &&
    if ClientBefore(c.state) then c.core.hash.None? && c.core.buffer == Some(ClientSaid(co, c.state)) && !c.core.certRequest
    else c.core.hash == Some(ClientSaid(co, c.state)) && ClientMet(cfg, co, c.core, c.state)
  }

  /** What was negotiated is the same. */
  predicate Alike(k: Core, n: Core) {
    && n.resumed == k.resumed && n.cipher == k.cipher && n.certRequest == k.certRequest && n.npn == k.npn && n.channelId == k.channelId
    && n.ticketExpected == k.ticketExpected && n.statusExpected == k.statusExpected && n.peerKey == k.peerKey
  }

  lemma HashSays(k: Core, m: Msg, t: seq<Msg>)
    requires k.hash == Some(t)
    ensures k.Hash(m).hash == Some(t + [m]) && Alike(k, k.Hash(m))
    ensures k.Add(m).hash == Some(t + [m]) && Alike(k, k.Add(m))
  {}

  /** The handshakes a client starts with. */
  const UNKNOWN := Course(ServerHello(false, Cipher(false, false), false, false, false, false), false, false, false, false, false, None)

  lemma ClientOpensTelling(cfg: C.Config, co: Course, c: C.Client, v: Verdict)
    requires ClientTells(cfg, co, c) && (c.state.StartConnect? || c.state.EnterEarlyData?)
    ensures c.state.StartConnect? ==> var n := C.StartConnectStep(c, v).0; n.wait.Failed? || ClientTells(cfg, co, n)
    ensures c.state.EnterEarlyData? ==> ClientTells(cfg, co, C.EnterEarlyDataStep(c).0)
  {
    assert [] + [ClientHello] == [ClientHello];
  }

  lemma ClientGreeted(cfg: C.Config, c: C.Client, m: Msg, k: Core, n: C.Client)
    requires m.ServerHello? && c.state.ReadServerHello?
    requires k.resumed == (m.resumed && cfg.hasSession) && k.cipher == m.cipher && k.ticketExpected == m.ticket && k.statusExpected == m.status
    requires k.npn == m.npn && k.channelId == m.channelId && !k.certRequest
    requires n.state == (if k.resumed then C.ReadSessionTicket else C.ReadServerCertificate)
    requires n.core.hash == Some([ClientHello] + [m]) && Alike(k, n.core)
    ensures ClientTells(cfg, Course(m, k.resumed, false, false, false, cfg.hasCertificate, None), n)
  {
    assert [ClientHello] + [m] == [ClientHello, m];
  }

  lemma ClientHelloTelling(cfg: C.Config, co: Course, c: C.Client, next: Option<Msg>, v: Verdict) returns (co': Course)
    requires ClientTells(cfg, co, c) && c.state.ReadServerHello?
    ensures var n := C.ReadServerHelloStep(cfg, c, next, v).0; n.wait.Failed? || ClientTells(cfg, co', n)
  {
    hide Core.Hash, Core.InitHash, ClientMet;
    co' := co;
    var (n, used) := C.ReadServerHelloStep(cfg, c, next, v);
    if used {
      var m, resumed := next.value, next.value.resumed && cfg.hasSession;
      var k := c.core.(resumed := resumed, cipher := m.cipher, ticketExpected := m.ticket, statusExpected := m.status,
                       npn := m.npn, channelId := m.channelId);
      InitSays(k);
      HashSays(k.InitHash(), m, [ClientHello]);
      co' := Course(m, resumed, false, false, false, cfg.hasCertificate, None);
      ClientGreeted(cfg, c, m, k, n);
    }
  }

  lemma InitSays(k: Core)
    requires k.buffer.Some?
    ensures k.InitHash().hash == k.buffer && Alike(k, k.InitHash())
  {}

  lemma Unsaid(t: seq<Msg>)
    ensures t + [] == t
  {}

  lemma CertificateSaid(co: Course)
    requires HasHello(co)
    ensures ToCertificate(co) == Hellos(co) + If(co.hello.cipher.certAuth, Certificate(true))
  {}

  lemma ClientCertificateTelling(cfg: C.Config, co: Course, c: C.Client, next: Option<Msg>, v: Verdict)
    requires ClientTells(cfg, co, c) && c.state.ReadServerCertificate?
    ensures var n := C.ReadServerCertificateStep(c, next, v).0; n.wait.Failed? || ClientTells(cfg, co, n)
  {
    hide Core.Hash, Hellos;
    Unsaid(Hellos(co));
    if next.Some? { HashSays(c.core.(peerKey := true), next.value, Hellos(co)); }
  }

  lemma ClientStatusTelling(cfg: C.Config, co: Course, c: C.Client, next: Option<Msg>, v: Verdict) returns (co': Course)
    requires ClientTells(cfg, co, c) && c.state.ReadCertificateStatus?
    ensures var n := C.ReadCertificateStatusStep(c, next, v).0; n.wait.Failed? || ClientTells(cfg, co', n)
  {
    hide Core.Hash, ToCertificate;
    co' := co;
    Unsaid(ToCertificate(co));
    if next.Some? {
      HashSays(c.core, next.value, ToCertificate(co));
      if C.ReadCertificateStatusStep(c, next, v).1 {
        co' := co.(stapled := true);
        Earlier(co, None);
      }
    }
  }

  lemma ClientVerifyTelling(cfg: C.Config, co: Course, c: C.Client, v: Verdict)
    requires ClientTells(cfg, co, c) && c.state.VerifyServerCertificate?
    ensures var n := C.VerifyServerCertificateStep(c, v).0; n.wait.Failed? || ClientTells(cfg, co, n)
  {
    hide ToStatus;
  }

  lemma ClientExchangeTelling(cfg: C.Config, co: Course, c: C.Client, next: Option<Msg>, v: Verdict) returns (co': Course)
    requires ClientTells(cfg, co, c) && c.state.ReadServerKeyExchange?
    ensures var n := C.ReadServerKeyExchangeStep(c, next, v).0; n.wait.Failed? || ClientTells(cfg, co', n)
  {
    hide Core.Hash, ToStatus;
    co' := co;
    Unsaid(ToStatus(co));
    if next.Some? {
      HashSays(c.core, next.value, ToStatus(co));
      if C.ReadServerKeyExchangeStep(c, next, v).1 {
        co' := co.(exchange := true);
        Earlier(co, None);
      }
    }
  }

  /** A client that goes on without a CertificateRequest. */
  lemma ClientUnasked(cfg: C.Config, co: Course, c: C.Client, n: C.Client)
    requires ClientTells(cfg, co, c) && c.state.ReadCertificateRequest? && n.state.ReadServerHelloDone?
    requires n.core.hash == c.core.hash && Alike(c.core, n.core)
    ensures ClientTells(cfg, co, n)
  {
    hide ToKeyExchange;
    Unsaid(ToKeyExchange(co));
  }

  lemma ClientAsked(cfg: C.Config, co: Course, c: C.Client, k: Core, n: C.Client)
    requires ClientTells(cfg, co, c) && c.state.ReadCertificateRequest? && n.state.ReadServerHelloDone? && c.core.cipher.certAuth
    requires k.certRequest && Alike(c.core.(certRequest := true), k)
    requires n.core.hash == Some(c.core.hash.value + [CertificateRequest]) && Alike(k, n.core)
    ensures ClientTells(cfg, co.(request := true), n)
  {
    hide ToKeyExchange;
    Earlier(co, None);
  }

  lemma ClientRequestTelling(cfg: C.Config, co: Course, c: C.Client, next: Option<Msg>, v: Verdict) returns (co': Course)
    requires ClientTells(cfg, co, c) && c.state.ReadCertificateRequest?
    ensures var n := C.ReadCertificateRequestStep(c, next, v).0; n.wait.Failed? || ClientTells(cfg, co', n)
  {
    hide C.ReadCertificateRequestStep, ToKeyExchange, ClientMet;
    co' := co;
    var (n, used) := C.ReadCertificateRequestStep(c, next, v);
    RequestSays(c, next, v, ToKeyExchange(co));
    if used {
      co' := co.(request := true);
      ClientAsked(cfg, co, c, c.core.(certRequest := true), n);
    } else if n.state.ReadServerHelloDone? {
      ClientUnasked(cfg, co, c, n);
    } else if !n.wait.Failed? {
      ClientStays(cfg, co, c, n);
    }
  }

  lemma ClientStays(cfg: C.Config, co: Course, c: C.Client, n: C.Client)
    requires ClientTells(cfg, co, c) && n.state == c.state && n.core == c.core
    ensures ClientTells(cfg, co, n)
  {}

  lemma RequestSays(c: C.Client, next: Option<Msg>, v: Verdict, t: seq<Msg>)
    requires c.core.hash == Some(t) && c.state.ReadCertificateRequest?
    ensures var (n, used) := C.ReadCertificateRequestStep(c, next, v);
            if used then
              n.state.ReadServerHelloDone? && c.core.cipher.certAuth && n.core.hash == Some(t + [CertificateRequest])
              && Alike(c.core.(certRequest := true), n.core)
            else if n.state.ReadServerHelloDone? then n.core.hash == c.core.hash && Alike(c.core, n.core)
            else n.state == c.state && n.core == c.core
  {
    hide Core.Hash, Core.FreeBuffer, Alike;
    FreeSays(c.core);
    if next.Some? && next.value.CertificateRequest? {
      HashSays(c.core.(certRequest := true), next.value, t);
    }
  }

  lemma FreeSays(k: Core)
    ensures k.FreeBuffer().hash == k.hash && Alike(k, k.FreeBuffer()) && Alike(k, k)
  {}

  lemma ClientDoneTelling(cfg: C.Config, co: Course, c: C.Client, next: Option<Msg>, v: Verdict)
    requires ClientTells(cfg, co, c) && c.state.ReadServerHelloDone?
    ensures var n := C.ReadServerHelloDoneStep(c, next, v).0; n.wait.Failed? || ClientTells(cfg, co, n)
  {
    hide Core.Hash, ToRequest;
    if next.Some? { HashSays(c.core, next.value, ToRequest(co)); }
  }

  lemma ClientAnswersTelling(cfg: C.Config, co: Course, c: C.Client, v: Verdict)
    requires ClientTells(cfg, co, c) && c.state.SendClientCertificate?
    ensures var n := C.SendClientCertificateStep(cfg, c, v).0; n.wait.Failed? || ClientTells(cfg, co, n)
  {
    hide Core.Hash, Core.Add, ToHelloDone;
    Unsaid(ToHelloDone(co));
    HashSays(c.core, Certificate(cfg.hasCertificate), ToHelloDone(co));
    HashSays(c.core.FreeBuffer(), Certificate(cfg.hasCertificate), ToHelloDone(co));
  }

  lemma ClientKeyTelling(cfg: C.Config, co: Course, c: C.Client, v: Verdict)
    requires ClientTells(cfg, co, c) && c.state.SendClientKeyExchange?
    ensures var n := C.SendClientKeyExchangeStep(c, v).0; n.wait.Failed? || ClientTells(cfg, co, n)
  {
    hide Core.Hash, Core.Add, ToAnswer;
    HashSays(c.core, ClientKeyExchange, ToAnswer(co));
  }

  /** The CertificateVerify is over the whole transcript before it: the buffer has been kept for it. */
  lemma ClientProvesTelling(cfg: C.Config, co: Course, c: C.Client, v: Verdict)
    requires ClientTells(cfg, co, c) && c.state.SendCertificateVerify?
    requires c.core.certRequest && cfg.hasCertificate ==> c.core.buffer == c.core.hash
    ensures var n := C.SendCertificateVerifyStep(cfg, c, v).0; n.wait.Failed? || ClientTells(cfg, co, n)
  {
    hide Core.Hash, Core.Add, Core.NoteRead, ToClientKey;
    Unsaid(ToClientKey(co));
    NoteSays(c.core);
    HashSays(c.core.NoteRead(), CertificateVerify(c.core.Buffer()), ToClientKey(co));
  }

  lemma NoteSays(k: Core)
    ensures k.NoteRead().hash == k.hash && Alike(k, k.NoteRead())
  {}

  /** The names that were negotiated, said after a transcript. */
  lemma NamesSaid(k: Core, co: Course, t: seq<Msg>)
    requires HasHello(co) && k.hash == Some(t) && k.npn == co.hello.npn && k.channelId == co.hello.channelId
    ensures var proto := if k.npn then k.Add(NextProto) else k;
            var id := if proto.channelId then proto.Add(ChannelId) else proto;
            id.hash == Some(t + Names(co)) && Alike(k, id)
  {
    hide Core.Hash, Core.Add;
    var u := t + If(k.npn, NextProto);
    var proto := if k.npn then k.Add(NextProto) else k;
    Unsaid(t);
    Unsaid(u);
    HashSays(k, NextProto, t);
    HashSays(proto, ChannelId, u);
    assert u + If(k.channelId, ChannelId) == t + Names(co);
  }

  lemma FinishedSaid(k: Core, t: seq<Msg>, server: bool)
    requires k.hash == Some(t)
    ensures var n := k.SendFinished(server);
            n.hash == Some(t + [Finished(server, t)]) && Alike(k, n)
  {
    HashSays(k, Finished(server, t), t);
  }

  /** The client's last flight: the names that were negotiated, and its Finished over all before it. */
  lemma ClientFinishesTelling(cfg: C.Config, co: Course, c: C.Client, v: Verdict)
    requires ClientTells(cfg, co, c) && c.state.SendClientFinished?
    ensures var n := C.SendClientFinishedStep(c, v).0; n.wait.Failed? || ClientTells(cfg, co, n)
  {
    hide ToVerify, ToServerFinished, Core.Hash, Core.Add, Core.SendFinished, Names;
    var t := ClientSaid(co, c.state);
    var k := c.core.AddChangeCipherSpec().ChangeWriteKeys();
    NamesSaid(k, co, t);
    var proto := if k.npn then k.Add(NextProto) else k;
    var id := if proto.channelId then proto.Add(ChannelId) else proto;
    FinishedSaid(id, t + Names(co), false);
  }

  /** What is said before a message does not depend on whether it comes. */
  lemma Earlier(co: Course, ticket: Option<bool>)
    requires HasHello(co)
    ensures ToCertificate(co.(stapled := true)) == ToCertificate(co) && Hellos(co.(ticket := ticket)) == Hellos(co)
    ensures ToStatus(co.(exchange := true)) == ToStatus(co) && ToKeyExchange(co.(request := true)) == ToKeyExchange(co)
    ensures ToClientFinished(co.(ticket := ticket)) == ToClientFinished(co)
  {}

  lemma ClientFlightTelling(cfg: C.Config, co: Course, c: C.Client, v: Verdict)
    requires ClientTells(cfg, co, c) && c.state.FinishFlight?
    ensures var n := C.FinishFlightStep(cfg, c, v).0; n.wait.Failed? || ClientTells(cfg, co, n)
  {
    hide Resumed, ToClientFinished;
  }

  lemma ClientChangesTelling(cfg: C.Config, co: Course, c: C.Client, v: Verdict)
    requires ClientTells(cfg, co, c) && (c.state.ProcessChangeCipherSpec? || c.state.FinishHandshake?)
    ensures c.state.ProcessChangeCipherSpec? ==> var n := C.ProcessChangeCipherSpecStep(c, v).0; n.wait.Failed? || ClientTells(cfg, co, n)
    ensures c.state.FinishHandshake? ==> var n := C.FinishHandshakeStep(c, v).0; n.wait.Failed? || ClientTells(cfg, co, n)
  {
    hide Renewed, ToTicket, Whole;
  }

  lemma ClientUnticketed(cfg: C.Config, co: Course, c: C.Client, n: C.Client)
    requires ClientTells(cfg, co, c) && c.state.ReadSessionTicket? && n.state.ProcessChangeCipherSpec? && n.core == c.core && !c.core.ticketExpected
    ensures ClientTells(cfg, co, n)
  {
    hide Hellos, ToClientFinished;
    Unsaid(ClientSaid(co, c.state));
  }

  lemma ClientTicketed(cfg: C.Config, co: Course, c: C.Client, empty: bool, n: C.Client)
    requires ClientTells(cfg, co, c) && c.state.ReadSessionTicket? && n.state.ProcessChangeCipherSpec? && c.core.ticketExpected
    requires n.core.hash == Some(c.core.hash.value + [NewSessionTicket(empty)]) && Alike(c.core.(ticketExpected := !empty), n.core)
    ensures ClientTells(cfg, co.(ticket := Some(empty)), n)
  {
    hide Hellos, ToClientFinished;
    Earlier(co, Some(empty));
  }

  lemma ClientTicketTelling(cfg: C.Config, co: Course, c: C.Client, next: Option<Msg>, v: Verdict) returns (co': Course)
    requires ClientTells(cfg, co, c) && c.state.ReadSessionTicket?
    ensures var n := C.ReadSessionTicketStep(c, next, v).0; n.wait.Failed? || ClientTells(cfg, co', n)
  {
    hide Core.Hash, ClientSaid, ClientMet;
    co' := co;
    var (n, used) := C.ReadSessionTicketStep(c, next, v);
    if used {
      HashSays(c.core.(ticketExpected := !next.value.empty), next.value, ClientSaid(co, c.state));
      co' := co.(ticket := Some(next.value.empty));
      ClientTicketed(cfg, co, c, next.value.empty, n);
    } else if n.state.ProcessChangeCipherSpec? {
      ClientUnticketed(cfg, co, c, n);
    }
  }

  lemma ClientEndsTelling(cfg: C.Config, co: Course, c: C.Client, next: Option<Msg>)
    requires ClientTells(cfg, co, c) && c.state.ReadServerFinished?
    ensures var n := C.ReadServerFinishedStep(c, next).0; n.wait.Failed? || ClientTells(cfg, co, n)
  {
    hide Core.Hash, Renewed, ToTicket;
    if next.Some? {
      var t := ClientSaid(co, c.state);
      HashSays(c.core.(log := c.core.log + [GotFinished(next.value, t)]), next.value, t);
    }
  }

  lemma ClientDoTelling(cfg: C.Config, co: Course, c: C.Client, next: Option<Msg>, v: Verdict) returns (co': Course)
    requires ClientTells(cfg, co, c) && ClientOk(cfg, c) && !c.wait.Failed?
    ensures var n := C.Do(cfg, c, next, v).0; n.wait.Failed? || ClientTells(cfg, co', n)
  {
    hide ClientTells, ClientLog, BufferIsTranscript, C.StartConnectStep, C.EnterEarlyDataStep, C.ReadServerHelloStep, C.ReadServerCertificateStep,
      C.ReadCertificateStatusStep, C.VerifyServerCertificateStep, C.ReadServerKeyExchangeStep, C.ReadCertificateRequestStep,
      C.ReadServerHelloDoneStep, C.SendClientCertificateStep, C.SendClientKeyExchangeStep, C.SendCertificateVerifyStep,
      C.SendClientFinishedStep, C.FinishFlightStep, C.ReadSessionTicketStep, C.ProcessChangeCipherSpecStep,
      C.ReadServerFinishedStep, C.FinishHandshakeStep;
    co' := co;
    match c.state
    case StartConnect | EnterEarlyData => ClientOpensTelling(cfg, co, c, v);
    case ReadServerHello => co' := ClientHelloTelling(cfg, co, c, next, v);
    case ReadServerCertificate => ClientCertificateTelling(cfg, co, c, next, v);
    case ReadCertificateStatus => co' := ClientStatusTelling(cfg, co, c, next, v);
    case VerifyServerCertificate => ClientVerifyTelling(cfg, co, c, v);
    case ReadServerKeyExchange => co' := ClientExchangeTelling(cfg, co, c, next, v);
    case ReadCertificateRequest => co' := ClientRequestTelling(cfg, co, c, next, v);
    case ReadServerHelloDone => ClientDoneTelling(cfg, co, c, next, v);
    case SendClientCertificate => ClientAnswersTelling(cfg, co, c, v);
    case SendClientKeyExchange => ClientKeyTelling(cfg, co, c, v);
    case SendCertificateVerify =>
      if c.core.certRequest && cfg.hasCertificate { ClientHoldsBuffer(cfg, c); }
      ClientProvesTelling(cfg, co, c, v);
    case SendClientFinished => ClientFinishesTelling(cfg, co, c, v);
    case FinishFlight => ClientFlightTelling(cfg, co, c, v);
    case ProcessChangeCipherSpec | FinishHandshake => ClientChangesTelling(cfg, co, c, v);
    case ReadSessionTicket => co' := ClientTicketTelling(cfg, co, c, next, v);
    case ReadServerFinished => ClientEndsTelling(cfg, co, c, next);
    case Done =>
  }

  lemma ClientHoldsBuffer(cfg: C.Config, c: C.Client)
    requires ClientOk(cfg, c) && !c.wait.Failed? && c.state.SendCertificateVerify? && c.core.certRequest && cfg.hasCertificate
    ensures c.core.buffer == c.core.hash
  {
    hide ClientLog;
  }

  lemma ClientSentPending(cfg: C.Config, co: Course, c: C.Client)
    requires ClientTells(cfg, co, c) && ClientOk(cfg, c)
    ensures ClientTells(cfg, co, c.(core := c.core.(pending := []))) && ClientOk(cfg, c.(core := c.core.(pending := [])))
  {
    hide ClientSaid;
  }

  lemma ClientTurnTelling(cfg: C.Config, co: Course, c: C.Client, front: Option<Item>, v: Verdict) returns (co': Course)
    requires ClientTells(cfg, co, c) && ClientOk(cfg, c) && !c.wait.Failed?
    ensures var n := C.Turn(cfg, c, front, v).0; n.wait.Failed? || ClientTells(cfg, co', n)
  {
    hide C.Do, ClientTells, ClientOk;
    co' := co;
    match c.wait
    case Flush =>
      ClientSentPending(cfg, co, c);
      co' := ClientDoTelling(cfg, co, c.(core := c.core.(pending := [])), Peek(c.core, front), v);
    case ReadMessage =>
      if Peek(c.core, front).Some? { co' := ClientDoTelling(cfg, co, c, Peek(c.core, front), v); }
    case ReadCcs =>
      if front == Some(ChangeCipherSpec(c.core.readEpoch)) { co' := ClientDoTelling(cfg, co, c, None, v); }
    case _ =>
      co' := ClientDoTelling(cfg, co, c, Peek(c.core, front), v);
  }

  lemma {:induction false} ClientRunTelling(cfg: C.Config, inputs: seq<Input>) returns (co: Course)
    requires !RunClient(cfg, C.START, inputs).wait.Failed?
    ensures ClientTells(cfg, co, RunClient(cfg, C.START, inputs))
    decreases |inputs|
  {
    if inputs == [] {
      co := UNKNOWN;
    } else {
      hide C.Turn, ClientTells, ClientOk;
      var n := |inputs| - 1;
      var before, last := inputs[..n], inputs[n];
      var c := RunClient(cfg, C.START, before);
      assert inputs == before + [last];
      ClientRunNext(cfg, C.START, before, last);
      ClientFailureLasts(cfg, c, last);
      ClientStartsOk(cfg);
      ClientRunOk(cfg, C.START, before);
      co := ClientRunTelling(cfg, before);
      co := ClientTurnTelling(cfg, co, c, last.front, last.v);
    }
  }

  lemma ClientStartsOk(cfg: C.Config)
    ensures ClientOk(cfg, C.START) && !C.START.core.readReleased
  {}

  /**
   * Whatever the server sends, the transcript of a client that completes is that of a full handshake or
   * a resumption, with no message missing, repeated or out of order. A ServerKeyExchange is there if the
   * cipher needs one and not if it cannot have one, certificates are requested only under a certificate
   * cipher, a ticket is there exactly when it was announced, and both Finished and a CertificateVerify
   * are over all that came before.
   */
  lemma ClientTranscript(cfg: C.Config, inputs: seq<Input>) returns (co: Course)
    requires RunClient(cfg, C.START, inputs).state.Done? && !RunClient(cfg, C.START, inputs).wait.Failed?
    ensures co.hello.ServerHello? && RunClient(cfg, C.START, inputs).core.hash == Some(Whole(co))
    ensures co.resumed == (co.hello.resumed && cfg.hasSession) && co.certified == cfg.hasCertificate && co.hello.ticket == co.ticket.Some?
    ensures !co.resumed ==>
              && (co.hello.cipher.ecdhe ==> co.exchange) && (co.exchange ==> co.hello.cipher.ecdhe || !co.hello.cipher.certAuth)
              && (co.request ==> co.hello.cipher.certAuth) && (co.stapled ==> co.hello.status)
  {
    hide RunClient, Whole;
    co := ClientRunTelling(cfg, inputs);
  }

  // ---- The server.

  /** What the server's configuration leads to; a client that is asked for a certificate may have none. */
  function CourseOf(cfg: S.Config, present: bool): Course {
    Course(ServerHello(cfg.resume, cfg.cipher, cfg.ticket, cfg.status, cfg.npn, cfg.UsesChannelId()), cfg.resume,
           cfg.cipher.certAuth && cfg.status, cfg.SendsKeyExchange(), cfg.Requests(), present, if cfg.ticket then Some(false) else None)
  }

  /** What the server has in its transcript in each state. */
  function ServerSaid(co: Course, state: S.State): seq<Msg>
    requires HasHello(co)
  {
    match state
    case StartAccept | ReadClientHello | SelectCertificate | SelectParameters => []
    case SendServerHello => [ClientHello]
    case SendServerCertificate => Hellos(co)
    case SendServerKeyExchange => ToStatus(co)
    case SendServerHelloDone => ToKeyExchange(co)
    case ReadClientCertificate => ToHelloDone(co)
    case VerifyClientCertificate | ReadClientKeyExchange => ToAnswer(co)
    case ReadCertificateVerify => ToClientKey(co)
    case ReadChangeCipherSpec | ProcessChangeCipherSpec | ReadNextProto => if co.resumed then ToServerFinished(co) else ToVerify(co)
    case ReadChannelId => (if co.resumed then ToServerFinished(co) else ToVerify(co)) + If(co.hello.npn, NextProto)
    case ReadClientFinished => if co.resumed then ToLateNames(co) else ToNames(co)
    case SendServerFinished => if co.resumed then Hellos(co) else ToClientFinished(co)
    case FinishHandshake | Done => Whole(co)
  }

  predicate ServerBefore(state: S.State) {
    state.StartAccept? || state.ReadClientHello? || state.SelectCertificate? || state.SelectParameters?
  }

  /** The decisions taken by the time of each state. */
  predicate ServerMet(cfg: S.Config, present: bool, k: Core, state: S.State) {
    && (state.StartAccept? || state.ReadClientHello? || (k.npn == cfg.npn && k.statusExpected == cfg.status))
    && (state.SelectCertificate? || state.SelectParameters? || state.SendServerHello? ==> k.channelId == cfg.channelIdOffered)
    && (state.StartAccept? || state.ReadClientHello? || state.SelectCertificate? || k.cipher == cfg.cipher)
    && (!ServerBefore(state) ==> k.resumed == cfg.resume && k.ticketExpected == cfg.ticket && k.certRequest == cfg.Requests())
    && (!ServerBefore(state) && !state.SendServerHello? ==> k.channelId == cfg.UsesChannelId())
    && (state.SendServerKeyExchange? ==> k.serverParams == cfg.SendsKeyExchange())
    && (if ServerEarly(state) then !k.peerKey else k.peerKey == (cfg.Requests() && present))
    && (!ServerEarly(state) && cfg.Requests() && cfg.failIfNoCertificate ==> present)
  }

  /** The server has told the transcript of its state. */
  predicate ServerTells(cfg: S.Config, present: bool, s: S.Server) {
    && ServerMet(cfg, present, s.core, s.state)
    && if ServerBefore(s.state) then s.core.hash.None? && s.core.buffer == Some([])
       else s.core.hash == Some(ServerSaid(CourseOf(cfg, present), s.state)) && (s.state.SendServerFinished? || !s.core.resumed || ServerResumes(s.state))
  }

  /** Past the reading of the client's certificate nothing more is decided. */
  lemma LateMet(cfg: S.Config, present: bool, k: Core, state: S.State, n: Core, state': S.State)
    requires ServerMet(cfg, present, k, state) && !ServerEarly(state) && !ServerEarly(state') && Alike(k, n)
    ensures ServerMet(cfg, present, n, state')
    ensures k.resumed == cfg.resume && k.ticketExpected == cfg.ticket && k.npn == cfg.npn && k.channelId == cfg.UsesChannelId()
    ensures k.peerKey == (cfg.Requests() && present)
  {}

  /** A server that is past that point lands in a state with the transcript of that state. */
  lemma ServerLands(cfg: S.Config, present: bool, s: S.Server, n: S.Server)
    requires ServerTells(cfg, present, s) && !ServerEarly(s.state) && !ServerEarly(n.state) && Alike(s.core, n.core)
    requires n.core.hash == Some(ServerSaid(CourseOf(cfg, present), n.state))
    requires n.state.SendServerFinished? || !s.core.resumed || ServerResumes(n.state)
    ensures ServerTells(cfg, present, n)
  {
    hide ServerMet, ServerSaid, ServerResumes;
    LateMet(cfg, present, s.core, s.state, n.core, n.state);
  }

  lemma ServerOpensTelling(cfg: S.Config, present: bool, s: S.Server, next: Option<Msg>, v: Verdict)
    requires ServerTells(cfg, present, s)
    ensures s.state.StartAccept? ==> ServerTells(cfg, present, S.StartAcceptStep(s).0)
    ensures s.state.ReadClientHello? ==> var n := S.ReadClientHelloStep(cfg, s, next, v).0; n.wait.Failed? || ServerTells(cfg, present, n)
    ensures s.state.SelectCertificate? ==> var n := S.SelectCertificateStep(cfg, s, next, v).0; n.wait.Failed? || ServerTells(cfg, present, n)
  {}

  lemma ServerParametersTelling(cfg: S.Config, present: bool, s: S.Server, next: Option<Msg>, v: Verdict)
    requires ServerTells(cfg, present, s) && s.state.SelectParameters? && (next.Some? ==> next.value.ClientHello?)
    ensures var n := S.SelectParametersStep(cfg, s, next, v).0; n.wait.Failed? || ServerTells(cfg, present, n)
  {
    hide Core.Hash, Core.InitHash;
    if next.Some? {
      var k := s.core.(resumed := cfg.resume, ticketExpected := cfg.ticket, certRequest := cfg.Requests());
      InitSays(k);
      HashSays(k.InitHash(), ClientHello, []);
      assert [] + [ClientHello] == [ClientHello];
    }
  }

  lemma ServerHelloTelling(cfg: S.Config, present: bool, s: S.Server, v: Verdict)
    requires ServerTells(cfg, present, s) && s.state.SendServerHello?
    ensures var n := S.SendServerHelloStep(cfg, s, v).0; n.wait.Failed? || ServerTells(cfg, present, n)
  {
    hide Core.Hash, Core.Add;
    if v == Accept {
      var kept := s.core.(channelId := S.KeepsChannelId(cfg, s.core));
      HashSays(kept, S.HelloOf(kept), [ClientHello]);
      HelloSaid(cfg, present, kept);
    }
  }

  lemma HelloSaid(cfg: S.Config, present: bool, k: Core)
    requires k.resumed == cfg.resume && k.cipher == cfg.cipher && k.ticketExpected == cfg.ticket && k.statusExpected == cfg.status
    requires k.npn == cfg.npn && k.channelId == cfg.UsesChannelId()
    ensures [ClientHello] + [S.HelloOf(k)] == Hellos(CourseOf(cfg, present))
  {}

  lemma ServerCertificateTelling(cfg: S.Config, present: bool, s: S.Server, v: Verdict)
    requires ServerTells(cfg, present, s) && s.state.SendServerCertificate?
    ensures var n := S.SendServerCertificateStep(cfg, s, v).0; n.wait.Failed? || ServerTells(cfg, present, n)
  {
    hide S.SendServerCertificateStep, Hellos;
    if v == Accept {
      var t := Hellos(CourseOf(cfg, present));
      ServerCertificateSays(cfg, s, t);
      Unsaid(t);
      Unsaid(t + [Certificate(true)]);
    } else {
      ServerCertificateRefused(cfg, s, v);
    }
  }

  lemma ServerCertificateRefused(cfg: S.Config, s: S.Server, v: Verdict)
    requires v != Accept
    ensures S.SendServerCertificateStep(cfg, s, v).0.wait.Failed?
  {}

  lemma ServerCertificateSays(cfg: S.Config, s: S.Server, t: seq<Msg>)
    requires s.core.hash == Some(t)
    ensures var n := S.SendServerCertificateStep(cfg, s, Accept).0;
            && n.state.SendServerKeyExchange? && Alike(s.core, n.core)
            && n.core.serverParams == (s.core.cipher.ecdhe || (!s.core.cipher.certAuth && cfg.pskHint))
            && n.core.hash == Some(if !s.core.cipher.certAuth then t else if s.core.statusExpected then t + [Certificate(true)] + [CertificateStatus] else t + [Certificate(true)])
  {
    hide Core.Hash, Core.Add;
    if s.core.cipher.certAuth {
      HashSays(s.core, Certificate(true), t);
      HashSays(s.core.Add(Certificate(true)), CertificateStatus, t + [Certificate(true)]);
    }
  }

  lemma ServerExchangeTelling(cfg: S.Config, present: bool, s: S.Server, v: Verdict)
    requires ServerTells(cfg, present, s) && s.state.SendServerKeyExchange?
    ensures var n := S.SendServerKeyExchangeStep(s, v).0; n.wait.Failed? || ServerTells(cfg, present, n)
  {
    hide Core.Hash, Core.Add, ToStatus;
    var t := ToStatus(CourseOf(cfg, present));
    Unsaid(t);
    HashSays(s.core.(serverParams := false), ServerKeyExchange, t);
  }

  lemma ServerDoneTelling(cfg: S.Config, present: bool, s: S.Server, v: Verdict)
    requires ServerTells(cfg, present, s) && s.state.SendServerHelloDone?
    ensures var n := S.SendServerHelloDoneStep(s, v).0; n.wait.Failed? || ServerTells(cfg, present, n)
  {
    hide Core.Hash, Core.Add, ToKeyExchange;
    var k := s.core;
    var t := ToKeyExchange(CourseOf(cfg, present));
    Unsaid(t);
    HashSays(k, CertificateRequest, t);
    HashSays(k, ServerHelloDone, t);
    HashSays(k.Add(CertificateRequest), ServerHelloDone, t + [CertificateRequest]);
  }

  /** What the server says before a certificate of the client does not depend on it. */
  lemma EarlierCertificate(cfg: S.Config, present: bool, present': bool)
    ensures ToHelloDone(CourseOf(cfg, present)) == ToHelloDone(CourseOf(cfg, present'))
  {}

  lemma ServerAnswerTelling(cfg: S.Config, present: bool, s: S.Server, next: Option<Msg>, v: Verdict) returns (present': bool)
    requires ServerTells(cfg, present, s) && s.state.ReadClientCertificate?
    ensures var n := S.ReadClientCertificateStep(cfg, s, next, v).0; n.wait.Failed? || ServerTells(cfg, present', n)
  {
    hide S.ReadClientCertificateStep, ToHelloDone;
    present' := present;
    var t := ToHelloDone(CourseOf(cfg, present));
    Unsaid(t);
    AnswerSays(cfg, s, next, v, t);
    if S.ReadClientCertificateStep(cfg, s, next, v).1 {
      present' := next.value.present;
      EarlierCertificate(cfg, present, present');
    }
  }

  lemma AnswerSays(cfg: S.Config, s: S.Server, next: Option<Msg>, v: Verdict, t: seq<Msg>)
    requires s.core.hash == Some(t) && s.state.ReadClientCertificate?
    ensures var (n, used) := S.ReadClientCertificateStep(cfg, s, next, v);
            if used then
              && n.state.VerifyClientCertificate? && s.core.certRequest && next.Some? && next.value.Certificate?
              && (cfg.failIfNoCertificate ==> next.value.present)
              && n.core.hash == Some(t + [next.value]) && Alike(s.core.(peerKey := next.value.present), n.core)
            else if n.state.VerifyClientCertificate? then !s.core.certRequest && n.core == s.core
            else n.state == s.state && n.core == s.core
  {
    hide Core.Hash;
    if next.Some? && next.value.Certificate? {
      HashSays(s.core.(peerKey := next.value.present), next.value, t);
    }
  }

  lemma ServerKeyTelling(cfg: S.Config, present: bool, s: S.Server, next: Option<Msg>, v: Verdict)
    requires ServerTells(cfg, present, s)
    ensures s.state.VerifyClientCertificate? ==> var n := S.VerifyClientCertificateStep(s, v).0; n.wait.Failed? || ServerTells(cfg, present, n)
    ensures s.state.ReadClientKeyExchange? ==> var n := S.ReadClientKeyExchangeStep(s, next, v).0; n.wait.Failed? || ServerTells(cfg, present, n)
  {
    hide Core.Hash, ToAnswer;
    if next.Some? && s.state.ReadClientKeyExchange? { HashSays(s.core, next.value, ToAnswer(CourseOf(cfg, present))); }
  }

  lemma ServerVerifyTelling(cfg: S.Config, present: bool, s: S.Server, next: Option<Msg>, v: Verdict)
    requires ServerTells(cfg, present, s) && s.state.ReadCertificateVerify? && (s.core.peerKey ==> s.core.buffer == s.core.hash)
    ensures var n := S.ReadCertificateVerifyStep(s, next, v).0; n.wait.Failed? || ServerTells(cfg, present, n)
  {
    hide Core.Hash, Core.NoteRead, Core.Transcript, ToClientKey, ServerMet, CourseOf;
    CourseFacts(cfg, present);
    var t := ToClientKey(CourseOf(cfg, present));
    Unsaid(t);
    NoteSays(s.core);
    LateMet(cfg, present, s.core, s.state, s.core, s.state);
    var n := S.ReadCertificateVerifyStep(s, next, v).0;
    if n.state.ReadChangeCipherSpec? {
      if s.core.peerKey {
        var checked := s.core.NoteRead();
        var noted := checked.(log := checked.log + [VerifiedClientKey(next.value, s.core.Transcript())]);
        HashSays(noted.FreeBuffer(), next.value, t);
      }
      ServerLands(cfg, present, s, n);
    }
  }

  lemma CourseFacts(cfg: S.Config, present: bool)
    ensures var co := CourseOf(cfg, present);
            && HasHello(co) && co.resumed == cfg.resume && co.request == cfg.Requests() && co.certified == present
            && (cfg.Requests() ==> !cfg.resume) && Ticket(co) == (if cfg.ticket then [NewSessionTicket(false)] else [])
  {}

  lemma ServerChangesTelling(cfg: S.Config, present: bool, s: S.Server, v: Verdict)
    requires ServerTells(cfg, present, s) && (s.state.ReadChangeCipherSpec? || s.state.ProcessChangeCipherSpec? || s.state.FinishHandshake?)
    ensures s.state.ReadChangeCipherSpec? ==> ServerTells(cfg, present, S.ReadChangeCipherSpecStep(s).0)
    ensures s.state.ProcessChangeCipherSpec? ==> var n := S.ProcessChangeCipherSpecStep(s, v).0; n.wait.Failed? || ServerTells(cfg, present, n)
    ensures s.state.FinishHandshake? ==> ServerTells(cfg, present, S.FinishHandshakeStep(s).0)
  {
    hide ToServerFinished, ToVerify, Whole, ServerMet;
    match s.state
    case ReadChangeCipherSpec => ServerLands(cfg, present, s, S.ReadChangeCipherSpecStep(s).0);
    case ProcessChangeCipherSpec =>
      if v == Accept { ServerLands(cfg, present, s, S.ProcessChangeCipherSpecStep(s, v).0); }
    case FinishHandshake => ServerLands(cfg, present, s, S.FinishHandshakeStep(s).0);
  }

  lemma ServerProtoTelling(cfg: S.Config, present: bool, s: S.Server, next: Option<Msg>, v: Verdict)
    requires ServerTells(cfg, present, s) && s.state.ReadNextProto?
    ensures var n := S.ReadNextProtoStep(s, next, v).0; n.wait.Failed? || ServerTells(cfg, present, n)
  {
    hide Core.Hash, ToServerFinished, ToVerify, ServerMet;
    var t := ServerSaid(CourseOf(cfg, present), s.state);
    Unsaid(t);
    LateMet(cfg, present, s.core, s.state, s.core, s.state);
    var n := S.ReadNextProtoStep(s, next, v).0;
    if n.state.ReadChannelId? {
      if next.Some? { HashSays(s.core, next.value, t); }
      ServerLands(cfg, present, s, n);
    }
  }

  lemma ServerIdTelling(cfg: S.Config, present: bool, s: S.Server, next: Option<Msg>, v: Verdict)
    requires ServerTells(cfg, present, s) && s.state.ReadChannelId?
    ensures var n := S.ReadChannelIdStep(s, next, v).0; n.wait.Failed? || ServerTells(cfg, present, n)
  {
    hide Core.Hash, ToServerFinished, ToVerify, ServerMet;
    var co := CourseOf(cfg, present);
    var t := ServerSaid(co, s.state);
    NamesFollow(co, if co.resumed then ToServerFinished(co) else ToVerify(co));
    LateMet(cfg, present, s.core, s.state, s.core, s.state);
    var n := S.ReadChannelIdStep(s, next, v).0;
    if n.state.ReadClientFinished? {
      if next.Some? { HashSays(s.core, next.value, t); }
      ServerLands(cfg, present, s, n);
    }
  }

  lemma NamesFollow(co: Course, base: seq<Msg>)
    requires HasHello(co)
    ensures (base + If(co.hello.npn, NextProto)) + If(co.hello.channelId, ChannelId) == base + Names(co)
    ensures (base + If(co.hello.npn, NextProto)) + [] == base + If(co.hello.npn, NextProto)
  {}

  lemma ServerGotTelling(cfg: S.Config, present: bool, s: S.Server, next: Option<Msg>, v: Verdict)
    requires ServerTells(cfg, present, s) && s.state.ReadClientFinished?
    ensures var n := S.ReadClientFinishedStep(s, next, v).0; n.wait.Failed? || ServerTells(cfg, present, n)
  {
    hide Core.GetFinished, ToLateNames, ToNames, ServerMet, CourseOf;
    var n := S.ReadClientFinishedStep(s, next, v).0;
    if n.state != s.state {
      CourseFacts(cfg, present);
      LateMet(cfg, present, s.core, s.state, s.core, s.state);
      GotSays(s.core, next.value, ServerSaid(CourseOf(cfg, present), s.state));
      ServerLands(cfg, present, s, n);
    }
  }

  lemma GotSays(k: Core, m: Msg, t: seq<Msg>)
    requires k.hash == Some(t)
    ensures k.GetFinished(m).hash == Some(t + [m]) && Alike(k, k.GetFinished(m))
  {
    hide Core.Hash;
    HashSays(k.(log := k.log + [GotFinished(m, t)]), m, t);
  }

  /** The server's last flight: a ticket if one is due, and its Finished over all before it. */
  lemma ServerFinishesTelling(cfg: S.Config, present: bool, s: S.Server, v: Verdict)
    requires ServerTells(cfg, present, s) && s.state.SendServerFinished?
    ensures var n := S.SendServerFinishedStep(s, v).0; n.wait.Failed? || ServerTells(cfg, present, n)
  {
    hide S.SendServerFinishedStep, Hellos, ToClientFinished, ServerMet, CourseOf, Ticket;
    if v == Accept {
      CourseFacts(cfg, present);
      LateMet(cfg, present, s.core, s.state, s.core, s.state);
      ServerFlightSays(s, ServerSaid(CourseOf(cfg, present), s.state));
      ServerLands(cfg, present, s, S.SendServerFinishedStep(s, v).0);
    } else {
      ServerFlightOutcome(s, v);
    }
  }

  lemma ServerFlightSays(s: S.Server, t: seq<Msg>)
    requires s.core.hash == Some(t)
    ensures var n := S.SendServerFinishedStep(s, Accept).0;
            var u := t + (if s.core.ticketExpected then [NewSessionTicket(false)] else []);
            && n.state == (if s.core.resumed then S.ReadChangeCipherSpec else S.FinishHandshake) && Alike(s.core, n.core)
            && n.core.hash == Some(u + [Finished(true, u)])
  {
    hide Core.Hash, Core.Add, Core.SendFinished, Core.AddChangeCipherSpec, Core.ChangeWriteKeys;
    Unsaid(t);
    HashSays(s.core, NewSessionTicket(false), t);
    var ticketed := if s.core.ticketExpected then s.core.Add(NewSessionTicket(false)) else s.core;
    ChangeSays(ticketed);
    FinishedSaid(ticketed.AddChangeCipherSpec().ChangeWriteKeys(), ticketed.hash.value, true);
  }

  lemma ChangeSays(k: Core)
    ensures k.AddChangeCipherSpec().ChangeWriteKeys().hash == k.hash && Alike(k, k.AddChangeCipherSpec().ChangeWriteKeys())
  {}

  lemma ServerDoTelling(cfg: S.Config, present: bool, s: S.Server, next: Option<Msg>, v: Verdict) returns (present': bool)
    requires ServerTells(cfg, present, s) && ServerOk(s) && !s.wait.Failed?
    requires s.state.SelectParameters? && next.Some? ==> next.value.ClientHello?
    ensures var n := S.Do(cfg, s, next, v).0; n.wait.Failed? || ServerTells(cfg, present', n)
  {
    hide ServerTells, ServerLog, BufferIsTranscript, S.StartAcceptStep, S.ReadClientHelloStep, S.SelectCertificateStep, S.SelectParametersStep,
      S.SendServerHelloStep, S.SendServerCertificateStep, S.SendServerKeyExchangeStep, S.SendServerHelloDoneStep,
      S.ReadClientCertificateStep, S.VerifyClientCertificateStep, S.ReadClientKeyExchangeStep, S.ReadCertificateVerifyStep,
      S.ReadChangeCipherSpecStep, S.ProcessChangeCipherSpecStep, S.ReadNextProtoStep, S.ReadChannelIdStep,
      S.ReadClientFinishedStep, S.SendServerFinishedStep, S.FinishHandshakeStep;
    present' := present;
    match s.state
    case StartAccept | ReadClientHello | SelectCertificate => ServerOpensTelling(cfg, present, s, next, v);
    case SelectParameters => ServerParametersTelling(cfg, present, s, next, v);
    case SendServerHello => ServerHelloTelling(cfg, present, s, v);
    case SendServerCertificate => ServerCertificateTelling(cfg, present, s, v);
    case SendServerKeyExchange => ServerExchangeTelling(cfg, present, s, v);
    case SendServerHelloDone => ServerDoneTelling(cfg, present, s, v);
    case ReadClientCertificate => present' := ServerAnswerTelling(cfg, present, s, next, v);
    case VerifyClientCertificate | ReadClientKeyExchange => ServerKeyTelling(cfg, present, s, next, v);
    case ReadCertificateVerify =>
      if s.core.peerKey { ServerHoldsBuffer(s); }
      ServerVerifyTelling(cfg, present, s, next, v);
    case ReadChangeCipherSpec | ProcessChangeCipherSpec | FinishHandshake => ServerChangesTelling(cfg, present, s, v);
    case ReadNextProto => ServerProtoTelling(cfg, present, s, next, v);
    case ReadChannelId => ServerIdTelling(cfg, present, s, next, v);
    case ReadClientFinished => ServerGotTelling(cfg, present, s, next, v);
    case SendServerFinished => ServerFinishesTelling(cfg, present, s, v);
    case Done =>
  }

  lemma ServerHoldsBuffer(s: S.Server)
    requires ServerOk(s) && !s.wait.Failed? && s.state.ReadCertificateVerify? && s.core.peerKey
    ensures s.core.buffer == s.core.hash
  {
    hide ServerLog;
  }

  lemma ServerSentPending(cfg: S.Config, present: bool, s: S.Server)
    requires ServerTells(cfg, present, s) && ServerOk(s)
    ensures ServerTells(cfg, present, s.(core := s.core.(pending := []))) && ServerOk(s.(core := s.core.(pending := [])))
  {
    hide ServerSaid;
  }

  predicate Selects(state: S.State) {
    state.SelectCertificate? || state.SelectParameters?
  }

  /** While certificate and parameters are chosen, the ClientHello is at the front. */
  predicate Greeted(s: S.Server, front: Option<Item>) {
    Selects(s.state) ==> front.Some? && Peek(s.core, front) == Some(ClientHello) && !s.wait.ReadCcs?
  }

  lemma ServerTurnTelling(cfg: S.Config, present: bool, s: S.Server, front: Option<Item>, v: Verdict) returns (present': bool)
    requires ServerTells(cfg, present, s) && ServerOk(s) && !s.wait.Failed? && Greeted(s, front)
    ensures var n := S.Turn(cfg, s, front, v).0; n.wait.Failed? || ServerTells(cfg, present', n)
  {
    hide S.Do, ServerTells, ServerOk;
    present' := present;
    match s.wait
    case Flush =>
      ServerSentPending(cfg, present, s);
      present' := ServerDoTelling(cfg, present, s.(core := s.core.(pending := [])), Peek(s.core, front), v);
    case ReadMessage =>
      if Peek(s.core, front).Some? { present' := ServerDoTelling(cfg, present, s, Peek(s.core, front), v); }
    case ReadCcs =>
      if front == Some(ChangeCipherSpec(s.core.readEpoch)) { present' := ServerDoTelling(cfg, present, s, None, v); }
    case _ =>
      present' := ServerDoTelling(cfg, present, s, Peek(s.core, front), v);
  }

  lemma ServerReaches(cfg: S.Config, s: S.Server, next: Option<Msg>, v: Verdict)
    ensures var (n, used) := S.Do(cfg, s, next, v);
            n.wait.Failed? || !Selects(n.state) ||
            (!used && n.core.readEpoch == s.core.readEpoch && !n.wait.ReadCcs? &&
             (Selects(s.state) || (s.state.ReadClientHello? && next == Some(ClientHello))))
  {
    hide Core.Hash, Core.Add, Core.SendFinished, Core.GetFinished, Core.InitHash, Core.NoteRead, Core.Matches;
    match s.state
    case ReadClientHello | SelectCertificate | SelectParameters =>
    case _ => ServerMovesOn(cfg, s, next, v);
  }

  lemma ServerMovesOn(cfg: S.Config, s: S.Server, next: Option<Msg>, v: Verdict)
    requires !s.state.ReadClientHello? && !Selects(s.state)
    ensures !Selects(S.Do(cfg, s, next, v).0.state)
  {
    hide Core.Hash, Core.Add, Core.SendFinished, Core.GetFinished, Core.InitHash, Core.NoteRead, Core.Matches, Core.FreeBuffer, Core.Buffer,
      Core.AddChangeCipherSpec, Core.ChangeWriteKeys, Core.ChangeReadKeys, Core.Transcript, S.HelloOf, S.KeepsChannelId;
  }

  /** A turn that leads to such a choice has the ClientHello at the front, and leaves it there. */
  lemma ServerGreets(cfg: S.Config, s: S.Server, front: Option<Item>, v: Verdict)
    requires !s.wait.Failed? && Greeted(s, front)
    ensures var (n, used, _) := S.Turn(cfg, s, front, v); n.wait.Failed? || !Selects(n.state) || (!used && Greeted(n, front))
  {
    hide S.Do;
    ServerReaches(cfg, s, Peek(s.core, front), v);
    ServerReaches(cfg, s, None, v);
    ServerReaches(cfg, s.(core := s.core.(pending := [])), Peek(s.core, front), v);
  }

  /** What is at the front and has not been consumed is still there at the next turn. */
  ghost predicate Steady(cfg: S.Config, inputs: seq<Input>) {
    forall i :: 0 < i < |inputs| ==> Lasts(cfg, inputs, i)
  }

  ghost predicate Lasts(cfg: S.Config, inputs: seq<Input>, i: nat)
    requires 0 < i < |inputs|
  {
    inputs[i - 1].front.Some? && !S.Turn(cfg, RunServer(cfg, S.START, inputs[..i - 1]), inputs[i - 1].front, inputs[i - 1].v).1 ==>
      inputs[i].front == inputs[i - 1].front
  }

  /** At the end of a run the ClientHello is at the front, if it is still to be consumed. */
  ghost predicate EndsGreeted(cfg: S.Config, inputs: seq<Input>) {
    var s, n := RunServer(cfg, S.START, inputs), |inputs| - 1;
    !Selects(s.state) ||
    (inputs != [] && Greeted(s, inputs[n].front) && !S.Turn(cfg, RunServer(cfg, S.START, inputs[..n]), inputs[n].front, inputs[n].v).1)
  }

  lemma SteadyBefore(cfg: S.Config, inputs: seq<Input>)
    requires inputs != [] && Steady(cfg, inputs)
    ensures Steady(cfg, inputs[..|inputs| - 1])
  {
    hide S.Turn, RunServer;
    var before := inputs[..|inputs| - 1];
    forall i | 0 < i < |before|
      ensures Lasts(cfg, before, i)
    {
      assert Lasts(cfg, inputs, i) && before[..i - 1] == inputs[..i - 1];
    }
  }

  /** So it is at the front of the turn that follows. */
  lemma StaysGreeted(cfg: S.Config, inputs: seq<Input>)
    requires inputs != [] && Steady(cfg, inputs) && EndsGreeted(cfg, inputs[..|inputs| - 1])
    ensures Greeted(RunServer(cfg, S.START, inputs[..|inputs| - 1]), inputs[|inputs| - 1].front)
  {
    hide S.Turn, RunServer;
    var n := |inputs| - 1;
    if Selects(RunServer(cfg, S.START, inputs[..n]).state) {
      assert Lasts(cfg, inputs, n) && inputs[..n][..n - 1] == inputs[..n - 1];
    }
  }

  lemma {:induction false} ServerRunTelling(cfg: S.Config, inputs: seq<Input>) returns (present: bool)
    requires Steady(cfg, inputs) && !RunServer(cfg, S.START, inputs).wait.Failed?
    ensures ServerTells(cfg, present, RunServer(cfg, S.START, inputs)) && EndsGreeted(cfg, inputs)
    decreases |inputs|
  {
    if inputs == [] {
      present := false;
    } else {
      hide S.Turn, ServerTells, ServerOk, Steady, Greeted, EndsGreeted;
      var n := |inputs| - 1;
      var before, last := inputs[..n], inputs[n];
      var s := RunServer(cfg, S.START, before);
      assert inputs == before + [last];
      ServerRunNext(cfg, S.START, before, last);
      ServerFailureLasts(cfg, s, last);
      ServerStartsOk();
      ServerRunOk(cfg, S.START, before);
      SteadyBefore(cfg, inputs);
      present := ServerRunTelling(cfg, before);
      StaysGreeted(cfg, inputs);
      present := ServerTurnTelling(cfg, present, s, last.front, last.v);
      ServerGreets(cfg, s, last.front, last.v);
      GreetsLast(cfg, inputs);
    }
  }

  lemma GreetsLast(cfg: S.Config, inputs: seq<Input>)
    requires inputs != []
    requires var (n, last) := (|inputs| - 1, inputs[|inputs| - 1]);
             var (s, used, _) := S.Turn(cfg, RunServer(cfg, S.START, inputs[..n]), last.front, last.v);
             s == RunServer(cfg, S.START, inputs) && (!Selects(s.state) || (!used && Greeted(s, last.front)))
    ensures EndsGreeted(cfg, inputs)
  {
    hide S.Turn, RunServer, Greeted;
  }

  lemma ServerStartsOk()
    ensures ServerOk(S.START) && !S.START.core.readReleased
  {}

  lemma OfferHolds(co: Course, m: Msg)
    requires HasHello(co)
    ensures m in ToHelloDone(co) <==>
              || m == ClientHello || m == co.hello || m in If(co.hello.cipher.certAuth, Certificate(true)) || m in If(co.stapled, CertificateStatus)
              || m in If(co.exchange, ServerKeyExchange) || m in If(co.request, CertificateRequest) || m == ServerHelloDone
  {}

  lemma FullHolds(co: Course, m: Msg)
    requires HasHello(co)
    ensures m in Full(co) <==>
              || m in ToHelloDone(co) || m in If(co.request, Certificate(co.certified)) || m == ClientKeyExchange
              || m in If(co.request && co.certified, CertificateVerify(ToClientKey(co))) || m in Names(co) || m == Finished(false, ToNames(co))
              || m in Ticket(co) || m == Finished(true, ToTicket(co))
  {
    hide ToHelloDone, Names, Ticket, If;
  }

  lemma ResumedHolds(co: Course, m: Msg)
    requires HasHello(co)
    ensures m in Resumed(co) <==>
              || m == ClientHello || m == co.hello || m in Ticket(co) || m == Finished(true, Renewed(co)) || m in Names(co)
              || m == Finished(false, ToLateNames(co))
  {
    hide Names, Ticket;
  }

  lemma NamesHold(co: Course, m: Msg)
    requires HasHello(co)
    ensures m in Names(co) <==> (m == NextProto && co.hello.npn) || (m == ChannelId && co.hello.channelId)
  {}

  lemma HoldsOf(co: Course, m: Msg)
    requires HasHello(co)
    ensures m.CertificateRequest? ==> (m in Whole(co) <==> !co.resumed && co.request)
    ensures m.ServerKeyExchange? ==> (m in Whole(co) <==> !co.resumed && co.exchange)
    ensures m.CertificateStatus? ==> (m in Whole(co) <==> !co.resumed && co.stapled)
    ensures m.NextProto? ==> (m in Whole(co) <==> co.hello.npn)
    ensures m.ChannelId? ==> (m in Whole(co) <==> co.hello.channelId)
    ensures m.NewSessionTicket? ==> (m in Whole(co) <==> co.ticket == Some(m.empty))
  {
    hide Full, Resumed, ToHelloDone, Names, ToNames, ToTicket, Renewed, ToLateNames, ToClientKey;
    NamesHold(co, m);
    if co.resumed {
      ResumedHolds(co, m);
    } else {
      FullHolds(co, m);
      OfferHolds(co, m);
    }
  }

  /** Which optional messages a whole handshake holds. */
  lemma WholeHolds(co: Course)
    requires HasHello(co)
    ensures CertificateRequest in Whole(co) <==> !co.resumed && co.request
    ensures ServerKeyExchange in Whole(co) <==> !co.resumed && co.exchange
    ensures CertificateStatus in Whole(co) <==> !co.resumed && co.stapled
    ensures NextProto in Whole(co) <==> co.hello.npn
    ensures ChannelId in Whole(co) <==> co.hello.channelId
    ensures NewSessionTicket(false) in Whole(co) <==> co.ticket == Some(false)
  {
    hide Whole;
    HoldsOf(co, CertificateRequest);
    HoldsOf(co, ServerKeyExchange);
    HoldsOf(co, CertificateStatus);
    HoldsOf(co, NextProto);
    HoldsOf(co, ChannelId);
    HoldsOf(co, NewSessionTicket(false));
  }

  /**
   * Whatever the client sends, the transcript of a server that completes is the one its configuration
   * leads to, but for whether a certificate it asked for is empty; where one is demanded it is not. Each
   * optional message is there exactly when the configuration says so.
   */
  lemma ServerTranscript(cfg: S.Config, inputs: seq<Input>) returns (present: bool)
    requires Steady(cfg, inputs) && RunServer(cfg, S.START, inputs).state.Done? && !RunServer(cfg, S.START, inputs).wait.Failed?
    ensures RunServer(cfg, S.START, inputs).core.hash == Some(Whole(CourseOf(cfg, present)))
    ensures RunServer(cfg, S.START, inputs).core.peerKey == (cfg.Requests() && present)
    ensures cfg.Requests() && cfg.failIfNoCertificate ==> present
    ensures var t := RunServer(cfg, S.START, inputs).core.hash.value;
            var (certAuth, ecdhe) := (cfg.cipher.certAuth, cfg.cipher.ecdhe);
            && (CertificateRequest in t <==> !cfg.resume && certAuth && cfg.verifyPeer && !(cfg.peerIfNoChannelId && cfg.channelIdOffered))
            && (ServerKeyExchange in t <==> !cfg.resume && (ecdhe || (!certAuth && cfg.pskHint)))
            && (CertificateStatus in t <==> !cfg.resume && certAuth && cfg.status)
            && (ChannelId in t <==> cfg.channelIdOffered && ecdhe && (cfg.resume ==> cfg.hasOriginalHash))
            && (NextProto in t <==> cfg.npn) && (NewSessionTicket(false) in t <==> cfg.ticket)
  {
    hide RunServer, Whole, Steady;
    present := ServerRunTelling(cfg, inputs);
    WholeHolds(CourseOf(cfg, present));
  }

  /** A client pauses for False Start exactly after its flight in a full handshake, when it is configured to. */
  lemma FalseStarts(cfg: C.Config, c: C.Client, next: Option<Msg>, v: Verdict)
    requires !c.wait.EarlyReturn? && !c.wait.Failed?
    ensures C.Do(cfg, c, next, v).0.wait.EarlyReturn? <==> c.state.FinishFlight? && !c.core.resumed && cfg.falseStart && v == Accept
  {
    hide Core.Hash, Core.Add, Core.SendFinished, Core.GetFinished, Core.InitHash, Core.NoteRead, Core.Matches, Core.FreeBuffer, Core.Buffer,
      Core.AddChangeCipherSpec, Core.ChangeWriteKeys, Core.ChangeReadKeys, Core.Transcript;
  }

  // ---- The dialogue of two agreeing sides.

  function CourseOfPlan(p: D.Plan): Course {
    Course(ServerHello(p.resumed, p.cipher, p.ticket, p.status, p.npn, p.channelId), p.resumed, p.cipher.certAuth && p.status,
           p.keyExchange, p.request, p.clientKey, if p.ticket then Some(false) else None)
  }

  lemma SaidStep(p: D.Plan, k: nat, t: seq<Msg>)
    requires D.Said(p, k) == t
    ensures D.Said(p, k + 1) == t + match D.MsgAt(p, k) case Some(m) => [m] case None => []
  {
    Unsaid(t);
  }

  lemma FullDialogue(p: D.Plan)
    requires !p.resumed && (p.clientKey ==> p.request)
    ensures D.Said(p, 17) == Full(CourseOfPlan(p))
  {
    hide D.Said;
    var co := CourseOfPlan(p);
    assert D.Said(p, 0) == [] by { D.SaidFirst(p); }
    SaidStep(p, 0, []);
    SaidStep(p, 1, [] + [ClientHello]);
    assert [] + [ClientHello] + [co.hello] == Hellos(co);
    SaidStep(p, 2, Hellos(co));
    SaidStep(p, 3, ToCertificate(co));
    SaidStep(p, 4, ToStatus(co));
    SaidStep(p, 5, ToKeyExchange(co));
    SaidStep(p, 6, ToRequest(co));
    SaidStep(p, 7, ToHelloDone(co));
    SaidStep(p, 8, ToAnswer(co));
    SaidStep(p, 9, ToClientKey(co));
    FullDialogueCloses(p, co);
  }

  lemma FullDialogueCloses(p: D.Plan, co: Course)
    requires !p.resumed && (p.clientKey ==> p.request) && co == CourseOfPlan(p) && D.Said(p, 9) == ToClientKey(co)
    ensures D.Said(p, 17) == Full(co)
  {
    hide D.Said, ToClientKey;
    SaidStep(p, 9, ToClientKey(co));
    SaidStep(p, 10, ToVerify(co));
    Unsaid(ToVerify(co));
    SaidStep(p, 11, ToVerify(co));
    SaidStep(p, 12, ToVerify(co) + If(p.npn, NextProto));
    NamesFollow(co, ToVerify(co));
    SaidStep(p, 13, ToNames(co));
    SaidStep(p, 14, ToClientFinished(co));
    SaidStep(p, 15, ToTicket(co));
    Unsaid(ToTicket(co));
    SaidStep(p, 16, ToTicket(co));
  }

  lemma ResumedDialogue(p: D.Plan)
    requires p.resumed
    ensures D.Said(p, 9) == Resumed(CourseOfPlan(p))
  {
    hide D.Said;
    var co := CourseOfPlan(p);
    assert D.Said(p, 0) == [] by { D.SaidFirst(p); }
    SaidStep(p, 0, []);
    SaidStep(p, 1, [] + [ClientHello]);
    assert [] + [ClientHello] + [co.hello] == Hellos(co);
    SaidStep(p, 2, Hellos(co));
    SaidStep(p, 3, Renewed(co));
    Unsaid(Renewed(co));
    SaidStep(p, 4, Renewed(co));
    SaidStep(p, 5, ToServerFinished(co));
    Unsaid(ToServerFinished(co));
    SaidStep(p, 6, ToServerFinished(co));
    SaidStep(p, 7, ToServerFinished(co) + If(p.npn, NextProto));
    NamesFollow(co, ToServerFinished(co));
    SaidStep(p, 8, ToLateNames(co));
  }

  /** The transcript that two agreeing sides end with is a whole one of the grammar. */
  lemma DialogueIsWhole(cc: C.Config, sc: S.Config)
    ensures var p := D.PlanOf(cc, sc); D.Said(p, D.Phases(p)) == Whole(CourseOfPlan(p))
  {
    hide D.Said, Full, Resumed;
    var p := D.PlanOf(cc, sc);
    if p.resumed { ResumedDialogue(p); } else { FullDialogue(p); }
  }
}
