/** The client's state machine for TLS 1.0 to 1.2. */
module ClientMachine {
  import opened Wrappers
  import opened HandshakeState

  datatype State =
    | StartConnect | EnterEarlyData | ReadServerHello | ReadServerCertificate | ReadCertificateStatus
    | VerifyServerCertificate | ReadServerKeyExchange | ReadCertificateRequest | ReadServerHelloDone
    | SendClientCertificate | SendClientKeyExchange | SendCertificateVerify | SendClientFinished | FinishFlight
    | ReadSessionTicket | ProcessChangeCipherSpec | ReadServerFinished | FinishHandshake | Done

  /** What the application configured: a session to offer, a certificate, False Start. */
  datatype Config = Config(hasSession: bool, hasCertificate: bool, falseStart: bool)

  datatype Client = Client(state: State, wait: Wait, core: Core) {
    function Fail(): Client {
      this.(wait := Failed)
    }

    function Await(w: Wait): Client {
      this.(wait := w)
    }
  }

  const START := Client(StartConnect, Go, FRESH)

  // ---- The steps. Each is given the message at the front, if one can be read, and says whether it is consumed.

  function StartConnectStep(c: Client, v: Verdict): (Client, bool) {
    var k := c.core;
    if v != Accept then (c.Fail(), false) else (Client(EnterEarlyData, Flush, k.Add(ClientHello)), false)
  }

  function EnterEarlyDataStep(c: Client): (Client, bool) {
    var k := c.core;
    (Client(ReadServerHello, Go, k), false)
  }

  function ReadServerHelloStep(cfg: Config, c: Client, next: Option<Msg>, v: Verdict): (Client, bool) {
    var k := c.core;
    if next.None? then (c.Await(ReadMessage), false)
    else if !next.value.ServerHello? || v != Accept then (c.Fail(), false)
    else
      var m := next.value;
      var resumed := m.resumed && cfg.hasSession;
      var hashed := k.(resumed := resumed, cipher := m.cipher, ticketExpected := m.ticket, statusExpected := m.status,
                       npn := m.npn, channelId := m.channelId).InitHash().Hash(m);
      var kept := if resumed || !m.cipher.certAuth then hashed.FreeBuffer() else hashed;
      (Client(if resumed then ReadSessionTicket else ReadServerCertificate, Go, kept), true)
  }

  function ReadServerCertificateStep(c: Client, next: Option<Msg>, v: Verdict): (Client, bool) {
    var k := c.core;
    if !k.cipher.certAuth then (Client(ReadCertificateStatus, Go, k), false)
    else if next.None? then (c.Await(ReadMessage), false)
    else if !next.value.Certificate? || v != Accept || !next.value.present then (c.Fail(), false)
    else (Client(ReadCertificateStatus, Go, k.(peerKey := true).Hash(next.value)), true)
  }

  function ReadCertificateStatusStep(c: Client, next: Option<Msg>, v: Verdict): (Client, bool) {
    var k := c.core;
    if !k.statusExpected then (Client(VerifyServerCertificate, Go, k), false)
    else if next.None? then (c.Await(ReadMessage), false)
    // A server may negotiate the extension and then send no CertificateStatus.
    else if !next.value.CertificateStatus? then (Client(VerifyServerCertificate, Go, k), false)
    else if v != Accept then (c.Fail(), false)
    else (Client(VerifyServerCertificate, Go, k.Hash(next.value)), true)
  }

  function VerifyServerCertificateStep(c: Client, v: Verdict): (Client, bool) {
    var k := c.core;
    if !k.cipher.certAuth then (Client(ReadServerKeyExchange, Go, k), false)
    else if v == Retry then (c.Await(Pending), false)
    else if v == Reject then (c.Fail(), false)
    else (Client(ReadServerKeyExchange, Go, k), false)
  }

  function ReadServerKeyExchangeStep(c: Client, next: Option<Msg>, v: Verdict): (Client, bool) {
    var k := c.core;
    if next.None? then (c.Await(ReadMessage), false)
    else if !next.value.ServerKeyExchange? then
      if k.cipher.ecdhe then (c.Fail(), false) else (Client(ReadCertificateRequest, Go, k), false)
    else if (k.cipher.certAuth && !k.cipher.ecdhe) || v != Accept then (c.Fail(), false)
    else (Client(ReadCertificateRequest, Go, k.Hash(next.value)), true)
  }

  function ReadCertificateRequestStep(c: Client, next: Option<Msg>, v: Verdict): (Client, bool) {
    var k := c.core;
    if !k.cipher.certAuth then (Client(ReadServerHelloDone, Go, k), false)
    else if next.None? then (c.Await(ReadMessage), false)
    else if next.value.ServerHelloDone? then (Client(ReadServerHelloDone, Go, k.FreeBuffer()), false)
    else if !next.value.CertificateRequest? || v != Accept then (c.Fail(), false)
    else (Client(ReadServerHelloDone, Go, k.(certRequest := true).Hash(next.value)), true)
  }

  function ReadServerHelloDoneStep(c: Client, next: Option<Msg>, v: Verdict): (Client, bool) {
    var k := c.core;
    if next.None? then (c.Await(ReadMessage), false)
    else if !next.value.ServerHelloDone? || v != Accept then (c.Fail(), false)
    else (Client(SendClientCertificate, Go, k.Hash(next.value)), true)
  }

  function SendClientCertificateStep(cfg: Config, c: Client, v: Verdict): (Client, bool) {
    var k := c.core;
    if !k.certRequest then (Client(SendClientKeyExchange, Go, k), false)
    else if v == Retry then (c.Await(Pending), false)
    else if v == Reject then (c.Fail(), false)
    else
      // Without a client certificate, the handshake buffer may be released.
      var kept := if cfg.hasCertificate then k else k.FreeBuffer();
      (Client(SendClientKeyExchange, Go, kept.Add(Certificate(cfg.hasCertificate))), false)
  }

  function SendClientKeyExchangeStep(c: Client, v: Verdict): (Client, bool) {
    var k := c.core;
    if v != Accept then (c.Fail(), false) else (Client(SendCertificateVerify, Go, k.Add(ClientKeyExchange)), false)
  }

  function SendCertificateVerifyStep(cfg: Config, c: Client, v: Verdict): (Client, bool) {
    var k := c.core;
    if !k.certRequest || !cfg.hasCertificate then (Client(SendClientFinished, Go, k), false)
    else if v == Retry then (Client(SendCertificateVerify, Pending, k.NoteRead()), false)
    else if v == Reject then (c.Fail(), false)
    else (Client(SendClientFinished, Go, k.NoteRead().Add(CertificateVerify(k.Buffer())).FreeBuffer()), false)
  }

  function SendClientFinishedStep(c: Client, v: Verdict): (Client, bool) {
    var k := c.core;
    if k.channelId && v == Retry then (c.Await(Pending), false)
    else if v != Accept then (c.Fail(), false)
    else
      var keyed := k.AddChangeCipherSpec().ChangeWriteKeys();
      var proto := if keyed.npn then keyed.Add(NextProto) else keyed;
      var id := if proto.channelId then proto.Add(ChannelId) else proto;
      (Client(FinishFlight, Flush, id.SendFinished(false)), false)
  }

  function FinishFlightStep(cfg: Config, c: Client, v: Verdict): (Client, bool) {
    var k := c.core;
    if k.resumed then (Client(FinishHandshake, Go, k), false)
    else if v != Accept then (c.Fail(), false)
    else (Client(ReadSessionTicket, if cfg.falseStart then EarlyReturn else Go, k), false)
  }

  function ReadSessionTicketStep(c: Client, next: Option<Msg>, v: Verdict): (Client, bool) {
    var k := c.core;
    if !k.ticketExpected then (Client(ProcessChangeCipherSpec, ReadCcs, k), false)
    else if next.None? then (c.Await(ReadMessage), false)
    else if !next.value.NewSessionTicket? || v != Accept then (c.Fail(), false)
    else
      // An empty ticket is a server that changed its mind.
      var kept := k.(ticketExpected := !next.value.empty).Hash(next.value);
      (Client(ProcessChangeCipherSpec, ReadCcs, kept), true)
  }

  function ProcessChangeCipherSpecStep(c: Client, v: Verdict): (Client, bool) {
    var k := c.core;
    if v != Accept then (c.Fail(), false) else (Client(ReadServerFinished, Go, k.ChangeReadKeys()), false)
  }

  function ReadServerFinishedStep(c: Client, next: Option<Msg>): (Client, bool) {
    var k := c.core;
    if next.None? then (c.Await(ReadMessage), false)
    else if !k.Matches(next.value, false) then (c.Fail(), false)
    else (Client(if k.resumed then SendClientFinished else FinishHandshake, Go, k.GetFinished(next.value)), true)
  }

  function FinishHandshakeStep(c: Client, v: Verdict): (Client, bool) {
    var k := c.core;
    if v != Accept then (c.Fail(), false) else (Client(Done, Go, k), false)
  }

  /** The step of the current state. */
  function Do(cfg: Config, c: Client, next: Option<Msg>, v: Verdict): (Client, bool) {
    match c.state
    case StartConnect => StartConnectStep(c, v)
    case EnterEarlyData => EnterEarlyDataStep(c)
    case ReadServerHello => ReadServerHelloStep(cfg, c, next, v)
    case ReadServerCertificate => ReadServerCertificateStep(c, next, v)
    case ReadCertificateStatus => ReadCertificateStatusStep(c, next, v)
    case VerifyServerCertificate => VerifyServerCertificateStep(c, v)
    case ReadServerKeyExchange => ReadServerKeyExchangeStep(c, next, v)
    case ReadCertificateRequest => ReadCertificateRequestStep(c, next, v)
    case ReadServerHelloDone => ReadServerHelloDoneStep(c, next, v)
    case SendClientCertificate => SendClientCertificateStep(cfg, c, v)
    case SendClientKeyExchange => SendClientKeyExchangeStep(c, v)
    case SendCertificateVerify => SendCertificateVerifyStep(cfg, c, v)
    case SendClientFinished => SendClientFinishedStep(c, v)
    case FinishFlight => FinishFlightStep(cfg, c, v)
    case ReadSessionTicket => ReadSessionTicketStep(c, next, v)
    case ProcessChangeCipherSpec => ProcessChangeCipherSpecStep(c, v)
    case ReadServerFinished => ReadServerFinishedStep(c, next)
    case FinishHandshake => FinishHandshakeStep(c, v)
    case Done => (c, false)
  }

  /**
   * One turn of `ssl_run_handshake`: what the machine waits for is resolved, then it makes a step.
   * With the new state: whether the item at the front is consumed, and what is flushed.
   */
  function Turn(cfg: Config, c: Client, front: Option<Item>, v: Verdict): (Client, bool, seq<Item>) {
    match c.wait
    case Failed => (c, false, [])
    case Flush =>
      var (next, used) := Do(cfg, c.(core := c.core.(pending := [])), Peek(c.core, front), v);
      (next, used, c.core.pending)
    case ReadMessage =>
      if front.None? then (c, false, [])
      else if Peek(c.core, front).None? then (c.Fail(), false, [])
      else var (next, used) := Do(cfg, c, Peek(c.core, front), v); (next, used, [])
    case ReadCcs =>
      if front.None? then (c, false, [])
      else if front.value != ChangeCipherSpec(c.core.readEpoch) then (c.Fail(), false, [])
      else var (next, used) := Do(cfg, c, None, v); (next, true, [])
    case _ =>
      var (next, used) := Do(cfg, c, Peek(c.core, front), v); (next, used, [])
  }
}
