/** The server's state machine for TLS 1.0 to 1.2. */
module ServerMachine {
  import opened Wrappers
  import opened HandshakeState

  datatype State =
    | StartAccept | ReadClientHello | SelectCertificate | SelectParameters | SendServerHello | SendServerCertificate
    | SendServerKeyExchange | SendServerHelloDone | ReadClientCertificate | VerifyClientCertificate
    | ReadClientKeyExchange | ReadCertificateVerify | ReadChangeCipherSpec | ProcessChangeCipherSpec
    | ReadNextProto | ReadChannelId | ReadClientFinished | SendServerFinished | FinishHandshake | Done

  /** What the server decides from its configuration and the ClientHello. */
  datatype Config = Config(
    resume: bool,              // a session is found and can be resumed
    cipher: Cipher,            // the choice of ssl3_choose_cipher
    ticket: bool,              // a ticket is to be issued or renewed
    status: bool,              // an OCSP response is to be stapled
    pskHint: bool,
    npn: bool,
    channelIdOffered: bool,
    hasOriginalHash: bool,     // the resumed session recorded its handshake hashes
    verifyPeer: bool,          // SSL_VERIFY_PEER
    failIfNoCertificate: bool, // SSL_VERIFY_FAIL_IF_NO_PEER_CERT
    peerIfNoChannelId: bool)   // SSL_VERIFY_PEER_IF_NO_OBC
  {
    /** Whether a client certificate is requested. */
    predicate Requests() {
      !resume && verifyPeer && !(peerIfNoChannelId && channelIdOffered) && cipher.certAuth
    }

    /** Whether Channel ID stays negotiated once the cipher and the session are known. */
    predicate UsesChannelId() {
      channelIdOffered && cipher.ecdhe && (resume ==> hasOriginalHash)
    }

    /** Whether a ServerKeyExchange is sent. */
    predicate SendsKeyExchange() {
      cipher.ecdhe || (!cipher.certAuth && pskHint)
    }
  }

  datatype Server = Server(state: State, wait: Wait, core: Core) {
    function Fail(): Server {
      this.(wait := Failed)
    }

    function Await(w: Wait): Server {
      this.(wait := w)
    }
  }

  const START := Server(StartAccept, Go, FRESH)

  // ---- The steps. Each is given the message at the front, if one can be read, and says whether it is consumed.

  function StartAcceptStep(s: Server): (Server, bool) {
    var k := s.core;
    (Server(ReadClientHello, Go, k), false)
  }

  function ReadClientHelloStep(cfg: Config, s: Server, next: Option<Msg>, v: Verdict): (Server, bool) {
    var k := s.core;
    if next.None? then (s.Await(ReadMessage), false)
    else if !next.value.ClientHello? || v == Reject then (s.Fail(), false)
    else if v == Retry then (s.Await(Pending), false)
    else (Server(SelectCertificate, Go, k.(npn := cfg.npn, channelId := cfg.channelIdOffered, statusExpected := cfg.status)), false)
  }

  function SelectCertificateStep(cfg: Config, s: Server, next: Option<Msg>, v: Verdict): (Server, bool) {
    var k := s.core;
    if next.None? then (s.Await(ReadMessage), false)
    else if v == Retry then (s.Await(Pending), false)
    else if v == Reject then (s.Fail(), false)
    else (Server(SelectParameters, Go, k.(cipher := cfg.cipher)), false)
  }

  function SelectParametersStep(cfg: Config, s: Server, next: Option<Msg>, v: Verdict): (Server, bool) {
    var k := s.core;
    if next.None? then (s.Await(ReadMessage), false)
    else if v == Retry then (s.Await(Pending), false)
    else if v == Reject then (s.Fail(), false)
    else
      var request := !cfg.resume && cfg.verifyPeer && !(cfg.peerIfNoChannelId && k.channelId) && k.cipher.certAuth;
      var hashed := k.(resumed := cfg.resume, ticketExpected := cfg.ticket, certRequest := request).InitHash().Hash(next.value);
      // The handshake buffer is released unless client authentication is required.
      (Server(SendServerHello, Go, if request then hashed else hashed.FreeBuffer()), true)
  }

  /** Whether Channel ID, if negotiated, stays so for the cipher and the session. */
  predicate KeepsChannelId(cfg: Config, k: Core) {
    k.channelId && k.cipher.ecdhe && (k.resumed ==> cfg.hasOriginalHash)
  }

  function HelloOf(k: Core): Msg {
    ServerHello(k.resumed, k.cipher, k.ticketExpected, k.statusExpected, k.npn, k.channelId)
  }

  function SendServerHelloStep(cfg: Config, s: Server, v: Verdict): (Server, bool) {
    var k := s.core;
    if v != Accept then (s.Fail(), false)
    else
      var kept := k.(channelId := KeepsChannelId(cfg, k));
      (Server(if k.resumed then SendServerFinished else SendServerCertificate, Go, kept.Add(HelloOf(kept))), false)
  }

  function SendServerCertificateStep(cfg: Config, s: Server, v: Verdict): (Server, bool) {
    var k := s.core;
    if v != Accept then (s.Fail(), false)
    else
      var certified :=
        if !k.cipher.certAuth then k
        else if k.statusExpected then k.Add(Certificate(true)).Add(CertificateStatus)
        else k.Add(Certificate(true));
      var params := k.cipher.ecdhe || (!k.cipher.certAuth && cfg.pskHint);
      (Server(SendServerKeyExchange, Go, certified.(serverParams := params)), false)
  }

  function SendServerKeyExchangeStep(s: Server, v: Verdict): (Server, bool) {
    var k := s.core;
    if !k.serverParams then (Server(SendServerHelloDone, Go, k), false)
    else if k.cipher.certAuth && v == Retry then (s.Await(Pending), false)
    else if v != Accept then (s.Fail(), false)
    else (Server(SendServerHelloDone, Go, k.(serverParams := false).Add(ServerKeyExchange)), false)
  }

  function SendServerHelloDoneStep(s: Server, v: Verdict): (Server, bool) {
    var k := s.core;
    if v != Accept then (s.Fail(), false)
    else
      var requested := if k.certRequest then k.Add(CertificateRequest) else k;
      (Server(ReadClientCertificate, Flush, requested.Add(ServerHelloDone)), false)
  }

  function ReadClientCertificateStep(cfg: Config, s: Server, next: Option<Msg>, v: Verdict): (Server, bool) {
    var k := s.core;
    if !k.certRequest then (Server(VerifyClientCertificate, Go, k), false)
    else if next.None? then (s.Await(ReadMessage), false)
    else if !next.value.Certificate? || v != Accept || (!next.value.present && cfg.failIfNoCertificate) then (s.Fail(), false)
    else
      var hashed := k.(peerKey := next.value.present).Hash(next.value);
      (Server(VerifyClientCertificate, Go, if next.value.present then hashed else hashed.FreeBuffer()), true)
  }

  function VerifyClientCertificateStep(s: Server, v: Verdict): (Server, bool) {
    var k := s.core;
    if k.peerKey && v == Retry then (s.Await(Pending), false)
    else if k.peerKey && v == Reject then (s.Fail(), false)
    else (Server(ReadClientKeyExchange, Go, k), false)
  }

  function ReadClientKeyExchangeStep(s: Server, next: Option<Msg>, v: Verdict): (Server, bool) {
    var k := s.core;
    if next.None? then (s.Await(ReadMessage), false)
    else if !next.value.ClientKeyExchange? || v == Reject then (s.Fail(), false)
    // Only an RSA decryption can be pending.
    else if v == Retry then (if k.cipher.certAuth && !k.cipher.ecdhe then s.Await(Pending) else s.Fail(), false)
    else (Server(ReadCertificateVerify, Go, k.Hash(next.value)), true)
  }

  function ReadCertificateVerifyStep(s: Server, next: Option<Msg>, v: Verdict): (Server, bool) {
    var k := s.core;
    if !k.peerKey then (Server(ReadChangeCipherSpec, Go, k.FreeBuffer()), false)
    else if next.None? then (s.Await(ReadMessage), false)
    else if !next.value.CertificateVerify? || v != Accept then (s.Fail(), false)
    else
      var checked := k.NoteRead();
      if next.value.signed != k.Buffer() then (Server(ReadCertificateVerify, Failed, checked), false)
      else
        var noted := checked.(log := checked.log + [VerifiedClientKey(next.value, k.Transcript())]);
        (Server(ReadChangeCipherSpec, Go, noted.FreeBuffer().Hash(next.value)), true)
  }

  function ReadChangeCipherSpecStep(s: Server): (Server, bool) {
    var k := s.core;
    (Server(ProcessChangeCipherSpec, ReadCcs, k), false)
  }

  function ProcessChangeCipherSpecStep(s: Server, v: Verdict): (Server, bool) {
    var k := s.core;
    if v != Accept then (s.Fail(), false) else (Server(ReadNextProto, Go, k.ChangeReadKeys()), false)
  }

  function ReadNextProtoStep(s: Server, next: Option<Msg>, v: Verdict): (Server, bool) {
    var k := s.core;
    if !k.npn then (Server(ReadChannelId, Go, k), false)
    else if next.None? then (s.Await(ReadMessage), false)
    else if !next.value.NextProto? || v != Accept then (s.Fail(), false)
    else (Server(ReadChannelId, Go, k.Hash(next.value)), true)
  }

  function ReadChannelIdStep(s: Server, next: Option<Msg>, v: Verdict): (Server, bool) {
    var k := s.core;
    if !k.channelId then (Server(ReadClientFinished, Go, k), false)
    else if next.None? then (s.Await(ReadMessage), false)
    else if !next.value.ChannelId? || v != Accept then (s.Fail(), false)
    else (Server(ReadClientFinished, Go, k.Hash(next.value)), true)
  }

  function ReadClientFinishedStep(s: Server, next: Option<Msg>, v: Verdict): (Server, bool) {
    var k := s.core;
    if next.None? then (s.Await(ReadMessage), false)
    else if !k.Matches(next.value, true) || v != Accept then (s.Fail(), false)
    else (Server(if k.resumed then FinishHandshake else SendServerFinished, Go, k.GetFinished(next.value)), true)
  }

  function SendServerFinishedStep(s: Server, v: Verdict): (Server, bool) {
    var k := s.core;
    if v != Accept then (s.Fail(), false)
    else
      var ticketed := if k.ticketExpected then k.Add(NewSessionTicket(false)) else k;
      var keyed := ticketed.AddChangeCipherSpec().ChangeWriteKeys();
      (Server(if k.resumed then ReadChangeCipherSpec else FinishHandshake, Flush, keyed.SendFinished(true)), false)
  }

  function FinishHandshakeStep(s: Server): (Server, bool) {
    var k := s.core;
    (Server(Done, Go, k), false)
  }

  /** The step of the current state. */
  function Do(cfg: Config, s: Server, next: Option<Msg>, v: Verdict): (Server, bool) {
    match s.state
    case StartAccept => StartAcceptStep(s)
    case ReadClientHello => ReadClientHelloStep(cfg, s, next, v)
    case SelectCertificate => SelectCertificateStep(cfg, s, next, v)
    case SelectParameters => SelectParametersStep(cfg, s, next, v)
    case SendServerHello => SendServerHelloStep(cfg, s, v)
    case SendServerCertificate => SendServerCertificateStep(cfg, s, v)
    case SendServerKeyExchange => SendServerKeyExchangeStep(s, v)
    case SendServerHelloDone => SendServerHelloDoneStep(s, v)
    case ReadClientCertificate => ReadClientCertificateStep(cfg, s, next, v)
    case VerifyClientCertificate => VerifyClientCertificateStep(s, v)
    case ReadClientKeyExchange => ReadClientKeyExchangeStep(s, next, v)
    case ReadCertificateVerify => ReadCertificateVerifyStep(s, next, v)
    case ReadChangeCipherSpec => ReadChangeCipherSpecStep(s)
    case ProcessChangeCipherSpec => ProcessChangeCipherSpecStep(s, v)
    case ReadNextProto => ReadNextProtoStep(s, next, v)
    case ReadChannelId => ReadChannelIdStep(s, next, v)
    case ReadClientFinished => ReadClientFinishedStep(s, next, v)
    case SendServerFinished => SendServerFinishedStep(s, v)
    case FinishHandshake => FinishHandshakeStep(s)
    case Done => (s, false)
  }

  /**
   * One turn of `ssl_run_handshake`: what the machine waits for is resolved, then it makes a step.
   * With the new state: whether the item at the front is consumed, and what is flushed.
   */
  function Turn(cfg: Config, s: Server, front: Option<Item>, v: Verdict): (Server, bool, seq<Item>) {
    match s.wait
    case Failed => (s, false, [])
    case Flush =>
      var (next, used) := Do(cfg, s.(core := s.core.(pending := [])), Peek(s.core, front), v);
      (next, used, s.core.pending)
    case ReadMessage =>
      if front.None? then (s, false, [])
      else if Peek(s.core, front).None? then (s.Fail(), false, [])
      else var (next, used) := Do(cfg, s, Peek(s.core, front), v); (next, used, [])
    case ReadCcs =>
      if front.None? then (s, false, [])
      else if front.value != ChangeCipherSpec(s.core.readEpoch) then (s.Fail(), false, [])
      else var (next, used) := Do(cfg, s, None, v); (next, true, [])
    case _ =>
      var (next, used) := Do(cfg, s, Peek(s.core, front), v); (next, used, [])
  }
}
