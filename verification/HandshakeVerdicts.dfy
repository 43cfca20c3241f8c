/** What the checks of a handshake decide: nothing moves on past a check that did not accept. */
module HandshakeVerdicts {
  import opened Wrappers
  import opened HandshakeState
  import opened HandshakeSafety
  import C = ClientMachine
  import S = ServerMachine

  // ---- The client.

  /** Whether a step depends on a check: parsing, a signature, a certificate chain, a key, a callback. */
  predicate ClientAsks(cfg: C.Config, c: C.Client, next: Option<Msg>) {
    match c.state
    case StartConnect => true
    case ReadServerHello => next.Some? && next.value.ServerHello?
    case ReadServerCertificate => c.core.cipher.certAuth && next.Some? && next.value.Certificate? && next.value.present
    case ReadCertificateStatus => c.core.statusExpected && next.Some? && next.value.CertificateStatus?
    case VerifyServerCertificate => c.core.cipher.certAuth
    case ReadServerKeyExchange => next.Some? && next.value.ServerKeyExchange? && (c.core.cipher.certAuth ==> c.core.cipher.ecdhe)
    case ReadCertificateRequest => c.core.cipher.certAuth && next.Some? && next.value.CertificateRequest?
    case ReadServerHelloDone => next.Some? && next.value.ServerHelloDone?
    case SendClientCertificate => c.core.certRequest
    case SendClientKeyExchange => true
    case SendCertificateVerify => c.core.certRequest && cfg.hasCertificate
    case SendClientFinished => true
    case FinishFlight => !c.core.resumed
    case ReadSessionTicket => c.core.ticketExpected && next.Some? && next.value.NewSessionTicket?
    case ProcessChangeCipherSpec => true
    case FinishHandshake => true
    case _ => false
  }

  /** A check that rejects ends the handshake, one that is pending leaves it where it is, and no other step asks. */
  lemma ClientObeys(cfg: C.Config, c: C.Client, next: Option<Msg>, v: Verdict)
    ensures ClientAsks(cfg, c, next) && v == Reject ==> C.Do(cfg, c, next, v).0.wait.Failed?
    ensures ClientAsks(cfg, c, next) && v == Retry ==> C.Do(cfg, c, next, v).0.wait.Failed? || C.Do(cfg, c, next, v).0.wait.Pending?
    ensures ClientAsks(cfg, c, next) && v != Accept ==> C.Do(cfg, c, next, v).0.state == c.state && !C.Do(cfg, c, next, v).1
    ensures !ClientAsks(cfg, c, next) ==> C.Do(cfg, c, next, v) == C.Do(cfg, c, next, Accept)
  {
    hide Core.Hash, Core.Add, Core.SendFinished, Core.GetFinished, Core.InitHash, Core.NoteRead;
  }

  /** What a step of a turn has before it: the core, flushed if need be, and the message that can be read. */
  predicate ClientSteps(c: C.Client, front: Option<Item>) {
    match c.wait
    case Failed => false
    case ReadMessage => Peek(c.core, front).Some?
    case ReadCcs => front == Some(ChangeCipherSpec(c.core.readEpoch))
    case _ => true
  }

  function ClientReadable(c: C.Client, front: Option<Item>): Option<Msg> {
    if c.wait.ReadCcs? then None else Peek(c.core, front)
  }

  /** A turn in which a check is asked for and rejects fails. */
  lemma ClientTurnRejected(cfg: C.Config, c: C.Client, front: Option<Item>)
    requires ClientSteps(c, front) && ClientAsks(cfg, c, ClientReadable(c, front))
    ensures C.Turn(cfg, c, front, Reject).0.wait.Failed?
  {
    hide C.Do;
    ClientObeys(cfg, c, ClientReadable(c, front), Reject);
    ClientObeys(cfg, c.(core := c.core.(pending := [])), ClientReadable(c, front), Reject);
  }

  lemma {:induction false} ClientRunNext(cfg: C.Config, c: C.Client, inputs: seq<Input>, last: Input)
    ensures RunClient(cfg, c, inputs + [last]) == C.Turn(cfg, RunClient(cfg, c, inputs), last.front, last.v).0
    decreases |inputs|
  {
    hide C.Turn;
    if inputs == [] {
      assert (inputs + [last])[1..] == [];
    } else {
      assert (inputs + [last])[1..] == inputs[1..] + [last];
      ClientRunNext(cfg, C.Turn(cfg, c, inputs[0].front, inputs[0].v).0, inputs[1..], last);
    }
  }

  /** Before the i-th input a check was asked for, and it rejected. */
  ghost predicate ClientRejectedAt(cfg: C.Config, inputs: seq<Input>, i: nat)
    requires i < |inputs|
  {
    var c := RunClient(cfg, C.START, inputs[..i]);
    ClientSteps(c, inputs[i].front) && ClientAsks(cfg, c, ClientReadable(c, inputs[i].front)) && inputs[i].v == Reject
  }

  /** In a run that has not failed, no check that was asked for has rejected. */
  lemma {:induction false} ClientNeverRejected(cfg: C.Config, inputs: seq<Input>)
    requires !RunClient(cfg, C.START, inputs).wait.Failed?
    ensures forall i :: 0 <= i < |inputs| ==> !ClientRejectedAt(cfg, inputs, i)
    decreases |inputs|
  {
    hide C.Turn, ClientSteps, ClientAsks, ClientReadable;
    if inputs != [] {
      var n := |inputs| - 1;
      var before, last := inputs[..n], inputs[n];
      var c := RunClient(cfg, C.START, before);
      assert inputs == before + [last];
      ClientRunNext(cfg, C.START, before, last);
      ClientFailureLasts(cfg, c, last);
      ClientNeverRejected(cfg, before);
      if ClientRejectedAt(cfg, inputs, n) {
        ClientTurnRejected(cfg, c, last.front);
      }
      forall i | 0 <= i < n
        ensures !ClientRejectedAt(cfg, inputs, i)
      {
        assert before[..i] == inputs[..i];
        assert !ClientRejectedAt(cfg, before, i);
      }
    }
  }

  lemma ClientFailureLasts(cfg: C.Config, c: C.Client, last: Input)
    ensures c.wait.Failed? ==> C.Turn(cfg, c, last.front, last.v).0.wait.Failed?
  {}

  /** Beyond the verification of the server's certificate, on either path. */
  predicate ClientBeyond(state: C.State) {
    match state
    case StartConnect | EnterEarlyData | ReadServerHello | ReadServerCertificate | ReadCertificateStatus | VerifyServerCertificate => false
    case _ => true
  }

  lemma ClientReachesBeyond(cfg: C.Config, c: C.Client, next: Option<Msg>, v: Verdict)
    requires !ClientBeyond(c.state) && ClientBeyond(C.Do(cfg, c, next, v).0.state)
    ensures var n := C.Do(cfg, c, next, v).0;
            n.wait.Failed? || n.core.resumed || !n.core.cipher.certAuth || (c.state.VerifyServerCertificate? && v == Accept)
  {
    hide Core.Hash, Core.Add;
    if next.Some? && next.value.ServerHello? {
      var m := next.value;
      HashIsKept(c.core.(resumed := m.resumed && cfg.hasSession, cipher := m.cipher, ticketExpected := m.ticket, statusExpected := m.status,
                         npn := m.npn, channelId := m.channelId).InitHash(), m);
    }
  }

  /** Still beyond, with the same parameters. */
  predicate StaysBeyond(c: C.Client, n: C.Client) {
    ClientBeyond(n.state) && n.core.resumed == c.core.resumed && n.core.cipher == c.core.cipher
  }

  lemma ClientReadsBeyond(cfg: C.Config, c: C.Client, next: Option<Msg>, v: Verdict)
    requires c.state.ReadServerKeyExchange? || c.state.ReadServerHelloDone?
    ensures StaysBeyond(c, C.Do(cfg, c, next, v).0)
  {}

  lemma ClientRequestBeyond(cfg: C.Config, c: C.Client, next: Option<Msg>, v: Verdict)
    requires c.state.ReadCertificateRequest?
    ensures StaysBeyond(c, C.Do(cfg, c, next, v).0)
  {}

  lemma ClientClosesBeyond(cfg: C.Config, c: C.Client, next: Option<Msg>, v: Verdict)
    requires c.state.FinishFlight? || c.state.ReadSessionTicket? || c.state.ProcessChangeCipherSpec?
    ensures StaysBeyond(c, C.Do(cfg, c, next, v).0)
  {
    hide Core.Hash;
    if next.Some? && next.value.NewSessionTicket? { ReadingKeepsParameters(c.core.(ticketExpected := !next.value.empty), next.value); }
  }

  lemma ClientEndsBeyond(cfg: C.Config, c: C.Client, next: Option<Msg>, v: Verdict)
    requires c.state.ReadServerFinished? || c.state.FinishHandshake? || c.state.Done?
    ensures StaysBeyond(c, C.Do(cfg, c, next, v).0)
  {
    hide Core.Hash, Core.GetFinished;
    if next.Some? { ReadingKeepsParameters(c.core, next.value); }
  }

  lemma ReadingKeepsParameters(k: Core, m: Msg)
    ensures k.Hash(m).resumed == k.resumed && k.Hash(m).cipher == k.cipher
    ensures k.GetFinished(m).resumed == k.resumed && k.GetFinished(m).cipher == k.cipher
  {}

  lemma ClientFinishesBeyond(cfg: C.Config, c: C.Client, next: Option<Msg>, v: Verdict)
    requires c.state.SendClientFinished?
    ensures StaysBeyond(c, C.Do(cfg, c, next, v).0)
  {
    hide C.SendClientFinishedStep;
    if v == Accept { ClientSends(c); } else { ClientFlightOutcome(c, v); }
  }

  lemma ClientFlightOutcome(c: C.Client, v: Verdict)
    requires v != Accept
    ensures C.SendClientFinishedStep(c, v).0.core == c.core && C.SendClientFinishedStep(c, v).0.state == c.state
  {}

  lemma ClientSendsBeyond(cfg: C.Config, c: C.Client, next: Option<Msg>, v: Verdict)
    requires c.state.SendClientCertificate? || c.state.SendClientKeyExchange? || c.state.SendCertificateVerify?
    ensures StaysBeyond(c, C.Do(cfg, c, next, v).0)
  {}

  /** Only an accepted verification, a cipher without a certificate or a resumption leads beyond it. */
  ghost predicate Crosses(c: C.Client, n: C.Client, v: Verdict) {
    ClientBeyond(n.state) ==>
      if ClientBeyond(c.state) then StaysBeyond(c, n)
      else n.wait.Failed? || n.core.resumed || !n.core.cipher.certAuth || (c.state.VerifyServerCertificate? && v == Accept)
  }

  lemma ClientCrosses(cfg: C.Config, c: C.Client, next: Option<Msg>, v: Verdict)
    ensures Crosses(c, C.Do(cfg, c, next, v).0, v)
  {
    hide C.Do, StaysBeyond;
    match c.state
    case ReadServerKeyExchange | ReadServerHelloDone => ClientReadsBeyond(cfg, c, next, v);
    case ReadCertificateRequest => ClientRequestBeyond(cfg, c, next, v);
    case SendClientCertificate | SendClientKeyExchange | SendCertificateVerify => ClientSendsBeyond(cfg, c, next, v);
    case SendClientFinished => ClientFinishesBeyond(cfg, c, next, v);
    case FinishFlight | ReadSessionTicket | ProcessChangeCipherSpec => ClientClosesBeyond(cfg, c, next, v);
    case ReadServerFinished | FinishHandshake | Done => ClientEndsBeyond(cfg, c, next, v);
    case _ => if ClientBeyond(C.Do(cfg, c, next, v).0.state) { ClientReachesBeyond(cfg, c, next, v); }
  }

  lemma ClientTurnCrosses(cfg: C.Config, c: C.Client, front: Option<Item>, v: Verdict)
    requires !c.wait.Failed?
    ensures Crosses(c, C.Turn(cfg, c, front, v).0, v)
  {
    hide C.Do, ClientBeyond;
    ClientCrosses(cfg, c, Peek(c.core, front), v);
    ClientCrosses(cfg, c, None, v);
    ClientCrosses(cfg, c.(core := c.core.(pending := [])), Peek(c.core, front), v);
  }

  /** At the i-th input the client, not failed, was verifying the server's certificate and the verification accepted. */
  ghost predicate ServerAcceptedAt(cfg: C.Config, inputs: seq<Input>, i: nat)
    requires i < |inputs|
  {
    var c := RunClient(cfg, C.START, inputs[..i]);
    c.state.VerifyServerCertificate? && !c.wait.Failed? && inputs[i].v == Accept
  }

  lemma {:induction false} ClientBeyondTrusts(cfg: C.Config, inputs: seq<Input>)
    requires var c := RunClient(cfg, C.START, inputs);
             ClientBeyond(c.state) && !c.wait.Failed? && !c.core.resumed && c.core.cipher.certAuth
    ensures exists i :: 0 <= i < |inputs| && ServerAcceptedAt(cfg, inputs, i)
    decreases |inputs|
  {
    hide C.Turn;
    var n := |inputs| - 1;
    var before, last := inputs[..n], inputs[n];
    var c := RunClient(cfg, C.START, before);
    assert inputs == before + [last];
    ClientRunNext(cfg, C.START, before, last);
    ClientFailureLasts(cfg, c, last);
    ClientTurnCrosses(cfg, c, last.front, last.v);
    if ClientBeyond(c.state) {
      ClientBeyondTrusts(cfg, before);
      var i :| 0 <= i < |before| && ServerAcceptedAt(cfg, before, i);
      assert before[..i] == inputs[..i];
      assert ServerAcceptedAt(cfg, inputs, i);
    } else {
      assert ServerAcceptedAt(cfg, inputs, n);
    }
  }

  /**
   * A client that completes a full handshake with a certificate cipher has, at some turn, verified the
   * server's certificate, and the verification accepted it; and no check has rejected.
   */
  lemma ClientTrusts(cfg: C.Config, inputs: seq<Input>)
    ensures var c := RunClient(cfg, C.START, inputs);
            && (!c.wait.Failed? ==> forall i :: 0 <= i < |inputs| ==> !ClientRejectedAt(cfg, inputs, i))
            && (c.state.Done? && !c.wait.Failed? && !c.core.resumed && c.core.cipher.certAuth ==>
                  exists i :: 0 <= i < |inputs| && ServerAcceptedAt(cfg, inputs, i))
  {
    hide RunClient, ClientRejectedAt, ServerAcceptedAt;
    var c := RunClient(cfg, C.START, inputs);
    if !c.wait.Failed? {
      ClientNeverRejected(cfg, inputs);
      if c.state.Done? && !c.core.resumed && c.core.cipher.certAuth {
        ClientBeyondTrusts(cfg, inputs);
      }
    }
  }

  // ---- The server.

  /** Whether a step depends on a check: parsing, a callback, a signature, a certificate chain, a key. */
  predicate ServerAsks(cfg: S.Config, s: S.Server, next: Option<Msg>) {
    match s.state
    case ReadClientHello => next.Some? && next.value.ClientHello?
    case SelectCertificate | SelectParameters => next.Some?
    case SendServerHello | SendServerCertificate | SendServerHelloDone | ProcessChangeCipherSpec | SendServerFinished => true
    case SendServerKeyExchange => s.core.serverParams
    case ReadClientCertificate => s.core.certRequest && next.Some? && next.value.Certificate?
    case VerifyClientCertificate => s.core.peerKey
    case ReadClientKeyExchange => next.Some? && next.value.ClientKeyExchange?
    case ReadCertificateVerify => s.core.peerKey && next.Some? && next.value.CertificateVerify?
    case ReadNextProto => s.core.npn && next.Some? && next.value.NextProto?
    case ReadChannelId => s.core.channelId && next.Some? && next.value.ChannelId?
    case ReadClientFinished => next.Some?
    case _ => false
  }

  /** A check that rejects ends the handshake, one that is pending leaves it where it is, and no other step asks. */
  lemma ServerObeys(cfg: S.Config, s: S.Server, next: Option<Msg>, v: Verdict)
    ensures ServerAsks(cfg, s, next) && v == Reject ==> S.Do(cfg, s, next, v).0.wait.Failed?
    ensures ServerAsks(cfg, s, next) && v == Retry ==> S.Do(cfg, s, next, v).0.wait.Failed? || S.Do(cfg, s, next, v).0.wait.Pending?
    ensures ServerAsks(cfg, s, next) && v != Accept ==> S.Do(cfg, s, next, v).0.state == s.state && !S.Do(cfg, s, next, v).1
    ensures !ServerAsks(cfg, s, next) ==> S.Do(cfg, s, next, v) == S.Do(cfg, s, next, Accept)
  {
    hide Core.Hash, Core.Add, Core.SendFinished, Core.GetFinished, Core.InitHash, Core.NoteRead, Core.Matches;
  }

  /** Whether a turn makes a step. */
  predicate ServerSteps(s: S.Server, front: Option<Item>) {
    match s.wait
    case Failed => false
    case ReadMessage => Peek(s.core, front).Some?
    case ReadCcs => front == Some(ChangeCipherSpec(s.core.readEpoch))
    case _ => true
  }

  function ServerReadable(s: S.Server, front: Option<Item>): Option<Msg> {
    if s.wait.ReadCcs? then None else Peek(s.core, front)
  }

  /** A turn in which a check is asked for and rejects fails. */
  lemma ServerTurnRejected(cfg: S.Config, s: S.Server, front: Option<Item>)
    requires ServerSteps(s, front) && ServerAsks(cfg, s, ServerReadable(s, front))
    ensures S.Turn(cfg, s, front, Reject).0.wait.Failed?
  {
    hide S.Do;
    ServerObeys(cfg, s, ServerReadable(s, front), Reject);
    ServerObeys(cfg, s.(core := s.core.(pending := [])), ServerReadable(s, front), Reject);
  }

  lemma {:induction false} ServerRunNext(cfg: S.Config, s: S.Server, inputs: seq<Input>, last: Input)
    ensures RunServer(cfg, s, inputs + [last]) == S.Turn(cfg, RunServer(cfg, s, inputs), last.front, last.v).0
    decreases |inputs|
  {
    hide S.Turn;
    if inputs == [] {
      assert (inputs + [last])[1..] == [];
    } else {
      assert (inputs + [last])[1..] == inputs[1..] + [last];
      ServerRunNext(cfg, S.Turn(cfg, s, inputs[0].front, inputs[0].v).0, inputs[1..], last);
    }
  }

  /** At the i-th input a check was asked for, and it rejected. */
  ghost predicate ServerRejectedAt(cfg: S.Config, inputs: seq<Input>, i: nat)
    requires i < |inputs|
  {
    var s := RunServer(cfg, S.START, inputs[..i]);
    ServerSteps(s, inputs[i].front) && ServerAsks(cfg, s, ServerReadable(s, inputs[i].front)) && inputs[i].v == Reject
  }

  lemma ServerFailureLasts(cfg: S.Config, s: S.Server, last: Input)
    ensures s.wait.Failed? ==> S.Turn(cfg, s, last.front, last.v).0.wait.Failed?
  {}

  /** In a run that has not failed, no check that was asked for has rejected. */
  lemma {:induction false} ServerNeverRejected(cfg: S.Config, inputs: seq<Input>)
    requires !RunServer(cfg, S.START, inputs).wait.Failed?
    ensures forall i :: 0 <= i < |inputs| ==> !ServerRejectedAt(cfg, inputs, i)
    decreases |inputs|
  {
    hide S.Turn, ServerSteps, ServerAsks, ServerReadable;
    if inputs != [] {
      var n := |inputs| - 1;
      var before, last := inputs[..n], inputs[n];
      var s := RunServer(cfg, S.START, before);
      assert inputs == before + [last];
      ServerRunNext(cfg, S.START, before, last);
      ServerFailureLasts(cfg, s, last);
      ServerNeverRejected(cfg, before);
      if ServerRejectedAt(cfg, inputs, n) {
        ServerTurnRejected(cfg, s, last.front);
      }
      forall i | 0 <= i < n
        ensures !ServerRejectedAt(cfg, inputs, i)
      {
        assert before[..i] == inputs[..i];
        assert !ServerRejectedAt(cfg, before, i);
      }
    }
  }

  /** Beyond the verification of the client's certificate, on either path. */
  predicate ServerBeyond(state: S.State) {
    !ServerEarly(state) && !state.VerifyClientCertificate?
  }

  /** A key the client holds has been accepted, and a certificate that was demanded is there. */
  ghost predicate ServerPasses(cfg: S.Config, s: S.Server, n: S.Server, v: Verdict) {
    && (ServerBeyond(n.state) && n.core.peerKey && !n.core.resumed ==>
          n.wait.Failed?
          || (if ServerBeyond(s.state) then s.core.peerKey && !s.core.resumed
              else s.state.VerifyClientCertificate? && s.core.peerKey && v == Accept))
    && (Demanded(cfg, s) ==> n.wait.Failed? || Demanded(cfg, n))
  }

  /** A certificate that was requested and must be there is there once it has been read. */
  predicate Demanded(cfg: S.Config, s: S.Server) {
    && (s.core.resumed ==> !s.core.certRequest)
    && (s.core.certRequest && cfg.failIfNoCertificate && !ServerEarly(s.state) ==> s.core.peerKey)
  }

  lemma ServerOpensPasses(cfg: S.Config, s: S.Server, next: Option<Msg>, v: Verdict)
    requires s.state.StartAccept? || s.state.ReadClientHello? || s.state.SelectCertificate? || s.state.SelectParameters? || s.state.SendServerHello?
    ensures ServerPasses(cfg, s, S.Do(cfg, s, next, v).0, v)
  {}

  lemma ServerOffersPasses(cfg: S.Config, s: S.Server, next: Option<Msg>, v: Verdict)
    requires s.state.SendServerCertificate? || s.state.SendServerKeyExchange? || s.state.SendServerHelloDone?
    ensures ServerPasses(cfg, s, S.Do(cfg, s, next, v).0, v)
  {}

  lemma ServerReadsPasses(cfg: S.Config, s: S.Server, next: Option<Msg>, v: Verdict)
    requires s.state.ReadClientCertificate? || s.state.VerifyClientCertificate? || s.state.ReadClientKeyExchange?
    ensures ServerPasses(cfg, s, S.Do(cfg, s, next, v).0, v)
  {}

  lemma ServerVerifiesPasses(cfg: S.Config, s: S.Server, next: Option<Msg>, v: Verdict)
    requires s.state.ReadCertificateVerify? || s.state.ReadChangeCipherSpec? || s.state.ProcessChangeCipherSpec?
    ensures ServerPasses(cfg, s, S.Do(cfg, s, next, v).0, v)
  {}

  lemma ServerClosesPasses(cfg: S.Config, s: S.Server, next: Option<Msg>, v: Verdict)
    requires s.state.ReadNextProto? || s.state.ReadChannelId? || s.state.FinishHandshake? || s.state.Done?
    ensures ServerPasses(cfg, s, S.Do(cfg, s, next, v).0, v)
  {}

  lemma ServerGotPasses(cfg: S.Config, s: S.Server, next: Option<Msg>, v: Verdict)
    requires s.state.ReadClientFinished?
    ensures ServerPasses(cfg, s, S.Do(cfg, s, next, v).0, v)
  {
    hide Core.GetFinished;
    if next.Some? { GotIsKept(s.core, next.value); }
  }

  lemma ServerSentPasses(cfg: S.Config, s: S.Server, next: Option<Msg>, v: Verdict)
    requires s.state.SendServerFinished?
    ensures ServerPasses(cfg, s, S.Do(cfg, s, next, v).0, v)
  {
    hide S.SendServerFinishedStep;
    if v == Accept { ServerSends(s); } else { ServerFlightOutcome(s, v); }
  }

  lemma ServerFlightOutcome(s: S.Server, v: Verdict)
    requires v != Accept
    ensures S.SendServerFinishedStep(s, v).0 == s.(wait := Failed)
  {}

  lemma ServerDoPasses(cfg: S.Config, s: S.Server, next: Option<Msg>, v: Verdict)
    ensures ServerPasses(cfg, s, S.Do(cfg, s, next, v).0, v)
  {
    hide S.Do, ServerPasses;
    match s.state
    case StartAccept | ReadClientHello | SelectCertificate | SelectParameters | SendServerHello => ServerOpensPasses(cfg, s, next, v);
    case SendServerCertificate | SendServerKeyExchange | SendServerHelloDone => ServerOffersPasses(cfg, s, next, v);
    case ReadClientCertificate | VerifyClientCertificate | ReadClientKeyExchange => ServerReadsPasses(cfg, s, next, v);
    case ReadCertificateVerify | ReadChangeCipherSpec | ProcessChangeCipherSpec => ServerVerifiesPasses(cfg, s, next, v);
    case ReadNextProto | ReadChannelId | FinishHandshake | Done => ServerClosesPasses(cfg, s, next, v);
    case ReadClientFinished => ServerGotPasses(cfg, s, next, v);
    case SendServerFinished => ServerSentPasses(cfg, s, next, v);
  }

  lemma ServerTurnPasses(cfg: S.Config, s: S.Server, front: Option<Item>, v: Verdict)
    requires !s.wait.Failed?
    ensures ServerPasses(cfg, s, S.Turn(cfg, s, front, v).0, v)
  {
    hide S.Do, ServerBeyond;
    ServerDoPasses(cfg, s, Peek(s.core, front), v);
    ServerDoPasses(cfg, s, None, v);
    ServerDoPasses(cfg, s.(core := s.core.(pending := [])), Peek(s.core, front), v);
  }

  /** At the i-th input the server, not failed, held a client's certificate and its verification accepted. */
  ghost predicate ClientAcceptedAt(cfg: S.Config, inputs: seq<Input>, i: nat)
    requires i < |inputs|
  {
    var s := RunServer(cfg, S.START, inputs[..i]);
    s.state.VerifyClientCertificate? && s.core.peerKey && !s.wait.Failed? && inputs[i].v == Accept
  }

  lemma {:induction false} ServerBeyondTrusts(cfg: S.Config, inputs: seq<Input>)
    requires !RunServer(cfg, S.START, inputs).wait.Failed?
    ensures var s := RunServer(cfg, S.START, inputs);
            && Demanded(cfg, s)
            && (ServerBeyond(s.state) && s.core.peerKey && !s.core.resumed ==>
                  exists i :: 0 <= i < |inputs| && ClientAcceptedAt(cfg, inputs, i))
    decreases |inputs|
  {
    hide S.Turn;
    if inputs != [] {
      var n := |inputs| - 1;
      var before, last := inputs[..n], inputs[n];
      var s := RunServer(cfg, S.START, before);
      assert inputs == before + [last];
      ServerRunNext(cfg, S.START, before, last);
      ServerFailureLasts(cfg, s, last);
      ServerTurnPasses(cfg, s, last.front, last.v);
      ServerBeyondTrusts(cfg, before);
      var e := RunServer(cfg, S.START, inputs);
      if ServerBeyond(e.state) && e.core.peerKey && !e.core.resumed {
        if ServerBeyond(s.state) {
          var i :| 0 <= i < |before| && ClientAcceptedAt(cfg, before, i);
          assert before[..i] == inputs[..i];
          assert ClientAcceptedAt(cfg, inputs, i);
        } else {
          assert ClientAcceptedAt(cfg, inputs, n);
        }
      }
    }
  }

  /**
   * A server that completes holding a client's key has, at some turn, verified the client's certificate,
   * and the verification accepted it; a certificate that was requested and must be there is there; and
   * no check has rejected.
   */
  lemma ServerTrusts(cfg: S.Config, inputs: seq<Input>)
    ensures var s := RunServer(cfg, S.START, inputs);
            && (!s.wait.Failed? ==> forall i :: 0 <= i < |inputs| ==> !ServerRejectedAt(cfg, inputs, i))
            && (s.state.Done? && !s.wait.Failed? && s.core.peerKey ==>
                  exists i :: 0 <= i < |inputs| && ClientAcceptedAt(cfg, inputs, i))
            && (s.state.Done? && !s.wait.Failed? && s.core.certRequest && cfg.failIfNoCertificate ==> s.core.peerKey)
  {
    hide RunServer, ServerRejectedAt, ClientAcceptedAt;
    var s := RunServer(cfg, S.START, inputs);
    ServerRunOk(cfg, S.START, inputs);
    if !s.wait.Failed? {
      ServerNeverRejected(cfg, inputs);
      ServerBeyondTrusts(cfg, inputs);
    }
  }
}
