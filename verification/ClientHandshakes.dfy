/** The client's handshake as an object whose `do_*` methods set its state, after `handshake_client.cc`. */
module ClientHandshakes {
  import opened Wrappers
  import opened HandshakeState
  import opened ClientMachine
  import opened HandshakeSafety

  class ClientHandshake {
    const cfg: Config
    var state: State
    var wait: Wait
    var core: Core

    ghost function View(): Client
      reads this
    {
      Client(state, wait, core)
    }

    constructor (cfg: Config)
      ensures this.cfg == cfg && View() == START
    {
      this.cfg := cfg;
      state, wait, core := StartConnect, Go, FRESH;
    }

    method DoStartConnect(v: Verdict)
      modifies this
      ensures (View(), false) == StartConnectStep(old(View()), v)
    {
      if v != Accept {
        wait := Failed;
        return;
      }
      core := core.Add(ClientHello);
      state, wait := EnterEarlyData, Flush;
    }

    method DoEnterEarlyData()
      modifies this
      ensures (View(), false) == EnterEarlyDataStep(old(View()))
    {
      state, wait := ReadServerHello, Go;
    }

    method DoReadServerHello(next: Option<Msg>, v: Verdict) returns (used: bool)
      modifies this
      ensures (View(), used) == ReadServerHelloStep(cfg, old(View()), next, v)
    {
      if next.None? {
        wait := ReadMessage;
        return false;
      }
      var m := next.value;
      if !m.ServerHello? || v != Accept {
        wait := Failed;
        return false;
      }
      core := core.(resumed := m.resumed && cfg.hasSession, cipher := m.cipher, ticketExpected := m.ticket,
                    statusExpected := m.status, npn := m.npn, channelId := m.channelId);
      core := core.InitHash();
      core := core.Hash(m);
      if core.resumed || !core.cipher.certAuth {
        core := core.FreeBuffer();
      }
      wait := Go;
      if core.resumed {
        state := ReadSessionTicket;
        return true;
      }
      state := ReadServerCertificate;
      return true;
    }

    method DoReadServerCertificate(next: Option<Msg>, v: Verdict) returns (used: bool)
      modifies this
      ensures (View(), used) == ReadServerCertificateStep(old(View()), next, v)
    {
      if !core.cipher.certAuth {
        state, wait := ReadCertificateStatus, Go;
        return false;
      }
      if next.None? {
        wait := ReadMessage;
        return false;
      }
      if !next.value.Certificate? || v != Accept || !next.value.present {
        wait := Failed;
        return false;
      }
      core := core.(peerKey := true);
      core := core.Hash(next.value);
      state, wait := ReadCertificateStatus, Go;
      return true;
    }

    method DoReadCertificateStatus(next: Option<Msg>, v: Verdict) returns (used: bool)
      modifies this
      ensures (View(), used) == ReadCertificateStatusStep(old(View()), next, v)
    {
      if !core.statusExpected {
        state, wait := VerifyServerCertificate, Go;
        return false;
      }
      if next.None? {
        wait := ReadMessage;
        return false;
      }
      if !next.value.CertificateStatus? {
        state, wait := VerifyServerCertificate, Go;
        return false;
      }
      if v != Accept {
        wait := Failed;
        return false;
      }
      core := core.Hash(next.value);
      state, wait := VerifyServerCertificate, Go;
      return true;
    }

    method DoVerifyServerCertificate(v: Verdict)
      modifies this
      ensures (View(), false) == VerifyServerCertificateStep(old(View()), v)
    {
      if core.cipher.certAuth && v != Accept {
        wait := if v == Retry then Pending else Failed;
        return;
      }
      state, wait := ReadServerKeyExchange, Go;
    }

    method DoReadServerKeyExchange(next: Option<Msg>, v: Verdict) returns (used: bool)
      modifies this
      ensures (View(), used) == ReadServerKeyExchangeStep(old(View()), next, v)
    {
      if next.None? {
        wait := ReadMessage;
        return false;
      }
      if !next.value.ServerKeyExchange? {
        if core.cipher.ecdhe {
          wait := Failed;
          return false;
        }
        state, wait := ReadCertificateRequest, Go;
        return false;
      }
      if (core.cipher.certAuth && !core.cipher.ecdhe) || v != Accept {
        wait := Failed;
        return false;
      }
      core := core.Hash(next.value);
      state, wait := ReadCertificateRequest, Go;
      return true;
    }

    method DoReadCertificateRequest(next: Option<Msg>, v: Verdict) returns (used: bool)
      modifies this
      ensures (View(), used) == ReadCertificateRequestStep(old(View()), next, v)
    {
      if !core.cipher.certAuth {
        state, wait := ReadServerHelloDone, Go;
        return false;
      }
      if next.None? {
        wait := ReadMessage;
        return false;
      }
      if next.value.ServerHelloDone? {
        core := core.FreeBuffer();
        state, wait := ReadServerHelloDone, Go;
        return false;
      }
      if !next.value.CertificateRequest? || v != Accept {
        wait := Failed;
        return false;
      }
      core := core.(certRequest := true);
      core := core.Hash(next.value);
      state, wait := ReadServerHelloDone, Go;
      return true;
    }

    method DoReadServerHelloDone(next: Option<Msg>, v: Verdict) returns (used: bool)
      modifies this
      ensures (View(), used) == ReadServerHelloDoneStep(old(View()), next, v)
    {
      if next.None? {
        wait := ReadMessage;
        return false;
      }
      if !next.value.ServerHelloDone? || v != Accept {
        wait := Failed;
        return false;
      }
      core := core.Hash(next.value);
      state, wait := SendClientCertificate, Go;
      return true;
    }

    method DoSendClientCertificate(v: Verdict)
      modifies this
      ensures (View(), false) == SendClientCertificateStep(cfg, old(View()), v)
    {
      if !core.certRequest {
        state, wait := SendClientKeyExchange, Go;
        return;
      }
      if v != Accept {
        wait := if v == Retry then Pending else Failed;
        return;
      }
      if !cfg.hasCertificate {
        core := core.FreeBuffer();
      }
      core := core.Add(Certificate(cfg.hasCertificate));
      state, wait := SendClientKeyExchange, Go;
    }

    method DoSendClientKeyExchange(v: Verdict)
      modifies this
      ensures (View(), false) == SendClientKeyExchangeStep(old(View()), v)
    {
      if v != Accept {
        wait := Failed;
        return;
      }
      core := core.Add(ClientKeyExchange);
      state, wait := SendCertificateVerify, Go;
    }

    method DoSendCertificateVerify(v: Verdict)
      requires state == SendCertificateVerify
      modifies this
      ensures (View(), false) == SendCertificateVerifyStep(cfg, old(View()), v)
    {
      if !core.certRequest || !cfg.hasCertificate {
        state, wait := SendClientFinished, Go;
        return;
      }
      if v == Reject {
        wait := Failed;
        return;
      }
      var signed := core.Buffer();
      core := core.NoteRead();
      if v == Retry {
        wait := Pending;
        return;
      }
      core := core.Add(CertificateVerify(signed));
      core := core.FreeBuffer();
      state, wait := SendClientFinished, Go;
    }

    method DoSendClientFinished(v: Verdict)
      modifies this
      ensures (View(), false) == SendClientFinishedStep(old(View()), v)
    {
      if core.channelId && v == Retry {
        wait := Pending;
        return;
      }
      if v != Accept {
        wait := Failed;
        return;
      }
      core := core.AddChangeCipherSpec();
      core := core.ChangeWriteKeys();
      if core.npn {
        core := core.Add(NextProto);
      }
      if core.channelId {
        core := core.Add(ChannelId);
      }
      core := core.SendFinished(false);
      state, wait := FinishFlight, Flush;
    }

    method DoFinishFlight(v: Verdict)
      modifies this
      ensures (View(), false) == FinishFlightStep(cfg, old(View()), v)
    {
      if core.resumed {
        state, wait := FinishHandshake, Go;
        return;
      }
      if v != Accept {
        wait := Failed;
        return;
      }
      state := ReadSessionTicket;
      wait := if cfg.falseStart then EarlyReturn else Go;
    }

    method DoReadSessionTicket(next: Option<Msg>, v: Verdict) returns (used: bool)
      modifies this
      ensures (View(), used) == ReadSessionTicketStep(old(View()), next, v)
    {
      if !core.ticketExpected {
        state, wait := ProcessChangeCipherSpec, ReadCcs;
        return false;
      }
      if next.None? {
        wait := ReadMessage;
        return false;
      }
      if !next.value.NewSessionTicket? || v != Accept {
        wait := Failed;
        return false;
      }
      if next.value.empty {
        core := core.(ticketExpected := false);
      }
      core := core.Hash(next.value);
      state, wait := ProcessChangeCipherSpec, ReadCcs;
      return true;
    }

    method DoProcessChangeCipherSpec(v: Verdict)
      modifies this
      ensures (View(), false) == ProcessChangeCipherSpecStep(old(View()), v)
    {
      if v != Accept {
        wait := Failed;
        return;
      }
      core := core.ChangeReadKeys();
      state, wait := ReadServerFinished, Go;
    }

    method DoReadServerFinished(next: Option<Msg>) returns (used: bool)
      modifies this
      ensures (View(), used) == ReadServerFinishedStep(old(View()), next)
    {
      if next.None? {
        wait := ReadMessage;
        return false;
      }
      if !core.Matches(next.value, false) {
        wait := Failed;
        return false;
      }
      core := core.GetFinished(next.value);
      wait := Go;
      if core.resumed {
        state := SendClientFinished;
        return true;
      }
      state := FinishHandshake;
      return true;
    }

    method DoFinishHandshake(v: Verdict)
      modifies this
      ensures (View(), false) == FinishHandshakeStep(old(View()), v)
    {
      if v != Accept {
        wait := Failed;
        return;
      }
      state, wait := Done, Go;
    }

    /** The `switch` of `ssl_client_handshake`. */
    method DoHandshake(next: Option<Msg>, v: Verdict) returns (used: bool)
      modifies this
      ensures (View(), used) == Do(cfg, old(View()), next, v)
    {
      used := false;
      match state
      case StartConnect => DoStartConnect(v);
      case EnterEarlyData => DoEnterEarlyData();
      case ReadServerHello => used := DoReadServerHello(next, v);
      case ReadServerCertificate => used := DoReadServerCertificate(next, v);
      case ReadCertificateStatus => used := DoReadCertificateStatus(next, v);
      case VerifyServerCertificate => DoVerifyServerCertificate(v);
      case ReadServerKeyExchange => used := DoReadServerKeyExchange(next, v);
      case ReadCertificateRequest => used := DoReadCertificateRequest(next, v);
      case ReadServerHelloDone => used := DoReadServerHelloDone(next, v);
      case SendClientCertificate => DoSendClientCertificate(v);
      case SendClientKeyExchange => DoSendClientKeyExchange(v);
      case SendCertificateVerify => DoSendCertificateVerify(v);
      case SendClientFinished => DoSendClientFinished(v);
      case FinishFlight => DoFinishFlight(v);
      case ReadSessionTicket => used := DoReadSessionTicket(next, v);
      case ProcessChangeCipherSpec => DoProcessChangeCipherSpec(v);
      case ReadServerFinished => used := DoReadServerFinished(next);
      case FinishHandshake => DoFinishHandshake(v);
      case Done =>
    }

    /** One iteration of `ssl_run_handshake`: what the handshake waits for is resolved, then it goes on. */
    method TakeTurn(front: Option<Item>, v: Verdict) returns (used: bool, flushed: seq<Item>)
      modifies this
      ensures (View(), used, flushed) == Turn(cfg, old(View()), front, v)
    {
      used, flushed := false, [];
      var next := Peek(core, front);
      match wait {
        case Failed => return;
        case Flush =>
          flushed := core.pending;
          core := core.(pending := []);
        case ReadMessage =>
          if front.None? {
            return;
          }
          if next.None? {
            wait := Failed;
            return;
          }
        case ReadCcs =>
          if front.None? {
            return;
          }
          if front.value != ChangeCipherSpec(core.readEpoch) {
            wait := Failed;
            return;
          }
          var _ := DoHandshake(None, v);
          used := true;
          return;
        case _ =>
      }
      used := DoHandshake(next, v);
    }

    /** The loop of `ssl_run_handshake` over all that arrives, until nothing is left or the handshake is over. */
    method RunHandshake(inputs: seq<Input>)
      requires View() == START
      modifies this
      ensures View() == RunClient(cfg, START, inputs) && !core.readReleased
      ensures state == Done && wait != Failed ==> ClientDone(View())
    {
      var rest := inputs;
      while rest != []
        invariant RunClient(cfg, View(), rest) == RunClient(cfg, START, inputs)
        decreases |rest|
      {
        var _, _ := TakeTurn(rest[0].front, rest[0].v);
        rest := rest[1..];
      }
      ClientCompletes(cfg, inputs);
    }
  }
}
