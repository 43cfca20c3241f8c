/** The server's handshake as an object whose `do_*` methods set its state, after `handshake_server.cc`. */
module ServerHandshakes {
  import opened Wrappers
  import opened HandshakeState
  import opened ServerMachine
  import opened HandshakeSafety

  class ServerHandshake {
    const cfg: Config
    var state: State
    var wait: Wait
    var core: Core

    ghost function View(): Server
      reads this
    {
      Server(state, wait, core)
    }

    constructor (cfg: Config)
      ensures this.cfg == cfg && View() == START
    {
      this.cfg := cfg;
      state, wait, core := StartAccept, Go, FRESH;
    }

    method DoStartAccept()
      modifies this
      ensures (View(), false) == StartAcceptStep(old(View()))
    {
      state, wait := ReadClientHello, Go;
    }

    method DoReadClientHello(next: Option<Msg>, v: Verdict)
      modifies this
      ensures (View(), false) == ReadClientHelloStep(cfg, old(View()), next, v)
    {
      if next.None? {
        wait := ReadMessage;
        return;
      }
      if !next.value.ClientHello? || v != Accept {
        wait := if next.value.ClientHello? && v == Retry then Pending else Failed;
        return;
      }
      core := core.(npn := cfg.npn, channelId := cfg.channelIdOffered, statusExpected := cfg.status);
      state, wait := SelectCertificate, Go;
    }

    method DoSelectCertificate(next: Option<Msg>, v: Verdict)
      modifies this
      ensures (View(), false) == SelectCertificateStep(cfg, old(View()), next, v)
    {
      if next.None? {
        wait := ReadMessage;
        return;
      }
      if v != Accept {
        wait := if v == Retry then Pending else Failed;
        return;
      }
      core := core.(cipher := cfg.cipher);
      state, wait := SelectParameters, Go;
    }

    method DoSelectParameters(next: Option<Msg>, v: Verdict) returns (used: bool)
      modifies this
      ensures (View(), used) == SelectParametersStep(cfg, old(View()), next, v)
    {
      if next.None? {
        wait := ReadMessage;
        return false;
      }
      if v != Accept {
        wait := if v == Retry then Pending else Failed;
        return false;
      }
      var request := false;
      if !cfg.resume {
        request := cfg.verifyPeer;
        if cfg.peerIfNoChannelId && core.channelId {
          request := false;
        }
        if !core.cipher.certAuth {
          request := false;
        }
      }
      core := core.(resumed := cfg.resume, ticketExpected := cfg.ticket, certRequest := request);
      core := core.InitHash();
      core := core.Hash(next.value);
      if !core.certRequest {
        core := core.FreeBuffer();
      }
      state, wait := SendServerHello, Go;
      return true;
    }

    /** Channel ID is only for ECDHE, and for sessions that recorded the hashes it signs. */
    method SettleChannelId()
      modifies this`core
      ensures core == old(core).(channelId := KeepsChannelId(cfg, old(core)))
    {
      if core.channelId && !core.cipher.ecdhe {
        core := core.(channelId := false);
      }
      if core.resumed && !cfg.hasOriginalHash {
        core := core.(channelId := false);
      }
    }

    method DoSendServerHello(v: Verdict)
      modifies this
      ensures (View(), false) == SendServerHelloStep(cfg, old(View()), v)
    {
      if v != Accept {
        wait := Failed;
        return;
      }
      SettleChannelId();
      var hello := HelloOf(core);
      core := core.Add(hello);
      wait := Go;
      if core.resumed {
        state := SendServerFinished;
      } else {
        state := SendServerCertificate;
      }
    }

    method DoSendServerCertificate(v: Verdict)
      modifies this
      ensures (View(), false) == SendServerCertificateStep(cfg, old(View()), v)
    {
      if v != Accept {
        wait := Failed;
        return;
      }
      if core.cipher.certAuth {
        core := core.Add(Certificate(true));
        if core.statusExpected {
          core := core.Add(CertificateStatus);
        }
      }
      core := core.(serverParams := core.cipher.ecdhe || (!core.cipher.certAuth && cfg.pskHint));
      state, wait := SendServerKeyExchange, Go;
    }

    method DoSendServerKeyExchange(v: Verdict)
      modifies this
      ensures (View(), false) == SendServerKeyExchangeStep(old(View()), v)
    {
      if !core.serverParams {
        state, wait := SendServerHelloDone, Go;
        return;
      }
      if v != Accept {
        wait := if core.cipher.certAuth && v == Retry then Pending else Failed;
        return;
      }
      core := core.(serverParams := false);
      core := core.Add(ServerKeyExchange);
      state, wait := SendServerHelloDone, Go;
    }

    method DoSendServerHelloDone(v: Verdict)
      modifies this
      ensures (View(), false) == SendServerHelloDoneStep(old(View()), v)
    {
      if v != Accept {
        wait := Failed;
        return;
      }
      if core.certRequest {
        core := core.Add(CertificateRequest);
      }
      core := core.Add(ServerHelloDone);
      state, wait := ReadClientCertificate, Flush;
    }

    method DoReadClientCertificate(next: Option<Msg>, v: Verdict) returns (used: bool)
      modifies this
      ensures (View(), used) == ReadClientCertificateStep(cfg, old(View()), next, v)
    {
      if !core.certRequest {
        state, wait := VerifyClientCertificate, Go;
        return false;
      }
      if next.None? {
        wait := ReadMessage;
        return false;
      }
      if !next.value.Certificate? || v != Accept {
        wait := Failed;
        return false;
      }
      if !next.value.present && cfg.failIfNoCertificate {
        wait := Failed;
        return false;
      }
      core := core.(peerKey := next.value.present);
      core := core.Hash(next.value);
      if !next.value.present {
        core := core.FreeBuffer();
      }
      state, wait := VerifyClientCertificate, Go;
      return true;
    }

    method DoVerifyClientCertificate(v: Verdict)
      modifies this
      ensures (View(), false) == VerifyClientCertificateStep(old(View()), v)
    {
      if core.peerKey && v != Accept {
        wait := if v == Retry then Pending else Failed;
        return;
      }
      state, wait := ReadClientKeyExchange, Go;
    }

    method DoReadClientKeyExchange(next: Option<Msg>, v: Verdict) returns (used: bool)
      modifies this
      ensures (View(), used) == ReadClientKeyExchangeStep(old(View()), next, v)
    {
      if next.None? {
        wait := ReadMessage;
        return false;
      }
      if !next.value.ClientKeyExchange? || v != Accept {
        var rsa := core.cipher.certAuth && !core.cipher.ecdhe;
        wait := if next.value.ClientKeyExchange? && v == Retry && rsa then Pending else Failed;
        return false;
      }
      core := core.Hash(next.value);
      state, wait := ReadCertificateVerify, Go;
      return true;
    }

    method DoReadCertificateVerify(next: Option<Msg>, v: Verdict) returns (used: bool)
      requires state == ReadCertificateVerify
      modifies this
      ensures (View(), used) == ReadCertificateVerifyStep(old(View()), next, v)
    {
      if !core.peerKey {
        core := core.FreeBuffer();
        state, wait := State.ReadChangeCipherSpec, Go;
        return false;
      }
      if next.None? {
        wait := ReadMessage;
        return false;
      }
      if !next.value.CertificateVerify? || v != Accept {
        wait := Failed;
        return false;
      }
      var signed := core.Buffer();
      core := core.NoteRead();
      if next.value.signed != signed {
        wait := Failed;
        return false;
      }
      core := core.(log := core.log + [VerifiedClientKey(next.value, core.Transcript())]);
      core := core.FreeBuffer();
      core := core.Hash(next.value);
      state, wait := State.ReadChangeCipherSpec, Go;
      return true;
    }

    method DoReadChangeCipherSpec()
      modifies this
      ensures (View(), false) == ReadChangeCipherSpecStep(old(View()))
    {
      state, wait := ProcessChangeCipherSpec, ReadCcs;
    }

    method DoProcessChangeCipherSpec(v: Verdict)
      modifies this
      ensures (View(), false) == ProcessChangeCipherSpecStep(old(View()), v)
    {
      if v != Accept {
        wait := Failed;
        return;
      }
      core := core.ChangeReadKeys();
      state, wait := ReadNextProto, Go;
    }

    method DoReadNextProto(next: Option<Msg>, v: Verdict) returns (used: bool)
      modifies this
      ensures (View(), used) == ReadNextProtoStep(old(View()), next, v)
    {
      if !core.npn {
        state, wait := ReadChannelId, Go;
        return false;
      }
      if next.None? {
        wait := ReadMessage;
        return false;
      }
      if !next.value.NextProto? || v != Accept {
        wait := Failed;
        return false;
      }
      core := core.Hash(next.value);
      state, wait := ReadChannelId, Go;
      return true;
    }

    method DoReadChannelId(next: Option<Msg>, v: Verdict) returns (used: bool)
      modifies this
      ensures (View(), used) == ReadChannelIdStep(old(View()), next, v)
    {
      if !core.channelId {
        state, wait := ReadClientFinished, Go;
        return false;
      }
      if next.None? {
        wait := ReadMessage;
        return false;
      }
      if !next.value.ChannelId? || v != Accept {
        wait := Failed;
        return false;
      }
      core := core.Hash(next.value);
      state, wait := ReadClientFinished, Go;
      return true;
    }

    method DoReadClientFinished(next: Option<Msg>, v: Verdict) returns (used: bool)
      modifies this
      ensures (View(), used) == ReadClientFinishedStep(old(View()), next, v)
    {
      if next.None? {
        wait := ReadMessage;
        return false;
      }
      if !core.Matches(next.value, true) || v != Accept {
        wait := Failed;
        return false;
      }
      core := core.GetFinished(next.value);
      wait := Go;
      if core.resumed {
        state := FinishHandshake;
      } else {
        state := SendServerFinished;
      }
      return true;
    }

    method DoSendServerFinished(v: Verdict)
      modifies this
      ensures (View(), false) == SendServerFinishedStep(old(View()), v)
    {
      if v != Accept {
        wait := Failed;
        return;
      }
      if core.ticketExpected {
        core := core.Add(NewSessionTicket(false));
      }
      core := core.AddChangeCipherSpec();
      core := core.ChangeWriteKeys();
      core := core.SendFinished(true);
      wait := Flush;
      if core.resumed {
        state := State.ReadChangeCipherSpec;
      } else {
        state := FinishHandshake;
      }
    }

    method DoFinishHandshake()
      modifies this
      ensures (View(), false) == FinishHandshakeStep(old(View()))
    {
      state, wait := Done, Go;
    }

    /** The `switch` of `ssl_server_handshake`. */
    method DoHandshake(next: Option<Msg>, v: Verdict) returns (used: bool)
      modifies this
      ensures (View(), used) == Do(cfg, old(View()), next, v)
    {
      used := false;
      match state
      case StartAccept => DoStartAccept();
      case ReadClientHello => DoReadClientHello(next, v);
      case SelectCertificate => DoSelectCertificate(next, v);
      case SelectParameters => used := DoSelectParameters(next, v);
      case SendServerHello => DoSendServerHello(v);
      case SendServerCertificate => DoSendServerCertificate(v);
      case SendServerKeyExchange => DoSendServerKeyExchange(v);
      case SendServerHelloDone => DoSendServerHelloDone(v);
      case ReadClientCertificate => used := DoReadClientCertificate(next, v);
      case VerifyClientCertificate => DoVerifyClientCertificate(v);
      case ReadClientKeyExchange => used := DoReadClientKeyExchange(next, v);
      case ReadCertificateVerify => used := DoReadCertificateVerify(next, v);
      case ReadChangeCipherSpec => DoReadChangeCipherSpec();
      case ProcessChangeCipherSpec => DoProcessChangeCipherSpec(v);
      case ReadNextProto => used := DoReadNextProto(next, v);
      case ReadChannelId => used := DoReadChannelId(next, v);
      case ReadClientFinished => used := DoReadClientFinished(next, v);
      case SendServerFinished => DoSendServerFinished(v);
      case FinishHandshake => DoFinishHandshake();
      case Done =>
    }

    /** One iteration of `ssl_run_handshake`: what the handshake waits for is resolved, then it goes on. */
    method TakeTurn(front: Option<Item>, v: Verdict) returns (used: bool, flushed: seq<Item>)
      modifies this
      ensures (View(), used, flushed) == Turn(cfg, old(View()), front, v)
    {
      used, flushed := false, [];
      var next := Peek(core, front);
      match wait {
        case Failed => return;
        case Flush =>
          flushed := core.pending;
          core := core.(pending := []);
        case ReadMessage =>
          if front.None? {
            return;
          }
          if next.None? {
            wait := Failed;
            return;
          }
        case ReadCcs =>
          if front.None? {
            return;
          }
          if front.value != ChangeCipherSpec(core.readEpoch) {
            wait := Failed;
            return;
          }
          var _ := DoHandshake(None, v);
          used := true;
          return;
        case _ =>
      }
      used := DoHandshake(next, v);
    }

    /** The loop of `ssl_run_handshake` over all that arrives, until nothing is left or the handshake is over. */
    method RunHandshake(inputs: seq<Input>)
      requires View() == START
      modifies this
      ensures View() == RunServer(cfg, START, inputs) && !core.readReleased
      ensures state == Done && wait != Failed ==> ServerDone(View())
    {
      var rest := inputs;
      while rest != []
        invariant RunServer(cfg, View(), rest) == RunServer(cfg, START, inputs)
        decreases |rest|
      {
        var _, _ := TakeTurn(rest[0].front, rest[0].v);
        rest := rest[1..];
      }
      ServerCompletes(cfg, inputs);
    }
  }
}
