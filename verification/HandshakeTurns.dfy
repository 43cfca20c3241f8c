/** What a turn of either handshake machine consumes and sends, and when the keys for reading change. */
module HandshakeTurns {
  import opened Wrappers
  import opened HandshakeState
  import C = ClientMachine
  import S = ServerMachine
  import opened HandshakeSafety
  import opened HandshakeVerdicts

  /** What a side can take: a message under the keys it reads with, or, where it waits for one, a ChangeCipherSpec under them. */
  predicate Takes(wait: Wait, epoch: nat, item: Item) {
    if wait.ReadCcs? then item == ChangeCipherSpec(epoch) else item.Record? && item.epoch == epoch
  }

  /** Nothing done to the transcript touches the keys for reading. */
  lemma ReadEpochKept(k: Core, m: Msg, server: bool)
    ensures k.Hash(m).readEpoch == k.Add(m).readEpoch == k.GetFinished(m).readEpoch == k.SendFinished(server).readEpoch == k.readEpoch
    ensures k.InitHash().readEpoch == k.NoteRead().readEpoch == k.FreeBuffer().readEpoch == k.readEpoch
    ensures k.AddChangeCipherSpec().readEpoch == k.ChangeWriteKeys().readEpoch == k.readEpoch
  {}

  // ---- The client.

  /** A step consumes only a message it was given. */
  lemma ClientStepUses(cfg: C.Config, c: C.Client, next: Option<Msg>, v: Verdict)
    ensures C.Do(cfg, c, next, v).1 ==> next.Some? && !C.Do(cfg, c, next, v).0.wait.Failed?
  {
    hide Core.Hash, Core.Add, Core.SendFinished, Core.GetFinished, Core.InitHash, Core.NoteRead, Core.Matches, Core.Buffer, Core.Transcript,
      Core.AddChangeCipherSpec, Core.ChangeWriteKeys, Core.ChangeReadKeys, Core.FreeBuffer;
  }

  lemma ClientHelloKeepsEpoch(cfg: C.Config, c: C.Client, next: Option<Msg>, v: Verdict)
    ensures C.ReadServerHelloStep(cfg, c, next, v).0.core.readEpoch == c.core.readEpoch
  {
    hide Core.Hash, Core.InitHash;
    if next.Some? && next.value.ServerHello? {
      var m, resumed := next.value, next.value.resumed && cfg.hasSession;
      var k := c.core.(resumed := resumed, cipher := m.cipher, ticketExpected := m.ticket, statusExpected := m.status,
                       npn := m.npn, channelId := m.channelId);
      ReadEpochKept(k, m, false);
      ReadEpochKept(k.InitHash(), m, false);
    }
  }

  lemma ClientStatusKeepsEpoch(c: C.Client, next: Option<Msg>, v: Verdict)
    ensures C.ReadCertificateStatusStep(c, next, v).0.core.readEpoch == c.core.readEpoch
  {}

  lemma ClientKeyKeepsEpoch(c: C.Client, next: Option<Msg>, v: Verdict)
    ensures C.ReadServerKeyExchangeStep(c, next, v).0.core.readEpoch == c.core.readEpoch
  {}

  lemma ClientDoneKeepsEpoch(c: C.Client, next: Option<Msg>, v: Verdict)
    ensures C.ReadServerHelloDoneStep(c, next, v).0.core.readEpoch == c.core.readEpoch
  {}

  lemma ClientGotKeepsEpoch(c: C.Client, next: Option<Msg>)
    ensures C.ReadServerFinishedStep(c, next).0.core.readEpoch == c.core.readEpoch
  {
    hide Core.GetFinished, Core.Matches;
    if next.Some? { ReadEpochKept(c.core, next.value, false); }
  }

  lemma ClientCertificateKeepsEpoch(c: C.Client, next: Option<Msg>, v: Verdict)
    ensures C.ReadServerCertificateStep(c, next, v).0.core.readEpoch == c.core.readEpoch
  {
    hide Core.Hash;
    if next.Some? { ReadEpochKept(c.core.(peerKey := true), next.value, false); }
  }

  lemma ClientRequestKeepsEpoch(c: C.Client, next: Option<Msg>, v: Verdict)
    ensures C.ReadCertificateRequestStep(c, next, v).0.core.readEpoch == c.core.readEpoch
  {
    hide Core.Hash;
    if next.Some? { ReadEpochKept(c.core.(certRequest := true), next.value, false); }
  }

  lemma ClientTicketKeepsEpoch(c: C.Client, next: Option<Msg>, v: Verdict)
    ensures C.ReadSessionTicketStep(c, next, v).0.core.readEpoch == c.core.readEpoch
  {
    hide Core.Hash;
    if next.Some? && next.value.NewSessionTicket? { ReadEpochKept(c.core.(ticketExpected := !next.value.empty), next.value, false); }
  }

  lemma ClientSendsKeepEpoch(cfg: C.Config, c: C.Client, v: Verdict)
    ensures C.StartConnectStep(c, v).0.core.readEpoch == c.core.readEpoch
    ensures C.SendClientCertificateStep(cfg, c, v).0.core.readEpoch == c.core.readEpoch
    ensures C.SendClientKeyExchangeStep(c, v).0.core.readEpoch == c.core.readEpoch
  {
    hide Core.Hash, Core.Add;
    ReadEpochKept(c.core, ClientHello, false);
    ReadEpochKept(c.core, Certificate(cfg.hasCertificate), false);
    ReadEpochKept(c.core.FreeBuffer(), Certificate(cfg.hasCertificate), false);
    ReadEpochKept(c.core, ClientKeyExchange, false);
  }

  lemma ClientProvesKeepsEpoch(cfg: C.Config, c: C.Client, v: Verdict)
    ensures C.SendCertificateVerifyStep(cfg, c, v).0.core.readEpoch == c.core.readEpoch
  {
    hide Core.Hash, Core.Add, Core.NoteRead, Core.Buffer;
    ReadEpochKept(c.core, ClientHello, false);
    ReadEpochKept(c.core.NoteRead(), CertificateVerify(c.core.Buffer()), false);
  }

  lemma ClientFlightKeepsEpoch(c: C.Client, v: Verdict)
    ensures C.SendClientFinishedStep(c, v).0.core.readEpoch == c.core.readEpoch
  {
    hide Core.Hash, Core.Add, Core.SendFinished;
    var k := c.core.AddChangeCipherSpec().ChangeWriteKeys();
    ReadEpochKept(k, NextProto, false);
    var proto := if k.npn then k.Add(NextProto) else k;
    ReadEpochKept(proto, ChannelId, false);
    ReadEpochKept(if proto.channelId then proto.Add(ChannelId) else proto, ChannelId, false);
  }

  /** Only the step at a ChangeCipherSpec changes the keys for reading. */
  lemma ClientStepKeepsEpoch(cfg: C.Config, c: C.Client, next: Option<Msg>, v: Verdict)
    ensures C.Do(cfg, c, next, v).0.core.readEpoch == c.core.readEpoch + (if c.state.ProcessChangeCipherSpec? && v == Accept then 1 else 0)
  {
    hide C.ReadServerHelloStep, C.ReadServerCertificateStep, C.ReadCertificateStatusStep, C.ReadServerKeyExchangeStep,
      C.ReadCertificateRequestStep, C.ReadServerHelloDoneStep, C.ReadSessionTicketStep, C.ReadServerFinishedStep,
      C.StartConnectStep, C.SendClientCertificateStep, C.SendClientKeyExchangeStep, C.SendCertificateVerifyStep, C.SendClientFinishedStep;
    match c.state
    case ReadServerHello => ClientHelloKeepsEpoch(cfg, c, next, v);
    case ReadServerCertificate => ClientCertificateKeepsEpoch(c, next, v);
    case ReadCertificateStatus => ClientStatusKeepsEpoch(c, next, v);
    case ReadServerKeyExchange => ClientKeyKeepsEpoch(c, next, v);
    case ReadServerHelloDone => ClientDoneKeepsEpoch(c, next, v);
    case ReadServerFinished => ClientGotKeepsEpoch(c, next);
    case ReadCertificateRequest => ClientRequestKeepsEpoch(c, next, v);
    case ReadSessionTicket => ClientTicketKeepsEpoch(c, next, v);
    case StartConnect | SendClientCertificate | SendClientKeyExchange => ClientSendsKeepEpoch(cfg, c, v);
    case SendCertificateVerify => ClientProvesKeepsEpoch(cfg, c, v);
    case SendClientFinished => ClientFlightKeepsEpoch(c, v);
    case _ =>
  }

  lemma ClientStepWaits(cfg: C.Config, c: C.Client, next: Option<Msg>, v: Verdict)
    requires ClientWaits(c)
    ensures ClientWaits(C.Do(cfg, c, next, v).0)
  {
    hide Core.Hash, Core.Add, Core.SendFinished, Core.GetFinished, Core.InitHash, Core.NoteRead, Core.Matches, Core.Buffer, Core.Transcript,
      Core.AddChangeCipherSpec, Core.ChangeWriteKeys, Core.ChangeReadKeys, Core.FreeBuffer;
  }

  /** While a ChangeCipherSpec is to be processed, it is waited for. */
  predicate ClientWaits(c: C.Client) {
    c.state.ProcessChangeCipherSpec? ==> c.wait.ReadCcs? || c.wait.Failed?
  }

  /**
   * A turn consumes what is at the front only if it can be taken, and fails when it waits for what is not
   * there; while nothing has come it changes nothing. Only what was pending is sent, and only after a flush.
   */
  lemma ClientTurnConsumes(cfg: C.Config, c: C.Client, front: Option<Item>, v: Verdict)
    requires ClientWaits(c)
    ensures var (n, used, sent) := C.Turn(cfg, c, front, v);
            && ClientWaits(n) && sent == (if c.wait.Flush? then c.core.pending else [])
            && (used ==> front.Some? && Takes(c.wait, c.core.readEpoch, front.value))
            && (front.None? && (c.wait.ReadMessage? || c.wait.ReadCcs?) ==> n == c)
            && (front.Some? && (c.wait.ReadMessage? || c.wait.ReadCcs?) && !Takes(c.wait, c.core.readEpoch, front.value) ==> n.wait.Failed? && !used)
            && (n.core.readEpoch != c.core.readEpoch ==>
                  n.core.readEpoch == c.core.readEpoch + 1 && front == Some(ChangeCipherSpec(c.core.readEpoch)) && used)
  {
    hide C.Do;
    var flushed := c.(core := c.core.(pending := []));
    ClientStepUses(cfg, c, Peek(c.core, front), v);
    ClientStepKeepsEpoch(cfg, c, Peek(c.core, front), v);
    ClientStepWaits(cfg, c, Peek(c.core, front), v);
    ClientStepUses(cfg, c, None, v);
    ClientStepKeepsEpoch(cfg, c, None, v);
    ClientStepWaits(cfg, c, None, v);
    ClientStepUses(cfg, flushed, Peek(c.core, front), v);
    ClientStepKeepsEpoch(cfg, flushed, Peek(c.core, front), v);
    ClientStepWaits(cfg, flushed, Peek(c.core, front), v);
  }

  /** At the i-th input the client took a ChangeCipherSpec. */
  ghost predicate ClientChangesAt(cfg: C.Config, inputs: seq<Input>, i: nat, epoch: nat)
    requires i < |inputs|
  {
    var c := RunClient(cfg, C.START, inputs[..i]);
    c.core.readEpoch == epoch && inputs[i].front == Some(ChangeCipherSpec(epoch)) && C.Turn(cfg, c, inputs[i].front, inputs[i].v).1
  }

  ghost predicate ClientChanged(cfg: C.Config, inputs: seq<Input>, epoch: nat) {
    exists i :: 0 <= i < |inputs| && ClientChangesAt(cfg, inputs, i, epoch)
  }

  /** The client reads under new keys exactly as often as it took a ChangeCipherSpec: for each change there was one, under the keys before it. */
  lemma {:induction false} ClientChanges(cfg: C.Config, inputs: seq<Input>)
    ensures var c := RunClient(cfg, C.START, inputs);
            && ClientWaits(c)
            && forall e: nat :: e < c.core.readEpoch ==> ClientChanged(cfg, inputs, e)
    decreases |inputs|
  {
    hide C.Turn, ClientWaits;
    if inputs == [] {
      assert ClientWaits(C.START) by { ClientStartWaits(); }
    } else {
      var n := |inputs| - 1;
      var before, last := inputs[..n], inputs[n];
      var c := RunClient(cfg, C.START, before);
      assert inputs == before + [last];
      ClientRunNext(cfg, C.START, before, last);
      ClientChanges(cfg, before);
      ClientTurnConsumes(cfg, c, last.front, last.v);
      forall e: nat | e < RunClient(cfg, C.START, inputs).core.readEpoch
        ensures ClientChanged(cfg, inputs, e)
      {
        if e < c.core.readEpoch {
          assert ClientChanged(cfg, before, e);
          var i :| 0 <= i < n && ClientChangesAt(cfg, before, i, e);
          assert before[..i] == inputs[..i];
          assert ClientChangesAt(cfg, inputs, i, e);
        } else {
          assert ClientChangesAt(cfg, inputs, n, e);
        }
      }
    }
  }

  lemma ClientStartWaits()
    ensures ClientWaits(C.START)
  {}

  // ---- The server.

  lemma ServerStepUses(cfg: S.Config, s: S.Server, next: Option<Msg>, v: Verdict)
    ensures S.Do(cfg, s, next, v).1 ==> next.Some? && !S.Do(cfg, s, next, v).0.wait.Failed?
  {
    hide Core.Hash, Core.Add, Core.SendFinished, Core.GetFinished, Core.InitHash, Core.NoteRead, Core.Matches, Core.Buffer, Core.Transcript,
      Core.AddChangeCipherSpec, Core.ChangeWriteKeys, Core.ChangeReadKeys, Core.FreeBuffer;
  }

  lemma ServerParametersKeepEpoch(cfg: S.Config, s: S.Server, next: Option<Msg>, v: Verdict)
    ensures S.SelectParametersStep(cfg, s, next, v).0.core.readEpoch == s.core.readEpoch
  {
    hide Core.Hash, Core.InitHash;
    if next.Some? {
      var request := !cfg.resume && cfg.verifyPeer && !(cfg.peerIfNoChannelId && s.core.channelId) && s.core.cipher.certAuth;
      var k := s.core.(resumed := cfg.resume, ticketExpected := cfg.ticket, certRequest := request);
      ReadEpochKept(k, next.value, true);
      ReadEpochKept(k.InitHash(), next.value, true);
    }
  }

  lemma ServerCertificateKeepsEpoch(cfg: S.Config, s: S.Server, next: Option<Msg>, v: Verdict)
    ensures S.ReadClientCertificateStep(cfg, s, next, v).0.core.readEpoch == s.core.readEpoch
  {
    hide Core.Hash;
    if next.Some? && next.value.Certificate? { ReadEpochKept(s.core.(peerKey := next.value.present), next.value, true); }
  }

  lemma ServerKeyKeepsEpoch(s: S.Server, next: Option<Msg>, v: Verdict)
    ensures S.ReadClientKeyExchangeStep(s, next, v).0.core.readEpoch == s.core.readEpoch
  {}

  lemma ServerNamesKeepEpoch(s: S.Server, next: Option<Msg>, v: Verdict)
    ensures S.ReadNextProtoStep(s, next, v).0.core.readEpoch == s.core.readEpoch
    ensures S.ReadChannelIdStep(s, next, v).0.core.readEpoch == s.core.readEpoch
  {
    hide Core.Hash;
    if next.Some? { ReadEpochKept(s.core, next.value, true); }
  }

  lemma ServerLaterReadsKeepEpoch(s: S.Server, next: Option<Msg>, v: Verdict)
    ensures S.ReadCertificateVerifyStep(s, next, v).0.core.readEpoch == s.core.readEpoch
    ensures S.ReadClientFinishedStep(s, next, v).0.core.readEpoch == s.core.readEpoch
  {
    hide Core.Hash, Core.GetFinished, Core.Matches, Core.NoteRead, Core.Buffer, Core.Transcript;
    if next.Some? {
      ReadEpochKept(s.core, next.value, true);
      var checked := s.core.NoteRead();
      var noted := checked.(log := checked.log + [VerifiedClientKey(next.value, s.core.Transcript())]);
      ReadEpochKept(noted.FreeBuffer(), next.value, true);
    }
  }

  lemma ServerHelloKeepsEpoch(cfg: S.Config, s: S.Server, v: Verdict)
    ensures S.SendServerHelloStep(cfg, s, v).0.core.readEpoch == s.core.readEpoch
  {
    hide Core.Hash, Core.Add, S.HelloOf, S.KeepsChannelId;
    var kept := s.core.(channelId := S.KeepsChannelId(cfg, s.core));
    ReadEpochKept(kept, S.HelloOf(kept), true);
  }

  lemma ServerOffersKeepEpoch(cfg: S.Config, s: S.Server, v: Verdict)
    ensures S.SendServerCertificateStep(cfg, s, v).0.core.readEpoch == s.core.readEpoch
    ensures S.SendServerKeyExchangeStep(s, v).0.core.readEpoch == s.core.readEpoch
  {
    hide Core.Hash, Core.Add;
    ReadEpochKept(s.core, Certificate(true), true);
    ReadEpochKept(s.core.Add(Certificate(true)), CertificateStatus, true);
    ReadEpochKept(s.core.(serverParams := false), ServerKeyExchange, true);
  }

  lemma ServerDoneKeepsEpoch(s: S.Server, v: Verdict)
    ensures S.SendServerHelloDoneStep(s, v).0.core.readEpoch == s.core.readEpoch
  {
    hide Core.Hash, Core.Add;
    ReadEpochKept(s.core, CertificateRequest, true);
    ReadEpochKept(s.core, ServerHelloDone, true);
    ReadEpochKept(s.core.Add(CertificateRequest), ServerHelloDone, true);
  }

  lemma ServerFlightKeepsEpoch(s: S.Server, v: Verdict)
    ensures S.SendServerFinishedStep(s, v).0.core.readEpoch == s.core.readEpoch
  {
    hide Core.Hash, Core.Add, Core.SendFinished;
    ReadEpochKept(s.core, NewSessionTicket(false), true);
    var ticketed := if s.core.ticketExpected then s.core.Add(NewSessionTicket(false)) else s.core;
    ReadEpochKept(ticketed.AddChangeCipherSpec().ChangeWriteKeys(), ClientHello, true);
  }

  /** Only the step at a ChangeCipherSpec changes the keys for reading. */
  lemma ServerStepKeepsEpoch(cfg: S.Config, s: S.Server, next: Option<Msg>, v: Verdict)
    ensures S.Do(cfg, s, next, v).0.core.readEpoch == s.core.readEpoch + (if s.state.ProcessChangeCipherSpec? && v == Accept then 1 else 0)
  {
    hide S.SelectParametersStep, S.ReadClientCertificateStep, S.ReadClientKeyExchangeStep, S.ReadNextProtoStep, S.ReadChannelIdStep,
      S.ReadCertificateVerifyStep, S.ReadClientFinishedStep, S.SendServerHelloStep, S.SendServerCertificateStep,
      S.SendServerKeyExchangeStep, S.SendServerHelloDoneStep, S.SendServerFinishedStep;
    match s.state
    case SelectParameters => ServerParametersKeepEpoch(cfg, s, next, v);
    case ReadClientCertificate => ServerCertificateKeepsEpoch(cfg, s, next, v);
    case ReadClientKeyExchange => ServerKeyKeepsEpoch(s, next, v);
    case ReadNextProto | ReadChannelId => ServerNamesKeepEpoch(s, next, v);
    case ReadCertificateVerify | ReadClientFinished => ServerLaterReadsKeepEpoch(s, next, v);
    case SendServerHello => ServerHelloKeepsEpoch(cfg, s, v);
    case SendServerCertificate | SendServerKeyExchange => ServerOffersKeepEpoch(cfg, s, v);
    case SendServerHelloDone => ServerDoneKeepsEpoch(s, v);
    case SendServerFinished => ServerFlightKeepsEpoch(s, v);
    case _ =>
  }

  predicate ServerReplies(state: S.State) {
    state.StartAccept? || state.ReadClientHello? || state.SelectCertificate? || state.SelectParameters? || state.SendServerHello?
    || state.SendServerCertificate? || state.SendServerKeyExchange? || state.SendServerHelloDone? || state.ReadClientCertificate?
  }

  lemma ServerRepliesWait(cfg: S.Config, s: S.Server, next: Option<Msg>, v: Verdict)
    requires ServerReplies(s.state)
    ensures ServerWaits(S.Do(cfg, s, next, v).0)
  {
    hide S.HelloOf, S.KeepsChannelId, Core.Hash, Core.Add, Core.InitHash, Core.FreeBuffer;
  }

  lemma ServerStepWaits(cfg: S.Config, s: S.Server, next: Option<Msg>, v: Verdict)
    requires ServerWaits(s)
    ensures ServerWaits(S.Do(cfg, s, next, v).0)
  {
    hide S.HelloOf, S.KeepsChannelId, Core.Hash, Core.Add, Core.SendFinished, Core.GetFinished, Core.InitHash, Core.NoteRead, Core.Matches,
      Core.Buffer, Core.Transcript, Core.AddChangeCipherSpec, Core.ChangeWriteKeys, Core.ChangeReadKeys, Core.FreeBuffer;
    if ServerReplies(s.state) {
      ServerRepliesWait(cfg, s, next, v);
    }
  }

  /** While a ChangeCipherSpec is to be processed, it is waited for. */
  predicate ServerWaits(s: S.Server) {
    s.state.ProcessChangeCipherSpec? ==> s.wait.ReadCcs? || s.wait.Failed?
  }

  /**
   * A turn consumes what is at the front only if it can be taken, and fails when it waits for what is not
   * there; while nothing has come it changes nothing. Only what was pending is sent, and only after a flush.
   */
  lemma ServerTurnConsumes(cfg: S.Config, s: S.Server, front: Option<Item>, v: Verdict)
    requires ServerWaits(s)
    ensures var (n, used, sent) := S.Turn(cfg, s, front, v);
            && ServerWaits(n) && sent == (if s.wait.Flush? then s.core.pending else [])
            && (used ==> front.Some? && Takes(s.wait, s.core.readEpoch, front.value))
            && (front.None? && (s.wait.ReadMessage? || s.wait.ReadCcs?) ==> n == s)
            && (front.Some? && (s.wait.ReadMessage? || s.wait.ReadCcs?) && !Takes(s.wait, s.core.readEpoch, front.value) ==> n.wait.Failed? && !used)
            && (n.core.readEpoch != s.core.readEpoch ==>
                  n.core.readEpoch == s.core.readEpoch + 1 && front == Some(ChangeCipherSpec(s.core.readEpoch)) && used)
  {
    hide S.Do;
    var flushed := s.(core := s.core.(pending := []));
    ServerStepUses(cfg, s, Peek(s.core, front), v);
    ServerStepKeepsEpoch(cfg, s, Peek(s.core, front), v);
    ServerStepWaits(cfg, s, Peek(s.core, front), v);
    ServerStepUses(cfg, s, None, v);
    ServerStepKeepsEpoch(cfg, s, None, v);
    ServerStepWaits(cfg, s, None, v);
    ServerStepUses(cfg, flushed, Peek(s.core, front), v);
    ServerStepKeepsEpoch(cfg, flushed, Peek(s.core, front), v);
    ServerStepWaits(cfg, flushed, Peek(s.core, front), v);
  }

  /** At the i-th input the server took a ChangeCipherSpec. */
  ghost predicate ServerChangesAt(cfg: S.Config, inputs: seq<Input>, i: nat, epoch: nat)
    requires i < |inputs|
  {
    var s := RunServer(cfg, S.START, inputs[..i]);
    s.core.readEpoch == epoch && inputs[i].front == Some(ChangeCipherSpec(epoch)) && S.Turn(cfg, s, inputs[i].front, inputs[i].v).1
  }

  ghost predicate ServerChanged(cfg: S.Config, inputs: seq<Input>, epoch: nat) {
    exists i :: 0 <= i < |inputs| && ServerChangesAt(cfg, inputs, i, epoch)
  }

  /** The server reads under new keys exactly as often as it took a ChangeCipherSpec: for each change there was one, under the keys before it. */
  lemma {:induction false} ServerChanges(cfg: S.Config, inputs: seq<Input>)
    ensures var s := RunServer(cfg, S.START, inputs);
            && ServerWaits(s)
            && forall e: nat :: e < s.core.readEpoch ==> ServerChanged(cfg, inputs, e)
    decreases |inputs|
  {
    hide S.Turn, ServerWaits;
    if inputs == [] {
      assert ServerWaits(S.START) by { ServerStartWaits(); }
    } else {
      var n := |inputs| - 1;
      var before, last := inputs[..n], inputs[n];
      var s := RunServer(cfg, S.START, before);
      assert inputs == before + [last];
      ServerRunNext(cfg, S.START, before, last);
      ServerChanges(cfg, before);
      ServerTurnConsumes(cfg, s, last.front, last.v);
      forall e: nat | e < RunServer(cfg, S.START, inputs).core.readEpoch
        ensures ServerChanged(cfg, inputs, e)
      {
        if e < s.core.readEpoch {
          assert ServerChanged(cfg, before, e);
          var i :| 0 <= i < n && ServerChangesAt(cfg, before, i, e);
          assert before[..i] == inputs[..i];
          assert ServerChangesAt(cfg, inputs, i, e);
        } else {
          assert ServerChangesAt(cfg, inputs, n, e);
        }
      }
    }
  }

  lemma ServerStartWaits()
    ensures ServerWaits(S.START)
  {}
}
