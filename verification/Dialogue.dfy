/**
 * The dialogue two agreeing sides should have, laid out beforehand: the phases of a full or of a
 * resumed handshake, each with the message sent in it, if any, and where each state stands in it.
 */
module Dialogue {
  import opened Wrappers
  import opened HandshakeState
  import C = ClientMachine
  import S = ServerMachine

  /** What the two configurations lead to. */
  datatype Plan = Plan(
    resumed: bool,
    cipher: Cipher,
    ticket: bool,
    status: bool,
    keyExchange: bool,
    request: bool,
    clientKey: bool,
    npn: bool,
    channelId: bool)

  function PlanOf(cc: C.Config, sc: S.Config): Plan {
    Plan(sc.resume, sc.cipher, sc.ticket, sc.status, sc.SendsKeyExchange(), sc.Requests(),
         sc.Requests() && cc.hasCertificate, sc.npn, sc.UsesChannelId())
  }

  /** The sides agree: a resumed session is one the client offered, and a demanded certificate is there. */
  predicate Agreed(cc: C.Config, sc: S.Config) {
    (sc.resume ==> cc.hasSession) && (sc.Requests() && sc.failIfNoCertificate ==> cc.hasCertificate)
  }

  function Phases(p: Plan): nat {
    if p.resumed then 9 else 17
  }

  /** The phases of the two ChangeCipherSpecs. */
  function ClientCcs(p: Plan): nat {
    if p.resumed then 5 else 10
  }

  function ServerCcs(p: Plan): nat {
    if p.resumed then 3 else 15
  }

  /** Which side speaks in a phase. */
  predicate ClientSpeaks(p: Plan, k: nat) {
    k == 0 || (if p.resumed then 5 <= k <= 8 else 7 <= k <= 13)
  }

  function Hello(p: Plan): Msg {
    ServerHello(p.resumed, p.cipher, p.ticket, p.status, p.npn, p.channelId)
  }

  function If(present: bool, m: Msg): Option<Msg> {
    if present then Some(m) else None
  }

  /** The handshake message of a phase. */
  function MsgAt(p: Plan, k: nat): Option<Msg>
    decreases k, 1
  {
    if k == 0 then Some(ClientHello)
    else if k == 1 then Some(Hello(p))
    else if p.resumed then
      match k
      case 2 => If(p.ticket, NewSessionTicket(false))
      case 4 => Some(Finished(true, Said(p, k)))
      case 6 => If(p.npn, NextProto)
      case 7 => If(p.channelId, ChannelId)
      case 8 => Some(Finished(false, Said(p, k)))
      case _ => None
    else
      match k
      case 2 => If(p.cipher.certAuth, Certificate(true))
      case 3 => If(p.cipher.certAuth && p.status, CertificateStatus)
      case 4 => If(p.keyExchange, ServerKeyExchange)
      case 5 => If(p.request, CertificateRequest)
      case 6 => Some(ServerHelloDone)
      case 7 => If(p.request, Certificate(p.clientKey))
      case 8 => Some(ClientKeyExchange)
      case 9 => If(p.clientKey, CertificateVerify(Said(p, k)))
      case 11 => If(p.npn, NextProto)
      case 12 => If(p.channelId, ChannelId)
      case 13 => Some(Finished(false, Said(p, k)))
      case 14 => If(p.ticket, NewSessionTicket(false))
      case 16 => Some(Finished(true, Said(p, k)))
      case _ => None
  }

  /** The handshake messages before a phase: the transcript there. */
  function Said(p: Plan, k: nat): seq<Msg>
    decreases k, 0
  {
    if k == 0 then []
    else
      var m := MsgAt(p, k - 1);
      if m.Some? then Said(p, k - 1) + [m.value] else Said(p, k - 1)
  }

  /** What travels in a phase: at most one item, sealed under the keys its sender then has. */
  function ItemAt(p: Plan, k: nat): seq<Item> {
    var epoch := if k > (if ClientSpeaks(p, k) then ClientCcs(p) else ServerCcs(p)) then 1 else 0;
    if k >= Phases(p) then []
    else if k == ClientCcs(p) || k == ServerCcs(p) then [ChangeCipherSpec(epoch)]
    else if MsgAt(p, k).Some? then [Record(epoch, MsgAt(p, k).value)]
    else []
  }

  /** What travels in the phases from x to y. */
  function Items(p: Plan, x: nat, y: nat): seq<Item>
    decreases y - x
  {
    if x >= y then [] else ItemAt(p, x) + Items(p, x + 1, y)
  }

  /** Whether only one side speaks in the phases from x to y. */
  ghost predicate Only(p: Plan, client: bool, x: nat, y: nat) {
    forall k :: x <= k < y && ItemAt(p, k) != [] ==> ClientSpeaks(p, k) == client
  }

  lemma {:induction false} ItemsSplit(p: Plan, x: nat, y: nat, z: nat)
    requires x <= y <= z
    ensures Items(p, x, z) == Items(p, x, y) + Items(p, y, z)
    decreases y - x
  {
    if x < y {
      ItemsSplit(p, x + 1, y, z);
    }
  }

  lemma {:induction false} NothingSaid(p: Plan, x: nat, y: nat)
    requires forall k :: x <= k < y ==> ItemAt(p, k) == []
    ensures Items(p, x, y) == []
    decreases y - x
  {
    if x < y {
      NothingSaid(p, x + 1, y);
    }
  }

  /** The first phase in which something travels. */
  lemma {:induction false} FirstItem(p: Plan, x: nat, y: nat) returns (j: nat)
    requires Items(p, x, y) != []
    ensures x <= j < y && ItemAt(p, j) == [Items(p, x, y)[0]] && (forall k :: x <= k < j ==> ItemAt(p, k) == [])
    ensures Items(p, j + 1, y) == Items(p, x, y)[1..]
    decreases y - x
  {
    hide MsgAt, Said;
    if ItemAt(p, x) != [] {
      j := x;
    } else {
      j := FirstItem(p, x + 1, y);
    }
  }

  // ---- Phase by phase.

  /** The phases of a full handshake in which something is said to the client first. */
  lemma FullPhases(p: Plan)
    requires !p.resumed
    ensures ItemAt(p, 1) == [Record(0, Hello(p))]
    ensures ItemAt(p, 2) == if p.cipher.certAuth then [Record(0, Certificate(true))] else []
    ensures ItemAt(p, 3) == if p.cipher.certAuth && p.status then [Record(0, CertificateStatus)] else []
    ensures ItemAt(p, 4) == if p.keyExchange then [Record(0, ServerKeyExchange)] else []
    ensures ItemAt(p, 5) == if p.request then [Record(0, CertificateRequest)] else []
    ensures ItemAt(p, 6) == [Record(0, ServerHelloDone)]
  {}

  lemma FullReply(p: Plan)
    requires !p.resumed
    ensures ItemAt(p, 0) == [Record(0, ClientHello)]
    ensures ItemAt(p, 7) == if p.request then [Record(0, Certificate(p.clientKey))] else []
    ensures ItemAt(p, 8) == [Record(0, ClientKeyExchange)]
    ensures ItemAt(p, 9) == if p.clientKey then [Record(0, CertificateVerify(Said(p, 9)))] else []
    ensures ItemAt(p, 10) == [ChangeCipherSpec(0)]
    ensures ItemAt(p, 11) == if p.npn then [Record(1, NextProto)] else []
    ensures ItemAt(p, 12) == if p.channelId then [Record(1, ChannelId)] else []
    ensures ItemAt(p, 13) == [Record(1, Finished(false, Said(p, 13)))]
  {}

  lemma FullClose(p: Plan)
    requires !p.resumed
    ensures ItemAt(p, 14) == if p.ticket then [Record(0, NewSessionTicket(false))] else []
    ensures ItemAt(p, 15) == [ChangeCipherSpec(0)]
    ensures ItemAt(p, 16) == [Record(1, Finished(true, Said(p, 16)))]
  {}

  lemma ResumedPhases(p: Plan)
    requires p.resumed
    ensures ItemAt(p, 0) == [Record(0, ClientHello)]
    ensures ItemAt(p, 1) == [Record(0, Hello(p))]
    ensures ItemAt(p, 2) == if p.ticket then [Record(0, NewSessionTicket(false))] else []
    ensures ItemAt(p, 3) == [ChangeCipherSpec(0)]
    ensures ItemAt(p, 4) == [Record(1, Finished(true, Said(p, 4)))]
    ensures ItemAt(p, 5) == [ChangeCipherSpec(0)]
    ensures ItemAt(p, 6) == if p.npn then [Record(1, NextProto)] else []
    ensures ItemAt(p, 7) == if p.channelId then [Record(1, ChannelId)] else []
    ensures ItemAt(p, 8) == [Record(1, Finished(false, Said(p, 8)))]
  {}

  /** What the client says from its ChangeCipherSpec on. */
  lemma ClientReplies(p: Plan)
    ensures ClientCcs(p) + 3 < Phases(p)
    ensures var x := ClientCcs(p);
            && ItemAt(p, x) == [ChangeCipherSpec(0)]
            && ItemAt(p, x + 1) == (if p.npn then [Record(1, NextProto)] else [])
            && ItemAt(p, x + 2) == (if p.channelId then [Record(1, ChannelId)] else [])
            && ItemAt(p, x + 3) == [Record(1, Finished(false, Said(p, x + 3)))]
  {
    hide MsgAt, Said, ItemAt;
    if p.resumed { ResumedPhases(p); } else { FullReply(p); }
  }

  /** What the server says last. */
  lemma ServerCloses(p: Plan)
    ensures ServerCcs(p) + 1 < Phases(p)
    ensures var x := ServerCcs(p);
            && ItemAt(p, x - 1) == (if p.ticket then [Record(0, NewSessionTicket(false))] else [])
            && ItemAt(p, x) == [ChangeCipherSpec(0)]
            && ItemAt(p, x + 1) == [Record(1, Finished(true, Said(p, x + 1)))]
  {
    hide MsgAt, Said, ItemAt;
    if p.resumed { ResumedPhases(p); } else { FullClose(p); }
  }

  lemma ItemsFew(p: Plan, x: nat)
    ensures Items(p, x, x) == []
    ensures Items(p, x, x + 1) == ItemAt(p, x)
    ensures Items(p, x, x + 2) == ItemAt(p, x) + ItemAt(p, x + 1)
  {
    assert Items(p, x + 1, x + 2) == ItemAt(p, x + 1) + Items(p, x + 2, x + 2);
  }

  /** Who speaks around the ChangeCipherSpecs. */
  lemma FinishedFlights(p: Plan)
    ensures Only(p, true, ClientCcs(p), ClientCcs(p) + 4)
    ensures Only(p, false, ServerCcs(p) - 1, ServerCcs(p) + 2)
  {}

  lemma SaidFirst(p: Plan)
    ensures Said(p, 0) == []
  {}

  /** The item of a phase and the transcript after it. */
  lemma SaidNext(p: Plan, k: nat)
    requires k < Phases(p)
    ensures ItemAt(p, k) == [] ==> Said(p, k + 1) == Said(p, k)
    ensures ItemAt(p, k) != [] && ItemAt(p, k)[0].Record? ==> Said(p, k + 1) == Said(p, k) + [ItemAt(p, k)[0].m]
    ensures ItemAt(p, k) != [] && ItemAt(p, k)[0].ChangeCipherSpec? ==> Said(p, k + 1) == Said(p, k)
  {}

  // ---- Where the states stand.

  function ClientPhase(p: Plan, state: C.State): nat {
    match state
    case StartConnect => 0
    case EnterEarlyData | ReadServerHello => 1
    case ReadServerCertificate => 2
    case ReadCertificateStatus => 3
    case VerifyServerCertificate | ReadServerKeyExchange => 4
    case ReadCertificateRequest => 5
    case ReadServerHelloDone => 6
    case SendClientCertificate => 7
    case SendClientKeyExchange => 8
    case SendCertificateVerify => 9
    case SendClientFinished => ClientCcs(p)
    case FinishFlight => if p.resumed then 9 else 14
    case ReadSessionTicket => if p.resumed then 2 else 14
    case ProcessChangeCipherSpec => ServerCcs(p)
    case ReadServerFinished => ServerCcs(p) + 1
    case FinishHandshake | Done => Phases(p)
  }

  function ServerPhase(p: Plan, state: S.State): nat {
    match state
    case StartAccept | ReadClientHello | SelectCertificate | SelectParameters => 0
    case SendServerHello => 1
    case SendServerCertificate => 2
    case SendServerKeyExchange => 4
    case SendServerHelloDone => 5
    case ReadClientCertificate => 7
    case VerifyClientCertificate | ReadClientKeyExchange => 8
    case ReadCertificateVerify => 9
    case ReadChangeCipherSpec | ProcessChangeCipherSpec => ClientCcs(p)
    case ReadNextProto => ClientCcs(p) + 1
    case ReadChannelId => ClientCcs(p) + 2
    case ReadClientFinished => ClientCcs(p) + 3
    case SendServerFinished => if p.resumed then 2 else 14
    case FinishHandshake | Done => Phases(p)
  }

  // ---- Following the dialogue.

  /** The item at the front, if any, is the next of the dialogue, said in phase j by the other side. */
  ghost predicate NextFrom(p: Plan, x: nat, front: Option<Item>, j: nat, client: bool) {
    front.Some? ==>
      && x <= j && ItemAt(p, j) == [front.value] && ClientSpeaks(p, j) == client
      && forall k :: x <= k < j ==> ItemAt(p, k) == []
  }

  /** A turn that takes a machine from phase x to y, reading the item of phase j or saying its own items. */
  ghost predicate Moves(p: Plan, client: bool, x: nat, y: nat, j: nat, used: bool, before: seq<Item>, flushed: seq<Item>, after: seq<Item>) {
    if used then y == j + 1 && flushed + after == before
    else x <= y && Only(p, client, x, y) && flushed + after == before + Items(p, x, y)
  }

  /** A side that said the items of the phases from `from` to x has them pending and in its transcript. */
  ghost predicate Says(p: Plan, k: Core, before: seq<Item>, from: nat, x: nat) {
    k.hash == Some(Said(p, x)) && k.pending == before + Items(p, from, x)
  }

  /** Saying the item of the next phase, or nothing when there is none. */
  lemma SaysNext(p: Plan, k: Core, before: seq<Item>, from: nat, x: nat, m: Msg)
    requires Says(p, k, before, from, x) && from <= x < Phases(p)
    requires ItemAt(p, x) == [] || ItemAt(p, x) == [Record(k.writeEpoch, m)]
    ensures Says(p, if ItemAt(p, x) != [] then k.Add(m) else k, before, from, x + 1)
  {
    hide MsgAt, Said, ItemAt, Items;
    SaidNext(p, x);
    ItemsSplit(p, from, x, x + 1);
    ItemsFew(p, x);
  }

  /** Saying the ChangeCipherSpec of a phase, and changing the write keys after it. */
  lemma SaysChange(p: Plan, k: Core, before: seq<Item>, from: nat, x: nat)
    requires Says(p, k, before, from, x) && from <= x < Phases(p) && ItemAt(p, x) == [ChangeCipherSpec(k.writeEpoch)]
    ensures Says(p, k.AddChangeCipherSpec().ChangeWriteKeys(), before, from, x + 1)
  {
    hide MsgAt, Said, ItemAt, Items;
    SaidNext(p, x);
    ItemsSplit(p, from, x, x + 1);
    ItemsFew(p, x);
  }

  /** Saying the Finished of a phase, over the transcript there. */
  lemma SaysFinished(p: Plan, k: Core, before: seq<Item>, from: nat, x: nat, server: bool)
    requires Says(p, k, before, from, x) && from <= x < Phases(p)
    requires ItemAt(p, x) == [Record(k.writeEpoch, Finished(server, Said(p, x)))]
    ensures Says(p, k.SendFinished(server), before, from, x + 1)
    ensures var sent := k.SendFinished(server);
            sent == k.(pending := sent.pending, buffer := sent.buffer, hash := sent.hash, log := sent.log)
  {
    hide MsgAt, Said, ItemAt, Items;
    SaysNext(p, k, before, from, x, Finished(server, Said(p, x)));
  }

  /** Before anything is said. */
  lemma SaysNothing(p: Plan, k: Core, x: nat)
    requires k.hash == Some(Said(p, x))
    ensures Says(p, k, k.pending, x, x)
  {
    hide MsgAt, Said, ItemAt;
  }

  /** Hashing the message of phase x brings the transcript to the next phase, and changes nothing but that and the buffer. */
  lemma ReadsNext(p: Plan, k: Core, x: nat, epoch: nat, m: Msg)
    requires x < Phases(p) && k.hash == Some(Said(p, x)) && ItemAt(p, x) == [Record(epoch, m)]
    ensures k.Hash(m).hash == Some(Said(p, x + 1))
    ensures k.Hash(m) == k.(buffer := k.Hash(m).buffer, hash := k.Hash(m).hash)
  {
    hide MsgAt, Said, ItemAt;
    SaidNext(p, x);
  }

  /** The next thing the server says in a full handshake from its CertificateStatus on, and its phase. */
  function ServerNext(p: Plan, x: nat): (nat, Msg) {
    if x <= 3 && p.cipher.certAuth && p.status then (3, CertificateStatus)
    else if x <= 4 && p.keyExchange then (4, ServerKeyExchange)
    else if x <= 5 && p.request then (5, CertificateRequest)
    else (6, ServerHelloDone)
  }

  lemma ServerSpeaks(p: Plan, x: nat, front: Option<Item>, j: nat)
    requires !p.resumed && 3 <= x <= 6 && NextFrom(p, x, front, j, false) && front.Some?
    ensures j == ServerNext(p, x).0 && front.value == Record(0, ServerNext(p, x).1) && ItemAt(p, j) == [front.value]
    ensures x < j ==> ItemAt(p, x) == []
  {
    FullPhases(p);
    hide MsgAt, ItemAt, Said;
    var y := ServerNext(p, x).0;
    assert x <= y <= 6 && ItemAt(p, y) == [Record(0, ServerNext(p, x).1)] && forall k :: x <= k < y ==> ItemAt(p, k) == [];
  }

  /** A side that awaits the item of phase x finds it at the front, when there is anything there. */
  lemma Arrives(p: Plan, x: nat, front: Option<Item>, j: nat, client: bool)
    requires NextFrom(p, x, front, j, client)
    ensures ItemAt(p, x) != [] && front.Some? ==> j == x && ItemAt(p, x) == [front.value]
  {}

  /** Turns within one phase: reading its item, saying it, passing it by when it has none, or staying in it. */
  lemma OnePhase(p: Plan, client: bool, x: nat, j: nat, pending: seq<Item>)
    ensures Moves(p, client, x, x + 1, x, true, pending, [], pending)
    ensures ClientSpeaks(p, x) == client ==> Moves(p, client, x, x + 1, j, false, pending, [], pending + ItemAt(p, x))
    ensures ItemAt(p, x) == [] ==> Moves(p, client, x, x + 1, j, false, pending, [], pending)
    ensures Moves(p, client, x, x, j, false, pending, [], pending)
  {
    ItemsFew(p, x);
  }
}
