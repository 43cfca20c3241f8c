/** What the two TLS 1.0 to 1.2 handshake machines share: messages, the transcript, and the wait reasons. */
module HandshakeState {
  import opened Wrappers

  /** A cipher suite by its authentication and key exchange: certificate or PSK, ECDHE or not. */
  datatype Cipher = Cipher(certAuth: bool, ecdhe: bool)

  /**
   * Handshake messages with what decides the course of the handshake. The verify data of a Finished
   * and the signature of a CertificateVerify stand for the messages they are computed over.
   */
  datatype Msg =
    | ClientHello
    | ServerHello(resumed: bool, cipher: Cipher, ticket: bool, status: bool, npn: bool, channelId: bool)
    | Certificate(present: bool)
    | CertificateStatus
    | ServerKeyExchange
    | CertificateRequest
    | ServerHelloDone
    | ClientKeyExchange
    | CertificateVerify(signed: seq<Msg>)
    | NextProto
    | ChannelId
    | NewSessionTicket(empty: bool)
    | Finished(fromServer: bool, over: seq<Msg>)

  /** What travels: a handshake message or a ChangeCipherSpec, sealed under the sender's n-th write keys. */
  datatype Item = Record(epoch: nat, m: Msg) | ChangeCipherSpec(epoch: nat)

  /** The outcome of whatever a step leaves to cryptography, to parsing or to the application. */
  datatype Verdict = Accept | Reject | Retry

  /** `ssl_hs_wait_t`; `Pending` is any operation the application completes before it calls again. */
  datatype Wait = Go | ReadMessage | ReadCcs | Flush | Pending | EarlyReturn | Failed

  datatype Event =
    | WriteKeys
    | SentFinished
    | ReadKeys
    | GotFinished(m: Msg, mine: seq<Msg>)
    | VerifiedClientKey(m: Msg, mine: seq<Msg>)

  /** The transcript, the keys in use and the negotiated parameters of one side. */
  datatype Core = Core(
    /** `pending_flight`: what has been added but not flushed. */
    pending: seq<Item>,
    /** The handshake buffer, until it is released. */
    buffer: Option<seq<Msg>>,
    /** What the rolling hash has absorbed, once its digest is known. */
    hash: Option<seq<Msg>>,
    readEpoch: nat,
    writeEpoch: nat,
    resumed: bool,
    cipher: Cipher,
    ticketExpected: bool,
    statusExpected: bool,
    certRequest: bool,
    npn: bool,
    channelId: bool,
    peerKey: bool,
    serverParams: bool,
    /** Whether the buffer has been read after it was released. */
    readReleased: bool,
    log: seq<Event>)
  {
    /** `SSLTranscript::Update` */
    function Hash(m: Msg): Core {
      this.(buffer := match buffer case Some(b) => Some(b + [m]) case None => None,
            hash := match hash case Some(t) => Some(t + [m]) case None => None)
    }

    /** `SSLTranscript::InitHash`, which hashes what the buffer holds. */
    function InitHash(): Core {
      NoteRead().(hash := Some(Buffer()))
    }

    function FreeBuffer(): Core {
      this.(buffer := None)
    }

    /** `add_message`, which also updates the transcript. */
    function Add(m: Msg): Core {
      this.Hash(m).(pending := pending + [Record(writeEpoch, m)])
    }

    function AddChangeCipherSpec(): Core {
      this.(pending := pending + [ChangeCipherSpec(writeEpoch)])
    }

    function ChangeWriteKeys(): Core {
      this.(writeEpoch := writeEpoch + 1, log := log + [WriteKeys])
    }

    function ChangeReadKeys(): Core {
      this.(readEpoch := readEpoch + 1, log := log + [ReadKeys])
    }

    /** The messages hashed so far. */
    function Transcript(): seq<Msg> {
      match hash case Some(t) => t case None => []
    }

    /** Reading the handshake buffer. */
    function Buffer(): seq<Msg> {
      match buffer case Some(b) => b case None => []
    }

    function NoteRead(): Core {
      this.(readReleased := readReleased || buffer.None?)
    }

    /** `ssl_send_finished` */
    function SendFinished(server: bool): Core {
      this.Add(Finished(server, Transcript())).(log := log + [SentFinished])
    }

    /** Whether `ssl_get_finished` accepts a message: the peer's Finished over this side's transcript. */
    predicate Matches(m: Msg, server: bool) {
      m == Finished(!server, Transcript())
    }

    /** The rest of `ssl_get_finished` once the message is accepted. */
    function GetFinished(m: Msg): Core {
      this.(log := log + [GotFinished(m, Transcript())]).Hash(m)
    }
  }

  const FRESH := Core([], Some([]), None, 0, 0, false, Cipher(false, false), false, false, false, false, false, false, false, false, [])

  /** The next message, when one is buffered that this side can open. */
  function Peek(core: Core, front: Option<Item>): Option<Msg> {
    if front.Some? && front.value.Record? && front.value.epoch == core.readEpoch then Some(front.value.m) else None
  }
}
