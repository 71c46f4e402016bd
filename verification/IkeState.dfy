/** The live IKE SA state of one endpoint, as values. */
module IkeState {
  import opened Bytes
  import opened Suite
  import opened Keying
  import W = SaPayload

  /** The phases the running actor moves through (the handshake phases and the two
      never-entered Installing phases are not needed here). */
  datatype Phase =
    Stopped | Running | RekeyChildRequesting | RekeyChildDeletingOld | RekeyIkeRequesting | RekeyIkeDeletingOld

  datatype RekeyKind = RekeyChild | RekeyIke

  // ---- Messages, after decryption and payload parsing ----

  datatype PayloadKind = SaKind | NonceKind | KeKind | NotifyKind | DeleteKind | ConfigKind

  datatype Payload =
    | SaPayload(sa: W.SA)
    | NoncePayload(nonce: bytes)
    | KePayload(group: u16, data: bytes)
    | NotifyPayload(protocolId: u8, spi: bytes, notifyType: u16)
    | DeletePayload(protocolId: u8, spis: seq<u32>)
    | TsiPayload(body: bytes)
    | TsrPayload(body: bytes)
    | ConfigPayload(isSet: bool, decodes: bool)
    | AuthOrEapPayload
    | OtherPayload
    | Malformed(kind: PayloadKind)

  const NOTIFY_NO_PROPOSAL_CHOSEN: u16 := 14
  const NOTIFY_TEMPORARY_FAILURE: u16 := 43
  const NOTIFY_CHILD_SA_NOT_FOUND: u16 := 44
  const NOTIFY_REKEY_SA: u16 := 16393

  datatype Exchange = CreateChildSa | Informational | OtherExchange

  datatype KeyHalves = KeyHalves(enc: bytes, integ: bytes)

  /** One protected message: the header fields, the keys it is sealed with and what
      a holder of those keys reads from it. */
  datatype Frame = Frame(spiI: u64, spiR: u64, initiator: bool, response: bool, exchange: Exchange, messageId: u32,
                         sealedWith: KeyHalves, inner: seq<Payload>)

  /** The per-SA context used to seal and open. */
  datatype Envelope = Envelope(spiI: u64, spiR: u64, originalInitiator: bool, selected: Selection, keys: IkeKeys)

  /** The original initiator sends with the i-halves and receives with the r-halves. */
  function OutboundHalves(env: Envelope): KeyHalves {
    if env.originalInitiator then KeyHalves(env.keys.skei, env.keys.skai) else KeyHalves(env.keys.sker, env.keys.skar)
  }

  function InboundHalves(env: Envelope): KeyHalves {
    if env.originalInitiator then KeyHalves(env.keys.sker, env.keys.skar) else KeyHalves(env.keys.skei, env.keys.skai)
  }

  function Seal(env: Envelope, exchange: Exchange, id: u32, response: bool, inner: seq<Payload>): Frame {
    Frame(env.spiI, env.spiR, env.originalInitiator, response, exchange, id, OutboundHalves(env), inner)
  }

  /** Authenticated encryption: only the sealing keys open a frame. */
  predicate Opens(env: Envelope, f: Frame) {
    f.sealedWith == InboundHalves(env)
  }

  // ---- State ----

  datatype ChildSA = ChildSA(inboundSpi: u32, outboundSpi: u32, tsi: bytes, tsr: bytes, localInitiator: bool)

  datatype RekeyContext = RekeyContext(kind: RekeyKind, messageId: u32, ni: bytes, dh: Option<nat>,
                                       oldChild: Option<ChildSA>, newInboundSpi: u32, newInitiatorSpi: u64)

  datatype Checkpoint = Checkpoint(messageId: u32, packets: seq<Frame>)
  datatype CachedResponse = CachedResponse(messageId: u32, packets: seq<Frame>)

  /** A replaced IKE SA, kept with its own numbering until it is deleted. */
  datatype OldIke = OldIke(env: Envelope, nextId: u32, expectedId: u32, hasExpected: bool,
                           outbound: Option<Checkpoint>, history: seq<CachedResponse>)

  datatype State = State(
    phase: Phase,
    env: Envelope,
    initiatorNonce: bytes,
    responderNonce: bytes,
    nextId: u32,
    expectedId: u32,
    hasExpected: bool,
    lastCompleted: Option<u32>,
    selectedEsp: Option<Selection>,
    activeChild: Option<ChildSA>,
    oldChild: Option<ChildSA>,
    rekey: Option<RekeyContext>,
    oldIke: seq<OldIke>,
    outbound: Option<Checkpoint>,
    history: seq<CachedResponse>)

  const MAX_HISTORY := 4
}
