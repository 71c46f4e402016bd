/** The running actor as a function: what one timer or packet does to the state,
    which frames it sends and which data-plane updates it queues. The class in
    Running.dfy performs these steps in place and is proved to compute them. */
module RunningSpec {
  import opened Bytes
  import opened Suite
  import opened Keying
  import opened Negotiation
  import opened ChildNegotiation
  import opened IkeState
  import opened RekeyExchange
  import W = SaPayload

  datatype Update =
    | ChildInstalled(child: ChildSA, keys: ChildKeys, selection: Selection, acked: bool)
    | ChildDeleted(child: ChildSA)

  /** Continue, error and drop, orderly end, or failure of the actor. */
  datatype Verdict = Continue | Dropped | Shutdown | Fatal

  /** `issued` are the requests sent for the first time, `answered` the responses
      computed for a peer request (both also in `tx`, which holds repeats as well). */
  datatype Outcome = Outcome(st: State, tx: seq<Frame>, updates: seq<Update>, issued: seq<Frame>,
                             answered: seq<CachedResponse>, verdict: Verdict)

  function Keep(st: State): Outcome {
    Outcome(st, [], [], [], [], Continue)
  }

  function Drop(st: State): Outcome {
    Outcome(st, [], [], [], [], Dropped)
  }

  // ---- Requests and responses on the current SA ----

  predicate SafeToRekey(st: State) {
    st.phase == Running && !st.hasExpected && st.rekey.None? && st.oldIke == []
  }

  /** Claims the next message-id, which wraps at 2^32. */
  function BeginRequest(st: State): State {
    st.(nextId := (st.nextId + 1) % U32_LIMIT, expectedId := st.nextId, hasExpected := true)
  }

  function SendRequest(st: State, exchange: Exchange, inner: seq<Payload>): Outcome {
    var frame := Seal(st.env, exchange, st.nextId, false, inner);
    Outcome(BeginRequest(st).(outbound := Some(Checkpoint(st.nextId, [frame]))), [frame], [], [frame], [], Continue)
  }

  function Trim(history: seq<CachedResponse>): seq<CachedResponse> {
    if |history| > MAX_HISTORY then history[|history| - MAX_HISTORY..] else history
  }

  function Respond(st: State, exchange: Exchange, id: u32, inner: seq<Payload>): Outcome {
    var cached := CachedResponse(id, [Seal(st.env, exchange, id, true, inner)]);
    Outcome(st.(history := Trim(st.history + [cached])), cached.packets, [], [], [cached], Continue)
  }

  function Cached(history: seq<CachedResponse>, id: u32): Option<CachedResponse> {
    if history == [] then None
    else if history[|history| - 1].messageId == id then Some(history[|history| - 1])
    else Cached(history[..|history| - 1], id)
  }

  function Refusal(st: State, id: u32, protocolId: u8, spi: bytes, notifyType: u16): Outcome {
    Respond(st, CreateChildSa, id, [NotifyPayload(protocolId, spi, notifyType)])
  }

  // ---- Starting and abandoning a rekey ----

  /** The old SA stays installed and serving. */
  function Abandon(st: State): State {
    st.(rekey := None, outbound := None, oldChild := None, oldIke := [], hasExpected := false, phase := Running)
  }

  function StartChildRekey(cfg: Config, c: Crypto, st: State, fr: Fresh): Outcome {
    if !SafeToRekey(st) || st.activeChild.None? then Keep(st) else
    match ChildRekeyRequest(cfg, c, st.activeChild.value, fr)
    case None => Keep(Abandon(st))
    case Some(inner) =>
      var o := SendRequest(st, CreateChildSa, inner);
      var rc := RekeyContext(RekeyChild, st.nextId, fr.nonce, if cfg.childPfs then Some(fr.dh) else None,
                             st.activeChild, fr.childSpi, 0);
      o.(st := o.st.(rekey := Some(rc), phase := RekeyChildRequesting))
  }

  function StartIkeRekey(cfg: Config, c: Crypto, st: State, fr: Fresh): Outcome {
    if !SafeToRekey(st) then Keep(st) else
    match IkeRekeyRequest(cfg, c, fr)
    case None => Keep(Abandon(st))
    case Some(inner) =>
      var o := SendRequest(st, CreateChildSa, inner);
      var rc := RekeyContext(RekeyIke, st.nextId, fr.nonce, Some(fr.dh), None, 0, fr.ikeSpi);
      o.(st := o.st.(rekey := Some(rc), phase := RekeyIkeRequesting))
  }

  // ---- Finishing our own rekeys ----

  /** The new child is in place: delete the old one by its inbound SPI. */
  function DeleteOldChild(st: State, prior: ChildSA): Outcome {
    var o := SendRequest(st, Informational, [DeletePayload(W.PROTOCOL_ESP, [prior.inboundSpi])]);
    o.(st := o.st.(phase := RekeyChildDeletingOld))
  }

  function FinishDeleteOldChild(st: State): Outcome {
    Outcome(st.(oldChild := None, phase := Running, hasExpected := false, outbound := None), [],
            if st.oldChild.Some? then [ChildDeleted(st.oldChild.value)] else [], [], [], Continue)
  }

  function InstallRekeyedChild(st: State, prior: ChildSA, child: ChildSA, keys: ChildKeys, sel: Selection,
                               acked: bool): Outcome {
    var update := ChildInstalled(child, keys, sel, acked);
    if !acked then Drop(Abandon(st)).(updates := [update]) else
    var o := DeleteOldChild(st.(selectedEsp := Some(sel), activeChild := Some(child), oldChild := Some(prior),
                                rekey := None, hasExpected := false, outbound := None), prior);
    o.(updates := [update])
  }

  function FinishChildRekey(cfg: Config, c: Crypto, st: State, inner: seq<Payload>, fr: Fresh): Outcome {
    if st.rekey.None? || st.rekey.value.kind != RekeyChild || st.rekey.value.oldChild.None? then Drop(st) else
    var rc, prior := st.rekey.value, st.rekey.value.oldChild.value;
    match ParseChildResponse(cfg, st.env.selected, inner)
    case None => Drop(Abandon(st))
    case Some(r) =>
      if r.tsi != prior.tsi || r.tsr != prior.tsr then Drop(Abandon(st)) else
      match ChildRekeyKeys(c, cfg.childPfs, st.env, rc, r)
      case None => Drop(Abandon(st))
      case Some(keys) =>
        if st.activeChild != Some(prior) then Drop(Abandon(st)) else
        InstallRekeyedChild(st, prior, ChildSA(rc.newInboundSpi, r.peerSpi, r.tsi, r.tsr, true), keys, r.selection,
                            fr.acked)
  }

  /** The current SA as a retained context. */
  function Retired(st: State): OldIke {
    OldIke(st.env, st.nextId, st.expectedId, false, None, st.history)
  }

  /** A fresh IKE SA becomes current; the previous one is retained. */
  function InstallIke(st: State, env: Envelope, ni: bytes, nr: bytes, prior: OldIke): State {
    st.(env := env, initiatorNonce := ni, responderNonce := nr, nextId := 0, expectedId := 0, hasExpected := false,
        lastCompleted := None, outbound := None, history := [], oldIke := st.oldIke + [prior], rekey := None,
        phase := RekeyIkeDeletingOld)
  }

  /** The DELETE of a retained SA continues that SA's own numbering. */
  function DeleteRequest(prior: OldIke): Frame {
    Seal(prior.env, Informational, prior.nextId, false, [DeletePayload(W.PROTOCOL_IKE, [])])
  }

  function OldIkeDelete(st: State): Outcome {
    if st.oldIke == [] then Keep(st.(phase := Running)) else
    var prior := st.oldIke[0];
    var frame := DeleteRequest(prior);
    var deleting :=
      prior.(nextId := (prior.nextId + 1) % U32_LIMIT, outbound := Some(Checkpoint(prior.nextId, [frame])),
                         expectedId := prior.nextId, hasExpected := true);
    Outcome(st.(oldIke := st.oldIke[0 := deleting]), [frame], [], [frame], [], Continue)
  }

  function FinishIkeRekey(cfg: Config, c: Crypto, st: State, inner: seq<Payload>): Outcome {
    if st.rekey.None? || st.rekey.value.kind != RekeyIke then Drop(st) else
    var rc := st.rekey.value;
    match ParseIkeResponse(cfg, inner)
    case None => Drop(Abandon(st))
    case Some(r) =>
      match SharedSecret(c, rc.dh, Some(r.ke))
      case None => Drop(Abandon(st))
      case Some(shared) =>
        match RekeyedEnvelope(c, st.env, shared, rc.ni, r.nr, rc.newInitiatorSpi, r.responderSpi, true, r.selection)
        case None => Drop(Abandon(st))
        case Some(env) => OldIkeDelete(InstallIke(st, env, rc.ni, r.nr, Retired(st)))
  }

  function FinishOldIkeDelete(st: State): State {
    st.(oldIke := [], phase := Running)
  }

  // ---- Peer rekeys ----

  function AcceptPeerChild(cfg: Config, c: Crypto, st: State, id: u32, target: u32, prior: ChildSA,
                           req: PeerChildRequest, fr: Fresh): Outcome {
    match SelectPeerEsp(cfg, req.sa, fr.childSpi, req.ke.Some?)
    case None => Refusal(st, id, W.PROTOCOL_ESP, Put32(target), NOTIFY_NO_PROPOSAL_CHOSEN)
    case Some(choice) =>
      match PeerChildKeys(c, st.env, req, fr, choice.selection)
      case None => Drop(st)
      case Some(keys) =>
        var child := ChildSA(fr.childSpi, PeerOutboundSpi(req.sa), req.tsr, req.tsi, false);
        var update := ChildInstalled(child, keys, choice.selection, fr.acked);
        if !fr.acked then Drop(st).(updates := [update]) else
        var o := Respond(st, CreateChildSa, id, [SaPayload(choice.echo), NoncePayload(fr.nonce)]
                         + KeOf(c, req.ke.Some?, fr.dh) + [TsiPayload(req.tsi), TsrPayload(req.tsr)]);
        o.(st := o.st.(selectedEsp := Some(choice.selection), oldChild := Some(prior), activeChild := Some(child)),
           updates := [update])
  }

  function ProcessPeerChildRekey(cfg: Config, c: Crypto, st: State, id: u32, inner: seq<Payload>, fr: Fresh): Outcome {
    match RekeyTarget(inner)
    case None => Drop(st)
    case Some(target) =>
      if st.activeChild.None? ||
        (target != st.activeChild.value.outboundSpi && target != st.activeChild.value.inboundSpi)
      then Refusal(st, id, W.PROTOCOL_ESP, Put32(target), NOTIFY_CHILD_SA_NOT_FOUND) else
      var prior := st.activeChild.value;
      match ParsePeerChild(inner)
      case None => Drop(st)
      case Some(req) =>
        if req.tsi != prior.tsr || req.tsr != prior.tsi then Drop(st)
        else if st.rekey.Some? && st.rekey.value.kind == RekeyChild then
          if DecideCollision(st.rekey.value.ni, req.ni) == WeLose
          then AcceptPeerChild(cfg, c, Abandon(st), id, target, prior, req, fr)
          else Refusal(st, id, 0, [], NOTIFY_TEMPORARY_FAILURE)
        else AcceptPeerChild(cfg, c, st, id, target, prior, req, fr)
  }

  function AcceptPeerIke(cfg: Config, c: Crypto, st: State, id: u32, inner: seq<Payload>, fr: Fresh): Outcome {
    match ParsePeerIke(inner)
    case None => Drop(st)
    case Some(req) =>
      match SelectPeerIke(cfg, req.sa, fr.ikeSpi)
      case None => Refusal(st, id, 0, [], NOTIFY_NO_PROPOSAL_CHOSEN)
      case Some(choice) =>
        match c.agree(fr.dh, req.ke)
        case None => Drop(st)
        case Some(shared) =>
          match RekeyedEnvelope(c, st.env, shared, req.ni, fr.nonce, choice.peerSpi, fr.ikeSpi, false, choice.selection)
          case None => Drop(st)
          case Some(env) =>
            // The answer goes out under the old keys and is kept with the old SA.
            var answer := CachedResponse(id, [Seal(st.env, CreateChildSa, id, true,
                            [SaPayload(choice.echo), NoncePayload(fr.nonce),
                             KePayload(CURVE25519, c.publicKey(fr.dh))])]);
            var prior := Retired(st).(history := st.history + [answer]);
            Outcome(InstallIke(st, env, req.ni, fr.nonce, prior), answer.packets, [], [], [answer], Continue)
  }

  function ProcessPeerIkeRekey(cfg: Config, c: Crypto, st: State, id: u32, inner: seq<Payload>, fr: Fresh): Outcome {
    if st.rekey.Some? && st.rekey.value.kind == RekeyIke then
      var ni := FirstNonce(inner);
      if ni.Some? && DecideCollision(st.rekey.value.ni, ni.value) == WeLose
      then AcceptPeerIke(cfg, c, Abandon(st), id, inner, fr)
      else Refusal(st, id, 0, [], NOTIFY_TEMPORARY_FAILURE)
    else if st.rekey.Some? || st.oldIke != [] then Refusal(st, id, 0, [], NOTIFY_TEMPORARY_FAILURE)
    else AcceptPeerIke(cfg, c, st, id, inner, fr)
  }

  // ---- INFORMATIONAL ----

  /** What an INFORMATIONAL request asks for; None is an error. */
  datatype Notice = Nothing | ConfigSet | DeleteIke | DeleteEsp(spi: u32)

  function ReadNotice(inner: seq<Payload>): Option<Notice> {
    if inner == [] then Some(Nothing)
    else if |inner| != 1 then None
    else match inner[0]
         case ConfigPayload(isSet, decodes) => if isSet && decodes then Some(ConfigSet) else None
         case DeletePayload(protocolId, spis) =>
           if protocolId == W.PROTOCOL_IKE && spis == [] then Some(DeleteIke)
           else if protocolId == W.PROTOCOL_ESP && |spis| == 1 then Some(DeleteEsp(spis[0]))
           else None
         case _ => None
  }

  /** A peer names the child to delete by its own inbound SPI: our outbound one. */
  function PeerDeletesChild(st: State, spi: u32): (State, seq<Update>) {
    if st.oldChild.Some? && spi == st.oldChild.value.outboundSpi then
      (st.(oldChild := None, phase := if st.phase == RekeyChildDeletingOld then Running else st.phase),
       [ChildDeleted(st.oldChild.value)])
    else if st.activeChild.Some? && spi == st.activeChild.value.outboundSpi then
      (st.(activeChild := None), [ChildDeleted(st.activeChild.value)])
    else (st, [])
  }

  /** The wiped state after the peer deleted the IKE SA (keys are wiped as well). */
  function Cleared(st: State): State {
    st.(activeChild := None, oldChild := None, rekey := None, oldIke := [], outbound := None, history := [],
        hasExpected := false, lastCompleted := None, initiatorNonce := [], responderNonce := [], phase := Stopped)
  }

  function ProcessInformational(st: State, id: u32, inner: seq<Payload>): Outcome {
    match ReadNotice(inner)
    case None => Drop(st)
    case Some(Nothing) => Respond(st, Informational, id, [])
    case Some(ConfigSet) => Respond(st, Informational, id, [ConfigPayload(false, true)])
    case Some(DeleteEsp(spi)) =>
      var (st1, updates) := PeerDeletesChild(st, spi);
      Respond(st1, Informational, id, []).(updates := updates)
    case Some(DeleteIke) =>
      var o := Respond(st, Informational, id, []);
      o.(st := Cleared(o.st), verdict := Shutdown)
  }

  // ---- Packets ----

  function ProcessResponse(cfg: Config, c: Crypto, st: State, f: Frame, complete: bool, fr: Fresh): Outcome {
    if f.initiator == st.env.originalInitiator || f.spiI != st.env.spiI || (st.env.spiR != 0 && f.spiR != st.env.spiR)
       || !st.hasExpected || f.messageId != st.expectedId then Keep(st)
    else if !Opens(st.env, f) then Drop(st)
    else if !complete then Keep(st)
    else if st.rekey.Some? then
      if st.rekey.value.kind == RekeyChild then FinishChildRekey(cfg, c, st, f.inner, fr)
      else FinishIkeRekey(cfg, c, st, f.inner)
    else
      var done := st.(hasExpected := false, lastCompleted := Some(f.messageId), outbound := None);
      if st.phase == RekeyChildDeletingOld then FinishDeleteOldChild(done) else Keep(done)
  }

  predicate AsksIkeDelete(inner: seq<Payload>) {
    DeletePayload(W.PROTOCOL_IKE, []) in inner
  }

  /** Packets addressed to the retained SA, under its own keys and numbering. */
  function ProcessOldIke(st: State, f: Frame, complete: bool): Outcome
    requires st.oldIke != []
  {
    var prior := st.oldIke[0];
    if f.response then
      if f.initiator == prior.env.originalInitiator || !prior.hasExpected ||
        f.messageId != prior.expectedId then Keep(st)
      else if !complete || !Opens(prior.env, f) then Drop(st)
      else Keep(FinishOldIkeDelete(st))
    else if !complete || !Opens(prior.env, f) || f.messageId == 0 then Drop(st)
    else if exists i :: 0 <= i < |prior.history| && prior.history[i].messageId == f.messageId then
      Outcome(st, FirstCached(prior.history, f.messageId).packets, [], [], [], Continue)
    else if f.exchange != Informational then Keep(st)
    else if Malformed(DeleteKind) in f.inner then Drop(st)
    else
      var answer := CachedResponse(f.messageId, [Seal(prior.env, Informational, f.messageId, true, [])]);
      var kept := st.(oldIke := st.oldIke[0 := prior.(history := prior.history + [answer])]);
      Outcome(if AsksIkeDelete(f.inner) then FinishOldIkeDelete(kept) else kept, answer.packets, [], [], [answer],
              Continue)
  }

  /** The retained context is searched from the front. */
  function FirstCached(history: seq<CachedResponse>, id: u32): (r: CachedResponse)
    requires exists i :: 0 <= i < |history| && history[i].messageId == id
    ensures r in history && r.messageId == id
  {
    if history[0].messageId == id then history[0] else FirstCached(history[1..], id)
  }

  function ProcessRequest(cfg: Config, c: Crypto, st: State, f: Frame, complete: bool, fr: Fresh): Outcome {
    if !Opens(st.env, f) || !complete then Drop(st)
    else if Cached(st.history, f.messageId).Some? then
      Outcome(st, Cached(st.history, f.messageId).value.packets, [], [], [], Continue)
    else if st.history != [] && f.messageId <= st.history[|st.history| - 1].messageId then Drop(st)
    else match f.exchange
         case Informational => ProcessInformational(st, f.messageId, f.inner)
         case CreateChildSa =>
           if HasSelectors(f.inner) then ProcessPeerChildRekey(cfg, c, st, f.messageId, f.inner, fr)
           else ProcessPeerIkeRekey(cfg, c, st, f.messageId, f.inner, fr)
         case OtherExchange => Keep(st)
  }

  /** An arriving datagram: not IKE, unparsable, in the clear, or protected (and, when
      fragmented, possibly not yet complete). */
  datatype Packet = NotIke | Unparsable | Cleartext | Protected(frame: Frame, complete: bool)

  function ProcessPacket(cfg: Config, c: Crypto, st: State, pkt: Packet, fr: Fresh): Outcome {
    match pkt
    case NotIke => Keep(st)
    case Unparsable => Drop(st)
    case Cleartext => Drop(st)
    case Protected(f, complete) =>
      if st.oldIke != [] && f.spiI == st.oldIke[0].env.spiI && f.spiR == st.oldIke[0].env.spiR
      then ProcessOldIke(st, f, complete)
      else if f.response then ProcessResponse(cfg, c, st, f, complete, fr)
      else ProcessRequest(cfg, c, st, f, complete, fr)
  }

  // ---- One turn of the select loop ----

  datatype Event =
    | RtoFires(exhausted: bool)
    | OldRtoFires(exhausted: bool)
    | Tick
    | IkeSoft(fr: Fresh)
    | ChildSoft(fr: Fresh)
    | NearWrap(fr: Fresh)
    | Retry(kind: RekeyKind, fr: Fresh)
    | Receive(pkt: Packet, fr: Fresh)

  function OnRto(st: State, exhausted: bool): Outcome {
    if !st.hasExpected then Keep(st)
    else if exhausted then (if st.rekey.Some? then Keep(Abandon(st)) else Keep(st).(verdict := Fatal))
    else if st.outbound.None? then Keep(st).(verdict := Fatal)
    else Outcome(st, st.outbound.value.packets, [], [], [], Continue)
  }

  function OnOldRto(st: State, exhausted: bool): Outcome {
    if st.oldIke == [] || !st.oldIke[0].hasExpected then Keep(st)
    else if exhausted then Keep(st.(oldIke := st.oldIke[0 := st.oldIke[0].(hasExpected := false, outbound := None)]))
    else if st.oldIke[0].outbound.None? then Keep(st)
    else Outcome(st, st.oldIke[0].outbound.value.packets, [], [], [], Continue)
  }

  function Step(cfg: Config, c: Crypto, st: State, ev: Event): Outcome {
    match ev
    case RtoFires(exhausted) => OnRto(st, exhausted)
    case OldRtoFires(exhausted) => OnOldRto(st, exhausted)
    case Tick => if st.hasExpected then Keep(st) else SendRequest(st, Informational, [])
    case IkeSoft(fr) => StartIkeRekey(cfg, c, st, fr)
    case ChildSoft(fr) => StartChildRekey(cfg, c, st, fr)
    case NearWrap(fr) => StartChildRekey(cfg, c, st, fr)
    case Retry(kind, fr) => if kind == RekeyIke then StartIkeRekey(cfg, c, st, fr) else StartChildRekey(cfg, c, st, fr)
    case Receive(pkt, fr) => ProcessPacket(cfg, c, st, pkt, fr)
  }
}
