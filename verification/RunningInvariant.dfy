/** What every step of the running actor keeps. */
module RunningInvariant {
  import opened Bytes
  import opened Suite
  import opened Keying
  import opened Negotiation
  import opened ChildNegotiation
  import opened IkeState
  import opened RekeyExchange
  import opened RunningSpec
  import W = SaPayload

  // ---- The invariant ----

  /** A rekey in flight owns the phase and the one outstanding request, and there is
      no replaced IKE SA around. A child rekey is still about the active child. */
  ghost predicate RekeyInv(st: State) {
    && (st.phase == RekeyChildRequesting <==> st.rekey.Some? && st.rekey.value.kind == RekeyChild)
    && (st.phase == RekeyIkeRequesting <==> st.rekey.Some? && st.rekey.value.kind == RekeyIke)
    && (st.rekey.Some? ==> st.hasExpected && st.rekey.value.messageId == st.expectedId && st.oldIke == [])
    && (st.phase == RekeyChildRequesting ==>
          st.rekey.value.oldChild.Some? && (st.activeChild.None? || st.activeChild == st.rekey.value.oldChild))
  }

  ghost predicate OldInv(st: State) {
    && |st.oldIke| <= 1
    && (st.oldIke != [] <==> st.phase == RekeyIkeDeletingOld)
    && (st.phase == RekeyChildDeletingOld ==> st.oldChild.Some? && st.hasExpected && st.rekey.None?)
  }

  /** A request `id` sealed by `env` and kept for identical resending. */
  ghost predicate Resendable(env: Envelope, cp: Checkpoint, id: u32) {
    && cp.messageId == id && |cp.packets| == 1
    && cp.packets[0] == Seal(env, cp.packets[0].exchange, id, false, cp.packets[0].inner)
  }

  /** A response is awaited exactly while a checkpoint exists, for the id allocated last. */
  ghost predicate WaitInv(env: Envelope, nextId: u32, expectedId: u32, hasExpected: bool,
                          outbound: Option<Checkpoint>) {
    && (hasExpected <==> outbound.Some?)
    && (hasExpected ==> nextId == (expectedId + 1) % U32_LIMIT && Resendable(env, outbound.value, expectedId))
  }

  /** A cached answer holds one response to its own message-id. */
  ghost predicate IsAnswer(env: Envelope, r: CachedResponse) {
    && |r.packets| == 1
    && r.packets[0] == Seal(env, r.packets[0].exchange, r.messageId, true, r.packets[0].inner)
  }

  ghost predicate Ascending(history: seq<CachedResponse>) {
    forall i, j :: 0 <= i < j < |history| ==> history[i].messageId < history[j].messageId
  }

  ghost predicate Distinct(history: seq<CachedResponse>) {
    forall i, j :: 0 <= i < j < |history| ==> history[i].messageId != history[j].messageId
  }

  ghost predicate Answers(env: Envelope, history: seq<CachedResponse>) {
    forall i :: 0 <= i < |history| ==> IsAnswer(env, history[i])
  }

  ghost predicate HistoryInv(st: State) {
    |st.history| <= MAX_HISTORY && Ascending(st.history) && Answers(st.env, st.history)
  }

  ghost predicate RetainedInv(prior: OldIke) {
    && WaitInv(prior.env, prior.nextId, prior.expectedId, prior.hasExpected, prior.outbound)
    && Distinct(prior.history) && Answers(prior.env, prior.history)
  }

  ghost predicate Inv(st: State) {
    && RekeyInv(st) && OldInv(st) && HistoryInv(st)
    && WaitInv(st.env, st.nextId, st.expectedId, st.hasExpected, st.outbound)
    && (forall i :: 0 <= i < |st.oldIke| ==> RetainedInv(st.oldIke[i]))
  }

  // ---- Building blocks ----

  lemma AbandonKeeps(st: State)
    requires Inv(st)
    ensures Inv(Abandon(st))
  {
  }

  lemma SendRequestKeeps(st: State, exchange: Exchange, inner: seq<Payload>)
    requires Inv(st) && !st.hasExpected && st.rekey.None?
    ensures Inv(SendRequest(st, exchange, inner).st)
  {
  }

  lemma TrimKeeps(env: Envelope, history: seq<CachedResponse>, r: CachedResponse)
    requires Ascending(history) && Answers(env, history) && IsAnswer(env, r)
    requires history != [] ==> history[|history| - 1].messageId < r.messageId
    ensures Ascending(Trim(history + [r])) && Answers(env, Trim(history + [r])) && |Trim(history + [r])| <= MAX_HISTORY
  {
  }

  /** The replay check admitted `id`: it is above everything remembered. */
  ghost predicate Unseen(st: State, id: u32) {
    st.history != [] ==> st.history[|st.history| - 1].messageId < id
  }

  lemma RespondKeeps(st: State, exchange: Exchange, id: u32, inner: seq<Payload>)
    requires Inv(st) && Unseen(st, id)
    ensures Inv(Respond(st, exchange, id, inner).st)
  {
    TrimKeeps(st.env, st.history, CachedResponse(id, [Seal(st.env, exchange, id, true, inner)]));
  }

  // ---- Our own rekeys ----

  lemma StartChildRekeyKeeps(cfg: Config, c: Crypto, st: State, fr: Fresh)
    requires Inv(st)
    ensures Inv(StartChildRekey(cfg, c, st, fr).st)
  {
    hide ChildRekeyRequest;
    AbandonKeeps(st);
  }

  lemma StartIkeRekeyKeeps(cfg: Config, c: Crypto, st: State, fr: Fresh)
    requires Inv(st)
    ensures Inv(StartIkeRekey(cfg, c, st, fr).st)
  {
    hide IkeRekeyRequest;
    AbandonKeeps(st);
  }

  lemma InstallRekeyedChildKeeps(st: State, prior: ChildSA, child: ChildSA, keys: ChildKeys, sel: Selection,
                                 acked: bool)
    requires Inv(st) && st.rekey.Some?
    ensures Inv(InstallRekeyedChild(st, prior, child, keys, sel, acked).st)
  {
    AbandonKeeps(st);
  }

  lemma FinishChildRekeyKeeps(cfg: Config, c: Crypto, st: State, inner: seq<Payload>, fr: Fresh)
    requires Inv(st) && st.rekey.Some? && st.rekey.value.kind == RekeyChild
    ensures Inv(FinishChildRekey(cfg, c, st, inner, fr).st)
  {
    hide ParseChildResponse, ChildRekeyKeys, InstallRekeyedChild, Abandon;
    AbandonKeeps(st);
    var prior := st.rekey.value.oldChild.value;
    var r := ParseChildResponse(cfg, st.env.selected, inner);
    if r.Some? {
      var keys := ChildRekeyKeys(c, cfg.childPfs, st.env, st.rekey.value, r.value);
      if keys.Some? {
        InstallRekeyedChildKeeps(st, prior,
                                 ChildSA(st.rekey.value.newInboundSpi, r.value.peerSpi, r.value.tsi, r.value.tsr, true),
                                 keys.value, r.value.selection, fr.acked);
      }
    }
  }

  lemma InstallIkeKeeps(st: State, env: Envelope, ni: bytes, nr: bytes, prior: OldIke)
    requires Inv(st) && st.oldIke == [] && RetainedInv(prior)
    ensures Inv(InstallIke(st, env, ni, nr, prior))
  {
  }

  lemma OldIkeDeleteKeeps(st: State)
    requires Inv(st) && st.oldIke != [] && !st.oldIke[0].hasExpected
    ensures Inv(OldIkeDelete(st).st)
  {
  }

  lemma RetiredKeeps(st: State)
    requires Inv(st)
    ensures RetainedInv(Retired(st))
  {
  }

  lemma FinishIkeRekeyKeeps(cfg: Config, c: Crypto, st: State, inner: seq<Payload>)
    requires Inv(st) && st.rekey.Some? && st.rekey.value.kind == RekeyIke
    ensures Inv(FinishIkeRekey(cfg, c, st, inner).st)
  {
    hide ParseIkeResponse, SharedSecret, RekeyedEnvelope, OldIkeDelete, Abandon;
    AbandonKeeps(st);
    RetiredKeeps(st);
    var r := ParseIkeResponse(cfg, inner);
    var rc := st.rekey.value;
    if r.Some? && SharedSecret(c, rc.dh, Some(r.value.ke)).Some? {
      var env := RekeyedEnvelope(c, st.env, SharedSecret(c, rc.dh, Some(r.value.ke)).value, rc.ni, r.value.nr,
                                 rc.newInitiatorSpi, r.value.responderSpi, true, r.value.selection);
      if env.Some? {
        InstallIkeKeeps(st, env.value, rc.ni, r.value.nr, Retired(st));
        OldIkeDeleteKeeps(InstallIke(st, env.value, rc.ni, r.value.nr, Retired(st)));
      }
    }
  }

  // ---- The peer's rekeys ----

  lemma AcceptPeerChildKeeps(cfg: Config, c: Crypto, st: State, id: u32, target: u32, prior: ChildSA,
                             req: PeerChildRequest, fr: Fresh)
    requires Inv(st) && Unseen(st, id) && st.phase != RekeyChildRequesting
    ensures Inv(AcceptPeerChild(cfg, c, st, id, target, prior, req, fr).st)
  {
    hide SelectPeerEsp, PeerChildKeys, PeerOutboundSpi;
    RespondKeeps(st, CreateChildSa, id, [NotifyPayload(W.PROTOCOL_ESP, Put32(target), NOTIFY_NO_PROPOSAL_CHOSEN)]);
    var choice := SelectPeerEsp(cfg, req.sa, fr.childSpi, req.ke.Some?);
    if choice.Some? {
      RespondKeeps(st, CreateChildSa, id, [SaPayload(choice.value.echo), NoncePayload(fr.nonce)]
                   + KeOf(c, req.ke.Some?, fr.dh) + [TsiPayload(req.tsi), TsrPayload(req.tsr)]);
    }
  }

  lemma RefusalKeeps(st: State, id: u32, protocolId: u8, spi: bytes, notifyType: u16)
    requires Inv(st) && Unseen(st, id)
    ensures Inv(Refusal(st, id, protocolId, spi, notifyType).st)
  {
    RespondKeeps(st, CreateChildSa, id, [NotifyPayload(protocolId, spi, notifyType)]);
  }

  lemma ProcessPeerChildRekeyKeeps(cfg: Config, c: Crypto, st: State, id: u32, inner: seq<Payload>, fr: Fresh)
    requires Inv(st) && Unseen(st, id)
    ensures Inv(ProcessPeerChildRekey(cfg, c, st, id, inner, fr).st)
  {
    hide RekeyTarget, ParsePeerChild, DecideCollision, AcceptPeerChild, Refusal;
    AbandonKeeps(st);
    RefusalKeeps(st, id, 0, [], NOTIFY_TEMPORARY_FAILURE);
    if RekeyTarget(inner).Some? {
      var target := RekeyTarget(inner).value;
      RefusalKeeps(st, id, W.PROTOCOL_ESP, Put32(target), NOTIFY_CHILD_SA_NOT_FOUND);
      if st.activeChild.Some? && ParsePeerChild(inner).Some? {
        var prior, req := st.activeChild.value, ParsePeerChild(inner).value;
        AcceptPeerChildKeeps(cfg, c, Abandon(st), id, target, prior, req, fr);
        if st.phase != RekeyChildRequesting { AcceptPeerChildKeeps(cfg, c, st, id, target, prior, req, fr); }
      }
    }
  }

  lemma AnswerRetained(st: State, answer: CachedResponse)
    requires Inv(st) && Unseen(st, answer.messageId) && IsAnswer(st.env, answer)
    ensures RetainedInv(Retired(st).(history := st.history + [answer]))
  {
  }

  lemma AcceptPeerIkeKeeps(cfg: Config, c: Crypto, st: State, id: u32, inner: seq<Payload>, fr: Fresh)
    requires Inv(st) && Unseen(st, id) && st.rekey.None? && st.oldIke == []
    ensures Inv(AcceptPeerIke(cfg, c, st, id, inner, fr).st)
  {
    hide ParsePeerIke, SelectPeerIke, RekeyedEnvelope, Refusal;
    RefusalKeeps(st, id, 0, [], NOTIFY_NO_PROPOSAL_CHOSEN);
    var req := ParsePeerIke(inner);
    if req.Some? && SelectPeerIke(cfg, req.value.sa, fr.ikeSpi).Some? && c.agree(fr.dh, req.value.ke).Some? {
      var choice := SelectPeerIke(cfg, req.value.sa, fr.ikeSpi).value;
      var env := RekeyedEnvelope(c, st.env, c.agree(fr.dh, req.value.ke).value, req.value.ni, fr.nonce,
                                 choice.peerSpi, fr.ikeSpi, false, choice.selection);
      if env.Some? {
        var answer := CachedResponse(id, [Seal(st.env, CreateChildSa, id, true,
                        [SaPayload(choice.echo), NoncePayload(fr.nonce), KePayload(CURVE25519, c.publicKey(fr.dh))])]);
        AnswerRetained(st, answer);
        InstallIkeKeeps(st, env.value, req.value.ni, fr.nonce, Retired(st).(history := st.history + [answer]));
      }
    }
  }

  lemma ProcessPeerIkeRekeyKeeps(cfg: Config, c: Crypto, st: State, id: u32, inner: seq<Payload>, fr: Fresh)
    requires Inv(st) && Unseen(st, id)
    ensures Inv(ProcessPeerIkeRekey(cfg, c, st, id, inner, fr).st)
  {
    hide FirstNonce, DecideCollision, AcceptPeerIke, Refusal;
    AbandonKeeps(st);
    RefusalKeeps(st, id, 0, [], NOTIFY_TEMPORARY_FAILURE);
    AcceptPeerIkeKeeps(cfg, c, Abandon(st), id, inner, fr);
    if st.rekey.None? && st.oldIke == [] { AcceptPeerIkeKeeps(cfg, c, st, id, inner, fr); }
  }

  // ---- Packets ----

  lemma PeerDeletesChildKeeps(st: State, spi: u32)
    requires Inv(st)
    ensures Inv(PeerDeletesChild(st, spi).0) && PeerDeletesChild(st, spi).0.history == st.history
  {
  }

  lemma ProcessInformationalKeeps(st: State, id: u32, inner: seq<Payload>)
    requires Inv(st) && Unseen(st, id)
    ensures Inv(ProcessInformational(st, id, inner).st)
  {
    hide ReadNotice, PeerDeletesChild;
    RespondKeeps(st, Informational, id, []);
    RespondKeeps(st, Informational, id, [ConfigPayload(false, true)]);
    if ReadNotice(inner).Some? && ReadNotice(inner).value.DeleteEsp? {
      PeerDeletesChildKeeps(st, ReadNotice(inner).value.spi);
      RespondKeeps(PeerDeletesChild(st, ReadNotice(inner).value.spi).0, Informational, id, []);
    }
  }

  lemma ProcessResponseKeeps(cfg: Config, c: Crypto, st: State, f: Frame, complete: bool, fr: Fresh)
    requires Inv(st)
    ensures Inv(ProcessResponse(cfg, c, st, f, complete, fr).st)
  {
    hide FinishChildRekey, FinishIkeRekey;
    if st.rekey.Some? {
      if st.rekey.value.kind == RekeyChild {
        FinishChildRekeyKeeps(cfg, c, st, f.inner, fr);
      } else {
        FinishIkeRekeyKeeps(cfg, c, st, f.inner);
      }
    }
  }

  lemma ProcessOldIkeKeeps(st: State, f: Frame, complete: bool)
    requires Inv(st) && st.oldIke != []
    ensures Inv(ProcessOldIke(st, f, complete).st)
  {
  }

  lemma {:induction false} CachedFinds(history: seq<CachedResponse>, id: u32)
    ensures Cached(history, id).Some? <==> exists i :: 0 <= i < |history| && history[i].messageId == id
    ensures Cached(history, id).Some? ==>
      Cached(history, id).value in history && Cached(history, id).value.messageId == id
  {
    if history != [] {
      CachedFinds(history[..|history| - 1], id);
      if exists i :: 0 <= i < |history| && history[i].messageId == id {
        var i :| 0 <= i < |history| && history[i].messageId == id;
        assert i < |history| - 1 ==> history[..|history| - 1][i].messageId == id;
      }
    }
  }

  lemma ProcessRequestKeeps(cfg: Config, c: Crypto, st: State, f: Frame, complete: bool, fr: Fresh)
    requires Inv(st)
    ensures Inv(ProcessRequest(cfg, c, st, f, complete, fr).st)
  {
    hide ProcessInformational, ProcessPeerChildRekey, ProcessPeerIkeRekey, HasSelectors;
    if Unseen(st, f.messageId) {
      ProcessInformationalKeeps(st, f.messageId, f.inner);
      ProcessPeerChildRekeyKeeps(cfg, c, st, f.messageId, f.inner, fr);
      ProcessPeerIkeRekeyKeeps(cfg, c, st, f.messageId, f.inner, fr);
    }
  }

  lemma ProcessPacketKeeps(cfg: Config, c: Crypto, st: State, pkt: Packet, fr: Fresh)
    requires Inv(st)
    ensures Inv(ProcessPacket(cfg, c, st, pkt, fr).st)
  {
    hide ProcessOldIke, ProcessResponse, ProcessRequest;
    if pkt.Protected? {
      if st.oldIke != [] { ProcessOldIkeKeeps(st, pkt.frame, pkt.complete); }
      ProcessResponseKeeps(cfg, c, st, pkt.frame, pkt.complete, fr);
      ProcessRequestKeeps(cfg, c, st, pkt.frame, pkt.complete, fr);
    }
  }

  lemma TimersKeep(st: State, exhausted: bool)
    requires Inv(st)
    ensures Inv(OnRto(st, exhausted).st) && Inv(OnOldRto(st, exhausted).st)
  {
    AbandonKeeps(st);
  }

  /** Every turn of the select loop keeps the invariant, whatever fires or arrives. */
  lemma StepKeeps(cfg: Config, c: Crypto, st: State, ev: Event)
    requires Inv(st)
    ensures Inv(Step(cfg, c, st, ev).st)
  {
    hide StartChildRekey, StartIkeRekey, ProcessPacket, OnRto, OnOldRto;
    match ev
    case RtoFires(exhausted) => TimersKeep(st, exhausted);
    case OldRtoFires(exhausted) => TimersKeep(st, exhausted);
    case Tick => if !st.hasExpected { SendRequestKeeps(st, Informational, []); }
    case IkeSoft(fr) => StartIkeRekeyKeeps(cfg, c, st, fr);
    case ChildSoft(fr) => StartChildRekeyKeeps(cfg, c, st, fr);
    case NearWrap(fr) => StartChildRekeyKeeps(cfg, c, st, fr);
    case Retry(kind, fr) => StartIkeRekeyKeeps(cfg, c, st, fr); StartChildRekeyKeeps(cfg, c, st, fr);
    case Receive(pkt, fr) => ProcessPacketKeeps(cfg, c, st, pkt, fr);
  }
}
