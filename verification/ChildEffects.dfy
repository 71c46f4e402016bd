/** What one step of the running actor does to the children it manages. */
module ChildEffects {
  import opened Bytes
  import opened Keying
  import opened Negotiation
  import opened ChildNegotiation
  import opened IkeState
  import opened RekeyExchange
  import opened RunningSpec
  import opened RunningInvariant
  import W = SaPayload

  /** No update: the active child stays; the replaced one stays or is forgotten. */
  ghost predicate Untouched(st: State, o: Outcome) {
    o.updates == [] && o.st.activeChild == st.activeChild && (o.st.oldChild == st.oldChild || o.st.oldChild.None?)
  }

  /** A child takes over from the active one, with the same traffic selectors. Without
      a timely acknowledgement the active child stays what it was. */
  ghost predicate Replaces(st: State, o: Outcome) {
    && |o.updates| == 1 && o.updates[0].ChildInstalled? && st.activeChild.Some?
    && var prior, child := st.activeChild.value, o.updates[0].child;
       && child.tsi == prior.tsi && child.tsr == prior.tsr
       && (if o.updates[0].acked then o.st.activeChild == Some(child) && o.st.oldChild == Some(prior)
           else o.st.activeChild == Some(prior) && (o.st.oldChild == st.oldChild || o.st.oldChild.None?))
  }

  ghost predicate RetiresOld(st: State, o: Outcome) {
    && st.oldChild.Some? && o.updates == [ChildDeleted(st.oldChild.value)]
    && o.st.oldChild.None? && o.st.activeChild == st.activeChild
  }

  ghost predicate Calm(st: State, o: Outcome) {
    Untouched(st, o) || Replaces(st, o) || RetiresOld(st, o)
  }

  /** The peer's INFORMATIONAL request deletes the active child by its outbound SPI. */
  ghost predicate LosesActive(st: State, f: Frame, o: Outcome) {
    && !f.response && f.exchange == Informational && st.activeChild.Some?
    && f.inner == [DeletePayload(W.PROTOCOL_ESP, [st.activeChild.value.outboundSpi])]
    && o.updates == [ChildDeleted(st.activeChild.value)] && o.st.activeChild.None? && o.st.oldChild == st.oldChild
  }

  /** The peer's INFORMATIONAL request deletes the IKE SA. */
  ghost predicate Ends(st: State, f: Frame, o: Outcome) {
    && !f.response && f.exchange == Informational && f.inner == [DeletePayload(W.PROTOCOL_IKE, [])]
    && o.verdict == Shutdown && o.updates == [] && o.st.activeChild.None? && o.st.oldChild.None?
  }

  ghost predicate Effect(st: State, ev: Event, o: Outcome) {
    || Calm(st, o)
    || (ev.Receive? && ev.pkt.Protected? && (LosesActive(st, ev.pkt.frame, o) || Ends(st, ev.pkt.frame, o)))
  }

  /** A delete of a child is requested only for the child just replaced, and only in the
      step in which the data plane acknowledged its replacement. */
  ghost predicate DeletesReplaced(o: Outcome) {
    forall i, spi :: 0 <= i < |o.issued| && o.issued[i].inner == [DeletePayload(W.PROTOCOL_ESP, [spi])]
      ==> && |o.updates| == 1 && o.updates[0].ChildInstalled? && o.updates[0].acked
          && o.st.activeChild == Some(o.updates[0].child) && o.st.oldChild.Some?
          && o.st.oldChild.value.inboundSpi == spi
  }

  // ---- Handler by handler ----

  lemma FinishChildRekeyEffect(cfg: Config, c: Crypto, st: State, inner: seq<Payload>, fr: Fresh)
    requires Inv(st)
    ensures Calm(st, FinishChildRekey(cfg, c, st, inner, fr))
  {
    hide ParseChildResponse, ChildRekeyKeys;
  }

  lemma FinishIkeRekeyEffect(cfg: Config, c: Crypto, st: State, inner: seq<Payload>)
    ensures Calm(st, FinishIkeRekey(cfg, c, st, inner))
  {
    hide ParseIkeResponse, SharedSecret, RekeyedEnvelope;
  }

  lemma AcceptPeerChildEffect(cfg: Config, c: Crypto, st: State, id: u32, target: u32, prior: ChildSA,
                              req: PeerChildRequest, fr: Fresh)
    requires st.activeChild == Some(prior) && req.tsi == prior.tsr && req.tsr == prior.tsi
    ensures Calm(st, AcceptPeerChild(cfg, c, st, id, target, prior, req, fr))
  {
    hide SelectPeerEsp, PeerChildKeys, PeerOutboundSpi, Trim;
  }

  lemma AbandonedEffect(st: State, o: Outcome)
    requires Calm(Abandon(st), o)
    ensures Calm(st, o)
  {
  }

  lemma PeerChildRekeyEffect(cfg: Config, c: Crypto, st: State, id: u32, inner: seq<Payload>, fr: Fresh)
    ensures Calm(st, ProcessPeerChildRekey(cfg, c, st, id, inner, fr))
  {
    hide RekeyTarget, ParsePeerChild, DecideCollision, AcceptPeerChild, Trim;
    if st.activeChild.Some? && RekeyTarget(inner).Some? && ParsePeerChild(inner).Some? {
      var target, prior, req := RekeyTarget(inner).value, st.activeChild.value, ParsePeerChild(inner).value;
      if req.tsi == prior.tsr && req.tsr == prior.tsi {
        AcceptPeerChildEffect(cfg, c, st, id, target, prior, req, fr);
        AcceptPeerChildEffect(cfg, c, Abandon(st), id, target, prior, req, fr);
        AbandonedEffect(st, AcceptPeerChild(cfg, c, Abandon(st), id, target, prior, req, fr));
      }
    }
  }

  lemma AcceptPeerIkeEffect(cfg: Config, c: Crypto, st: State, id: u32, inner: seq<Payload>, fr: Fresh)
    ensures Calm(st, AcceptPeerIke(cfg, c, st, id, inner, fr))
  {
    hide ParsePeerIke, SelectPeerIke, RekeyedEnvelope, Trim;
  }

  lemma PeerIkeRekeyEffect(cfg: Config, c: Crypto, st: State, id: u32, inner: seq<Payload>, fr: Fresh)
    ensures Calm(st, ProcessPeerIkeRekey(cfg, c, st, id, inner, fr))
  {
    hide FirstNonce, DecideCollision, AcceptPeerIke, Trim;
    AcceptPeerIkeEffect(cfg, c, st, id, inner, fr);
    AcceptPeerIkeEffect(cfg, c, Abandon(st), id, inner, fr);
    AbandonedEffect(st, AcceptPeerIke(cfg, c, Abandon(st), id, inner, fr));
  }

  lemma InformationalEffect(st: State, f: Frame)
    requires !f.response && f.exchange == Informational
    ensures var o := ProcessInformational(st, f.messageId, f.inner);
            Calm(st, o) || LosesActive(st, f, o) || Ends(st, f, o)
  {
    hide Trim;
    assert |f.inner| == 1 ==> f.inner == [f.inner[0]];
    assert ReadNotice(f.inner).Some? && ReadNotice(f.inner).value.DeleteEsp?
           ==> f.inner[0] == DeletePayload(W.PROTOCOL_ESP, [ReadNotice(f.inner).value.spi]);
  }

  lemma RequestEffect(cfg: Config, c: Crypto, st: State, f: Frame, complete: bool, fr: Fresh)
    requires !f.response
    ensures var o := ProcessRequest(cfg, c, st, f, complete, fr);
            Calm(st, o) || LosesActive(st, f, o) || Ends(st, f, o)
  {
    hide ProcessInformational, ProcessPeerChildRekey, ProcessPeerIkeRekey, HasSelectors;
    if f.exchange == Informational { InformationalEffect(st, f); }
    PeerChildRekeyEffect(cfg, c, st, f.messageId, f.inner, fr);
    PeerIkeRekeyEffect(cfg, c, st, f.messageId, f.inner, fr);
  }

  lemma ResponseEffect(cfg: Config, c: Crypto, st: State, f: Frame, complete: bool, fr: Fresh)
    requires Inv(st)
    ensures Calm(st, ProcessResponse(cfg, c, st, f, complete, fr))
  {
    hide FinishChildRekey, FinishIkeRekey;
    FinishChildRekeyEffect(cfg, c, st, f.inner, fr);
    FinishIkeRekeyEffect(cfg, c, st, f.inner);
  }

  lemma StartEffect(cfg: Config, c: Crypto, st: State, fr: Fresh)
    ensures Calm(st, StartChildRekey(cfg, c, st, fr)) && Calm(st, StartIkeRekey(cfg, c, st, fr))
  {
    hide ChildRekeyRequest, IkeRekeyRequest;
  }

  lemma OldIkeEffect(st: State, f: Frame, complete: bool)
    requires st.oldIke != []
    ensures Calm(st, ProcessOldIke(st, f, complete))
  {
  }

  lemma PacketEffect(cfg: Config, c: Crypto, st: State, pkt: Packet, fr: Fresh)
    requires Inv(st)
    ensures Effect(st, Receive(pkt, fr), ProcessPacket(cfg, c, st, pkt, fr))
  {
    hide ProcessRequest, ProcessResponse, ProcessOldIke, LosesActive, Ends;
    if pkt.Protected? {
      if st.oldIke != [] { OldIkeEffect(st, pkt.frame, pkt.complete); }
      if !pkt.frame.response { RequestEffect(cfg, c, st, pkt.frame, pkt.complete, fr); }
      ResponseEffect(cfg, c, st, pkt.frame, pkt.complete, fr);
    }
  }

  /** Every step has one of five effects on the children: only a peer's delete takes
      the active child away, and no step changes its traffic selectors. */
  lemma StepEffect(cfg: Config, c: Crypto, st: State, ev: Event)
    requires Inv(st)
    ensures Effect(st, ev, Step(cfg, c, st, ev))
  {
    hide StartChildRekey, StartIkeRekey, ProcessPacket, LosesActive, Ends;
    if ev.Receive? { PacketEffect(cfg, c, st, ev.pkt, ev.fr); }
    if ev.IkeSoft? || ev.ChildSoft? || ev.NearWrap? || ev.Retry? { StartEffect(cfg, c, st, ev.fr); }
  }

  // ---- Make before break, on the control side ----

  lemma RekeyRequestsDeleteNothing(cfg: Config, c: Crypto, st: State, fr: Fresh)
    ensures DeletesReplaced(StartChildRekey(cfg, c, st, fr)) && DeletesReplaced(StartIkeRekey(cfg, c, st, fr))
  {
    hide ChildOfferSA, IkeOffer, KeOf;
  }

  lemma FinishDeletesReplaced(cfg: Config, c: Crypto, st: State, inner: seq<Payload>, fr: Fresh)
    ensures DeletesReplaced(FinishChildRekey(cfg, c, st, inner, fr))
    ensures DeletesReplaced(FinishIkeRekey(cfg, c, st, inner))
  {
    hide ParseChildResponse, ChildRekeyKeys, ParseIkeResponse, SharedSecret, RekeyedEnvelope;
  }

  lemma PeerRequestsIssueNothing(cfg: Config, c: Crypto, st: State, f: Frame, complete: bool, fr: Fresh)
    ensures ProcessRequest(cfg, c, st, f, complete, fr).issued == []
  {
    hide ReadNotice, PeerDeletesChild, HasSelectors, RekeyTarget, ParsePeerChild, DecideCollision, SelectPeerEsp,
         PeerChildKeys, PeerOutboundSpi, FirstNonce, ParsePeerIke, SelectPeerIke, RekeyedEnvelope, Trim;
  }

  /** An old-child DELETE is sent only after the new child was installed. */
  lemma DeleteAfterInstall(cfg: Config, c: Crypto, st: State, ev: Event)
    ensures DeletesReplaced(Step(cfg, c, st, ev))
  {
    hide StartChildRekey, StartIkeRekey, FinishChildRekey, FinishIkeRekey, ProcessRequest;
    if ev.Receive? && ev.pkt.Protected? {
      FinishDeletesReplaced(cfg, c, st, ev.pkt.frame.inner, ev.fr);
      PeerRequestsIssueNothing(cfg, c, st, ev.pkt.frame, ev.pkt.complete, ev.fr);
    }
    if ev.IkeSoft? || ev.ChildSoft? || ev.NearWrap? || ev.Retry? { RekeyRequestsDeleteNothing(cfg, c, st, ev.fr); }
  }
}
