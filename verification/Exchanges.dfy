/** What the running actor makes of the messages it receives, and what it answers: exactly which ones
    have which effect, in any state. */
module Exchanges {
  import opened Bytes
  import opened Keying
  import opened Negotiation
  import opened ChildNegotiation
  import opened IkeState
  import opened RekeyExchange
  import opened RunningSpec
  import opened RunningInvariant

  // ---- Answers ----

  /** The answer that is awaited: from the other end of this SA, under its keys, to the request out. */
  predicate Awaited(st: State, f: Frame) {
    && f.initiator != st.env.originalInitiator && f.spiI == st.env.spiI && (st.env.spiR == 0 || f.spiR == st.env.spiR)
    && st.hasExpected && f.messageId == st.expectedId && f.sealedWith == InboundHalves(st.env)
  }

  /** Nothing but the awaited answer, in full, has any effect, and that one settles the request. */
  lemma OnlyAwaited(cfg: Config, c: Crypto, st: State, f: Frame, complete: bool, fr: Fresh)
    requires Inv(st) && f.response
    ensures var o := ProcessResponse(cfg, c, st, f, complete, fr);
            && (!(Awaited(st, f) && complete) ==> o.st == st && o.tx == [] && o.updates == [])
            && (Awaited(st, f) && complete ==> o.st.outbound != st.outbound)
  {
    hide ParseChildResponse, ChildRekeyKeys, ParseIkeResponse, SharedSecret, RekeyedEnvelope, HistoryInv;
  }

  /** When retransmissions are used up a rekey is given up, with the SAs as they were and ready for
      another one; any other request ends the session. */
  lemma GivesUp(cfg: Config, c: Crypto, st: State)
    requires Inv(st)
    ensures var o := Step(cfg, c, st, RtoFires(true));
            && o.tx == [] && o.updates == [] && o.st.env == st.env && o.st.activeChild == st.activeChild
            && (o.verdict == Fatal <==> st.hasExpected && st.rekey.None?)
            && (st.rekey.Some? ==> o.st.rekey.None? && SafeToRekey(o.st))
            && (st.rekey.None? ==> o.st == st)
  {
  }

  // ---- The retained SA ----

  /** A replaced IKE SA goes exactly when its DELETE is answered, or when the peer deletes it in a request
      that is executed; the current one is never touched. */
  lemma RetainedEnds(st: State, f: Frame, complete: bool)
    requires |st.oldIke| == 1
    ensures var o, prior := ProcessOldIke(st, f, complete), st.oldIke[0];
            && o.st.env == st.env && o.st.activeChild == st.activeChild && o.st.rekey == st.rekey
            && (o.st.oldIke == [] <==>
                && complete && f.sealedWith == InboundHalves(prior.env)
                && (if f.response
                    then && f.initiator != prior.env.originalInitiator && prior.hasExpected
                         && f.messageId == prior.expectedId
                    else && f.messageId != 0 && f.exchange == Informational && DeletePayload(1, []) in f.inner
                         && Malformed(DeleteKind) !in f.inner
                         && forall i :: 0 <= i < |prior.history| ==> prior.history[i].messageId != f.messageId))
            && (o.st.oldIke == [] ==> o.st.phase == Phase.Running)
  {
  }

  /** Its DELETE is repeated until it is answered or repeated often enough; then the SA stays, unasked. */
  lemma RetainedRepeats(cfg: Config, c: Crypto, st: State, exhausted: bool)
    requires Inv(st) && st.oldIke != [] && st.oldIke[0].hasExpected
    ensures var o, prior := Step(cfg, c, st, OldRtoFires(exhausted)), st.oldIke[0];
            && prior.outbound.Some? && o.st.env == st.env && o.st.oldIke != [] && o.st.oldIke[0].env == prior.env
            && o.tx == (if exhausted then [] else prior.outbound.value.packets)
            && o.st.oldIke[0].hasExpected == !exhausted && o.st.oldIke[0].history == prior.history
  {
  }

  // ---- Refusals, by their notification types (section 3.10.1 of RFC 7296) ----

  predicate Notifies(o: Outcome, n: u16) {
    && |o.tx| == 1 && o.tx[0].response && o.tx[0].exchange == CreateChildSa && |o.tx[0].inner| == 1
    && o.tx[0].inner[0].NotifyPayload? && o.tx[0].inner[0].notifyType == n
  }

  /** The active child a rekey request names, by either of its SPIs. */
  predicate Names(st: State, target: u32) {
    && st.activeChild.Some?
    && (target == st.activeChild.value.outboundSpi || target == st.activeChild.value.inboundSpi)
  }

  /** A readable request about the active child, with its selectors seen from the other end. */
  predicate Readable(st: State, inner: seq<Payload>) {
    && RekeyTarget(inner).Some? && Names(st, RekeyTarget(inner).value) && ParsePeerChild(inner).Some?
    && ParsePeerChild(inner).value.tsi == st.activeChild.value.tsr
    && ParsePeerChild(inner).value.tsr == st.activeChild.value.tsi
  }

  predicate AsksChildToo(st: State) {
    st.rekey.Some? && st.rekey.value.kind == RekeyChild
  }

  /** Why a peer's child rekey is refused: no such child (44), a rekey of our own with a nonce that is
      not smaller (43), nothing acceptable offered (14). */
  lemma ChildRefusals(cfg: Config, c: Crypto, st: State, id: u32, inner: seq<Payload>, fr: Fresh)
    ensures var o := ProcessPeerChildRekey(cfg, c, st, id, inner, fr);
            && (Notifies(o, 44) <==> RekeyTarget(inner).Some? && !Names(st, RekeyTarget(inner).value))
            && (Notifies(o, 43) <==> && Readable(st, inner) && AsksChildToo(st)
                                     && !Smaller(st.rekey.value.ni, ParsePeerChild(inner).value.ni))
            && (Notifies(o, 14) <==>
                && Readable(st, inner)
                && (AsksChildToo(st) ==> Smaller(st.rekey.value.ni, ParsePeerChild(inner).value.ni))
                && var req := ParsePeerChild(inner).value; SelectPeerEsp(cfg, req.sa, fr.childSpi, req.ke.Some?).None?)
            && (Notifies(o, 44) || Notifies(o, 43) || Notifies(o, 14) ==>
                o.updates == [] && o.st.activeChild == st.activeChild && o.st.env == st.env)
  {
    hide RekeyTarget, ParsePeerChild, SelectPeerEsp, PeerChildKeys, PeerOutboundSpi, Trim, Smaller, DecideCollision,
         Put32;
    if AsksChildToo(st) && ParsePeerChild(inner).Some? {
      LosesIffSmaller(st.rekey.value.ni, ParsePeerChild(inner).value.ni);
    }
  }

  /** A rekey of our own is out that the request does not beat, or an SA is retained. */
  predicate Busy(st: State, inner: seq<Payload>) {
    if st.rekey.None? then st.oldIke != []
    else st.rekey.value.kind == RekeyChild ||
         FirstNonce(inner).None? || !Smaller(st.rekey.value.ni, FirstNonce(inner).value)
  }

  /** Why a peer's IKE rekey is refused: we are busy (43), or nothing acceptable is offered (14). */
  lemma IkeRefusals(cfg: Config, c: Crypto, st: State, id: u32, inner: seq<Payload>, fr: Fresh)
    ensures var o := ProcessPeerIkeRekey(cfg, c, st, id, inner, fr);
            && (Notifies(o, 43) <==> Busy(st, inner))
            && (Notifies(o, 14) <==> !Busy(st, inner) && ParsePeerIke(inner).Some?
                                     && SelectPeerIke(cfg, ParsePeerIke(inner).value.sa, fr.ikeSpi).None?)
            && (Notifies(o, 43) || Notifies(o, 14) ==> o.st.env == st.env && o.st.activeChild == st.activeChild)
  {
    hide ParsePeerIke, SelectPeerIke, RekeyedEnvelope, Trim, Smaller, DecideCollision, FirstNonce;
    if st.rekey.Some? && FirstNonce(inner).Some? { LosesIffSmaller(st.rekey.value.ni, FirstNonce(inner).value); }
  }

  // ---- Rekeys ----

  /** When a soft timer starts a rekey: nothing else is going on, there is a child to rekey, and the
      configuration gives an offer. It is then the one request out. */
  lemma RekeysStart(cfg: Config, c: Crypto, st: State, fr: Fresh)
    requires Inv(st)
    ensures var idle := st.phase == Phase.Running && !st.hasExpected;
            var child, ike := Step(cfg, c, st, ChildSoft(fr)), Step(cfg, c, st, IkeSoft(fr));
            && (child.tx != [] <==> idle && st.activeChild.Some? && ChildOfferSA(cfg, fr.childSpi).Some?)
            && (ike.tx != [] <==> idle && IkeOffer(cfg, fr.ikeSpi).Some?)
            && (child.tx != [] ==> child.st.rekey.Some? && child.st.rekey.value.kind == RekeyChild && |child.tx| == 1
                                   && child.tx[0].messageId == st.nextId == child.st.expectedId && child.st.hasExpected)
            && (ike.tx != [] ==> ike.st.rekey.Some? && ike.st.rekey.value.kind == RekeyIke && |ike.tx| == 1
                                 && ike.tx[0].messageId == st.nextId == ike.st.expectedId && ike.st.hasExpected)
            && child.st.activeChild == ike.st.activeChild == st.activeChild && child.st.env == ike.st.env == st.env
  {
    hide ChildOfferSA, IkeOffer, KeOf, HistoryInv;
  }

  /** The child that a peer's request brings: our drawn SPI inbound, the SPI of the peer's first proposal
      outbound, the peer's selectors turned round; it is installed before it is answered. */
  lemma ChildAccepted(cfg: Config, c: Crypto, st: State, id: u32, inner: seq<Payload>, fr: Fresh)
    requires ProcessPeerChildRekey(cfg, c, st, id, inner, fr).updates != []
    ensures Readable(st, inner)
    ensures var o, req := ProcessPeerChildRekey(cfg, c, st, id, inner, fr), ParsePeerChild(inner).value;
            && (AsksChildToo(st) ==> Smaller(st.rekey.value.ni, req.ni))
            && |o.updates| == 1 && o.updates[0].ChildInstalled? && o.updates[0].acked == fr.acked
            && var child := o.updates[0].child;
               && child.inboundSpi == fr.childSpi && child.tsi == req.tsr && child.tsr == req.tsi
               && !child.localInitiator
               && (req.sa.proposals != [] && |req.sa.proposals[0].spi| == 4 ==>
                   child.outboundSpi == Get32(req.sa.proposals[0].spi))
               && (o.tx != [] <==> fr.acked)
               && o.st.activeChild == (if fr.acked then Some(child) else st.activeChild)
               && (fr.acked ==> o.st.oldChild == st.activeChild)
  {
    hide RekeyTarget, ParsePeerChild, SelectPeerEsp, PeerChildKeys, Trim, Smaller, DecideCollision, Put32, Get32;
    if AsksChildToo(st) && ParsePeerChild(inner).Some? {
      LosesIffSmaller(st.rekey.value.ni, ParsePeerChild(inner).value.ni);
    }
  }

  // ---- INFORMATIONAL ----

  predicate Deletes(inner: seq<Payload>, child: Option<ChildSA>) {
    child.Some? && inner == [DeletePayload(3, [child.value.outboundSpi])]
  }

  predicate Understood(inner: seq<Payload>) {
    || inner == [] || inner == [ConfigPayload(true, true)] || inner == [DeletePayload(1, [])]
    || (|inner| == 1 && inner[0].DeletePayload? && inner[0].protocolId == 3 && |inner[0].spis| == 1)
  }

  /** An empty request, a configuration and a DELETE are answered, the configuration with an
      acknowledgement; nothing else is. A DELETE takes away the child whose outbound SPI it names, the
      replaced one first, and no other; that of the IKE SA ends the session. */
  lemma InformationalExactly(st: State, id: u32, inner: seq<Payload>)
    ensures var o := ProcessInformational(st, id, inner);
            && (o.tx != [] <==> Understood(inner)) && (o.verdict == Dropped <==> !Understood(inner))
            && (o.tx != [] ==> o.tx == [Seal(st.env, Informational, id, true, if inner == [ConfigPayload(true, true)]
                                             then [ConfigPayload(false, true)] else [])])
            && (o.verdict == Shutdown <==> inner == [DeletePayload(1, [])])
            && (o.verdict != Shutdown ==>
                && o.st.oldChild == (if Deletes(inner, st.oldChild) then None else st.oldChild)
                && o.st.activeChild == (if Deletes(inner, st.activeChild) && !Deletes(inner, st.oldChild) then None
                                        else st.activeChild)
                && o.updates == (if Deletes(inner, st.oldChild) then [ChildDeleted(st.oldChild.value)]
                                 else if Deletes(inner, st.activeChild) then [ChildDeleted(st.activeChild.value)]
                                 else []))
            && (o.verdict == Shutdown ==> o.st.phase == Stopped && o.st.activeChild.None? && o.st.oldChild.None?
                                          && o.st.rekey.None? && o.st.oldIke == [] && !o.st.hasExpected)
  {
    hide Trim;
    if |inner| == 1 && inner[0].DeletePayload? && |inner[0].spis| == 1 {
      assert inner[0].spis == [inner[0].spis[0]] && inner == [inner[0]];
    }
  }
}
