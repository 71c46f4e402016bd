/** Two running actors over a network that loses, repeats, delays and reorders: they
    agree on the IKE SA after any rekeys, started by either end, crossing or not. */
module TwoEnds {
  import opened Bytes
  import opened Suite
  import opened Keying
  import opened Negotiation
  import opened ChildNegotiation
  import opened Offers
  import opened IkeState
  import opened RekeyExchange
  import opened RunningSpec
  import opened RunningInvariant
  import opened IkeTalk
  import RunningRuns
  import W = SaPayload

  function LineOf(st: State): Line {
    Line(st.env, st.nextId,
         if st.hasExpected && st.outbound.Some? &&
           |st.outbound.value.packets| == 1 then Some(st.outbound.value.packets[0]) else None,
         st.history,
         if st.rekey.Some? && st.rekey.value.kind == RekeyIke then st.rekey else None)
  }

  function EndOf(st: State): End {
    End(LineOf(st), if st.oldIke == [] then None else Some(st.oldIke[0]))
  }

  /** The side conditions on one turn of an actor: no retransmission gives up, counters do not
      wrap, nonces are 32 octets, what opens was sent by the other end, and an SA
      derived as responder gets keys nobody used before. */
  ghost predicate Fair(st: State, ev: Event, o: Outcome, net: set<Frame>) {
    && (ev.RtoFires? ==> !ev.exhausted)
    && st.nextId < U32_LIMIT - 1
    && (ev.IkeSoft? || ev.ChildSoft? || ev.NearWrap? || ev.Retry? || ev.Receive? ==> |ev.fr.nonce| == 32)
    && (ev.Receive? && ev.pkt.Protected? ==> Authentic(st, ev.pkt.frame, net))
    && (|st.oldIke| < |o.st.oldIke| && !o.st.env.originalInitiator ==> Unused(o.st.env, EndOf(st), net))
  }

  ghost predicate Authentic(st: State, f: Frame, net: set<Frame>) {
    f in net || (!Opens(st.env, f) && forall i :: 0 <= i < |st.oldIke| ==> !Opens(st.oldIke[i].env, f))
  }

  /** No end starts another rekey. */
  predicate Quiet(ev: Event) {
    ev.RtoFires? || ev.OldRtoFires? || ev.Tick? || ev.Receive?
  }

  /** Each end reads what the other chooses, and takes some of its offers only if the other
      does so too. */
  predicate Compatible(cx: Config, cy: Config) {
    Understands(cx, cy) && Understands(cy, cx) && Balanced(cx, cy)
  }

  ghost predicate Agree(cx: Config, cy: Config, c: Crypto, x: State, y: State, net: set<Frame>) {
    Inv(x) && Inv(y) && Agreement(cx, cy, c, EndOf(x), EndOf(y), net)
  }

  // ---- Timers ----

  lemma QuietKeeps(cx: Config, cy: Config, c: Crypto, st: State, y: End, net: set<Frame>, o: Outcome)
    requires Agreement(cx, cy, c, EndOf(st), y, net) && Idles(EndOf(st), o.tx, EndOf(o.st))
    ensures Agreement(cx, cy, c, EndOf(o.st), y, Grow(net, o.tx))
  {
    hide Agreement;
    IdleKeeps(cx, cy, c, EndOf(st), y, net, o.tx, EndOf(o.st));
  }

  lemma TimersIdle(st: State, exhausted: bool)
    requires Inv(st)
    ensures var o := OnRto(st, false); Idles(EndOf(st), o.tx, EndOf(o.st))
    ensures var o := OnOldRto(st, exhausted); Idles(EndOf(st), o.tx, EndOf(o.st))
  {
    if st.hasExpected { assert st.outbound.value.packets == [st.outbound.value.packets[0]]; }
  }

  lemma TickRequests(cfg: Config, c: Crypto, st: State)
    requires Inv(st) && !st.hasExpected
    ensures var o := SendRequest(st, Informational, []); Requests(cfg, c, EndOf(st), o.tx, EndOf(o.st))
  {
  }

  lemma StartIkeRequests(cfg: Config, c: Crypto, st: State, fr: Fresh)
    requires Inv(st) && |fr.nonce| == 32
    ensures var o := StartIkeRekey(cfg, c, st, fr);
            Idles(EndOf(st), o.tx, EndOf(o.st)) || Requests(cfg, c, EndOf(st), o.tx, EndOf(o.st))
  {
    hide IkeOffer;
  }

  lemma ChildRequestShape(cfg: Config, c: Crypto, active: ChildSA, fr: Fresh, inner: seq<Payload>)
    requires ChildRekeyRequest(cfg, c, active, fr) == Some(inner)
    ensures HasSelectors(inner) && !AsksIkeDelete(inner)
  {
    hide ChildOfferSA;
    assert inner[|inner| - 1] == TsrPayload(active.tsr);
  }

  lemma StartChildRequests(cfg: Config, c: Crypto, st: State, fr: Fresh)
    requires Inv(st)
    ensures var o := StartChildRekey(cfg, c, st, fr);
            Idles(EndOf(st), o.tx, EndOf(o.st)) || Requests(cfg, c, EndOf(st), o.tx, EndOf(o.st))
  {
    hide ChildRekeyRequest, HasSelectors;
    if st.activeChild.Some? && ChildRekeyRequest(cfg, c, st.activeChild.value, fr).Some? {
      ChildRequestShape(cfg, c, st.activeChild.value, fr, ChildRekeyRequest(cfg, c, st.activeChild.value, fr).value);
    }
  }

  lemma MovesKeep(cx: Config, cy: Config, c: Crypto, st: State, y: End, net: set<Frame>, o: Outcome)
    requires Agreement(cx, cy, c, EndOf(st), y, net) && st.nextId < U32_LIMIT - 1
    requires Idles(EndOf(st), o.tx, EndOf(o.st)) || Requests(cx, c, EndOf(st), o.tx, EndOf(o.st))
    ensures Agreement(cx, cy, c, EndOf(o.st), y, Grow(net, o.tx))
  {
    hide Agreement, Idles, Requests;
    if Idles(EndOf(st), o.tx, EndOf(o.st)) { IdleKeeps(cx, cy, c, EndOf(st), y, net, o.tx, EndOf(o.st)); }
    else { RequestKeeps(cx, cy, c, EndOf(st), y, net, o.tx, EndOf(o.st)); }
  }

  lemma TimerKeeps(cx: Config, cy: Config, c: Crypto, st: State, y: End, net: set<Frame>, ev: Event)
    requires Inv(st) && Agreement(cx, cy, c, EndOf(st), y, net) && Fair(st, ev, Step(cx, c, st, ev), net)
    requires !ev.Receive?
    ensures var o := Step(cx, c, st, ev); Agreement(cx, cy, c, EndOf(o.st), y, Grow(net, o.tx))
  {
    hide Agreement, Idles, Requests, StartIkeRekey, StartChildRekey, Unused, Inv, EndOf;
    match ev {
    case RtoFires(exhausted) => TimersIdle(st, false);
    case OldRtoFires(exhausted) => TimersIdle(st, exhausted);
    case Tick => if st.hasExpected { KeepIdles(st); } else { TickRequests(cx, c, st); }
    case IkeSoft(fr) => StartIkeRequests(cx, c, st, fr);
    case ChildSoft(fr) => StartChildRequests(cx, c, st, fr);
    case NearWrap(fr) => StartChildRequests(cx, c, st, fr);
    case Retry(kind, fr) => StartIkeRequests(cx, c, st, fr); StartChildRequests(cx, c, st, fr);
    }
    MovesKeep(cx, cy, c, st, y, net, Step(cx, c, st, ev));
  }

  lemma KeepIdles(st: State)
    ensures Idles(EndOf(st), [], EndOf(st))
  {
  }

  // ---- Packets for the retained SA ----

  lemma OldPacketMoves(st: State, f: Frame, complete: bool)
    requires Inv(st) && st.oldIke != []
    ensures var o := ProcessOldIke(st, f, complete);
            Idles(EndOf(st), o.tx, EndOf(o.st)) || ServesOld(EndOf(st), f, o.tx, EndOf(o.st))
  {
    hide Ascending, IkeTalk.Answers;
  }

  lemma OldPacketKeeps(cx: Config, cy: Config, c: Crypto, st: State, y: End, net: set<Frame>, f: Frame, complete: bool)
    requires Inv(st) && Agreement(cx, cy, c, EndOf(st), y, net) && Authentic(st, f, net) && st.oldIke != []
    ensures var o := ProcessOldIke(st, f, complete); Agreement(cx, cy, c, EndOf(o.st), y, Grow(net, o.tx))
  {
    hide Agreement, Idles, ProcessOldIke, Inv;
    var o := ProcessOldIke(st, f, complete);
    OldPacketMoves(st, f, complete);
    if Idles(EndOf(st), o.tx, EndOf(o.st)) { IdleKeeps(cx, cy, c, EndOf(st), y, net, o.tx, EndOf(o.st)); }
    else { ServeOldKeeps(cx, cy, c, EndOf(st), y, net, f, o.tx, EndOf(o.st)); }
  }

  // ---- Answers ----

  /** The awaited answer arrived. */
  function AfterHearing(e: End): End {
    e.(line := e.line.(awaited := None, ike := None))
  }

  lemma FinishChildMoves(cfg: Config, c: Crypto, st: State, f: Frame, fr: Fresh)
    requires Inv(st) && st.phase == RekeyChildRequesting
    ensures var o := FinishChildRekey(cfg, c, st, f.inner, fr);
            var mid := AfterHearing(EndOf(st));
            LineOf(o.st).ike.None? && ((o.tx == [] && EndOf(o.st) == mid) || Requests(cfg, c, mid, o.tx, EndOf(o.st)))
  {
    hide ParseChildResponse, ChildRekeyKeys;
  }

  lemma FinishIkeMoves(cfg: Config, c: Crypto, st: State, f: Frame)
    requires Inv(st) && st.phase == RekeyIkeRequesting && Matches(LineOf(st), f)
    ensures var o := FinishIkeRekey(cfg, c, st, f.inner);
            if RekeyResult(cfg, c, st.env, st.rekey.value, f.inner).None?
            then o.tx == [] &&
              EndOf(o.st) == AfterHearing(EndOf(st)) else Finishes(cfg, c, EndOf(st), f, o.tx, EndOf(o.st))
  {
    hide ParseIkeResponse, SharedSecret, RekeyedEnvelope;
  }

  lemma ResponseKeeps(cx: Config, cy: Config, c: Crypto, st: State, y: End, net: set<Frame>, f: Frame, complete: bool,
                      fr: Fresh)
    requires Inv(st) && Agreement(cx, cy, c, EndOf(st), y, net) && Authentic(st, f, net) && st.nextId < U32_LIMIT - 1
    requires f.response
    ensures var o := ProcessResponse(cx, c, st, f, complete, fr); Agreement(cx, cy, c, EndOf(o.st), y, Grow(net, o.tx))
  {
    hide Agreement, Requests, Finishes, FinishChildRekey, FinishIkeRekey, RekeyResult, HistoryInv, Idles;
    var o := ProcessResponse(cx, c, st, f, complete, fr);
    var mid := AfterHearing(EndOf(st));
    KeepIdles(st);
    if o.st == st && o.tx == [] {
      QuietKeeps(cx, cy, c, st, y, net, o);
    } else {
      assert Matches(LineOf(st), f) && f in net;
      assert Grow(net, []) == net;
      if st.phase == RekeyIkeRequesting {
        FinishIkeMoves(cx, c, st, f);
        if RekeyResult(cx, c, st.env, st.rekey.value,
                       f.inner).None? { HearKeeps(cx, cy, c, EndOf(st), y, net, f, mid); }
        else { FinishKeeps(cx, cy, c, EndOf(st), y, net, f, o.tx, EndOf(o.st)); }
      } else {
        HearKeeps(cx, cy, c, EndOf(st), y, net, f, mid);
        if st.phase == RekeyChildRequesting {
          FinishChildMoves(cx, c, st, f, fr);
          if EndOf(o.st) != mid || o.tx != [] { RequestKeeps(cx, cy, c, mid, y, net, o.tx, EndOf(o.st)); }
        }
      }
    }
  }

  // ---- Requests ----

  lemma RespondMoves(st: State, f: Frame, exchange: Exchange, inner: seq<Payload>, o: Outcome)
    requires Inv(st) && !f.response && Opens(st.env, f) && Unseen(st, f.messageId)
    requires var r := Respond(st, exchange, f.messageId, inner); o.tx == r.tx && EndOf(o.st) == EndOf(r.st)
    requires IkeRequest(f) ==> NoSa(inner)
    ensures IkeTalk.Answers(EndOf(st), f, o.tx, EndOf(o.st))
  {
    hide Trim, Ascending;
  }

  lemma InformationalMoves(st: State, f: Frame)
    requires Inv(st) && !f.response && Opens(st.env, f) && Unseen(st, f.messageId) && f.exchange == Informational
    requires !AsksIkeDelete(f.inner)
    ensures var o := ProcessInformational(st, f.messageId, f.inner);
            Idles(EndOf(st), o.tx, EndOf(o.st)) || IkeTalk.Answers(EndOf(st), f, o.tx, EndOf(o.st))
  {
    hide Trim, IkeTalk.Answers, Inv;
    var o := ProcessInformational(st, f.messageId, f.inner);
    match ReadNotice(f.inner) {
      case None =>
      case Some(Nothing) => RespondMoves(st, f, Informational, [], o);
      case Some(ConfigSet) => RespondMoves(st, f, Informational, [ConfigPayload(false, true)], o);
      case Some(DeleteIke) => assert f.inner[0] in f.inner;
      case Some(DeleteEsp(spi)) => RespondMoves(st, f, Informational, [], o);
    }
  }

  /** An accepted child rekey, with or without giving up our own. */
  lemma AcceptChildMoves(cfg: Config, c: Crypto, st: State, f: Frame, target: u32, prior: ChildSA,
                         req: PeerChildRequest, fr: Fresh)
    requires Inv(st) && !f.response && Opens(st.env, f) && Unseen(st, f.messageId) && HasSelectors(f.inner)
    ensures var o := AcceptPeerChild(cfg, c, st, f.messageId, target, prior, req, fr);
            (o.tx == [] && EndOf(o.st) == EndOf(st)) || IkeTalk.Answers(EndOf(st), f, o.tx, EndOf(o.st))
  {
    hide SelectPeerEsp, PeerChildKeys, PeerOutboundSpi, HasSelectors, IkeTalk.Answers, Inv;
    var o := AcceptPeerChild(cfg, c, st, f.messageId, target, prior, req, fr);
    if o.tx != [] { RespondMoves(st, f, CreateChildSa, o.tx[0].inner, o); }
  }

  lemma PeerChildKeeps(cx: Config, cy: Config, c: Crypto, st: State, y: End, net: set<Frame>, f: Frame, fr: Fresh)
    requires Inv(st) && Agreement(cx, cy, c, EndOf(st), y, net) && f in net
    requires !f.response && Opens(st.env, f) && Unseen(st, f.messageId) && HasSelectors(f.inner)
    ensures var o := ProcessPeerChildRekey(cx, c, st, f.messageId, f.inner, fr);
            Agreement(cx, cy, c, EndOf(o.st), y, Grow(net, o.tx))
  {
    hide Agreement, RekeyTarget, ParsePeerChild, DecideCollision, AcceptPeerChild, HasSelectors, IkeTalk.Answers,
         Idles, HistoryInv;
    var o := ProcessPeerChildRekey(cx, c, st, f.messageId, f.inner, fr);
    assert Grow(net, []) == net;
    if o.tx == [] && EndOf(o.st) == EndOf(st) {
    } else if RekeyTarget(f.inner).Some? && st.activeChild.Some? && ParsePeerChild(f.inner).Some?
              && o == AcceptPeerChild(cx, c, Abandon(st), f.messageId, RekeyTarget(f.inner).value,
                                      st.activeChild.value, ParsePeerChild(f.inner).value, fr)
              && st.phase == RekeyChildRequesting {
      AbandonKeeps(st);
      GiveUpKeeps(cx, cy, c, EndOf(st), y, net, EndOf(Abandon(st)));
      AcceptChildMoves(cx, c, Abandon(st), f, RekeyTarget(f.inner).value, st.activeChild.value,
                       ParsePeerChild(f.inner).value, fr);
      if o.tx != [] ||
        EndOf(o.st) != EndOf(Abandon(st)) { AnswerKeeps(cx, cy, c, EndOf(Abandon(st)), y, net, f, o.tx, EndOf(o.st)); }
    } else {
      PeerChildMoves(cx, c, st, f, fr);
      AnswerKeeps(cx, cy, c, EndOf(st), y, net, f, o.tx, EndOf(o.st));
    }
  }

  /** Without giving up a rekey of our own, a child rekey request is dropped or answered. */
  lemma PeerChildMoves(cfg: Config, c: Crypto, st: State, f: Frame, fr: Fresh)
    requires Inv(st) && !f.response && Opens(st.env, f) && Unseen(st, f.messageId) && HasSelectors(f.inner)
    ensures var o := ProcessPeerChildRekey(cfg, c, st, f.messageId, f.inner, fr);
            || (o.tx == [] && EndOf(o.st) == EndOf(st))
            || (RekeyTarget(f.inner).Some? && st.activeChild.Some? && ParsePeerChild(f.inner).Some? &&
                st.phase == RekeyChildRequesting
                && o == AcceptPeerChild(cfg, c, Abandon(st), f.messageId, RekeyTarget(f.inner).value,
                                        st.activeChild.value, ParsePeerChild(f.inner).value, fr))
            || IkeTalk.Answers(EndOf(st), f, o.tx, EndOf(o.st))
  {
    hide RekeyTarget, ParsePeerChild, DecideCollision, AcceptPeerChild, HasSelectors, IkeTalk.Answers, HistoryInv;
    var o := ProcessPeerChildRekey(cfg, c, st, f.messageId, f.inner, fr);
    if RekeyTarget(f.inner).Some? {
      var target := RekeyTarget(f.inner).value;
      if o == Refusal(st, f.messageId, W.PROTOCOL_ESP, Put32(target), NOTIFY_CHILD_SA_NOT_FOUND) {
        RespondMoves(st, f, CreateChildSa, [NotifyPayload(W.PROTOCOL_ESP, Put32(target), NOTIFY_CHILD_SA_NOT_FOUND)],
                     o);
      } else if o == Refusal(st, f.messageId, 0, [], NOTIFY_TEMPORARY_FAILURE) {
        RespondMoves(st, f, CreateChildSa, [NotifyPayload(0, [], NOTIFY_TEMPORARY_FAILURE)], o);
      } else if st.activeChild.Some? && ParsePeerChild(f.inner).Some? {
        AcceptChildMoves(cfg, c, st, f, target, st.activeChild.value, ParsePeerChild(f.inner).value, fr);
      }
    }
  }

  /** A request that would be accepted is the one the peer awaits. */
  lemma Awaited(cx: Config, cy: Config, c: Crypto, x: End, y: End, net: set<Frame>, f: Frame)
    requires Agreement(cx, cy, c, x, y, net) && f in net && IkeRequest(f) && Opens(x.line.env, f)
    requires New(x.line, f.messageId)
    requires x.retained.None? && Takable(cx, f)
    requires x.line.ike.Some? ==>
      FirstNonce(f.inner).Some? && DecideCollision(x.line.ike.value.ni, FirstNonce(f.inner).value) == WeLose
    ensures InStep(x, y) && y.line.awaited == Some(f) && y.line.ike.Some? && Asks(cy, c, y.line.ike.value, f)
  {
    hide RekeyResult, DecideCollision, FirstNonce, IkeOffer, Takable;
    FlipTwice(x.line.env, y.line.env);
  }

  /** Key derivation does not fail on a negotiated suite. */
  lemma Derives(cx: Config, cy: Config, c: Crypto, env: Envelope, shared: bytes, spi: u64, ni: bytes, nr: bytes,
                ikeSpi: u64, choice: IkeChoice)
    requires Ideal(c) && IkeOffer(cy, spi).Some?
    requires SelectPeerIke(cx, IkeOffer(cy, spi).value, ikeSpi) == Some(choice)
    ensures RekeyedEnvelope(c, env, shared, ni, nr, choice.peerSpi, ikeSpi, false, choice.selection).Some?
  {
    hide IkeOffer, SelectPeerIke, DecodeIke, DeriveIkeKeys, Understands;
    EchoUnderstood(cy, cx, spi, ikeSpi, IkeOffer(cy, spi).value, choice);
    var sel := choice.selection;
    KnownLengths(sel);
    IkeKeysPartition(c, sel.prf, RekeySeed(c, env.selected.prf, env.keys.skd, shared, ni, nr), ni, nr, choice.peerSpi,
                     ikeSpi,
                     sel.encryption, sel.integrity,
                     DeriveIkeKeys(c, sel.prf, RekeySeed(c, env.selected.prf, env.keys.skd, shared, ni, nr), ni, nr,
                                   choice.peerSpi, ikeSpi,
                                   sel.encryption, sel.integrity));
  }

  lemma AcceptIkeMoves(cx: Config, cy: Config, c: Crypto, st: State, base: State, rc: RekeyContext, f: Frame, fr: Fresh)
    requires Inv(st) && st.oldIke == [] && Ideal(c) && Takable(cx, f)
    requires IkeRequest(f) && Opens(st.env, f) && Unseen(st, f.messageId) && Asks(cy, c, rc, f)
    requires base == st || base == Abandon(st)
    requires var own := LineOf(st).ike;
             own.Some? ==> && FirstNonce(f.inner).Some?
                           && DecideCollision(own.value.ni, FirstNonce(f.inner).value) == WeLose
    ensures var o := AcceptPeerIke(cx, c, base, f.messageId, f.inner, fr);
            Accepts(cx, c, EndOf(st), f, fr, o.tx, EndOf(o.st)) && |o.st.oldIke| == 1 && !o.st.env.originalInitiator
  {
    hide DecideCollision, FirstNonce, RekeyedEnvelope, SelectPeerIke, ParsePeerIke, IkeOffer, HistoryInv, HasSelectors;
    RequestRead(cy, c, rc, f);
    var sa := IkeOffer(cy, rc.newInitiatorSpi).value;
    AnySpi(cx, sa, fr.ikeSpi, 0);
    assert c.agree(fr.dh, c.publicKey(rc.dh.value)) == c.agree(rc.dh.value, c.publicKey(fr.dh));
    var choice := SelectPeerIke(cx, sa, fr.ikeSpi).value;
    var shared := c.agree(fr.dh, c.publicKey(rc.dh.value)).value;
    Derives(cx, cy, c, st.env, shared, rc.newInitiatorSpi, rc.ni, fr.nonce, fr.ikeSpi, choice);
    RoleKept(c, st.env, shared, rc.ni, fr.nonce, choice.peerSpi, fr.ikeSpi, choice.selection);
  }

  lemma RoleKept(c: Crypto, env: Envelope, shared: bytes, ni: bytes, nr: bytes, spiI: u64, spiR: u64, sel: Selection)
    ensures var r := RekeyedEnvelope(c, env, shared, ni, nr, spiI, spiR, false, sel);
            r.Some? ==> !r.value.originalInitiator
  {
    hide DeriveIkeKeys;
  }

  /** A request this end cannot choose from is dropped or refused. */
  lemma Untakable(cfg: Config, c: Crypto, base: State, f: Frame, fr: Fresh)
    requires !Takable(cfg, f)
    ensures var o := AcceptPeerIke(cfg, c, base, f.messageId, f.inner, fr);
            o == Drop(base) || o == Refusal(base, f.messageId, 0, [], NOTIFY_NO_PROPOSAL_CHOSEN)
  {
    hide ParsePeerIke, SelectPeerIke;
    if ParsePeerIke(f.inner).Some? { AnySpi(cfg, ParsePeerIke(f.inner).value.sa, fr.ikeSpi, 0); }
  }

  lemma UntakableKeeps(cx: Config, cy: Config, c: Crypto, st: State, y: End, net: set<Frame>, f: Frame, o: Outcome)
    requires Inv(st) && Agreement(cx, cy, c, EndOf(st), y, net) && f in net
    requires IkeRequest(f) && Opens(st.env, f) && Unseen(st, f.messageId)
    requires o == Drop(st) || o == Refusal(st, f.messageId, 0, [], NOTIFY_NO_PROPOSAL_CHOSEN)
    ensures Agreement(cx, cy, c, EndOf(o.st), y, Grow(net, o.tx))
  {
    hide Agreement, IkeTalk.Answers, Idles, Inv;
    if o == Drop(st) {
      KeepIdles(st);
      QuietKeeps(cx, cy, c, st, y, net, o);
    } else {
      RespondMoves(st, f, CreateChildSa, [NotifyPayload(0, [], NOTIFY_NO_PROPOSAL_CHOSEN)], o);
      AnswerKeeps(cx, cy, c, EndOf(st), y, net, f, o.tx, EndOf(o.st));
    }
  }

  lemma PeerIkeKeeps(cx: Config, cy: Config, c: Crypto, st: State, y: End, net: set<Frame>, f: Frame, fr: Fresh)
    requires Inv(st) && Agreement(cx, cy, c, EndOf(st), y, net) && f in net
    requires Ideal(c) && Compatible(cx, cy) && |fr.nonce| == 32
    requires IkeRequest(f) && Opens(st.env, f) && Unseen(st, f.messageId)
    requires var o := ProcessPeerIkeRekey(cx, c, st, f.messageId, f.inner, fr);
             |st.oldIke| < |o.st.oldIke| && !o.st.env.originalInitiator ==> Unused(o.st.env, EndOf(st), net)
    ensures var o := ProcessPeerIkeRekey(cx, c, st, f.messageId, f.inner, fr);
            Agreement(cx, cy, c, EndOf(o.st), y, Grow(net, o.tx))
  {
    hide Agreement, DecideCollision, FirstNonce, AcceptPeerIke, Understands, Balanced, IkeTalk.Answers, Accepts, Asks,
         HistoryInv, HasSelectors, Unused, Takable;
    var o := ProcessPeerIkeRekey(cx, c, st, f.messageId, f.inner, fr);
    var base := if st.rekey.Some? then Abandon(st) else st;
    if o == Refusal(st, f.messageId, 0, [], NOTIFY_TEMPORARY_FAILURE) {
      RespondMoves(st, f, CreateChildSa, [NotifyPayload(0, [], NOTIFY_TEMPORARY_FAILURE)], o);
      AnswerKeeps(cx, cy, c, EndOf(st), y, net, f, o.tx, EndOf(o.st));
    } else if Takable(cx, f) {
      Awaited(cx, cy, c, EndOf(st), y, net, f);
      AcceptIkeMoves(cx, cy, c, st, base, y.line.ike.value, f, fr);
      AcceptKeeps(cx, cy, c, EndOf(st), y, net, f, fr, o.tx, EndOf(o.st));
    } else {
      Untakable(cx, c, base, f, fr);
      AbandonKeeps(st);
      if st.rekey.Some? { YieldKeeps(cx, cy, c, EndOf(st), y, net, f, EndOf(base)); }
      UntakableKeeps(cx, cy, c, base, y, net, f, o);
    }
  }

  // ---- Any packet, any turn ----

  lemma RequestFrameKeeps(cx: Config, cy: Config, c: Crypto, st: State, y: End, net: set<Frame>, f: Frame,
                          complete: bool, fr: Fresh)
    requires Inv(st) && Agreement(cx, cy, c, EndOf(st), y, net) && Authentic(st, f, net) && !f.response
    requires Ideal(c) && Compatible(cx, cy) && |fr.nonce| == 32
    requires var o := ProcessRequest(cx, c, st, f, complete, fr);
             |st.oldIke| < |o.st.oldIke| && !o.st.env.originalInitiator ==> Unused(o.st.env, EndOf(st), net)
    ensures var o := ProcessRequest(cx, c, st, f, complete, fr); Agreement(cx, cy, c, EndOf(o.st), y, Grow(net, o.tx))
  {
    hide ProcessInformational, ProcessPeerChildRekey, ProcessPeerIkeRekey, HasSelectors, Good, Compatible,
         IkeTalk.Answers, Idles, Unused, Inv;
    var o := ProcessRequest(cx, c, st, f, complete, fr);
    CachedFinds(st.history, f.messageId);
    if !Opens(st.env, f) || !complete || !Unseen(st, f.messageId) || f.exchange == OtherExchange ||
      Cached(st.history, f.messageId).Some? {
      ReplayIdles(st, f.messageId);
      QuietKeeps(cx, cy, c, st, y, net, o);
    } else if f.exchange == Informational {
      PoliteHere(cx, cy, c, EndOf(st), y, net, f);
      InformationalMoves(st, f);
      if Idles(EndOf(st), o.tx, EndOf(o.st)) { QuietKeeps(cx, cy, c, st, y, net, o); }
      else { AnswerKeeps(cx, cy, c, EndOf(st), y, net, f, o.tx, EndOf(o.st)); }
    } else if HasSelectors(f.inner) {
      PeerChildKeeps(cx, cy, c, st, y, net, f, fr);
    } else {
      PeerIkeKeeps(cx, cy, c, st, y, net, f, fr);
    }
  }

  lemma PoliteHere(cx: Config, cy: Config, c: Crypto, x: End, y: End, net: set<Frame>, f: Frame)
    requires Agreement(cx, cy, c, x, y, net) && f in net && !f.response && Opens(x.line.env, f)
    ensures !AsksIkeDelete(f.inner)
  {
    hide RekeyResult, DecideCollision, FirstNonce, Asks;
  }

  lemma ReplayIdles(st: State, id: u32)
    ensures Idles(EndOf(st), [], EndOf(st))
    ensures Cached(st.history, id).Some? ==> Idles(EndOf(st), Cached(st.history, id).value.packets, EndOf(st))
  {
    CachedFinds(st.history, id);
  }

  lemma PacketKeeps(cx: Config, cy: Config, c: Crypto, st: State, y: End, net: set<Frame>, ev: Event)
    requires Inv(st) && Agreement(cx, cy, c, EndOf(st), y, net) && Fair(st, ev, Step(cx, c, st, ev), net) && ev.Receive?
    requires Ideal(c) && Compatible(cx, cy)
    ensures var o := Step(cx, c, st, ev); Agreement(cx, cy, c, EndOf(o.st), y, Grow(net, o.tx))
  {
    hide Agreement, ProcessRequest, ProcessResponse, ProcessOldIke, Compatible, Unused, Inv, EndOf, Idles;
    if ev.pkt.Protected? {
      var f := ev.pkt.frame;
      if st.oldIke != [] && f.spiI == st.oldIke[0].env.spiI && f.spiR == st.oldIke[0].env.spiR {
        OldPacketKeeps(cx, cy, c, st, y, net, f, ev.pkt.complete);
      } else if f.response {
        ResponseKeeps(cx, cy, c, st, y, net, f, ev.pkt.complete, ev.fr);
      } else {
        RequestFrameKeeps(cx, cy, c, st, y, net, f, ev.pkt.complete, ev.fr);
      }
    } else {
      KeepIdles(st);
      QuietKeeps(cx, cy, c, st, y, net, Step(cx, c, st, ev));
    }
  }

  /** One turn of either end. */
  lemma TurnKeeps(cx: Config, cy: Config, c: Crypto, x: State, y: State, net: set<Frame>, ev: Event)
    requires Agree(cx, cy, c, x, y, net) && Compatible(cx, cy) && Ideal(c) && Fair(x, ev, Step(cx, c, x, ev), net)
    ensures var o := Step(cx, c, x, ev); Agree(cx, cy, c, o.st, y, Grow(net, o.tx))
  {
    hide Agreement, Step, Inv, Fair, Compatible;
    StepKeeps(cx, c, x, ev);
    if ev.Receive? {
      PacketKeeps(cx, cy, c, x, EndOf(y), net, ev);
    } else {
      TimerKeeps(cx, cy, c, x, EndOf(y), net, ev);
    }
  }

  // ---- Whole runs of two ends ----

  /** Every frame ever sent stays in `net`: delivering one at any time, any number of times
      or never covers loss, delay, reordering and repetition. */
  datatype World = World(x: State, y: State, net: set<Frame>)
  datatype Turn = Turn(atX: bool, ev: Event)

  function Taken(cx: Config, cy: Config, c: Crypto, w: World, t: Turn): Outcome {
    if t.atX then Step(cx, c, w.x, t.ev) else Step(cy, c, w.y, t.ev)
  }

  function Take(cx: Config, cy: Config, c: Crypto, w: World, t: Turn): World {
    var o := Taken(cx, cy, c, w, t);
    if t.atX then World(o.st, w.y, Grow(w.net, o.tx)) else World(w.x, o.st, Grow(w.net, o.tx))
  }

  function TakeAll(cx: Config, cy: Config, c: Crypto, w: World, turns: seq<Turn>): World
    decreases |turns|
  {
    if turns == [] then w else TakeAll(cx, cy, c, Take(cx, cy, c, w, turns[0]), turns[1..])
  }

  ghost predicate FairRun(cx: Config, cy: Config, c: Crypto, w: World, turns: seq<Turn>)
    decreases |turns|
  {
    turns == [] || (Fair(if turns[0].atX then w.x else w.y, turns[0].ev, Taken(cx, cy, c, w, turns[0]), w.net)
                    && FairRun(cx, cy, c, Take(cx, cy, c, w, turns[0]), turns[1..]))
  }

  /** Two ends of one established IKE SA, as they leave the handshake. */
  ghost predicate Established(x: State, y: State) {
    && RunningRuns.HandedOver(x) && RunningRuns.HandedOver(y)
    && y.env == Flip(x.env) && OutboundHalves(x.env) != InboundHalves(x.env)
  }

  ghost predicate SameSa(x: Envelope, y: Envelope) {
    && x.spiI == y.spiI && x.spiR == y.spiR && x.selected == y.selected && x.keys == y.keys
    && x.originalInitiator != y.originalInitiator
    && OutboundHalves(x) == InboundHalves(y) && OutboundHalves(y) == InboundHalves(x)
  }

  lemma EstablishedAgree(cx: Config, cy: Config, c: Crypto, x: State, y: State)
    requires Established(x, y)
    ensures Agree(cx, cy, c, x, y, {})
  {
  }

  lemma AgreeSymmetric(cx: Config, cy: Config, c: Crypto, x: State, y: State, net: set<Frame>)
    requires Agree(cx, cy, c, x, y, net)
    ensures Agree(cy, cx, c, y, x, net)
  {
    hide Good, Inv, Ahead, EndOf;
  }

  lemma {:induction false} RunAgrees(cx: Config, cy: Config, c: Crypto, w: World, turns: seq<Turn>)
    requires Agree(cx, cy, c, w.x, w.y, w.net) && Compatible(cx, cy) && Ideal(c) && FairRun(cx, cy, c, w, turns)
    ensures var v := TakeAll(cx, cy, c, w, turns); Agree(cx, cy, c, v.x, v.y, v.net)
    decreases |turns|
  {
    hide Step, Agree, Fair, Compatible;
    if turns != [] {
      var next := Take(cx, cy, c, w, turns[0]);
      if turns[0].atX {
        TurnKeeps(cx, cy, c, w.x, w.y, w.net, turns[0].ev);
      } else {
        AgreeSymmetric(cx, cy, c, w.x, w.y, w.net);
        CompatibleSymmetric(cx, cy);
        TurnKeeps(cy, cx, c, w.y, w.x, w.net, turns[0].ev);
        AgreeSymmetric(cy, cx, c, next.y, next.x, next.net);
      }
      RunAgrees(cx, cy, c, next, turns[1..]);
    }
  }

  lemma CompatibleSymmetric(cx: Config, cy: Config)
    requires Compatible(cx, cy)
    ensures Compatible(cy, cx)
  {
    hide Understands, SomeSuite, CanOffer;
  }

  /** Both ends hold the same SPIs, selection and keys in opposite roles, or exactly one of
      them has already accepted the rekey the other is still waiting to hear about, and then it
      retains the other end's SA. Without an IKE rekey outstanding they hold the same. */
  ghost predicate Agreed(v: World) {
    || SameSa(v.x.env, v.y.env)
    || (v.y.phase == RekeyIkeRequesting && v.x.oldIke != [] && SameSa(v.x.oldIke[0].env, v.y.env))
    || (v.x.phase == RekeyIkeRequesting && v.y.oldIke != [] && SameSa(v.y.oldIke[0].env, v.x.env))
  }

  lemma AgreeMeans(cx: Config, cy: Config, c: Crypto, w: World)
    requires Agree(cx, cy, c, w.x, w.y, w.net)
    ensures Agreed(w)
  {
    hide Good;
  }

  /** After any run, with IKE rekeys started by either end or by both at once, the ends agree. */
  lemma IkeSaAgrees(cx: Config, cy: Config, c: Crypto, x: State, y: State, turns: seq<Turn>)
    requires Established(x, y) && Compatible(cx, cy) && Ideal(c) && FairRun(cx, cy, c, World(x, y, {}), turns)
    ensures Agreed(TakeAll(cx, cy, c, World(x, y, {}), turns))
  {
    hide TakeAll, FairRun, Good, Compatible;
    EstablishedAgree(cx, cy, c, x, y);
    RunAgrees(cx, cy, c, World(x, y, {}), turns);
    AgreeMeans(cx, cy, c, TakeAll(cx, cy, c, World(x, y, {}), turns));
  }
}
