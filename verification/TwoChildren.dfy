/** Two running actors over the same network serve the same child: whatever rekeys are
    started, answered, refused, crossed or repeated. */
module TwoChildren {
  import opened Bytes
  import opened Keying
  import opened Negotiation
  import opened ChildNegotiation
  import opened Offers
  import opened IkeState
  import opened RekeyExchange
  import opened RunningSpec
  import opened RunningInvariant
  import opened IkeTalk
  import opened TwoEnds
  import opened ChildTalk
  import W = SaPayload

  function KidOf(st: State): Kid
    requires st.activeChild.Some?
  {
    Kid(EndOf(st), st.activeChild.value, if st.rekey.Some? && st.rekey.value.kind == RekeyChild then st.rekey else None)
  }

  /** `st` serves a child, in agreement with what the other end serves. */
  ghost predicate Serving(cx: Config, cy: Config, c: Crypto, st: State, y: Kid, net: set<Frame>, sx: set<u32>,
                          sy: set<u32>) {
    Inv(st) && st.activeChild.Some? && Family(cx, cy, c, KidOf(st), y, net, sx, sy)
  }

  /** What a step has to keep (the agreement on the IKE SA is kept separately). */
  ghost predicate StillServing(cx: Config, cy: Config, c: Crypto, o: Outcome, y: Kid, net: set<Frame>, sx: set<u32>,
                               sy: set<u32>) {
    o.st.activeChild.Some? && Kinship(cx, cy, c, KidOf(o.st), y, Grow(net, o.tx), sx, sy)
  }

  /** Neither end draws an SPI twice, or one the other has drawn. */
  lemma Wider(cx: Config, cy: Config, c: Crypto, x: Kid, y: Kid, net: set<Frame>, sx: set<u32>, sy: set<u32>, s: u32)
    requires Kinship(cx, cy, c, x, y, net, sx, sy) && s !in sy
    ensures Kinship(cx, cy, c, x, y, net, sx + {s}, sy)
  {
    hide ChildResult, DecideCollision, RekeyTarget, ParsePeerChild, DeletedSpi, HasSelectors, ChildRekeyRequest,
         Registered, InStep, Decided, Awaits, ChildAhead, Paired;
  }

  lemma Resting(cx: Config, cy: Config, c: Crypto, st: State, y: Kid, net: set<Frame>, sx: set<u32>, sy: set<u32>,
                o: Outcome)
    requires Serving(cx, cy, c, st, y, net, sx, sy) && Idles(EndOf(st), o.tx, EndOf(o.st))
    requires o.st.activeChild == st.activeChild && o.st.rekey == st.rekey
    ensures StillServing(cx, cy, c, o, y, net, sx, sy)
  {
    hide Family, Kinship, Idles, Inv, EndOf;
    RestKeeps(cx, cy, c, KidOf(st), y, net, sx, sy, o.tx, KidOf(o.st));
  }

  // ---- Timers ----

  lemma TickServes(cx: Config, cy: Config, c: Crypto, st: State, y: Kid, net: set<Frame>, sx: set<u32>, sy: set<u32>)
    requires Serving(cx, cy, c, st, y, net, sx, sy) && !st.hasExpected
    ensures StillServing(cx, cy, c, SendRequest(st, Informational, []), y, net, sx, sy)
  {
    hide Family, Kinship, Requests, OldInv, HistoryInv;
    var o := SendRequest(st, Informational, []);
    TickRequests(cx, c, st);
    AskRests(cx, cy, c, KidOf(st), y, net, sx, sy, o.tx[0], KidOf(o.st));
    GrowOne(net, o.tx[0]);
  }

  lemma StartIkeServes(cx: Config, cy: Config, c: Crypto, st: State, y: Kid, net: set<Frame>, sx: set<u32>,
                       sy: set<u32>, fr: Fresh)
    requires Serving(cx, cy, c, st, y, net, sx, sy) && |fr.nonce| == 32
    ensures StillServing(cx, cy, c, StartIkeRekey(cx, c, st, fr), y, net, sx, sy)
  {
    hide Family, Kinship, Requests, OldInv, HistoryInv, Repeats, SameRetained, IkeOffer;
    var o := StartIkeRekey(cx, c, st, fr);
    StartIkeRequests(cx, c, st, fr);
    if o.tx == [] {
      NoFrameIdles(cx, c, st, o);
      Resting(cx, cy, c, st, y, net, sx, sy, o);
    } else {
      NoSelectors(o.tx[0].inner);
      AskRests(cx, cy, c, KidOf(st), y, net, sx, sy, o.tx[0], KidOf(o.st));
      GrowOne(net, o.tx[0]);
    }
  }

  lemma NoFrameIdles(cfg: Config, c: Crypto, st: State, o: Outcome)
    requires o.tx == [] && (Idles(EndOf(st), o.tx, EndOf(o.st)) || Requests(cfg, c, EndOf(st), o.tx, EndOf(o.st)))
    ensures Idles(EndOf(st), o.tx, EndOf(o.st))
  {
  }

  lemma NoSelectors(inner: seq<Payload>)
    requires |inner| == 3 && inner[0].SaPayload? && inner[1].NoncePayload? && inner[2].KePayload?
    ensures !HasSelectors(inner) && DeletedSpi(inner).None?
  {
  }

  lemma StartChildServes(cx: Config, cy: Config, c: Crypto, st: State, y: Kid, net: set<Frame>, sx: set<u32>,
                         sy: set<u32>, fr: Fresh)
    requires Serving(cx, cy, c, st, y, net, sx, sy) && |fr.nonce| == 32 && fr.childSpi !in sx + sy && Ideal(c)
    ensures StillServing(cx, cy, c, StartChildRekey(cx, c, st, fr), y, net, sx + {fr.childSpi}, sy)
  {
    hide Family, Kinship, Requests, HistoryInv, Repeats, SameRetained, ChildRekeyRequest, HasSelectors, DeletedSpi,
         AsksIkeDelete;
    var o := StartChildRekey(cx, c, st, fr);
    StartChildRequests(cx, c, st, fr);
    if o.tx == [] {
      NoFrameIdles(cx, c, st, o);
      Resting(cx, cy, c, st, y, net, sx, sy, o);
      Wider(cx, cy, c, KidOf(o.st), y, Grow(net, o.tx), sx, sy, fr.childSpi);
    } else {
      var t := o.tx[0];
      ChildRequestRead(cx, c, st.activeChild.value, fr, t.inner);
      SameRequest(cx, c, st.activeChild.value, fr, o.st.rekey.value);
      AskRekeys(cx, cy, c, KidOf(st), y, net, sx, sy, t, KidOf(o.st));
      GrowOne(net, t);
    }
  }

  /** A request depends on the SPI, the nonce and, with PFS, the DH secret only. */
  lemma SameRequest(cfg: Config, c: Crypto, active: ChildSA, fr: Fresh, rc: RekeyContext)
    requires rc.newInboundSpi == fr.childSpi && rc.ni == fr.nonce && rc.dh == if cfg.childPfs then Some(fr.dh) else None
    ensures ChildRekeyRequest(cfg, c, active,
                              Fresh(rc.newInboundSpi, 0, rc.ni, if rc.dh.Some? then rc.dh.value else 0, true))
         == ChildRekeyRequest(cfg, c, active, fr)
  {
    hide ChildOfferSA;
  }

  lemma TimersServe(cx: Config, cy: Config, c: Crypto, st: State, y: Kid, net: set<Frame>, sx: set<u32>, sy: set<u32>,
                    exhausted: bool)
    requires Serving(cx, cy, c, st, y, net, sx, sy)
    ensures StillServing(cx, cy, c, OnRto(st, false), y, net, sx, sy)
    ensures StillServing(cx, cy, c, OnOldRto(st, exhausted), y, net, sx, sy)
  {
    hide Family, Kinship, Inv, Idles, StillServing, EndOf;
    TimersIdle(st, exhausted);
    Resting(cx, cy, c, st, y, net, sx, sy, OnRto(st, false));
    Resting(cx, cy, c, st, y, net, sx, sy, OnOldRto(st, exhausted));
  }

  // ---- Packets for the retained SA, and answers ----

  lemma OldPacketServes(cx: Config, cy: Config, c: Crypto, st: State, y: Kid, net: set<Frame>, sx: set<u32>,
                        sy: set<u32>, f: Frame, complete: bool)
    requires Serving(cx, cy, c, st, y, net, sx, sy) && st.oldIke != []
    ensures StillServing(cx, cy, c, ProcessOldIke(st, f, complete), y, net, sx, sy)
  {
    hide Family, Kinship, Inv, Idles, ServesOld, EndOf;
    var o := ProcessOldIke(st, f, complete);
    OldPacketMoves(st, f, complete);
    assert o.st.activeChild == st.activeChild && o.st.rekey == st.rekey;
    if Idles(EndOf(st), o.tx, EndOf(o.st)) { Resting(cx, cy, c, st, y, net, sx, sy, o); }
    else { ServeOldRests(cx, cy, c, KidOf(st), y, net, sx, sy, f, o.tx, KidOf(o.st)); }
  }

  /** The child answer decides what happens: nothing, or the new child and a DELETE for the old. */
  lemma FinishChildOutcome(cfg: Config, c: Crypto, st: State, f: Frame, fr: Fresh)
    requires Inv(st) && st.phase == RekeyChildRequesting && st.activeChild.Some? && fr.acked
    ensures var o := FinishChildRekey(cfg, c, st, f.inner, fr);
            var child := ChildResult(cfg, c, st.env, st.rekey.value, f.inner);
            if child.None? then o == Drop(Abandon(st))
            else o.st.activeChild == child && o.st.rekey.None? && |o.tx| == 1 && o.tx[0].exchange == Informational
                 && o.tx[0].inner == [DeletePayload(W.PROTOCOL_ESP, [st.activeChild.value.inboundSpi])]
  {
    hide ParseChildResponse, ChildRekeyKeys, HistoryInv;
  }

  lemma FinishChildServes(cx: Config, cy: Config, c: Crypto, st: State, y: Kid, net: set<Frame>, sx: set<u32>,
                          sy: set<u32>, f: Frame, fr: Fresh)
    requires Serving(cx, cy, c, st, y, net, sx, sy) && st.phase == RekeyChildRequesting && f in net
    requires Matches(LineOf(st), f) && fr.acked
    ensures StillServing(cx, cy, c, FinishChildRekey(cx, c, st, f.inner, fr), y, net, sx, sy)
  {
    hide Agreement, Kinship, Requests, FinishChildRekey, ChildResult, HistoryInv, OldInv, WaitInv;
    var o := FinishChildRekey(cx, c, st, f.inner, fr);
    var child := ChildResult(cx, c, st.env, st.rekey.value, f.inner);
    FinishChildOutcome(cx, c, st, f, fr);
    FinishChildMoves(cx, c, st, f, fr);
    var end := AfterHearing(EndOf(st));
    if child.None? {
      assert Grow(net, []) == net;
      RefusedKeeps(cx, cy, c, KidOf(st), y, net, sx, sy, f, KidOf(o.st));
    } else {
      var mid := Kid(end, child.value, None);
      FinishChildKeeps(cx, cy, c, KidOf(st), y, net, sx, sy, f, child.value, mid);
      HearKeeps(cx, cy, c, EndOf(st), y.end, net, f, end);
      assert o.tx == [o.tx[0]];
      AskRests(cx, cy, c, mid, y, net, sx, sy, o.tx[0], KidOf(o.st));
      GrowOne(net, o.tx[0]);
    }
  }

  lemma FinishIkeServes(cx: Config, cy: Config, c: Crypto, st: State, y: Kid, net: set<Frame>, sx: set<u32>,
                        sy: set<u32>, f: Frame)
    requires Serving(cx, cy, c, st, y, net, sx, sy) && st.phase == RekeyIkeRequesting && f in net
    requires Matches(LineOf(st), f)
    ensures StillServing(cx, cy, c, FinishIkeRekey(cx, c, st, f.inner), y, net, sx, sy)
  {
    hide Agreement, Kinship, FinishIkeRekey, RekeyResult, HistoryInv, OldInv, WaitInv, Ahead;
    var o := FinishIkeRekey(cx, c, st, f.inner);
    FinishIkeMoves(cx, c, st, f);
    FinishIkeSameChild(cx, c, st, f);
    if RekeyResult(cx, c, st.env, st.rekey.value, f.inner).None? {
      assert Grow(net, []) == net;
      HearRests(cx, cy, c, KidOf(st), y, net, sx, sy, f, KidOf(o.st));
    } else {
      FinishFollows(cx, cy, c, EndOf(st), y.end, net, f, o.tx, EndOf(o.st));
      FlipTwice(o.st.env, y.end.line.env);
      FinishIkeRests(cx, cy, c, KidOf(st), y, net, sx, sy, o.tx[0], KidOf(o.st));
      assert o.tx == [o.tx[0]];
      GrowOne(net, o.tx[0]);
    }
  }

  lemma FinishIkeSameChild(cfg: Config, c: Crypto, st: State, f: Frame)
    requires Inv(st) && st.phase == RekeyIkeRequesting
    ensures var o := FinishIkeRekey(cfg, c, st, f.inner); o.st.activeChild == st.activeChild && o.st.rekey.None?
  {
    hide ParseIkeResponse, SharedSecret, RekeyedEnvelope, HistoryInv;
  }

  lemma ResponseServes(cx: Config, cy: Config, c: Crypto, st: State, y: Kid, net: set<Frame>, sx: set<u32>,
                       sy: set<u32>, f: Frame, complete: bool, fr: Fresh)
    requires Serving(cx, cy, c, st, y, net, sx, sy) && Authentic(st, f, net) && fr.acked && f.response
    ensures StillServing(cx, cy, c, ProcessResponse(cx, c, st, f, complete, fr), y, net, sx, sy)
  {
    hide Family, Kinship, FinishChildRekey, FinishIkeRekey, HistoryInv, Idles;
    var o := ProcessResponse(cx, c, st, f, complete, fr);
    KeepIdles(st);
    if o.st == st && o.tx == [] {
      Resting(cx, cy, c, st, y, net, sx, sy, o);
    } else {
      assert Matches(LineOf(st), f) && f in net;
      if st.phase == RekeyIkeRequesting {
        FinishIkeServes(cx, cy, c, st, y, net, sx, sy, f);
      } else if st.phase == RekeyChildRequesting {
        FinishChildServes(cx, cy, c, st, y, net, sx, sy, f, fr);
      } else {
        assert Grow(net, []) == net;
        HearRests(cx, cy, c, KidOf(st), y, net, sx, sy, f, KidOf(o.st));
      }
    }
  }

  // ---- Requests ----

  lemma InformationalSpares(st: State, f: Frame)
    requires Inv(st) && st.activeChild.Some? && !AsksIkeDelete(f.inner)
    requires DeletedSpi(f.inner) != Some(st.activeChild.value.outboundSpi)
    ensures var o := ProcessInformational(st, f.messageId, f.inner);
            o.st.activeChild == st.activeChild && o.st.rekey == st.rekey
  {
    hide Trim, HistoryInv;
  }

  lemma SparedHere(cx: Config, cy: Config, c: Crypto, x: Kid, y: Kid, net: set<Frame>, sx: set<u32>, sy: set<u32>,
                   f: Frame)
    requires Kinship(cx, cy, c, x, y, net, sx, sy) && f in net && !f.response && Opens(x.end.line.env, f)
    ensures DeletedSpi(f.inner) != Some(x.active.outboundSpi)
  {
    hide ChildResult, DecideCollision, RekeyTarget, ParsePeerChild, HasSelectors, ChildRekeyRequest, Registered;
  }

  lemma InformationalServes(cx: Config, cy: Config, c: Crypto, st: State, y: Kid, net: set<Frame>, sx: set<u32>,
                            sy: set<u32>, f: Frame)
    requires Serving(cx, cy, c, st, y, net, sx, sy) && f in net && !f.response && Opens(st.env, f)
    requires Unseen(st, f.messageId) && f.exchange == Informational
    ensures StillServing(cx, cy, c, ProcessInformational(st, f.messageId, f.inner), y, net, sx, sy)
  {
    hide Agreement, Kinship, ProcessInformational, Inv, Idles, IkeTalk.Answers;
    var o := ProcessInformational(st, f.messageId, f.inner);
    PoliteHere(cx, cy, c, EndOf(st), y.end, net, f);
    SparedHere(cx, cy, c, KidOf(st), y, net, sx, sy, f);
    InformationalMoves(st, f);
    InformationalSpares(st, f);
    if Idles(EndOf(st), o.tx, EndOf(o.st)) { Resting(cx, cy, c, st, y, net, sx, sy, o); }
    else { AnsweredRests(cx, cy, c, st, y, net, sx, sy, f, o); }
  }

  lemma AnsweredRests(cx: Config, cy: Config, c: Crypto, st: State, y: Kid, net: set<Frame>, sx: set<u32>,
                      sy: set<u32>, f: Frame, o: Outcome)
    requires Serving(cx, cy, c, st, y, net, sx, sy) && f in net && IkeTalk.Answers(EndOf(st), f, o.tx, EndOf(o.st))
    requires o.st.activeChild == st.activeChild && o.st.rekey == st.rekey && (ChildRequest(f) ==> NoSa(o.tx[0].inner))
    ensures StillServing(cx, cy, c, o, y, net, sx, sy)
  {
    hide Agreement, Kinship, Inv, Trim;
    assert o.tx == [o.tx[0]];
    AnswerRests(cx, cy, c, KidOf(st), y, net, sx, sy, f, o.tx[0], KidOf(o.st));
    GrowOne(net, o.tx[0]);
  }

  /** A request that is not acceptable is dropped or refused. */
  lemma PeerChildRefuses(cfg: Config, c: Crypto, st: State, f: Frame, fr: Fresh)
    requires Inv(st) && st.activeChild.Some? && ChildRequest(f) && Opens(st.env, f) && Unseen(st, f.messageId)
    requires !Acceptable(KidOf(st), f)
    ensures var o := ProcessPeerChildRekey(cfg, c, st, f.messageId, f.inner, fr);
            || o == Drop(st)
            || (IkeTalk.Answers(EndOf(st), f, o.tx, EndOf(o.st)) && NoSa(o.tx[0].inner) &&
                o.st.activeChild == st.activeChild && o.st.rekey == st.rekey)
  {
    hide RekeyTarget, ParsePeerChild, DecideCollision, AcceptPeerChild, HasSelectors, IkeTalk.Answers, HistoryInv;
    var o := ProcessPeerChildRekey(cfg, c, st, f.messageId, f.inner, fr);
    if RekeyTarget(f.inner).Some? {
      var target := RekeyTarget(f.inner).value;
      if o == Refusal(st, f.messageId, W.PROTOCOL_ESP, Put32(target), NOTIFY_CHILD_SA_NOT_FOUND) {
        RespondMoves(st, f, CreateChildSa, [NotifyPayload(W.PROTOCOL_ESP, Put32(target), NOTIFY_CHILD_SA_NOT_FOUND)],
                     o);
      } else if o == Refusal(st, f.messageId, 0, [], NOTIFY_TEMPORARY_FAILURE) {
        RespondMoves(st, f, CreateChildSa, [NotifyPayload(0, [], NOTIFY_TEMPORARY_FAILURE)], o);
      }
    }
  }

  /** The state a child rekey is accepted in. */
  function Yielding(st: State): State {
    if st.rekey.Some? && st.rekey.value.kind == RekeyChild then Abandon(st) else st
  }

  lemma PeerChildAccepts(cfg: Config, c: Crypto, st: State, f: Frame, fr: Fresh)
    requires Inv(st) && st.activeChild.Some? && Acceptable(KidOf(st), f)
    ensures ProcessPeerChildRekey(cfg, c, st, f.messageId, f.inner, fr)
         == AcceptPeerChild(cfg, c, Yielding(st), f.messageId, RekeyTarget(f.inner).value, st.activeChild.value,
                            ParsePeerChild(f.inner).value, fr)
  {
    hide RekeyTarget, ParsePeerChild, DecideCollision, AcceptPeerChild, HasSelectors, HistoryInv;
  }

  /** Nothing fails on the way: the suite is found and the keys are derived. */
  lemma PeerKeysDerive(cx: Config, cy: Config, c: Crypto, env: Envelope, active: ChildSA, rc: RekeyContext, q: Frame,
                       fr: Fresh, req: PeerChildRequest)
    requires Ideal(c) && TakableChild(cx, q) && AsksChild(cy, c, active, rc, q) && ParsePeerChild(q.inner) == Some(req)
    ensures var choice := SelectPeerEsp(cx, req.sa, fr.childSpi, req.ke.Some?);
            choice.Some? && PeerChildKeys(c, env, req, fr, choice.value.selection).Some?
  {
    hide ChildOfferSA, SelectPeerEsp, DecodeChild, DeriveChildKeys, ChildRekeyRequest, PeerOutboundSpi, ParsePeerChild,
         RekeyTarget, DeletedSpi, HasSelectors, UnderstandsChild, KnownChild;
    AsksChildRead(cy, c, active, rc, q);
    AnyChildSpi(cx, req.sa, fr.childSpi, 0, req.ke.Some?);
    var offer := ChildOfferSA(cy, rc.newInboundSpi).value;
    var choice := SelectPeerEsp(cx, offer, fr.childSpi, cy.childPfs).value;
    ChildEchoUnderstood(cy, cx, env.selected, rc.newInboundSpi, fr.childSpi, offer, choice);
    ChildLengths(choice.selection);
    var shared := if cy.childPfs then c.agree(fr.dh, c.publicKey(rc.dh.value)) else Some([]);
    assert cy.childPfs ==> c.agree(rc.dh.value, c.publicKey(fr.dh)) == c.agree(fr.dh, c.publicKey(rc.dh.value));
    ChildKeysPartition(c, choice.selection.prf, env.keys.skd, rc.ni, fr.nonce, shared.value,
                       choice.selection.encryption, choice.selection.integrity);
  }

  lemma AcceptChildOutcome(cx: Config, c: Crypto, st: State, f: Frame, fr: Fresh, req: PeerChildRequest)
    requires Inv(st) && st.activeChild.Some? && Acceptable(KidOf(st), f) && ParsePeerChild(f.inner) == Some(req)
    requires fr.acked && fr.nonce != []
    requires var choice := SelectPeerEsp(cx, req.sa, fr.childSpi, req.ke.Some?);
             choice.Some? && PeerChildKeys(c, st.env, req, fr, choice.value.selection).Some?
    ensures var o := ProcessPeerChildRekey(cx, c, st, f.messageId, f.inner, fr);
            && |o.tx| == 1 && o.st.activeChild.Some? && AcceptsChild(cx, c, KidOf(st), f, fr, o.tx[0], KidOf(o.st))
  {
    hide SelectPeerEsp, PeerChildKeys, PeerOutboundSpi, ParsePeerChild, RekeyTarget, HasSelectors, IkeTalk.Answers,
         DecideCollision, AcceptPeerChild;
    var o := ProcessPeerChildRekey(cx, c, st, f.messageId, f.inner, fr);
    PeerChildAccepts(cx, c, st, f, fr);
    AcceptedChild(cx, c, st, f, fr, req);
    AbandonKeeps(st);
    RespondMoves(Yielding(st), f, CreateChildSa, o.tx[0].inner, o);
    assert o.tx == [o.tx[0]];
  }

  lemma AcceptedChild(cx: Config, c: Crypto, st: State, f: Frame, fr: Fresh, req: PeerChildRequest)
    requires st.activeChild.Some? && RekeyTarget(f.inner).Some? && fr.acked
    requires var choice := SelectPeerEsp(cx, req.sa, fr.childSpi, req.ke.Some?);
             choice.Some? && PeerChildKeys(c, st.env, req, fr, choice.value.selection).Some?
    ensures var o :=
      AcceptPeerChild(cx, c, Yielding(st), f.messageId, RekeyTarget(f.inner).value, st.activeChild.value, req, fr);
            var inner := RequestParts(SelectPeerEsp(cx, req.sa, fr.childSpi, req.ke.Some?).value.echo, fr.nonce,
                                      KeOf(c, req.ke.Some?, fr.dh), req.tsi, req.tsr);
            var r := Respond(Yielding(st), CreateChildSa, f.messageId, inner);
            && o.tx == r.tx && EndOf(o.st) == EndOf(r.st) && o.st.rekey == r.st.rekey
            && o.st.activeChild == Some(ChildSA(fr.childSpi, PeerOutboundSpi(req.sa), req.tsr, req.tsi, false))
  {
    hide SelectPeerEsp, PeerChildKeys, PeerOutboundSpi, RekeyTarget, Trim, KeOf;
  }

  /** Each end reads what the other chooses for a child, and takes some of its offers only if
      the other does so too. */
  predicate CompatibleChild(cx: Config, cy: Config) {
    UnderstandsChild(cx, cy) && UnderstandsChild(cy, cx) && BalancedChild(cx, cy)
  }

  /** A request this end cannot choose from is refused, after giving up our own. */
  lemma UntakableOutcome(cfg: Config, c: Crypto, st: State, f: Frame, fr: Fresh)
    requires Inv(st) && st.activeChild.Some? && Acceptable(KidOf(st), f) && !TakableChild(cfg, f)
    ensures RekeyTarget(f.inner).Some?
    ensures ProcessPeerChildRekey(cfg, c, st, f.messageId, f.inner, fr)
         == Refusal(Yielding(st), f.messageId, W.PROTOCOL_ESP, Put32(RekeyTarget(f.inner).value),
                    NOTIFY_NO_PROPOSAL_CHOSEN)
  {
    hide RekeyTarget, ParsePeerChild, DecideCollision, HasSelectors, HistoryInv, SelectPeerEsp, PeerChildKeys, Yielding;
    PeerChildAccepts(cfg, c, st, f, fr);
    var req := ParsePeerChild(f.inner).value;
    AnyChildSpi(cfg, req.sa, fr.childSpi, 0, req.ke.Some?);
  }

  lemma YieldingKid(cx: Config, cy: Config, c: Crypto, st: State, y: Kid, net: set<Frame>, sx: set<u32>, sy: set<u32>,
                    f: Frame)
    requires Serving(cx, cy, c, st, y, net, sx, sy) && f in net && Ideal(c) && BalancedChild(cx, cy)
    requires Acceptable(KidOf(st), f) && !TakableChild(cx, f)
    ensures Serving(cx, cy, c, Yielding(st), y, net, sx, sy)
  {
    hide Agreement, Kinship, Acceptable, TakableChild, BalancedChild, HistoryInv;
    if st.rekey.Some? && st.rekey.value.kind == RekeyChild {
      AbandonKeeps(st);
      GiveUpKeeps(cx, cy, c, EndOf(st), y.end, net, EndOf(Abandon(st)));
      YieldChildKeeps(cx, cy, c, KidOf(st), y, net, sx, sy, f);
      assert KidOf(Abandon(st)) == Yielded(KidOf(st));
    }
  }

  lemma UntakableServes(cx: Config, cy: Config, c: Crypto, st: State, y: Kid, net: set<Frame>, sx: set<u32>,
                        sy: set<u32>, f: Frame, fr: Fresh)
    requires Serving(cx, cy, c, st, y, net, sx, sy) && f in net && ChildRequest(f) && Opens(st.env, f)
    requires Unseen(st, f.messageId)
    requires Ideal(c) && BalancedChild(cx, cy) && Acceptable(KidOf(st), f) && !TakableChild(cx, f)
    ensures StillServing(cx, cy, c, ProcessPeerChildRekey(cx, c, st, f.messageId, f.inner, fr), y, net, sx, sy)
  {
    hide Family, Kinship, ProcessPeerChildRekey, IkeTalk.Answers, Acceptable, TakableChild, BalancedChild, RekeyTarget,
         HasSelectors, HistoryInv, Put32;
    var o := ProcessPeerChildRekey(cx, c, st, f.messageId, f.inner, fr);
    UntakableOutcome(cx, c, st, f, fr);
    var notify := NotifyPayload(W.PROTOCOL_ESP, Put32(RekeyTarget(f.inner).value), NOTIFY_NO_PROPOSAL_CHOSEN);
    YieldingKid(cx, cy, c, st, y, net, sx, sy, f);
    RespondMoves(Yielding(st), f, CreateChildSa, [notify], o);
    AnsweredRests(cx, cy, c, Yielding(st), y, net, sx, sy, f, o);
  }

  lemma PeerChildServes(cx: Config, cy: Config, c: Crypto, st: State, y: Kid, net: set<Frame>, sx: set<u32>,
                        sy: set<u32>, f: Frame, fr: Fresh)
    requires Serving(cx, cy, c, st, y, net, sx, sy) && f in net && ChildRequest(f) && Opens(st.env, f)
    requires Unseen(st, f.messageId)
    requires Ideal(c) && CompatibleChild(cx, cy) && fr.acked && |fr.nonce| == 32 && fr.childSpi !in sx + sy
    ensures StillServing(cx, cy, c, ProcessPeerChildRekey(cx, c, st, f.messageId, f.inner, fr), y, net,
                         sx + {fr.childSpi}, sy)
  {
    hide Agreement, Kinship, ProcessPeerChildRekey, Idles, IkeTalk.Answers, AcceptsChild, HasSelectors, AsksChild,
         Acceptable, ParsePeerChild, HistoryInv, OldInv, WaitInv, EndOf, Yielding, TakableChild, UnderstandsChild,
         BalancedChild;
    var o := ProcessPeerChildRekey(cx, c, st, f.messageId, f.inner, fr);
    if Acceptable(KidOf(st), f) && !TakableChild(cx, f) {
      UntakableServes(cx, cy, c, st, y, net, sx, sy, f, fr);
      Wider(cx, cy, c, KidOf(o.st), y, Grow(net, o.tx), sx, sy, fr.childSpi);
    } else if Acceptable(KidOf(st), f) {
      AcceptFinds(cx, cy, c, KidOf(st), y, net, sx, sy, f);
      ParsedThen(KidOf(st), f);
      var req := ParsePeerChild(f.inner).value;
      PeerKeysDerive(cx, cy, c, st.env, y.active, y.rc.value, f, fr, req);
      AcceptChildOutcome(cx, c, st, f, fr, req);
      AcceptChildKeeps(cx, cy, c, KidOf(st), y, net, sx, sy, f, fr, o.tx[0], KidOf(o.st));
      assert o.tx == [o.tx[0]];
      GrowOne(net, o.tx[0]);
    } else {
      PeerChildRefuses(cx, c, st, f, fr);
      KeepIdles(st);
      if o == Drop(st) {
        Resting(cx, cy, c, st, y, net, sx, sy, o);
      } else {
        AnsweredRests(cx, cy, c, st, y, net, sx, sy, f, o);
      }
      Wider(cx, cy, c, KidOf(o.st), y, Grow(net, o.tx), sx, sy, fr.childSpi);
    }
  }

  lemma ParsedThen(x: Kid, f: Frame)
    requires Acceptable(x, f)
    ensures ParsePeerChild(f.inner).Some?
  {
  }

  // ---- IKE rekey requests leave the child alone ----

  lemma AcceptedRegistered(cx: Config, cy: Config, c: Crypto, e: End, f: Frame, fr: Fresh, tx: seq<Frame>, n: End,
                           rc: RekeyContext)
    requires Ideal(c) && Asks(cy, c, rc, f) && Accepts(cx, c, e, f, fr, tx, n)
    ensures Registered(n.line.env.selected.prf)
  {
    hide SelectPeerIke, IkeOffer, DeriveIkeKeys, ParsePeerIke, FirstNonce, DecideCollision, DecodeIke, Understands;
    RequestRead(cy, c, rc, f);
    var sa := IkeOffer(cy, rc.newInitiatorSpi).value;
    var choice := SelectPeerIke(cx, sa, fr.ikeSpi).value;
    EchoUnderstood(cy, cx, rc.newInitiatorSpi, fr.ikeSpi, sa, choice);
  }

  lemma AcceptIkeSameChild(cfg: Config, c: Crypto, st: State, f: Frame, fr: Fresh)
    ensures var o := AcceptPeerIke(cfg, c, st, f.messageId, f.inner, fr);
            o.st.activeChild == st.activeChild && (o.st.rekey == st.rekey || o.st.rekey.None?)
  {
    hide ParsePeerIke, SelectPeerIke, RekeyedEnvelope, Trim;
  }

  lemma PeerIkeServes(cx: Config, cy: Config, c: Crypto, st: State, y: Kid, net: set<Frame>, sx: set<u32>,
                      sy: set<u32>, f: Frame, fr: Fresh)
    requires Serving(cx, cy, c, st, y, net, sx, sy) && f in net && IkeRequest(f) && Opens(st.env, f)
    requires Unseen(st, f.messageId)
    requires Ideal(c) && Compatible(cx, cy) && |fr.nonce| == 32
    requires var o := ProcessPeerIkeRekey(cx, c, st, f.messageId, f.inner, fr);
             |st.oldIke| < |o.st.oldIke| && !o.st.env.originalInitiator ==> Unused(o.st.env, EndOf(st), net)
    ensures StillServing(cx, cy, c, ProcessPeerIkeRekey(cx, c, st, f.messageId, f.inner, fr), y, net, sx, sy)
  {
    hide Agreement, Kinship, DecideCollision, FirstNonce, AcceptPeerIke, Compatible, IkeTalk.Answers, Accepts, Asks,
         HistoryInv, HasSelectors, Unused, Registered, Takable;
    var o := ProcessPeerIkeRekey(cx, c, st, f.messageId, f.inner, fr);
    var base := if st.rekey.Some? then Abandon(st) else st;
    if o == Refusal(st, f.messageId, 0, [], NOTIFY_TEMPORARY_FAILURE) {
      RespondMoves(st, f, CreateChildSa, [NotifyPayload(0, [], NOTIFY_TEMPORARY_FAILURE)], o);
      AnsweredRests(cx, cy, c, st, y, net, sx, sy, f, o);
    } else if Takable(cx, f) {
      Awaited(cx, cy, c, EndOf(st), y.end, net, f);
      AcceptIkeMoves(cx, cy, c, st, base, y.end.line.ike.value, f, fr);
      AcceptIkeSameChild(cx, c, base, f, fr);
      AcceptedRegistered(cx, cy, c, EndOf(st), f, fr, o.tx, EndOf(o.st), y.end.line.ike.value);
      OneFrame(cx, c, EndOf(st), f, fr, o.tx, EndOf(o.st));
      AcceptIkeRests(cx, cy, c, KidOf(st), y, net, sx, sy, f, fr, o.tx[0], KidOf(o.st));
      GrowOne(net, o.tx[0]);
    } else {
      Untakable(cx, c, base, f, fr);
      if st.rekey.Some? { YieldServes(cx, cy, c, st, y, net, sx, sy, f); }
      RefusedIkeServes(cx, cy, c, base, y, net, sx, sy, f, o);
    }
  }

  lemma YieldServes(cx: Config, cy: Config, c: Crypto, st: State, y: Kid, net: set<Frame>, sx: set<u32>, sy: set<u32>,
                    f: Frame)
    requires Serving(cx, cy, c, st, y, net, sx, sy) && f in net && Ideal(c) && Compatible(cx, cy) && st.rekey.Some?
    requires Yields(cx, EndOf(st), f, EndOf(Abandon(st)))
    ensures Serving(cx, cy, c, Abandon(st), y, net, sx, sy)
  {
    hide Agreement, Kinship, Understands, Balanced, Takable, DecideCollision, FirstNonce, HistoryInv;
    AbandonKeeps(st);
    YieldKeeps(cx, cy, c, EndOf(st), y.end, net, f, EndOf(Abandon(st)));
    YieldRests(cx, cy, c, KidOf(st), y, net, sx, sy, f, KidOf(Abandon(st)));
  }

  lemma RefusedIkeServes(cx: Config, cy: Config, c: Crypto, st: State, y: Kid, net: set<Frame>, sx: set<u32>,
                         sy: set<u32>, f: Frame, o: Outcome)
    requires Serving(cx, cy, c, st, y, net, sx, sy) && f in net && IkeRequest(f) && Opens(st.env, f)
    requires Unseen(st, f.messageId)
    requires o == Drop(st) || o == Refusal(st, f.messageId, 0, [], NOTIFY_NO_PROPOSAL_CHOSEN)
    ensures StillServing(cx, cy, c, o, y, net, sx, sy)
  {
    hide Family, Kinship, IkeTalk.Answers, Idles, HistoryInv;
    if o == Drop(st) {
      KeepIdles(st);
      Resting(cx, cy, c, st, y, net, sx, sy, o);
    } else {
      RespondMoves(st, f, CreateChildSa, [NotifyPayload(0, [], NOTIFY_NO_PROPOSAL_CHOSEN)], o);
      AnsweredRests(cx, cy, c, st, y, net, sx, sy, f, o);
    }
  }

  lemma OneFrame(cfg: Config, c: Crypto, e: End, f: Frame, fr: Fresh, tx: seq<Frame>, n: End)
    requires Accepts(cfg, c, e, f, fr, tx, n)
    ensures |tx| == 1 && tx == [tx[0]]
  {
  }

  // ---- Any packet, any turn ----

  lemma RequestServes(cx: Config, cy: Config, c: Crypto, st: State, y: Kid, net: set<Frame>, sx: set<u32>,
                      sy: set<u32>, f: Frame, complete: bool, fr: Fresh)
    requires Serving(cx, cy, c, st, y, net, sx, sy) && Authentic(st, f, net) && !f.response
    requires Ideal(c) && Compatible(cx, cy) && CompatibleChild(cx, cy)
    requires fr.acked && |fr.nonce| == 32 && fr.childSpi !in sx + sy
    requires var o := ProcessRequest(cx, c, st, f, complete, fr);
             |st.oldIke| < |o.st.oldIke| && !o.st.env.originalInitiator ==> Unused(o.st.env, EndOf(st), net)
    ensures StillServing(cx, cy, c, ProcessRequest(cx, c, st, f, complete, fr), y, net, sx + {fr.childSpi}, sy)
  {
    hide ProcessInformational, ProcessPeerChildRekey, ProcessPeerIkeRekey, HasSelectors, Family, Kinship, Compatible,
         CompatibleChild, Idles, Unused, Inv, EndOf;
    var o := ProcessRequest(cx, c, st, f, complete, fr);
    if !Opens(st.env, f) || !complete || !Unseen(st, f.messageId) || f.exchange == OtherExchange ||
      Cached(st.history, f.messageId).Some? {
      ReplayIdles(st, f.messageId);
      Resting(cx, cy, c, st, y, net, sx, sy, o);
      Wider(cx, cy, c, KidOf(o.st), y, Grow(net, o.tx), sx, sy, fr.childSpi);
    } else if f.exchange == Informational {
      InformationalServes(cx, cy, c, st, y, net, sx, sy, f);
      Wider(cx, cy, c, KidOf(o.st), y, Grow(net, o.tx), sx, sy, fr.childSpi);
    } else if HasSelectors(f.inner) {
      PeerChildServes(cx, cy, c, st, y, net, sx, sy, f, fr);
    } else {
      PeerIkeServes(cx, cy, c, st, y, net, sx, sy, f, fr);
      Wider(cx, cy, c, KidOf(o.st), y, Grow(net, o.tx), sx, sy, fr.childSpi);
    }
  }

  /** Two ends whose offers suit each other, for the IKE SA and for its children. */
  predicate Matched(cx: Config, cy: Config) {
    Compatible(cx, cy) && CompatibleChild(cx, cy)
  }

  /** The SPI drawn for a turn, if one is drawn. */
  function DrawnSpi(ev: Event): set<u32> {
    if ev.ChildSoft? || ev.NearWrap? || ev.Retry? || ev.Receive? then {ev.fr.childSpi} else {}
  }

  /** The data plane acknowledges in time and a drawn SPI is new. */
  ghost predicate FreshTurn(ev: Event, sx: set<u32>, sy: set<u32>) {
    DrawnSpi(ev) !! sx + sy && (ev.Receive? ==> ev.fr.acked)
  }

  lemma PacketServes(cx: Config, cy: Config, c: Crypto, st: State, y: Kid, net: set<Frame>, sx: set<u32>, sy: set<u32>,
                     ev: Event)
    requires Serving(cx, cy, c, st, y, net, sx, sy) && Fair(st, ev, Step(cx, c, st, ev), net) && ev.Receive?
    requires FreshTurn(ev, sx, sy)
    requires Ideal(c) && Compatible(cx, cy) && CompatibleChild(cx, cy)
    ensures StillServing(cx, cy, c, Step(cx, c, st, ev), y, net, sx + {ev.fr.childSpi}, sy)
  {
    hide Family, Kinship, ProcessRequest, ProcessResponse, ProcessOldIke, Compatible, CompatibleChild, Unused, Inv,
         EndOf, Idles;
    var o := Step(cx, c, st, ev);
    assert ev.fr.childSpi in DrawnSpi(ev) && ev.fr.childSpi !in sx + sy;
    if ev.pkt.Protected? &&
      (st.oldIke != [] && ev.pkt.frame.spiI == st.oldIke[0].env.spiI && ev.pkt.frame.spiR == st.oldIke[0].env.spiR) {
      OldPacketServes(cx, cy, c, st, y, net, sx, sy, ev.pkt.frame, ev.pkt.complete);
      Wider(cx, cy, c, KidOf(o.st), y, Grow(net, o.tx), sx, sy, ev.fr.childSpi);
    } else if ev.pkt.Protected? && ev.pkt.frame.response {
      ResponseServes(cx, cy, c, st, y, net, sx, sy, ev.pkt.frame, ev.pkt.complete, ev.fr);
      Wider(cx, cy, c, KidOf(o.st), y, Grow(net, o.tx), sx, sy, ev.fr.childSpi);
    } else if ev.pkt.Protected? {
      RequestServes(cx, cy, c, st, y, net, sx, sy, ev.pkt.frame, ev.pkt.complete, ev.fr);
    } else {
      KeepIdles(st);
      Resting(cx, cy, c, st, y, net, sx, sy, o);
      Wider(cx, cy, c, KidOf(o.st), y, Grow(net, o.tx), sx, sy, ev.fr.childSpi);
    }
  }

  lemma TimerServes(cx: Config, cy: Config, c: Crypto, st: State, y: Kid, net: set<Frame>, sx: set<u32>, sy: set<u32>,
                    ev: Event)
    requires Serving(cx, cy, c, st, y, net, sx, sy) && Fair(st, ev, Step(cx, c, st, ev), net) && !ev.Receive?
    requires FreshTurn(ev, sx, sy) && Ideal(c)
    ensures StillServing(cx, cy, c, Step(cx, c, st, ev), y, net, sx + DrawnSpi(ev), sy)
  {
    hide Family, Kinship, StartIkeRekey, StartChildRekey, Unused, Inv, EndOf, Idles, OnRto, OnOldRto;
    var o := Step(cx, c, st, ev);
    assert sx + {} == sx;
    match ev
    case RtoFires(exhausted) => TimersServe(cx, cy, c, st, y, net, sx, sy, false);
    case OldRtoFires(exhausted) => TimersServe(cx, cy, c, st, y, net, sx, sy, exhausted);
    case Tick =>
      if st.hasExpected {
        KeepIdles(st);
        Resting(cx, cy, c, st, y, net, sx, sy, o);
      } else {
        TickServes(cx, cy, c, st, y, net, sx, sy);
      }
    case IkeSoft(fr) => StartIkeServes(cx, cy, c, st, y, net, sx, sy, fr);
    case ChildSoft(fr) => assert fr.childSpi in DrawnSpi(ev); StartChildServes(cx, cy, c, st, y, net, sx, sy, fr);
    case NearWrap(fr) => assert fr.childSpi in DrawnSpi(ev); StartChildServes(cx, cy, c, st, y, net, sx, sy, fr);
    case Retry(kind, fr) =>
      assert fr.childSpi in DrawnSpi(ev);
      if kind == RekeyIke {
        StartIkeServes(cx, cy, c, st, y, net, sx, sy, fr);
        Wider(cx, cy, c, KidOf(o.st), y, Grow(net, o.tx), sx, sy, fr.childSpi);
      } else {
        StartChildServes(cx, cy, c, st, y, net, sx, sy, fr);
      }
  }

  // ---- Whole runs ----

  /** Two ends, the network, and the SPIs each end has drawn so far. */
  datatype House = House(w: World, sx: set<u32>, sy: set<u32>)

  ghost predicate Home(cx: Config, cy: Config, c: Crypto, h: House) {
    && Agree(cx, cy, c, h.w.x, h.w.y, h.w.net) && h.w.x.activeChild.Some? && h.w.y.activeChild.Some?
    && Kinship(cx, cy, c, KidOf(h.w.x), KidOf(h.w.y), h.w.net, h.sx, h.sy)
  }

  function Live(cx: Config, cy: Config, c: Crypto, h: House, t: Turn): House {
    House(Take(cx, cy, c, h.w, t), if t.atX then h.sx + DrawnSpi(t.ev) else h.sx,
          if t.atX then h.sy else h.sy + DrawnSpi(t.ev))
  }

  function LiveAll(cx: Config, cy: Config, c: Crypto, h: House, turns: seq<Turn>): House
    decreases |turns|
  {
    if turns == [] then h else LiveAll(cx, cy, c, Live(cx, cy, c, h, turns[0]), turns[1..])
  }

  ghost predicate FairTurn(cx: Config, cy: Config, c: Crypto, h: House, t: Turn) {
    && Fair(if t.atX then h.w.x else h.w.y, t.ev, Taken(cx, cy, c, h.w, t), h.w.net)
    && FreshTurn(t.ev, h.sx, h.sy)
  }

  ghost predicate FairLife(cx: Config, cy: Config, c: Crypto, h: House, turns: seq<Turn>)
    decreases |turns|
  {
    turns == [] || (FairTurn(cx, cy, c, h, turns[0]) && FairLife(cx, cy, c, Live(cx, cy, c, h, turns[0]), turns[1..]))
  }

  function Swapped(h: House): House {
    House(World(h.w.y, h.w.x, h.w.net), h.sy, h.sx)
  }

  lemma HomeSymmetric(cx: Config, cy: Config, c: Crypto, h: House)
    requires Home(cx, cy, c, h)
    ensures Home(cy, cx, c, Swapped(h))
  {
    hide Agree, Sound, KidOf, ChildAhead;
    AgreeSymmetric(cx, cy, c, h.w.x, h.w.y, h.w.net);
  }

  lemma MatchedSymmetric(cx: Config, cy: Config)
    requires Matched(cx, cy)
    ensures Matched(cy, cx)
  {
    hide Compatible, UnderstandsChild, TakesChild, CanOfferChild;
    CompatibleSymmetric(cx, cy);
  }

  lemma XLives(cx: Config, cy: Config, c: Crypto, h: House, t: Turn)
    requires Home(cx, cy, c, h) && Matched(cx, cy) && Ideal(c) && FairTurn(cx, cy, c, h, t) && t.atX
    ensures Home(cx, cy, c, Live(cx, cy, c, h, t))
  {
    hide Agreement, Kinship, Step, Inv, Fair, Compatible, CompatibleChild, KidOf, EndOf, FreshTurn;
    TurnKeeps(cx, cy, c, h.w.x, h.w.y, h.w.net, t.ev);
    KidEnds(h.w.x);
    KidEnds(h.w.y);
    if t.ev.Receive? { PacketServes(cx, cy, c, h.w.x, KidOf(h.w.y), h.w.net, h.sx, h.sy, t.ev); }
    else { TimerServes(cx, cy, c, h.w.x, KidOf(h.w.y), h.w.net, h.sx, h.sy, t.ev); }
  }

  lemma KidEnds(st: State)
    requires st.activeChild.Some?
    ensures KidOf(st).end == EndOf(st)
  {
  }

  lemma Lives(cx: Config, cy: Config, c: Crypto, h: House, t: Turn)
    requires Home(cx, cy, c, h) && Matched(cx, cy) && Ideal(c) && FairTurn(cx, cy, c, h, t)
    ensures Home(cx, cy, c, Live(cx, cy, c, h, t))
  {
    hide Home, Matched, Step, Fair;
    if t.atX {
      XLives(cx, cy, c, h, t);
    } else {
      HomeSymmetric(cx, cy, c, h);
      MatchedSymmetric(cx, cy);
      var s := Turn(true, t.ev);
      assert h.sx + h.sy == h.sy + h.sx;
      XLives(cy, cx, c, Swapped(h), s);
      assert Swapped(Live(cy, cx, c, Swapped(h), s)) == Live(cx, cy, c, h, t);
      HomeSymmetric(cy, cx, c, Live(cy, cx, c, Swapped(h), s));
    }
  }

  lemma {:induction false} LivesOn(cx: Config, cy: Config, c: Crypto, h: House, turns: seq<Turn>)
    requires Home(cx, cy, c, h) && Matched(cx, cy) && Ideal(c) && FairLife(cx, cy, c, h, turns)
    ensures Home(cx, cy, c, LiveAll(cx, cy, c, h, turns))
    decreases |turns|
  {
    hide Home, Matched, FairTurn, Live;
    if turns != [] {
      Lives(cx, cy, c, h, turns[0]);
      LivesOn(cx, cy, c, Live(cx, cy, c, h, turns[0]), turns[1..]);
    }
  }

  /** The two ends as they leave the handshake, serving the two halves of one child. */
  ghost predicate Founded(x: State, y: State) {
    && Established(x, y) && x.activeChild.Some? && y.activeChild.Some?
    && Paired(x.activeChild.value, y.activeChild.value)
    && x.activeChild.value.inboundSpi != y.activeChild.value.inboundSpi && Registered(x.env.selected.prf)
  }

  function Start(x: State, y: State): House
    requires x.activeChild.Some? && y.activeChild.Some?
  {
    House(World(x, y, {}), {x.activeChild.value.inboundSpi}, {y.activeChild.value.inboundSpi})
  }

  lemma FoundedHome(cx: Config, cy: Config, c: Crypto, x: State, y: State)
    requires Founded(x, y)
    ensures Home(cx, cy, c, Start(x, y))
  {
    hide ChildResult, RekeyTarget, ParsePeerChild, DeletedSpi, HasSelectors, ChildRekeyRequest, Registered, Agreement;
    EstablishedAgree(cx, cy, c, x, y);
  }

  /** `x` has accepted the child rekey `y` is still waiting to hear about. */
  ghost predicate OneAhead(x: State, y: State)
    requires x.activeChild.Some? && y.activeChild.Some?
  {
    && y.phase == RekeyChildRequesting && y.rekey.Some? && y.rekey.value.oldChild == y.activeChild
    && x.activeChild.value.outboundSpi == y.rekey.value.newInboundSpi
    && x.activeChild.value.tsi == y.activeChild.value.tsr && x.activeChild.value.tsr == y.activeChild.value.tsi
  }

  /** Neither end has lost its child, and the two mirror each other (SPIs, selectors and roles),
      or exactly one rekey is accepted and not yet heard about. */
  ghost predicate Served(v: World) {
    && v.x.activeChild.Some? && v.y.activeChild.Some?
    && (Paired(v.x.activeChild.value, v.y.activeChild.value) || OneAhead(v.x, v.y) || OneAhead(v.y, v.x))
  }

  lemma HomeServes(cx: Config, cy: Config, c: Crypto, h: House)
    requires Home(cx, cy, c, h)
    ensures Served(h.w)
  {
    hide Agreement, ChildRekeyRequest, HasSelectors, Spared, Undecided, Decided, HistoryInv, WaitInv;
  }

  /** After any run, with child and IKE rekeys started by either end or by both at once, the ends
      agree on the IKE SA and serve the two halves of one child. */
  lemma ChildrenAgree(cx: Config, cy: Config, c: Crypto, x: State, y: State, turns: seq<Turn>)
    requires Founded(x, y) && Matched(cx, cy) && Ideal(c) && FairLife(cx, cy, c, Start(x, y), turns)
    ensures var v := LiveAll(cx, cy, c, Start(x, y), turns).w; Agreed(v) && Served(v)
  {
    hide LiveAll, FairLife, Kinship, Agree, Established, Start, Served, Agreed, Matched;
    FoundedHome(cx, cy, c, x, y);
    LivesOn(cx, cy, c, Start(x, y), turns);
    var h := LiveAll(cx, cy, c, Start(x, y), turns);
    HomeServes(cx, cy, c, h);
    AgreeMeans(cx, cy, c, h.w);
  }
}
