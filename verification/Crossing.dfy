/** Two child rekeys that cross: the end with the larger nonce prevails at both ends. */
module Crossing {
  import opened Bytes
  import opened Keying
  import opened Negotiation
  import opened ChildNegotiation
  import opened Offers
  import opened IkeState
  import opened RekeyExchange
  import opened RunningSpec
  import opened RunningInvariant
  import opened IkeTalk
  import opened TwoEnds
  import opened ChildTalk
  import opened TwoChildren

  // ---- What a turn without a new rekey can do to the rekey and the child of an end ----

  ghost predicate Unmoved(st: State, o: Outcome) {
    o.st.rekey == st.rekey && o.st.activeChild == st.activeChild && o.st.env == st.env
  }

  /** Nothing moved, and nothing new was answered. */
  ghost predicate Rested(st: State, net: set<Frame>, o: Outcome) {
    Unmoved(st, o) && forall t :: t in o.tx ==>
      t in net || (t.sealedWith != InboundHalves(st.env) && (t.sealedWith == OutboundHalves(st.env) ==> !t.response))
  }

  /** The awaited answer arrived; only the answer to a child rekey can bring a new child. */
  ghost predicate Concluded(cfg: Config, c: Crypto, st: State, net: set<Frame>, f: Frame, o: Outcome)
    requires st.activeChild.Some?
  {
    && f in net && Matches(LineOf(st), f) && o.st.rekey.None? && o.st.env == st.env
    && (forall t :: t in o.tx ==> !t.response)
    && var child := if KidOf(st).rc.None? then None else ChildResult(cfg, c, st.env, KidOf(st).rc.value, f.inner);
       o.st.activeChild == if child.None? then st.activeChild else child
  }

  /** A request was answered without accepting a rekey. */
  ghost predicate Refused(st: State, net: set<Frame>, f: Frame, o: Outcome)
    requires st.activeChild.Some?
  {
    && f in net && !f.response && Opens(st.env, f) && New(LineOf(st), f.messageId) && !Acceptable(KidOf(st), f)
    && Unmoved(st, o)
    && forall t :: t in o.tx ==> t.messageId == f.messageId && t.sealedWith == OutboundHalves(st.env)
  }

  /** A child rekey was accepted. */
  ghost predicate Granted(st: State, y: Kid, net: set<Frame>, f: Frame, o: Outcome)
    requires st.activeChild.Some?
  {
    f in net && Acceptable(KidOf(st), f) && o.st.rekey.None? && o.st.activeChild.Some? && o.st.env == st.env &&
      ChildAhead(KidOf(o.st), y)
  }

  ghost predicate Options(cfg: Config, c: Crypto, st: State, y: Kid, net: set<Frame>, ev: Event, o: Outcome)
    requires st.activeChild.Some?
  {
    || Rested(st, net, o)
    || (ev.Receive? && ev.pkt.Protected?
        && (Concluded(cfg, c, st, net, ev.pkt.frame, o) || Refused(st, net, ev.pkt.frame, o) ||
            Granted(st, y, net, ev.pkt.frame, o)))
  }

  lemma IdleRests(st: State, e: End, net: set<Frame>, o: Outcome)
    requires Kept(e, net) && Repeats(e, o.tx) && Unmoved(st, o)
    ensures Rested(st, net, o)
  {
    NothingNew(e, net, o.tx);
    forall t | t in o.tx ensures t in net { assert t in Grow(net, o.tx); }
  }

  lemma KeptHere(cx: Config, cy: Config, c: Crypto, st: State, y: Kid, net: set<Frame>, sx: set<u32>, sy: set<u32>)
    requires Serving(cx, cy, c, st, y, net, sx, sy)
    ensures Kept(EndOf(st), net) && (st.oldIke != [] ==> Apart(st.env, st.oldIke[0].env))
    ensures OutboundHalves(st.env) != InboundHalves(st.env)
  {
    hide Kinship, Inv, Numbers, Asked, Heard, Polite, Settled, Unsettled, Asks;
  }

  lemma OldPacketOptions(cx: Config, cy: Config, c: Crypto, st: State, y: Kid, net: set<Frame>, sx: set<u32>,
                         sy: set<u32>, f: Frame, complete: bool)
    requires Serving(cx, cy, c, st, y, net, sx, sy) && st.oldIke != []
    ensures Rested(st, net, ProcessOldIke(st, f, complete))
  {
    hide Family, Inv, Repeats;
    var o := ProcessOldIke(st, f, complete);
    KeptHere(cx, cy, c, st, y, net, sx, sy);
    OldPacketMoves(st, f, complete);
    if Idles(EndOf(st), o.tx, EndOf(o.st)) { IdleRests(st, EndOf(st), net, o); }
  }

  lemma ResponseOptions(cx: Config, cy: Config, c: Crypto, st: State, y: Kid, net: set<Frame>, sx: set<u32>,
                        sy: set<u32>, f: Frame, complete: bool, fr: Fresh)
    requires Serving(cx, cy, c, st, y, net, sx, sy) && Authentic(st, f, net) && f.response && fr.acked
    requires LineOf(st).ike.None?
    ensures var o := ProcessResponse(cx, c, st, f, complete, fr); Rested(st, net, o) || Concluded(cx, c, st, net, f, o)
  {
    hide Family, FinishChildRekey, FinishIkeRekey, HistoryInv, ChildResult;
    if st.phase == RekeyChildRequesting {
      FinishChildOutcome(cx, c, st, f, fr);
      FinishChildMoves(cx, c, st, f, fr);
    }
  }

  lemma RequestOptions(cx: Config, cy: Config, c: Crypto, st: State, y: Kid, net: set<Frame>, sx: set<u32>,
                       sy: set<u32>, f: Frame, complete: bool, fr: Fresh)
    requires Serving(cx, cy, c, st, y, net, sx, sy) && Authentic(st, f, net) && !f.response && LineOf(st).ike.None?
    requires y.end.line.ike.None?
    requires Ideal(c) && UnderstandsChild(cy, cx) && TakesChild(cx, cy) && fr.acked && |fr.nonce| == 32
    requires fr.childSpi !in sx + sy
    ensures var o := ProcessRequest(cx, c, st, f, complete, fr);
            Rested(st, net, o) || Refused(st, net, f, o) || Granted(st, y, net, f, o)
  {
    hide ProcessInformational, ProcessPeerChildRekey, ProcessPeerIkeRekey, HasSelectors, Family, UnderstandsChild,
         TakesChild, Idles, Inv, EndOf, Acceptable, ParsePeerChild, PeerOutboundSpi, Rested;
    var o := ProcessRequest(cx, c, st, f, complete, fr);
    KeptHere(cx, cy, c, st, y, net, sx, sy);
    if !Opens(st.env, f) || !complete || !Unseen(st, f.messageId) || f.exchange == OtherExchange ||
      Cached(st.history, f.messageId).Some? {
      ReplayIdles(st, f.messageId);
      IdlesRepeat(EndOf(st), o.tx, EndOf(o.st));
      IdleRests(st, EndOf(st), net, o);
    } else if f.exchange == Informational {
      InformationalOptions(cx, cy, c, st, y, net, sx, sy, f);
    } else if HasSelectors(f.inner) {
      PeerChildOptions(cx, cy, c, st, y, net, sx, sy, f, fr);
    } else {
      PeerIkeOptions(cx, cy, c, st, y, net, sx, sy, f, fr);
    }
  }

  lemma IdlesRepeat(e: End, tx: seq<Frame>, n: End)
    requires Idles(e, tx, n)
    ensures Repeats(e, tx) && n.line == e.line
  {
  }

  lemma AnswersId(e: End, f: Frame, tx: seq<Frame>, n: End)
    requires IkeTalk.Answers(e, f, tx, n)
    ensures n.line.env == e.line.env
    ensures forall t :: t in tx ==> t.messageId == f.messageId && t.sealedWith == OutboundHalves(e.line.env)
  {
  }

  lemma InformationalOptions(cx: Config, cy: Config, c: Crypto, st: State, y: Kid, net: set<Frame>, sx: set<u32>,
                             sy: set<u32>, f: Frame)
    requires Serving(cx, cy, c, st, y, net, sx, sy) && f in net && !f.response && Opens(st.env, f)
    requires Unseen(st, f.messageId) && f.exchange == Informational
    ensures var o := ProcessInformational(st, f.messageId, f.inner); Rested(st, net, o) || Refused(st, net, f, o)
  {
    hide Agreement, Kinship, ProcessInformational, Inv, Idles, IkeTalk.Answers, Rested;
    var o := ProcessInformational(st, f.messageId, f.inner);
    PoliteHere(cx, cy, c, EndOf(st), y.end, net, f);
    SparedHere(cx, cy, c, KidOf(st), y, net, sx, sy, f);
    KeptHere(cx, cy, c, st, y, net, sx, sy);
    InformationalMoves(st, f);
    InformationalSpares(st, f);
    if Idles(EndOf(st), o.tx,
             EndOf(o.st)) { IdlesRepeat(EndOf(st), o.tx, EndOf(o.st)); IdleRests(st, EndOf(st), net, o); }
    else { AnswersId(EndOf(st), f, o.tx, EndOf(o.st)); }
  }

  /** While no IKE rekey is outstanding, an end that takes the other's offers can choose from
      any of its requests. */
  lemma AcceptableTaken(cx: Config, cy: Config, c: Crypto, x: Kid, y: Kid, net: set<Frame>, sx: set<u32>, sy: set<u32>,
                        f: Frame)
    requires Family(cx, cy, c, x, y, net, sx, sy) && f in net && Ideal(c) && Acceptable(x, f) && TakesChild(cx, cy)
    requires x.end.line.ike.None? && y.end.line.ike.None?
    ensures TakableChild(cx, f)
  {
    hide ChildResult, TakableChild, TakesChild, DecideCollision, Smaller, RekeyTarget, ParsePeerChild, DeletedSpi,
         HasSelectors, ChildRekeyRequest, Registered, RekeyResult, Asks, Asked, Heard, Polite, Settled, Unsettled,
         Offering, Spared, Undecided, Decided;
    FlipTwice(x.end.line.env, y.end.line.env);
    ChildOfferTakable(cx, cy, c, f);
  }

  lemma PeerChildOptions(cx: Config, cy: Config, c: Crypto, st: State, y: Kid, net: set<Frame>, sx: set<u32>,
                         sy: set<u32>, f: Frame, fr: Fresh)
    requires Serving(cx, cy, c, st, y, net, sx, sy) && f in net && ChildRequest(f) && Opens(st.env, f)
    requires Unseen(st, f.messageId)
    requires Ideal(c) && UnderstandsChild(cy, cx) && TakesChild(cx, cy) && fr.acked && |fr.nonce| == 32
    requires fr.childSpi !in sx + sy
    requires LineOf(st).ike.None? && y.end.line.ike.None?
    ensures var o := ProcessPeerChildRekey(cx, c, st, f.messageId, f.inner, fr);
            Rested(st, net, o) || Refused(st, net, f, o) || Granted(st, y, net, f, o)
  {
    hide Agreement, Kinship, ProcessPeerChildRekey, IkeTalk.Answers, UnderstandsChild, TakesChild, HasSelectors,
         AsksChild, Acceptable, SelectPeerEsp, RequestParts, ParsePeerChild, PeerOutboundSpi, HistoryInv, OldInv,
         WaitInv, Yielding, Yielded;
    var o := ProcessPeerChildRekey(cx, c, st, f.messageId, f.inner, fr);
    if Acceptable(KidOf(st), f) {
      AcceptableTaken(cx, cy, c, KidOf(st), y, net, sx, sy, f);
      AcceptFinds(cx, cy, c, KidOf(st), y, net, sx, sy, f);
      ParsedThen(KidOf(st), f);
      var req := ParsePeerChild(f.inner).value;
      PeerKeysDerive(cx, cy, c, st.env, y.active, y.rc.value, f, fr, req);
      AcceptChildOutcome(cx, c, st, f, fr, req);
      GrantedRekey(cx, c, st, f, fr, req);
      AcceptChildKeeps(cx, cy, c, KidOf(st), y, net, sx, sy, f, fr, o.tx[0], KidOf(o.st));
    } else {
      PeerChildRefuses(cx, c, st, f, fr);
      if o != Drop(st) { AnswersId(EndOf(st), f, o.tx, EndOf(o.st)); }
    }
  }

  lemma GrantedRekey(cx: Config, c: Crypto, st: State, f: Frame, fr: Fresh, req: PeerChildRequest)
    requires Inv(st) && st.activeChild.Some? && Acceptable(KidOf(st), f) && ParsePeerChild(f.inner) == Some(req)
    requires fr.acked
    requires LineOf(st).ike.None?
    requires var choice := SelectPeerEsp(cx, req.sa, fr.childSpi, req.ke.Some?);
             choice.Some? && PeerChildKeys(c, st.env, req, fr, choice.value.selection).Some?
    ensures var o := ProcessPeerChildRekey(cx, c, st, f.messageId, f.inner, fr); o.st.rekey.None? && o.st.env == st.env
  {
    hide SelectPeerEsp, PeerChildKeys, PeerOutboundSpi, ParsePeerChild, RekeyTarget, HasSelectors, DecideCollision,
         Smaller, AcceptPeerChild, HistoryInv;
    PeerChildAccepts(cx, c, st, f, fr);
    AcceptedChild(cx, c, st, f, fr, req);
  }

  /** While no IKE rekey is outstanding, an IKE rekey request is one that cannot be served. */
  lemma PeerIkeOptions(cx: Config, cy: Config, c: Crypto, st: State, y: Kid, net: set<Frame>, sx: set<u32>,
                       sy: set<u32>, f: Frame, fr: Fresh)
    requires Serving(cx, cy, c, st, y, net, sx, sy) && f in net && IkeRequest(f) && Opens(st.env, f)
    requires Unseen(st, f.messageId)
    requires LineOf(st).ike.None? && y.end.line.ike.None?
    ensures var o := ProcessPeerIkeRekey(cx, c, st, f.messageId, f.inner, fr);
            Rested(st, net, o) || Refused(st, net, f, o)
  {
    hide Agreement, Kinship, DecideCollision, Smaller, FirstNonce, AcceptPeerIke, HistoryInv, Takable, RekeyTarget,
         ParsePeerChild, Asks;
    if st.rekey.None? && st.oldIke == [] {
      if Takable(cx, f) { Awaited(cx, cy, c, EndOf(st), y.end, net, f); }
      Untakable(cx, c, st, f, fr);
    }
  }

  lemma TurnOptions(cx: Config, cy: Config, c: Crypto, st: State, y: Kid, net: set<Frame>, sx: set<u32>, sy: set<u32>,
                    ev: Event)
    requires Serving(cx, cy, c, st, y, net, sx, sy) && Fair(st, ev, Step(cx, c, st, ev), net) && Quiet(ev)
    requires FreshTurn(ev, sx, sy)
    requires LineOf(st).ike.None? && y.end.line.ike.None? && Ideal(c) && UnderstandsChild(cy, cx) && TakesChild(cx, cy)
    ensures Options(cx, c, st, y, net, ev, Step(cx, c, st, ev))
  {
    hide Family, ProcessRequest, ProcessResponse, ProcessOldIke, UnderstandsChild, TakesChild, Unused, Repeats,
         HistoryInv, Rested, Concluded, Refused, Granted, OnRto, OnOldRto;
    var o := Step(cx, c, st, ev);
    KeptHere(cx, cy, c, st, y, net, sx, sy);
    assert ev.Receive? ==> ev.fr.childSpi in DrawnSpi(ev);
    if ev.Receive? && ev.pkt.Protected? {
      var f := ev.pkt.frame;
      if st.oldIke != [] && f.spiI == st.oldIke[0].env.spiI && f.spiR == st.oldIke[0].env.spiR {
        OldPacketOptions(cx, cy, c, st, y, net, sx, sy, f, ev.pkt.complete);
      } else if f.response {
        ResponseOptions(cx, cy, c, st, y, net, sx, sy, f, ev.pkt.complete, ev.fr);
      } else {
        RequestOptions(cx, cy, c, st, y, net, sx, sy, f, ev.pkt.complete, ev.fr);
      }
    } else {
      TimerOptions(cx, c, st, net, ev);
    }
  }

  lemma TimerOptions(cfg: Config, c: Crypto, st: State, net: set<Frame>, ev: Event)
    requires Inv(st) && Kept(EndOf(st), net) && OutboundHalves(st.env) != InboundHalves(st.env) && Quiet(ev)
    requires (ev.RtoFires? ==> !ev.exhausted) && (ev.Receive? ==> !ev.pkt.Protected?)
    ensures Rested(st, net, Step(cfg, c, st, ev))
  {
    hide Repeats, HistoryInv, ProcessRequest, ProcessResponse, ProcessOldIke, StartIkeRekey, StartChildRekey;
    var o := Step(cfg, c, st, ev);
    if ev.RtoFires? || ev.OldRtoFires? {
      TimersIdle(st, ev.exhausted);
      IdleRests(st, EndOf(st), net, o);
    }
  }

  // ---- The race ----

  /** Both ends rekey the same child, and `x` drew the larger nonce. */
  datatype Race = Race(rcx: RekeyContext, rcy: RekeyContext, childX: ChildSA, childY: ChildSA)

  /** Neither end has moved. `y` may already have heard that its request was refused. */
  ghost predicate Open(h: House, r: Race) {
    && h.w.x.rekey == Some(r.rcx) && h.w.x.activeChild == Some(r.childX) && h.w.y.activeChild == Some(r.childY)
    && (h.w.y.rekey == Some(r.rcy) || h.w.y.rekey.None?)
    && forall f :: f in h.w.net ==> !Matches(LineOf(h.w.x), f)
  }

  /** `y` gave up its request and accepted `x`'s. */
  ghost predicate Conceded(h: House, r: Race) {
    && h.w.x.rekey == Some(r.rcx) && h.w.x.activeChild == Some(r.childX) && h.w.y.rekey.None? && h.w.y.activeChild.Some?
    && h.w.y.activeChild.value.outboundSpi == r.rcx.newInboundSpi && !h.w.y.activeChild.value.localInitiator
  }

  /** Both ends serve the child that `x` asked for. */
  ghost predicate Won(h: House, r: Race) {
    && h.w.x.rekey.None? && h.w.y.rekey.None? && h.w.x.activeChild.Some? && h.w.y.activeChild.Some?
    && Paired(h.w.x.activeChild.value, h.w.y.activeChild.value)
    && h.w.x.activeChild ==
      Some(ChildSA(r.rcx.newInboundSpi, h.w.y.activeChild.value.inboundSpi, r.childX.tsi, r.childX.tsr, true))
  }

  ghost predicate Racing(r: Race) {
    && r.rcx.kind == RekeyChild && r.rcy.kind == RekeyChild && Smaller(r.rcy.ni, r.rcx.ni)
    && Paired(r.childX, r.childY) && r.childX.tsi != [] && r.childX.tsr != []
  }

  /** Each end takes some of the other's child offers. */
  predicate Mutual(cx: Config, cy: Config) {
    TakesChild(cx, cy) && TakesChild(cy, cx)
  }

  ghost predicate Stage(h: House, r: Race) {
    Racing(r) && (Open(h, r) || Conceded(h, r) || Won(h, r))
  }

  /** `x`, whose nonce is larger, never accepts `y`'s request. */
  lemma WinnerRefuses(cx: Config, cy: Config, c: Crypto, h: House, r: Race, f: Frame)
    requires Home(cx, cy, c, h) && Ideal(c) && TakesChild(cx, cy) && Stage(h, r) && f in h.w.net
    ensures !Acceptable(KidOf(h.w.x), f)
  {
    hide Agreement, Kinship, Inv, DecideCollision, Smaller, ParsePeerChild, RekeyTarget, HasSelectors,
         ChildRekeyRequest, TakesChild, TakableChild;
    var x, y := KidOf(h.w.x), KidOf(h.w.y);
    if Acceptable(x, f) {
      AcceptableTaken(cx, cy, c, x, y, h.w.net, h.sx, h.sy, f);
      AcceptFinds(cx, cy, c, x, y, h.w.net, h.sx, h.sy, f);
      AsksChildRead(cy, c, y.active, y.rc.value, f);
      AwaitsHere(cx, cy, c, h);
      LosesIffSmaller(r.rcy.ni, r.rcx.ni);
      CollisionDecides(r.rcx.ni, r.rcy.ni);
    }
  }

  lemma AwaitsHere(cx: Config, cy: Config, c: Crypto, h: House)
    requires Home(cx, cy, c, h)
    ensures Awaits(cx, c, KidOf(h.w.x)) && Owns(KidOf(h.w.x), h.sx, h.sy)
    ensures Decided(cx, c, KidOf(h.w.x), KidOf(h.w.y), h.w.net)
    ensures Numbers(LineOf(h.w.x), h.w.net) && Heard(LineOf(h.w.x), h.w.net)
    ensures Proper(cx, c, LineOf(h.w.x))
    ensures h.w.x.rekey.Some? && h.w.x.rekey.value.kind == RekeyChild ==>
      InStep(EndOf(h.w.x), EndOf(h.w.y)) || Ahead(EndOf(h.w.y), EndOf(h.w.x), h.w.net)
  {
    hide AsksChild, Spared, Undecided, ChildResult, Asked, Polite, Settled, Unsettled, Inv, Kept, ChildAhead, Asks;
  }

  /** `y`, whose nonce is smaller, accepts `x`'s request as long as it has not moved. */
  lemma LoserAccepts(cx: Config, cy: Config, c: Crypto, h: House, r: Race, f: Frame)
    requires Home(cx, cy, c, h) && Ideal(c) && Racing(r) && Open(h, r) && f in h.w.net
    requires LineOf(h.w.x).awaited == Some(f)
    requires Opens(h.w.y.env, f) && New(LineOf(h.w.y), f.messageId)
    ensures Acceptable(KidOf(h.w.y), f)
  {
    hide Agreement, Kinship, Inv, DecideCollision, Smaller, ParsePeerChild, RekeyTarget, HasSelectors,
         ChildRekeyRequest;
    AwaitsHere(cx, cy, c, h);
    var x := KidOf(h.w.x);
    AsksChildRead(cx, c, x.active, x.rc.value, f);
    LosesIffSmaller(r.rcy.ni, r.rcx.ni);
  }

  /** In a conceded race `y` is ahead of `x`. */
  lemma ConcededAhead(cx: Config, cy: Config, c: Crypto, h: House, r: Race)
    requires Home(cx, cy, c, h) && Racing(r) && Conceded(h, r)
    ensures ChildAhead(KidOf(h.w.y), KidOf(h.w.x))
  {
    hide Agreement, Awaits, Spared, Undecided, Decided, Inv, New;
  }

  /** The counters of an end that awaits the answer to a rekey do not move. */
  lemma SameMatch(st: State, n: State, f: Frame)
    requires Inv(st) && Inv(n) && st.rekey.Some? && n.rekey == st.rekey && n.env == st.env
    ensures Matches(LineOf(n), f) <==> Matches(LineOf(st), f)
  {
    hide HistoryInv;
  }

  lemma XOpen(cx: Config, cy: Config, c: Crypto, h: House, r: Race, ev: Event, o: Outcome)
    requires Home(cx, cy, c, h) && Racing(r) && Open(h, r) && Inv(o.st)
    requires Options(cx, c, h.w.x, KidOf(h.w.y), h.w.net, ev, o)
    requires ev.Receive? && ev.pkt.Protected? && ev.pkt.frame in h.w.net ==> !Acceptable(KidOf(h.w.x), ev.pkt.frame)
    ensures Open(House(World(o.st, h.w.y, Grow(h.w.net, o.tx)), h.sx, h.sy), r)
  {
    hide Agreement, Kinship, DecideCollision, Smaller, ChildResult, Inv, Acceptable;
    AwaitsHere(cx, cy, c, h);
    forall f | f in Grow(h.w.net, o.tx) ensures !Matches(LineOf(o.st), f) { SameMatch(h.w.x, o.st, f); }
  }

  lemma XConceded(cx: Config, cy: Config, c: Crypto, h: House, r: Race, ev: Event, o: Outcome)
    requires Home(cx, cy, c, h) && Racing(r) && Conceded(h, r) && Options(cx, c, h.w.x, KidOf(h.w.y), h.w.net, ev, o)
    requires ev.Receive? && ev.pkt.Protected? && ev.pkt.frame in h.w.net ==> !Acceptable(KidOf(h.w.x), ev.pkt.frame)
    ensures Stage(House(World(o.st, h.w.y, Grow(h.w.net, o.tx)), h.sx, h.sy), r)
  {
    hide Agreement, Kinship, DecideCollision, Smaller, ChildResult, Inv, Acceptable;
    AwaitsHere(cx, cy, c, h);
    ConcededAhead(cx, cy, c, h, r);
  }

  lemma XWon(cx: Config, cy: Config, c: Crypto, h: House, r: Race, ev: Event, o: Outcome)
    requires Home(cx, cy, c, h) && Racing(r) && Won(h, r) && Options(cx, c, h.w.x, KidOf(h.w.y), h.w.net, ev, o)
    requires ev.Receive? && ev.pkt.Protected? && ev.pkt.frame in h.w.net ==> !Acceptable(KidOf(h.w.x), ev.pkt.frame)
    ensures Won(House(World(o.st, h.w.y, Grow(h.w.net, o.tx)), h.sx, h.sy), r)
  {
    hide Agreement, Kinship, DecideCollision, Smaller, ChildResult, Inv, Acceptable;
  }

  lemma XRaces(cx: Config, cy: Config, c: Crypto, h: House, r: Race, t: Turn)
    requires Home(cx, cy, c, h) && Matched(cx, cy) && Mutual(cx, cy) && Ideal(c) && FairTurn(cx, cy, c, h, t)
    requires t.atX && Quiet(t.ev) && Stage(h, r)
    ensures Stage(Live(cx, cy, c, h, t), r)
  {
    hide Agreement, Kinship, Step, Fair, Compatible, UnderstandsChild, TakesChild, CanOfferChild, Acceptable,
         DecideCollision, Smaller, FreshTurn, Options, Inv;
    var st, y, net := h.w.x, KidOf(h.w.y), h.w.net;
    var o := Step(cx, c, st, t.ev);
    TurnOptions(cx, cy, c, st, y, net, h.sx, h.sy, t.ev);
    StepKeeps(cx, c, st, t.ev);
    if t.ev.Receive? && t.ev.pkt.Protected? && t.ev.pkt.frame in net { WinnerRefuses(cx, cy, c, h, r, t.ev.pkt.frame); }
    if Open(h, r) { XOpen(cx, cy, c, h, r, t.ev, o); }
    else if Conceded(h, r) { XConceded(cx, cy, c, h, r, t.ev, o); }
    else { XWon(cx, cy, c, h, r, t.ev, o); }
  }

  // ---- The other end ----

  lemma YOpen(cx: Config, cy: Config, c: Crypto, h: House, r: Race, ev: Event, o: Outcome)
    requires Home(cx, cy, c, h) && Ideal(c) && Racing(r) && Open(h, r)
    requires Options(cy, c, h.w.y, KidOf(h.w.x), h.w.net, ev, o)
    ensures Stage(House(World(h.w.x, o.st, Grow(h.w.net, o.tx)), h.sx, h.sy), r)
  {
    hide Agreement, Kinship, DecideCollision, Smaller, ChildResult, Inv, Acceptable, New;
    AwaitsHere(cx, cy, c, h);
    HomeSymmetric(cx, cy, c, h);
    AwaitsHere(cy, cx, c, Swapped(h));
    FlipTwice(h.w.x.env, h.w.y.env);
    if ev.Receive? && ev.pkt.Protected? && Refused(h.w.y, h.w.net, ev.pkt.frame, o) &&
      LineOf(h.w.x).awaited == Some(ev.pkt.frame) {
      LoserAccepts(cx, cy, c, h, r, ev.pkt.frame);
    }
  }

  lemma YMoved(cx: Config, cy: Config, c: Crypto, h: House, r: Race, ev: Event, o: Outcome)
    requires Home(cx, cy, c, h) && Ideal(c) && TakesChild(cy, cx) && Racing(r) && (Conceded(h, r) || Won(h, r))
    requires Options(cy, c, h.w.y, KidOf(h.w.x), h.w.net, ev, o)
    ensures Stage(House(World(h.w.x, o.st, Grow(h.w.net, o.tx)), h.sx, h.sy), r)
  {
    hide Agreement, Kinship, DecideCollision, Smaller, ChildResult, Inv, Acceptable, RekeyTarget, AsksChild, TakesChild,
         TakableChild;
    AwaitsHere(cx, cy, c, h);
    HomeSymmetric(cx, cy, c, h);
    if ev.Receive? && ev.pkt.Protected? && Granted(h.w.y, KidOf(h.w.x), h.w.net, ev.pkt.frame, o) {
      AcceptableTaken(cy, cx, c, KidOf(h.w.y), KidOf(h.w.x), h.w.net, h.sy, h.sx, ev.pkt.frame);
      AcceptFinds(cy, cx, c, KidOf(h.w.y), KidOf(h.w.x), h.w.net, h.sy, h.sx, ev.pkt.frame);
    }
  }

  lemma YRaces(cx: Config, cy: Config, c: Crypto, h: House, r: Race, t: Turn)
    requires Home(cx, cy, c, h) && Matched(cx, cy) && Mutual(cx, cy) && Ideal(c) && FairTurn(cx, cy, c, h, t)
    requires !t.atX && Quiet(t.ev) && Stage(h, r)
    ensures Stage(Live(cx, cy, c, h, t), r)
  {
    hide Agreement, Kinship, Step, Fair, Compatible, UnderstandsChild, TakesChild, CanOfferChild, Acceptable,
         DecideCollision, Smaller, FreshTurn, Options, Inv;
    HomeSymmetric(cx, cy, c, h);
    FreshSymmetric(t.ev, h.sx, h.sy);
    TurnOptions(cy, cx, c, h.w.y, KidOf(h.w.x), h.w.net, h.sy, h.sx, t.ev);
    if Open(h, r) { YOpen(cx, cy, c, h, r, t.ev, Step(cy, c, h.w.y, t.ev)); }
    else { YMoved(cx, cy, c, h, r, t.ev, Step(cy, c, h.w.y, t.ev)); }
  }

  lemma FreshSymmetric(ev: Event, sx: set<u32>, sy: set<u32>)
    requires FreshTurn(ev, sx, sy)
    ensures FreshTurn(ev, sy, sx)
  {
    assert sx + sy == sy + sx;
  }

  // ---- How it begins ----

  lemma StartsChild(cfg: Config, c: Crypto, st: State, net: set<Frame>, fr: Fresh)
    requires Inv(st) && SafeToRekey(st) && st.activeChild.Some?
    requires ChildRekeyRequest(cfg, c, st.activeChild.value, fr).Some? && Asked(LineOf(st), net)
    requires st.nextId < U32_LIMIT - 1
    ensures var o := StartChildRekey(cfg, c, st, fr);
            && o.st.rekey.Some? && o.st.rekey.value.kind == RekeyChild && o.st.rekey.value.ni == fr.nonce
            && o.st.activeChild == st.activeChild
            && (forall t :: t in o.tx ==> !t.response) && (forall f :: f in net ==> !Matches(LineOf(o.st), f))
  {
    hide ChildRekeyRequest, HistoryInv;
  }

  /** Both soft timers fire before either request arrives: that is a race. */
  lemma RaceBegins(cx: Config, cy: Config, c: Crypto, h: House, frx: Fresh, fry: Fresh)
    requires Home(cx, cy, c, h) && SafeToRekey(h.w.x) && SafeToRekey(h.w.y) && h.w.x.nextId < U32_LIMIT - 1
    requires h.w.y.nextId < U32_LIMIT - 1
    requires ChildRekeyRequest(cx, c, h.w.x.activeChild.value, frx).Some?
    requires ChildRekeyRequest(cy, c, h.w.y.activeChild.value, fry).Some?
    ensures var v := Live(cx, cy, c, Live(cx, cy, c, h, Turn(true, ChildSoft(frx))), Turn(false, ChildSoft(fry)));
            && v.w.x.rekey.Some? && v.w.y.rekey.Some? && v.w.x.rekey.value.ni == frx.nonce
            && v.w.y.rekey.value.ni == fry.nonce
            && v.w.x.rekey.value.kind == v.w.y.rekey.value.kind == RekeyChild
            && Open(v, Race(v.w.x.rekey.value, v.w.y.rekey.value, h.w.x.activeChild.value, h.w.y.activeChild.value))
  {
    hide Agreement, Kinship, StartChildRekey, ChildRekeyRequest, Inv, SafeToRekey, ProcessPacket, StartIkeRekey;
    HomeSymmetric(cx, cy, c, h);
    AskedHere(cx, cy, c, h);
    AskedHere(cy, cx, c, Swapped(h));
    StartsChild(cx, c, h.w.x, h.w.net, frx);
    StartsChild(cy, c, h.w.y, h.w.net, fry);
  }

  lemma AskedHere(cx: Config, cy: Config, c: Crypto, h: House)
    requires Home(cx, cy, c, h)
    ensures Asked(LineOf(h.w.x), h.w.net)
  {
    hide Kinship, Numbers, Heard, Polite, Settled, Unsettled, Inv, Kept, Proper;
  }

  // ---- Whole runs ----

  ghost predicate QuietLife(turns: seq<Turn>) {
    forall i :: 0 <= i < |turns| ==> Quiet(turns[i].ev)
  }

  lemma {:induction false} RacesOn(cx: Config, cy: Config, c: Crypto, h: House, r: Race, turns: seq<Turn>)
    requires Home(cx, cy, c, h) && Matched(cx, cy) && Mutual(cx, cy) && Ideal(c)
    requires FairLife(cx, cy, c, h, turns) && QuietLife(turns) && Stage(h, r)
    ensures Stage(LiveAll(cx, cy, c, h, turns), r)
    decreases |turns|
  {
    hide Home, Matched, Mutual, FairTurn, Live, Stage;
    if turns != [] {
      Lives(cx, cy, c, h, turns[0]);
      if turns[0].atX { XRaces(cx, cy, c, h, r, turns[0]); } else { YRaces(cx, cy, c, h, r, turns[0]); }
      RacesOn(cx, cy, c, Live(cx, cy, c, h, turns[0]), r, turns[1..]);
    }
  }

  /** Two child rekeys cross, and neither request has been answered. In every order in
      which requests, answers and repeats of them arrive: until `x`, whose nonce is the
      larger, hears the answer to its own request, it serves the old child; from then on
      both ends serve the child `x` asked for, with mirrored SPIs and selectors. `y` never
      serves the child it asked for. */
  lemma LargerNonceWins(cx: Config, cy: Config, c: Crypto, h: House, r: Race, turns: seq<Turn>)
    requires Home(cx, cy, c, h) && Matched(cx, cy) && Mutual(cx, cy) && Ideal(c)
    requires FairLife(cx, cy, c, h, turns) && QuietLife(turns)
    requires Racing(r) && Open(h, r) && h.w.y.rekey == Some(r.rcy)
    ensures var v := LiveAll(cx, cy, c, h, turns);
            && v.w.x.activeChild.Some? && v.w.y.activeChild.Some?
            && (if v.w.x.rekey.Some? then v.w.x.rekey == Some(r.rcx) &&
                v.w.x.activeChild == Some(r.childX) else Won(v, r))
            && (v.w.y.activeChild == Some(r.childY) ||
                (v.w.y.activeChild.value.outboundSpi == r.rcx.newInboundSpi && !v.w.y.activeChild.value.localInitiator))
  {
    hide Home, Matched, Mutual, FairLife, LiveAll, QuietLife;
    RacesOn(cx, cy, c, h, r, turns);
  }

  /** Both ends await the answer to a child rekey, and neither has answered the other. `x` drew
      the larger nonce. */
  ghost predicate Collides(h: House) {
    && h.w.x.rekey.Some? && h.w.y.rekey.Some? && h.w.x.rekey.value.kind == h.w.y.rekey.value.kind == RekeyChild
    && New(LineOf(h.w.x), h.w.y.rekey.value.messageId) && New(LineOf(h.w.y), h.w.x.rekey.value.messageId)
    && Smaller(h.w.y.rekey.value.ni, h.w.x.rekey.value.ni)
    && h.w.x.activeChild.Some? && h.w.x.activeChild.value.tsi != [] && h.w.x.activeChild.value.tsr != []
  }

  lemma CollisionOpens(cx: Config, cy: Config, c: Crypto, h: House)
    requires Home(cx, cy, c, h) && Ideal(c) && Collides(h)
    ensures h.w.y.activeChild.Some?
    ensures var r := Race(h.w.x.rekey.value, h.w.y.rekey.value, h.w.x.activeChild.value, h.w.y.activeChild.value);
            Racing(r) && Open(h, r)
  {
    hide DecideCollision, Smaller, ChildResult, RekeyResult, AsksChild, Asks, Asked, Polite, Settled, Unsettled,
         Offering, OffersKids, Spared, Undecided, Decided, HistoryInv, OldInv, TakesChild;
    FlipTwice(h.w.x.env, h.w.y.env);
  }

  lemma CollisionOffers(cx: Config, cy: Config, c: Crypto, h: House)
    requires Home(cx, cy, c, h) && Ideal(c) && h.w.x.rekey.Some? && h.w.x.rekey.value.kind == RekeyChild
    ensures CanOfferChild(cx)
  {
    hide Agreement, Kinship, Inv, CanOfferChild, TakableChild, TakesChild, AsksChild, ParsePeerChild;
    AwaitsHere(cx, cy, c, h);
    assert IsChildOffer(cx, c, LineOf(h.w.x).awaited.value);
    ChildOfferTakable(cy, cx, c, LineOf(h.w.x).awaited.value);
  }

  /** The whole course of a collision, at any point of any run from the handshake on, whatever
      was sent, repeated or lost in between: whatever is delivered afterwards, in any order and
      any number of times, `y`'s smaller nonce never brings its child about, and once `x` has
      heard an answer both ends serve the one `x` asked for. */
  lemma CollisionDecided(cx: Config, cy: Config, c: Crypto, x: State, y: State, before: seq<Turn>, after: seq<Turn>)
    requires Founded(x, y) && Matched(cx, cy) && TakesChild(cy, cx) && Ideal(c)
    requires FairLife(cx, cy, c, Start(x, y), before)
    requires var h := LiveAll(cx, cy, c, Start(x, y), before);
             Collides(h) && FairLife(cx, cy, c, h, after) && QuietLife(after)
    ensures var h := LiveAll(cx, cy, c, Start(x, y), before);
            var v := LiveAll(cx, cy, c, h, after);
            && v.w.x.activeChild.Some? && v.w.y.activeChild.Some?
            && (v.w.x.rekey.Some? ==> v.w.x.rekey == h.w.x.rekey && v.w.x.activeChild == h.w.x.activeChild)
            && (v.w.x.rekey.None? ==> && v.w.y.rekey.None? && Paired(v.w.x.activeChild.value, v.w.y.activeChild.value)
                                      && v.w.x.activeChild.value.inboundSpi == h.w.x.rekey.value.newInboundSpi
                                      && v.w.x.activeChild.value.localInitiator)
            && (v.w.y.activeChild == h.w.y.activeChild || !v.w.y.activeChild.value.localInitiator)
  {
    hide LiveAll, FairLife, Home, Established, Paired, Compatible, UnderstandsChild, TakesChild, CanOfferChild,
         QuietLife, DecideCollision, Smaller, Open, New;
    FoundedHome(cx, cy, c, x, y);
    LivesOn(cx, cy, c, Start(x, y), before);
    var h := LiveAll(cx, cy, c, Start(x, y), before);
    CollisionOpens(cx, cy, c, h);
    CollisionOffers(cx, cy, c, h);
    HomeSymmetric(cx, cy, c, h);
    CollisionOffers(cy, cx, c, Swapped(h));
    LargerNonceWins(cx, cy, c, h,
                    Race(h.w.x.rekey.value, h.w.y.rekey.value, h.w.x.activeChild.value, h.w.y.activeChild.value),
                      after);
  }

  /** An answer to a request other than the awaited one -- such as one given up to a
      larger nonce -- never matches, however late it arrives: it changes nothing. */
  lemma LateAnswerMisses(cx: Config, cy: Config, c: Crypto, h: House, given: Frame, f: Frame, complete: bool, fr: Fresh)
    requires Home(cx, cy, c, h) && given in h.w.net && !given.response && given.sealedWith == OutboundHalves(h.w.x.env)
    requires LineOf(h.w.x).awaited != Some(given) && f.response && f.messageId == given.messageId
    ensures ProcessResponse(cx, c, h.w.x, f, complete, fr).st == h.w.x
  {
    hide Agreement, Kinship, HistoryInv, FinishChildRekey, FinishIkeRekey;
    AwaitsHere(cx, cy, c, h);
  }
}
