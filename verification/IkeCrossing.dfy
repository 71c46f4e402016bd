/** Two IKE rekeys that cross: the end with the larger nonce prevails at both ends. */
module IkeCrossing {
  import opened Bytes
  import opened Keying
  import opened Negotiation
  import opened Offers
  import opened IkeState
  import opened RekeyExchange
  import opened RunningSpec
  import opened RunningInvariant
  import opened IkeTalk
  import opened TwoEnds
  import opened Acts

  /** What the two ends ask for, and `x`'s request. */
  datatype Race = Race(rcx: RekeyContext, rcy: RekeyContext, g: Frame)

  ghost predicate Racing(r: Race) {
    r.rcx.kind == r.rcy.kind == RekeyIke && Smaller(r.rcy.ni, r.rcx.ni)
  }

  /** Neither end has moved, and `y` has not answered. It may have heard that its own was refused. */
  ghost predicate Open(w: World, r: Race) {
    && w.x.rekey == Some(r.rcx) && LineOf(w.x).awaited == Some(r.g) && (w.y.rekey == Some(r.rcy) || w.y.rekey.None?)
    && w.y.oldIke == [] && InStep(EndOf(w.x), EndOf(w.y)) && New(LineOf(w.y), r.g.messageId)
  }

  /** `y` accepted `x`'s request. */
  ghost predicate Moved(w: World, r: Race) {
    && w.x.rekey == Some(r.rcx) && LineOf(w.x).awaited == Some(r.g)
    && Ahead(EndOf(w.y), EndOf(w.x), w.net) && w.y.env.spiI == r.rcx.newInitiatorSpi
  }

  /** Both ends hold the SA that `x` asked for. */
  ghost predicate Done(w: World, r: Race) {
    && InStep(EndOf(w.x), EndOf(w.y)) && LineOf(w.x).ike.None? && LineOf(w.y).ike.None?
    && w.x.env.spiI == r.rcx.newInitiatorSpi && w.x.env.originalInitiator
  }

  /** `x` keeps its SA and its request until it moves. */
  ghost predicate Stage(w: World, r: Race, was: Envelope) {
    || (Open(w, r) && w.x.env == was)
    || (Moved(w, r) && w.x.env == was)
    || Done(w, r)
  }

  /** Each end takes some of the other's offers. */
  predicate Mutual(cx: Config, cy: Config) {
    SomeSuite(cx.ike, cy.ike) && SomeSuite(cy.ike, cx.ike)
  }

  // ---- What holds of the frames ----

  lemma Facts(cx: Config, cy: Config, c: Crypto, x: End, y: End, net: set<Frame>)
    requires Agreement(cx, cy, c, x, y, net)
    ensures Proper(cx, c, x.line) && Numbers(x.line, net) && Heard(x.line, net) && Settled(cx, c, x.line, y.line, net)
    ensures Unsettled(cx, x.line, y.line, net) && Offering(cx, c, x.line, net)
    ensures Proper(cy, c, y.line) && Numbers(y.line, net) && Heard(y.line, net) && Settled(cy, c, y.line, x.line, net)
    ensures Unsettled(cy, y.line, x.line, net) && Offering(cy, c, y.line, net)
  {
    hide Proper, Numbers, Asked, Heard, Polite, Settled, Unsettled, Offering, Kept, Ahead;
  }

  /** All requests between the two on one SA can be served. */
  lemma AllTakable(cx: Config, cy: Config, c: Crypto, x: End, y: End, net: set<Frame>, f: Frame)
    requires Agreement(cx, cy, c, x, y, net) && InStep(x, y) && f in net && IkeRequest(f) && Opens(x.line.env, f)
    requires SomeSuite(cx.ike, cy.ike) && Ideal(c)
    ensures Takable(cx, f)
  {
    hide Agreement, Takable, SomeSuite, IsOffer, CanOffer;
    Facts(cx, cy, c, x, y, net);
    FlipTwice(x.line.env, y.line.env);
    OfferTakable(cx, cy, c, f);
  }

  // ---- The end with the larger nonce ----

  /** It never loses to the other one. */
  lemma NotBeaten(cx: Config, cy: Config, c: Crypto, w: World, r: Race, f: Frame)
    requires Agree(cx, cy, c, w.x, w.y, w.net) && Ideal(c) && Racing(r) && (Open(w, r) || Moved(w, r)) && Mutual(cx, cy)
    requires f in w.net && IkeRequest(f) && Opens(w.x.env, f) && New(LineOf(w.x), f.messageId)
    requires FirstNonce(f.inner).Some?
    ensures DecideCollision(r.rcx.ni, FirstNonce(f.inner).value) != WeLose
  {
    hide Agreement, DecideCollision, Smaller, FirstNonce, Takable, SomeSuite, HistoryInv, Asks, RekeyResult;
    var x, y := EndOf(w.x), EndOf(w.y);
    Facts(cx, cy, c, x, y, w.net);
    FlipTwice(x.line.env, y.line.env);
    if Open(w, r) && DecideCollision(r.rcx.ni, FirstNonce(f.inner).value) == WeLose {
      AllTakable(cx, cy, c, x, y, w.net, f);
      Awaited(cx, cy, c, x, y, w.net, f);
      RequestRead(cy, c, r.rcy, f);
      AskedNonce(cy, c, r.rcy, f);
      AskedNonce(cx, c, r.rcx, r.g);
      LosesIffSmaller(r.rcy.ni, r.rcx.ni);
      CollisionDecides(r.rcx.ni, r.rcy.ni);
    } else if Moved(w, r) {
      MovedApart(cx, cy, c, w, r);
    }
  }

  lemma AskedNonce(cfg: Config, c: Crypto, rc: RekeyContext, q: Frame)
    requires Asks(cfg, c, rc, q)
    ensures rc.ni != []
  {
  }

  lemma MovedApart(cx: Config, cy: Config, c: Crypto, w: World, r: Race)
    requires Agree(cx, cy, c, w.x, w.y, w.net) && Moved(w, r)
    ensures !InStep(EndOf(w.x), EndOf(w.y)) && !Ahead(EndOf(w.x), EndOf(w.y), w.net)
  {
    hide Inv, Numbers, Asked, Heard, Polite, Settled, Unsettled, Offering, Kept, Proper;
    FlipTwice(w.x.env, w.y.env);
  }

  lemma XOpen(cx: Config, cy: Config, c: Crypto, w: World, r: Race, ev: Event, o: Outcome)
    requires Agree(cx, cy, c, w.x, w.y, w.net) && Ideal(c) && Racing(r) && Open(w, r) && Mutual(cx, cy) && Inv(o.st)
    requires Act(cx, c, EndOf(w.x), w.net, ev, o.tx, EndOf(o.st)) && NoNewRekey(w.x, o)
    ensures Open(World(o.st, w.y, Grow(w.net, o.tx)), r) && o.st.env == w.x.env
  {
    hide Agreement, DecideCollision, Smaller, FirstNonce, Takable, SomeSuite, HistoryInv, Asks, RekeyResult,
         SelectPeerIke, RekeyedEnvelope, ParsePeerIke, IkeRequest;
    var x, y := EndOf(w.x), EndOf(w.y);
    Facts(cx, cy, c, x, y, w.net);
    FlipTwice(x.line.env, y.line.env);
    if ev.Receive? && ev.pkt.Protected? && ev.pkt.frame in w.net {
      var f := ev.pkt.frame;
      if IkeRequest(f) && Opens(w.x.env, f) && New(LineOf(w.x), f.messageId) &&
        FirstNonce(f.inner).Some? { NotBeaten(cx, cy, c, w, r, f); }
    }
  }

  /** After a turn of `x` that keeps its request, `y` is still ahead. */
  lemma StillAhead(cx: Config, cy: Config, c: Crypto, w: World, r: Race, n: World)
    requires Agree(cx, cy, c, w.x, w.y, w.net) && Moved(w, r) && Agree(cx, cy, c, n.x, n.y, n.net)
    requires n.x.env == w.x.env && n.y.env == w.y.env && LineOf(n.y).ike.None?
    ensures Ahead(EndOf(n.y), EndOf(n.x), n.net)
  {
    hide Inv, Good, EndOf;
    MovedApart(cx, cy, c, w, r);
    FlipTwice(n.x.env, n.y.env);
    assert EndOf(n.x).line.env == n.x.env && EndOf(n.y).line.env == n.y.env &&
      EndOf(n.y).line.ike.None? by { Lines(n.x); Lines(n.y); }
    assert EndOf(w.x).line.env == w.x.env && EndOf(w.y).line.env == w.y.env by { Lines(w.x); Lines(w.y); }
  }

  lemma Lines(st: State)
    ensures EndOf(st).line == LineOf(st) && LineOf(st).env == st.env
  {
  }

  lemma ResultRole(cfg: Config, c: Crypto, env: Envelope, rc: RekeyContext, inner: seq<Payload>)
    ensures var r := RekeyResult(cfg, c, env, rc, inner); r.Some? ==> r.value.originalInitiator
  {
    hide ParseIkeResponse, SharedSecret, DeriveIkeKeys;
  }

  lemma XFinishes(cx: Config, cy: Config, c: Crypto, w: World, r: Race, f: Frame, o: Outcome)
    requires Agree(cx, cy, c, w.x, w.y, w.net) && Racing(r) && Moved(w, r)
    requires f in w.net && Finishes(cx, c, EndOf(w.x), f, o.tx, EndOf(o.st))
    ensures Done(World(o.st, w.y, Grow(w.net, o.tx)), r)
  {
    hide Inv, Good, RekeyResult, DecideCollision;
    ResultRole(cx, c, w.x.env, r.rcx, f.inner);
    FinishFollows(cx, cy, c, EndOf(w.x), EndOf(w.y), w.net, f, o.tx, EndOf(o.st));
    FlipTwice(o.st.env, w.y.env);
  }

  /** Whatever else `x` does, it neither gives up its request nor leaves its SA. */
  lemma XWaits(cx: Config, cy: Config, c: Crypto, w: World, r: Race, ev: Event, o: Outcome)
    requires Agree(cx, cy, c, w.x, w.y, w.net) && Ideal(c) && Racing(r) && Moved(w, r) && Mutual(cx, cy) && Inv(o.st)
    requires Act(cx, c, EndOf(w.x), w.net, ev, o.tx, EndOf(o.st)) && NoNewRekey(w.x, o)
    requires ev.Receive? && ev.pkt.Protected? && ev.pkt.frame in w.net ==>
      !Finishes(cx, c, EndOf(w.x), ev.pkt.frame, o.tx, EndOf(o.st))
    ensures o.st.env == w.x.env && o.st.rekey == w.x.rekey && LineOf(o.st).awaited == LineOf(w.x).awaited
  {
    hide Agreement, DecideCollision, Smaller, FirstNonce, Takable, SomeSuite, HistoryInv, Asks, SelectPeerIke,
         ParsePeerIke, IkeRequest, RekeyedEnvelope, RekeyResult, Finishes;
    var x, y := EndOf(w.x), EndOf(w.y);
    Facts(cx, cy, c, x, y, w.net);
    MovedApart(cx, cy, c, w, r);
    FlipTwice(x.line.env, y.line.env);
    if ev.Receive? && ev.pkt.Protected? && ev.pkt.frame in w.net {
      var f := ev.pkt.frame;
      if IkeRequest(f) && Opens(w.x.env, f) && New(LineOf(w.x), f.messageId) &&
        FirstNonce(f.inner).Some? { NotBeaten(cx, cy, c, w, r, f); }
    }
  }

  lemma XMoved(cx: Config, cy: Config, c: Crypto, w: World, r: Race, ev: Event, o: Outcome)
    requires Agree(cx, cy, c, w.x, w.y, w.net) && Ideal(c) && Racing(r) && Moved(w, r) && Mutual(cx, cy)
    requires Act(cx, c, EndOf(w.x), w.net, ev, o.tx, EndOf(o.st)) && NoNewRekey(w.x, o)
    requires Agree(cx, cy, c, o.st, w.y, Grow(w.net, o.tx))
    ensures Stage(World(o.st, w.y, Grow(w.net, o.tx)), r, w.x.env)
  {
    hide Agreement, DecideCollision, Smaller, Mutual, HistoryInv, Finishes, Inv, Open, Done, Racing;
    var n := World(o.st, w.y, Grow(w.net, o.tx));
    if ev.Receive? && ev.pkt.Protected? && ev.pkt.frame in w.net &&
      Finishes(cx, c, EndOf(w.x), ev.pkt.frame, o.tx, EndOf(o.st)) {
      XFinishes(cx, cy, c, w, r, ev.pkt.frame, o);
    } else {
      XWaits(cx, cy, c, w, r, ev, o);
      StillAhead(cx, cy, c, w, r, n);
    }
  }

  // ---- The other end ----

  lemma AskedIsIke(cfg: Config, c: Crypto, rc: RekeyContext, q: Frame)
    requires Asks(cfg, c, rc, q) && !q.response
    ensures IkeRequest(q)
  {
    hide IkeOffer;
  }

  /** `x`'s request, as `y` finds it. */
  lemma RequestFound(cx: Config, cy: Config, c: Crypto, w: World, r: Race)
    requires Agree(cx, cy, c, w.x, w.y, w.net) && Ideal(c) && Racing(r) && Open(w, r) && Mutual(cx, cy)
    ensures IkeRequest(r.g) && r.g in w.net && Opens(w.y.env, r.g) && Asks(cx, c, r.rcx, r.g)
    ensures FirstNonce(r.g.inner) == Some(r.rcx.ni)
    ensures Takable(cy, r.g)
  {
    hide Agreement, DecideCollision, Smaller, FirstNonce, Takable, SomeSuite, Inv, Asks, ParsePeerIke, IkeRequest;
    var x, y := EndOf(w.x), EndOf(w.y);
    Facts(cx, cy, c, x, y, w.net);
    KeptNow(cx, cy, c, x, y, w.net);
    FlipTwice(x.line.env, y.line.env);
    AskedIsIke(cx, c, r.rcx, r.g);
    RequestRead(cx, c, r.rcx, r.g);
    AgreeSymmetric(cx, cy, c, w.x, w.y, w.net);
    AllTakable(cy, cx, c, y, x, w.net, r.g);
  }

  lemma TrimGrows(history: seq<CachedResponse>, a: CachedResponse)
    requires history != [] ==> history[|history| - 1] != a
    ensures Trim(history + [a]) != [] && Trim(history + [a])[|Trim(history + [a])| - 1] == a
    ensures Trim(history + [a]) != history
  {
  }

  /** `x`'s request is served whenever it is heard: no answer refuses it. */
  lemma GrantsRequest(cx: Config, cy: Config, c: Crypto, w: World, r: Race, ev: Event, o: Outcome)
    requires Agree(cx, cy, c, w.x, w.y, w.net) && Ideal(c) && Racing(r) && Open(w, r) && Mutual(cx, cy)
    requires ev.Receive? && ev.pkt.Protected? && ev.pkt.frame == r.g && o == Step(cy, c, w.y, ev)
    ensures !Replies(EndOf(w.y), r.g, o.tx, EndOf(o.st))
  {
    hide Agreement, DecideCollision, Smaller, FirstNonce, Takable, Mutual, Inv, Asks, Step, Trim, IkeRequest;
    RequestFound(cx, cy, c, w, r);
    ServedAtOnce(cx, cy, c, w, r, ev, o);
    if |o.tx| == 1 { TrimGrows(w.y.history, CachedResponse(r.g.messageId, o.tx)); }
  }

  lemma ServedAtOnce(cx: Config, cy: Config, c: Crypto, w: World, r: Race, ev: Event, o: Outcome)
    requires Inv(w.y) && Ideal(c) && (w.y.rekey == Some(r.rcy) || w.y.rekey.None?) && w.y.oldIke == [] && Racing(r)
    requires ev.Receive? && ev.pkt.Protected? && ev.pkt.frame == r.g && o == Step(cy, c, w.y, ev) && Takable(cy, r.g)
    requires IkeRequest(r.g)
    requires Opens(w.y.env, r.g) && New(LineOf(w.y), r.g.messageId) && Asks(cx, c, r.rcx, r.g)
    requires FirstNonce(r.g.inner) == Some(r.rcx.ni)
    ensures o.st.history == w.y.history || o.st.oldIke != []
  {
    hide DecideCollision, Smaller, FirstNonce, Takable, HistoryInv, Asks, AcceptPeerIke, HasSelectors, Accepts;
    var base := if w.y.rekey.Some? then Abandon(w.y) else w.y;
    LosesIffSmaller(r.rcy.ni, r.rcx.ni);
    AcceptIkeMoves(cy, cx, c, w.y, base, r.rcx, r.g, ev.fr);
    CachedFinds(w.y.history, r.g.messageId);
  }

  /** Every other request of `x` is older than the one it awaits the answer to. */
  lemma OtherIsOlder(cx: Config, cy: Config, c: Crypto, w: World, r: Race, f: Frame)
    requires Agree(cx, cy, c, w.x, w.y, w.net) && Open(w, r)
    requires f in w.net && !f.response && Opens(w.y.env, f) && f != r.g
    ensures f.messageId < r.g.messageId
  {
    hide Agreement, HistoryInv, Asks, RekeyResult, New;
    Facts(cx, cy, c, EndOf(w.x), EndOf(w.y), w.net);
    FlipTwice(w.x.env, w.y.env);
  }

  /** What `y` asked for is not granted. */
  lemma NotGranted(cx: Config, cy: Config, c: Crypto, w: World, r: Race, f: Frame)
    requires Agree(cx, cy, c, w.x, w.y, w.net) && Open(w, r) && f in w.net && Matches(LineOf(w.y), f)
    ensures LineOf(w.y).ike.Some? ==> RekeyResult(cy, c, w.y.env, LineOf(w.y).ike.value, f.inner).None?
  {
    hide Agreement, Inv, RekeyResult, New;
    Facts(cx, cy, c, EndOf(w.x), EndOf(w.y), w.net);
    FlipTwice(w.x.env, w.y.env);
  }

  /** Short of accepting, `y` stays where it is and the request stays unanswered. */
  lemma YStays(cx: Config, cy: Config, c: Crypto, w: World, r: Race, ev: Event, o: Outcome)
    requires Agree(cx, cy, c, w.x, w.y, w.net) && Ideal(c) && Racing(r) && Open(w, r) && Mutual(cx, cy)
    requires Act(cy, c, EndOf(w.y), w.net, ev, o.tx, EndOf(o.st)) && NoNewRekey(w.y, o)
    requires ev.Receive? && ev.pkt.Protected? && ev.pkt.frame == r.g
             ==> !Replies(EndOf(w.y), r.g, o.tx, EndOf(o.st))
    requires ev.Receive? && ev.pkt.Protected?
             ==> !Accepts(cy, c, EndOf(w.y), ev.pkt.frame, ev.fr, o.tx, EndOf(o.st))
    ensures Open(World(w.x, o.st, Grow(w.net, o.tx)), r)
  {
    hide Agreement, DecideCollision, Smaller, FirstNonce, Takable, SomeSuite, Inv, Asks, RekeyResult, Accepts,
         IkeRequest, Trim;
    if ev.Receive? && ev.pkt.Protected? && ev.pkt.frame in w.net {
      var f := ev.pkt.frame;
      AgreeSymmetric(cx, cy, c, w.x, w.y, w.net);
      FlipTwice(w.x.env, w.y.env);
      if IkeRequest(f) && Opens(w.y.env, f) { AllTakable(cy, cx, c, EndOf(w.y), EndOf(w.x), w.net, f); }
      if Matches(LineOf(w.y), f) { NotGranted(cx, cy, c, w, r, f); }
      if Replies(EndOf(w.y), f, o.tx, EndOf(o.st)) {
        OtherIsOlder(cx, cy, c, w, r, f);
        Later(w.y.history, CachedResponse(f.messageId, o.tx), r.g.messageId);
      }
    }
  }

  lemma Later(history: seq<CachedResponse>, a: CachedResponse, id: u32)
    requires a.messageId < id
    ensures Trim(history + [a]) != [] && Trim(history + [a])[|Trim(history + [a])| - 1].messageId < id
  {
  }

  lemma YAccepts(cx: Config, cy: Config, c: Crypto, w: World, r: Race, f: Frame, fr: Fresh, o: Outcome)
    requires Agree(cx, cy, c, w.x, w.y, w.net) && Ideal(c) && Racing(r) && Open(w, r) && Compatible(cx, cy)
    requires f in w.net && Accepts(cy, c, EndOf(w.y), f, fr, o.tx, EndOf(o.st)) && fr.nonce != []
    requires Unused(o.st.env, EndOf(w.y), w.net)
    ensures Moved(World(w.x, o.st, Grow(w.net, o.tx)), r)
  {
    hide Good, DecideCollision, Smaller, FirstNonce, Inv, Asks, Understands, Balanced, Unused, Known, DecodeIke,
         SelectPeerIke, ParsePeerIke, DeriveIkeKeys, IkeOffer;
    var x, y := EndOf(w.x), EndOf(w.y);
    AgreeSymmetric(cx, cy, c, w.x, w.y, w.net);
    CompatibleSymmetric(cx, cy);
    AcceptKeeps(cy, cx, c, y, x, w.net, f, fr, o.tx, EndOf(o.st));
    assert o.tx == [o.tx[0]];
    AcceptAgrees(cy, cx, c, y, x, w.net, f, fr, o.tx[0], EndOf(o.st));
    Facts(cx, cy, c, x, y, w.net);
    NewSpi(cx, cy, c, r.rcx, f, fr);
  }

  lemma NewSpi(cx: Config, cy: Config, c: Crypto, rc: RekeyContext, f: Frame, fr: Fresh)
    requires Ideal(c) && Asks(cx, c, rc, f) && ParsePeerIke(f.inner).Some?
    ensures var choice := SelectPeerIke(cy, ParsePeerIke(f.inner).value.sa, fr.ikeSpi);
            choice.Some? ==> choice.value.peerSpi == rc.newInitiatorSpi
  {
    hide IkeOffer, SelectPeerIke, ParsePeerIke, Understands, DecodeIke, Known, FirstNonce;
    RequestRead(cx, c, rc, f);
    var sa := IkeOffer(cx, rc.newInitiatorSpi).value;
    if SelectPeerIke(cy, sa, fr.ikeSpi).Some? {
      EchoUnderstood(cx, cy, rc.newInitiatorSpi, fr.ikeSpi, sa, SelectPeerIke(cy, sa, fr.ikeSpi).value);
    }
  }

  /** Once it has moved, `y` stays on the new SA. */
  lemma YWaits(cx: Config, cy: Config, c: Crypto, w: World, r: Race, ev: Event, o: Outcome)
    requires Moved(w, r) && Act(cy, c, EndOf(w.y), w.net, ev, o.tx, EndOf(o.st)) && NoNewRekey(w.y, o)
    ensures o.st.env == w.y.env && LineOf(o.st).ike.None?
  {
    hide DecideCollision, Smaller, FirstNonce, Takable, Asks, SelectPeerIke, ParsePeerIke, IkeRequest, RekeyedEnvelope,
         RekeyResult, Trim;
  }

  lemma YMoved(cx: Config, cy: Config, c: Crypto, w: World, r: Race, ev: Event, o: Outcome)
    requires Agree(cx, cy, c, w.x, w.y, w.net) && Moved(w, r)
    requires Act(cy, c, EndOf(w.y), w.net, ev, o.tx, EndOf(o.st)) && NoNewRekey(w.y, o)
    requires Agree(cx, cy, c, w.x, o.st, Grow(w.net, o.tx))
    ensures Moved(World(w.x, o.st, Grow(w.net, o.tx)), r)
  {
    hide Agree, Ahead, Act;
    YWaits(cx, cy, c, w, r, ev, o);
    StillAhead(cx, cy, c, w, r, World(w.x, o.st, Grow(w.net, o.tx)));
  }

  // ---- Afterwards ----

  /** With no IKE rekey outstanding, an end stays on its SA. */
  lemma NoneMoves(cx: Config, cy: Config, c: Crypto, st: State, y: State, net: set<Frame>, ev: Event, o: Outcome)
    requires Agree(cx, cy, c, st, y, net) && LineOf(st).ike.None? && LineOf(y).ike.None?
    requires Act(cx, c, EndOf(st), net, ev, o.tx, EndOf(o.st)) && NoNewRekey(st, o)
    ensures o.st.env == st.env && LineOf(o.st).ike.None?
  {
    hide Agreement, DecideCollision, Smaller, FirstNonce, Asks, SelectPeerIke, ParsePeerIke, IkeRequest,
         RekeyedEnvelope, RekeyResult, Trim, HistoryInv;
    if ev.Receive? && ev.pkt.Protected? && ev.pkt.frame in net &&
      Accepts(cx, c, EndOf(st), ev.pkt.frame, ev.fr, o.tx, EndOf(o.st)) {
      AnySpi(cx, ParsePeerIke(ev.pkt.frame.inner).value.sa, ev.fr.ikeSpi, 0);
      Awaited(cx, cy, c, EndOf(st), EndOf(y), net, ev.pkt.frame);
    }
  }

  // ---- Turns and runs ----

  lemma XRaces(cx: Config, cy: Config, c: Crypto, w: World, r: Race, was: Envelope, ev: Event)
    requires Agree(cx, cy, c, w.x, w.y, w.net) && Compatible(cx, cy) && Mutual(cx, cy) && Ideal(c) && Racing(r)
    requires Fair(w.x, ev, Step(cx, c, w.x, ev), w.net) && Quiet(ev) && Stage(w, r, was)
    ensures Stage(Take(cx, cy, c, w, Turn(true, ev)), r, was)
  {
    hide Agreement, Compatible, Mutual, Step, Fair, Inv, Act, NoNewRekey, EndOf, Racing, Open, Moved;
    var o := Step(cx, c, w.x, ev);
    TurnActs(cx, cy, c, w.x, EndOf(w.y), w.net, ev);
    TurnKeeps(cx, cy, c, w.x, w.y, w.net, ev);
    QuietStartsNone(cx, c, w.x, ev);
    if Open(w, r) && w.x.env == was { XOpen(cx, cy, c, w, r, ev, o); }
    else if Moved(w, r) && w.x.env == was { XMoved(cx, cy, c, w, r, ev, o); }
    else { NoneMoves(cx, cy, c, w.x, w.y, w.net, ev, o); EnvsTell(w.x, o.st); }
  }

  lemma EnvsTell(a: State, b: State)
    requires a.env == b.env
    ensures EndOf(a).line.env == EndOf(b).line.env
  {
  }

  /** A turn of `y` before it has moved. */
  lemma YOpen(cx: Config, cy: Config, c: Crypto, w: World, r: Race, ev: Event)
    requires Agree(cx, cy, c, w.x, w.y, w.net) && Compatible(cx, cy) && Mutual(cx, cy) && Ideal(c) && Racing(r)
    requires Fair(w.y, ev, Step(cy, c, w.y, ev), w.net) && Quiet(ev) && Open(w, r)
    requires var o := Step(cy, c, w.y, ev); Act(cy, c, EndOf(w.y), w.net, ev, o.tx, EndOf(o.st)) && NoNewRekey(w.y, o)
    ensures var n := Take(cx, cy, c, w, Turn(false, ev)); Open(n, r) || Moved(n, r)
  {
    hide Agreement, Compatible, Mutual, Step, Inv, Act, NoNewRekey, Racing, Moved, Accepts, Replies, Unused;
    var o := Step(cy, c, w.y, ev);
    if ev.Receive? && ev.pkt.Protected? && ev.pkt.frame == r.g { GrantsRequest(cx, cy, c, w, r, ev, o); }
    if ev.Receive? && ev.pkt.Protected? && Accepts(cy, c, EndOf(w.y), ev.pkt.frame, ev.fr, o.tx, EndOf(o.st)) {
      AcceptedEnds(cy, c, w.y, ev.pkt.frame, ev.fr, o);
      YAccepts(cx, cy, c, w, r, ev.pkt.frame, ev.fr, o);
    } else {
      YStays(cx, cy, c, w, r, ev, o);
    }
  }

  lemma AcceptedEnds(cfg: Config, c: Crypto, st: State, f: Frame, fr: Fresh, o: Outcome)
    requires Accepts(cfg, c, EndOf(st), f, fr, o.tx, EndOf(o.st))
    ensures st.oldIke == [] && |o.st.oldIke| > 0 && !o.st.env.originalInitiator && Opens(st.env, f)
  {
    hide SelectPeerIke, ParsePeerIke, FirstNonce, DecideCollision, Smaller, IkeRequest, DeriveIkeKeys;
  }

  lemma YRaces(cx: Config, cy: Config, c: Crypto, w: World, r: Race, was: Envelope, ev: Event)
    requires Agree(cx, cy, c, w.x, w.y, w.net) && Compatible(cx, cy) && Mutual(cx, cy) && Ideal(c) && Racing(r)
    requires Fair(w.y, ev, Step(cy, c, w.y, ev), w.net) && Quiet(ev) && Stage(w, r, was)
    ensures Stage(Take(cx, cy, c, w, Turn(false, ev)), r, was)
  {
    hide Agreement, Compatible, Mutual, Step, Fair, Inv, Act, NoNewRekey, EndOf, Racing, Open, Moved;
    var o := Step(cy, c, w.y, ev);
    AgreeSymmetric(cx, cy, c, w.x, w.y, w.net);
    CompatibleSymmetric(cx, cy);
    TurnActs(cy, cx, c, w.y, EndOf(w.x), w.net, ev);
    TurnKeeps(cy, cx, c, w.y, w.x, w.net, ev);
    AgreeSymmetric(cy, cx, c, o.st, w.x, Grow(w.net, o.tx));
    QuietStartsNone(cy, c, w.y, ev);
    if Open(w, r) && w.x.env == was { YOpen(cx, cy, c, w, r, ev); }
    else if Moved(w, r) && w.x.env == was { YMoved(cx, cy, c, w, r, ev, o); }
    else { NoneMoves(cy, cx, c, w.y, w.x, w.net, ev, o); EnvsTell(w.y, o.st); }
  }

  ghost predicate QuietRun(turns: seq<Turn>) {
    forall i :: 0 <= i < |turns| ==> Quiet(turns[i].ev)
  }

  lemma {:induction false} RacesOn(cx: Config, cy: Config, c: Crypto, w: World, r: Race, was: Envelope,
                                   turns: seq<Turn>)
    requires Agree(cx, cy, c, w.x, w.y, w.net) && Compatible(cx, cy) && Mutual(cx, cy) && Ideal(c) && Racing(r)
    requires FairRun(cx, cy, c, w, turns) && QuietRun(turns) && Stage(w, r, was)
    ensures Stage(TakeAll(cx, cy, c, w, turns), r, was)
    decreases |turns|
  {
    hide Agree, Compatible, Mutual, Fair, Step, Stage, Racing;
    if turns != [] {
      assert TakeAll(cx, cy, c, w, [turns[0]]) == Take(cx, cy, c, w, turns[0]) by { assert [turns[0]][1..] == []; }
      RunAgrees(cx, cy, c, w, [turns[0]]);
      if turns[0].atX { XRaces(cx, cy, c, w, r, was, turns[0].ev); } else { YRaces(cx, cy, c, w, r, was, turns[0].ev); }
      RacesOn(cx, cy, c, Take(cx, cy, c, w, turns[0]), r, was, turns[1..]);
    }
  }

  /** Both ends await the answer to an IKE rekey, and neither has answered the other. `x` drew
      the larger nonce. */
  ghost predicate Collides(w: World) {
    && w.x.rekey.Some? && w.y.rekey.Some? && w.x.rekey.value.kind == w.y.rekey.value.kind == RekeyIke
    && New(LineOf(w.x), w.y.rekey.value.messageId) && New(LineOf(w.y), w.x.rekey.value.messageId)
    && Smaller(w.y.rekey.value.ni, w.x.rekey.value.ni)
  }

  lemma CollisionOpens(cx: Config, cy: Config, c: Crypto, w: World)
    requires Agree(cx, cy, c, w.x, w.y, w.net) && Collides(w) && Ideal(c)
    ensures LineOf(w.x).awaited.Some?
    ensures var r := Race(w.x.rekey.value, w.y.rekey.value, LineOf(w.x).awaited.value); Racing(r) && Open(w, r)
    ensures CanOffer(cx) && CanOffer(cy)
  {
    hide Good, DecideCollision, Smaller, HistoryInv, Asks, CanOffer, SomeSuite, Takable;
    var x, y := EndOf(w.x), EndOf(w.y);
    Facts(cx, cy, c, x, y, w.net);
    assert IsOffer(cx, c, x.line.awaited.value) && IsOffer(cy, c, y.line.awaited.value);
    OfferTakable(cy, cx, c, x.line.awaited.value);
    OfferTakable(cx, cy, c, y.line.awaited.value);
  }

  /** Two crossing IKE rekeys, at any point of any fair run from the handshake on: whatever is
      delivered afterwards, `x` keeps its SA and its request until it hears the answer, and
      then both ends hold the SA that `x` asked for. What `y` asked for never comes about. */
  lemma LargerNonceWins(cx: Config, cy: Config, c: Crypto, x: State, y: State, before: seq<Turn>, after: seq<Turn>)
    requires Established(x, y) && Compatible(cx, cy) && SomeSuite(cy.ike, cx.ike) && Ideal(c)
    requires FairRun(cx, cy, c, World(x, y, {}), before)
    requires var w := TakeAll(cx, cy, c, World(x, y, {}), before);
             Collides(w) && FairRun(cx, cy, c, w, after) && QuietRun(after)
    ensures var w := TakeAll(cx, cy, c, World(x, y, {}), before);
            var v, spi := TakeAll(cx, cy, c, w, after), w.x.rekey.value.newInitiatorSpi;
            || (v.x.rekey == w.x.rekey && v.x.env == w.x.env
                && (SameSa(v.x.env, v.y.env) ||
                    (v.y.env.spiI == spi && v.y.oldIke != [] && SameSa(v.y.oldIke[0].env, v.x.env))))
            || (SameSa(v.x.env, v.y.env) && v.x.env.spiI == spi && v.x.env.originalInitiator)
  {
    hide TakeAll, FairRun, Agree, Established, Understands, CanOffer, SomeSuite, DecideCollision, Smaller, New,
         QuietRun, Ahead, Racing;
    EstablishedAgree(cx, cy, c, x, y);
    RunAgrees(cx, cy, c, World(x, y, {}), before);
    var w := TakeAll(cx, cy, c, World(x, y, {}), before);
    CollisionOpens(cx, cy, c, w);
    var r := Race(w.x.rekey.value, w.y.rekey.value, LineOf(w.x).awaited.value);
    RacesOn(cx, cy, c, w, r, w.x.env, after);
    StageMeans(TakeAll(cx, cy, c, w, after), r, w.x.env);
  }

  lemma StageMeans(v: World, r: Race, was: Envelope)
    requires Stage(v, r, was)
    ensures || (v.x.rekey == Some(r.rcx) && v.x.env == was
                && (SameSa(v.x.env, v.y.env)
                    || (v.y.env.spiI == r.rcx.newInitiatorSpi && v.y.oldIke != [] &&
                        SameSa(v.y.oldIke[0].env, v.x.env))))
            || (SameSa(v.x.env, v.y.env) && v.x.env.spiI == r.rcx.newInitiatorSpi && v.x.env.originalInitiator)
  {
  }
}
