/** Two endpoints and the network between them, reduced to what matters for the IKE
    SA: each end's current SA, the one it retains, and every frame ever sent. */
module IkeTalk {
  import opened Bytes
  import opened Suite
  import opened Keying
  import opened Negotiation
  import opened Offers
  import opened IkeState
  import opened RekeyExchange
  import opened RunningSpec
  import W = SaPayload

  /** An SA as one end uses it: its counter, the request it awaits an answer to, the
      answers it remembers, and the IKE rekey that request may be. */
  datatype Line = Line(env: Envelope, nextId: u32, awaited: Option<Frame>, history: seq<CachedResponse>,
                       ike: Option<RekeyContext>)

  datatype End = End(line: Line, retained: Option<OldIke>)

  /** The same SA seen from the other end. */
  function Flip(env: Envelope): Envelope {
    env.(originalInitiator := !env.originalInitiator)
  }

  predicate IkeRequest(f: Frame) {
    !f.response && f.exchange == CreateChildSa && !HasSelectors(f.inner)
  }

  predicate Keepalive(f: Frame) {
    !f.response && f.exchange == Informational && f.inner == []
  }

  predicate New(l: Line, id: u32) {
    l.history != [] ==> l.history[|l.history| - 1].messageId < id
  }

  /** What the requester of an IKE rekey makes of an answer: the new SA, if any. */
  function RekeyResult(cfg: Config, c: Crypto, env: Envelope, rc: RekeyContext, inner: seq<Payload>): Option<Envelope> {
    match ParseIkeResponse(cfg, inner)
    case None => None
    case Some(r) =>
      match SharedSecret(c, rc.dh, Some(r.ke))
      case None => None
      case Some(shared) =>
        RekeyedEnvelope(c, env, shared, rc.ni, r.nr, rc.newInitiatorSpi, r.responderSpi, true, r.selection)
  }

  /** The request of an IKE rekey carries what its context remembers. */
  ghost predicate Asks(cfg: Config, c: Crypto, rc: RekeyContext, q: Frame) {
    && rc.dh.Some? && |rc.ni| == 32 && IkeOffer(cfg, rc.newInitiatorSpi).Some? && q.exchange == CreateChildSa
    && q.inner ==
      [SaPayload(IkeOffer(cfg, rc.newInitiatorSpi).value), NoncePayload(rc.ni),
       KePayload(CURVE25519, c.publicKey(rc.dh.value))]
  }

  ghost predicate IsOffer(cfg: Config, c: Crypto, q: Frame) {
    exists rc :: Asks(cfg, c, rc, q)
  }

  /** An IKE rekey request from which this end can choose a suite. */
  predicate Takable(cfg: Config, q: Frame) {
    ParsePeerIke(q.inner).Some? && SelectPeerIke(cfg, ParsePeerIke(q.inner).value.sa, 0).Some?
  }

  // ---- What holds of one end ----

  ghost predicate Proper(cfg: Config, c: Crypto, l: Line) {
    && OutboundHalves(l.env) != InboundHalves(l.env)
    && (l.awaited.Some? ==> && l.nextId == (l.awaited.value.messageId + 1) % U32_LIMIT
                            && l.awaited.value ==
                              Seal(l.env, l.awaited.value.exchange, l.awaited.value.messageId, false,
                                   l.awaited.value.inner)
                            && (IkeRequest(l.awaited.value) ==> l.ike.Some?))
    && (l.ike.Some? ==> l.awaited.Some? && Asks(cfg, c, l.ike.value, l.awaited.value))
  }

  /** Requests are numbered below the counter, an awaited id belongs to one request, and
      no request on a current SA deletes it. */
  ghost predicate Numbers(l: Line, net: set<Frame>) {
    forall g :: g in net && !g.response && g.sealedWith == OutboundHalves(l.env) ==>
      && g.messageId < l.nextId && !AsksIkeDelete(g.inner)
      && (l.awaited.Some? && g.messageId == l.awaited.value.messageId ==> g == l.awaited.value)
  }

  /** Every IKE rekey request offers what is configured. */
  ghost predicate Offering(cfg: Config, c: Crypto, l: Line, net: set<Frame>) {
    forall g :: g in net && IkeRequest(g) && g.sealedWith == OutboundHalves(l.env) ==> IsOffer(cfg, c, g)
  }

  /** Only requests already made are answered, */
  ghost predicate Asked(l: Line, net: set<Frame>) {
    forall f :: f in net && f.response && Opens(l.env, f) ==> f.messageId < l.nextId
  }

  /** and the answers given are no newer than the last one remembered. */
  ghost predicate Heard(l: Line, net: set<Frame>) {
    forall f :: f in net && f.response && f.sealedWith == OutboundHalves(l.env) ==> !New(l, f.messageId)
  }

  /** None arrives that deletes it either. */
  ghost predicate Polite(l: Line, net: set<Frame>) {
    forall g :: g in net && !g.response && Opens(l.env, g) ==> !AsksIkeDelete(g.inner)
  }

  ghost predicate Apart(a: Envelope, b: Envelope) {
    && OutboundHalves(a) != OutboundHalves(b) && OutboundHalves(a) != InboundHalves(b)
    && InboundHalves(a) != OutboundHalves(b) && InboundHalves(a) != InboundHalves(b)
  }

  /** Everything an end may repeat was sent before. */
  ghost predicate Sent(history: seq<CachedResponse>, net: set<Frame>) {
    forall i, t :: 0 <= i < |history| && t in history[i].packets ==> t in net
  }

  ghost predicate Kept(e: End, net: set<Frame>) {
    && (e.line.awaited.Some? ==> e.line.awaited.value in net) && Sent(e.line.history, net)
    && (e.retained.Some? ==>
        Sent(e.retained.value.history, net) &&
          (e.retained.value.outbound.Some? ==> forall t :: t in e.retained.value.outbound.value.packets ==> t in net))
  }

  // ---- What holds between two ends ----

  /** An answer to the awaited IKE rekey leads to the SA the peer moved to; as long as
      the peer has not moved, it is a refusal. */
  ghost predicate Settled(cfg: Config, c: Crypto, l: Line, peer: Line, net: set<Frame>) {
    forall f :: f in net && l.ike.Some? && Matches(l, f) ==>
      RekeyResult(cfg, c, l.env, l.ike.value, f.inner) == if peer.env == Flip(l.env) then None else Some(Flip(peer.env))
  }

  /** An IKE rekey request that `l` has not answered, and could, is the one its peer awaits.
      If the peer has already moved on, it gave that request up to a larger nonce of ours. */
  ghost predicate Unsettled(cfg: Config, l: Line, peer: Line, net: set<Frame>) {
    forall g :: g in net && IkeRequest(g) && Opens(l.env, g) && New(l, g.messageId) ==>
      if peer.env == Flip(l.env) then Takable(cfg, g) ==> peer.awaited == Some(g)
      else && l.ike.Some? && FirstNonce(g.inner).Some?
           && DecideCollision(l.ike.value.ni, FirstNonce(g.inner).value) != WeLose
  }

  ghost predicate Good(cfg: Config, c: Crypto, e: End, peer: End, net: set<Frame>) {
    && Proper(cfg, c, e.line) && Numbers(e.line, net) && Asked(e.line, net) && Heard(e.line, net) && Polite(e.line, net)
    && Kept(e, net) && (e.retained.Some? ==> Apart(e.line.env, e.retained.value.env))
    && (e.line.ike.Some? ==> e.retained.None?)
    && Settled(cfg, c, e.line, peer.line, net) && Unsettled(cfg, e.line, peer.line, net)
    && Offering(cfg, c, e.line, net)
  }

  /** `x` accepted the rekey that `y` still awaits the answer to. Nobody has used the new
      SA towards `x`, and `x` has sent nothing but keepalives on it. */
  ghost predicate Ahead(x: End, y: End, net: set<Frame>) {
    && x.retained.Some? && y.line.env == Flip(x.retained.value.env) && y.line.ike.Some? && x.line.ike.None?
    && !x.retained.value.hasExpected
    && forall f :: f in net ==>
      f.sealedWith != InboundHalves(x.line.env) && (f.sealedWith == OutboundHalves(x.line.env) ==> Keepalive(f))
  }

  ghost predicate InStep(x: End, y: End) {
    y.line.env == Flip(x.line.env)
  }

  ghost predicate Agreement(cx: Config, cy: Config, c: Crypto, x: End, y: End, net: set<Frame>) {
    && Good(cx, c, x, y, net) && Good(cy, c, y, x, net)
    && (InStep(x, y) || Ahead(x, y, net) || Ahead(y, x, net))
  }

  // ---- What `x` may do ----

  ghost predicate Repeats(e: End, tx: seq<Frame>) {
    || tx == []
    || (e.line.awaited.Some? && tx == [e.line.awaited.value])
    || (exists r :: r in e.line.history && tx == r.packets)
    || (e.retained.Some? && e.retained.value.outbound.Some? && tx == e.retained.value.outbound.value.packets)
    || (e.retained.Some? && exists r :: r in e.retained.value.history && tx == r.packets)
  }

  ghost predicate Idles(e: End, tx: seq<Frame>, n: End) {
    && n.line == e.line && Repeats(e, tx)
    && n.retained.Some? == e.retained.Some?
    && (e.retained.Some? ==> SameRetained(e.retained.value, n.retained.value))
  }

  ghost predicate SameRetained(a: OldIke, b: OldIke) {
    && b.env == a.env && b.history == a.history && (b.outbound == a.outbound || b.outbound.None?)
    && (b.hasExpected ==> a.hasExpected)
  }

  function OldReply(prior: OldIke, f: Frame): Frame {
    Seal(prior.env, Informational, f.messageId, true, [])
  }

  /** A packet for the retained SA: it is answered, or it closes that SA, or both. */
  ghost predicate ServesOld(e: End, f: Frame, tx: seq<Frame>, n: End) {
    && n.line == e.line && e.retained.Some? && Opens(e.retained.value.env, f)
    && (tx != [] ==> !f.response && f.exchange == Informational && tx == [OldReply(e.retained.value, f)])
    && (if n.retained.None? then (if f.response then e.retained.value.hasExpected else AsksIkeDelete(f.inner))
        else && tx != []
             && n.retained.value
                == e.retained.value.(history := e.retained.value.history + [CachedResponse(f.messageId, tx)]))
  }

  /** A new request. */
  ghost predicate Requests(cfg: Config, c: Crypto, e: End, tx: seq<Frame>, n: End) {
    && e.line.awaited.None? && n.retained == e.retained && |tx| == 1
    && tx[0] == Seal(e.line.env, tx[0].exchange, e.line.nextId, false, tx[0].inner) && !AsksIkeDelete(tx[0].inner)
    && n.line == e.line.(nextId := (e.line.nextId + 1) % U32_LIMIT, awaited := Some(tx[0]), ike := n.line.ike)
    && (n.line.ike.Some? ==> e.retained.None? && Asks(cfg, c, n.line.ike.value, tx[0]))
    && (IkeRequest(tx[0]) ==> n.line.ike.Some?) && (e.retained.Some? ==> Keepalive(tx[0]))
  }

  ghost predicate Matches(l: Line, f: Frame) {
    f.response && Opens(l.env, f) && l.awaited.Some? && f.messageId == l.awaited.value.messageId
  }

  /** An answer arrived, and it starts no new SA. */
  ghost predicate Hears(cfg: Config, c: Crypto, e: End, f: Frame, n: End) {
    && Matches(e.line, f) && n.retained == e.retained && n.line == e.line.(awaited := None, ike := None)
    && (e.line.ike.Some? ==> RekeyResult(cfg, c, e.line.env, e.line.ike.value, f.inner).None?)
  }

  /** A request other than an IKE rekey is given up. */
  ghost predicate GivesUp(e: End, n: End) {
    e.line.ike.None? && e.line.awaited.Some? && n == e.(line := e.line.(awaited := None))
  }

  /** A request is answered. An IKE rekey request is refused. */
  ghost predicate Answers(e: End, f: Frame, tx: seq<Frame>, n: End) {
    && !f.response && Opens(e.line.env, f) && New(e.line, f.messageId) && n.retained == e.retained && |tx| == 1
    && tx[0] == Seal(e.line.env, tx[0].exchange, f.messageId, true, tx[0].inner)
    && n.line == e.line.(history := Trim(e.line.history + [CachedResponse(f.messageId, tx)]))
    && (IkeRequest(f) ==> NoSa(tx[0].inner))
  }

  /** An IKE rekey request is accepted: the answer goes out under the old keys. */
  ghost predicate Accepts(cfg: Config, c: Crypto, e: End, f: Frame, fr: Fresh, tx: seq<Frame>, n: End) {
    && IkeRequest(f) && Opens(e.line.env, f) && New(e.line, f.messageId) && e.retained.None?
    && (e.line.ike.Some? ==>
        FirstNonce(f.inner).Some? && DecideCollision(e.line.ike.value.ni, FirstNonce(f.inner).value) == WeLose)
    && ParsePeerIke(f.inner).Some?
    && var req := ParsePeerIke(f.inner).value;
       && SelectPeerIke(cfg, req.sa, fr.ikeSpi).Some? && c.agree(fr.dh, req.ke).Some?
       && var choice := SelectPeerIke(cfg, req.sa, fr.ikeSpi).value;
          && RekeyedEnvelope(c, e.line.env, c.agree(fr.dh, req.ke).value, req.ni, fr.nonce, choice.peerSpi, fr.ikeSpi,
                             false, choice.selection)
             == Some(n.line.env)
          && tx == [Seal(e.line.env, CreateChildSa, f.messageId, true,
                         [SaPayload(choice.echo), NoncePayload(fr.nonce), KePayload(CURVE25519, c.publicKey(fr.dh))])]
          && n.line == Line(n.line.env, 0, None, [], None)
          && n.retained.Some? && n.retained.value.env == e.line.env && !n.retained.value.hasExpected
          && n.retained.value.outbound.None?
          && n.retained.value.history == e.line.history + [CachedResponse(f.messageId, tx)]
  }

  /** The awaited answer starts the new SA; the old one is asked to be deleted. */
  ghost predicate Finishes(cfg: Config, c: Crypto, e: End, f: Frame, tx: seq<Frame>, n: End) {
    && Matches(e.line, f) && e.line.ike.Some? && e.retained.None?
    && RekeyResult(cfg, c, e.line.env, e.line.ike.value, f.inner) == Some(n.line.env)
    && n.line == Line(n.line.env, 0, None, [], None)
    && n.retained.Some? && n.retained.value.env == e.line.env && n.retained.value.history == e.line.history
    && |tx| == 1 && tx[0] == Seal(e.line.env, Informational, e.line.nextId, false, tx[0].inner)
    && n.retained.value.outbound == Some(Checkpoint(e.line.nextId, tx))
  }

  // ---- What each of these keeps ----

  function Grow(net: set<Frame>, tx: seq<Frame>): set<Frame> {
    net + set t | t in tx
  }

  lemma GrowOne(net: set<Frame>, t: Frame)
    ensures Grow(net, [t]) == net + {t}
  {
  }

  /** A frame under neither key half of an end's current SA does not concern it. */
  lemma Elsewhere(cfg: Config, c: Crypto, e: End, peer: End, net: set<Frame>, t: Frame)
    requires Good(cfg, c, e, peer, net) && t.sealedWith != OutboundHalves(e.line.env)
    requires t.sealedWith != InboundHalves(e.line.env)
    ensures Good(cfg, c, e, peer, net + {t})
  {
    hide RekeyResult, DecideCollision, FirstNonce, Asks;
  }

  /** What the peer awaits on an SA that is not ours does not concern us. */
  lemma PeerMoves(cfg: Config, c: Crypto, e: End, peer: End, net: set<Frame>, n: End)
    requires Good(cfg, c, e, peer, net) && n.line.env == peer.line.env
    requires n.line.awaited == peer.line.awaited || !InStep(e, peer)
    ensures Good(cfg, c, e, n, net)
  {
    hide RekeyResult, DecideCollision, FirstNonce, Asks;
    FlipTwice(e.line.env, peer.line.env);
  }

  lemma FlipTwice(a: Envelope, b: Envelope)
    ensures a == Flip(b) <==> b == Flip(a)
    ensures OutboundHalves(Flip(a)) == InboundHalves(a) && InboundHalves(Flip(a)) == OutboundHalves(a)
  {
  }

  lemma NothingNew(e: End, net: set<Frame>, tx: seq<Frame>)
    requires Kept(e, net) && Repeats(e, tx)
    ensures Grow(net, tx) == net
  {
    forall t | t in tx ensures t in net {
      if exists r :: r in e.line.history && tx == r.packets {
        var r :| r in e.line.history && tx == r.packets;
        var i :| 0 <= i < |e.line.history| && e.line.history[i] == r;
      } else if e.retained.Some? && exists r :: r in e.retained.value.history && tx == r.packets {
        var r :| r in e.retained.value.history && tx == r.packets;
        var i :| 0 <= i < |e.retained.value.history| && e.retained.value.history[i] == r;
      }
    }
  }

  lemma IdleKeeps(cx: Config, cy: Config, c: Crypto, x: End, y: End, net: set<Frame>, tx: seq<Frame>, n: End)
    requires Agreement(cx, cy, c, x, y, net) && Idles(x, tx, n)
    ensures Agreement(cx, cy, c, n, y, Grow(net, tx))
  {
    hide RekeyResult, DecideCollision, FirstNonce, Asks;
    NothingNew(x, net, tx);
  }

  /** `e` remembers one more answer on the SA it retains, or drops that SA. */
  lemma RetainedChanges(cfg: Config, c: Crypto, e: End, peer: End, net: set<Frame>, n: End)
    requires Good(cfg, c, e, peer, net) && n.line == e.line && e.retained.Some?
    requires n.retained.Some? ==>
      && n.retained.value.env == e.retained.value.env && n.retained.value.outbound == e.retained.value.outbound
                                  && Sent(n.retained.value.history, net)
    ensures Good(cfg, c, n, peer, net)
  {
    hide Numbers, Asked, Heard, Polite, Settled, Unsettled, Proper;
  }

  /** The retained SA's answer reaches a peer that still lives on it. */
  lemma OldReplyReaches(cy: Config, c: Crypto, x: End, y: End, net: set<Frame>, f: Frame, t: Frame)
    requires Good(cy, c, y, x, net) && Ahead(x, y, net) && f in net && !f.response && f.exchange == Informational
    requires Opens(x.retained.value.env, f) && t == OldReply(x.retained.value, f)
    requires OutboundHalves(y.line.env) != InboundHalves(y.line.env)
    ensures Good(cy, c, y, x, net + {t})
  {
    hide RekeyResult, DecideCollision, FirstNonce, IkeOffer;
    FlipTwice(y.line.env, x.retained.value.env);
  }

  lemma ServeOldKeeps(cx: Config, cy: Config, c: Crypto, x: End, y: End, net: set<Frame>, f: Frame, tx: seq<Frame>,
                      n: End)
    requires Agreement(cx, cy, c, x, y, net) && f in net && ServesOld(x, f, tx, n)
    ensures Agreement(cx, cy, c, n, y, Grow(net, tx))
  {
    hide RekeyResult, DecideCollision, FirstNonce, Asks, Asked, Heard, Polite, Settled, Unsettled;
    FlipTwice(x.line.env, y.line.env);
    FlipTwice(y.line.env, x.retained.value.env);
    if tx == [] {
      assert Grow(net, tx) == net;
      RetainedChanges(cx, c, x, y, net, n);
    } else {
      var t := tx[0];
      GrowOne(net, t);
      Elsewhere(cx, c, x, y, net, t);
      RetainedChanges(cx, c, x, y, net + {t}, n);
      if Ahead(x, y, net) {
        OldReplyReaches(cy, c, x, y, net, f, t);
      } else {
        Elsewhere(cy, c, y, x, net, t);
      }
    }
  }

  /** The sender's side of a new request. */
  lemma RequestLeaves(cfg: Config, c: Crypto, x: End, y: End, net: set<Frame>, t: Frame, n: End)
    requires Good(cfg, c, x, y, net) && Requests(cfg, c, x, [t], n) && x.line.nextId < U32_LIMIT - 1
    ensures Good(cfg, c, n, y, net + {t})
  {
    hide RekeyResult, DecideCollision, FirstNonce, IkeOffer;
  }

  /** The receiver's side. */
  lemma RequestReaches(cx: Config, cy: Config, c: Crypto, x: End, y: End, net: set<Frame>, t: Frame, n: End)
    requires Good(cy, c, y, x, net) && Requests(cx, c, x, [t], n) && InStep(x, y)
    ensures Good(cy, c, y, n, net + {t})
  {
    hide RekeyResult, DecideCollision, FirstNonce, Asks;
    FlipTwice(x.line.env, y.line.env);
  }

  lemma RequestKeeps(cx: Config, cy: Config, c: Crypto, x: End, y: End, net: set<Frame>, tx: seq<Frame>, n: End)
    requires Agreement(cx, cy, c, x, y, net) && Requests(cx, c, x, tx, n) && x.line.nextId < U32_LIMIT - 1
    ensures Agreement(cx, cy, c, n, y, Grow(net, tx))
  {
    hide RekeyResult, DecideCollision, FirstNonce, Asks, Asked, Heard, Polite, Settled, Unsettled, Numbers;
    var t := tx[0];
    assert tx == [t];
    GrowOne(net, t);
    FlipTwice(x.line.env, y.line.env);
    RequestLeaves(cx, c, x, y, net, t, n);
    if InStep(x, y) { RequestReaches(cx, cy, c, x, y, net, t, n); }
    else { Elsewhere(cy, c, y, x, net, t); PeerMoves(cy, c, y, x, net + {t}, n); }
  }

  lemma HearKeeps(cx: Config, cy: Config, c: Crypto, x: End, y: End, net: set<Frame>, f: Frame, n: End)
    requires Agreement(cx, cy, c, x, y, net) && f in net && Hears(cx, c, x, f, n)
    ensures Agreement(cx, cy, c, n, y, net)
  {
    hide RekeyResult, DecideCollision, FirstNonce, Asks;
    FlipTwice(x.line.env, y.line.env);
  }

  ghost predicate NoSa(inner: seq<Payload>) {
    forall p :: p in inner ==> !p.SaPayload?
  }

  lemma {:induction false} NoSaParts(rules: Rules, acc: Parts, inner: seq<Payload>)
    requires acc.sa.None? && NoSa(inner)
    ensures TakeParts(rules, acc, inner).Some? ==> TakeParts(rules, acc, inner).value.sa.None?
    decreases |inner|
  {
    if inner != [] && TakePart(rules, acc, inner[0]).Some? {
      assert inner[0] in inner;
      NoSaParts(rules, TakePart(rules, acc, inner[0]).value, inner[1..]);
    }
  }

  /** A message without an SA payload starts no new SA. */
  lemma RefusalSettles(cfg: Config, c: Crypto, env: Envelope, rc: RekeyContext, inner: seq<Payload>)
    requires NoSa(inner)
    ensures RekeyResult(cfg, c, env, rc, inner).None?
  {
    NoSaParts(IKE_RESPONSE, NO_PARTS, inner);
  }

  /** The responder's side of an answer. */
  lemma AnswerLeaves(cfg: Config, c: Crypto, x: End, y: End, net: set<Frame>, f: Frame, t: Frame, n: End)
    requires Good(cfg, c, x, y, net) && Answers(x, f, [t], n)
    ensures Good(cfg, c, n, y, net + {t})
  {
    hide RekeyResult, DecideCollision, FirstNonce, IkeOffer;
    assert forall r :: r in n.line.history ==> r in x.line.history || r == CachedResponse(f.messageId, [t]);
  }

  /** The requester's side: an IKE rekey it awaits was refused. */
  lemma AnswerReaches(cfg: Config, c: Crypto, x: End, y: End, net: set<Frame>, f: Frame, t: Frame, n: End)
    requires Good(cfg, c, y, x, net) && f in net && Answers(x, f, [t], n) && InStep(x, y)
    ensures Good(cfg, c, y, x, net + {t})
  {
    hide RekeyResult, DecideCollision, FirstNonce, IkeOffer;
    FlipTwice(x.line.env, y.line.env);
    if y.line.ike.Some? && f == y.line.awaited.value && IkeRequest(f) {
      RefusalSettles(cfg, c, y.line.env, y.line.ike.value, t.inner);
    }
  }

  lemma GiveUpKeeps(cx: Config, cy: Config, c: Crypto, x: End, y: End, net: set<Frame>, n: End)
    requires Agreement(cx, cy, c, x, y, net) && GivesUp(x, n)
    ensures Agreement(cx, cy, c, n, y, net)
  {
    hide RekeyResult, DecideCollision, FirstNonce, Asks;
  }

  /** Our IKE rekey loses to one that offers nothing we could choose. */
  ghost predicate Yields(cfg: Config, e: End, f: Frame, n: End) {
    && IkeRequest(f) && Opens(e.line.env, f) && New(e.line, f.messageId) && !Takable(cfg, f)
    && e.line.ike.Some? && FirstNonce(f.inner).Some?
    && DecideCollision(e.line.ike.value.ni, FirstNonce(f.inner).value) == WeLose
    && n == e.(line := e.line.(awaited := None, ike := None))
  }

  lemma OfferTakable(cx: Config, cy: Config, c: Crypto, g: Frame)
    requires Ideal(c) && IsOffer(cy, c, g)
    ensures CanOffer(cy) && (Takable(cx, g) <==> SomeSuite(cx.ike, cy.ike))
  {
    hide SelectPeerIke, IkeOffer, ParsePeerIke, FirstNonce, CanOffer, SomeSuite;
    var rc :| Asks(cy, c, rc, g);
    RequestRead(cy, c, rc, g);
    OfferAccepted(cx, cy, rc.newInitiatorSpi, 0);
  }

  /** Then the other end could not have chosen from our offer either, and it is as good as gone. */
  lemma YieldKeeps(cx: Config, cy: Config, c: Crypto, x: End, y: End, net: set<Frame>, f: Frame, n: End)
    requires Agreement(cx, cy, c, x, y, net) && f in net && Yields(cx, x, f, n) && Ideal(c) && Balanced(cx, cy)
    ensures Agreement(cx, cy, c, n, y, net)
  {
    hide RekeyResult, DecideCollision, FirstNonce, IkeOffer, Takable, CanOffer, SomeSuite;
    FlipTwice(x.line.env, y.line.env);
    OfferTakable(cx, cy, c, f);
    assert IsOffer(cx, c, x.line.awaited.value);
    OfferTakable(cy, cx, c, x.line.awaited.value);
  }

  lemma AnswerKeeps(cx: Config, cy: Config, c: Crypto, x: End, y: End, net: set<Frame>, f: Frame, tx: seq<Frame>,
                    n: End)
    requires Agreement(cx, cy, c, x, y, net) && f in net && Answers(x, f, tx, n)
    ensures Agreement(cx, cy, c, n, y, Grow(net, tx))
  {
    hide RekeyResult, DecideCollision, FirstNonce, Asks, Asked, Heard, Polite, Settled, Unsettled, Numbers;
    var t := tx[0];
    assert tx == [t];
    GrowOne(net, t);
    FlipTwice(x.line.env, y.line.env);
    AnswerLeaves(cx, c, x, y, net, f, t, n);
    if InStep(x, y) { AnswerReaches(cy, c, x, y, net, f, t, n); }
    else { Elsewhere(cy, c, y, x, net, t); }
    PeerMoves(cy, c, y, x, net + {t}, n);
  }

  // ---- Moving to a new SA ----

  lemma TakesThree(rules: Rules, sa: W.SA, nonce: bytes, ke: bytes, inner: seq<Payload>)
    requires nonce != [] && ke != [] && inner == [SaPayload(sa), NoncePayload(nonce), KePayload(CURVE25519, ke)]
    ensures TakeParts(rules, NO_PARTS, inner) == Some(Parts(Some(sa), Some(nonce), Some(ke), [], []))
  {
    var p1 := NO_PARTS.(sa := Some(sa));
    var p2 := p1.(nonce := Some(nonce));
    assert inner[1..] == [NoncePayload(nonce), KePayload(CURVE25519, ke)] &&
      inner[1..][1..] == [KePayload(CURVE25519, ke)];
    assert TakeParts(rules, NO_PARTS, inner) == TakeParts(rules, p1, inner[1..]);
    assert TakeParts(rules, p1, inner[1..]) == TakeParts(rules, p2, inner[1..][1..]);
    var p3 := p2.(ke := Some(ke));
    assert inner[1..][1..][1..] == [];
    assert TakeParts(rules, p2, inner[1..][1..]) == TakeParts(rules, p3, []);
  }

  /** The payloads of a request, as the responder reads them. */
  lemma RequestRead(cfg: Config, c: Crypto, rc: RekeyContext, q: Frame)
    requires Ideal(c) && Asks(cfg, c, rc, q)
    ensures ParsePeerIke(q.inner) ==
      Some(PeerIkeRequest(IkeOffer(cfg, rc.newInitiatorSpi).value, rc.ni, c.publicKey(rc.dh.value)))
    ensures FirstNonce(q.inner) == Some(rc.ni)
  {
    hide IkeOffer;
    assert |c.publicKey(rc.dh.value)| == 32;
    TakesThree(IKE_REQUEST, IkeOffer(cfg, rc.newInitiatorSpi).value, rc.ni, c.publicKey(rc.dh.value), q.inner);
    assert q.inner[1..][0] == NoncePayload(rc.ni);
  }

  lemma ResponseRead(cfg: Config, echo: W.SA, nr: bytes, ke: bytes)
    requires nr != [] && ke != [] && |echo.proposals| == 1
    ensures ParseIkeResponse(cfg, [SaPayload(echo), NoncePayload(nr), KePayload(CURVE25519, ke)])
         == match DecodeIke(cfg, echo) case None => None case Some((spi, sel)) => Some(IkeResponse(sel, spi, nr, ke))
  {
    hide DecodeIke;
    TakesThree(IKE_RESPONSE, echo, nr, ke, [SaPayload(echo), NoncePayload(nr), KePayload(CURVE25519, ke)]);
  }

  /** Offer, choice, echo and decoding agree, and so do the two key derivations: the seven keys use up
      prf+ under the hash of the new shared secret and both nonces, keyed with the old SK_d (section
      2.18 of RFC 7296), and the requester sends with the i-halves. */
  lemma BothDerive(cx: Config, cy: Config, c: Crypto, env: Envelope, rc: RekeyContext, q: Frame, fr: Fresh,
                   choice: IkeChoice, next: Envelope)
    requires Ideal(c) && Understands(cy, cx) && Asks(cy, c, rc, q) && fr.nonce != []
    requires SelectPeerIke(cx, IkeOffer(cy, rc.newInitiatorSpi).value, fr.ikeSpi) == Some(choice)
    requires c.agree(fr.dh, c.publicKey(rc.dh.value)).Some?
    requires RekeyedEnvelope(c, env, c.agree(fr.dh, c.publicKey(rc.dh.value)).value, rc.ni, fr.nonce, choice.peerSpi,
                             fr.ikeSpi, false, choice.selection)
             == Some(next)
    ensures RekeyResult(cy, c, Flip(env), rc,
                        [SaPayload(choice.echo), NoncePayload(fr.nonce), KePayload(CURVE25519, c.publicKey(fr.dh))])
            == Some(Flip(next))
    ensures next.spiI == rc.newInitiatorSpi && next.spiR == fr.ikeSpi && next.selected == choice.selection
    ensures var k, sel := next.keys, choice.selection;
            var shared := c.agree(rc.dh.value, c.publicKey(fr.dh)).value;
            Some(k.skd + k.skai + k.skar + k.skei + k.sker + k.skpi + k.skpr)
            == PrfPlus(c, sel.prf, c.hmac(env.selected.prf.transformId, env.keys.skd, shared + rc.ni + fr.nonce),
                       rc.ni + fr.nonce + Put64(rc.newInitiatorSpi) + Put64(fr.ikeSpi),
                       3 * sel.prf.outputLen + 2 * sel.integrity.keyLen + 2 * sel.encryption.keyLen)
    ensures OutboundHalves(Flip(next)) == InboundHalves(next) == KeyHalves(next.keys.skei, next.keys.skai)
    ensures OutboundHalves(next) == InboundHalves(Flip(next)) == KeyHalves(next.keys.sker, next.keys.skar)
  {
    hide IkeOffer, SelectPeerIke, DecodeIke, ParseIkeResponse, DeriveIkeKeys, Understands, PrfPlus, Put64;
    EchoUnderstood(cy, cx, rc.newInitiatorSpi, fr.ikeSpi, IkeOffer(cy, rc.newInitiatorSpi).value, choice);
    ResponseRead(cy, choice.echo, fr.nonce, c.publicKey(fr.dh));
    var sel := choice.selection;
    var seed := c.hmac(env.selected.prf.transformId, env.keys.skd,
                       c.agree(rc.dh.value, c.publicKey(fr.dh)).value + rc.ni + fr.nonce);
    IkeKeysPartition(c, sel.prf, seed, rc.ni, fr.nonce, rc.newInitiatorSpi, fr.ikeSpi, sel.encryption, sel.integrity,
                     Some(next.keys));
  }

  ghost predicate Unused(env: Envelope, x: End, net: set<Frame>) {
    && OutboundHalves(env) != InboundHalves(env) && Apart(env, x.line.env)
    && forall f :: f in net ==> f.sealedWith != OutboundHalves(env) && f.sealedWith != InboundHalves(env)
  }

  /** An accepted request is the one the peer awaits, and the answer takes it to the new SA. */
  lemma AcceptAgrees(cx: Config, cy: Config, c: Crypto, x: End, y: End, net: set<Frame>, f: Frame, fr: Fresh, t: Frame,
                     n: End)
    requires Agreement(cx, cy, c, x, y, net) && f in net && Accepts(cx, c, x, f, fr, [t], n)
    requires Ideal(c) && Understands(cy, cx) && fr.nonce != []
    ensures InStep(x, y) && y.line.awaited == Some(f) && y.line.ike.Some?
    ensures RekeyResult(cy, c, y.line.env, y.line.ike.value, t.inner) == Some(Flip(n.line.env))
  {
    hide RekeyResult, DecideCollision, FirstNonce, RekeyedEnvelope, SelectPeerIke, ParsePeerIke, IkeOffer;
    FlipTwice(x.line.env, y.line.env);
    AnySpi(cx, ParsePeerIke(f.inner).value.sa, fr.ikeSpi, 0);
    RequestRead(cy, c, y.line.ike.value, f);
    BothDerive(cx, cy, c, x.line.env, y.line.ike.value, f, fr,
               SelectPeerIke(cx, IkeOffer(cy, y.line.ike.value.newInitiatorSpi).value, fr.ikeSpi).value, n.line.env);
  }

  /** The acceptor's side: the new SA is blank. */
  lemma AcceptLeaves(cx: Config, c: Crypto, x: End, y: End, net: set<Frame>, f: Frame, fr: Fresh, t: Frame, n: End)
    requires Good(cx, c, x, y, net) && Accepts(cx, c, x, f, fr, [t], n) && Unused(n.line.env, x, net)
    ensures Good(cx, c, n, y, net + {t})
  {
    hide RekeyResult, DecideCollision, FirstNonce, RekeyedEnvelope, SelectPeerIke, ParsePeerIke, IkeOffer;
  }

  /** What the acceptor gives up lost to the peer's nonce. */
  lemma LoserRefused(cx: Config, cy: Config, c: Crypto, x: End, y: End, f: Frame)
    requires Ideal(c) && x.line.ike.Some? && x.line.awaited.Some? && Asks(cx, c, x.line.ike.value, x.line.awaited.value)
    requires y.line.ike.Some? && Asks(cy, c, y.line.ike.value, f)
    requires FirstNonce(f.inner).Some? && DecideCollision(x.line.ike.value.ni, FirstNonce(f.inner).value) == WeLose
    ensures FirstNonce(x.line.awaited.value.inner).Some?
    ensures DecideCollision(y.line.ike.value.ni, FirstNonce(x.line.awaited.value.inner).value) != WeLose
  {
    hide IkeOffer, DecideCollision, FirstNonce, ParsePeerIke;
    RequestRead(cy, c, y.line.ike.value, f);
    RequestRead(cx, c, x.line.ike.value, x.line.awaited.value);
    CollisionDecides(x.line.ike.value.ni, y.line.ike.value.ni);
  }

  lemma AcceptReaches(cx: Config, cy: Config, c: Crypto, x: End, y: End, net: set<Frame>, f: Frame, fr: Fresh,
                      t: Frame, n: End)
    requires Good(cx, c, x, y, net) && Good(cy, c, y, x, net) && Accepts(cx, c, x, f, fr, [t], n)
    requires Unused(n.line.env, x, net)
    requires Ideal(c) && Balanced(cx, cy) && InStep(x, y) && f in net && y.line.awaited == Some(f) && y.line.ike.Some?
    requires RekeyResult(cy, c, y.line.env, y.line.ike.value, t.inner) == Some(Flip(n.line.env))
    ensures Good(cy, c, y, n, net + {t})
  {
    hide RekeyResult, DecideCollision, FirstNonce, RekeyedEnvelope, SelectPeerIke, ParsePeerIke, IkeOffer, SomeSuite,
         CanOffer;
    FlipTwice(x.line.env, y.line.env);
    if x.line.ike.Some? { LoserRefused(cx, cy, c, x, y, f); }
    AnySpi(cx, ParsePeerIke(f.inner).value.sa, fr.ikeSpi, 0);
    assert IsOffer(cy, c, f);
    OfferTakable(cx, cy, c, f);
    forall g | g in net && IkeRequest(g) && g.sealedWith == OutboundHalves(x.line.env) ensures Takable(cy, g) {
      OfferTakable(cy, cx, c, g);
    }
  }

  lemma AcceptKeeps(cx: Config, cy: Config, c: Crypto, x: End, y: End, net: set<Frame>, f: Frame, fr: Fresh,
                    tx: seq<Frame>, n: End)
    requires Agreement(cx, cy, c, x, y, net) && f in net && Accepts(cx, c, x, f, fr, tx, n)
    requires Ideal(c) && Understands(cy, cx) && Balanced(cx, cy) && fr.nonce != [] && Unused(n.line.env, x, net)
    ensures Agreement(cx, cy, c, n, y, Grow(net, tx)) && Ahead(n, y, Grow(net, tx))
  {
    hide RekeyResult, DecideCollision, FirstNonce, RekeyedEnvelope, SelectPeerIke, ParsePeerIke, Asks, Good;
    var t := tx[0];
    assert tx == [t];
    GrowOne(net, t);
    FlipTwice(x.line.env, y.line.env);
    AcceptAgrees(cx, cy, c, x, y, net, f, fr, t, n);
    AcceptLeaves(cx, c, x, y, net, f, fr, t, n);
    AcceptReaches(cx, cy, c, x, y, net, f, fr, t, n);
  }

  // ---- The requester follows ----

  lemma FinishFollows(cx: Config, cy: Config, c: Crypto, x: End, y: End, net: set<Frame>, f: Frame, tx: seq<Frame>,
                      n: End)
    requires Agreement(cx, cy, c, x, y, net) && f in net && Finishes(cx, c, x, f, tx, n)
    ensures Ahead(y, x, net) && n.line.env == Flip(y.line.env)
  {
    hide RekeyResult, DecideCollision, FirstNonce, Asks;
    FlipTwice(x.line.env, y.line.env);
  }

  lemma FinishKeeps(cx: Config, cy: Config, c: Crypto, x: End, y: End, net: set<Frame>, f: Frame, tx: seq<Frame>,
                    n: End)
    requires Agreement(cx, cy, c, x, y, net) && f in net && Finishes(cx, c, x, f, tx, n)
    ensures Agreement(cx, cy, c, n, y, Grow(net, tx)) && InStep(n, y)
  {
    hide RekeyResult, DecideCollision, FirstNonce, Asks;
    var t := tx[0];
    assert tx == [t];
    GrowOne(net, t);
    FinishFollows(cx, cy, c, x, y, net, f, tx, n);
    FlipTwice(n.line.env, y.line.env);
    FlipTwice(x.line.env, y.retained.value.env);
    FinishLeaves(cx, cy, c, x, y, net, t, n);
    Elsewhere(cy, c, y, x, net, t);
    FinishReaches(cy, c, x, y, net + {t}, n);
  }

  lemma FinishLeaves(cx: Config, cy: Config, c: Crypto, x: End, y: End, net: set<Frame>, t: Frame, n: End)
    requires Good(cx, c, x, y, net) && Good(cy, c, y, x, net) && Ahead(y, x, net) && InStep(n, y)
    requires n.line == Line(n.line.env, 0, None, [], None) && t.sealedWith == OutboundHalves(x.line.env)
    requires n.retained.Some? && n.retained.value.env == x.line.env && n.retained.value.history == x.line.history
    requires n.retained.value.outbound.Some? && n.retained.value.outbound.value.packets == [t]
    ensures Good(cx, c, n, y, net + {t})
  {
    hide RekeyResult, DecideCollision, FirstNonce, Asks;
    FlipTwice(n.line.env, y.line.env);
    FlipTwice(x.line.env, y.retained.value.env);
  }

  lemma FinishReaches(cy: Config, c: Crypto, x: End, y: End, net: set<Frame>, n: End)
    requires Good(cy, c, y, x, net) && y.line.ike.None? && (forall f :: f in net ==> !Opens(y.line.env, f))
    ensures Good(cy, c, y, n, net)
  {
    hide RekeyResult, DecideCollision, FirstNonce, Asks;
  }
}
