/** The children of two endpoints: what each end serves, which rekey it awaits, and what
    the frames on the network can still do to it. */
module ChildTalk {
  import opened Bytes
  import opened Suite
  import opened Keying
  import opened Negotiation
  import opened ChildNegotiation
  import opened Offers
  import opened IkeState
  import opened RekeyExchange
  import opened RunningSpec
  import opened Dataplane
  import opened IkeTalk
  import W = SaPayload

  /** An end, the child it serves and the child rekey it awaits. */
  datatype Kid = Kid(end: End, active: ChildSA, rc: Option<RekeyContext>)

  predicate ChildRequest(f: Frame) {
    !f.response && f.exchange == CreateChildSa && HasSelectors(f.inner)
  }

  /** The child the requester of a rekey makes of an answer, if any. */
  function ChildResult(cfg: Config, c: Crypto, env: Envelope, rc: RekeyContext, inner: seq<Payload>): Option<ChildSA> {
    match ParseChildResponse(cfg, env.selected, inner)
    case None => None
    case Some(r) =>
      if rc.oldChild.None? || r.tsi != rc.oldChild.value.tsi || r.tsr != rc.oldChild.value.tsr
         || ChildRekeyKeys(c, cfg.childPfs, env, rc, r).None? then None
      else Some(ChildSA(rc.newInboundSpi, r.peerSpi, r.tsi, r.tsr, true))
  }

  /** The SPI an INFORMATIONAL request asks to delete. */
  function DeletedSpi(inner: seq<Payload>): Option<u32> {
    if |inner| == 1 && inner[0].DeletePayload? && inner[0].protocolId == W.PROTOCOL_ESP && |inner[0].spis| == 1
    then Some(inner[0].spis[0]) else None
  }

  // ---- What holds of one end ----

  /** The request of a child rekey carries what its context remembers. */
  ghost predicate AsksChild(cfg: Config, c: Crypto, active: ChildSA, rc: RekeyContext, q: Frame) {
    && rc.oldChild == Some(active) && |rc.ni| == 32 && (cfg.childPfs ==> rc.dh.Some?) && ChildRequest(q)
    && ChildRekeyRequest(cfg, c, active,
                         Fresh(rc.newInboundSpi, 0, rc.ni, if rc.dh.Some? then rc.dh.value else 0, true)) ==
                           Some(q.inner)
  }

  ghost predicate IsChildOffer(cfg: Config, c: Crypto, q: Frame) {
    exists active, rc :: AsksChild(cfg, c, active, rc, q)
  }

  /** A child rekey request from which this end can choose a suite. */
  predicate TakableChild(cfg: Config, q: Frame) {
    ParsePeerChild(q.inner).Some?
    && SelectPeerEsp(cfg, ParsePeerChild(q.inner).value.sa, 0, ParsePeerChild(q.inner).value.ke.Some?).Some?
  }

  ghost predicate Awaits(cfg: Config, c: Crypto, k: Kid) {
    && (k.rc.Some? ==> k.end.line.ike.None? && k.end.retained.None? && k.end.line.awaited.Some?
                       && AsksChild(cfg, c, k.active, k.rc.value, k.end.line.awaited.value))
    && (k.end.line.awaited.Some? && ChildRequest(k.end.line.awaited.value) ==> k.rc.Some?)
  }

  ghost predicate Owns(k: Kid, own: set<u32>, theirs: set<u32>) {
    && k.active.inboundSpi in own && k.active.outboundSpi in theirs
    && (k.rc.Some? ==> k.rc.value.newInboundSpi in own && k.rc.value.newInboundSpi != k.active.inboundSpi)
  }

  /** An inbound SPI that `k` has left behind. */
  ghost predicate Past(k: Kid, spi: u32) {
    spi != k.active.inboundSpi && (k.rc.Some? ==> spi != k.rc.value.newInboundSpi)
  }

  /** No DELETE on the way to `k` names the child it serves. */
  ghost predicate Spared(k: Kid, peer: Kid, net: set<Frame>, theirs: set<u32>) {
    forall g :: g in net && !g.response && Opens(k.end.line.env, g) && DeletedSpi(g.inner).Some? ==>
      && DeletedSpi(g.inner).value in theirs && Past(peer, DeletedSpi(g.inner).value)
      && DeletedSpi(g.inner).value != k.active.outboundSpi
  }

  /** A request the peer gave up: it names a child the peer has left behind, and if that
      is the one `k` still serves, `k` awaits a rekey whose nonce beats the request's. */
  ghost predicate Lost(k: Kid, peer: Kid, theirs: set<u32>, inner: seq<Payload>) {
    && RekeyTarget(inner).Some? && RekeyTarget(inner).value in theirs && Past(peer, RekeyTarget(inner).value)
    && (RekeyTarget(inner).value == k.active.outboundSpi ==>
          k.rc.Some? && ParsePeerChild(inner).Some? &&
            DecideCollision(k.rc.value.ni, ParsePeerChild(inner).value.ni) != WeLose)
  }

  /** Every child rekey request offers what is configured. */
  ghost predicate OffersKids(cfg: Config, c: Crypto, l: Line, net: set<Frame>) {
    forall g :: g in net && ChildRequest(g) && g.sealedWith == OutboundHalves(l.env) ==> IsChildOffer(cfg, c, g)
  }

  /** A child rekey request that `k` has not answered, and could, is awaited by the peer or
      was given up. */
  ghost predicate Undecided(cfg: Config, k: Kid, peer: Kid, net: set<Frame>, theirs: set<u32>) {
    forall g :: && g in net && ChildRequest(g) && Opens(k.end.line.env, g) && New(k.end.line, g.messageId)
                && TakableChild(cfg, g) ==>
      (InStep(k.end, peer.end) && peer.end.line.awaited == Some(g)) || Lost(k, peer, theirs, g.inner)
  }

  /** An answer to the awaited rekey leads to the mirror of the child the peer moved to;
      as long as the peer has not moved, it is a refusal. */
  ghost predicate Decided(cfg: Config, c: Crypto, k: Kid, peer: Kid, net: set<Frame>) {
    forall f :: f in net && k.rc.Some? && Matches(k.end.line, f) ==>
      ChildResult(cfg, c, k.end.line.env, k.rc.value, f.inner)
      == if peer.active.outboundSpi == k.rc.value.newInboundSpi
         then Some(ChildSA(k.rc.value.newInboundSpi, peer.active.inboundSpi, k.active.tsi, k.active.tsr, true))
         else None
  }

  ghost predicate Sound(cfg: Config, c: Crypto, k: Kid, peer: Kid, net: set<Frame>, own: set<u32>, theirs: set<u32>) {
    && Awaits(cfg, c, k) && Owns(k, own, theirs) && Registered(k.end.line.env.selected.prf)
    && Spared(k, peer, net, theirs) && Undecided(cfg, k, peer, net, theirs) && Decided(cfg, c, k, peer, net)
    && OffersKids(cfg, c, k.end.line, net)
  }

  // ---- What holds between two ends ----

  ghost predicate Paired(a: ChildSA, b: ChildSA) {
    Mirrored(a, b) && a.localInitiator != b.localInitiator
  }

  /** `x` accepted the child rekey that `y` still awaits the answer to. */
  ghost predicate ChildAhead(x: Kid, y: Kid) {
    && y.rc.Some? && InStep(x.end, y.end) && y.end.line.awaited.Some?
    && !New(x.end.line, y.end.line.awaited.value.messageId)
    && x.active.outboundSpi == y.rc.value.newInboundSpi && !x.active.localInitiator
    && x.active.tsi == y.active.tsr && x.active.tsr == y.active.tsi
    && x.active.inboundSpi != y.active.outboundSpi && (x.rc.Some? ==> y.active.outboundSpi != x.rc.value.newInboundSpi)
  }

  ghost predicate Kinship(cx: Config, cy: Config, c: Crypto, x: Kid, y: Kid, net: set<Frame>, sx: set<u32>,
                          sy: set<u32>) {
    && sx !! sy && Sound(cx, c, x, y, net, sx, sy) && Sound(cy, c, y, x, net, sy, sx)
    && (Paired(x.active, y.active) || (ChildAhead(x, y) && TakesChild(cx, cy)) ||
        (ChildAhead(y, x) && TakesChild(cy, cx)))
  }

  ghost predicate Family(cx: Config, cy: Config, c: Crypto, x: Kid, y: Kid, net: set<Frame>, sx: set<u32>,
                         sy: set<u32>) {
    Agreement(cx, cy, c, x.end, y.end, net) && Kinship(cx, cy, c, x, y, net, sx, sy)
  }

  // ---- Steps that leave the children alone ----

  /** The peer's state on SAs and rekeys that are not ours does not concern us. */
  lemma PeerKeepsAside(cfg: Config, c: Crypto, k: Kid, peer: Kid, net: set<Frame>, own: set<u32>, theirs: set<u32>,
                       n: Kid)
    requires Sound(cfg, c, k, peer, net, own, theirs) && n.active == peer.active && n.rc == peer.rc
    requires n.end.line.env == peer.end.line.env
    requires n.end.line.awaited == peer.end.line.awaited
    ensures Sound(cfg, c, k, n, net, own, theirs)
  {
    hide ChildResult, TakableChild, TakesChild, DecideCollision, RekeyTarget, ParsePeerChild, DeletedSpi, HasSelectors,
         ChildRekeyRequest, Registered;
  }

  lemma RestKeeps(cx: Config, cy: Config, c: Crypto, x: Kid, y: Kid, net: set<Frame>, sx: set<u32>, sy: set<u32>,
                  tx: seq<Frame>, n: Kid)
    requires Family(cx, cy, c, x, y, net, sx, sy) && Idles(x.end, tx, n.end) && n.active == x.active && n.rc == x.rc
    ensures Kinship(cx, cy, c, n, y, Grow(net, tx), sx, sy)
  {
    hide ChildResult, TakableChild, TakesChild, DecideCollision, RekeyTarget, ParsePeerChild, DeletedSpi, HasSelectors,
         ChildRekeyRequest, Registered, RekeyResult, Asks, Numbers, Asked, Heard, Polite, Settled, Unsettled, Offering;
    NothingNew(x.end, net, tx);
    PeerKeepsAside(cy, c, y, x, net, sy, sx, n);
  }

  /** A frame under neither key half of its SA does not concern an end. */
  lemma AsideKid(cfg: Config, c: Crypto, k: Kid, peer: Kid, net: set<Frame>, own: set<u32>, theirs: set<u32>, t: Frame)
    requires Sound(cfg, c, k, peer, net, own, theirs)
    requires t.sealedWith != InboundHalves(k.end.line.env) && t.sealedWith != OutboundHalves(k.end.line.env)
    ensures Sound(cfg, c, k, peer, net + {t}, own, theirs)
  {
    hide ChildResult, TakableChild, TakesChild, DecideCollision, RekeyTarget, ParsePeerChild, DeletedSpi, HasSelectors,
         ChildRekeyRequest, Registered, IsChildOffer;
  }

  /** An answer on an SA that the peer is about to leave; no child rekey is out on it. */
  lemma OldReplyRests(cx: Config, cy: Config, c: Crypto, x: Kid, y: Kid, net: set<Frame>, sx: set<u32>, sy: set<u32>,
                      t: Frame)
    requires Sound(cy, c, y, x, net, sy, sx) && Ahead(x.end, y.end, net) && t.response
    ensures Sound(cy, c, y, x, net + {t}, sy, sx)
  {
    hide ChildResult, TakableChild, TakesChild, DecideCollision, RekeyTarget, ParsePeerChild, DeletedSpi, HasSelectors,
         ChildRekeyRequest, Registered, IsChildOffer;
  }

  lemma ServeOldRests(cx: Config, cy: Config, c: Crypto, x: Kid, y: Kid, net: set<Frame>, sx: set<u32>, sy: set<u32>,
                      f: Frame, tx: seq<Frame>, n: Kid)
    requires Family(cx, cy, c, x, y, net, sx, sy) && ServesOld(x.end, f, tx, n.end) && n.active == x.active
    requires n.rc == x.rc
    ensures Kinship(cx, cy, c, n, y, Grow(net, tx), sx, sy)
  {
    hide Sound, TakesChild, Proper, Numbers, Asked, Heard, Polite, Settled, Unsettled, Offering, Kept;
    FlipTwice(x.end.line.env, y.end.line.env);
    FlipTwice(y.end.line.env, x.end.retained.value.env);
    if tx == [] {
      assert Grow(net, tx) == net;
    } else {
      GrowOne(net, tx[0]);
      AsideKid(cx, c, x, y, net, sx, sy, tx[0]);
      if Ahead(x.end, y.end, net) { OldReplyRests(cx, cy, c, x, y, net, sx, sy, tx[0]); }
      else { AsideKid(cy, c, y, x, net, sy, sx, tx[0]); }
    }
    PeerKeepsAside(cy, c, y, x, Grow(net, tx), sy, sx, n);
    LineTells(cx, c, x, y, Grow(net, tx), sx, sy, n);
  }

  /** Only the line of an end counts here; if a child rekey is out it retains nothing. */
  lemma LineTells(cfg: Config, c: Crypto, x: Kid, y: Kid, net: set<Frame>, sx: set<u32>, sy: set<u32>, n: Kid)
    requires Sound(cfg, c, x, y, net, sx, sy) && n.end.line == x.end.line && n.active == x.active && n.rc == x.rc
    requires x.end.retained.None? ==> n.end.retained.None?
    ensures Sound(cfg, c, n, y, net, sx, sy)
  {
    hide ChildResult, TakableChild, TakesChild, DecideCollision, RekeyTarget, ParsePeerChild, DeletedSpi, HasSelectors,
         ChildRekeyRequest, Registered, IsChildOffer, AsksChild;
  }

  lemma HearRests(cx: Config, cy: Config, c: Crypto, x: Kid, y: Kid, net: set<Frame>, sx: set<u32>, sy: set<u32>,
                  f: Frame, n: Kid)
    requires Family(cx, cy, c, x, y, net, sx, sy) && Hears(cx, c, x.end, f, n.end) && n.active == x.active
    requires n.rc == x.rc == None
    ensures Kinship(cx, cy, c, n, y, net, sx, sy)
  {
    hide ChildResult, TakableChild, TakesChild, DecideCollision, RekeyTarget, ParsePeerChild, DeletedSpi, HasSelectors,
         ChildRekeyRequest, Registered, RekeyResult, Asks, Asked, Heard, Polite, Settled, Unsettled, Offering;
    FlipTwice(x.end.line.env, y.end.line.env);
  }

  /** Our IKE rekey is given up: no child hangs on it. */
  lemma YieldRests(cx: Config, cy: Config, c: Crypto, x: Kid, y: Kid, net: set<Frame>, sx: set<u32>, sy: set<u32>,
                   f: Frame, n: Kid)
    requires Family(cx, cy, c, x, y, net, sx, sy) && Yields(cx, x.end, f, n.end) && n.active == x.active
    requires n.rc == x.rc == None
    ensures Kinship(cx, cy, c, n, y, net, sx, sy)
  {
    hide ChildResult, TakableChild, TakesChild, DecideCollision, RekeyTarget, ParsePeerChild, DeletedSpi, HasSelectors,
         ChildRekeyRequest, Registered, RekeyResult, Asks, Asked, Heard, Polite, Settled, Unsettled, Offering, Takable,
         FirstNonce;
    FlipTwice(x.end.line.env, y.end.line.env);
  }

  // ---- Asking ----

  /** A new request that rekeys no child. */
  lemma AskRests(cx: Config, cy: Config, c: Crypto, x: Kid, y: Kid, net: set<Frame>, sx: set<u32>, sy: set<u32>,
                 t: Frame, n: Kid)
    requires Family(cx, cy, c, x, y, net, sx, sy) && Requests(cx, c, x.end, [t], n.end) && n.active == x.active
    requires n.rc == x.rc == None
    requires !ChildRequest(t)
    requires DeletedSpi(t.inner).Some? ==> DeletedSpi(t.inner).value in sx && Past(n, DeletedSpi(t.inner).value)
                                           && DeletedSpi(t.inner).value != y.active.outboundSpi
    ensures Kinship(cx, cy, c, n, y, net + {t}, sx, sy)
  {
    hide ChildResult, TakableChild, TakesChild, DecideCollision, RekeyTarget, ParsePeerChild, DeletedSpi, HasSelectors,
         ChildRekeyRequest, Registered, RekeyResult, Asks, Asked, Heard, Polite, Settled, Unsettled, Offering;
    FlipTwice(x.end.line.env, y.end.line.env);
  }

  /** A child rekey with a new SPI is started. */
  lemma AskRekeys(cx: Config, cy: Config, c: Crypto, x: Kid, y: Kid, net: set<Frame>, sx: set<u32>, sy: set<u32>,
                  t: Frame, n: Kid)
    requires Family(cx, cy, c, x, y, net, sx, sy) && Requests(cx, c, x.end, [t], n.end) && n.active == x.active
    requires x.rc == None
    requires n.rc.Some? && x.end.retained.None? && n.end.line.ike.None? && DeletedSpi(t.inner).None?
    requires AsksChild(cx, c, x.active, n.rc.value, t) && n.rc.value.newInboundSpi !in sx + sy
    ensures Kinship(cx, cy, c, n, y, net + {t}, sx + {n.rc.value.newInboundSpi}, sy)
  {
    hide ChildResult, TakableChild, TakesChild, DecideCollision, RekeyTarget, ParsePeerChild, DeletedSpi, HasSelectors,
         ChildRekeyRequest, Registered, RekeyResult, Asks, Heard, Polite, Settled, Unsettled, Offering;
    FlipTwice(x.end.line.env, y.end.line.env);
  }

  // ---- Answering ----

  /** A request is answered without moving to a new child. */
  lemma AnswerRests(cx: Config, cy: Config, c: Crypto, x: Kid, y: Kid, net: set<Frame>, sx: set<u32>, sy: set<u32>,
                    f: Frame, t: Frame, n: Kid)
    requires Family(cx, cy, c, x, y, net, sx, sy) && IkeTalk.Answers(x.end, f, [t], n.end) && f in net
    requires n.active == x.active && n.rc == x.rc
    requires ChildRequest(f) ==> NoSa(t.inner)
    ensures Kinship(cx, cy, c, n, y, net + {t}, sx, sy)
  {
    hide Agreement, Sound, TakesChild, Trim;
    AnswerLeavesKid(cx, cy, c, x, y, net, sx, sy, f, t, n);
    AnswerReachesKid(cx, cy, c, x, y, net, sx, sy, f, t, n);
    AnsweredNew(x.end, f, t, n.end);
  }

  lemma AnsweredNew(e: End, f: Frame, t: Frame, n: End)
    requires IkeTalk.Answers(e, f, [t], n)
    ensures n.line.env == e.line.env && n.line.awaited == e.line.awaited
    ensures forall id: u32 :: New(n.line, id) ==> New(e.line, id)
  {
  }

  lemma AnswerLeavesKid(cx: Config, cy: Config, c: Crypto, x: Kid, y: Kid, net: set<Frame>, sx: set<u32>,
                        sy: set<u32>, f: Frame, t: Frame, n: Kid)
    requires Family(cx, cy, c, x, y, net, sx, sy) && IkeTalk.Answers(x.end, f, [t], n.end) && f in net
    requires n.active == x.active && n.rc == x.rc
    ensures Sound(cx, c, n, y, net + {t}, sx, sy)
  {
    hide ChildResult, TakableChild, TakesChild, DecideCollision, RekeyTarget, ParsePeerChild, DeletedSpi, HasSelectors,
         ChildRekeyRequest, Registered, RekeyResult, Asks, Asked, Heard, Polite, Settled, Unsettled, Offering, Trim;
    AnsweredNew(x.end, f, t, n.end);
  }

  lemma AnswerReachesKid(cx: Config, cy: Config, c: Crypto, x: Kid, y: Kid, net: set<Frame>, sx: set<u32>,
                         sy: set<u32>, f: Frame, t: Frame, n: Kid)
    requires Family(cx, cy, c, x, y, net, sx, sy) && IkeTalk.Answers(x.end, f, [t], n.end) && f in net
    requires n.active == x.active && n.rc == x.rc
    requires ChildRequest(f) ==> NoSa(t.inner)
    ensures Sound(cy, c, y, n, net + {t}, sy, sx)
  {
    hide ChildResult, TakableChild, TakesChild, DecideCollision, RekeyTarget, ParsePeerChild, DeletedSpi, HasSelectors,
         ChildRekeyRequest, Registered, RekeyResult, Asks, Asked, Heard, Polite, Settled, Unsettled, Offering, Trim;
    FlipTwice(x.end.line.env, y.end.line.env);
    if y.rc.Some? && NoSa(t.inner) { RefusalDecides(cy, c, y.end.line.env, y.rc.value, t.inner); }
  }

  lemma RefusalDecides(cfg: Config, c: Crypto, env: Envelope, rc: RekeyContext, inner: seq<Payload>)
    requires NoSa(inner)
    ensures ChildResult(cfg, c, env, rc, inner).None?
  {
    NoSaParts(CHILD_RESPONSE, NO_PARTS, inner);
  }

  /** The awaited rekey was refused. */
  lemma RefusedKeeps(cx: Config, cy: Config, c: Crypto, x: Kid, y: Kid, net: set<Frame>, sx: set<u32>, sy: set<u32>,
                     f: Frame, n: Kid)
    requires Family(cx, cy, c, x, y, net, sx, sy) && f in net && Hears(cx, c, x.end, f, n.end) && n.active == x.active
    requires n.rc.None?
    requires x.rc.Some? && ChildResult(cx, c, x.end.line.env, x.rc.value, f.inner).None?
    ensures Kinship(cx, cy, c, n, y, net, sx, sy)
  {
    hide ChildResult, TakableChild, TakesChild, DecideCollision, RekeyTarget, ParsePeerChild, DeletedSpi, HasSelectors,
         ChildRekeyRequest, Registered, RekeyResult, Asks, Asked, Polite, Settled, Unsettled, Offering;
    FlipTwice(x.end.line.env, y.end.line.env);
  }

  // ---- Reading the two messages of a child rekey ----

  function RequestParts(sa: W.SA, nonce: bytes, ke: seq<Payload>, tsi: bytes, tsr: bytes): seq<Payload> {
    [SaPayload(sa), NoncePayload(nonce)] + ke + [TsiPayload(tsi), TsrPayload(tsr)]
  }

  lemma TakeStep(rules: Rules, acc: Parts, head: Payload, rest: seq<Payload>)
    ensures TakeParts(rules, acc, [head] + rest)
         == match TakePart(rules, acc, head) case None => None case Some(next) => TakeParts(rules, next, rest)
  {
    assert ([head] + rest)[1..] == rest;
  }

  lemma TakesSelectors(rules: Rules, acc: Parts, tsi: bytes, tsr: bytes)
    requires rules.selectors
    ensures TakeParts(rules, acc, [TsiPayload(tsi), TsrPayload(tsr)]) == Some(acc.(tsi := tsi, tsr := tsr))
  {
    assert [TsiPayload(tsi), TsrPayload(tsr)] == [TsiPayload(tsi)] + [TsrPayload(tsr)] &&
      [TsrPayload(tsr)] == [TsrPayload(tsr)] + [];
    TakeStep(rules, acc, TsiPayload(tsi), [TsrPayload(tsr)]);
    TakeStep(rules, acc.(tsi := tsi), TsrPayload(tsr), []);
  }

  /** SA, nonce, an optional KE and the two selectors are read back, in either message. */
  lemma TakesAll(rules: Rules, sa: W.SA, nonce: bytes, c: Crypto, pfs: bool, dh: nat, tsi: bytes, tsr: bytes)
    requires rules.selectors && nonce != [] && Ideal(c)
    ensures TakeParts(rules, NO_PARTS, RequestParts(sa, nonce, KeOf(c, pfs, dh), tsi, tsr))
         == Some(Parts(Some(sa), Some(nonce), if pfs then Some(c.publicKey(dh)) else None, tsi, tsr))
  {
    var ts := [TsiPayload(tsi), TsrPayload(tsr)];
    var p1 := NO_PARTS.(sa := Some(sa));
    var p2 := p1.(nonce := Some(nonce));
    assert RequestParts(sa, nonce, KeOf(c, pfs, dh), tsi, tsr) ==
      [SaPayload(sa)] + ([NoncePayload(nonce)] + (KeOf(c, pfs, dh) + ts));
    TakeStep(rules, NO_PARTS, SaPayload(sa), [NoncePayload(nonce)] + (KeOf(c, pfs, dh) + ts));
    TakeStep(rules, p1, NoncePayload(nonce), KeOf(c, pfs, dh) + ts);
    if pfs {
      assert |c.publicKey(dh)| == 32;
      TakeStep(rules, p2, KePayload(CURVE25519, c.publicKey(dh)), ts);
      TakesSelectors(rules, p2.(ke := Some(c.publicKey(dh))), tsi, tsr);
    } else {
      assert [] + ts == ts;
      TakesSelectors(rules, p2, tsi, tsr);
    }
  }

  lemma ChildRequestHead(inner: seq<Payload>, spi: u32, rest: seq<Payload>)
    requires inner == [NotifyPayload(W.PROTOCOL_ESP, Put32(spi), NOTIFY_REKEY_SA)] + rest
    ensures RekeyTarget(inner) == Some(spi) && DeletedSpi(inner).None?
  {
    GetPut32(spi);
  }

  lemma ChildRequestTail(sa: W.SA, nonce: bytes, c: Crypto, pfs: bool, dh: nat, tsi: bytes, tsr: bytes, head: Payload)
    requires head.NotifyPayload?
    ensures var inner := [head] + RequestParts(sa, nonce, KeOf(c, pfs, dh), tsi, tsr);
            HasSelectors(inner) && !AsksIkeDelete(inner)
  {
    var inner := [head] + RequestParts(sa, nonce, KeOf(c, pfs, dh), tsi, tsr);
    assert inner[|inner| - 1] == TsrPayload(tsr);
  }

  /** A request names the requester's child by its inbound SPI; everything else is read back. */
  lemma ChildRequestRead(cfg: Config, c: Crypto, active: ChildSA, fr: Fresh, inner: seq<Payload>)
    requires ChildRekeyRequest(cfg, c, active, fr) == Some(inner) && fr.nonce != [] && Ideal(c)
    ensures HasSelectors(inner) && !AsksIkeDelete(inner) && DeletedSpi(inner).None?
    ensures RekeyTarget(inner) == Some(active.inboundSpi)
    ensures active.tsi != [] && active.tsr != [] ==>
              ParsePeerChild(inner) == Some(PeerChildRequest(ChildOfferSA(cfg, fr.childSpi).value, fr.nonce,
                                                             if cfg.childPfs then Some(c.publicKey(fr.dh)) else None,
                                                               active.tsi, active.tsr))
    ensures active.tsi == [] || active.tsr == [] ==> ParsePeerChild(inner).None?
  {
    hide ChildOfferSA, TakeParts, HasSelectors, AsksIkeDelete, RekeyTarget, DeletedSpi, Ideal, KeOf;
    var sa := ChildOfferSA(cfg, fr.childSpi).value;
    var notify := NotifyPayload(W.PROTOCOL_ESP, Put32(active.inboundSpi), NOTIFY_REKEY_SA);
    var rest := RequestParts(sa, fr.nonce, KeOf(c, cfg.childPfs, fr.dh), active.tsi, active.tsr);
    assert inner == [notify] + rest;
    ChildRequestHead(inner, active.inboundSpi, rest);
    ChildRequestTail(sa, fr.nonce, c, cfg.childPfs, fr.dh, active.tsi, active.tsr, notify);
    TakeStep(CHILD_REQUEST, NO_PARTS, notify, rest);
    TakesAll(CHILD_REQUEST, sa, fr.nonce, c, cfg.childPfs, fr.dh, active.tsi, active.tsr);
  }

  // ---- A child rekey is accepted ----

  /** What `x` accepts a rekey with: its own awaited child rekey, if any, lost and is given up. */
  ghost function Yielded(x: Kid): Kid {
    if x.rc.Some? then x.(end := x.end.(line := x.end.line.(awaited := None)), rc := None) else x
  }

  /** A child rekey request that `x` does not refuse. */
  ghost predicate Acceptable(x: Kid, f: Frame) {
    && ChildRequest(f) && Opens(x.end.line.env, f) && New(x.end.line, f.messageId)
    && RekeyTarget(f.inner).Some?
    && (RekeyTarget(f.inner).value == x.active.outboundSpi || RekeyTarget(f.inner).value == x.active.inboundSpi)
    && ParsePeerChild(f.inner).Some?
    && ParsePeerChild(f.inner).value.tsi == x.active.tsr && ParsePeerChild(f.inner).value.tsr == x.active.tsi
    && (x.rc.Some? ==> DecideCollision(x.rc.value.ni, ParsePeerChild(f.inner).value.ni) == WeLose)
  }

  ghost predicate AcceptsChild(cfg: Config, c: Crypto, x: Kid, f: Frame, fr: Fresh, t: Frame, n: Kid) {
    && Acceptable(x, f) && IkeTalk.Answers(Yielded(x).end, f, [t], n.end) && n.rc.None? && fr.nonce != []
    && var req := ParsePeerChild(f.inner).value;
       && SelectPeerEsp(cfg, req.sa, fr.childSpi, req.ke.Some?).Some?
       && t.inner == RequestParts(SelectPeerEsp(cfg, req.sa, fr.childSpi, req.ke.Some?).value.echo, fr.nonce,
                                  KeOf(c, req.ke.Some?, fr.dh), req.tsi, req.tsr)
       && n.active == ChildSA(fr.childSpi, PeerOutboundSpi(req.sa), req.tsr, req.tsi, false)
  }

  /** The answer leads the requester to the mirror of the responder's child. */
  lemma ChildResultAgrees(cx: Config, cy: Config, c: Crypto, env: Envelope, active: ChildSA, rc: RekeyContext,
                          q: Frame, fr: Fresh, choice: EspChoice)
    requires Ideal(c) && UnderstandsChild(cy, cx) && AsksChild(cy, c, active, rc, q) && fr.nonce != []
    requires Registered(env.selected.prf)
    requires active.tsi != [] && active.tsr != [] && ChildOfferSA(cy, rc.newInboundSpi).Some?
    requires SelectPeerEsp(cx, ChildOfferSA(cy, rc.newInboundSpi).value, fr.childSpi, cy.childPfs) == Some(choice)
    ensures PeerOutboundSpi(ChildOfferSA(cy, rc.newInboundSpi).value) == rc.newInboundSpi
    ensures ChildResult(cy, c, env, rc,
                        RequestParts(choice.echo, fr.nonce, KeOf(c, cy.childPfs, fr.dh), active.tsi, active.tsr))
            == Some(ChildSA(rc.newInboundSpi, fr.childSpi, active.tsi, active.tsr, true))
  {
    hide ChildOfferSA, SelectPeerEsp, DecodeChild, DeriveChildKeys, ChildRekeyRequest, PeerOutboundSpi, TakeParts,
         UnderstandsChild, KnownChild;
    var offer := ChildOfferSA(cy, rc.newInboundSpi).value;
    ChildEchoUnderstood(cy, cx, env.selected, rc.newInboundSpi, fr.childSpi, offer, choice);
    ChildLengths(choice.selection);
    TakesAll(CHILD_RESPONSE, choice.echo, fr.nonce, c, cy.childPfs, fr.dh, active.tsi, active.tsr);
    var sel := choice.selection;
    var shared := if cy.childPfs then c.agree(rc.dh.value, c.publicKey(fr.dh)) else Some([]);
    assert cy.childPfs ==> c.agree(rc.dh.value, c.publicKey(fr.dh)) == c.agree(fr.dh, c.publicKey(rc.dh.value));
    ChildKeysPartition(c, env.selected.prf, env.keys.skd, rc.ni, fr.nonce, shared.value, sel.encryption, sel.integrity);
  }

  lemma ChildLengths(sel: Selection)
    requires KnownChild(sel)
    ensures sel.encryption.keyLen <= 36 && sel.integrity.keyLen <= 64 && Registered(sel.prf)
  {
    KnownLengths(sel.(dh := Some(CURVE25519)));
  }

  lemma AcceptTakes(cx: Config, c: Crypto, x: Kid, f: Frame, fr: Fresh, t: Frame, n: Kid)
    requires AcceptsChild(cx, c, x, f, fr, t, n)
    ensures TakableChild(cx, f)
  {
    hide SelectPeerEsp, ParsePeerChild, RekeyTarget, DecideCollision, HasSelectors, IkeTalk.Answers;
    var req := ParsePeerChild(f.inner).value;
    AnyChildSpi(cx, req.sa, fr.childSpi, 0, req.ke.Some?);
  }

  lemma ChildOfferTakable(cx: Config, cy: Config, c: Crypto, g: Frame)
    requires Ideal(c) && IsChildOffer(cy, c, g)
    ensures CanOfferChild(cy)
    ensures if ParsePeerChild(g.inner).Some? then TakableChild(cx, g) <==> TakesChild(cx, cy) else !TakableChild(cx, g)
  {
    hide SelectPeerEsp, ChildOfferSA, ParsePeerChild, RekeyTarget, CanOfferChild, SomeEspSuite, ChildRekeyRequest,
         HasSelectors, DeletedSpi;
    var active, rc :| AsksChild(cy, c, active, rc, g);
    AsksChildRead(cy, c, active, rc, g);
    ChildOfferAccepted(cx, cy, rc.newInboundSpi, 0);
  }

  /** Our child rekey loses to one that offers nothing we could choose: the other end could
      not have chosen from our offer either. */
  lemma YieldChildKeeps(cx: Config, cy: Config, c: Crypto, x: Kid, y: Kid, net: set<Frame>, sx: set<u32>, sy: set<u32>,
                        f: Frame)
    requires Family(cx, cy, c, x, y, net, sx, sy) && f in net && Ideal(c) && BalancedChild(cx, cy)
    requires Acceptable(x, f) && !TakableChild(cx, f) && x.rc.Some?
    ensures Kinship(cx, cy, c, Yielded(x), y, net, sx, sy)
  {
    hide ChildResult, TakableChild, TakesChild, DecideCollision, RekeyTarget, ParsePeerChild, DeletedSpi, HasSelectors,
         ChildRekeyRequest, Registered, RekeyResult, Asks, Asked, Heard, Polite, Settled, Unsettled, Offering,
         CanOfferChild;
    FlipTwice(x.end.line.env, y.end.line.env);
    ChildOfferTakable(cx, cy, c, f);
    assert IsChildOffer(cx, c, x.end.line.awaited.value);
    ChildOfferTakable(cy, cx, c, x.end.line.awaited.value);
  }

  lemma AsksChildRead(cfg: Config, c: Crypto, active: ChildSA, rc: RekeyContext, q: Frame)
    requires Ideal(c) && AsksChild(cfg, c, active, rc, q)
    ensures RekeyTarget(q.inner) == Some(active.inboundSpi) && ChildOfferSA(cfg, rc.newInboundSpi).Some?
    ensures DeletedSpi(q.inner).None?
    ensures ParsePeerChild(q.inner).Some? <==> active.tsi != [] && active.tsr != []
    ensures ParsePeerChild(q.inner).Some? ==>
              ParsePeerChild(q.inner).value == PeerChildRequest(ChildOfferSA(cfg, rc.newInboundSpi).value, rc.ni,
                                                 if cfg.childPfs then Some(c.publicKey(rc.dh.value)) else None,
                                                   active.tsi, active.tsr)
  {
    hide ChildOfferSA, RekeyTarget, ParsePeerChild, HasSelectors, DeletedSpi;
    ChildRequestRead(cfg, c, active, Fresh(rc.newInboundSpi, 0, rc.ni, if rc.dh.Some? then rc.dh.value else 0, true),
                     q.inner);
  }

  /** An acceptable request is the one the peer awaits, and both ends serve the same child. */
  lemma AcceptFinds(cx: Config, cy: Config, c: Crypto, x: Kid, y: Kid, net: set<Frame>, sx: set<u32>, sy: set<u32>,
                    f: Frame)
    requires Family(cx, cy, c, x, y, net, sx, sy) && f in net && Ideal(c) && Acceptable(x, f) && TakableChild(cx, f)
    ensures InStep(x.end, y.end) && y.end.line.awaited == Some(f) && y.rc.Some?
    ensures AsksChild(cy, c, y.active, y.rc.value, f)
    ensures Paired(x.active, y.active) && RekeyTarget(f.inner) == Some(y.active.inboundSpi)
  {
    hide ChildResult, TakableChild, TakesChild, DecideCollision, RekeyTarget, ParsePeerChild, DeletedSpi, HasSelectors,
         ChildRekeyRequest, Registered, RekeyResult, Asks, Asked, Heard, Polite, Settled, Unsettled, Offering, Good,
         Decided, Spared;
    FlipTwice(x.end.line.env, y.end.line.env);
    assert !Lost(x, y, sy, f.inner);
    AsksChildRead(cy, c, y.active, y.rc.value, f);
  }

  /** What the acceptor gave up lost to the peer's nonce. */
  lemma YieldedLost(cx: Config, cy: Config, c: Crypto, x: Kid, y: Kid, sx: set<u32>, f: Frame, n: Kid)
    requires Ideal(c) && x.rc.Some? && x.end.line.awaited.Some?
    requires AsksChild(cx, c, x.active, x.rc.value, x.end.line.awaited.value)
    requires y.rc.Some? && AsksChild(cy, c, y.active, y.rc.value, f) && Paired(x.active, y.active)
    requires ParsePeerChild(f.inner).Some? && DecideCollision(x.rc.value.ni, ParsePeerChild(f.inner).value.ni) == WeLose
    requires x.active.inboundSpi in sx && n.active.inboundSpi !in sx && n.rc.None?
    ensures Lost(y, n, sx, x.end.line.awaited.value.inner)
  {
    hide RekeyTarget, ParsePeerChild, DecideCollision, DeletedSpi, HasSelectors, ChildRekeyRequest;
    AsksChildRead(cx, c, x.active, x.rc.value, x.end.line.awaited.value);
    AsksChildRead(cy, c, y.active, y.rc.value, f);
    CollisionDecides(x.rc.value.ni, y.rc.value.ni);
  }

  lemma AcceptChildLeaves(cx: Config, cy: Config, c: Crypto, x: Kid, y: Kid, net: set<Frame>, sx: set<u32>,
                          sy: set<u32>, f: Frame, fr: Fresh, t: Frame, n: Kid)
    requires Family(cx, cy, c, x, y, net, sx, sy) && f in net && AcceptsChild(cx, c, x, f, fr, t, n)
    requires InStep(x.end, y.end) && y.rc.Some? && n.active.outboundSpi == y.rc.value.newInboundSpi
    requires fr.childSpi !in sx + sy
    ensures Sound(cx, c, n, y, net + {t}, sx + {fr.childSpi}, sy)
  {
    hide ChildResult, TakableChild, TakesChild, DecideCollision, RekeyTarget, ParsePeerChild, DeletedSpi, HasSelectors,
         ChildRekeyRequest, Registered, RekeyResult, Asks, Asked, Heard, Polite, Settled, Unsettled, Offering,
         SelectPeerEsp, PeerOutboundSpi, RequestParts, Numbers;
    FlipTwice(x.end.line.env, y.end.line.env);
  }

  lemma AcceptChildReaches(cx: Config, cy: Config, c: Crypto, x: Kid, y: Kid, net: set<Frame>, sx: set<u32>,
                           sy: set<u32>, f: Frame, fr: Fresh, t: Frame, n: Kid)
    requires Family(cx, cy, c, x, y, net, sx, sy) && f in net && AcceptsChild(cx, c, x, f, fr, t, n)
    requires InStep(x.end, y.end) && y.end.line.awaited == Some(f) && y.rc.Some?
    requires n.active.outboundSpi == y.rc.value.newInboundSpi
    requires fr.childSpi !in sx + sy
    requires x.rc.Some? ==> x.end.line.awaited.Some? && Lost(y, n, sx, x.end.line.awaited.value.inner)
    requires ChildResult(cy, c, y.end.line.env, y.rc.value, t.inner)
             == Some(ChildSA(y.rc.value.newInboundSpi, fr.childSpi, y.active.tsi, y.active.tsr, true))
    ensures Sound(cy, c, y, n, net + {t}, sy, sx + {fr.childSpi})
  {
    hide ChildResult, TakableChild, TakesChild, DecideCollision, RekeyTarget, ParsePeerChild, DeletedSpi, HasSelectors,
         ChildRekeyRequest, Registered, RekeyResult, Asks, Asked, Polite, Settled, Unsettled, Offering, SelectPeerEsp,
         PeerOutboundSpi, RequestParts, Numbers;
    FlipTwice(x.end.line.env, y.end.line.env);
  }

  lemma AcceptChildKeeps(cx: Config, cy: Config, c: Crypto, x: Kid, y: Kid, net: set<Frame>, sx: set<u32>,
                         sy: set<u32>, f: Frame, fr: Fresh, t: Frame, n: Kid)
    requires Family(cx, cy, c, x, y, net, sx, sy) && f in net && Ideal(c) && UnderstandsChild(cy, cx)
    requires AcceptsChild(cx, c, x, f, fr, t, n)
    requires fr.childSpi !in sx + sy
    ensures Kinship(cx, cy, c, n, y, net + {t}, sx + {fr.childSpi}, sy) && ChildAhead(n, y)
  {
    hide ChildResult, TakableChild, TakesChild, DecideCollision, RekeyTarget, ParsePeerChild, DeletedSpi, HasSelectors,
         ChildRekeyRequest, RekeyResult, Agreement, SelectPeerEsp, PeerOutboundSpi, RequestParts, Spared, Undecided,
         Decided, Trim, UnderstandsChild, OffersKids;
    AcceptTakes(cx, c, x, f, fr, t, n);
    AcceptFinds(cx, cy, c, x, y, net, sx, sy, f);
    AsksChildRead(cy, c, y.active, y.rc.value, f);
    var req := ParsePeerChild(f.inner).value;
    ChildResultAgrees(cx, cy, c, y.end.line.env, y.active, y.rc.value, f, fr,
                      SelectPeerEsp(cx, req.sa, fr.childSpi, req.ke.Some?).value);
    ChildOfferTakable(cx, cy, c, f);
    if x.rc.Some? { YieldedLost(cx, cy, c, x, y, sx, f, n); }
    AcceptChildLeaves(cx, cy, c, x, y, net, sx, sy, f, fr, t, n);
    AcceptChildReaches(cx, cy, c, x, y, net, sx, sy, f, fr, t, n);
    LastAnswer(Yielded(x).end, f, t, n.end);
  }

  lemma LastAnswer(e: End, f: Frame, t: Frame, n: End)
    requires IkeTalk.Answers(e, f, [t], n)
    ensures !New(n.line, f.messageId)
  {
  }

  // ---- The awaited child rekey completes ----

  /** The answer is installed and the replaced child is asked to be deleted. */
  lemma FinishChildKeeps(cx: Config, cy: Config, c: Crypto, x: Kid, y: Kid, net: set<Frame>, sx: set<u32>,
                         sy: set<u32>, f: Frame, child: ChildSA, mid: Kid)
    requires Family(cx, cy, c, x, y, net, sx, sy) && f in net && Hears(cx, c, x.end, f, mid.end) && x.rc.Some?
    requires ChildResult(cx, c, x.end.line.env, x.rc.value, f.inner) == Some(child) && mid.active == child
    requires mid.rc.None?
    ensures Kinship(cx, cy, c, mid, y, net, sx, sy) && Paired(child, y.active)
    ensures x.active.inboundSpi in sx && Past(mid, x.active.inboundSpi) && x.active.inboundSpi != y.active.outboundSpi
  {
    hide ChildResult, TakableChild, TakesChild, DecideCollision, RekeyTarget, ParsePeerChild, DeletedSpi, HasSelectors,
         ChildRekeyRequest, Registered, RekeyResult, Asks, Asked, Polite, Settled, Unsettled, Offering, Numbers;
    FlipTwice(x.end.line.env, y.end.line.env);
  }

  // ---- The IKE SA changes underneath ----

  lemma AcceptIkeRests(cx: Config, cy: Config, c: Crypto, x: Kid, y: Kid, net: set<Frame>, sx: set<u32>, sy: set<u32>,
                       f: Frame, fr: Fresh, t: Frame, n: Kid)
    requires Family(cx, cy, c, x, y, net, sx, sy) && Accepts(cx, c, x.end, f, fr, [t], n.end)
    requires Unused(n.end.line.env, x.end, net)
    requires n.active == x.active && n.rc == x.rc == None && y.end.line.ike.Some? && InStep(x.end, y.end)
    requires Registered(n.end.line.env.selected.prf)
    ensures Kinship(cx, cy, c, n, y, net + {t}, sx, sy)
  {
    hide ChildResult, TakableChild, TakesChild, DecideCollision, RekeyTarget, ParsePeerChild, DeletedSpi, HasSelectors,
         ChildRekeyRequest, Registered, RekeyResult, Asks, Asked, Polite, Settled, Unsettled, Offering, Numbers,
         RekeyedEnvelope, SelectPeerIke, ParsePeerIke, FirstNonce, IkeOffer;
    FlipTwice(x.end.line.env, y.end.line.env);
  }

  lemma FinishIkeRests(cx: Config, cy: Config, c: Crypto, x: Kid, y: Kid, net: set<Frame>, sx: set<u32>, sy: set<u32>,
                       t: Frame, n: Kid)
    requires Family(cx, cy, c, x, y, net, sx, sy) && Ahead(y.end, x.end, net) && InStep(n.end, y.end)
    requires n.end.line == Line(n.end.line.env, 0, None, [], None) && t.sealedWith == OutboundHalves(x.end.line.env)
    requires n.active == x.active && n.rc == x.rc == None
    ensures Kinship(cx, cy, c, n, y, net + {t}, sx, sy)
  {
    hide ChildResult, TakableChild, TakesChild, DecideCollision, RekeyTarget, ParsePeerChild, HasSelectors,
         ChildRekeyRequest, Registered, RekeyResult, Asks, Asked, Polite, Settled, Unsettled, Offering, Numbers;
    FlipTwice(n.end.line.env, y.end.line.env);
    FlipTwice(x.end.line.env, y.end.retained.value.env);
  }
}
