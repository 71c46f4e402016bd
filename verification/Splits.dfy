/** Runs in which two ends come apart, for every pair of configurations that does not meet the
    condition under which they agree. */
module Splits {
  import opened Bytes
  import opened Suite
  import opened Keying
  import opened Negotiation
  import opened Offers
  import opened IkeState
  import opened RekeyExchange
  import opened RunningSpec
  import opened RunningInvariant
  import opened IkeTalk
  import opened TwoEnds
  import opened TwoChildren

  // ---- A keyed hash under which derived keys are told apart ----

  /** Octet `i` of block `n` of prf+ is its position in the whole output. */
  function Ramp(n: u8, size: nat): (r: bytes)
    ensures |r| == size
  {
    seq(size, i => ((n - 1) * size + i) % 0x100)
  }

  function Zeros(n: nat): (r: bytes)
    ensures |r| == n
  {
    seq(n, i => 0)
  }

  function Counting(): Crypto {
    Crypto((id: u16, k: bytes, d: bytes) =>
             if NewPrf(id).Some? then Ramp(if d == [] then 0 else d[|d| - 1], NewPrf(id).value.outputLen) else [],
           (a: nat) => Zeros(32), (a: nat, b: bytes) => Some([]))
  }

  lemma CountingIdeal()
    ensures Ideal(Counting())
  {
  }

  lemma {:induction false} CountingBlocks(prf: Prf, key: bytes, seed: bytes, n: nat)
    requires Registered(prf) && n <= 255
    ensures var b := Blocks(Counting(), prf, key, seed, n);
            |b| == n * prf.outputLen && forall q :: 0 <= q < |b| ==> b[q] == q % 0x100
  {
    if n > 0 {
      CountingBlocks(prf, key, seed, n - 1);
      CountingIdeal();
      BlocksLength(Counting(), prf, key, seed, n);
      var last := Block(Counting(), prf, key, seed, n);
      assert last == Ramp(n, prf.outputLen);
      var b := Blocks(Counting(), prf, key, seed, n);
      var done := (n - 1) * prf.outputLen;
      forall q | 0 <= q < |b| ensures b[q] == q % 0x100 {
        if q >= done { assert b[q] == last[q - done]; }
      }
    }
  }

  /** Keys derived with it are longer than those the runs start with, and differ. */
  ghost predicate Distinct(env: Envelope) {
    |env.keys.skei| >= 16 && |env.keys.sker| >= 16 && env.keys.skei[0] != env.keys.sker[0]
  }

  lemma RampSplits(m: bytes, p: nat, a: nat, e: nat)
    requires |m| == 3 * p + 2 * a + 2 * e && 16 <= e <= 36 && forall q :: 0 <= q < |m| ==> m[q] == q % 0x100
    ensures var k := SplitIke(m, p, a, e); |k.skei| == |k.sker| == e && k.skei[0] != k.sker[0]
  {
    var i := p + 2 * a;
    FirstOctets(m, i, e);
    assert i % 0x100 != (i + e) % 0x100;
  }

  lemma FirstOctets(m: bytes, i: nat, e: nat)
    requires e > 0 && i + 2 * e <= |m| && forall q :: 0 <= q < |m| ==> m[q] == q % 0x100
    ensures |m[i..i + e]| == |m[i + e..i + 2 * e]| == e
    ensures m[i..i + e][0] == i % 0x100 && m[i + e..i + 2 * e][0] == (i + e) % 0x100
  {
  }

  lemma CountingDerives(env: Envelope, shared: bytes, ni: bytes, nr: bytes, spiI: u64, spiR: u64, sel: Selection,
                        next: Envelope)
    requires Known(sel)
    requires RekeyedEnvelope(Counting(), env, shared, ni, nr, spiI, spiR, false, sel) == Some(next)
    ensures Distinct(next) && next.spiI == spiI && next.spiR == spiR && !next.originalInitiator
  {
    hide PrfPlus, RekeySeed, Put64, SplitIke, Counting;
    var c, p, a, e := Counting(), sel.prf.outputLen, sel.integrity.keyLen, sel.encryption.keyLen;
    var seed := ni + nr + Put64(spiI) + Put64(spiR);
    var key := RekeySeed(c, env.selected.prf, env.keys.skd, shared, ni, nr);
    var n := 3 * p + 2 * a + 2 * e;
    CountingPlus(sel.prf, key, seed, n);
    RampSplits(PrfPlus(c, sel.prf, key, seed, n).value, p, a, e);
  }

  lemma CountingPlus(prf: Prf, key: bytes, seed: bytes, n: nat)
    requires Registered(prf) && PrfPlus(Counting(), prf, key, seed, n).Some?
    ensures var m := PrfPlus(Counting(), prf, key, seed, n).value; forall q :: 0 <= q < |m| ==> m[q] == q % 0x100
  {
    CountingBlocks(prf, key, seed, BlockCount(prf, n));
  }

  // ---- Where the runs start, and what is drawn ----

  const SUITE :=
    Selection(EncryptionAlg(AES_CBC, 16, 16, 0, 16, 16, 0, false), Integrity(12, 16, 32), Prf(5, 32), Some(CURVE25519))
  const SA := Envelope(1, 2, true, SUITE, IkeKeys([], [], [], [0], [1], [], []))
  const CHILD := ChildSA(1, 2, [0], [1], true)
  const TWIN := ChildSA(2, 1, [1], [0], false)

  function Rest(env: Envelope, child: ChildSA): State {
    State(Phase.Running, env, [], [], 0, 0, false, None, None, Some(child), None, None, [], None, [])
  }

  const X := Rest(SA, CHILD)
  const Y := Rest(Flip(SA), TWIN)

  lemma Started()
    ensures Founded(X, Y) && Founded(Y, X)
  {
  }

  function Draw(k: nat): Fresh
    requires k < 100
  {
    Fresh(100 + k, 100 + k, seq(32, i => k), k, true)
  }

  lemma SmallerLoses(k: nat, n: nat)
    requires k < n < 100
    ensures DecideCollision(Draw(k).nonce, Draw(n).nonce) == WeLose
  {
    var a, b := Draw(k).nonce, Draw(n).nonce;
    assert a[..32] == a && b[..32] == b;
  }

  // ---- Steps, as far as the runs need them ----

  function Asking(st: State, rc: RekeyContext, q: Frame): State {
    BeginRequest(st).(outbound := Some(Checkpoint(st.nextId, [q])), rekey := Some(rc),
                      phase := if rc.kind == RekeyIke then RekeyIkeRequesting else RekeyChildRequesting)
  }

  function IkeContext(st: State, fr: Fresh): RekeyContext {
    RekeyContext(RekeyIke, st.nextId, fr.nonce, Some(fr.dh), None, 0, fr.ikeSpi)
  }

  /** An end at rest that can make an offer asks for an IKE rekey. */
  lemma AsksIke(cfg: Config, c: Crypto, st: State, fr: Fresh) returns (q: Frame)
    requires RunningRuns.HandedOver(st) && IkeOffer(cfg, fr.ikeSpi).Some? && |fr.nonce| == 32
    ensures var o := Step(cfg, c, st, IkeSoft(fr)); o.st == Asking(st, IkeContext(st, fr), q) && o.tx == [q]
    ensures q == Seal(st.env, CreateChildSa, st.nextId, false, q.inner) && IkeRequest(q)
    ensures Asks(cfg, c, IkeContext(st, fr), q)
  {
    hide IkeOffer;
    q := Seal(st.env, CreateChildSa, st.nextId, false, IkeRekeyRequest(cfg, c, fr).value);
  }

  /** One that cannot choose from the request that beats its own gives it up and refuses. */
  lemma RefusesIke(cfg: Config, peer: Config, c: Crypto, st: State, rc: RekeyContext, g: Frame, theirs: RekeyContext,
                   q: Frame, fr: Fresh)
      returns (t: Frame)
    requires RunningRuns.HandedOver(st) && rc.kind == RekeyIke && Asks(peer, c, theirs, q) && Ideal(c)
    requires !Takable(cfg, q)
    requires IkeRequest(q) && Opens(st.env, q) && DecideCollision(rc.ni, theirs.ni) == WeLose
    ensures var o := Step(cfg, c, Asking(st, rc, g), Receive(Protected(q, true), fr));
            && o.tx == [t] && o.st == Abandon(Asking(st, rc, g)).(history := [CachedResponse(q.messageId, [t])])
    ensures t == Seal(st.env, CreateChildSa, q.messageId, true, [NotifyPayload(0, [], NOTIFY_NO_PROPOSAL_CHOSEN)])
  {
    hide IkeOffer, DecideCollision, FirstNonce, ParsePeerIke, SelectPeerIke, AcceptPeerIke, HasSelectors;
    var st1 := Asking(st, rc, g);
    t := Seal(st.env, CreateChildSa, q.messageId, true, [NotifyPayload(0, [], NOTIFY_NO_PROPOSAL_CHOSEN)]);
    RequestRead(peer, c, theirs, q);
    UntakableRefused(cfg, c, Abandon(st1), q, fr);
    assert st1.history + [CachedResponse(q.messageId, [t])] == [CachedResponse(q.messageId, [t])];
  }

  lemma UntakableRefused(cfg: Config, c: Crypto, base: State, f: Frame, fr: Fresh)
    requires !Takable(cfg, f) && ParsePeerIke(f.inner).Some?
    ensures AcceptPeerIke(cfg, c, base, f.messageId, f.inner, fr) ==
      Refusal(base, f.messageId, 0, [], NOTIFY_NO_PROPOSAL_CHOSEN)
  {
    hide ParsePeerIke, SelectPeerIke;
    AnySpi(cfg, ParsePeerIke(f.inner).value.sa, fr.ikeSpi, 0);
  }

  /** An answer it cannot use makes an end give up its IKE rekey. */
  lemma HearsNothing(cfg: Config, c: Crypto, st: State, rc: RekeyContext, g: Frame, t: Frame, fr: Fresh)
    requires RunningRuns.HandedOver(st) && rc.kind == RekeyIke && ParseIkeResponse(cfg, t.inner).None?
    requires t.response && Opens(st.env, t) && t.messageId == st.nextId && t.spiI == st.env.spiI
    requires t.spiR == st.env.spiR
    requires t.initiator != st.env.originalInitiator
    ensures var o := Step(cfg, c, Asking(st, rc, g), Receive(Protected(t, true), fr));
            o.tx == [] && o.st == Abandon(Asking(st, rc, g))
  {
    hide ParseIkeResponse;
  }

  /** One that can choose from a new request accepts it, and keeps the answer with the old SA. */
  lemma AcceptsIke(cfg: Config, peer: Config, st: State, rc: RekeyContext, q: Frame, fr: Fresh)
      returns (choice: IkeChoice, t: Frame)
    requires st.rekey.None? && st.oldIke == [] && Cached(st.history, q.messageId).None? && Unseen(st, q.messageId)
    requires Asks(peer, Counting(), rc, q) && Takable(cfg, q) && IkeRequest(q) && Opens(st.env, q)
    ensures SelectPeerIke(cfg, IkeOffer(peer, rc.newInitiatorSpi).value, fr.ikeSpi) == Some(choice)
    ensures var o := Step(cfg, Counting(), st, Receive(Protected(q, true), fr));
            && o.tx == [t] && o.st.phase == RekeyIkeDeletingOld && Distinct(o.st.env) && !o.st.env.originalInitiator
            && o.st.oldIke == [Retired(st).(history := st.history + [CachedResponse(q.messageId, [t])])]
            && o.answered == [CachedResponse(q.messageId, [t])] && o.verdict == Continue
            && o.st.env.spiI == rc.newInitiatorSpi
    ensures t == Seal(st.env, CreateChildSa, q.messageId, true,
                      [SaPayload(choice.echo), NoncePayload(fr.nonce),
                       KePayload(CURVE25519, Counting().publicKey(fr.dh))])
  {
    hide IkeOffer, ParsePeerIke, SelectPeerIke, RekeyedEnvelope, Counting, HasSelectors, Understands, Known, DecodeIke;
    var c := Counting();
    CountingIdeal();
    RequestRead(peer, c, rc, q);
    var sa := IkeOffer(peer, rc.newInitiatorSpi).value;
    AnySpi(cfg, sa, fr.ikeSpi, 0);
    choice := SelectPeerIke(cfg, sa, fr.ikeSpi).value;
    t := Seal(st.env, CreateChildSa, q.messageId, true,
              [SaPayload(choice.echo), NoncePayload(fr.nonce), KePayload(CURVE25519, c.publicKey(fr.dh))]);
    assert c.agree(fr.dh, c.publicKey(rc.dh.value)).Some?;
    var shared := c.agree(fr.dh, c.publicKey(rc.dh.value)).value;
    Derives(cfg, peer, c, st.env, shared, rc.newInitiatorSpi, rc.ni, fr.nonce, fr.ikeSpi, choice);
    EchoUnderstood(peer, cfg, rc.newInitiatorSpi, fr.ikeSpi, sa, choice);
    CountingDerives(st.env, shared, rc.ni, fr.nonce, choice.peerSpi, fr.ikeSpi, choice.selection,
                    RekeyedEnvelope(c, st.env, shared, rc.ni, fr.nonce, choice.peerSpi, fr.ikeSpi, false,
                                    choice.selection).value);
  }

  // ---- Runs ----

  lemma FairReceive(cx: Config, cy: Config, c: Crypto, h: House, t: Turn, f: Frame, k: nat)
    requires 0 < k < 100 && t.ev == Receive(Protected(f, true), Draw(k)) && f in h.w.net && 100 + k !in h.sx + h.sy
    requires var st, o := if t.atX then h.w.x else h.w.y, Taken(cx, cy, c, h.w, t);
             && st.nextId < 10
             && (|st.oldIke| < |o.st.oldIke| && !o.st.env.originalInitiator ==> Unused(o.st.env, EndOf(st), h.w.net))
    ensures FairTurn(cx, cy, c, h, t)
  {
    hide Step, Unused, EndOf;
  }

  lemma FairSoft(cx: Config, cy: Config, c: Crypto, h: House, t: Turn, k: nat)
    requires 0 < k < 100 && (t.ev == IkeSoft(Draw(k)) || t.ev == ChildSoft(Draw(k))) && 100 + k !in h.sx + h.sy
    requires var st := if t.atX then h.w.x else h.w.y;
             st.nextId < 10 && st.oldIke == [] && Taken(cx, cy, c, h.w, t).st.oldIke == []
    ensures FairTurn(cx, cy, c, h, t)
  {
    hide Step, Unused, EndOf;
  }

  lemma LifeCons(cx: Config, cy: Config, c: Crypto, h: House, t: Turn, rest: seq<Turn>)
    requires FairTurn(cx, cy, c, h, t) && FairLife(cx, cy, c, Live(cx, cy, c, h, t), rest)
    ensures FairLife(cx, cy, c, h, [t] + rest)
    ensures LiveAll(cx, cy, c, h, [t] + rest) == LiveAll(cx, cy, c, Live(cx, cy, c, h, t), rest)
  {
    hide FairTurn, Live;
    assert ([t] + rest)[1..] == rest;
  }

  /** The first SA of these runs, and nothing sealed with anything else. */
  ghost predicate OnlyFirst(net: set<Frame>) {
    forall f :: f in net ==> f.sealedWith == OutboundHalves(SA) || f.sealedWith == InboundHalves(SA)
  }

  lemma NewIsUnused(env: Envelope, st: State, net: set<Frame>)
    requires Distinct(env) && (st.env == SA || st.env == Flip(SA)) && OnlyFirst(net)
    ensures Unused(env, EndOf(st), net)
  {
  }

  /** `t` is fair and leads from `h` to `n`. */
  ghost predicate Goes(cx: Config, cy: Config, c: Crypto, h: House, t: Turn, n: House) {
    FairTurn(cx, cy, c, h, t) && Live(cx, cy, c, h, t) == n
  }

  /** `x` receives `f` and answers with `a`, on the SA it has. */
  lemma XReceives(cx: Config, cy: Config, c: Crypto, h: House, f: Frame, k: nat, a: Frame, n: State)
    requires 0 < k < 100 && f in h.w.net && 100 + k !in h.sx + h.sy && h.w.x.nextId < 10 && n.oldIke == []
    requires var o := Step(cx, c, h.w.x, Receive(Protected(f, true), Draw(k))); o.st == n && o.tx == [a]
    ensures Goes(cx, cy, c, h, Turn(true, Receive(Protected(f, true), Draw(k))),
                 House(World(n, h.w.y, h.w.net + {a}), h.sx + {100 + k}, h.sy))
  {
    hide Step, FairTurn, Draw;
    DrawSizes();
    GrowOne(h.w.net, a);
    FairReceive(cx, cy, c, h, Turn(true, Receive(Protected(f, true), Draw(k))), f, k);
  }

  lemma XAsksIke(cx: Config, cy: Config) returns (g: Frame, t: Turn)
    requires CanOffer(cx)
    ensures Goes(cx, cy, Counting(), Start(X, Y), t,
                 House(World(Asking(X, IkeContext(X, Draw(1)), g), Y, {g}), {1}, {2}))
    ensures g == Seal(SA, CreateChildSa, 0, false, g.inner) && IkeRequest(g)
    ensures Asks(cx, Counting(), IkeContext(X, Draw(1)), g)
    ensures IkeOffer(cx, Draw(1).ikeSpi).Some?
  {
    hide Step, CanOffer, IkeOffer, Asks, IkeRequest, Counting, FairTurn;
    OffersOpen(cx, Draw(1).ikeSpi);
    g := AsksIke(cx, Counting(), X, Draw(1));
    t := Turn(true, IkeSoft(Draw(1)));
    FairSoft(cx, cy, Counting(), Start(X, Y), t, 1);
  }

  lemma YAsksIke(cx: Config, cy: Config, x1: State, g: Frame) returns (q: Frame, t: Turn)
    requires CanOffer(cy)
    ensures Goes(cx, cy, Counting(), House(World(x1, Y, {g}), {1}, {2}), t,
                 House(World(x1, Asking(Y, IkeContext(Y, Draw(2)), q), {g, q}), {1}, {2}))
    ensures q == Seal(Flip(SA), CreateChildSa, 0, false, q.inner) && IkeRequest(q)
    ensures Asks(cy, Counting(), IkeContext(Y, Draw(2)), q)
  {
    hide Step, CanOffer, IkeOffer, Asks, IkeRequest, Counting, FairTurn;
    OffersOpen(cy, Draw(2).ikeSpi);
    q := AsksIke(cy, Counting(), Y, Draw(2));
    t := Turn(false, IkeSoft(Draw(2)));
    FairSoft(cx, cy, Counting(), House(World(x1, Y, {g}), {1}, {2}), t, 2);
  }

  lemma XRefusesIke(cx: Config, cy: Config, g: Frame, q: Frame) returns (no: Frame, t: Turn)
    requires IkeRequest(q) && Opens(SA, q) && Asks(cy, Counting(), IkeContext(Y, Draw(2)), q)
    requires !SomeSuite(cx.ike, cy.ike)
    ensures var x1, y1 := Asking(X, IkeContext(X, Draw(1)), g), Asking(Y, IkeContext(Y, Draw(2)), q);
            Goes(cx, cy, Counting(), House(World(x1, y1, {g, q}), {1}, {2}), t,
                 House(World(Abandon(x1).(history := [CachedResponse(q.messageId, [no])]), y1, {g, q, no}),
                       {1, 103}, {2}))
    ensures no == Seal(SA, CreateChildSa, q.messageId, true, [NotifyPayload(0, [], NOTIFY_NO_PROPOSAL_CHOSEN)])
  {
    hide Step, SomeSuite, IkeOffer, Takable, Asks, IkeRequest, Counting, DecideCollision, Goes, CanOffer, Draw;
    var c := Counting();
    var x1, y1 := Asking(X, IkeContext(X, Draw(1)), g), Asking(Y, IkeContext(Y, Draw(2)), q);
    var h := House(World(x1, y1, {g, q}), {1}, {2});
    CountingIdeal();
    SmallerLoses(1, 2);
    assert IsOffer(cy, c, q);
    OfferTakable(cx, cy, c, q);
    no := RefusesIke(cx, cy, c, X, IkeContext(X, Draw(1)), g, IkeContext(Y, Draw(2)), q, Draw(3));
    t := Turn(true, Receive(Protected(q, true), Draw(3)));
    XReceives(cx, cy, c, h, q, 3, no, Abandon(x1).(history := [CachedResponse(q.messageId, [no])]));
    assert {g, q} + {no} == {g, q, no} && {1} + {103} == {1, 103};
  }

  lemma YHearsNo(cx: Config, cy: Config, x3: State, net: set<Frame>, q: Frame, no: Frame) returns (t: Turn)
    requires no == Seal(SA, CreateChildSa, 0, true, [NotifyPayload(0, [], NOTIFY_NO_PROPOSAL_CHOSEN)]) && no in net
    ensures var y1 := Asking(Y, IkeContext(Y, Draw(2)), q);
            Goes(cx, cy, Counting(), House(World(x3, y1, net), {1, 103}, {2}), t,
                 House(World(x3, Abandon(y1), net), {1, 103}, {2, 104}))
  {
    hide Step, Counting, FairTurn;
    var y1 := Asking(Y, IkeContext(Y, Draw(2)), q);
    RefusalUnread(cy, no.inner);
    HearsNothing(cy, Counting(), Y, IkeContext(Y, Draw(2)), q, no, Draw(4));
    t := Turn(false, Receive(Protected(no, true), Draw(4)));
    FairReceive(cx, cy, Counting(), House(World(x3, y1, net), {1, 103}, {2}), t, no, 4);
  }

  /** `y`, at rest on the first SA, accepts `x`'s request. */
  lemma YAcceptsIke(cx: Config, cy: Config, h: House, g: Frame) returns (choice: IkeChoice, a: Frame, t: Turn, n: House)
    requires h.w.y.rekey.None? && h.w.y.oldIke == [] && h.w.y.history == [] && h.w.y.env == Flip(SA)
    requires h.w.y.nextId < 10
    requires IkeRequest(g) && Opens(Flip(SA), g) && g in h.w.net && Asks(cx, Counting(), IkeContext(X, Draw(1)), g)
    requires SomeSuite(cy.ike, cx.ike) && OnlyFirst(h.w.net) && 105 !in h.sx + h.sy
    ensures Goes(cx, cy, Counting(), h, t, n) && n.w.x == h.w.x && n.w.net == h.w.net + {a} && n.sx == h.sx
    ensures n.sy == h.sy + {105}
    ensures n.w.y.phase == RekeyIkeDeletingOld && Distinct(n.w.y.env)
    ensures SelectPeerIke(cy, IkeOffer(cx, Draw(1).ikeSpi).value, Draw(5).ikeSpi) == Some(choice)
    ensures a == Seal(Flip(SA), CreateChildSa, g.messageId, true,
                      [SaPayload(choice.echo), NoncePayload(Draw(5).nonce),
                       KePayload(CURVE25519, Counting().publicKey(5))])
  {
    hide Step, SomeSuite, IkeOffer, Takable, Asks, IkeRequest, Counting, FairTurn, SelectPeerIke, Unused, Distinct,
         CanOffer;
    var c := Counting();
    CountingIdeal();
    assert IsOffer(cx, c, g);
    OfferTakable(cy, cx, c, g);
    choice, a := AcceptsIke(cy, cx, h.w.y, IkeContext(X, Draw(1)), g, Draw(5));
    t := Turn(false, Receive(Protected(g, true), Draw(5)));
    n := Live(cx, cy, c, h, t);
    NewIsUnused(n.w.y.env, h.w.y, h.w.net);
    FairReceive(cx, cy, c, h, t, g, 5);
    GrowOne(h.w.net, a);
  }

  lemma Apart2(v: World)
    requires v.x.env == SA && v.x.phase == Phase.Running && v.y.phase == RekeyIkeDeletingOld && Distinct(v.y.env)
    ensures !Agreed(v)
  {
  }

  /** `x` cannot choose from `y`'s offer, but `y` can from `x`'s. Both ask; `x` loses, gives up and
      refuses; `y` hears that and gives up too; then `x`'s request arrives. */
  lemma UnbalancedIkeSplits(cx: Config, cy: Config) returns (turns: seq<Turn>)
    requires CanOffer(cx) && CanOffer(cy) && SomeSuite(cy.ike, cx.ike) && !SomeSuite(cx.ike, cy.ike)
    ensures FairLife(cx, cy, Counting(), Start(X, Y), turns)
    ensures !Agreed(LiveAll(cx, cy, Counting(), Start(X, Y), turns).w)
  {
    hide Live, FairTurn, CanOffer, SomeSuite, IkeOffer, Asks, IkeRequest, Counting, Draw, SelectPeerIke, Agreed,
         Distinct, FairLife, LiveAll;
    var c := Counting();
    var g, t1 := XAsksIke(cx, cy);
    var x1 := Asking(X, IkeContext(X, Draw(1)), g);
    var h1 := House(World(x1, Y, {g}), {1}, {2});
    var q, t2 := YAsksIke(cx, cy, x1, g);
    var y1 := Asking(Y, IkeContext(Y, Draw(2)), q);
    var h2 := House(World(x1, y1, {g, q}), {1}, {2});
    var no, t3 := XRefusesIke(cx, cy, g, q);
    var x3 := Abandon(x1).(history := [CachedResponse(q.messageId, [no])]);
    var h3 := House(World(x3, y1, {g, q, no}), {1, 103}, {2});
    var t4 := YHearsNo(cx, cy, x3, {g, q, no}, q, no);
    var h4 := House(World(x3, Abandon(y1), {g, q, no}), {1, 103}, {2, 104});
    var choice, a, t5, h5 := YAcceptsIke(cx, cy, h4, g);
    Apart2(h5.w);
    turns := FiveTurns(cx, cy, c, Start(X, Y), t1, h1, t2, h2, t3, h3, t4, h4, t5, h5);
  }

  lemma ThreeTurns(cx: Config, cy: Config, c: Crypto, h0: House, t1: Turn, h1: House, t2: Turn, h2: House, t3: Turn,
                   h3: House)
      returns (turns: seq<Turn>)
    requires Goes(cx, cy, c, h0, t1, h1) && Goes(cx, cy, c, h1, t2, h2) && Goes(cx, cy, c, h2, t3, h3)
    ensures FairLife(cx, cy, c, h0, turns) && LiveAll(cx, cy, c, h0, turns) == h3
  {
    hide Live, FairTurn;
    LifeCons(cx, cy, c, h2, t3, []);
    LifeCons(cx, cy, c, h1, t2, [t3] + []);
    LifeCons(cx, cy, c, h0, t1, [t2] + ([t3] + []));
    turns := [t1] + ([t2] + ([t3] + []));
  }

  lemma FiveTurns(cx: Config, cy: Config, c: Crypto, h0: House, t1: Turn, h1: House, t2: Turn, h2: House, t3: Turn,
                  h3: House,
                  t4: Turn, h4: House, t5: Turn, h5: House)
      returns (turns: seq<Turn>)
    requires Goes(cx, cy, c, h0, t1, h1) && Goes(cx, cy, c, h1, t2, h2) && Goes(cx, cy, c, h2, t3, h3)
    requires Goes(cx, cy, c, h3, t4, h4) && Goes(cx, cy, c, h4, t5, h5)
    ensures FairLife(cx, cy, c, h0, turns) && LiveAll(cx, cy, c, h0, turns) == h5
  {
    hide Live, FairTurn;
    var rest := ThreeTurns(cx, cy, c, h2, t3, h3, t4, h4, t5, h5);
    LifeCons(cx, cy, c, h1, t2, rest);
    LifeCons(cx, cy, c, h0, t1, [t2] + rest);
    turns := [t1] + ([t2] + rest);
  }

  /** `y` chooses something `x` cannot read: it moves on and `x` gives up. */
  lemma MisreadIkeSplits(cx: Config, cy: Config) returns (turns: seq<Turn>)
    requires !Understands(cx, cy)
    ensures FairLife(cx, cy, Counting(), Start(X, Y), turns)
    ensures !Agreed(LiveAll(cx, cy, Counting(), Start(X, Y), turns).w)
  {
    hide Live, FairTurn, CanOffer, SomeSuite, IkeOffer, Asks, IkeRequest, Counting, Draw, SelectPeerIke, Agreed,
         Distinct, FairLife, LiveAll, Readable;
    var c := Counting();
    OfferAccepted(cy, cx, 0, 0);
    var g, t1 := XAsksIke(cx, cy);
    var x1 := Asking(X, IkeContext(X, Draw(1)), g);
    var h1 := House(World(x1, Y, {g}), {1}, {2});
    var choice, a, t2, h2 := YAcceptsIke(cx, cy, h1, g);
    var t3, h3 := XHearsNothing(cx, cy, h2, g, choice, a);
    Apart2(h3.w);
    turns := ThreeTurns(cx, cy, c, Start(X, Y), t1, h1, t2, h2, t3, h3);
  }

  lemma XHearsNothing(cx: Config, cy: Config, h: House, g: Frame, choice: IkeChoice, a: Frame)
      returns (t: Turn, n: House)
    requires !Understands(cx, cy) && IkeOffer(cx, Draw(1).ikeSpi).Some?
    requires SelectPeerIke(cy, IkeOffer(cx, Draw(1).ikeSpi).value, Draw(5).ikeSpi) == Some(choice)
    requires a == Seal(Flip(SA), CreateChildSa, 0, true,
                       [SaPayload(choice.echo), NoncePayload(Draw(5).nonce),
                        KePayload(CURVE25519, Counting().publicKey(5))])
    requires h.w.x == Asking(X, IkeContext(X, Draw(1)), g) && a in h.w.net && 106 !in h.sx + h.sy
    ensures Goes(cx, cy, Counting(), h, t, n) && n.w.x == Abandon(h.w.x) && n.w.y == h.w.y
  {
    hide Step, IkeOffer, SelectPeerIke, Counting, FairTurn, Understands, DecodeIke, ParseIkeResponse;
    EchoUnderstood(cx, cy, Draw(1).ikeSpi, Draw(5).ikeSpi, IkeOffer(cx, Draw(1).ikeSpi).value, choice);
    CountingIdeal();
    assert |Counting().publicKey(5)| == 32;
    ResponseRead(cx, choice.echo, Draw(5).nonce, Counting().publicKey(5));
    HearsNothing(cx, Counting(), X, IkeContext(X, Draw(1)), g, a, Draw(6));
    t := Turn(true, Receive(Protected(a, true), Draw(6)));
    n := Live(cx, cy, Counting(), h, t);
    FairReceive(cx, cy, Counting(), h, t, a, 6);
  }

  lemma OffersOpen(cfg: Config, spi: u64)
    requires CanOffer(cfg)
    ensures IkeOffer(cfg, spi).Some?
  {
    OffersExist(cfg.ike, 0, spi);
  }

  lemma DrawSizes()
    ensures forall k :: 0 <= k < 100 ==> Draw(k).childSpi == 100 + k && |Draw(k).nonce| == 32
  {
  }

  lemma RefusalUnread(cfg: Config, inner: seq<Payload>)
    requires NoSa(inner)
    ensures ParseIkeResponse(cfg, inner).None?
  {
    NoSaParts(IKE_RESPONSE, NO_PARTS, inner);
  }
}
