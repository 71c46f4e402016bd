/** The same for children: runs after which two ends serve different ones. */
module ChildSplits {
  import opened Bytes
  import opened Suite
  import opened Keying
  import opened Negotiation
  import opened ChildNegotiation
  import opened Offers
  import opened IkeState
  import opened RekeyExchange
  import opened RunningSpec
  import opened RunningInvariant
  import opened IkeTalk
  import opened TwoEnds
  import opened ChildTalk
  import opened TwoChildren
  import opened Splits

  // ---- Steps, as far as the runs need them ----

  function KidContext(cfg: Config, st: State, fr: Fresh): RekeyContext {
    RekeyContext(RekeyChild, st.nextId, fr.nonce, if cfg.childPfs then Some(fr.dh) else None, st.activeChild,
                 fr.childSpi, 0)
  }

  lemma AsksKid(cfg: Config, c: Crypto, st: State, fr: Fresh) returns (q: Frame)
    requires RunningRuns.HandedOver(st) && st.activeChild.Some? && ChildOfferSA(cfg, fr.childSpi).Some?
    requires |fr.nonce| == 32 && Ideal(c)
    ensures var o := Step(cfg, c, st, ChildSoft(fr)); o.st == Asking(st, KidContext(cfg, st, fr), q) && o.tx == [q]
    ensures q == Seal(st.env, CreateChildSa, st.nextId, false, q.inner)
    ensures AsksChild(cfg, c, st.activeChild.value, KidContext(cfg, st, fr), q)
  {
    hide ChildOfferSA, HasSelectors, Ideal;
    q := Seal(st.env, CreateChildSa, st.nextId, false, ChildRekeyRequest(cfg, c, st.activeChild.value, fr).value);
    ChildRequestRead(cfg, c, st.activeChild.value, fr, q.inner);
  }

  lemma RefusesKid(cfg: Config, c: Crypto, st: State, rc: RekeyContext, g: Frame, q: Frame, fr: Fresh)
      returns (t: Frame)
    requires RunningRuns.HandedOver(st) && st.activeChild.Some? && rc.kind == RekeyChild && Inv(Asking(st, rc, g))
    requires Acceptable(KidOf(Asking(st, rc, g)), q) && !TakableChild(cfg, q)
    ensures var o := Step(cfg, c, Asking(st, rc, g), Receive(Protected(q, true), fr));
            o.tx == [t] && o.st == Abandon(Asking(st, rc, g)).(history := [CachedResponse(q.messageId, [t])])
    ensures t == Seal(st.env, CreateChildSa, q.messageId, true, t.inner) && NoSa(t.inner)
  {
    hide ParsePeerChild, RekeyTarget, DecideCollision, HasSelectors, TakableChild, ProcessPeerChildRekey, Inv, Put32;
    var st1 := Asking(st, rc, g);
    UntakableOutcome(cfg, c, st1, q, fr);
    t := Seal(st.env, CreateChildSa, q.messageId, true,
              [NotifyPayload(W.PROTOCOL_ESP, Put32(RekeyTarget(q.inner).value), NOTIFY_NO_PROPOSAL_CHOSEN)]);
    assert st1.history + [CachedResponse(q.messageId, [t])] == [CachedResponse(q.messageId, [t])];
  }

  lemma HearsNoKid(cfg: Config, c: Crypto, st: State, rc: RekeyContext, g: Frame, t: Frame, fr: Fresh)
    requires RunningRuns.HandedOver(st) && rc.kind == RekeyChild && rc.oldChild.Some?
    requires ParseChildResponse(cfg, st.env.selected, t.inner).None?
    requires t.response && Opens(st.env, t) && t.messageId == st.nextId && t.spiI == st.env.spiI
    requires t.spiR == st.env.spiR
    requires t.initiator != st.env.originalInitiator
    ensures var o := Step(cfg, c, Asking(st, rc, g), Receive(Protected(t, true), fr));
            o.tx == [] && o.st == Abandon(Asking(st, rc, g))
  {
    hide ParseChildResponse;
  }

  /** A request it can choose from is accepted, and the child replaced. */
  lemma AcceptsKid(cfg: Config, peer: Config, c: Crypto, st: State, active: ChildSA, rc: RekeyContext, q: Frame,
                   fr: Fresh)
      returns (choice: EspChoice, t: Frame)
    requires Inv(st) && st.rekey.None? && st.oldIke == [] && st.history == [] && st.activeChild.Some? && Ideal(c)
    requires fr.acked && fr.nonce != []
    requires Acceptable(KidOf(st), q) && TakableChild(cfg, q) && AsksChild(peer, c, active, rc, q)
    ensures ChildOfferSA(peer, rc.newInboundSpi).Some?
    ensures SelectPeerEsp(cfg, ChildOfferSA(peer, rc.newInboundSpi).value, fr.childSpi, peer.childPfs) == Some(choice)
    ensures var o := Step(cfg, c, st, Receive(Protected(q, true), fr));
            && o.tx == [t] && o.st.phase == st.phase && o.st.env == st.env && o.st.oldIke == []
            && o.st.activeChild.Some?
            && o.st.activeChild.value.outboundSpi == rc.newInboundSpi
    ensures t == Seal(st.env, CreateChildSa, q.messageId, true,
                      RequestParts(choice.echo, fr.nonce, KeOf(c, peer.childPfs, fr.dh), active.tsi, active.tsr))
  {
    hide ParsePeerChild, RekeyTarget, DecideCollision, HasSelectors, TakableChild, ProcessPeerChildRekey, Inv,
         ChildOfferSA, SelectPeerEsp, DeletedSpi, PeerChildKeys, RequestParts, PeerOutboundSpi, UnderstandsChild,
         KnownChild, Ideal, AsksChild;
    AsksChildRead(peer, c, active, rc, q);
    var req := ParsePeerChild(q.inner).value;
    PeerKeysDerive(cfg, peer, c, st.env, active, rc, q, fr, req);
    choice := SelectPeerEsp(cfg, req.sa, fr.childSpi, req.ke.Some?).value;
    PeerChildAccepts(cfg, c, st, q, fr);
    AcceptedKid(cfg, c, st, q, fr, req);
    ChildEchoUnderstood(peer, cfg, st.env.selected, rc.newInboundSpi, fr.childSpi,
                        ChildOfferSA(peer, rc.newInboundSpi).value, choice);
    t := Seal(st.env, CreateChildSa, q.messageId, true,
              RequestParts(choice.echo, fr.nonce, KeOf(c, peer.childPfs, fr.dh), active.tsi, active.tsr));
  }

  lemma AcceptedKid(cfg: Config, c: Crypto, st: State, q: Frame, fr: Fresh, req: PeerChildRequest)
    requires st.activeChild.Some? && st.rekey.None? && RekeyTarget(q.inner).Some? && fr.acked
    requires var choice := SelectPeerEsp(cfg, req.sa, fr.childSpi, req.ke.Some?);
             choice.Some? && PeerChildKeys(c, st.env, req, fr, choice.value.selection).Some?
    ensures var o :=
      AcceptPeerChild(cfg, c, st, q.messageId, RekeyTarget(q.inner).value, st.activeChild.value, req, fr);
            && o.st.phase == st.phase && o.st.env == st.env && o.st.oldIke == st.oldIke
            && o.st.activeChild == Some(ChildSA(fr.childSpi, PeerOutboundSpi(req.sa), req.tsr, req.tsi, false))
            && o.tx == [Seal(st.env, CreateChildSa, q.messageId, true,
                             RequestParts(SelectPeerEsp(cfg, req.sa, fr.childSpi, req.ke.Some?).value.echo, fr.nonce,
                                          KeOf(c, req.ke.Some?, fr.dh), req.tsi, req.tsr))]
  {
    hide SelectPeerEsp, PeerChildKeys, PeerOutboundSpi, RekeyTarget, Trim, KeOf;
  }

  // ---- Turns ----

  lemma ChildOffersOpen(cfg: Config, spi: u32)
    requires CanOfferChild(cfg)
    ensures ChildOfferSA(cfg, spi).Some?
  {
    ChildOffersExist(LocalOffers(cfg), 0, spi, cfg.childPfs);
  }

  lemma XAsksKid(cx: Config, cy: Config) returns (g: Frame, t: Turn)
    requires CanOfferChild(cx)
    ensures Goes(cx, cy, Counting(), Start(X, Y), t,
                 House(World(Asking(X, KidContext(cx, X, Draw(1)), g), Y, {g}), {1, 101}, {2}))
    ensures g == Seal(SA, CreateChildSa, 0, false, g.inner)
    ensures AsksChild(cx, Counting(), CHILD, KidContext(cx, X, Draw(1)), g)
  {
    hide Step, CanOfferChild, ChildOfferSA, AsksChild, Counting, FairTurn;
    CountingIdeal();
    ChildOffersOpen(cx, Draw(1).childSpi);
    g := AsksKid(cx, Counting(), X, Draw(1));
    t := Turn(true, ChildSoft(Draw(1)));
    FairSoft(cx, cy, Counting(), Start(X, Y), t, 1);
  }

  lemma YAsksKid(cx: Config, cy: Config, x1: State, g: Frame) returns (q: Frame, t: Turn)
    requires CanOfferChild(cy)
    ensures Goes(cx, cy, Counting(), House(World(x1, Y, {g}), {1, 101}, {2}), t,
                 House(World(x1, Asking(Y, KidContext(cy, Y, Draw(2)), q), {g, q}), {1, 101}, {2, 102}))
    ensures q == Seal(Flip(SA), CreateChildSa, 0, false, q.inner)
    ensures AsksChild(cy, Counting(), TWIN, KidContext(cy, Y, Draw(2)), q)
  {
    hide Step, CanOfferChild, ChildOfferSA, AsksChild, Counting, FairTurn;
    CountingIdeal();
    ChildOffersOpen(cy, Draw(2).childSpi);
    q := AsksKid(cy, Counting(), Y, Draw(2));
    t := Turn(false, ChildSoft(Draw(2)));
    FairSoft(cx, cy, Counting(), House(World(x1, Y, {g}), {1, 101}, {2}), t, 2);
  }

  /** A request for the twin of the child an end serves, that beats its own if it has one. */
  lemma RequestFits(peer: Config, k: Kid, theirs: ChildSA, rc: RekeyContext, q: Frame)
    requires AsksChild(peer, Counting(), theirs, rc, q) && Opens(k.end.line.env, q) && k.end.line.history == []
    requires Paired(k.active, theirs) && theirs.tsi != [] && theirs.tsr != []
    requires k.rc.Some? ==> DecideCollision(k.rc.value.ni, rc.ni) == WeLose
    ensures Acceptable(k, q)
  {
    hide ParsePeerChild, RekeyTarget, DecideCollision, HasSelectors, Counting, ChildRekeyRequest, ChildOfferSA,
         DeletedSpi;
    CountingIdeal();
    AsksChildRead(peer, Counting(), theirs, rc, q);
  }

  lemma AskingInv(g: Frame, rc: RekeyContext)
    requires rc.kind == RekeyChild && rc.messageId == 0 && rc.oldChild == Some(CHILD)
    requires g == Seal(SA, CreateChildSa, 0, false, g.inner)
    ensures Inv(Asking(X, rc, g))
  {
  }

  /** `y`'s request beats `x`'s, and `x` cannot choose from it. */
  lemma BeatenByNothing(cx: Config, cy: Config, g: Frame, q: Frame)
    requires q == Seal(Flip(SA), CreateChildSa, 0, false, q.inner)
    requires AsksChild(cy, Counting(), TWIN, KidContext(cy, Y, Draw(2)), q) && !TakesChild(cx, cy)
    ensures Acceptable(KidOf(Asking(X, KidContext(cx, X, Draw(1)), g)), q) && !TakableChild(cx, q)
  {
    hide TakesChild, TakableChild, AsksChild, Counting, DecideCollision, Acceptable, CanOfferChild;
    CountingIdeal();
    SmallerLoses(1, 2);
    assert IsChildOffer(cy, Counting(), q);
    ChildOfferTakable(cx, cy, Counting(), q);
    RequestFits(cy, KidOf(Asking(X, KidContext(cx, X, Draw(1)), g)), TWIN, KidContext(cy, Y, Draw(2)), q);
  }

  lemma XRefusesKid(cx: Config, cy: Config, g: Frame, q: Frame) returns (no: Frame, t: Turn)
    requires g == Seal(SA, CreateChildSa, 0, false, g.inner) && q == Seal(Flip(SA), CreateChildSa, 0, false, q.inner)
    requires AsksChild(cy, Counting(), TWIN, KidContext(cy, Y, Draw(2)), q) && !TakesChild(cx, cy)
    ensures var x1, y1 := Asking(X, KidContext(cx, X, Draw(1)), g), Asking(Y, KidContext(cy, Y, Draw(2)), q);
            Goes(cx, cy, Counting(), House(World(x1, y1, {g, q}), {1, 101}, {2, 102}), t,
                 House(World(Abandon(x1).(history := [CachedResponse(0, [no])]), y1, {g, q, no}),
                       {1, 101, 103}, {2, 102}))
    ensures no == Seal(SA, CreateChildSa, 0, true, no.inner) && NoSa(no.inner)
  {
    hide Step, TakesChild, TakableChild, AsksChild, Counting, Goes, Acceptable, Inv, NoSa, Draw;
    var c := Counting();
    var x1, y1 := Asking(X, KidContext(cx, X, Draw(1)), g), Asking(Y, KidContext(cy, Y, Draw(2)), q);
    var h := House(World(x1, y1, {g, q}), {1, 101}, {2, 102});
    BeatenByNothing(cx, cy, g, q);
    AskingInv(g, KidContext(cx, X, Draw(1)));
    no := RefusesKid(cx, c, X, KidContext(cx, X, Draw(1)), g, q, Draw(3));
    t := Turn(true, Receive(Protected(q, true), Draw(3)));
    XReceives(cx, cy, c, h, q, 3, no, Abandon(x1).(history := [CachedResponse(0, [no])]));
    assert {g, q} + {no} == {g, q, no} && {1, 101} + {103} == {1, 101, 103};
  }

  lemma YHearsNoKid(cx: Config, cy: Config, x3: State, net: set<Frame>, q: Frame, no: Frame) returns (t: Turn)
    requires no == Seal(SA, CreateChildSa, 0, true, no.inner) && NoSa(no.inner) && no in net
    ensures var y1 := Asking(Y, KidContext(cy, Y, Draw(2)), q);
            Goes(cx, cy, Counting(), House(World(x3, y1, net), {1, 101, 103}, {2, 102}), t,
                 House(World(x3, Abandon(y1), net), {1, 101, 103}, {2, 102, 104}))
  {
    hide Step, Counting, FairTurn, ParseChildResponse;
    var y1 := Asking(Y, KidContext(cy, Y, Draw(2)), q);
    ChildRefusalUnread(cy, SUITE, no.inner);
    HearsNoKid(cy, Counting(), Y, KidContext(cy, Y, Draw(2)), q, no, Draw(4));
    t := Turn(false, Receive(Protected(no, true), Draw(4)));
    FairReceive(cx, cy, Counting(), House(World(x3, y1, net), {1, 101, 103}, {2, 102}), t, no, 4);
  }

  lemma ChildRefusalUnread(cfg: Config, ike: Selection, inner: seq<Payload>)
    requires NoSa(inner)
    ensures ParseChildResponse(cfg, ike, inner).None?
  {
    NoSaParts(CHILD_RESPONSE, NO_PARTS, inner);
  }

  lemma YAcceptsKid(cx: Config, cy: Config, h: House, g: Frame) returns (choice: EspChoice, a: Frame, t: Turn, n: House)
    requires Inv(h.w.y) && h.w.y.rekey.None? && h.w.y.oldIke == [] && h.w.y.history == [] && h.w.y.env == Flip(SA)
    requires h.w.y.nextId < 10
    requires h.w.y.activeChild == Some(TWIN) && h.w.y.phase == Phase.Running
    requires g == Seal(SA, CreateChildSa, 0, false, g.inner) && g in h.w.net
    requires AsksChild(cx, Counting(), CHILD, KidContext(cx, X, Draw(1)), g)
    requires TakesChild(cy, cx) && 105 !in h.sx + h.sy
    ensures Goes(cx, cy, Counting(), h, t, n) && n.w.x == h.w.x && n.w.net == h.w.net + {a} && n.sx == h.sx
    ensures n.sy == h.sy + {105}
    ensures n.w.y.phase == Phase.Running && n.w.y.activeChild.Some? && n.w.y.activeChild.value.outboundSpi == 101
    ensures ChildOfferSA(cx, 101).Some?
    ensures SelectPeerEsp(cy, ChildOfferSA(cx, 101).value, 105, cx.childPfs) == Some(choice)
    ensures a == Seal(Flip(SA), CreateChildSa, 0, true,
                      RequestParts(choice.echo, Draw(5).nonce, KeOf(Counting(), cx.childPfs, 5), [0], [1]))
  {
    hide Step, TakesChild, TakableChild, AsksChild, Counting, FairTurn, SelectPeerEsp, ChildOfferSA, Inv, Acceptable,
         CanOfferChild;
    var c := Counting();
    CountingIdeal();
    assert IsChildOffer(cx, c, g);
    ChildOfferTakable(cy, cx, c, g);
    RequestFits(cx, KidOf(h.w.y), CHILD, KidContext(cx, X, Draw(1)), g);
    AcceptableParses(KidOf(h.w.y), g);
    choice, a := AcceptsKid(cy, cx, c, h.w.y, CHILD, KidContext(cx, X, Draw(1)), g, Draw(5));
    t := Turn(false, Receive(Protected(g, true), Draw(5)));
    n := Live(cx, cy, c, h, t);
    FairReceive(cx, cy, c, h, t, g, 5);
    GrowOne(h.w.net, a);
  }

  lemma AcceptableParses(k: Kid, q: Frame)
    requires Acceptable(k, q)
    ensures ParsePeerChild(q.inner).Some?
  {
  }

  lemma XMisreadsKid(cx: Config, cy: Config, h: House, g: Frame, choice: EspChoice, a: Frame)
      returns (t: Turn, n: House)
    requires !UnderstandsChild(cx, cy) && ChildOfferSA(cx, 101).Some?
    requires SelectPeerEsp(cy, ChildOfferSA(cx, 101).value, 105, cx.childPfs) == Some(choice)
    requires a == Seal(Flip(SA), CreateChildSa, 0, true,
                       RequestParts(choice.echo, Draw(5).nonce, KeOf(Counting(), cx.childPfs, 5), [0], [1]))
    requires h.w.x == Asking(X, KidContext(cx, X, Draw(1)), g) && a in h.w.net && 106 !in h.sx + h.sy
    ensures Goes(cx, cy, Counting(), h, t, n) && n.w.x == Abandon(h.w.x) && n.w.y == h.w.y
  {
    hide Step, ChildOfferSA, SelectPeerEsp, Counting, FairTurn, UnderstandsChild, DecodeChild, TakeParts, RequestParts,
         KnownChild;
    ChildEchoUnderstood(cx, cy, SUITE, 101, 105, ChildOfferSA(cx, 101).value, choice);
    CountingIdeal();
    TakesAll(CHILD_RESPONSE, choice.echo, Draw(5).nonce, Counting(), cx.childPfs, 5, [0], [1]);
    HearsNoKid(cx, Counting(), X, KidContext(cx, X, Draw(1)), g, a, Draw(6));
    t := Turn(true, Receive(Protected(a, true), Draw(6)));
    n := Live(cx, cy, Counting(), h, t);
    FairReceive(cx, cy, Counting(), h, t, a, 6);
  }

  // ---- Runs ----

  lemma NotServed(v: World)
    requires v.x.activeChild == Some(CHILD) && v.x.phase == v.y.phase == Phase.Running
    requires v.y.activeChild.Some? && v.y.activeChild.value.outboundSpi == 101
    ensures !Served(v)
  {
  }

  lemma UnbalancedChildSplits(cx: Config, cy: Config) returns (turns: seq<Turn>)
    requires CanOfferChild(cx) && CanOfferChild(cy) && TakesChild(cy, cx) && !TakesChild(cx, cy)
    ensures FairLife(cx, cy, Counting(), Start(X, Y), turns)
    ensures !Served(LiveAll(cx, cy, Counting(), Start(X, Y), turns).w)
  {
    hide Live, FairTurn, CanOfferChild, TakesChild, ChildOfferSA, AsksChild, Counting, Draw, SelectPeerEsp, FairLife,
         LiveAll, NoSa, Served;
    var c := Counting();
    DrawSizes();
    var g, t1 := XAsksKid(cx, cy);
    var x1 := Asking(X, KidContext(cx, X, Draw(1)), g);
    var h1 := House(World(x1, Y, {g}), {1, 101}, {2});
    var q, t2 := YAsksKid(cx, cy, x1, g);
    var y1 := Asking(Y, KidContext(cy, Y, Draw(2)), q);
    var h2 := House(World(x1, y1, {g, q}), {1, 101}, {2, 102});
    var no, t3 := XRefusesKid(cx, cy, g, q);
    var x3 := Abandon(x1).(history := [CachedResponse(0, [no])]);
    var h3 := House(World(x3, y1, {g, q, no}), {1, 101, 103}, {2, 102});
    var t4 := YHearsNoKid(cx, cy, x3, {g, q, no}, q, no);
    var h4 := House(World(x3, Abandon(y1), {g, q, no}), {1, 101, 103}, {2, 102, 104});
    var choice, a, t5, h5 := YAcceptsKid(cx, cy, h4, g);
    NotServed(h5.w);
    turns := FiveTurns(cx, cy, c, Start(X, Y), t1, h1, t2, h2, t3, h3, t4, h4, t5, h5);
  }

  lemma MisreadChildSplits(cx: Config, cy: Config) returns (turns: seq<Turn>)
    requires !UnderstandsChild(cx, cy)
    ensures FairLife(cx, cy, Counting(), Start(X, Y), turns)
    ensures !Served(LiveAll(cx, cy, Counting(), Start(X, Y), turns).w)
  {
    hide Live, FairTurn, CanOfferChild, TakesChild, ChildOfferSA, AsksChild, Counting, Draw, SelectPeerEsp, FairLife,
         LiveAll, ReadableChild, Served;
    var c := Counting();
    ChildOfferAccepted(cy, cx, 0, 0);
    var g, t1 := XAsksKid(cx, cy);
    var x1 := Asking(X, KidContext(cx, X, Draw(1)), g);
    var h1 := House(World(x1, Y, {g}), {1, 101}, {2});
    var choice, a, t2, h2 := YAcceptsKid(cx, cy, h1, g);
    var t3, h3 := XMisreadsKid(cx, cy, h2, g, choice, a);
    NotServed(h3.w);
    turns := ThreeTurns(cx, cy, c, Start(X, Y), t1, h1, t2, h2, t3, h3);
  }
}
