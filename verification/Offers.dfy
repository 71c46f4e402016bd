/** What one end can take from the offers of another, and read from its answers: conditions
    on two configurations that do not depend on what is drawn for an exchange. */
module Offers {
  import opened Bytes
  import opened Suite
  import opened Negotiation
  import opened ChildNegotiation

  // ---- Offers of an IKE SA ----

  predicate CanOffer(peer: Config) {
    peer.ike != [] && forall i :: 0 <= i < |peer.ike| ==> IkeOfferTransforms(peer.ike[i]).Some?
  }

  lemma {:induction false} PickIkeExactly(locals: seq<Proposal>, remote: Proposal)
    ensures PickIke(locals, remote).Some? <==> exists j :: 0 <= j < |locals| && Select(locals[j], remote).Some?
  {
    if locals != [] {
      PickIkeExactly(locals[1..], remote);
      assert forall j :: 0 <= j < |locals[1..]| ==> locals[1..][j] == locals[j + 1];
      assert forall j :: 0 < j < |locals| ==> locals[j] == locals[1..][j - 1];
    }
  }

  lemma {:induction false} ChooseIkeExactly(locals: seq<Proposal>, ps: seq<W.Proposal>, spi: u64)
    ensures ChooseIke(locals, ps, spi).Some? <==> exists i :: 0 <= i < |ps| && TakesIke(locals, ps[i])
  {
    hide FromWire, PickIke;
    if ps != [] {
      ChooseIkeExactly(locals, ps[1..], spi);
      assert forall i :: 0 <= i < |ps[1..]| ==> ps[1..][i] == ps[i + 1];
      assert forall i :: 0 < i < |ps| ==> ps[i] == ps[1..][i - 1];
    }
  }

  /** Whether something is chosen does not depend on the responder's SPI. */
  lemma AnySpi(cfg: Config, sa: W.SA, t: u64, u: u64)
    ensures SelectPeerIke(cfg, sa, t).Some? <==> SelectPeerIke(cfg, sa, u).Some?
  {
    ChooseIkeExactly(cfg.ike, sa.proposals, t);
    ChooseIkeExactly(cfg.ike, sa.proposals, u);
  }

  predicate TakesIke(locals: seq<Proposal>, p: W.Proposal) {
    p.protocolId == W.PROTOCOL_IKE && |p.spi| == 8 && FromWire(p, true).Some? &&
      PickIke(locals, FromWire(p, true).value).Some?
  }

  lemma {:induction false} OffersExist(suites: seq<Proposal>, first: nat, spi: u64)
    ensures IkeOffers(suites, first, spi).Some? <==> forall i :: 0 <= i < |suites| ==>
      IkeOfferTransforms(suites[i]).Some?
    decreases |suites|
  {
    hide IkeOfferTransforms;
    if suites != [] {
      OffersExist(suites[1..], first + 1, spi);
      assert forall i :: 0 <= i < |suites[1..]| ==> suites[1..][i] == suites[i + 1];
      assert forall i :: 0 < i < |suites| ==> suites[i] == suites[1..][i - 1];
    }
  }

  /** A suite of one end selects something from a suite of the other, as it is offered. */
  predicate SomeSuite(locals: seq<Proposal>, remotes: seq<Proposal>) {
    exists i, j :: 0 <= i < |remotes| && 0 <= j < |locals| && Select(locals[j], Offered(remotes[i])).Some?
  }

  lemma TakesOffered(locals: seq<Proposal>, s: Proposal, num: u8, spi: u64)
    requires IkeOfferTransforms(s).Some?
    ensures TakesIke(locals, W.Proposal(num, W.PROTOCOL_IKE, Put64(spi), IkeOfferTransforms(s).value))
       <==> exists j :: 0 <= j < |locals| && Select(locals[j], Offered(s)).Some?
  {
    hide IkeOfferTransforms, Put64, Select, Absorb;
    OfferReadBack(s);
    PickIkeExactly(locals, Offered(s));
    if j :| 0 <= j < |locals| && Select(locals[j], Offered(s)).Some? { SelectSound(locals[j], Offered(s)); }
  }

  /** The responder's search over the whole wire offer succeeds exactly if some configured
      suite of the requester, as offered, suits some configured suite of the responder. */
  lemma OfferAccepted(cfg: Config, peer: Config, spi: u64, t: u64)
    requires IkeOffer(peer, spi).Some?
    ensures CanOffer(peer)
    ensures SelectPeerIke(cfg, IkeOffer(peer, spi).value, t).Some? <==> SomeSuite(cfg.ike, peer.ike)
  {
    hide TakesIke, IkeOfferTransforms, Select, Offered, ChooseIke;
    var ps := IkeOffer(peer, spi).value.proposals;
    OffersExist(peer.ike, 0, spi);
    ChooseIkeExactly(cfg.ike, ps, t);
    forall i | 0 <= i < |ps| ensures TakesIke(cfg.ike, ps[i]) <==>
      exists j :: 0 <= j < |cfg.ike| && Select(cfg.ike[j], Offered(peer.ike[i])).Some? {
      IkeOffersAt(peer.ike, 0, spi, i);
      TakesOffered(cfg.ike, peer.ike[i], (i + 1) % 0x100, spi);
    }
  }

  // ---- The echo of a choice ----

  /** The registered algorithms of `sel`. */
  ghost predicate Known(sel: Selection) {
    && NewEncryption(IdOf(sel.encryption)) == Some(sel.encryption)
    && (if sel.encryption.aead then sel.integrity == NO_INTEGRITY
        else NewIntegrity(sel.integrity.transformId) == Some(sel.integrity))
    && NewPrf(sel.prf.transformId) == Some(sel.prf) && sel.dh == Some(CURVE25519)
  }

  predicate Readable(cfg: Config, num: u8, sel: Selection) {
    sel.dh.Some? && 1 <= num <= |cfg.ike| && Select(cfg.ike[num - 1], Single(sel)).Some?
  }

  /** An echo is decoded to the very selection it was made from, or not at all. */
  lemma EchoDecodes(cfg: Config, p: W.Proposal, t: u64, sel: Selection)
    requires Known(sel)
    ensures DecodeIke(cfg, EchoIke(p, t, sel)) == if Readable(cfg, p.num, sel) then Some((t, sel)) else None
  {
    hide Select, Absorb, EchoIkeTransforms, Put64, Get64;
    EchoReadBack(sel);
    GetPut64(t);
    if 1 <= p.num <= |cfg.ike| { SelectSound(cfg.ike[p.num - 1], Single(sel)); }
  }

  /** The choice does not depend on the SPIs. */
  lemma {:induction false} SameChoice(locals: seq<Proposal>, suites: seq<Proposal>, first: nat, s: u64, t: u64)
    requires IkeOffers(suites, first, s).Some? && IkeOffers(suites, first, 0).Some?
    ensures var a := ChooseIke(locals, IkeOffers(suites, first, s).value, t);
            var b := ChooseIke(locals, IkeOffers(suites, first, 0).value, 0);
            && (a.Some? <==> b.Some?)
            && (a.Some? ==> && a.value.selection == b.value.selection
                            && |a.value.echo.proposals| == |b.value.echo.proposals| == 1
                            && a.value.echo.proposals[0].num == b.value.echo.proposals[0].num)
    decreases |suites|
  {
    hide IkeOfferTransforms, PickIke, Absorb, Put64, Get64;
    if suites != [] {
      SameChoice(locals, suites[1..], first + 1, s, t);
      var a, b := IkeOffers(suites, first, s).value, IkeOffers(suites, first, 0).value;
      assert a[1..] == IkeOffers(suites[1..], first + 1, s).value &&
        b[1..] == IkeOffers(suites[1..], first + 1, 0).value;
      assert FromWire(a[0], true) == FromWire(b[0], true);
    }
  }

  /** Whatever the peer chooses from this end's offers, this end can read. */
  predicate Understands(cfg: Config, peer: Config) {
    match IkeOffer(cfg, 0)
    case None => true
    case Some(offer) =>
      match SelectPeerIke(peer, offer, 0)
      case None => true
      case Some(choice) => |choice.echo.proposals| == 1 && Readable(cfg, choice.echo.proposals[0].num, choice.selection)
  }

  /** The requester decodes an echo to the responder's own selection and SPI if it understands
      the responder, and not at all otherwise. */
  lemma EchoUnderstood(cfg: Config, peer: Config, spi: u64, t: u64, offer: W.SA, choice: IkeChoice)
    requires IkeOffer(cfg, spi) == Some(offer) && SelectPeerIke(peer, offer, t) == Some(choice)
    ensures choice.peerSpi == spi && |choice.echo.proposals| == 1 && Known(choice.selection)
    ensures DecodeIke(cfg, choice.echo) == if Understands(cfg, peer) then Some((t, choice.selection)) else None
  {
    hide ChooseIke, Common, FromWire, DecodeIke, Readable, Put64, Get64, IkeOfferTransforms;
    var i, j := ChosenIke(peer.ike, offer.proposals, t, choice);
    ChoiceKnown(peer.ike[j], FromWire(offer.proposals[i], true).value, choice.selection);
    EchoDecodes(cfg, offer.proposals[i], t, choice.selection);
    OffersExist(cfg.ike, 0, spi);
    OffersExist(cfg.ike, 0, 0);
    SameChoice(peer.ike, cfg.ike, 0, spi, t);
    IkeOffersAt(cfg.ike, 0, spi, i);
    GetPut64(spi);
  }

  lemma ChoiceKnown(local: Proposal, remote: Proposal, sel: Selection)
    requires Common(local, remote, sel)
    ensures Known(sel)
  {
  }

  /** The keys of a known selection are short enough for prf+. */
  lemma KnownLengths(sel: Selection)
    requires Known(sel)
    ensures sel.encryption.keyLen <= 36 && sel.integrity.keyLen <= 64
  {
  }

  /** If both ends can make offers, each takes some of the other's or neither does. */
  predicate Balanced(cx: Config, cy: Config) {
    CanOffer(cx) && CanOffer(cy) ==> (SomeSuite(cx.ike, cy.ike) <==> SomeSuite(cy.ike, cx.ike))
  }

  // ---- Offers of a child ----

  predicate TakesEsp(locals: seq<Proposal>, p: W.Proposal) {
    p.protocolId == W.PROTOCOL_ESP && |p.spi| == 4 && FromWire(p, false).Some? &&
      PickEsp(locals, FromWire(p, false).value).Some?
  }

  lemma {:induction false} ChooseEspExactly(locals: seq<Proposal>, ps: seq<W.Proposal>, spi: u32, wantsDh: bool)
    ensures ChooseEsp(locals, ps, spi, wantsDh).Some? <==> exists i :: 0 <= i < |ps| && TakesEsp(locals, ps[i])
  {
    hide FromWire, PickEsp;
    if ps != [] {
      ChooseEspExactly(locals, ps[1..], spi, wantsDh);
      assert forall i :: 0 <= i < |ps[1..]| ==> ps[1..][i] == ps[i + 1];
      assert forall i :: 0 < i < |ps| ==> ps[i] == ps[1..][i - 1];
    }
  }

  predicate SomeEspSuite(locals: seq<Proposal>, offers: seq<ChildOffer>, includeDh: bool) {
    exists i :: 0 <= i < |offers| && PickEsp(locals, OfferedChild(offers[i], includeDh)).Some?
  }

  predicate TakesChild(cfg: Config, peer: Config) {
    SomeEspSuite(cfg.esp, LocalOffers(peer), peer.childPfs)
  }

  lemma AnyChildSpi(cfg: Config, sa: W.SA, t: u32, u: u32, wantsDh: bool)
    ensures SelectPeerEsp(cfg, sa, t, wantsDh).Some? <==> SelectPeerEsp(cfg, sa, u, wantsDh).Some?
  {
    ChooseEspExactly(cfg.esp, sa.proposals, t, wantsDh);
    ChooseEspExactly(cfg.esp, sa.proposals, u, wantsDh);
  }

  lemma TakesChildOffer(locals: seq<Proposal>, o: ChildOffer, includeDh: bool, num: u8, spi: u32)
    requires ChildOfferTransforms(o, includeDh).Some?
    ensures TakesEsp(locals, W.Proposal(num, W.PROTOCOL_ESP, Put32(spi), ChildOfferTransforms(o, includeDh).value))
       <==> PickEsp(locals, OfferedChild(o, includeDh)).Some?
  {
    hide ChildOfferTransforms, Put32, PickEsp, Absorb;
    ChildOfferReadBack(o, includeDh);
    PickEspSound(locals, OfferedChild(o, includeDh));
  }

  lemma ChildOfferAccepted(cfg: Config, peer: Config, spi: u32, t: u32)
    requires ChildOfferSA(peer, spi).Some?
    ensures CanOfferChild(peer)
    ensures SelectPeerEsp(cfg, ChildOfferSA(peer, spi).value, t, peer.childPfs).Some? <==> TakesChild(cfg, peer)
  {
    hide TakesEsp, ChildOfferTransforms, OfferedChild, ChooseEsp, LocalOffers;
    var ps := ChildOfferSA(peer, spi).value.proposals;
    ChildOffersExist(LocalOffers(peer), 0, spi, peer.childPfs);
    ChooseEspExactly(cfg.esp, ps, t, peer.childPfs);
    forall i | 0 <= i < |ps| ensures TakesEsp(cfg.esp, ps[i]) <==>
      PickEsp(cfg.esp, OfferedChild(LocalOffers(peer)[i], peer.childPfs)).Some? {
      ChildProposalsAt(LocalOffers(peer), 0, spi, peer.childPfs, i);
      TakesChildOffer(cfg.esp, LocalOffers(peer)[i], peer.childPfs, (i + 1) % 0x100, spi);
    }
  }

  predicate CanOfferChild(peer: Config) {
    LocalOffers(peer) != []
    && forall i :: 0 <= i < |LocalOffers(peer)| ==> ChildOfferTransforms(LocalOffers(peer)[i], peer.childPfs).Some?
  }

  lemma {:induction false} ChildOffersExist(offers: seq<ChildOffer>, first: nat, spi: u32, includeDh: bool)
    ensures ChildProposals(offers, first, spi, includeDh).Some?
       <==> forall i :: 0 <= i < |offers| ==> ChildOfferTransforms(offers[i], includeDh).Some?
    decreases |offers|
  {
    hide ChildOfferTransforms;
    if offers != [] {
      ChildOffersExist(offers[1..], first + 1, spi, includeDh);
      assert forall i :: 0 <= i < |offers[1..]| ==> offers[1..][i] == offers[i + 1];
      assert forall i :: 0 < i < |offers| ==> offers[i] == offers[1..][i - 1];
    }
  }

  // ---- The echo of a child choice ----

  predicate ReadableChild(cfg: Config, num: u8, sel: Selection) {
    && 1 <= num <= |LocalOffers(cfg)| && IdOf(sel.encryption) in LocalOffers(cfg)[num - 1].encryption
    && (!sel.encryption.aead ==> sel.integrity.transformId in LocalOffers(cfg)[num - 1].integrity)
  }

  /** The registered algorithms of a child selection; DH only with PFS. */
  ghost predicate KnownChild(sel: Selection) {
    Known(sel.(dh := Some(CURVE25519))) && (sel.dh.Some? ==> sel.dh == Some(CURVE25519))
  }

  lemma ChildEchoDecodes(cfg: Config, ike: Selection, p: W.Proposal, t: u32, sel: Selection)
    requires KnownChild(sel)
    ensures DecodeChild(cfg, ike, EchoEsp(p, t, sel))
         == if ReadableChild(cfg, p.num, sel) then
           Some((t, sel.(prf := ike.prf, dh := if sel.dh.Some? then sel.dh else ike.dh))) else None
  {
    hide LocalOffers, EchoEspTransforms, ReadAll, Put32, Get32;
    ChildEchoReadBack(p, sel);
    GetPut32(t);
  }

  lemma {:induction false} SameChildChoice(locals: seq<Proposal>, offers: seq<ChildOffer>, first: nat, s: u32, t: u32,
                                           pfs: bool)
    requires ChildProposals(offers, first, s, pfs).Some? && ChildProposals(offers, first, 0, pfs).Some?
    ensures var a := ChooseEsp(locals, ChildProposals(offers, first, s, pfs).value, t, pfs);
            var b := ChooseEsp(locals, ChildProposals(offers, first, 0, pfs).value, 0, pfs);
            && (a.Some? <==> b.Some?)
            && (a.Some? ==> && a.value.selection == b.value.selection
                            && |a.value.echo.proposals| == |b.value.echo.proposals| == 1
                            && a.value.echo.proposals[0].num == b.value.echo.proposals[0].num)
    decreases |offers|
  {
    hide ChildOfferTransforms, PickEsp, Absorb, Put32, EchoEspTransforms;
    if offers != [] {
      SameChildChoice(locals, offers[1..], first + 1, s, t, pfs);
      var a, b := ChildProposals(offers, first, s, pfs).value, ChildProposals(offers, first, 0, pfs).value;
      assert a[1..] == ChildProposals(offers[1..], first + 1, s, pfs).value;
      assert b[1..] == ChildProposals(offers[1..], first + 1, 0, pfs).value;
      assert FromWire(a[0], false) == FromWire(b[0], false);
    }
  }

  predicate UnderstandsChild(cfg: Config, peer: Config) {
    match ChildOfferSA(cfg, 0)
    case None => true
    case Some(offer) =>
      match SelectPeerEsp(peer, offer, 0, cfg.childPfs)
      case None => true
      case Some(choice) =>
        |choice.echo.proposals| == 1 && ReadableChild(cfg, choice.echo.proposals[0].num, choice.selection)
  }

  /** What the requester makes of the responder's child selection. */
  function ReadAs(cfg: Config, ike: Selection, theirs: Selection): Selection {
    theirs.(prf := ike.prf, dh := if cfg.childPfs then theirs.dh else ike.dh)
  }

  /** The same for a child: the cipher and integrity are the responder's, the PRF the IKE SA's. */
  lemma ChildEchoUnderstood(cfg: Config, peer: Config, ike: Selection, spi: u32, t: u32, offer: W.SA, choice: EspChoice)
    requires ChildOfferSA(cfg, spi) == Some(offer) && SelectPeerEsp(peer, offer, t, cfg.childPfs) == Some(choice)
    ensures PeerOutboundSpi(offer) == spi && KnownChild(choice.selection)
    ensures (choice.selection.dh.Some? <==> cfg.childPfs)
    ensures DecodeChild(cfg, ike, choice.echo) ==
            if UnderstandsChild(cfg, peer) then Some((t, ReadAs(cfg, ike, choice.selection))) else None
  {
    hide ChooseEsp, FromWire, DecodeChild, ReadableChild, EchoEspTransforms, LocalOffers, Put32, Get32,
         ChildOfferTransforms;
    var offers := LocalOffers(cfg);
    var i, found := ChooseEspAt(peer.esp, offer.proposals, t, cfg.childPfs, choice);
    FoundKnown(FromWire(offer.proposals[i], false).value, found);
    ChildEchoDecodes(cfg, ike, offer.proposals[i], t, choice.selection);
    ChildOffersExist(offers, 0, spi, cfg.childPfs);
    ChildOffersExist(offers, 0, 0, cfg.childPfs);
    SameChildChoice(peer.esp, offers, 0, spi, t, cfg.childPfs);
    ChildProposalsAt(offers, 0, spi, cfg.childPfs, 0);
    GetPut32(spi);
  }

  lemma FoundKnown(remote: Proposal, found: Selection)
    requires ChosenFrom(remote, found)
    ensures Known(found)
  {
  }

  predicate BalancedChild(cx: Config, cy: Config) {
    CanOfferChild(cx) && CanOfferChild(cy) ==> (TakesChild(cx, cy) <==> TakesChild(cy, cx))
  }
}
