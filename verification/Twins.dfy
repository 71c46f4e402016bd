/** Suites as the parser makes them, and ends that are configured alike: they meet the condition
    under which two ends agree. */
module Twins {
  import opened Suite
  import opened Negotiation
  import opened ChildNegotiation
  import opened Offers
  import opened TwoChildren
  import SuiteParsing

  lemma OfferedAsIs(s: Proposal)
    requires SuiteParsing.WellFormed(s)
    ensures Offered(s) == s && (AnyAead(s.encryption) ==> s.integrity == [])
  {
    if AnyAead(s.encryption) {
      var i :| 0 <= i < |s.encryption| && NewEncryption(s.encryption[i]).Some? &&
        NewEncryption(s.encryption[i]).value.aead;
      assert SuiteParsing.Aead(s.encryption[i]);
    }
  }

  /** Only whether the group is listed matters. */
  lemma AnyGroup(local: Proposal, r: Proposal, q: Proposal)
    requires q == r.(dh := q.dh) && CURVE25519 in r.dh && CURVE25519 in q.dh
    ensures Select(local, r).Some? ==> Select(local, q).Some?
  {
    hide PickPrf, PickIntegrity, PickDh;
    PickedDh(local.dh, r.dh);
    PickedDh(local.dh, q.dh);
    SameCiphers(local.encryption, local, r, q);
  }

  lemma {:induction false} SameCiphers(wants: seq<EncryptionId>, local: Proposal, r: Proposal, q: Proposal)
    requires r.encryption == q.encryption && r.integrity == q.integrity
    ensures PickEncryption(wants, local, r) == PickEncryption(wants, local, q)
  {
    if wants != [] { SameCiphers(wants[1..], local, r, q); }
  }

  ghost predicate Grouped(suites: seq<Proposal>) {
    forall i :: 0 <= i < |suites| ==> CURVE25519 in suites[i].dh
  }

  /** The search over the local suites reaches any suite that would select something. */
  lemma {:induction false} PickEspFinds(locals: seq<Proposal>, remote: Proposal, k: nat)
    requires Grouped(locals) && k < |locals| && (remote.dh == [] || CURVE25519 in remote.dh)
    requires Select(locals[k], remote.(prf := locals[k].prf, dh := locals[k].dh)).Some?
    ensures PickEsp(locals, remote).Some?
    decreases k
  {
    hide Select;
    var next := Supplied(locals[0], remote);
    if k == 0 {
      AnyGroup(locals[0], remote.(prf := locals[0].prf, dh := locals[0].dh), next);
    } else {
      assert locals[1..][k - 1] == locals[k];
      PickEspFinds(locals[1..], next, k - 1);
    }
  }

  ghost predicate Grows(acc: seq<ChildOffer>, r: seq<ChildOffer>) {
    |acc| <= |r| && r[..|acc|] == acc
  }

  ghost predicate Has(offers: seq<ChildOffer>, s: Proposal) {
    exists i :: 0 <= i < |offers| && Same(offers[i], s)
  }

  ghost predicate GroupedOffers(offers: seq<ChildOffer>) {
    forall i :: 0 <= i < |offers| ==> CURVE25519 in offers[i].dh
  }

  lemma VariantAdded(acc: seq<ChildOffer>, s: Proposal, omitEsn: bool)
    ensures var r := AddVariant(acc, ChildOffer(s.encryption, s.integrity, s.dh, omitEsn));
            Grows(acc, r) && Has(r, s) && (GroupedOffers(acc) && CURVE25519 in s.dh ==> GroupedOffers(r))
  {
    var o := ChildOffer(s.encryption, s.integrity, s.dh, omitEsn);
    var r := AddVariant(acc, o);
    if i :| 0 <= i < |acc| && SameVariant(acc[i], o) { assert Same(r[i], s); } else { assert Same(r[|acc|], s); }
  }

  lemma HasMore(acc: seq<ChildOffer>, r: seq<ChildOffer>, s: Proposal)
    requires Grows(acc, r) && Has(acc, s)
    ensures Has(r, s)
  {
    var i :| 0 <= i < |acc| && Same(acc[i], s);
    assert r[i] == r[..|acc|][i];
  }

  /** Every configured suite is offered for a child. */
  lemma {:induction false} OffersCover(suites: seq<Proposal>, compatible: bool, acc: seq<ChildOffer>)
    requires Grouped(suites) && GroupedOffers(acc)
    ensures var r := ChildOffers(suites, compatible, acc);
            Grows(acc, r) && GroupedOffers(r) && forall k :: 0 <= k < |suites| ==> Has(r, suites[k])
    decreases |suites|
  {
    hide AnyAead, AddVariant, Has, GroupedOffers;
    if suites != [] {
      var s := suites[0];
      var plain := AddVariant(acc, ChildOffer(s.encryption, s.integrity, s.dh, false));
      VariantAdded(acc, s, false);
      VariantAdded(plain, s, true);
      var next := if compatible &&
        AnyAead(s.encryption) then AddVariant(plain, ChildOffer(s.encryption, s.integrity, s.dh, true)) else plain;
      OffersCover(suites[1..], compatible, next);
      HasMore(next, ChildOffers(suites, compatible, acc), s);
      assert forall k :: 0 < k < |suites| ==> suites[k] == suites[1..][k - 1];
    }
  }

  predicate Same(o: ChildOffer, s: Proposal) {
    o.encryption == s.encryption && o.integrity == s.integrity
  }

  /** Suites as the parser makes them, one of which can be selected. */
  ghost predicate Usable(suites: seq<Proposal>) {
    && (forall i :: 0 <= i < |suites| ==> SuiteParsing.WellFormed(suites[i]))
    && (exists i :: 0 <= i < |suites| && SuiteParsing.Coherent(suites[i]))
  }

  lemma UsableSelects(suites: seq<Proposal>)
    requires Usable(suites)
    ensures SomeSuite(suites, suites) && Grouped(suites)
  {
    hide Select;
    var i :| 0 <= i < |suites| && SuiteParsing.Coherent(suites[i]);
    SuiteParsing.SelfSelects(suites[i]);
    OfferedAsIs(suites[i]);
    forall k | 0 <= k < |suites| ensures CURVE25519 in suites[k].dh { assert suites[k].dh[0] in suites[k].dh; }
  }

  /** The child offer made for a coherent suite is taken by that suite. */
  lemma OfferTaken(locals: seq<Proposal>, k: nat, o: ChildOffer, includeDh: bool)
    requires Grouped(locals) && k < |locals| && SuiteParsing.WellFormed(locals[k]) && SuiteParsing.Coherent(locals[k])
    requires Same(o, locals[k]) && CURVE25519 in o.dh
    ensures PickEsp(locals, OfferedChild(o, includeDh)).Some?
  {
    hide Select, PickEsp, SuiteParsing.WellFormed;
    var s, remote := locals[k], OfferedChild(o, includeDh);
    SuiteParsing.SelfSelects(s);
    OfferedAsIs(s);
    assert remote.(prf := s.prf, dh := s.dh) == s;
    PickEspFinds(locals, remote, k);
  }

  lemma TwinsTakeEsp(cfg: Config)
    requires Usable(cfg.esp)
    ensures TakesChild(cfg, cfg)
  {
    hide PickEsp, ChildOffers, SuiteParsing.WellFormed, SuiteParsing.Coherent, OfferedChild;
    UsableSelects(cfg.esp);
    var k :| 0 <= k < |cfg.esp| && SuiteParsing.Coherent(cfg.esp[k]);
    OffersCover(cfg.esp, cfg.strongswanCompatible, []);
    var offers := LocalOffers(cfg);
    assert Has(offers, cfg.esp[k]);
    var i :| 0 <= i < |offers| && Same(offers[i], cfg.esp[k]);
    OfferTaken(cfg.esp, k, offers[i], cfg.childPfs);
  }

  ghost predicate Parsed(suites: seq<Proposal>) {
    |suites| <= 255 && forall i :: 0 <= i < |suites| ==> SuiteParsing.WellFormed(suites[i])
  }

  /** An end with parsed suites reads whatever any peer chooses from its IKE offers, */
  lemma ParsedUnderstands(cfg: Config, peer: Config)
    requires Parsed(cfg.ike)
    ensures Understands(cfg, peer)
  {
    hide SelectPeerIke, IkeOffer, DecodeIke, Readable, SuiteParsing.WellFormed, Known;
    if IkeOffer(cfg, 0).Some? && SelectPeerIke(peer, IkeOffer(cfg, 0).value, 0).Some? {
      var offer := IkeOffer(cfg, 0).value;
      var choice := SelectPeerIke(peer, offer, 0).value;
      var index, local := IkeAgreement(cfg, peer, 0, 0, offer, choice);
      OfferedAsIs(cfg.ike[index]);
      EchoUnderstood(cfg, peer, 0, 0, offer, choice);
      assert choice.selection.encryption.aead ==> AnyAead(cfg.ike[index].encryption);
    }
  }

  /** and one with no more than 255 child offers whatever it chooses from those. */
  lemma ListedUnderstands(cfg: Config, peer: Config)
    requires |LocalOffers(cfg)| <= 255
    ensures UnderstandsChild(cfg, peer)
  {
    hide SelectPeerEsp, ChildOfferSA, DecodeChild, ReadableChild, LocalOffers, KnownChild, PeerOutboundSpi;
    if ChildOfferSA(cfg, 0).Some? && SelectPeerEsp(peer, ChildOfferSA(cfg, 0).value, 0, cfg.childPfs).Some? {
      var offer := ChildOfferSA(cfg, 0).value;
      var choice := SelectPeerEsp(peer, offer, 0, cfg.childPfs).value;
      ChildAgreement(cfg, peer, choice.selection, 0, 0, cfg.childPfs, offer, choice);
      ChildEchoUnderstood(cfg, peer, choice.selection, 0, 0, offer, choice);
    }
  }

  /** Two ends configured alike with parsed suites always agree. */
  lemma TwinsMatched(cfg: Config)
    requires Parsed(cfg.ike) && |LocalOffers(cfg)| <= 255
    ensures Matched(cfg, cfg)
  {
    hide Understands, UnderstandsChild, SomeSuite, TakesChild, CanOffer, CanOfferChild, LocalOffers;
    ParsedUnderstands(cfg, cfg);
    ListedUnderstands(cfg, cfg);
  }

  /** They take each other's offers as soon as one suite of each kind is coherent. */
  lemma TwinsServe(cfg: Config)
    requires Usable(cfg.ike) && Usable(cfg.esp)
    ensures SomeSuite(cfg.ike, cfg.ike) && TakesChild(cfg, cfg)
  {
    hide SomeSuite, TakesChild;
    UsableSelects(cfg.ike);
    TwinsTakeEsp(cfg);
  }
}
