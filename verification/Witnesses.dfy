/** Inputs at which the code falls short of what one would expect of it. */
module Witnesses {
  import opened Bytes
  import opened Suite
  import opened Negotiation
  import opened ChildNegotiation
  import opened Offers
  import opened IkeState
  import opened TwoEnds
  import opened TwoChildren
  import opened Splits
  import opened AgreementExactly
  import ChildKeyAgreement
  import SuiteParsing
  import Twins

  // ---- Suites ----

  const BEST := Proposal([EncryptionId(AES_GCM16, 32)], [], [7], [CURVE25519])
  const OTHER_PRF := Proposal([EncryptionId(AES_GCM16, 32)], [], [5], [CURVE25519])
  const NEVER := Proposal([EncryptionId(AES_CBC, 32)], [12], [7], [CURVE25519])
  const LEFT := Proposal([EncryptionId(AES_CBC, 16)], [12, 2], [2], [CURVE25519])
  const RIGHT := Proposal([EncryptionId(AES_CBC, 16)], [2, 12], [2], [CURVE25519])

  lemma Reads(acc: Proposal, t: string, rest: seq<string>)
    ensures SuiteParsing.ReadTokens(acc, [t] + rest)
         == match SuiteParsing.ReadToken(acc, t) case None => None case Some(next) => SuiteParsing.ReadTokens(next,
           rest)
  {
    assert ([t] + rest)[1..] == rest;
  }

  // One lemma per token: a token belongs to exactly one family.

  lemma Aes256(acc: Proposal)
    ensures SuiteParsing.ReadToken(acc, "aes256") ==
      Some(acc.(encryption := SuiteParsing.Push(acc.encryption, EncryptionId(AES_CBC, 32))))
  {
  }

  lemma Aes128(acc: Proposal)
    ensures SuiteParsing.ReadToken(acc, "aes128") ==
      Some(acc.(encryption := SuiteParsing.Push(acc.encryption, EncryptionId(AES_CBC, 16))))
  {
  }

  lemma Sha256(acc: Proposal)
    ensures SuiteParsing.ReadToken(acc, "sha256") == Some(acc.(integrity := SuiteParsing.Push(acc.integrity, 12)))
  {
  }

  lemma Sha1(acc: Proposal)
    ensures SuiteParsing.ReadToken(acc, "sha1") == Some(acc.(integrity := SuiteParsing.Push(acc.integrity, 2)))
  {
  }

  lemma PrfSha1(acc: Proposal)
    ensures SuiteParsing.ReadToken(acc, "prfsha1") == Some(acc.(prf := SuiteParsing.Push(acc.prf, 2)))
  {
  }

  lemma PrfSha512(acc: Proposal)
    ensures SuiteParsing.ReadToken(acc, "prfsha512") == Some(acc.(prf := SuiteParsing.Push(acc.prf, 7)))
  {
  }

  lemma Curve(acc: Proposal)
    ensures SuiteParsing.ReadToken(acc, "curve25519") == Some(acc.(dh := SuiteParsing.Push(acc.dh, CURVE25519)))
  {
  }

  lemma Pushes<T(!new)>(v: T, w: T)
    requires v != w
    ensures SuiteParsing.Push([], v) == [v] && SuiteParsing.Push([v], w) == [v, w]
  {
  }

  lemma NeverParses()
    ensures SuiteParsing.ParseSuite(["aes256"] + (["sha256"] + (["prfsha512"] + (["curve25519"] + [])))) == Some(NEVER)
  {
    hide SuiteParsing.ReadTokens, SuiteParsing.ReadToken;
    var e := [EncryptionId(AES_CBC, 32)];
    Pushes(EncryptionId(AES_CBC, 32), EncryptionId(0, 0));
    Pushes<u16>(12, 0);
    Pushes<u16>(7, 0);
    Pushes<u16>(CURVE25519, 0);
    Reads(Proposal([], [], [], []), "aes256", ["sha256"] + (["prfsha512"] + (["curve25519"] + [])));
    Aes256(Proposal([], [], [], []));
    Reads(Proposal(e, [], [], []), "sha256", ["prfsha512"] + (["curve25519"] + []));
    Sha256(Proposal(e, [], [], []));
    Reads(Proposal(e, [12], [], []), "prfsha512", ["curve25519"] + []);
    PrfSha512(Proposal(e, [12], [], []));
    Reads(Proposal(e, [12], [7], []), "curve25519", []);
    Curve(Proposal(e, [12], [7], []));
    NothingMore(NEVER);
  }

  lemma NothingMore(acc: Proposal)
    ensures SuiteParsing.ReadTokens(acc, []) == Some(acc)
  {
  }

  /** aes256-sha256-prfsha512-curve25519 is accepted by the parser and selects nothing, not even
      from itself. */
  lemma NeverSelected()
    ensures SuiteParsing.ParseSuite(["aes256"] + (["sha256"] + (["prfsha512"] + (["curve25519"] + [])))) == Some(NEVER)
    ensures Select(NEVER, NEVER).None?
  {
    hide SuiteParsing.ParseSuite;
    NeverParses();
  }

  // ---- Two ends of which one takes the other's offers, and not the other way round ----

  /** What is read once cipher and integrity are: the SHA-1 PRF and the group. */
  lemma EndsAlike(e: seq<EncryptionId>, integrity: seq<u16>)
    ensures SuiteParsing.ReadTokens(Proposal(e, integrity, [], []), ["prfsha1"] + (["curve25519"] + [])) ==
      Some(Proposal(e, integrity, [2], [CURVE25519]))
  {
    hide SuiteParsing.ReadTokens, SuiteParsing.ReadToken;
    Pushes<u16>(2, 0);
    Pushes<u16>(CURVE25519, 0);
    Reads(Proposal(e, integrity, [], []), "prfsha1", ["curve25519"] + []);
    PrfSha1(Proposal(e, integrity, [], []));
    Reads(Proposal(e, integrity, [2], []), "curve25519", []);
    Curve(Proposal(e, integrity, [2], []));
    NothingMore(Proposal(e, integrity, [2], [CURVE25519]));
  }

  lemma BothParse()
    ensures SuiteParsing.ParseSuite(["aes128"] + (["sha256"] + (["sha1"] + (["prfsha1"] + (["curve25519"] + []))))) ==
      Some(LEFT)
    ensures SuiteParsing.ParseSuite(["aes128"] + (["sha1"] + (["sha256"] + (["prfsha1"] + (["curve25519"] + []))))) ==
      Some(RIGHT)
  {
    hide SuiteParsing.ReadTokens, SuiteParsing.ReadToken;
    var e, tail := [EncryptionId(AES_CBC, 16)], ["prfsha1"] + (["curve25519"] + []);
    Pushes(EncryptionId(AES_CBC, 16), EncryptionId(0, 0));
    Pushes<u16>(2, 12);
    Pushes<u16>(12, 2);
    Reads(Proposal([], [], [], []), "aes128", ["sha256"] + (["sha1"] + tail));
    Reads(Proposal([], [], [], []), "aes128", ["sha1"] + (["sha256"] + tail));
    Aes128(Proposal([], [], [], []));
    Reads(Proposal(e, [], [], []), "sha256", ["sha1"] + tail);
    Sha256(Proposal(e, [], [], []));
    Reads(Proposal(e, [12], [], []), "sha1", tail);
    Sha1(Proposal(e, [12], [], []));
    EndsAlike(e, [12, 2]);
    Reads(Proposal(e, [], [], []), "sha1", ["sha256"] + tail);
    Sha1(Proposal(e, [], [], []));
    Reads(Proposal(e, [2], [], []), "sha256", tail);
    Sha256(Proposal(e, [2], [], []));
    EndsAlike(e, [2, 12]);
  }

  lemma OneSided()
    ensures Select(RIGHT, LEFT).Some? && Select(LEFT, RIGHT).None? && Offered(LEFT) == LEFT && Offered(RIGHT) == RIGHT
  {
    var e := EncryptionId(AES_CBC, 16);
    assert !AnyAead(LEFT.encryption) && !AnyAead(RIGHT.encryption);
    assert PickIntegrity([12, 2], [2, 12]) == NewIntegrity(12);
    assert PickIntegrity([2, 12], [12, 2]) == NewIntegrity(2);
    assert PickPrf([2], [2], Integrity(2, 12, 20)) == NewPrf(2);
    assert [2][1..] == [] && PickPrf([2], [2], Integrity(12, 16, 32)) == PickPrf([], [2], Integrity(12, 16, 32));
  }

  function Ends(suite: Proposal): Config {
    Config([suite], [suite], false, false)
  }

  lemma CanOfferEnds(suite: Proposal)
    requires |suite.encryption| == 1 && NewEncryption(suite.encryption[0]).Some?
    ensures CanOffer(Ends(suite))
  {
    OneEncryption(suite.encryption[0]);
    assert suite.encryption == [suite.encryption[0]];
  }

  /** aes128-sha256-sha1-prfsha1-curve25519 against aes128-sha1-sha256-prfsha1-curve25519: the parser
      accepts both, and some fair run leaves the two ends on different SAs. */
  lemma OneSidedSplits() returns (x: State, y: State, turns: seq<Turn>)
    ensures SuiteParsing.ParseSuite(["aes128"] + (["sha256"] + (["sha1"] + (["prfsha1"] + (["curve25519"] + []))))) ==
      Some(LEFT)
    ensures SuiteParsing.ParseSuite(["aes128"] + (["sha1"] + (["sha256"] + (["prfsha1"] + (["curve25519"] + []))))) ==
      Some(RIGHT)
    ensures Founded(x, y) && FairLife(Ends(LEFT), Ends(RIGHT), Counting(), Start(x, y), turns)
    ensures !Agreed(LiveAll(Ends(LEFT), Ends(RIGHT), Counting(), Start(x, y), turns).w)
  {
    hide Founded, FairLife, LiveAll, Agreed, Counting, Select, SuiteParsing.ParseSuite, Understands, CanOffer, Offered;
    BothParse();
    OneSided();
    CanOfferEnds(LEFT);
    CanOfferEnds(RIGHT);
    assert SomeSuite([RIGHT], [LEFT]) by { assert Select([RIGHT][0], Offered([LEFT][0])).Some?; }
    assert !SomeSuite([LEFT], [RIGHT]);
    x, y, turns := IncompatibleSplits(Ends(LEFT), Ends(RIGHT));
  }

  // ---- A child whose keys the two ends derive with different PRFs ----

  const TWO_PRFS := Config([BEST], [OTHER_PRF], false, false)

  lemma {:induction false} PickedFrom(locals: seq<Proposal>, remote: Proposal, id: u16)
    requires forall k :: 0 <= k < |locals| ==> locals[k].prf == [id]
    ensures PickEsp(locals, remote).Some? ==> PickEsp(locals, remote).value.prf.transformId == id
    decreases |locals|
  {
    hide Select;
    if locals != [] {
      SelectSound(locals[0], Supplied(locals[0], remote));
      PickedFrom(locals[1..], Supplied(locals[0], remote), id);
    }
  }

  lemma {:induction false} ChosenWith(locals: seq<Proposal>, ps: seq<W.Proposal>, spi: u32, wantsDh: bool, id: u16)
    requires forall k :: 0 <= k < |locals| ==> locals[k].prf == [id]
    ensures var r := ChooseEsp(locals, ps, spi, wantsDh); r.Some? ==> r.value.selection.prf.transformId == id
  {
    hide FromWire, PickEsp, EchoEsp;
    if ps != [] {
      ChosenWith(locals, ps[1..], spi, wantsDh, id);
      if FromWire(ps[0], false).Some? { PickedFrom(locals, FromWire(ps[0], false).value, id); }
    }
  }

  lemma TwoPrfsUsable()
    ensures Twins.Usable(TWO_PRFS.ike) && Twins.Usable(TWO_PRFS.esp)
  {
    assert SuiteParsing.Coherent(TWO_PRFS.ike[0]) && SuiteParsing.Coherent(TWO_PRFS.esp[0]);
    assert SuiteParsing.Aead(BEST.encryption[0]) && SuiteParsing.Aead(OTHER_PRF.encryption[0]);
  }

  /** Two ends with the IKE suite aes256gcm16-prfsha512-curve25519 and the ESP suite
      aes256gcm16-prfsha256-curve25519: the IKE SA they negotiate has the one PRF, the child of a
      rekey is keyed with it at the requester and with the other one at the responder, and for
      some keyed hash that gives different keys. */
  lemma PrfsDiffer(s: u64, t: u64, u: u32, v: u32, skd: bytes, ni: bytes, nr: bytes, shared: bytes)
    ensures IkeOffer(TWO_PRFS, s).Some? && ChildOfferSA(TWO_PRFS, u).Some?
    ensures var ike := SelectPeerIke(TWO_PRFS, IkeOffer(TWO_PRFS, s).value, t);
            var esp := SelectPeerEsp(TWO_PRFS, ChildOfferSA(TWO_PRFS, u).value, v, false);
            && ike.Some? && esp.Some? && ike.value.selection.prf == Prf(7, 64) && esp.value.selection.prf == Prf(5, 32)
            && !ChildKeyAgreement.AlwaysAgree(Prf(7, 64), Prf(5, 32), skd, ni, nr, shared,
                                              esp.value.selection.encryption, esp.value.selection.integrity)
  {
    hide IkeOffer, ChildOfferSA, SelectPeerIke, DecodeIke, DecodeChild, ChildKeyAgreement.AlwaysAgree, Twins.Usable,
         TakesChild, CanOffer, CanOfferChild, PeerOutboundSpi, UnderstandsChild;
    TwoPrfsUsable();
    Twins.TwinsServe(TWO_PRFS);
    assert IkeOffer(TWO_PRFS, s).Some? && ChildOfferSA(TWO_PRFS, u).Some? by { TwoPrfsOffer(s, u); }
    OfferAccepted(TWO_PRFS, TWO_PRFS, s, t);
    ChildOfferAccepted(TWO_PRFS, TWO_PRFS, u, v);
    var offer := IkeOffer(TWO_PRFS, s).value;
    var index, local := IkeAgreement(TWO_PRFS, TWO_PRFS, s, t, offer, SelectPeerIke(TWO_PRFS, offer, t).value);
    var child := ChildOfferSA(TWO_PRFS, u).value;
    ChosenWith(TWO_PRFS.esp, child.proposals, v, false, 5);
    var choice := SelectPeerEsp(TWO_PRFS, child, v, false).value;
    ChildEchoUnderstood(TWO_PRFS, TWO_PRFS, SUITE, u, v, child, choice);
    KnownKeys(choice.selection);
    ChildKeyAgreement.SamePrfNeeded(Prf(7, 64), Prf(5, 32), skd, ni, nr, shared, choice.selection.encryption,
                                    choice.selection.integrity);
  }

  lemma TwoPrfsOffer(s: u64, u: u32)
    ensures IkeOffer(TWO_PRFS, s).Some? && ChildOfferSA(TWO_PRFS, u).Some?
  {
    OneEncryption(EncryptionId(AES_GCM16, 32));
    OffersExist(TWO_PRFS.ike, 0, s);
    var o := ChildOffer(OTHER_PRF.encryption, [], [CURVE25519], false);
    assert TWO_PRFS.esp[1..] == [] && AddVariant([], o) == [] + [o] == [o];
    assert ChildOffers(TWO_PRFS.esp, false, []) == ChildOffers(TWO_PRFS.esp[1..], false, AddVariant([], o));
    assert LocalOffers(TWO_PRFS) == [o];
    ChildOffersExist([o], 0, u, false);
  }

  lemma KnownKeys(sel: Selection)
    requires KnownChild(sel)
    ensures 0 < sel.encryption.keyLen <= 36 && sel.integrity.keyLen <= 64
  {
  }
}
