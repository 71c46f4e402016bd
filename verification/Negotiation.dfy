/** SA negotiation over the wire structures: building the offers of a rekey
    request, choosing one as responder, echoing it, and decoding the echo. */
module Negotiation {
  import opened Bytes
  import opened Suite
  import W = SaPayload

  datatype Config = Config(ike: seq<Proposal>, esp: seq<Proposal>, childPfs: bool, strongswanCompatible: bool)

  // ---- Transform lists ----

  function EncTransform(id: EncryptionId): Option<W.Transform> {
    match NewEncryption(id)
    case None => None
    case Some(alg) => Some(W.Transform(W.ENC, id.transformId, W.KeyLengthAttr(alg.transformKeyLen * 8)))
  }

  function EncTransforms(ids: seq<EncryptionId>): (r: Option<seq<W.Transform>>)
    ensures r.Some? ==> |r.value| == |ids|
  {
    if ids == [] then Some([]) else
    match EncTransform(ids[0])
    case None => None
    case Some(t) =>
      match EncTransforms(ids[1..])
      case None => None
      case Some(ts) => Some([t] + ts)
  }

  function PlainTransforms(typ: u8, ids: seq<u16>): (ts: seq<W.Transform>) {
    seq(|ids|, i requires 0 <= i < |ids| => W.Transform(typ, ids[i], []))
  }

  /** Whether some cipher of the list is a registered AEAD cipher. */
  predicate AnyAead(ids: seq<EncryptionId>) {
    exists i :: 0 <= i < |ids| && NewEncryption(ids[i]).Some? && NewEncryption(ids[i]).value.aead
  }

  // ---- Reading a transform list back into a suite ----

  /** The suite read so far, extended by one transform; None rejects the proposal. */
  function AbsorbOne(acc: Proposal, t: W.Transform, isIke: bool): Option<Proposal> {
    if t.typ == W.ENC then
      match W.ParseKeyLengthAttr(t.attrs)
      case None => None
      case Some(bits) =>
        if bits == 0 || bits % 8 != 0 then None
        else Some(acc.(encryption := acc.encryption + [EncryptionId(t.id, bits / 8)]))
    else if t.typ == W.INTEG then
      if t.attrs != [] then None else Some(acc.(integrity := acc.integrity + [t.id]))
    else if t.typ == W.PRF then
      if !isIke || t.attrs != [] then None else Some(acc.(prf := acc.prf + [t.id]))
    else if t.typ == W.DH then
      if t.attrs != [] then None else Some(acc.(dh := acc.dh + [t.id]))
    else if t.typ == W.ESN then
      if isIke || t.id != 0 then None else Some(acc)
    else None
  }

  function Absorb(acc: Proposal, ts: seq<W.Transform>, isIke: bool): Option<Proposal>
    decreases |ts|
  {
    if ts == [] then Some(acc) else
    match AbsorbOne(acc, ts[0], isIke)
    case None => None
    case Some(next) => Absorb(next, ts[1..], isIke)
  }

  const EMPTY := Proposal([], [], [], [])

  function FromWire(p: W.Proposal, isIke: bool): Option<Proposal> {
    match Absorb(EMPTY, p.transforms, isIke)
    case None => None
    case Some(r) =>
      if r.encryption == [] || (isIke && (r.dh == [] || r.prf == [])) then None else Some(r)
  }

  lemma {:induction false} AbsorbConcat(acc: Proposal, a: seq<W.Transform>, b: seq<W.Transform>, isIke: bool)
    ensures Absorb(acc, a + b, isIke) == match Absorb(acc, a, isIke)
                                         case None => None
                                         case Some(mid) => Absorb(mid, b, isIke)
    decreases |a|
  {
    if a == [] {
      assert a + b == b;
    } else {
      assert (a + b)[0] == a[0] && (a + b)[1..] == a[1..] + b;
      match AbsorbOne(acc, a[0], isIke)
      case None =>
      case Some(next) => AbsorbConcat(next, a[1..], b, isIke);
    }
  }

  lemma AbsorbEnc(acc: Proposal, id: EncryptionId, isIke: bool)
    requires NewEncryption(id).Some?
    ensures AbsorbOne(acc, EncTransform(id).value, isIke) == Some(acc.(encryption := acc.encryption + [id]))
  {
    W.KeyLengthRoundTrip(id.keyLen * 8);
  }

  lemma {:induction false} AbsorbEncs(acc: Proposal, ids: seq<EncryptionId>, isIke: bool)
    requires EncTransforms(ids).Some?
    ensures Absorb(acc, EncTransforms(ids).value, isIke) == Some(acc.(encryption := acc.encryption + ids))
    decreases |ids|
  {
    if ids == [] {
      assert acc.encryption + ids == acc.encryption;
    } else {
      var next := acc.(encryption := acc.encryption + [ids[0]]);
      AbsorbEnc(acc, ids[0], isIke);
      AbsorbEncs(next, ids[1..], isIke);
      assert next.encryption + ids[1..] == acc.encryption + ids;
      assert EncTransforms(ids).value[1..] == EncTransforms(ids[1..]).value;
    }
  }

  predicate IsPlain(typ: u8, isIke: bool) {
    typ == W.INTEG || typ == W.DH || (typ == W.PRF && isIke)
  }

  /** The suite with one plain family extended. */
  function Extend(acc: Proposal, typ: u8, ids: seq<u16>): Proposal {
    if typ == W.INTEG then acc.(integrity := acc.integrity + ids)
    else if typ == W.PRF then acc.(prf := acc.prf + ids)
    else acc.(dh := acc.dh + ids)
  }

  lemma ExtendSplit(acc: Proposal, typ: u8, ids: seq<u16>)
    ensures ids == [] ==> Extend(acc, typ, ids) == acc
    ensures ids != [] ==> Extend(Extend(acc, typ, ids[..1]), typ, ids[1..]) == Extend(acc, typ, ids)
  {
    if ids == [] {
      assert acc.integrity + ids == acc.integrity && acc.prf + ids == acc.prf && acc.dh + ids == acc.dh;
    } else {
      assert ids[..1] + ids[1..] == ids;
      assert acc.integrity + ids[..1] + ids[1..] == acc.integrity + (ids[..1] + ids[1..]);
      assert acc.prf + ids[..1] + ids[1..] == acc.prf + (ids[..1] + ids[1..]);
      assert acc.dh + ids[..1] + ids[1..] == acc.dh + (ids[..1] + ids[1..]);
    }
  }

  lemma {:induction false} AbsorbPlain(acc: Proposal, typ: u8, ids: seq<u16>, isIke: bool)
    requires IsPlain(typ, isIke)
    ensures Absorb(acc, PlainTransforms(typ, ids), isIke) == Some(Extend(acc, typ, ids))
    decreases |ids|
  {
    ExtendSplit(acc, typ, ids);
    if ids != [] {
      var next := Extend(acc, typ, ids[..1]);
      AbsorbPlain(next, typ, ids[1..], isIke);
      assert PlainTransforms(typ, ids)[1..] == PlainTransforms(typ, ids[1..]);
      assert ids[..1] == [ids[0]];
      assert AbsorbOne(acc, PlainTransforms(typ, ids)[0], isIke) == Some(next);
    }
  }

  // ---- IKE: offer, choose, echo, decode ----

  function IkeOfferTransforms(s: Proposal): Option<seq<W.Transform>> {
    match EncTransforms(s.encryption)
    case None => None
    case Some(enc) =>
      Some(enc + (PlainTransforms(W.PRF, s.prf)
                  + (PlainTransforms(W.INTEG, if AnyAead(s.encryption) then [] else s.integrity)
                     + PlainTransforms(W.DH, s.dh))))
  }

  function IkeOffers(suites: seq<Proposal>, first: nat, spi: u64): (r: Option<seq<W.Proposal>>)
    ensures r.Some? ==> |r.value| == |suites|
  {
    if suites == [] then Some([]) else
    match IkeOfferTransforms(suites[0])
    case None => None
    case Some(ts) =>
      match IkeOffers(suites[1..], first + 1, spi)
      case None => None
      case Some(ps) => Some([W.Proposal((first + 1) % 0x100, W.PROTOCOL_IKE, Put64(spi), ts)] + ps)
  }

  function IkeOffer(cfg: Config, spi: u64): Option<W.SA> {
    if cfg.ike == [] then None else
    match IkeOffers(cfg.ike, 0, spi)
    case None => None
    case Some(ps) => Some(W.SA(ps))
  }

  /** First local suite that selects something from `remote`. */
  function PickIke(locals: seq<Proposal>, remote: Proposal): Option<Selection> {
    if locals == [] then None else
    match Select(locals[0], remote)
    case Some(sel) => Some(sel)
    case None => PickIke(locals[1..], remote)
  }

  function EchoIkeTransforms(sel: Selection): seq<W.Transform>
    requires sel.dh.Some?
  {
    [W.Transform(W.ENC, sel.encryption.transformId, W.KeyLengthAttr(sel.encryption.transformKeyLen * 8 % 0x1_0000))]
    + (if sel.encryption.aead then [] else [W.Transform(W.INTEG, sel.integrity.transformId, [])])
    + [W.Transform(W.PRF, sel.prf.transformId, [])] + [W.Transform(W.DH, sel.dh.value, [])]
  }

  function EchoIke(peer: W.Proposal, spi: u64, sel: Selection): W.SA
    requires sel.dh.Some?
  {
    W.SA([W.Proposal(peer.num, W.PROTOCOL_IKE, Put64(spi), EchoIkeTransforms(sel))])
  }

  datatype IkeChoice = IkeChoice(echo: W.SA, selection: Selection, peerSpi: u64)

  lemma {:induction false} PickIkeSound(locals: seq<Proposal>, remote: Proposal)
    ensures var r := PickIke(locals, remote);
            r.Some? ==> exists i :: && 0 <= i < |locals| && Select(locals[i], remote) == r
                                    && Common(locals[i], remote, r.value)
  {
    if locals != [] {
      SelectSound(locals[0], remote);
      if Select(locals[0], remote).None? && PickIke(locals, remote).Some? {
        PickIkeSound(locals[1..], remote);
        var i :| 0 <= i < |locals[1..]| && Select(locals[1..][i], remote) == PickIke(locals, remote)
                 && Common(locals[1..][i], remote, PickIke(locals, remote).value);
        assert locals[1..][i] == locals[i + 1];
      }
    }
  }

  /** The first proposal of the peer's SA that some local suite accepts. */
  function ChooseIke(locals: seq<Proposal>, ps: seq<W.Proposal>, responseSpi: u64): Option<IkeChoice> {
    if ps == [] then None
    else
      var rest := ChooseIke(locals, ps[1..], responseSpi);
      if ps[0].protocolId != W.PROTOCOL_IKE || |ps[0].spi| != 8 then rest else
      match FromWire(ps[0], true)
      case None => rest
      case Some(remote) =>
        PickIkeSound(locals, remote);
        match PickIke(locals, remote)
        case None => rest
        case Some(sel) => Some(IkeChoice(EchoIke(ps[0], responseSpi, sel), sel, Get64(ps[0].spi)))
  }

  function SelectPeerIke(cfg: Config, sa: W.SA, responseSpi: u64): Option<IkeChoice> {
    if cfg.ike == [] then None else ChooseIke(cfg.ike, sa.proposals, responseSpi)
  }

  predicate MatchesEcho(sel: Selection, remote: Proposal)
    requires |remote.encryption| == 1 && |remote.prf| == 1 && |remote.dh| == 1
  {
    && IdOf(sel.encryption) == remote.encryption[0]
    && (if sel.encryption.aead then remote.integrity == []
        else |remote.integrity| == 1 && sel.integrity.transformId == remote.integrity[0])
    && sel.prf.transformId == remote.prf[0] && sel.dh == Some(remote.dh[0])
  }

  /** The requester maps the echoed proposal back onto its own offer list. */
  function DecodeIke(cfg: Config, sa: W.SA): Option<(u64, Selection)>
    requires sa.proposals != []
  {
    var p := sa.proposals[0];
    if p.protocolId != W.PROTOCOL_IKE || |p.spi| != 8 then None
    else if p.num == 0 || p.num > |cfg.ike| then None
    else match Absorb(EMPTY, p.transforms, true)
         case None => None
         case Some(remote) =>
           match Select(cfg.ike[p.num - 1], remote)
           case None => None
           case Some(sel) =>
             if |remote.encryption| != 1 || |remote.prf| != 1 || |remote.dh| != 1 then None
             else if !MatchesEcho(sel, remote) then None
             else Some((Get64(p.spi), sel))
  }

  // ---- IKE agreement ----

  /** What the peer reads from the offer made for suite `s`. */
  function Offered(s: Proposal): Proposal {
    Proposal(s.encryption, if AnyAead(s.encryption) then [] else s.integrity, s.prf, s.dh)
  }

  /** The chain of families an offer or an echo is made of, read in order. */
  lemma FamiliesReadBack(enc: seq<EncryptionId>, typ1: u8, ids1: seq<u16>, typ2: u8, ids2: seq<u16>,
                         typ3: u8, ids3: seq<u16>, isIke: bool)
    requires EncTransforms(enc).Some?
    requires IsPlain(typ1, isIke) && IsPlain(typ2, isIke) && IsPlain(typ3, isIke)
    ensures Absorb(EMPTY, EncTransforms(enc).value
                          + (PlainTransforms(typ1,
                                             ids1) + (PlainTransforms(typ2, ids2) + PlainTransforms(typ3, ids3))),
                                               isIke)
         == Some(Extend(Extend(Extend(EMPTY.(encryption := enc), typ1, ids1), typ2, ids2), typ3, ids3))
  {
    var p1 := EMPTY.(encryption := enc);
    var p2 := Extend(p1, typ1, ids1);
    var p3 := Extend(p2, typ2, ids2);
    var b1, b2, b3 := PlainTransforms(typ1, ids1), PlainTransforms(typ2, ids2), PlainTransforms(typ3, ids3);
    AbsorbEncs(EMPTY, enc, isIke);
    assert EMPTY.encryption + enc == enc;
    AbsorbPlain(p1, typ1, ids1, isIke);
    AbsorbPlain(p2, typ2, ids2, isIke);
    AbsorbPlain(p3, typ3, ids3, isIke);
    AbsorbConcat(p2, b2, b3, isIke);
    AbsorbConcat(p1, b1, b2 + b3, isIke);
    AbsorbConcat(EMPTY, EncTransforms(enc).value, b1 + (b2 + b3), isIke);
  }

  lemma OfferReadBack(s: Proposal)
    requires IkeOfferTransforms(s).Some?
    ensures Absorb(EMPTY, IkeOfferTransforms(s).value, true) == Some(Offered(s))
  {
    var integ := if AnyAead(s.encryption) then [] else s.integrity;
    FamiliesReadBack(s.encryption, W.PRF, s.prf, W.INTEG, integ, W.DH, s.dh, true);
    assert [] + s.prf == s.prf && [] + integ == integ && [] + s.dh == s.dh;
  }

  lemma OneEncryption(id: EncryptionId)
    requires NewEncryption(id).Some?
    ensures EncTransforms([id]) == Some([EncTransform(id).value])
  {
    var ids, t := [id], EncTransform(id).value;
    assert ids[1..] == [] && EncTransforms(ids[1..]) == Some([]);
    assert [t] + [] == [t];
  }

  lemma EchoReadBack(sel: Selection)
    requires sel.dh.Some? && NewEncryption(IdOf(sel.encryption)) == Some(sel.encryption)
    ensures Absorb(EMPTY, EchoIkeTransforms(sel), true) == Some(Single(sel))
  {
    var id := IdOf(sel.encryption);
    var integ := if sel.encryption.aead then [] else [sel.integrity.transformId];
    var prf, dh := [sel.prf.transformId], [sel.dh.value];
    OneEncryption(id);
    FamiliesReadBack([id], W.INTEG, integ, W.PRF, prf, W.DH, dh, true);
    var t := EncTransform(id).value;
    assert PlainTransforms(W.PRF, prf) == [W.Transform(W.PRF, prf[0], [])];
    assert PlainTransforms(W.DH, dh) == [W.Transform(W.DH, dh[0], [])];
    assert PlainTransforms(W.INTEG, integ) == if sel.encryption.aead then [] else [W.Transform(W.INTEG, integ[0], [])];
    assert EchoIkeTransforms(sel)
        == [t] + (PlainTransforms(W.INTEG, integ) + (PlainTransforms(W.PRF, prf) + PlainTransforms(W.DH, dh)));
    assert [] + prf == prf && [] + integ == integ && [] + dh == dh;
  }

  lemma {:induction false} IkeOffersAt(suites: seq<Proposal>, first: nat, spi: u64, i: nat)
    requires IkeOffers(suites, first, spi).Some? && i < |suites|
    ensures IkeOfferTransforms(suites[i]).Some?
    ensures IkeOffers(suites, first, spi).value[i]
         == W.Proposal((first + i + 1) % 0x100, W.PROTOCOL_IKE, Put64(spi), IkeOfferTransforms(suites[i]).value)
  {
    if i > 0 { IkeOffersAt(suites[1..], first + 1, spi, i - 1); }
  }

  /** ChooseIke picks some position whose reading a local suite accepts. */
  lemma {:induction false} ChooseIkeAt(locals: seq<Proposal>, ps: seq<W.Proposal>, responseSpi: u64) returns (i: nat)
    requires ChooseIke(locals, ps, responseSpi).Some?
    ensures i < |ps| && |ps[i].spi| == 8
    ensures FromWire(ps[i], true).Some?
    ensures PickIke(locals, FromWire(ps[i], true).value) == Some(ChooseIke(locals, ps, responseSpi).value.selection)
    ensures ChooseIke(locals, ps, responseSpi).value.selection.dh.Some?
    ensures ChooseIke(locals, ps, responseSpi).value.echo ==
      EchoIke(ps[i], responseSpi, ChooseIke(locals, ps, responseSpi).value.selection)
    ensures ChooseIke(locals, ps, responseSpi).value.peerSpi == Get64(ps[i].spi)
  {
    if ps[0].protocolId == W.PROTOCOL_IKE && |ps[0].spi| == 8 && FromWire(ps[0], true).Some?
       && PickIke(locals, FromWire(ps[0], true).value).Some? {
      PickIkeSound(locals, FromWire(ps[0], true).value);
      i := 0;
    } else {
      var k := ChooseIkeAt(locals, ps[1..], responseSpi);
      i := k + 1;
    }
  }

  lemma EncTransformsAll(ids: seq<EncryptionId>, id: EncryptionId)
    requires EncTransforms(ids).Some? && id in ids
    ensures NewEncryption(id).Some?
  {
    if ids[0] != id { EncTransformsAll(ids[1..], id); }
  }

  /** The proposal and the local suite behind a choice. */
  lemma ChosenIke(locals: seq<Proposal>, ps: seq<W.Proposal>, spi: u64, choice: IkeChoice) returns (i: nat, j: nat)
    requires ChooseIke(locals, ps, spi) == Some(choice)
    ensures i < |ps| && j < |locals| && |ps[i].spi| == 8
    ensures FromWire(ps[i], true).Some? && Common(locals[j], FromWire(ps[i], true).value, choice.selection)
    ensures choice == IkeChoice(EchoIke(ps[i], spi, choice.selection), choice.selection, Get64(ps[i].spi))
  {
    i := ChooseIkeAt(locals, ps, spi);
    var remote := FromWire(ps[i], true).value;
    PickIkeSound(locals, remote);
    var k :| 0 <= k < |locals| && Common(locals[k], remote, choice.selection);
    j := k;
  }

  /** What the peer reads at position `i` of an offer. */
  lemma OfferedAt(cfg: Config, spi: u64, offer: W.SA, i: nat)
    requires |cfg.ike| <= 255 && IkeOffer(cfg, spi) == Some(offer) && i < |offer.proposals|
    requires FromWire(offer.proposals[i], true).Some?
    ensures i < |cfg.ike| && offer.proposals[i].num == i + 1
    ensures FromWire(offer.proposals[i], true) == Some(Offered(cfg.ike[i]))
    ensures |offer.proposals[i].spi| == 8 && Get64(offer.proposals[i].spi) == spi
  {
    hide IkeOfferTransforms, Absorb, Put64, Get64;
    IkeOffersAt(cfg.ike, 0, spi, i);
    OfferReadBack(cfg.ike[i]);
    GetPut64(spi);
  }

  lemma DecodeEcho(cfg: Config, peer: W.Proposal, spi: u64, sel: Selection, remote: Proposal, local: Proposal)
    requires 1 <= peer.num <= |cfg.ike| && remote == Offered(cfg.ike[peer.num - 1])
    requires Common(local, remote, sel)
    ensures DecodeIke(cfg, EchoIke(peer, spi, sel))
         == if sel.encryption.aead && cfg.ike[peer.num - 1].integrity != [] then None else Some((spi, sel))
  {
    EchoReadBack(sel);
    Reselect(cfg.ike[peer.num - 1], sel);
    GetPut64(spi);
  }

  /** The algorithms agreed on the two sides of an IKE rekey. The responder learns
      the offered SPI; the requester, decoding the echo against its own offers,
      ends with the responder's SPI and the very selection the responder made. It
      refuses the echo exactly when the chosen suite offers an AEAD cipher while
      also listing integrity transforms, which the offer silently leaves out. */
  lemma IkeAgreement(requester: Config, responder: Config, spiI: u64, spiR: u64, offer: W.SA, choice: IkeChoice)
      returns (index: nat, local: nat)
    requires |requester.ike| <= 255
    requires IkeOffer(requester, spiI) == Some(offer)
    requires SelectPeerIke(responder, offer, spiR) == Some(choice)
    ensures choice.peerSpi == spiI && |choice.echo.proposals| == 1
    ensures choice.echo.proposals[0].num == index + 1 && index < |requester.ike|
    ensures local < |responder.ike| && Common(responder.ike[local], Offered(requester.ike[index]), choice.selection)
    ensures DecodeIke(requester, choice.echo)
         == if choice.selection.encryption.aead && requester.ike[index].integrity != [] then None
            else Some((spiR, choice.selection))
  {
    var ps, sel := offer.proposals, choice.selection;
    index, local := ChosenIke(responder.ike, ps, spiR, choice);
    OfferedAt(requester, spiI, offer, index);
    DecodeEcho(requester, ps[index], spiR, sel, Offered(requester.ike[index]), responder.ike[local]);
  }

  // ---- The loops ----

  /** One pass over the transforms, extending the suite read so far. */
  method ReadTransforms(p: W.Proposal, isIke: bool) returns (r: Option<Proposal>)
    ensures r == FromWire(p, isIke)
  {
    var acc, i := EMPTY, 0;
    while i < |p.transforms|
      invariant i <= |p.transforms| && Absorb(EMPTY, p.transforms, isIke) == Absorb(acc, p.transforms[i..], isIke)
    {
      var next := AbsorbOne(acc, p.transforms[i], isIke);
      assert p.transforms[i..][1..] == p.transforms[i + 1..];
      if next.None? { return None; }
      acc, i := next.value, i + 1;
    }
    if acc.encryption == [] || (isIke && (acc.dh == [] || acc.prf == [])) { return None; }
    return Some(acc);
  }

  method FirstMatchingSuite(locals: seq<Proposal>, remote: Proposal) returns (r: Option<Selection>)
    ensures r == PickIke(locals, remote)
  {
    var i := 0;
    while i < |locals|
      invariant i <= |locals| && PickIke(locals, remote) == PickIke(locals[i..], remote)
    {
      var sel := Select(locals[i], remote);
      assert locals[i..][1..] == locals[i + 1..];
      if sel.Some? { return sel; }
      i := i + 1;
    }
    return None;
  }

  /** The peer's proposals in order, each against the local suites in order. */
  method SelectPeerIkeProposal(cfg: Config, sa: W.SA, responseSpi: u64) returns (r: Option<IkeChoice>)
    ensures r == SelectPeerIke(cfg, sa, responseSpi)
  {
    if cfg.ike == [] { return None; }
    var ps, i := sa.proposals, 0;
    while i < |ps|
      invariant i <= |ps| && ChooseIke(cfg.ike, ps, responseSpi) == ChooseIke(cfg.ike, ps[i..], responseSpi)
    {
      assert ps[i..][1..] == ps[i + 1..];
      if ps[i].protocolId == W.PROTOCOL_IKE && |ps[i].spi| == 8 {
        var remote := ReadTransforms(ps[i], true);
        if remote.Some? {
          var sel := FirstMatchingSuite(cfg.ike, remote.value);
          if sel.Some? {
            PickIkeSound(cfg.ike, remote.value);
            return Some(IkeChoice(EchoIke(ps[i], responseSpi, sel.value), sel.value, Get64(ps[i].spi)));
          }
        }
      }
      i := i + 1;
    }
    return None;
  }
}
