/** ESP negotiation of a CHILD_SA rekey: the offer variants, the responder's
    choice among them, and the requester's reading of the echo. */
module ChildNegotiation {
  import opened Bytes
  import opened Suite
  import opened Negotiation
  import W = SaPayload

  datatype ChildOffer = ChildOffer(encryption: seq<EncryptionId>, integrity: seq<u16>, dh: seq<u16>, omitEsn: bool)

  predicate SameVariant(a: ChildOffer, b: ChildOffer) {
    a.encryption == b.encryption && a.integrity == b.integrity && a.omitEsn == b.omitEsn
  }

  function AddVariant(offers: seq<ChildOffer>, o: ChildOffer): seq<ChildOffer> {
    if exists i :: 0 <= i < |offers| && SameVariant(offers[i], o) then offers else offers + [o]
  }

  /** The configured suites in order, each AEAD one repeated without its ESN
      transform in strongswan-compatible mode; repeats of a variant are dropped. */
  function ChildOffers(suites: seq<Proposal>, compatible: bool, acc: seq<ChildOffer>): seq<ChildOffer>
    decreases |suites|
  {
    if suites == [] then acc else
    var s := suites[0];
    var plain := AddVariant(acc, ChildOffer(s.encryption, s.integrity, s.dh, false));
    var next := if compatible && AnyAead(s.encryption)
                then AddVariant(plain, ChildOffer(s.encryption, s.integrity, s.dh, true)) else plain;
    ChildOffers(suites[1..], compatible, next)
  }

  function EsnTransforms(present: bool): seq<W.Transform> {
    if present then [W.Transform(W.ESN, 0, [])] else []
  }

  function ChildOfferTransforms(o: ChildOffer, includeDh: bool): Option<seq<W.Transform>> {
    match EncTransforms(o.encryption)
    case None => None
    case Some(enc) =>
      Some(enc + (PlainTransforms(W.INTEG, if AnyAead(o.encryption) then [] else o.integrity)
                  + (EsnTransforms(!o.omitEsn) + PlainTransforms(W.DH, if includeDh then o.dh else []))))
  }

  function ChildProposals(offers: seq<ChildOffer>, first: nat, spi: u32, includeDh: bool): (r: Option<seq<W.Proposal>>)
    ensures r.Some? ==> |r.value| == |offers|
  {
    if offers == [] then Some([]) else
    match ChildOfferTransforms(offers[0], includeDh)
    case None => None
    case Some(ts) =>
      match ChildProposals(offers[1..], first + 1, spi, includeDh)
      case None => None
      case Some(ps) => Some([W.Proposal((first + 1) % 0x100, W.PROTOCOL_ESP, Put32(spi), ts)] + ps)
  }

  function LocalOffers(cfg: Config): seq<ChildOffer> {
    ChildOffers(cfg.esp, cfg.strongswanCompatible, [])
  }

  function ChildOfferSA(cfg: Config, spi: u32): Option<W.SA> {
    if LocalOffers(cfg) == [] then None else
    match ChildProposals(LocalOffers(cfg), 0, spi, cfg.childPfs)
    case None => None
    case Some(ps) => Some(W.SA(ps))
  }

  // ---- The responder's choice ----

  /** An ESP proposal carries no PRF and, without a KE payload, no DH group: each
      local suite supplies its own. A DH list supplied once stays for later suites. */
  function Supplied(local: Proposal, remote: Proposal): Proposal {
    remote.(prf := local.prf, dh := if remote.dh == [] then local.dh else remote.dh)
  }

  function PickEsp(locals: seq<Proposal>, remote: Proposal): Option<Selection>
    decreases |locals|
  {
    if locals == [] then None else
    match Select(locals[0], Supplied(locals[0], remote))
    case Some(sel) => Some(sel)
    case None => PickEsp(locals[1..], Supplied(locals[0], remote))
  }

  predicate HasEsn(ts: seq<W.Transform>) {
    exists i :: 0 <= i < |ts| && ts[i].typ == W.ESN && ts[i].id == 0
  }

  function EchoEspTransforms(peer: W.Proposal, sel: Selection): seq<W.Transform> {
    [W.Transform(W.ENC, sel.encryption.transformId, W.KeyLengthAttr(sel.encryption.transformKeyLen * 8 % 0x1_0000))]
    + (if sel.encryption.aead then [] else [W.Transform(W.INTEG, sel.integrity.transformId, [])])
    + EsnTransforms(HasEsn(peer.transforms))
    + (if sel.dh.Some? then [W.Transform(W.DH, sel.dh.value, [])] else [])
  }

  function EchoEsp(peer: W.Proposal, spi: u32, sel: Selection): W.SA {
    W.SA([W.Proposal(peer.num, W.PROTOCOL_ESP, Put32(spi), EchoEspTransforms(peer, sel))])
  }

  datatype EspChoice = EspChoice(echo: W.SA, selection: Selection)

  function ChooseEsp(locals: seq<Proposal>, ps: seq<W.Proposal>, spi: u32, wantsDh: bool): Option<EspChoice> {
    if ps == [] then None else
    var rest := ChooseEsp(locals, ps[1..], spi, wantsDh);
    if ps[0].protocolId != W.PROTOCOL_ESP || |ps[0].spi| != 4 then rest else
    match FromWire(ps[0], false)
    case None => rest
    case Some(remote) =>
      match PickEsp(locals, remote)
      case None => rest
      case Some(found) =>
        var sel := if wantsDh then found else found.(dh := None);
        Some(EspChoice(EchoEsp(ps[0], spi, sel), sel))
  }

  function SelectPeerEsp(cfg: Config, sa: W.SA, spi: u32, wantsDh: bool): Option<EspChoice> {
    if cfg.esp == [] then None else ChooseEsp(cfg.esp, sa.proposals, spi, wantsDh)
  }

  /** The new outbound SPI is read from the first proposal, whichever was chosen. */
  function PeerOutboundSpi(sa: W.SA): u32 {
    if sa.proposals == [] || |sa.proposals[0].spi| != 4 then 0 else Get32(sa.proposals[0].spi)
  }

  // ---- The requester's reading of the echo ----

  datatype ChildRead = ChildRead(enc: Option<EncryptionId>, integrity: Option<u16>, esn: Option<u16>, dh: u16)

  function ReadOne(acc: ChildRead, t: W.Transform): Option<ChildRead> {
    if t.typ == W.DH then
      if t.attrs != [] || acc.dh != 0 then None else Some(acc.(dh := t.id))
    else if t.typ == W.ENC then
      if acc.enc.Some? then None else
      match W.ParseKeyLengthAttr(t.attrs)
      case None => None
      case Some(bits) =>
        if bits == 0 || bits % 8 != 0 then None else Some(acc.(enc := Some(EncryptionId(t.id, bits / 8))))
    else if t.typ == W.INTEG then
      if acc.integrity.Some? then None else Some(acc.(integrity := Some(t.id)))
    else if t.typ == W.ESN then
      if acc.esn.Some? then None else Some(acc.(esn := Some(t.id)))
    else None
  }

  function ReadAll(acc: ChildRead, ts: seq<W.Transform>): Option<ChildRead>
    decreases |ts|
  {
    if ts == [] then Some(acc) else
    match ReadOne(acc, ts[0])
    case None => None
    case Some(next) => ReadAll(next, ts[1..])
  }

  const NOTHING_READ := ChildRead(None, None, None, 0)

  function ChildIntegrity(o: ChildOffer, enc: EncryptionAlg, read: Option<u16>): Option<Integrity> {
    if enc.aead then (if read.Some? then None else Some(NO_INTEGRITY))
    else if read.None? || read.value !in o.integrity then None
    else NewIntegrity(read.value)
  }

  function DecodeRead(o: ChildOffer, ike: Selection, r: ChildRead): Option<Selection> {
    if r.enc.None? || r.enc.value !in o.encryption then None else
    match NewEncryption(r.enc.value)
    case None => None
    case Some(enc) =>
      match ChildIntegrity(o, enc, r.integrity)
      case None => None
      case Some(integ) =>
        if r.esn.Some? && r.esn.value != 0 then None
        else if r.dh != 0 && r.dh != CURVE25519 then None
        else Some(Selection(enc, integ, ike.prf, if r.dh != 0 then Some(r.dh) else ike.dh))
  }

  function DecodeChild(cfg: Config, ike: Selection, sa: W.SA): Option<(u32, Selection)> {
    if |sa.proposals| != 1 then None else
    var p := sa.proposals[0];
    if p.protocolId != W.PROTOCOL_ESP || |p.spi| != 4 then None
    else if p.num == 0 || p.num > |LocalOffers(cfg)| then None
    else match ReadAll(NOTHING_READ, p.transforms)
         case None => None
         case Some(r) =>
           match DecodeRead(LocalOffers(cfg)[p.num - 1], ike, r)
           case None => None
           case Some(sel) => Some((Get32(p.spi), sel))
  }

  // ---- Agreement ----

  function OfferedChild(o: ChildOffer, includeDh: bool): Proposal {
    Proposal(o.encryption, if AnyAead(o.encryption) then [] else o.integrity, [], if includeDh then o.dh else [])
  }

  lemma AbsorbEsn(acc: Proposal, present: bool)
    ensures Absorb(acc, EsnTransforms(present), false) == Some(acc)
  {
    if present {
      var ts := EsnTransforms(true);
      assert ts[1..] == [];
    }
  }

  lemma ChildOfferReadBack(o: ChildOffer, includeDh: bool)
    requires ChildOfferTransforms(o, includeDh).Some?
    ensures Absorb(EMPTY, ChildOfferTransforms(o, includeDh).value, false) == Some(OfferedChild(o, includeDh))
  {
    var integ := if AnyAead(o.encryption) then [] else o.integrity;
    var dh := if includeDh then o.dh else [];
    var p1 := EMPTY.(encryption := o.encryption);
    var p2 := Extend(p1, W.INTEG, integ);
    var b1, b2, b3 := PlainTransforms(W.INTEG, integ), EsnTransforms(!o.omitEsn), PlainTransforms(W.DH, dh);
    AbsorbEncs(EMPTY, o.encryption, false);
    assert EMPTY.encryption + o.encryption == o.encryption;
    AbsorbPlain(p1, W.INTEG, integ, false);
    AbsorbEsn(p2, !o.omitEsn);
    AbsorbPlain(p2, W.DH, dh, false);
    AbsorbConcat(p2, b2, b3, false);
    AbsorbConcat(p1, b1, b2 + b3, false);
    AbsorbConcat(EMPTY, EncTransforms(o.encryption).value, b1 + (b2 + b3), false);
    assert [] + integ == integ && [] + dh == dh;
  }

  /** What the ESP choice guarantees about cipher, integrity and group. */
  ghost predicate ChosenFrom(remote: Proposal, sel: Selection) {
    && IdOf(sel.encryption) in remote.encryption && NewEncryption(IdOf(sel.encryption)) == Some(sel.encryption)
    && (if sel.encryption.aead then sel.integrity == NO_INTEGRITY
        else && sel.integrity.transformId in remote.integrity
             && NewIntegrity(sel.integrity.transformId) == Some(sel.integrity))
    && sel.dh == Some(CURVE25519) && NewPrf(sel.prf.transformId) == Some(sel.prf)
  }

  lemma {:induction false} PickEspSound(locals: seq<Proposal>, remote: Proposal)
    ensures PickEsp(locals, remote).Some? ==> ChosenFrom(remote, PickEsp(locals, remote).value)
    decreases |locals|
  {
    if locals != [] {
      SelectSound(locals[0], Supplied(locals[0], remote));
      PickEspSound(locals[1..], Supplied(locals[0], remote));
    }
  }

  lemma {:induction false} ReadConcat(acc: ChildRead, a: seq<W.Transform>, b: seq<W.Transform>)
    ensures ReadAll(acc, a + b) == match ReadAll(acc, a)
                                   case None => None
                                   case Some(mid) => ReadAll(mid, b)
    decreases |a|
  {
    if a == [] {
      assert a + b == b;
    } else {
      assert (a + b)[0] == a[0] && (a + b)[1..] == a[1..] + b;
      match ReadOne(acc, a[0])
      case None =>
      case Some(next) => ReadConcat(next, a[1..], b);
    }
  }

  lemma ReadSingleton(acc: ChildRead, t: W.Transform)
    ensures ReadAll(acc, [t]) == ReadOne(acc, t)
  {
    var ts := [t];
    assert ts[1..] == [];
  }

  /** The echo read back, transform by transform. */
  function EchoRead(sel: Selection, esn: bool): ChildRead {
    ChildRead(Some(IdOf(sel.encryption)), if sel.encryption.aead then None else Some(sel.integrity.transformId),
              if esn then Some(0) else None, if sel.dh.Some? then sel.dh.value else 0)
  }

  lemma ChildEchoReadBack(peer: W.Proposal, sel: Selection)
    requires NewEncryption(IdOf(sel.encryption)) == Some(sel.encryption)
    ensures ReadAll(NOTHING_READ, EchoEspTransforms(peer, sel)) == Some(EchoRead(sel, HasEsn(peer.transforms)))
  {
    var enc := W.Transform(W.ENC, sel.encryption.transformId,
                           W.KeyLengthAttr(sel.encryption.transformKeyLen * 8 % 0x1_0000));
    var b0 := [enc];
    var b1 := if sel.encryption.aead then [] else [W.Transform(W.INTEG, sel.integrity.transformId, [])];
    var b2 := EsnTransforms(HasEsn(peer.transforms));
    var b3 := if sel.dh.Some? then [W.Transform(W.DH, sel.dh.value, [])] else [];
    var full := EchoRead(sel, HasEsn(peer.transforms));
    var r0 := NOTHING_READ.(enc := full.enc);
    var r1 := r0.(integrity := full.integrity);
    var r2 := r1.(esn := full.esn);
    assert ReadAll(NOTHING_READ, b0) == Some(r0) by {
      W.KeyLengthRoundTrip(sel.encryption.transformKeyLen * 8);
      ReadSingleton(NOTHING_READ, enc);
    }
    assert ReadAll(r0, b1) == Some(r1) by { if b1 != [] { ReadSingleton(r0, b1[0]); } }
    assert ReadAll(r1, b2) == Some(r2) by { if b2 != [] { ReadSingleton(r1, b2[0]); } }
    assert ReadAll(r2, b3) == Some(full) by { if b3 != [] { ReadSingleton(r2, b3[0]); } }
    ReadConcat(NOTHING_READ, b0, b1);
    ReadConcat(NOTHING_READ, b0 + b1, b2);
    ReadConcat(NOTHING_READ, b0 + b1 + b2, b3);
  }

  lemma {:induction false} ChildProposalsAt(offers: seq<ChildOffer>, first: nat, spi: u32, includeDh: bool, i: nat)
    requires ChildProposals(offers, first, spi, includeDh).Some? && i < |offers|
    ensures ChildOfferTransforms(offers[i], includeDh).Some?
    ensures ChildProposals(offers, first, spi, includeDh).value[i]
         == W.Proposal((first + i + 1) % 0x100, W.PROTOCOL_ESP, Put32(spi),
                       ChildOfferTransforms(offers[i], includeDh).value)
  {
    if i > 0 { ChildProposalsAt(offers[1..], first + 1, spi, includeDh, i - 1); }
  }

  lemma {:induction false} ChooseEspAt(locals: seq<Proposal>, ps: seq<W.Proposal>, spi: u32, wantsDh: bool,
                                       choice: EspChoice)
      returns (i: nat, found: Selection)
    requires ChooseEsp(locals, ps, spi, wantsDh) == Some(choice)
    ensures i < |ps| && FromWire(ps[i], false).Some?
    ensures ChosenFrom(FromWire(ps[i], false).value, found)
    ensures choice == EspChoice(EchoEsp(ps[i], spi, choice.selection), if wantsDh then found else found.(dh := None))
  {
    if ps[0].protocolId == W.PROTOCOL_ESP && |ps[0].spi| == 4 && FromWire(ps[0], false).Some?
       && PickEsp(locals, FromWire(ps[0], false).value).Some? {
      PickEspSound(locals, FromWire(ps[0], false).value);
      i, found := 0, PickEsp(locals, FromWire(ps[0], false).value).value;
    } else {
      var k;
      k, found := ChooseEspAt(locals, ps[1..], spi, wantsDh, choice);
      i := k + 1;
    }
  }

  /** What the peer reads at position `i` of a child offer. */
  lemma ChildOfferedAt(cfg: Config, spi: u32, offer: W.SA, i: nat)
    requires |LocalOffers(cfg)| <= 255 && ChildOfferSA(cfg, spi) == Some(offer) && i < |offer.proposals|
    requires FromWire(offer.proposals[i], false).Some?
    ensures i < |LocalOffers(cfg)| && offer.proposals[i].num == i + 1
    ensures FromWire(offer.proposals[i], false) == Some(OfferedChild(LocalOffers(cfg)[i], cfg.childPfs))
  {
    hide ChildOfferTransforms, LocalOffers, Absorb, ChildOffers;
    ChildProposalsAt(LocalOffers(cfg), 0, spi, cfg.childPfs, i);
    ChildOfferReadBack(LocalOffers(cfg)[i], cfg.childPfs);
  }

  lemma DecodeChildEcho(cfg: Config, ike: Selection, peer: W.Proposal, spi: u32, sel: Selection, remote: Proposal)
    requires 1 <= peer.num <= |LocalOffers(cfg)|
    requires remote == OfferedChild(LocalOffers(cfg)[peer.num - 1], cfg.childPfs)
    requires ChosenFrom(remote, sel.(dh := Some(CURVE25519))) && (sel.dh.Some? ==> sel.dh == Some(CURVE25519))
    ensures DecodeChild(cfg, ike, EchoEsp(peer, spi, sel))
         == Some((spi, sel.(prf := ike.prf, dh := if sel.dh.Some? then sel.dh else ike.dh)))
  {
    ChildEchoReadBack(peer, sel);
    GetPut32(spi);
  }

  /** Whatever the responder chooses from our offers, we decode its echo: both ends
      hold the same cipher and integrity, we learn its SPI, and it learns ours. The
      two PRFs come from different places: ours from the IKE SA, the responder's
      from the local suite that matched. */
  lemma ChildAgreement(requester: Config, responder: Config, ike: Selection, spi: u32, responseSpi: u32, wantsDh: bool,
                       offer: W.SA, choice: EspChoice)
    requires |LocalOffers(requester)| <= 255
    requires ChildOfferSA(requester, spi) == Some(offer)
    requires SelectPeerEsp(responder, offer, responseSpi, wantsDh) == Some(choice)
    ensures PeerOutboundSpi(offer) == spi
    ensures DecodeChild(requester, ike, choice.echo)
         == Some((responseSpi,
                  choice.selection.(prf := ike.prf, dh := if wantsDh then choice.selection.dh else ike.dh)))
    ensures choice.selection.dh.Some? <==> wantsDh
    ensures choice.selection.encryption.keyLen <= 36 && choice.selection.integrity.keyLen <= 64
    ensures NewPrf(choice.selection.prf.transformId) == Some(choice.selection.prf)
  {
    hide ChooseEsp, FromWire, ChildProposals, ChildOfferTransforms, DecodeChild, LocalOffers, EchoEsp, Put32, Get32,
         OfferedChild;
    var i, found := ChooseEspAt(responder.esp, offer.proposals, responseSpi, wantsDh, choice);
    ChildOfferedAt(requester, spi, offer, i);
    DecodeChildEcho(requester, ike, offer.proposals[i], responseSpi, choice.selection,
                    OfferedChild(LocalOffers(requester)[i], requester.childPfs));
    ChildProposalsAt(LocalOffers(requester), 0, spi, requester.childPfs, 0);
    GetPut32(spi);
  }

  // ---- The loops ----

  /** Each local suite supplies its own PRFs, and the DH groups once; both stay for the next. */
  method FirstMatchingEspSuite(locals: seq<Proposal>, offered: Proposal) returns (r: Option<Selection>)
    ensures r == PickEsp(locals, offered)
  {
    var remote, i := offered, 0;
    while i < |locals|
      invariant i <= |locals| && PickEsp(locals, offered) == PickEsp(locals[i..], remote)
    {
      remote := remote.(prf := locals[i].prf);
      if remote.dh == [] { remote := remote.(dh := locals[i].dh); }
      assert locals[i..][1..] == locals[i + 1..];
      var sel := Select(locals[i], remote);
      if sel.Some? { return sel; }
      i := i + 1;
    }
    return None;
  }

  method SelectPeerEspProposal(cfg: Config, sa: W.SA, spi: u32, wantsDh: bool) returns (r: Option<EspChoice>)
    ensures r == SelectPeerEsp(cfg, sa, spi, wantsDh)
  {
    if cfg.esp == [] { return None; }
    var ps, i := sa.proposals, 0;
    while i < |ps|
      invariant i <= |ps| && ChooseEsp(cfg.esp, ps, spi, wantsDh) == ChooseEsp(cfg.esp, ps[i..], spi, wantsDh)
    {
      assert ps[i..][1..] == ps[i + 1..];
      if ps[i].protocolId == W.PROTOCOL_ESP && |ps[i].spi| == 4 {
        var remote := ReadTransforms(ps[i], false);
        if remote.Some? {
          var found := FirstMatchingEspSuite(cfg.esp, remote.value);
          if found.Some? {
            var sel := if wantsDh then found.value else found.value.(dh := None);
            return Some(EspChoice(EchoEsp(ps[i], spi, sel), sel));
          }
        }
      }
      i := i + 1;
    }
    return None;
  }
}
