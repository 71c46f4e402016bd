/** Which of the peer's proposals a responder chooses, and with which of its own suites. */
module Choices {
  import opened Bytes
  import opened Suite
  import opened Negotiation
  import opened ChildNegotiation

  // ---- Reading a proposal ----

  /** The ids of one transform type, in the order they are listed. */
  function OfType(ts: seq<W.Transform>, typ: u8): seq<u16> {
    if ts == [] then [] else (if ts[0].typ == typ then [ts[0].id] else []) + OfType(ts[1..], typ)
  }

  /** The key length of a cipher transform in octets, if it has the one attribute that tells it. */
  function KeyOctets(t: W.Transform): Option<u16> {
    if |t.attrs| == 4 && t.attrs[0] == 0x80 && t.attrs[1] == 14 && ((t.attrs[2] as int) * 0x100 + t.attrs[3]) % 8 == 0
    then Some(((t.attrs[2] as int) * 0x100 + t.attrs[3]) / 8) else None
  }

  /** The ciphers, each with its key length. */
  function CiphersIn(ts: seq<W.Transform>): seq<EncryptionId> {
    if ts == [] then [] else
    (if ts[0].typ == 1 && KeyOctets(ts[0]).Some? then [EncryptionId(ts[0].id, KeyOctets(ts[0]).value)] else [])
    + CiphersIn(ts[1..])
  }

  ghost predicate Reads(acc: Proposal, ts: seq<W.Transform>, isIke: bool, r: Proposal) {
    && r.encryption == acc.encryption + CiphersIn(ts)
    && r.integrity == acc.integrity + OfType(ts, 3) && r.prf == acc.prf + OfType(ts, 2)
    && r.dh == acc.dh + OfType(ts, 4)
    && (forall i :: 0 <= i < |ts| ==> Legal(ts[i], isIke))
  }

  /** An IKE proposal lists no ESN, an ESP proposal no PRF; a cipher comes with its key length. */
  predicate Legal(t: W.Transform, isIke: bool) {
    1 <= t.typ <= 5 && t.typ != (if isIke then 5 else 2) && (t.typ == 1 ==> KeyOctets(t).Some?)
  }

  lemma OneRead(acc: Proposal, t: W.Transform, isIke: bool)
    requires AbsorbOne(acc, t, isIke).Some?
    ensures Reads(acc, [t], isIke, AbsorbOne(acc, t, isIke).value)
  {
    assert [t][1..] == [];
    var r := AbsorbOne(acc, t, isIke).value;
    forall typ: u8 ensures OfType([t], typ) == if t.typ == typ then [t.id] else [] {}
    assert acc.integrity + [] == acc.integrity && acc.prf + [] == acc.prf && acc.dh + [] == acc.dh;
    assert acc.encryption + [] == acc.encryption;
  }

  lemma SplitFirst(ts: seq<W.Transform>, typ: u8)
    requires ts != []
    ensures OfType(ts, typ) == OfType([ts[0]], typ) + OfType(ts[1..], typ)
    ensures CiphersIn(ts) == CiphersIn([ts[0]]) + CiphersIn(ts[1..])
  {
    assert [ts[0]][1..] == [];
  }

  lemma ReadsThen(acc: Proposal, ts: seq<W.Transform>, next: Proposal, isIke: bool, r: Proposal)
    requires ts != [] && Reads(acc, [ts[0]], isIke, next) && Reads(next, ts[1..], isIke, r)
    ensures Reads(acc, ts, isIke, r)
  {
    hide OfType, CiphersIn, Legal;
    SplitFirst(ts, 2);
    SplitFirst(ts, 3);
    SplitFirst(ts, 4);
    forall i | 0 <= i < |ts| ensures Legal(ts[i], isIke) {
      if i == 0 { assert [ts[0]][0] == ts[0]; } else { assert ts[i] == ts[1..][i - 1]; }
    }
  }

  lemma {:induction false} AllRead(acc: Proposal, ts: seq<W.Transform>, isIke: bool)
    requires Absorb(acc, ts, isIke).Some?
    ensures Reads(acc, ts, isIke, Absorb(acc, ts, isIke).value)
    decreases |ts|
  {
    hide AbsorbOne;
    if ts == [] {
      assert acc.integrity + [] == acc.integrity && acc.prf + [] == acc.prf && acc.dh + [] == acc.dh;
      assert acc.encryption + [] == acc.encryption;
    } else {
      hide Reads;
      var next := AbsorbOne(acc, ts[0], isIke).value;
      OneRead(acc, ts[0], isIke);
      AllRead(next, ts[1..], isIke);
      ReadsThen(acc, ts, next, isIke, Absorb(acc, ts, isIke).value);
    }
  }

  /** What is read from a proposal: each family by its type number, in order, and nothing else. An IKE
      proposal lists no ESN, an ESP proposal no PRF. */
  lemma FamiliesRead(p: W.Proposal, isIke: bool)
    requires FromWire(p, isIke).Some?
    ensures var r := FromWire(p, isIke).value;
            && r.encryption == CiphersIn(p.transforms) != [] && r.prf == OfType(p.transforms, 2)
            && r.integrity == OfType(p.transforms, 3) && r.dh == OfType(p.transforms, 4)
            && (isIke ==> r.prf != [] && r.dh != [] && OfType(p.transforms, 5) == [])
            && (!isIke ==> r.prf == [])
  {
    AllRead(EMPTY, p.transforms, isIke);
    var r := FromWire(p, isIke).value;
    assert [] + OfType(p.transforms, 3) == OfType(p.transforms, 3);
    assert [] + OfType(p.transforms, 2) == OfType(p.transforms, 2);
    assert [] + OfType(p.transforms, 4) == OfType(p.transforms, 4);
    assert [] + CiphersIn(p.transforms) == CiphersIn(p.transforms);
    NoneOfType(p.transforms, if isIke then 5 else 2);
  }

  lemma {:induction false} NoneOfType(ts: seq<W.Transform>, typ: u8)
    requires forall i :: 0 <= i < |ts| ==> ts[i].typ != typ
    ensures OfType(ts, typ) == []
  {
    if ts != [] { NoneOfType(ts[1..], typ); }
  }

  // ---- IKE: the first proposal, and for it the first suite ----

  lemma {:induction false} FirstSuite(locals: seq<Proposal>, remote: Proposal) returns (j: nat)
    requires PickIke(locals, remote).Some?
    ensures j < |locals| && Select(locals[j], remote) == PickIke(locals, remote)
    ensures forall k :: 0 <= k < j ==> Select(locals[k], remote).None?
  {
    hide Select;
    if Select(locals[0], remote).Some? {
      j := 0;
    } else {
      var n := FirstSuite(locals[1..], remote);
      j := n + 1;
      forall k | 0 <= k < j ensures Select(locals[k], remote).None? {
        if k > 0 { assert locals[k] == locals[1..][k - 1]; }
      }
    }
  }

  lemma {:induction false} NoSuite(locals: seq<Proposal>, remote: Proposal)
    requires PickIke(locals, remote).None?
    ensures forall k :: 0 <= k < |locals| ==> Select(locals[k], remote).None?
  {
    hide Select;
    if locals != [] {
      NoSuite(locals[1..], remote);
      forall k | 0 < k < |locals| ensures locals[k] == locals[1..][k - 1] {}
    }
  }

  /** An IKE proposal that some local suite can serve. */
  predicate Servable(locals: seq<Proposal>, p: W.Proposal) {
    && p.protocolId == 1 && |p.spi| == 8 && FromWire(p, true).Some?
    && exists k :: 0 <= k < |locals| && Select(locals[k], FromWire(p, true).value).Some?
  }

  lemma {:induction false} FirstProposal(locals: seq<Proposal>, ps: seq<W.Proposal>, t: u64) returns (i: nat, j: nat)
    requires ChooseIke(locals, ps, t).Some?
    ensures i < |ps| && ps[i].protocolId == 1 && |ps[i].spi| == 8 && FromWire(ps[i], true).Some? && j < |locals|
    ensures var choice, remote := ChooseIke(locals, ps, t).value, FromWire(ps[i], true).value;
            && Select(locals[j], remote) == Some(choice.selection) && choice.selection.dh.Some?
            && (forall k :: 0 <= k < j ==> Select(locals[k], remote).None?)
            && choice.peerSpi == Get64(ps[i].spi) && choice.echo == EchoIke(ps[i], t, choice.selection)
    ensures forall k :: 0 <= k < i ==> !Servable(locals, ps[k])
  {
    hide Select, FromWire, EchoIke, Get64;
    if ps[0].protocolId == 1 && |ps[0].spi| == 8 && FromWire(ps[0], true).Some?
       && PickIke(locals, FromWire(ps[0], true).value).Some? {
      PickIkeSound(locals, FromWire(ps[0], true).value);
      j := FirstSuite(locals, FromWire(ps[0], true).value);
      i := 0;
    } else {
      if FromWire(ps[0], true).Some? && PickIke(locals, FromWire(ps[0], true).value).None? {
        NoSuite(locals, FromWire(ps[0], true).value);
      }
      var n, m := FirstProposal(locals, ps[1..], t);
      i, j := n + 1, m;
      forall k | 0 <= k < i ensures !Servable(locals, ps[k]) {
        if k > 0 { assert ps[k] == ps[1..][k - 1]; }
      }
    }
  }

  /** The responder takes the first of the peer's proposals that it can serve, with the first of its
      own suites that can, and answers under that proposal's number with its own SPI. */
  lemma IkeChosen(cfg: Config, sa: W.SA, t: u64, choice: IkeChoice) returns (i: nat, j: nat)
    requires SelectPeerIke(cfg, sa, t) == Some(choice)
    ensures i < |sa.proposals| && Servable(cfg.ike, sa.proposals[i]) && j < |cfg.ike|
    ensures forall k :: 0 <= k < i ==> !Servable(cfg.ike, sa.proposals[k])
    ensures var p := sa.proposals[i];
            && Select(cfg.ike[j], FromWire(p, true).value) == Some(choice.selection)
            && (forall k :: 0 <= k < j ==> Select(cfg.ike[k], FromWire(p, true).value).None?)
            && choice.peerSpi == Get64(p.spi) && |choice.echo.proposals| == 1
            && var e := choice.echo.proposals[0];
               && e.num == p.num && e.protocolId == 1 && e.spi == Put64(t)
               && CiphersIn(e.transforms) == [IdOf(choice.selection.encryption)]
               && OfType(e.transforms, 2) == [choice.selection.prf.transformId] && OfType(e.transforms, 4) == [31]
               && OfType(e.transforms, 3) == (if choice.selection.encryption.aead then []
                                              else [choice.selection.integrity.transformId])
  {
    hide Select, FromWire, Get64, Put64, Absorb;
    i, j := FirstProposal(cfg.ike, sa.proposals, t);
    SelectSound(cfg.ike[j], FromWire(sa.proposals[i], true).value);
    EchoLists(choice.selection);
  }

  lemma EchoLists(sel: Selection)
    requires sel.dh.Some? && NewEncryption(IdOf(sel.encryption)) == Some(sel.encryption)
    ensures var ts := EchoIkeTransforms(sel);
            && CiphersIn(ts) == [IdOf(sel.encryption)] && OfType(ts, 2) == [sel.prf.transformId]
            && OfType(ts, 3) == (if sel.encryption.aead then [] else [sel.integrity.transformId])
            && OfType(ts, 4) == [sel.dh.value]
  {
    hide EchoIkeTransforms, Absorb, NewEncryption;
    EchoReadBack(sel);
    AllRead(EMPTY, EchoIkeTransforms(sel), true);
  }

  // ---- ESP: the first proposal, each suite supplying what the wire leaves out ----

  /** The first non-empty list of groups among the first `n` suites. */
  function FirstGroups(locals: seq<Proposal>, n: nat): seq<u16>
    requires n <= |locals|
  {
    if n == 0 then [] else
    if FirstGroups(locals, n - 1) != [] then FirstGroups(locals, n - 1) else locals[n - 1].dh
  }

  /** What suite `k` is matched with: its own PRFs, and the groups of the wire or else the first ones
      configured so far. */
  function Against(locals: seq<Proposal>, remote: Proposal, k: nat): Proposal
    requires k < |locals|
  {
    remote.(prf := locals[k].prf, dh := if remote.dh != [] then remote.dh else FirstGroups(locals, k + 1))
  }

  lemma {:induction false} GroupsShift(locals: seq<Proposal>, n: nat)
    requires 0 < n <= |locals|
    ensures FirstGroups(locals, n) == if locals[0].dh != [] then locals[0].dh else FirstGroups(locals[1..], n - 1)
  {
    if n > 1 { GroupsShift(locals, n - 1); }
  }

  lemma AgainstShift(locals: seq<Proposal>, remote: Proposal, k: nat)
    requires k + 1 < |locals|
    ensures Against(locals, remote, k + 1) == Against(locals[1..], Supplied(locals[0], remote), k)
  {
    GroupsShift(locals, k + 2);
  }

  lemma {:induction false} FirstEspSuite(locals: seq<Proposal>, remote: Proposal) returns (j: nat)
    requires PickEsp(locals, remote).Some?
    ensures j < |locals| && Select(locals[j], Against(locals, remote, j)) == PickEsp(locals, remote)
    ensures forall k :: 0 <= k < j ==> Select(locals[k], Against(locals, remote, k)).None?
    decreases |locals|
  {
    hide Select, Against, Supplied;
    AgainstFirst(locals, remote);
    if Select(locals[0], Supplied(locals[0], remote)).Some? {
      j := 0;
    } else {
      var n := FirstEspSuite(locals[1..], Supplied(locals[0], remote));
      j := n + 1;
      AgainstShift(locals, remote, n);
      forall k | 0 <= k < j ensures Select(locals[k], Against(locals, remote, k)).None? {
        if k > 0 { AgainstShift(locals, remote, k - 1); }
      }
    }
  }

  lemma AgainstFirst(locals: seq<Proposal>, remote: Proposal)
    requires locals != []
    ensures Against(locals, remote, 0) == Supplied(locals[0], remote)
  {
    assert FirstGroups(locals, 0) == [];
    assert FirstGroups(locals, 1) == locals[0].dh;
  }

  lemma {:induction false} NoEspSuite(locals: seq<Proposal>, remote: Proposal)
    requires PickEsp(locals, remote).None?
    ensures forall k :: 0 <= k < |locals| ==> Select(locals[k], Against(locals, remote, k)).None?
    decreases |locals|
  {
    hide Select, Against, Supplied;
    if locals != [] {
      AgainstFirst(locals, remote);
      NoEspSuite(locals[1..], Supplied(locals[0], remote));
      forall k | 0 < k < |locals| ensures Select(locals[k], Against(locals, remote, k)).None? {
        AgainstShift(locals, remote, k - 1);
      }
    }
  }

  predicate EspServable(locals: seq<Proposal>, p: W.Proposal) {
    && p.protocolId == 3 && |p.spi| == 4 && FromWire(p, false).Some?
    && exists k :: 0 <= k < |locals| && Select(locals[k], Against(locals, FromWire(p, false).value, k)).Some?
  }

  lemma {:induction false} FirstEspProposal(locals: seq<Proposal>, ps: seq<W.Proposal>, t: u32, wantsDh: bool)
      returns (i: nat, j: nat)
    requires ChooseEsp(locals, ps, t, wantsDh).Some?
    ensures i < |ps| && ps[i].protocolId == 3 && |ps[i].spi| == 4 && FromWire(ps[i], false).Some? && j < |locals|
    ensures var choice, remote := ChooseEsp(locals, ps, t, wantsDh).value, FromWire(ps[i], false).value;
            && Select(locals[j], Against(locals, remote, j)).Some?
            && (forall k :: 0 <= k < j ==> Select(locals[k], Against(locals, remote, k)).None?)
            && var found := Select(locals[j], Against(locals, remote, j)).value;
               choice.selection == (if wantsDh then found else found.(dh := None))
               && choice.echo == EchoEsp(ps[i], t, choice.selection)
    ensures forall k :: 0 <= k < i ==> !EspServable(locals, ps[k])
  {
    hide Select, FromWire, EchoEsp, Against, PickEsp;
    if ps[0].protocolId == 3 && |ps[0].spi| == 4 && FromWire(ps[0], false).Some?
       && PickEsp(locals, FromWire(ps[0], false).value).Some? {
      j := FirstEspSuite(locals, FromWire(ps[0], false).value);
      i := 0;
    } else {
      if FromWire(ps[0], false).Some? && PickEsp(locals, FromWire(ps[0], false).value).None? {
        NoEspSuite(locals, FromWire(ps[0], false).value);
      }
      var n, m := FirstEspProposal(locals, ps[1..], t, wantsDh);
      i, j := n + 1, m;
      forall k | 0 <= k < i ensures !EspServable(locals, ps[k]) {
        if k > 0 { assert ps[k] == ps[1..][k - 1]; }
      }
    }
  }

  /** The same for a child rekey; the group is dropped when the request has no KE payload. */
  lemma EspChosen(cfg: Config, sa: W.SA, t: u32, wantsDh: bool, choice: EspChoice) returns (i: nat, j: nat)
    requires SelectPeerEsp(cfg, sa, t, wantsDh) == Some(choice)
    ensures i < |sa.proposals| && EspServable(cfg.esp, sa.proposals[i]) && j < |cfg.esp|
    ensures forall k :: 0 <= k < i ==> !EspServable(cfg.esp, sa.proposals[k])
    ensures var p := sa.proposals[i];
            var remote := FromWire(p, false).value;
            && (forall k :: 0 <= k < j ==> Select(cfg.esp[k], Against(cfg.esp, remote, k)).None?)
            && Select(cfg.esp[j], Against(cfg.esp, remote, j)).Some?
            && (var found := Select(cfg.esp[j], Against(cfg.esp, remote, j)).value;
                choice.selection == if wantsDh then found else found.(dh := None))
            && |choice.echo.proposals| == 1
            && var e := choice.echo.proposals[0];
               && e.num == p.num && e.protocolId == 3 && e.spi == Put32(t)
               && OfType(e.transforms, 1) == [choice.selection.encryption.transformId]
               && OfType(e.transforms, 3) == (if choice.selection.encryption.aead then []
                                              else [choice.selection.integrity.transformId])
               && OfType(e.transforms, 4) == (if choice.selection.dh.Some? then [choice.selection.dh.value] else [])
               && OfType(e.transforms, 5) == (if 0 in OfType(p.transforms, 5) then [0] else [])
  {
    hide Select, FromWire, Put32, Against;
    i, j := FirstEspProposal(cfg.esp, sa.proposals, t, wantsDh);
    EspEchoLists(sa.proposals[i], choice.selection);
  }

  lemma {:induction false} JoinLists(a: seq<W.Transform>, b: seq<W.Transform>, typ: u8)
    ensures OfType(a + b, typ) == OfType(a, typ) + OfType(b, typ)
  {
    if a == [] {
      assert a + b == b;
    } else {
      assert (a + b)[1..] == a[1..] + b && (a + b)[0] == a[0];
      JoinLists(a[1..], b, typ);
      var first := if a[0].typ == typ then [a[0].id] else [];
      assert first + (OfType(a[1..], typ) + OfType(b, typ)) == first + OfType(a[1..], typ) + OfType(b, typ);
    }
  }

  lemma OneOf(t: W.Transform, typ: u8)
    ensures OfType([t], typ) == if t.typ == typ then [t.id] else []
  {
    assert [t][1..] == [];
  }

  lemma {:induction false} EsnListed(ts: seq<W.Transform>)
    ensures HasEsn(ts) <==> 0 in OfType(ts, 5)
  {
    if ts != [] {
      EsnListed(ts[1..]);
      if HasEsn(ts) && !(ts[0].typ == 5 && ts[0].id == 0) {
        var i :| 0 <= i < |ts| && ts[i].typ == 5 && ts[i].id == 0;
        assert ts[1..][i - 1] == ts[i];
      }
      if HasEsn(ts[1..]) {
        var i :| 0 <= i < |ts[1..]| && ts[1..][i].typ == 5 && ts[1..][i].id == 0;
        assert ts[i + 1] == ts[1..][i];
      }
    }
  }

  /** The echo has one of each: the cipher, the integrity transform unless it is AEAD, ESN exactly if the
      peer listed that there is none, and the group if there is one. */
  lemma EspEchoLists(p: W.Proposal, sel: Selection)
    ensures var ts := EchoEspTransforms(p, sel);
            && OfType(ts, 1) == [sel.encryption.transformId]
            && OfType(ts, 3) == (if sel.encryption.aead then [] else [sel.integrity.transformId])
            && OfType(ts, 4) == (if sel.dh.Some? then [sel.dh.value] else [])
            && OfType(ts, 5) == (if 0 in OfType(p.transforms, 5) then [0] else [])
  {
    hide OfType, HasEsn;
    EsnListed(p.transforms);
    EspEchoOf(p, sel, 1);
    EspEchoOf(p, sel, 3);
    EspEchoOf(p, sel, 4);
    EspEchoOf(p, sel, 5);
  }

  lemma EspEchoOf(p: W.Proposal, sel: Selection, typ: u8)
    ensures OfType(EchoEspTransforms(p, sel), typ) ==
            if typ == 1 then [sel.encryption.transformId]
            else if typ == 3 && !sel.encryption.aead then [sel.integrity.transformId]
            else if typ == 4 && sel.dh.Some? then [sel.dh.value]
            else if typ == 5 && HasEsn(p.transforms) then [0]
            else []
  {
    hide OfType, HasEsn, W.KeyLengthAttr;
    var a := W.Transform(W.ENC, sel.encryption.transformId,
                         W.KeyLengthAttr(sel.encryption.transformKeyLen * 8 % 0x1_0000));
    var b := if sel.encryption.aead then [] else [W.Transform(W.INTEG, sel.integrity.transformId, [])];
    var c := EsnTransforms(HasEsn(p.transforms));
    var d := if sel.dh.Some? then [W.Transform(W.DH, sel.dh.value, [])] else [];
    JoinLists([a] + b + c, d, typ);
    JoinLists([a] + b, c, typ);
    JoinLists([a], b, typ);
    NoneOfType([], typ);
    OneOf(a, typ);
    if b != [] { OneOf(b[0], typ); assert b == [b[0]]; }
    if c != [] { OneOf(c[0], typ); assert c == [c[0]]; }
    if d != [] { OneOf(d[0], typ); assert d == [d[0]]; }
  }

  // ---- What is offered ----

  /** Proposal `i` of an IKE offer: numbered from 1, under the drawn SPI, with the configured lists by
      type, integrity left out beside an AEAD cipher. */
  lemma IkeOffered(cfg: Config, spi: u64, sa: W.SA, i: nat)
    requires IkeOffer(cfg, spi) == Some(sa) && i < |sa.proposals|
    ensures |sa.proposals| == |cfg.ike|
    ensures var p, s := sa.proposals[i], cfg.ike[i];
            && p.num == (i + 1) % 0x100 && p.protocolId == 1 && p.spi == Put64(spi)
            && CiphersIn(p.transforms) == s.encryption && OfType(p.transforms, 2) == s.prf
            && OfType(p.transforms, 3) == (if AnyAead(s.encryption) then [] else s.integrity)
            && OfType(p.transforms, 4) == s.dh && OfType(p.transforms, 5) == []
  {
    hide IkeOfferTransforms, Put64, AnyAead, OfType, CiphersIn;
    IkeOffersAt(cfg.ike, 0, spi, i);
    IkeLists(cfg.ike[i]);
  }

  lemma IkeLists(s: Proposal)
    requires IkeOfferTransforms(s).Some?
    ensures var ts := IkeOfferTransforms(s).value;
            && CiphersIn(ts) == s.encryption && OfType(ts, 2) == s.prf
            && OfType(ts, 3) == (if AnyAead(s.encryption) then [] else s.integrity)
            && OfType(ts, 4) == s.dh && OfType(ts, 5) == []
  {
    hide IkeOfferTransforms, Absorb, AnyAead, OfType, CiphersIn, KeyOctets;
    OfferReadBack(s);
    AllRead(EMPTY, IkeOfferTransforms(s).value, true);
    NoneOfType(IkeOfferTransforms(s).value, 5);
  }

  /** Proposal `i` of a child offer, likewise; groups only for perfect forward secrecy, and "no ESN" unless
      the variant leaves it out. */
  lemma ChildOffered(cfg: Config, spi: u32, sa: W.SA, i: nat)
    requires ChildOfferSA(cfg, spi) == Some(sa) && i < |sa.proposals|
    ensures |sa.proposals| == |LocalOffers(cfg)|
    ensures var p, o := sa.proposals[i], LocalOffers(cfg)[i];
            && p.num == (i + 1) % 0x100 && p.protocolId == 3 && p.spi == Put32(spi)
            && CiphersIn(p.transforms) == o.encryption && OfType(p.transforms, 2) == []
            && OfType(p.transforms, 3) == (if AnyAead(o.encryption) then [] else o.integrity)
            && OfType(p.transforms, 4) == (if cfg.childPfs then o.dh else [])
            && OfType(p.transforms, 5) == (if o.omitEsn then [] else [0])
  {
    hide ChildOfferTransforms, Put32, AnyAead, OfType, CiphersIn, LocalOffers;
    ChildProposalsAt(LocalOffers(cfg), 0, spi, cfg.childPfs, i);
    ChildLists(LocalOffers(cfg)[i], cfg.childPfs);
  }

  lemma ChildLists(o: ChildOffer, includeDh: bool)
    requires ChildOfferTransforms(o, includeDh).Some?
    ensures var ts := ChildOfferTransforms(o, includeDh).value;
            && CiphersIn(ts) == o.encryption && OfType(ts, 2) == []
            && OfType(ts, 3) == (if AnyAead(o.encryption) then [] else o.integrity)
            && OfType(ts, 4) == (if includeDh then o.dh else []) && OfType(ts, 5) == (if o.omitEsn then [] else [0])
  {
    hide ChildOfferTransforms, Absorb, AnyAead, OfType, CiphersIn, KeyOctets;
    var ts := ChildOfferTransforms(o, includeDh).value;
    ChildOfferReadBack(o, includeDh);
    AllRead(EMPTY, ts, false);
    NoneOfType(ts, 2);
    OfferedEsn(o, includeDh);
  }

  lemma {:induction false} CipherTypes(ids: seq<EncryptionId>, typ: u8)
    requires EncTransforms(ids).Some? && typ != 1
    ensures OfType(EncTransforms(ids).value, typ) == []
  {
    if ids != [] {
      CipherTypes(ids[1..], typ);
      assert EncTransforms(ids).value[1..] == EncTransforms(ids[1..]).value;
    }
  }

  lemma OfferedEsn(o: ChildOffer, includeDh: bool)
    requires ChildOfferTransforms(o, includeDh).Some?
    ensures OfType(ChildOfferTransforms(o, includeDh).value, 5) == if o.omitEsn then [] else [0]
  {
    hide OfType, AnyAead;
    var enc := EncTransforms(o.encryption).value;
    var integ := PlainTransforms(W.INTEG, if AnyAead(o.encryption) then [] else o.integrity);
    var esn, dh := EsnTransforms(!o.omitEsn), PlainTransforms(W.DH, if includeDh then o.dh else []);
    CipherTypes(o.encryption, 5);
    NoneOfType(integ, 5);
    NoneOfType(dh, 5);
    if o.omitEsn { NoneOfType(esn, 5); } else { OneOf(W.Transform(W.ESN, 0, []), 5); }
    JoinLists(esn, dh, 5);
    JoinLists(integ, esn + dh, 5);
    JoinLists(enc, integ + (esn + dh), 5);
  }

  /** A variant of a configured suite; only AEAD ones come without ESN, and only in compatible mode. */
  ghost predicate VariantOf(suites: seq<Proposal>, compatible: bool, o: ChildOffer) {
    && (exists k :: 0 <= k < |suites| && suites[k].encryption == o.encryption && suites[k].integrity == o.integrity
                    && suites[k].dh == o.dh)
    && (o.omitEsn ==> compatible && AnyAead(o.encryption))
  }

  ghost predicate NoRepeats(offers: seq<ChildOffer>) {
    forall i, j :: 0 <= i < j < |offers| ==> !SameVariant(offers[i], offers[j])
  }

  lemma {:induction false} VariantsOnly(all: seq<Proposal>, suites: seq<Proposal>, compatible: bool,
                                        acc: seq<ChildOffer>)
    requires (forall o :: o in acc ==> VariantOf(all, compatible, o)) && NoRepeats(acc)
    requires forall k :: 0 <= k < |suites| ==> suites[k] in all
    ensures var r := ChildOffers(suites, compatible, acc);
            (forall o :: o in r ==> VariantOf(all, compatible, o)) && NoRepeats(r)
    decreases |suites|
  {
    hide AnyAead;
    if suites != [] {
      var s := suites[0];
      var k :| 0 <= k < |all| && all[k] == s;
      var plain := AddVariant(acc, ChildOffer(s.encryption, s.integrity, s.dh, false));
      var next := if compatible && AnyAead(s.encryption)
                  then AddVariant(plain, ChildOffer(s.encryption, s.integrity, s.dh, true)) else plain;
      VariantsOnly(all, suites[1..], compatible, next);
    }
  }

  ghost predicate HasVariant(offers: seq<ChildOffer>, s: Proposal, omitEsn: bool) {
    exists i :: 0 <= i < |offers| && SameVariant(offers[i], ChildOffer(s.encryption, s.integrity, s.dh, omitEsn))
  }

  lemma VariantAdded(acc: seq<ChildOffer>, s: Proposal, omitEsn: bool)
    ensures var r := AddVariant(acc, ChildOffer(s.encryption, s.integrity, s.dh, omitEsn));
            acc <= r && HasVariant(r, s, omitEsn)
  {
    var r := AddVariant(acc, ChildOffer(s.encryption, s.integrity, s.dh, omitEsn));
    if r != acc { assert SameVariant(r[|acc|], ChildOffer(s.encryption, s.integrity, s.dh, omitEsn)); }
  }

  lemma StillThere(acc: seq<ChildOffer>, r: seq<ChildOffer>, s: Proposal, omitEsn: bool)
    requires acc <= r && HasVariant(acc, s, omitEsn)
    ensures HasVariant(r, s, omitEsn)
  {
    var i :| 0 <= i < |acc| && SameVariant(acc[i], ChildOffer(s.encryption, s.integrity, s.dh, omitEsn));
    assert r[i] == acc[i];
  }

  lemma {:induction false} VariantsAll(suites: seq<Proposal>, compatible: bool, acc: seq<ChildOffer>)
    ensures var r := ChildOffers(suites, compatible, acc);
            acc <= r && forall k :: 0 <= k < |suites| ==>
              && HasVariant(r, suites[k], false)
              && (compatible && AnyAead(suites[k].encryption) ==> HasVariant(r, suites[k], true))
    decreases |suites|
  {
    hide AnyAead, AddVariant, HasVariant;
    if suites != [] {
      var s, r := suites[0], ChildOffers(suites, compatible, acc);
      var plain := AddVariant(acc, ChildOffer(s.encryption, s.integrity, s.dh, false));
      var both := AddVariant(plain, ChildOffer(s.encryption, s.integrity, s.dh, true));
      VariantAdded(acc, s, false);
      VariantAdded(plain, s, true);
      VariantsAll(suites[1..], compatible, if compatible && AnyAead(s.encryption) then both else plain);
      StillThere(plain, r, s, false);
      if compatible && AnyAead(s.encryption) { StillThere(both, r, s, true); }
      forall k | 0 < k < |suites| ensures suites[k] == suites[1..][k - 1] {}
    }
  }

  /** What is offered for a child: every configured suite, in compatible mode an AEAD one also without
      ESN, nothing else, and each variant once. */
  lemma ChildOffersExactly(cfg: Config)
    ensures forall k :: 0 <= k < |cfg.esp| ==>
              && HasVariant(LocalOffers(cfg), cfg.esp[k], false)
              && (cfg.strongswanCompatible && AnyAead(cfg.esp[k].encryption) ==>
                  HasVariant(LocalOffers(cfg), cfg.esp[k], true))
    ensures forall o :: o in LocalOffers(cfg) ==> VariantOf(cfg.esp, cfg.strongswanCompatible, o)
    ensures NoRepeats(LocalOffers(cfg))
  {
    hide AnyAead, HasVariant, VariantOf, ChildOffers;
    VariantsAll(cfg.esp, cfg.strongswanCompatible, []);
    VariantsOnly(cfg.esp, cfg.esp, cfg.strongswanCompatible, []);
  }

  // ---- What a requester accepts as an answer, from whomever ----

  /** An IKE answer must name one of our proposals and list exactly one transform of each family, all of
      them ours; with AEAD no integrity transform. */
  lemma IkeDecoded(cfg: Config, sa: W.SA, spi: u64, sel: Selection)
    requires sa.proposals != [] && DecodeIke(cfg, sa) == Some((spi, sel))
    ensures var p := sa.proposals[0];
            && p.protocolId == 1 && |p.spi| == 8 && Get64(p.spi) == spi && 1 <= p.num <= |cfg.ike|
            && CiphersIn(p.transforms) == [IdOf(sel.encryption)] && OfType(p.transforms, 2) == [sel.prf.transformId]
            && OfType(p.transforms, 3) == (if sel.encryption.aead then [] else [sel.integrity.transformId])
            && OfType(p.transforms, 4) == [31]
            && var own := cfg.ike[p.num - 1];
               && IdOf(sel.encryption) in own.encryption && NewEncryption(IdOf(sel.encryption)) == Some(sel.encryption)
               && (!sel.encryption.aead ==> sel.integrity.transformId in own.integrity) && 31 in own.dh
  {
    hide Absorb, Select, OfType, CiphersIn, KeyOctets, Get64;
    var p := sa.proposals[0];
    var remote := Absorb(EMPTY, p.transforms, true).value;
    AllRead(EMPTY, p.transforms, true);
    SelectSound(cfg.ike[p.num - 1], remote);
    assert remote.encryption == [remote.encryption[0]] && remote.prf == [remote.prf[0]] && remote.dh == [remote.dh[0]];
    if !sel.encryption.aead { assert remote.integrity == [remote.integrity[0]]; }
  }

  /** A child answer likewise names one of our offers. */
  lemma ChildDecoded(cfg: Config, ike: Selection, sa: W.SA, spi: u32, sel: Selection)
    requires DecodeChild(cfg, ike, sa) == Some((spi, sel))
    ensures |sa.proposals| == 1
    ensures var p := sa.proposals[0];
            && p.protocolId == 3 && |p.spi| == 4 && Get32(p.spi) == spi && 1 <= p.num <= |LocalOffers(cfg)|
            && sel.prf == ike.prf && NewEncryption(IdOf(sel.encryption)) == Some(sel.encryption)
            && var own := LocalOffers(cfg)[p.num - 1];
               && IdOf(sel.encryption) in own.encryption
               && (if sel.encryption.aead then sel.integrity == NO_INTEGRITY
                   else sel.integrity.transformId in own.integrity
                        && NewIntegrity(sel.integrity.transformId) == Some(sel.integrity))
               && (sel.dh == Some(31) || sel.dh == ike.dh)
  {
    hide ReadAll, LocalOffers, Get32;
  }
}
