/** The CREATE_CHILD_SA rekey messages: what a request carries, what an answer or
    a peer's request is read as, and the keys derived from both. */
module RekeyExchange {
  import opened Bytes
  import opened Suite
  import opened Keying
  import opened Negotiation
  import opened ChildNegotiation
  import opened IkeState
  import W = SaPayload

  /** Everything drawn at random, and whether the data plane acknowledges in time. */
  datatype Fresh = Fresh(childSpi: u32, ikeSpi: u64, nonce: bytes, dh: nat, acked: bool)

  // ---- Building requests ----

  function KeOf(c: Crypto, present: bool, dh: nat): seq<Payload> {
    if present then [KePayload(CURVE25519, c.publicKey(dh))] else []
  }

  function ChildRekeyRequest(cfg: Config, c: Crypto, active: ChildSA, fr: Fresh): Option<seq<Payload>> {
    match ChildOfferSA(cfg, fr.childSpi)
    case None => None
    case Some(sa) =>
      Some([NotifyPayload(W.PROTOCOL_ESP, Put32(active.inboundSpi), NOTIFY_REKEY_SA), SaPayload(sa),
            NoncePayload(fr.nonce)]
           + KeOf(c, cfg.childPfs, fr.dh) + [TsiPayload(active.tsi), TsrPayload(active.tsr)])
  }

  function IkeRekeyRequest(cfg: Config, c: Crypto, fr: Fresh): Option<seq<Payload>> {
    match IkeOffer(cfg, fr.ikeSpi)
    case None => None
    case Some(sa) => Some([SaPayload(sa), NoncePayload(fr.nonce), KePayload(CURVE25519, c.publicKey(fr.dh))])
  }

  // ---- Reading payload chains ----

  /** `once`: a second SA, NONCE or KE is an error. `selectors`: TSi/TSr may occur.
      `auth`: AUTH/EAP may occur. */
  datatype Rules = Rules(once: bool, selectors: bool, auth: bool)

  const CHILD_RESPONSE := Rules(true, true, false)
  const IKE_RESPONSE := Rules(true, false, false)
  const CHILD_REQUEST := Rules(false, true, true)
  const IKE_REQUEST := Rules(false, false, true)

  datatype Parts = Parts(sa: Option<W.SA>, nonce: Option<bytes>, ke: Option<bytes>, tsi: bytes, tsr: bytes)

  const NO_PARTS := Parts(None, None, None, [], [])

  function TakePart(rules: Rules, acc: Parts, p: Payload): Option<Parts> {
    match p
    case SaPayload(sa) => if rules.once && acc.sa.Some? then None else Some(acc.(sa := Some(sa)))
    case NoncePayload(n) =>
      if n == [] || (rules.once && acc.nonce.Some?) then None else Some(acc.(nonce := Some(n)))
    case KePayload(g, d) =>
      if d == [] || g != CURVE25519 || (rules.once && acc.ke.Some?) then None else Some(acc.(ke := Some(d)))
    case TsiPayload(b) => if rules.selectors then Some(acc.(tsi := b)) else None
    case TsrPayload(b) => if rules.selectors then Some(acc.(tsr := b)) else None
    case AuthOrEapPayload => if rules.auth then Some(acc) else None
    case Malformed(k) => if k == SaKind || k == NonceKind || k == KeKind then None else Some(acc)
    case _ => Some(acc)
  }

  function TakeParts(rules: Rules, acc: Parts, inner: seq<Payload>): Option<Parts>
    decreases |inner|
  {
    if inner == [] then Some(acc) else
    match TakePart(rules, acc, inner[0])
    case None => None
    case Some(next) => TakeParts(rules, next, inner[1..])
  }

  datatype ChildResponse = ChildResponse(peerSpi: u32, nr: bytes, ke: Option<bytes>, tsi: bytes, tsr: bytes,
                                         selection: Selection)

  function ParseChildResponse(cfg: Config, ike: Selection, inner: seq<Payload>): Option<ChildResponse> {
    match TakeParts(CHILD_RESPONSE, NO_PARTS, inner)
    case None => None
    case Some(p) =>
      if p.sa.None? || p.nonce.None? || p.tsi == [] || p.tsr == [] || cfg.childPfs != p.ke.Some? then None else
      match DecodeChild(cfg, ike, p.sa.value)
      case None => None
      case Some((spi, sel)) => Some(ChildResponse(spi, p.nonce.value, p.ke, p.tsi, p.tsr, sel))
  }

  datatype IkeResponse = IkeResponse(selection: Selection, responderSpi: u64, nr: bytes, ke: bytes)

  function ParseIkeResponse(cfg: Config, inner: seq<Payload>): Option<IkeResponse> {
    match TakeParts(IKE_RESPONSE, NO_PARTS, inner)
    case None => None
    case Some(p) =>
      if p.sa.None? || p.nonce.None? || p.ke.None? || |p.sa.value.proposals| != 1 then None else
      match DecodeIke(cfg, p.sa.value)
      case None => None
      case Some((spi, sel)) => Some(IkeResponse(sel, spi, p.nonce.value, p.ke.value))
  }

  /** The REKEY_SA notify of a peer's child rekey: its SPI, unless a notify before
      it is malformed or it is itself not about one ESP SA. */
  function RekeyTarget(inner: seq<Payload>): Option<u32> {
    if inner == [] then None
    else if inner[0] == Malformed(NotifyKind) then None
    else if inner[0].NotifyPayload? && inner[0].notifyType == NOTIFY_REKEY_SA then
      if inner[0].protocolId != W.PROTOCOL_ESP || |inner[0].spi| != 4 then None else Some(Get32(inner[0].spi))
    else RekeyTarget(inner[1..])
  }

  datatype PeerChildRequest = PeerChildRequest(sa: W.SA, ni: bytes, ke: Option<bytes>, tsi: bytes, tsr: bytes)

  function ParsePeerChild(inner: seq<Payload>): Option<PeerChildRequest> {
    match TakeParts(CHILD_REQUEST, NO_PARTS, inner)
    case None => None
    case Some(p) =>
      if p.sa.None? || p.tsi == [] || p.tsr == [] || p.nonce.None? then None
      else Some(PeerChildRequest(p.sa.value, p.nonce.value, p.ke, p.tsi, p.tsr))
  }

  datatype PeerIkeRequest = PeerIkeRequest(sa: W.SA, ni: bytes, ke: bytes)

  function ParsePeerIke(inner: seq<Payload>): Option<PeerIkeRequest> {
    match TakeParts(IKE_REQUEST, NO_PARTS, inner)
    case None => None
    case Some(p) =>
      if p.sa.None? || p.nonce.None? || p.ke.None? then None
      else Some(PeerIkeRequest(p.sa.value, p.nonce.value, p.ke.value))
  }

  function FirstNonce(inner: seq<Payload>): Option<bytes> {
    if inner == [] then None
    else if inner[0].NoncePayload? then (if inner[0].nonce == [] then None else Some(inner[0].nonce))
    else if inner[0] == Malformed(NonceKind) then None
    else FirstNonce(inner[1..])
  }

  predicate HasSelectors(inner: seq<Payload>) {
    exists i :: 0 <= i < |inner| && (inner[i].TsiPayload? || inner[i].TsrPayload?)
  }

  // ---- Nonce collision (sections 2.8.1 and 2.8.2 of RFC 7296) ----

  datatype Collision = NoCollision | WeWin | WeLose

  /** Lexicographic order of two octet strings of the same length. */
  predicate Below(a: bytes, b: bytes)
    requires |a| == |b|
  {
    a != [] && (a[0] < b[0] || (a[0] == b[0] && Below(a[1..], b[1..])))
  }

  function DecideCollision(ours: bytes, theirs: bytes): Collision {
    if ours == [] || theirs == [] then NoCollision else
    var n := if |theirs| < |ours| then |theirs| else |ours|;
    if Below(ours[..n], theirs[..n]) then WeLose else WeWin
  }

  /** At the first octet in which two nonces differ, within their common length, `a` has the
      smaller one. */
  predicate Smaller(a: bytes, b: bytes) {
    exists i {:trigger a[..i]} :: 0 <= i < |a| && i < |b| && a[..i] == b[..i] && a[i] < b[i]
  }

  lemma {:induction false} BelowAt(a: bytes, b: bytes) returns (i: nat)
    requires |a| == |b| && Below(a, b)
    ensures i < |a| && a[..i] == b[..i] && a[i] < b[i]
  {
    if a[0] < b[0] {
      i := 0;
    } else {
      var k := BelowAt(a[1..], b[1..]);
      i := k + 1;
      assert a[..i] == [a[0]] + a[1..][..k] && b[..i] == [b[0]] + b[1..][..k];
    }
  }

  lemma {:induction false} AtBelow(a: bytes, b: bytes, i: nat)
    requires |a| == |b| && i < |a| && a[..i] == b[..i] && a[i] < b[i]
    ensures Below(a, b)
  {
    if i > 0 {
      assert a[0] == a[..i][0] && b[0] == b[..i][0];
      assert a[1..][..i - 1] == a[..i][1..] && b[1..][..i - 1] == b[..i][1..];
      AtBelow(a[1..], b[1..], i - 1);
    }
  }

  lemma {:induction false} FirstDifference(a: bytes, b: bytes) returns (i: nat)
    requires |a| == |b| && a != b
    ensures i < |a| && a[..i] == b[..i] && a[i] != b[i]
  {
    if a[0] != b[0] {
      i := 0;
    } else {
      assert a == [a[0]] + a[1..] && b == [b[0]] + b[1..];
      var k := FirstDifference(a[1..], b[1..]);
      i := k + 1;
      assert a[..i] == [a[0]] + a[1..][..k] && b[..i] == [b[0]] + b[1..][..k];
    }
  }

  /** What the decision means: the end whose nonce is smaller at the first difference loses. */
  lemma LosesIffSmaller(a: bytes, b: bytes)
    ensures DecideCollision(a, b) == WeLose <==> Smaller(a, b)
    ensures DecideCollision(a, b) == NoCollision <==> a == [] || b == []
  {
    if a != [] && b != [] {
      var n := if |b| < |a| then |b| else |a|;
      if Below(a[..n], b[..n]) {
        var i := BelowAt(a[..n], b[..n]);
        assert a[..i] == a[..n][..i] && b[..i] == b[..n][..i];
      }
      if Smaller(a, b) {
        var i :| 0 <= i < |a| && i < |b| && a[..i] == b[..i] && a[i] < b[i];
        assert a[..n][..i] == a[..i] && b[..n][..i] == b[..i];
        AtBelow(a[..n], b[..n], i);
      }
    }
  }

  /** Never both smaller, and one of them unless one is a prefix of the other. */
  lemma SmallerDecides(a: bytes, b: bytes)
    ensures !(Smaller(a, b) && Smaller(b, a))
    ensures Smaller(a, b) || Smaller(b, a) <==> !(a <= b || b <= a)
  {
    if Smaller(a, b) && Smaller(b, a) {
      var i :| 0 <= i < |a| && i < |b| && a[..i] == b[..i] && a[i] < b[i];
      var j :| 0 <= j < |a| && j < |b| && a[..j] == b[..j] && b[j] < a[j];
      OneFirst(a, b, i, j);
    }
    var n := if |b| < |a| then |b| else |a|;
    if a[..n] == b[..n] {
      assert a[..n] <= a && b[..n] <= b;
      NoDifference(a, b, n);
    } else {
      var i := FirstDifference(a[..n], b[..n]);
      assert a[..i] == a[..n][..i] && b[..i] == b[..n][..i];
      assert a[..n][i] == a[i] && b[..n][i] == b[i];
    }
  }

  lemma OneFirst(a: bytes, b: bytes, i: nat, j: nat)
    requires i < |a| && i < |b| && a[..i] == b[..i] && a[i] != b[i]
    requires j < |a| && j < |b| && a[..j] == b[..j] && a[j] != b[j]
    ensures i == j
  {
  }

  lemma NoDifference(a: bytes, b: bytes, n: nat)
    requires n <= |a| && n <= |b| && (n == |a| || n == |b|) && a[..n] == b[..n]
    ensures !Smaller(a, b) && !Smaller(b, a)
  {
    forall i | 0 <= i < n ensures a[i] == b[i] { assert a[..n][i] == b[..n][i]; }
  }

  /** The two ends of a collision never both lose, and exactly one of them loses unless one
      nonce is a prefix of the other. */
  lemma CollisionDecides(a: bytes, b: bytes)
    requires a != [] && b != []
    ensures !(DecideCollision(a, b).WeLose? && DecideCollision(b, a).WeLose?)
    ensures DecideCollision(a, b).WeLose? || DecideCollision(b, a).WeLose? <==> !(a <= b || b <= a)
  {
    LosesIffSmaller(a, b);
    LosesIffSmaller(b, a);
    SmallerDecides(a, b);
  }

  // ---- Keys ----

  function SharedSecret(c: Crypto, dh: Option<nat>, ke: Option<bytes>): Option<bytes> {
    if dh.None? || ke.None? then None else c.agree(dh.value, ke.value)
  }

  /** Keys of a child we rekeyed: the PRF is the IKE SA's. */
  function ChildRekeyKeys(c: Crypto, pfs: bool, env: Envelope, rc: RekeyContext, r: ChildResponse): Option<ChildKeys> {
    var shared := if pfs then SharedSecret(c, rc.dh, r.ke) else Some([]);
    if shared.None? then None else
    DeriveChildKeys(c, env.selected.prf, env.keys.skd, rc.ni, r.nr, shared.value, r.selection.encryption,
                    r.selection.integrity)
  }

  /** Keys of a child the peer rekeyed: the PRF is that of the local suite chosen. */
  function PeerChildKeys(c: Crypto, env: Envelope, req: PeerChildRequest, fr: Fresh,
                         sel: Selection): Option<ChildKeys> {
    var shared := if req.ke.Some? then c.agree(fr.dh, req.ke.value) else Some([]);
    if shared.None? then None else
    DeriveChildKeys(c, sel.prf, env.keys.skd, req.ni, fr.nonce, shared.value, sel.encryption, sel.integrity)
  }

  /** The envelope of the IKE SA that replaces `env`. */
  function RekeyedEnvelope(c: Crypto, env: Envelope, shared: bytes, ni: bytes, nr: bytes, spiI: u64, spiR: u64,
                           originalInitiator: bool, sel: Selection): Option<Envelope>
  {
    match DeriveIkeKeys(c, sel.prf, RekeySeed(c, env.selected.prf, env.keys.skd, shared, ni, nr), ni, nr, spiI, spiR,
                        sel.encryption, sel.integrity)
    case None => None
    case Some(keys) => Some(Envelope(spiI, spiR, originalInitiator, sel, keys))
  }
}
