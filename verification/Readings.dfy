/** Which payload lists are accepted as rekey requests and answers, and what is read from them. */
module Readings {
  import opened Bytes
  import opened Suite
  import opened Negotiation
  import opened ChildNegotiation
  import opened IkeState
  import opened RekeyExchange

  /** A payload that does not by itself spoil the message: no malformed SA, nonce or key exchange, no
      empty ones, only Curve25519; selectors and authentication where they belong. */
  predicate Permitted(p: Payload, selectors: bool, auth: bool) {
    match p
    case NoncePayload(n) => n != []
    case KePayload(g, d) => g == 31 && d != []
    case TsiPayload(_) => selectors
    case TsrPayload(_) => selectors
    case AuthOrEapPayload => auth
    case Malformed(k) => k != SaKind && k != NonceKind && k != KeKind
    case _ => true
  }

  predicate AllPermitted(inner: seq<Payload>, selectors: bool, auth: bool) {
    forall i :: 0 <= i < |inner| ==> Permitted(inner[i], selectors, auth)
  }

  /** At most one SA, one nonce and one key exchange. */
  predicate Single(inner: seq<Payload>) {
    forall i, j :: 0 <= i < j < |inner| ==>
      && !(inner[i].SaPayload? && inner[j].SaPayload?) && !(inner[i].NoncePayload? && inner[j].NoncePayload?)
      && !(inner[i].KePayload? && inner[j].KePayload?)
  }

  // ---- The last payload of each kind ----

  function LastSa(inner: seq<Payload>): Option<W.SA> {
    if inner == [] then None else
    var p := inner[|inner| - 1];
    if p.SaPayload? then Some(p.sa) else LastSa(inner[..|inner| - 1])
  }

  function LastNonce(inner: seq<Payload>): Option<bytes> {
    if inner == [] then None else
    var p := inner[|inner| - 1];
    if p.NoncePayload? then Some(p.nonce) else LastNonce(inner[..|inner| - 1])
  }

  function LastKe(inner: seq<Payload>): Option<bytes> {
    if inner == [] then None else
    var p := inner[|inner| - 1];
    if p.KePayload? then Some(p.data) else LastKe(inner[..|inner| - 1])
  }

  function LastTsi(inner: seq<Payload>): bytes {
    if inner == [] then [] else
    var p := inner[|inner| - 1];
    if p.TsiPayload? then p.body else LastTsi(inner[..|inner| - 1])
  }

  function LastTsr(inner: seq<Payload>): bytes {
    if inner == [] then [] else
    var p := inner[|inner| - 1];
    if p.TsrPayload? then p.body else LastTsr(inner[..|inner| - 1])
  }

  lemma {:induction false} LastMeans(inner: seq<Payload>)
    ensures LastSa(inner).Some? <==> exists i :: 0 <= i < |inner| && inner[i].SaPayload?
    ensures LastNonce(inner).Some? <==> exists i :: 0 <= i < |inner| && inner[i].NoncePayload?
    ensures LastKe(inner).Some? <==> exists i :: 0 <= i < |inner| && inner[i].KePayload?
  {
    if inner != [] {
      var n := |inner| - 1;
      LastMeans(inner[..n]);
      forall i | 0 <= i < n ensures inner[..n][i] == inner[i] {}
    }
  }

  // ---- The reading ----

  lemma {:induction false} TakeLast(rules: Rules, acc: Parts, inner: seq<Payload>, p: Payload)
    ensures TakeParts(rules, acc, inner + [p]) == match TakeParts(rules, acc, inner)
                                                  case None => None
                                                  case Some(m) => TakePart(rules, m, p)
    decreases |inner|
  {
    hide TakePart;
    if inner == [] {
      assert [] + [p] == [p] && [p][1..] == [];
    } else {
      assert (inner + [p])[1..] == inner[1..] + [p] && (inner + [p])[0] == inner[0];
      match TakePart(rules, acc, inner[0])
      case None =>
      case Some(next) => TakeLast(rules, next, inner[1..], p);
    }
  }

  ghost predicate Accepted(rules: Rules, inner: seq<Payload>) {
    AllPermitted(inner, rules.selectors, rules.auth) && (rules.once ==> Single(inner))
  }

  lemma AcceptedLast(rules: Rules, inner: seq<Payload>, p: Payload)
    ensures Accepted(rules, inner + [p]) <==>
            && Accepted(rules, inner) && Permitted(p, rules.selectors, rules.auth)
            && (rules.once ==> && !(p.SaPayload? && LastSa(inner).Some?) && !(p.NoncePayload? && LastNonce(inner).Some?)
                               && !(p.KePayload? && LastKe(inner).Some?))
  {
    hide Permitted;
    var all := inner + [p];
    LastMeans(inner);
    assert all[|inner|] == p && forall i :: 0 <= i < |inner| ==> all[i] == inner[i];
  }

  lemma {:induction false} PartsExactly(rules: Rules, inner: seq<Payload>)
    ensures TakeParts(rules, NO_PARTS, inner).Some? <==> Accepted(rules, inner)
    ensures Accepted(rules, inner) ==>
            TakeParts(rules, NO_PARTS, inner).value
            == Parts(LastSa(inner), LastNonce(inner), LastKe(inner), LastTsi(inner), LastTsr(inner))
  {
    if inner != [] {
      var n := |inner| - 1;
      var p := inner[n];
      assert inner == inner[..n] + [p];
      PartsExactly(rules, inner[..n]);
      TakeLast(rules, NO_PARTS, inner[..n], p);
      AcceptedLast(rules, inner[..n], p);
      hide Accepted, TakeParts, Single, AllPermitted;
    }
  }

  // ---- The four messages ----

  /** A child rekey answer: one SA, one nonce and a key exchange exactly for perfect forward secrecy,
      both selectors, no authentication; the SA must echo an offer. */
  lemma ChildAnswerRead(cfg: Config, ike: Selection, inner: seq<Payload>)
    ensures ParseChildResponse(cfg, ike, inner).Some? <==>
            && AllPermitted(inner, true, false) && Single(inner) && LastSa(inner).Some? && LastNonce(inner).Some?
            && LastTsi(inner) != [] && LastTsr(inner) != [] && (cfg.childPfs <==> LastKe(inner).Some?)
            && DecodeChild(cfg, ike, LastSa(inner).value).Some?
    ensures ParseChildResponse(cfg, ike, inner).Some? ==>
            var (spi, sel) := DecodeChild(cfg, ike, LastSa(inner).value).value;
            ParseChildResponse(cfg, ike, inner).value ==
              ChildResponse(spi, LastNonce(inner).value, LastKe(inner), LastTsi(inner), LastTsr(inner), sel)
  {
    hide TakeParts, DecodeChild, Single, AllPermitted, LastSa, LastNonce, LastKe, LastTsi, LastTsr;
    PartsExactly(CHILD_RESPONSE, inner);
  }

  /** An IKE rekey answer: one SA with one proposal, one nonce, one key exchange, no selectors. */
  lemma IkeAnswerRead(cfg: Config, inner: seq<Payload>)
    ensures ParseIkeResponse(cfg, inner).Some? <==>
            && AllPermitted(inner, false, false) && Single(inner) && LastSa(inner).Some? && LastNonce(inner).Some?
            && LastKe(inner).Some? && |LastSa(inner).value.proposals| == 1 && DecodeIke(cfg, LastSa(inner).value).Some?
    ensures ParseIkeResponse(cfg, inner).Some? ==>
            var r, (spi, sel) := ParseIkeResponse(cfg, inner).value, DecodeIke(cfg, LastSa(inner).value).value;
            r == IkeResponse(sel, spi, LastNonce(inner).value, LastKe(inner).value)
  {
    hide TakeParts, DecodeIke, Single, AllPermitted, LastSa, LastNonce, LastKe, LastTsi, LastTsr;
    PartsExactly(IKE_RESPONSE, inner);
  }

  /** Requests may repeat payloads, and the last one counts; authentication payloads are passed over. */
  lemma RequestsRead(inner: seq<Payload>)
    ensures ParsePeerChild(inner) ==
            if && AllPermitted(inner, true, true) && LastSa(inner).Some? && LastNonce(inner).Some?
               && LastTsi(inner) != [] && LastTsr(inner) != []
            then Some(PeerChildRequest(LastSa(inner).value, LastNonce(inner).value, LastKe(inner), LastTsi(inner),
                                       LastTsr(inner)))
            else None
    ensures ParsePeerIke(inner) ==
            if AllPermitted(inner, false, true) && LastSa(inner).Some? && LastNonce(inner).Some? && LastKe(inner).Some?
            then Some(PeerIkeRequest(LastSa(inner).value, LastNonce(inner).value, LastKe(inner).value))
            else None
  {
    hide TakeParts, Single, AllPermitted, LastSa, LastNonce, LastKe, LastTsi, LastTsr;
    PartsExactly(CHILD_REQUEST, inner);
    PartsExactly(IKE_REQUEST, inner);
  }

  // ---- Which child, and which nonce ----

  predicate IsRekeySa(p: Payload) {
    p.NotifyPayload? && p.notifyType == 16393
  }

  /** The first REKEY_SA notification names the child, if it is about one ESP SA and no notification
      before it is malformed. */
  lemma {:induction false} TargetRead(inner: seq<Payload>, target: u32)
    ensures RekeyTarget(inner) == Some(target) <==>
            exists i :: && 0 <= i < |inner| && IsRekeySa(inner[i]) && inner[i].protocolId == 3 && |inner[i].spi| == 4
                        && Get32(inner[i].spi) == target
                        && forall j :: 0 <= j < i ==> !IsRekeySa(inner[j]) && inner[j] != Malformed(NotifyKind)
  {
    hide Get32;
    if inner != [] {
      TargetRead(inner[1..], target);
      forall i | 0 < i < |inner| ensures inner[i] == inner[1..][i - 1] {}
      if i :| && 0 <= i < |inner[1..]| && IsRekeySa(inner[1..][i]) && inner[1..][i].protocolId == 3
              && |inner[1..][i].spi| == 4 && Get32(inner[1..][i].spi) == target
              && forall j :: 0 <= j < i ==> !IsRekeySa(inner[1..][j]) && inner[1..][j] != Malformed(NotifyKind) {
        assert inner[i + 1] == inner[1..][i];
      }
    }
  }

  /** The first nonce is the one that is compared, unless it is empty or a malformed one comes before. */
  lemma {:induction false} NonceRead(inner: seq<Payload>, n: bytes)
    ensures FirstNonce(inner) == Some(n) <==>
            n != [] && exists i :: && 0 <= i < |inner| && inner[i] == NoncePayload(n)
                                   && forall j :: 0 <= j < i ==>
                                        !inner[j].NoncePayload? && inner[j] != Malformed(NonceKind)
  {
    if inner != [] {
      NonceRead(inner[1..], n);
      forall i | 0 < i < |inner| ensures inner[i] == inner[1..][i - 1] {}
      if i :| && 0 <= i < |inner[1..]| && inner[1..][i] == NoncePayload(n)
              && forall j :: 0 <= j < i ==> !inner[1..][j].NoncePayload? && inner[1..][j] != Malformed(NonceKind) {
        assert inner[i + 1] == inner[1..][i];
      }
    }
  }
}
