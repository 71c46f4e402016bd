/** When the two ends of a child rekey derive the same keys. */
module ChildKeyAgreement {
  import opened Bytes
  import opened Suite
  import opened Keying
  import opened Negotiation
  import opened ChildNegotiation
  import opened Offers
  import opened IkeState
  import opened RekeyExchange
  import opened IkeTalk
  import opened ChildTalk

  /** The requester derives with the PRF of the IKE SA, the responder with the PRF of the
      local suite it matched: if these are the same, so are the keys. */
  lemma ChildKeysAgree(cx: Config, cy: Config, c: Crypto, env: Envelope, active: ChildSA, rc: RekeyContext, q: Frame,
                       fr: Fresh,
                       req: PeerChildRequest, choice: EspChoice)
    requires Ideal(c) && UnderstandsChild(cy, cx) && AsksChild(cy, c, active, rc, q)
    requires ParsePeerChild(q.inner) == Some(req) && fr.nonce != []
    requires SelectPeerEsp(cx, req.sa, fr.childSpi, req.ke.Some?) == Some(choice)
    requires choice.selection.prf == env.selected.prf
    ensures var answer := RequestParts(choice.echo, fr.nonce, KeOf(c, req.ke.Some?, fr.dh), req.tsi, req.tsr);
            var r := ParseChildResponse(cy, env.selected, answer);
            r.Some? && PeerChildKeys(c, env, req, fr, choice.selection) ==
              ChildRekeyKeys(c, cy.childPfs, Flip(env), rc, r.value)
  {
    hide ChildOfferSA, SelectPeerEsp, DecodeChild, DeriveChildKeys, ChildRekeyRequest, PeerOutboundSpi, TakeParts,
         ParsePeerChild, RekeyTarget, HasSelectors, DeletedSpi, UnderstandsChild, KnownChild;
    AsksChildRead(cy, c, active, rc, q);
    ChildEchoUnderstood(cy, cx, env.selected, rc.newInboundSpi, fr.childSpi, ChildOfferSA(cy, rc.newInboundSpi).value,
                        choice);
    TakesAll(CHILD_RESPONSE, choice.echo, fr.nonce, c, cy.childPfs, fr.dh, active.tsi, active.tsr);
    assert cy.childPfs ==> c.agree(rc.dh.value, c.publicKey(fr.dh)) == c.agree(fr.dh, c.publicKey(rc.dh.value));
  }

  /** What the responder derives from: the old SK_d, both nonces and, with perfect forward secrecy,
      the new shared secret before them (section 2.17 of RFC 7296). */
  lemma ChildKeysFrom(cx: Config, cy: Config, c: Crypto, env: Envelope, active: ChildSA, rc: RekeyContext, q: Frame,
                      fr: Fresh, req: PeerChildRequest, choice: EspChoice)
    requires Ideal(c) && AsksChild(cy, c, active, rc, q) && ParsePeerChild(q.inner) == Some(req)
    requires SelectPeerEsp(cx, req.sa, fr.childSpi, req.ke.Some?) == Some(choice)
    ensures cy.childPfs ==> rc.dh.Some?
    ensures var sel, r := choice.selection, PeerChildKeys(c, env, req, fr, choice.selection);
            var shared := if cy.childPfs then c.agree(rc.dh.value, c.publicKey(fr.dh)).value else [];
            r.Some? && Some(r.value.skei + r.value.skai + r.value.sker + r.value.skar)
                       == PrfPlus(c, sel.prf, env.keys.skd, shared + rc.ni + fr.nonce,
                                  2 * (sel.encryption.keyLen + sel.integrity.keyLen))
  {
    hide ChildOfferSA, SelectPeerEsp, DeriveChildKeys, ChildRekeyRequest, PeerOutboundSpi, TakeParts, ParsePeerChild,
         RekeyTarget, HasSelectors, DeletedSpi, PrfPlus;
    AsksChildRead(cy, c, active, rc, q);
    var sel := choice.selection;
    ChildEchoUnderstood(cy, cx, sel, rc.newInboundSpi, fr.childSpi, ChildOfferSA(cy, rc.newInboundSpi).value, choice);
    var shared := if cy.childPfs then c.agree(fr.dh, c.publicKey(rc.dh.value)).value else [];
    ChildKeysPartition(c, sel.prf, env.keys.skd, rc.ni, fr.nonce, shared, sel.encryption, sel.integrity);
  }

  // ---- Otherwise they differ for some keyed hash ----

  /** A keyed hash whose output only tells which hash it is. */
  function Label(id: u16): (b: u8) {
    id % 0x100
  }

  function Repeat(b: u8, n: nat): (r: bytes)
    ensures |r| == n && forall i :: 0 <= i < n ==> r[i] == b
  {
    seq(n, i => b)
  }

  function Labelled(): Crypto {
    Crypto((id: u16, k: bytes, d: bytes) => if NewPrf(id).Some? then Repeat(Label(id), NewPrf(id).value.outputLen)
                                            else [],
           (a: nat) => Repeat(0, 32), (a: nat, b: bytes) => Some([]))
  }

  lemma LabelledIdeal()
    ensures Ideal(Labelled())
  {
  }

  lemma {:induction false} LabelledBlocks(prf: Prf, key: bytes, seed: bytes, n: nat)
    requires Registered(prf) && n <= 255
    ensures forall i :: 0 <= i < |Blocks(Labelled(), prf, key, seed, n)| ==>
      Blocks(Labelled(), prf, key, seed, n)[i] == Label(prf.transformId)
  {
    if n > 0 { LabelledBlocks(prf, key, seed, n - 1); }
  }

  ghost predicate AlwaysAgree(p: Prf, q: Prf, skd: bytes, ni: bytes, nr: bytes, shared: bytes, enc: EncryptionAlg,
                              integ: Integrity) {
    forall c: Crypto :: Ideal(c) ==>
      DeriveChildKeys(c, p, skd, ni, nr, shared, enc, integ) == DeriveChildKeys(c, q, skd, ni, nr, shared, enc, integ)
  }

  /** Two PRFs give the same child keys for every keyed hash if and only if they are the same PRF. */
  lemma SamePrfNeeded(p: Prf, q: Prf, skd: bytes, ni: bytes, nr: bytes, shared: bytes, enc: EncryptionAlg,
                      integ: Integrity)
    requires Registered(p) && Registered(q) && 0 < enc.keyLen <= 36 && integ.keyLen <= 64
    ensures AlwaysAgree(p, q, skd, ni, nr, shared, enc, integ) <==> p == q
  {
    hide DeriveChildKeys;
    LabelledIdeal();
    FirstLabel(p, skd, ni, nr, shared, enc, integ);
    FirstLabel(q, skd, ni, nr, shared, enc, integ);
  }

  lemma FirstLabel(p: Prf, skd: bytes, ni: bytes, nr: bytes, shared: bytes, enc: EncryptionAlg, integ: Integrity)
    requires Registered(p) && 0 < enc.keyLen <= 36 && integ.keyLen <= 64
    ensures var k := DeriveChildKeys(Labelled(), p, skd, ni, nr, shared, enc, integ);
            k.Some? && |k.value.skei| == enc.keyLen && k.value.skei[0] == Label(p.transformId)
  {
    LabelledIdeal();
    var n := 2 * (enc.keyLen + integ.keyLen);
    PlusSucceeds(Labelled(), p, skd, shared + ni + nr, n);
    LabelledBlocks(p, skd, shared + ni + nr, BlockCount(p, n));
  }
}
