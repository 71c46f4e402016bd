/** Algorithm suites: the registered transforms, the local preference lists and
    the negotiation that picks one algorithm per family. */
module Suite {
  import opened Bytes

  datatype EncryptionId = EncryptionId(transformId: u16, keyLen: u16)

  /** One configured or offered suite: a preference list per transform family. */
  datatype Proposal = Proposal(encryption: seq<EncryptionId>, integrity: seq<u16>, prf: seq<u16>, dh: seq<u16>)

  datatype EncryptionAlg = EncryptionAlg(transformId: u16, transformKeyLen: u16, keyLen: nat, saltLen: nat,
                                         ivLen: nat, blockLen: nat, icvLen: nat, aead: bool)
  datatype Integrity = Integrity(transformId: u16, outputLen: nat, keyLen: nat)
  datatype Prf = Prf(transformId: u16, outputLen: nat)
  datatype Selection = Selection(encryption: EncryptionAlg, integrity: Integrity, prf: Prf, dh: Option<u16>)

  const AES_CBC: u16 := 12
  const AES_CCM8: u16 := 14
  const AES_CCM12: u16 := 15
  const AES_CCM16: u16 := 16
  const AES_GCM12: u16 := 19
  const AES_GCM16: u16 := 20
  const CURVE25519: u16 := 31
  const NO_INTEGRITY := Integrity(0, 0, 0)

  function NewEncryption(id: EncryptionId): (r: Option<EncryptionAlg>)
    ensures r.Some? ==> IdOf(r.value) == id && r.value.transformKeyLen in {16, 32}
  {
    var k := id.keyLen;
    if k != 16 && k != 32 then None
    else if id.transformId == AES_CBC then Some(EncryptionAlg(AES_CBC, k, k, 0, 16, 16, 0, false))
    else if id.transformId == AES_CCM8 then Some(EncryptionAlg(AES_CCM8, k, k + 3, 3, 8, 1, 8, true))
    else if id.transformId == AES_CCM12 then Some(EncryptionAlg(AES_CCM12, k, k + 3, 3, 8, 1, 12, true))
    else if id.transformId == AES_CCM16 then Some(EncryptionAlg(AES_CCM16, k, k + 3, 3, 8, 1, 16, true))
    else if id.transformId == AES_GCM12 then Some(EncryptionAlg(AES_GCM12, k, k + 4, 4, 8, 1, 12, true))
    else if id.transformId == AES_GCM16 then Some(EncryptionAlg(AES_GCM16, k, k + 4, 4, 8, 1, 16, true))
    else None
  }

  function IdOf(alg: EncryptionAlg): EncryptionId {
    EncryptionId(alg.transformId, alg.transformKeyLen)
  }

  /** The length in octets of the tag an AEAD transform names. */
  function TagOf(transformId: u16): nat {
    if transformId == AES_CCM8 then 8 else if transformId == AES_CCM12 || transformId == AES_GCM12 then 12 else 16
  }

  /** Exactly six ciphers are registered, each for two key lengths. A key is the AES key and the
      salt; an AEAD cipher has an explicit IV of eight octets and its own tag, and pads nothing; CBC
      works in blocks of sixteen. */
  lemma EncryptionSizes(id: EncryptionId)
    ensures NewEncryption(id).Some? <==>
            && (id.keyLen == 16 || id.keyLen == 32)
            && (id.transformId == AES_CBC || 14 <= id.transformId <= 16 || 19 <= id.transformId <= 20)
    ensures NewEncryption(id).Some? ==>
            var e := NewEncryption(id).value;
            && e.keyLen == id.keyLen + e.saltLen && (e.aead <==> id.transformId != AES_CBC)
            && (e.aead ==> && e.ivLen == 8 && e.blockLen == 1 && e.icvLen == TagOf(id.transformId)
                           && e.saltLen == if id.transformId <= AES_CCM16 then 3 else 4)
            && (!e.aead ==> e.ivLen == e.blockLen == 16 && e.saltLen == e.icvLen == 0)
  {
  }

  function NewIntegrity(id: u16): (r: Option<Integrity>)
    ensures r.Some? ==> r.value.transformId == id
  {
    match id
    case 0 => Some(NO_INTEGRITY)
    case 2 => Some(Integrity(2, 12, 20))
    case 12 => Some(Integrity(12, 16, 32))
    case 13 => Some(Integrity(13, 24, 48))
    case 14 => Some(Integrity(14, 32, 64))
    case _ => None
  }

  function NewPrf(id: u16): (r: Option<Prf>)
    ensures r.Some? ==> r.value.transformId == id
  {
    match id
    case 2 => Some(Prf(2, 20))
    case 5 => Some(Prf(5, 32))
    case 7 => Some(Prf(7, 64))
    case _ => None
  }

  /** The PRF family implied by an integrity transform; 0 when there is none. */
  function PrfFromIntegrity(id: u16): u16 {
    match id
    case 2 => 2
    case 12 => 5
    case 14 => 7
    case _ => 0
  }

  predicate PrfMatches(prf: u16, integrity: Integrity) {
    integrity.transformId == 0 || PrfFromIntegrity(integrity.transformId) == prf
  }

  // ---- Select: local preference order against a remote proposal ----

  function PickEncryption(wants: seq<EncryptionId>, local: Proposal, remote: Proposal): Option<EncryptionAlg> {
    if wants == [] then None
    else if wants[0] !in remote.encryption then PickEncryption(wants[1..], local, remote)
    else match NewEncryption(wants[0])
         case None => None
         case Some(alg) => if alg.aead && (local.integrity != [] || remote.integrity != []) then None else Some(alg)
  }

  function PickIntegrity(wants: seq<u16>, remote: seq<u16>): Option<Integrity> {
    if wants == [] then None
    else if wants[0] !in remote then PickIntegrity(wants[1..], remote)
    else NewIntegrity(wants[0])
  }

  function PickPrf(wants: seq<u16>, remote: seq<u16>, integrity: Integrity): Option<Prf> {
    if wants == [] then
      var implied := PrfFromIntegrity(integrity.transformId);
      if integrity.transformId != 0 && implied != 0 && implied in remote then NewPrf(implied) else None
    else if !PrfMatches(wants[0], integrity) || wants[0] !in remote then PickPrf(wants[1..], remote, integrity)
    else NewPrf(wants[0])
  }

  function PickDh(wants: seq<u16>, remote: seq<u16>): Option<u16> {
    if wants == [] then None
    else if wants[0] in remote && wants[0] == CURVE25519 then Some(CURVE25519)
    else PickDh(wants[1..], remote)
  }

  function Select(local: Proposal, remote: Proposal): Option<Selection> {
    match PickEncryption(local.encryption, local, remote)
    case None => None
    case Some(enc) =>
      match (if enc.aead then Some(NO_INTEGRITY) else PickIntegrity(local.integrity, remote.integrity))
      case None => None
      case Some(integ) =>
        match PickPrf(local.prf, remote.prf, integ)
        case None => None
        case Some(prf) =>
          match PickDh(local.dh, remote.dh)
          case None => None
          case Some(dh) => Some(Selection(enc, integ, prf, Some(dh)))
  }

  // ---- What a selection guarantees, independently of preference order ----

  /** Every chosen algorithm is registered and was on both lists, an AEAD cipher
      excludes integrity on both, and the PRF belongs to the integrity family. */
  ghost predicate Common(local: Proposal, remote: Proposal, sel: Selection) {
    && IdOf(sel.encryption) in local.encryption && IdOf(sel.encryption) in remote.encryption
    && NewEncryption(IdOf(sel.encryption)) == Some(sel.encryption)
    && (if sel.encryption.aead
        then sel.integrity == NO_INTEGRITY && local.integrity == [] && remote.integrity == []
        else sel.integrity.transformId in local.integrity && sel.integrity.transformId in remote.integrity
             && NewIntegrity(sel.integrity.transformId) == Some(sel.integrity))
    && sel.prf.transformId in remote.prf && NewPrf(sel.prf.transformId) == Some(sel.prf)
    && PrfMatches(sel.prf.transformId, sel.integrity)
    && sel.dh == Some(CURVE25519) && CURVE25519 in local.dh && CURVE25519 in remote.dh
  }

  lemma {:induction false} PickedEncryption(wants: seq<EncryptionId>, local: Proposal, remote: Proposal)
    ensures var r := PickEncryption(wants, local, remote);
            r.Some? ==> && IdOf(r.value) in wants && IdOf(r.value) in remote.encryption
                        && NewEncryption(IdOf(r.value)) == r
                        && (r.value.aead ==> local.integrity == [] && remote.integrity == [])
  {
    if wants != [] { PickedEncryption(wants[1..], local, remote); }
  }

  lemma {:induction false} PickedIntegrity(wants: seq<u16>, remote: seq<u16>)
    ensures var r := PickIntegrity(wants, remote);
            r.Some? ==> r.value.transformId in wants && r.value.transformId in remote
                        && NewIntegrity(r.value.transformId) == r
  {
    if wants != [] { PickedIntegrity(wants[1..], remote); }
  }

  lemma {:induction false} PickedPrf(wants: seq<u16>, remote: seq<u16>, integrity: Integrity)
    ensures var r := PickPrf(wants, remote, integrity);
            r.Some? ==> r.value.transformId in remote && NewPrf(r.value.transformId) == r
                        && PrfMatches(r.value.transformId, integrity)
  {
    if wants != [] { PickedPrf(wants[1..], remote, integrity); }
  }

  lemma {:induction false} PickedDh(wants: seq<u16>, remote: seq<u16>)
    ensures PickDh(wants, remote).Some? <==> CURVE25519 in wants && CURVE25519 in remote
    ensures PickDh(wants, remote).Some? ==> PickDh(wants, remote) == Some(CURVE25519)
  {
    if wants != [] { PickedDh(wants[1..], remote); }
  }

  lemma SelectSound(local: Proposal, remote: Proposal)
    ensures Select(local, remote).Some? ==> Common(local, remote, Select(local, remote).value)
  {
    PickedEncryption(local.encryption, local, remote);
    PickedIntegrity(local.integrity, remote.integrity);
    PickedDh(local.dh, remote.dh);
    if PickEncryption(local.encryption, local, remote).Some? {
      var enc := PickEncryption(local.encryption, local, remote).value;
      var integ := if enc.aead then Some(NO_INTEGRITY) else PickIntegrity(local.integrity, remote.integrity);
      if integ.Some? { PickedPrf(local.prf, remote.prf, integ.value); }
    }
  }

  // ---- Which one is selected: the first of the local preferences ----

  /** `wants[i]` is the first of the preferences that the other list has. */
  predicate FirstIn<T(==)>(wants: seq<T>, have: seq<T>, i: int) {
    0 <= i < |wants| && wants[i] in have && forall j :: 0 <= j < i ==> wants[j] !in have
  }

  ghost predicate PreferredEncryption(wants: seq<EncryptionId>, local: Proposal, remote: Proposal, alg: EncryptionAlg) {
    && (exists i :: FirstIn(wants, remote.encryption, i) && NewEncryption(wants[i]) == Some(alg))
    && (alg.aead ==> local.integrity == [] && remote.integrity == [])
  }

  ghost predicate PreferredIntegrity(wants: seq<u16>, remote: seq<u16>, alg: Integrity) {
    exists i :: FirstIn(wants, remote, i) && NewIntegrity(wants[i]) == Some(alg)
  }

  predicate FirstPrf(wants: seq<u16>, remote: seq<u16>, integrity: Integrity, i: int) {
    && 0 <= i < |wants| && wants[i] in remote && PrfMatches(wants[i], integrity)
    && forall j :: 0 <= j < i ==> wants[j] !in remote || !PrfMatches(wants[j], integrity)
  }

  /** The first listed PRF of the integrity transform's family; the family itself if none is listed. */
  ghost predicate PreferredPrf(wants: seq<u16>, remote: seq<u16>, integrity: Integrity, prf: Prf) {
    || (exists i :: FirstPrf(wants, remote, integrity, i) && NewPrf(wants[i]) == Some(prf))
    || (&& (forall j :: 0 <= j < |wants| ==> wants[j] !in remote || !PrfMatches(wants[j], integrity))
        && integrity.transformId != 0 && prf.transformId == PrfFromIntegrity(integrity.transformId)
        && prf.transformId in remote && NewPrf(prf.transformId) == Some(prf))
  }

  ghost predicate Preferred(local: Proposal, remote: Proposal, sel: Selection) {
    && PreferredEncryption(local.encryption, local, remote, sel.encryption)
    && (if sel.encryption.aead then sel.integrity == NO_INTEGRITY
        else PreferredIntegrity(local.integrity, remote.integrity, sel.integrity))
    && PreferredPrf(local.prf, remote.prf, sel.integrity, sel.prf)
    && sel.dh == Some(31) && 31 in local.dh && 31 in remote.dh
  }

  lemma FirstShift<T>(wants: seq<T>, have: seq<T>, i: int)
    requires wants != [] && wants[0] !in have
    ensures FirstIn(wants[1..], have, i - 1) <==> FirstIn(wants, have, i)
  {
    if FirstIn(wants[1..], have, i - 1) {
      assert forall j :: 0 < j < i ==> wants[j] == wants[1..][j - 1];
    }
  }

  lemma {:induction false} EncryptionExactly(wants: seq<EncryptionId>, local: Proposal, remote: Proposal,
                                             alg: EncryptionAlg)
    ensures PickEncryption(wants, local, remote) == Some(alg) <==> PreferredEncryption(wants, local, remote, alg)
  {
    if wants != [] {
      if wants[0] in remote.encryption {
        assert FirstIn(wants, remote.encryption, 0);
        assert forall i :: FirstIn(wants, remote.encryption, i) ==> i == 0;
      } else {
        EncryptionExactly(wants[1..], local, remote, alg);
        if PreferredEncryption(wants, local, remote, alg) {
          var i :| FirstIn(wants, remote.encryption, i) && NewEncryption(wants[i]) == Some(alg);
          FirstShift(wants, remote.encryption, i);
        }
        if PreferredEncryption(wants[1..], local, remote, alg) {
          var i :| FirstIn(wants[1..], remote.encryption, i) && NewEncryption(wants[1..][i]) == Some(alg);
          FirstShift(wants, remote.encryption, i + 1);
        }
      }
    }
  }

  lemma {:induction false} IntegrityExactly(wants: seq<u16>, remote: seq<u16>, alg: Integrity)
    ensures PickIntegrity(wants, remote) == Some(alg) <==> PreferredIntegrity(wants, remote, alg)
  {
    if wants != [] {
      if wants[0] in remote {
        assert FirstIn(wants, remote, 0);
        assert forall i :: FirstIn(wants, remote, i) ==> i == 0;
      } else {
        IntegrityExactly(wants[1..], remote, alg);
        if PreferredIntegrity(wants, remote, alg) {
          var i :| FirstIn(wants, remote, i) && NewIntegrity(wants[i]) == Some(alg);
          FirstShift(wants, remote, i);
        }
        if PreferredIntegrity(wants[1..], remote, alg) {
          var i :| FirstIn(wants[1..], remote, i) && NewIntegrity(wants[1..][i]) == Some(alg);
          FirstShift(wants, remote, i + 1);
        }
      }
    }
  }

  lemma PrfShift(wants: seq<u16>, remote: seq<u16>, integrity: Integrity, i: int)
    requires wants != [] && (wants[0] !in remote || !PrfMatches(wants[0], integrity))
    ensures FirstPrf(wants[1..], remote, integrity, i - 1) <==> FirstPrf(wants, remote, integrity, i)
  {
    hide PrfMatches;
    if FirstPrf(wants[1..], remote, integrity, i - 1) {
      assert forall j :: 0 < j < i ==> wants[j] == wants[1..][j - 1];
    }
  }

  lemma {:induction false} PrfExactly(wants: seq<u16>, remote: seq<u16>, integrity: Integrity, prf: Prf)
    ensures PickPrf(wants, remote, integrity) == Some(prf) <==> PreferredPrf(wants, remote, integrity, prf)
  {
    if wants == [] {
      assert PrfFromIntegrity(integrity.transformId) == 0 ==> NewPrf(PrfFromIntegrity(integrity.transformId)).None?;
    } else if wants[0] in remote && PrfMatches(wants[0], integrity) {
      assert FirstPrf(wants, remote, integrity, 0);
      assert forall i :: FirstPrf(wants, remote, integrity, i) ==> i == 0;
    } else {
      PrfExactly(wants[1..], remote, integrity, prf);
      if PreferredPrf(wants, remote, integrity, prf) {
        if i :| FirstPrf(wants, remote, integrity, i) && NewPrf(wants[i]) == Some(prf) {
          PrfShift(wants, remote, integrity, i);
        }
      }
      if PreferredPrf(wants[1..], remote, integrity, prf) {
        if i :| FirstPrf(wants[1..], remote, integrity, i) && NewPrf(wants[1..][i]) == Some(prf) {
          PrfShift(wants, remote, integrity, i + 1);
        } else {
          assert forall j :: 0 < j < |wants| ==> wants[j] == wants[1..][j - 1];
        }
      }
    }
  }

  /** What is selected, and when anything is: in every family the first local preference that the
      other side lists, with the PRF of the integrity transform's family. */
  lemma SelectExactly(local: Proposal, remote: Proposal, sel: Selection)
    ensures Select(local, remote) == Some(sel) <==> Preferred(local, remote, sel)
  {
    hide PreferredEncryption, PreferredIntegrity, PreferredPrf, PickEncryption, PickIntegrity, PickPrf, PickDh;
    EncryptionExactly(local.encryption, local, remote, sel.encryption);
    IntegrityExactly(local.integrity, remote.integrity, sel.integrity);
    PrfExactly(local.prf, remote.prf, sel.integrity, sel.prf);
    PickedDh(local.dh, remote.dh);
  }

  /** The integrity transforms and PRFs by their numbers: HMAC with SHA-1 and the SHA-2 hashes, the
      integrity ones truncated, those of SHA-2 to half of their key. */
  lemma HashSizes(id: u16)
    ensures NewIntegrity(id).Some? <==> id == 0 || id == 2 || 12 <= id <= 14
    ensures id == 2 ==> NewIntegrity(id) == Some(Integrity(2, 96 / 8, 160 / 8)) && NewPrf(id) == Some(Prf(2, 160 / 8))
    ensures 12 <= id <= 14 ==>
            NewIntegrity(id).value.keyLen == 32 + 16 * (id - 12) == 2 * NewIntegrity(id).value.outputLen
    ensures NewPrf(id).Some? <==> id == 2 || id == 5 || id == 7
    ensures id == 5 || id == 7 ==> NewPrf(id).value.outputLen == 32 * (id - 3) / 2
    ensures NewIntegrity(id).Some? && id != 0 && PrfFromIntegrity(id) != 0 ==>
            && NewPrf(PrfFromIntegrity(id)).Some?
            && NewPrf(PrfFromIntegrity(id)).value.outputLen == NewIntegrity(id).value.keyLen
    ensures PrfFromIntegrity(id) == 0 <==> !(id == 2 || id == 12 || id == 14)
  {
  }

  // ---- Selecting again against a proposal that holds exactly one choice ----

  /** The single-choice proposal a responder echoes for `sel`. */
  function Single(sel: Selection): Proposal
    requires sel.dh.Some?
  {
    Proposal([IdOf(sel.encryption)], if sel.encryption.aead then [] else [sel.integrity.transformId],
             [sel.prf.transformId], [sel.dh.value])
  }

  lemma {:induction false} RepickEncryption(wants: seq<EncryptionId>, local: Proposal, remote: Proposal,
                                            alg: EncryptionAlg)
    requires remote.encryption == [IdOf(alg)] && IdOf(alg) in wants && NewEncryption(IdOf(alg)) == Some(alg)
    ensures PickEncryption(wants, local, remote)
         == if alg.aead && (local.integrity != [] || remote.integrity != []) then None else Some(alg)
  {
    if wants[0] != IdOf(alg) { RepickEncryption(wants[1..], local, remote, alg); }
  }

  lemma {:induction false} RepickIntegrity(wants: seq<u16>, id: u16)
    requires id in wants
    ensures PickIntegrity(wants, [id]) == NewIntegrity(id)
  {
    if wants[0] != id { RepickIntegrity(wants[1..], id); }
  }

  lemma {:induction false} RepickPrf(wants: seq<u16>, id: u16, integrity: Integrity)
    requires id in wants && PrfMatches(id, integrity)
    ensures PickPrf(wants, [id], integrity) == NewPrf(id)
  {
    if wants[0] != id { RepickPrf(wants[1..], id, integrity); }
  }

  /** A suite that holds every algorithm of `sel` selects exactly `sel` from the
      echo of `sel` -- unless the cipher is AEAD and the suite also lists
      integrity transforms, in which case it selects nothing. */
  lemma Reselect(local: Proposal, sel: Selection)
    requires IdOf(sel.encryption) in local.encryption && NewEncryption(IdOf(sel.encryption)) == Some(sel.encryption)
    requires if sel.encryption.aead then sel.integrity == NO_INTEGRITY
             else sel.integrity.transformId in local.integrity
                  && NewIntegrity(sel.integrity.transformId) == Some(sel.integrity)
    requires sel.prf.transformId in local.prf && NewPrf(sel.prf.transformId) == Some(sel.prf)
    requires PrfMatches(sel.prf.transformId, sel.integrity)
    requires sel.dh == Some(CURVE25519) && CURVE25519 in local.dh
    ensures Select(local, Single(sel)) == if sel.encryption.aead && local.integrity != [] then None else Some(sel)
  {
    var remote := Single(sel);
    RepickEncryption(local.encryption, local, remote, sel.encryption);
    if !sel.encryption.aead { RepickIntegrity(local.integrity, sel.integrity.transformId); }
    RepickPrf(local.prf, sel.prf.transformId, sel.integrity);
    PickedDh(local.dh, remote.dh);
  }
}
