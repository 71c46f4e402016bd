/** Suites written as tokens, and when a suite written that way can select anything from itself. */
module SuiteParsing {
  import opened Bytes
  import opened Suite

  // ---- Tokens ----

  function CipherToken(t: string): (r: Option<EncryptionId>)
    ensures r.Some? ==> NewEncryption(r.value).Some?
  {
    if t == "aes" || t == "aes128" then Some(EncryptionId(AES_CBC, 16))
    else if t == "aes256" then Some(EncryptionId(AES_CBC, 32))
    else if t == "aes128ccm8" || t == "aes128ccm64" then Some(EncryptionId(AES_CCM8, 16))
    else if t == "aes128ccm12" || t == "aes128ccm96" then Some(EncryptionId(AES_CCM12, 16))
    else if t == "aes128ccm16" || t == "aes128ccm128" then Some(EncryptionId(AES_CCM16, 16))
    else if t == "aes256ccm8" || t == "aes256ccm64" then Some(EncryptionId(AES_CCM8, 32))
    else if t == "aes256ccm12" || t == "aes256ccm96" then Some(EncryptionId(AES_CCM12, 32))
    else if t == "aes256ccm16" || t == "aes256ccm128" then Some(EncryptionId(AES_CCM16, 32))
    else if t == "aes128gcm12" || t == "aes128gcm96" then Some(EncryptionId(AES_GCM12, 16))
    else if t == "aes128gcm" || t == "aes128gcm16" || t == "aes128gcm128" then Some(EncryptionId(AES_GCM16, 16))
    else if t == "aes256gcm12" || t == "aes256gcm96" then Some(EncryptionId(AES_GCM12, 32))
    else if t == "aes256gcm" || t == "aes256gcm16" || t == "aes256gcm128" then Some(EncryptionId(AES_GCM16, 32))
    else None
  }

  function IntegrityToken(t: string): (r: Option<u16>)
    ensures r.Some? ==> NewIntegrity(r.value).Some? && r.value != 0
  {
    if t == "sha" || t == "sha1" then Some(2)
    else if t == "sha256" || t == "sha2_256" then Some(12)
    else if t == "sha384" || t == "sha2_384" then Some(13)
    else if t == "sha512" || t == "sha2_512" then Some(14)
    else None
  }

  function PrfToken(t: string): (r: Option<u16>)
    ensures r.Some? ==> NewPrf(r.value).Some?
  {
    if t == "prfsha1" then Some(2)
    else if t == "prfsha256" || t == "prfsha2_256" then Some(5)
    else if t == "prfsha512" || t == "prfsha2_512" then Some(7)
    else None
  }

  function GroupToken(t: string): (r: Option<u16>)
    ensures r.Some? ==> r.value == CURVE25519
  {
    if t == "curve25519" || t == "x25519" then Some(CURVE25519) else None
  }

  // ---- How the names are made ----

  function KeyName(t: string): Option<u16> {
    if t == "128" then Some(16) else if t == "256" then Some(32) else None
  }

  /** A tag length, in octets or in bits. */
  function TagName(t: string): Option<nat> {
    if t == "8" || t == "64" then Some(8) else if t == "12" || t == "96" then Some(12)
    else if t == "16" || t == "128" then Some(16) else None
  }

  /** After the key length: nothing for CBC, or ccm or gcm and a tag length. The transforms of a mode are
      numbered by their tags. GCM may leave out a tag of 16 octets, and has none of 8. */
  function ModeName(rest: string): Option<u16> {
    if rest == "" then Some(12)
    else if |rest| < 3 then None
    else if rest[..3] == "gcm" && rest[3..] == "" then Some(20)
    else match TagName(rest[3..])
         case None => None
         case Some(tag) =>
           if rest[..3] == "ccm" then Some(14 + (tag - 8) / 4)
           else if rest[..3] == "gcm" && tag > 8 then Some(18 + (tag - 8) / 4) else None
  }

  function CipherName(t: string): Option<EncryptionId> {
    if t == "aes" then Some(EncryptionId(12, 16))
    else if |t| < 6 || t[..3] != "aes" || KeyName(t[3..6]).None? || ModeName(t[6..]).None? then None
    else Some(EncryptionId(ModeName(t[6..]).value, KeyName(t[3..6]).value))
  }

  lemma ModeSplits(rest: string, mode: string, tag: string)
    requires |mode| == 3
    ensures rest == mode + tag <==> |rest| >= 3 && rest[..3] == mode && rest[3..] == tag
  {
    if |rest| >= 3 && rest[..3] == mode && rest[3..] == tag { assert rest == rest[..3] + rest[3..]; }
  }

  /** The modes one by one. */
  lemma ModesSpelled(rest: string)
    ensures ModeName(rest) ==
            if rest == "" then Some(12)
            else if rest == "ccm8" || rest == "ccm64" then Some(14)
            else if rest == "ccm12" || rest == "ccm96" then Some(15)
            else if rest == "ccm16" || rest == "ccm128" then Some(16)
            else if rest == "gcm12" || rest == "gcm96" then Some(19)
            else if rest == "gcm" || rest == "gcm16" || rest == "gcm128" then Some(20)
            else None
  {
    ModeSplits(rest, "ccm", "8");
    ModeSplits(rest, "ccm", "64");
    ModeSplits(rest, "ccm", "12");
    ModeSplits(rest, "ccm", "96");
    ModeSplits(rest, "ccm", "16");
    ModeSplits(rest, "ccm", "128");
    ModeSplits(rest, "gcm", "12");
    ModeSplits(rest, "gcm", "96");
    ModeSplits(rest, "gcm", "");
    ModeSplits(rest, "gcm", "16");
    ModeSplits(rest, "gcm", "128");
    assert "ccm" + "8" == "ccm8" && "ccm" + "64" == "ccm64" && "ccm" + "12" == "ccm12" && "ccm" + "96" == "ccm96";
    assert "ccm" + "16" == "ccm16" && "ccm" + "128" == "ccm128" && "gcm" + "12" == "gcm12" && "gcm" + "96" == "gcm96";
    assert "gcm" + "" == "gcm" && "gcm" + "16" == "gcm16" && "gcm" + "128" == "gcm128";
  }

  lemma Spelled(t: string, key: string, mode: string)
    requires |key| == 3 && t == "aes" + key + mode && KeyName(key).Some?
    ensures CipherName(t) == match ModeName(mode)
                             case None => None
                             case Some(id) => Some(EncryptionId(id, KeyName(key).value))
    ensures ModeName(mode) ==
            if mode == "" then Some(12)
            else if mode == "ccm8" || mode == "ccm64" then Some(14)
            else if mode == "ccm12" || mode == "ccm96" then Some(15)
            else if mode == "ccm16" || mode == "ccm128" then Some(16)
            else if mode == "gcm12" || mode == "gcm96" then Some(19)
            else if mode == "gcm" || mode == "gcm16" || mode == "gcm128" then Some(20)
            else None
  {
    hide ModeName;
    assert t[..3] == "aes" && t[3..6] == key && t[6..] == mode;
    ModesSpelled(mode);
  }

  lemma CcmWith128(t: string)
    requires CipherToken(t).Some? && CipherToken(t).value.keyLen == 16
    requires 14 <= CipherToken(t).value.transformId <= 16
    ensures CipherToken(t) == CipherName(t)
  {
    hide CipherName, ModeName;
    if t == "aes128ccm8" { Spelled(t, "128", "ccm8"); }
    else if t == "aes128ccm64" { Spelled(t, "128", "ccm64"); }
    else if t == "aes128ccm12" { Spelled(t, "128", "ccm12"); }
    else if t == "aes128ccm96" { Spelled(t, "128", "ccm96"); }
    else if t == "aes128ccm16" { Spelled(t, "128", "ccm16"); }
    else if t == "aes128ccm128" { Spelled(t, "128", "ccm128"); }
  }

  lemma Gcm12With128(t: string)
    requires CipherToken(t) == Some(EncryptionId(19, 16))
    ensures CipherToken(t) == CipherName(t)
  {
    hide CipherName, ModeName;
    if t == "aes128gcm12" { Spelled(t, "128", "gcm12"); }
    else if t == "aes128gcm96" { Spelled(t, "128", "gcm96"); }
  }

  lemma Gcm16With128(t: string)
    requires CipherToken(t) == Some(EncryptionId(20, 16))
    ensures CipherToken(t) == CipherName(t)
  {
    hide CipherName, ModeName;
    if t == "aes128gcm" { Spelled(t, "128", "gcm"); }
    else if t == "aes128gcm16" { Spelled(t, "128", "gcm16"); }
    else if t == "aes128gcm128" { Spelled(t, "128", "gcm128"); }
  }

  lemma CcmWith256(t: string)
    requires CipherToken(t).Some? && CipherToken(t).value.keyLen == 32
    requires 14 <= CipherToken(t).value.transformId <= 16
    ensures CipherToken(t) == CipherName(t)
  {
    hide CipherName, ModeName;
    if t == "aes256ccm8" { Spelled(t, "256", "ccm8"); }
    else if t == "aes256ccm64" { Spelled(t, "256", "ccm64"); }
    else if t == "aes256ccm12" { Spelled(t, "256", "ccm12"); }
    else if t == "aes256ccm96" { Spelled(t, "256", "ccm96"); }
    else if t == "aes256ccm16" { Spelled(t, "256", "ccm16"); }
    else if t == "aes256ccm128" { Spelled(t, "256", "ccm128"); }
  }

  lemma Gcm12With256(t: string)
    requires CipherToken(t) == Some(EncryptionId(19, 32))
    ensures CipherToken(t) == CipherName(t)
  {
    hide CipherName, ModeName;
    if t == "aes256gcm12" { Spelled(t, "256", "gcm12"); }
    else if t == "aes256gcm96" { Spelled(t, "256", "gcm96"); }
  }

  lemma Gcm16With256(t: string)
    requires CipherToken(t) == Some(EncryptionId(20, 32))
    ensures CipherToken(t) == CipherName(t)
  {
    hide CipherName, ModeName;
    if t == "aes256gcm" { Spelled(t, "256", "gcm"); }
    else if t == "aes256gcm16" { Spelled(t, "256", "gcm16"); }
    else if t == "aes256gcm128" { Spelled(t, "256", "gcm128"); }
  }

  lemma CbcNamed(t: string)
    requires CipherToken(t).Some? && CipherToken(t).value.transformId == 12
    ensures CipherToken(t) == CipherName(t)
  {
    hide CipherName, ModeName;
    if t == "aes" { PlainAes(); }
    else if t == "aes128" { Spelled(t, "128", ""); }
    else if t == "aes256" { Spelled(t, "256", ""); }
  }

  lemma PlainAes()
    ensures CipherName("aes") == CipherToken("aes")
  {
  }

  /** Every cipher token means what its name says: the key length in bits, the mode, the tag length. */
  lemma CiphersNamed(t: string)
    requires CipherToken(t).Some?
    ensures CipherToken(t) == CipherName(t)
  {
    hide CipherToken, CipherName;
    var id := CipherToken(t).value;
    EncryptionSizes(id);
    if id.transformId == 12 { CbcNamed(t); }
    else if id.keyLen == 16 {
      if id.transformId <= 16 { CcmWith128(t); }
      else if id.transformId == 19 { Gcm12With128(t); }
      else { Gcm16With128(t); }
    } else {
      if id.transformId <= 16 { CcmWith256(t); }
      else if id.transformId == 19 { Gcm12With256(t); }
      else { Gcm16With256(t); }
    }
  }

  /** The integrity tokens by the bits of their hash, and the PRF tokens by the same names. */
  lemma HashesNamed(t: string)
    ensures IntegrityToken(t).Some? <==>
            t in {"sha", "sha1", "sha256", "sha2_256", "sha384", "sha2_384", "sha512", "sha2_512"}
    ensures IntegrityToken(t).Some? ==>
            var bits := 8 * NewIntegrity(IntegrityToken(t).value).value.keyLen;
            && (bits == 160 <==> t == "sha" || t == "sha1") && (bits == 256 <==> t == "sha256" || t == "sha2_256")
            && (bits == 384 <==> t == "sha384" || t == "sha2_384")
    ensures IntegrityToken(t).Some? && t != "sha" ==>
            PrfToken("prf" + t) == if PrfFromIntegrity(IntegrityToken(t).value) == 0 then None
                                   else Some(PrfFromIntegrity(IntegrityToken(t).value))
  {
    assert "prf" + "sha1" == "prfsha1" && "prf" + "sha256" == "prfsha256" && "prf" + "sha2_256" == "prfsha2_256";
    assert "prf" + "sha512" == "prfsha512" && "prf" + "sha2_512" == "prfsha2_512";
    assert "prf" + "sha384" == "prfsha384" && "prf" + "sha2_384" == "prfsha2_384";
  }

  // ---- Reading a suite ----

  function Push<T(==,!new)>(list: seq<T>, v: T): (r: seq<T>)
    ensures v in r && forall x :: x in r <==> x in list || x == v
  {
    if v in list then list else list + [v]
  }

  const NO_SUITE := Proposal([], [], [], [])

  function ReadToken(acc: Proposal, t: string): Option<Proposal> {
    if t == "" then Some(acc)
    else if CipherToken(t).Some? then Some(acc.(encryption := Push(acc.encryption, CipherToken(t).value)))
    else if IntegrityToken(t).Some? then Some(acc.(integrity := Push(acc.integrity, IntegrityToken(t).value)))
    else if PrfToken(t).Some? then Some(acc.(prf := Push(acc.prf, PrfToken(t).value)))
    else if GroupToken(t).Some? then Some(acc.(dh := Push(acc.dh, GroupToken(t).value)))
    else None
  }

  function ReadTokens(acc: Proposal, tokens: seq<string>): Option<Proposal>
    decreases |tokens|
  {
    if tokens == [] then Some(acc) else
    match ReadToken(acc, tokens[0])
    case None => None
    case Some(next) => ReadTokens(next, tokens[1..])
  }

  predicate Aead(id: EncryptionId) {
    NewEncryption(id).Some? && NewEncryption(id).value.aead
  }

  /** Either every cipher is AEAD and there is no integrity transform, or none is and there is one. */
  predicate Pure(p: Proposal) {
    if p.integrity == [] then forall i :: 0 <= i < |p.encryption| ==> Aead(p.encryption[i])
    else forall i :: 0 <= i < |p.encryption| ==> !Aead(p.encryption[i])
  }

  /** The PRFs implied by the integrity transforms, when no PRF is named. */
  function ImpliedPrfs(prf: seq<u16>, integrity: seq<u16>): Option<seq<u16>>
    decreases |integrity|
  {
    if integrity == [] then Some(prf)
    else if PrfFromIntegrity(integrity[0]) == 0 then None
    else ImpliedPrfs(Push(prf, PrfFromIntegrity(integrity[0])), integrity[1..])
  }

  function ParseSuite(tokens: seq<string>): Option<Proposal> {
    match ReadTokens(NO_SUITE, tokens)
    case None => None
    case Some(p) =>
      if p.encryption == [] || p.dh == [] || !Pure(p) then None
      else if p.prf != [] then Some(p)
      else match ImpliedPrfs([], p.integrity)
           case None => None
           case Some(prf) => if prf == [] then None else Some(p.(prf := prf))
  }

  /** The two passes over the tokens and the ciphers, and the third over the integrity transforms. */
  method ParseProposal(tokens: seq<string>) returns (r: Option<Proposal>)
    ensures r == ParseSuite(tokens)
  {
    var p, i := NO_SUITE, 0;
    while i < |tokens|
      invariant i <= |tokens| && ReadTokens(NO_SUITE, tokens) == ReadTokens(p, tokens[i..])
    {
      var next := ReadToken(p, tokens[i]);
      assert tokens[i..][1..] == tokens[i + 1..];
      if next.None? { return None; }
      p, i := next.value, i + 1;
    }
    if p.encryption == [] || p.dh == [] { return None; }
    var pure := CheckAead(p);
    if !pure { return None; }
    if p.prf != [] { return Some(p); }
    var prf: seq<u16>, k := [], 0;
    while k < |p.integrity|
      invariant k <= |p.integrity| && ImpliedPrfs([], p.integrity) == ImpliedPrfs(prf, p.integrity[k..])
    {
      assert p.integrity[k..][1..] == p.integrity[k + 1..];
      var implied := PrfFromIntegrity(p.integrity[k]);
      if implied == 0 { return None; }
      prf, k := Push(prf, implied), k + 1;
    }
    return if prf == [] then None else Some(p.(prf := prf));
  }

  method CheckAead(p: Proposal) returns (pure: bool)
    requires p.encryption != []
    ensures pure <==> Pure(p)
  {
    var hasAead, hasOther, i := false, false, 0;
    while i < |p.encryption|
      invariant i <= |p.encryption|
      invariant hasAead <==> exists k :: 0 <= k < i && Aead(p.encryption[k])
      invariant hasOther <==> exists k :: 0 <= k < i && !Aead(p.encryption[k])
    {
      if Aead(p.encryption[i]) { hasAead := true; } else { hasOther := true; }
      i := i + 1;
    }
    assert if Aead(p.encryption[0]) then hasAead else hasOther;
    pure := !(hasAead && hasOther) && (hasAead <==> p.integrity == []);
  }

  // ---- What a parsed suite is ----

  ghost predicate Registered(p: Proposal) {
    && (forall e :: e in p.encryption ==> NewEncryption(e).Some?)
    && (forall g :: g in p.integrity ==> NewIntegrity(g).Some? && g != 0)
    && (forall f :: f in p.prf ==> NewPrf(f).Some?) && (forall d :: d in p.dh ==> d == CURVE25519)
  }

  ghost predicate WellFormed(p: Proposal) {
    Registered(p) && Pure(p) && p.encryption != [] && p.prf != [] && p.dh != []
  }

  lemma {:induction false} TokensRegistered(acc: Proposal, tokens: seq<string>)
    requires Registered(acc) && ReadTokens(acc, tokens).Some?
    ensures Registered(ReadTokens(acc, tokens).value)
    decreases |tokens|
  {
    hide CipherToken, IntegrityToken, PrfToken, GroupToken, NewEncryption, NewIntegrity, NewPrf, Push;
    if tokens != [] { TokensRegistered(ReadToken(acc, tokens[0]).value, tokens[1..]); }
  }

  lemma {:induction false} ImpliedRegistered(prf: seq<u16>, integrity: seq<u16>)
    requires (forall f :: f in prf ==> NewPrf(f).Some?) && ImpliedPrfs(prf, integrity).Some?
    ensures forall f :: f in ImpliedPrfs(prf, integrity).value ==> NewPrf(f).Some?
    ensures forall f :: f in prf ==> f in ImpliedPrfs(prf, integrity).value
    ensures forall g :: g in integrity ==> PrfFromIntegrity(g) in ImpliedPrfs(prf, integrity).value
    decreases |integrity|
  {
    if integrity != [] { ImpliedRegistered(Push(prf, PrfFromIntegrity(integrity[0])), integrity[1..]); }
  }

  lemma ParsedWellFormed(tokens: seq<string>)
    requires ParseSuite(tokens).Some?
    ensures WellFormed(ParseSuite(tokens).value)
  {
    TokensRegistered(NO_SUITE, tokens);
    var p := ReadTokens(NO_SUITE, tokens).value;
    if p.prf == [] { ImpliedRegistered([], p.integrity); }
  }

  // ---- When a suite selects something from itself ----

  /** The PRF family of the preferred integrity transform is listed. */
  predicate Coherent(p: Proposal) {
    p.integrity == [] || PrfFromIntegrity(p.integrity[0]) in p.prf
  }

  lemma {:induction false} PrfPicked(wants: seq<u16>, remote: seq<u16>, integ: Integrity)
    requires integ.transformId != 0 && (forall f :: f in wants ==> NewPrf(f).Some?)
    requires (forall f :: f in remote ==> NewPrf(f).Some?)
    ensures PickPrf(wants, remote, integ).Some? <==> PrfFromIntegrity(integ.transformId) in remote
  {
    if wants != [] { PrfPicked(wants[1..], remote, integ); }
  }

  /** A parsed suite that is offered to an end configured with the same suite is selected
      exactly if it is coherent: a cipher with separate integrity fails when the only PRFs
      named belong to another hash, as every PRF does for SHA-384. */
  lemma SelfSelects(p: Proposal)
    requires WellFormed(p)
    ensures Select(p, p).Some? <==> Coherent(p)
  {
    hide PickPrf;
    var enc := PickEncryption(p.encryption, p, p);
    assert p.encryption[0] in p.encryption && p.dh[0] in p.dh && p.prf[0] in p.prf;
    assert enc.Some? && (enc.value.aead <==> p.integrity == []);
    PickedDh(p.dh, p.dh);
    if p.integrity == [] {
      AnyPrf(p.prf);
    } else {
      assert p.integrity[0] in p.integrity;
      PrfPicked(p.prf, p.prf, NewIntegrity(p.integrity[0]).value);
    }
  }

  lemma AnyPrf(prf: seq<u16>)
    requires prf != [] && NewPrf(prf[0]).Some?
    ensures PickPrf(prf, prf, NO_INTEGRITY).Some?
  {
  }

  /** Leaving the PRF out always gives a coherent suite. */
  lemma WithoutPrfCoherent(tokens: seq<string>)
    requires ParseSuite(tokens).Some? && ReadTokens(NO_SUITE, tokens).value.prf == []
    ensures Coherent(ParseSuite(tokens).value)
  {
    ImpliedRegistered([], ReadTokens(NO_SUITE, tokens).value.integrity);
  }
}
