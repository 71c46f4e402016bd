/** The running actor in place: fields updated step by step, loops over payloads and
    histories, frames and data-plane updates queued in order. Every handler is proved to
    do what RunningSpec says. */
module Running {
  import opened Bytes
  import opened Suite
  import opened Keying
  import opened Negotiation
  import opened ChildNegotiation
  import opened IkeState
  import opened RekeyExchange
  import opened RunningSpec
  import opened RunningRuns
  import opened Closing
  import RunningInvariant
  import RunningAnswers
  import W = SaPayload

  // ---- Loops over decrypted payloads ----

  /** One pass over the payloads, keeping what is seen; an error stops it. */
  method ReadParts(rules: Rules, inner: seq<Payload>) returns (r: Option<Parts>)
    ensures r == TakeParts(rules, NO_PARTS, inner)
  {
    var acc, i := NO_PARTS, 0;
    while i < |inner|
      invariant i <= |inner| && TakeParts(rules, NO_PARTS, inner) == TakeParts(rules, acc, inner[i..])
    {
      var next := TakePart(rules, acc, inner[i]);
      assert inner[i..][1..] == inner[i + 1..];
      if next.None? { return None; }
      acc, i := next.value, i + 1;
    }
    return Some(acc);
  }

  method FindRekeyTarget(inner: seq<Payload>) returns (r: Option<u32>)
    ensures r == RekeyTarget(inner)
  {
    var i := 0;
    while i < |inner|
      invariant i <= |inner| && RekeyTarget(inner) == RekeyTarget(inner[i..])
    {
      assert inner[i..][1..] == inner[i + 1..];
      if inner[i] == Malformed(NotifyKind) { return None; }
      if inner[i].NotifyPayload? && inner[i].notifyType == NOTIFY_REKEY_SA {
        return if inner[i].protocolId != W.PROTOCOL_ESP || |inner[i].spi| != 4 then None else Some(Get32(inner[i].spi));
      }
      i := i + 1;
    }
    return None;
  }

  method FirstInnerNonce(inner: seq<Payload>) returns (r: Option<bytes>)
    ensures r == FirstNonce(inner)
  {
    var i := 0;
    while i < |inner|
      invariant i <= |inner| && FirstNonce(inner) == FirstNonce(inner[i..])
    {
      assert inner[i..][1..] == inner[i + 1..];
      if inner[i].NoncePayload? { return if inner[i].nonce == [] then None else Some(inner[i].nonce); }
      if inner[i] == Malformed(NonceKind) { return None; }
      i := i + 1;
    }
    return None;
  }

  method CarriesSelectors(inner: seq<Payload>) returns (has: bool)
    ensures has <==> HasSelectors(inner)
  {
    var i := 0;
    while i < |inner|
      invariant i <= |inner| && forall k :: 0 <= k < i ==> !inner[k].TsiPayload? && !inner[k].TsrPayload?
    {
      if inner[i].TsiPayload? || inner[i].TsrPayload? { return true; }
      i := i + 1;
    }
    return false;
  }

  method ParseChildRekeyResponse(cfg: Config, ike: Selection, inner: seq<Payload>) returns (r: Option<ChildResponse>)
    ensures r == ParseChildResponse(cfg, ike, inner)
  {
    var parts := ReadParts(CHILD_RESPONSE, inner);
    if parts.None? { return None; }
    var p := parts.value;
    if p.sa.None? || p.nonce.None? || p.tsi == [] || p.tsr == [] || cfg.childPfs != p.ke.Some? { return None; }
    var decoded := DecodeChild(cfg, ike, p.sa.value);
    if decoded.None? { return None; }
    var (spi, sel) := decoded.value;
    return Some(ChildResponse(spi, p.nonce.value, p.ke, p.tsi, p.tsr, sel));
  }

  method ParseIkeRekeyResponse(cfg: Config, inner: seq<Payload>) returns (r: Option<IkeResponse>)
    ensures r == ParseIkeResponse(cfg, inner)
  {
    var parts := ReadParts(IKE_RESPONSE, inner);
    if parts.None? { return None; }
    var p := parts.value;
    if p.sa.None? || p.nonce.None? || p.ke.None? || |p.sa.value.proposals| != 1 { return None; }
    var decoded := DecodeIke(cfg, p.sa.value);
    if decoded.None? { return None; }
    var (spi, sel) := decoded.value;
    return Some(IkeResponse(sel, spi, p.nonce.value, p.ke.value));
  }

  /** Every frame a run sends, and every update it queues, in order. */
  function Sent(cfg: Config, c: Crypto, st: State, evs: seq<Event>): seq<Frame> {
    if evs == [] then [] else
    var before := evs[..|evs| - 1];
    var r := ExecAll(cfg, c, Begin(st), before);
    Sent(cfg, c, st, before) + if r.live then Step(cfg, c, r.st, evs[|evs| - 1]).tx else []
  }

  function Queued(cfg: Config, c: Crypto, st: State, evs: seq<Event>): seq<Update> {
    if evs == [] then [] else
    var before := evs[..|evs| - 1];
    var r := ExecAll(cfg, c, Begin(st), before);
    Queued(cfg, c, st, before) + if r.live then Step(cfg, c, r.st, evs[|evs| - 1]).updates else []
  }

  lemma RunNothing(cfg: Config, c: Crypto, st: State)
    ensures ExecAll(cfg, c, Begin(st), []) == Begin(st) && Sent(cfg, c, st, []) == [] && Queued(cfg, c, st, []) == []
  {
  }

  /** One more event of a run. */
  lemma RunOn(cfg: Config, c: Crypto, st: State, evs: seq<Event>, i: nat)
    requires i < |evs|
    ensures var r, n := ExecAll(cfg, c, Begin(st), evs[..i]), ExecAll(cfg, c, Begin(st), evs[..i + 1]);
            var o := Step(cfg, c, r.st, evs[i]);
            && n.st == (if r.live then o.st else r.st)
            && (n.live <==> r.live && (o.verdict == Continue || o.verdict == Dropped))
            && Sent(cfg, c, st, evs[..i + 1]) == Sent(cfg, c, st, evs[..i]) + (if r.live then o.tx else [])
            && Queued(cfg, c, st, evs[..i + 1]) == Queued(cfg, c, st, evs[..i]) + (if r.live then o.updates else [])
  {
    hide Step;
    assert evs[..i + 1][..i] == evs[..i] && evs[..i + 1][i] == evs[i];
  }

  /** What every run from the hand-over on keeps: the invariant of the state; the requests of
      each IKE SA numbered consecutively, and increasing exactly until the counter wraps; and
      no request answered twice on a current SA. */
  ghost predicate Sane(st: State, r: RunningRuns.Run) {
    && RunningInvariant.Inv(r.st) && (forall k :: 0 <= k < |r.issued| ==> RankedAt(st.nextId, r.issued, k))
    && (forall epoch: nat :: Increasing(r.issued, epoch) <==>
        FirstId(st.nextId, epoch) + Count(r.issued, epoch) <= U32_LIMIT)
    && RunningAnswers.InOrder(r.answered)
  }

  lemma RunsSane(cfg: Config, c: Crypto, st: State, evs: seq<Event>)
    requires HandedOver(st)
    ensures Sane(st, ExecAll(cfg, c, Begin(st), evs))
  {
    hide ExecAll, RunningInvariant.Inv, RankedAt, Increasing, RunningAnswers.InOrder, HandedOver;
    ReachableInv(cfg, c, st, evs);
    RunningAnswers.RunAnswers(cfg, c, st, evs);
    MessageIdsIncrease(cfg, c, st, evs, 0);
    forall epoch: nat
      ensures var r := ExecAll(cfg, c, Begin(st), evs);
              Increasing(r.issued, epoch) <==> FirstId(st.nextId, epoch) + Count(r.issued, epoch) <= U32_LIMIT
    {
      MessageIdsIncrease(cfg, c, st, evs, epoch);
    }
  }

  class Actor {
    const cfg: Config
    const c: Crypto

    /** The session state: each assignment below replaces some of its fields. */
    var st: State

    /** Frames queued for the transport, and updates queued for the data plane. */
    var tx: seq<Frame>
    var updates: seq<Update>

    constructor (cfg: Config, c: Crypto, st: State)
      ensures this.st == st && tx == [] && updates == [] && this.cfg == cfg && this.c == c
    {
      this.cfg, this.c, this.st := cfg, c, st;
      tx, updates := [], [];
    }

    /** The actor went to `o.st`, and queued what `o` sends. */
    twostate predicate Did(o: Outcome)
      reads this
    {
      st == o.st && tx == old(tx) + o.tx && updates == old(updates) + o.updates
    }

    // ---- Small steps ----

    predicate Safe()
      reads this
    {
      SafeToRekey(st)
    }

    method TakeRequestId() returns (id: u32)
      modifies this
      ensures id == old(st.nextId) && st == BeginRequest(old(st)) && tx == old(tx) && updates == old(updates)
    {
      id := st.nextId;
      st := st.(nextId := (st.nextId + 1) % U32_LIMIT);
      st := st.(expectedId := id);
      st := st.(hasExpected := true);
    }

    method SendFrames(frames: seq<Frame>)
      modifies this`tx
      ensures tx == old(tx) + frames
    {
      for i := 0 to |frames|
        invariant tx == old(tx) + frames[..i]
      {
        tx := tx + [frames[i]];
      }
    }

    method AbandonRekey()
      modifies this
      ensures st == Abandon(old(st)) && tx == old(tx) && updates == old(updates)
    {
      st := st.(rekey := None, outbound := None, oldChild := None, oldIke := []);
      st := st.(hasExpected := false, phase := Phase.Running);
    }

    method RememberResponse(id: u32, frames: seq<Frame>)
      modifies this`st
      ensures st == old(st).(history := Trim(old(st).history + [CachedResponse(id, frames)]))
    {
      st := st.(history := st.history + [CachedResponse(id, frames)]);
      if |st.history| > MAX_HISTORY { st := st.(history := st.history[|st.history| - MAX_HISTORY..]); }
    }

    /** From the newest to the oldest. */
    method ReplayCachedFrames(id: u32) returns (r: Option<CachedResponse>)
      ensures r == Cached(st.history, id)
    {
      var history, i := st.history, |st.history|;
      assert history[..i] == history;
      while i > 0
        invariant 0 <= i <= |history| && Cached(history, id) == Cached(history[..i], id)
      {
        if history[i - 1].messageId == id { return Some(history[i - 1]); }
        assert history[..i][..i - 1] == history[..i - 1];
        i := i - 1;
      }
      return None;
    }

    method Answer(exchange: Exchange, id: u32, inner: seq<Payload>)
      modifies this
      ensures Did(Respond(old(st), exchange, id, inner))
    {
      var frames := [Seal(st.env, exchange, id, true, inner)];
      SendFrames(frames);
      RememberResponse(id, frames);
    }

    method Refuse(id: u32, protocolId: u8, spi: bytes, notifyType: u16)
      modifies this
      ensures Did(Refusal(old(st), id, protocolId, spi, notifyType))
    {
      Answer(CreateChildSa, id, [NotifyPayload(protocolId, spi, notifyType)]);
    }

    method Request(exchange: Exchange, inner: seq<Payload>)
      modifies this
      ensures Did(SendRequest(old(st), exchange, inner))
    {
      var id := TakeRequestId();
      var frames := [Seal(st.env, exchange, id, false, inner)];
      st := st.(outbound := Some(Checkpoint(id, frames)));
      SendFrames(frames);
    }

    // ---- Starting a rekey ----

    method BeginChildRekey(fr: Fresh)
      modifies this
      ensures Did(StartChildRekey(cfg, c, old(st), fr))
    {
      if !Safe() || st.activeChild.None? { return; }
      var inner := ChildRekeyRequest(cfg, c, st.activeChild.value, fr);
      if inner.None? { AbandonRekey(); return; }
      var rc := RekeyContext(RekeyChild, st.nextId, fr.nonce, if cfg.childPfs then Some(fr.dh) else None,
                             st.activeChild, fr.childSpi, 0);
      Request(CreateChildSa, inner.value);
      st := st.(rekey := Some(rc), phase := RekeyChildRequesting);
    }

    method BeginIkeRekey(fr: Fresh)
      modifies this
      ensures Did(StartIkeRekey(cfg, c, old(st), fr))
    {
      if !Safe() { return; }
      var inner := IkeRekeyRequest(cfg, c, fr);
      if inner.None? { AbandonRekey(); return; }
      var rc := RekeyContext(RekeyIke, st.nextId, fr.nonce, Some(fr.dh), None, 0, fr.ikeSpi);
      Request(CreateChildSa, inner.value);
      st := st.(rekey := Some(rc), phase := RekeyIkeRequesting);
    }

    // ---- Finishing our own rekeys ----

    method SendDeleteOldChild(prior: ChildSA)
      modifies this
      ensures Did(DeleteOldChild(old(st), prior))
    {
      Request(Informational, [DeletePayload(W.PROTOCOL_ESP, [prior.inboundSpi])]);
      st := st.(phase := RekeyChildDeletingOld);
    }

    method Install(child: ChildSA, keys: ChildKeys, sel: Selection, acked: bool)
      modifies this`updates
      ensures updates == old(updates) + [ChildInstalled(child, keys, sel, acked)]
    {
      updates := updates + [ChildInstalled(child, keys, sel, acked)];
    }

    method FinishChildRekeyResponse(inner: seq<Payload>, fr: Fresh) returns (v: Verdict)
      modifies this
      ensures var o := FinishChildRekey(cfg, c, old(st), inner, fr); Did(o) && v == o.verdict
    {
      if st.rekey.None? || st.rekey.value.kind != RekeyChild || st.rekey.value.oldChild.None? { return Dropped; }
      var rc, prior := st.rekey.value, st.rekey.value.oldChild.value;
      var parsed := ParseChildRekeyResponse(cfg, st.env.selected, inner);
      if parsed.None? { AbandonRekey(); return Dropped; }
      var r := parsed.value;
      if r.tsi != prior.tsi || r.tsr != prior.tsr { AbandonRekey(); return Dropped; }
      var keys := ChildRekeyKeys(c, cfg.childPfs, st.env, rc, r);
      if keys.None? { AbandonRekey(); return Dropped; }
      if st.activeChild != Some(prior) { AbandonRekey(); return Dropped; }
      v := InstallRekeyed(prior, ChildSA(rc.newInboundSpi, r.peerSpi, r.tsi, r.tsr, true), keys.value, r.selection,
                          fr.acked);
    }

    method InstallRekeyed(prior: ChildSA, child: ChildSA, keys: ChildKeys, sel: Selection, acked: bool)
        returns (v: Verdict)
      modifies this
      ensures var o := InstallRekeyedChild(old(st), prior, child, keys, sel, acked); Did(o) && v == o.verdict
    {
      Install(child, keys, sel, acked);
      if !acked { AbandonRekey(); return Dropped; }
      st := st.(selectedEsp := Some(sel), activeChild := Some(child), oldChild := Some(prior));
      st := st.(rekey := None, hasExpected := false, outbound := None);
      SendDeleteOldChild(prior);
      return Continue;
    }

    method FinishDeletedChild()
      modifies this
      ensures Did(FinishDeleteOldChild(old(st)))
    {
      if st.oldChild.Some? { updates := updates + [ChildDeleted(st.oldChild.value)]; }
      st := st.(oldChild := None, phase := Phase.Running);
      st := st.(hasExpected := false, outbound := None);
    }

    /** The fresh IKE SA becomes current; the previous one is retained. */
    method SwitchIke(next: Envelope, ni: bytes, nr: bytes, prior: OldIke)
      modifies this
      ensures st == InstallIke(old(st), next, ni, nr, prior) && tx == old(tx) && updates == old(updates)
    {
      st := st.(env := next, initiatorNonce := ni, responderNonce := nr);
      st := st.(nextId := 0, expectedId := 0, hasExpected := false, lastCompleted := None);
      st := st.(outbound := None, history := [], oldIke := st.oldIke + [prior]);
      st := st.(rekey := None, phase := RekeyIkeDeletingOld);
    }

    method SendOldIkeDelete()
      modifies this
      ensures Did(OldIkeDelete(old(st)))
    {
      if st.oldIke == [] { st := st.(phase := Phase.Running); return; }
      var prior := st.oldIke[0];
      var frames := [DeleteRequest(prior)];
      st := st.(oldIke :=
                st.oldIke[0 :=
                          prior.(nextId := (prior.nextId + 1) % U32_LIMIT, outbound :=
                                 Some(Checkpoint(prior.nextId, frames)),
                                                expectedId := prior.nextId, hasExpected := true)]);
      SendFrames(frames);
    }

    method FinishIkeRekeyResponse(inner: seq<Payload>) returns (v: Verdict)
      modifies this
      ensures var o := FinishIkeRekey(cfg, c, old(st), inner); Did(o) && v == o.verdict
    {
      if st.rekey.None? || st.rekey.value.kind != RekeyIke { return Dropped; }
      var rc := st.rekey.value;
      var parsed := ParseIkeRekeyResponse(cfg, inner);
      if parsed.None? { AbandonRekey(); return Dropped; }
      var r := parsed.value;
      var shared := SharedSecret(c, rc.dh, Some(r.ke));
      if shared.None? { AbandonRekey(); return Dropped; }
      var next := RekeyedEnvelope(c, st.env, shared.value, rc.ni, r.nr, rc.newInitiatorSpi, r.responderSpi, true,
                                  r.selection);
      if next.None? { AbandonRekey(); return Dropped; }
      SwitchIke(next.value, rc.ni, r.nr, Retired(st));
      SendOldIkeDelete();
      return Continue;
    }

    // ---- Peer rekeys ----

    method AcceptChild(id: u32, target: u32, prior: ChildSA, req: PeerChildRequest, fr: Fresh) returns (v: Verdict)
      modifies this
      ensures var o := AcceptPeerChild(cfg, c, old(st), id, target, prior, req, fr); Did(o) && v == o.verdict
    {
      var choice := SelectPeerEspProposal(cfg, req.sa, fr.childSpi, req.ke.Some?);
      if choice.None? { Refuse(id, W.PROTOCOL_ESP, Put32(target), NOTIFY_NO_PROPOSAL_CHOSEN); return Continue; }
      var keys := PeerChildKeys(c, st.env, req, fr, choice.value.selection);
      if keys.None? { return Dropped; }
      var child := ChildSA(fr.childSpi, PeerOutboundSpi(req.sa), req.tsr, req.tsi, false);
      Install(child, keys.value, choice.value.selection, fr.acked);
      if !fr.acked { return Dropped; }
      st := st.(selectedEsp := Some(choice.value.selection), oldChild := Some(prior), activeChild := Some(child));
      Answer(CreateChildSa, id, [SaPayload(choice.value.echo), NoncePayload(fr.nonce)] + KeOf(c, req.ke.Some?, fr.dh)
                                + [TsiPayload(req.tsi), TsrPayload(req.tsr)]);
      return Continue;
    }

    method HandlePeerChildRekey(id: u32, inner: seq<Payload>, fr: Fresh) returns (v: Verdict)
      modifies this
      ensures var o := ProcessPeerChildRekey(cfg, c, old(st), id, inner, fr); Did(o) && v == o.verdict
    {
      var target := FindRekeyTarget(inner);
      if target.None? { return Dropped; }
      if st.activeChild.None? ||
        (target.value != st.activeChild.value.outboundSpi && target.value != st.activeChild.value.inboundSpi) {
        Refuse(id, W.PROTOCOL_ESP, Put32(target.value), NOTIFY_CHILD_SA_NOT_FOUND);
        return Continue;
      }
      var prior := st.activeChild.value;
      var parts := ReadParts(CHILD_REQUEST, inner);
      if parts.None? { return Dropped; }
      var p := parts.value;
      if p.sa.None? || p.tsi == [] || p.tsr == [] || p.nonce.None? { return Dropped; }
      if p.tsi != prior.tsr || p.tsr != prior.tsi { return Dropped; }
      if st.rekey.Some? && st.rekey.value.kind == RekeyChild {
        if DecideCollision(st.rekey.value.ni, p.nonce.value) != WeLose {
          Refuse(id, 0, [], NOTIFY_TEMPORARY_FAILURE);
          return Continue;
        }
        AbandonRekey();
      }
      v := AcceptChild(id, target.value, prior, PeerChildRequest(p.sa.value, p.nonce.value, p.ke, p.tsi, p.tsr), fr);
    }

    method AcceptIke(id: u32, inner: seq<Payload>, fr: Fresh) returns (v: Verdict)
      modifies this
      ensures var o := AcceptPeerIke(cfg, c, old(st), id, inner, fr); Did(o) && v == o.verdict
    {
      var parts := ReadParts(IKE_REQUEST, inner);
      if parts.None? { return Dropped; }
      var p := parts.value;
      if p.sa.None? || p.nonce.None? || p.ke.None? { return Dropped; }
      var choice := SelectPeerIkeProposal(cfg, p.sa.value, fr.ikeSpi);
      if choice.None? { Refuse(id, 0, [], NOTIFY_NO_PROPOSAL_CHOSEN); return Continue; }
      var shared := c.agree(fr.dh, p.ke.value);
      if shared.None? { return Dropped; }
      var next := RekeyedEnvelope(c, st.env, shared.value, p.nonce.value, fr.nonce, choice.value.peerSpi, fr.ikeSpi,
                                  false, choice.value.selection);
      if next.None? { return Dropped; }
      var frames := [Seal(st.env, CreateChildSa, id, true,
                          [SaPayload(choice.value.echo), NoncePayload(fr.nonce),
                           KePayload(CURVE25519, c.publicKey(fr.dh))])];
      var prior := Retired(st);
      SendFrames(frames);
      SwitchIke(next.value, p.nonce.value, fr.nonce, prior.(history := prior.history + [CachedResponse(id, frames)]));
      return Continue;
    }

    method HandlePeerIkeRekey(id: u32, inner: seq<Payload>, fr: Fresh) returns (v: Verdict)
      modifies this
      ensures var o := ProcessPeerIkeRekey(cfg, c, old(st), id, inner, fr); Did(o) && v == o.verdict
    {
      if st.rekey.Some? && st.rekey.value.kind == RekeyIke {
        var ni := FirstInnerNonce(inner);
        if ni.None? || DecideCollision(st.rekey.value.ni, ni.value) != WeLose {
          Refuse(id, 0, [], NOTIFY_TEMPORARY_FAILURE);
          return Continue;
        }
        AbandonRekey();
      } else if st.rekey.Some? || st.oldIke != [] {
        Refuse(id, 0, [], NOTIFY_TEMPORARY_FAILURE);
        return Continue;
      }
      v := AcceptIke(id, inner, fr);
    }

    // ---- INFORMATIONAL ----

    method DeleteChild(spi: u32)
      modifies this
      ensures st == PeerDeletesChild(old(st), spi).0 && updates == old(updates) + PeerDeletesChild(old(st), spi).1
      ensures tx == old(tx)
    {
      if st.oldChild.Some? && spi == st.oldChild.value.outboundSpi {
        updates := updates + [ChildDeleted(st.oldChild.value)];
        st := st.(oldChild := None);
        if st.phase == RekeyChildDeletingOld { st := st.(phase := Phase.Running); }
      } else if st.activeChild.Some? && spi == st.activeChild.value.outboundSpi {
        updates := updates + [ChildDeleted(st.activeChild.value)];
        st := st.(activeChild := None);
      }
    }

    method HandleInformational(id: u32, inner: seq<Payload>) returns (v: Verdict)
      modifies this
      ensures var o := ProcessInformational(old(st), id, inner); Did(o) && v == o.verdict
    {
      var notice := ReadNotice(inner);
      if notice.None? { return Dropped; }
      if notice.value.DeleteEsp? { DeleteChild(notice.value.spi); }
      Answer(Informational, id, if notice.value.ConfigSet? then [ConfigPayload(false, true)] else []);
      if notice.value.DeleteIke? {
        st := Cleared(st);
        return Shutdown;
      }
      return Continue;
    }

    // ---- Packets ----

    method HandleResponse(f: Frame, complete: bool, fr: Fresh) returns (v: Verdict)
      modifies this
      ensures var o := ProcessResponse(cfg, c, old(st), f, complete, fr); Did(o) && v == o.verdict
    {
      if f.initiator == st.env.originalInitiator || f.spiI != st.env.spiI ||
        (st.env.spiR != 0 && f.spiR != st.env.spiR) { return Continue; }
      if !st.hasExpected || f.messageId != st.expectedId { return Continue; }
      if !Opens(st.env, f) { return Dropped; }
      if !complete { return Continue; }
      if st.rekey.Some? {
        if st.rekey.value.kind == RekeyChild { v := FinishChildRekeyResponse(f.inner, fr); }
        else { v := FinishIkeRekeyResponse(f.inner); }
        return;
      }
      st := st.(hasExpected := false, lastCompleted := Some(f.messageId), outbound := None);
      if st.phase == RekeyChildDeletingOld { FinishDeletedChild(); }
      return Continue;
    }

    /** The retained history is searched from the oldest entry. */
    method FindRetained(id: u32) returns (r: Option<CachedResponse>)
      requires st.oldIke != []
      ensures r.Some? <==> exists i :: 0 <= i < |st.oldIke[0].history| && st.oldIke[0].history[i].messageId == id
      ensures r.Some? ==> r.value == FirstCached(st.oldIke[0].history, id)
    {
      var history, i := st.oldIke[0].history, 0;
      while i < |history|
        invariant i <= |history| && forall k :: 0 <= k < i ==> history[k].messageId != id
      {
        if history[i].messageId == id {
          FirstCachedAt(history, id, i);
          return Some(history[i]);
        }
        i := i + 1;
      }
      return None;
    }

    method HandleOldIkePacket(f: Frame, complete: bool) returns (v: Verdict)
      requires st.oldIke != []
      modifies this
      ensures var o := ProcessOldIke(old(st), f, complete); Did(o) && v == o.verdict
    {
      var prior := st.oldIke[0];
      if f.response {
        if f.initiator == prior.env.originalInitiator || !prior.hasExpected ||
          f.messageId != prior.expectedId { return Continue; }
        if !complete || !Opens(prior.env, f) { return Dropped; }
        st := FinishOldIkeDelete(st);
        return Continue;
      }
      if !complete || !Opens(prior.env, f) || f.messageId == 0 { return Dropped; }
      var cached := FindRetained(f.messageId);
      if cached.Some? {
        SendFrames(cached.value.packets);
        return Continue;
      }
      if f.exchange != Informational { return Continue; }
      if Malformed(DeleteKind) in f.inner { return Dropped; }
      var frames := [Seal(prior.env, Informational, f.messageId, true, [])];
      SendFrames(frames);
      st := st.(oldIke := st.oldIke[0 := prior.(history := prior.history + [CachedResponse(f.messageId, frames)])]);
      if AsksIkeDelete(f.inner) { st := FinishOldIkeDelete(st); }
      return Continue;
    }

    method HandleRequest(f: Frame, complete: bool, fr: Fresh) returns (v: Verdict)
      modifies this
      ensures var o := ProcessRequest(cfg, c, old(st), f, complete, fr); Did(o) && v == o.verdict
    {
      if !Opens(st.env, f) || !complete { return Dropped; }
      var cached := ReplayCachedFrames(f.messageId);
      if cached.Some? {
        SendFrames(cached.value.packets);
        return Continue;
      }
      if st.history != [] && f.messageId <= st.history[|st.history| - 1].messageId { return Dropped; }
      match f.exchange
      case Informational => v := HandleInformational(f.messageId, f.inner);
      case CreateChildSa =>
        var child := CarriesSelectors(f.inner);
        if child {
          v := HandlePeerChildRekey(f.messageId, f.inner, fr);
        } else {
          v := HandlePeerIkeRekey(f.messageId, f.inner, fr);
        }
      case OtherExchange => v := Continue;
    }

    method HandlePacket(pkt: Packet, fr: Fresh) returns (v: Verdict)
      modifies this
      ensures var o := ProcessPacket(cfg, c, old(st), pkt, fr); Did(o) && v == o.verdict
    {
      match pkt
      case NotIke => v := Continue;
      case Unparsable => v := Dropped;
      case Cleartext => v := Dropped;
      case Protected(f, complete) =>
        if st.oldIke != [] && f.spiI == st.oldIke[0].env.spiI &&
          f.spiR == st.oldIke[0].env.spiR { v := HandleOldIkePacket(f, complete); }
        else if f.response { v := HandleResponse(f, complete, fr); }
        else { v := HandleRequest(f, complete, fr); }
    }

    // ---- The select loop ----

    method HandleRto(exhausted: bool) returns (v: Verdict)
      modifies this
      ensures var o := OnRto(old(st), exhausted); Did(o) && v == o.verdict
    {
      if !st.hasExpected { return Continue; }
      if exhausted {
        if st.rekey.None? { return Fatal; }
        AbandonRekey();
        return Continue;
      }
      if st.outbound.None? { return Fatal; }
      SendFrames(st.outbound.value.packets);
      return Continue;
    }

    method HandleOldRto(exhausted: bool)
      modifies this
      ensures Did(OnOldRto(old(st), exhausted))
    {
      if st.oldIke == [] || !st.oldIke[0].hasExpected { return; }
      if exhausted {
        st := st.(oldIke := st.oldIke[0 := st.oldIke[0].(hasExpected := false, outbound := None)]);
      } else if st.oldIke[0].outbound.Some? {
        SendFrames(st.oldIke[0].outbound.value.packets);
      }
    }

    method Turn(ev: Event) returns (v: Verdict)
      modifies this
      ensures var o := Step(cfg, c, old(st), ev); Did(o) && v == o.verdict
      ensures RunningInvariant.Inv(old(st)) ==> RunningInvariant.Inv(st)
    {
      hide RunningInvariant.Inv;
      v := Continue;
      if RunningInvariant.Inv(st) { RunningInvariant.StepKeeps(cfg, c, st, ev); }
      match ev
      case RtoFires(exhausted) => v := HandleRto(exhausted);
      case OldRtoFires(exhausted) => HandleOldRto(exhausted);
      case Tick => if !st.hasExpected { Request(Informational, []); }
      case IkeSoft(fr) => BeginIkeRekey(fr);
      case ChildSoft(fr) => BeginChildRekey(fr);
      case NearWrap(fr) => BeginChildRekey(fr);
      case Retry(kind, fr) => if kind == RekeyIke { BeginIkeRekey(fr); } else { BeginChildRekey(fr); }
      case Receive(pkt, fr) => v := HandlePacket(pkt, fr);
    }

    /** One turn after the other until the session ends. */
    method Run(evs: seq<Event>)
      modifies this
      ensures st == ExecAll(cfg, c, Begin(old(st)), evs).st
      ensures tx == old(tx) + Sent(cfg, c, old(st), evs) && updates == old(updates) + Queued(cfg, c, old(st), evs)
      ensures HandedOver(old(st)) ==> RunningInvariant.Inv(st) && Sane(old(st), ExecAll(cfg, c, Begin(old(st)), evs))
    {
      hide Step, Sent, Queued, ExecAll, HandedOver;
      var live := true;
      ghost var start, was := Begin(st), st;
      RunNothing(cfg, c, st);
      assert evs[..0] == [] && tx + [] == tx && updates + [] == updates;
      for i := 0 to |evs|
        invariant st == ExecAll(cfg, c, start, evs[..i]).st && live == ExecAll(cfg, c, start, evs[..i]).live
        invariant tx == old(tx) + Sent(cfg, c, was, evs[..i]) && updates == old(updates) + Queued(cfg, c, was, evs[..i])
      {
        RunOn(cfg, c, was, evs, i);
        if live {
          var v := Turn(evs[i]);
          live := v == Continue || v == Dropped;
        }
      }
      assert evs[..|evs|] == evs;
      if HandedOver(was) { RunsSane(cfg, c, was, evs); }
    }

    /** The last requests: the child's DELETE, then the IKE SA's. */
    method Close() returns (done: bool)
      modifies this
      ensures var r := CloseDown(old(st));
              st == r.st && tx == old(tx) + r.sent && done == r.done && updates == old(updates)
    {
      if st.env.spiR == 0 || st.phase == Stopped || st.nextId == LAST_ID { return false; }
      if st.activeChild.Some? {
        SendFrames([Seal(st.env, Informational, st.nextId, false,
                         [DeletePayload(W.PROTOCOL_ESP, [st.activeChild.value.inboundSpi])])]);
        st := st.(nextId := st.nextId + 1);
      }
      if st.nextId == LAST_ID { return false; }
      SendFrames([Seal(st.env, Informational, st.nextId, false, [DeletePayload(W.PROTOCOL_IKE, [])])]);
      st := st.(nextId := st.nextId + 1);
      st := Cleared(st);
      return true;
    }
  }

  lemma {:induction false} FirstCachedAt(history: seq<CachedResponse>, id: u32, i: nat)
    requires i < |history| && history[i].messageId == id && forall k :: 0 <= k < i ==> history[k].messageId != id
    ensures FirstCached(history, id) == history[i]
  {
    if i > 0 { FirstCachedAt(history[1..], id, i - 1); }
  }
}
