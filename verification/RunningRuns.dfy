/** Whole runs of the running actor: message-id numbering and answering at most once. */
module RunningRuns {
  import opened Bytes
  import opened Keying
  import opened Negotiation
  import opened ChildNegotiation
  import opened IkeState
  import opened RekeyExchange
  import opened RunningSpec
  import opened RunningInvariant
  import W = SaPayload

  /** A request first sent, or a response computed, on the `epoch`-th IKE SA. A response
      is `late` when that SA was already replaced and only retained. */
  datatype Issue = Issue(epoch: nat, id: u32)
  datatype Answer = Answer(epoch: nat, response: CachedResponse, late: bool)

  /** The actor and the log of its run. */
  datatype Run = Run(st: State, epoch: nat, issued: seq<Issue>, answered: seq<Answer>, live: bool)

  // ---- Running ----

  /** A step that made a fresh IKE SA current. */
  predicate Replaced(st: State, o: Outcome) {
    |st.oldIke| < |o.st.oldIke|
  }

  predicate ForRetained(st: State, ev: Event) {
    ev.Receive? && ev.pkt.Protected? && st.oldIke != []
    && ev.pkt.frame.spiI == st.oldIke[0].env.spiI && ev.pkt.frame.spiR == st.oldIke[0].env.spiR
  }

  function LogIssued(epoch: nat, frames: seq<Frame>): seq<Issue> {
    if frames == [] then [] else [Issue(epoch, frames[0].messageId)] + LogIssued(epoch, frames[1..])
  }

  function LogAnswered(epoch: nat, late: bool, answers: seq<CachedResponse>): seq<Answer> {
    if answers == [] then [] else [Answer(epoch, answers[0], late)] + LogAnswered(epoch, late, answers[1..])
  }

  function Exec(cfg: Config, c: Crypto, r: Run, ev: Event): Run {
    if !r.live then r else
    var o := Step(cfg, c, r.st, ev);
    var late := ForRetained(r.st, ev) && r.epoch > 0;
    Run(o.st, if Replaced(r.st, o) then r.epoch + 1 else r.epoch,
        r.issued + LogIssued(r.epoch, o.issued),
        r.answered + LogAnswered(if late then r.epoch - 1 else r.epoch, late, o.answered),
        o.verdict == Continue || o.verdict == Dropped)
  }

  function ExecAll(cfg: Config, c: Crypto, r: Run, evs: seq<Event>): Run {
    if evs == [] then r else Exec(cfg, c, ExecAll(cfg, c, r, evs[..|evs| - 1]), evs[|evs| - 1])
  }

  /** The hand-over from the handshake: running, nothing outstanding, nothing answered yet. */
  ghost predicate HandedOver(st: State) {
    && st.phase == Running && !st.hasExpected && st.outbound.None? && st.rekey.None? && st.oldIke == []
    && st.oldChild.None? && st.history == []
  }

  function Begin(st: State): Run {
    Run(st, 0, [], [], true)
  }

  // ---- Reachable states ----

  /** In every reachable state: a rekey in flight owns its phase and the outstanding
      request and excludes a replaced IKE SA; at most one replaced IKE SA is kept, and
      only in its phase; deleting an old child means it is there and a request is out. */
  lemma {:induction false} ReachableInv(cfg: Config, c: Crypto, st: State, evs: seq<Event>)
    requires HandedOver(st)
    ensures Inv(ExecAll(cfg, c, Begin(st), evs).st)
  {
    hide Step;
    if evs != [] {
      ReachableInv(cfg, c, st, evs[..|evs| - 1]);
      StepKeeps(cfg, c, ExecAll(cfg, c, Begin(st), evs[..|evs| - 1]).st, evs[|evs| - 1]);
    }
  }

  // ---- Numbering, step by step ----

  /** At most one request is issued, with the next id of the SA that is current before
      the step; no other id counter moves. */
  ghost predicate Numbered(st: State, o: Outcome) {
    && |o.issued| <= 1
    && (o.issued != [] ==> o.issued[0].messageId == st.nextId)
    && (if Replaced(st, o) then
          o.st.nextId == 0 && |o.st.oldIke| == 1 && o.st.oldIke[0].nextId == (st.nextId + |o.issued|) % U32_LIMIT
        else
          && o.st.nextId == (st.nextId + |o.issued|) % U32_LIMIT
          && (o.st.oldIke != [] ==> |o.st.oldIke| == |st.oldIke| && o.st.oldIke[0].nextId == st.oldIke[0].nextId))
  }

  /** At most one response is computed. On the current SA it answers an unseen id and
      joins the history (that of the retained SA when the step replaced the SA). */
  ghost predicate AnswersOnce(st: State, o: Outcome) {
    && |o.answered| <= 1
    && (o.answered != [] ==> Unseen(st, o.answered[0].messageId) && IsAnswer(st.env, o.answered[0])
                             && o.tx == o.answered[0].packets)
    && (if Replaced(st, o) then o.st.history == [] && |o.st.oldIke| == 1 && o.st.oldIke[0].env == st.env
                                && o.st.oldIke[0].history == st.history + o.answered
        else
          && (o.verdict == Shutdown || o.st.history == Trim(st.history + o.answered))
          && (o.st.oldIke != [] ==> |o.st.oldIke| == |st.oldIke| && o.st.oldIke[0].history == st.oldIke[0].history
                                    && o.st.oldIke[0].env == st.oldIke[0].env))
  }

  ghost predicate Orderly(st: State, o: Outcome) {
    Numbered(st, o) && AnswersOnce(st, o)
  }

  lemma Idle(st: State, o: Outcome)
    requires Inv(st) && o.issued == [] && o.answered == [] && o.st.nextId == st.nextId && o.st.history == st.history
    requires o.st.oldIke == [] || (|o.st.oldIke| == |st.oldIke| && o.st.oldIke[0].nextId == st.oldIke[0].nextId
                                   && o.st.oldIke[0].history == st.oldIke[0].history
                                   && o.st.oldIke[0].env == st.oldIke[0].env)
    ensures Orderly(st, o)
  {
    assert st.history + [] == st.history;
  }

  lemma SendRequestOrderly(st: State, exchange: Exchange, inner: seq<Payload>, o: Outcome)
    requires Inv(st) && o.issued == SendRequest(st, exchange, inner).issued && o.answered == []
    requires o.st.nextId == (st.nextId + 1) % U32_LIMIT && o.st.history == st.history && o.st.oldIke == st.oldIke
    ensures Orderly(st, o)
  {
    assert st.history + [] == st.history;
  }

  lemma RespondOrderly(st: State, exchange: Exchange, id: u32, inner: seq<Payload>, o: Outcome)
    requires Inv(st) && Unseen(st, id)
    requires var r := Respond(st, exchange, id, inner);
             && o.issued == [] && o.tx == r.tx && o.answered == r.answered
             && (o.verdict == Shutdown || o.st.history == r.st.history)
    requires o.st.nextId == st.nextId && (o.st.oldIke == st.oldIke || o.st.oldIke == [])
    ensures Orderly(st, o)
  {
  }

  lemma FinishChildRekeyOrderly(cfg: Config, c: Crypto, st: State, inner: seq<Payload>, fr: Fresh)
    requires Inv(st) && st.rekey.Some? && st.rekey.value.kind == RekeyChild
    ensures Orderly(st, FinishChildRekey(cfg, c, st, inner, fr))
  {
    hide ParseChildResponse, ChildRekeyKeys;
    var o := FinishChildRekey(cfg, c, st, inner, fr);
    if o.issued == [] {
      Idle(st, o);
    } else {
      SendRequestOrderly(st, Informational,
                         [DeletePayload(W.PROTOCOL_ESP, [st.rekey.value.oldChild.value.inboundSpi])], o);
    }
  }

  lemma FinishIkeRekeyOrderly(cfg: Config, c: Crypto, st: State, inner: seq<Payload>)
    requires Inv(st) && st.rekey.Some? && st.rekey.value.kind == RekeyIke
    ensures Orderly(st, FinishIkeRekey(cfg, c, st, inner))
  {
    hide ParseIkeResponse, SharedSecret, RekeyedEnvelope;
    var o := FinishIkeRekey(cfg, c, st, inner);
    if o.issued == [] {
      Idle(st, o);
    } else {
      assert st.history + [] == st.history;
    }
  }

  lemma AcceptPeerChildOrderly(cfg: Config, c: Crypto, st: State, id: u32, target: u32, prior: ChildSA,
                               req: PeerChildRequest, fr: Fresh)
    requires Inv(st) && Unseen(st, id)
    ensures Orderly(st, AcceptPeerChild(cfg, c, st, id, target, prior, req, fr))
  {
    hide SelectPeerEsp, PeerChildKeys, PeerOutboundSpi;
    var o := AcceptPeerChild(cfg, c, st, id, target, prior, req, fr);
    if o.answered == [] {
      Idle(st, o);
    } else {
      RespondOrderly(st, CreateChildSa, id, o.answered[0].packets[0].inner, o);
    }
  }

  lemma RefusalOrderly(st: State, id: u32, protocolId: u8, spi: bytes, notifyType: u16)
    requires Inv(st) && Unseen(st, id)
    ensures Orderly(st, Refusal(st, id, protocolId, spi, notifyType))
  {
    RespondOrderly(st, CreateChildSa, id, [NotifyPayload(protocolId, spi, notifyType)],
                   Refusal(st, id, protocolId, spi, notifyType));
  }

  /** Abandoning first changes neither counters nor history. */
  lemma AbandonFirst(st: State, o: Outcome)
    requires Inv(st) && st.rekey.Some? && Orderly(Abandon(st), o)
    ensures Orderly(st, o)
  {
  }

  lemma PeerChildRekeyOrderly(cfg: Config, c: Crypto, st: State, id: u32, inner: seq<Payload>, fr: Fresh)
    requires Inv(st) && Unseen(st, id)
    ensures Orderly(st, ProcessPeerChildRekey(cfg, c, st, id, inner, fr))
  {
    hide RekeyTarget, ParsePeerChild, DecideCollision, AcceptPeerChild, Refusal, Orderly;
    AbandonKeeps(st);
    Idle(st, Drop(st));
    RefusalOrderly(st, id, 0, [], NOTIFY_TEMPORARY_FAILURE);
    if RekeyTarget(inner).Some? {
      var target := RekeyTarget(inner).value;
      RefusalOrderly(st, id, W.PROTOCOL_ESP, Put32(target), NOTIFY_CHILD_SA_NOT_FOUND);
      if st.activeChild.Some? && ParsePeerChild(inner).Some? {
        var prior, req := st.activeChild.value, ParsePeerChild(inner).value;
        AcceptPeerChildOrderly(cfg, c, st, id, target, prior, req, fr);
        AcceptPeerChildOrderly(cfg, c, Abandon(st), id, target, prior, req, fr);
        if st.rekey.Some? { AbandonFirst(st, AcceptPeerChild(cfg, c, Abandon(st), id, target, prior, req, fr)); }
      }
    }
  }

  lemma AcceptPeerIkeOrderly(cfg: Config, c: Crypto, st: State, id: u32, inner: seq<Payload>, fr: Fresh)
    requires Inv(st) && Unseen(st, id) && st.oldIke == []
    ensures Orderly(st, AcceptPeerIke(cfg, c, st, id, inner, fr))
  {
    hide ParsePeerIke, SelectPeerIke, RekeyedEnvelope;
    var o := AcceptPeerIke(cfg, c, st, id, inner, fr);
    if o.answered == [] {
      Idle(st, o);
    } else if o.st.oldIke == [] {
      RespondOrderly(st, CreateChildSa, id, o.answered[0].packets[0].inner, o);
    }
  }

  lemma PeerIkeRekeyOrderly(cfg: Config, c: Crypto, st: State, id: u32, inner: seq<Payload>, fr: Fresh)
    requires Inv(st) && Unseen(st, id)
    ensures Orderly(st, ProcessPeerIkeRekey(cfg, c, st, id, inner, fr))
  {
    hide FirstNonce, DecideCollision, AcceptPeerIke, Refusal, Orderly;
    AbandonKeeps(st);
    RefusalOrderly(st, id, 0, [], NOTIFY_TEMPORARY_FAILURE);
    AcceptPeerIkeOrderly(cfg, c, Abandon(st), id, inner, fr);
    if st.rekey.Some? { AbandonFirst(st, AcceptPeerIke(cfg, c, Abandon(st), id, inner, fr)); }
    if st.oldIke == [] { AcceptPeerIkeOrderly(cfg, c, st, id, inner, fr); }
  }

  lemma PeerDeleteOrderly(st: State, id: u32, spi: u32, o: Outcome)
    requires Inv(st) && Unseen(st, id)
    requires o == Respond(PeerDeletesChild(st, spi).0, Informational, id, []).(updates := PeerDeletesChild(st, spi).1)
    ensures Orderly(st, o)
  {
    RespondOrderly(st, Informational, id, [], o);
  }

  lemma InformationalOrderly(st: State, id: u32, inner: seq<Payload>)
    requires Inv(st) && Unseen(st, id)
    ensures Orderly(st, ProcessInformational(st, id, inner))
  {
    hide ReadNotice, PeerDeletesChild, Orderly;
    var o := ProcessInformational(st, id, inner);
    match ReadNotice(inner)
    case None => Idle(st, o);
    case Some(Nothing) => RespondOrderly(st, Informational, id, [], o);
    case Some(ConfigSet) => RespondOrderly(st, Informational, id, [ConfigPayload(false, true)], o);
    case Some(DeleteIke) => RespondOrderly(st, Informational, id, [], o);
    case Some(DeleteEsp(spi)) => PeerDeleteOrderly(st, id, spi, o);
  }

  lemma RequestOrderly(cfg: Config, c: Crypto, st: State, f: Frame, complete: bool, fr: Fresh)
    requires Inv(st)
    ensures Orderly(st, ProcessRequest(cfg, c, st, f, complete, fr))
  {
    hide ProcessInformational, ProcessPeerChildRekey, ProcessPeerIkeRekey, HasSelectors, Orderly;
    var o := ProcessRequest(cfg, c, st, f, complete, fr);
    var stale := st.history != [] && f.messageId <= st.history[|st.history| - 1].messageId;
    if !Opens(st.env, f) || !complete || Cached(st.history, f.messageId).Some? || stale || f.exchange.OtherExchange? {
      assert o.st == st && o.issued == [] && o.answered == [];
      Idle(st, o);
    } else if f.exchange.Informational? {
      InformationalOrderly(st, f.messageId, f.inner);
    } else if HasSelectors(f.inner) {
      PeerChildRekeyOrderly(cfg, c, st, f.messageId, f.inner, fr);
    } else {
      PeerIkeRekeyOrderly(cfg, c, st, f.messageId, f.inner, fr);
    }
  }

  lemma ResponseOrderly(cfg: Config, c: Crypto, st: State, f: Frame, complete: bool, fr: Fresh)
    requires Inv(st)
    ensures Orderly(st, ProcessResponse(cfg, c, st, f, complete, fr))
  {
    hide FinishChildRekey, FinishIkeRekey, Orderly;
    if st.rekey.Some? && st.rekey.value.kind == RekeyChild {
      FinishChildRekeyOrderly(cfg, c, st, f.inner, fr);
      Idle(st, Keep(st));
      Idle(st, Drop(st));
    } else if st.rekey.Some? {
      FinishIkeRekeyOrderly(cfg, c, st, f.inner);
      Idle(st, Keep(st));
      Idle(st, Drop(st));
    } else {
      Idle(st, ProcessResponse(cfg, c, st, f, complete, fr));
    }
  }

  lemma StartOrderly(cfg: Config, c: Crypto, st: State, fr: Fresh)
    requires Inv(st)
    ensures Orderly(st, StartChildRekey(cfg, c, st, fr)) && Orderly(st, StartIkeRekey(cfg, c, st, fr))
  {
    hide ChildRekeyRequest, IkeRekeyRequest;
    var o1, o2 := StartChildRekey(cfg, c, st, fr), StartIkeRekey(cfg, c, st, fr);
    if o1.issued == [] { Idle(st, o1); } else { SendRequestOrderly(st, CreateChildSa, o1.issued[0].inner, o1); }
    if o2.issued == [] { Idle(st, o2); } else { SendRequestOrderly(st, CreateChildSa, o2.issued[0].inner, o2); }
  }

  lemma StepOrderly(cfg: Config, c: Crypto, st: State, ev: Event)
    requires Inv(st) && !ForRetained(st, ev)
    ensures Orderly(st, Step(cfg, c, st, ev))
  {
    hide StartChildRekey, StartIkeRekey, ProcessRequest, ProcessResponse, Orderly;
    var o := Step(cfg, c, st, ev);
    match ev
    case RtoFires(exhausted) => Idle(st, o);
    case OldRtoFires(exhausted) => Idle(st, o);
    case Tick => if st.hasExpected { Idle(st, o); } else { SendRequestOrderly(st, Informational, [], o); }
    case IkeSoft(fr) => StartOrderly(cfg, c, st, fr);
    case ChildSoft(fr) => StartOrderly(cfg, c, st, fr);
    case NearWrap(fr) => StartOrderly(cfg, c, st, fr);
    case Retry(kind, fr) => StartOrderly(cfg, c, st, fr);
    case Receive(pkt, fr) =>
      if pkt.Protected? {
        if pkt.frame.response {
          ResponseOrderly(cfg, c, st, pkt.frame, pkt.complete, fr);
        } else {
          RequestOrderly(cfg, c, st, pkt.frame, pkt.complete, fr);
        }
      } else {
        Idle(st, o);
      }
  }

  // ---- Packets for the retained SA ----

  predicate Remembered(history: seq<CachedResponse>, id: u32) {
    exists i :: 0 <= i < |history| && history[i].messageId == id
  }

  ghost predicate RetainedOrderly(st: State, o: Outcome)
    requires st.oldIke != []
  {
    var prior := st.oldIke[0];
    && o.issued == [] && o.st.nextId == st.nextId && o.st.history == st.history && o.st.env == st.env
    && |o.answered| <= 1
    && (o.answered != [] ==> o.answered[0].messageId != 0 && !Remembered(prior.history, o.answered[0].messageId)
                             && IsAnswer(prior.env, o.answered[0]))
    && (o.st.oldIke != [] ==> |o.st.oldIke| == 1 && o.st.oldIke[0].nextId == prior.nextId
                              && o.st.oldIke[0].env == prior.env
                              && o.st.oldIke[0].history == prior.history + o.answered)
  }

  lemma RetainedPacketOrderly(st: State, f: Frame, complete: bool)
    requires Inv(st) && st.oldIke != []
    ensures RetainedOrderly(st, ProcessOldIke(st, f, complete))
  {
    assert st.oldIke[0].history + [] == st.oldIke[0].history;
  }

  lemma RetainedStepOrderly(cfg: Config, c: Crypto, st: State, ev: Event)
    requires Inv(st) && ForRetained(st, ev)
    ensures RetainedOrderly(st, Step(cfg, c, st, ev))
  {
    hide ProcessOldIke, RetainedOrderly, ProcessRequest, ProcessResponse;
    RetainedPacketOrderly(st, ev.pkt.frame, ev.pkt.complete);
  }

  lemma RetainedNumbered(st: State, o: Outcome)
    requires Inv(st) && st.oldIke != [] && RetainedOrderly(st, o)
    ensures Numbered(st, o) && !Replaced(st, o)
  {
  }

  /** On the retained SA a copy of a remembered request gets the remembered packets and
      changes nothing -- exactly when its message-id is not zero; id 0 is refused. */
  lemma RetainedReplay(st: State, f: Frame, cached: CachedResponse)
    requires Inv(st) && st.oldIke != [] && cached in st.oldIke[0].history
    requires !f.response && Opens(st.oldIke[0].env, f) && f.messageId == cached.messageId
    ensures var o := ProcessOldIke(st, f, true);
            o.st == st && o.answered == [] && o.tx == if f.messageId != 0 then cached.packets else []
  {
    var history := st.oldIke[0].history;
    var i :| 0 <= i < |history| && history[i] == cached;
    if f.messageId != 0 {
      var first := FirstCached(history, f.messageId);
      var j :| 0 <= j < |history| && history[j] == first;
    }
  }

  /** A request is executed on the retained SA exactly when it is a readable
      INFORMATIONAL with a non-zero id that the retained history does not hold --
      whether or not that id was answered, and evicted, before the SA was replaced. */
  lemma RetainedExecutes(st: State, f: Frame, complete: bool)
    requires Inv(st) && st.oldIke != [] && !f.response
    ensures ProcessOldIke(st, f, complete).answered != []
       <==> complete && Opens(st.oldIke[0].env, f) && f.messageId != 0 && !Remembered(st.oldIke[0].history, f.messageId)
            && f.exchange == Informational && Malformed(DeleteKind) !in f.inner
  {
  }

  // ---- Counting ----

  function Count(issued: seq<Issue>, epoch: nat): nat {
    if issued == [] then 0
    else Count(issued[..|issued| - 1], epoch) + if issued[|issued| - 1].epoch == epoch then 1 else 0
  }

  /** The id the `epoch`-th SA starts from: only the first one inherits a counter. */
  function FirstId(start: u32, epoch: nat): u32 {
    if epoch == 0 then start else 0
  }

  function NextInEpoch(start: u32, issued: seq<Issue>, epoch: nat): u32 {
    (FirstId(start, epoch) + Count(issued, epoch)) % U32_LIMIT
  }

  /** The k-th request of the log is numbered by its rank within its SA. */
  ghost predicate RankedAt(start: u32, issued: seq<Issue>, k: nat)
    requires k < |issued|
  {
    issued[k].id == NextInEpoch(start, issued[..k], issued[k].epoch)
  }

  ghost predicate Ranked(start: u32, issued: seq<Issue>) {
    forall k :: 0 <= k < |issued| ==> RankedAt(start, issued, k)
  }

  lemma RankedSnoc(start: u32, issued: seq<Issue>, x: Issue)
    requires Ranked(start, issued) && x.id == NextInEpoch(start, issued, x.epoch)
    ensures Ranked(start, issued + [x])
  {
    var all := issued + [x];
    forall k | 0 <= k < |all| ensures RankedAt(start, all, k) {
      if k < |issued| {
        assert all[..k] == issued[..k] && RankedAt(start, issued, k);
      } else {
        assert all[..k] == issued;
      }
    }
  }

  lemma CountSnoc(issued: seq<Issue>, x: Issue, epoch: nat)
    ensures Count(issued + [x], epoch) == Count(issued, epoch) + if x.epoch == epoch then 1 else 0
  {
    assert (issued + [x])[..|issued|] == issued;
  }

  lemma {:induction false} CountNone(issued: seq<Issue>, epoch: nat)
    requires forall k :: 0 <= k < |issued| ==> issued[k].epoch < epoch
    ensures Count(issued, epoch) == 0
  {
    if issued != [] { CountNone(issued[..|issued| - 1], epoch); }
  }

  ghost predicate NumberInv(start: u32, r: Run) {
    && Ranked(start, r.issued)
    && (forall k :: 0 <= k < |r.issued| ==> r.issued[k].epoch <= r.epoch)
    && r.st.nextId == NextInEpoch(start, r.issued, r.epoch)
    && (r.st.oldIke != [] ==> r.epoch > 0 && r.st.oldIke[0].nextId == NextInEpoch(start, r.issued, r.epoch - 1))
  }

  lemma LogOne(epoch: nat, late: bool, frames: seq<Frame>, answers: seq<CachedResponse>)
    requires |frames| <= 1 && |answers| <= 1
    ensures LogIssued(epoch, frames) == if frames == [] then [] else [Issue(epoch, frames[0].messageId)]
    ensures LogAnswered(epoch, late, answers) == if answers == [] then [] else [Answer(epoch, answers[0], late)]
  {
    assert frames != [] ==> frames[1..] == [];
    assert answers != [] ==> answers[1..] == [];
  }

  lemma NextSnoc(start: u32, issued: seq<Issue>, x: Issue, epoch: nat)
    ensures NextInEpoch(start, issued + [x], epoch)
         == if x.epoch ==
           epoch then (NextInEpoch(start, issued, epoch) + 1) % U32_LIMIT else NextInEpoch(start, issued, epoch)
  {
    CountSnoc(issued, x, epoch);
  }

  /** The log grows by the request the step issued, if any. */
  lemma NumberedLog(start: u32, r: Run, o: Outcome, grown: seq<Issue>)
    requires NumberInv(start, r) && Numbered(r.st, o)
    requires grown == if o.issued == [] then r.issued else r.issued + [Issue(r.epoch, o.issued[0].messageId)]
    ensures Ranked(start, grown) && (forall k :: 0 <= k < |grown| ==> grown[k].epoch <= r.epoch)
    ensures NextInEpoch(start, grown, r.epoch) == (r.st.nextId + |o.issued|) % U32_LIMIT
    ensures r.epoch > 0 ==> NextInEpoch(start, grown, r.epoch - 1) == NextInEpoch(start, r.issued, r.epoch - 1)
    ensures NextInEpoch(start, grown, r.epoch + 1) == 0
  {
    if o.issued != [] {
      var x := Issue(r.epoch, o.issued[0].messageId);
      RankedSnoc(start, r.issued, x);
      NextSnoc(start, r.issued, x, r.epoch);
      if r.epoch > 0 { NextSnoc(start, r.issued, x, r.epoch - 1); }
    }
    CountNone(grown, r.epoch + 1);
  }

  lemma StepNumbered(cfg: Config, c: Crypto, st: State, ev: Event)
    requires Inv(st)
    ensures Numbered(st, Step(cfg, c, st, ev))
  {
    hide Step;
    if ForRetained(st, ev) {
      RetainedStepOrderly(cfg, c, st, ev);
      RetainedNumbered(st, Step(cfg, c, st, ev));
    } else {
      StepOrderly(cfg, c, st, ev);
    }
  }

  lemma ExecNumbered(cfg: Config, c: Crypto, start: u32, r: Run, ev: Event)
    requires Inv(r.st) && NumberInv(start, r)
    ensures NumberInv(start, Exec(cfg, c, r, ev))
  {
    hide Step, ForRetained, NextInEpoch, Ranked;
    if r.live {
      var o := Step(cfg, c, r.st, ev);
      StepNumbered(cfg, c, r.st, ev);
      LogOne(r.epoch, false, o.issued, []);
      var grown := Exec(cfg, c, r, ev).issued;
      assert o.issued == [] ==> grown == r.issued;
      NumberedLog(start, r, o, grown);
    }
  }

  lemma {:induction false} RunNumbered(cfg: Config, c: Crypto, st: State, evs: seq<Event>)
    requires HandedOver(st)
    ensures NumberInv(st.nextId, ExecAll(cfg, c, Begin(st), evs))
  {
    hide Exec;
    if evs != [] {
      RunNumbered(cfg, c, st, evs[..|evs| - 1]);
      ReachableInv(cfg, c, st, evs[..|evs| - 1]);
      ExecNumbered(cfg, c, st.nextId, ExecAll(cfg, c, Begin(st), evs[..|evs| - 1]), evs[|evs| - 1]);
    }
  }

  // ---- Message-ids of one SA ----

  lemma {:induction false} CountMonotone(issued: seq<Issue>, i: nat, epoch: nat)
    requires i <= |issued|
    ensures Count(issued[..i], epoch) <= Count(issued, epoch)
    ensures i < |issued| && issued[i].epoch == epoch ==> Count(issued[..i], epoch) < Count(issued, epoch)
  {
    if i < |issued| {
      var shorter := issued[..|issued| - 1];
      CountMonotone(shorter, i, epoch);
      assert shorter[..i] == issued[..i];
    } else {
      assert issued[..i] == issued;
    }
  }

  lemma {:induction false} RankExists(issued: seq<Issue>, epoch: nat, rank: nat) returns (k: nat)
    requires rank < Count(issued, epoch)
    ensures k < |issued| && issued[k].epoch == epoch && Count(issued[..k], epoch) == rank
  {
    var shorter := issued[..|issued| - 1];
    if rank < Count(shorter, epoch) {
      k := RankExists(shorter, epoch, rank);
      assert shorter[..k] == issued[..k];
    } else {
      k := |issued| - 1;
    }
  }

  ghost predicate Increasing(issued: seq<Issue>, epoch: nat) {
    forall i, j :: 0 <= i < j < |issued| && issued[i].epoch == issued[j].epoch == epoch ==> issued[i].id < issued[j].id
  }

  lemma LaterIsLarger(start: u32, issued: seq<Issue>, i: nat, j: nat)
    requires i < j < |issued| && issued[i].epoch == issued[j].epoch && RankedAt(start, issued, i)
    requires RankedAt(start, issued, j)
    requires FirstId(start, issued[j].epoch) + Count(issued, issued[j].epoch) <= U32_LIMIT
    ensures issued[i].id < issued[j].id
  {
    var epoch := issued[j].epoch;
    assert issued[..j][..i] == issued[..i];
    CountMonotone(issued[..j], i, epoch);
    CountMonotone(issued, j, epoch);
  }

  lemma RankedIncreasing(start: u32, issued: seq<Issue>, epoch: nat)
    requires Ranked(start, issued) && FirstId(start, epoch) + Count(issued, epoch) <= U32_LIMIT
    ensures Increasing(issued, epoch)
  {
    forall i, j | 0 <= i < j < |issued| && issued[i].epoch == issued[j].epoch == epoch
      ensures issued[i].id < issued[j].id
    {
      LaterIsLarger(start, issued, i, j);
    }
  }

  lemma RankedWraps(start: u32, issued: seq<Issue>, epoch: nat)
    requires Ranked(start, issued) && FirstId(start, epoch) + Count(issued, epoch) > U32_LIMIT
    ensures !Increasing(issued, epoch)
  {
    var r := U32_LIMIT - FirstId(start, epoch);
    var j := RankExists(issued, epoch, r);
    var i := RankExists(issued, epoch, r - 1);
    assert RankedAt(start, issued, i) && RankedAt(start, issued, j);
    assert issued[i].id == U32_LIMIT - 1 && issued[j].id == 0;
    assert j < i ==> issued[..i][..j] == issued[..j];
    if j < i { CountMonotone(issued[..i], j, epoch); }
  }

  /** Across keepalives, rekeys, child deletes and the delete of a replaced SA, the
      requests of one IKE SA are numbered consecutively from its first id, so they
      strictly increase exactly as long as the 32-bit counter has not wrapped. */
  lemma MessageIdsIncrease(cfg: Config, c: Crypto, st: State, evs: seq<Event>, epoch: nat)
    requires HandedOver(st)
    ensures var r := ExecAll(cfg, c, Begin(st), evs);
            && (forall k :: 0 <= k < |r.issued| ==> RankedAt(st.nextId, r.issued, k))
            && (Increasing(r.issued, epoch) <==> FirstId(st.nextId, epoch) + Count(r.issued, epoch) <= U32_LIMIT)
  {
    hide ExecAll;
    RunNumbered(cfg, c, st, evs);
    var r := ExecAll(cfg, c, Begin(st), evs);
    if FirstId(st.nextId, epoch) + Count(r.issued, epoch) <= U32_LIMIT {
      RankedIncreasing(st.nextId, r.issued, epoch);
    } else {
      RankedWraps(st.nextId, r.issued, epoch);
    }
  }

  /** While running, a response is awaited exactly when a checkpoint exists; a
      retransmission repeats that checkpoint, a request with the awaited id sealed by
      the current SA. The id is below the counter unless the counter just wrapped. */
  lemma RetransmissionsRepeat(cfg: Config, c: Crypto, st: State, evs: seq<Event>)
    requires HandedOver(st)
    ensures var s := ExecAll(cfg, c, Begin(st), evs).st;
            && (s.hasExpected <==> s.outbound.Some?)
            && (s.hasExpected ==> s.outbound.value.messageId == s.expectedId
                                  && (s.expectedId < s.nextId <==> s.nextId != 0)
                                  && Step(cfg, c, s, RtoFires(false)).tx == s.outbound.value.packets
                                  && Resendable(s.env, s.outbound.value, s.expectedId)
                                  && Step(cfg, c, s, RtoFires(false)).st == s)
  {
    hide ExecAll;
    ReachableInv(cfg, c, st, evs);
  }
}
