/** What a turn of one end can amount to, seen from the other: one of eight acts. */
module Acts {
  import opened Bytes
  import opened Keying
  import opened Negotiation
  import opened ChildNegotiation
  import opened IkeState
  import opened RekeyExchange
  import opened RunningSpec
  import opened RunningInvariant
  import opened IkeTalk
  import opened TwoEnds

  /** Nothing happens on the current SA; what is sent was sent before or belongs to the retained SA. */
  ghost predicate Stays(e: End, net: set<Frame>, tx: seq<Frame>, n: End) {
    && n.line == e.line && (forall t :: t in tx ==> t in net || t.sealedWith != OutboundHalves(e.line.env))
    && (forall t :: t in tx ==> t in net || t.sealedWith != InboundHalves(e.line.env))
    && (n.retained.Some? ==> e.retained.Some?)
  }

  /** The awaited answer arrives, and starts no new SA. A DELETE may follow. */
  ghost predicate Concludes(cfg: Config, c: Crypto, e: End, f: Frame, tx: seq<Frame>, n: End) {
    && Matches(e.line, f) && n.line.env == e.line.env && n.line.ike.None? && n.line.history == e.line.history
    && n.retained == e.retained && (forall t :: t in tx ==> !t.response)
    && (e.line.ike.Some? ==> n.line.awaited.None? && RekeyResult(cfg, c, e.line.env, e.line.ike.value, f.inner).None?)
  }

  /** A request is answered, and no SA started. A child rekey of our own may be given up. */
  ghost predicate Replies(e: End, f: Frame, tx: seq<Frame>, n: End) {
    && !f.response && Opens(e.line.env, f) && New(e.line, f.messageId) && n.retained == e.retained && |tx| == 1
    && tx[0] == Seal(e.line.env, tx[0].exchange, f.messageId, true, tx[0].inner)
    && (IkeRequest(f) ==> NoSa(tx[0].inner))
    && n.line.env == e.line.env && n.line.history == Trim(e.line.history + [CachedResponse(f.messageId, tx)])
    && n.line.ike == e.line.ike && (e.line.ike.Some? ==> n.line.awaited == e.line.awaited)
  }

  /** A child rekey of our own is given up, and nothing else. */
  ghost predicate Drops(e: End, tx: seq<Frame>, n: End) {
    tx == [] && n.retained == e.retained && e.line.ike.None? && n.line == e.line.(awaited := None)
  }

  /** An IKE rekey of our own is given up to a request that cannot be served. */
  ghost predicate Forgoes(cfg: Config, e: End, f: Frame, tx: seq<Frame>, n: End) {
    && IkeRequest(f) && Opens(e.line.env, f) && New(e.line, f.messageId) && !Takable(cfg, f)
    && e.line.ike.Some? && FirstNonce(f.inner).Some?
    && DecideCollision(e.line.ike.value.ni, FirstNonce(f.inner).value) == WeLose
    && (tx == [] ||
        tx == [Seal(e.line.env, CreateChildSa, f.messageId, true, [NotifyPayload(0, [], NOTIFY_NO_PROPOSAL_CHOSEN)])])
    && n.line.env == e.line.env && n.retained == e.retained
  }

  ghost predicate Act(cfg: Config, c: Crypto, e: End, net: set<Frame>, ev: Event, tx: seq<Frame>, n: End) {
    || Stays(e, net, tx, n) || Requests(cfg, c, e, tx, n)
    || (ev.Receive? && ev.pkt.Protected? && ev.pkt.frame in net
        && (|| Concludes(cfg, c, e, ev.pkt.frame, tx, n) || Finishes(cfg, c, e, ev.pkt.frame, tx, n)
            || Replies(e, ev.pkt.frame, tx, n) || Drops(e, tx, n) || Accepts(cfg, c, e, ev.pkt.frame, ev.fr, tx, n)
            || Forgoes(cfg, e, ev.pkt.frame, tx, n)))
  }

  lemma IdleStays(e: End, net: set<Frame>, tx: seq<Frame>, n: End)
    requires Idles(e, tx, n) && Kept(e, net)
    ensures Stays(e, net, tx, n)
  {
    NothingNew(e, net, tx);
    forall t | t in tx ensures t in net { assert t in Grow(net, tx); }
  }

  lemma ServesStays(e: End, f: Frame, net: set<Frame>, tx: seq<Frame>, n: End)
    requires ServesOld(e, f, tx, n) && Apart(e.line.env, e.retained.value.env)
    ensures Stays(e, net, tx, n)
  {
  }

  lemma KeptNow(cx: Config, cy: Config, c: Crypto, x: End, y: End, net: set<Frame>)
    requires Agreement(cx, cy, c, x, y, net)
    ensures Kept(x, net) && (x.retained.Some? ==> Apart(x.line.env, x.retained.value.env))
  {
    hide Numbers, Asked, Heard, Polite, Settled, Unsettled, Offering, Proper;
  }

  lemma QuietActs(cx: Config, cy: Config, c: Crypto, st: State, y: End, net: set<Frame>, ev: Event, o: Outcome)
    requires Agreement(cx, cy, c, EndOf(st), y, net) && Idles(EndOf(st), o.tx, EndOf(o.st))
    ensures Act(cx, c, EndOf(st), net, ev, o.tx, EndOf(o.st))
  {
    hide Agreement, Idles, Stays, EndOf;
    KeptNow(cx, cy, c, EndOf(st), y, net);
    IdleStays(EndOf(st), net, o.tx, EndOf(o.st));
  }

  lemma TimerActs(cx: Config, cy: Config, c: Crypto, st: State, y: End, net: set<Frame>, ev: Event)
    requires Inv(st) && Agreement(cx, cy, c, EndOf(st), y, net) && Fair(st, ev, Step(cx, c, st, ev), net)
    requires !ev.Receive?
    ensures var o := Step(cx, c, st, ev); Act(cx, c, EndOf(st), net, ev, o.tx, EndOf(o.st))
  {
    hide Agreement, Idles, Requests, StartIkeRekey, StartChildRekey, Unused, Inv, EndOf, Stays, Act;
    var o := Step(cx, c, st, ev);
    match ev {
      case RtoFires(exhausted) => TimersIdle(st, false);
      case OldRtoFires(exhausted) => TimersIdle(st, exhausted);
      case Tick => if st.hasExpected { KeepIdles(st); } else { TickRequests(cx, c, st); }
      case IkeSoft(fr) => StartIkeRequests(cx, c, st, fr);
      case ChildSoft(fr) => StartChildRequests(cx, c, st, fr);
      case NearWrap(fr) => StartChildRequests(cx, c, st, fr);
      case Retry(kind, fr) => StartIkeRequests(cx, c, st, fr); StartChildRequests(cx, c, st, fr);
    }
    if Idles(EndOf(st), o.tx, EndOf(o.st)) { QuietActs(cx, cy, c, st, y, net, ev, o); }
    else { RequestActs(cx, c, EndOf(st), net, ev, o.tx, EndOf(o.st)); }
  }

  lemma RequestActs(cfg: Config, c: Crypto, e: End, net: set<Frame>, ev: Event, tx: seq<Frame>, n: End)
    requires Requests(cfg, c, e, tx, n)
    ensures Act(cfg, c, e, net, ev, tx, n)
  {
  }

  lemma OldPacketActs(cx: Config, cy: Config, c: Crypto, st: State, y: End, net: set<Frame>, ev: Event, f: Frame,
                      complete: bool)
    requires Inv(st) && Agreement(cx, cy, c, EndOf(st), y, net) && st.oldIke != []
    ensures var o := ProcessOldIke(st, f, complete); Act(cx, c, EndOf(st), net, ev, o.tx, EndOf(o.st))
  {
    hide Agreement, Idles, ProcessOldIke, Inv, Stays;
    var o := ProcessOldIke(st, f, complete);
    OldPacketMoves(st, f, complete);
    KeptNow(cx, cy, c, EndOf(st), y, net);
    if Idles(EndOf(st), o.tx, EndOf(o.st)) { QuietActs(cx, cy, c, st, y, net, ev, o); }
    else { ServesStays(EndOf(st), f, net, o.tx, EndOf(o.st)); }
  }

  lemma ResponseActs(cx: Config, cy: Config, c: Crypto, st: State, y: End, net: set<Frame>, f: Frame, complete: bool,
                     fr: Fresh)
    requires Inv(st) && Agreement(cx, cy, c, EndOf(st), y, net) && Authentic(st, f, net) && f.response
    ensures var o := ProcessResponse(cx, c, st, f, complete, fr);
            Act(cx, c, EndOf(st), net, Receive(Protected(f, complete), fr), o.tx, EndOf(o.st))
  {
    hide Agreement, Finishes, FinishChildRekey, FinishIkeRekey, RekeyResult, HistoryInv, Idles, Stays;
    var o := ProcessResponse(cx, c, st, f, complete, fr);
    KeepIdles(st);
    if o.st == st && o.tx == [] {
      QuietActs(cx, cy, c, st, y, net, Receive(Protected(f, complete), fr), o);
    } else {
      assert Matches(LineOf(st), f) && f in net;
      if st.phase == RekeyIkeRequesting { FinishIkeMoves(cx, c, st, f); }
      else if st.phase == RekeyChildRequesting { FinishChildMoves(cx, c, st, f, fr); }
    }
  }

  lemma AnswerReplies(e: End, f: Frame, tx: seq<Frame>, n: End)
    requires IkeTalk.Answers(e, f, tx, n)
    ensures Replies(e, f, tx, n)
  {
  }

  lemma PeerChildActs(cx: Config, c: Crypto, st: State, net: set<Frame>, f: Frame, complete: bool, fr: Fresh)
    requires Inv(st) && f in net && !f.response && Opens(st.env, f) && Unseen(st, f.messageId) && HasSelectors(f.inner)
    ensures var o := ProcessPeerChildRekey(cx, c, st, f.messageId, f.inner, fr);
            Act(cx, c, EndOf(st), net, Receive(Protected(f, complete), fr), o.tx, EndOf(o.st))
  {
    hide RekeyTarget, ParsePeerChild, DecideCollision, AcceptPeerChild, HasSelectors, IkeTalk.Answers, HistoryInv, Trim;
    var o := ProcessPeerChildRekey(cx, c, st, f.messageId, f.inner, fr);
    PeerChildMoves(cx, c, st, f, fr);
    if IkeTalk.Answers(EndOf(st), f, o.tx, EndOf(o.st)) {
      AnswerReplies(EndOf(st), f, o.tx, EndOf(o.st));
    } else if o.tx != [] || EndOf(o.st) != EndOf(st) {
      var base := Abandon(st);
      AbandonKeeps(st);
      AcceptChildMoves(cx, c, base, f, RekeyTarget(f.inner).value, st.activeChild.value, ParsePeerChild(f.inner).value,
                       fr);
      if IkeTalk.Answers(EndOf(base), f, o.tx, EndOf(o.st)) { AnswerReplies(EndOf(base), f, o.tx, EndOf(o.st)); }
    }
  }

  lemma PeerIkeActs(cx: Config, cy: Config, c: Crypto, st: State, y: End, net: set<Frame>, f: Frame, complete: bool,
                    fr: Fresh)
    requires Inv(st) && Agreement(cx, cy, c, EndOf(st), y, net) && f in net && Ideal(c)
    requires IkeRequest(f) && Opens(st.env, f) && Unseen(st, f.messageId)
    ensures var o := ProcessPeerIkeRekey(cx, c, st, f.messageId, f.inner, fr);
            Act(cx, c, EndOf(st), net, Receive(Protected(f, complete), fr), o.tx, EndOf(o.st))
  {
    hide Agreement, DecideCollision, FirstNonce, AcceptPeerIke, IkeTalk.Answers, Accepts, Asks, HistoryInv,
         HasSelectors, Takable, Trim;
    var o := ProcessPeerIkeRekey(cx, c, st, f.messageId, f.inner, fr);
    var base := if st.rekey.Some? then Abandon(st) else st;
    if o == Refusal(st, f.messageId, 0, [], NOTIFY_TEMPORARY_FAILURE) {
      RespondMoves(st, f, CreateChildSa, [NotifyPayload(0, [], NOTIFY_TEMPORARY_FAILURE)], o);
      AnswerReplies(EndOf(st), f, o.tx, EndOf(o.st));
    } else if Takable(cx, f) {
      Awaited(cx, cy, c, EndOf(st), y, net, f);
      AcceptIkeMoves(cx, cy, c, st, base, y.line.ike.value, f, fr);
    } else {
      Untakable(cx, c, base, f, fr);
      if st.rekey.None? && o != Drop(st) {
        RespondMoves(st, f, CreateChildSa, [NotifyPayload(0, [], NOTIFY_NO_PROPOSAL_CHOSEN)], o);
        AnswerReplies(EndOf(st), f, o.tx, EndOf(o.st));
      }
    }
  }

  lemma RequestFrameActs(cx: Config, cy: Config, c: Crypto, st: State, y: End, net: set<Frame>, f: Frame,
                         complete: bool, fr: Fresh)
    requires Inv(st) && Agreement(cx, cy, c, EndOf(st), y, net) && Authentic(st, f, net) && !f.response && Ideal(c)
    ensures var o := ProcessRequest(cx, c, st, f, complete, fr);
            Act(cx, c, EndOf(st), net, Receive(Protected(f, complete), fr), o.tx, EndOf(o.st))
  {
    hide ProcessInformational, ProcessPeerChildRekey, ProcessPeerIkeRekey, HasSelectors, Agreement, IkeTalk.Answers,
         Idles, Inv, Stays, Replies;
    var o, ev := ProcessRequest(cx, c, st, f, complete, fr), Receive(Protected(f, complete), fr);
    CachedFinds(st.history, f.messageId);
    if !Opens(st.env, f) || !complete || !Unseen(st, f.messageId) || f.exchange == OtherExchange ||
      Cached(st.history, f.messageId).Some? {
      ReplayIdles(st, f.messageId);
      QuietActs(cx, cy, c, st, y, net, ev, o);
    } else if f.exchange == Informational {
      PoliteHere(cx, cy, c, EndOf(st), y, net, f);
      InformationalMoves(st, f);
      if Idles(EndOf(st), o.tx, EndOf(o.st)) { QuietActs(cx, cy, c, st, y, net, ev, o); }
      else { AnswerReplies(EndOf(st), f, o.tx, EndOf(o.st)); }
    } else if HasSelectors(f.inner) {
      PeerChildActs(cx, c, st, net, f, complete, fr);
    } else {
      PeerIkeActs(cx, cy, c, st, y, net, f, complete, fr);
    }
  }

  /** Every fair turn is one of these acts. */
  lemma TurnActs(cx: Config, cy: Config, c: Crypto, st: State, y: End, net: set<Frame>, ev: Event)
    requires Inv(st) && Agreement(cx, cy, c, EndOf(st), y, net) && Fair(st, ev, Step(cx, c, st, ev), net) && Ideal(c)
    ensures var o := Step(cx, c, st, ev); Act(cx, c, EndOf(st), net, ev, o.tx, EndOf(o.st))
  {
    hide Agreement, ProcessRequest, ProcessResponse, ProcessOldIke, Unused, Inv, EndOf, Idles, Act;
    if !ev.Receive? {
      TimerActs(cx, cy, c, st, y, net, ev);
    } else if ev.pkt.Protected? {
      var f := ev.pkt.frame;
      if st.oldIke != [] && f.spiI == st.oldIke[0].env.spiI && f.spiR == st.oldIke[0].env.spiR {
        OldPacketActs(cx, cy, c, st, y, net, ev, f, ev.pkt.complete);
      } else if f.response {
        ResponseActs(cx, cy, c, st, y, net, f, ev.pkt.complete, ev.fr);
      } else {
        RequestFrameActs(cx, cy, c, st, y, net, f, ev.pkt.complete, ev.fr);
      }
    } else {
      KeepIdles(st);
      QuietActs(cx, cy, c, st, y, net, ev, Step(cx, c, st, ev));
    }
  }

  // ---- Turns that start no rekey ----

  ghost predicate NoNewRekey(st: State, o: Outcome) {
    o.st.rekey == st.rekey || o.st.rekey.None?
  }

  lemma PeerChildStartsNone(cfg: Config, c: Crypto, st: State, f: Frame, fr: Fresh)
    ensures NoNewRekey(st, ProcessPeerChildRekey(cfg, c, st, f.messageId, f.inner, fr))
  {
    hide RekeyTarget, ParsePeerChild, DecideCollision, SelectPeerEsp, PeerChildKeys, Trim, PeerOutboundSpi;
  }

  lemma PeerIkeStartsNone(cfg: Config, c: Crypto, st: State, f: Frame, fr: Fresh)
    ensures NoNewRekey(st, ProcessPeerIkeRekey(cfg, c, st, f.messageId, f.inner, fr))
  {
    hide ParsePeerIke, DecideCollision, SelectPeerIke, RekeyedEnvelope, Trim, FirstNonce;
  }

  lemma RequestStartsNone(cfg: Config, c: Crypto, st: State, f: Frame, complete: bool, fr: Fresh)
    ensures NoNewRekey(st, ProcessRequest(cfg, c, st, f, complete, fr))
  {
    hide ProcessPeerChildRekey, ProcessPeerIkeRekey, HasSelectors, ReadNotice, Cached, Trim;
    PeerChildStartsNone(cfg, c, st, f, fr);
    PeerIkeStartsNone(cfg, c, st, f, fr);
  }

  lemma ResponseStartsNone(cfg: Config, c: Crypto, st: State, f: Frame, complete: bool, fr: Fresh)
    ensures NoNewRekey(st, ProcessResponse(cfg, c, st, f, complete, fr))
  {
    hide ParseChildResponse, ParseIkeResponse, ChildRekeyKeys, SharedSecret, RekeyedEnvelope;
  }

  lemma QuietStartsNone(cfg: Config, c: Crypto, st: State, ev: Event)
    requires Quiet(ev)
    ensures NoNewRekey(st, Step(cfg, c, st, ev))
  {
    hide ProcessRequest, ProcessResponse;
    if ev.Receive? && ev.pkt.Protected? {
      RequestStartsNone(cfg, c, st, ev.pkt.frame, ev.pkt.complete, ev.fr);
      ResponseStartsNone(cfg, c, st, ev.pkt.frame, ev.pkt.complete, ev.fr);
    }
  }
}
