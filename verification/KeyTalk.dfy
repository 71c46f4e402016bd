/** The keys two ends have their children installed with: the same ones, whenever the children
    mirror each other. */
module KeyTalk {
  import opened Bytes
  import opened Suite
  import opened Keying
  import opened Negotiation
  import opened ChildNegotiation
  import opened Offers
  import opened IkeState
  import opened RekeyExchange
  import opened RunningSpec
  import opened RunningInvariant
  import opened IkeTalk
  import opened TwoEnds
  import opened Acts
  import opened ChildTalk
  import opened TwoChildren
  import ChildKeyAgreement

  /** What a child was installed with. */
  datatype Keyed = Keyed(sel: Selection, keys: ChildKeys)

  /** PRF and group may differ: the data plane uses neither. */
  ghost predicate SameKeys(a: Keyed, b: Keyed) {
    a.keys == b.keys && a.sel.encryption == b.sel.encryption && a.sel.integrity == b.sel.integrity
  }

  /** What the requester of a child rekey makes of an answer. */
  function KeysOf(cfg: Config, c: Crypto, env: Envelope, rc: RekeyContext, inner: seq<Payload>): Option<Keyed> {
    match ParseChildResponse(cfg, env.selected, inner)
    case None => None
    case Some(r) =>
      match ChildRekeyKeys(c, cfg.childPfs, env, rc, r)
      case None => None
      case Some(keys) => Some(Keyed(r.selection, keys))
  }

  predicate Installs(o: Outcome) {
    |o.updates| == 1 && o.updates[0].ChildInstalled?
  }

  /** What the active child is installed with after a step. */
  function Rekeyed(k: Keyed, o: Outcome): Keyed {
    if Installs(o) && o.updates[0].acked then Keyed(o.updates[0].selection, o.updates[0].keys) else k
  }

  // ---- Where installs come from ----

  ghost predicate ByAnswer(cfg: Config, c: Crypto, st: State, ev: Event, o: Outcome) {
    && ev.Receive? && ev.pkt.Protected? && ev.pkt.frame.response && st.phase == RekeyChildRequesting && st.rekey.Some?
    && Matches(LineOf(st), ev.pkt.frame) && o == FinishChildRekey(cfg, c, st, ev.pkt.frame.inner, ev.fr)
  }

  ghost predicate ByRequest(cfg: Config, c: Crypto, st: State, ev: Event, o: Outcome) {
    && ev.Receive? && ev.pkt.Protected? && ChildRequest(ev.pkt.frame) && Opens(st.env, ev.pkt.frame)
    && Unseen(st, ev.pkt.frame.messageId)
    && o == ProcessPeerChildRekey(cfg, c, st, ev.pkt.frame.messageId, ev.pkt.frame.inner, ev.fr)
  }

  lemma ResponseInstalls(cfg: Config, c: Crypto, st: State, f: Frame, complete: bool, fr: Fresh)
    requires Inv(st) && f.response && Installs(ProcessResponse(cfg, c, st, f, complete, fr))
    ensures ByAnswer(cfg, c, st, Receive(Protected(f, complete), fr), ProcessResponse(cfg, c, st, f, complete, fr))
  {
    hide FinishChildRekey, ParseIkeResponse, SharedSecret, RekeyedEnvelope, HistoryInv;
  }

  lemma RequestInstalls(cfg: Config, c: Crypto, st: State, f: Frame, complete: bool, fr: Fresh)
    requires Inv(st) && !f.response && Installs(ProcessRequest(cfg, c, st, f, complete, fr))
    ensures ByRequest(cfg, c, st, Receive(Protected(f, complete), fr), ProcessRequest(cfg, c, st, f, complete, fr))
  {
    hide ProcessPeerChildRekey, ParsePeerIke, SelectPeerIke, RekeyedEnvelope, DecideCollision, FirstNonce,
         HasSelectors, Trim, Cached, HistoryInv;
  }

  lemma StepInstalls(cfg: Config, c: Crypto, st: State, ev: Event)
    requires Inv(st) && Installs(Step(cfg, c, st, ev))
    ensures var o := Step(cfg, c, st, ev); ByAnswer(cfg, c, st, ev, o) || ByRequest(cfg, c, st, ev, o)
  {
    hide ProcessResponse, ProcessRequest, ByAnswer, ByRequest, Inv, ChildRekeyRequest, IkeRekeyRequest;
    if ev.Receive? && ev.pkt.Protected? {
      var f := ev.pkt.frame;
      if st.oldIke != [] && f.spiI == st.oldIke[0].env.spiI && f.spiR == st.oldIke[0].env.spiR {
      } else if f.response {
        ResponseInstalls(cfg, c, st, f, ev.pkt.complete, ev.fr);
      } else {
        RequestInstalls(cfg, c, st, f, ev.pkt.complete, ev.fr);
      }
    }
  }

  /** What is installed on an answer is what the answer tells. */
  lemma AnswerInstalls(cfg: Config, c: Crypto, st: State, f: Frame, fr: Fresh)
    requires Inv(st) && st.phase == RekeyChildRequesting && st.activeChild.Some?
    requires Installs(FinishChildRekey(cfg, c, st, f.inner, fr))
    ensures var o := FinishChildRekey(cfg, c, st, f.inner, fr);
            && KeysOf(cfg, c, st.env, st.rekey.value, f.inner) == Some(Keyed(o.updates[0].selection, o.updates[0].keys))
            && ChildResult(cfg, c, st.env, st.rekey.value, f.inner) == Some(o.updates[0].child)
            && o.updates[0].acked == fr.acked && (fr.acked ==> o.st.activeChild == Some(o.updates[0].child))
  {
    hide ParseChildResponse, ChildRekeyKeys, HistoryInv;
  }

  /** What is installed on a request is chosen from it. */
  lemma ChoiceInstalls(cfg: Config, c: Crypto, st: State, f: Frame, fr: Fresh)
    requires Inv(st) && st.activeChild.Some? && ChildRequest(f) && Opens(st.env, f) && Unseen(st, f.messageId)
    requires Installs(ProcessPeerChildRekey(cfg, c, st, f.messageId, f.inner, fr))
    ensures Acceptable(KidOf(st), f) && TakableChild(cfg, f)
    ensures var req := ParsePeerChild(f.inner).value;
            var choice := SelectPeerEsp(cfg, req.sa, fr.childSpi, req.ke.Some?);
            var u := ProcessPeerChildRekey(cfg, c, st, f.messageId, f.inner, fr).updates[0];
            && choice.Some? && u.selection == choice.value.selection
            && PeerChildKeys(c, st.env, req, fr, choice.value.selection) == Some(u.keys)
            && u.acked == fr.acked
  {
    hide ParsePeerChild, RekeyTarget, DecideCollision, SelectPeerEsp, PeerChildKeys, HasSelectors, Trim, HistoryInv;
    if ParsePeerChild(f.inner).Some? {
      var req := ParsePeerChild(f.inner).value;
      AnyChildSpi(cfg, req.sa, fr.childSpi, 0, req.ke.Some?);
    }
  }

  // ---- The invariant ----

  /** Every answer on the way to an end that awaits one tells what `k` says. */
  ghost predicate Tells(cfg: Config, c: Crypto, st: State, k: Keyed, net: set<Frame>)
    requires st.rekey.Some?
  {
    forall f :: f in net && Matches(LineOf(st), f) ==>
      && KeysOf(cfg, c, st.env, st.rekey.value, f.inner).Some?
      && SameKeys(KeysOf(cfg, c, st.env, st.rekey.value, f.inner).value, k)
  }

  ghost predicate Keys(cx: Config, cy: Config, c: Crypto, h: House, kx: Keyed, ky: Keyed)
    requires h.w.x.activeChild.Some? && h.w.y.activeChild.Some?
  {
    && (Paired(h.w.x.activeChild.value, h.w.y.activeChild.value) ==> SameKeys(kx, ky))
    && (ChildAhead(KidOf(h.w.y), KidOf(h.w.x)) ==> h.w.x.rekey.Some? && Tells(cx, c, h.w.x, ky, h.w.net))
    && (ChildAhead(KidOf(h.w.x), KidOf(h.w.y)) ==> h.w.y.rekey.Some? && Tells(cy, c, h.w.y, kx, h.w.net))
  }

  /** The three ways two children can stand to each other exclude one another. */
  lemma Exclusive(x: Kid, y: Kid)
    ensures !(Paired(x.active, y.active) && ChildAhead(x, y)) && !(ChildAhead(x, y) && ChildAhead(y, x))
  {
  }

  /** An end never sends what it would take for an answer itself, and answers only what is new. */
  lemma SendsNoAnswers(cfg: Config, c: Crypto, e: End, net: set<Frame>, ev: Event, tx: seq<Frame>, n: End, t: Frame)
    requires Act(cfg, c, e, net, ev, tx, n) && OutboundHalves(e.line.env) != InboundHalves(e.line.env) && t in tx
    requires t !in net && t.response
    ensures !Opens(e.line.env, t)
    ensures t.sealedWith == OutboundHalves(e.line.env) ==> New(e.line, t.messageId)
  {
    hide RekeyResult, Takable, DecideCollision, FirstNonce, Asks, SelectPeerIke, ParsePeerIke, RekeyedEnvelope, Trim,
         HasSelectors;
  }

  // ---- A turn that installs nothing ----

  /** A rekey is only started when none is outstanding, with the SPI drawn for it. */
  lemma StartedSpi(cfg: Config, c: Crypto, st: State, ev: Event)
    ensures var o := Step(cfg, c, st, ev);
            o.st.rekey == st.rekey || o.st.rekey.None?
            || (st.rekey.None? &&
                (o.st.rekey.value.kind == RekeyChild ==> DrawnSpi(ev) == {o.st.rekey.value.newInboundSpi}))
  {
    hide ProcessPacket, ChildRekeyRequest, IkeRekeyRequest;
    if Quiet(ev) { QuietStartsNone(cfg, c, st, ev); }
  }

  lemma Parts(cx: Config, cy: Config, c: Crypto, h: House)
    requires Home(cx, cy, c, h)
    ensures h.w.x.activeChild.Some? && h.w.y.activeChild.Some?
    ensures Inv(h.w.x) && Inv(h.w.y) && Owns(KidOf(h.w.x), h.sx, h.sy) && Owns(KidOf(h.w.y), h.sy, h.sx)
    ensures OutboundHalves(h.w.x.env) != InboundHalves(h.w.x.env) && Heard(LineOf(h.w.x), h.w.net)
    ensures Decided(cx, c, KidOf(h.w.x), KidOf(h.w.y), h.w.net)
    ensures Paired(h.w.x.activeChild.value, h.w.y.activeChild.value)
            || ChildAhead(KidOf(h.w.x), KidOf(h.w.y)) || ChildAhead(KidOf(h.w.y), KidOf(h.w.x))
  {
    hide Inv, Numbers, Asked, Polite, Settled, Unsettled, Offering, Kept, Awaits, Spared, Undecided, OffersKids,
         Registered, TakesChild, ChildResult;
  }

  /** `y` is ahead, and `x` still waits for its answer. */
  lemma StillTold(cx: Config, cy: Config, c: Crypto, h: House, ky: Keyed, ev: Event, o: Outcome)
    requires Home(cx, cy, c, h) && ChildAhead(KidOf(h.w.y), KidOf(h.w.x)) && h.w.x.rekey.Some?
    requires Tells(cx, c, h.w.x, ky, h.w.net)
    requires Act(cx, c, EndOf(h.w.x), h.w.net, ev, o.tx, EndOf(o.st)) && Inv(o.st)
    requires o.st.rekey == h.w.x.rekey && o.st.env == h.w.x.env
    ensures Tells(cx, c, o.st, ky, Grow(h.w.net, o.tx))
  {
    hide Home, Act, KeysOf, ChildAhead, HistoryInv;
    Parts(cx, cy, c, h);
    forall f | f in Grow(h.w.net, o.tx) && Matches(LineOf(o.st), f) ensures f in h.w.net && Matches(LineOf(h.w.x), f) {
      if f !in h.w.net { SendsNoAnswers(cx, c, EndOf(h.w.x), h.w.net, ev, o.tx, EndOf(o.st), f); }
    }
  }

  /** `x` is ahead, and has nothing more to say to the request it accepted. */
  lemma StillTelling(cx: Config, cy: Config, c: Crypto, h: House, kx: Keyed, ev: Event, o: Outcome)
    requires Home(cx, cy, c, h) && ChildAhead(KidOf(h.w.x), KidOf(h.w.y)) && h.w.y.rekey.Some?
    requires Tells(cy, c, h.w.y, kx, h.w.net)
    requires Act(cx, c, EndOf(h.w.x), h.w.net, ev, o.tx, EndOf(o.st))
    ensures Tells(cy, c, h.w.y, kx, Grow(h.w.net, o.tx))
  {
    hide Home, Act, KeysOf;
    Parts(cx, cy, c, h);
    FlipTwice(h.w.x.env, h.w.y.env);
    forall f | f in Grow(h.w.net, o.tx) && Matches(LineOf(h.w.y), f) ensures f in h.w.net {
      if f !in h.w.net { SendsNoAnswers(cx, c, EndOf(h.w.x), h.w.net, ev, o.tx, EndOf(o.st), f); }
    }
  }

  lemma RestKeeps(cx: Config, cy: Config, c: Crypto, h: House, kx: Keyed, ky: Keyed, ev: Event)
    requires Home(cx, cy, c, h) && Keys(cx, cy, c, h, kx, ky) && FreshTurn(ev, h.sx, h.sy)
    requires var o := Step(cx, c, h.w.x, ev);
             && Home(cx, cy, c, Live(cx, cy, c, h, Turn(true, ev))) && o.st.activeChild == h.w.x.activeChild
             && Act(cx, c, EndOf(h.w.x), h.w.net, ev, o.tx, EndOf(o.st))
    ensures Keys(cx, cy, c, Live(cx, cy, c, h, Turn(true, ev)), kx, ky)
  {
    hide Home, Act, Step, Inv, Tells, SameKeys, New;
    var n, o := Live(cx, cy, c, h, Turn(true, ev)), Step(cx, c, h.w.x, ev);
    Parts(cx, cy, c, h);
    Parts(cx, cy, c, n);
    Exclusive(KidOf(h.w.x), KidOf(h.w.y));
    Exclusive(KidOf(h.w.y), KidOf(h.w.x));
    Exclusive(KidOf(n.w.x), KidOf(n.w.y));
    Exclusive(KidOf(n.w.y), KidOf(n.w.x));
    StartedSpi(cx, c, h.w.x, ev);
    FlipTwice(h.w.x.env, h.w.y.env);
    FlipTwice(n.w.x.env, n.w.y.env);
    if ChildAhead(KidOf(n.w.y), KidOf(n.w.x)) {
      assert o.st.rekey == h.w.x.rekey;
      StillTold(cx, cy, c, h, ky, ev, o);
    } else if ChildAhead(KidOf(n.w.x), KidOf(n.w.y)) {
      StillTelling(cx, cy, c, h, kx, ev, o);
    }
  }

  // ---- A turn that installs a child ----

  /** Only the end that is behind installs on an answer. */
  lemma BehindInstalls(cx: Config, cy: Config, c: Crypto, h: House, ev: Event, o: Outcome)
    requires Home(cx, cy, c, h) && ByAnswer(cx, c, h.w.x, ev, o) && Installs(o) && ev.fr.acked
    requires ev.pkt.frame in h.w.net
    ensures ChildAhead(KidOf(h.w.y), KidOf(h.w.x)) && o.st.activeChild == Some(o.updates[0].child)
    ensures Paired(o.updates[0].child, h.w.y.activeChild.value)
    ensures o.updates[0].acked
    ensures KeysOf(cx, c, h.w.x.env, h.w.x.rekey.value, ev.pkt.frame.inner) ==
      Some(Keyed(o.updates[0].selection, o.updates[0].keys))
  {
    hide Home, FinishChildRekey, ChildResult, KeysOf, HistoryInv, OldInv, WaitInv, New;
    Parts(cx, cy, c, h);
    AnswerInstalls(cx, c, h.w.x, ev.pkt.frame, ev.fr);
    Exclusive(KidOf(h.w.x), KidOf(h.w.y));
  }

  lemma AnswerKeys(cx: Config, cy: Config, c: Crypto, h: House, kx: Keyed, ky: Keyed, ev: Event, o: Outcome)
    requires Home(cx, cy, c, h) && Keys(cx, cy, c, h, kx, ky) && ByAnswer(cx, c, h.w.x, ev, o) && Installs(o)
    requires ev.fr.acked
    requires ev.pkt.frame in h.w.net && o == Step(cx, c, h.w.x, ev)
    ensures o.st.activeChild.Some? && Keys(cx, cy, c, Live(cx, cy, c, h, Turn(true, ev)), Rekeyed(kx, o), ky)
  {
    hide Home, FinishChildRekey, KeysOf, Inv, Step, New;
    Parts(cx, cy, c, h);
    BehindInstalls(cx, cy, c, h, ev, o);
    var n := Live(cx, cy, c, h, Turn(true, ev));
    Exclusive(KidOf(n.w.x), KidOf(n.w.y));
    Exclusive(KidOf(n.w.y), KidOf(n.w.x));
  }

  /** The requester reads from the answer exactly the keys of the responder, if the responder
      used the PRF of the IKE SA. */
  lemma AnswerTells(cx: Config, cy: Config, c: Crypto, h: House, f: Frame, fr: Fresh, o: Outcome)
    requires Home(cx, cy, c, h) && Ideal(c) && UnderstandsChild(cy, cx) && f in h.w.net && ChildRequest(f)
    requires Opens(h.w.x.env, f)
    requires Unseen(h.w.x, f.messageId) && o == ProcessPeerChildRekey(cx, c, h.w.x, f.messageId, f.inner, fr)
    requires Installs(o)
    requires fr.acked && |fr.nonce| == 32 && fr.childSpi !in h.sx + h.sy
    requires o.updates[0].selection.prf == h.w.x.env.selected.prf
    ensures h.w.y.rekey.Some? && |o.tx| == 1 && o.updates[0].acked && LineOf(h.w.y).awaited == Some(f)
    ensures InStep(EndOf(h.w.x), EndOf(h.w.y))
    ensures o.st.activeChild.Some? && ChildAhead(KidOf(o.st), KidOf(h.w.y))
    ensures Paired(h.w.x.activeChild.value, h.w.y.activeChild.value)
    ensures var k := KeysOf(cy, c, h.w.y.env, h.w.y.rekey.value, o.tx[0].inner);
            k.Some? && SameKeys(k.value, Keyed(o.updates[0].selection, o.updates[0].keys))
  {
    hide Agreement, Kinship, ProcessPeerChildRekey, SelectPeerEsp, PeerChildKeys, ParsePeerChild, RekeyTarget,
         DecideCollision, HasSelectors, Acceptable, TakableChild, AsksChild, UnderstandsChild, RequestParts, KeOf,
         ParseChildResponse, ChildRekeyKeys, Inv, IkeTalk.Answers, PeerOutboundSpi, Yielded, ChildOfferSA, DeletedSpi,
         KnownChild, DecodeChild, ChildAhead;
    var st, y := h.w.x, KidOf(h.w.y);
    ChoiceInstalls(cx, c, st, f, fr);
    AcceptFinds(cx, cy, c, KidOf(st), y, h.w.net, h.sx, h.sy, f);
    ParsedThen(KidOf(st), f);
    var req := ParsePeerChild(f.inner).value;
    var choice := SelectPeerEsp(cx, req.sa, fr.childSpi, req.ke.Some?).value;
    AcceptChildOutcome(cx, c, st, f, fr, req);
    AcceptChildKeeps(cx, cy, c, KidOf(st), y, h.w.net, h.sx, h.sy, f, fr, o.tx[0], KidOf(o.st));
    FlipTwice(st.env, h.w.y.env);
    KidEnds(st);
    KidEnds(h.w.y);
    ChildKeyAgreement.ChildKeysAgree(cx, cy, c, st.env, y.active, y.rc.value, f, fr, req, choice);
    SameAlgorithms(cx, cy, c, st.env, y.active, y.rc.value, f, fr, req, choice);
  }

  lemma SameAlgorithms(cx: Config, cy: Config, c: Crypto, env: Envelope, active: ChildSA, rc: RekeyContext, q: Frame,
                       fr: Fresh,
                       req: PeerChildRequest, choice: EspChoice)
    requires Ideal(c) && UnderstandsChild(cy, cx) && AsksChild(cy, c, active, rc, q)
    requires ParsePeerChild(q.inner) == Some(req) && fr.nonce != []
    requires SelectPeerEsp(cx, req.sa, fr.childSpi, req.ke.Some?) == Some(choice)
    ensures var answer := RequestParts(choice.echo, fr.nonce, KeOf(c, req.ke.Some?, fr.dh), req.tsi, req.tsr);
            var r := ParseChildResponse(cy, env.selected, answer);
            r.Some? ==> && r.value.selection.encryption == choice.selection.encryption
                        && r.value.selection.integrity == choice.selection.integrity
  {
    hide ChildOfferSA, SelectPeerEsp, DecodeChild, ChildRekeyRequest, PeerOutboundSpi, TakeParts, ParsePeerChild,
         RekeyTarget, HasSelectors, DeletedSpi, UnderstandsChild, KnownChild;
    AsksChildRead(cy, c, active, rc, q);
    ChildEchoUnderstood(cy, cx, env.selected, rc.newInboundSpi, fr.childSpi, ChildOfferSA(cy, rc.newInboundSpi).value,
                        choice);
    TakesAll(CHILD_RESPONSE, choice.echo, fr.nonce, c, cy.childPfs, fr.dh, active.tsi, active.tsr);
  }

  /** Nothing answers a request that is still new. */
  lemma Unanswered(cx: Config, cy: Config, c: Crypto, h: House, q: Frame, f: Frame)
    requires Home(cx, cy, c, h) && LineOf(h.w.y).awaited == Some(q) && InStep(EndOf(h.w.x), EndOf(h.w.y))
    requires Unseen(h.w.x, q.messageId)
    requires f in h.w.net
    ensures !Matches(LineOf(h.w.y), f)
  {
    hide Home, Inv;
    Parts(cx, cy, c, h);
    FlipTwice(h.w.x.env, h.w.y.env);
  }

  lemma RequestKeys(cx: Config, cy: Config, c: Crypto, h: House, kx: Keyed, ky: Keyed, ev: Event, o: Outcome)
    requires Home(cx, cy, c, h) && Keys(cx, cy, c, h, kx, ky) && Ideal(c) && UnderstandsChild(cy, cx)
    requires ByRequest(cx, c, h.w.x, ev, o) && Installs(o)
    requires ev.fr.acked && |ev.fr.nonce| == 32 && ev.fr.childSpi !in h.sx + h.sy
    requires o.updates[0].selection.prf == h.w.x.env.selected.prf
    requires ev.pkt.frame in h.w.net && o == Step(cx, c, h.w.x, ev)
    ensures o.st.activeChild.Some? && Keys(cx, cy, c, Live(cx, cy, c, h, Turn(true, ev)), Rekeyed(kx, o), ky)
  {
    hide Home, KeysOf, Inv, Step, UnderstandsChild, ProcessPeerChildRekey, SameKeys, ChildAhead, Paired;
    var n := Live(cx, cy, c, h, Turn(true, ev));
    Parts(cx, cy, c, h);
    AnswerTells(cx, cy, c, h, ev.pkt.frame, ev.fr, o);
    Exclusive(KidOf(n.w.x), KidOf(n.w.y));
    Exclusive(KidOf(n.w.y), KidOf(n.w.x));
    forall f | f in n.w.net && Matches(LineOf(h.w.y), f) ensures f == o.tx[0] {
      if f in h.w.net { Unanswered(cx, cy, c, h, ev.pkt.frame, f); }
    }
  }

  // ---- Any turn ----

  /** A child is only ever installed with the PRF of the IKE SA. */
  ghost predicate SamePrf(st: State, o: Outcome) {
    Installs(o) ==> o.updates[0].selection.prf == st.env.selected.prf
  }

  /** What a turn leaves installed. */
  lemma TurnKeys(cx: Config, cy: Config, c: Crypto, h: House, kx: Keyed, ky: Keyed, ev: Event)
    requires Home(cx, cy, c, h) && Matched(cx, cy) && Ideal(c) && FairTurn(cx, cy, c, h, Turn(true, ev))
    requires Keys(cx, cy, c, h, kx, ky)
    requires SamePrf(h.w.x, Step(cx, c, h.w.x, ev))
    requires !Installs(Step(cx, c, h.w.x, ev)) ==> Step(cx, c, h.w.x, ev).st.activeChild == h.w.x.activeChild
    ensures var n := Live(cx, cy, c, h, Turn(true, ev));
            Home(cx, cy, c, n) && Keys(cx, cy, c, n, Rekeyed(kx, Step(cx, c, h.w.x, ev)), ky)
  {
    hide Agreement, Kinship, Step, Keys, Act, EndOf, Compatible, UnderstandsChild, BalancedChild, ByAnswer, ByRequest,
         Inv;
    var o := Step(cx, c, h.w.x, ev);
    Lives(cx, cy, c, h, Turn(true, ev));
    TurnActs(cx, cy, c, h.w.x, EndOf(h.w.y), h.w.net, ev);
    if Installs(o) {
      StepInstalls(cx, c, h.w.x, ev);
      InstallHeard(cx, c, h, ev, o);
      assert ev.fr.childSpi in DrawnSpi(ev);
      if ByAnswer(cx, c, h.w.x, ev,
                  o) { AnswerKeys(cx, cy, c, h, kx, ky, ev, o); } else { RequestKeys(cx, cy, c, h, kx, ky, ev, o); }
    } else {
      RestKeeps(cx, cy, c, h, kx, ky, ev);
    }
  }

  lemma InstallHeard(cx: Config, c: Crypto, h: House, ev: Event, o: Outcome)
    requires Fair(h.w.x, ev, o, h.w.net) && (ByAnswer(cx, c, h.w.x, ev, o) || ByRequest(cx, c, h.w.x, ev, o))
    ensures ev.Receive? && ev.pkt.Protected? && ev.pkt.frame in h.w.net && |ev.fr.nonce| == 32
  {
    hide FinishChildRekey, ProcessPeerChildRekey, Unused;
  }
}
