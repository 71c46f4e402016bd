/** Two ends that take none of each other's offers: whatever they ask for, nothing changes. */
module Unserved {
  import opened Keying
  import opened Negotiation
  import opened Offers
  import opened IkeState
  import opened RekeyExchange
  import opened RunningSpec
  import opened RunningInvariant
  import opened ChildEffects
  import opened IkeTalk
  import opened TwoEnds
  import opened Acts
  import opened ChildTalk
  import opened TwoChildren
  import opened KeyTalk

  // ---- IKE SAs ----

  predicate NeitherTakes(cx: Config, cy: Config) {
    !SomeSuite(cx.ike, cy.ike) && !SomeSuite(cy.ike, cx.ike)
  }

  lemma NotAccepted(cx: Config, cy: Config, c: Crypto, x: End, y: End, net: set<Frame>, f: Frame, fr: Fresh,
                    tx: seq<Frame>, n: End)
    requires Agreement(cx, cy, c, x, y, net) && InStep(x, y) && Ideal(c) && !SomeSuite(cx.ike, cy.ike) && f in net
    ensures !Accepts(cx, c, x, f, fr, tx, n)
  {
    hide SomeSuite, Asks, RekeyResult, CanOffer, DecideCollision, FirstNonce, SelectPeerIke, ParsePeerIke,
         RekeyedEnvelope;
    FlipTwice(x.line.env, y.line.env);
    if Accepts(cx, c, x, f, fr, tx, n) {
      OfferTakable(cx, cy, c, f);
      AnySpi(cx, ParsePeerIke(f.inner).value.sa, fr.ikeSpi, 0);
    }
  }

  lemma NotFinished(cx: Config, cy: Config, c: Crypto, x: End, y: End, net: set<Frame>, f: Frame, tx: seq<Frame>,
                    n: End)
    requires Agreement(cx, cy, c, x, y, net) && InStep(x, y) && f in net
    ensures !Finishes(cx, c, x, f, tx, n)
  {
    hide Good, Finishes, InStep;
    if Finishes(cx, c, x, f, tx, n) {
      FinishFollows(cx, cy, c, x, y, net, f, tx, n);
      AheadApart(cy, c, y, x, net);
    }
  }

  lemma TurnStays(cx: Config, cy: Config, c: Crypto, st: State, y: State, net: set<Frame>, ev: Event)
    requires Agree(cx, cy, c, st, y, net) && InStep(EndOf(st), EndOf(y)) && Ideal(c) && !SomeSuite(cx.ike, cy.ike)
    requires Fair(st, ev, Step(cx, c, st, ev), net)
    ensures Step(cx, c, st, ev).st.env == st.env
  {
    hide Good, Step, Inv, Fair, SomeSuite, Takable, Asks, RekeyResult, Accepts, Finishes, InStep, CanOffer;
    var o := Step(cx, c, st, ev);
    TurnActs(cx, cy, c, st, EndOf(y), net, ev);
    if ev.Receive? && ev.pkt.Protected? && ev.pkt.frame in net {
      NotAccepted(cx, cy, c, EndOf(st), EndOf(y), net, ev.pkt.frame, ev.fr, o.tx, EndOf(o.st));
      NotFinished(cx, cy, c, EndOf(st), EndOf(y), net, ev.pkt.frame, o.tx, EndOf(o.st));
    }
  }

  lemma AheadApart(cfg: Config, c: Crypto, x: End, y: End, net: set<Frame>)
    requires Good(cfg, c, x, y, net) && Ahead(x, y, net)
    ensures !InStep(y, x) && !InStep(x, y)
  {
    hide Proper, Numbers, Asked, Heard, Polite, Settled, Unsettled, Offering, Kept;
    FlipTwice(x.line.env, y.line.env);
  }

  /** Over every fair run of two ends that take none of each other's IKE offers, both keep the SA
      they start with. */
  lemma {:induction false} SaStays(cx: Config, cy: Config, c: Crypto, w: World, turns: seq<Turn>)
    requires Agree(cx, cy, c, w.x, w.y, w.net) && InStep(EndOf(w.x), EndOf(w.y)) && Compatible(cx, cy) && Ideal(c)
    requires NeitherTakes(cx, cy) && FairRun(cx, cy, c, w, turns)
    ensures var v := TakeAll(cx, cy, c, w, turns); v.x.env == w.x.env && v.y.env == w.y.env
    decreases |turns|
  {
    hide Agree, Compatible, Fair, Step, SomeSuite;
    if turns != [] {
      var n := Take(cx, cy, c, w, turns[0]);
      assert TakeAll(cx, cy, c, w, [turns[0]]) == n by { assert [turns[0]][1..] == []; }
      RunAgrees(cx, cy, c, w, [turns[0]]);
      FlipTwice(w.x.env, w.y.env);
      if turns[0].atX {
        TurnStays(cx, cy, c, w.x, w.y, w.net, turns[0].ev);
      } else {
        AgreeSymmetric(cx, cy, c, w.x, w.y, w.net);
        TurnStays(cy, cx, c, w.y, w.x, w.net, turns[0].ev);
      }
      SaStays(cx, cy, c, n, turns[1..]);
    }
  }

  // ---- Children ----

  predicate NeitherTakesChild(cx: Config, cy: Config) {
    !TakesChild(cx, cy) && !TakesChild(cy, cx)
  }

  lemma AlwaysPaired(cx: Config, cy: Config, c: Crypto, h: House)
    requires Home(cx, cy, c, h) && NeitherTakesChild(cx, cy)
    ensures Paired(h.w.x.activeChild.value, h.w.y.activeChild.value)
  {
    hide Agree, Sound, TakesChild, ChildAhead, Paired;
  }

  lemma NothingInstalled(cx: Config, cy: Config, c: Crypto, h: House, ev: Event)
    requires Home(cx, cy, c, h) && Matched(cx, cy) && Ideal(c) && FairTurn(cx, cy, c, h, Turn(true, ev))
    requires NeitherTakesChild(cx, cy)
    ensures !Installs(Step(cx, c, h.w.x, ev))
  {
    hide Home, Step, Inv, ByAnswer, ByRequest, TakesChild, Matched, KeysOf;
    var o := Step(cx, c, h.w.x, ev);
    KeyTalk.Parts(cx, cy, c, h);
    if Installs(o) {
      StepInstalls(cx, c, h.w.x, ev);
      InstallHeard(cx, c, h, ev, o);
      if ByAnswer(cx, c, h.w.x, ev, o) {
        AlwaysPaired(cx, cy, c, h);
        BehindInstalls(cx, cy, c, h, ev, o);
      } else {
        RequestTaken(cx, cy, c, h, ev, o);
      }
    }
  }

  lemma RequestTaken(cx: Config, cy: Config, c: Crypto, h: House, ev: Event, o: Outcome)
    requires Home(cx, cy, c, h) && Ideal(c) && ByRequest(cx, c, h.w.x, ev, o) && Installs(o) && ev.pkt.frame in h.w.net
    ensures TakesChild(cx, cy)
  {
    hide Agreement, Kinship, Inv, ProcessPeerChildRekey, Acceptable,
         TakableChild, TakesChild, CanOfferChild, AsksChild;
    ChoiceInstalls(cx, c, h.w.x, ev.pkt.frame, ev.fr);
    AcceptFinds(cx, cy, c, KidOf(h.w.x), KidOf(h.w.y), h.w.net, h.sx, h.sy, ev.pkt.frame);
    ParsedThen(KidOf(h.w.x), ev.pkt.frame);
    assert IsChildOffer(cy, c, ev.pkt.frame);
    ChildOfferTakable(cx, cy, c, ev.pkt.frame);
  }

  lemma ChildStaysHere(cx: Config, cy: Config, c: Crypto, h: House, ev: Event)
    requires Home(cx, cy, c, h) && Matched(cx, cy) && Ideal(c) && FairTurn(cx, cy, c, h, Turn(true, ev))
    requires NeitherTakesChild(cx, cy)
    ensures Step(cx, c, h.w.x, ev).st.activeChild == h.w.x.activeChild
  {
    hide Home, Step, Inv, Matched, NeitherTakesChild, FairTurn;
    NothingInstalled(cx, cy, c, h, ev);
    Lives(cx, cy, c, h, Turn(true, ev));
    KeyTalk.Parts(cx, cy, c, h);
    KeyTalk.Parts(cx, cy, c, Live(cx, cy, c, h, Turn(true, ev)));
    StepEffect(cx, c, h.w.x, ev);
  }

  /** Over every fair run of two ends that take none of each other's child offers, both serve the
      child they start with. */
  lemma {:induction false} ChildStays(cx: Config, cy: Config, c: Crypto, h: House, turns: seq<Turn>)
    requires Home(cx, cy, c, h) && Matched(cx, cy) && Ideal(c) && NeitherTakesChild(cx, cy)
    requires FairLife(cx, cy, c, h, turns)
    ensures var v := LiveAll(cx, cy, c, h, turns).w;
            v.x.activeChild == h.w.x.activeChild && v.y.activeChild == h.w.y.activeChild
    decreases |turns|
  {
    hide Home, Matched, Fair, Step, TakesChild;
    if turns != [] {
      var t := turns[0];
      Lives(cx, cy, c, h, t);
      if t.atX {
        ChildStaysHere(cx, cy, c, h, t.ev);
      } else {
        HomeSymmetric(cx, cy, c, h);
        MatchedSymmetric(cx, cy);
        assert h.sx + h.sy == h.sy + h.sx;
        ChildStaysHere(cy, cx, c, Swapped(h), t.ev);
      }
      ChildStays(cx, cy, c, Live(cx, cy, c, h, t), turns[1..]);
    }
  }
}
