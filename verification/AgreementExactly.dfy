/** Two ends agree over every fair run if and only if their configurations are compatible. */
module AgreementExactly {
  import opened Keying
  import opened Negotiation
  import opened Offers
  import opened IkeState
  import opened RunningSpec
  import opened TwoEnds
  import opened TwoChildren
  import opened Splits
  import opened ChildSplits

  /** The same run with the ends exchanged. */
  lemma {:induction false} Exchanged(cx: Config, cy: Config, c: Crypto, h: House, turns: seq<Turn>)
      returns (ms: seq<Turn>)
    requires FairLife(cy, cx, c, h, turns)
    ensures FairLife(cx, cy, c, Swapped(h), ms)
    ensures LiveAll(cx, cy, c, Swapped(h), ms) == Swapped(LiveAll(cy, cx, c, h, turns))
    decreases |turns|
  {
    hide Fair, Step;
    ms := [];
    if turns != [] {
      var t := turns[0];
      var m := Turn(!t.atX, t.ev);
      var n := Live(cy, cx, c, h, t);
      assert h.sx + h.sy == h.sy + h.sx;
      assert Live(cx, cy, c, Swapped(h), m) == Swapped(n);
      var rest := Exchanged(cx, cy, c, n, turns[1..]);
      LifeCons(cx, cy, c, Swapped(h), m, rest);
      ms := [m] + rest;
    }
  }

  lemma SymmetricWorlds(v: World)
    ensures Agreed(World(v.y, v.x, v.net)) <==> Agreed(v)
    ensures Served(World(v.y, v.x, v.net)) <==> Served(v)
  {
  }

  /** Configurations that are not compatible have a fair run, with at most two IKE rekeys, after
      which the ends do not agree. */
  lemma IncompatibleSplits(cx: Config, cy: Config) returns (x: State, y: State, turns: seq<Turn>)
    requires !Compatible(cx, cy)
    ensures Founded(x, y) && FairLife(cx, cy, Counting(), Start(x, y), turns)
    ensures !Agreed(LiveAll(cx, cy, Counting(), Start(x, y), turns).w)
  {
    hide Understands, CanOffer, SomeSuite, FairLife, LiveAll, Agreed, Counting, Established;
    Started();
    var serves := SomeSuite(cy.ike, cx.ike);
    if !Understands(cx, cy) || (Understands(cy, cx) && serves) {
      x, y := X, Y;
      if !Understands(cx, cy) { turns := MisreadIkeSplits(cx, cy); } else { turns := UnbalancedIkeSplits(cx, cy); }
    } else {
      x, y := Y, X;
      var run;
      if !Understands(cy, cx) { run := MisreadIkeSplits(cy, cx); } else { run := UnbalancedIkeSplits(cy, cx); }
      turns := Exchanged(cx, cy, Counting(), Start(X, Y), run);
      SymmetricWorlds(LiveAll(cy, cx, Counting(), Start(X, Y), run).w);
    }
  }

  /** Those whose child offers do not match have one after which the ends serve different children. */
  lemma UnmatchedSplits(cx: Config, cy: Config) returns (x: State, y: State, turns: seq<Turn>)
    requires !CompatibleChild(cx, cy)
    ensures Founded(x, y) && FairLife(cx, cy, Counting(), Start(x, y), turns)
    ensures !Served(LiveAll(cx, cy, Counting(), Start(x, y), turns).w)
  {
    hide UnderstandsChild, CanOfferChild, TakesChild, FairLife, LiveAll, Served, Counting, Established;
    Started();
    var serves := TakesChild(cy, cx);
    if !UnderstandsChild(cx, cy) || (UnderstandsChild(cy, cx) && serves) {
      x, y := X, Y;
      if !UnderstandsChild(cx, cy) {
        turns := MisreadChildSplits(cx, cy);
      } else {
        turns := UnbalancedChildSplits(cx, cy);
      }
    } else {
      x, y := Y, X;
      var run;
      if !UnderstandsChild(cy, cx) { run := MisreadChildSplits(cy, cx); } else { run := UnbalancedChildSplits(cy, cx); }
      turns := Exchanged(cx, cy, Counting(), Start(X, Y), run);
      SymmetricWorlds(LiveAll(cy, cx, Counting(), Start(X, Y), run).w);
    }
  }

  lemma {:induction false} LifeRuns(cx: Config, cy: Config, c: Crypto, h: House, turns: seq<Turn>)
    requires FairLife(cx, cy, c, h, turns)
    ensures FairRun(cx, cy, c, h.w, turns) && TakeAll(cx, cy, c, h.w, turns) == LiveAll(cx, cy, c, h, turns).w
    decreases |turns|
  {
    hide Fair, Step;
    if turns != [] { LifeRuns(cx, cy, c, Live(cx, cy, c, h, turns[0]), turns[1..]); }
  }

  /** The ends agree on the IKE SA after every fair run, with any ideal primitives, from any
      state the handshake can end in, if and only if their configurations are compatible. */
  lemma IkeAgreesExactly(cx: Config, cy: Config)
    ensures Compatible(cx, cy) <==>
            forall c: Crypto, x: State, y: State, turns: seq<Turn> ::
              Established(x, y) && Ideal(c) && FairRun(cx, cy, c, World(x, y, {}), turns) ==>
                Agreed(TakeAll(cx, cy, c, World(x, y, {}), turns))
  {
    hide Compatible, Established, FairRun, TakeAll, Agreed, Counting, FairLife, LiveAll;
    if Compatible(cx, cy) {
      forall c: Crypto, x: State, y: State, turns: seq<Turn> | Established(x, y) && Ideal(c) &&
        FairRun(cx, cy, c, World(x, y, {}), turns)
        ensures Agreed(TakeAll(cx, cy, c, World(x, y, {}), turns))
      {
        IkeSaAgrees(cx, cy, c, x, y, turns);
      }
    } else {
      var x, y, turns := IncompatibleSplits(cx, cy);
      CountingIdeal();
      LifeRuns(cx, cy, Counting(), Start(x, y), turns);
      assert FairRun(cx, cy, Counting(), World(x, y, {}), turns);
    }
  }

  /** The same for the IKE SA and its child together. */
  lemma EndsAgreeExactly(cx: Config, cy: Config)
    ensures Matched(cx, cy) <==>
            forall c: Crypto, x: State, y: State, turns: seq<Turn> ::
              Founded(x, y) && Ideal(c) && FairLife(cx, cy, c, Start(x, y), turns) ==>
                var v := LiveAll(cx, cy, c, Start(x, y), turns).w; Agreed(v) && Served(v)
  {
    hide Compatible, CompatibleChild, Established, FairLife, LiveAll, Agreed, Served, Counting;
    if Matched(cx, cy) {
      forall c: Crypto, x: State, y: State, turns: seq<Turn> | Founded(x, y) && Ideal(c) &&
        FairLife(cx, cy, c, Start(x, y), turns)
        ensures var v := LiveAll(cx, cy, c, Start(x, y), turns).w; Agreed(v) && Served(v)
      {
        ChildrenAgree(cx, cy, c, x, y, turns);
      }
    } else {
      CountingIdeal();
      var x, y, turns;
      if Compatible(cx, cy) {
        x, y, turns := UnmatchedSplits(cx, cy);
      } else {
        x, y, turns := IncompatibleSplits(cx, cy);
      }
      assert FairLife(cx, cy, Counting(), Start(x, y), turns);
    }
  }
}
