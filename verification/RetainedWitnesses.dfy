/** Runs in which the retained SA does not keep what a current SA keeps. */
module RetainedWitnesses {
  import opened Bytes
  import opened Suite
  import opened Negotiation
  import opened Offers
  import opened IkeState
  import opened RunningSpec
  import opened RunningInvariant
  import opened RunningRuns
  import opened IkeTalk
  import opened Splits
  import opened Witnesses

  // ---- The peer's requests ----

  /** A liveness check with id `k`, and its answer. */
  function Ping(k: u32): Event {
    Receive(Protected(Seal(SA, Informational, k, false, []), true), Draw(9))
  }

  function Pong(k: u32): CachedResponse {
    CachedResponse(k, [Seal(Flip(SA), Informational, k, true, [])])
  }

  /** An IKE rekey request with id `k`. */
  function Rekey(k: u32): Frame {
    Seal(SA, CreateChildSa, k, false,
         if IkeOffer(TWO_PRFS, 1).Some?
         then [SaPayload(IkeOffer(TWO_PRFS, 1).value), NoncePayload(Draw(1).nonce),
               KePayload(CURVE25519, Counting().publicKey(1))] else [])
  }

  const ASKED := RekeyContext(RekeyIke, 0, Draw(1).nonce, Some(1), None, 0, 1)

  lemma RekeyTaken(k: u32)
    ensures Asks(TWO_PRFS, Counting(), ASKED, Rekey(k)) && IkeRequest(Rekey(k)) && Takable(TWO_PRFS, Rekey(k))
  {
    hide IkeOffer, Takable, Counting, SelectPeerIke, CanOffer, SomeSuite;
    TwoPrfsOffer(1, 0);
    TwoPrfsUsable();
    Twins.TwinsServe(TWO_PRFS);
    CountingIdeal();
    assert IsOffer(TWO_PRFS, Counting(), Rekey(k)) by { assert Asks(TWO_PRFS, Counting(), ASKED, Rekey(k)); }
    OfferTakable(TWO_PRFS, TWO_PRFS, Counting(), Rekey(k));
  }

  // ---- An answer that is never repeated ----

  /** The peer's first request, with id 0, is an IKE rekey. It is accepted; the answer is lost; the copy
      gets nothing. */
  lemma FirstRekeyNotRepeated()
    ensures HandedOver(Y)
    ensures var ev := Receive(Protected(Rekey(0), true), Draw(5));
            var o := Step(TWO_PRFS, Counting(), Y, ev);
            && o.st.oldIke != [] && |o.answered| == 1 && o.tx == o.answered[0].packets && o.answered[0].messageId == 0
            && Step(TWO_PRFS, Counting(), o.st, ev) == Drop(o.st)
  {
    hide IkeOffer, Takable, Asks, IkeRequest, SelectPeerIke, AcceptPeerIke, Counting;
    RekeyTaken(0);
    var choice, t := AcceptsIke(TWO_PRFS, TWO_PRFS, Y, ASKED, Rekey(0), Draw(5));
  }

  // ---- A request that is executed twice ----

  function Pongs(from: nat, to: nat): (r: seq<CachedResponse>)
    requires from <= to <= 100
    ensures |r| == to - from
  {
    seq(to - from, i requires 0 <= i < to - from => Pong(from + i))
  }

  function Remembered(n: nat): seq<CachedResponse>
    requires n <= 100
  {
    Pongs(if n > 4 then n - 4 else 0, n)
  }

  function Pings(n: nat): (r: seq<Event>)
    requires n <= 100
    ensures |r| == n
  {
    seq(n, i requires 0 <= i < n => Ping(i))
  }

  /** A ping with a new id is answered and remembered. */
  lemma Ponged(st: State, k: u32)
    requires st.env == Flip(SA) && st.oldIke == [] && Unseen(st, k) && Cached(st.history, k).None?
    ensures Step(TWO_PRFS, Counting(), st, Ping(k)) == Respond(st, Informational, k, [])
    ensures Respond(st, Informational, k, []).answered == [Pong(k)]
    ensures Respond(st, Informational, k, []).st == st.(history := Trim(st.history + [Pong(k)]))
  {
    hide Counting, Draw;
  }

  lemma RememberedNext(n: nat)
    requires n < 100
    ensures Trim(Remembered(n) + [Pong(n)]) == Remembered(n + 1)
  {
    var from := if n > 4 then n - 4 else 0;
    assert Remembered(n) + [Pong(n)] == Pongs(from, n + 1);
    if n >= 4 { assert Pongs(from, n + 1)[1..] == Pongs(from + 1, n + 1); }
  }

  lemma {:induction false} NotYetCached(history: seq<CachedResponse>, k: u32)
    requires forall i :: 0 <= i < |history| ==> history[i].messageId != k
    ensures Cached(history, k).None?
  {
    if history != [] { NotYetCached(history[..|history| - 1], k); }
  }

  lemma LogsOne(epoch: nat, late: bool, a: CachedResponse)
    ensures LogAnswered(epoch, late, [a]) == [Answer(epoch, a, late)]
  {
    assert [a][1..] == [];
  }

  lemma PingRuns(r: Run, k: u32)
    requires r.live && r.st.env == Flip(SA) && r.st.oldIke == [] && Unseen(r.st, k) && Cached(r.st.history, k).None?
    ensures Exec(TWO_PRFS, Counting(), r, Ping(k))
         == r.(st := r.st.(history := Trim(r.st.history + [Pong(k)])), answered :=
               r.answered + [Answer(r.epoch, Pong(k), false)])
  {
    hide Step, Counting, Trim, Draw, Cached;
    Ponged(r.st, k);
    LogsOne(r.epoch, false, Pong(k));
    assert r.issued + [] == r.issued;
  }

  function Answered(n: nat): seq<Answer>
    requires n <= 100
  {
    seq(n, i requires 0 <= i < n => Answer(0, Pong(i), false))
  }

  lemma {:induction false} AfterPings(n: nat)
    requires n <= 50
    ensures ExecAll(TWO_PRFS, Counting(), Begin(Y), Pings(n)) ==
      Run(Y.(history := Remembered(n)), 0, [], Answered(n), true)
  {
    hide Exec, Counting, Trim, Cached, Pong, Ping;
    if n > 0 {
      AfterPings(n - 1);
      assert Pings(n)[..n - 1] == Pings(n - 1);
      var st := Y.(history := Remembered(n - 1));
      RememberedIds(n - 1);
      NotYetCached(st.history, n - 1);
      PingRuns(Run(st, 0, [], Answered(n - 1), true), n - 1);
      RememberedNext(n - 1);
      assert Answered(n) == Answered(n - 1) + [Answer(0, Pong(n - 1), false)];
    }
  }

  lemma RememberedIds(n: nat)
    requires n <= 100
    ensures forall i :: 0 <= i < |Remembered(n)| ==> Remembered(n)[i].messageId < n
    ensures n >= 6 ==> forall i :: 0 <= i < |Remembered(n)| ==> Remembered(n)[i].messageId > 1
  {
  }

  /** Six liveness checks, an accepted IKE rekey, and a copy of the second check: its answer was
      forgotten before the SA was replaced, and it is executed and answered a second time. */
  lemma ExecutedTwice()
    ensures HandedOver(Y)
    ensures var r :=
      ExecAll(TWO_PRFS, Counting(), Begin(Y), Pings(6) + [Receive(Protected(Rekey(6), true), Draw(5))] + [Ping(1)]);
            && r.live && |r.answered| == 8
            && r.answered[1] == Answer(0, Pong(1), false) && r.answered[7] == Answer(0, Pong(1), true)
  {
    hide Counting, Exec, Remembered, Pings, Answered, Pong, Ping, Rekey;
    var rekey := Receive(Protected(Rekey(6), true), Draw(5));
    var evs := Pings(6) + [rekey];
    AfterPings(6);
    var r6 := Run(Y.(history := Remembered(6)), 0, [], Answered(6), true);
    assert evs[..6] == Pings(6) && (evs + [Ping(1)])[..7] == evs;
    var t := RekeyRuns(r6);
    var r7 := Exec(TWO_PRFS, Counting(), r6, rekey);
    PingAgain(r7, t);
    SecondAnswer();
  }

  lemma SecondAnswer()
    ensures |Answered(6)| == 6 && Answered(6)[1] == Answer(0, Pong(1), false)
  {
  }

  lemma RekeyRuns(r: Run) returns (t: Frame)
    requires r == Run(Y.(history := Remembered(6)), 0, [], Answered(6), true)
    ensures var n := Exec(TWO_PRFS, Counting(), r, Receive(Protected(Rekey(6), true), Draw(5)));
            && n.live && n.epoch == 1 && n.answered == r.answered + [Answer(0, CachedResponse(6, [t]), false)]
            && n.st.oldIke == [Retired(r.st).(history := Remembered(6) + [CachedResponse(6, [t])])]
  {
    hide IkeOffer, Takable, Asks, IkeRequest, SelectPeerIke, Counting, Step, Remembered, Answered, Cached;
    RekeyTaken(6);
    RememberedIds(6);
    NotYetCached(Remembered(6), 6);
    var choice;
    choice, t := AcceptsIke(TWO_PRFS, TWO_PRFS, r.st, ASKED, Rekey(6), Draw(5));
    LogsOne(0, false, CachedResponse(6, [t]));
  }

  lemma PingAgain(r: Run, t: Frame)
    requires r.live && r.epoch == 1
    requires r.st.oldIke == [Retired(Y).(history := Remembered(6) + [CachedResponse(6, [t])])]
    ensures var n := Exec(TWO_PRFS, Counting(), r, Ping(1));
            n.live && n.answered == r.answered + [Answer(0, Pong(1), true)]
  {
    hide Counting, Remembered, Draw;
    RememberedIds(6);
    LogsOne(0, true, Pong(1));
  }
}
