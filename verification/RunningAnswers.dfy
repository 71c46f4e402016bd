/** Peer requests are executed at most once per IKE SA; later copies are replayed or dropped. */
module RunningAnswers {
  import opened Keying
  import opened Negotiation
  import opened IkeState
  import opened RekeyExchange
  import opened RunningSpec
  import opened RunningInvariant
  import opened RunningRuns

  // ---- The invariant of the answer log ----

  /** An answer given while its SA was current. */
  predicate Prompt(a: Answer, epoch: nat) {
    a.epoch == epoch && !a.late
  }

  /** Ids answered on one current SA strictly increase. */
  ghost predicate InOrder(answered: seq<Answer>) {
    forall i, j :: 0 <= i < j < |answered| && Prompt(answered[i], answered[j].epoch) && !answered[j].late
                   ==> answered[i].response.messageId < answered[j].response.messageId
  }

  /** Everything answered on the current SA is at or below the newest remembered id. */
  ghost predicate Covered(r: Run) {
    forall i :: 0 <= i < |r.answered| && Prompt(r.answered[i], r.epoch)
                ==> r.st.history != [] && r.answered[i].response.messageId <= r.st.history[|r.st.history| - 1].messageId
  }

  /** What is remembered is what was answered. */
  ghost predicate Logged(r: Run) {
    forall h :: h in r.st.history ==> Answer(r.epoch, h, false) in r.answered
  }

  ghost predicate Past(r: Run) {
    forall i :: 0 <= i < |r.answered| ==> r.answered[i].epoch <= r.epoch
  }

  ghost predicate AnswerInv(r: Run) {
    InOrder(r.answered) && Past(r) && (r.live ==> Covered(r) && Logged(r))
  }

  /** How many requests were answered on the same SA, while it was current, after `a`. */
  ghost function Since(answered: seq<Answer>, a: Answer): nat {
    if answered == [] || answered[|answered| - 1] == a then 0
    else Since(answered[..|answered| - 1], a) + if Prompt(answered[|answered| - 1], a.epoch) then 1 else 0
  }

  /** The four last answers of the current SA are the remembered ones, in order. */
  ghost predicate Recent(r: Run) {
    && |r.st.history| <= 4
    && (forall j :: 0 <= j < |r.st.history| ==>
          Since(r.answered, Answer(r.epoch, r.st.history[j], false)) == |r.st.history| - 1 - j)
    && (forall a :: a in r.answered && Prompt(a, r.epoch) && Since(r.answered, a) < 4 ==> a.response in r.st.history)
  }

  // ---- It is kept ----

  lemma OrderSnoc(r: Run, a: Answer)
    requires AnswerInv(r) && r.live && (a.late || (a.epoch == r.epoch && Unseen(r.st, a.response.messageId)))
    ensures InOrder(r.answered + [a])
  {
  }

  lemma TrimLast(history: seq<CachedResponse>, a: CachedResponse)
    ensures Trim(history + [a]) != [] && Trim(history + [a])[|Trim(history + [a])| - 1] == a
    ensures forall h :: h in Trim(history + [a]) ==> h in history || h == a
  {
  }

  lemma TrimSame(history: seq<CachedResponse>)
    requires |history| <= MAX_HISTORY
    ensures Trim(history + []) == history
  {
    assert history + [] == history;
  }

  /** A step on the current SA, without and with a computed answer. */
  lemma PromptStep(r: Run, o: Outcome, next: Run)
    requires Inv(r.st) && AnswerInv(r) && r.live && AnswersOnce(r.st, o)
    requires next.st == o.st && next.epoch == (if Replaced(r.st, o) then r.epoch + 1 else r.epoch)
    requires next.live ==> o.verdict != Shutdown
    requires next.answered == if o.answered ==
      [] then r.answered else r.answered + [Answer(r.epoch, o.answered[0], false)]
    ensures AnswerInv(next)
  {
    hide Inv, InOrder;
    if o.answered != [] { OrderSnoc(r, Answer(r.epoch, o.answered[0], false)); }
    if next.live && !Replaced(r.st, o) {
      if o.answered == [] {
        HistoryBounded(r.st);
        TrimSame(r.st.history);
      } else {
        assert o.answered == [o.answered[0]];
        TrimLast(r.st.history, o.answered[0]);
      }
    }
  }

  lemma HistoryBounded(st: State)
    requires Inv(st)
    ensures |st.history| <= MAX_HISTORY
  {
  }

  lemma LateStep(r: Run, o: Outcome, next: Run)
    requires Inv(r.st) && AnswerInv(r) && r.live && r.st.oldIke != [] && RetainedOrderly(r.st, o) && r.epoch > 0
    requires next.st == o.st && next.epoch == r.epoch
    requires next.answered == if o.answered ==
      [] then r.answered else r.answered + [Answer(r.epoch - 1, o.answered[0], true)]
    ensures AnswerInv(next)
  {
    if o.answered != [] { OrderSnoc(r, Answer(r.epoch - 1, o.answered[0], true)); }
  }

  lemma ExecAnswers(cfg: Config, c: Crypto, r: Run, ev: Event)
    requires Inv(r.st) && AnswerInv(r) && (r.st.oldIke != [] ==> r.epoch > 0)
    ensures AnswerInv(Exec(cfg, c, r, ev))
  {
    hide Step, AnswerInv;
    if r.live {
      var o, next := Step(cfg, c, r.st, ev), Exec(cfg, c, r, ev);
      assert r.answered + [] == r.answered;
      if ForRetained(r.st, ev) {
        RetainedStepOrderly(cfg, c, r.st, ev);
        RetainedNumbered(r.st, o);
        LogOne(r.epoch - 1, true, [], o.answered);
        LateStep(r, o, next);
      } else {
        StepOrderly(cfg, c, r.st, ev);
        LogOne(r.epoch, false, [], o.answered);
        PromptStep(r, o, next);
      }
    }
  }

  lemma SinceSnoc(answered: seq<Answer>, last: Answer, a: Answer)
    ensures Since(answered + [last], a) ==
            if last == a then 0 else Since(answered, a) + if Prompt(last, a.epoch) then 1 else 0
  {
    assert (answered + [last])[..|answered|] == answered;
  }

  /** Nothing was answered on an SA that has just become current. */
  lemma FreshRecent(r: Run)
    requires r.st.history == [] && forall i :: 0 <= i < |r.answered| ==> r.answered[i].epoch < r.epoch
    ensures Recent(r)
  {
  }

  /** A late answer belongs to the retained SA. */
  lemma LateRecent(r: Run, next: Run, x: Answer)
    requires Recent(r) && next.epoch == r.epoch && next.st.history == r.st.history && x.late
    requires next.answered == r.answered + [x]
    ensures Recent(next)
  {
    forall a: Answer | !a.late ensures Since(next.answered, a) == Since(r.answered, a) {
      SinceSnoc(r.answered, x, a);
    }
  }

  /** One more answer pushes out the oldest of four. */
  ghost predicate Pushes(r: Run, next: Run, x: Answer) {
    && Recent(r) && Logged(r) && next.epoch == r.epoch == x.epoch && !x.late && x !in r.answered
    && next.answered == r.answered + [x] && next.st.history == Trim(r.st.history + [x.response])
  }

  lemma PushedAt(r: Run, next: Run, x: Answer, j: nat)
    requires Pushes(r, next, x) && j < |next.st.history|
    ensures Since(next.answered, Answer(r.epoch, next.st.history[j], false)) == |next.st.history| - 1 - j
  {
    var h, n := r.st.history, next.st.history;
    var a := Answer(r.epoch, n[j], false);
    SinceSnoc(r.answered, x, a);
    if j < |n| - 1 {
      assert n[j] == h[j + |h| + 1 - |n|];
      assert a in r.answered;
    }
  }

  /** Only the oldest of four is forgotten. */
  lemma TrimForgets(h: seq<CachedResponse>, x: CachedResponse, j: nat)
    requires |h| <= 4 && j < |h| && (|h| == 4 ==> j > 0)
    ensures h[j] in Trim(h + [x])
  {
    var n := Trim(h + [x]);
    assert n[j - (|h| + 1 - |n|)] == h[j];
  }

  lemma RecentAt(r: Run, a: Answer) returns (j: nat)
    requires Recent(r) && a in r.answered && Prompt(a, r.epoch) && Since(r.answered, a) < 4
    ensures j < |r.st.history| <= 4 && r.st.history[j] == a.response && Since(r.answered, a) == |r.st.history| - 1 - j
  {
    hide Since;
    var k :| 0 <= k < |r.st.history| && r.st.history[k] == a.response;
    assert a == Answer(r.epoch, r.st.history[k], false);
    j := k;
  }

  lemma PushedFinds(r: Run, next: Run, x: Answer, a: Answer)
    requires Pushes(r, next, x) && a in next.answered && Prompt(a, next.epoch) && Since(next.answered, a) < 4
    ensures a.response in next.st.history
  {
    hide Since, Recent, Logged, Trim;
    SinceSnoc(r.answered, x, a);
    if a == x {
      TrimLast(r.st.history, x.response);
    } else {
      var j := RecentAt(r, a);
      TrimForgets(r.st.history, x.response, j);
    }
  }

  lemma PromptRecent(r: Run, next: Run, x: Answer)
    requires Pushes(r, next, x)
    ensures Recent(next)
  {
    hide Pushes, Since;
    assert |next.st.history| <= 4 && next.epoch == r.epoch by { PushedBound(r, next, x); }
    forall j | 0 <= j < |next.st.history|
      ensures Since(next.answered, Answer(r.epoch, next.st.history[j], false)) == |next.st.history| - 1 - j
    {
      PushedAt(r, next, x, j);
    }
    forall a | a in next.answered && Prompt(a, next.epoch) && Since(next.answered, a) < 4
      ensures a.response in next.st.history
    {
      PushedFinds(r, next, x, a);
    }
  }

  lemma PushedBound(r: Run, next: Run, x: Answer)
    requires Pushes(r, next, x)
    ensures |next.st.history| <= 4 && next.epoch == r.epoch
  {
  }

  lemma NotAnsweredYet(r: Run, x: Answer)
    requires AnswerInv(r) && r.live && x.epoch == r.epoch && !x.late && Unseen(r.st, x.response.messageId)
    ensures x !in r.answered
  {
  }

  lemma ExecRecent(cfg: Config, c: Crypto, r: Run, ev: Event)
    requires Inv(r.st) && AnswerInv(r) && r.live && Recent(r) && (r.st.oldIke != [] ==> r.epoch > 0)
    ensures var next := Exec(cfg, c, r, ev); next.live ==> Recent(next)
  {
    hide Step, AnswerInv, Recent;
    var o, next := Step(cfg, c, r.st, ev), Exec(cfg, c, r, ev);
    assert r.answered + [] == r.answered;
    if ForRetained(r.st, ev) {
      RetainedStepOrderly(cfg, c, r.st, ev);
      RetainedNumbered(r.st, o);
      LogOne(r.epoch - 1, true, [], o.answered);
      if o.answered == [] { SameRecent(r, next); }
      else { LateRecent(r, next, Answer(r.epoch - 1, o.answered[0], true)); }
    } else {
      StepOrderly(cfg, c, r.st, ev);
      LogOne(r.epoch, false, [], o.answered);
      if next.live { PromptOnce(r, o, next); }
    }
  }

  lemma SameRecent(r: Run, next: Run)
    requires Recent(r) && next.epoch == r.epoch && next.answered == r.answered && next.st.history == r.st.history
    ensures Recent(next)
  {
  }

  lemma PromptOnce(r: Run, o: Outcome, next: Run)
    requires Inv(r.st) && AnswerInv(r) && r.live && Recent(r) && AnswersOnce(r.st, o) && o.verdict != Shutdown
    requires next.st == o.st && next.epoch == (if Replaced(r.st, o) then r.epoch + 1 else r.epoch)
    requires next.answered ==
             if o.answered == [] then r.answered else r.answered + [Answer(r.epoch, o.answered[0], false)]
    ensures Recent(next)
  {
    hide Inv, Recent, InOrder;
    if Replaced(r.st, o) {
      FreshRecent(next);
    } else if o.answered == [] {
      HistoryBounded(r.st);
      TrimSame(r.st.history);
      SameRecent(r, next);
    } else {
      assert o.answered == [o.answered[0]];
      NotAnsweredYet(r, Answer(r.epoch, o.answered[0], false));
      PromptRecent(r, next, Answer(r.epoch, o.answered[0], false));
    }
  }

  lemma {:induction false} RunAnswers(cfg: Config, c: Crypto, st: State, evs: seq<Event>)
    requires HandedOver(st)
    ensures var r := ExecAll(cfg, c, Begin(st), evs); AnswerInv(r) && (r.live ==> Recent(r))
  {
    hide Exec;
    if evs != [] {
      var before := evs[..|evs| - 1];
      RunAnswers(cfg, c, st, before);
      ReachableInv(cfg, c, st, before);
      RunNumbered(cfg, c, st, before);
      var r := ExecAll(cfg, c, Begin(st), before);
      ExecAnswers(cfg, c, r, evs[|evs| - 1]);
      if r.live { ExecRecent(cfg, c, r, evs[|evs| - 1]); } else { DeadStays(cfg, c, r, evs[|evs| - 1]); }
    }
  }

  lemma DeadStays(cfg: Config, c: Crypto, r: Run, ev: Event)
    requires !r.live
    ensures !Exec(cfg, c, r, ev).live
  {
    hide Step;
  }

  // ---- The theorems ----

  /** Over every run, the requests executed and answered on one current IKE SA have
      strictly increasing ids: none is answered twice, not even after its answer was
      evicted from the four remembered ones. */
  lemma AnsweredAtMostOnce(cfg: Config, c: Crypto, st: State, evs: seq<Event>, i: nat, j: nat)
    requires HandedOver(st)
    requires var log := ExecAll(cfg, c, Begin(st), evs).answered;
             i < j < |log| && log[i].epoch == log[j].epoch && !log[i].late && !log[j].late
    ensures var log := ExecAll(cfg, c, Begin(st), evs).answered;
            log[i].response.messageId < log[j].response.messageId
  {
    hide ExecAll;
    RunAnswers(cfg, c, st, evs);
  }

  lemma SameAnswer(r: Run, a: Answer, b: CachedResponse)
    requires InOrder(r.answered) && a in r.answered && Prompt(a, r.epoch) && Answer(r.epoch, b, false) in r.answered
    requires a.response.messageId == b.messageId
    ensures a.response == b
  {
    var i :| 0 <= i < |r.answered| && r.answered[i] == a;
    var j :| 0 <= j < |r.answered| && r.answered[j] == Answer(r.epoch, b, false);
    assert Prompt(r.answered[i], r.answered[j].epoch) && Prompt(r.answered[j], r.answered[i].epoch);
  }

  /** A later copy of an answered request has no effect at all. It is answered with exactly the
      packets sent the first time as long as fewer than four requests were answered on the same SA
      since, and otherwise dropped. */
  lemma CopyReplaysOrDrops(cfg: Config, c: Crypto, st: State, evs: seq<Event>, a: Answer, f: Frame, complete: bool,
                           fr: Fresh)
    requires HandedOver(st)
    requires var r := ExecAll(cfg, c, Begin(st), evs);
             r.live && a in r.answered && Prompt(a, r.epoch) && !ForRetained(r.st, Receive(Protected(f, complete), fr))
    requires !f.response && f.messageId == a.response.messageId
    ensures var r := ExecAll(cfg, c, Begin(st), evs);
            var o := Step(cfg, c, r.st, Receive(Protected(f, complete), fr));
            && o.st == r.st && o.updates == [] && o.issued == [] && o.answered == []
            && o.tx == if Opens(r.st.env, f) && complete && Since(r.answered, a) < 4 then a.response.packets else []
  {
    hide ExecAll, ProcessInformational, ProcessPeerChildRekey, ProcessPeerIkeRekey, HasSelectors, Since;
    var r := ExecAll(cfg, c, Begin(st), evs);
    RunAnswers(cfg, c, st, evs);
    CachedFinds(r.st.history, f.messageId);
    if Cached(r.st.history, f.messageId).Some? {
      var found := Cached(r.st.history, f.messageId).value;
      SameAnswer(r, a, found);
      var j :| 0 <= j < |r.st.history| && r.st.history[j] == found;
      assert a == Answer(r.epoch, r.st.history[j], false);
    }
  }

  // ---- The answer to an accepted IKE rekey ----

  /** While the retained SA stays, its history only grows. */
  lemma RetainedGrows(cfg: Config, c: Crypto, st: State, ev: Event)
    requires Inv(st) && st.oldIke != []
    ensures var o := Step(cfg, c, st, ev);
            && !Replaced(st, o)
            && (o.st.oldIke != [] ==>
                o.st.oldIke[0].env == st.oldIke[0].env && st.oldIke[0].history <= o.st.oldIke[0].history)
  {
    hide Step;
    if ForRetained(st, ev) {
      RetainedStepOrderly(cfg, c, st, ev);
    } else {
      StepOrderly(cfg, c, st, ev);
      StepKeeps(cfg, c, st, ev);
    }
  }

  /** The answer `cached` is held by the retained SA `env`, as long as that SA is the
      one retained in the `epoch`-th SA's time. */
  ghost predicate Held(r: Run, epoch: nat, env: Envelope, cached: CachedResponse) {
    && r.epoch >= epoch
    && (r.epoch == epoch && r.st.oldIke != [] ==> r.st.oldIke[0].env == env && cached in r.st.oldIke[0].history)
  }

  lemma ExecHeld(cfg: Config, c: Crypto, r: Run, ev: Event, epoch: nat, env: Envelope, cached: CachedResponse)
    requires Inv(r.st) && Held(r, epoch, env, cached)
    ensures Held(Exec(cfg, c, r, ev), epoch, env, cached)
  {
    hide Step;
    if r.st.oldIke != [] { RetainedGrows(cfg, c, r.st, ev); }
  }

  lemma {:induction false} HeldThroughout(cfg: Config, c: Crypto, r: Run, evs: seq<Event>, epoch: nat, env: Envelope,
                                          cached: CachedResponse)
    requires Inv(r.st) && Held(r, epoch, env, cached)
    ensures Inv(ExecAll(cfg, c, r, evs).st) && Held(ExecAll(cfg, c, r, evs), epoch, env, cached)
  {
    hide Step;
    if evs != [] {
      var before := evs[..|evs| - 1];
      HeldThroughout(cfg, c, r, before, epoch, env, cached);
      var mid := ExecAll(cfg, c, r, before);
      StepKeeps(cfg, c, mid.st, evs[|evs| - 1]);
      ExecHeld(cfg, c, mid, evs[|evs| - 1], epoch, env, cached);
    }
  }

  /** The answer to an accepted peer IKE rekey stays replayable on the replaced SA: as
      long as that SA is retained, any copy of the request gets the identical packets
      and changes nothing, exactly when the request's message-id is not zero. (A copy
      with id 0 -- a peer's first request on an SA that was itself the result of a
      rekey -- is refused, so an answer lost on the way is never repeated.) */
  lemma RekeyAnswerReplays(cfg: Config, c: Crypto, r: Run, ev: Event, answer: CachedResponse, evs: seq<Event>,
                           f: Frame, fr: Fresh)
    requires Inv(r.st) && r.live && !ForRetained(r.st, ev)
    requires var o := Step(cfg, c, r.st, ev); Replaced(r.st, o) && o.answered == [answer]
    requires var later := ExecAll(cfg, c, Exec(cfg, c, r, ev), evs);
             && later.epoch == r.epoch + 1 && later.st.oldIke != []
             && ForRetained(later.st, Receive(Protected(f, true), fr)) && Opens(r.st.env, f)
    requires !f.response && f.messageId == answer.messageId
    ensures var later := ExecAll(cfg, c, Exec(cfg, c, r, ev), evs);
            var again := Step(cfg, c, later.st, Receive(Protected(f, true), fr));
            && again.st == later.st && again.answered == []
            && again.tx == if answer.messageId != 0 then answer.packets else []
  {
    hide ExecAll, ProcessOldIke, ProcessRequest, ProcessResponse, StartChildRekey, StartIkeRekey;
    StepOrderly(cfg, c, r.st, ev);
    StepKeeps(cfg, c, r.st, ev);
    HeldThroughout(cfg, c, Exec(cfg, c, r, ev), evs, r.epoch + 1, r.st.env, answer);
    RetainedReplay(ExecAll(cfg, c, Exec(cfg, c, r, ev), evs).st, f, answer);
  }

  /** At-most-once does not extend to the retained SA: a request answered there before
      the replacement, and since evicted from the remembered answers, is executed and
      answered a second time when a copy arrives. */
  lemma EvictedRunsAgain(cfg: Config, c: Crypto, r: Run, a: Answer, f: Frame, fr: Fresh)
    requires Inv(r.st) && r.live && r.epoch > 0 && a in r.answered && Prompt(a, r.epoch - 1)
    requires ForRetained(r.st, Receive(Protected(f, true), fr)) && Opens(r.st.oldIke[0].env, f) && !f.response
    requires f.messageId == a.response.messageId && f.exchange == Informational && Malformed(DeleteKind) !in f.inner
    ensures var next := Exec(cfg, c, r, Receive(Protected(f, true), fr));
            (exists k :: |r.answered| <= k < |next.answered| && next.answered[k].epoch == a.epoch
                         && next.answered[k].response.messageId == a.response.messageId)
            <==> a.response.messageId != 0 && !Remembered(r.st.oldIke[0].history, a.response.messageId)
  {
    hide ProcessOldIke, ProcessRequest, ProcessResponse, StartChildRekey, StartIkeRekey;
    var ev := Receive(Protected(f, true), fr);
    var o, next := Step(cfg, c, r.st, ev), Exec(cfg, c, r, ev);
    RetainedExecutes(r.st, f, true);
    RetainedPacketOrderly(r.st, f, true);
    LogOne(r.epoch - 1, true, [], o.answered);
    if o.answered != [] {
      AnswersForId(r.st, f, true);
      assert next.answered[|r.answered|] == Answer(r.epoch - 1, o.answered[0], true);
    }
  }

  lemma AnswersForId(st: State, f: Frame, complete: bool)
    requires st.oldIke != []
    ensures forall x :: x in ProcessOldIke(st, f, complete).answered ==> x.messageId == f.messageId
  {
  }
}
