/** Closing a session: the last two requests of the current IKE SA. */
module Closing {
  import opened Bytes
  import opened Keying
  import opened Negotiation
  import opened IkeState
  import opened RunningSpec
  import opened RunningRuns
  import W = SaPayload

  const LAST_ID: u32 := 0xFFFF_FFFF

  datatype Closed = Closed(st: State, sent: seq<Frame>, done: bool)

  /** One DELETE request under the next id, refused when that id is the last one. */
  function CloseStep(r: Closed, inner: seq<Payload>): Option<Closed> {
    if r.st.nextId == LAST_ID then None
    else Some(Closed(r.st.(nextId := r.st.nextId + 1),
                     r.sent + [Seal(r.st.env, Informational, r.st.nextId, false, inner)], false))
  }

  /** The child is deleted by its inbound SPI, then the IKE SA. A counter at its last
      value stops the sequence, even after the child delete has gone out. */
  function CloseDown(st: State): Closed {
    var start := Closed(st, [], false);
    if st.env.spiR == 0 || st.phase == Stopped || st.nextId == LAST_ID then start else
    var first := if st.activeChild.Some?
                 then CloseStep(start, [DeletePayload(W.PROTOCOL_ESP, [st.activeChild.value.inboundSpi])]).value
                 else start;
    match CloseStep(first, [DeletePayload(W.PROTOCOL_IKE, [])])
    case None => first
    case Some(last) => Closed(Cleared(last.st), last.sent, true)
  }

  lemma {:induction false} LogSnoc(epoch: nat, frames: seq<Frame>, last: Frame)
    ensures LogIssued(epoch, frames + [last]) == LogIssued(epoch, frames) + [Issue(epoch, last.messageId)]
  {
    if frames == [] {
      assert [] + [last] == [last] && [last][1..] == [];
    } else {
      assert (frames + [last])[1..] == frames[1..] + [last];
      LogSnoc(epoch, frames[1..], last);
    }
  }

  ghost predicate NumberedSoFar(start: u32, r: Run, closed: Closed) {
    && Ranked(start, r.issued + LogIssued(r.epoch, closed.sent))
    && closed.st.nextId == NextInEpoch(start, r.issued + LogIssued(r.epoch, closed.sent), r.epoch)
  }

  lemma CloseStepNumbered(start: u32, r: Run, closed: Closed, inner: seq<Payload>)
    requires NumberedSoFar(start, r, closed) && CloseStep(closed, inner).Some?
    ensures NumberedSoFar(start, r, CloseStep(closed, inner).value)
  {
    var before := r.issued + LogIssued(r.epoch, closed.sent);
    var x := Issue(r.epoch, closed.st.nextId);
    var frame := Seal(closed.st.env, Informational, closed.st.nextId, false, inner);
    LogSnoc(r.epoch, closed.sent, frame);
    assert before + [x] == r.issued + LogIssued(r.epoch, closed.sent + [frame]);
    RankedSnoc(start, before, x);
    NextSnoc(start, before, x, r.epoch);
  }

  /** After any run, the closing requests continue the numbering of the current IKE SA
      without a gap and never wrap it; the session is cleared exactly when the DELETE of the
      IKE SA went out. */
  lemma CloseContinues(cfg: Config, c: Crypto, st: State, evs: seq<Event>)
    requires HandedOver(st)
    ensures var r := ExecAll(cfg, c, Begin(st), evs);
            var closed := CloseDown(r.st);
            && Ranked(st.nextId, r.issued + LogIssued(r.epoch, closed.sent))
            && (forall i :: 0 <= i < |closed.sent| ==> closed.sent[i].messageId == r.st.nextId + i < LAST_ID)
            && (closed.done <==>
                closed.sent != [] && closed.sent[|closed.sent| - 1].inner == [DeletePayload(W.PROTOCOL_IKE, [])])
            && (closed.done ==> closed.st.phase == Stopped && closed.st.activeChild.None?)
    ensures var s := ExecAll(cfg, c, Begin(st), evs).st;
            var closed := CloseDown(s);
            var inner := if s.activeChild.None? then [[DeletePayload(1, [])]]
                         else [[DeletePayload(3, [s.activeChild.value.inboundSpi])], [DeletePayload(1, [])]];
            && (closed.sent == [] <==> s.env.spiR == 0 || s.phase == Stopped || s.nextId == 0xFFFF_FFFF)
            && (closed.sent != [] ==> closed.done || (|closed.sent| == 1 && s.nextId + 1 == 0xFFFF_FFFF))
            && |closed.sent| <= |inner| && (closed.done ==> |closed.sent| == |inner|)
            && forall i :: 0 <= i < |closed.sent| ==>
                 closed.sent[i] == Seal(s.env, Informational, s.nextId + i, false, inner[i])
  {
    hide ExecAll, Ranked, NextInEpoch;
    RunNumbered(cfg, c, st, evs);
    var r := ExecAll(cfg, c, Begin(st), evs);
    var start := Closed(r.st, [], false);
    assert r.issued + LogIssued(r.epoch, []) == r.issued;
    if r.st.env.spiR != 0 && r.st.phase != Stopped && r.st.nextId != LAST_ID {
      var first := start;
      if r.st.activeChild.Some? {
        var inner := [DeletePayload(W.PROTOCOL_ESP, [r.st.activeChild.value.inboundSpi])];
        CloseStepNumbered(st.nextId, r, start, inner);
        first := CloseStep(start, inner).value;
      }
      if first.st.nextId != LAST_ID { CloseStepNumbered(st.nextId, r, first, [DeletePayload(W.PROTOCOL_IKE, [])]); }
    }
  }
}
