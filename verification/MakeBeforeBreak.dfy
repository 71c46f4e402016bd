/** The running actor together with its data plane, over whole runs. */
module MakeBeforeBreak {
  import opened Bytes
  import opened Suite
  import opened Keying
  import opened Negotiation
  import opened IkeState
  import opened RunningSpec
  import opened RunningInvariant
  import opened ChildEffects
  import opened Dataplane

  const UPDATE_QUEUE := 16

  datatype System = System(st: State, plane: Plane, queue: seq<Update>)

  /** The actor takes a step, or the watcher applies the update at the head of the queue. */
  datatype Turn = Actor(ev: Event) | Watch

  /** An acknowledged install has been applied, after everything queued before it. A
      deletion is dropped when the queue is full. */
  function Deliver(s: System, o: Outcome): (r: System)
    ensures r.st == o.st
  {
    if |o.updates| == 1 && o.updates[0].ChildInstalled? && o.updates[0].acked then
      System(o.st, ApplyAll(s.plane, s.queue + o.updates), [])
    else if |o.updates| == 1 && o.updates[0].ChildDeleted? && |s.queue| >= UPDATE_QUEUE then
      System(o.st, s.plane, s.queue)
    else System(o.st, s.plane, s.queue + o.updates)
  }

  function Advance(cfg: Config, c: Crypto, s: System, t: Turn): System {
    match t
    case Actor(ev) => Deliver(s, Step(cfg, c, s.st, ev))
    case Watch => if s.queue == [] then s else System(s.st, Apply(s.plane, s.queue[0]), s.queue[1..])
  }

  function AdvanceAll(cfg: Config, c: Crypto, s: System, turns: seq<Turn>): System
    decreases |turns|
  {
    if turns == [] then s else AdvanceAll(cfg, c, Advance(cfg, c, s, turns[0]), turns[1..])
  }

  // ---- What holds throughout ----

  /** `child` is in service: reported, decrypting, and encrypting with one set of keys. */
  ghost predicate Wired(p: Plane, child: ChildSA, sel: Selection, keys: ChildKeys) {
    child.inboundSpi in p.table && p.table[child.inboundSpi] == InboundCodec(child, sel, keys) &&
      p.outbound == OutboundCodec(child, sel, keys)
  }

  ghost predicate InService(p: Plane, child: ChildSA) {
    !p.ended && p.current == child && exists sel, keys :: Wired(p, child, sel, keys)
  }

  ghost predicate Harmless(st: State, u: Update) {
    && u.ChildDeleted?
    && (st.activeChild.Some? ==>
        u.child.inboundSpi != st.activeChild.value.inboundSpi &&
          u.child.outboundSpi != st.activeChild.value.outboundSpi)
    && (st.oldChild.Some? ==> u.child.inboundSpi != st.oldChild.value.inboundSpi)
  }

  /** Make before break. */
  ghost predicate Handover(s: System) {
    && (s.st.activeChild.Some? ==> InService(s.plane, s.st.activeChild.value))
    && (s.st.oldChild.Some? ==> s.st.oldChild.value.inboundSpi in s.plane.table)
    && (s.st.activeChild.Some? && s.st.oldChild.Some? ==>
          && s.st.activeChild.value.inboundSpi != s.st.oldChild.value.inboundSpi
          && s.st.activeChild.value.outboundSpi != s.st.oldChild.value.outboundSpi)
    && (forall i :: 0 <= i < |s.queue| ==> Harmless(s.st, s.queue[i]))
  }

  /** The side conditions on one step: an install is acknowledged in time and reuses
      neither SPI of the child it replaces. */
  ghost predicate Timely(st: State, o: Outcome) {
    forall i :: 0 <= i < |o.updates| && o.updates[i].ChildInstalled? && st.activeChild.Some? ==>
      && o.updates[i].acked
      && o.updates[i].child.inboundSpi != st.activeChild.value.inboundSpi
      && o.updates[i].child.outboundSpi != st.activeChild.value.outboundSpi
  }

  ghost predicate TimelyRun(cfg: Config, c: Crypto, s: System, turns: seq<Turn>)
    decreases |turns|
  {
    turns == [] || ((turns[0].Actor? ==> Timely(s.st, Step(cfg, c, s.st, turns[0].ev)))
                    && TimelyRun(cfg, c, Advance(cfg, c, s, turns[0]), turns[1..]))
  }

  // ---- Proof ----

  lemma HarmlessKeeps(s: System)
    requires Handover(s) && s.queue != []
    ensures Handover(System(s.st, Apply(s.plane, s.queue[0]), s.queue[1..]))
  {
    var u, p := s.queue[0], s.plane;
    assert Harmless(s.st, u);
    if s.st.activeChild.Some? {
      var active := s.st.activeChild.value;
      var sel, keys :| Wired(p, active, sel, keys);
      assert Wired(Apply(p, u), active, sel, keys);
    }
  }

  lemma {:induction false} DrainKeeps(st: State, p: Plane, queue: seq<Update>)
    requires Handover(System(st, p, queue))
    ensures Handover(System(st, ApplyAll(p, queue), []))
    decreases |queue|
  {
    if queue != [] {
      var n := |queue| - 1;
      assert forall i :: 0 <= i < n ==> Harmless(st, queue[..n][i]) by {
        forall i | 0 <= i < n ensures Harmless(st, queue[..n][i]) { assert queue[..n][i] == queue[i]; }
      }
      DrainKeeps(st, p, queue[..n]);
      var last := System(st, ApplyAll(p, queue[..n]), [queue[n]]);
      assert Harmless(st, queue[n]);
      HarmlessKeeps(last);
      assert [queue[n]][1..] == [];
    }
  }

  lemma InstallKeeps(s: System, o: Outcome)
    requires Handover(s) && Replaces(s.st, o) && Timely(s.st, o)
    ensures Handover(Deliver(s, o))
  {
    var u, prior := o.updates[0], s.st.activeChild.value;
    DrainKeeps(s.st, s.plane, s.queue);
    var drained := ApplyAll(s.plane, s.queue);
    assert (s.queue + o.updates)[..|s.queue|] == s.queue;
    assert ApplyAll(s.plane, s.queue + o.updates) == Apply(drained, u);
    assert Wired(Apply(drained, u), u.child, u.selection, u.keys);
    var sel, keys :| Wired(drained, prior, sel, keys);
  }

  lemma DeleteKeeps(s: System, o: Outcome, child: ChildSA)
    requires Handover(s) && o.updates == [ChildDeleted(child)]
    requires o.st.activeChild == s.st.activeChild || o.st.activeChild.None?
    requires o.st.oldChild == s.st.oldChild || o.st.oldChild.None?
    requires o.st.activeChild.Some? ==> s.st.oldChild == Some(child)
    requires o.st.oldChild.Some? ==> s.st.activeChild == Some(child)
    ensures Handover(Deliver(s, o))
  {
    var q := s.queue + o.updates;
    assert forall i :: 0 <= i < |s.queue| ==> Harmless(o.st, s.queue[i]);
    assert Harmless(o.st, ChildDeleted(child));
    assert forall i :: 0 <= i < |q| ==> Harmless(o.st, q[i]);
  }

  lemma UntouchedKeeps(s: System, o: Outcome)
    requires Handover(s) && o.updates == []
    requires o.st.activeChild == s.st.activeChild || o.st.activeChild.None?
    requires o.st.oldChild == s.st.oldChild || o.st.oldChild.None?
    ensures Handover(Deliver(s, o))
  {
    assert s.queue + o.updates == s.queue;
    assert forall i :: 0 <= i < |s.queue| ==> Harmless(o.st, s.queue[i]);
  }

  lemma AdvanceKeeps(cfg: Config, c: Crypto, s: System, t: Turn)
    requires Inv(s.st) && Handover(s) && (t.Actor? ==> Timely(s.st, Step(cfg, c, s.st, t.ev)))
    ensures Inv(Advance(cfg, c, s, t).st) && Handover(Advance(cfg, c, s, t))
  {
    hide Step, Inv, Handover, Deliver, Apply;
    match t
    case Watch => if s.queue != [] { HarmlessKeeps(s); }
    case Actor(ev) =>
      var o := Step(cfg, c, s.st, ev);
      StepKeeps(cfg, c, s.st, ev);
      StepEffect(cfg, c, s.st, ev);
      if Untouched(s.st, o) || o.updates == [] { UntouchedKeeps(s, o); }
      else if Replaces(s.st, o) { InstallKeeps(s, o); }
      else if RetiresOld(s.st, o) { DeleteKeeps(s, o, s.st.oldChild.value); }
      else { DeleteKeeps(s, o, s.st.activeChild.value); }
  }

  /** Over every run with timely acknowledgements and fresh SPIs: the active child is in
      service, and the replaced one still decrypts until it is deleted. */
  lemma {:induction false} MakesBeforeItBreaks(cfg: Config, c: Crypto, s: System, turns: seq<Turn>)
    requires Inv(s.st) && Handover(s) && TimelyRun(cfg, c, s, turns)
    ensures Handover(AdvanceAll(cfg, c, s, turns))
    decreases |turns|
  {
    hide Step, Inv, Handover, Advance, Timely;
    if turns != [] {
      AdvanceKeeps(cfg, c, s, turns[0]);
      MakesBeforeItBreaks(cfg, c, Advance(cfg, c, s, turns[0]), turns[1..]);
    }
  }

  /** The tunnel as it is committed after the handshake satisfies it. */
  lemma Established(st: State, child: ChildSA, sel: Selection, keys: ChildKeys)
    requires st.activeChild == Some(child) && st.oldChild.None?
    ensures Handover(System(st,
                            Plane(map[child.inboundSpi := InboundCodec(child, sel, keys)],
                                  OutboundCodec(child, sel, keys), child, false), []))
  {
    var p := Plane(map[child.inboundSpi := InboundCodec(child, sel, keys)], OutboundCodec(child, sel, keys), child,
                   false);
    assert Wired(p, child, sel, keys);
  }

  /** A codec in the table is only ever replaced by an install under its own SPI: the
      datagrams of every other SPI keep going to the codec that holds their window. */
  lemma {:induction false} CodecsStay(p: Plane, queue: seq<Update>, spi: u32)
    requires spi in p.table && spi in ApplyAll(p, queue).table
    requires forall i :: 0 <= i < |queue| ==> queue[i].child.inboundSpi != spi
    ensures ApplyAll(p, queue).table[spi] == p.table[spi]
    decreases |queue|
  {
    if queue != [] {
      var n := |queue| - 1;
      assert forall i :: 0 <= i < n ==> queue[..n][i] == queue[i];
      CodecsStay(p, queue[..n], spi);
    }
  }

  // ---- Exactly when the side conditions matter ----

  /** Replacing `prior` by an acknowledged child and then deleting `prior` leaves the
      new child in service if and only if it reuses neither SPI. */
  lemma ServesIffFresh(p: Plane, prior: ChildSA, u: Update)
    requires InService(p, prior) && u.ChildInstalled? && u.child.inboundSpi != 0
    ensures InService(Apply(Apply(p, u), ChildDeleted(prior)), u.child)
            <==> u.child.inboundSpi != prior.inboundSpi && u.child.outboundSpi != prior.outboundSpi
  {
    var q := Apply(p, u);
    assert Wired(q, u.child, u.selection, u.keys);
    if u.child.inboundSpi != prior.inboundSpi && u.child.outboundSpi != prior.outboundSpi {
      assert Wired(Apply(q, ChildDeleted(prior)), u.child, u.selection, u.keys);
    }
  }

  /** After any step that installs a child, once the data plane has caught up: the child the
      actor serves is in service if and only if the install was acknowledged in time (or was for
      that same child). Otherwise the actor keeps the child it had while every packet is sent
      with the abandoned child's codec; packets that arrive for the kept child still reach its
      own codec if and only if the inbound SPIs differ. */
  lemma LateInstallSplits(cfg: Config, c: Crypto, s: System, ev: Event)
    requires Inv(s.st) && Handover(s)
    requires var o := Step(cfg, c, s.st, ev); |o.updates| == 1 && o.updates[0].ChildInstalled?
    ensures var o := Step(cfg, c, s.st, ev);
            var u, s1 := o.updates[0], Deliver(s, o);
            var before, p := ApplyAll(s.plane, s.queue), ApplyAll(s1.plane, s1.queue);
            && s.st.activeChild.Some? && s1.st.activeChild == (if u.acked then Some(u.child) else s.st.activeChild)
            && (InService(p, s1.st.activeChild.value) <==> u.acked || u.child == s.st.activeChild.value)
            && p.outbound == OutboundCodec(u.child, u.selection, u.keys)
            && var kept := s.st.activeChild.value.inboundSpi;
               kept in before.table && kept in p.table
               && p.table[kept] ==
                 if u.child.inboundSpi != kept then before.table[kept] else InboundCodec(u.child, u.selection, u.keys)
  {
    hide Step, Inv;
    var o := Step(cfg, c, s.st, ev);
    StepEffect(cfg, c, s.st, ev);
    assert Replaces(s.st, o);
    DrainKeeps(s.st, s.plane, s.queue);
    var u := o.updates[0];
    assert (s.queue + o.updates)[..|s.queue|] == s.queue;
    var q := Apply(ApplyAll(s.plane, s.queue), u);
    assert ApplyAll(s.plane, s.queue + o.updates) == q;
    assert Wired(q, u.child, u.selection, u.keys);
  }
}
