/** Two ends with their data planes: whenever their children mirror each other, each end sends
    with exactly the codec the other holds under that SPI. */
module Duplex {
  import opened Keying
  import opened Negotiation
  import opened Offers
  import opened IkeState
  import opened RunningSpec
  import opened RunningInvariant
  import opened ChildEffects
  import opened Dataplane
  import opened IkeTalk
  import opened TwoEnds
  import opened ChildTalk
  import opened TwoChildren
  import opened KeyTalk
  import M = MakeBeforeBreak

  /** Each end's codec tables, the updates still queued for them, and what its active child
      was installed with. */
  datatype Link = Link(h: House, px: Plane, qx: seq<Update>, kx: Keyed, py: Plane, qy: seq<Update>, ky: Keyed)

  /** An end takes a turn, or its watcher applies the next update. */
  datatype Move = EndMoves(t: Turn) | WatchX | WatchY

  function Go(cx: Config, cy: Config, c: Crypto, d: Link, m: Move): Link {
    match m
    case EndMoves(t) =>
      var o := Taken(cx, cy, c, d.h.w, t);
      if t.atX then
        var s := M.Deliver(M.System(d.h.w.x, d.px, d.qx), o);
        d.(h := Live(cx, cy, c, d.h, t), px := s.plane, qx := s.queue, kx := Rekeyed(d.kx, o))
      else
        var s := M.Deliver(M.System(d.h.w.y, d.py, d.qy), o);
        d.(h := Live(cx, cy, c, d.h, t), py := s.plane, qy := s.queue, ky := Rekeyed(d.ky, o))
    case WatchX => if d.qx == [] then d else d.(px := Apply(d.px, d.qx[0]), qx := d.qx[1..])
    case WatchY => if d.qy == [] then d else d.(py := Apply(d.py, d.qy[0]), qy := d.qy[1..])
  }

  function GoAll(cx: Config, cy: Config, c: Crypto, d: Link, ms: seq<Move>): Link
    decreases |ms|
  {
    if ms == [] then d else GoAll(cx, cy, c, Go(cx, cy, c, d, ms[0]), ms[1..])
  }

  /** A fair turn, in which a child is only installed with the PRF of the IKE SA. */
  ghost predicate FairMove(cx: Config, cy: Config, c: Crypto, d: Link, m: Move) {
    m.EndMoves? ==>
      FairTurn(cx, cy, c, d.h, m.t) && SamePrf(if m.t.atX then d.h.w.x else d.h.w.y, Taken(cx, cy, c, d.h.w, m.t))
  }

  ghost predicate FairMoves(cx: Config, cy: Config, c: Crypto, d: Link, ms: seq<Move>)
    decreases |ms|
  {
    ms == [] || (FairMove(cx, cy, c, d, ms[0]) && FairMoves(cx, cy, c, Go(cx, cy, c, d, ms[0]), ms[1..]))
  }

  // ---- One end and its plane ----

  ghost predicate Equipped(st: State, p: Plane, q: seq<Update>, k: Keyed) {
    M.Handover(M.System(st, p, q)) && st.activeChild.Some? && M.Wired(p, st.activeChild.value, k.sel, k.keys)
  }

  lemma WatchKeeps(st: State, p: Plane, q: seq<Update>, k: Keyed)
    requires Equipped(st, p, q, k) && q != []
    ensures Equipped(st, Apply(p, q[0]), q[1..], k)
  {
    M.HarmlessKeeps(M.System(st, p, q));
    assert M.Harmless(st, q[0]);
  }

  lemma ActorKeeps(cfg: Config, c: Crypto, st: State, p: Plane, q: seq<Update>, k: Keyed, ev: Event)
    requires Inv(st) && Equipped(st, p, q, k) && M.Timely(st, Step(cfg, c, st, ev))
    requires Step(cfg, c, st, ev).st.activeChild.Some?
    ensures var o := Step(cfg, c, st, ev);
            var s := M.Deliver(M.System(st, p, q), o);
            && Equipped(o.st, s.plane, s.queue, Rekeyed(k, o)) && (!Installs(o) ==> o.st.activeChild == st.activeChild)
  {
    hide Step, Inv, M.Handover;
    var o := Step(cfg, c, st, ev);
    M.AdvanceKeeps(cfg, c, M.System(st, p, q), M.Actor(ev));
    StepEffect(cfg, c, st, ev);
    if Installs(o) {
      var u := o.updates[0];
      assert (q + o.updates)[..|q|] == q;
      assert ApplyAll(p, q + o.updates) == Apply(ApplyAll(p, q), u);
    }
  }

  /** Fair turns are timely. */
  lemma FairIsTimely(cx: Config, cy: Config, c: Crypto, h: House, ev: Event)
    requires Home(cx, cy, c, h) && UnderstandsChild(cy, cx) && Ideal(c) && FairTurn(cx, cy, c, h, Turn(true, ev))
    requires SamePrf(h.w.x, Step(cx, c, h.w.x, ev))
    ensures M.Timely(h.w.x, Step(cx, c, h.w.x, ev))
  {
    hide Home, Step, UnderstandsChild, ByAnswer, ByRequest, Inv, KeysOf, Fair;
    var o := Step(cx, c, h.w.x, ev);
    Parts(cx, cy, c, h);
    StepEffect(cx, c, h.w.x, ev);
    if Installs(o) {
      StepInstalls(cx, c, h.w.x, ev);
      InstallHeard(cx, c, h, ev, o);
      assert ev.fr.childSpi in DrawnSpi(ev);
      if ByAnswer(cx, c, h.w.x, ev, o) { BehindInstalls(cx, cy, c, h, ev, o); }
      else { RequestFresh(cx, cy, c, h, ev, o); }
    }
  }

  lemma RequestFresh(cx: Config, cy: Config, c: Crypto, h: House, ev: Event, o: Outcome)
    requires Home(cx, cy, c, h) && Ideal(c) && UnderstandsChild(cy, cx) && ByRequest(cx, c, h.w.x, ev, o) && Installs(o)
    requires Replaces(h.w.x, o)
    requires ev.pkt.frame in h.w.net && ev.fr.acked && |ev.fr.nonce| == 32 && ev.fr.childSpi !in h.sx + h.sy
    requires SamePrf(h.w.x, o)
    ensures M.Timely(h.w.x, o)
  {
    hide Home, UnderstandsChild, Inv, KeysOf, ProcessPeerChildRekey, SameKeys, New;
    Parts(cx, cy, c, h);
    AnswerTells(cx, cy, c, h, ev.pkt.frame, ev.fr, o);
  }

  // ---- Both ends ----

  ghost predicate Working(cx: Config, cy: Config, c: Crypto, d: Link) {
    && Home(cx, cy, c, d.h) && Keys(cx, cy, c, d.h, d.kx, d.ky)
    && Equipped(d.h.w.x, d.px, d.qx, d.kx) && Equipped(d.h.w.y, d.py, d.qy, d.ky)
  }

  lemma XWorks(cx: Config, cy: Config, c: Crypto, d: Link, ev: Event)
    requires Working(cx, cy, c, d) && Matched(cx, cy) && Ideal(c) && FairMove(cx, cy, c, d, EndMoves(Turn(true, ev)))
    ensures Working(cx, cy, c, Go(cx, cy, c, d, EndMoves(Turn(true, ev))))
  {
    hide Home, Keys, Equipped, Step, M.Timely, Inv, Compatible, BalancedChild, UnderstandsChild, M.Deliver, FairTurn,
         SamePrf;
    var h, o := d.h, Step(cx, c, d.h.w.x, ev);
    Parts(cx, cy, c, h);
    FairIsTimely(cx, cy, c, h, ev);
    Lives(cx, cy, c, h, Turn(true, ev));
    Parts(cx, cy, c, Live(cx, cy, c, h, Turn(true, ev)));
    ActorKeeps(cx, c, h.w.x, d.px, d.qx, d.kx, ev);
    TurnKeys(cx, cy, c, h, d.kx, d.ky, ev);
  }

  /** The same link with its ends exchanged. */
  function Turned(d: Link): Link {
    Link(Swapped(d.h), d.py, d.qy, d.ky, d.px, d.qx, d.kx)
  }

  lemma WorkingTurned(cx: Config, cy: Config, c: Crypto, d: Link)
    requires Working(cx, cy, c, d)
    ensures Working(cy, cx, c, Turned(d))
  {
    hide Home, Tells, ChildAhead;
    HomeSymmetric(cx, cy, c, d.h);
  }

  lemma Works(cx: Config, cy: Config, c: Crypto, d: Link, m: Move)
    requires Working(cx, cy, c, d) && Matched(cx, cy) && Ideal(c) && FairMove(cx, cy, c, d, m)
    ensures Working(cx, cy, c, Go(cx, cy, c, d, m))
  {
    hide Home, Keys, Equipped, Step, Matched, SamePrf, Fair;
    match m
    case WatchX => if d.qx != [] { WatchKeeps(d.h.w.x, d.px, d.qx, d.kx); }
    case WatchY => if d.qy != [] { WatchKeeps(d.h.w.y, d.py, d.qy, d.ky); }
    case EndMoves(t) =>
      if t.atX {
        XWorks(cx, cy, c, d, t.ev);
      } else {
        WorkingTurned(cx, cy, c, d);
        MatchedSymmetric(cx, cy);
        var e, s := Turned(d), EndMoves(Turn(true, t.ev));
        assert d.h.sx + d.h.sy == d.h.sy + d.h.sx;
        XWorks(cy, cx, c, e, t.ev);
        assert Turned(Go(cy, cx, c, e, s)) == Go(cx, cy, c, d, m);
        WorkingTurned(cy, cx, c, Go(cy, cx, c, e, s));
      }
  }

  lemma {:induction false} WorksOn(cx: Config, cy: Config, c: Crypto, d: Link, ms: seq<Move>)
    requires Working(cx, cy, c, d) && Matched(cx, cy) && Ideal(c) && FairMoves(cx, cy, c, d, ms)
    ensures Working(cx, cy, c, GoAll(cx, cy, c, d, ms))
    decreases |ms|
  {
    hide Working, Matched, FairMove, Go;
    if ms != [] {
      Works(cx, cy, c, d, ms[0]);
      WorksOn(cx, cy, c, Go(cx, cy, c, d, ms[0]), ms[1..]);
    }
  }

  // ---- What it means ----

  /** SPI, keys and the algorithms the data plane uses. */
  ghost predicate SameCodec(a: Codec, b: Codec) {
    && a.spi == b.spi && a.enc == b.enc && a.integ == b.integ
    && a.selection.encryption == b.selection.encryption && a.selection.integrity == b.selection.integrity
  }

  /** What `p` sends, `q` has a codec for. */
  ghost predicate Reaches(p: Plane, q: Plane) {
    p.outbound.spi in q.table && SameCodec(p.outbound, q.table[p.outbound.spi])
  }

  lemma WiredReach(p: Plane, a: ChildSA, k: Keyed, q: Plane, b: ChildSA, l: Keyed)
    requires M.Wired(p, a, k.sel, k.keys) && M.Wired(q, b, l.sel, l.keys) && Paired(a, b) && SameKeys(k, l)
    ensures Reaches(p, q) && Reaches(q, p)
  {
    CodecsPair(a, b, k.sel, k.keys);
    CodecsPair(a, b, l.sel, l.keys);
  }

  /** The tunnel as both ends commit it after the handshake, keyed alike. */
  function Opened(x: State, y: State, k: Keyed): Link
    requires x.activeChild.Some? && y.activeChild.Some?
  {
    var a, b := x.activeChild.value, y.activeChild.value;
    Link(Start(x, y),
         Plane(map[a.inboundSpi := InboundCodec(a, k.sel, k.keys)], OutboundCodec(a, k.sel, k.keys), a, false), [], k,
         Plane(map[b.inboundSpi := InboundCodec(b, k.sel, k.keys)], OutboundCodec(b, k.sel, k.keys), b, false), [], k)
  }

  lemma OpenedWorks(cx: Config, cy: Config, c: Crypto, x: State, y: State, k: Keyed)
    requires Founded(x, y)
    ensures Working(cx, cy, c, Opened(x, y, k))
  {
    hide Home;
    FoundedHome(cx, cy, c, x, y);
    M.Established(x, x.activeChild.value, k.sel, k.keys);
    M.Established(y, y.activeChild.value, k.sel, k.keys);
  }

  /** After any fair run of both ends and both watchers, in which children are installed with the
      PRF of their IKE SA: whenever the two children mirror each other, both directions of the
      tunnel are open, each end sending under the SPI, with the keys and the algorithms, of a
      codec in the other's table. */
  lemma BothWaysOpen(cx: Config, cy: Config, c: Crypto, x: State, y: State, k: Keyed, ms: seq<Move>)
    requires Founded(x, y) && Matched(cx, cy) && Ideal(c) && FairMoves(cx, cy, c, Opened(x, y, k), ms)
    ensures var d := GoAll(cx, cy, c, Opened(x, y, k), ms);
            && d.h.w.x.activeChild.Some? && d.h.w.y.activeChild.Some?
            && (Paired(d.h.w.x.activeChild.value, d.h.w.y.activeChild.value) ==>
                Reaches(d.px, d.py) && Reaches(d.py, d.px))
  {
    hide TwoEnds.Established, Matched, FairMoves, GoAll, Opened, Home, Tells, M.Handover, M.Wired, Reaches, SameKeys,
         ChildAhead, Paired;
    OpenedWorks(cx, cy, c, x, y, k);
    WorksOn(cx, cy, c, Opened(x, y, k), ms);
    var d := GoAll(cx, cy, c, Opened(x, y, k), ms);
    var a, b := d.h.w.x.activeChild.value, d.h.w.y.activeChild.value;
    if Paired(a, b) { WiredReach(d.px, a, d.kx, d.py, b, d.ky); }
  }
}
