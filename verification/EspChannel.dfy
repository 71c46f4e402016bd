/** An ESP sender and receiver over any network that drops, repeats, delays, reorders and
    injects datagrams. */
module EspChannel {
  import opened Bytes
  import opened Esp
  import R = Replay

  /** A sequence number with the packet and the datagram it went with. */
  datatype Entry = Entry(s: u32, packet: bytes, datagram: bytes)

  /** What was sent and what was delivered so far. */
  datatype Channel = Channel(out: Sender, sent: seq<Entry>, window: R.Window, delivered: seq<Entry>)

  datatype Move = Submit(packet: bytes, iv: bytes) | Arrive(datagram: bytes)

  const EMPTY := Channel(START, [], R.FRESH, [])

  function Play(sa: Sa, ch: Channel, m: Move): Channel
    requires 0 < sa.enc.blockLen <= 16
  {
    match m
    case Submit(packet, iv) =>
      var (out, r) := Send(sa, ch.out, packet, iv);
      ch.(out := out, sent := if r.Sent? then ch.sent + [Entry(ch.out.next, packet, r.datagram)] else ch.sent)
    case Arrive(d) =>
      var (w, r) := Receive(sa, ch.window, d);
      ch.(window := w, delivered := if r.Some? &&
          |d| >= 8 then ch.delivered + [Entry(Get32(d[4..8]), r.value, d)] else ch.delivered)
  }

  function PlayAll(sa: Sa, ms: seq<Move>): Channel
    requires 0 < sa.enc.blockLen <= 16
  {
    if ms == [] then EMPTY else Play(sa, PlayAll(sa, ms[..|ms| - 1]), ms[|ms| - 1])
  }

  /** IVs have the cipher's length, and only what was sent authenticates. */
  ghost predicate Legal(sa: Sa, ch: Channel, m: Move) {
    match m
    case Submit(_, iv) => |iv| == sa.enc.ivLen
    case Arrive(d) => (exists i :: 0 <= i < |ch.sent| && ch.sent[i].datagram == d) || !Authenticates(sa, d)
  }

  ghost predicate LegalRun(sa: Sa, ms: seq<Move>)
    requires 0 < sa.enc.blockLen <= 16
  {
    ms == [] || (LegalRun(sa, ms[..|ms| - 1]) && Legal(sa, PlayAll(sa, ms[..|ms| - 1]), ms[|ms| - 1]))
  }

  // ---- What holds throughout ----

  /** The datagram of an entry opens to its packet under its number. */
  ghost predicate Carries(sa: Sa, e: Entry) {
    && |e.datagram| >= HEADER_LEN && Authenticates(sa, e.datagram)
    && Stripped(Opened(sa, e.datagram).value) == Some(e.packet)
    && Get32(e.datagram[..4]) == sa.spi && Get32(e.datagram[4..8]) == e.s && e.s != 0
  }

  ghost predicate Ordered(es: seq<Entry>) {
    forall i, j :: 0 <= i < j < |es| ==> es[i].s < es[j].s
  }

  ghost predicate Distinct(es: seq<Entry>) {
    forall i, j :: 0 <= i < j < |es| ==> es[i].s != es[j].s
  }

  ghost function Numbers(es: seq<Entry>): set<u32> {
    set i | 0 <= i < |es| :: es[i].s
  }

  ghost predicate Sound(sa: Sa, ch: Channel) {
    && Ordered(ch.sent) && (forall e :: e in ch.sent ==> Carries(sa, e) && (ch.out.next == 0 || e.s < ch.out.next))
    && Distinct(ch.delivered) && (forall e :: e in ch.delivered ==> e in ch.sent)
    && R.Represents(ch.window, Numbers(ch.delivered))
  }

  lemma SentCarries(sa: Sa, o: Sender, packet: bytes, iv: bytes)
    requires Correct(sa) && |iv| == sa.enc.ivLen && 0 < sa.enc.blockLen <= 16
    ensures var (n, r) := Send(sa, o, packet, iv);
            && (n.next == o.next || (o.next != 0 && n.next == (o.next + 1) % U32_LIMIT))
            && (r.Sent? ==> n.next != o.next && o.next != 0 && Carries(sa, Entry(o.next, packet, r.datagram)))
  {
    hide Datagram, Padded, Opened, Stripped, Correct, Authenticates;
    if packet != [] && NextHeader(packet[0]).Some? {
      SentOpens(sa, o.next, iv, packet, NextHeader(packet[0]).value);
      LongEnough(sa, Datagram(sa, o.next, iv, Padded(sa.enc.blockLen, packet, NextHeader(packet[0]).value)));
    }
  }

  lemma LongEnough(sa: Sa, d: bytes)
    requires Authenticates(sa, d)
    ensures |d| >= HEADER_LEN
  {
  }

  lemma AppendKeeps(sa: Sa, ch: Channel, out: Sender, e: Entry)
    requires Sound(sa, ch) && Carries(sa, e) && e.s == ch.out.next != 0 && out.next == (e.s + 1) % U32_LIMIT
    ensures Sound(sa, ch.(out := out, sent := ch.sent + [e]))
  {
    hide Carries, R.Represents;
  }

  lemma SubmitKeeps(sa: Sa, ch: Channel, packet: bytes, iv: bytes)
    requires Correct(sa) && Sound(sa, ch) && |iv| == sa.enc.ivLen && 0 < sa.enc.blockLen <= 16
    ensures Sound(sa, Play(sa, ch, Submit(packet, iv)))
  {
    hide Send, Correct, Carries, R.Represents;
    SentCarries(sa, ch.out, packet, iv);
    var (out, r) := Send(sa, ch.out, packet, iv);
    if r.Sent? { AppendKeeps(sa, ch, out, Entry(ch.out.next, packet, r.datagram)); }
  }

  /** What happens to the datagram of a sent entry. */
  lemma ArrivalOfSent(sa: Sa, ch: Channel, e: Entry)
    requires Sound(sa, ch) && Carries(sa, e)
    ensures Receive(sa, ch.window, e.datagram)
         == if R.Acceptable(Numbers(ch.delivered), e.s) then (R.Accept(ch.window, e.s).0, Some(e.packet))
            else (ch.window, None)
  {
    hide Opened, Stripped, R.Accept, R.Represents, R.Acceptable;
    R.AcceptRefines(ch.window, Numbers(ch.delivered), e.s);
  }

  lemma NumbersSnoc(es: seq<Entry>, e: Entry)
    ensures Numbers(es + [e]) == Numbers(es) + {e.s}
  {
    var all := es + [e];
    forall s | s in Numbers(es) + {e.s} ensures s in Numbers(all) {
      if s in Numbers(es) {
        var i :| 0 <= i < |es| && es[i].s == s;
        assert all[i].s == s;
      } else {
        assert all[|es|].s == s;
      }
    }
  }

  /** A sent entry that is delivered, with the window that took its number. */
  lemma DeliverKeeps(sa: Sa, ch: Channel, e: Entry, w: R.Window)
    requires Sound(sa, ch) && e in ch.sent && e.s !in Numbers(ch.delivered)
    requires R.Represents(w, Numbers(ch.delivered) + {e.s})
    ensures Sound(sa, ch.(window := w, delivered := ch.delivered + [e]))
  {
    hide Carries, R.Represents;
    NumbersSnoc(ch.delivered, e);
  }

  lemma ArriveKeeps(sa: Sa, ch: Channel, d: bytes)
    requires Sound(sa, ch) && Legal(sa, ch, Arrive(d)) && 0 < sa.enc.blockLen <= 16
    ensures Sound(sa, Play(sa, ch, Arrive(d)))
  {
    hide Opened, Stripped, R.Accept, R.Represents, Numbers;
    if Authenticates(sa, d) {
      var i :| 0 <= i < |ch.sent| && ch.sent[i].datagram == d;
      var e := ch.sent[i];
      assert e in ch.sent;
      ArrivalOfSent(sa, ch, e);
      R.AcceptRefines(ch.window, Numbers(ch.delivered), e.s);
      if R.Acceptable(Numbers(ch.delivered), e.s) { DeliverKeeps(sa, ch, e, R.Accept(ch.window, e.s).0); }
      assert e == Entry(e.s, e.packet, d);
    }
  }

  lemma {:induction false} ChannelSound(sa: Sa, ms: seq<Move>)
    requires Correct(sa) && 0 < sa.enc.blockLen <= 16 && LegalRun(sa, ms)
    ensures Sound(sa, PlayAll(sa, ms))
  {
    hide Correct, Play, Legal;
    if ms == [] {
      assert Numbers([]) == {};
      R.FreshRepresents();
    } else {
      ChannelSound(sa, ms[..|ms| - 1]);
      var ch := PlayAll(sa, ms[..|ms| - 1]);
      match ms[|ms| - 1]
      case Submit(packet, iv) => SubmitLegal(sa, ch, packet, iv); SubmitKeeps(sa, ch, packet, iv);
      case Arrive(d) => ArriveKeeps(sa, ch, d);
    }
  }

  lemma SubmitLegal(sa: Sa, ch: Channel, packet: bytes, iv: bytes)
    requires Legal(sa, ch, Submit(packet, iv))
    ensures |iv| == sa.enc.ivLen
  {
  }

  /** Under any network: every delivered packet was sent, under the same number and in the
      same datagram; no number is sent twice and none is delivered twice. */
  lemma DeliveredWasSent(sa: Sa, ms: seq<Move>)
    requires Correct(sa) && 0 < sa.enc.blockLen <= 16 && LegalRun(sa, ms)
    ensures var ch := PlayAll(sa, ms);
            && (forall e :: e in ch.delivered ==> e in ch.sent)
            && Distinct(ch.delivered) && Ordered(ch.sent)
  {
    hide PlayAll, Correct, LegalRun;
    ChannelSound(sa, ms);
  }

  /** A sent datagram that arrives is delivered, as exactly its packet, if and only if it was
      not delivered before and is less than 64 behind the highest delivered number. A
      datagram that is not delivered, sent or injected, leaves the window as it was. */
  lemma DeliveredExactly(sa: Sa, ms: seq<Move>, e: Entry)
    requires Correct(sa) && 0 < sa.enc.blockLen <= 16 && LegalRun(sa, ms) && e in PlayAll(sa, ms).sent
    ensures var ch := PlayAll(sa, ms);
            var (w, r) := Receive(sa, ch.window, e.datagram);
            && (r == Some(e.packet) || r.None?)
            && (r.Some? <==> e.s !in Numbers(ch.delivered) && ch.window.highest - e.s < R.WIDTH)
            && (r.None? ==> w == ch.window)
  {
    hide PlayAll, Correct, LegalRun, R.Accept, Receive, Opened, Stripped;
    ChannelSound(sa, ms);
    ArrivalOfSent(sa, PlayAll(sa, ms), e);
  }

  lemma InjectedChangesNothing(sa: Sa, w: R.Window, d: bytes)
    requires !Authenticates(sa, d)
    ensures Receive(sa, w, d) == (w, None)
  {
  }

  /** Once the number space is used up nothing is sent again. */
  lemma ExhaustedStays(sa: Sa, o: Sender, packet: bytes, iv: bytes)
    requires 0 < sa.enc.blockLen <= 16 && (o.wrapped || o.next == 0)
    ensures var (n, r) := Send(sa, o, packet, iv); !r.Sent? && (n.wrapped || n.next == 0)
  {
  }

  // ---- The numbers ----

  predicate TakesNumber(m: Move) {
    m.Submit? && m.packet != [] && (m.packet[0] / 16 == 4 || m.packet[0] / 16 == 6)
  }

  function Taken(ms: seq<Move>): nat {
    if ms == [] then 0 else Taken(ms[..|ms| - 1]) + if TakesNumber(ms[|ms| - 1]) then 1 else 0
  }

  /** Numbers are given out from 1 on, one for every IPv4 or IPv6 packet submitted, the oversized ones
      included; after 2^32 - 1 of them the sender stops for good. */
  lemma {:induction false} NumberedFromOne(sa: Sa, ms: seq<Move>)
    requires 0 < sa.enc.blockLen <= 16
    ensures var out, n := PlayAll(sa, ms).out, Taken(ms);
            if n < U32_LIMIT - 1 then out == Sender(n + 1, false) else out == Sender(0, n > U32_LIMIT - 1)
  {
    hide Datagram, Padded, Receive;
    if ms != [] { NumberedFromOne(sa, ms[..|ms| - 1]); }
  }

  /** What the latest submission was sent under. */
  lemma SentUnder(sa: Sa, ms: seq<Move>)
    requires 0 < sa.enc.blockLen <= 16 && ms != [] && ms[|ms| - 1].Submit?
    ensures var before, after := PlayAll(sa, ms[..|ms| - 1]).sent, PlayAll(sa, ms).sent;
            || after == before
            || (&& |after| == |before| + 1 && after[..|before|] == before && Taken(ms) < U32_LIMIT
                && after[|before|].s == Taken(ms) && after[|before|].packet == ms[|ms| - 1].packet)
  {
    hide Datagram, Padded, Receive;
    NumberedFromOne(sa, ms[..|ms| - 1]);
  }
}
