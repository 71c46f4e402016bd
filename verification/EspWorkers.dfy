/** The two ESP codecs in place. */
module EspWorkers {
  import opened Bytes
  import opened Esp
  import R = Replay

  const U64_LIMIT := 0x1_0000_0000_0000_0000

  /** Rekey triggers: a sequence number, a byte count and a packet count; 0 disables each. */
  datatype FlowLimits = FlowLimits(warnAt: u32, bytes_: u64, packets: u64)

  predicate LimitHit(limits: FlowLimits, next: u32, bytesOut: u64, packets: u64) {
    || (limits.bytes_ > 0 && bytesOut >= limits.bytes_)
    || (limits.packets > 0 && packets >= limits.packets)
    || (limits.warnAt > 0 && next >= limits.warnAt)
  }

  class Outbound {
    const sa: Sa
    const limits: FlowLimits
    /** Whether anyone listens to the triggers. */
    const listens: bool
    var next: u32
    var wrapped: bool
    var packets: u64
    var bytesOut: u64
    var warned: bool
    /** Triggers raised so far. */
    var raised: nat

    ghost predicate Valid()
      reads this
    {
      0 < sa.enc.blockLen <= 16 && raised == if warned then 1 else 0
    }

    function View(): Sender
      reads this
    {
      Sender(next, wrapped)
    }

    constructor (sa: Sa, limits: FlowLimits, listens: bool)
      requires 0 < sa.enc.blockLen <= 16
      ensures Valid() && View() == START && this.sa == sa && this.limits == limits && this.listens == listens
      ensures !warned && packets == bytesOut == 0
    {
      this.sa, this.limits, this.listens := sa, limits, listens;
      next, wrapped, packets, bytesOut, warned, raised := 1, false, 0, 0, false, 0;
    }

    /** At most one trigger per SA, raised the first time a limit is reached. */
    method CheckFlowTriggers()
      requires Valid()
      modifies this`warned, this`raised
      ensures Valid() && (raised > old(raised) <==> warned && !old(warned))
      ensures warned <==> old(warned) || (listens && (|| 0 < limits.bytes_ <= bytesOut || 0 < limits.packets <= packets
                                                      || 0 < limits.warnAt <= next))
    {
      if warned || !listens || !LimitHit(limits, next, bytesOut, packets) { return; }
      warned := true;
      raised := raised + 1;
    }

    method Pad(packet: bytes, header: u8) returns (plain: bytes)
      requires Valid()
      ensures plain == Padded(sa.enc.blockLen, packet, header)
    {
      var padLen := PadLen(sa.enc.blockLen, |packet|);
      plain := packet;
      for i := 1 to padLen + 1
        invariant plain == packet + Padding(padLen)[..i - 1]
      {
        plain := plain + [i];
      }
      plain := plain + [padLen, header];
    }

    method Process(packet: bytes, iv: bytes) returns (r: Sent)
      requires Valid()
      modifies this
      ensures Valid() && (View(), r) == Send(sa, old(View()), packet, iv)
      ensures next == old(next) ==> packets == old(packets) && bytesOut == old(bytesOut) && warned == old(warned)
      ensures next != old(next) ==>
        packets == (old(packets) + 1) % U64_LIMIT && bytesOut == (old(bytesOut) + |packet|) % U64_LIMIT
                                    && warned == (old(warned) || (listens && LimitHit(limits, next, bytesOut, packets)))
    {
      if wrapped { return Exhausted; }
      if packet == [] { return Refused; }
      var header := NextHeader(packet[0]);
      if header.None? { return Refused; }
      var plain := Pad(packet, header.value);
      if next == 0 {
        wrapped := true;
        return Exhausted;
      }
      var s := next;
      next := (next + 1) % U32_LIMIT;
      packets := (packets + 1) % U64_LIMIT;
      bytesOut := (bytesOut + |packet|) % U64_LIMIT;
      CheckFlowTriggers();
      if HEADER_LEN + sa.enc.ivLen + |plain| + IcvLen(sa) > MAX_WIRE { return Refused; }
      return Sent(Datagram(sa, s, iv, plain));
    }
  }

  class Inbound {
    const sa: Sa
    const window: R.ReplayWindow

    constructor (sa: Sa)
      ensures this.sa == sa && fresh(window) && window.View() == R.FRESH
    {
      this.sa := sa;
      window := new R.ReplayWindow();
    }

    /** The window moves only for a fully authenticated and well-formed packet. */
    method Process(d: bytes) returns (r: Option<bytes>)
      modifies window
      ensures (window.View(), r) == Receive(sa, old(window.View()), d)
    {
      if |d| < HEADER_LEN || Get32(d[..4]) != sa.spi { return None; }
      var s := Get32(d[4..8]);
      if s == 0 { return None; }
      if |d| < HEADER_LEN + sa.enc.ivLen + IcvLen(sa) { return None; }
      var plain := Opened(sa, d);
      if plain.None? { return None; }
      var inner := Stripped(plain.value);
      if inner.None? { return None; }
      WindowStays(window.View(), s);
      var ok := window.AcceptSeq(s);
      return if ok then inner else None;
    }
  }

  lemma WindowStays(w: R.Window, s: u32)
    ensures !R.Accept(w, s).1 ==> R.Accept(w, s).0 == w
  {
  }
}
