/** PEAP fragmentation: one TLS message as a train of packets, each but the first sent on an
    acknowledgement, and its reassembly (section 2.1.5 of RFC 5216). */
module Peap {
  import opened Bytes
  import F = Fragments

  const LENGTH_INCLUDED := 0x80
  const MORE_FRAGMENTS := 0x40
  const START := 0x20

  predicate HasLength(flags: u8) {
    flags >= LENGTH_INCLUDED
  }

  predicate HasMore(flags: u8) {
    flags / MORE_FRAGMENTS % 2 == 1
  }

  predicate HasStart(flags: u8) {
    flags / START % 2 == 1
  }

  // ---- Sending ----

  function Min(a: nat, b: nat): nat {
    if a < b then a else b
  }

  /** The first packet: a fragmented message always announces its length, a single packet
      only when configured. The length field is 32 bits wide. */
  function FirstPacket(p: bytes, chunk: nat, includeLength: bool): (r: bytes)
    ensures r != []
  {
    var more := |p| > chunk;
    var flags := (if more || includeLength then LENGTH_INCLUDED else 0) + if more then MORE_FRAGMENTS else 0;
    [flags] + (if more || includeLength then Put32(|p| % U32_LIMIT) else []) + p[..Min(|p|, chunk)]
  }

  function NextPacket(p: bytes, off: nat, chunk: nat): bytes
    requires off <= |p|
  {
    var end := Min(|p|, off + chunk);
    [if end < |p| then MORE_FRAGMENTS else 0] + p[off..end]
  }

  /** One packet per acknowledgement until the message is used up. */
  function Rest(p: bytes, off: nat, chunk: nat): seq<bytes>
    requires off <= |p| && chunk > 0
    decreases |p| - off
  {
    if off == |p| then [] else [NextPacket(p, off, chunk)] + Rest(p, Min(|p|, off + chunk), chunk)
  }

  function Train(p: bytes, chunk: nat, includeLength: bool): seq<bytes>
    requires chunk > 0
  {
    [FirstPacket(p, chunk, includeLength)] + Rest(p, Min(|p|, chunk), chunk)
  }

  // ---- Receiving ----

  datatype Request = Request(flags: u8, length: Option<u32>, data: bytes)

  function Parse(payload: bytes): Option<Request> {
    if payload == [] || payload[0] % 8 != 0 then None
    else if HasLength(payload[0]) then
      if |payload| < 5 then None else Some(Request(payload[0], Some(Get32(payload[1..5])), payload[5..]))
    else Some(Request(payload[0], None, payload[1..]))
  }

  predicate IsAck(r: Request) {
    r.data == [] && r.length.None? && !HasStart(r.flags) && !HasMore(r.flags) && !HasLength(r.flags)
  }

  /** What was collected so far, and the announced length once it is known. */
  datatype Inbox = Inbox(parts: seq<bytes>, total: nat, expected: Option<nat>)

  const EMPTY := Inbox([], 0, None)

  datatype Result = Incomplete | Rejected | Complete(whole: bytes)

  function Gather(s: Inbox, flags: u8, data: bytes): (Inbox, Result)
    requires s.expected.Some?
  {
    var n := s.(parts := s.parts + [data], total := s.total + |data|);
    if n.total > n.expected.value then (n, Rejected)
    else if HasMore(flags) then (n, Incomplete)
    else if n.total != n.expected.value then (n, Rejected)
    else (EMPTY, Complete(F.Join(n.parts)))
  }

  function Push(s: Inbox, flags: u8, length: u32, data: bytes): (Inbox, Result) {
    if HasLength(flags) then
      if s.expected.Some? || length == 0 then (s, Rejected) else Gather(Inbox([], 0, Some(length)), flags, data)
    else if s.expected.None? then
      if HasMore(flags) then (s, Rejected) else (s, Complete(data))
    else Gather(s, flags, data)
  }

  /** A packet that parses as an acknowledgement is not collected. */
  datatype Seen = Bad | Ack | Collected(r: Result)

  function Take(s: Inbox, packet: bytes): (Inbox, Seen) {
    match Parse(packet)
    case None => (s, Bad)
    case Some(req) =>
      if IsAck(req) then (s, Ack) else
      var (n, r) := Push(s, req.flags, if req.length.Some? then req.length.value else 0, req.data);
      (n, Collected(r))
  }

  function TakeAll(s: Inbox, packets: seq<bytes>): (Inbox, seq<Seen>)
    decreases |packets|
  {
    if packets == [] then (s, []) else
    var (n, seen) := Take(s, packets[0]);
    var (last, rest) := TakeAll(n, packets[1..]);
    (last, [seen] + rest)
  }

  /** Everything is collected, only the last packet completes, and with these octets. */
  ghost predicate Delivers(seen: seq<Seen>, p: bytes) {
    && seen != [] && seen[|seen| - 1] == Collected(Complete(p))
    && forall i :: 0 <= i < |seen| - 1 ==> seen[i] == Collected(Incomplete)
  }

  // ---- How many packets ----

  lemma {:induction false} RestCount(p: bytes, off: nat, chunk: nat)
    requires off <= |p| && chunk > 0
    ensures |Rest(p, off, chunk)| == (|p| - off + chunk - 1) / chunk
    decreases |p| - off
  {
    if off < |p| {
      var end := Min(|p|, off + chunk);
      RestCount(p, end, chunk);
      if off + chunk <= |p| {
        F.DivStep(|p| - off + chunk - 1, chunk);
      } else {
        F.DivOne(|p| - off, chunk); ZeroBlocks(chunk);
      }
    } else {
      ZeroBlocks(chunk);
    }
  }

  lemma ZeroBlocks(chunk: nat)
    requires chunk > 0
    ensures (chunk - 1) / chunk == 0
  {
  }

  /** ceil(n / chunk) packets for a non-empty message. */
  lemma TrainCount(p: bytes, chunk: nat, includeLength: bool)
    requires p != [] && chunk > 0
    ensures |Train(p, chunk, includeLength)| == (|p| + chunk - 1) / chunk
  {
    RestCount(p, Min(|p|, chunk), chunk);
    if |p| > chunk { F.DivStep(|p| + chunk - 1, chunk); } else { F.DivOne(|p|, chunk); ZeroBlocks(chunk); }
  }

  // ---- What is on the wire ----

  lemma {:induction false} RestAt(p: bytes, off: nat, chunk: nat, k: nat)
    requires off <= |p| && chunk > 0 && k < |Rest(p, off, chunk)|
    ensures off + k * chunk < |p| && Rest(p, off, chunk)[k] == NextPacket(p, off + k * chunk, chunk)
    decreases k
  {
    if k > 0 {
      assert off + chunk < |p|;
      RestAt(p, off + chunk, chunk, k - 1);
      assert off + chunk + (k - 1) * chunk == off + k * chunk;
    }
  }

  /** Packet `k` of a train: the flag 0x40 on all but the last; 0x80 and the length in four octets on the
      first one, if there are more or it is asked for; then the octets from `k * chunk` on. */
  lemma TrainLayout(p: bytes, chunk: nat, includeLength: bool, k: nat)
    requires p != [] && chunk > 0 && k < |Train(p, chunk, includeLength)|
    ensures 0 <= k * chunk < |p|
    ensures var end := if k * chunk + chunk < |p| then k * chunk + chunk else |p|;
            var more := if end < |p| then 0x40 else 0;
            Train(p, chunk, includeLength)[k] ==
            (if k == 0 && (more > 0 || includeLength) then [0x80 + more] + Put32(|p| % U32_LIMIT) else [more])
            + p[k * chunk..end]
  {
    hide Put32, Rest, NextPacket, FirstPacket;
    if k == 0 {
      assert k * chunk == 0;
      FirstOctets(p, chunk, includeLength);
    } else {
      var off := Min(|p|, chunk);
      RestAt(p, off, chunk, k - 1);
      assert (k - 1) * chunk >= 0 && k * chunk == chunk + (k - 1) * chunk;
      NextOctets(p, k * chunk, chunk);
    }
  }

  lemma FirstOctets(p: bytes, chunk: nat, includeLength: bool)
    requires p != [] && chunk > 0
    ensures var end := if chunk < |p| then chunk else |p|;
            var more := if end < |p| then 0x40 else 0;
            FirstPacket(p, chunk, includeLength) ==
            (if more > 0 || includeLength then [0x80 + more] + Put32(|p| % U32_LIMIT) else [more]) + p[0..end]
  {
    hide Put32;
  }

  lemma NextOctets(p: bytes, off: nat, chunk: nat)
    requires off < |p|
    ensures var end := if off + chunk < |p| then off + chunk else |p|;
            NextPacket(p, off, chunk) == [if end < |p| then 0x40 else 0] + p[off..end]
  {
  }

  // ---- Reassembly ----

  ghost predicate Holds(s: Inbox, p: bytes, off: nat) {
    off <= |p| && s.total == off && F.Join(s.parts) == p[..off] && s.expected == Some(|p|)
  }

  lemma {:induction false} JoinSnoc(parts: seq<bytes>, last: bytes)
    ensures F.Join(parts + [last]) == F.Join(parts) + last
  {
    if parts == [] {
      assert [] + [last] == [last] && [last][1..] == [] && last + [] == last == [] + last;
    } else {
      assert (parts + [last])[1..] == parts[1..] + [last];
      JoinSnoc(parts[1..], last);
    }
  }

  /** When a packet completes a message, whoever sent it: it is marked last, and everything collected
      together with it has exactly the announced length, which must not be announced twice or as 0. A
      single packet may do without. */
  lemma CompletesExactly(s: Inbox, flags: u8, length: u32, data: bytes, whole: bytes)
    requires s.total == |F.Join(s.parts)|
    ensures Push(s, flags, length, data).1 == Complete(whole) <==>
            && flags / 0x40 % 2 == 0
            && (if flags >= 0x80 then s.expected.None? && whole == data && |whole| == length > 0
                else if s.expected.None? then whole == data
                else whole == F.Join(s.parts) + data && |whole| == s.expected.value)
    ensures Push(s, flags, length, data).1.Complete? && (flags >= 0x80 || s.expected.Some?) ==>
            Push(s, flags, length, data).0 == EMPTY
  {
    JoinSnoc(s.parts, data);
    JoinSnoc([], data);
    assert [] + [data] == [data];
  }

  lemma GatherKeeps(s: Inbox, p: bytes, off: nat, end: nat, flags: u8)
    requires Holds(s, p, off) && off <= end <= |p| && (HasMore(flags) <==> end < |p|)
    ensures var (n, r) := Gather(s, flags, p[off..end]);
            if end < |p| then Holds(n, p, end) && r == Incomplete else n == EMPTY && r == Complete(p)
  {
    JoinSnoc(s.parts, p[off..end]);
    assert p[..off] + p[off..end] == p[..end] && p[..|p|] == p;
  }

  /** A later packet parses back to its chunk and is no acknowledgement. */
  lemma NextTaken(s: Inbox, p: bytes, off: nat, chunk: nat)
    requires Holds(s, p, off) && off < |p| && chunk > 0
    ensures var end := Min(|p|, off + chunk);
            var (n, seen) := Take(s, NextPacket(p, off, chunk));
            if end < |p| then Holds(n, p, end) && seen == Collected(Incomplete)
            else n == EMPTY && seen == Collected(Complete(p))
  {
    var end := Min(|p|, off + chunk);
    var packet := NextPacket(p, off, chunk);
    assert packet[1..] == p[off..end];
    GatherKeeps(s, p, off, end, packet[0]);
  }

  lemma {:induction false} RestDelivers(s: Inbox, p: bytes, off: nat, chunk: nat)
    requires Holds(s, p, off) && off < |p| && chunk > 0
    ensures TakeAll(s, Rest(p, off, chunk)).0 == EMPTY && Delivers(TakeAll(s, Rest(p, off, chunk)).1, p)
    decreases |p| - off
  {
    hide Take, NextPacket;
    var ps, end := Rest(p, off, chunk), Min(|p|, off + chunk);
    NextTaken(s, p, off, chunk);
    assert ps[1..] == Rest(p, end, chunk);
    if end < |p| { RestDelivers(Take(s, ps[0]).0, p, end, chunk); } else { assert ps[1..] == []; }
  }

  lemma FirstParses(p: bytes, chunk: nat, includeLength: bool)
    requires chunk > 0
    ensures var more := |p| > chunk;
            Parse(FirstPacket(p, chunk, includeLength))
            == Some(Request(FirstPacket(p, chunk, includeLength)[0], if more ||
                            includeLength then Some(|p| % U32_LIMIT) else None, p[..Min(|p|, chunk)]))
    ensures var flags := FirstPacket(p, chunk, includeLength)[0];
            (HasMore(flags) <==> |p| > chunk) && (HasLength(flags) <==> |p| > chunk || includeLength) &&
              !HasStart(flags)
  {
    var packet := FirstPacket(p, chunk, includeLength);
    if |p| > chunk || includeLength {
      assert packet[1..5] == Put32(|p| % U32_LIMIT) && packet[5..] == p[..Min(|p|, chunk)];
      GetPut32(|p| % U32_LIMIT);
    } else {
      assert packet[1..] == p[..Min(|p|, chunk)];
    }
  }

  /** The condition on a message: it has octets, and its length fits the length field if
      that field is sent. */
  predicate Sendable(p: bytes, chunk: nat, includeLength: bool) {
    p != [] && (|p| < U32_LIMIT || (|p| <= chunk && !includeLength))
  }

  lemma FirstTaken(p: bytes, chunk: nat, includeLength: bool)
    requires Sendable(p, chunk, includeLength) && chunk > 0
    ensures var (n, seen) := Take(EMPTY, FirstPacket(p, chunk, includeLength));
            if |p| > chunk then Holds(n, p, chunk) && seen == Collected(Incomplete)
            else n == EMPTY && seen == Collected(Complete(p))
  {
    hide FirstPacket, Parse;
    FirstParses(p, chunk, includeLength);
    var end := Min(|p|, chunk);
    assert p[..end] == p[0..end] && p[..|p|] == p && F.Join([]) == [] == p[..0];
    if |p| > chunk ||
      includeLength { GatherKeeps(Inbox([], 0, Some(|p|)), p, 0, end, FirstPacket(p, chunk, includeLength)[0]); }
  }

  lemma SendableDelivers(p: bytes, chunk: nat, includeLength: bool)
    requires Sendable(p, chunk, includeLength) && chunk > 0
    ensures TakeAll(EMPTY, Train(p, chunk, includeLength)).0 == EMPTY
    ensures Delivers(TakeAll(EMPTY, Train(p, chunk, includeLength)).1, p)
  {
    hide Take, FirstPacket, Rest;
    var ps := Train(p, chunk, includeLength);
    FirstTaken(p, chunk, includeLength);
    assert ps[1..] == Rest(p, Min(|p|, chunk), chunk);
    if |p| > chunk { RestDelivers(Take(EMPTY, ps[0]).0, p, chunk, chunk); } else { NoRest(p, chunk); }
  }

  lemma NoRest(p: bytes, chunk: nat)
    requires chunk > 0
    ensures Rest(p, |p|, chunk) == []
  {
  }

  lemma DeliversSplit(seen: Seen, rest: seq<Seen>, p: bytes)
    requires Delivers([seen] + rest, p)
    ensures if rest == [] then seen == Collected(Complete(p)) else seen == Collected(Incomplete) && Delivers(rest, p)
  {
    var all := [seen] + rest;
    assert forall i :: 0 <= i < |rest| ==> rest[i] == all[i + 1];
    if rest != [] { assert all[0] == seen; }
  }

  /** The octets an inbox holds are as many as it counted. */
  ghost predicate Counted(s: Inbox) {
    s.expected.Some? && |F.Join(s.parts)| == s.total
  }

  lemma GatherCounts(s: Inbox, flags: u8, data: bytes)
    requires Counted(s)
    ensures var (n, r) := Gather(s, flags, data);
            && (r == Incomplete ==> Counted(n) && n.expected == s.expected)
            && (r.Complete? ==> |r.whole| == s.expected.value)
  {
    JoinSnoc(s.parts, data);
  }

  lemma TakeCounts(s: Inbox, packet: bytes)
    requires Counted(s)
    ensures var (n, seen) := Take(s, packet);
            && (seen == Collected(Incomplete) ==> Counted(n) && n.expected == s.expected)
            && (seen.Collected? && seen.r.Complete? ==> |seen.r.whole| == s.expected.value)
  {
    hide Gather, Parse;
    if Parse(packet).Some? { GatherCounts(s, Parse(packet).value.flags, Parse(packet).value.data); }
  }

  /** An inbox that expects another number of octets never completes `p`. */
  lemma {:induction false} NeverWhole(s: Inbox, packets: seq<bytes>, p: bytes)
    requires Counted(s) && s.expected.value != |p|
    ensures !Delivers(TakeAll(s, packets).1, p)
    decreases |packets|
  {
    hide Take, Delivers;
    if packets != [] {
      var (n, seen) := Take(s, packets[0]);
      var rest := TakeAll(n, packets[1..]).1;
      TakeCounts(s, packets[0]);
      if seen == Collected(Incomplete) { NeverWhole(n, packets[1..], p); }
      if Delivers([seen] + rest, p) { DeliversSplit(seen, rest, p); }
    } else {
      NothingDelivers(p);
    }
  }

  lemma NothingDelivers(p: bytes)
    ensures !Delivers([], p)
  {
  }

  /** Otherwise the first packet is an acknowledgement, or announces the wrong length. */
  lemma UnsendableFails(p: bytes, chunk: nat, includeLength: bool)
    requires !Sendable(p, chunk, includeLength) && chunk > 0
    ensures !Delivers(TakeAll(EMPTY, Train(p, chunk, includeLength)).1, p)
  {
    hide FirstPacket, Parse, Rest, Delivers, Gather;
    var ps := Train(p, chunk, includeLength);
    var first := FirstPacket(p, chunk, includeLength);
    FirstParses(p, chunk, includeLength);
    assert ps[1..] == Rest(p, Min(|p|, chunk), chunk) && ps[0] == first;
    var (n, seen) := Take(EMPTY, first);
    var rest := TakeAll(n, ps[1..]).1;
    if |p| % U32_LIMIT != 0 { GatherCounts(Inbox([], 0, Some(|p| % U32_LIMIT)), first[0], p[..Min(|p|, chunk)]); }
    if seen == Collected(Incomplete) { NeverWhole(n, ps[1..], p); }
    if Delivers([seen] + rest, p) { DeliversSplit(seen, rest, p); }
  }

  /** Parsing and collecting the train in order delivers the message, completing at its last
      packet only and with no packet mistaken for an acknowledgement, if and only if the
      message is not empty and its length fits where it is announced. */
  lemma TrainDelivers(p: bytes, chunk: nat, includeLength: bool)
    requires chunk > 0
    ensures Delivers(TakeAll(EMPTY, Train(p, chunk, includeLength)).1, p) <==> Sendable(p, chunk, includeLength)
  {
    hide Take, FirstPacket, Rest, Delivers;
    if Sendable(p, chunk, includeLength) {
      SendableDelivers(p, chunk, includeLength);
    } else {
      UnsendableFails(p, chunk, includeLength);
    }
  }

  // ---- In place ----

  class OutboundFragmenter {
    var payload: Option<bytes>
    var offset: nat
    const chunk: nat
    const includeLength: bool

    ghost predicate Valid()
      reads this
    {
      chunk > 0 && (payload.Some? ==> offset <= |payload.value|)
    }

    constructor (chunk: nat, includeLength: bool)
      requires chunk > 0
      ensures Valid() && Left() == [] && this.chunk == chunk && this.includeLength == includeLength
    {
      payload, offset, this.chunk, this.includeLength := None, 0, chunk, includeLength;
    }

    predicate Pending()
      reads this
    {
      payload.Some? && offset < |payload.value|
    }

    /** The packets still to be sent. */
    ghost function Left(): seq<bytes>
      requires Valid()
      reads this
    {
      if payload.None? then [] else Rest(payload.value, offset, chunk)
    }

    /** The first packet; refused while another message is under way. */
    method Start(p: bytes) returns (packet: Option<bytes>)
      requires Valid()
      modifies this
      ensures Valid() && (packet.None? <==> old(Pending()))
      ensures if packet.None? then Left() == old(Left()) else [packet.value] + Left() == Train(p, chunk, includeLength)
    {
      if Pending() { return None; }
      var more := |p| > chunk;
      var flags: u8 := 0;
      if more || includeLength { flags := flags + LENGTH_INCLUDED; }
      if more { flags := flags + MORE_FRAGMENTS; }
      var pkt := [flags];
      if more || includeLength { pkt := pkt + Put32(|p| % U32_LIMIT); } else { assert pkt + [] == pkt; }
      var end := if |p| > chunk then chunk else |p|;
      pkt := pkt + p[..end];
      if more { payload, offset := Some(p), end; } else { payload, offset := None, 0; }
      NoRest(p, chunk);
      return Some(pkt);
    }

    /** The next packet, on an acknowledgement. */
    method Next() returns (packet: Option<bytes>)
      requires Valid()
      modifies this
      ensures Valid() && (packet.Some? <==> old(Pending()))
      ensures packet.Some? ==> [packet.value] + Left() == old(Left())
      ensures packet.None? ==> Left() == old(Left())
    {
      if !Pending() { return None; }
      var p, start := payload.value, offset;
      var end := if |p| > start + chunk then start + chunk else |p|;
      offset := end;
      var more := end < |p|;
      var pkt: bytes := [if more then MORE_FRAGMENTS else 0] + p[start..end];
      NoRest(p, chunk);
      if !more { payload, offset := None, 0; }
      return Some(pkt);
    }
  }

  class InboundFragmenter {
    var parts: seq<bytes>
    var total: nat
    var expected: Option<nat>

    function View(): Inbox
      reads this
    {
      Inbox(parts, total, expected)
    }

    constructor ()
      ensures View() == EMPTY
    {
      parts, total, expected := [], 0, None;
    }

    method PushFragment(flags: u8, length: u32, data: bytes) returns (r: Result)
      modifies this
      ensures (View(), r) == Push(old(View()), flags, length, data)
    {
      if HasLength(flags) {
        if expected.Some? || length == 0 { return Rejected; }
        parts, total, expected := [], 0, Some(length);
      } else if expected.None? {
        return if HasMore(flags) then Rejected else Complete(data);
      }
      parts, total := parts + [data], total + |data|;
      if total > expected.value { return Rejected; }
      if HasMore(flags) { return Incomplete; }
      if total != expected.value { return Rejected; }
      var joined: bytes := [];
      assert parts[0..] == parts;
      for i := 0 to |parts|
        invariant F.Join(parts) == joined + F.Join(parts[i..])
      {
        assert parts[i..][1..] == parts[i + 1..];
        joined := joined + parts[i];
      }
      assert parts[|parts|..] == [] && joined + [] == joined;
      parts, total, expected := [], 0, None;
      return Complete(joined);
    }
  }

  /** While packets are left, only an acknowledgement is answered, with the next packet. */
  method Pace(out: OutboundFragmenter, request: Request) returns (packet: Option<bytes>)
    requires out.Valid() && out.Pending()
    modifies out
    ensures out.Valid() && (packet.Some? <==> IsAck(request))
    ensures packet.Some? ==> [packet.value] + out.Left() == old(out.Left())
    ensures packet.None? ==> out.Left() == old(out.Left())
  {
    if !IsAck(request) { return None; }
    packet := out.Next();
  }
}
