/** IKE messages on the wire: the header, the chain of payloads, the builder that writes
    both and the two ways an encrypted message is located (section 3 of RFC 7296). */
module WireMessage {
  import opened Bytes

  const HEADER_LEN := 28
  const PAYLOAD_HEADER_LEN := 4
  const SKF_HEADER_LEN := 4
  const VERSION: u8 := 0x20
  const NONE: u8 := 0
  const SK: u8 := 46
  const SKF: u8 := 53

  datatype Header = Header(spiI: u64, spiR: u64, next: u8, version: u8, exchange: u8, flags: u8, messageId: u32,
                           length: u32)
  datatype Payload = Payload(typ: u8, critical: bool, next: u8, body: bytes)
  datatype Fragment = Fragment(number: u16, total: u16)
  datatype Encrypted = Encrypted(typ: u8, innerNext: u8, frag: Option<Fragment>, body: bytes)
  datatype Message = Message(header: Header, payloads: seq<Payload>, encrypted: Option<Encrypted>)

  // ---- Header ----

  function Marshal(h: Header): (b: bytes)
    ensures |b| == HEADER_LEN
  {
    Put64(h.spiI) + Put64(h.spiR) + [h.next, h.version, h.exchange, h.flags] + Put32(h.messageId) + Put32(h.length)
  }

  /** Only the response, version and initiator bits may be set. */
  predicate LegalFlags(flags: u8) {
    flags % 8 == 0 && flags < 0x40
  }

  function ParseHeader(b: bytes): Option<(Header, bytes)> {
    if |b| < HEADER_LEN then None else
    var declared := Get32(b[24..28]);
    if declared < HEADER_LEN || declared > |b| || b[17] != VERSION || !LegalFlags(b[19]) then None
    else Some((Header(Get64(b[0..8]), Get64(b[8..16]), b[16], b[17], b[18], b[19], Get32(b[20..24]), declared),
               b[HEADER_LEN..declared]))
  }

  /** Nothing of the header is lost in parsing it. */
  lemma HeaderRemarshals(b: bytes)
    requires ParseHeader(b).Some?
    ensures Marshal(ParseHeader(b).value.0) == b[..HEADER_LEN]
  {
    hide Put64, Get64, Put32, Get32;
    PutGet64(b[0..8]);
    PutGet64(b[8..16]);
    PutGet32(b[20..24]);
    PutGet32(b[24..28]);
    assert b[..28] == b[0..8] + b[8..16] + [b[16], b[17], b[18], b[19]] + b[20..24] + b[24..28];
  }

  lemma HeaderParses(h: Header, rest: bytes)
    requires h.version == VERSION && LegalFlags(h.flags) && h.length == HEADER_LEN + |rest|
    ensures ParseHeader(Marshal(h) + rest) == Some((h, rest))
  {
    hide Put64, Get64, Put32, Get32;
    var b := Marshal(h) + rest;
    assert b[0..8] == Put64(h.spiI) && b[8..16] == Put64(h.spiR) && b[20..24] == Put32(h.messageId) &&
      b[24..28] == Put32(h.length);
    GetPut64(h.spiI);
    GetPut64(h.spiR);
    GetPut32(h.messageId);
    GetPut32(h.length);
    assert [b[16], b[17], b[18], b[19]] == [h.next, h.version, h.exchange, h.flags];
    assert b[HEADER_LEN..h.length] == rest;
  }

  // ---- Payload chains ----

  function ParseSkfHeader(b: bytes): Option<(Fragment, bytes)> {
    if |b| < SKF_HEADER_LEN then None else
    var f := Fragment(Get16(b[0..2]), Get16(b[2..4]));
    if f.number == 0 || f.total == 0 || f.number > f.total then None else Some((f, b[SKF_HEADER_LEN..]))
  }

  function ReadEncrypted(typ: u8, innerNext: u8, body: bytes): Option<Encrypted> {
    if typ == SK then Some(Encrypted(typ, innerNext, None, body)) else
    match ParseSkfHeader(body)
    case None => None
    case Some((f, tail)) => Some(Encrypted(typ, innerNext, Some(f), tail))
  }

  /** The declared length of the payload at the front, if it fits. */
  function LengthAt(rest: bytes): Option<nat> {
    if |rest| < PAYLOAD_HEADER_LEN then None else
    var n := Get16(rest[2..4]);
    if n < PAYLOAD_HEADER_LEN || n > |rest| then None else Some(n)
  }

  predicate IsEncrypted(typ: u8) {
    typ == SK || typ == SKF
  }

  function ParsePayloads(rest: bytes, next: u8, stop: bool): Option<(seq<Payload>, Option<Encrypted>)>
    decreases |rest|
  {
    if next == NONE then (if rest == [] then Some(([], None)) else None) else
    match LengthAt(rest)
    case None => None
    case Some(n) =>
      if IsEncrypted(next) then
        if !stop || n != |rest| then None else
        match ReadEncrypted(next, rest[0], rest[4..n])
        case None => None
        case Some(e) => Some(([], Some(e)))
      else
        match ParsePayloads(rest[n..], rest[0], stop)
        case None => None
        case Some((ps, e)) => Some(([Payload(next, rest[1] >= 0x80, rest[0], rest[4..n])] + ps, e))
  }

  function ParseMessage(b: bytes): Option<Message> {
    match ParseHeader(b)
    case None => None
    case Some((h, rest)) =>
      match ParsePayloads(rest, h.next, true)
      case None => None
      case Some((ps, e)) => Some(Message(h, ps, e))
  }

  /** The loop over the remaining octets and the next type. */
  method ParsePayloadChain(buf: bytes, first: u8, stop: bool) returns (r: Option<(seq<Payload>, Option<Encrypted>)>)
    ensures r == ParsePayloads(buf, first, stop)
  {
    var rest, next, payloads := buf, first, [];
    ghost var whole := ParsePayloads(buf, first, stop);
    assert whole.Some? ==> [] + whole.value.0 == whole.value.0;
    while next != NONE
      invariant whole == match ParsePayloads(rest, next, stop)
                         case None => None
                         case Some((ps, e)) => Some((payloads + ps, e))
      decreases |rest|
    {
      var length := LengthAt(rest);
      if length.None? { return None; }
      var n := length.value;
      if IsEncrypted(next) {
        if !stop || n != |rest| { return None; }
        var e := ReadEncrypted(next, rest[0], rest[4..n]);
        assert payloads + [] == payloads;
        return if e.None? then None else Some((payloads, e));
      }
      ghost var tail := ParsePayloads(rest[n..], rest[0], stop);
      var p := Payload(next, rest[1] >= 0x80, rest[0], rest[4..n]);
      assert tail.Some? ==> payloads + ([p] + tail.value.0) == payloads + [p] + tail.value.0;
      payloads, next, rest := payloads + [p], rest[0], rest[n..];
    }
    assert payloads + [] == payloads;
    return if rest == [] then Some((payloads, None)) else None;
  }

  // ---- The builder ----

  datatype Item = Item(typ: u8, critical: bool, body: bytes)

  predicate Pushable(i: Item) {
    i.typ != NONE && PAYLOAD_HEADER_LEN + |i.body| <= 0xFFFF
  }

  predicate AllPushable(items: seq<Item>) {
    forall k :: 0 <= k < |items| ==> Pushable(items[k])
  }

  /** None of them is an encrypted payload. */
  predicate Clear(items: seq<Item>) {
    forall k :: 0 <= k < |items| ==> !IsEncrypted(items[k].typ)
  }

  function FirstType(items: seq<Item>): u8 {
    if items == [] then NONE else items[0].typ
  }

  function PayloadHeader(next: u8, critical: bool, bodyLen: nat): (b: bytes)
    requires PAYLOAD_HEADER_LEN + bodyLen <= 0xFFFF
    ensures |b| == PAYLOAD_HEADER_LEN
  {
    [next, if critical then 0x80 else 0] + Put16(PAYLOAD_HEADER_LEN + bodyLen)
  }

  /** A chain: each payload names the type of the one after it, the last one none. */
  function Chain(items: seq<Item>): bytes
    requires AllPushable(items)
  {
    if items == [] then []
    else PayloadHeader(FirstType(items[1..]), items[0].critical, |items[0].body|) + items[0].body + Chain(items[1..])
  }

  /** The payloads a chain is read as. */
  function Linked(items: seq<Item>): seq<Payload> {
    if items == [] then []
    else [Payload(items[0].typ, items[0].critical, FirstType(items[1..]), items[0].body)] + Linked(items[1..])
  }

  lemma HeadParses(next: u8, critical: bool, body: bytes, tail: bytes)
    requires PAYLOAD_HEADER_LEN + |body| <= 0xFFFF
    ensures var b := PayloadHeader(next, critical, |body|) + body + tail;
            && LengthAt(b) == Some(4 + |body|) && b[0] == next && (b[1] >= 0x80 <==> critical)
            && b[4..4 + |body|] == body && b[4 + |body|..] == tail
  {
    var b := PayloadHeader(next, critical, |body|) + body + tail;
    assert b[2..4] == Put16(4 + |body|);
    GetPut16(4 + |body|);
  }

  lemma {:induction false} ChainParses(items: seq<Item>, stop: bool)
    requires AllPushable(items) && Clear(items)
    ensures ParsePayloads(Chain(items), FirstType(items), stop) == Some((Linked(items), None))
  {
    if items != [] {
      var i, tail := items[0], items[1..];
      HeadParses(FirstType(tail), i.critical, i.body, Chain(tail));
      ChainParses(tail, stop);
    }
  }

  function Finished(h: Header, items: seq<Item>): bytes
    requires AllPushable(items)
    requires HEADER_LEN + |Chain(items)| < U32_LIMIT
  {
    Marshal(h.(next := FirstType(items), length := HEADER_LEN + |Chain(items)|)) + Chain(items)
  }

  /** What the builder wrote is read back: the pushed list, in order, with the right links. */
  lemma BuiltParses(h: Header, items: seq<Item>)
    requires AllPushable(items) && Clear(items)
    requires HEADER_LEN + |Chain(items)| < U32_LIMIT && h.version == VERSION && LegalFlags(h.flags)
    ensures ParseMessage(Finished(h, items))
         == Some(Message(h.(next := FirstType(items), length := HEADER_LEN + |Chain(items)|), Linked(items), None))
  {
    hide Marshal, ParseHeader, Chain, ParsePayloads;
    var stamped := h.(next := FirstType(items), length := HEADER_LEN + |Chain(items)|);
    HeaderParses(stamped, Chain(items));
    ChainParses(items, true);
  }

  // ---- Where everything is (sections 3.1 and 3.2 of RFC 7296) ----

  /** A finished packet: the SPIs, the first type, version 2.0, exchange, flags, message-id and the
      length of the whole packet. */
  lemma HeaderLayout(h: Header, items: seq<Item>)
    requires AllPushable(items) && HEADER_LEN + |Chain(items)| < U32_LIMIT
    ensures var b := Finished(h, items);
            && b[..8] == Put64(h.spiI) && b[8..16] == Put64(h.spiR)
            && b[16] == (if items == [] then 0 else items[0].typ) && b[17] == h.version && b[18] == h.exchange
            && b[19] == h.flags && b[20..24] == Put32(h.messageId) && b[24..28] == Put32(|b|) && b[28..] == Chain(items)
  {
    hide Put64, Put32, Chain;
  }

  /** Which headers are accepted: the length covers the header and is there, version 2.0, and no flag
      but initiator (8), version (16) and response (32). */
  lemma HeaderAccepted(b: bytes)
    ensures ParseHeader(b).Some? <==>
            && |b| >= 28 && 28 <= Get32(b[24..28]) <= |b| && b[17] == 0x20
            && b[19] in {0, 8, 16, 24, 32, 40, 48, 56}
  {
    hide Get32;
  }

  /** Payload `k` of a chain, and what follows it: the next type, the critical bit, the length with the
      header, the body. */
  lemma {:induction false} ChainLayout(items: seq<Item>, k: nat) returns (at: nat)
    requires AllPushable(items) && k < |items|
    ensures at <= |Chain(items)|
    ensures var n := 4 + |items[k].body|;
            Chain(items)[at..] ==
            [if k + 1 < |items| then items[k + 1].typ else 0, if items[k].critical then 0x80 else 0]
            + [n / 0x100, n % 0x100]
            + items[k].body + Chain(items[k + 1..])
  {
    if k == 0 {
      at := 0;
      assert Chain(items)[0..] == Chain(items);
    } else {
      hide Put16;
      var n := ChainLayout(items[1..], k - 1);
      var head := PayloadHeader(FirstType(items[1..]), items[0].critical, |items[0].body|) + items[0].body;
      at := |head| + n;
      assert Chain(items) == head + Chain(items[1..]);
      assert Chain(items)[at..] == Chain(items[1..])[n..];
      assert items[1..][k..] == items[k + 1..];
    }
  }
}
