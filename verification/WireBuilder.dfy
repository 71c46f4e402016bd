/** The append-style builder: one buffer, and the offset of the next-payload field that
    the next push has to patch. */
module WireBuilder {
  import opened Bytes
  import opened WireMessage

  const MAX_PACKET := 0xFFFF + 28

  function Size(items: seq<Item>): nat {
    if items == [] then 0 else Size(items[..|items| - 1]) + PAYLOAD_HEADER_LEN + |items[|items| - 1].body|
  }

  /** A chain in which the last payload's next-payload field says `last`. */
  function Open(items: seq<Item>, last: u8): bytes
    requires AllPushable(items)
  {
    if items == [] then [] else
    var i := items[0];
    PayloadHeader(if |items| == 1 then last else items[1].typ, i.critical, |i.body|) + i.body + Open(items[1..], last)
  }

  lemma {:induction false} OpenIsChain(items: seq<Item>)
    requires AllPushable(items)
    ensures Open(items, NONE) == Chain(items)
  {
    if items != [] { OpenIsChain(items[1..]); }
  }

  lemma {:induction false} OpenSnoc(items: seq<Item>, i: Item, last: u8)
    requires AllPushable(items) && Pushable(i)
    ensures Open(items + [i], last) == Open(items, i.typ) + (PayloadHeader(last, i.critical, |i.body|) + i.body)
  {
    hide PayloadHeader, Put16;
    var all := items + [i];
    var piece := PayloadHeader(last, i.critical, |i.body|) + i.body;
    if items == [] {
      assert all[1..] == [] && piece + [] == piece == [] + piece;
    } else {
      var tail := items[1..];
      assert all[1..] == tail + [i];
      OpenSnoc(tail, i, last);
      var head := PayloadHeader(if |items| == 1 then i.typ else items[1].typ, items[0].critical,
                                |items[0].body|) + items[0].body;
      Assoc(head, Open(tail, i.typ), piece);
    }
  }

  lemma Assoc(a: bytes, b: bytes, c: bytes)
    ensures a + (b + c) == a + b + c
  {
  }

  lemma {:induction false} OpenSize(items: seq<Item>, last: u8)
    requires AllPushable(items)
    ensures |Open(items, last)| == Size(items)
    decreases |items|
  {
    if items != [] {
      var n := |items| - 1;
      assert items == items[..n] + [items[n]];
      OpenSnoc(items[..n], items[n], last);
      OpenSize(items[..n], items[n].typ);
    }
  }

  /** Patching the last next-payload field. */
  lemma OpenPatch(items: seq<Item>, last: u8)
    requires AllPushable(items) && items != []
    ensures var at := Size(items[..|items| - 1]);
            at < |Open(items, NONE)| && Open(items, NONE)[at := last] == Open(items, last)
  {
    hide Open, PayloadHeader, Size;
    var n := |items| - 1;
    var i, before := items[n], items[..n];
    assert items == before + [i];
    OpenSnoc(before, i, NONE);
    OpenSnoc(before, i, last);
    OpenSize(before, i.typ);
    HeaderPatch(last, i.critical, |i.body|);
    PatchAt(Open(before, i.typ), PayloadHeader(NONE, i.critical, |i.body|), PayloadHeader(last, i.critical, |i.body|),
            i.body, last);
  }

  lemma HeaderPatch(last: u8, critical: bool, n: nat)
    requires PAYLOAD_HEADER_LEN + n <= 0xFFFF
    ensures PayloadHeader(last, critical, n) == PayloadHeader(NONE, critical, n)[0 := last]
  {
  }

  lemma PatchAt(front: bytes, h0: bytes, h1: bytes, body: bytes, last: u8)
    requires |h0| == |h1| > 0 && h1 == h0[0 := last]
    ensures (front + (h0 + body))[|front| := last] == front + (h1 + body)
  {
  }

  /** The buffer, the first type and the offset to patch, after `items` were pushed. */
  ghost predicate Built(h: Header, items: seq<Item>, buf: bytes, first: Option<u8>, at: nat) {
    && AllPushable(items) && first == (if items == [] then None else Some(items[0].typ))
    && buf == Marshal(if items == [] then h else h.(next := items[0].typ)) + Open(items, NONE)
    && at == (if items == [] then 16 else HEADER_LEN + Size(items[..|items| - 1]))
    && |buf| <= MAX_PACKET
  }

  lemma BuiltMore(h: Header, items: seq<Item>, buf: bytes, first: Option<u8>, at: nat, i: Item)
    requires Built(h, items, buf, first, at) && Pushable(i) && |buf| + PAYLOAD_HEADER_LEN + |i.body| <= MAX_PACKET
    ensures at < |buf|
    ensures Built(h, items + [i], buf[at := i.typ] + PayloadHeader(NONE, i.critical, |i.body|) + i.body,
                  if first.None? then Some(i.typ) else first, |buf|)
  {
    hide Open, PayloadHeader, Marshal, Size, Put16;
    PushedBuffer(h, items, i);
    OpenSize(items, NONE);
    assert (items + [i])[..|items|] == items;
  }

  class Builder {
    var buf: bytes
    var first: Option<u8>
    var lastNextOffset: nat
    const header: Header
    ghost var items: seq<Item>

    ghost predicate Valid()
      reads this
    {
      Built(header, items, buf, first, lastNextOffset)
    }

    constructor (h: Header)
      ensures Valid() && items == [] && header == h
    {
      buf, first, lastNextOffset, header, items := Marshal(h), None, 16, h, [];
      new;
      assert Marshal(h) + [] == Marshal(h);
    }

    /** A payload is appended and the field before it patched; a refused one changes nothing. */
    method Push(i: Item) returns (ok: bool)
      requires Valid()
      modifies this
      ensures Valid() && (ok <==> Pushable(i) && old(|buf|) + PAYLOAD_HEADER_LEN + |i.body| <= MAX_PACKET)
      ensures items == if ok then old(items) + [i] else old(items)
    {
      if !Pushable(i) || |buf| + PAYLOAD_HEADER_LEN + |i.body| > MAX_PACKET { return false; }
      hide Built, PayloadHeader;
      BuiltMore(header, items, buf, first, lastNextOffset, i);
      var start := |buf|;
      buf := buf[lastNextOffset := i.typ] + PayloadHeader(NONE, i.critical, |i.body|) + i.body;
      lastNextOffset := start;
      if first.None? { first := Some(i.typ); }
      items := items + [i];
      return true;
    }

    /** The first type and the total length are stamped into the header. */
    method Finish() returns (packet: bytes)
      requires Valid()
      modifies this`buf
      ensures HEADER_LEN + |Chain(items)| < U32_LIMIT && packet == Finished(header, items)
    {
      OpenIsChain(items);
      buf := buf[16 := if first.Some? then first.value else NONE];
      buf := buf[..24] + Put32(|buf|) + buf[28..];
      StampedHeader(if items == [] then header else header.(next := items[0].typ), FirstType(items), |buf|);
      return buf;
    }
  }

  lemma PatchedHeader(h: Header, next: u8)
    ensures Marshal(h)[16 := next] == Marshal(h.(next := next))
  {
  }

  lemma StampedHeader(h: Header, next: u8, length: u32)
    ensures var b := Marshal(h)[16 := next]; b[..24] + Put32(length) == Marshal(h.(next := next, length := length))
  {
    hide Put32, Put64;
    PatchedHeader(h, next);
    var b := Marshal(h.(next := next));
    assert b[..24] == Put64(h.spiI) + Put64(h.spiR) + [next, h.version, h.exchange, h.flags] + Put32(h.messageId);
  }

  /** Patching the field before the end of the buffer links the next payload in. */
  lemma PatchedNext(h: Header, items: seq<Item>, i: Item)
    requires AllPushable(items)
    ensures var head := Marshal(if items == [] then h else h.(next := items[0].typ));
            var at := if items == [] then 16 else HEADER_LEN + Size(items[..|items| - 1]);
            && at < |head + Open(items, NONE)|
            && (head + Open(items, NONE))[at := i.typ] == Marshal(h.(next := (items + [i])[0].typ)) + Open(items, i.typ)
  {
    if items == [] {
      PatchedHeader(h, i.typ);
      assert Marshal(h) + [] == Marshal(h) && Marshal(h.(next := i.typ)) + [] == Marshal(h.(next := i.typ));
    } else {
      OpenPatch(items, i.typ);
    }
  }

  lemma PushedBuffer(h: Header, items: seq<Item>, i: Item)
    requires AllPushable(items) && Pushable(i)
    ensures var buf := Marshal(if items == [] then h else h.(next := items[0].typ)) + Open(items, NONE);
            var at := if items == [] then 16 else HEADER_LEN + Size(items[..|items| - 1]);
            && at < |buf|
            && buf[at := i.typ] + PayloadHeader(NONE, i.critical, |i.body|) + i.body ==
              Marshal(h.(next := (items + [i])[0].typ)) + Open(items + [i], NONE)
  {
    hide Open, PayloadHeader, Marshal, Size;
    PatchedNext(h, items, i);
    OpenSnoc(items, i, NONE);
  }
}
