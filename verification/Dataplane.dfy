/** The data-plane side of a child hand-over: the codec table, the outbound codec
    and the watcher that applies the control plane's updates to them. */
module Dataplane {
  import opened Bytes
  import opened Suite
  import opened Keying
  import opened IkeState
  import opened RunningSpec

  /** A codec and the key halves it works with. */
  datatype Codec = Codec(spi: u32, selection: Selection, enc: bytes, integ: bytes)

  /** Inbound, the end that initiated the child decrypts with the responder halves. */
  function InboundCodec(child: ChildSA, sel: Selection, keys: ChildKeys): Codec {
    if child.localInitiator then Codec(child.inboundSpi, sel, keys.sker, keys.skar)
    else Codec(child.inboundSpi, sel, keys.skei, keys.skai)
  }

  function OutboundCodec(child: ChildSA, sel: Selection, keys: ChildKeys): Codec {
    if child.localInitiator then Codec(child.outboundSpi, sel, keys.skei, keys.skai)
    else Codec(child.outboundSpi, sel, keys.sker, keys.skar)
  }

  ghost predicate Mirrored(a: ChildSA, b: ChildSA) {
    a.inboundSpi == b.outboundSpi && a.outboundSpi == b.inboundSpi && a.tsi == b.tsr && a.tsr == b.tsi
  }

  /** Two ends that share the keys of a mirrored child encrypt with exactly what the
      other decrypts with, if and only if one of them (and not both) initiated it or
      the two key halves are the same anyway. */
  lemma CodecsPair(a: ChildSA, b: ChildSA, sel: Selection, keys: ChildKeys)
    requires Mirrored(a, b)
    ensures && OutboundCodec(a, sel, keys) == InboundCodec(b, sel, keys)
            && OutboundCodec(b, sel, keys) == InboundCodec(a, sel, keys)
            <==> a.localInitiator != b.localInitiator || (keys.skei == keys.sker && keys.skai == keys.skar)
  {
  }

  /** The key material of a child is used up in the order of section 2.17 of RFC 7296: first the
      cipher and integrity keys of what the initiator of the child sends, then those of what the
      responder sends. */
  lemma MaterialUsedUp(c: Crypto, prf: Prf, skd: bytes, ni: bytes, nr: bytes, shared: bytes, sel: Selection,
                       keys: ChildKeys, initiator: ChildSA, responder: ChildSA)
    requires Ideal(c) && Registered(prf) && sel.encryption.keyLen <= 36 && sel.integrity.keyLen <= 64
    requires DeriveChildKeys(c, prf, skd, ni, nr, shared, sel.encryption, sel.integrity) == Some(keys)
    requires Mirrored(initiator, responder) && initiator.localInitiator && !responder.localInitiator
    ensures var there, back := OutboundCodec(initiator, sel, keys), OutboundCodec(responder, sel, keys);
            && Some(there.enc + there.integ + back.enc + back.integ)
               == PrfPlus(c, prf, skd, shared + ni + nr, 2 * (sel.encryption.keyLen + sel.integrity.keyLen))
            && |there.enc| == |back.enc| == sel.encryption.keyLen
            && |there.integ| == |back.integ| == sel.integrity.keyLen
            && there == InboundCodec(responder, sel, keys) && back == InboundCodec(initiator, sel, keys)
            && there.spi == responder.inboundSpi && back.spi == initiator.inboundSpi
  {
    ChildKeysPartition(c, prf, skd, ni, nr, shared, sel.encryption, sel.integrity);
  }

  /** The pipeline's table and outbound codec, the child the tunnel reports and
      whether the tunnel was marked ended. */
  datatype Plane = Plane(table: map<u32, Codec>, outbound: Codec, current: ChildSA, ended: bool)

  function Replace(p: Plane, inbound: Codec, outbound: Codec): Plane {
    p.(table := p.table[inbound.spi := inbound], outbound := outbound)
  }

  function DropSpi(p: Plane, spi: u32): Plane {
    if spi == 0 then p else p.(table := p.table - {spi})
  }

  function Apply(p: Plane, u: Update): Plane {
    match u
    case ChildInstalled(child, keys, sel, _) =>
      Replace(p, InboundCodec(child, sel, keys), OutboundCodec(child, sel, keys)).(current := child)
    case ChildDeleted(child) =>
      if p.current.outboundSpi == child.outboundSpi then p.(ended := true) else DropSpi(p, child.inboundSpi)
  }

  /** FIFO. */
  function ApplyAll(p: Plane, queue: seq<Update>): Plane {
    if queue == [] then p else Apply(ApplyAll(p, queue[..|queue| - 1]), queue[|queue| - 1])
  }

  // ---- The pipeline and the watcher, in place ----

  class Pipeline {
    var inbound: map<u32, Codec>
    var outbound: Codec

    constructor (first: Codec, sender: Codec)
      ensures inbound == map[first.spi := first] && outbound == sender
    {
      inbound := map[first.spi := first];
      outbound := sender;
    }

    /** A copy of the table without `skip`. */
    method CopyWithout(skip: u32) returns (table: map<u32, Codec>)
      ensures table == inbound - {skip}
    {
      table := map[];
      var todo := inbound.Keys;
      while todo != {}
        invariant todo <= inbound.Keys
        invariant table == inbound - {skip} - todo
        decreases |todo|
      {
        var spi :| spi in todo;
        todo := todo - {spi};
        if spi != skip { table := table[spi := inbound[spi]]; }
      }
    }

    /** The old table is copied; the codec of the replaced child stays in it. */
    method ReplaceChild(codec: Codec, sender: Codec)
      modifies this
      ensures inbound == old(inbound)[codec.spi := codec] && outbound == sender
    {
      var table := CopyWithout(codec.spi);
      inbound := table[codec.spi := codec];
      outbound := sender;
    }

    method DropInboundSPI(spi: u32)
      modifies this`inbound
      ensures inbound == if spi == 0 then old(inbound) else old(inbound) - {spi}
    {
      if spi == 0 || spi !in inbound { return; }
      var table := CopyWithout(spi);
      inbound := table;
    }

    /** The codec for an arriving datagram, by its first four octets. */
    method Lookup(datagram: bytes) returns (codec: Option<Codec>)
      ensures codec.Some? <==> |datagram| >= 4 && Get32(datagram[..4]) in inbound
      ensures codec.Some? ==> codec.value == inbound[Get32(datagram[..4])]
    {
      if |datagram| < 4 { return None; }
      var spi := Get32(datagram[..4]);
      codec := if spi in inbound then Some(inbound[spi]) else None;
    }
  }

  class Watcher {
    var pipeline: Pipeline
    var current: ChildSA
    var ended: bool

    ghost function View(): Plane
      reads this, pipeline
    {
      Plane(pipeline.inbound, pipeline.outbound, current, ended)
    }

    constructor (child: ChildSA, keys: ChildKeys, sel: Selection)
      ensures fresh(pipeline) && current == child && !ended
      ensures View() ==
        Plane(map[child.inboundSpi := InboundCodec(child, sel, keys)], OutboundCodec(child, sel, keys), child, false)
    {
      pipeline := new Pipeline(InboundCodec(child, sel, keys), OutboundCodec(child, sel, keys));
      current, ended := child, false;
    }

    method ApplyUpdate(u: Update)
      modifies this, pipeline
      ensures pipeline == old(pipeline) && View() == Apply(old(View()), u)
    {
      match u
      case ChildInstalled(child, keys, sel, _) =>
        pipeline.ReplaceChild(InboundCodec(child, sel, keys), OutboundCodec(child, sel, keys));
        current := child;
      case ChildDeleted(child) =>
        if current.outboundSpi == child.outboundSpi { ended := true; }
        else { pipeline.DropInboundSPI(child.inboundSpi); }
    }

    /** The watcher's loop over everything queued. */
    method WatchControlUpdates(queue: seq<Update>)
      modifies this, pipeline
      ensures pipeline == old(pipeline) && View() == ApplyAll(old(View()), queue)
    {
      for i := 0 to |queue|
        invariant pipeline == old(pipeline) && View() == ApplyAll(old(View()), queue[..i])
      {
        assert queue[..i + 1][..i] == queue[..i];
        ApplyUpdate(queue[i]);
      }
      assert queue[..|queue|] == queue;
    }
  }
}
