/** The ESP data path: padding and trailer, sealing under a sequence number, and opening
    with the anti-replay check (sections 2.4, 3.3.3 and 3.4.3 of RFC 4303). */
module Esp {
  import opened Bytes
  import opened Suite
  import R = Replay

  const HEADER_LEN := 8
  const MAX_WIRE := 65535
  const NEXT_IPV4: u8 := 4
  const NEXT_IPV6: u8 := 41

  /** Keyed primitives, uninterpreted: an AEAD, or CBC with a separate MAC. */
  datatype Keyed = Keyed(aeadSeal: (bytes, bytes, bytes) -> bytes, aeadOpen: (bytes, bytes, bytes) -> Option<bytes>,
                         cbcSeal: (bytes, bytes) -> bytes, cbcOpen: (bytes, bytes) -> bytes, mac: bytes -> bytes)

  datatype Sa = Sa(spi: u32, enc: EncryptionAlg, integ: Integrity, k: Keyed)

  function IcvLen(sa: Sa): nat {
    if sa.enc.aead then sa.enc.icvLen else sa.integ.outputLen
  }

  /** A negotiated suite whose primitives undo each other and have fixed overheads. */
  ghost predicate Correct(sa: Sa) {
    && NewEncryption(IdOf(sa.enc)) == Some(sa.enc)
    && (sa.enc.aead ==> forall iv: bytes, aad: bytes, p: bytes ::
          |sa.k.aeadSeal(iv, aad, p)| == |p| + sa.enc.icvLen &&
            sa.k.aeadOpen(iv, aad, sa.k.aeadSeal(iv, aad, p)) == Some(p))
    && (!sa.enc.aead ==>
        && (forall iv: bytes, p: bytes :: |sa.k.cbcSeal(iv, p)| == |p| && sa.k.cbcOpen(iv, sa.k.cbcSeal(iv, p)) == p)
                         && (forall m: bytes :: |sa.k.mac(m)| == sa.integ.outputLen))
  }

  // ---- Padding and trailer ----

  function PadLen(blockLen: nat, n: nat): (r: nat)
    requires blockLen > 0
    ensures r < blockLen
  {
    (blockLen - (n + 2) % blockLen) % blockLen
  }

  /** 1, 2, ..., n. */
  function Padding(n: nat): (r: bytes)
    requires n < 0x100
    ensures |r| == n
  {
    seq(n, i requires 0 <= i < n => i + 1)
  }

  function NextHeader(first: u8): Option<u8> {
    if first / 16 == 4 then Some(NEXT_IPV4) else if first / 16 == 6 then Some(NEXT_IPV6) else None
  }

  function Padded(blockLen: nat, packet: bytes, next: u8): bytes
    requires 0 < blockLen <= 16
  {
    packet + Padding(PadLen(blockLen, |packet|)) + [PadLen(blockLen, |packet|), next]
  }

  function Stripped(plain: bytes): Option<bytes> {
    if |plain| < 2 then None else
    var padLen, next := plain[|plain| - 2], plain[|plain| - 1];
    if padLen + 2 > |plain| || (next != NEXT_IPV4 && next != NEXT_IPV6) || padLen + 2 == |plain| then None
    else Some(plain[..|plain| - padLen - 2])
  }

  lemma Multiples(b: int, d: int)
    requires b >= 0
    ensures (d >= 1 ==> d * b >= b) && (d <= -1 ==> d * b <= -b)
  {
    if d >= 1 { assert (d - 1) * b >= 0; } else if d <= -1 { assert (-d - 1) * b >= 0; }
  }

  lemma WholeBlocks(blockLen: nat, k: nat)
    requires blockLen > 0
    ensures (k * blockLen) % blockLen == 0
  {
    var n := k * blockLen;
    assert n == (n / blockLen) * blockLen + n % blockLen;
    assert (k - n / blockLen) * blockLen == n % blockLen;
    Multiples(blockLen, k - n / blockLen);
  }

  lemma PadAligns(blockLen: nat, n: nat)
    requires blockLen > 0
    ensures (n + PadLen(blockLen, n) + 2) % blockLen == 0
  {
    var q, rest := (n + 2) / blockLen, (n + 2) % blockLen;
    assert n + 2 == q * blockLen + rest;
    if rest > 0 {
      assert PadLen(blockLen, n) == blockLen - rest;
      assert n + 2 + PadLen(blockLen, n) == (q + 1) * blockLen;
      WholeBlocks(blockLen, q + 1);
    }
  }

  /** The receiver strips exactly what the sender added, which fills whole cipher blocks. */
  lemma StripsPadding(blockLen: nat, packet: bytes, next: u8)
    requires 0 < blockLen <= 16 && packet != [] && (next == NEXT_IPV4 || next == NEXT_IPV6)
    ensures Stripped(Padded(blockLen, packet, next)) == Some(packet)
    ensures |Padded(blockLen, packet, next)| % blockLen == 0
  {
    PadAligns(blockLen, |packet|);
    var plain := Padded(blockLen, packet, next);
    var pad := PadLen(blockLen, |packet|);
    assert plain[|plain| - 2] == pad && plain[|plain| - 1] == next;
    assert plain[..|plain| - pad - 2] == packet;
  }

  // ---- Sealing and opening one datagram ----

  function Header(sa: Sa, s: u32): (h: bytes)
    ensures |h| == HEADER_LEN
  {
    Put32(sa.spi) + Put32(s)
  }

  /** Everything after the header: IV, ciphertext and ICV. */
  function Body(sa: Sa, header: bytes, iv: bytes, plain: bytes): bytes {
    if sa.enc.aead then iv + sa.k.aeadSeal(iv, header, plain)
    else var cipher := sa.k.cbcSeal(iv, plain);
         iv + cipher + sa.k.mac(header + iv + cipher)
  }

  function Datagram(sa: Sa, s: u32, iv: bytes, plain: bytes): bytes {
    Header(sa, s) + Body(sa, Header(sa, s), iv, plain)
  }

  /** Authentication and decryption of what follows the header. */
  function Opened(sa: Sa, d: bytes): Option<bytes>
    requires |d| >= HEADER_LEN + sa.enc.ivLen + IcvLen(sa)
  {
    var header, iv, rest := d[..HEADER_LEN], d[HEADER_LEN..HEADER_LEN + sa.enc.ivLen], d[HEADER_LEN + sa.enc.ivLen..];
    if sa.enc.aead then sa.k.aeadOpen(iv, header, rest) else
    var cipher, icv := rest[..|rest| - IcvLen(sa)], rest[|rest| - IcvLen(sa)..];
    if sa.k.mac(d[..|d| - IcvLen(sa)]) != icv || |cipher| % 16 != 0 then None else Some(sa.k.cbcOpen(iv, cipher))
  }

  /** Whether a datagram authenticates under the SA's keys. */
  predicate Authenticates(sa: Sa, d: bytes) {
    |d| >= HEADER_LEN + sa.enc.ivLen + IcvLen(sa) && Opened(sa, d).Some?
  }

  function Receive(sa: Sa, w: R.Window, d: bytes): (R.Window, Option<bytes>) {
    if |d| < HEADER_LEN || Get32(d[..4]) != sa.spi || Get32(d[4..8]) == 0 || !Authenticates(sa, d) then (w, None) else
    match Stripped(Opened(sa, d).value)
    case None => (w, None)
    case Some(packet) =>
      var (n, ok) := R.Accept(w, Get32(d[4..8]));
      if ok then (n, Some(packet)) else (w, None)
  }

  // ---- The sender ----

  datatype Sender = Sender(next: u32, wrapped: bool)

  datatype Sent = Sent(datagram: bytes) | Refused | Exhausted

  /** The number is taken before the size is checked: an oversized packet uses one up. */
  function Send(sa: Sa, o: Sender, packet: bytes, iv: bytes): (Sender, Sent)
    requires 0 < sa.enc.blockLen <= 16
  {
    if o.wrapped then (o, Exhausted)
    else if packet == [] || NextHeader(packet[0]).None? then (o, Refused)
    else if o.next == 0 then (o.(wrapped := true), Exhausted)
    else
      var n := o.(next := (o.next + 1) % U32_LIMIT);
      var plain := Padded(sa.enc.blockLen, packet, NextHeader(packet[0]).value);
      if HEADER_LEN + sa.enc.ivLen + |plain| + IcvLen(sa) > MAX_WIRE then (n, Refused)
      else (n, Sent(Datagram(sa, o.next, iv, plain)))
  }

  const START := Sender(1, false)

  // ---- One datagram, end to end ----

  lemma OpensAead(sa: Sa, s: u32, iv: bytes, plain: bytes)
    requires Correct(sa) && sa.enc.aead && |iv| == sa.enc.ivLen
    ensures |Datagram(sa, s, iv, plain)| == HEADER_LEN + sa.enc.ivLen + |plain| + IcvLen(sa)
    ensures Opened(sa, Datagram(sa, s, iv, plain)) == Some(plain)
  {
    var h, d := Header(sa, s), Datagram(sa, s, iv, plain);
    assert d[..8] == h && d[8..8 + |iv|] == iv && d[8 + |iv|..] == sa.k.aeadSeal(iv, h, plain);
  }

  lemma OpensCbc(sa: Sa, s: u32, iv: bytes, plain: bytes)
    requires Correct(sa) && !sa.enc.aead && |iv| == sa.enc.ivLen && |plain| % 16 == 0
    ensures |Datagram(sa, s, iv, plain)| == HEADER_LEN + sa.enc.ivLen + |plain| + IcvLen(sa)
    ensures Opened(sa, Datagram(sa, s, iv, plain)) == Some(plain)
  {
    var h, d := Header(sa, s), Datagram(sa, s, iv, plain);
    var cipher := sa.k.cbcSeal(iv, plain);
    var area := h + iv + cipher;
    assert d == area + sa.k.mac(area);
    assert d[..|area|] == area && d[8..8 + |iv|] == iv;
    var rest := d[8 + |iv|..];
    assert rest == cipher + sa.k.mac(area);
    assert rest[..|cipher|] == cipher && rest[|cipher|..] == sa.k.mac(area);
  }

  /** What was sealed under a number opens to the packet, with that number and SPI. */
  lemma SentOpens(sa: Sa, s: u32, iv: bytes, packet: bytes, next: u8)
    requires Correct(sa) && |iv| == sa.enc.ivLen && packet != [] && (next == NEXT_IPV4 || next == NEXT_IPV6)
    ensures var d := Datagram(sa, s, iv, Padded(sa.enc.blockLen, packet, next));
            && Authenticates(sa, d) && Stripped(Opened(sa, d).value) == Some(packet)
            && Get32(d[..4]) == sa.spi && Get32(d[4..8]) == s
  {
    hide Body, Opened, Stripped, Padded, Put32, Get32, NewEncryption;
    BlockLens(sa);
    var plain := Padded(sa.enc.blockLen, packet, next);
    var d := Datagram(sa, s, iv, plain);
    PaddedLength(sa.enc.blockLen, packet, next);
    if sa.enc.aead { OpensAead(sa, s, iv, plain); } else { OpensCbc(sa, s, iv, plain); }
    StripsPadding(sa.enc.blockLen, packet, next);
    assert d[..4] == Put32(sa.spi) && d[4..8] == Put32(s);
    GetPut32(sa.spi);
    GetPut32(s);
  }

  lemma BlockLens(sa: Sa)
    requires Correct(sa)
    ensures sa.enc.blockLen == if sa.enc.aead then 1 else 16
  {
  }

  lemma PaddedLength(blockLen: nat, packet: bytes, next: u8)
    requires blockLen == 1 || blockLen == 16
    ensures |Padded(blockLen, packet, next)| % blockLen == 0
  {
    PadAligns(blockLen, |packet|);
  }

  // ---- What goes over the wire ----

  /** What a sent datagram consists of: SPI and number, most significant octet first, the IV, and
      under the cipher the packet, padding 1, 2, ... up to a whole block, its length, and 4 or 41 by
      the version of the packet. The header is authenticated with it. Only packets of these two
      versions are sent, and only while there are numbers. */
  lemma SentWire(sa: Sa, o: Sender, packet: bytes, iv: bytes) returns (padding: bytes)
    requires Correct(sa) && |iv| == sa.enc.ivLen && 0 < sa.enc.blockLen <= 16
    ensures |padding| < sa.enc.blockLen && (|packet| + |padding| + 2) % sa.enc.blockLen == 0
    ensures forall i :: 0 <= i < |padding| ==> padding[i] == i + 1
    ensures Send(sa, o, packet, iv).1.Sent? <==>
            && !o.wrapped && o.next != 0 && packet != [] && (packet[0] / 16 == 4 || packet[0] / 16 == 6)
            && 8 + sa.enc.ivLen + |packet| + |padding| + 2 + IcvLen(sa) <= 65535
    ensures var r := Send(sa, o, packet, iv).1;
            r.Sent? ==>
              && packet != [] && |r.datagram| == 8 + |iv| + |packet| + |padding| + 2 + IcvLen(sa)
              && var d, plain := r.datagram, packet + padding + [|padding|, if packet[0] / 16 == 4 then 4 else 41];
                 && d[..4] == Put32(sa.spi) && d[4..8] == Put32(o.next) && d[8..8 + |iv|] == iv
                 && Opened(sa, d) == Some(plain)
                 && (sa.enc.aead ==> d[8 + |iv|..] == sa.k.aeadSeal(iv, d[..8], plain))
                 && (!sa.enc.aead ==>
                     && d[8 + |iv|..|d| - IcvLen(sa)] == sa.k.cbcSeal(iv, plain)
                     && d[|d| - IcvLen(sa)..] == sa.k.mac(d[..|d| - IcvLen(sa)]))
  {
    hide Body, Opened, Put32, NewEncryption;
    BlockLens(sa);
    padding := Padding(PadLen(sa.enc.blockLen, |packet|));
    PadAligns(sa.enc.blockLen, |packet|);
    if Send(sa, o, packet, iv).1.Sent? {
      var plain := Padded(sa.enc.blockLen, packet, NextHeader(packet[0]).value);
      WireBody(sa, o.next, iv, plain);
    }
  }

  lemma WireBody(sa: Sa, s: u32, iv: bytes, plain: bytes)
    requires Correct(sa) && |iv| == sa.enc.ivLen && (!sa.enc.aead ==> |plain| % 16 == 0)
    ensures var d := Datagram(sa, s, iv, plain);
            && |d| == 8 + |iv| + |plain| + IcvLen(sa)
            && d[..4] == Put32(sa.spi) && d[4..8] == Put32(s) && d[8..8 + |iv|] == iv && Opened(sa, d) == Some(plain)
            && (sa.enc.aead ==> d[8 + |iv|..] == sa.k.aeadSeal(iv, d[..8], plain))
            && (!sa.enc.aead ==>
                && d[8 + |iv|..|d| - IcvLen(sa)] == sa.k.cbcSeal(iv, plain)
                && d[|d| - IcvLen(sa)..] == sa.k.mac(d[..|d| - IcvLen(sa)]))
  {
    hide Opened, Put32, NewEncryption;
    var h, d := Header(sa, s), Datagram(sa, s, iv, plain);
    assert d[..8] == h && h[..4] == Put32(sa.spi) && h[4..] == Put32(s);
    assert d[..4] == h[..4] && d[4..8] == h[4..];
    if sa.enc.aead {
      OpensAead(sa, s, iv, plain);
      assert d[8 + |iv|..] == sa.k.aeadSeal(iv, h, plain);
    } else {
      OpensCbc(sa, s, iv, plain);
      var cipher := sa.k.cbcSeal(iv, plain);
      assert d == h + iv + cipher + sa.k.mac(h + iv + cipher);
      assert d[..8 + |iv| + |cipher|] == h + iv + cipher;
    }
  }

  /** The datagrams an SA accepts, whoever sent them: its SPI, a number other than 0 that the window
      takes, and a plaintext that is the packet, some padding, its length, and 4 or 41. With CBC the
      octets before the ICV, header included, are what it authenticates. */
  lemma ReceivedExactly(sa: Sa, w: R.Window, d: bytes, packet: bytes)
    ensures Receive(sa, w, d).1 == Some(packet) <==>
            && |d| >= 8 && Get32(d[..4]) == sa.spi && Get32(d[4..8]) != 0 && R.Accept(w, Get32(d[4..8])).1
            && |d| >= 8 + sa.enc.ivLen + IcvLen(sa) && Opened(sa, d).Some? && packet != []
            && exists padding: bytes, next: u8 ::
                 && |padding| < 0x100 && (next == 4 || next == 41)
                 && Opened(sa, d).value == packet + padding + [|padding|, next]
    ensures |d| >= 8 + sa.enc.ivLen + IcvLen(sa) && Opened(sa, d).Some? && !sa.enc.aead ==>
            d[|d| - IcvLen(sa)..] == sa.k.mac(d[..|d| - IcvLen(sa)])
  {
    hide R.Accept;
    if |d| >= 8 + sa.enc.ivLen + IcvLen(sa) && Opened(sa, d).Some? {
      StrippedExactly(Opened(sa, d).value, packet);
    }
  }

  lemma StrippedExactly(plain: bytes, packet: bytes)
    ensures Stripped(plain) == Some(packet) <==>
            packet != [] && exists padding: bytes, next: u8 ::
              && |padding| < 0x100 && (next == 4 || next == 41) && plain == packet + padding + [|padding|, next]
  {
    if Stripped(plain) == Some(packet) {
      var n, next := plain[|plain| - 2], plain[|plain| - 1];
      var padding := plain[|packet|..|packet| + n];
      assert plain == packet + padding + [|padding|, next];
    }
    if exists padding: bytes, next: u8 ::
      |padding| < 0x100 && (next == 4 || next == 41) && plain == packet + padding + [|padding|, next] {
      var padding: bytes, next: u8 :|
        |padding| < 0x100 && (next == 4 || next == 41) && plain == packet + padding + [|padding|, next];
      assert plain[|plain| - 2] == |padding| && plain[|plain| - 1] == next;
      assert plain[..|plain| - |padding| - 2] == packet;
    }
  }
}
