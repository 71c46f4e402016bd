/** AES-CCM over an arbitrary block function (sections 2.2 and 2.3 of RFC 3610, with a
    length field of four octets and an eleven-octet nonce). */
module Ccm {
  import opened Bytes
  import opened Bits

  const BLOCK := 16
  const NONCE_LEN := 11
  const LEN_OCTETS := 4

  type block = b: bytes | |b| == 16 witness seq(16, i => 0)
  type cipher = block -> block

  // ---- Masking ----

  lemma Pow2Eight()
    ensures Pow2(8) == 0x100
  {
    assert Pow2(2) == 4 && Pow2(4) == 16 && Pow2(6) == 64;
  }

  function XorByte(a: u8, b: u8): (r: u8)
    ensures r == Xor(a, b)
  {
    Pow2Eight();
    XorBound(a, b, 8);
    Xor(a, b)
  }

  function Mask(a: bytes, b: bytes): (r: bytes)
    requires |a| == |b|
    ensures |r| == |a|
  {
    seq(|a|, i requires 0 <= i < |a| => XorByte(a[i], b[i]))
  }

  lemma MaskTwice(a: bytes, b: bytes)
    requires |a| == |b|
    ensures Mask(Mask(a, b), b) == a
  {
    forall i | 0 <= i < |a| ensures Mask(Mask(a, b), b)[i] == a[i] { XorTwice(a[i], b[i]); }
  }

  // ---- The counter keystream ----

  /** The next counter block: a big-endian increment that wraps. */
  function Next(b: bytes): (r: bytes)
    ensures |r| == |b|
  {
    if b == [] then []
    else if b[|b| - 1] < 0xFF then b[|b| - 1 := b[|b| - 1] + 1]
    else Next(b[..|b| - 1]) + [0]
  }

  function Counter(iv: block, n: nat): block {
    if n == 0 then iv else Next(Counter(iv, n - 1))
  }

  /** `n` octets of keystream starting at octet `at`. */
  function Stream(e: cipher, iv: block, at: nat, n: nat): (r: bytes)
    ensures |r| == n
  {
    seq(n, i requires 0 <= i < n => e(Counter(iv, (at + i) / BLOCK))[(at + i) % BLOCK])
  }

  /** A0: the flags, the nonce and a zero counter. */
  function CounterIv(nonce: bytes): block
    requires |nonce| == NONCE_LEN
  {
    [LEN_OCTETS - 1] + nonce + [0, 0, 0, 0]
  }

  /** A counter block: the flags, the nonce and the counter, most significant octet first. */
  function CounterBlock(nonce: bytes, n: u32): (r: block)
    requires |nonce| == NONCE_LEN
  {
    [3] + nonce + Put32(n)
  }

  lemma NextOctet(s: bytes, x: u8)
    ensures x < 0xFF ==> Next(s + [x]) == s + [x + 1]
    ensures x == 0xFF ==> Next(s + [x]) == Next(s) + [0]
  {
    assert (s + [x])[..|s|] == s;
    if x < 0xFF { assert (s + [x])[|s| := x + 1] == s + [x + 1]; }
  }

  /** The increment carries through the four counter octets. */
  lemma NextCounts(s: bytes, a: u8, b: u8, c: u8, d: u8)
    requires !(a == b == c == d == 0xFF)
    ensures Next(s + [a, b, c, d]) ==
            if d < 0xFF then s + [a, b, c, d + 1] else if c < 0xFF then s + [a, b, c + 1, 0]
            else if b < 0xFF then s + [a, b + 1, 0, 0] else s + [a + 1, 0, 0, 0]
  {
    hide Next;
    assert s + [a, b, c, d] == s + [a] + [b] + [c] + [d];
    NextOctet(s + [a] + [b] + [c], d);
    NextOctet(s + [a] + [b], c);
    NextOctet(s + [a], b);
    NextOctet(s, a);
  }

  lemma NextPut(s: bytes, n: u32)
    requires n < U32_LIMIT - 1
    ensures Next(s + Put32(n)) == s + Put32(n + 1)
  {
    hide Next, Put32;
    var a, b, c, d := Put32(n)[0], Put32(n)[1], Put32(n)[2], Put32(n)[3];
    assert n == (a as int) * 0x100_0000 + (b as int) * 0x1_0000 + (c as int) * 0x100 + d by { GetPut32(n); }
    assert Put32(n) == [a, b, c, d];
    NextCounts(s, a, b, c, d);
    if d < 0xFF { BigEndian32(a, b, c, d + 1); }
    else if c < 0xFF { BigEndian32(a, b, c + 1, 0); }
    else if b < 0xFF { BigEndian32(a, b + 1, 0, 0); }
    else { BigEndian32(a + 1, 0, 0, 0); }
  }

  /** The n-th counter block after A0. */
  lemma {:induction false} CounterAt(nonce: bytes, n: u32)
    requires |nonce| == NONCE_LEN
    ensures Counter(CounterIv(nonce), n) == CounterBlock(nonce, n)
  {
    if n == 0 {
      assert Put32(0) == [0, 0, 0, 0];
    } else {
      CounterAt(nonce, n - 1);
      NextPut([3] + nonce, n - 1);
    }
  }

  /** No two counter blocks are the same, under one nonce or under two. */
  lemma CountersDiffer(m: bytes, i: u32, n: bytes, j: u32)
    requires |m| == |n| == NONCE_LEN
    ensures CounterBlock(m, i) == CounterBlock(n, j) <==> m == n && i == j
  {
    if CounterBlock(m, i) == CounterBlock(n, j) {
      assert m == CounterBlock(m, i)[1..12] && n == CounterBlock(n, j)[1..12];
      assert Put32(i) == CounterBlock(m, i)[12..] && Put32(j) == CounterBlock(n, j)[12..];
      GetPut32(i);
      GetPut32(j);
    }
  }

  // ---- The CBC-MAC and what goes into it ----

  function Zeros(n: nat): (r: bytes)
    ensures |r| == n
  {
    seq(n, i => 0)
  }

  /** Zero octets up to the next block boundary. */
  function Fill(s: bytes): (r: bytes)
    ensures |r| % BLOCK == 0 && |s| <= |r| < |s| + BLOCK && r[..|s|] == s
  {
    s + Zeros((BLOCK - |s| % BLOCK) % BLOCK)
  }

  function Flags(aad: bytes, tagLen: nat): (r: u8)
    requires 2 <= tagLen <= 16
  {
    (tagLen - 2) / 2 * 8 + (if aad != [] then 0x40 else 0) + LEN_OCTETS - 1
  }

  function FirstBlock(nonce: bytes, aad: bytes, msg: bytes, tagLen: nat): block
    requires |nonce| == NONCE_LEN && 2 <= tagLen <= 16
  {
    [Flags(aad, tagLen)] + nonce + Put32(|msg| % U32_LIMIT)
  }

  /** The length prefix switches form at 0xFF00. */
  function AadEncoding(aad: bytes): bytes {
    if aad == [] then []
    else if |aad| < 0xFF00 then Fill(Put16(|aad|) + aad)
    else Fill([0xFF, 0xFE] + Put32(|aad| % U32_LIMIT) + aad)
  }

  /** Everything the MAC runs over, in whole blocks. */
  function MacInput(nonce: bytes, aad: bytes, msg: bytes, tagLen: nat): bytes
    requires |nonce| == NONCE_LEN && 2 <= tagLen <= 16
  {
    FirstBlock(nonce, aad, msg, tagLen) + AadEncoding(aad) + Fill(msg)
  }

  /** Folding the (zero-filled) blocks of `data` into a running state. */
  function Chain(e: cipher, x: block, data: bytes): block
    decreases |data|
  {
    if data == [] then x
    else var n := if |data| > BLOCK then BLOCK else |data|;
         Chain(e, e(Mask(data[..n] + Zeros(BLOCK - n), x)), data[n..])
  }

  function Mac(e: cipher, nonce: bytes, aad: bytes, msg: bytes, tagLen: nat): block
    requires |nonce| == NONCE_LEN && 2 <= tagLen <= 16
  {
    Chain(e, Chain(e, e(FirstBlock(nonce, aad, msg, tagLen)), AadEncoding(aad)), msg)
  }

  // ---- Sealing and opening ----

  function Seal(e: cipher, nonce: bytes, aad: bytes, plain: bytes, tagLen: nat): (r: bytes)
    requires |nonce| == NONCE_LEN && 2 <= tagLen <= 16
    ensures |r| == |plain| + tagLen
  {
    var iv := CounterIv(nonce);
    var tag := Mask(Mac(e, nonce, aad, plain, tagLen), Stream(e, iv, 0, BLOCK));
    Mask(plain, Stream(e, iv, BLOCK, |plain|)) + tag[..tagLen]
  }

  function Open(e: cipher, nonce: bytes, aad: bytes, sealed_: bytes, tagLen: nat): Option<bytes>
    requires |nonce| == NONCE_LEN && 2 <= tagLen <= 16
  {
    if |sealed_| < tagLen then None else
    var iv, n := CounterIv(nonce), |sealed_| - tagLen;
    var data := Mask(sealed_[..n], Stream(e, iv, BLOCK, n));
    var tag := Mask(sealed_[n..], Stream(e, iv, 0, BLOCK)[..tagLen]);
    if tag == Mac(e, nonce, aad, data, tagLen)[..tagLen] then Some(data) else None
  }

  /** What sealing writes, octet by octet: the plaintext under the counter blocks from 1 on, and the
      front of the MAC under counter block 0. */
  lemma SealOctets(e: cipher, nonce: bytes, aad: bytes, plain: bytes, tagLen: nat, i: nat)
    requires |nonce| == NONCE_LEN && 2 <= tagLen <= 16 && i < |plain| + tagLen && |plain| <= BLOCK * (U32_LIMIT - 1)
    ensures var r := Seal(e, nonce, aad, plain, tagLen);
            if i < |plain| then r[i] == Xor(plain[i], e(CounterBlock(nonce, 1 + i / BLOCK))[i % BLOCK])
            else r[i] == Xor(Chain(e, Zeros(BLOCK), MacInput(nonce, aad, plain, tagLen))[i - |plain|],
                             e(CounterBlock(nonce, 0))[i - |plain|])
  {
    hide Chain, MacInput, Mac, Counter, CounterIv, CounterBlock;
    if i < |plain| {
      CounterAt(nonce, 1 + i / BLOCK);
      assert (BLOCK + i) / BLOCK == 1 + i / BLOCK && (BLOCK + i) % BLOCK == i % BLOCK;
    } else {
      CounterAt(nonce, 0);
      MacChains(e, nonce, aad, plain, tagLen);
    }
  }

  /** Opening what was sealed gives the plaintext back, for every block function. */
  lemma OpensSealed(e: cipher, nonce: bytes, aad: bytes, plain: bytes, tagLen: nat)
    requires |nonce| == NONCE_LEN && 2 <= tagLen <= 16
    ensures Open(e, nonce, aad, Seal(e, nonce, aad, plain, tagLen), tagLen) == Some(plain)
  {
    hide Mac, Stream, CounterIv;
    var iv := CounterIv(nonce);
    var ks, tagKs := Stream(e, iv, BLOCK, |plain|), Stream(e, iv, 0, BLOCK);
    var mac := Mac(e, nonce, aad, plain, tagLen);
    var r := Seal(e, nonce, aad, plain, tagLen);
    assert r[..|plain|] == Mask(plain, ks);
    MaskTwice(plain, ks);
    assert r[|plain|..] == Mask(mac[..tagLen], tagKs[..tagLen]);
    MaskTwice(mac[..tagLen], tagKs[..tagLen]);
  }

  /** What `Open` accepts is exactly what `Seal` produces: nothing else authenticates. */
  lemma OnlySealedOpens(e: cipher, nonce: bytes, aad: bytes, sealed_: bytes, tagLen: nat)
    requires |nonce| == NONCE_LEN && 2 <= tagLen <= 16 && Open(e, nonce, aad, sealed_, tagLen).Some?
    ensures sealed_ == Seal(e, nonce, aad, Open(e, nonce, aad, sealed_, tagLen).value, tagLen)
  {
    hide Mac, Stream, CounterIv;
    var iv, n := CounterIv(nonce), |sealed_| - tagLen;
    var ks, tagKs := Stream(e, iv, BLOCK, n), Stream(e, iv, 0, BLOCK);
    var data := Open(e, nonce, aad, sealed_, tagLen).value;
    var mac := Mac(e, nonce, aad, data, tagLen);
    MaskTwice(sealed_[..n], ks);
    MaskTwice(sealed_[n..], tagKs[..tagLen]);
    assert Mask(mac, tagKs)[..tagLen] == Mask(mac[..tagLen], tagKs[..tagLen]);
    assert sealed_ == sealed_[..n] + sealed_[n..];
  }

  // ---- The MAC is a plain CBC-MAC over MacInput ----

  lemma FillTail(data: bytes)
    requires |data| > BLOCK
    ensures |Fill(data)| > BLOCK && Fill(data)[..BLOCK] == data[..BLOCK] && Fill(data)[BLOCK..] == Fill(data[BLOCK..])
  {
  }

  lemma FillOne(data: bytes)
    requires 0 < |data| <= BLOCK
    ensures Fill(data) == data + Zeros(BLOCK - |data|) && |Fill(data)| == BLOCK
  {
  }

  lemma ChainOne(e: cipher, x: block, data: bytes)
    requires 0 < |data| <= BLOCK
    ensures Chain(e, x, data) == e(Mask(data + Zeros(BLOCK - |data|), x))
  {
    hide Mask, Zeros;
    assert data[..|data|] == data && data[|data|..] == [];
  }

  lemma ChainMore(e: cipher, x: block, data: bytes)
    requires |data| > BLOCK
    ensures Chain(e, x, data) == Chain(e, e(Mask(data[..BLOCK], x)), data[BLOCK..])
  {
    hide Mask;
    assert data[..BLOCK] + Zeros(0) == data[..BLOCK];
  }

  lemma {:induction false} ChainFill(e: cipher, x: block, data: bytes)
    ensures Chain(e, x, Fill(data)) == Chain(e, x, data)
    decreases |data|
  {
    hide Mask, Fill, Chain;
    if data == [] {
      assert Fill(data) == [];
    } else if |data| <= BLOCK {
      FillOne(data);
      ChainOne(e, x, data);
      ChainOne(e, x, Fill(data));
      assert Fill(data) + Zeros(0) == Fill(data);
    } else {
      FillTail(data);
      ChainMore(e, x, data);
      ChainMore(e, x, Fill(data));
      ChainFill(e, e(Mask(data[..BLOCK], x)), data[BLOCK..]);
    }
  }

  lemma {:induction false} ChainConcat(e: cipher, x: block, a: bytes, b: bytes)
    requires |a| % BLOCK == 0
    ensures Chain(e, x, a + b) == Chain(e, Chain(e, x, a), b)
    decreases |a|
  {
    if a == [] {
      assert a + b == b;
    } else {
      assert (a + b)[..BLOCK] == a[..BLOCK] && (a + b)[BLOCK..] == a[BLOCK..] + b;
      ChainConcat(e, e(Mask(a[..BLOCK] + Zeros(0), x)), a[BLOCK..], b);
    }
  }

  lemma MaskZeros(b: bytes)
    ensures Mask(b, Zeros(|b|)) == b
  {
    forall i | 0 <= i < |b| ensures Mask(b, Zeros(|b|))[i] == b[i] { XorZero(b[i]); }
  }

  lemma {:induction false} XorZero(a: nat)
    ensures Xor(a, 0) == a
  {
    if a > 0 { XorZero(a / 2); }
  }

  /** What the chain is, from its end: the last block masked with the chain so far, enciphered. */
  lemma ChainSnoc(e: cipher, x: block, a: bytes, b: block)
    requires |a| % BLOCK == 0
    ensures Chain(e, x, []) == x
    ensures Chain(e, x, a + b) == e(seq(BLOCK, i requires 0 <= i < BLOCK => XorByte(b[i], Chain(e, x, a)[i])))
  {
    var y := Chain(e, x, a);
    ChainConcat(e, x, a, b);
    assert b[..BLOCK] + Zeros(0) == b && b[BLOCK..] == [];
    assert Mask(b, y) == seq(BLOCK, i requires 0 <= i < BLOCK => XorByte(b[i], y[i]));
  }

  /** Block by block over the whole input, from a zero state. */
  lemma MacChains(e: cipher, nonce: bytes, aad: bytes, msg: bytes, tagLen: nat)
    requires |nonce| == NONCE_LEN && 2 <= tagLen <= 16
    ensures Mac(e, nonce, aad, msg, tagLen) == Chain(e, Zeros(BLOCK), MacInput(nonce, aad, msg, tagLen))
  {
    hide Fill, AadEncoding, FirstBlock, Mask;
    var b0, enc := FirstBlock(nonce, aad, msg, tagLen), AadEncoding(aad);
    AadWhole(aad);
    ChainConcat(e, Zeros(BLOCK), b0, enc + Fill(msg));
    assert b0 + (enc + Fill(msg)) == MacInput(nonce, aad, msg, tagLen);
    MaskZeros(b0);
    assert b0[..BLOCK] + Zeros(0) == b0 && b0[BLOCK..] == [];
    assert Chain(e, Zeros(BLOCK), b0) == e(b0);
    ChainConcat(e, e(b0), enc, Fill(msg));
    ChainFill(e, Chain(e, e(b0), enc), msg);
  }

  lemma AadWhole(aad: bytes)
    ensures |AadEncoding(aad)| % BLOCK == 0 && (aad == [] ==> AadEncoding(aad) == [])
  {
  }

  /** B0 of section 2.2 of RFC 3610: whether there is associated data, the tag length, the width of
      the length field, then nonce and message length. No counter block equals it for the tags in use. */
  lemma FirstBlockFields(nonce: bytes, aad: bytes, msg: bytes, tagLen: nat, n: u32)
    requires |nonce| == NONCE_LEN && tagLen in {8, 12, 16} && |msg| < U32_LIMIT
    ensures var b := MacInput(nonce, aad, msg, tagLen)[..BLOCK];
            && b[0] / 0x40 == (if aad == [] then 0 else 1) && 2 * (b[0] / 8 % 8) + 2 == tagLen && b[0] % 8 + 1 == 4
            && b[1..12] == nonce && Get32(b[12..]) == |msg| && b != CounterBlock(nonce, n)
  {
    hide Put32, Get32, AadEncoding, Fill;
    var b := MacInput(nonce, aad, msg, tagLen)[..BLOCK];
    assert b == FirstBlock(nonce, aad, msg, tagLen);
    FlagsRead(aad, tagLen);
    assert b[1..12] == nonce && b[12..] == Put32(|msg|);
    GetPut32(|msg|);
  }

  lemma FlagsRead(aad: bytes, tagLen: nat)
    requires tagLen in {8, 12, 16}
    ensures var f := Flags(aad, tagLen);
            f / 0x40 == (if aad == [] then 0 else 1) && 2 * (f / 8 % 8) + 2 == tagLen && f % 8 == 3 && f != 3
  {
  }

  // ---- The MAC input determines nonce, associated data and message ----

  /** Reads associated data from the front of `s`: the data and the octets it takes up. */
  function ReadAad(s: bytes): Option<(bytes, nat)> {
    if |s| < 6 then None else
    var short := Get16(s[..2]);
    var at := if short < 0xFF00 then 2 else 6;
    var n := if short < 0xFF00 then short else Get32(s[2..6]);
    if at + n > |s| then None else Some((s[at..at + n], at + n + (BLOCK - (at + n) % BLOCK) % BLOCK))
  }

  /** Reads a MAC input back. */
  function Parse(s: bytes): Option<(bytes, bytes, bytes)> {
    if |s| < BLOCK then None else
    var nonce, n := s[1..12], Get32(s[12..16]);
    if s[0] / 0x40 % 2 == 0 then
      if BLOCK + n > |s| then None else Some((nonce, [], s[BLOCK..BLOCK + n]))
    else
      match ReadAad(s[BLOCK..])
      case None => None
      case Some((aad, used)) =>
        if BLOCK + used + n > |s| then None else Some((nonce, aad, s[BLOCK + used..BLOCK + used + n]))
  }

  lemma ShortAad(aad: bytes, rest: bytes)
    requires 0 < |aad| < 0xFF00
    ensures ReadAad(AadEncoding(aad) + rest) == Some((aad, |AadEncoding(aad)|))
  {
    hide Put16, Get16;
    var head := Put16(|aad|) + aad;
    var s := Fill(head) + rest;
    assert s[..|head|] == head;
    assert s[..2] == Put16(|aad|) && s[2..2 + |aad|] == aad;
    GetPut16(|aad|);
  }

  lemma LongAad(aad: bytes, rest: bytes)
    requires 0xFF00 <= |aad| < U32_LIMIT
    ensures ReadAad(AadEncoding(aad) + rest) == Some((aad, |AadEncoding(aad)|))
  {
    hide Put32, Get32;
    var head := [0xFF, 0xFE] + Put32(|aad|) + aad;
    var s := Fill(head) + rest;
    assert s[..|head|] == head;
    assert s[..2] == [0xFF, 0xFE] && s[2..6] == Put32(|aad|) && s[6..6 + |aad|] == aad;
    GetPut32(|aad|);
  }

  lemma AadReadsBack(aad: bytes, rest: bytes)
    requires 0 < |aad| < U32_LIMIT
    ensures ReadAad(AadEncoding(aad) + rest) == Some((aad, |AadEncoding(aad)|))
  {
    hide AadEncoding, ReadAad;
    if |aad| < 0xFF00 { ShortAad(aad, rest); } else { LongAad(aad, rest); }
  }

  /** The input is an injective encoding: it can be read back, on both sides of the switch
      at 0xFF00 and for all lengths below 2^32. */
  lemma MacInputReadsBack(nonce: bytes, aad: bytes, msg: bytes, tagLen: nat)
    requires |nonce| == NONCE_LEN && 2 <= tagLen <= 16 && |aad| < U32_LIMIT && |msg| < U32_LIMIT
    ensures Parse(MacInput(nonce, aad, msg, tagLen)) == Some((nonce, aad, msg))
  {
    hide ReadAad, Put32, Get32, AadEncoding;
    AadWhole(aad);
    var s, enc := MacInput(nonce, aad, msg, tagLen), AadEncoding(aad);
    assert s[1..12] == nonce && s[12..16] == Put32(|msg|) && s[0] == Flags(aad, tagLen);
    GetPut32(|msg|);
    assert s[BLOCK..] == enc + Fill(msg);
    if aad != [] { AadReadsBack(aad, Fill(msg)); }
    assert s[BLOCK + |enc|..BLOCK + |enc| + |msg|] == msg by { assert Fill(msg)[..|msg|] == msg; }
  }

  lemma MacInputInjective(n1: bytes, a1: bytes, m1: bytes, n2: bytes, a2: bytes, m2: bytes, tagLen: nat)
    requires |n1| == |n2| == NONCE_LEN && 2 <= tagLen <= 16
    requires |a1| < U32_LIMIT && |m1| < U32_LIMIT && |a2| < U32_LIMIT && |m2| < U32_LIMIT
    requires MacInput(n1, a1, m1, tagLen) == MacInput(n2, a2, m2, tagLen)
    ensures n1 == n2 && a1 == a2 && m1 == m2
  {
    hide Parse;
    MacInputReadsBack(n1, a1, m1, tagLen);
    MacInputReadsBack(n2, a2, m2, tagLen);
  }
}
