/** AES-CCM on buffers: the loops, and the prepared form that appends to a destination. */
module CcmBuffers {
  import opened Bytes
  import opened Bits
  import opened Ccm

  // ---- Sizes ----

  /** The low `k` octets of `n`, most significant first. */
  function BigEndian(n: nat, k: nat): (r: bytes)
    ensures |r| == k
  {
    if k == 0 then [] else BigEndian(n / 0x100, k - 1) + [n % 0x100]
  }

  lemma TwoOctets(a: u8, b: u8)
    ensures var v := (a as int) * 0x100 + b; v < 0x1_0000 && Put16(v) == [a, b]
  {
  }

  lemma TwoHalves(hi: u16, lo: u16)
    ensures var v := (hi as int) * 0x1_0000 + lo; v < U32_LIMIT && Put32(v) == Put16(hi) + Put16(lo)
  {
    hide Put16;
  }

  lemma Digits(n: nat, q: nat, a: u8, b: u8, c: u8, d: u8)
    requires n == (((q * 0x100 + a) * 0x100 + b) * 0x100 + c) * 0x100 + d
    ensures Put32(n % U32_LIMIT) == [a, b, c, d]
  {
    hide Put16, Put32;
    var hi, lo := (a as int) * 0x100 + b, (c as int) * 0x100 + d;
    TwoOctets(a, b);
    TwoOctets(c, d);
    TwoHalves(hi, lo);
    ModOf(q, hi * 0x1_0000 + lo, U32_LIMIT);
    assert n == U32_LIMIT * q + (hi * 0x1_0000 + lo);
  }

  lemma BigEndianIsPut(n: nat)
    ensures BigEndian(n, 4) == Put32(n % U32_LIMIT)
  {
    hide Put32;
    var n1 := n / 0x100;
    var n2 := n1 / 0x100;
    var n3 := n2 / 0x100;
    assert BigEndian(n3, 1) == [n3 % 0x100] && BigEndian(n2, 2) == BigEndian(n3, 1) + [n2 % 0x100];
    assert BigEndian(n1, 3) == BigEndian(n2, 2) + [n1 % 0x100] && BigEndian(n, 4) == BigEndian(n1, 3) + [n % 0x100];
    Digits(n, n3 / 0x100, n3 % 0x100, n2 % 0x100, n1 % 0x100, n % 0x100);
  }

  /** Fills `dst[lo..hi]` from the back. */
  method PutCcmSize(dst: array<u8>, lo: nat, hi: nat, n: nat)
    requires lo <= hi <= dst.Length
    modifies dst
    ensures dst[..] == old(dst[..lo]) + BigEndian(n, hi - lo) + old(dst[hi..])
  {
    var i, left := hi, n;
    ghost var all := BigEndian(n, hi - lo);
    while i > lo
      invariant lo <= i <= hi
      invariant all == BigEndian(left, i - lo) + dst[i..hi]
      invariant dst[..i] == old(dst[..i]) && dst[hi..] == old(dst[hi..])
    {
      i := i - 1;
      dst[i] := left % 0x100;
      left := left / 0x100;
    }
    assert dst[..] == dst[..lo] + dst[lo..hi] + dst[hi..];
  }

  // ---- The CBC-MAC ----

  /** One block: zero-filled, masked with the state and encrypted into it. */
  method FoldBlock(e: cipher, x: array<u8>, chunk: bytes)
    requires x.Length == BLOCK && |chunk| <= BLOCK
    modifies x
    ensures x[..] == e(Mask(chunk + Zeros(BLOCK - |chunk|), old(x[..])))
  {
    ghost var was := x[..];
    var buf := new u8[BLOCK];
    forall k | 0 <= k < BLOCK { buf[k] := if k < |chunk| then chunk[k] else 0; }
    ghost var filled := chunk + Zeros(BLOCK - |chunk|);
    assert buf[..] == filled;
    forall k | 0 <= k < BLOCK { buf[k] := XorByte(buf[k], x[k]); }
    assert buf[..] == Mask(filled, was);
    var y := e(buf[..]);
    assert y == e(Mask(filled, was));
    forall k | 0 <= k < BLOCK { x[k] := y[k]; }
    assert x[..] == y;
  }

  /** Folds `data` into the running state, one zero-filled block at a time. */
  method CcmProcess(e: cipher, x: array<u8>, data: bytes)
    requires x.Length == BLOCK
    modifies x
    ensures x[..] == Chain(e, old(x[..]), data)
  {
    hide Mask;
    var i := 0;
    while i < |data|
      invariant i <= |data|
      invariant Chain(e, old(x[..]), data) == Chain(e, x[..], data[i..])
    {
      var n := if |data| - i > BLOCK then BLOCK else |data| - i;
      ghost var rest := data[i..];
      assert rest[..n] == data[i..i + n] && rest[n..] == data[i + n..];
      FoldBlock(e, x, data[i..i + n]);
      i := i + n;
    }
    assert data[i..] == [];
  }

  method CcmMac(e: cipher, nonce: bytes, aad: bytes, msg: bytes, tagLen: nat) returns (x: array<u8>)
    requires |nonce| == NONCE_LEN && 2 <= tagLen <= 16
    ensures fresh(x) && x.Length == BLOCK && x[..] == Mac(e, nonce, aad, msg, tagLen)
  {
    x := new u8[BLOCK];
    x[0] := Flags(aad, tagLen);
    forall k | 1 <= k < 12 { x[k] := nonce[k - 1]; }
    assert x[..12] == [Flags(aad, tagLen)] + nonce;
    PutCcmSize(x, 12, 16, |msg|);
    BigEndianIsPut(|msg|);
    assert x[..] == FirstBlock(nonce, aad, msg, tagLen);
    var b0 := e(x[..]);
    forall k | 0 <= k < BLOCK { x[k] := b0[k]; }
    assert x[..] == b0;
    CcmProcess(e, x, AadEncoding(aad));
    CcmProcess(e, x, msg);
  }

  // ---- The counter stream ----

  /** A keystream read in order: the current counter block, its encryption and how much of
      it is used. */
  class CounterStream {
    const e: cipher
    const iv: block
    var counter: block
    var pad: block
    var used: nat
    ghost var at: nat

    ghost predicate Valid()
      reads this
    {
      && used <= BLOCK && at + (BLOCK - used) == (at + (BLOCK - used)) / BLOCK * BLOCK
      && (used < BLOCK ==> pad == e(Counter(iv, at / BLOCK)) && used == at % BLOCK)
      && counter == Counter(iv, (at + (BLOCK - used)) / BLOCK)
    }

    constructor (e: cipher, iv: block)
      ensures Valid() && at == 0 && this.e == e && this.iv == iv
    {
      this.e, this.iv, counter, pad, used, at := e, iv, iv, iv, BLOCK, 0;
    }

    method NextOctet() returns (b: u8)
      requires Valid()
      modifies this
      ensures Valid() && at == old(at) + 1 && b == e(Counter(iv, old(at) / BLOCK))[old(at) % BLOCK]
    {
      if used == BLOCK {
        pad, counter, used := e(counter), Next(counter), 0;
      }
      b := pad[used];
      used, at := used + 1, at + 1;
    }

    method XorKeyStream(src: bytes) returns (out: bytes)
      requires Valid()
      modifies this
      ensures Valid() && at == old(at) + |src| && out == Mask(src, Stream(e, iv, old(at), |src|))
    {
      hide Mask, Stream, Valid;
      out := [];
      NoMask(e, iv, at);
      for i := 0 to |src|
        invariant Valid() && at == old(at) + i && out == Mask(src[..i], Stream(e, iv, old(at), i))
      {
        var b := NextOctet();
        MaskMore(e, iv, old(at), src, i);
        out := out + [XorByte(src[i], b)];
      }
      assert src[..|src|] == src;
    }
  }

  lemma NoMask(e: cipher, iv: block, at: nat)
    ensures Mask([], Stream(e, iv, at, 0)) == []
  {
  }

  lemma MaskMore(e: cipher, iv: block, at: nat, src: bytes, i: nat)
    requires i < |src|
    ensures Mask(src[..i + 1], Stream(e, iv, at, i + 1))
         == Mask(src[..i], Stream(e, iv, at, i)) + [XorByte(src[i], e(Counter(iv, (at + i) / BLOCK))[(at + i) % BLOCK])]
  {
    assert Stream(e, iv, at, i + 1) == Stream(e, iv, at, i) + [e(Counter(iv, (at + i) / BLOCK))[(at + i) % BLOCK]];
  }

  // ---- The prepared form ----

  /** Room for `n` more octets after the first `len`: in place when the capacity allows. */
  method GrowDst(dst: array<u8>, len: nat, n: nat) returns (out: array<u8>)
    requires len <= dst.Length
    ensures out == dst || fresh(out)
    ensures out.Length >= len + n && out[..len] == dst[..len]
  {
    if dst.Length - len >= n { return dst; }
    out := new u8[len + n];
    forall k | 0 <= k < len { out[k] := dst[k]; }
  }

  method CopyInto(dst: array<u8>, at: nat, src: bytes)
    requires at + |src| <= dst.Length
    modifies dst
    ensures dst[..] == old(dst[..at]) + src + old(dst[at + |src|..])
  {
    forall k | 0 <= k < |src| { dst[at + k] := src[k]; }
    assert dst[..] == dst[..at] + dst[at..at + |src|] + dst[at + |src|..];
    assert dst[at..at + |src|] == src;
  }

  lemma MaskOfZeros(b: bytes)
    ensures Mask(Zeros(|b|), b) == b
  {
    forall i | 0 <= i < |b| ensures Mask(Zeros(|b|), b)[i] == b[i] { ZeroXor(b[i]); }
  }

  lemma {:induction false} ZeroXor(a: nat)
    ensures Xor(0, a) == a
  {
    if a > 0 { ZeroXor(a / 2); }
  }

  /** The two runs of keystream: the mask of the tag, then `src` masked. */
  method TagAndData(e: cipher, nonce: bytes, src: bytes) returns (tagKs: bytes, data: bytes)
    requires |nonce| == NONCE_LEN
    ensures var iv := CounterIv(nonce);
            tagKs == Stream(e, iv, 0, BLOCK) && data == Mask(src, Stream(e, iv, BLOCK, |src|))
  {
    hide Mask, Stream;
    var iv := CounterIv(nonce);
    var ctr := new CounterStream(e, iv);
    tagKs := ctr.XorKeyStream(Zeros(BLOCK));
    MaskOfZeros(Stream(e, iv, 0, BLOCK));
    data := ctr.XorKeyStream(src);
  }

  /** Appends to the destination exactly what the plain form returns; what the destination
      held before is untouched. */
  method SealTo(e: cipher, dst: array<u8>, len: nat, nonce: bytes, aad: bytes, plain: bytes, tagLen: nat)
      returns (out: array<u8>, n: nat)
    requires len <= dst.Length && |nonce| == NONCE_LEN && 2 <= tagLen <= 16
    modifies dst
    ensures out == dst || fresh(out)
    ensures n == len + |plain| + tagLen <= out.Length
    ensures out[..n] == old(dst[..len]) + Seal(e, nonce, aad, plain, tagLen)
    ensures dst[..len] == old(dst[..len])
  {
    hide Mask, Stream, CounterIv, Mac;
    var mac := CcmMac(e, nonce, aad, plain, tagLen);
    var tagKs, body := TagAndData(e, nonce, plain);
    var tag := Mask(mac[..], tagKs);
    out := GrowDst(dst, len, |plain| + tagLen);
    CopyInto(out, len, body);
    ghost var mid := out[..];
    CopyInto(out, len + |plain|, tag[..tagLen]);
    n := len + |plain| + tagLen;
    assert out[..n] == mid[..len + |plain|] + tag[..tagLen];
    assert mid[..len + |plain|] == old(dst[..len]) + body;
    assert body + tag[..tagLen] == Seal(e, nonce, aad, plain, tagLen);
  }

  /** Appends exactly what the plain form returns, or reports failure exactly when it does. */
  method OpenTo(e: cipher, dst: array<u8>, len: nat, nonce: bytes, aad: bytes, sealed_: bytes, tagLen: nat)
      returns (ok: bool, out: array<u8>, n: nat)
    requires len <= dst.Length && |nonce| == NONCE_LEN && 2 <= tagLen <= 16
    modifies dst
    ensures out == dst || fresh(out)
    ensures ok <==> Open(e, nonce, aad, sealed_, tagLen).Some?
    ensures ok ==> n <= out.Length && out[..n] == old(dst[..len]) + Open(e, nonce, aad, sealed_, tagLen).value
    ensures dst[..len] == old(dst[..len])
  {
    hide Mask, Stream, CounterIv, Mac;
    ok, out, n := false, dst, len;
    if |sealed_| < tagLen { return; }
    var dataLen := |sealed_| - tagLen;
    var tagKs, data := TagAndData(e, nonce, sealed_[..dataLen]);
    out := GrowDst(dst, len, dataLen);
    CopyInto(out, len, data);
    n := len + dataLen;
    assert out[..n] == old(dst[..len]) + data && out[len..n] == data;
    var tag := Mask(sealed_[dataLen..], tagKs[..tagLen]);
    var expected := CcmMac(e, nonce, aad, out[len..n], tagLen);
    ok := tag == expected[..tagLen];
  }
}
