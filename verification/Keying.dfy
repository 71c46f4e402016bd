/** Key derivation over an arbitrary keyed hash and an arbitrary key agreement. */
module Keying {
  import opened Bytes
  import opened Suite

  /** The primitives, uninterpreted: `hmac(id, key, data)` is the HMAC behind PRF
      transform `id`, `publicKey` and `agree` the Diffie-Hellman group. */
  datatype Crypto = Crypto(hmac: (u16, bytes, bytes) -> bytes, publicKey: nat -> bytes,
                           agree: (nat, bytes) -> Option<bytes>)

  /** What is assumed of them: fixed output lengths, and that two key pairs agree. */
  ghost predicate Ideal(c: Crypto) {
    && (forall id: u16, k: bytes, d: bytes :: NewPrf(id).Some? ==> |c.hmac(id, k, d)| == NewPrf(id).value.outputLen)
    && (forall a: nat :: |c.publicKey(a)| == 32)
    && (forall a: nat, b: nat :: c.agree(a, c.publicKey(b)).Some?)
    && (forall a: nat, b: nat :: c.agree(a, c.publicKey(b)) == c.agree(b, c.publicKey(a)))
  }

  datatype IkeKeys = IkeKeys(skd: bytes, skai: bytes, skar: bytes, skei: bytes, sker: bytes, skpi: bytes, skpr: bytes)
  datatype ChildKeys = ChildKeys(skei: bytes, skai: bytes, sker: bytes, skar: bytes)

  // ---- prf+ (section 2.13 of RFC 7296) ----

  /** T(n) = prf(K, T(n-1) | S | n). */
  function Block(c: Crypto, prf: Prf, key: bytes, seed: bytes, n: nat): bytes
    requires 1 <= n <= 255
  {
    c.hmac(prf.transformId, key, (if n == 1 then [] else Block(c, prf, key, seed, n - 1)) + seed + [n])
  }

  /** T1 | T2 | ... | Tn. */
  function Blocks(c: Crypto, prf: Prf, key: bytes, seed: bytes, n: nat): bytes
    requires n <= 255
  {
    if n == 0 then [] else Blocks(c, prf, key, seed, n - 1) + Block(c, prf, key, seed, n)
  }

  ghost predicate Registered(prf: Prf) {
    NewPrf(prf.transformId) == Some(prf)
  }

  lemma {:induction false} BlocksLength(c: Crypto, prf: Prf, key: bytes, seed: bytes, n: nat)
    requires Ideal(c) && Registered(prf) && n <= 255
    ensures |Blocks(c, prf, key, seed, n)| == n * prf.outputLen
  {
    if n > 0 { BlocksLength(c, prf, key, seed, n - 1); }
  }

  /** The number of blocks that cover `outLen` octets. */
  function BlockCount(prf: Prf, outLen: nat): nat
    requires prf.outputLen > 0
  {
    (outLen + prf.outputLen - 1) / prf.outputLen
  }

  function PrfPlus(c: Crypto, prf: Prf, key: bytes, seed: bytes, outLen: nat): (r: Option<bytes>)
    ensures r.Some? ==> |r.value| == outLen
  {
    if prf.outputLen == 0 || BlockCount(prf, outLen) > 255 then None else
    var all := Blocks(c, prf, key, seed, BlockCount(prf, outLen));
    if |all| < outLen then None else Some(all[..outLen])
  }

  /** The loop of the source: a previous block, an output and a counter. */
  method Plus(c: Crypto, prf: Prf, key: bytes, seed: bytes, outLen: nat) returns (r: Option<bytes>)
    requires Ideal(c) && Registered(prf)
    ensures r == PrfPlus(c, prf, key, seed, outLen)
    ensures r.Some? <==> outLen <= 255 * prf.outputLen
    ensures r.Some? ==> |r.value| == outLen
  {
    var out, previous, counter := [], [], 1;
    var size := prf.outputLen;
    while |out| < outLen
      invariant 1 <= counter <= 256
      invariant out == Blocks(c, prf, key, seed, counter - 1) && |out| == (counter - 1) * size
      invariant previous == if counter == 1 then [] else Block(c, prf, key, seed, counter - 1)
      invariant counter > 1 ==> (counter - 2) * size < outLen
      decreases 256 - counter
    {
      if counter > 255 {
        CountAbove(size, outLen, 255);
        return None;
      }
      previous := c.hmac(prf.transformId, key, previous + seed + [counter]);
      out := out + previous;
      BlocksLength(c, prf, key, seed, counter);
      counter := counter + 1;
    }
    CountExact(size, outLen, counter - 1);
    r := Some(out[..outLen]);
  }

  lemma Monotone(a: int, b: int, size: nat)
    ensures a <= b ==> a * size <= b * size
  {
  }

  lemma CountAbove(size: nat, outLen: nat, n: nat)
    requires size > 0 && n * size < outLen
    ensures (outLen + size - 1) / size > n
  {
    var q := (outLen + size - 1) / size;
    assert q * size + size > outLen + size - 1;
    Monotone(q, n, size);
  }

  lemma CountExact(size: nat, outLen: nat, n: nat)
    requires size > 0 && outLen <= n * size && (n > 0 ==> (n - 1) * size < outLen)
    ensures (outLen + size - 1) / size == n
  {
    var q := (outLen + size - 1) / size;
    assert q * size <= outLen + size - 1 < q * size + size;
    Monotone(q + 1, n, size);
    Monotone(n + 1, q, size);
    Monotone(q, n - 1, size);
  }

  lemma {:induction false} BlocksAt(c: Crypto, prf: Prf, key: bytes, seed: bytes, n: nat, k: nat)
    requires Ideal(c) && Registered(prf) && k < n <= 255
    ensures 0 <= k * prf.outputLen <= (k + 1) * prf.outputLen <= |Blocks(c, prf, key, seed, n)|
    ensures Blocks(c, prf, key, seed, n)[k * prf.outputLen..(k + 1) * prf.outputLen] == Block(c, prf, key, seed, k + 1)
  {
    hide Block;
    var size, before := prf.outputLen, Blocks(c, prf, key, seed, n - 1);
    BlocksLength(c, prf, key, seed, n);
    BlocksLength(c, prf, key, seed, n - 1);
    Successor(k, size);
    Successor(n - 1, size);
    Monotone(k + 1, n, size);
    if k < n - 1 {
      Monotone(k + 1, n - 1, size);
      BlocksAt(c, prf, key, seed, n - 1, k);
      Inside(before, Block(c, prf, key, seed, n), k * size, (k + 1) * size);
    } else {
      assert (before + Block(c, prf, key, seed, n))[|before|..] == Block(c, prf, key, seed, n);
    }
  }

  lemma Inside(a: bytes, b: bytes, lo: int, hi: int)
    requires 0 <= lo <= hi <= |a|
    ensures (a + b)[lo..hi] == a[lo..hi]
  {
  }

  /** The octets of prf+, whatever its length: the first block is the hash of S and 1, every later
      one that of the block before it, S and its number; the last may be cut short. */
  lemma PlusOctets(c: Crypto, prf: Prf, key: bytes, seed: bytes, out: bytes, k: nat)
    requires Ideal(c) && Registered(prf) && PrfPlus(c, prf, key, seed, |out|) == Some(out)
    requires k * prf.outputLen < |out|
    ensures var at := k * prf.outputLen;
            var end := if (k + 1) * prf.outputLen < |out| then (k + 1) * prf.outputLen else |out|;
            && k < 255 && (k > 0 ==> 0 <= at - prf.outputLen) && at <= end
            && var before := if k == 0 then [] else out[at - prf.outputLen..at];
               var hash := c.hmac(prf.transformId, key, before + seed + [k + 1]);
               end - at <= |hash| && out[at..end] == hash[..end - at]
  {
    hide Blocks, Block;
    var size, n := prf.outputLen, BlockCount(prf, |out|);
    var all := Blocks(c, prf, key, seed, n);
    CountAbove(size, |out|, k);
    var at, next := k * size, (k + 1) * size;
    Successor(k, size);
    BlocksAt(c, prf, key, seed, n, k);
    Piece(all, out, at, next, if next < |out| then next else |out|);
    if k > 0 {
      Successor(k - 1, size);
      BlocksAt(c, prf, key, seed, n, k - 1);
      Piece(all, out, at - size, at, at);
      assert all[at - size..at][..size] == all[at - size..at];
    }
    FirstOrNext(c, prf, key, seed, k + 1);
  }

  lemma Successor(k: int, size: int)
    ensures (k + 1) * size == k * size + size
    ensures k >= 0 && size >= 0 ==> k * size >= 0
  {
  }

  lemma Piece(all: bytes, out: bytes, at: int, next: int, end: int)
    requires |out| <= |all| && out == all[..|out|] && 0 <= at <= end <= next <= |all| && end <= |out|
    ensures out[at..end] == all[at..next][..end - at]
  {
  }

  lemma FirstOrNext(c: Crypto, prf: Prf, key: bytes, seed: bytes, n: nat)
    requires 1 <= n <= 255
    ensures Block(c, prf, key, seed, n) ==
            c.hmac(prf.transformId, key, (if n == 1 then [] else Block(c, prf, key, seed, n - 1)) + seed + [n])
  {
  }

  // ---- The seven IKE keys and the four child keys ----

  /** prf(SK_d(old), g^ir(new) | Ni | Nr), section 2.18 of RFC 7296. */
  function RekeySeed(c: Crypto, prf: Prf, skd: bytes, shared: bytes, ni: bytes, nr: bytes): bytes {
    c.hmac(prf.transformId, skd, shared + ni + nr)
  }

  /** Seven consecutive pieces: p, a, a, e, e, p and p octets long. */
  function SplitIke(m: bytes, p: nat, a: nat, e: nat): IkeKeys
    requires |m| == 3 * p + 2 * a + 2 * e
  {
    var i, j, k := p + 2 * a, p + 2 * a + 2 * e, 2 * p + 2 * a + 2 * e;
    IkeKeys(m[..p], m[p..p + a], m[p + a..i], m[i..i + e], m[i + e..j], m[j..k], m[k..])
  }

  function DeriveIkeKeys(c: Crypto, prf: Prf, skeyseed: bytes, ni: bytes, nr: bytes, spiI: u64, spiR: u64,
                         enc: EncryptionAlg, integ: Integrity): Option<IkeKeys>
  {
    match PrfPlus(c, prf, skeyseed, ni + nr + Put64(spiI) + Put64(spiR),
                  3 * prf.outputLen + 2 * integ.keyLen + 2 * enc.keyLen)
    case None => None
    case Some(m) => Some(SplitIke(m, prf.outputLen, integ.keyLen, enc.keyLen))
  }

  function DeriveChildKeys(c: Crypto, prf: Prf, skd: bytes, ni: bytes, nr: bytes, shared: bytes,
                           enc: EncryptionAlg, integ: Integrity): Option<ChildKeys>
  {
    var a, e := integ.keyLen, enc.keyLen;
    match PrfPlus(c, prf, skd, shared + ni + nr, 2 * (e + a))
    case None => None
    case Some(m) => Some(ChildKeys(m[..e], m[e..e + a], m[e + a..e + a + e], m[e + a + e..]))
  }

  function Joined(k: IkeKeys): bytes {
    k.skd + k.skai + k.skar + k.skei + k.sker + k.skpi + k.skpr
  }

  /** The IKE keys are consecutive, non-overlapping pieces that use up the whole of
      prf+, in the order of section 2.14 of RFC 7296, each of its family's length. */
  lemma IkeKeysPartition(c: Crypto, prf: Prf, skeyseed: bytes, ni: bytes, nr: bytes, spiI: u64, spiR: u64,
                         enc: EncryptionAlg, integ: Integrity, keys: Option<IkeKeys>)
    requires Ideal(c) && Registered(prf) && enc.keyLen <= 36 && integ.keyLen <= 64
    requires keys == DeriveIkeKeys(c, prf, skeyseed, ni, nr, spiI, spiR, enc, integ)
    ensures keys.Some?
    ensures var k := keys.value;
            Some(k.skd + k.skai + k.skar + k.skei + k.sker + k.skpi + k.skpr)
            == PrfPlus(c, prf, skeyseed, ni + nr + Put64(spiI) + Put64(spiR),
                       3 * prf.outputLen + 2 * integ.keyLen + 2 * enc.keyLen)
    ensures |keys.value.skd| == |keys.value.skpi| == |keys.value.skpr| == prf.outputLen
    ensures |keys.value.skai| == |keys.value.skar| == integ.keyLen
    ensures |keys.value.skei| == |keys.value.sker| == enc.keyLen
  {
    hide PrfPlus, Put64;
    var p, a, e := prf.outputLen, integ.keyLen, enc.keyLen;
    var seed := ni + nr + Put64(spiI) + Put64(spiR);
    PlusSucceeds(c, prf, skeyseed, seed, 3 * p + 2 * a + 2 * e);
    Partition(PrfPlus(c, prf, skeyseed, seed, 3 * p + 2 * a + 2 * e).value, p, a, e);
  }

  lemma ChildKeysPartition(c: Crypto, prf: Prf, skd: bytes, ni: bytes, nr: bytes, shared: bytes, enc: EncryptionAlg,
                           integ: Integrity)
    requires Ideal(c) && Registered(prf) && enc.keyLen <= 36 && integ.keyLen <= 64
    ensures var k := DeriveChildKeys(c, prf, skd, ni, nr, shared, enc, integ);
            && k.Some?
            && Some(k.value.skei + k.value.skai + k.value.sker + k.value.skar)
               == PrfPlus(c, prf, skd, shared + ni + nr, 2 * (enc.keyLen + integ.keyLen))
            && |k.value.skei| == |k.value.sker| == enc.keyLen && |k.value.skai| == |k.value.skar| == integ.keyLen
  {
    var a, e := integ.keyLen, enc.keyLen;
    PlusSucceeds(c, prf, skd, shared + ni + nr, 2 * (e + a));
    var m := PrfPlus(c, prf, skd, shared + ni + nr, 2 * (e + a)).value;
    assert m == m[..e] + m[e..e + a] + m[e + a..e + a + e] + m[e + a + e..];
  }

  lemma Cut(m: bytes, i: nat, j: nat)
    requires i <= j <= |m|
    ensures m[..i] + m[i..j] == m[..j]
  {
  }

  lemma SevenPieces(m: bytes, a: nat, b: nat, c: nat, d: nat, e: nat, f: nat)
    requires a <= b <= c <= d <= e <= f <= |m|
    ensures Joined(IkeKeys(m[..a], m[a..b], m[b..c], m[c..d], m[d..e], m[e..f], m[f..])) == m
  {
    Cut(m, a, b);
    Cut(m, b, c);
    Cut(m, c, d);
    Cut(m, d, e);
    Cut(m, e, f);
  }

  lemma Partition(m: bytes, p: nat, a: nat, e: nat)
    requires |m| == 3 * p + 2 * a + 2 * e
    ensures Joined(SplitIke(m, p, a, e)) == m
  {
    hide Joined;
    var i, j, k := p + 2 * a, p + 2 * a + 2 * e, 2 * p + 2 * a + 2 * e;
    SevenPieces(m, p, p + a, i, i + e, j, k);
  }

  lemma PlusSucceeds(c: Crypto, prf: Prf, key: bytes, seed: bytes, outLen: nat)
    requires Ideal(c) && Registered(prf) && outLen <= 392
    ensures PrfPlus(c, prf, key, seed, outLen).Some? && |PrfPlus(c, prf, key, seed, outLen).value| == outLen
  {
    var n := BlockCount(prf, outLen);
    BlocksLength(c, prf, key, seed, n);
  }
}
