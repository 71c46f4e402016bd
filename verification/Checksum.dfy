/** Incremental one's-complement checksums of a reused IPv4/UDP packet (section 3 of
    RFC 1624). */
module Checksum {
  import opened Bytes

  const MAX16 := 0xFFFF

  // ---- Folding ----

  function FoldOnce(sum: nat): nat {
    sum % 0x1_0000 + sum / 0x1_0000
  }

  function Fold(sum: nat): (r: nat)
    ensures r <= MAX16
  {
    if sum < 0x1_0000 then sum else Fold(FoldOnce(sum))
  }

  /** The representative of `sum` modulo 65535 that is zero for zero only. */
  function Canon(sum: nat): (r: nat)
    ensures r <= MAX16 && (r == 0 <==> sum == 0)
  {
    if sum == 0 then 0 else (sum - 1) % MAX16 + 1
  }

  lemma CanonFold(sum: nat)
    ensures Canon(FoldOnce(sum)) == Canon(sum)
  {
    var hi, lo := sum / 0x1_0000, sum % 0x1_0000;
    assert sum == hi * MAX16 + FoldOnce(sum);
    if sum > 0 && FoldOnce(sum) > 0 { AddMultiple(FoldOnce(sum) - 1, hi); }
  }

  lemma {:induction false} AddMultiple(x: nat, k: nat)
    ensures (x + k * MAX16) % MAX16 == x % MAX16
  {
    if k > 0 {
      AddMultiple(x, k - 1);
      assert x + k * MAX16 == x + (k - 1) * MAX16 + MAX16;
    }
  }

  /** Folding to the end computes the representative, exactly. */
  lemma {:induction false} FoldIsCanon(sum: nat)
    ensures Fold(sum) == Canon(sum)
    decreases sum
  {
    if sum >= 0x1_0000 {
      FoldIsCanon(FoldOnce(sum));
      CanonFold(sum);
    }
  }

  function Complement(v: nat): (r: u16)
    requires v <= MAX16
  {
    MAX16 - v
  }

  method FoldChecksum(sum: u32) returns (r: u16)
    ensures r == Complement(Fold(sum))
  {
    var s := sum;
    while s / 0x1_0000 != 0
      invariant 0 <= s < U32_LIMIT && Fold(sum) == Fold(s)
      decreases s
    {
      s := s % 0x1_0000 + s / 0x1_0000;
    }
    return MAX16 - s;
  }

  // ---- Words ----

  function WordSum(b: bytes): nat {
    if b == [] then 0
    else if |b| == 1 then (b[0] as int) * 0x100
    else (b[0] as int) * 0x100 + b[1] + WordSum(b[2..])
  }

  function WordAt(b: bytes, k: nat): u16
    requires k + 2 <= |b|
  {
    (b[k] as int) * 0x100 + b[k + 1]
  }

  function SetWord(b: bytes, k: nat, v: u16): (r: bytes)
    requires k + 2 <= |b|
    ensures |r| == |b|
  {
    b[k := v / 0x100][k + 1 := v % 0x100]
  }

  lemma {:induction false} SumOfSet(b: bytes, k: nat, v: u16)
    requires k % 2 == 0 && k + 2 <= |b|
    ensures WordSum(SetWord(b, k, v)) == WordSum(b) - WordAt(b, k) + v
    decreases |b|
  {
    var c := SetWord(b, k, v);
    if k == 0 {
      assert c[2..] == b[2..];
    } else {
      assert c[2..] == SetWord(b[2..], k - 2, v);
      SumOfSet(b[2..], k - 2, v);
    }
  }

  lemma {:induction false} SumBound(b: bytes)
    ensures WordSum(b) <= (|b| + 1) / 2 * MAX16
  {
    if |b| >= 2 {
      SumBound(b[2..]);
      assert (|b| + 1) / 2 == (|b[2..]| + 1) / 2 + 1;
    }
  }

  /** The 32-bit accumulator starts from `seed` and wraps. */
  function Sealed(seed: nat, b: bytes): u16 {
    Complement(Fold((seed + WordSum(b)) % U32_LIMIT))
  }

  /** For any packet this size the accumulator does not wrap. */
  lemma NoWrap(seed: nat, b: bytes)
    requires seed <= 0x10_0000 && |b| <= 0x1_FFC0
    ensures seed + WordSum(b) < U32_LIMIT && Sealed(seed, b) == Complement(Canon(seed + WordSum(b)))
  {
    SumBound(b);
    assert (|b| + 1) / 2 <= 0xFFE0;
    assert (|b| + 1) / 2 * MAX16 <= 0xFFE0 * MAX16;
    FoldIsCanon(seed + WordSum(b));
  }

  lemma SumFrom(b: bytes, i: nat)
    requires i + 1 < |b|
    ensures WordSum(b[i..]) == (b[i] as int) * 0x100 + b[i + 1] + WordSum(b[i + 2..])
  {
    assert b[i..][2..] == b[i + 2..];
  }

  lemma LastSum(x: u8)
    ensures WordSum([x]) == (x as int) * 0x100
  {
  }

  lemma NoSum()
    ensures WordSum([]) == 0
  {
  }

  /** The loop over pairs of octets, and the odd octet at the end. */
  method SumAndFold(seed: u32, b: bytes) returns (r: u16)
    ensures r == Sealed(seed, b)
  {
    hide Fold, WordSum;
    var sum: u32, i := seed, 0;
    assert b[0..] == b;
    while i + 1 < |b|
      invariant 0 <= i <= |b| && i % 2 == 0
      invariant (sum + WordSum(b[i..])) % U32_LIMIT == (seed + WordSum(b)) % U32_LIMIT
    {
      var w := (b[i] as int) * 0x100 + b[i + 1];
      SumFrom(b, i);
      AddWrap(sum + w, WordSum(b[i + 2..]));
      sum := (sum + w) % U32_LIMIT;
      i := i + 2;
    }
    if |b| % 2 == 1 {
      assert b[i..] == [b[|b| - 1]];
      LastSum(b[|b| - 1]);
      sum := (sum + (b[|b| - 1] as int) * 0x100) % U32_LIMIT;
    } else {
      assert b[i..] == [];
      NoSum();
    }
    r := FoldChecksum(sum);
  }

  lemma AddWrap(x: nat, y: nat)
    ensures (x % U32_LIMIT + y) % U32_LIMIT == (x + y) % U32_LIMIT
  {
  }

  // ---- The incremental update ----

  /** Two folds, as in the source. */
  function Update(sealed_: u16, was: u16, now: u16): u16 {
    var c := (MAX16 - sealed_) + (MAX16 - was) + now;
    var d := FoldOnce(FoldOnce(c));
    MAX16 - d % 0x1_0000
  }

  /** Two folds always suffice: a third would change nothing. */
  lemma TwoFoldsSuffice(sealed_: u16, was: u16, now: u16)
    ensures var c := (MAX16 - sealed_) + (MAX16 - was) + now;
            FoldOnce(FoldOnce(c)) <= MAX16 && FoldOnce(FoldOnce(c)) == Fold(c)
  {
    hide FoldOnce;
    var c := (MAX16 - sealed_) + (MAX16 - was) + now;
    FoldOnceBound(c);
    FoldStep(c);
    FoldStep(FoldOnce(c));
  }

  lemma FoldOnceBound(c: nat)
    requires c <= 3 * MAX16
    ensures FoldOnce(c) <= MAX16 + 1 && FoldOnce(FoldOnce(c)) <= MAX16
  {
    var hi, lo := c / 0x1_0000, c % 0x1_0000;
    assert c == hi * 0x1_0000 + lo && hi <= 2;
  }

  lemma FoldStep(c: nat)
    ensures Fold(c) == Fold(FoldOnce(c))
  {
    if c < 0x1_0000 { assert FoldOnce(c) == c; }
  }

  lemma CanonShift(x: nat, k: nat)
    requires x > 0
    ensures Canon(x + k * MAX16) == Canon(x)
  {
    AddMultiple(x - 1, k);
  }

  /** Replacing a word of a non-zero sum: the update equals the checksum recomputed from the
      new sum -- exactly, not only modulo 65535 -- if and only if the new sum is not zero. */
  lemma UpdateExact(sum: nat, was: u16, now: u16)
    requires sum > 0 && was <= sum
    ensures Update(Complement(Canon(sum)), was, now) == Complement(Canon(sum - was + now)) <==> sum - was + now > 0
  {
    hide Fold, FoldOnce;
    var renewed := sum - was + now;
    var c := Canon(sum) + (MAX16 - was) + now;
    TwoFoldsSuffice(Complement(Canon(sum)), was, now);
    FoldIsCanon(c);
    // c and the new sum differ by a multiple of 65535
    var k := (sum - 1) / MAX16;
    assert sum == k * MAX16 + Canon(sum);
    if renewed > 0 {
      CanonShift(c, k);
      assert c + k * MAX16 == renewed + 1 * MAX16;
      CanonShift(renewed, 1);
    }
  }
}
