/** Bitwise operations on natural numbers, bit by bit, with the word width made explicit. */
module Bits {
  function Pow2(n: nat): (r: nat)
    ensures r > 0
  {
    if n == 0 then 1 else 2 * Pow2(n - 1)
  }

  predicate Bit(b: nat, i: nat) {
    if i == 0 then b % 2 == 1 else Bit(b / 2, i - 1)
  }

  function Low(x: bool): (r: nat)
    ensures r <= 1
  {
    if x then 1 else 0
  }

  function And(a: nat, b: nat): (r: nat)
    ensures r <= a && r <= b
  {
    if a == 0 || b == 0 then 0 else 2 * And(a / 2, b / 2) + Low(a % 2 == 1 && b % 2 == 1)
  }

  function Or(a: nat, b: nat): nat {
    if a == 0 && b == 0 then 0 else 2 * Or(a / 2, b / 2) + Low(a % 2 == 1 || b % 2 == 1)
  }

  function Xor(a: nat, b: nat): nat {
    if a == 0 && b == 0 then 0 else 2 * Xor(a / 2, b / 2) + Low(a % 2 != b % 2)
  }

  /** Left shift in a word of `width` bits. */
  function Shl(b: nat, d: nat, width: nat): (r: nat)
    requires b < Pow2(width)
    ensures r < Pow2(width)
    decreases d
  {
    if d == 0 then b else Shl(2 * b % Pow2(width), d - 1, width)
  }

  // ---- What each of them does to a bit ----

  lemma {:induction false} BitZero(i: nat)
    ensures !Bit(0, i)
  {
    if i > 0 { BitZero(i - 1); }
  }

  lemma Halves(n: nat, low: nat)
    requires low <= 1
    ensures (2 * n + low) / 2 == n && (2 * n + low) % 2 == low
  {
  }

  lemma {:induction false} BitOr(a: nat, b: nat, i: nat)
    ensures Bit(Or(a, b), i) <==> Bit(a, i) || Bit(b, i)
  {
    if a == 0 && b == 0 {
      BitZero(i);
    } else {
      Halves(Or(a / 2, b / 2), Low(a % 2 == 1 || b % 2 == 1));
      if i > 0 { BitOr(a / 2, b / 2, i - 1); }
    }
  }

  lemma {:induction false} BitAnd(a: nat, b: nat, i: nat)
    ensures Bit(And(a, b), i) <==> Bit(a, i) && Bit(b, i)
  {
    if a == 0 || b == 0 {
      BitZero(i);
    } else {
      Halves(And(a / 2, b / 2), Low(a % 2 == 1 && b % 2 == 1));
      if i > 0 { BitAnd(a / 2, b / 2, i - 1); }
    }
  }

  lemma {:induction false} OrBound(a: nat, b: nat, width: nat)
    requires a < Pow2(width) && b < Pow2(width)
    ensures Or(a, b) < Pow2(width)
  {
    if width > 0 && (a > 0 || b > 0) { OrBound(a / 2, b / 2, width - 1); }
  }

  lemma {:induction false} XorBound(a: nat, b: nat, width: nat)
    requires a < Pow2(width) && b < Pow2(width)
    ensures Xor(a, b) < Pow2(width)
  {
    if width > 0 && (a > 0 || b > 0) { XorBound(a / 2, b / 2, width - 1); }
  }

  /** Masking twice with the same value gives the original back. */
  lemma {:induction false} XorTwice(a: nat, b: nat)
    ensures Xor(Xor(a, b), b) == a
  {
    if a > 0 || b > 0 {
      XorTwice(a / 2, b / 2);
      Halves(Xor(a / 2, b / 2), Low(a % 2 != b % 2));
    }
  }

  lemma {:induction false} BitHigh(b: nat, width: nat, i: nat)
    requires b < Pow2(width) && width <= i
    ensures !Bit(b, i)
  {
    if width == 0 { BitZero(i); } else { BitHigh(b / 2, width - 1, i - 1); }
  }

  /** A number is zero exactly when it has no bit. */
  lemma {:induction false} SomeBit(b: nat) returns (i: nat)
    requires b > 0
    ensures Bit(b, i)
  {
    if b % 2 == 1 {
      i := 0;
    } else {
      var j := SomeBit(b / 2);
      i := j + 1;
    }
  }

  lemma HalfModulus(b: nat, p: nat)
    requires p > 0
    ensures b % (2 * p) % 2 == b % 2 && b % (2 * p) / 2 == b / 2 % p
  {
    var q, r := b / (2 * p), b % (2 * p);
    assert b == 2 * (p * q) + r;
    assert b / 2 == p * q + r / 2 && r / 2 < p;
    ModOf(q, r / 2, p);
  }

  lemma Scale(p: nat, a: nat, b: nat)
    ensures a <= b ==> p * a <= p * b
    ensures p * (a + 1) == p * a + p
  {
  }

  lemma ModOf(q: nat, r: nat, p: nat)
    requires r < p
    ensures (p * q + r) % p == r && (p * q + r) / p == q
  {
    var x := p * q + r;
    var k, m := x / p, x % p;
    assert x == p * k + m;
    Scale(p, k + 1, q);
    Scale(p, q + 1, k);
    Scale(p, k, k);
    Scale(p, q, q);
    assert k == q;
  }

  lemma {:induction false} BitMod(b: nat, width: nat, i: nat)
    requires i < width
    ensures Bit(b % Pow2(width), i) <==> Bit(b, i)
    decreases i
  {
    HalfModulus(b, Pow2(width - 1));
    if i > 0 { BitMod(b / 2, width - 1, i - 1); }
  }

  lemma BitDouble(b: nat, width: nat, i: nat)
    requires i < width
    ensures Bit(2 * b % Pow2(width), i) <==> i > 0 && Bit(b, i - 1)
  {
    BitMod(2 * b, width, i);
    Halves(b, 0);
  }

  lemma {:induction false} BitShl(b: nat, d: nat, width: nat, i: nat)
    requires b < Pow2(width) && i < width
    ensures Bit(Shl(b, d, width), i) <==> i >= d && Bit(b, i - d)
    decreases d
  {
    if d > 0 {
      BitShl(2 * b % Pow2(width), d - 1, width, i);
      if i >= d - 1 { BitDouble(b, width, i - (d - 1)); }
    }
  }

  /** A single bit. */
  lemma BitOne(d: nat, width: nat, i: nat)
    requires d < width && i < width && 1 < Pow2(width)
    ensures Bit(Shl(1, d, width), i) <==> i == d
  {
    BitShl(1, d, width, i);
    if i > d { BitZero(i - d - 1); }
  }

  /** Testing a bit with a mask. */
  lemma MaskTests(b: nat, d: nat, width: nat)
    requires b < Pow2(width) && d < width && 1 < Pow2(width)
    ensures And(b, Shl(1, d, width)) != 0 <==> Bit(b, d)
  {
    var m := And(b, Shl(1, d, width));
    BitAnd(b, Shl(1, d, width), d);
    BitOne(d, width, d);
    if m == 0 {
      BitZero(d);
    } else {
      var i := SomeBit(m);
      BitAnd(b, Shl(1, d, width), i);
      if i < width { BitOne(d, width, i); } else { BitHigh(b, width, i); }
    }
  }
}
