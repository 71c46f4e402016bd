/** The anti-replay window: the highest sequence number and a 64-bit map of the numbers
    at and below it (section 3.4.3 of RFC 4303). */
module Replay {
  import opened Bytes
  import opened Bits

  const WIDTH := 64

  type word = b: nat | b < Pow2(WIDTH)

  datatype Window = Window(highest: u32, bitmap: word)

  lemma {:induction false} Pow2Large(n: nat)
    ensures n < Pow2(n)
  {
    if n > 0 { Pow2Large(n - 1); }
  }

  function One(): (w: word)
    ensures w == 1
  {
    Pow2Large(WIDTH);
    1
  }

  function OrWord(a: word, b: word): word {
    OrBound(a, b, WIDTH);
    Or(a, b)
  }

  const FRESH := Window(0, 0)

  /** One number: the window after it, and whether it is accepted. */
  function Accept(w: Window, s: u32): (Window, bool) {
    if s == 0 then (w, false)
    else if w.highest == 0 then (Window(s, One()), true)
    else if s > w.highest then
      var delta := s - w.highest;
      (Window(s, if delta >= WIDTH then One() else OrWord(Shl(w.bitmap, delta, WIDTH), One())), true)
    else
      var delta := w.highest - s;
      if delta >= WIDTH || And(w.bitmap, Shl(One(), delta, WIDTH)) != 0 then (w, false)
      else (w.(bitmap := OrWord(w.bitmap, Shl(One(), delta, WIDTH))), true)
  }

  // ---- The simple model: every number ever accepted ----

  /** More than `a - 64` for every accepted `a`. */
  ghost predicate Recent(accepted: set<u32>, s: u32) {
    forall a :: a in accepted ==> s > a - WIDTH
  }

  ghost predicate Acceptable(accepted: set<u32>, s: u32) {
    s != 0 && s !in accepted && Recent(accepted, s)
  }

  ghost function Extend(accepted: set<u32>, s: u32): set<u32> {
    if Acceptable(accepted, s) then accepted + {s} else accepted
  }

  /** The bits of the window are the accepted numbers among the 64 highest. */
  ghost predicate Represents(w: Window, accepted: set<u32>) {
    && 0 !in accepted && (w.highest == 0 <==> accepted == {}) && (w.highest != 0 ==> w.highest in accepted)
    && (forall a :: a in accepted ==> a <= w.highest)
    && (forall i :: 0 <= i < WIDTH ==> (Bit(w.bitmap, i) <==> w.highest - i > 0 && w.highest - i in accepted))
  }

  lemma FreshRepresents()
    ensures Represents(FRESH, {})
  {
    forall i | 0 <= i < WIDTH ensures !Bit(0, i) { BitZero(i); }
  }

  lemma FirstSeeds(s: u32)
    requires s > 0
    ensures Represents(Window(s, One()), {s})
  {
    forall i | 0 <= i < WIDTH ensures Bit(1, i) <==> i == 0 { if i > 0 { BitZero(i - 1); } }
  }

  /** A higher number shifts the map; numbers that fall out of it are no longer asked for. */
  lemma HigherShifts(w: Window, accepted: set<u32>, s: u32)
    requires Represents(w, accepted) && 0 < w.highest < s
    ensures Represents(Accept(w, s).0, accepted + {s})
  {
    hide Shl, Or, Pow2;
    var n, delta := Accept(w, s).0, s - w.highest;
    forall i | 0 <= i < WIDTH ensures Bit(n.bitmap, i) <==> s - i > 0 && s - i in accepted + {s} {
      if i > 0 { BitZero(i - 1); }
      if delta < WIDTH {
        BitOr(Shl(w.bitmap, delta, WIDTH), 1, i);
        BitShl(w.bitmap, delta, WIDTH, i);
      }
    }
  }

  lemma LowerSets(w: Window, accepted: set<u32>, s: u32)
    requires Represents(w, accepted) && 0 < s <= w.highest && w.highest - s < WIDTH
    ensures Accept(w, s).1 <==> s !in accepted
    ensures Accept(w, s).1 ==> Represents(Accept(w, s).0, accepted + {s})
  {
    hide Shl, Or, And, Pow2;
    var delta := w.highest - s;
    Pow2Large(WIDTH);
    MaskTests(w.bitmap, delta, WIDTH);
    if Accept(w, s).1 {
      var n := Accept(w, s).0;
      forall i | 0 <= i < WIDTH ensures Bit(n.bitmap, i) <==> n.highest - i > 0 && n.highest - i in accepted + {s} {
        BitOr(w.bitmap, Shl(1, delta, WIDTH), i);
        BitOne(delta, WIDTH, i);
      }
    }
  }

  /** One call refines the simple model: it accepts exactly what the simple model accepts,
      and a rejected number leaves the window as it was. */
  lemma AcceptRefines(w: Window, accepted: set<u32>, s: u32)
    requires Represents(w, accepted)
    ensures Accept(w, s).1 <==> Acceptable(accepted, s)
    ensures Represents(Accept(w, s).0, Extend(accepted, s))
    ensures !Accept(w, s).1 ==> Accept(w, s).0 == w
  {
    if s != 0 && w.highest == 0 {
      FirstSeeds(s);
      assert accepted + {s} == {s};
    } else if s > w.highest {
      HigherShifts(w, accepted, s);
    } else if s != 0 && w.highest - s < WIDTH {
      LowerSets(w, accepted, s);
    }
  }

  // ---- Any sequence of calls ----

  function AcceptAll(w: Window, ss: seq<u32>): (Window, seq<bool>)
    decreases |ss|
  {
    if ss == [] then (w, []) else
    var (mid, oks) := AcceptAll(w, ss[..|ss| - 1]);
    var (n, ok) := Accept(mid, ss[|ss| - 1]);
    (n, oks + [ok])
  }

  ghost function ExtendAll(accepted: set<u32>, ss: seq<u32>): set<u32>
    decreases |ss|
  {
    if ss == [] then accepted else Extend(ExtendAll(accepted, ss[..|ss| - 1]), ss[|ss| - 1])
  }

  /** Over any sequence of calls on a fresh window: the k-th call is accepted exactly when
      its number is not zero, was not accepted before, and is more than 64 below none of
      the numbers accepted before. */
  lemma {:induction false} WindowRefines(ss: seq<u32>, k: nat)
    requires k < |ss|
    ensures |AcceptAll(FRESH, ss).1| == |ss|
    ensures AcceptAll(FRESH, ss).1[k] <==> Acceptable(ExtendAll({}, ss[..k]), ss[k])
    ensures Represents(AcceptAll(FRESH, ss).0, ExtendAll({}, ss))
    decreases |ss|
  {
    var n := |ss| - 1;
    if n == 0 {
      assert ss[..0] == [];
      FreshRepresents();
    } else {
      WindowRefines(ss[..n], if k < n then k else 0);
      assert k < n ==> ss[..n][..k] == ss[..k];
    }
    AcceptRefines(AcceptAll(FRESH, ss[..n]).0, ExtendAll({}, ss[..n]), ss[n]);
  }

  // ---- In place ----

  class ReplayWindow {
    var highest: u32
    var bitmap: word

    function View(): Window
      reads this
    {
      Window(highest, bitmap)
    }

    constructor ()
      ensures View() == FRESH
    {
      highest, bitmap := 0, 0;
    }

    method AcceptSeq(s: u32) returns (ok: bool)
      modifies this
      ensures (View(), ok) == Accept(old(View()), s)
    {
      if s == 0 { return false; }
      if highest == 0 {
        highest, bitmap := s, One();
        return true;
      }
      if s > highest {
        var delta := s - highest;
        if delta >= WIDTH { bitmap := One(); } else { bitmap := OrWord(Shl(bitmap, delta, WIDTH), One()); }
        highest := s;
        return true;
      }
      var delta := highest - s;
      if delta >= WIDTH { return false; }
      var bit := Shl(One(), delta, WIDTH);
      if And(bitmap, bit) != 0 { return false; }
      bitmap := OrWord(bitmap, bit);
      return true;
    }

    method Reset()
      modifies this
      ensures View() == FRESH
    {
      highest, bitmap := 0, 0;
    }
  }
}
