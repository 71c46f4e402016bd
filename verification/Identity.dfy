/** Matching a peer identity against the configured one, with the greedy glob of two indices. */
module Identity {
  import opened Bytes

  const STAR: u8 := 42
  const ANY: u8 := 63
  const ID_FQDN: u8 := 2
  const ID_RFC822_ADDR: u8 := 3

  // ---- What a glob means ----

  /** A star matches any run of bytes, a question mark any one byte. */
  predicate Glob(p: bytes, v: bytes)
    decreases |p| + |v|
  {
    if p == [] then v == []
    else if p[0] == STAR then Glob(p[1..], v) || (v != [] && Glob(p, v[1..]))
    else v != [] && (p[0] == ANY || p[0] == v[0]) && Glob(p[1..], v[1..])
  }

  // ---- The matcher ----

  predicate AllStars(p: bytes) {
    forall i :: 0 <= i < |p| ==> p[i] == STAR
  }

  predicate Fits(x: u8, y: u8) {
    x == ANY || x == y
  }

  /** Where the two indices are, and the last star seen (-1 for none). */
  datatype Cursor = Cursor(pi: nat, vi: nat, starPi: int, starVi: nat)

  predicate InRange(p: bytes, v: bytes, k: Cursor) {
    k.pi <= |p| && k.vi <= |v| && -1 <= k.starPi < k.pi && k.starVi <= k.vi
  }

  /** The loop: a literal fit first, then a star, then one more byte for the last star. */
  predicate Greedy(p: bytes, v: bytes, k: Cursor)
    requires InRange(p, v, k)
    decreases |p| - k.starPi, |v| - k.starVi, |v| - k.vi
  {
    if k.vi == |v| then AllStars(p[k.pi..])
    else if k.pi < |p| && Fits(p[k.pi], v[k.vi]) then Greedy(p, v, k.(pi := k.pi + 1, vi := k.vi + 1))
    else if k.pi < |p| && p[k.pi] == STAR then Greedy(p, v, Cursor(k.pi + 1, k.vi, k.pi, k.vi))
    else if k.starPi != -1 then Greedy(p, v, Cursor(k.starPi + 1, k.starVi + 1, k.starPi, k.starVi + 1))
    else false
  }

  predicate Match(p: bytes, v: bytes) {
    Greedy(p, v, Cursor(0, 0, -1, 0))
  }

  // ---- Soundness, for every value ----

  lemma {:induction false} GlobConcat(p: bytes, v: bytes, q: bytes, w: bytes)
    requires Glob(p, v) && Glob(q, w)
    ensures Glob(p + q, v + w)
    decreases |p| + |v|
  {
    if p == [] {
      assert p + q == q && v + w == w;
    } else {
      assert (p + q)[1..] == p[1..] + q && (v != [] ==> (v + w)[1..] == v[1..] + w);
      if p[0] == STAR {
        if Glob(p[1..], v) { GlobConcat(p[1..], v, q, w); } else { GlobConcat(p, v[1..], q, w); }
      } else {
        GlobConcat(p[1..], v[1..], q, w);
      }
    }
  }

  lemma {:induction false} StarTakesAll(w: bytes)
    ensures Glob([STAR], w)
  {
    if w == [] { assert [STAR][1..] == []; } else { StarTakesAll(w[1..]); }
  }

  lemma {:induction false} StarsTakeNothing(p: bytes)
    ensures Glob(p, []) <==> AllStars(p)
  {
    if p != [] {
      StarsTakeNothing(p[1..]);
      assert p == [p[0]] + p[1..];
    }
  }

  /** What was consumed of the pattern matches what was consumed of the value, also at the last star. */
  ghost predicate Consumed(p: bytes, v: bytes, k: Cursor)
    requires InRange(p, v, k)
  {
    && Glob(p[..k.pi], v[..k.vi])
    && (k.starPi != -1 ==> p[k.starPi] == STAR && Glob(p[..k.starPi + 1], v[..k.starVi]))
  }

  lemma OneMore(p: bytes, v: bytes, i: nat, j: nat)
    requires i < |p| && j < |v| && Glob(p[..i], v[..j]) && Fits(p[i], v[j])
    ensures Glob(p[..i + 1], v[..j + 1])
  {
    assert p[..i + 1] == p[..i] + [p[i]] && v[..j + 1] == v[..j] + [v[j]];
    assert [v[j]][1..] == [] && [p[i]][1..] == [];
    if p[i] == STAR { StarTakesAll([v[j]]); }
    GlobConcat(p[..i], v[..j], [p[i]], [v[j]]);
  }

  lemma StarMore(p: bytes, v: bytes, i: nat, j: nat)
    requires i < |p| && p[i] == STAR && j <= |v|
    ensures Glob(p[..i], v[..j]) ==> Glob(p[..i + 1], v[..j])
    ensures j < |v| && Glob(p[..i + 1], v[..j]) ==> Glob(p[..i + 1], v[..j + 1])
  {
    assert p[..i + 1] == p[..i] + [STAR] && v[..j] + [] == v[..j];
    StarTakesAll([]);
    if Glob(p[..i], v[..j]) { GlobConcat(p[..i], v[..j], [STAR], []); }
    if j < |v| && Glob(p[..i + 1], v[..j]) {
      assert v[..j + 1] == v[..j] + [v[j]];
      StarGrows(p[..i], v[..j], [v[j]]);
    }
  }

  /** A pattern that ends in a star still matches when the value grows at the end. */
  lemma {:induction false} StarGrows(p: bytes, v: bytes, w: bytes)
    requires Glob(p + [STAR], v)
    ensures Glob(p + [STAR], v + w)
    decreases |p| + |v|
  {
    if p == [] {
      assert p + [STAR] == [STAR];
      StarTakesAll(v + w);
    } else {
      assert (p + [STAR])[1..] == p[1..] + [STAR] && (v != [] ==> (v + w)[1..] == v[1..] + w);
      if p[0] == STAR {
        if Glob(p[1..] + [STAR], v) { StarGrows(p[1..], v, w); } else { StarGrows(p, v[1..], w); }
      } else {
        StarGrows(p[1..], v[1..], w);
      }
    }
  }

  lemma {:induction false} GreedySound(p: bytes, v: bytes, k: Cursor)
    requires InRange(p, v, k)
    requires Consumed(p, v, k) && Greedy(p, v, k)
    ensures Glob(p, v)
    decreases |p| - k.starPi, |v| - k.starVi, |v| - k.vi
  {
    if k.vi == |v| {
      StarsTakeNothing(p[k.pi..]);
      GlobConcat(p[..k.pi], v[..k.vi], p[k.pi..], []);
      assert p[..k.pi] + p[k.pi..] == p && v[..k.vi] + [] == v;
    } else if k.pi < |p| && Fits(p[k.pi], v[k.vi]) {
      OneMore(p, v, k.pi, k.vi);
      GreedySound(p, v, k.(pi := k.pi + 1, vi := k.vi + 1));
    } else if k.pi < |p| && p[k.pi] == STAR {
      StarMore(p, v, k.pi, k.vi);
      GreedySound(p, v, Cursor(k.pi + 1, k.vi, k.pi, k.vi));
    } else {
      StarMore(p, v, k.starPi, k.starVi);
      GreedySound(p, v, Cursor(k.starPi + 1, k.starVi + 1, k.starPi, k.starVi + 1));
    }
  }

  // ---- Completeness, for values without a literal star ----

  /** A star in front absorbs more of the value. */
  lemma {:induction false} StarAbsorbs(p: bytes, v: bytes, j: nat)
    requires p != [] && p[0] == STAR && j <= |v| && Glob(p, v[j..])
    ensures Glob(p, v)
    decreases |v|
  {
    if j > 0 {
      assert v[1..][j - 1..] == v[j..];
      StarAbsorbs(p, v[1..], j - 1);
    } else {
      assert v[0..] == v;
    }
  }

  /** What a leading star leaves for the rest of the pattern. */
  lemma {:induction false} StarSkips(p: bytes, v: bytes) returns (j: nat)
    requires p != [] && p[0] == STAR && Glob(p, v)
    ensures j <= |v| && Glob(p[1..], v[j..])
    decreases |v|
  {
    if Glob(p[1..], v) {
      j := 0;
      assert v[0..] == v;
    } else {
      var i := StarSkips(p, v[1..]);
      j := i + 1;
      assert v[1..][i..] == v[j..];
    }
  }

  ghost predicate Plain(s: bytes) {
    forall i :: 0 <= i < |s| ==> s[i] != STAR
  }

  /** A stretch of pattern without stars takes exactly as many bytes as it is long. */
  lemma {:induction false} PlainTakes(s: bytes, q: bytes, v: bytes)
    requires Plain(s) && Glob(s + q, v)
    ensures |s| <= |v| && Glob(q, v[|s|..]) && forall i :: 0 <= i < |s| ==> Fits(s[i], v[i])
    decreases |s|
  {
    if s == [] {
      assert s + q == q && v[0..] == v;
    } else {
      assert (s + q)[1..] == s[1..] + q && (s + q)[0] == s[0];
      PlainTakes(s[1..], q, v[1..]);
      assert v[1..][|s| - 1..] == v[|s|..];
    }
  }

  /** The match is still to be had from here, or from a later start at the last star. */
  ghost predicate Reachable(p: bytes, v: bytes, k: Cursor)
    requires InRange(p, v, k)
  {
    if k.starPi == -1 then Glob(p[k.pi..], v[k.vi..])
    else && p[k.starPi] == STAR && Glob(p[k.starPi..], v[k.starVi..]) && Plain(p[k.starPi + 1..k.pi])
         && k.vi - k.starVi == k.pi - k.starPi - 1
  }

  /** The stretch since the last star, wherever it starts. */
  lemma SinceStar(p: bytes, v: bytes, k: Cursor) returns (j: nat)
    requires InRange(p, v, k) && k.starPi != -1 && Reachable(p, v, k)
    ensures k.starVi <= j && j + (k.vi - k.starVi) <= |v| && Glob(p[k.pi..], v[j + (k.vi - k.starVi)..])
    ensures j == k.starVi || Glob(p[k.starPi..], v[k.starVi + 1..])
  {
    var q, w := p[k.starPi..], v[k.starVi..];
    var i := StarSkips(q, w);
    j := k.starVi + i;
    var s := p[k.starPi + 1..k.pi];
    assert q[1..] == s + p[k.pi..] && w[i..] == v[j..];
    PlainTakes(s, p[k.pi..], v[j..]);
    assert v[j..][|s|..] == v[j + |s|..];
    if i > 0 {
      assert v[k.starVi + 1..][i - 1..] == v[j..];
      StarAtFront(q, v[k.starVi + 1..], i - 1);
    }
  }

  lemma StarAtFront(q: bytes, w: bytes, i: nat)
    requires q != [] && q[0] == STAR && i <= |w| && Glob(q[1..], w[i..])
    ensures Glob(q, w)
  {
    StarAbsorbs(q, w, i);
  }

  lemma FitKeeps(p: bytes, v: bytes, k: Cursor)
    requires InRange(p, v, k) && STAR !in v && Reachable(p, v, k) && k.vi < |v| && k.pi < |p| && Fits(p[k.pi], v[k.vi])
    ensures Reachable(p, v, k.(pi := k.pi + 1, vi := k.vi + 1))
  {
    assert v[k.vi] in v && p[k.pi] != STAR;
    assert p[k.pi..][1..] == p[k.pi + 1..] && v[k.vi..][1..] == v[k.vi + 1..];
    assert k.starPi != -1 ==> p[k.starPi + 1..k.pi + 1] == p[k.starPi + 1..k.pi] + [p[k.pi]];
  }

  lemma StarKeeps(p: bytes, v: bytes, k: Cursor)
    requires InRange(p, v, k) && Reachable(p, v, k) && k.vi < |v| && k.pi < |p| && p[k.pi] == STAR
    ensures Reachable(p, v, Cursor(k.pi + 1, k.vi, k.pi, k.vi))
  {
    if k.starPi != -1 {
      var j := SinceStar(p, v, k);
      assert v[k.vi..][j - k.starVi..] == v[j + (k.vi - k.starVi)..];
      StarAbsorbs(p[k.pi..], v[k.vi..], j - k.starVi);
    }
  }

  /** Neither a fit nor a star: the last star must take one more byte. */
  lemma BackKeeps(p: bytes, v: bytes, k: Cursor)
    requires InRange(p, v, k) && Reachable(p, v, k) && k.vi < |v|
    requires !(k.pi < |p| && (Fits(p[k.pi], v[k.vi]) || p[k.pi] == STAR))
    ensures k.starPi != -1 && Reachable(p, v, Cursor(k.starPi + 1, k.starVi + 1, k.starPi, k.starVi + 1))
  {
    assert v[k.vi..][0] == v[k.vi] && (k.pi < |p| ==> p[k.pi..][0] == p[k.pi]);
    if k.starPi != -1 { var j := SinceStar(p, v, k); }
  }

  lemma EndKeeps(p: bytes, v: bytes, k: Cursor)
    requires InRange(p, v, k) && Reachable(p, v, k) && k.vi == |v|
    ensures AllStars(p[k.pi..])
  {
    StarsTakeNothing(p[k.pi..]);
    if k.starPi != -1 { var j := SinceStar(p, v, k); }
  }

  lemma {:induction false} GreedyComplete(p: bytes, v: bytes, k: Cursor)
    requires InRange(p, v, k) && STAR !in v && Reachable(p, v, k)
    ensures Greedy(p, v, k)
    decreases |p| - k.starPi, |v| - k.starVi, |v| - k.vi
  {
    hide Reachable;
    if k.vi == |v| {
      EndKeeps(p, v, k);
    } else if k.pi < |p| && Fits(p[k.pi], v[k.vi]) {
      FitKeeps(p, v, k);
      GreedyComplete(p, v, k.(pi := k.pi + 1, vi := k.vi + 1));
    } else if k.pi < |p| && p[k.pi] == STAR {
      StarKeeps(p, v, k);
      GreedyComplete(p, v, Cursor(k.pi + 1, k.vi, k.pi, k.vi));
    } else {
      BackKeeps(p, v, k);
      GreedyComplete(p, v, Cursor(k.starPi + 1, k.starVi + 1, k.starPi, k.starVi + 1));
    }
  }

  // ---- The exact condition ----

  /** A true result is always a match; the converse holds for every value without a literal star. */
  lemma MatchIsGlob(p: bytes, v: bytes)
    ensures Match(p, v) ==> Glob(p, v)
    ensures STAR !in v && Glob(p, v) ==> Match(p, v)
  {
    var k := Cursor(0, 0, -1, 0);
    assert p[..0] == [] && v[..0] == [] && p[0..] == p && v[0..] == v;
    if Match(p, v) { GreedySound(p, v, k); }
    if STAR !in v && Glob(p, v) { GreedyComplete(p, v, k); }
  }

  function Marks(n: nat): (r: bytes)
    ensures |r| == n && forall i :: 0 <= i < n ==> r[i] == ANY
  {
    seq(n, i => ANY)
  }

  /** For a value with a literal star at `k`: as many question marks, a star, and one
      question mark for each byte from `k` on. */
  function Witness(v: bytes, k: nat): bytes
    requires k < |v|
  {
    Marks(k) + [STAR] + Marks(|v| - k)
  }

  lemma {:induction false} MarksMatch(v: bytes)
    ensures Glob(Marks(|v|), v)
  {
    if v != [] {
      assert Marks(|v|)[1..] == Marks(|v| - 1);
      MarksMatch(v[1..]);
    }
  }

  /** The literal star is taken for the pattern's star, and one question mark is left over. */
  lemma {:induction false} WitnessMissed(v: bytes, k: nat, i: nat)
    requires k < |v| && v[k] == STAR && i <= |v|
    ensures !Greedy(Witness(v, k), v, Cursor(i, i, -1, 0))
    decreases |v| - i
  {
    var p := Witness(v, k);
    assert |p| == |v| + 1 && p[k] == STAR && forall n :: 0 <= n < |p| && n != k ==> p[n] == ANY;
    if i < |v| { WitnessMissed(v, k, i + 1); } else { assert p[i..][0] == ANY; }
  }

  lemma WitnessMatches(v: bytes, k: nat)
    requires k < |v|
    ensures Glob(Witness(v, k), v)
  {
    hide Glob;
    MarksMatch(v[..k]);
    MarksMatch(v[k..]);
    StarTakesAll([]);
    GlobConcat(Marks(k), v[..k], [STAR], []);
    GlobConcat(Marks(k) + [STAR], v[..k] + [], Marks(|v| - k), v[k..]);
    assert v[..k] + [] + v[k..] == v;
  }

  ghost predicate MatchesAsGlob(v: bytes) {
    forall p :: Match(p, v) <==> Glob(p, v)
  }

  /** The matcher decides the glob for every pattern if and only if the value has no
      literal star: the literal case is tried before the star case. */
  lemma ExactlyWithoutStars(v: bytes)
    ensures MatchesAsGlob(v) <==> STAR !in v
  {
    if STAR in v {
      var k :| 0 <= k < |v| && v[k] == STAR;
      WitnessMatches(v, k);
      WitnessMissed(v, k, 0);
    } else {
      forall p ensures Match(p, v) <==> Glob(p, v) { MatchIsGlob(p, v); }
    }
  }

  // ---- Identities ----

  function AsciiLower(b: u8): u8 {
    if 65 <= b <= 90 then b + 32 else b
  }

  function Lower(s: bytes): (r: bytes)
    ensures |r| == |s| && forall i :: 0 <= i < |s| ==> r[i] == AsciiLower(s[i])
  {
    seq(|s|, i requires 0 <= i < |s| => AsciiLower(s[i]))
  }

  datatype Id = Id(idType: u8, data: bytes)

  predicate RightIdMatches(expected: Id, received: Id) {
    || expected.idType == 0
    || (expected.idType == received.idType
        && if expected.idType == ID_FQDN ||
          expected.idType == ID_RFC822_ADDR then Match(Lower(expected.data), Lower(received.data))
           else expected.data == received.data)
  }

  lemma LowerKeepsStar(s: bytes)
    ensures STAR in Lower(s) <==> STAR in s
  {
    var l := Lower(s);
    if STAR in s {
      var i :| 0 <= i < |s| && s[i] == STAR;
      assert l[i] == STAR;
    }
    if STAR in l {
      var i :| 0 <= i < |l| && l[i] == STAR;
      assert s[i] == STAR;
    }
  }

  /** Names match as globs without regard to ASCII case, everything else byte by byte. */
  lemma RightIdMeaning(expected: Id, received: Id)
    ensures expected.idType == 0 ==> RightIdMatches(expected, received)
    ensures expected.idType != 0 && RightIdMatches(expected, received) ==> expected.idType == received.idType
    ensures expected.idType != 0 ==>
            var named := expected.idType == ID_FQDN || expected.idType == ID_RFC822_ADDR;
            && (RightIdMatches(expected, received) && named ==> Glob(Lower(expected.data), Lower(received.data)))
            && (expected.idType == received.idType && named && STAR !in received.data ==>
                  (RightIdMatches(expected, received) <==> Glob(Lower(expected.data), Lower(received.data))))
            && (expected.idType == received.idType && !named ==>
                (RightIdMatches(expected, received) <==> expected.data == received.data))
  {
    MatchIsGlob(Lower(expected.data), Lower(received.data));
    LowerKeepsStar(received.data);
  }

  // ---- The loops ----

  method Folded(s: bytes) returns (r: bytes)
    ensures r == Lower(s)
  {
    r := [];
    for i := 0 to |s|
      invariant r == Lower(s)[..i]
    {
      r := r + [AsciiLower(s[i])];
    }
  }

  /** Four indices, moved until the value is used up. */
  method WildcardMatch(pattern: bytes, value: bytes, fold: bool) returns (ok: bool)
    ensures ok <==> if fold then Match(Lower(pattern), Lower(value)) else Match(pattern, value)
  {
    var p, v := pattern, value;
    if fold { p := Folded(pattern); v := Folded(value); }
    var pi, vi, starPi, starVi := 0, 0, -1, 0;
    while vi < |v|
      invariant InRange(p, v, Cursor(pi, vi, starPi, starVi))
      invariant Match(p, v) <==> Greedy(p, v, Cursor(pi, vi, starPi, starVi))
      decreases |p| - starPi, |v| - starVi, |v| - vi
    {
      if pi < |p| && (p[pi] == ANY || p[pi] == v[vi]) {
        pi, vi := pi + 1, vi + 1;
      } else if pi < |p| && p[pi] == STAR {
        starPi, starVi, pi := pi, vi, pi + 1;
      } else if starPi != -1 {
        pi, starVi := starPi + 1, starVi + 1;
        vi := starVi;
      } else {
        return false;
      }
    }
    assert Match(p, v) <==> AllStars(p[pi..]);
    ghost var from := pi;
    while pi < |p| && p[pi] == STAR
      invariant from <= pi <= |p| && forall i :: from <= i < pi ==> p[i] == STAR
    {
      pi := pi + 1;
    }
    assert pi < |p| ==> p[from..][pi - from] != STAR;
    return pi == |p|;
  }
}
