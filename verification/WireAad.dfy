/** The two ways to the authenticated prefix of an encrypted message: re-marshalling the
    parsed message, and walking the raw octets. */
module WireAad {
  import opened Bytes
  import opened WireMessage

  // ---- Walking the raw octets ----

  /** The encrypted payload: where its body starts, and what its headers say. */
  datatype Located = Located(ivStart: nat, innerNext: u8, frag: Option<Fragment>)

  function Locate(rest: bytes, off: nat, next: u8): Option<Located>
    requires off <= |rest|
    decreases |rest| - off
  {
    if next == NONE || |rest| - off < PAYLOAD_HEADER_LEN then None else
    var n := Get16(rest[off + 2..off + 4]);
    if n < PAYLOAD_HEADER_LEN || off + n > |rest| then None
    else if IsEncrypted(next) then
      if off + n != |rest| then None
      else if next == SK then Some(Located(off + 4, rest[off], None))
      else if off + 8 > |rest| then None
      else match ParseSkfHeader(rest[off + 4..off + 8])
           case None => None
           case Some((f, _)) => Some(Located(off + 8, rest[off], Some(f)))
    else Locate(rest, off + n, rest[off])
  }

  /** The walk over offsets. */
  method LocateEncrypted(rest: bytes, first: u8) returns (r: Option<Located>)
    ensures r == Locate(rest, 0, first)
  {
    var next, off := first, 0;
    while next != NONE
      invariant off <= |rest| && Locate(rest, 0, first) == Locate(rest, off, next)
      decreases |rest| - off
    {
      if |rest| - off < PAYLOAD_HEADER_LEN { return None; }
      var n := Get16(rest[off + 2..off + 4]);
      if n < PAYLOAD_HEADER_LEN || off + n > |rest| { return None; }
      if IsEncrypted(next) {
        if off + n != |rest| { return None; }
        if next == SK { return Some(Located(off + 4, rest[off], None)); }
        if off + 8 > |rest| { return None; }
        var f := ParseSkfHeader(rest[off + 4..off + 8]);
        return if f.None? then None else Some(Located(off + 8, rest[off], Some(f.value.0)));
      }
      next, off := rest[off], off + n;
    }
    return None;
  }

  lemma SkfHeaderOnly(b: bytes)
    requires |b| >= 4
    ensures ParseSkfHeader(b).Some? <==> ParseSkfHeader(b[..4]).Some?
    ensures ParseSkfHeader(b).Some? ==> ParseSkfHeader(b).value == (ParseSkfHeader(b[..4]).value.0, b[4..])
  {
    assert b[..4][0..2] == b[0..2] && b[..4][2..4] == b[2..4];
  }

  ghost predicate SameFind(rest: bytes, l: Option<Located>, p: Option<(seq<Payload>, Option<Encrypted>)>) {
    && (l.Some? <==> p.Some? && p.value.1.Some?)
    && (l.Some? ==> l.value.ivStart <= |rest|
                    && p.value.1.value.innerNext == l.value.innerNext && p.value.1.value.frag == l.value.frag
                    && p.value.1.value.body == rest[l.value.ivStart..])
  }

  lemma LastAgrees(rest: bytes, off: nat, next: u8)
    requires off <= |rest| && IsEncrypted(next)
    ensures SameFind(rest, Locate(rest, off, next), ParsePayloads(rest[off..], next, true))
  {
    var tail := rest[off..];
    if |tail| >= 4 {
      assert tail[2..4] == rest[off + 2..off + 4] && tail[0] == rest[off];
      var n := Get16(tail[2..4]);
      if 4 <= n == |tail| {
        assert tail[4..n] == rest[off + 4..];
        if n >= 8 {
          SkfHeaderOnly(tail[4..n]);
          assert tail[4..n][..4] == rest[off + 4..off + 8] && tail[4..n][4..] == rest[off + 8..];
        }
      }
    }
  }

  /** The walk finds an encrypted payload exactly when the parser does, with the same
      headers and the same body. */
  lemma {:induction false} WalkAgrees(rest: bytes, off: nat, next: u8)
    requires off <= |rest|
    ensures SameFind(rest, Locate(rest, off, next), ParsePayloads(rest[off..], next, true))
    decreases |rest| - off
  {
    var tail := rest[off..];
    if IsEncrypted(next) {
      LastAgrees(rest, off, next);
    } else if next != NONE && |tail| >= 4 {
      assert tail[2..4] == rest[off + 2..off + 4] && tail[0] == rest[off];
      var n := Get16(tail[2..4]);
      if 4 <= n <= |tail| {
        assert tail[n..] == rest[off + n..];
        WalkAgrees(rest, off + n, rest[off]);
      }
    }
  }

  // ---- Re-marshalling ----

  function FragmentHeader(f: Option<Fragment>): bytes {
    if f.None? then [] else Put16(f.value.number) + Put16(f.value.total)
  }

  /** The payload headers and bodies up to the encrypted body; the SK payload's critical
      bit is written as clear. */
  function Remarshal(ps: seq<Payload>, e: Encrypted): Option<bytes> {
    if ps == [] then
      var fh := FragmentHeader(e.frag);
      if PAYLOAD_HEADER_LEN + |fh| + |e.body| > 0xFFFF then None
      else Some(PayloadHeader(e.innerNext, false, |fh| + |e.body|) + fh)
    else if PAYLOAD_HEADER_LEN + |ps[0].body| > 0xFFFF then None
    else match Remarshal(ps[1..], e)
         case None => None
         case Some(tail) => Some(PayloadHeader(ps[0].next, ps[0].critical, |ps[0].body|) + ps[0].body + tail)
  }

  function RebuildPrefix(m: Message): Option<bytes> {
    if m.encrypted.None? then None else
    match Remarshal(m.payloads, m.encrypted.value)
    case None => None
    case Some(chain) => Some(Marshal(m.header) + chain)
  }

  /** The reserved bits that parsing drops: seven in each payload, and all eight of that
      octet in the encrypted payload's header. */
  predicate ReservedClear(rest: bytes, off: nat, next: u8)
    requires off <= |rest| && Locate(rest, off, next).Some?
    decreases |rest| - off
  {
    if IsEncrypted(next) then rest[off + 1] == 0
    else rest[off + 1] % 0x80 == 0 && ReservedClear(rest, off + Get16(rest[off + 2..off + 4]), rest[off])
  }

  lemma HeaderOctets(rest: bytes, off: nat, n: nat, critical: bool)
    requires off + 4 <= |rest| && n == Get16(rest[off + 2..off + 4]) && n >= 4
    ensures PayloadHeader(rest[off], critical, n - 4) == rest[off..off + 4] <==>
      rest[off + 1] == if critical then 0x80 else 0
  {
    PutGet16(rest[off + 2..off + 4]);
    assert rest[off..off + 4] == [rest[off], rest[off + 1]] + rest[off + 2..off + 4];
  }

  lemma FragmentOctets(b: bytes)
    requires |b| == 4 && ParseSkfHeader(b).Some?
    ensures FragmentHeader(Some(ParseSkfHeader(b).value.0)) == b
  {
    PutGet16(b[0..2]);
    PutGet16(b[2..4]);
    assert b == b[0..2] + b[2..4];
  }

  lemma SplitPrefix(a: bytes, b: bytes, s: bytes, i: nat, j: nat)
    requires |a| == i <= j == |a| + |b| && j <= |s|
    ensures a + b == s[..j] <==> a == s[..i] && b == s[i..j]
  {
    assert s[..i] + s[i..j] == s[..j];
    assert a == (a + b)[..i] && s[..j][..i] == s[..i];
    assert b == (a + b)[i..] && s[..j][i..] == s[i..j];
  }

  /** The encrypted payload's own headers. */
  lemma LastRemarshals(rest: bytes, off: nat, next: u8)
    requires off <= |rest| && Locate(rest, off, next).Some? && IsEncrypted(next)
    ensures var p := ParsePayloads(rest[off..], next, true);
            var at := Locate(rest, off, next).value.ivStart;
            && p.Some? && p.value.1.Some? && p.value.0 == [] && off + 4 <= at <= |rest|
            && Remarshal([], p.value.1.value).Some? && |Remarshal([], p.value.1.value).value| == at - off
            && (Remarshal([], p.value.1.value).value == rest[off..at] <==> rest[off + 1] == 0)
  {
    WalkAgrees(rest, off, next);
    var tail := rest[off..];
    assert tail[2..4] == rest[off + 2..off + 4];
    var n := Get16(rest[off + 2..off + 4]);
    var l := Locate(rest, off, next).value;
    var fh := FragmentHeader(l.frag);
    if next == SKF { FragmentOctets(rest[off + 4..off + 8]); }
    assert fh == rest[off + 4..l.ivStart];
    HeaderOctets(rest, off, n, false);
    SplitPrefix(PayloadHeader(rest[off], false, n - 4), fh, tail, 4, l.ivStart - off);
    assert tail[..4] == rest[off..off + 4] && tail[4..l.ivStart - off] == rest[off + 4..l.ivStart] &&
      tail[..l.ivStart - off] == rest[off..l.ivStart];
  }

  /** The re-marshalled chain is as long as the raw one, and the same iff `clear`. */
  ghost predicate Remarshals(rest: bytes, off: nat, at: nat, ps: seq<Payload>, e: Encrypted, clear: bool) {
    && off <= at <= |rest| && Remarshal(ps, e).Some? && |Remarshal(ps, e).value| == at - off
    && (Remarshal(ps, e).value == rest[off..at] <==> clear)
  }

  lemma ChainStep(rest: bytes, off: nat, next: u8, n: nat, at: nat, ps: seq<Payload>, e: Encrypted, clear: bool)
    requires off + 4 <= |rest| && n == Get16(rest[off + 2..off + 4]) && 4 <= n && off + n <= |rest|
    requires Remarshals(rest, off + n, at, ps, e, clear)
    ensures Remarshals(rest, off, at, [Payload(next, rest[off + 1] >= 0x80, rest[off], rest[off + 4..off + n])] + ps, e,
                       rest[off + 1] % 0x80 == 0 && clear)
  {
    var p := Payload(next, rest[off + 1] >= 0x80, rest[off], rest[off + 4..off + n]);
    assert ([p] + ps)[1..] == ps;
    HeadRemarshals(rest, off, next, n, at);
  }

  lemma LastChain(rest: bytes, off: nat, next: u8, l: Located, ps: seq<Payload>, e: Encrypted)
    requires off <= |rest| && Locate(rest, off, next) == Some(l)
    requires ParsePayloads(rest[off..], next, true) == Some((ps, Some(e)))
    requires IsEncrypted(next)
    ensures Remarshals(rest, off, l.ivStart, ps, e, ReservedClear(rest, off, next))
  {
    hide Remarshal, ParsePayloads, Locate;
    LastRemarshals(rest, off, next);
  }

  lemma {:induction false} ChainRemarshals(rest: bytes, off: nat, next: u8, l: Located, ps: seq<Payload>, e: Encrypted)
    requires off <= |rest| && Locate(rest, off, next) == Some(l)
    requires ParsePayloads(rest[off..], next, true) == Some((ps, Some(e)))
    ensures Remarshals(rest, off, l.ivStart, ps, e, ReservedClear(rest, off, next))
    decreases |rest| - off
  {
    hide Remarshals, Remarshal, ParsePayloads;
    if IsEncrypted(next) {
      LastChain(rest, off, next, l, ps, e);
    } else {
      ParseStep(rest, off, next, ps, e);
      var n := Get16(rest[off + 2..off + 4]);
      ChainRemarshals(rest, off + n, rest[off], l, ps[1..], e);
      ChainStep(rest, off, next, n, l.ivStart, ps[1..], e, ReservedClear(rest, off + n, rest[off]));
    }
  }

  /** The first cleartext payload of a parsed chain, and the chain behind it. */
  lemma ParseStep(rest: bytes, off: nat, next: u8, ps: seq<Payload>, e: Encrypted)
    requires off <= |rest| && !IsEncrypted(next) && ParsePayloads(rest[off..], next, true) == Some((ps, Some(e)))
    ensures next != NONE && off + 4 <= |rest|
    ensures var n := Get16(rest[off + 2..off + 4]);
            && 4 <= n && off + n <= |rest| && ps != []
            && ps == [Payload(next, rest[off + 1] >= 0x80, rest[off], rest[off + 4..off + n])] + ps[1..]
            && ParsePayloads(rest[off + n..], rest[off], true) == Some((ps[1..], Some(e)))
  {
    var tail := rest[off..];
    assert tail[2..4] == rest[off + 2..off + 4] && tail[0] == rest[off] && tail[1] == rest[off + 1];
    var n := Get16(rest[off + 2..off + 4]);
    assert tail[n..] == rest[off + n..] && tail[4..n] == rest[off + 4..off + n];
  }

  /** One cleartext payload in front of the rest. */
  lemma HeadRemarshals(rest: bytes, off: nat, next: u8, n: nat, at: nat)
    requires off + 4 <= |rest| && n == Get16(rest[off + 2..off + 4]) && 4 <= n && off + n <= at <= |rest|
    ensures var critical := rest[off + 1] >= 0x80;
            forall more: bytes :: |more| == at - off - n ==>
              (PayloadHeader(rest[off], critical, n - 4) + rest[off + 4..off + n] + more == rest[off..at]
               <==> rest[off + 1] % 0x80 == 0 && more == rest[off + n..at])
  {
    var critical := rest[off + 1] >= 0x80;
    var head, body, s := PayloadHeader(rest[off], critical, n - 4), rest[off + 4..off + n], rest[off..];
    HeaderOctets(rest, off, n, critical);
    assert s[..4] == rest[off..off + 4] && s[4..n] == body && s[n..at - off] == rest[off + n..at] &&
      s[..at - off] == rest[off..at];
    forall more: bytes | |more| == at - off - n
      ensures head + body + more == rest[off..at] <==> rest[off + 1] % 0x80 == 0 && more == rest[off + n..at]
    {
      SplitPrefix(head + body, more, s, n, at - off);
      SplitPrefix(head, body, s, 4, n);
    }
  }

  /** The located body is the parsed one, and the rebuilt prefix is what stands before it. */
  ghost predicate SamePrefix(raw: bytes, rest: bytes, m: Message, l: Located, clear: bool) {
    && l.ivStart <= |rest| && HEADER_LEN + l.ivStart <= |raw| && m.encrypted.Some?
    && m.encrypted.value.body == rest[l.ivStart..] && m.encrypted.value.innerNext == l.innerNext
    && m.encrypted.value.frag == l.frag
    && RebuildPrefix(m).Some? && |RebuildPrefix(m).value| == HEADER_LEN + l.ivStart
    && (RebuildPrefix(m).value == raw[..HEADER_LEN + l.ivStart] <==> clear)
  }

  lemma SliceOfSlice(s: bytes, from: nat, to: nat, n: nat)
    requires from <= to <= |s| && n <= to - from
    ensures s[from..to][0..n] == s[from..from + n]
  {
  }

  /** For every parsed encrypted message: the re-marshalled prefix has the length of the raw
      one, and is the raw one, octet for octet, exactly when the reserved bits that parsing
      drops are zero. Both ways then authenticate the same octets and open the same body. */
  lemma PrefixExact(raw: bytes, m: Message)
    requires ParseMessage(raw) == Some(m) && m.encrypted.Some?
    ensures ParseHeader(raw).Some?
    ensures var (h, rest) := ParseHeader(raw).value;
            Locate(rest, 0, h.next).Some? &&
              SamePrefix(raw, rest, m, Locate(rest, 0, h.next).value, ReservedClear(rest, 0, h.next))
  {
    hide Marshal, Locate, ParsePayloads, Remarshal, ReservedClear;
    var (h, rest) := ParseHeader(raw).value;
    assert rest[0..] == rest;
    WalkAgrees(rest, 0, h.next);
    var l, e := Locate(rest, 0, h.next).value, m.encrypted.value;
    ChainRemarshals(rest, 0, h.next, l, m.payloads, e);
    HeaderRemarshals(raw);
    SliceOfSlice(raw, HEADER_LEN, h.length, l.ivStart);
    SplitPrefix(Marshal(h), Remarshal(m.payloads, e).value, raw, HEADER_LEN, HEADER_LEN + l.ivStart);
  }

  /** A message with a reserved bit set in the header of its encrypted payload: it parses, and
      the prefix rebuilt from it is not the one that arrived. */
  lemma ReservedBitLost()
    ensures var h := Header(1, 2, SK, VERSION, 37, 8, 0, 33);
            var raw := Marshal(h) + [41, 1, 0, 5, 9];
            && ParseMessage(raw) == Some(Message(h, [], Some(Encrypted(SK, 41, None, [9]))))
            && RebuildPrefix(ParseMessage(raw).value) == Some(Marshal(h) + [41, 0, 0, 5])
            && raw[..32] != Marshal(h) + [41, 0, 0, 5]
  {
    hide Marshal;
    var h := Header(1, 2, SK, VERSION, 37, 8, 0, 33);
    var rest: bytes := [41, 1, 0, 5, 9];
    HeaderParses(h, rest);
    assert rest[2..4] == [0, 5] && rest[4..5] == [9];
    assert (Marshal(h) + rest)[29] == 1 && (Marshal(h) + [41, 0, 0, 5])[29] == 0;
    assert PayloadHeader(41, false, 1) + [] == [41, 0, 0, 5];
  }
}
