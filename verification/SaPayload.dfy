/** The SA payload body: proposals holding transforms holding attributes, each
    level with its own length field and chain marker (section 3.3 of RFC 7296). */
module SaPayload {
  import opened Bytes

  datatype Transform = Transform(typ: u8, id: u16, attrs: bytes)
  datatype Proposal = Proposal(num: u8, protocolId: u8, spi: bytes, transforms: seq<Transform>)
  datatype SA = SA(proposals: seq<Proposal>)

  const CHAIN_LAST: u8 := 0
  const PROPOSAL_MORE: u8 := 2
  const TRANSFORM_MORE: u8 := 3
  const TRANSFORM_HEADER := 8
  const PROPOSAL_HEADER := 8

  const ENC: u8 := 1
  const PRF: u8 := 2
  const INTEG: u8 := 3
  const DH: u8 := 4
  const ESN: u8 := 5

  const PROTOCOL_IKE: u8 := 1
  const PROTOCOL_ESP: u8 := 3

  // ---- Encoding ----

  /** The encoder panics on anything that does not fit its length fields. */
  predicate TransformFits(t: Transform) {
    TRANSFORM_HEADER + |t.attrs| <= 0xFFFF
  }

  function TransformsLen(ts: seq<Transform>): nat {
    if ts == [] then 0 else TRANSFORM_HEADER + |ts[0].attrs| + TransformsLen(ts[1..])
  }

  function ProposalLen(p: Proposal): nat {
    PROPOSAL_HEADER + |p.spi| + TransformsLen(p.transforms)
  }

  predicate ProposalFits(p: Proposal) {
    |p.spi| <= 255 && |p.transforms| <= 255 && ProposalLen(p) <= 0xFFFF
  }

  predicate Fits(sa: SA) {
    forall i :: 0 <= i < |sa.proposals| ==> ProposalFits(sa.proposals[i])
  }

  function EncodeTransform(t: Transform, last: bool): (b: bytes)
    requires TransformFits(t)
    ensures |b| == TRANSFORM_HEADER + |t.attrs|
  {
    [if last then CHAIN_LAST else TRANSFORM_MORE, 0] + Put16(TRANSFORM_HEADER + |t.attrs|)
    + [t.typ, 0] + Put16(t.id) + t.attrs
  }

  function EncodeTransforms(ts: seq<Transform>): (b: bytes)
    requires TransformsLen(ts) <= 0xFFFF
    ensures |b| == TransformsLen(ts)
  {
    if ts == [] then [] else EncodeTransform(ts[0], |ts| == 1) + EncodeTransforms(ts[1..])
  }

  function EncodeProposal(p: Proposal, more: bool): (b: bytes)
    requires ProposalFits(p)
    ensures |b| == ProposalLen(p)
  {
    [if more then PROPOSAL_MORE else CHAIN_LAST, 0] + Put16(ProposalLen(p))
    + [p.num, p.protocolId, |p.spi|, |p.transforms|] + p.spi + EncodeTransforms(p.transforms)
  }

  function EncodeProposals(ps: seq<Proposal>): bytes
    requires forall i :: 0 <= i < |ps| ==> ProposalFits(ps[i])
  {
    if ps == [] then [] else EncodeProposal(ps[0], |ps| > 1) + EncodeProposals(ps[1..])
  }

  function Encode(sa: SA): bytes
    requires Fits(sa)
  {
    EncodeProposals(sa.proposals)
  }

  // ---- Decoding ----

  function DecodeTransform(b: bytes): (r: Option<(Transform, bytes)>)
    ensures r.Some? ==> |b| >= TRANSFORM_HEADER && |r.value.1| + TRANSFORM_HEADER <= |b|
  {
    if |b| < TRANSFORM_HEADER then None else
    var length := Get16(b[2..4]);
    if length < TRANSFORM_HEADER || length > |b| then None else
    Some((Transform(b[4], Get16(b[6..8]), b[TRANSFORM_HEADER..length]), b[length..]))
  }

  /** Exactly `count` chained transforms; only the last one carries the last marker. */
  function DecodeTransforms(b: bytes, count: nat): Option<(seq<Transform>, bytes)> {
    if count == 0 then Some(([], b)) else
    match DecodeTransform(b)
    case None => None
    case Some((t, tail)) =>
      if b[0] != (if count == 1 then CHAIN_LAST else TRANSFORM_MORE) then None else
      match DecodeTransforms(tail, count - 1)
      case None => None
      case Some((ts, rest)) => Some(([t] + ts, rest))
  }

  function DecodeProposal(b: bytes): (r: Option<(Proposal, bytes)>)
    ensures r.Some? ==> |b| >= PROPOSAL_HEADER && |r.value.1| + PROPOSAL_HEADER <= |b|
  {
    if |b| < PROPOSAL_HEADER then None else
    var length := Get16(b[2..4]);
    if length < PROPOSAL_HEADER || length > |b| then None else
    var body := PROPOSAL_HEADER + b[6];
    if body > length || b[7] == 0 then None else
    match DecodeTransforms(b[body..length], b[7])
    case None => None
    case Some((ts, rest)) =>
      if rest != [] then None else
      Some((Proposal(b[4], b[5], b[PROPOSAL_HEADER..body], ts), b[length..]))
  }

  function DecodeProposals(b: bytes): Option<seq<Proposal>>
    decreases |b|
  {
    if b == [] then Some([]) else
    match DecodeProposal(b)
    case None => None
    case Some((p, tail)) =>
      if b[0] != (if tail == [] then CHAIN_LAST else PROPOSAL_MORE) then None else
      match DecodeProposals(tail)
      case None => None
      case Some(ps) => Some([p] + ps)
  }

  function Decode(b: bytes): Option<SA> {
    match DecodeProposals(b)
    case None => None
    case Some(ps) => if ps == [] then None else Some(SA(ps))
  }

  // ---- Where everything is ----

  /** Section 3.3.2 of RFC 7296, octet by octet. */
  lemma TransformLayout(t: Transform, last: bool)
    requires TransformFits(t)
    ensures var b := EncodeTransform(t, last);
            && |b| == 8 + |t.attrs| && b[0] == (if last then 0 else 3) && b[1] == 0 && b[4] == t.typ && b[5] == 0
            && (b[2] as int) * 0x100 + b[3] == |b| && (b[6] as int) * 0x100 + b[7] == t.id && b[8..] == t.attrs
  {
  }

  /** Section 3.3.1: the header, the SPI, then the transforms. */
  lemma ProposalLayout(p: Proposal, more: bool)
    requires ProposalFits(p)
    ensures var b := EncodeProposal(p, more);
            && |b| >= 8 + |p.spi| && b[0] == (if more then 2 else 0) && b[1] == 0 && b[4] == p.num
            && (b[2] as int) * 0x100 + b[3] == |b| && b[5] == p.protocolId && b[6] == |p.spi| && b[7] == |p.transforms|
            && b[8..8 + |p.spi|] == p.spi && b[8 + |p.spi|..] == EncodeTransforms(p.transforms)
  {
    hide EncodeTransforms;
  }

  /** Transform `k` of a list, and the octets behind it. */
  lemma {:induction false} TransformsLayout(ts: seq<Transform>, k: nat)
    requires TransformsLen(ts) <= 0xFFFF && k < |ts|
    ensures TransformsLen(ts[..k]) <= TransformsLen(ts) && TransformFits(ts[k]) && TransformsLen(ts[k + 1..]) <= 0xFFFF
    ensures EncodeTransforms(ts)[TransformsLen(ts[..k])..] ==
            EncodeTransform(ts[k], k == |ts| - 1) + EncodeTransforms(ts[k + 1..])
  {
    hide EncodeTransform;
    if k == 0 {
      assert ts[..0] == [];
    } else {
      TransformsLayout(ts[1..], k - 1);
      assert ts[1..][..k - 1] == ts[..k][1..] && ts[1..][k - 1 + 1..] == ts[k + 1..];
      TailOf(EncodeTransform(ts[0], |ts| == 1), EncodeTransforms(ts[1..]), TransformsLen(ts[1..][..k - 1]));
    }
  }

  lemma TailOf(x: bytes, y: bytes, n: nat)
    requires n <= |y|
    ensures (x + y)[|x| + n..] == y[n..]
  {
  }

  // ---- Round trip ----

  lemma TransformRoundTrip(t: Transform, last: bool, rest: bytes)
    requires TransformFits(t)
    ensures DecodeTransform(EncodeTransform(t, last) + rest) == Some((t, rest))
    ensures (EncodeTransform(t, last) + rest)[0] == if last then CHAIN_LAST else TRANSFORM_MORE
  {
    var e := EncodeTransform(t, last);
    var b := e + rest;
    var n := TRANSFORM_HEADER + |t.attrs|;
    assert b[2..4] == Put16(n);
    GetPut16(n);
    assert b[6..8] == Put16(t.id);
    GetPut16(t.id);
    assert b[TRANSFORM_HEADER..n] == t.attrs;
    assert b[n..] == rest;
  }

  /** One step of the chain, with the bytes kept abstract. */
  lemma TransformsStep(b: bytes, t: Transform, tail: bytes, ts: seq<Transform>, rest: bytes)
    requires DecodeTransform(b) == Some((t, tail))
    requires b[0] == if ts == [] then CHAIN_LAST else TRANSFORM_MORE
    requires DecodeTransforms(tail, |ts|) == Some((ts, rest))
    ensures DecodeTransforms(b, |ts| + 1) == Some(([t] + ts, rest))
  {
  }

  lemma {:induction false} TransformsRoundTrip(ts: seq<Transform>, rest: bytes)
    requires TransformsLen(ts) <= 0xFFFF
    ensures DecodeTransforms(EncodeTransforms(ts) + rest, |ts|) == Some((ts, rest))
  {
    hide EncodeTransform, DecodeTransform;
    if ts == [] {
      assert EncodeTransforms(ts) + rest == rest;
    } else {
      var head, tail := EncodeTransform(ts[0], |ts| == 1), EncodeTransforms(ts[1..]) + rest;
      TransformRoundTrip(ts[0], |ts| == 1, tail);
      TransformsRoundTrip(ts[1..], rest);
      TransformsStep(head + tail, ts[0], tail, ts[1..], rest);
      assert EncodeTransforms(ts) + rest == head + tail;
      assert ts == [ts[0]] + ts[1..];
    }
  }

  /** A proposal without transforms is written but never read back. */
  lemma ProposalRoundTrip(p: Proposal, more: bool, rest: bytes)
    requires ProposalFits(p)
    ensures DecodeProposal(EncodeProposal(p, more) + rest)
         == if p.transforms == [] then None else Some((p, rest))
    ensures (EncodeProposal(p, more) + rest)[0] == if more then PROPOSAL_MORE else CHAIN_LAST
  {
    hide EncodeTransforms, DecodeTransforms, Put16, Get16;
    var b := EncodeProposal(p, more) + rest;
    var n := ProposalLen(p);
    var body := PROPOSAL_HEADER + |p.spi|;
    assert b[2..4] == Put16(n);
    GetPut16(n);
    assert b[4] == p.num && b[5] == p.protocolId && b[6] == |p.spi| && b[7] == |p.transforms|;
    assert b[PROPOSAL_HEADER..body] == p.spi;
    assert b[body..n] == EncodeTransforms(p.transforms) + [];
    TransformsRoundTrip(p.transforms, []);
    assert b[n..] == rest;
  }

  predicate Readable(ps: seq<Proposal>) {
    forall i :: 0 <= i < |ps| ==> ps[i].transforms != []
  }

  lemma ProposalsStep(b: bytes, decoded: Option<(Proposal, bytes)>)
    requires b != [] && DecodeProposal(b) == decoded
    requires decoded.Some? ==> b[0] == if decoded.value.1 == [] then CHAIN_LAST else PROPOSAL_MORE
    ensures decoded.None? ==> DecodeProposals(b) == None
    ensures decoded.Some? ==> DecodeProposals(b) == match DecodeProposals(decoded.value.1)
                                                    case None => None
                                                    case Some(ps) => Some([decoded.value.0] + ps)
  {
  }

  lemma {:induction false} ProposalsRoundTrip(ps: seq<Proposal>)
    requires forall i :: 0 <= i < |ps| ==> ProposalFits(ps[i])
    ensures DecodeProposals(EncodeProposals(ps)) == if Readable(ps) then Some(ps) else None
  {
    hide EncodeProposal, DecodeProposal;
    if ps != [] {
      var head, tail := EncodeProposal(ps[0], |ps| > 1), EncodeProposals(ps[1..]);
      ProposalRoundTrip(ps[0], |ps| > 1, tail);
      ProposalsRoundTrip(ps[1..]);
      assert |ps| > 1 ==> tail == EncodeProposal(ps[1..][0], |ps[1..]| > 1) + EncodeProposals(ps[1..][1..]);
      ProposalsStep(head + tail, if ps[0].transforms == [] then None else Some((ps[0], tail)));
      assert ps == [ps[0]] + ps[1..];
      assert Readable(ps) <==> ps[0].transforms != [] && Readable(ps[1..]);
    }
  }

  /** Every SA the encoder can write is read back as itself, with no byte left
      over, exactly when it has a proposal and every proposal has a transform. */
  lemma RoundTrip(sa: SA)
    requires Fits(sa)
    ensures Decode(Encode(sa)) == Some(sa) <==> sa.proposals != [] && Readable(sa.proposals)
    ensures Decode(Encode(sa)).None? <==> !(sa.proposals != [] && Readable(sa.proposals))
  {
    ProposalsRoundTrip(sa.proposals);
  }

  // ---- The append/patch encoders and the counted parsing loops ----

  method AppendTransform(dst: bytes, t: Transform, last: bool) returns (out: bytes)
    requires TransformFits(t)
    ensures out == dst + EncodeTransform(t, last)
  {
    var start := |dst|;
    out := dst + [0, 0, 0, 0, t.typ, 0, 0, 0];
    out := out[start := if last then CHAIN_LAST else TRANSFORM_MORE];
    var length, id := Put16(TRANSFORM_HEADER + |t.attrs|), Put16(t.id);
    out := out[start + 2 := length[0]][start + 3 := length[1]];
    out := out[start + 6 := id[0]][start + 7 := id[1]];
    out := out + t.attrs;
  }

  lemma {:induction false} TransformsLenSplit(ts: seq<Transform>, i: nat)
    requires i < |ts|
    ensures TransformsLen(ts[..i + 1]) == TransformsLen(ts[..i]) + TRANSFORM_HEADER + |ts[i].attrs|
    ensures TransformsLen(ts[..i + 1]) <= TransformsLen(ts)
  {
    assert ts[..i + 1][1..] == ts[1..][..i];
    if i > 0 {
      assert ts[..i][1..] == ts[1..][..i - 1] && ts[1..][..i - 1 + 1] == ts[1..][..i];
      TransformsLenSplit(ts[1..], i - 1);
    }
  }

  lemma {:induction false} EncodeTransformsFrom(ts: seq<Transform>, i: nat)
    requires i < |ts| && TransformsLen(ts) <= 0xFFFF
    ensures TransformsLen(ts[i..]) <= 0xFFFF && TransformsLen(ts[i + 1..]) <= 0xFFFF && TransformFits(ts[i])
    ensures EncodeTransforms(ts[i..]) == EncodeTransform(ts[i], i == |ts| - 1) + EncodeTransforms(ts[i + 1..])
  {
    if i == 0 {
      assert ts[0..] == ts;
    } else {
      assert ts[1..][i - 1..] == ts[i..] && ts[1..][i - 1 + 1..] == ts[i + 1..];
      EncodeTransformsFrom(ts[1..], i - 1);
    }
  }

  function ProposalHeader(p: Proposal, more: bool): (b: bytes)
    requires ProposalFits(p)
  {
    [if more then PROPOSAL_MORE else CHAIN_LAST, 0] + Put16(ProposalLen(p))
    + [p.num, p.protocolId, |p.spi|, |p.transforms|] + p.spi
  }

  method AppendProposalHeader(dst: bytes, p: Proposal, more: bool) returns (out: bytes)
    requires ProposalFits(p)
    ensures out == dst + ProposalHeader(p, more)
  {
    var transformLen := 0;
    for i := 0 to |p.transforms|
      invariant transformLen == TransformsLen(p.transforms[..i])
    {
      TransformsLenSplit(p.transforms, i);
      transformLen := transformLen + TRANSFORM_HEADER + |p.transforms[i].attrs|;
    }
    assert p.transforms[..|p.transforms|] == p.transforms;
    var length := Put16(PROPOSAL_HEADER + |p.spi| + transformLen);
    var start := |dst|;
    out := dst + [0, 0, 0, 0, p.num, p.protocolId, |p.spi|, |p.transforms|];
    out := out[start := if more then PROPOSAL_MORE else CHAIN_LAST];
    out := out[start + 2 := length[0]][start + 3 := length[1]];
    out := out + p.spi;
  }

  method AppendTransforms(dst: bytes, ts: seq<Transform>) returns (out: bytes)
    requires TransformsLen(ts) <= 0xFFFF
    ensures out == dst + EncodeTransforms(ts)
  {
    hide EncodeTransform;
    out := dst;
    assert ts[0..] == ts;
    for i := 0 to |ts|
      invariant TransformsLen(ts[i..]) <= 0xFFFF
      invariant out + EncodeTransforms(ts[i..]) == dst + EncodeTransforms(ts)
    {
      EncodeTransformsFrom(ts, i);
      ghost var tail := EncodeTransforms(ts[i + 1..]);
      out := AppendTransform(out, ts[i], i == |ts| - 1);
    }
    assert out + EncodeTransforms([]) == out;
  }

  method AppendProposal(dst: bytes, p: Proposal, more: bool) returns (out: bytes)
    requires ProposalFits(p)
    ensures out == dst + EncodeProposal(p, more)
  {
    out := AppendProposalHeader(dst, p, more);
    out := AppendTransforms(out, p.transforms);
  }

  method AppendSA(dst: bytes, sa: SA) returns (out: bytes)
    requires Fits(sa)
    ensures out == dst + Encode(sa)
  {
    hide EncodeProposal;
    out := dst;
    var ps := sa.proposals;
    assert ps[0..] == ps;
    for i := 0 to |ps|
      invariant out + EncodeProposals(ps[i..]) == dst + EncodeProposals(ps)
    {
      assert EncodeProposals(ps[i..]) == EncodeProposal(ps[i], i != |ps| - 1) + EncodeProposals(ps[i + 1..]) by {
        assert ps[i..][0] == ps[i] && ps[i..][1..] == ps[i + 1..];
      }
      out := AppendProposal(out, ps[i], i != |ps| - 1);
    }
    assert out + EncodeProposals([]) == out;
  }

  /** The elements a loop has collected, followed by what is still to decode. */
  ghost function After<T, R>(done: seq<T>, todo: Option<(seq<T>, R)>): Option<(seq<T>, R)> {
    match todo
    case None => None
    case Some((more, end)) => Some((done + more, end))
  }

  lemma AfterNothing<T, R>(todo: Option<(seq<T>, R)>)
    ensures After([], todo) == todo
  {
    if todo.Some? { assert [] + todo.value.0 == todo.value.0; }
  }

  lemma AfterOne<T, R>(done: seq<T>, x: T, todo: Option<(seq<T>, R)>)
    ensures After(done, After([x], todo)) == After(done + [x], todo)
  {
    if todo.Some? { assert done + ([x] + todo.value.0) == (done + [x]) + todo.value.0; }
  }

  method ParseProposal(b: bytes) returns (r: Option<(Proposal, bytes)>)
    ensures r == DecodeProposal(b)
  {
    if |b| < PROPOSAL_HEADER { return None; }
    var length := Get16(b[2..4]);
    if length < PROPOSAL_HEADER || length > |b| { return None; }
    var body := PROPOSAL_HEADER + b[6];
    var count := b[7];
    if body > length || count == 0 { return None; }
    var rest, ts := b[body..length], [];
    ghost var all := DecodeTransforms(rest, count);
    AfterNothing(all);
    for i := 0 to count
      invariant all == After(ts, DecodeTransforms(rest, count - i))
    {
      var decoded := DecodeTransform(rest);
      if decoded.None? { return None; }
      var last := i == count - 1;
      var marker := rest[0];
      if marker == CHAIN_LAST && !last { return None; }
      if marker != CHAIN_LAST && marker != TRANSFORM_MORE { return None; }
      if marker == TRANSFORM_MORE && last { return None; }
      AfterOne(ts, decoded.value.0, DecodeTransforms(decoded.value.1, count - i - 1));
      ts, rest := ts + [decoded.value.0], decoded.value.1;
    }
    assert ts + [] == ts;
    if rest != [] { return None; }
    r := Some((Proposal(b[4], b[5], b[PROPOSAL_HEADER..body], ts), b[length..]));
  }

  ghost function Paired(ps: Option<seq<Proposal>>): Option<(seq<Proposal>, ())> {
    match ps
    case None => None
    case Some(s) => Some((s, ()))
  }

  method ParseSA(b: bytes) returns (r: Option<SA>)
    ensures r == Decode(b)
  {
    var rest, ps := b, [];
    AfterNothing(Paired(DecodeProposals(b)));
    while rest != []
      invariant Paired(DecodeProposals(b)) == After(ps, Paired(DecodeProposals(rest)))
      decreases |rest|
    {
      var decoded := ParseProposal(rest);
      if decoded.None? { return None; }
      var tail := decoded.value.1;
      if tail == [] && rest[0] != CHAIN_LAST { return None; }
      if tail != [] && rest[0] != PROPOSAL_MORE { return None; }
      AfterOne(ps, decoded.value.0, Paired(DecodeProposals(tail)));
      ps, rest := ps + [decoded.value.0], tail;
    }
    assert ps + [] == ps;
    r := if ps == [] then None else Some(SA(ps));
  }

  // ---- KEY_LENGTH, the one transform attribute ----

  /** TV format, value in bits. */
  function KeyLengthAttr(bits: u16): (attrs: bytes) {
    Put16(0x800E) + Put16(bits)
  }

  function ParseKeyLengthAttr(attrs: bytes): Option<u16> {
    if |attrs| != 4 then None else
    if Get16(attrs[..2]) != 0x800E then None else Some(Get16(attrs[2..]))
  }

  lemma KeyLengthRoundTrip(bits: u16)
    ensures ParseKeyLengthAttr(KeyLengthAttr(bits)) == Some(bits)
    ensures KeyLengthAttr(bits) == [0x80, 14, bits / 0x100, bits % 0x100]
  {
    assert KeyLengthAttr(bits)[..2] == Put16(0x800E) && KeyLengthAttr(bits)[2..] == Put16(bits);
    GetPut16(0x800E);
    GetPut16(bits);
  }
}
