/** The reusable UDP packet: per packet only the IP identification and the sequence number
    change, and both checksums are adjusted instead of recomputed. */
module PacketBuilder {
  import opened Bytes
  import opened Checksum

  const IP_LEN := 20
  const ID_AT := 4
  const IP_SUM_AT := 10
  const UDP_SUM_AT := 26
  const SEQ_AT := 32
  const MAGIC_DATA: u32 := 0x5357414E

  // ---- Full recomputation, with the checksum fields taken as zero ----

  function IpWords(b: bytes): nat
    requires |b| >= 36
  {
    WordSum(SetWord(b[..IP_LEN], IP_SUM_AT, 0))
  }

  /** The pseudo-header: both addresses, the protocol and the segment length. */
  function Pseudo(b: bytes): nat
    requires |b| >= 36
  {
    (WordAt(b, 12) as int) + WordAt(b, 14) + WordAt(b, 16) + WordAt(b, 18) + 17 + (|b| - IP_LEN)
  }

  function UdpWords(b: bytes): nat
    requires |b| >= 36
  {
    WordSum(SetWord(b[IP_LEN..], UDP_SUM_AT - IP_LEN, 0))
  }

  function IpChecksum(b: bytes): u16
    requires |b| >= 36
  {
    Sealed(0, SetWord(b[..IP_LEN], IP_SUM_AT, 0))
  }

  function UdpChecksum(b: bytes): u16
    requires |b| >= 36
  {
    Sealed(Pseudo(b), SetWord(b[IP_LEN..], UDP_SUM_AT - IP_LEN, 0))
  }

  predicate Sized(b: bytes) {
    36 <= |b| <= 0x1_FF00
  }

  /** Words as far as both are concerned: first octet of the header, and the sums. */
  lemma Recomputed(b: bytes)
    requires Sized(b) && b[0] != 0
    ensures IpWords(b) > 0 && IpChecksum(b) == Complement(Canon(IpWords(b)))
    ensures Pseudo(b) > 0 && UdpChecksum(b) == Complement(Canon(Pseudo(b) + UdpWords(b)))
  {
    hide Sealed, Canon, SetWord;
    NoWrap(0, SetWord(b[..IP_LEN], IP_SUM_AT, 0));
    NoWrap(Pseudo(b), SetWord(b[IP_LEN..], UDP_SUM_AT - IP_LEN, 0));
    FirstWord(b);
  }

  lemma FirstWord(b: bytes)
    requires |b| >= 36 && b[0] != 0
    ensures IpWords(b) > 0
  {
    assert SetWord(b[..IP_LEN], IP_SUM_AT, 0)[0] == b[0];
  }

  // ---- What writing one word does to the sums ----

  lemma SetWordSlices(b: bytes, k: nat, v: u16)
    requires |b| >= 36 && k + 2 <= |b|
    ensures k + 2 <= IP_LEN ==>
      SetWord(b, k, v)[..IP_LEN] == SetWord(b[..IP_LEN], k, v) && SetWord(b, k, v)[IP_LEN..] == b[IP_LEN..]
    ensures k >= IP_LEN ==>
      SetWord(b, k, v)[..IP_LEN] == b[..IP_LEN] && SetWord(b, k, v)[IP_LEN..] == SetWord(b[IP_LEN..], k - IP_LEN, v)
  {
  }

  lemma Swap(b: bytes, j: nat, k: nat, v: u16, w: u16)
    requires j + 2 <= |b| && k + 2 <= |b| && (j + 2 <= k || k + 2 <= j)
    ensures SetWord(SetWord(b, j, v), k, w) == SetWord(SetWord(b, k, w), j, v)
    ensures WordAt(SetWord(b, j, v), k) == WordAt(b, k)
  {
  }

  lemma Twice(b: bytes, k: nat, v: u16, w: u16)
    requires k + 2 <= |b|
    ensures SetWord(SetWord(b, k, v), k, w) == SetWord(b, k, w)
  {
  }

  /** A word of the IP header other than its checksum. */
  lemma IpWordSet(b: bytes, k: nat, v: u16)
    requires |b| >= 36 && k % 2 == 0 && k + 2 <= IP_SUM_AT
    ensures IpWords(SetWord(b, k, v)) == IpWords(b) - WordAt(b, k) + v && UdpWords(SetWord(b, k, v)) == UdpWords(b)
    ensures Pseudo(SetWord(b, k, v)) == Pseudo(b)
  {
    hide SetWord, WordSum;
    SetWordSlices(b, k, v);
    Swap(b[..IP_LEN], k, IP_SUM_AT, v, 0);
    Swap(b[..IP_LEN], IP_SUM_AT, k, 0, v);
    SumOfSet(SetWord(b[..IP_LEN], IP_SUM_AT, 0), k, v);
    assert WordAt(b[..IP_LEN], k) == WordAt(b, k);
    PseudoKept(b, k, v);
  }

  lemma PseudoKept(b: bytes, k: nat, v: u16)
    requires |b| >= 36 && k + 2 <= |b| && (k + 2 <= 12 || k >= IP_LEN)
    ensures Pseudo(SetWord(b, k, v)) == Pseudo(b)
  {
  }

  /** The IP checksum field itself. */
  lemma IpSumSet(b: bytes, v: u16)
    requires |b| >= 36
    ensures IpWords(SetWord(b, IP_SUM_AT, v)) == IpWords(b) && UdpWords(SetWord(b, IP_SUM_AT, v)) == UdpWords(b)
    ensures Pseudo(SetWord(b, IP_SUM_AT, v)) == Pseudo(b)
  {
    hide SetWord, WordSum;
    SetWordSlices(b, IP_SUM_AT, v);
    Twice(b[..IP_LEN], IP_SUM_AT, v, 0);
    PseudoKept(b, IP_SUM_AT, v);
  }

  /** A word of the payload. */
  lemma UdpWordSet(b: bytes, k: nat, v: u16)
    requires |b| >= 36 && k % 2 == 0 && UDP_SUM_AT + 2 <= k && k + 2 <= |b|
    ensures UdpWords(SetWord(b, k, v)) == UdpWords(b) - WordAt(b, k) + v && IpWords(SetWord(b, k, v)) == IpWords(b)
    ensures Pseudo(SetWord(b, k, v)) == Pseudo(b)
  {
    hide SetWord, WordSum;
    SetWordSlices(b, k, v);
    Swap(b[IP_LEN..], k - IP_LEN, UDP_SUM_AT - IP_LEN, v, 0);
    Swap(b[IP_LEN..], UDP_SUM_AT - IP_LEN, k - IP_LEN, 0, v);
    SumOfSet(SetWord(b[IP_LEN..], UDP_SUM_AT - IP_LEN, 0), k - IP_LEN, v);
    assert WordAt(b[IP_LEN..], k - IP_LEN) == WordAt(b, k);
    PseudoKept(b, k, v);
  }

  lemma UdpSumSet(b: bytes, v: u16)
    requires |b| >= 36
    ensures UdpWords(SetWord(b, UDP_SUM_AT, v)) == UdpWords(b) && IpWords(SetWord(b, UDP_SUM_AT, v)) == IpWords(b)
    ensures Pseudo(SetWord(b, UDP_SUM_AT, v)) == Pseudo(b)
  {
    hide SetWord, WordSum;
    SetWordSlices(b, UDP_SUM_AT, v);
    Twice(b[IP_LEN..], UDP_SUM_AT - IP_LEN, v, 0);
    PseudoKept(b, UDP_SUM_AT, v);
  }

  // ---- One packet ----

  /** The sealed checksums and the words they were sealed with. */
  datatype Template = Template(buf: bytes, ipSum: u16, udpSum: u16, prevId: u16, prevSeq: u32)

  /** Both sealed checksums, and the two stored in the packet, equal a full recomputation. */
  ghost predicate Fresh(b: Template) {
    && Sized(b.buf) && b.buf[0] != 0
    && b.ipSum == IpChecksum(b.buf) == WordAt(b.buf, IP_SUM_AT)
    && b.udpSum == UdpChecksum(b.buf) == WordAt(b.buf, UDP_SUM_AT)
    && WordAt(b.buf, ID_AT) == b.prevId
    && WordAt(b.buf, SEQ_AT) == b.prevSeq / 0x1_0000 && WordAt(b.buf, SEQ_AT + 2) == b.prevSeq % 0x1_0000
  }

  function Filled(b: Template, id: u16, s: u32): Template
    requires |b.buf| >= 36
  {
    var ipSum := Update(b.ipSum, b.prevId, id);
    var mid := Update(b.udpSum, b.prevSeq / 0x1_0000, s / 0x1_0000);
    var udpSum := Update(mid, b.prevSeq % 0x1_0000, s % 0x1_0000);
    var buf1 := SetWord(SetWord(b.buf, ID_AT, id), IP_SUM_AT, ipSum);
    var buf2 := SetWord(SetWord(buf1, SEQ_AT, s / 0x1_0000), SEQ_AT + 2, s % 0x1_0000);
    Template(SetWord(buf2, UDP_SUM_AT, udpSum), ipSum, udpSum, id, s)
  }

  /** What the sums are after the packet was filled in. */
  lemma DataSums(b: Template, id: u16, s: u32)
    requires |b.buf| >= 36
    ensures var n := Filled(b, id, s).buf;
            && IpWords(n) == IpWords(b.buf) - WordAt(b.buf, ID_AT) + id
            && UdpWords(n) ==
              UdpWords(b.buf) - WordAt(b.buf, SEQ_AT) + s / 0x1_0000 - WordAt(b.buf, SEQ_AT + 2) + s % 0x1_0000
            && Pseudo(n) == Pseudo(b.buf)
  {
    hide SetWord, WordSum, Update, IpWords, UdpWords, Pseudo;
    var n := Filled(b, id, s);
    var b1 := SetWord(b.buf, ID_AT, id);
    var b2 := SetWord(b1, IP_SUM_AT, n.ipSum);
    var b3 := SetWord(b2, SEQ_AT, s / 0x1_0000);
    var b4 := SetWord(b3, SEQ_AT + 2, s % 0x1_0000);
    IpWordSet(b.buf, ID_AT, id);
    IpSumSet(b1, n.ipSum);
    UdpWordSet(b2, SEQ_AT, s / 0x1_0000);
    UdpWordSet(b3, SEQ_AT + 2, s % 0x1_0000);
    UdpSumSet(b4, n.udpSum);
    Swap(b.buf, ID_AT, SEQ_AT, id, 0);
    Swap(b.buf, ID_AT, SEQ_AT + 2, id, 0);
    Swap(b1, IP_SUM_AT, SEQ_AT, n.ipSum, 0);
    Swap(b1, IP_SUM_AT, SEQ_AT + 2, n.ipSum, 0);
    Swap(b2, SEQ_AT, SEQ_AT + 2, s / 0x1_0000, 0);
  }

  lemma DataWords(b: Template, id: u16, s: u32)
    requires |b.buf| >= 36
    ensures var n := Filled(b, id, s);
            && |n.buf| == |b.buf| && n.buf[0] == b.buf[0]
            && WordAt(n.buf, ID_AT) == id && WordAt(n.buf, IP_SUM_AT) == n.ipSum
            && WordAt(n.buf, UDP_SUM_AT) == n.udpSum
            && WordAt(n.buf, SEQ_AT) == s / 0x1_0000 && WordAt(n.buf, SEQ_AT + 2) == s % 0x1_0000
  {
    hide Update;
  }

  lemma {:induction false} WordInSum(b: bytes, k: nat)
    requires k % 2 == 0 && k + 2 <= |b|
    ensures WordAt(b, k) <= WordSum(b)
  {
    if k > 0 { WordInSum(b[2..], k - 2); }
  }

  /** After the packet was filled in, both checksums are again what a full recomputation
      gives, exactly. */
  lemma DataFresh(b: Template, id: u16, s: u32)
    requires Fresh(b)
    ensures Fresh(Filled(b, id, s))
  {
    hide Update, IpWords, UdpWords, Pseudo, IpChecksum, UdpChecksum, SetWord, Canon, Complement, WordAt;
    var n := Filled(b, id, s);
    DataWords(b, id, s);
    DataSums(b, id, s);
    Recomputed(b.buf);
    Recomputed(n.buf);
    IdInSum(b.buf);
    UpdateExact(IpWords(b.buf), b.prevId, id);
    SeqInSum(b.buf);
    var sum := Pseudo(b.buf) + UdpWords(b.buf);
    UpdateExact(sum, b.prevSeq / 0x1_0000, s / 0x1_0000);
    UpdateExact(sum - b.prevSeq / 0x1_0000 + s / 0x1_0000, b.prevSeq % 0x1_0000, s % 0x1_0000);
  }

  lemma IdInSum(b: bytes)
    requires |b| >= 36
    ensures WordAt(b, ID_AT) <= IpWords(b)
  {
    WordInSum(SetWord(b[..IP_LEN], IP_SUM_AT, 0), ID_AT);
  }

  lemma SeqInSum(b: bytes)
    requires |b| >= 36
    ensures WordAt(b, SEQ_AT) + WordAt(b, SEQ_AT + 2) <= UdpWords(b)
  {
    var u := SetWord(b[IP_LEN..], UDP_SUM_AT - IP_LEN, 0);
    TwoWordsInSum(u, SEQ_AT - IP_LEN);
  }

  lemma {:induction false} TwoWordsInSum(b: bytes, k: nat)
    requires k % 2 == 0 && k + 4 <= |b|
    ensures WordAt(b, k) + WordAt(b, k + 2) <= WordSum(b)
  {
    if k > 0 { TwoWordsInSum(b[2..], k - 2); } else { WordInSum(b[2..], 0); }
  }

  function DataAll(b: Template, calls: seq<(u16, u32)>): (r: Template)
    requires |b.buf| >= 36
    ensures |r.buf| >= 36
  {
    if calls == [] then b else
    var (id, s) := calls[|calls| - 1];
    Filled(DataAll(b, calls[..|calls| - 1]), id, s)
  }

  /** After any sequence of packets the stored checksums equal a full recomputation. */
  lemma {:induction false} AlwaysFresh(b: Template, calls: seq<(u16, u32)>)
    requires Fresh(b)
    ensures Fresh(DataAll(b, calls))
  {
    hide Filled;
    if calls != [] {
      AlwaysFresh(b, calls[..|calls| - 1]);
      var (id, s) := calls[|calls| - 1];
      DataFresh(DataAll(b, calls[..|calls| - 1]), id, s);
    }
  }

  // ---- What a receiver checks ----

  lemma {:induction false} SumConcat(a: bytes, b: bytes)
    requires |a| % 2 == 0
    ensures WordSum(a + b) == WordSum(a) + WordSum(b)
    decreases |a|
  {
    if a == [] {
      assert a + b == b;
    } else {
      assert (a + b)[2..] == a[2..] + b;
      SumConcat(a[2..], b);
    }
  }

  /** A sum together with the complement of its representative folds to all ones. */
  lemma Completes(sum: nat)
    requires sum > 0
    ensures Fold(sum + Complement(Canon(sum))) == 0xFFFF
  {
    var k := (sum - 1) / MAX16;
    assert sum == k * MAX16 + Canon(sum);
    FoldIsCanon(sum + Complement(Canon(sum)));
    AddMultiple(MAX16 - 1, k);
  }

  /** The pseudo-header of RFC 768: the two addresses, a zero octet, the protocol and the length. */
  function PseudoHeader(b: bytes): bytes
    requires 36 <= |b| <= 65535
  {
    b[12..16] + b[16..20] + [0, 17] + Put16(|b| - 20)
  }

  lemma PseudoSum(b: bytes)
    requires 36 <= |b| <= 65535
    ensures WordSum(PseudoHeader(b)) == Pseudo(b) && |PseudoHeader(b)| == 12
  {
    hide WordSum;
    SumConcat(b[12..16] + b[16..20] + [0, 17], Put16(|b| - 20));
    SumConcat(b[12..16] + b[16..20], [0, 17]);
    SumConcat(b[12..16], b[16..20]);
    TwoWords(b[12..16]);
    TwoWords(b[16..20]);
    OneWord([0, 17]);
    OneWord(Put16(|b| - 20));
    GetPut16(|b| - 20);
  }

  lemma OneWord(b: bytes)
    requires |b| == 2
    ensures WordSum(b) == WordAt(b, 0)
  {
    assert b[2..] == [];
  }

  lemma TwoWords(b: bytes)
    requires |b| == 4
    ensures WordSum(b) == WordAt(b, 0) + WordAt(b, 2)
  {
    OneWord(b[2..]);
  }

  /** A packet whose checksums are fresh passes both checks of a receiver: the sixteen-bit words of the
      IP header, and those of the pseudo-header and the segment, add up to all ones. */
  lemma ReceiverAccepts(b: Template)
    requires Fresh(b) && |b.buf| <= 65535
    ensures Fold(WordSum(b.buf[..20])) == 0xFFFF
    ensures Fold(WordSum(PseudoHeader(b.buf) + b.buf[20..])) == 0xFFFF
  {
    hide Fold, Canon, Complement, WordSum, SetWord, PseudoHeader, Pseudo, IpChecksum, UdpChecksum;
    var buf := b.buf;
    Recomputed(buf);
    SumOfSet(buf[..IP_LEN], IP_SUM_AT, 0);
    assert WordAt(buf[..IP_LEN], IP_SUM_AT) == WordAt(buf, IP_SUM_AT);
    Completes(IpWords(buf));
    SumOfSet(buf[IP_LEN..], UDP_SUM_AT - IP_LEN, 0);
    assert WordAt(buf[IP_LEN..], UDP_SUM_AT - IP_LEN) == WordAt(buf, UDP_SUM_AT);
    PseudoSum(buf);
    SumConcat(PseudoHeader(buf), buf[IP_LEN..]);
    Completes(Pseudo(buf) + UdpWords(buf));
  }

  /** Where the identification and the sequence number go; nothing but these and the two checksums
      changes. */
  lemma DataOctets(b: Template, id: u16, s: u32)
    requires |b.buf| >= 36
    ensures var n := Filled(b, id, s).buf;
            && |n| == |b.buf| && n[4..6] == Put16(id) && n[32..36] == Put32(s)
            && forall i :: 0 <= i < |n| && !(4 <= i < 6 || 10 <= i < 12 || 26 <= i < 28 || 32 <= i < 36) ==>
                 n[i] == b.buf[i]
  {
    hide Update;
  }

  // ---- In place ----

  method PutWord(buf: array<u8>, k: nat, v: u16)
    requires k + 2 <= buf.Length
    modifies buf
    ensures buf[..] == SetWord(old(buf[..]), k, v)
  {
    buf[k] := v / 0x100;
    buf[k + 1] := v % 0x100;
  }

  /** Everything that stays the same; identification, sequence and checksums stay zero. */
  method FixedFields(buf: array<u8>, src: bytes, dst: bytes, srcPort: u16, dstPort: u16)
    requires |src| == |dst| == 4 && buf.Length >= 36 && forall i :: 0 <= i < buf.Length ==> buf[i] == 0
    modifies buf
    ensures buf[0] == 0x45
    ensures WordAt(buf[..], ID_AT) == WordAt(buf[..], IP_SUM_AT) == WordAt(buf[..], UDP_SUM_AT) == 0
    ensures WordAt(buf[..], SEQ_AT) == WordAt(buf[..], SEQ_AT + 2) == 0
    ensures buf[12..16] == src && buf[16..20] == dst && buf[20..22] == Put16(srcPort) && buf[22..24] == Put16(dstPort)
    ensures buf[2..4] == Put16(buf.Length % 0x1_0000) && buf[8] == 64 && buf[9] == 17
    ensures buf[24..26] == Put16((buf.Length - IP_LEN) % 0x1_0000) && buf[28..32] == Put32(MAGIC_DATA)
  {
    hide Put16, Put32;
    var total, segment := Put16(buf.Length % 0x1_0000), Put16((buf.Length - IP_LEN) % 0x1_0000);
    var from, to, magic := Put16(srcPort), Put16(dstPort), Put32(MAGIC_DATA);
    buf[0], buf[8], buf[9] := 0x45, 64, 17;
    buf[2], buf[3] := total[0], total[1];
    forall i | 12 <= i < 20 { buf[i] := if i < 16 then src[i - 12] else dst[i - 16]; }
    forall i | 20 <= i < 26 {
      buf[i] := if i < 22 then from[i - 20] else if i < 24 then to[i - 22] else segment[i - 24];
    }
    forall i | 28 <= i < 32 { buf[i] := magic[i - 28]; }
  }

  class Packets {
    const buf: array<u8>
    var ipSum: u16
    var udpSum: u16
    var prevId: u16
    var prevSeq: u32

    ghost function View(): Template
      reads this, buf
    {
      Template(buf[..], ipSum, udpSum, prevId, prevSeq)
    }

    /** The fixed fields, then both checksums over identification 0 and sequence 0. */
    constructor (src: bytes, dst: bytes, srcPort: u16, dstPort: u16, payloadSize: nat)
      requires |src| == |dst| == 4 && 8 <= payloadSize <= 0x1_FE00
      ensures fresh(buf) && buf.Length == 28 + payloadSize && Fresh(View()) && prevId == 0 && prevSeq == 0
    {
      buf := new u8[28 + payloadSize](i => 0);
      prevId, prevSeq, ipSum, udpSum := 0, 0, 0, 0;
      new;
      FixedFields(buf, src, dst, srcPort, dstPort);
      SealChecksums();
    }

    /** Both checksums from scratch; the fields are still zero. */
    method SealChecksums()
      requires Sized(buf[..]) && buf[0] != 0
      requires WordAt(buf[..], IP_SUM_AT) == 0 && WordAt(buf[..], UDP_SUM_AT) == 0
      requires WordAt(buf[..], ID_AT) == prevId == 0 && WordAt(buf[..], SEQ_AT) == WordAt(buf[..], SEQ_AT + 2) == 0
      requires prevSeq == 0
      modifies this`ipSum, this`udpSum, buf
      ensures Fresh(View())
    {
      hide Sealed, WordSum;
      ghost var b0 := buf[..];
      ZeroAlready(b0[..IP_LEN], IP_SUM_AT);
      ipSum := SumAndFold(0, buf[..IP_LEN]);
      PutWord(buf, IP_SUM_AT, ipSum);
      ghost var b1 := buf[..];
      SealedIp(b0, ipSum);
      ZeroAlready(b1[IP_LEN..], UDP_SUM_AT - IP_LEN);
      SmallPseudo(b1);
      udpSum := SumAndFold(Pseudo(buf[..]), buf[IP_LEN..]);
      PutWord(buf, UDP_SUM_AT, udpSum);
      SealedUdp(b1, udpSum);
    }

    method Data(id: u16, s: u32)
      requires buf.Length >= 36
      modifies this, buf
      ensures View() == Filled(old(View()), id, s)
    {
      PutWord(buf, ID_AT, id);
      ipSum := Update(ipSum, prevId, id);
      PutWord(buf, IP_SUM_AT, ipSum);
      prevId := id;
      udpSum := Update(udpSum, prevSeq / 0x1_0000, s / 0x1_0000);
      udpSum := Update(udpSum, prevSeq % 0x1_0000, s % 0x1_0000);
      prevSeq := s;
      PutWord(buf, SEQ_AT, s / 0x1_0000);
      PutWord(buf, SEQ_AT + 2, s % 0x1_0000);
      PutWord(buf, UDP_SUM_AT, udpSum);
    }
  }

  lemma ZeroAlready(b: bytes, k: nat)
    requires k + 2 <= |b| && WordAt(b, k) == 0
    ensures SetWord(b, k, 0) == b
  {
  }

  lemma SmallPseudo(b: bytes)
    requires Sized(b)
    ensures Pseudo(b) < U32_LIMIT
  {
  }

  /** Storing the IP checksum leaves both recomputations as they were. */
  lemma SealedIp(b: bytes, v: u16)
    requires |b| >= 36
    ensures var n := SetWord(b, IP_SUM_AT, v);
            && IpChecksum(n) == IpChecksum(b) && UdpChecksum(n) == UdpChecksum(b) && WordAt(n, IP_SUM_AT) == v
            && n[0] == b[0]
            && WordAt(n, UDP_SUM_AT) == WordAt(b, UDP_SUM_AT) && WordAt(n, ID_AT) == WordAt(b, ID_AT)
            && WordAt(n, SEQ_AT) == WordAt(b, SEQ_AT) && WordAt(n, SEQ_AT + 2) == WordAt(b, SEQ_AT + 2)
  {
    SetWordSlices(b, IP_SUM_AT, v);
    Twice(b[..IP_LEN], IP_SUM_AT, v, 0);
    PseudoKept(b, IP_SUM_AT, v);
  }

  lemma SealedUdp(b: bytes, v: u16)
    requires |b| >= 36
    ensures var n := SetWord(b, UDP_SUM_AT, v);
            && IpChecksum(n) == IpChecksum(b) && UdpChecksum(n) == UdpChecksum(b) && WordAt(n, UDP_SUM_AT) == v
            && n[0] == b[0]
            && WordAt(n, IP_SUM_AT) == WordAt(b, IP_SUM_AT) && WordAt(n, ID_AT) == WordAt(b, ID_AT)
            && WordAt(n, SEQ_AT) == WordAt(b, SEQ_AT) && WordAt(n, SEQ_AT + 2) == WordAt(b, SEQ_AT + 2)
  {
    SetWordSlices(b, UDP_SUM_AT, v);
    Twice(b[IP_LEN..], UDP_SUM_AT - IP_LEN, v, 0);
    PseudoKept(b, UDP_SUM_AT, v);
  }
}
