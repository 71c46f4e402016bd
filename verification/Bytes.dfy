/** Octets and the fixed-width unsigned integers the wire formats are built from. */
module Bytes {
  type u8 = x: int | 0 <= x < 0x100
  type u16 = x: int | 0 <= x < 0x1_0000
  type u32 = x: int | 0 <= x < 0x1_0000_0000
  type u64 = x: int | 0 <= x < 0x1_0000_0000_0000_0000
  type bytes = seq<u8>

  const U32_LIMIT := 0x1_0000_0000

  datatype Option<+T> = None | Some(value: T)

  /** Big-endian encodings. */
  function Put16(v: u16): (b: bytes)
    ensures |b| == 2
  {
    [v / 0x100, v % 0x100]
  }

  function Get16(b: bytes): u16
    requires |b| == 2
  {
    (b[0] as int) * 0x100 + b[1]
  }

  function Put32(v: u32): (b: bytes)
    ensures |b| == 4
  {
    Put16(v / 0x1_0000) + Put16(v % 0x1_0000)
  }

  function Get32(b: bytes): u32
    requires |b| == 4
  {
    (Get16(b[..2]) as int) * 0x1_0000 + Get16(b[2..])
  }

  function Put64(v: u64): (b: bytes)
    ensures |b| == 8
  {
    Put32(v / 0x1_0000_0000) + Put32(v % 0x1_0000_0000)
  }

  function Get64(b: bytes): u64
    requires |b| == 8
  {
    (Get32(b[..4]) as int) * 0x1_0000_0000 + Get32(b[4..])
  }

  /** The most significant octet comes first. */
  lemma BigEndian16(a: u8, b: u8)
    ensures Put16((a as int) * 0x100 + b) == [a, b]
  {
  }

  lemma BigEndian32(a: u8, b: u8, c: u8, d: u8)
    ensures Put32((a as int) * 0x100_0000 + (b as int) * 0x1_0000 + (c as int) * 0x100 + d) == [a, b, c, d]
  {
    var hi, lo := (a as int) * 0x100 + b, (c as int) * 0x100 + d;
    var v := hi * 0x1_0000 + lo;
    assert v / 0x1_0000 == hi && v % 0x1_0000 == lo;
    assert (a as int) * 0x100_0000 + (b as int) * 0x1_0000 + (c as int) * 0x100 + d == v;
  }

  lemma BigEndian64(hi: u32, lo: u32)
    ensures Put64((hi as int) * U32_LIMIT + lo) == Put32(hi) + Put32(lo)
  {
    var v := (hi as int) * U32_LIMIT + lo;
    assert v / U32_LIMIT == hi && v % U32_LIMIT == lo;
  }

  lemma GetPut16(v: u16)
    ensures Get16(Put16(v)) == v
  {
  }

  lemma PutGet16(b: bytes)
    requires |b| == 2
    ensures Put16(Get16(b)) == b
  {
  }

  lemma GetPut32(v: u32)
    ensures Get32(Put32(v)) == v
  {
    var b := Put32(v);
    assert b[..2] == Put16(v / 0x1_0000) && b[2..] == Put16(v % 0x1_0000);
  }

  lemma PutGet32(b: bytes)
    requires |b| == 4
    ensures Put32(Get32(b)) == b
  {
    var hi, lo := Get16(b[..2]), Get16(b[2..]);
    assert Get32(b) / 0x1_0000 == hi && Get32(b) % 0x1_0000 == lo;
    PutGet16(b[..2]);
    PutGet16(b[2..]);
    assert b == b[..2] + b[2..];
  }

  lemma GetPut64(v: u64)
    ensures Get64(Put64(v)) == v
  {
    var b := Put64(v);
    assert b[..4] == Put32(v / 0x1_0000_0000) && b[4..] == Put32(v % 0x1_0000_0000);
    GetPut32(v / 0x1_0000_0000);
    GetPut32(v % 0x1_0000_0000);
  }

  lemma PutGet64(b: bytes)
    requires |b| == 8
    ensures Put64(Get64(b)) == b
  {
    var hi, lo := Get32(b[..4]), Get32(b[4..]);
    assert Get64(b) / 0x1_0000_0000 == hi && Get64(b) % 0x1_0000_0000 == lo;
    PutGet32(b[..4]);
    PutGet32(b[4..]);
    assert b == b[..4] + b[4..];
  }
}
