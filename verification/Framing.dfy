/** Datagrams over a byte stream: a two-octet length before each, and a reader that does
    not depend on how the stream is cut into reads. */
module Framing {
  import opened Bytes

  const MAX_DATAGRAM := 65535

  datatype Error = Eof | UnexpectedEof | Other(code: nat)

  /** What one read of the underlying stream returns: octets, possibly together with an error. */
  datatype Chunk = Chunk(data: bytes, fail: Option<Error>)

  /** An end of stream that comes together with octets is not yet the end. */
  predicate Ends(c: Chunk) {
    c.fail.Some? && !(c.fail.value == Eof && c.data != [])
  }

  /** All octets of a stream, and the error it ends with. A stream that returned everything
      it has keeps reporting its end. */
  function Octets(chunks: seq<Chunk>): bytes {
    if chunks == [] then [] else chunks[0].data + if Ends(chunks[0]) then [] else Octets(chunks[1..])
  }

  function Ending(chunks: seq<Chunk>): Error {
    if chunks == [] then Eof else if Ends(chunks[0]) then chunks[0].fail.value else Ending(chunks[1..])
  }

  // ---- Frames ----

  function Frame(d: bytes): bytes
    requires |d| <= MAX_DATAGRAM
  {
    Put16(|d|) + d
  }

  /** Two octets of length, the more significant one first, then the datagram. */
  lemma FrameOctets(d: bytes)
    requires |d| <= MAX_DATAGRAM
    ensures var f := Frame(d); |f| == 2 + |d| && (f[0] as int) * 0x100 + f[1] == |d| && f[2..] == d
  {
  }

  predicate Fit(ds: seq<bytes>) {
    forall i :: 0 <= i < |ds| ==> |ds[i]| <= MAX_DATAGRAM
  }

  function Encode(ds: seq<bytes>): bytes
    requires Fit(ds)
  {
    if ds == [] then [] else Frame(ds[0]) + Encode(ds[1..])
  }

  /** A whole frame stands at the front. */
  predicate Whole(s: bytes) {
    |s| >= 2 && |s| >= 2 + Get16(s[..2])
  }

  datatype Outcome = Datagram(data: bytes) | ShortBuffer | Failed(error: Error)

  /** What a read returns is determined by the octets not yet returned and the final error. */
  function FirstOf(s: bytes, err: Error, cap: nat): Outcome {
    if Whole(s) then (if cap < Get16(s[..2]) then ShortBuffer else Datagram(s[2..2 + Get16(s[..2])]))
    else if s == [] then Failed(err)
    else Failed(UnexpectedEof)
  }

  /** The octets left after it. */
  function After(s: bytes, cap: nat): bytes {
    if Whole(s) then (if cap < Get16(s[..2]) then s else s[2 + Get16(s[..2])..]) else []
  }

  /** A read returns the datagram whose frame stands at the front, if the buffer has room for it, and
      leaves what is behind; without room it leaves everything. */
  lemma FrontRead(s: bytes, err: Error, cap: nat, d: bytes)
    ensures FirstOf(s, err, cap) == Datagram(d) <==>
            && |d| <= cap && |d| <= MAX_DATAGRAM && exists rest: bytes :: s == [|d| / 0x100, |d| % 0x100] + d + rest
    ensures FirstOf(s, err, cap) == Datagram(d) ==> s == [|d| / 0x100, |d| % 0x100] + d + After(s, cap)
    ensures FirstOf(s, err, cap) == ShortBuffer ==> After(s, cap) == s
  {
    if FirstOf(s, err, cap) == Datagram(d) {
      assert s[..2] == [s[0], s[1]];
      assert s == [|d| / 0x100, |d| % 0x100] + d + After(s, cap);
    }
    if |d| <= cap && |d| <= MAX_DATAGRAM && exists rest: bytes :: s == [|d| / 0x100, |d| % 0x100] + d + rest {
      var rest: bytes :| s == [|d| / 0x100, |d| % 0x100] + d + rest;
      assert s[..2] == [|d| / 0x100, |d| % 0x100] && s[2..2 + |d|] == d;
    }
  }

  function Outcomes(s: bytes, err: Error, cap: nat, n: nat): seq<Outcome>
    decreases n
  {
    if n == 0 then [] else [FirstOf(s, err, cap)] + Outcomes(After(s, cap), err, cap, n - 1)
  }

  // ---- The reader ----

  class Reader {
    /** The reads the stream has still to answer, the octets read but not returned, and the
        error that was seen, if any. */
    var chunks: seq<Chunk>
    var acc: bytes
    var terminal: Option<Error>

    ghost function Left(): bytes
      reads this
    {
      acc + if terminal.Some? then [] else Octets(chunks)
    }

    ghost function Last(): Error
      reads this
    {
      if terminal.Some? then terminal.value else Ending(chunks)
    }

    constructor (chunks: seq<Chunk>)
      ensures Left() == Octets(chunks) && Last() == Ending(chunks)
    {
      this.chunks, acc, terminal := chunks, [], None;
      new;
      assert [] + Octets(chunks) == Octets(chunks);
    }

    /** One read of the underlying stream into the accumulator. */
    method Fill()
      requires terminal.None?
      modifies this
      ensures Left() == old(Left()) && Last() == old(Last())
      ensures terminal.None? ==> |chunks| < |old(chunks)|
    {
      if chunks == [] {
        terminal := Some(Eof);
        return;
      }
      var c := chunks[0];
      assert acc + (c.data + if Ends(c) then [] else Octets(chunks[1..])) ==
        acc + c.data + if Ends(c) then [] else Octets(chunks[1..]);
      acc := acc + c.data;
      chunks := chunks[1..];
      if Ends(c) { terminal := c.fail; }
    }

    /** Reads until a whole frame is there, or the stream has ended. */
    method Read(cap: nat) returns (r: Outcome)
      modifies this
      ensures r == FirstOf(old(Left()), old(Last()), cap)
      ensures Left() == After(old(Left()), cap) && Last() == old(Last())
    {
      hide Get16, Octets, Ending;
      ghost var all := Left();
      if terminal.Some? {
        assert acc + [] == acc;
        if acc == [] { return Failed(terminal.value); }
        if |acc| < 2 || |acc| < 2 + Get16(acc[..2]) {
          acc := [];
          return Failed(UnexpectedEof);
        }
      }
      while |acc| < 2 || |acc| < 2 + Get16(acc[..2])
        invariant Left() == all && Last() == old(Last())
        invariant terminal.Some? ==> acc != []
        decreases terminal.None?, |chunks|
      {
        if terminal.Some? {
          assert acc + [] == acc;
          acc := [];
          return Failed(UnexpectedEof);
        }
        Fill();
        if terminal.Some? && acc == [] {
          assert all == [];
          return Failed(terminal.value);
        }
      }
      PrefixWhole(acc, all);
      var n := Get16(acc[..2]);
      if cap < n { return ShortBuffer; }
      r := Datagram(acc[2..2 + n]);
      acc := acc[2 + n..];
    }

    /** Successive reads. */
    method ReadMany(cap: nat, n: nat) returns (rs: seq<Outcome>)
      modifies this
      ensures rs == Outcomes(old(Left()), old(Last()), cap, n)
    {
      rs := [];
      ghost var all, err := Left(), Last();
      for i := 0 to n
        invariant Last() == err && Outcomes(all, err, cap, n) == rs + Outcomes(Left(), err, cap, n - i)
      {
        ghost var left := Left();
        var r := Read(cap);
        assert rs + ([r] + Outcomes(Left(), err, cap, n - i - 1)) == rs + [r] + Outcomes(Left(), err, cap, n - i - 1);
        rs := rs + [r];
      }
      assert rs + [] == rs;
    }
  }

  lemma PrefixWhole(a: bytes, s: bytes)
    requires |a| <= |s| && a == s[..|a|] && Whole(a)
    ensures Whole(s) && Get16(s[..2]) == Get16(a[..2])
    ensures s[2..2 + Get16(s[..2])] == a[2..2 + Get16(a[..2])]
    ensures s[2 + Get16(s[..2])..] == a[2 + Get16(a[..2])..] + s[|a|..]
  {
    hide Get16;
    assert s[..2] == a[..2];
    var n := Get16(a[..2]);
    assert s == a + s[|a|..];
    assert s[2..2 + n] == a[2..2 + n];
    assert s[2 + n..] == a[2 + n..] + s[|a|..];
  }

  // ---- The writer ----

  /** What one write of the underlying stream does: how many octets it takes, and whether it fails. */
  datatype Answer = Answer(taken: nat, fails: bool)

  /** How many of `m` octets a stream takes, and whether it takes all of them without an error. */
  function Progress(answers: seq<Answer>, m: nat): (r: (nat, bool))
    ensures r.0 <= m && (r.1 ==> r.0 == m)
  {
    if m == 0 then (0, true)
    else if answers == [] then (0, false)
    else
      var n := if answers[0].taken > m then m else answers[0].taken;
      if answers[0].fails || n == 0 then (n, false)
      else var rest := Progress(answers[1..], m - n); (n + rest.0, rest.1)
  }

  lemma NothingLeft(answers: seq<Answer>)
    ensures Progress(answers, 0) == (0, true)
  {
  }

  lemma FrameLength(d: bytes)
    requires |d| <= MAX_DATAGRAM
    ensures |Frame(d)| == 2 + |d|
  {
  }

  class Writer {
    var answers: seq<Answer>
    /** Everything the stream has taken. */
    var sent: bytes

    constructor (answers: seq<Answer>)
      ensures this.answers == answers && sent == []
    {
      this.answers, sent := answers, [];
    }

    /** One write of the underlying stream; a stream takes no more than it is given. */
    method Put(b: bytes) returns (n: nat, ok: bool)
      requires b != []
      modifies this
      ensures n <= |b| && sent == old(sent) + b[..n]
      ensures Progress(old(answers), |b|) ==
        if !ok || n == 0 then (n, false) else (n + Progress(answers, |b| - n).0, Progress(answers, |b| - n).1)
    {
      if answers == [] {
        assert sent + b[..0] == sent;
        return 0, true;
      }
      var a := answers[0];
      answers := answers[1..];
      n := if a.taken > |b| then |b| else a.taken;
      sent := sent + b[..n];
      ok := !a.fails;
    }

    /** One frame, in as many writes as it takes: it succeeds exactly if the stream takes all
        of it, and the stream has taken a prefix of it in any case. */
    method Write(p: bytes) returns (ok: bool)
      modifies this
      ensures |p| > MAX_DATAGRAM ==> !ok && sent == old(sent)
      ensures |p| <= MAX_DATAGRAM ==>
        var done := Progress(old(answers), 2 + |p|);
        ok == done.1 && sent == old(sent) + Frame(p)[..done.0]
    {
      hide Progress, Frame;
      if |p| > MAX_DATAGRAM { return false; }
      var frame, written := Frame(p), 0;
      assert |frame| == 2 + |p| by { FrameLength(p); }
      assert frame[..0] == [] && sent + [] == sent;
      while written < |frame|
        invariant 0 <= written <= |frame| && sent == old(sent) + frame[..written]
        invariant Progress(old(answers), |frame|) ==
          (written + Progress(answers, |frame| - written).0, Progress(answers, |frame| - written).1)
      {
        var n, fine := Put(frame[written..]);
        assert frame[..written] + frame[written..][..n] == frame[..written + n];
        written := written + n;
        if !fine || n == 0 { return false; }
      }
      NothingLeft(answers);
      return true;
    }

    method WriteAll(ds: seq<bytes>) returns (ok: bool)
      modifies this
      ensures ok ==> Fit(ds) && sent == old(sent) + Encode(ds)
    {
      assert ds[..0] == [] && sent + [] == sent;
      for i := 0 to |ds|
        invariant Fit(ds[..i]) && sent == old(sent) + Encode(ds[..i])
      {
        var fine := Write(ds[i]);
        if !fine { return false; }
        assert Frame(ds[i])[..2 + |ds[i]|] == Frame(ds[i]);
        assert ds[..i + 1] == ds[..i] + [ds[i]];
        EncodeSnoc(ds[..i], ds[i]);
      }
      assert ds[..|ds|] == ds;
      return true;
    }
  }

  lemma {:induction false} EncodeSnoc(ds: seq<bytes>, d: bytes)
    requires Fit(ds) && |d| <= MAX_DATAGRAM
    ensures Fit(ds + [d]) && Encode(ds + [d]) == Encode(ds) + Frame(d)
  {
    if ds == [] {
      assert [] + [d] == [d] && [d][1..] == [] && Frame(d) + [] == Frame(d) == [] + Frame(d);
    } else {
      assert (ds + [d])[1..] == ds[1..] + [d];
      EncodeSnoc(ds[1..], d);
    }
  }

  // ---- What is written is read back ----

  lemma FrameRead(d: bytes, rest: bytes, err: Error, cap: nat)
    requires |d| <= MAX_DATAGRAM <= cap
    ensures FirstOf(Frame(d) + rest, err, cap) == Datagram(d) && After(Frame(d) + rest, cap) == rest
  {
    var s := Frame(d) + rest;
    assert s[..2] == Put16(|d|);
    GetPut16(|d|);
    assert s[2..2 + |d|] == d && s[2 + |d|..] == rest;
  }

  /** Once there is no whole frame left, no read returns a datagram. */
  lemma {:induction false} NoMoreDatagrams(s: bytes, err: Error, cap: nat, n: nat)
    requires !Whole(s)
    ensures Outcomes(s, err, cap, n) == Expected([], s, err, n)
    decreases n
  {
    if n > 0 { NoMoreDatagrams([], err, cap, n - 1); }
  }

  /** What a run of reads returns for a list of datagrams and a truncated tail. */
  function Expected(ds: seq<bytes>, tail: bytes, err: Error, n: nat): seq<Outcome> {
    seq(n, i requires 0 <= i < n => if i < |ds| then Datagram(ds[i]) else if i == |ds| &&
        tail != [] then Failed(UnexpectedEof) else Failed(err))
  }

  /** Successive reads return exactly the datagrams, in order; then a truncated tail is an
      error, never a datagram, and from there on the error the stream ended with. */
  lemma {:induction false} FramesReadBack(ds: seq<bytes>, tail: bytes, err: Error, cap: nat, n: nat)
    requires Fit(ds) && !Whole(tail) && cap >= MAX_DATAGRAM
    ensures Outcomes(Encode(ds) + tail, err, cap, n) == Expected(ds, tail, err, n)
    decreases |ds|
  {
    hide Frame, FirstOf, After, Whole;
    if ds == [] {
      assert Encode(ds) + tail == tail;
      NoMoreDatagrams(tail, err, cap, n);
    } else if n > 0 {
      assert Encode(ds) + tail == Frame(ds[0]) + (Encode(ds[1..]) + tail);
      FrameRead(ds[0], Encode(ds[1..]) + tail, err, cap);
      FramesReadBack(ds[1..], tail, err, cap, n - 1);
      assert Expected(ds, tail, err, n) == [Datagram(ds[0])] + Expected(ds[1..], tail, err, n - 1);
    }
  }

  /** For every way the stream is cut into reads, including octets together with an error. */
  method ReadStream(chunks: seq<Chunk>, ghost ds: seq<bytes>, ghost tail: bytes, n: nat) returns (rs: seq<Outcome>)
    requires Fit(ds) && !Whole(tail) && Octets(chunks) == Encode(ds) + tail
    ensures rs == Expected(ds, tail, Ending(chunks), n)
  {
    var reader := new Reader(chunks);
    rs := reader.ReadMany(MAX_DATAGRAM, n);
    FramesReadBack(ds, tail, Ending(chunks), MAX_DATAGRAM, n);
  }
}
