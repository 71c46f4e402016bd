/** Fragmented protected messages: splitting a plaintext, and collecting the fragments in
    any order (sections 2.5 and 2.6 of RFC 7383). */
module Fragments {
  import opened Bytes
  import B = Bits

  const UNSET: u8 := 0xFF
  const NO_NEXT: u8 := 0

  // ---- Padding of one protected plaintext ----

  function PadLen(block: nat, n: nat): (r: nat)
    requires block > 0
    ensures r < block
  {
    (block - (n + 1) % block) % block
  }

  function Padded(block: nat, plain: bytes): bytes
    requires 0 < block <= 0x100
  {
    var n := PadLen(block, |plain|);
    plain + seq(n, i requires 0 <= i < n => i + 1) + [n]
  }

  function Stripped(plain: bytes): Option<bytes> {
    if plain == [] || plain[|plain| - 1] >= |plain| then None
    else Some(plain[..|plain| - 1 - plain[|plain| - 1]])
  }

  lemma PadFills(block: nat, n: nat)
    requires block == 1 || block == 16
    ensures (n + 1 + PadLen(block, n)) % block == 0
  {
  }

  /** Stripping undoes padding, also of an empty plaintext, and padding fills whole blocks. */
  lemma StripsPadding(block: nat, plain: bytes)
    requires block == 1 || block == 16
    ensures Stripped(Padded(block, plain)) == Some(plain) && |Padded(block, plain)| % block == 0
    ensures var p := Padded(block, plain);
            && |plain| < |p| <= |plain| + block && p[..|plain|] == plain && p[|p| - 1] == |p| - |plain| - 1
            && forall i :: |plain| <= i < |p| - 1 ==> p[i] == i - |plain| + 1
  {
    PadFills(block, |plain|);
    hide PadLen;
    var p, n := Padded(block, plain), PadLen(block, |plain|);
    assert p[|p| - 1] == n;
    assert p[..|p| - 1 - n] == plain;
  }

  // ---- Splitting ----

  /** Consecutive chunks of `size` octets, the last one possibly shorter. */
  function Chunks(plain: bytes, size: nat): seq<bytes>
    requires size > 0
    decreases |plain|
  {
    if |plain| <= size then [plain] else [plain[..size]] + Chunks(plain[size..], size)
  }

  function Join(parts: seq<bytes>): bytes {
    if parts == [] then [] else parts[0] + Join(parts[1..])
  }

  lemma {:induction false} ChunksJoin(plain: bytes, size: nat)
    requires size > 0
    ensures Join(Chunks(plain, size)) == plain
    ensures plain != [] ==> |Chunks(plain, size)| == (|plain| + size - 1) / size
    ensures plain == [] ==> |Chunks(plain, size)| == 1
    decreases |plain|
  {
    if |plain| <= size {
      assert Chunks(plain, size)[1..] == [] && plain + [] == plain;
      if plain != [] { DivOne(|plain|, size); }
    } else {
      ChunksJoin(plain[size..], size);
      assert ([plain[..size]] + Chunks(plain[size..], size))[1..] == Chunks(plain[size..], size);
      assert plain[..size] + plain[size..] == plain;
      DivStep(|plain| + size - 1, size);
    }
  }

  lemma DivOne(n: nat, d: nat)
    requires 0 < n <= d
    ensures (n + d - 1) / d == 1
  {
  }

  lemma DivStep(n: nat, d: nat)
    requires d > 0 && n >= d
    ensures n / d == (n - d) / d + 1
  {
    var q, r := (n - d) / d, (n - d) % d;
    assert n == d * (q + 1) + r;
    B.ModOf(q + 1, r, d);
  }

  /** A fragment as it arrives: its numbers, the type it announces and its plaintext. */
  datatype Fragment = Fragment(number: u16, total: u16, innerNext: u8, plain: bytes)

  /** The loop that cuts a plaintext into fragments; only the first announces a type. */
  method Split(plain: bytes, size: nat, innerNext: u8) returns (r: Option<seq<Fragment>>)
    requires size > 0 && |plain| > size
    ensures r.None? <==> |Chunks(plain, size)| > 0xFFFF
    ensures r.Some? ==> r.value == FragmentsOf(Chunks(plain, size), innerNext)
  {
    ChunksJoin(plain, size);
    var total := (|plain| + size - 1) / size;
    if total > 0xFFFF { return None; }
    var frames: seq<Fragment> := [];
    for i := 0 to total
      invariant |frames| == i
      invariant forall k :: 0 <= k < i ==> frames[k] == FragmentsOf(Chunks(plain, size), innerNext)[k]
    {
      ChunkAt(plain, size, i);
      var start := i * size;
      var end := if start + size > |plain| then |plain| else start + size;
      frames := frames + [Fragment(i + 1, total, if i == 0 then innerNext else NO_NEXT, plain[start..end])];
    }
    return Some(frames);
  }

  lemma {:induction false} ChunkAt(plain: bytes, size: nat, i: nat)
    requires size > 0 && i < |Chunks(plain, size)|
    ensures 0 <= i * size <= |plain|
    ensures Chunks(plain, size)[i] == plain[i * size..if i * size + size > |plain| then |plain| else i * size + size]
    decreases i
  {
    if i == 0 {
      assert i * size == 0;
    } else {
      ChunkAt(plain[size..], size, i - 1);
      OneLess(i, size);
      Shifted(plain, size, (i - 1) * size, i * size);
    }
  }

  lemma OneLess(i: int, size: int)
    ensures (i - 1) * size + size == i * size
  {
  }

  lemma Shifted(plain: bytes, size: nat, from: int, at: int)
    requires size <= |plain| && 0 <= from <= |plain| - size && at == from + size
    ensures var rest := plain[size..];
            rest[from..if from + size > |rest| then |rest| else from + size] ==
            plain[at..if at + size > |plain| then |plain| else at + size]
  {
  }

  function FragmentsOf(parts: seq<bytes>, innerNext: u8): seq<Fragment>
    requires |parts| <= 0xFFFF
  {
    seq(|parts|,
        i requires 0 <= i < |parts| => Fragment(i + 1, |parts|, if i == 0 then innerNext else NO_NEXT, parts[i]))
  }

  /** Fragment `i` of a message: numbers from 1, the common total, the payload type on the first one
      only, and the octets from `i * size` on. */
  lemma FragmentAt(plain: bytes, size: nat, innerNext: u8, i: nat)
    requires 0 < size < |plain| && |Chunks(plain, size)| <= 0xFFFF && i < |Chunks(plain, size)|
    ensures |Chunks(plain, size)| == (|plain| + size - 1) / size && 0 <= i * size <= |plain|
    ensures FragmentsOf(Chunks(plain, size), innerNext)[i] ==
            Fragment(i + 1, (|plain| + size - 1) / size, if i == 0 then innerNext else 0,
                     if i * size + size > |plain| then plain[i * size..] else plain[i * size..i * size + size])
  {
    hide Chunks;
    ChunksJoin(plain, size);
    ChunkAt(plain, size, i);
  }

  // ---- Collecting ----

  datatype Table = Table(exchange: u8, messageId: u32, first: u8, slots: seq<Option<bytes>>, expires: int)

  datatype Result = Incomplete | Rejected | Complete(joined: bytes, innerNext: u8)

  predicate Full(slots: seq<Option<bytes>>) {
    forall i :: 0 <= i < |slots| ==> slots[i].Some?
  }

  function Contents(slots: seq<Option<bytes>>): (r: seq<bytes>)
    requires Full(slots)
    ensures |r| == |slots|
  {
    seq(|slots|, i requires 0 <= i < |slots| => slots[i].value)
  }

  function Empty(n: nat): (r: seq<Option<bytes>>)
    ensures |r| == n && forall i :: 0 <= i < n ==> r[i].None?
  {
    seq(n, i => None)
  }

  /** The set being collected, unless it expired. */
  function Current(t: Option<Table>, now: int): Option<Table> {
    if t.Some? && t.value.expires < now then None else t
  }

  /** A fragment goes into its slot; the set is joined when no slot is empty. */
  function Store(t: Table, f: Fragment, reported: u8): (Option<Table>, Result)
    requires 1 <= f.number <= f.total == |t.slots|
  {
    if f.number == 1 && t.first != UNSET && t.first != f.innerNext then (Some(t), Rejected)
    else if f.number != 1 && f.innerNext != NO_NEXT then (Some(t), Rejected)
    else
      var first := if f.number == 1 then f.innerNext else t.first;
      var slots := if t.slots[f.number - 1].None? then t.slots[f.number - 1 := Some(f.plain)] else t.slots;
      if Full(slots) then (None, Complete(Join(Contents(slots)), reported))
      else (Some(t.(first := first, slots := slots)), Incomplete)
  }

  /** The type reported with a completed set: what the table held before this call, expired
      or not, and otherwise what this fragment announces. */
  function Reported(t: Option<Table>, f: Fragment): u8 {
    if t.Some? && t.value.first != UNSET then t.value.first else f.innerNext
  }

  function Collect(t: Option<Table>, exchange: u8, messageId: u32, f: Fragment, now: int,
                   timeout: nat): (Option<Table>, Result) {
    if f.number == 0 || f.total == 0 || f.number > f.total then (t, Rejected) else
    var live := Current(t, now);
    if live.Some? && (live.value.exchange != exchange || live.value.messageId != messageId) then (live, Rejected) else
    var base := if live.None? || f.total > |live.value.slots|
                then Table(exchange, messageId, UNSET, Empty(f.total), now + timeout)
                else live.value.(expires := now + timeout);
    if f.total < |base.slots| then (Some(base), Incomplete) else Store(base, f, Reported(t, f))
  }

  // ---- One set, any order ----

  /** A set of at least two fragments. */
  datatype Whole = Whole(exchange: u8, messageId: u32, innerNext: u8, parts: seq<bytes>)

  ghost predicate Proper(w: Whole) {
    2 <= |w.parts| <= 0xFFFF && w.innerNext != UNSET
  }

  /** A fragment of the set, by index; one of a smaller set; a later one that announces a type; or
      one of another message or exchange, whatever its numbers. */
  datatype Arrival =
    | Piece(index: nat, now: int)
    | Stray(f: Fragment, now: int)
    | Wrong(f: Fragment, now: int)
    | Foreign(exchange: u8, messageId: u32, f: Fragment, now: int)

  ghost predicate Fits(w: Whole, a: Arrival) {
    match a
    case Piece(index, _) => index < |w.parts|
    case Stray(f, _) => 1 <= f.number <= f.total < |w.parts|
    case Wrong(f, _) => 1 < f.number <= f.total == |w.parts| && f.innerNext != 0
    case Foreign(exchange, messageId, _, _) => exchange != w.exchange || messageId != w.messageId
  }

  predicate Refused(a: Arrival) {
    a.Wrong? || a.Foreign?
  }

  function ExchangeOf(w: Whole, a: Arrival): u8 {
    if a.Foreign? then a.exchange else w.exchange
  }

  function MessageOf(w: Whole, a: Arrival): u32 {
    if a.Foreign? then a.messageId else w.messageId
  }

  function FragmentFor(w: Whole, a: Arrival): Fragment {
    match a
    case Piece(index, _) => if index < |w.parts| <= 0xFFFF then FragmentsOf(w.parts, w.innerNext)[index]
                            else Fragment(0, 0, 0, [])
    case _ => a.f
  }

  ghost function Seen(a: Arrival): set<nat> {
    if a.Piece? then {a.index} else {}
  }

  /** Nothing of the set is missing. */
  ghost predicate Covers(w: Whole, seen: set<nat>) {
    forall i :: 0 <= i < |w.parts| ==> i in seen
  }

  lemma NotCovered(w: Whole, seen: set<nat>, i: nat)
    requires i < |w.parts| && i !in seen
    ensures !Covers(w, seen)
  {
  }

  /** The table after the fragments with indices `seen` arrived. */
  ghost function Holding(w: Whole, seen: set<nat>, expires: int): Table {
    Table(w.exchange, w.messageId, if 0 in seen then w.innerNext else UNSET,
          seq(|w.parts|, i requires 0 <= i < |w.parts| => if i in seen then Some(w.parts[i]) else None), expires)
  }

  lemma PieceStored(w: Whole, seen: set<nat>, expires: int, index: nat, reported: u8)
    requires Proper(w) && index < |w.parts|
    ensures Store(Holding(w, seen, expires), FragmentsOf(w.parts, w.innerNext)[index], reported)
         == if Covers(w, seen + {index}) then (None, Complete(Join(w.parts), reported))
            else (Some(Holding(w, seen + {index}, expires)), Incomplete)
  {
    var held, more := Holding(w, seen, expires), Holding(w, seen + {index}, expires);
    assert held.slots[index].None? ==> held.slots[index := Some(w.parts[index])] == more.slots;
    assert held.slots[index].Some? ==> held.slots == more.slots;
    if Covers(w, seen + {index}) {
      assert Contents(more.slots) == w.parts;
    } else {
      var other :| 0 <= other < |w.parts| && other !in seen + {index};
      assert more.slots[other].None?;
    }
  }

  /** One more arrival: the set completes exactly when nothing is missing any more. */
  lemma ArrivalCollects(w: Whole, seen: set<nat>, expires: int, a: Arrival, timeout: nat)
    requires Proper(w) && Fits(w, a) && !Covers(w, seen) && a.now <= expires
    ensures Collect(Some(Holding(w, seen, expires)), ExchangeOf(w, a), MessageOf(w, a), FragmentFor(w, a), a.now,
                    timeout)
         == if Covers(w, seen + Seen(a)) then (None, Complete(Join(w.parts), w.innerNext))
            else (Some(Holding(w, seen + Seen(a), if a.Foreign? then expires else a.now + timeout)),
                  if Refused(a) then Rejected else Incomplete)
  {
    hide Join;
    if !a.Piece? { assert seen + {} == seen; }
    if a.Piece? {
      hide Store;
      PieceStored(w, seen, a.now + timeout, a.index, Reported(Some(Holding(w, seen, expires)), FragmentFor(w, a)));
      assert Covers(w, seen + {a.index}) ==> 0 in seen + {a.index};
    }
  }

  /** The first fragment starts the set over whatever is there: nothing, an expired set, or
      a smaller one. */
  ghost predicate Replaceable(w: Whole, t: Option<Table>, now: int) {
    Current(t, now).Some? ==>
      t.value.exchange == w.exchange && t.value.messageId == w.messageId && |t.value.slots| < |w.parts|
  }

  lemma FirstCollects(w: Whole, t: Option<Table>, a: Arrival, timeout: nat)
    requires Proper(w) && Fits(w, a) && a.Piece? && Replaceable(w, t, a.now)
    ensures Collect(t, w.exchange, w.messageId, FragmentFor(w, a), a.now, timeout) ==
      (Some(Holding(w, {a.index}, a.now + timeout)), Incomplete)
  {
    hide Join, Store;
    var f := FragmentFor(w, a);
    assert Empty(f.total) == Holding(w, {}, a.now + timeout).slots;
    assert f.number >= 1 && f.total >= f.number &&
      Current(t, a.now) == (if t.Some? && t.value.expires < a.now then None else t);
    PieceStored(w, {}, a.now + timeout, a.index, Reported(t, FragmentFor(w, a)));
    assert {} + {a.index} == {a.index};
    var other := if a.index == 0 then 1 else 0;
    NotCovered(w, {a.index}, other);
  }

  function CollectAll(w: Whole, t: Option<Table>, arrivals: seq<Arrival>, timeout: nat): (Option<Table>, seq<Result>)
    decreases |arrivals|
  {
    if arrivals == [] then (t, []) else
    var n := |arrivals| - 1;
    var (before, rs) := CollectAll(w, t, arrivals[..n], timeout);
    var a := arrivals[n];
    var (after, r) := Collect(before, ExchangeOf(w, a), MessageOf(w, a), FragmentFor(w, a), a.now, timeout);
    (after, rs + [r])
  }

  ghost function SeenIn(arrivals: seq<Arrival>): set<nat> {
    if arrivals == [] then {} else SeenIn(arrivals[..|arrivals| - 1]) + Seen(arrivals[|arrivals| - 1])
  }

  /** When the set expires: fragments of other messages do not keep it alive. */
  function Deadline(arrivals: seq<Arrival>, timeout: nat): int
    requires arrivals != []
  {
    var n := |arrivals| - 1;
    if n > 0 && arrivals[n].Foreign? then Deadline(arrivals[..n], timeout) else arrivals[n].now + timeout
  }

  /** The first arrival is of the set, and no pause is long enough for the set to expire. */
  ghost predicate Orderly(w: Whole, t: Option<Table>, arrivals: seq<Arrival>, timeout: nat) {
    && arrivals != [] && arrivals[0].Piece? && Replaceable(w, t, arrivals[0].now)
    && (forall i :: 0 <= i < |arrivals| ==> Fits(w, arrivals[i]))
    && (forall i :: 0 < i < |arrivals| ==> arrivals[i].now <= Deadline(arrivals[..i], timeout))
  }

  /** In any order, with any repeats, and with fragments of smaller sets and of other messages in
      between: nothing completes while a fragment is missing, what belongs elsewhere is rejected
      and changes nothing, and the arrival of the last missing fragment completes the set with the
      joined plaintext and the type fragment 1 announced. */
  lemma {:induction false} AnyOrderCollects(w: Whole, t: Option<Table>, arrivals: seq<Arrival>, timeout: nat)
    requires Proper(w) && Orderly(w, t, arrivals, timeout) && arrivals != []
    requires !Covers(w, SeenIn(arrivals[..|arrivals| - 1]))
    ensures var (after, rs) := CollectAll(w, t, arrivals, timeout);
            var n := |arrivals| - 1;
            && |rs| == |arrivals|
            && (forall i :: 0 <= i < n ==> rs[i] == if Refused(arrivals[i]) then Rejected else Incomplete)
            && (after, rs[n]) == if Covers(w, SeenIn(arrivals)) then (None, Complete(Join(w.parts), w.innerNext))
                                 else (Some(Holding(w, SeenIn(arrivals), Deadline(arrivals, timeout))),
                                       if Refused(arrivals[n]) then Rejected else Incomplete)
    decreases |arrivals|
  {
    hide Collect, Join, Holding, FragmentFor, Covers, SeenIn, Orderly, Proper, Fits, Deadline, ExchangeOf, MessageOf;
    var n := |arrivals| - 1;
    var before := arrivals[..n];
    NotNothing(w, t, arrivals, timeout);
    if n == 0 {
      OnlyFirst(w, t, arrivals, timeout);
    } else {
      OrderlyPrefix(w, t, arrivals, timeout);
      SeenLess(w, before);
      AnyOrderCollects(w, t, before, timeout);
      ArrivalCollects(w, SeenIn(before), Deadline(before, timeout), arrivals[n], timeout);
      SeenSnoc(arrivals);
      DeadlineSnoc(arrivals, timeout);
    }
  }

  lemma NotNothing(w: Whole, t: Option<Table>, arrivals: seq<Arrival>, timeout: nat)
    requires Orderly(w, t, arrivals, timeout)
    ensures arrivals != []
  {
  }

  lemma DeadlineSnoc(arrivals: seq<Arrival>, timeout: nat)
    requires |arrivals| > 1
    ensures var n := |arrivals| - 1;
            Deadline(arrivals, timeout) ==
            if arrivals[n].Foreign? then Deadline(arrivals[..n], timeout) else arrivals[n].now + timeout
  {
  }

  lemma SeenSnoc(arrivals: seq<Arrival>)
    requires arrivals != []
    ensures SeenIn(arrivals) == SeenIn(arrivals[..|arrivals| - 1]) + Seen(arrivals[|arrivals| - 1])
  {
  }

  lemma OrderlyPrefix(w: Whole, t: Option<Table>, arrivals: seq<Arrival>, timeout: nat)
    requires Orderly(w, t, arrivals, timeout) && |arrivals| > 1
    ensures var n := |arrivals| - 1;
            Orderly(w, t, arrivals[..n], timeout) && Fits(w, arrivals[n]) &&
              arrivals[n].now <= Deadline(arrivals[..n], timeout)
  {
    var n := |arrivals| - 1;
    assert forall i :: 0 <= i < n ==> arrivals[..n][i] == arrivals[i] && arrivals[..n][..i] == arrivals[..i];
  }

  lemma OnlyFirst(w: Whole, t: Option<Table>, arrivals: seq<Arrival>, timeout: nat)
    requires Proper(w) && Orderly(w, t, arrivals, timeout) && |arrivals| == 1
    ensures !Refused(arrivals[0])
    ensures CollectAll(w, t, arrivals, timeout) ==
      (Some(Holding(w, SeenIn(arrivals), Deadline(arrivals, timeout))), [Incomplete])
    ensures !Covers(w, SeenIn(arrivals))
  {
    hide Collect, Join, Holding, FragmentFor;
    assert arrivals[..0] == [] && [] + [Incomplete] == [Incomplete];
    FirstCollects(w, t, arrivals[0], timeout);
    assert SeenIn(arrivals) == {} + {arrivals[0].index} == {arrivals[0].index};
    NotCovered(w, SeenIn(arrivals), if arrivals[0].index == 0 then 1 else 0);
  }

  lemma SeenLess(w: Whole, arrivals: seq<Arrival>)
    requires arrivals != [] && !Covers(w, SeenIn(arrivals))
    ensures !Covers(w, SeenIn(arrivals[..|arrivals| - 1]))
  {
    var i :| 0 <= i < |w.parts| && i !in SeenIn(arrivals);
    assert i !in SeenIn(arrivals[..|arrivals| - 1]);
  }

  /** Split, delivered in any order with any repeats and collected: the original plaintext. */
  lemma SplitCollects(plain: bytes, size: nat, exchange: u8, messageId: u32, innerNext: u8, t: Option<Table>,
                      arrivals: seq<Arrival>, timeout: nat)
    requires 0 < size < |plain| && |Chunks(plain, size)| <= 0xFFFF && innerNext != UNSET
    requires var w := Whole(exchange, messageId, innerNext, Chunks(plain, size));
             && Proper(w) && Orderly(w, t, arrivals, timeout)
             && !Covers(w, SeenIn(arrivals[..|arrivals| - 1])) && Covers(w, SeenIn(arrivals))
    ensures var w := Whole(exchange, messageId, innerNext, Chunks(plain, size));
            var rs := CollectAll(w, t, arrivals, timeout).1;
            |rs| == |arrivals| && rs[|rs| - 1] == Complete(plain, innerNext)
  {
    var w := Whole(exchange, messageId, innerNext, Chunks(plain, size));
    AnyOrderCollects(w, t, arrivals, timeout);
    ChunksJoin(plain, size);
  }

  // ---- The exact condition on the reported type ----

  /** Something is missing, and a type is known exactly when fragment 1 is there. */
  ghost predicate Waiting(t: Table) {
    t.slots != [] && !Full(t.slots) && (t.first == UNSET <==> t.slots[0].None?)
  }

  lemma CollectKeepsWaiting(t: Option<Table>, exchange: u8, messageId: u32, f: Fragment, now: int, timeout: nat)
    requires (t.Some? ==> Waiting(t.value)) && f.innerNext != UNSET
    ensures var n := Collect(t, exchange, messageId, f, now, timeout).0; n.Some? ==> Waiting(n.value)
  {
    hide Join;
    if f.total > 0 { assert Empty(f.total)[0].None?; }
  }

  lemma OneIsNotAll(n: nat, k: nat, plain: bytes)
    requires k < n && n > 1
    ensures !Full(Empty(n)[k := Some(plain)])
  {
    var other := if k == 0 then 1 else 0;
    assert Empty(n)[k := Some(plain)][other].None?;
  }

  /** The type announced by fragment 1 of the set this call completes. */
  function Announced(t: Option<Table>, f: Fragment, now: int): u8 {
    if f.number == 1 then f.innerNext else if Current(t, now).Some? then t.value.first else UNSET
  }

  /** A completed set is reported with the type its own fragment 1 announced, except when
      this call dropped an expired set that had announced a different one: the table is
      looked at before its expiry. Only a set of one fragment completes in such a call. */
  lemma ReportedExactly(t: Option<Table>, exchange: u8, messageId: u32, f: Fragment, now: int, timeout: nat)
    requires Collect(t, exchange, messageId, f, now, timeout).1.Complete?
    requires t.Some? ==> Waiting(t.value)
    requires f.innerNext != UNSET
    ensures var expired := t.Some? && t.value.expires < now;
            && (Collect(t, exchange, messageId, f, now, timeout).1.innerNext == Announced(t, f, now)
                <==> !(expired && t.value.first != UNSET && t.value.first != f.innerNext))
            && (expired || t.None? ==> f.total == 1)
  {
    hide Join;
    if Current(t, now).None? {
      NewSetOfOne(t, exchange, messageId, f, now, timeout);
    } else {
      SetCompleted(t, exchange, messageId, f, now, timeout);
    }
  }

  lemma NewSetOfOne(t: Option<Table>, exchange: u8, messageId: u32, f: Fragment, now: int, timeout: nat)
    requires Collect(t, exchange, messageId, f, now, timeout).1.Complete? && Current(t, now).None?
    ensures f.number == f.total == 1
    ensures Collect(t, exchange, messageId, f, now, timeout).1.innerNext == Reported(t, f)
  {
    hide Join;
    if f.total > 1 { OneIsNotAll(f.total, f.number - 1, f.plain); }
  }

  lemma SetCompleted(t: Option<Table>, exchange: u8, messageId: u32, f: Fragment, now: int, timeout: nat)
    requires Collect(t, exchange, messageId, f, now, timeout).1.Complete?
    requires Current(t, now).Some? && Waiting(t.value) && f.innerNext != UNSET
    ensures Collect(t, exchange, messageId, f, now, timeout).1.innerNext == Announced(t, f, now)
  {
    hide Join;
    if f.total > |t.value.slots| { OneIsNotAll(f.total, f.number - 1, f.plain); }
  }

  /** Such a call: fragment 1 of 2 announces 35 and its set expires; then a set of a single
      fragment that announces 41 is reported as 35. */
  lemma ExpiredTypeReported()
    ensures var (t, r) := Collect(None, 37, 1, Fragment(1, 2, 35, [1]), 0, 10);
            var f := Fragment(1, 1, 41, [7]);
            && r == Incomplete && t.Some? && t.value.expires < 11 && Announced(t, f, 11) == 41
            && Collect(t, 37, 2, f, 11, 10) == (None, Complete([7], 35))
  {
    var t := Collect(None, 37, 1, Fragment(1, 2, 35, [1]), 0, 10).0;
    assert Empty(2)[0 := Some([1])][1].None?;
    var slots := Empty(1)[0 := Some([7])];
    assert Contents(slots) == [[7]] && [[7]][1..] == [] && [7] + [] == [7];
  }

  // ---- In place ----

  class Reassembly {
    var table: Option<Table>

    constructor ()
      ensures table == None
    {
      table := None;
    }

    method JoinParts(parts: seq<bytes>) returns (joined: bytes)
      ensures joined == Join(parts)
    {
      joined := [];
      assert parts[0..] == parts;
      for i := 0 to |parts|
        invariant Join(parts) == joined + Join(parts[i..])
      {
        assert parts[i..][1..] == parts[i + 1..];
        joined := joined + parts[i];
      }
      assert parts[|parts|..] == [] && joined + [] == joined;
    }

    /** The table as it was is looked at first; then the fragment is collected. */
    method CollectFragment(exchange: u8, messageId: u32, f: Fragment, now: int, timeout: nat) returns (r: Result)
      modifies this
      ensures (table, r) == Collect(old(table), exchange, messageId, f, now, timeout)
    {
      hide Join;
      var reported := Reported(table, f);
      if f.number == 0 || f.total == 0 || f.number > f.total { return Rejected; }
      if table.Some? && table.value.expires < now { table := None; }
      if table.Some? && (table.value.exchange != exchange || table.value.messageId != messageId) { return Rejected; }
      if table.Some? && f.total > |table.value.slots| { table := None; }
      if table.None? { table := Some(Table(exchange, messageId, UNSET, Empty(f.total), now + timeout)); }
      table := Some(table.value.(expires := now + timeout));
      if f.total < |table.value.slots| { return Incomplete; }
      if f.number == 1 {
        if table.value.first != UNSET && table.value.first != f.innerNext { return Rejected; }
        table := Some(table.value.(first := f.innerNext));
      } else if f.innerNext != NO_NEXT {
        return Rejected;
      }
      var slot := f.number - 1;
      if table.value.slots[slot].None? {
        table := Some(table.value.(slots := table.value.slots[slot := Some(f.plain)]));
      }
      if !Full(table.value.slots) { return Incomplete; }
      var joined := JoinParts(Contents(table.value.slots));
      table := None;
      return Complete(joined, reported);
    }
  }
}
