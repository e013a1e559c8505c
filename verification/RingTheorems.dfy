/** What the ring promises, over every run of the C code's 64-bit arithmetic. */
module RingTheorems {
  import opened Bits
  import opened Bytes
  import opened Ring
  import opened RingSafety
  import opened RingWord

  // ------------------------------------------------------------------ a reader of memory

  datatype Read = Garbled | Messages(ms: seq<seq<Byte>>)

  /** Padding is recognised by its marker; an `early` reader also takes fewer than four bytes before
      the ring's end for padding, without looking past the end. */
  predicate PaddingAt(early: bool, cap: Capacity, data: seq<Byte>, offset: nat)
    requires |data| == cap + SPILL && offset < cap
  {
    (early && cap - offset < 4) || data[offset..offset + 4] == MARKER
  }

  /** The next message: padding to skip, address of the length prefix, payload length. */
  datatype First = First(skip: nat, at: nat, len: nat)

  function FirstAt(early: bool, cap: Capacity, data: seq<Byte>, offset: nat): (f: First)
    requires |data| == cap + SPILL && offset < cap
    ensures f.at < cap
  {
    if PaddingAt(early, cap, data, offset) then First(cap - offset, 0, FromLe(data[..4]))
    else First(0, offset, FromLe(data[offset..offset + 4]))
  }

  /** Parse `remaining` bytes of the stream from `offset`, as the reference reader does. */
  function ReadAll(early: bool, cap: Capacity, data: seq<Byte>, offset: nat, remaining: nat): Read
    requires |data| == cap + SPILL && offset < cap
    decreases remaining
  {
    if remaining == 0 then Messages([])
    else
      var f := FirstAt(early, cap, data, offset);
      var body := f.at + 4;
      if body + f.len > cap || f.skip + 4 + f.len > remaining then Garbled
      else
        var next := if body + f.len == cap then 0 else body + f.len;
        match ReadAll(early, cap, data, next, remaining - (f.skip + 4 + f.len))
        case Garbled => Garbled
        case Messages(ms) => Messages([data[body..body + f.len]] + ms)
  }

  lemma ReadMarker(cap: Capacity, data: seq<Byte>, p: nat, m: seq<Byte>)
    requires |data| == cap + SPILL && UnitAt(cap, data, p, m) && PadAt(cap, p, |m|) > 0
    ensures data[Slot(cap, p)..Slot(cap, p) + 4] == MARKER
  {
    assert Open(0);
  }

  lemma ReadOne(early: bool, cap: Capacity, data: seq<Byte>, p: nat, m: seq<Byte>)
    requires |data| == cap + SPILL && UnitAt(cap, data, p, m) && 4 + |m| <= cap
    ensures FirstAt(early, cap, data, Slot(cap, p)) == First(PadAt(cap, p, |m|), Base(cap, p, |m|), |m|)
  {
    ReadFrame(cap, data, p, m);
    LengthIsNotMarker(cap, |m|);
    if PadAt(cap, p, |m|) > 0 {
      ReadMarker(cap, data, p, m);
    }
  }

  lemma NextSlot(cap: Capacity, p: nat, len: nat)
    requires 4 + len <= cap
    ensures var end := Base(cap, p, len) + 4 + len;
      end <= cap && Slot(cap, p + Room(cap, p, len)) == if end == cap then 0 else end
  {
    var pad := PadAt(cap, p, len);
    SlotShift(cap, p, pad);
    SlotShift(cap, p + pad, 4 + len);
  }

  /** The stream from position `p` to position `end` reads as `ms`. */
  ghost predicate ReadsAs(early: bool, cap: Capacity, data: seq<Byte>, p: nat, end: nat, ms: seq<seq<Byte>>)
    requires |data| == cap + SPILL
  {
    forall n: nat :: Open(n) ==>
      p <= end && ReadAll(early, cap, data, Slot(cap, p), end - p) == Messages(ms)
  }

  lemma NothingRemains(early: bool, cap: Capacity, data: seq<Byte>, p: nat)
    requires |data| == cap + SPILL
    ensures ReadsAs(early, cap, data, p, p, [])
  {
  }

  lemma OneRemains(early: bool, cap: Capacity, data: seq<Byte>, p: nat, f: First, m: seq<Byte>,
                   next: nat, end: nat, rest: seq<seq<Byte>>)
    requires |data| == cap + SPILL && f == FirstAt(early, cap, data, Slot(cap, p))
    requires f.at + 4 + f.len <= cap && data[f.at + 4..f.at + 4 + f.len] == m
    requires next == p + f.skip + 4 + f.len
    requires Slot(cap, next) == if f.at + 4 + f.len == cap then 0 else f.at + 4 + f.len
    requires ReadsAs(early, cap, data, next, end, rest)
    ensures ReadsAs(early, cap, data, p, end, [m] + rest)
  {
    assert Open(0);
    ReadAllFirst(early, cap, data, Slot(cap, p), end - p, f, Slot(cap, next), rest);
  }

  lemma ReadAllFirst(early: bool, cap: Capacity, data: seq<Byte>, offset: nat, remaining: nat,
                     f: First, next: nat, rest: seq<seq<Byte>>)
    requires |data| == cap + SPILL && offset < cap && f == FirstAt(early, cap, data, offset)
    requires f.at + 4 + f.len <= cap && f.skip + 4 + f.len <= remaining
    requires next == if f.at + 4 + f.len == cap then 0 else f.at + 4 + f.len
    requires ReadAll(early, cap, data, next, remaining - (f.skip + 4 + f.len)) == Messages(rest)
    ensures ReadAll(early, cap, data, offset, remaining)
         == Messages([data[f.at + 4..f.at + 4 + f.len]] + rest)
  {
  }

  lemma ReadStep(early: bool, cap: Capacity, data: seq<Byte>, p: nat, m: seq<Byte>, end: nat,
                 rest: seq<seq<Byte>>)
    requires |data| == cap + SPILL && UnitAt(cap, data, p, m) && 4 + |m| <= cap
    requires ReadsAs(early, cap, data, p + Room(cap, p, |m|), end, rest)
    ensures ReadsAs(early, cap, data, p, end, [m] + rest)
  {
    ReadFrame(cap, data, p, m);
    ReadOne(early, cap, data, p, m);
    NextSlot(cap, p, |m|);
    OneRemains(early, cap, data, p, First(PadAt(cap, p, |m|), Base(cap, p, |m|), |m|), m,
               p + Room(cap, p, |m|), end, rest);
  }

  lemma {:induction false} ReadsBack(early: bool, cap: Capacity, data: seq<Byte>,
                                     starts: seq<nat>, ms: seq<seq<Byte>>, i: nat)
    requires |data| == cap + SPILL && Contiguous(cap, starts, ms) && i <= |ms|
    requires InFlight(cap, data, starts, ms, i) && forall m :: m in ms ==> 4 + |m| <= cap
    ensures ReadsAs(early, cap, data, starts[i], starts[|ms|], ms[i..])
    decreases |ms| - i
  {
    if i == |ms| {
      NothingRemains(early, cap, data, starts[i]);
    } else {
      ReadsBack(early, cap, data, starts, ms, i + 1);
      ReadsBackStep(early, cap, data, starts, ms, i);
    }
  }

  lemma ReadsBackStep(early: bool, cap: Capacity, data: seq<Byte>, starts: seq<nat>, ms: seq<seq<Byte>>, i: nat)
    requires |data| == cap + SPILL && Contiguous(cap, starts, ms) && i < |ms|
    requires InFlight(cap, data, starts, ms, i) && 4 + |ms[i]| <= cap
    requires ReadsAs(early, cap, data, starts[i + 1], starts[|ms|], ms[i + 1..])
    ensures ReadsAs(early, cap, data, starts[i], starts[|ms|], ms[i..])
  {
    var m := ms[i];
    assert UnitAt(cap, data, starts[i], m);
    NextStartOf(cap, starts, ms, i);
    ReadStep(early, cap, data, starts[i], m, starts[|ms|], ms[i + 1..]);
    assert ms[i..] == [m] + ms[i + 1..];
  }

  lemma NextStartOf(cap: Capacity, starts: seq<nat>, ms: seq<seq<Byte>>, i: nat)
    requires Contiguous(cap, starts, ms) && i < |ms|
    ensures starts[i + 1] == starts[i] + Room(cap, starts[i], |ms[i]|)
  {
    assert Open(0);
    var m := ms[i];
  }

  // ------------------------------------------------------------------ safety

  function Last(ps: seq<nat>): nat {
    if ps == [] then 0 else ps[|ps| - 1]
  }

  /** Between two positions held as 64-bit words, the ring reads as `ms`. */
  ghost predicate ReadsBetween(early: bool, cap: Capacity, data: seq<Byte>, from: nat, to: nat,
                               ms: seq<seq<Byte>>)
    requires |data| == cap + SPILL
  {
    forall n: nat :: Open(n) ==>
      ReadAll(early, cap, data, Offset(cap, from), (to - from) % U64) == Messages(ms)
  }

  /** The bytes between read_pos and write_pos parse as exactly the accepted messages read_pos has
      not passed, in order; the consumer has taken a prefix of the accepted messages, byte for byte;
      and `dropped` counts the refused ones modulo 2^64. */
  ghost predicate Safe(early: bool, t: Ring) {
    && |t.data| == t.cap + SPILL
    && t.released <= |t.taken|
    && t.taken <= t.accepted
    && ReadsBetween(early, t.cap, t.data, Last(t.freed), Last(t.published), t.accepted[t.released..])
    && t.dropped == |t.refused| % U64
  }

  /** The states some run reaches from a ring with no messages and arbitrary contents. */
  ghost predicate Reachable(w: Width, cap: Capacity, s: Ring) {
    exists data: seq<Byte>, acts: seq<Action> ::
      |data| == cap + SPILL && s == Run(w, Init(cap, data), acts)
  }

  lemma ReachableInv(cap: Capacity, s: Ring)
    requires Reachable(Ideal, cap, s)
    ensures Inv(s) && s.cap == cap
  {
    var data: seq<Byte>, acts: seq<Action> :|
      |data| == cap + SPILL && s == Run(Ideal, Init(cap, data), acts);
    RunInv(cap, data, acts);
    RunKeepsCap(Ideal, Init(cap, data), acts);
  }

  /** The state of the 64-bit ring is that of the unbounded one, seen through words. */
  lemma Unbounded(cap: Capacity, t: Ring) returns (s: Ring)
    requires Reachable(Word, cap, t)
    ensures Reachable(Ideal, cap, s) && t == Lower(s)
  {
    var data: seq<Byte>, acts: seq<Action> :|
      |data| == cap + SPILL && t == Run(Word, Init(cap, data), acts);
    RunWord(cap, data, acts);
    s := Run(Ideal, Init(cap, data), acts);
  }

  /** The ring is safe in every reachable state of producer and consumer steps, interleaved byte by
      byte and with stale loads, for either kind of reader. */
  lemma RingSafe(early: bool, cap: Capacity, t: Ring)
    requires Reachable(Word, cap, t)
    ensures t.cap == cap && Safe(early, t)
  {
    var s := Unbounded(cap, t);
    ReachableInv(cap, s);
    StateSafe(early, s);
  }

  lemma InFlightReads(early: bool, s: Ring)
    requires Inv(s)
    ensures ReadPos(s) <= WritePos(s) < ReadPos(s) + U64
    ensures ReadsAs(early, s.cap, s.data, ReadPos(s), WritePos(s), s.accepted[s.released..])
  {
    SnapshotBehind(s);
    ReadsBack(early, s.cap, s.data, s.published, s.accepted, s.released);
  }

  lemma LoweredEnds(s: Ring)
    requires |s.freed| > 0 && |s.published| > 0
    ensures Last(Lower(s).freed) == ReadPos(s) % U64
    ensures Last(Lower(s).published) == WritePos(s) % U64
  {
  }

  lemma StateSafe(early: bool, s: Ring)
    requires Inv(s)
    ensures Safe(early, Lower(s))
  {
    InFlightReads(early, s);
    LoweredEnds(s);
    ReadWrapped(early, s.cap, s.data, ReadPos(s), WritePos(s), s.accepted[s.released..]);
  }

  lemma ReadWrapped(early: bool, cap: Capacity, data: seq<Byte>, from: nat, to: nat, ms: seq<seq<Byte>>)
    requires |data| == cap + SPILL && from <= to < from + U64
    requires ReadsAs(early, cap, data, from, to, ms)
    ensures ReadsBetween(early, cap, data, from % U64, to % U64, ms)
  {
    assert Open(0);
    OffsetOfWrapped(cap, from);
    OffsetIsSlot(cap, from);
    Distance(to, from);
  }

  lemma {:induction false} RunKeepsCap(w: Width, s: Ring, acts: seq<Action>)
    ensures Run(w, s, acts).cap == s.cap
    decreases |acts|
  {
    if acts != [] {
      RunKeepsCap(w, s, acts[..|acts| - 1]);
      StepKeepsCap(w, Run(w, s, acts[..|acts| - 1]), acts[|acts| - 1]);
    }
  }

  lemma StepKeepsCap(w: Width, s: Ring, a: Action)
    ensures Step(w, s, a).cap == s.cap
  {
  }

  /** At least `k + 1` bytes lie between read_pos and write_pos, as 64-bit words. */
  predicate Between(t: Ring, k: nat) {
    k < (Last(t.published) - Last(t.freed)) % U64
  }

  /** The `k`-th byte from read_pos on is the same in `t'`. */
  ghost predicate ByteKept(t: Ring, t': Ring, k: nat) {
    forall n: nat :: Open(n) ==>
      var at := Offset(t.cap, (Last(t.freed) + k) % U64);
      |t'.data| == |t.data| == t.cap + SPILL && t'.data[at] == t.data[at]
  }

  /** No step, of a write in progress or of the consumer, changes a byte between read_pos and
      write_pos. */
  lemma PublishedBytesStable(cap: Capacity, t: Ring, a: Action, k: nat)
    requires Reachable(Word, cap, t) && Between(t, k)
    ensures ByteKept(t, Step(Word, t, a), k)
  {
    var s := Unbounded(cap, t);
    ReachableInv(cap, s);
    LowerStable(s, a, k);
  }

  lemma LowerStable(s: Ring, a: Action, k: nat)
    requires Inv(s) && Between(Lower(s), k)
    ensures ByteKept(Lower(s), Step(Word, Lower(s), a), k)
  {
    PositionsApart(s);
    DataWord(s, a);
    StepSpares(s, a, ReadPos(s) + k);
    KeptAt(Lower(s), Step(Word, Lower(s), a), ReadPos(s), k);
  }

  lemma KeptAt(t: Ring, t': Ring, p: nat, k: nat)
    requires Last(t.freed) == p % U64 && |t'.data| == |t.data| == t.cap + SPILL
    requires t'.data[Slot(t.cap, p + k)] == t.data[Slot(t.cap, p + k)]
    ensures ByteKept(t, t', k)
  {
    OffsetAt(t.cap, p, k);
  }

  /** As many bytes lie between the 64-bit positions as between the unbounded ones. */
  lemma PositionsApart(s: Ring)
    requires Inv(s)
    ensures |s.freed| > 0 && |s.published| > 0 && Last(Lower(s).freed) == ReadPos(s) % U64
    ensures (Last(Lower(s).published) - Last(Lower(s).freed)) % U64 == WritePos(s) - ReadPos(s)
    ensures Last(s.freed) == ReadPos(s) && Last(s.published) == WritePos(s)
  {
    SnapshotBehind(s);
    LoweredEnds(s);
    Distance(WritePos(s), ReadPos(s));
  }

  lemma OffsetAt(cap: Capacity, p: nat, k: nat)
    ensures Offset(cap, (p % U64 + k) % U64) == Slot(cap, p + k)
  {
    SumOfWrapped(p, k);
    OffsetOfWrapped(cap, p + k);
    OffsetIsSlot(cap, p + k);
  }

  lemma DataWord(s: Ring, a: Action)
    requires Inv(s)
    ensures Step(Word, Lower(s), a).data == Step(Ideal, s, a).data
    ensures |Step(Ideal, s, a).data| == |s.data| == s.cap + SPILL
  {
    StepWord(s, a);
    StepKeepsData(s, a);
  }

  lemma StepKeepsData(s: Ring, a: Action)
    requires Inv(s)
    ensures |Step(Ideal, s, a).data| == |s.data| == s.cap + SPILL
  {
    StepKeepsCap(Ideal, s, a);
    StepInv(s, a);
  }

  lemma StepSpares(s: Ring, a: Action, q: nat)
    requires Inv(s)
    ensures Step(Ideal, s, a).cap == s.cap && |Step(Ideal, s, a).data| == s.cap + SPILL
    ensures Last(s.freed) <= q < Last(s.published) ==>
      Step(Ideal, s, a).data[Slot(s.cap, q)] == s.data[Slot(s.cap, q)]
  {
    StepKeepsCap(Ideal, s, a);
    if a.StoreByte? && StoresLeft(s) {
      if ReadPos(s) <= q < WritePos(s) {
        StoreElsewhere(s, q);
      }
    } else {
      OnlyStoresWrite(s, a);
    }
  }

  lemma OnlyStoresWrite(s: Ring, a: Action)
    requires !(a.StoreByte? && StoresLeft(s))
    ensures Step(Ideal, s, a).data == s.data
  {
  }

  lemma StoreElsewhere(s: Ring, q: nat)
    requires Inv(s) && StoresLeft(s) && ReadPos(s) <= q < WritePos(s)
    ensures NextStore(s).addr != Slot(s.cap, q)
  {
    RoomBehindRead(s);
    var m := s.producer.m;
    StoreInRoom(s.cap, s.local, m, s.producer.done);
    SlotElsewhere(s.cap, s.local, Room(s.cap, s.local, |m|), NextStore(s), q);
  }

  /** A store in the room from position `p` on is not where a position a turn or less before its end is. */
  lemma SlotElsewhere(cap: Capacity, p: nat, room: nat, st: Store, q: nat)
    requires InRoom(cap, p, room, st) && q < p && p + room <= q + cap
    ensures st.addr != Slot(cap, q)
  {
    if st.addr < cap {
      var d: nat :| d < room && IsSlotOf(st.addr, cap, p, d);
      SlotShift(cap, q, p + d - q);
    }
  }

  /** The length guard of a write, on a ring of any size, in 32-bit arithmetic. */
  predicate Admits(cap: nat, len: nat) {
    len < U32 && len <= (cap - 4) % U32
  }

  /** The guard does its job, keeping `4 + len` from wrapping and within the ring, exactly for rings of
      at least four bytes; on a smaller one `capacity - 4` wraps. */
  lemma GuardSound(cap: nat)
    requires 1 <= cap <= TOP_POWER
    ensures (forall len: nat :: Admits(cap, len) ==> 4 + len < U32 && 4 + len <= cap) <==> cap >= 4
  {
    if cap < 4 {
      assert Admits(cap, U32 - 4);
    }
  }

  /** A ring of fewer than four bytes, as requested sizes of 0 to 2 and above 2^31 make: the producer's
      position, and how many writes were refused. The consumer, who has nothing to read, leaves read_pos
      at 0. */
  datatype TinyRing = TinyRing(local: nat, refused: nat)

  /** The length guard and the first space check, in the C code's arithmetic. */
  predicate TinyPasses(cap: nat, local: nat, len: nat) {
    Admits(cap, len) && N64(Word, local + N32(Word, 4 + len)) <= cap
  }

  function TinyWrites(cap: nat, lens: seq<nat>): TinyRing {
    if lens == [] then TinyRing(0, 0)
    else
      var t, len := TinyWrites(cap, lens[..|lens| - 1]), lens[|lens| - 1];
      if TinyPasses(cap, t.local, len) then TinyRing(N64(Word, t.local + N32(Word, 4 + len)), t.refused)
      else TinyRing(t.local, t.refused + 1)
  }

  /** Such a ring takes a payload exactly if `4 + len` wraps around, to no more than the capacity. */
  lemma TinyTakes(cap: nat, len: nat)
    requires cap < 4 && len < U32
    ensures TinyPasses(cap, 0, len) <==> U32 <= 4 + len <= U32 + cap
  {
  }

  /** So every sequence of writes whose lengths do not wrap, among them all that fit the pack buffer, is
      refused as a whole and leaves the position at 0. */
  lemma {:induction false} TinyRefuses(cap: nat, lens: seq<nat>)
    requires cap < 4 && forall i :: 0 <= i < |lens| ==> 4 + lens[i] < U32
    ensures TinyWrites(cap, lens) == TinyRing(0, |lens|)
  {
    if lens != [] {
      TinyRefuses(cap, lens[..|lens| - 1]);
      TinyTakes(cap, lens[|lens| - 1]);
    }
  }

  /** The address of the consumer's next load. */
  function NextLoad(w: Width, s: Ring): nat {
    Offset(s.cap, N64(w, s.readPos + s.consumer.skip)) + (if s.consumer.Body? then 4 else 0) + |s.consumer.got|
  }

  /** Every store of a write falls inside the ring or on one of the three bytes after it, where it
      is a marker byte. */
  lemma StoresInBounds(cap: Capacity, t: Ring)
    requires Reachable(Word, cap, t) && StoresLeft(t)
    ensures NextStore(t).addr < cap || (NextStore(t).addr < cap + SPILL && NextStore(t).val == 0xFF)
  {
    var s := Unbounded(cap, t);
    ReachableInv(cap, s);
    RoomBehindRead(s);
    StoreInRoom(s.cap, s.local, s.producer.m, s.producer.done);
  }

  /** The consumer's loads fall there too, and those of a payload inside the ring. */
  lemma LoadsInBounds(cap: Capacity, t: Ring)
    requires Reachable(Word, cap, t)
    ensures t.consumer.Header? && |t.consumer.got| < 4 ==> NextLoad(Word, t) < cap + SPILL
    ensures t.consumer.Body? && |t.consumer.got| < t.consumer.len ==> NextLoad(Word, t) < cap
  {
    var s := Unbounded(cap, t);
    ReachableInv(cap, s);
    NextLoadWord(s);
    if s.consumer.Body? && |s.consumer.got| < s.consumer.len {
      BodyLoad(s);
    }
  }

  lemma NextLoadWord(s: Ring)
    ensures NextLoad(Word, Lower(s)) == NextLoad(Ideal, s)
    ensures s.consumer.Header? && |s.consumer.got| < 4 ==> NextLoad(Ideal, s) < s.cap + SPILL
  {
    SumOfWrapped(s.readPos, s.consumer.skip);
    OffsetOfWrapped(s.cap, s.readPos + s.consumer.skip);
  }

  lemma BodyLoad(s: Ring)
    requires Inv(s) && s.consumer.Body? && |s.consumer.got| < s.consumer.len
    ensures NextLoad(Ideal, s) < s.cap
  {
    OffsetIsSlot(s.cap, s.readPos + s.consumer.skip);
    BodyBase(s.cap, s.readPos, s.consumer.len);
  }

  lemma BodyBase(cap: Capacity, p: nat, len: nat)
    requires 4 + len <= cap
    ensures Slot(cap, p + PadAt(cap, p, len)) + 4 + len <= cap
  {
    SlotShift(cap, p, PadAt(cap, p, len));
  }

  /** The bytes past the ring exist: the mapping of header and ring never ends within three bytes of
      a 4096-byte page boundary. */
  lemma MappingHasSpill(cap: Capacity)
    ensures (64 + cap + SPILL - 1) / 4096 == (64 + cap - 1) / 4096
  {
    assert IsCapacity(cap);
    var k :| 2 <= k <= 31 && cap == Pow2(k);
    var page := Pow2(12);
    assert page == 4096;
    if k >= 12 {
      Pow2Add(12, k - 12);
      PageOf(Pow2(k - 12));
    } else {
      Pow2Order(k, 11);
      assert page == 2 * Pow2(11);
    }
  }

  lemma PageOf(n: nat)
    ensures (64 + 4096 * n + SPILL - 1) / 4096 == (64 + 4096 * n - 1) / 4096
  {
  }

  /** Padding never stands alone. Everything published is a message with its padding, if any, right
      before it and up to the ring's end; write_pos and local_write_pos agree between writes. */
  lemma PublishedFraming(cap: Capacity, t: Ring, i: nat)
    requires Reachable(Word, cap, t)
    ensures |t.published| == |t.accepted| + 1 && t.published[0] == 0
    ensures t.producer.Idle? ==> t.local == Last(t.published)
    ensures i < |t.accepted| ==> FramedAs(cap, t.published[i], t.published[i + 1], |t.accepted[i]|)
  {
    var s := Unbounded(cap, t);
    ReachableInv(cap, s);
    FramedStart(s);
    if i < |t.accepted| {
      FramedAt(s, i);
      FramedWord(cap, s.published[i], s.published[i + 1], |s.accepted[i]|);
      assert FramedAs(cap, t.published[i], t.published[i + 1], |t.accepted[i]|);
    }
  }

  /** A message of `len` bytes from position `p` up to `next`, both 64-bit words, with its padding. */
  predicate FramedAs(cap: Capacity, p: nat, next: nat, len: nat) {
    var pad := PadAt(cap, p, len);
    && next == (p + pad + 4 + len) % U64
    && (pad > 0 ==> Offset(cap, (p + pad) % U64) == 0)
  }

  lemma FramedWord(cap: Capacity, p: nat, next: nat, len: nat)
    requires next == p + PadAt(cap, p, len) + 4 + len
    requires PadAt(cap, p, len) > 0 ==> Slot(cap, p + PadAt(cap, p, len)) == 0
    ensures FramedAs(cap, p % U64, next % U64, len)
  {
    SamePad(cap, p, len);
    FramedWith(cap, p, next, len, PadAt(cap, p, len));
  }

  lemma FramedWith(cap: Capacity, p: nat, next: nat, len: nat, pad: nat)
    requires next == p + pad + 4 + len && PadAt(cap, p % U64, len) == pad
    requires pad > 0 ==> Slot(cap, p + pad) == 0
    ensures FramedAs(cap, p % U64, next % U64, len)
  {
    SumOfWrapped(p, pad + 4 + len);
    OffsetAt(cap, p, pad);
  }

  lemma SamePad(cap: Capacity, p: nat, len: nat)
    ensures PadAt(cap, p % U64, len) == PadAt(cap, p, len)
  {
    OffsetOfWrapped(cap, p);
    OffsetIsSlot(cap, p);
    OffsetIsSlot(cap, p % U64);
  }

  lemma FramedStart(s: Ring)
    requires Inv(s)
    ensures |s.published| == |s.accepted| + 1 && s.published[0] == 0
    ensures s.producer.Idle? ==> s.local == Last(s.published)
  {
    FirstStart(s);
  }

  lemma FramedAt(s: Ring, i: nat)
    requires Inv(s) && i < |s.accepted|
    ensures var p, m := s.published[i], s.accepted[i];
      && s.published[i + 1] == p + PadAt(s.cap, p, |m|) + 4 + |m|
      && (PadAt(s.cap, p, |m|) > 0 ==> Slot(s.cap, p + PadAt(s.cap, p, |m|)) == 0)
  {
    NextStart(s, i);
    if PadAt(s.cap, s.published[i], |s.accepted[i]|) > 0 {
      PadReachesRingEnd(s.cap, s.published[i], |s.accepted[i]|);
    }
  }

  lemma FirstStart(s: Ring)
    requires Histories(s)
    ensures s.published[0] == 0
  {
    assert Open(0);
  }

  /** How far a 64-bit position is behind write_pos. */
  function Behind(t: Ring, pos: nat): nat {
    (Last(t.published) - pos) % U64
  }

  /** Successive loads of read_pos by the producer never go back in its history. What they see is at
      least as far behind write_pos as the true position, which is behind what the consumer has read,
      and never more than a ring's length behind. */
  lemma SnapshotsMonotone(cap: Capacity, t: Ring, more: seq<Action>)
    requires Reachable(Word, cap, t)
    ensures var t' := Run(Word, t, more);
      && t.seen <= t'.seen < |t'.freed| && t.freed <= t'.freed
      && Behind(t', t'.readPos) <= Behind(t', Last(t'.freed)) <= Behind(t', t'.freed[t'.seen]) <= cap
  {
    ReachableOn(cap, t, more);
    SeenGrows(Word, t, more);
    var s' := Unbounded(cap, Run(Word, t, more));
    ReachableInv(cap, s');
    BehindWord(s');
  }

  lemma BehindWord(s: Ring)
    requires Inv(s)
    ensures var t := Lower(s);
      && t.seen < |t.freed|
      && Behind(t, t.readPos) <= Behind(t, Last(t.freed)) <= Behind(t, t.freed[t.seen]) <= s.cap
  {
    SnapshotBehind(s);
    LoweredEnds(s);
    BehindBy(Lower(s), WritePos(s), s.readPos);
    BehindBy(Lower(s), WritePos(s), ReadPos(s));
    BehindBy(Lower(s), WritePos(s), Snapshot(s));
  }

  lemma BehindBy(t: Ring, to: nat, from: nat)
    requires from <= to < from + U64 && Last(t.published) == to % U64
    ensures Behind(t, from % U64) == to - from
  {
    Distance(to, from);
  }

  lemma ReachableOn(cap: Capacity, t: Ring, more: seq<Action>)
    requires Reachable(Word, cap, t)
    ensures Reachable(Word, cap, Run(Word, t, more))
  {
    var data: seq<Byte>, acts: seq<Action> :|
      |data| == cap + SPILL && t == Run(Word, Init(cap, data), acts);
    RunAppend(Word, Init(cap, data), acts, more);
    assert Run(Word, t, more) == Run(Word, Init(cap, data), acts + more);
  }

  lemma {:induction false} RunAppend(w: Width, s: Ring, a: seq<Action>, b: seq<Action>)
    ensures Run(w, s, a + b) == Run(w, Run(w, s, a), b)
    decreases |b|
  {
    if b == [] {
      assert a + b == a;
    } else {
      RunAppend(w, s, a, b[..|b| - 1]);
      assert (a + b)[..|a + b| - 1] == a + b[..|b| - 1];
    }
  }

  /** On unbounded positions: loads never go back, and never run ahead of the true position. */
  lemma SnapshotsOrdered(cap: Capacity, s: Ring, more: seq<Action>)
    requires Reachable(Ideal, cap, s)
    ensures var s' := Run(Ideal, s, more);
      && s.seen < |s.freed| && s'.seen < |s'.freed|
      && s.freed[s.seen] <= s'.freed[s'.seen] <= Last(s'.freed) <= s'.readPos <= Last(s'.published)
  {
    ReachableInv(cap, s);
    RunOnInv(s, more);
    var s' := Run(Ideal, s, more);
    SnapshotBehind(s');
    SeenGrows(Ideal, s, more);
    assert s.freed[s.seen] == s'.freed[s.seen];
  }

  lemma {:induction false} RunOnInv(s: Ring, more: seq<Action>)
    requires Inv(s)
    ensures Inv(Run(Ideal, s, more))
    decreases |more|
  {
    if more != [] {
      RunOnInv(s, more[..|more| - 1]);
      StepInv(Run(Ideal, s, more[..|more| - 1]), more[|more| - 1]);
    }
  }

  lemma {:induction false} SeenGrows(w: Width, s: Ring, more: seq<Action>)
    ensures s.seen <= Run(w, s, more).seen
    ensures s.freed <= Run(w, s, more).freed
    decreases |more|
  {
    if more != [] {
      SeenGrows(w, s, more[..|more| - 1]);
      SeenStep(w, Run(w, s, more[..|more| - 1]), more[|more| - 1]);
    }
  }

  lemma SeenStep(w: Width, s: Ring, a: Action)
    ensures s.seen <= Step(w, s, a).seen && s.freed <= Step(w, s, a).freed
  {
  }

  // ------------------------------------------------------------------ conservation

  /** The payloads of the calls that were entered during a run. */
  function Offered(w: Width, s: Ring, acts: seq<Action>): seq<seq<Byte>>
    decreases |acts|
  {
    if acts == [] then []
    else
      var before, a := acts[..|acts| - 1], acts[|acts| - 1];
      if Enters(Run(w, s, before), a) then Offered(w, s, before) + [a.m] else Offered(w, s, before)
  }

  function Busy(pc: Producer): seq<seq<Byte>> {
    if pc.Idle? then [] else [pc.m]
  }

  function Ledger(s: Ring): multiset<seq<Byte>> {
    multiset(s.accepted) + multiset(s.refused) + multiset(Busy(s.producer))
  }

  predicate Enters(s: Ring, a: Action) {
    a.Call? && |a.m| < U32 && s.producer.Idle?
  }

  lemma CallConserves(w: Width, s: Ring, m: seq<Byte>)
    requires Enters(s, Call(m))
    ensures Ledger(CallStep(w, s, m)) == Ledger(s) + multiset{m}
  {
    assert multiset(s.refused + [m]) == multiset(s.refused) + multiset{m};
    assert multiset([m]) == multiset{m};
  }

  lemma CheckConserves(w: Width, s: Ring)
    ensures Ledger(CheckStep(w, s)) == Ledger(s)
  {
    if s.producer.Loaded? {
      assert multiset(s.refused + [s.producer.m]) == multiset(s.refused) + multiset([s.producer.m]);
    }
  }

  lemma PublishConserves(s: Ring)
    ensures Ledger(PublishStep(s)) == Ledger(s)
  {
    if s.producer.Stored? {
      assert multiset(s.accepted + [s.producer.m]) == multiset(s.accepted) + multiset([s.producer.m]);
    }
  }

  lemma StepConserves(w: Width, s: Ring, a: Action)
    ensures Ledger(Step(w, s, a)) == if Enters(s, a) then Ledger(s) + multiset{a.m} else Ledger(s)
  {
    match a
    case Call(m) => if Enters(s, a) { CallConserves(w, s, m); }
    case Check => CheckConserves(w, s);
    case Publish => PublishConserves(s);
    case _ => OtherConserves(w, s, a);
  }

  lemma OtherConserves(w: Width, s: Ring, a: Action)
    requires !a.Call? && !a.Check? && !a.Publish?
    ensures var s' := Step(w, s, a);
      s'.accepted == s.accepted && s'.refused == s.refused && Busy(s'.producer) == Busy(s.producer)
  {
  }

  /** Every payload ever offered is accepted, refused, or being written: none is lost or duplicated,
      whatever the consumer does; and the accepted ones are those taken followed by those in flight. */
  lemma {:induction false} Conservation(cap: Capacity, data: seq<Byte>, acts: seq<Action>)
    requires |data| == cap + SPILL
    ensures var t := Run(Word, Init(cap, data), acts);
      && multiset(Offered(Word, Init(cap, data), acts))
         == multiset(t.accepted) + multiset(t.refused) + multiset(Busy(t.producer))
      && |t.taken| <= |t.accepted| && t.accepted == t.taken + t.accepted[|t.taken|..]
  {
    var t := Run(Word, Init(cap, data), acts);
    RingSafe(false, cap, t);
    OfferedIsLedger(Word, Init(cap, data), acts);
  }

  lemma {:induction false} OfferedIsLedger(w: Width, s: Ring, acts: seq<Action>)
    requires Ledger(s) == multiset{}
    ensures multiset(Offered(w, s, acts)) == Ledger(Run(w, s, acts))
    decreases |acts|
  {
    if acts != [] {
      var before, a := acts[..|acts| - 1], acts[|acts| - 1];
      OfferedIsLedger(w, s, before);
      StepConserves(w, Run(w, s, before), a);
      if Enters(Run(w, s, before), a) {
        assert multiset(Offered(w, s, before) + [a.m]) == multiset(Offered(w, s, before)) + multiset{a.m};
      }
    }
  }
}
