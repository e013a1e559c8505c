/** The invariant of the ring over every interleaving, with unbounded positions. */
module RingSafety {
  import opened Bits
  import opened Bytes
  import opened Ring

  // ------------------------------------------------------------------ where messages lie

  /** The ring slot of a stream position: its remainder modulo the capacity. */
  function Slot(cap: Capacity, pos: nat): (r: nat)
    ensures r < cap
  {
    if pos < cap then pos else Slot(cap, pos - cap)
  }

  /** Padding before a message of `len` payload bytes at position `p`. */
  function PadAt(cap: Capacity, p: nat, len: nat): nat {
    if Slot(cap, p) + 4 + len > cap then cap - Slot(cap, p) else 0
  }

  /** Bytes of the stream a message takes, with its padding. */
  function Room(cap: Capacity, p: nat, len: nat): nat {
    PadAt(cap, p, len) + 4 + len
  }

  /** The address of the frame of a message at position `p`. */
  function Base(cap: Capacity, p: nat, len: nat): nat {
    if PadAt(cap, p, len) > 0 then 0 else Slot(cap, p)
  }

  /** The message `m` is stored at position `p`, after its padding marker if it needs one. */
  ghost predicate UnitAt(cap: Capacity, data: seq<Byte>, p: nat, m: seq<Byte>) {
    forall n: nat :: Open(n) ==> UnitBytes(cap, data, p, m)
  }

  ghost predicate UnitBytes(cap: Capacity, data: seq<Byte>, p: nat, m: seq<Byte>) {
    var o, base := Slot(cap, p), Base(cap, p, |m|);
    && |data| == cap + SPILL
    && base + |Frame(m)| <= cap
    && (PadAt(cap, p, |m|) > 0 ==> data[o..o + 4] == MARKER)
    && data[base..base + |Frame(m)|] == Frame(m)
  }

  /** Masking a position gives its slot. */
  lemma OffsetIsSlot(cap: Capacity, pos: nat)
    ensures Offset(cap, pos) == Slot(cap, pos)
  {
    assert IsCapacity(cap);
    var k :| 2 <= k <= 31 && cap == Pow2(k);
    AndMask(pos, k);
    SlotIsMod(cap, pos);
  }

  lemma {:induction false} SlotIsMod(cap: Capacity, pos: nat)
    ensures Slot(cap, pos) == pos % cap
  {
    if pos < cap {
      DivModUnique(pos, cap, 0, pos);
    } else {
      SlotIsMod(cap, pos - cap);
      var q := (pos - cap) / cap;
      assert pos == (q + 1) * cap + (pos - cap) % cap;
      DivModUnique(pos, cap, q + 1, (pos - cap) % cap);
    }
  }

  /** Moving on by less than a turn. */
  lemma {:induction false} SlotShift(cap: Capacity, p: nat, d: nat)
    requires d <= cap
    ensures Slot(cap, p + d) == if Slot(cap, p) + d < cap then Slot(cap, p) + d else Slot(cap, p) + d - cap
  {
    if p >= cap {
      SlotShift(cap, p - cap, d);
    }
  }

  lemma SliceSplit(data: seq<Byte>, at: nat, a: seq<Byte>, b: seq<Byte>)
    requires at + |a| + |b| <= |data| && data[at..at + |a + b|] == a + b
    ensures data[at..at + |a|] == a && data[at + |a|..at + |a| + |b|] == b
  {
    var both := data[at..at + |a + b|];
    assert both[..|a|] == data[at..at + |a|];
    assert both[|a|..] == data[at + |a|..at + |a| + |b|];
  }

  /** What a reader finds at a message in place. */
  lemma ReadFrame(cap: Capacity, data: seq<Byte>, p: nat, m: seq<Byte>)
    requires |data| == cap + SPILL && UnitAt(cap, data, p, m)
    ensures var base := Base(cap, p, |m|);
      && base + 4 + |m| <= cap
      && data[base..base + 4] == LengthBytes(|m|)
      && data[base + 4..base + 4 + |m|] == m
  {
    assert Open(0);
    SliceSplit(data, Base(cap, p, |m|), LengthBytes(|m|), m);
  }

  /** In memory a message is its length in four bytes, least significant first, and then its own bytes;
      the padding marker is four bytes 0xFF. */
  lemma FrameLayout(m: seq<Byte>)
    ensures var f, n := Frame(m), |m|;
      && |f| == 4 + n && f[4..] == m
      && f[0] == n % 256 && f[1] == n / 256 % 256 && f[2] == n / 65536 % 256 && f[3] == n / 16777216 % 256
    ensures |MARKER| == 4 && forall i :: 0 <= i < 4 ==> MARKER[i] == 255
  {
    var b := LengthBytes(|m|);
    assert |MARKER| == 4;
    assert Range(0) == 1 && Range(1) == 256 && Range(2) == 65536 && Range(3) == 16777216;
    LeDigit(|m|, 4, 0);
    LeDigit(|m|, 4, 1);
    LeDigit(|m|, 4, 2);
    LeDigit(|m|, 4, 3);
    assert forall i :: 0 <= i < 4 ==> Frame(m)[i] == b[i];
  }

  // ------------------------------------------------------------------ stores

  /** The first `done` stores of a write are in memory. */
  ghost predicate Carried(data: seq<Byte>, offset: nat, pad: nat, m: seq<Byte>, done: nat) {
    forall n: nat :: Open(n) ==> CarriedStores(data, offset, pad, m, done)
  }

  ghost predicate CarriedStores(data: seq<Byte>, offset: nat, pad: nat, m: seq<Byte>, done: nat) {
    && done <= StoreCount(pad, m)
    && forall i :: 0 <= i < done ==>
         var st := NthStore(offset, pad, m, i);
         st.addr < |data| && data[st.addr] == st.val
  }

  /** A store to a position of the `room` bytes from `p` on, or past the ring, where only marker
      bytes go. */
  ghost predicate InRoom(cap: Capacity, p: nat, room: nat, st: Store) {
    || (cap <= st.addr < cap + SPILL && st.val == 0xFF)
    || (st.addr < cap && exists d: nat :: d < room && IsSlotOf(st.addr, cap, p, d))
  }

  ghost predicate IsSlotOf(a: nat, cap: Capacity, p: nat, d: nat) {
    a == Slot(cap, p + d)
  }

  lemma StoreInRoom(cap: Capacity, p: nat, m: seq<Byte>, i: nat)
    requires Room(cap, p, |m|) <= cap && i < StoreCount(PadAt(cap, p, |m|), m)
    ensures InRoom(cap, p, Room(cap, p, |m|), NthStore(Slot(cap, p), PadAt(cap, p, |m|), m, i))
  {
    var o, pad, room := Slot(cap, p), PadAt(cap, p, |m|), Room(cap, p, |m|);
    var st := NthStore(o, pad, m, i);
    var d := if pad > 0 && i >= 4 then pad + (i - 4) else i;
    if st.addr < cap {
      assert d < room && d < cap;
      SlotShift(cap, p, d);
      assert IsSlotOf(st.addr, cap, p, d);
    }
  }

  lemma StoresDistinct(cap: Capacity, p: nat, m: seq<Byte>, i: nat, j: nat)
    requires i < j < StoreCount(PadAt(cap, p, |m|), m)
    requires Room(cap, p, |m|) <= cap
    ensures NthStore(Slot(cap, p), PadAt(cap, p, |m|), m, i).addr
         != NthStore(Slot(cap, p), PadAt(cap, p, |m|), m, j).addr
  {
  }

  /** A store at a position after a message and less than a turn ahead of it leaves it intact. */
  lemma StoreSpares(cap: Capacity, data: seq<Byte>, p: nat, m: seq<Byte>, q: nat, val: Byte)
    requires |data| == cap + SPILL && UnitAt(cap, data, p, m)
    requires p + Room(cap, p, |m|) <= q < p + cap
    ensures UnitAt(cap, data[Slot(cap, q) := val], p, m)
  {
    assert Open(0);
    var o, base, a := Slot(cap, p), Base(cap, p, |m|), Slot(cap, q);
    SlotShift(cap, p, q - p);
    var data' := data[a := val];
    if PadAt(cap, p, |m|) > 0 {
      assert a < o;
      assert data'[o..o + 4] == data[o..o + 4];
    }
    assert a < base || base + |Frame(m)| <= a;
    assert data'[base..base + |Frame(m)|] == data[base..base + |Frame(m)|];
  }

  /** A marker byte stored past the ring leaves every message intact. */
  lemma SpillSpares(cap: Capacity, data: seq<Byte>, p: nat, m: seq<Byte>, a: nat)
    requires |data| == cap + SPILL && UnitAt(cap, data, p, m)
    requires cap <= a < cap + SPILL
    ensures UnitAt(cap, data[a := 0xFF], p, m)
  {
    assert Open(0);
    var o, base := Slot(cap, p), Base(cap, p, |m|);
    var data' := data[a := 0xFF];
    if PadAt(cap, p, |m|) > 0 {
      forall i | 0 <= i < 4 ensures data'[o..o + 4][i] == MARKER[i] {
        assert data[o..o + 4][i] == MARKER[i];
      }
      assert data'[o..o + 4] == MARKER;
    }
    assert data'[base..base + |Frame(m)|] == data[base..base + |Frame(m)|];
  }

  /** A message whose stores are all done is in place. */
  lemma StoresMakeUnit(cap: Capacity, data: seq<Byte>, p: nat, m: seq<Byte>)
    requires |data| == cap + SPILL && Room(cap, p, |m|) <= cap
    requires Carried(data, Slot(cap, p), PadAt(cap, p, |m|), m, StoreCount(PadAt(cap, p, |m|), m))
    ensures UnitAt(cap, data, p, m)
  {
    assert Open(0);
    var o, pad, base := Slot(cap, p), PadAt(cap, p, |m|), Base(cap, p, |m|);
    if pad > 0 {
      forall i | 0 <= i < 4 ensures data[o + i] == MARKER[i] {
        var st := NthStore(o, pad, m, i);
        assert data[st.addr] == st.val;
      }
    }
    forall f | 0 <= f < |Frame(m)| ensures data[base + f] == Frame(m)[f] {
      var st := NthStore(o, pad, m, if pad > 0 then 4 + f else f);
      assert data[st.addr] == st.val;
    }
  }

  // ------------------------------------------------------------------ the invariant

  ghost function WritePos(s: Ring): nat
    requires |s.published| > 0
  {
    s.published[|s.published| - 1]
  }

  ghost function ReadPos(s: Ring): nat
    requires |s.freed| > 0
  {
    s.freed[|s.freed| - 1]
  }

  /** The newest read_pos the producer has seen: a lower bound of the true one. */
  ghost function Snapshot(s: Ring): nat
    requires s.seen < |s.freed|
  {
    s.freed[s.seen]
  }

  /** Message `i` starts at `starts[i]`, and the next one right behind its room. */
  ghost predicate Contiguous(cap: Capacity, starts: seq<nat>, ms: seq<seq<Byte>>) {
    && |starts| == |ms| + 1
    && forall n: nat :: Open(n) ==> Rooms(cap, starts, ms)
  }

  ghost predicate Rooms(cap: Capacity, starts: seq<nat>, ms: seq<seq<Byte>>)
    requires |starts| == |ms| + 1
  {
    && starts[0] == 0
    && forall i {:trigger ms[i]} :: 0 <= i < |ms| ==>
         starts[i + 1] == starts[i] + Room(cap, starts[i], |ms[i]|)
  }

  lemma {:induction false} StartGap(cap: Capacity, starts: seq<nat>, ms: seq<seq<Byte>>, i: nat, j: nat)
    requires Contiguous(cap, starts, ms)
    requires i <= j <= |ms|
    ensures starts[i] <= starts[j]
    ensures i < j ==> starts[i] + Room(cap, starts[i], |ms[i]|) <= starts[j]
    decreases j
  {
    assert Open(0);
    if i < j {
      var m := ms[j - 1];
      StartGap(cap, starts, ms, i, j - 1);
    }
  }

  ghost predicate Histories(s: Ring) {
    && |s.data| == s.cap + SPILL
    && Contiguous(s.cap, s.published, s.accepted)
    && (forall m :: m in s.accepted ==> 4 + |m| <= s.cap)
    && s.released <= |s.taken| <= s.fetched <= |s.accepted|
    && s.taken == s.accepted[..|s.taken|]
    && s.readPos == s.published[|s.taken|]
    && s.dropped == |s.refused|
  }

  ghost predicate Freed(s: Ring)
    requires s.released < |s.published|
  {
    && s.seen < |s.freed|
    && ReadPos(s) == s.published[s.released]
    && (forall i, j :: 0 <= i <= j < |s.freed| ==> s.freed[i] <= s.freed[j])
    && WritePos(s) <= Snapshot(s) + s.cap
  }

  /** Every accepted message read_pos has not passed is in memory at its place. */
  ghost predicate InFlight(cap: Capacity, data: seq<Byte>, starts: seq<nat>, ms: seq<seq<Byte>>, from: nat)
    requires |starts| == |ms| + 1
  {
    forall i {:trigger ms[i]} :: from <= i < |ms| ==> UnitAt(cap, data, starts[i], ms[i])
  }

  ghost predicate ProducerOk(s: Ring)
    requires |s.published| > 0 && s.seen < |s.freed|
  {
    match s.producer
    case Idle => s.local == WritePos(s)
    case Called(m) => s.local == WritePos(s) && 4 + |m| <= s.cap
    case Loaded(m, snap) => s.local == WritePos(s) && 4 + |m| <= s.cap && snap == Snapshot(s)
    case Storing(m, offset, pad, done) =>
      && offset == Slot(s.cap, s.local)
      && s.local == WritePos(s)
      && 4 + |m| <= s.cap
      && pad == PadAt(s.cap, s.local, |m|)
      && s.local + Room(s.cap, s.local, |m|) <= Snapshot(s) + s.cap
      && Carried(s.data, offset, pad, m, done)
    case Stored(m) =>
      && 4 + |m| <= s.cap
      && s.local == WritePos(s) + Room(s.cap, WritePos(s), |m|) <= Snapshot(s) + s.cap
      && UnitAt(s.cap, s.data, WritePos(s), m)
  }

  /** The four bytes the consumer reads next: the marker of the padding, or the length prefix. */
  function Expected(skip: nat, pad: nat, m: seq<Byte>): (e: seq<Byte>)
    ensures |e| == 4
  {
    if skip == 0 && pad > 0 then MARKER else LengthBytes(|m|)
  }

  /** What the consumer has of the message `m` it is on. */
  ghost predicate Reading(c: Consumer, pad: nat, m: seq<Byte>) {
    match c
    case Header(skip, got) =>
      && (skip == 0 || skip == pad)
      && got <= Expected(skip, pad, m)
    case Body(skip, len, got) => skip == pad && len == |m| && got <= m
  }

  ghost predicate ConsumerOk(s: Ring)
    requires s.fetched <= |s.accepted|
  {
    var t := |s.taken|;
    || s.consumer == Header(0, [])
    || (t < s.fetched && Reading(s.consumer, PadAt(s.cap, s.readPos, |s.accepted[t]|), s.accepted[t]))
  }

  ghost predicate Inv(s: Ring) {
    && Histories(s)
    && Freed(s)
    && InFlight(s.cap, s.data, s.published, s.accepted, s.released)
    && ProducerOk(s)
    && ConsumerOk(s)
  }

  lemma InitInv(cap: Capacity, data: seq<Byte>)
    requires |data| == cap + SPILL
    ensures Inv(Init(cap, data))
  {
    assert Open(0);
  }

  // ------------------------------------------------------------------ producer steps

  /** With unbounded positions the checks accept exactly when padding and message fit behind the
      loaded read position, and pad exactly as the layout says. */
  lemma DecideMeaning(cap: Capacity, local: nat, snap: nat, len: nat)
    requires snap <= local && 4 + len <= cap
    ensures Decide(Ideal, cap, local, snap, len)
         == if local + Room(cap, local, len) <= snap + cap then Accept(Slot(cap, local), PadAt(cap, local, len))
            else Refuse
  {
    OffsetIsSlot(cap, local);
  }

  /** Moving local_write_pos and the program counter touches nothing else. */
  lemma ProducerChange(s: Ring, local: nat, pc: Producer)
    requires Inv(s) && ProducerOk(s.(local := local, producer := pc))
    ensures Inv(s.(local := local, producer := pc))
  {
  }

  lemma DroppedInv(s: Ring, m: seq<Byte>)
    requires Inv(s) && s.local == WritePos(s)
    ensures Inv(Dropped(Ideal, s, m))
  {
  }

  lemma CallInv(s: Ring, m: seq<Byte>)
    requires Inv(s)
    ensures Inv(CallStep(Ideal, s, m))
  {
    if s.producer.Idle? {
      DroppedInv(s, m);
      if 4 + |m| <= s.cap {
        ProducerChange(s, s.local, Called(m));
      }
    }
  }

  lemma LoadReadInv(s: Ring, i: nat)
    requires Inv(s)
    ensures Inv(LoadReadStep(s, i))
  {
  }

  lemma AcceptInv(s: Ring)
    requires Inv(s) && s.producer.Loaded?
    requires s.local + Room(s.cap, s.local, |s.producer.m|) <= s.producer.snap + s.cap
    ensures var m := s.producer.m;
      Inv(s.(producer := Storing(m, Slot(s.cap, s.local), PadAt(s.cap, s.local, |m|), 0)))
  {
    var m := s.producer.m;
    ProducerChange(s, s.local, Storing(m, Slot(s.cap, s.local), PadAt(s.cap, s.local, |m|), 0));
  }

  /** A stale read position is behind the true one, and at most a ring's length behind the write
      positions. */
  lemma SnapshotBehind(s: Ring)
    requires Inv(s)
    ensures Snapshot(s) <= ReadPos(s) <= s.readPos <= WritePos(s) <= s.local <= Snapshot(s) + s.cap
  {
    StartGap(s.cap, s.published, s.accepted, s.released, |s.taken|);
    StartGap(s.cap, s.published, s.accepted, |s.taken|, |s.accepted|);
  }

  lemma CheckInv(s: Ring)
    requires Inv(s)
    ensures Inv(CheckStep(Ideal, s))
  {
    if s.producer.Loaded? {
      var len := |s.producer.m|;
      SnapshotBehind(s);
      DecideMeaning(s.cap, s.local, s.producer.snap, len);
      if s.local + Room(s.cap, s.local, len) <= s.producer.snap + s.cap {
        AcceptInv(s);
      } else {
        DroppedInv(s, s.producer.m);
      }
    }
  }

  /** One store of a write leaves every message in flight intact. */
  lemma StoreKeepsInFlight(cap: Capacity, data: seq<Byte>, starts: seq<nat>, ms: seq<seq<Byte>>, from: nat,
                           p: nat, room: nat, st: Store)
    requires Contiguous(cap, starts, ms) && from <= |ms| && p == starts[|ms|]
    requires InFlight(cap, data, starts, ms, from)
    requires |data| == cap + SPILL && p + room <= starts[from] + cap
    requires InRoom(cap, p, room, st)
    ensures InFlight(cap, Put(data, st), starts, ms, from)
  {
    forall i {:trigger ms[i]} | from <= i < |ms| ensures UnitAt(cap, Put(data, st), starts[i], ms[i]) {
      StartGap(cap, starts, ms, i, |ms|);
      StartGap(cap, starts, ms, from, i);
      StoreSparesUnit(cap, data, starts[i], ms[i], p, room, st);
    }
  }

  lemma StoreSparesUnit(cap: Capacity, data: seq<Byte>, p: nat, m: seq<Byte>, q: nat, room: nat, st: Store)
    requires |data| == cap + SPILL && UnitAt(cap, data, p, m)
    requires p + Room(cap, p, |m|) <= q && q + room <= p + cap
    requires InRoom(cap, q, room, st)
    ensures UnitAt(cap, Put(data, st), p, m)
  {
    if cap <= st.addr {
      SpillSpares(cap, data, p, m, st.addr);
    } else {
      var d: nat :| d < room && IsSlotOf(st.addr, cap, q, d);
      StoreSpares(cap, data, p, m, q + d, st.val);
    }
  }

  lemma StoreKeepsCarried(cap: Capacity, data: seq<Byte>, p: nat, m: seq<Byte>, done: nat)
    requires |data| == cap + SPILL && Room(cap, p, |m|) <= cap
    requires done < StoreCount(PadAt(cap, p, |m|), m)
    requires Carried(data, Slot(cap, p), PadAt(cap, p, |m|), m, done)
    ensures Carried(Put(data, NthStore(Slot(cap, p), PadAt(cap, p, |m|), m, done)),
                    Slot(cap, p), PadAt(cap, p, |m|), m, done + 1)
  {
    assert Open(0);
    var o, pad := Slot(cap, p), PadAt(cap, p, |m|);
    var st := NthStore(o, pad, m, done);
    StoreInRoom(cap, p, m, done);
    var data' := Put(data, st);
    forall i | 0 <= i < done + 1 ensures
      var si := NthStore(o, pad, m, i); si.addr < |data'| && data'[si.addr] == si.val
    {
      if i < done {
        StoresDistinct(cap, p, m, i, done);
      }
    }
  }

  lemma DataChange(s: Ring, data: seq<Byte>, pc: Producer)
    requires Inv(s) && |data| == |s.data| && ProducerOk(s.(data := data, producer := pc))
    requires InFlight(s.cap, data, s.published, s.accepted, s.released)
    ensures Inv(s.(data := data, producer := pc))
  {
  }

  /** A write in progress has its room behind the true read position. */
  lemma RoomBehindRead(s: Ring)
    requires Inv(s) && s.producer.Storing?
    ensures s.local == s.published[|s.accepted|]
    ensures s.local + Room(s.cap, s.local, |s.producer.m|) <= s.published[s.released] + s.cap
    ensures Room(s.cap, s.local, |s.producer.m|) <= s.cap
  {
    StartGap(s.cap, s.published, s.accepted, s.released, |s.accepted|);
  }

  lemma StoreInFlight(s: Ring)
    requires Inv(s) && StoresLeft(s)
    ensures InFlight(s.cap, StoreStep(s).data, s.published, s.accepted, s.released)
  {
    RoomBehindRead(s);
    StoreInRoom(s.cap, s.local, s.producer.m, s.producer.done);
    StoreKeepsInFlight(s.cap, s.data, s.published, s.accepted, s.released, s.local,
                       Room(s.cap, s.local, |s.producer.m|), NextStore(s));
  }

  lemma StoreProducer(s: Ring)
    requires Inv(s) && StoresLeft(s)
    ensures ProducerOk(StoreStep(s))
  {
    RoomBehindRead(s);
    StoreKeepsCarried(s.cap, s.data, s.local, s.producer.m, s.producer.done);
  }

  lemma StoreInv(s: Ring)
    requires Inv(s)
    ensures Inv(StoreStep(s))
  {
    if StoresLeft(s) {
      StoreInFlight(s);
      StoreProducer(s);
      DataChange(s, StoreStep(s).data, StoreStep(s).producer);
    }
  }

  lemma DoneCarried(s: Ring)
    requires Inv(s) && s.producer.Storing? && !StoresLeft(s)
    ensures s.producer.done == StoreCount(s.producer.pad, s.producer.m)
    ensures Carried(s.data, s.producer.offset, s.producer.pad, s.producer.m, s.producer.done)
  {
    assert Open(0);
  }

  lemma MoveInv(s: Ring)
    requires Inv(s)
    ensures Inv(MoveStep(Ideal, s))
  {
    if s.producer.Storing? && !StoresLeft(s) {
      var m, room := s.producer.m, Room(s.cap, s.local, |s.producer.m|);
      assert UnitAt(s.cap, s.data, s.local, m) by {
        RoomBehindRead(s);
        DoneCarried(s);
        StoresMakeUnit(s.cap, s.data, s.local, m);
      }
      ProducerChange(s, s.local + room, Stored(m));
    }
  }

  lemma ContiguousGrows(cap: Capacity, starts: seq<nat>, ms: seq<seq<Byte>>, end: nat, m: seq<Byte>)
    requires Contiguous(cap, starts, ms)
    requires end == starts[|ms|] + Room(cap, starts[|ms|], |m|)
    ensures Contiguous(cap, starts + [end], ms + [m])
  {
    assert Open(0);
    var starts', ms' := starts + [end], ms + [m];
    forall i {:trigger ms'[i]} | 0 <= i < |ms'|
      ensures starts'[i + 1] == starts'[i] + Room(cap, starts'[i], |ms'[i]|)
    {
      if i < |ms| {
        assert ms'[i] == ms[i];
      }
    }
  }

  lemma InFlightGrows(cap: Capacity, data: seq<Byte>, starts: seq<nat>, ms: seq<seq<Byte>>, from: nat,
                      end: nat, m: seq<Byte>)
    requires |starts| == |ms| + 1 && InFlight(cap, data, starts, ms, from)
    requires UnitAt(cap, data, starts[|ms|], m)
    ensures InFlight(cap, data, starts + [end], ms + [m], from)
  {
    var starts', ms' := starts + [end], ms + [m];
    forall i {:trigger ms'[i]} | from <= i < |ms'| ensures UnitAt(cap, data, starts'[i], ms'[i]) {
      if i < |ms| {
        assert ms'[i] == ms[i];
      }
    }
  }

  lemma PublishInv(s: Ring)
    requires Inv(s)
    ensures Inv(PublishStep(s))
  {
    if s.producer.Stored? {
      ContiguousGrows(s.cap, s.published, s.accepted, s.local, s.producer.m);
      InFlightGrows(s.cap, s.data, s.published, s.accepted, s.released, s.local, s.producer.m);
      PublishHistories(s);
    }
  }

  lemma PublishHistories(s: Ring)
    requires Inv(s) && s.producer.Stored?
    requires Contiguous(s.cap, s.published + [s.local], s.accepted + [s.producer.m])
    ensures Histories(PublishStep(s)) && Freed(PublishStep(s))
    ensures ProducerOk(PublishStep(s)) && ConsumerOk(PublishStep(s))
  {
    var s' := PublishStep(s);
    assert s'.taken == s'.accepted[..|s'.taken|];
  }

  // ------------------------------------------------------------------ consumer steps

  lemma LoadWriteInv(s: Ring, i: nat)
    requires Inv(s)
    ensures Inv(LoadWriteStep(s, i))
  {
  }

  lemma ReleaseInv(s: Ring)
    requires Inv(s)
    ensures Inv(ReleaseStep(s))
  {
    StartGap(s.cap, s.published, s.accepted, s.released, |s.taken|);
    StartGap(s.cap, s.published, s.accepted, |s.taken|, |s.accepted|);
  }

  /** No length prefix is the padding marker. */
  lemma LengthIsNotMarker(cap: Capacity, len: nat)
    requires 4 + len <= cap
    ensures LengthBytes(len) != MARKER && FromLe(LengthBytes(len)) == len
  {
    Ranges();
    LeRoundTrip(len, 4);
    assert FromLe(MARKER) == 0xFFFF_FFFF by {
      assert MARKER == Le(0xFFFF_FFFF, 4);
      LeRoundTrip(0xFFFF_FFFF, 4);
    }
  }

  /** The consumer's position differs from the loaded write position exactly when a message is
      visible. */
  lemma VisibleMeaning(s: Ring)
    requires Histories(s)
    ensures Visible(s) <==> |s.taken| < s.fetched
  {
    StartGap(s.cap, s.published, s.accepted, |s.taken|, s.fetched);
  }

  lemma PadReachesRingEnd(cap: Capacity, p: nat, len: nat)
    requires PadAt(cap, p, len) > 0
    ensures Slot(cap, p + PadAt(cap, p, len)) == 0
  {
    SlotShift(cap, p, PadAt(cap, p, len));
  }

  /** Loading the next byte of the marker or of the length prefix. */
  lemma HeaderByte(cap: Capacity, data: seq<Byte>, p: nat, m: seq<Byte>, skip: nat, n: nat)
    requires |data| == cap + SPILL && UnitAt(cap, data, p, m) && n < 4
    requires skip == 0 || skip == PadAt(cap, p, |m|)
    ensures Get(data, Slot(cap, p + skip) + n) == Expected(skip, PadAt(cap, p, |m|), m)[n]
  {
    assert Open(0);
    var pad, o, base := PadAt(cap, p, |m|), Slot(cap, p), Base(cap, p, |m|);
    if skip == 0 && pad > 0 {
      assert data[o..o + 4][n] == MARKER[n];
    } else {
      if pad > 0 {
        PadReachesRingEnd(cap, p, |m|);
      }
      ReadFrame(cap, data, p, m);
      assert data[base..base + 4][n] == LengthBytes(|m|)[n];
    }
  }

  lemma BodyByte(cap: Capacity, data: seq<Byte>, p: nat, m: seq<Byte>, n: nat)
    requires |data| == cap + SPILL && UnitAt(cap, data, p, m) && n < |m|
    ensures Get(data, Slot(cap, p + PadAt(cap, p, |m|)) + 4 + n) == m[n]
  {
    var pad, base := PadAt(cap, p, |m|), Base(cap, p, |m|);
    if pad > 0 {
      PadReachesRingEnd(cap, p, |m|);
    }
    ReadFrame(cap, data, p, m);
    assert data[base + 4..base + 4 + |m|][n] == m[n];
  }

  lemma NextHeaderReading(cap: Capacity, data: seq<Byte>, p: nat, m: seq<Byte>, c: Consumer)
    requires |data| == cap + SPILL && UnitAt(cap, data, p, m) && 4 + |m| <= cap
    requires c.Header? && Reading(c, PadAt(cap, p, |m|), m)
    ensures Reading(NextHeader(Ideal, cap, data, p, c), PadAt(cap, p, |m|), m)
  {
    if |c.got| < 4 {
      var e := Expected(c.skip, PadAt(cap, p, |m|), m);
      HeaderByte(cap, data, p, m, c.skip, |c.got|);
      NextHeaderByte(cap, data, p, c, e[|c.got|]);
      PrefixGrows(c.got, e);
    } else {
      HeaderRead(cap, data, p, m, c);
    }
  }

  lemma PrefixGrows(got: seq<Byte>, e: seq<Byte>)
    requires got <= e && |got| < |e|
    ensures got + [e[|got|]] <= e
  {
  }

  lemma NextHeaderByte(cap: Capacity, data: seq<Byte>, p: nat, c: Consumer, b: Byte)
    requires c.Header? && |c.got| < 4
    requires Get(data, Slot(cap, p + c.skip) + |c.got|) == b
    ensures NextHeader(Ideal, cap, data, p, c) == Header(c.skip, c.got + [b])
  {
    OffsetIsSlot(cap, p + c.skip);
  }

  /** With four bytes in hand the consumer either skips exactly the padding or has the length. */
  lemma HeaderRead(cap: Capacity, data: seq<Byte>, p: nat, m: seq<Byte>, c: Consumer)
    requires 4 + |m| <= cap && c.Header? && |c.got| >= 4
    requires Reading(c, PadAt(cap, p, |m|), m)
    ensures NextHeader(Ideal, cap, data, p, c)
         == if c.skip == 0 && PadAt(cap, p, |m|) > 0 then Header(PadAt(cap, p, |m|), [])
            else Body(c.skip, |m|, [])
  {
    OffsetIsSlot(cap, p + c.skip);
    LengthIsNotMarker(cap, |m|);
    if c.skip == 0 && PadAt(cap, p, |m|) > 0 {
      assert c.got == MARKER;
    } else {
      assert c.got == LengthBytes(|m|);
    }
  }

  /** Any state of the consumer that is right about its message keeps the invariant. */
  lemma ConsumerChange(s: Ring, c: Consumer)
    requires Inv(s) && |s.taken| < s.fetched
    requires Reading(c, PadAt(s.cap, s.readPos, |s.accepted[|s.taken|]|), s.accepted[|s.taken|])
    ensures Inv(s.(consumer := c))
  {
    ConsumerAlone(s, s.(consumer := c));
  }

  /** The rest of the invariant does not speak of the consumer's state. */
  lemma ConsumerAlone(s: Ring, s': Ring)
    requires Inv(s) && s' == s.(consumer := s'.consumer) && ConsumerOk(s')
    ensures Inv(s')
  {
  }

  lemma HeaderInv(s: Ring)
    requires Inv(s) && s.consumer.Header?
    ensures Inv(HeaderStep(Ideal, s))
  {
    VisibleMeaning(s);
    if |s.taken| < s.fetched {
      var m := s.accepted[|s.taken|];
      NextHeaderReading(s.cap, s.data, s.readPos, m, s.consumer);
      ConsumerChange(s, NextHeader(Ideal, s.cap, s.data, s.readPos, s.consumer));
    }
  }

  lemma NextBodyReading(cap: Capacity, data: seq<Byte>, p: nat, m: seq<Byte>, c: Consumer)
    requires |data| == cap + SPILL && UnitAt(cap, data, p, m)
    requires c.Body? && |c.got| < c.len && Reading(c, PadAt(cap, p, |m|), m)
    ensures Reading(NextBody(Ideal, cap, data, p, c), PadAt(cap, p, |m|), m)
  {
    OffsetIsSlot(cap, p + c.skip);
    BodyByte(cap, data, p, m, |c.got|);
    PrefixGrows(c.got, m);
  }

  lemma BodyInv(s: Ring)
    requires Inv(s) && s.consumer.Body?
    ensures Inv(BodyStep(Ideal, s))
  {
    if |s.consumer.got| < s.consumer.len {
      NextBodyReading(s.cap, s.data, s.readPos, s.accepted[|s.taken|], s.consumer);
      ConsumerChange(s, NextBody(Ideal, s.cap, s.data, s.readPos, s.consumer));
    } else {
      TakeInv(s);
    }
  }

  lemma TakeInv(s: Ring)
    requires Inv(s) && s.consumer.Body? && |s.consumer.got| >= s.consumer.len
    ensures Inv(BodyStep(Ideal, s))
  {
    assert s.consumer.got == s.accepted[|s.taken|];
    NextStart(s, |s.taken|);
    assert s.taken + [s.consumer.got] == s.accepted[..|s.taken| + 1];
  }

  lemma NextStart(s: Ring, i: nat)
    requires Histories(s) && i < |s.accepted|
    ensures s.published[i + 1] == s.published[i] + Room(s.cap, s.published[i], |s.accepted[i]|)
  {
    assert Open(0);
    var m := s.accepted[i];
  }

  // ------------------------------------------------------------------ runs

  lemma StepInv(s: Ring, a: Action)
    requires Inv(s)
    ensures Inv(Step(Ideal, s, a))
  {
    match a
    case Call(m) => CallInv(s, m);
    case LoadRead(i) => LoadReadInv(s, i);
    case Check => CheckInv(s);
    case StoreByte => StoreInv(s);
    case MoveLocal => MoveInv(s);
    case Publish => PublishInv(s);
    case LoadWrite(i) => LoadWriteInv(s, i);
    case Consume => if s.consumer.Header? { HeaderInv(s); } else { BodyInv(s); }
    case Release => ReleaseInv(s);
  }

  /** The invariant holds after every run, from any initial contents of the data area. */
  lemma {:induction false} RunInv(cap: Capacity, data: seq<Byte>, acts: seq<Action>)
    requires |data| == cap + SPILL
    ensures Inv(Run(Ideal, Init(cap, data), acts))
    decreases |acts|
  {
    if acts == [] {
      InitInv(cap, data);
    } else {
      RunInv(cap, data, acts[..|acts| - 1]);
      StepInv(Run(Ideal, Init(cap, data), acts[..|acts| - 1]), acts[|acts| - 1]);
    }
  }
}
