/** lumbre_ringbuf.c as a class over shared memory, proved against the transition system. */
module RingBuffers {
  import opened Bits
  import opened Bytes
  import opened Ring
  import opened RingRuns

  /** The positions in the shared header, 64-bit words. */
  class Header {
    var writePos: nat
    var readPos: nat
    var dropped: nat

    constructor ()
      ensures writePos == readPos == dropped == 0
    {
      writePos, readPos, dropped := 0, 0, 0;
    }
  }

  /** What a write does to the data area and the producer's position. */
  datatype Effect = Effect(data: seq<Byte>, local: nat, rc: int)

  function EffectOf(v: Verdict, cap: Capacity, data: seq<Byte>, local: nat, m: seq<Byte>): Effect
    requires |data| == cap + SPILL && Placeable(v, cap, |m|)
  {
    match v
    case Refuse => Effect(data, local, -1)
    case Accept(offset, pad) => Effect(Written(data, offset, pad, m), Advanced(Word, local, pad, |m|), 0)
  }

  function WriteEffect(cap: Capacity, data: seq<Byte>, local: nat, snap: nat, m: seq<Byte>): Effect
    requires |data| == cap + SPILL
  {
    WriteStaysInside(cap, local, snap, |m|);
    EffectOf(WriteVerdict(Word, cap, local, snap, |m|), cap, data, local, m)
  }

  predicate Placeable(v: Verdict, cap: Capacity, len: nat) {
    v.Accept? ==> 4 + len <= cap && v.offset < cap && (v.pad == 0 ==> v.offset + 4 + len <= cap)
  }

  /** Whatever position the load returned, an accepted write stays inside the data area. */
  lemma WriteStaysInside(cap: Capacity, local: nat, snap: nat, len: nat)
    ensures Placeable(WriteVerdict(Word, cap, local, snap, len), cap, len)
  {
    if !TooLong(Word, cap, len) {
      FitStaysInside(cap, N64(Word, local - snap), Offset(cap, local), len);
    }
  }

  lemma FitStaysInside(cap: Capacity, used: int, offset: nat, len: nat)
    requires 4 + len <= cap && offset < cap
    ensures Placeable(Fit(Word, cap, used, offset, len), cap, len)
  {
  }

  class RingBuffer {
    const header: Header
    const data: array<Byte>
    const capacity: Capacity
    const mask: nat
    var local: nat

    ghost predicate Valid()
      reads this, header
    {
      && data.Length == capacity + SPILL
      && mask == capacity - 1
      && local < U64
      && header.writePos < U64 && header.dropped < U64
    }

    /** lumbre_ringbuf_init from the rounding on, given a mapped and zeroed file: the requested
        capacity is rounded up to a power of two, all positions are 0. */
    constructor (requested: nat)
      requires 3 <= requested <= TOP_POWER
      ensures Valid() && fresh(header) && fresh(data)
      ensures LeastPowerOfTwoAtLeast(capacity, requested)
      ensures local == header.writePos == header.readPos == header.dropped == 0
      ensures forall i :: 0 <= i < data.Length ==> data[i] == 0
    {
      var cap := NextPowerOfTwo(requested);
      RoundedIsCapacity(cap, requested);
      header := new Header();
      data := new Byte[cap + SPILL](_ => 0);
      capacity := cap;
      mask := cap - 1;
      local := 0;
    }

    /** memcpy into the data area. */
    method Copy(at: nat, bs: seq<Byte>)
      requires at + |bs| <= data.Length
      modifies data
      ensures data[..] == Splice(old(data[..]), at, bs)
    {
      for i := 0 to |bs|
        invariant data[..] == Splice(old(data[..]), at, bs[..i])
      {
        SpliceGrows(old(data[..]), at, bs, i);
        data[at + i] := bs[i];
      }
      assert bs[..|bs|] == bs;
    }

    /** Count a drop. */
    method Drop() returns (rc: int)
      requires Valid()
      modifies header
      ensures Valid() && rc == -1
      ensures header.readPos == old(header.readPos) && header.writePos == old(header.writePos)
      ensures header.dropped == (old(header.dropped) + 1) % U64
    {
      header.dropped := (header.dropped + 1) % U64;
      rc := -1;
    }

    /** Length prefix, then payload. */
    method PutFrame(offset: nat, payload: seq<Byte>)
      requires |payload| < U32 && offset + 4 + |payload| <= data.Length
      modifies data
      ensures data[..] == Splice(old(data[..]), offset, Frame(payload))
    {
      ghost var before := data[..];
      Copy(offset, LengthBytes(|payload|));
      if |payload| > 0 {
        Copy(offset + 4, payload);
      }
      SpliceTwice(before, offset, LengthBytes(|payload|), payload);
    }

    /** Place the padding marker and move past the padding. */
    method Pad(offset: nat, padBytes: nat)
      requires Valid() && offset < capacity
      modifies this, data
      ensures Valid() && data[..] == Splice(old(data[..]), offset, MARKER)
      ensures local == N64(Word, old(local) + padBytes)
    {
      Copy(offset, MARKER);
      local := N64(Word, local + padBytes);
    }

    /** Place the message, move past it and publish. */
    method Emit(offset: nat, payload: seq<Byte>)
      requires Valid() && offset + 4 + |payload| <= capacity
      modifies this, header, data
      ensures Valid() && header.readPos == old(header.readPos) && header.dropped == old(header.dropped)
      ensures data[..] == Splice(old(data[..]), offset, Frame(payload))
      ensures header.writePos == local == N64(Word, old(local) + N32(Word, 4 + |payload|))
    {
      PutFrame(offset, payload);
      local := N64(Word, local + N32(Word, 4 + |payload|));
      header.writePos := local;
    }

    /** The space and wrap checks, for `used` bytes behind the write position at `offset`. */
    method CheckSpace(len: nat, used: nat, offset: nat) returns (v: Verdict)
      requires offset < capacity
      ensures v == Fit(Word, capacity, used, offset, len)
    {
      var needed := N32(Word, 4 + len);
      if N64(Word, used + needed) > capacity {
        return Refuse;
      }
      if N32(Word, offset + needed) > capacity {
        var padBytes := N32(Word, capacity - offset);
        if N64(Word, N64(Word, used + padBytes) + needed) > capacity {
          return Refuse;
        }
        return Accept(offset, padBytes);
      }
      return Accept(offset, 0);
    }

    /** The checks of lumbre_ringbuf_write, in its 32- and 64-bit arithmetic; nothing is written. */
    method Choose(len: nat, readPos: nat) returns (v: Verdict)
      requires Valid() && len < U32
      ensures v == WriteVerdict(Word, capacity, local, readPos, len)
    {
      if len > N32(Word, capacity - 4) {
        return Refuse;
      }
      v := CheckSpace(len, N64(Word, local - readPos), And(local, mask));
    }

    /** Pad up to the ring's end if need be; where the message goes. */
    method PadFor(offset: nat, padBytes: nat) returns (at: nat)
      requires Valid() && offset < capacity
      modifies this, data
      ensures Valid() && at == if padBytes > 0 then 0 else offset
      ensures data[..] == if padBytes > 0 then Splice(old(data[..]), offset, MARKER) else old(data[..])
      ensures local == N64(Word, old(local) + padBytes)
    {
      at := offset;
      if padBytes > 0 {
        Pad(offset, padBytes);
        at := 0;
      }
    }

    /** Padding if need be, then the message. */
    method Place(offset: nat, padBytes: nat, payload: seq<Byte>)
      requires Valid() && |payload| < U32 && Placeable(Accept(offset, padBytes), capacity, |payload|)
      modifies this, header, data
      ensures Valid() && header.readPos == old(header.readPos) && header.dropped == old(header.dropped)
      ensures data[..] == Written(old(data[..]), offset, padBytes, payload)
      ensures header.writePos == local == Advanced(Word, old(local), padBytes, |payload|)
    {
      var at := PadFor(offset, padBytes);
      Emit(at, payload);
    }

    /** Carry out a verdict. */
    method Apply(v: Verdict, payload: seq<Byte>) returns (rc: int)
      requires Valid() && |payload| < U32 && Placeable(v, capacity, |payload|)
      modifies this, header, data
      ensures Valid() && header.readPos == old(header.readPos)
      ensures Effect(data[..], local, rc) == EffectOf(v, capacity, old(data[..]), old(local), payload)
      ensures rc == 0 ==> header.writePos == local && header.dropped == old(header.dropped)
      ensures rc != 0 ==>
        header.writePos == old(header.writePos) && header.dropped == (old(header.dropped) + 1) % U64
    {
      if v.Refuse? {
        rc := Drop();
        return;
      }
      Place(v.offset, v.pad, payload);
      rc := 0;
    }

    /** lumbre_ringbuf_write. `readPos` is what the relaxed load of read_pos returns: any word, since
        the value may be stale. */
    method Write(payload: seq<Byte>, readPos: nat) returns (rc: int)
      requires Valid() && |payload| < U32
      modifies this, header, data
      ensures Valid() && header.readPos == old(header.readPos)
      ensures Effect(data[..], local, rc) == WriteEffect(capacity, old(data[..]), old(local), readPos, payload)
      ensures rc == 0 ==> header.writePos == local && header.dropped == old(header.dropped)
      ensures rc != 0 ==>
        header.writePos == old(header.writePos) && header.dropped == (old(header.dropped) + 1) % U64
    {
      WriteStaysInside(capacity, local, readPos, |payload|);
      var v := Choose(|payload|, readPos);
      rc := Apply(v, payload);
    }

    /** lumbre_ringbuf_reset. The contents of the data area stay. */
    method Reset()
      requires Valid()
      modifies this, header
      ensures Valid()
      ensures local == header.writePos == header.readPos == header.dropped == 0
    {
      header.writePos, header.readPos, header.dropped := 0, 0, 0;
      local := 0;
    }
  }

  lemma RoundedIsCapacity(cap: nat, requested: nat)
    requires 3 <= requested <= TOP_POWER && LeastPowerOfTwoAtLeast(cap, requested)
    ensures 4 <= cap <= TOP_POWER && IsCapacity(cap)
  {
    Pow2Values();
    var k: nat :| cap == Pow2(k);
    assert cap <= Pow2(31);
    ExponentOf(k);
  }

  lemma ExponentOf(k: nat)
    requires 3 <= Pow2(k) <= TOP_POWER
    ensures 2 <= k <= 31
  {
    Pow2Values();
    Pow2Order(k, 1);
    Pow2Order(32, k);
    assert Pow2(1) == 2;
  }

  lemma {:induction false} SpliceTwice(data: seq<Byte>, at: nat, a: seq<Byte>, b: seq<Byte>)
    requires at + |a| + |b| <= |data|
    ensures Splice(Splice(data, at, a), at + |a|, b) == Splice(data, at, a + b)
  {
    if b == [] {
      assert a + b == a;
    } else {
      SpliceTwice(data, at, a, b[..|b| - 1]);
      assert (a + b)[..|a + b| - 1] == a + b[..|b| - 1];
    }
  }

  // ------------------------------------------------------------------ the class and the machine

  /** The machine's state after a call with effect `e`. */
  function AfterCall(s: Ring, m: seq<Byte>, i: nat, e: Effect): Ring {
    if e.rc == 0 then
      s.(data := e.data, local := e.local, seen := i, published := s.published + [e.local],
         accepted := s.accepted + [m])
    else
      s.(seen := if TooLong(Word, s.cap, |m|) then s.seen else i,
         dropped := (s.dropped + 1) % U64, refused := s.refused + [m])
  }

  /** One call of `Write`, on the values a ring's shared memory holds, leaves exactly the values that
      the steps of a call leave in the transition system: the method refines the machine. */
  lemma WriteRefines(s: Ring, m: seq<Byte>, i: nat)
    requires s.producer.Idle? && |m| < U32 && s.seen <= i < |s.freed|
    requires |s.data| == s.cap + SPILL
    ensures Run(Word, s, WriteActs(m, i))
         == AfterCall(s, m, i, WriteEffect(s.cap, s.data, s.local, s.freed[i], m))
  {
    WriteIsRun(Word, s, m, i);
    WriteStaysInside(s.cap, s.local, s.freed[i], |m|);
    AloneEffect(s, m, i, WriteVerdict(Word, s.cap, s.local, s.freed[i], |m|));
  }

  lemma AloneEffect(s: Ring, m: seq<Byte>, i: nat, v: Verdict)
    requires s.producer.Idle? && i < |s.freed| && |s.data| == s.cap + SPILL
    requires v == WriteVerdict(Word, s.cap, s.local, s.freed[i], |m|) && Placeable(v, s.cap, |m|)
    ensures WriteAlone(Word, s, m, i) == AfterCall(s, m, i, EffectOf(v, s.cap, s.data, s.local, m))
  {
    if v.Accept? {
      AllStoresWritten(s.data, v.offset, v.pad, m);
    }
  }
}
