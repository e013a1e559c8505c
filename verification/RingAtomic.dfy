/** A write is atomic: however its loads and stores interleave with the consumer's steps, it leaves what
    one uninterrupted call leaves that loads the same value of read_pos. */
module RingAtomic {
  import opened Bits
  import opened Bytes
  import opened Ring
  import opened RingTheorems
  import opened RingRuns
  import opened RingBuffers

  /** What the producer owns or publishes of a ring. */
  datatype RingState = RingState(data: seq<Byte>, local: nat, writePos: nat, dropped: nat)

  ghost function StateOf(rb: RingBuffer): RingState
    reads rb, rb.header, rb.data
  {
    RingState(rb.data[..], rb.local, rb.header.writePos, rb.header.dropped)
  }

  function AfterWrite(q: RingState, e: Effect): RingState {
    if e.rc == 0 then RingState(e.data, e.local, e.local, q.dropped)
    else RingState(e.data, e.local, q.writePos, (q.dropped + 1) % U64)
  }

  /** `q` is the ring's memory, and no write is in progress. */
  predicate Pictures(q: RingState, r: Ring) {
    && r.producer.Idle? && |r.data| == r.cap + SPILL
    && q.data == r.data && q.local == r.local && Untouched(q, r)
  }

  predicate Untouched(q: RingState, r: Ring) {
    q.writePos == Last(r.published) && q.dropped == r.dropped
  }

  // ------------------------------------------------------------------ the consumer between writes

  lemma {:induction false} PicturesKept(q: RingState, r: Ring, acts: seq<Action>)
    requires Pictures(q, r) && r.seen < |r.freed| && forall a :: a in acts ==> !a.Call?
    ensures var r' := Run(Word, r, acts);
      Pictures(q, r') && r'.cap == r.cap && r'.accepted == r.accepted && r'.seen < |r'.freed|
    decreases |acts|
  {
    if acts != [] {
      PicturesKept(q, r, acts[..|acts| - 1]);
      StepPictures(q, Run(Word, r, acts[..|acts| - 1]), acts[|acts| - 1]);
    }
  }

  lemma StepPictures(q: RingState, r: Ring, a: Action)
    requires Pictures(q, r) && r.seen < |r.freed| && !a.Call?
    ensures var r' := Step(Word, r, a);
      Pictures(q, r') && r'.cap == r.cap && r'.accepted == r.accepted && r'.seen < |r'.freed|
  {
  }

  // ------------------------------------------------------------------ a write in progress

  /** The effect of an uninterrupted call on the memory `q` that loads what the producer of `r` loaded. */
  function EffectAt(q: RingState, m: seq<Byte>, r: Ring): Effect
    requires |q.data| == r.cap + SPILL && r.seen < |r.freed|
  {
    WriteEffect(r.cap, q.data, q.local, r.freed[r.seen], m)
  }

  /** From its entry, with the memory `q` and the payloads `acc` accepted, a write of `m` has come to `r`. */
  ghost predicate Underway(q: RingState, acc: seq<seq<Byte>>, m: seq<Byte>, r: Ring) {
    && |r.data| == |q.data| == r.cap + SPILL && r.seen < |r.freed|
    && if r.producer.Idle? then Over(q, acc, m, r)
       else r.producer.m == m && r.accepted == acc && Untouched(q, r) && !TooLong(Word, r.cap, |m|) && Midway(q, r)
  }

  ghost predicate Over(q: RingState, acc: seq<seq<Byte>>, m: seq<Byte>, r: Ring)
    requires |q.data| == r.cap + SPILL && r.seen < |r.freed|
  {
    var e := EffectAt(q, m, r);
    && Pictures(AfterWrite(q, e), r)
    && r.accepted == if e.rc == 0 then acc + [m] else acc
  }

  ghost predicate Midway(q: RingState, r: Ring)
    requires !r.producer.Idle? && r.seen < |r.freed|
  {
    var m := r.producer.m;
    var v := Decide(Word, r.cap, q.local, r.freed[r.seen], |m|);
    match r.producer
    case Called(_) => r.data == q.data && r.local == q.local
    case Loaded(_, snap) => r.data == q.data && r.local == q.local && snap == r.freed[r.seen]
    case Storing(_, offset, pad, done) =>
      && v == Accept(offset, pad) && done <= StoreCount(pad, m)
      && r.data == StoreMany(q.data, offset, pad, m, done) && r.local == q.local
    case Stored(_) =>
      && v.Accept? && r.data == StoreMany(q.data, v.offset, v.pad, m, StoreCount(v.pad, m))
      && r.local == Advanced(Word, q.local, v.pad, |m|)
  }

  lemma CallUnderway(q: RingState, r: Ring, m: seq<Byte>)
    requires Pictures(q, r) && r.seen < |r.freed| && |m| < U32
    ensures Underway(q, r.accepted, m, Step(Word, r, Call(m)))
  {
  }

  lemma CheckUnderway(q: RingState, acc: seq<seq<Byte>>, m: seq<Byte>, r: Ring)
    requires Underway(q, acc, m, r)
    ensures Underway(q, acc, m, CheckStep(Word, r))
  {
  }

  lemma StoreUnderway(q: RingState, acc: seq<seq<Byte>>, m: seq<Byte>, r: Ring)
    requires Underway(q, acc, m, r)
    ensures Underway(q, acc, m, StoreStep(r))
  {
  }

  lemma PublishUnderway(q: RingState, acc: seq<seq<Byte>>, m: seq<Byte>, r: Ring)
    requires Underway(q, acc, m, r)
    ensures Underway(q, acc, m, PublishStep(r))
  {
    if r.producer.Stored? {
      var v := Decide(Word, r.cap, q.local, r.freed[r.seen], |m|);
      WriteStaysInside(r.cap, q.local, r.freed[r.seen], |m|);
      AllStoresWritten(q.data, v.offset, v.pad, m);
    }
  }

  /** To the producer it is the same ring, but for newer values of read_pos. */
  predicate SameForProducer(r: Ring, r': Ring) {
    && r'.cap == r.cap && r'.data == r.data && r'.local == r.local && r'.published == r.published
    && r'.dropped == r.dropped && r'.seen == r.seen && r'.producer == r.producer && r'.accepted == r.accepted
    && r.freed <= r'.freed
  }

  lemma ConsumerSpares(r: Ring, a: Action)
    requires a.LoadWrite? || a.Consume? || a.Release?
    ensures SameForProducer(r, Step(Word, r, a))
  {
  }

  lemma ConsumerUnderway(q: RingState, acc: seq<seq<Byte>>, m: seq<Byte>, r: Ring, r': Ring)
    requires Underway(q, acc, m, r) && SameForProducer(r, r')
    ensures Underway(q, acc, m, r')
  {
  }

  lemma StepUnderway(q: RingState, acc: seq<seq<Byte>>, m: seq<Byte>, r: Ring, a: Action)
    requires Underway(q, acc, m, r) && !a.Call?
    ensures Underway(q, acc, m, Step(Word, r, a))
  {
    match a
    case LoadRead(i) =>
    case Check => CheckUnderway(q, acc, m, r);
    case StoreByte => StoreUnderway(q, acc, m, r);
    case MoveLocal =>
    case Publish => PublishUnderway(q, acc, m, r);
    case _ =>
      ConsumerSpares(r, a);
      ConsumerUnderway(q, acc, m, r, Step(Word, r, a));
  }

  lemma {:induction false} RunUnderway(q: RingState, acc: seq<seq<Byte>>, m: seq<Byte>, r: Ring, acts: seq<Action>)
    requires Underway(q, acc, m, r) && forall a :: a in acts ==> !a.Call?
    ensures Underway(q, acc, m, Run(Word, r, acts))
    decreases |acts|
  {
    if acts != [] {
      RunUnderway(q, acc, m, r, acts[..|acts| - 1]);
      StepUnderway(q, acc, m, Run(Word, r, acts[..|acts| - 1]), acts[|acts| - 1]);
    }
  }

  /** Enter a write of `m` at a ring whose memory is `q`, and let producer and consumer take any steps,
      in any order, until the write is over: the memory is that after one uninterrupted call that loads
      the value which the producer loaded, and the payload is accepted just if that call returns 0. */
  lemma WriteAtomic(q: RingState, r: Ring, m: seq<Byte>, acts: seq<Action>)
    requires Pictures(q, r) && r.seen < |r.freed| && |m| < U32
    requires forall a :: a in acts ==> !a.Call?
    requires Run(Word, r, [Call(m)] + acts).producer.Idle?
    ensures var r' := Run(Word, r, [Call(m)] + acts);
      && |q.data| == r'.cap + SPILL && r'.seen < |r'.freed|
      && Over(q, r.accepted, m, r')
  {
    RunAppend(Word, r, [Call(m)], acts);
    RunOne(Word, r, Call(m));
    CallUnderway(q, r, m);
    RunUnderway(q, r.accepted, m, Step(Word, r, Call(m)), acts);
  }
}
