/** Whole calls and whole messages as runs: what a write does, when it is accepted, and that a
    consumer that keeps going takes everything. */
module RingRuns {
  import opened Bits
  import opened Bytes
  import opened Ring
  import opened RingSafety
  import opened RingWord
  import opened RingTheorems

  function Repeat(a: Action, n: nat): (acts: seq<Action>)
    ensures |acts| == n
  {
    if n == 0 then [] else Repeat(a, n - 1) + [a]
  }

  lemma RunOne(w: Width, s: Ring, a: Action)
    ensures Run(w, s, [a]) == Step(w, s, a)
  {
    var acts := [a];
    assert acts[..0] == [];
    assert Run(w, s, acts) == Step(w, Run(w, s, acts[..0]), a);
  }

  // ------------------------------------------------------------------ one write, alone

  /** The outcome of lumbre_ringbuf_write on given positions. */
  function WriteVerdict(w: Width, cap: Capacity, local: nat, snap: nat, len: nat): Verdict {
    if TooLong(w, cap, len) then Refuse else Decide(w, cap, local, snap, len)
  }

  /** memcpy of `bs` to address `at`, byte by byte. */
  function Splice(data: seq<Byte>, at: nat, bs: seq<Byte>): (d: seq<Byte>)
    requires at + |bs| <= |data|
    ensures |d| == |data|
  {
    if bs == [] then data
    else Splice(data, at, bs[..|bs| - 1])[at + |bs| - 1 := bs[|bs| - 1]]
  }

  /** The data area after a write: marker first if it pads, then the frame. */
  function Written(data: seq<Byte>, offset: nat, pad: nat, m: seq<Byte>): seq<Byte>
    requires offset + (if pad > 0 then 4 else |Frame(m)|) <= |data| && |Frame(m)| <= |data|
  {
    if pad > 0 then Splice(Splice(data, offset, MARKER), 0, Frame(m)) else Splice(data, offset, Frame(m))
  }

  /** The data area after the first `n` stores of a write. */
  function StoreMany(data: seq<Byte>, offset: nat, pad: nat, m: seq<Byte>, n: nat): (d: seq<Byte>)
    requires n <= StoreCount(pad, m)
    ensures |d| == |data|
  {
    if n == 0 then data
    else Put(StoreMany(data, offset, pad, m, n - 1), NthStore(offset, pad, m, n - 1))
  }

  lemma SpliceGrows(data: seq<Byte>, at: nat, bs: seq<Byte>, n: nat)
    requires n < |bs| && at + |bs| <= |data|
    ensures Put(Splice(data, at, bs[..n]), Store(at + n, bs[n])) == Splice(data, at, bs[..n + 1])
  {
    assert bs[..n + 1][..n] == bs[..n];
  }

  lemma {:induction false} StoresAreSplice(data: seq<Byte>, offset: nat, m: seq<Byte>, n: nat)
    requires offset + |Frame(m)| <= |data| && n <= |Frame(m)|
    ensures StoreMany(data, offset, 0, m, n) == Splice(data, offset, Frame(m)[..n])
  {
    if n > 0 {
      StoresAreSplice(data, offset, m, n - 1);
      SpliceGrows(data, offset, Frame(m), n - 1);
    }
  }

  lemma {:induction false} PaddedStoresAreSplice(data: seq<Byte>, offset: nat, pad: nat, m: seq<Byte>, n: nat)
    requires pad > 0 && offset + 4 <= |data| && |Frame(m)| <= |data| && n <= StoreCount(pad, m)
    ensures StoreMany(data, offset, pad, m, n)
         == if n <= 4 then Splice(data, offset, MARKER[..n])
            else Splice(Splice(data, offset, MARKER), 0, Frame(m)[..n - 4])
  {
    if n > 0 {
      PaddedStoresAreSplice(data, offset, pad, m, n - 1);
      if n <= 4 {
        SpliceGrows(data, offset, MARKER, n - 1);
      } else {
        if n == 5 {
          assert MARKER[..4] == MARKER;
          assert Splice(Splice(data, offset, MARKER), 0, Frame(m)[..0]) == Splice(data, offset, MARKER);
        }
        SpliceGrows(Splice(data, offset, MARKER), 0, Frame(m), n - 5);
      }
    }
  }

  lemma AllStoresWritten(data: seq<Byte>, offset: nat, pad: nat, m: seq<Byte>)
    requires offset + (if pad > 0 then 4 else |Frame(m)|) <= |data| && |Frame(m)| <= |data|
    ensures StoreMany(data, offset, pad, m, StoreCount(pad, m)) == Written(data, offset, pad, m)
  {
    assert Frame(m)[..|Frame(m)|] == Frame(m);
    if pad > 0 {
      PaddedStoresAreSplice(data, offset, pad, m, StoreCount(pad, m));
    } else {
      StoresAreSplice(data, offset, m, StoreCount(pad, m));
    }
  }

  /** The state `s`, writing, with `n` bytes of the write stored over the data area `d0`. */
  function StoredTo(s: Ring, d0: seq<Byte>, n: nat): Ring
    requires s.producer.Storing? && n <= StoreCount(s.producer.pad, s.producer.m)
  {
    s.(data := StoreMany(d0, s.producer.offset, s.producer.pad, s.producer.m, n),
       producer := s.producer.(done := n))
  }

  function Capped(n: nat, count: nat): (r: nat)
    ensures r <= count
  {
    if n <= count then n else count
  }

  /** Repeating an action walks along any sequence of states it steps through. */
  lemma {:induction false} RunRepeat(w: Width, a: Action, n: nat, f: nat -> Ring)
    requires forall i: nat :: Step(w, f(i), a) == f(i + 1)
    ensures Run(w, f(0), Repeat(a, n)) == f(n)
  {
    if n > 0 {
      RunRepeat(w, a, n - 1, f);
      RunSnoc(w, f(0), a, n);
    }
  }

  /** Store steps store the bytes still missing; further ones do nothing. */
  lemma RunStores(w: Width, s: Ring, d0: seq<Byte>, n: nat)
    requires s.producer.Storing?
    ensures Run(w, StoredTo(s, d0, 0), Repeat(StoreByte, n))
         == StoredTo(s, d0, Capped(n, StoreCount(s.producer.pad, s.producer.m)))
  {
    var count := StoreCount(s.producer.pad, s.producer.m);
    var f := (i: nat) => StoredTo(s, d0, Capped(i, count));
    forall i: nat ensures Step(w, f(i), StoreByte) == f(i + 1) {
      StoreOnce(s, d0, Capped(i, count));
    }
    RunRepeat(w, StoreByte, n, f);
  }

  lemma StoreOnce(s: Ring, d0: seq<Byte>, k: nat)
    requires s.producer.Storing? && k <= StoreCount(s.producer.pad, s.producer.m)
    ensures StoreStep(StoredTo(s, d0, k))
         == StoredTo(s, d0, if k < StoreCount(s.producer.pad, s.producer.m) then k + 1 else k)
  {
  }

  lemma RunSnoc(w: Width, s: Ring, a: Action, n: nat)
    requires n > 0
    ensures Run(w, s, Repeat(a, n)) == Step(w, Run(w, s, Repeat(a, n - 1)), a)
  {
    var acts := Repeat(a, n);
    assert acts[..|acts| - 1] == Repeat(a, n - 1);
  }

  function Finish(m: seq<Byte>): seq<Action> {
    Repeat(StoreByte, 8 + |m|) + [MoveLocal] + [Publish]
  }

  /** The state after the write that `s` is in the middle of, over the data area `d0`. */
  function Completed(w: Width, s: Ring, d0: seq<Byte>): Ring
    requires s.producer.Storing?
  {
    var p := s.producer;
    var local := Advanced(w, s.local, p.pad, |p.m|);
    s.(data := StoreMany(d0, p.offset, p.pad, p.m, StoreCount(p.pad, p.m)), local := local,
       published := s.published + [local], accepted := s.accepted + [p.m], producer := Idle)
  }

  lemma RunFinish(w: Width, s: Ring, d0: seq<Byte>)
    requires s.producer.Storing? && s.producer.done == 0 && s.data == d0
    ensures Run(w, s, Finish(s.producer.m)) == Completed(w, s, d0)
  {
    var m := s.producer.m;
    var stores := Repeat(StoreByte, 8 + |m|);
    assert s == StoredTo(s, d0, 0);
    RunStores(w, s, d0, 8 + |m|);
    RunAppend(w, s, stores, [MoveLocal]);
    RunOne(w, Run(w, s, stores), MoveLocal);
    RunAppend(w, s, stores + [MoveLocal], [Publish]);
    RunOne(w, Run(w, s, stores + [MoveLocal]), Publish);
  }

  lemma {:induction false} RunIdle(w: Width, s: Ring, n: nat)
    requires !s.producer.Storing?
    ensures Run(w, s, Repeat(StoreByte, n)) == s
  {
    if n > 0 {
      RunIdle(w, s, n - 1);
      var acts := Repeat(StoreByte, n);
      assert acts[..|acts| - 1] == Repeat(StoreByte, n - 1);
    }
  }

  lemma RunFinishIdle(w: Width, s: Ring, m: seq<Byte>)
    requires s.producer.Idle?
    ensures Run(w, s, Finish(m)) == s
  {
    var stores := Repeat(StoreByte, 8 + |m|);
    RunIdle(w, s, 8 + |m|);
    RunAppend(w, s, stores, [MoveLocal]);
    RunOne(w, s, MoveLocal);
    RunAppend(w, s, stores + [MoveLocal], [Publish]);
    RunOne(w, s, Publish);
  }

  /** The steps of one call of lumbre_ringbuf_write whose load of read_pos yields the `i`-th value. */
  function WriteActs(m: seq<Byte>, i: nat): seq<Action> {
    [Call(m)] + [LoadRead(i)] + [Check] + Finish(m)
  }

  /** The state after that call, when nothing else moves. */
  function WriteAlone(w: Width, s: Ring, m: seq<Byte>, i: nat): Ring
    requires i < |s.freed|
  {
    if TooLong(w, s.cap, |m|) then Dropped(w, s, m)
    else match Decide(w, s.cap, s.local, s.freed[i], |m|)
      case Refuse => Dropped(w, s.(seen := i), m)
      case Accept(offset, pad) => Completed(w, s.(seen := i, producer := Storing(m, offset, pad, 0)), s.data)
  }

  /** The steps of a call add up to its whole effect. */
  lemma WriteIsRun(w: Width, s: Ring, m: seq<Byte>, i: nat)
    requires s.producer.Idle? && |m| < U32 && s.seen <= i < |s.freed|
    ensures Run(w, s, WriteActs(m, i)) == WriteAlone(w, s, m, i)
  {
    var s1 := Step(w, s, Call(m));
    RunOne(w, s, Call(m));
    var s2 := Step(w, s1, LoadRead(i));
    RunAppend(w, s, [Call(m)], [LoadRead(i)]);
    RunOne(w, s1, LoadRead(i));
    var s3 := Step(w, s2, Check);
    RunAppend(w, s, [Call(m)] + [LoadRead(i)], [Check]);
    RunOne(w, s2, Check);
    RunAppend(w, s, [Call(m)] + [LoadRead(i)] + [Check], Finish(m));
    if s3.producer.Idle? {
      RunFinishIdle(w, s3, m);
    } else {
      RunFinish(w, s3, s.data);
    }
  }

  // ------------------------------------------------------------------ progress

  /** When the producer's load shows the ring empty, a message is accepted exactly when it fits
      between the write offset and the ring's end, or between the ring's start and the offset. */
  lemma EmptyAccepts(cap: Capacity, local: nat, len: nat)
    requires 4 + len <= cap
    ensures WriteVerdict(Word, cap, local, local, len).Accept?
       <==> Offset(cap, local) + 4 + len <= cap || 4 + len <= Offset(cap, local)
  {
    FitWord(cap, 0, Offset(cap, local), len);
    FitSame(cap, 0, Offset(cap, local), len);
  }

  /** Hence every message of at most half the ring is accepted at every offset of an empty ring. */
  lemma HalfAlwaysAccepted(cap: Capacity, local: nat, len: nat)
    requires 2 * (4 + len) <= cap
    ensures WriteVerdict(Word, cap, local, local, len).Accept?
  {
    EmptyAccepts(cap, local, len);
  }

  // ------------------------------------------------------------------ the consumer takes everything

  /** Consumer steps left on the message it is on. */
  ghost function StepsLeft(c: Consumer, pad: nat, m: seq<Byte>): int {
    match c
    case Header(skip, got) =>
      (if skip == 0 && pad > 0 then 5 - |got| + 5 else 5 - |got|) + |m| + 1
    case Body(skip, len, got) => |m| - |got| + 1
  }

  ghost function Remaining(s: Ring): int
    requires Inv(s) && |s.taken| < s.fetched
  {
    var m := s.accepted[|s.taken|];
    StepsLeft(s.consumer, PadAt(s.cap, s.readPos, |m|), m)
  }

  /** A consumer step on a visible message brings it nearer, and the last one takes it. */
  lemma ConsumeProgress(s: Ring)
    requires Inv(s) && |s.taken| < s.fetched
    ensures Remaining(s) >= 1
    ensures var s' := Step(Ideal, s, Consume);
      && Inv(s') && s' == s.(readPos := s'.readPos, consumer := s'.consumer, taken := s'.taken)
      && if Remaining(s) == 1 then |s'.taken| == |s.taken| + 1
         else |s'.taken| == |s.taken| && Remaining(s') < Remaining(s)
  {
    StepInv(s, Consume);
    VisibleMeaning(s);
    var m := s.accepted[|s.taken|];
    if s.consumer.Header? {
      if |s.consumer.got| >= 4 {
        HeaderRead(s.cap, s.data, s.readPos, m, s.consumer);
      }
    }
  }

  /** The consumer has taken one more message, and nothing else has changed. */
  ghost predicate TookOne(s: Ring, s': Ring) {
    forall n: nat :: Open(n) ==>
      && Inv(s') && s'.consumer == Header(0, []) && |s'.taken| == |s.taken| + 1
      && s' == s.(readPos := s'.readPos, consumer := s'.consumer, taken := s'.taken)
  }

  /** Until the message is taken, the consumer needs at most `Remaining` more steps. */
  lemma TakeNext(s: Ring) returns (acts: seq<Action>)
    requires Inv(s) && |s.taken| < s.fetched
    ensures ConsumerOnly(acts) && TookOne(s, Run(Ideal, s, acts))
    decreases Remaining(s)
  {
    ConsumeProgress(s);
    var s1 := Step(Ideal, s, Consume);
    if Remaining(s) > 1 {
      var rest := TakeNext(s1);
      RunFirst(Ideal, s, Consume, rest);
      TookLater(s, s1, Run(Ideal, s1, rest));
      acts := [Consume] + rest;
    } else {
      RunOne(Ideal, s, Consume);
      TookNow(s);
      acts := [Consume];
    }
  }

  lemma TookNow(s: Ring)
    requires Inv(s) && |s.taken| < s.fetched && Remaining(s) <= 1
    ensures TookOne(s, Step(Ideal, s, Consume))
  {
    ConsumeProgress(s);
    TakeEnds(s);
    TookThis(s, Step(Ideal, s, Consume));
  }

  lemma TakeEnds(s: Ring)
    ensures |Step(Ideal, s, Consume).taken| > |s.taken| ==> Step(Ideal, s, Consume).consumer == Header(0, [])
  {
  }

  lemma TookThis(s: Ring, s': Ring)
    requires Inv(s') && s'.consumer == Header(0, []) && |s'.taken| == |s.taken| + 1
    requires s' == s.(readPos := s'.readPos, consumer := s'.consumer, taken := s'.taken)
    ensures TookOne(s, s')
  {
  }

  lemma TookLater(s: Ring, s1: Ring, s2: Ring)
    requires s1 == s.(readPos := s1.readPos, consumer := s1.consumer, taken := s1.taken)
    requires |s1.taken| == |s.taken| && TookOne(s1, s2)
    ensures TookOne(s, s2)
  {
    assert Open(0);
    OnlyTook(s, s1, s2);
  }

  lemma RunFirst(w: Width, s: Ring, a: Action, rest: seq<Action>)
    ensures Run(w, s, [a] + rest) == Run(w, Step(w, s, a), rest)
  {
    RunOne(w, s, a);
    RunAppend(w, s, [a], rest);
  }

  lemma OnlyTook(s: Ring, s1: Ring, s2: Ring)
    requires s1 == s.(readPos := s1.readPos, consumer := s1.consumer, taken := s1.taken)
    requires s2 == s1.(readPos := s2.readPos, consumer := s2.consumer, taken := s2.taken)
    ensures s2 == s.(readPos := s2.readPos, consumer := s2.consumer, taken := s2.taken)
  {
  }

  ghost predicate ConsumerOnly(acts: seq<Action>) {
    forall a :: a in acts ==> a.Consume? || a.LoadWrite? || a.Release?
  }

  lemma TakeAll(s: Ring) returns (acts: seq<Action>)
    requires Inv(s) && (|s.taken| == s.fetched ==> s.consumer == Header(0, []))
    ensures ConsumerOnly(acts)
    ensures var s' := Run(Ideal, s, acts);
      && Inv(s') && s'.consumer == Header(0, []) && |s'.taken| == s.fetched
      && s' == s.(readPos := s'.readPos, consumer := s'.consumer, taken := s'.taken)
    decreases s.fetched - |s.taken|
  {
    acts := [];
    if |s.taken| < s.fetched {
      var first := TakeNext(s);
      assert Open(0);
      var rest := TakeAll(Run(Ideal, s, first));
      RunAppend(Ideal, s, first, rest);
      acts := first + rest;
    }
  }

  /** From every reachable state, whatever the producer is in the middle of, the consumer alone can
      take every accepted message and release all of the ring in use. */
  lemma Drain(s: Ring) returns (acts: seq<Action>)
    requires Inv(s)
    ensures ConsumerOnly(acts)
    ensures var s' := Run(Ideal, s, acts);
      && Inv(s') && s'.taken == s.accepted && Last(s'.freed) == Last(s.published)
      && s'.accepted == s.accepted && s'.refused == s.refused
      && s'.published == s.published && s'.local == s.local && s'.producer == s.producer
  {
    FetchAll(s);
    var takes, s' := DrainFetched(s, s.(fetched := |s.accepted|));
    RunBetween(Ideal, s, LoadWrite(|s.accepted|), takes, Release);
    acts := [LoadWrite(|s.accepted|)] + takes + [Release];
  }

  lemma DrainFetched(s: Ring, s1: Ring) returns (takes: seq<Action>, s': Ring)
    requires s1 == s.(fetched := |s.accepted|) && Inv(s1)
    requires |s1.taken| == |s1.accepted| ==> s1.consumer == Header(0, [])
    ensures ConsumerOnly(takes) && s' == Step(Ideal, Run(Ideal, s1, takes), Release)
    ensures Inv(s') && s'.taken == s.accepted && Last(s'.freed) == Last(s.published)
    ensures s'.accepted == s.accepted && s'.refused == s.refused
    ensures s'.published == s.published && s'.local == s.local && s'.producer == s.producer
  {
    takes := TakeAll(s1);
    var s2 := Run(Ideal, s1, takes);
    AllTaken(s, s1, s2);
    ReleaseAll(s2);
    s' := Step(Ideal, s2, Release);
  }

  lemma AllTaken(s: Ring, s1: Ring, s2: Ring)
    requires s1 == s.(fetched := |s.accepted|) && |s2.taken| == s1.fetched
    requires s2 == s1.(readPos := s2.readPos, consumer := s2.consumer, taken := s2.taken)
    ensures |s2.taken| == |s2.accepted| && s2.accepted == s.accepted && s2.refused == s.refused
    ensures s2.published == s.published && s2.local == s.local && s2.producer == s.producer
  {
  }

  lemma RunBetween(w: Width, s: Ring, first: Action, acts: seq<Action>, last: Action)
    ensures Run(w, s, [first] + acts + [last]) == Step(w, Run(w, Step(w, s, first), acts), last)
  {
    RunOne(w, s, first);
    RunAppend(w, s, [first], acts);
    RunAppend(w, s, [first] + acts, [last]);
    RunOne(w, Run(w, s, [first] + acts), last);
  }

  lemma FetchAll(s: Ring)
    requires Inv(s)
    ensures Step(Ideal, s, LoadWrite(|s.accepted|)) == s.(fetched := |s.accepted|)
    ensures Inv(s.(fetched := |s.accepted|))
    ensures |s.taken| == |s.accepted| ==> s.consumer == Header(0, [])
  {
    LoadWriteInv(s, |s.accepted|);
  }

  lemma ReleaseAll(s: Ring)
    requires Inv(s) && s.consumer == Header(0, []) && |s.taken| == |s.accepted|
    ensures var s' := Step(Ideal, s, Release);
      && Inv(s') && s' == s.(freed := s'.freed, released := s'.released)
      && Last(s'.freed) == Last(s.published) && s.taken == s.accepted
  {
    ReleaseInv(s);
  }

  /** The bound of half the ring is tight: in every ring of at least 8 bytes some empty state is
      reachable in which a message one byte longer is refused. */
  lemma HalfPlusOneRefused(cap: Capacity, m: seq<Byte>)
    requires cap >= 8 && |m| == cap / 2 - 3
    ensures exists t: Ring ::
      && Reachable(Word, cap, t) && t.producer.Idle?
      && Last(t.freed) == Last(t.published) == t.local
      && WriteVerdict(Word, cap, t.local, Last(t.freed), |m|) == Refuse
  {
    var half := HalfOf(cap);
    var t := EmptyWordAtHalf(cap, half);
    HalfRefuses(cap, half, |m|);
  }

  lemma EmptyWordAtHalf(cap: Capacity, half: nat) returns (t: Ring)
    requires cap >= 8 && cap == 2 * half
    ensures Reachable(Word, cap, t) && t.producer.Idle?
    ensures Last(t.freed) == Last(t.published) == t.local == half
  {
    var data, s, acts := EmptyAtHalf(cap, half);
    RunWord(cap, data, acts);
    t := Run(Word, Init(cap, data), acts);
    assert Reachable(Word, cap, t);
    LowerEmpty(s, half);
  }

  lemma LowerEmpty(s: Ring, pos: nat)
    requires |s.freed| > 0 && |s.published| > 0 && pos < U64 && ReadPos(s) == WritePos(s) == s.local == pos
    ensures Last(Lower(s).freed) == Last(Lower(s).published) == Lower(s).local == pos
  {
    LoweredEnds(s);
  }

  lemma HalfRefuses(cap: Capacity, half: nat, len: nat)
    requires cap >= 8 && cap == 2 * half && len == half - 3
    ensures WriteVerdict(Word, cap, half, half, len) == Refuse
  {
    OffsetIsSlot(cap, half);
    EmptyAccepts(cap, half, len);
  }

  /** A message of just half the ring, written and taken, leaves the ring empty at half its length. */
  lemma EmptyAtHalf(cap: Capacity, half: nat) returns (data: seq<Byte>, s: Ring, acts: seq<Action>)
    requires cap >= 8 && cap == 2 * half
    ensures |data| == cap + SPILL && s == Run(Ideal, Init(cap, data), acts)
    ensures s.producer.Idle? && |s.freed| > 0 && |s.published| > 0
    ensures ReadPos(s) == WritePos(s) == s.local == half
  {
    var write, s1;
    data, write, s1 := HalfWritten(cap, half);
    RunInv(cap, data, write);
    var drain := Drain(s1);
    s := Run(Ideal, s1, drain);
    acts := write + drain;
    RunAppend(Ideal, Init(cap, data), write, drain);
  }

  lemma HalfWritten(cap: Capacity, half: nat) returns (data: seq<Byte>, acts: seq<Action>, s: Ring)
    requires cap >= 8 && cap == 2 * half
    ensures |data| == cap + SPILL && s == Run(Ideal, Init(cap, data), acts)
    ensures s.producer.Idle? && Last(s.published) == s.local == half
  {
    data := seq(cap + SPILL, _ => 0);
    var m: seq<Byte> := seq(half - 4, _ => 0);
    s := WriteAlone(Ideal, Init(cap, data), m, 0);
    acts := WriteActs(m, 0);
    assert And(0, cap - 1) == 0;
    WriteIsRun(Ideal, Init(cap, data), m, 0);
  }

  lemma HalfOf(cap: Capacity) returns (half: nat)
    ensures cap == 2 * half && half == cap / 2
  {
    assert IsCapacity(cap);
    var k :| 2 <= k <= 31 && cap == Pow2(k);
    half := Pow2(k - 1);
  }
}
