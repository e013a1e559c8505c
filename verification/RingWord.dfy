/**
 * The ring with the wrapping words of the C code does what the ring with unbounded positions does:
 * same decisions, same stores, same messages, on every run.
 */
module RingWord {
  import opened Bits
  import opened Bytes
  import opened Ring
  import opened RingSafety

  function Wrap(ps: seq<nat>): (r: seq<nat>)
    ensures |r| == |ps|
  {
    seq(|ps|, i requires 0 <= i < |ps| => ps[i] % U64)
  }

  function LowerPc(pc: Producer): Producer {
    if pc.Loaded? then Loaded(pc.m, pc.snap % U64) else pc
  }

  /** The state as 64-bit words show it. */
  function Lower(s: Ring): Ring {
    s.(local := s.local % U64, published := Wrap(s.published), freed := Wrap(s.freed),
       dropped := s.dropped % U64, producer := LowerPc(s.producer), readPos := s.readPos % U64)
  }

  // ------------------------------------------------------------------ arithmetic

  lemma CapacityDividesWord(cap: Capacity) returns (n: nat)
    ensures U64 == n * cap
  {
    assert IsCapacity(cap);
    var k :| 2 <= k <= 31 && cap == Pow2(k);
    Pow2Values();
    Pow2Add(64 - k, k);
    n := Pow2(64 - k);
  }

  /** A wrapped position has the same offset: the capacity divides 2^64. */
  lemma OffsetOfWrapped(cap: Capacity, pos: nat)
    ensures Offset(cap, pos % U64) == Offset(cap, pos)
  {
    var n := CapacityDividesWord(cap);
    OffsetIsSlot(cap, pos);
    OffsetIsSlot(cap, pos % U64);
    SlotIsMod(cap, pos);
    SlotIsMod(cap, pos % U64);
    ModOfMod(pos, cap, n);
  }

  lemma ModOfMod(x: nat, c: nat, n: nat)
    requires c > 0 && n > 0
    ensures n * c > 0 && x % (n * c) % c == x % c
  {
    assert n * c > 0;
    var q, r := x / (n * c), x % (n * c);
    assert x == q * (n * c) + r;
    assert q * (n * c) == (q * n) * c;
    assert r == (r / c) * c + r % c;
    assert x == (q * n + r / c) * c + r % c;
    DivModUnique(x, c, q * n + r / c, r % c);
  }

  lemma Distance(a: nat, b: nat)
    requires b <= a < b + U64
    ensures (a % U64 - b % U64) % U64 == a - b
    ensures a % U64 == b % U64 <==> a == b
  {
  }

  // ------------------------------------------------------------------ decisions

  /** No 32- or 64-bit expression of the checks wraps. */
  lemma FitWord(cap: Capacity, used: nat, offset: nat, len: nat)
    requires used <= cap && offset < cap && 4 + len <= cap
    ensures N32(Word, cap - 4) == cap - 4 && N32(Word, 4 + len) == 4 + len
    ensures N64(Word, used + (4 + len)) == used + (4 + len) && N32(Word, offset + (4 + len)) == offset + (4 + len)
    ensures N32(Word, cap - offset) == cap - offset && N64(Word, used + (cap - offset)) == used + (cap - offset)
    ensures N64(Word, used + (cap - offset) + (4 + len)) == used + (cap - offset) + (4 + len)
  {
  }

  /** So the checks come out as on unbounded numbers. */
  lemma FitSame(cap: Capacity, used: nat, offset: nat, len: nat)
    requires used <= cap && offset < cap && 4 + len <= cap
    ensures Fit(Word, cap, used, offset, len) == Fit(Ideal, cap, used, offset, len)
  {
    FitWord(cap, used, offset, len);
  }

  /** On wrapped positions every check comes out as on unbounded ones. */
  lemma DecideWord(cap: Capacity, local: nat, snap: nat, len: nat)
    requires snap <= local <= snap + cap && 4 + len <= cap
    ensures Decide(Word, cap, local % U64, snap % U64, len) == Decide(Ideal, cap, local, snap, len)
  {
    Distance(local, snap);
    OffsetOfWrapped(cap, local);
    FitSame(cap, local - snap, Offset(cap, local), len);
  }

  lemma AdvancedWord(local: nat, pad: nat, len: nat)
    requires 4 + len < U32
    ensures Advanced(Word, local % U64, pad, len) == Advanced(Ideal, local, pad, len) % U64
  {
    SumOfWrapped(local, pad);
    SumOfWrapped(local + pad, 4 + len);
  }

  lemma NextHeaderWord(cap: Capacity, data: seq<Byte>, pos: nat, c: Consumer)
    requires c.Header?
    ensures NextHeader(Word, cap, data, pos % U64, c) == NextHeader(Ideal, cap, data, pos, c)
  {
    SumOfWrapped(pos, c.skip);
    OffsetOfWrapped(cap, pos + c.skip);
  }

  lemma NextBodyWord(cap: Capacity, data: seq<Byte>, pos: nat, c: Consumer)
    requires c.Body?
    ensures NextBody(Word, cap, data, pos % U64, c) == NextBody(Ideal, cap, data, pos, c)
  {
    SumOfWrapped(pos, c.skip);
    OffsetOfWrapped(cap, pos + c.skip);
  }

  // ------------------------------------------------------------------ steps

  lemma WrapSnoc(ps: seq<nat>, p: nat)
    ensures Wrap(ps + [p]) == Wrap(ps) + [p % U64]
  {
  }

  lemma CallWord(s: Ring, m: seq<Byte>)
    ensures CallStep(Word, Lower(s), m) == Lower(CallStep(Ideal, s, m))
  {
    SumOfWrapped(s.dropped, 1);
  }

  lemma CheckWord(s: Ring)
    requires Inv(s)
    ensures CheckStep(Word, Lower(s)) == Lower(CheckStep(Ideal, s))
  {
    if s.producer.Loaded? {
      StartGap(s.cap, s.published, s.accepted, s.released, |s.accepted|);
      DecideWord(s.cap, s.local, s.producer.snap, |s.producer.m|);
      SumOfWrapped(s.dropped, 1);
    }
  }

  lemma MoveWord(s: Ring)
    requires Inv(s)
    ensures MoveStep(Word, Lower(s)) == Lower(MoveStep(Ideal, s))
  {
    if s.producer.Storing? {
      AdvancedWord(s.local, s.producer.pad, |s.producer.m|);
    }
  }

  lemma PublishWord(s: Ring)
    ensures PublishStep(Lower(s)) == Lower(PublishStep(s))
  {
    WrapSnoc(s.published, s.local);
  }

  /** Loaded positions differ as words exactly when they differ. */
  lemma VisibleWord(s: Ring)
    requires Inv(s)
    ensures Visible(Lower(s)) == Visible(s)
  {
    StartGap(s.cap, s.published, s.accepted, s.released, |s.taken|);
    StartGap(s.cap, s.published, s.accepted, |s.taken|, s.fetched);
    StartGap(s.cap, s.published, s.accepted, s.fetched, |s.accepted|);
    Distance(s.published[s.fetched], s.readPos);
  }

  lemma ConsumeWord(s: Ring)
    requires Inv(s)
    ensures Step(Word, Lower(s), Consume) == Lower(Step(Ideal, s, Consume))
  {
    VisibleWord(s);
    if s.consumer.Header? {
      HeaderWord(s);
    } else {
      BodyWord(s);
    }
  }

  lemma HeaderWord(s: Ring)
    requires s.consumer.Header? && Visible(Lower(s)) == Visible(s)
    ensures Step(Word, Lower(s), Consume) == Lower(Step(Ideal, s, Consume))
  {
    NextHeaderWord(s.cap, s.data, s.readPos, s.consumer);
  }

  lemma BodyWord(s: Ring)
    requires s.consumer.Body? && Visible(Lower(s)) == Visible(s)
    ensures Step(Word, Lower(s), Consume) == Lower(Step(Ideal, s, Consume))
  {
    NextBodyWord(s.cap, s.data, s.readPos, s.consumer);
    SumOfWrapped(s.readPos, s.consumer.skip + 4 + s.consumer.len);
  }

  lemma ReleaseWord(s: Ring)
    ensures ReleaseStep(Lower(s)) == Lower(ReleaseStep(s))
  {
    WrapSnoc(s.freed, s.readPos);
  }

  /** Loads and stores move positions without computing with them. */
  lemma SameWord(s: Ring, a: Action)
    requires a.LoadRead? || a.StoreByte? || a.LoadWrite?
    ensures Step(Word, Lower(s), a) == Lower(Step(Ideal, s, a))
  {
  }

  lemma StepWord(s: Ring, a: Action)
    requires Inv(s)
    ensures Step(Word, Lower(s), a) == Lower(Step(Ideal, s, a))
  {
    match a
    case Call(m) => CallWord(s, m);
    case LoadRead(i) => SameWord(s, a);
    case Check => CheckWord(s);
    case StoreByte => SameWord(s, a);
    case MoveLocal => MoveWord(s);
    case Publish => PublishWord(s);
    case LoadWrite(i) => SameWord(s, a);
    case Consume => ConsumeWord(s);
    case Release => ReleaseWord(s);
  }

  /** Every run of the 64-bit ring is, step for step, the same run of the unbounded ring seen
      through 64-bit words: the decisions, stores and histories are the same. */
  lemma {:induction false} RunWord(cap: Capacity, data: seq<Byte>, acts: seq<Action>)
    requires |data| == cap + SPILL
    ensures Run(Word, Init(cap, data), acts) == Lower(Run(Ideal, Init(cap, data), acts))
    decreases |acts|
  {
    if acts == [] {
      assert Wrap([0]) == [0];
    } else {
      var before := acts[..|acts| - 1];
      RunInv(cap, data, before);
      RunWord(cap, data, before);
      StepWord(Run(Ideal, Init(cap, data), before), acts[|acts| - 1]);
    }
  }
}
