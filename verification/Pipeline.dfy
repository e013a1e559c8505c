/** From calls to decoded spans: what the consumer of the ring receives is what the requests recorded. */
module Pipeline {
  import opened Bits
  import opened Bytes
  import opened Spans
  import opened Ring
  import opened RingTheorems
  import opened RingRuns
  import opened Tracing
  import opened CallTrees

  // ------------------------------------------------------------------ one interleaved write

  /** From its entry to its return a write of `m` has done nothing yet, or has been accepted, or has
      been refused, once. */
  ghost predicate InCall(s: Ring, acc: seq<seq<Byte>>, ref: seq<seq<Byte>>, m: seq<Byte>) {
    if s.producer.Idle? then
      || (s.accepted == acc + [m] && s.refused == ref)
      || (s.accepted == acc && s.refused == ref + [m])
    else s.producer.m == m && s.accepted == acc && s.refused == ref
  }

  lemma StepInCall(s: Ring, a: Action, acc: seq<seq<Byte>>, ref: seq<seq<Byte>>, m: seq<Byte>)
    requires InCall(s, acc, ref, m) && !a.Call?
    ensures InCall(Step(Word, s, a), acc, ref, m)
  {
  }

  lemma {:induction false} RunInCall(s: Ring, acts: seq<Action>, acc: seq<seq<Byte>>, ref: seq<seq<Byte>>,
                                     m: seq<Byte>)
    requires InCall(s, acc, ref, m) && forall a :: a in acts ==> !a.Call?
    ensures InCall(Run(Word, s, acts), acc, ref, m)
    decreases |acts|
  {
    if acts != [] {
      RunInCall(s, acts[..|acts| - 1], acc, ref, m);
      StepInCall(Run(Word, s, acts[..|acts| - 1]), acts[|acts| - 1], acc, ref, m);
    }
  }

  /** No write in progress, and these payloads accepted and refused. */
  ghost predicate Rests(s: Ring, acc: seq<seq<Byte>>, ref: seq<seq<Byte>>) {
    s.producer.Idle? && s.accepted == acc && s.refused == ref
  }

  lemma StepRests(s: Ring, a: Action, acc: seq<seq<Byte>>, ref: seq<seq<Byte>>)
    requires Rests(s, acc, ref) && !a.Call?
    ensures Rests(Step(Word, s, a), acc, ref)
  {
  }

  lemma {:induction false} RunRests(s: Ring, acts: seq<Action>, acc: seq<seq<Byte>>, ref: seq<seq<Byte>>)
    requires Rests(s, acc, ref) && forall a :: a in acts ==> !a.Call?
    ensures Rests(Run(Word, s, acts), acc, ref)
    decreases |acts|
  {
    if acts != [] {
      RunRests(s, acts[..|acts| - 1], acc, ref);
      StepRests(Run(Word, s, acts[..|acts| - 1]), acts[|acts| - 1], acc, ref);
    }
  }

  lemma EnterInCall(s: Ring, m: seq<Byte>, acc: seq<seq<Byte>>, ref: seq<seq<Byte>>)
    requires Rests(s, acc, ref) && |m| < U32
    ensures InCall(Step(Word, s, Call(m)), acc, ref, m)
  {
  }

  // ------------------------------------------------------------------ a write comes to its end

  lemma {:induction false} RunStoresFrom(s: Ring, n: nat)
    requires s.producer.Storing? && s.producer.done <= StoreCount(s.producer.pad, s.producer.m)
    ensures var count := StoreCount(s.producer.pad, s.producer.m);
      Run(Word, s, Repeat(StoreByte, n)).producer == s.producer.(done := Capped(s.producer.done + n, count))
  {
    if n > 0 {
      RunStoresFrom(s, n - 1);
      RunSnoc(Word, s, StoreByte, n);
      StoreAdvances(Run(Word, s, Repeat(StoreByte, n - 1)));
    }
  }

  lemma StoreAdvances(s: Ring)
    requires s.producer.Storing? && s.producer.done <= StoreCount(s.producer.pad, s.producer.m)
    ensures Step(Word, s, StoreByte).producer
         == s.producer.(done := Capped(s.producer.done + 1, StoreCount(s.producer.pad, s.producer.m)))
  {
  }

  /** The producer of a reachable state: what it has loaded exists, what it has stored is part of its
      write. */
  ghost predicate ProducerSane(s: Ring) {
    && s.seen < |s.freed|
    && (s.producer.Storing? ==> s.producer.done <= StoreCount(s.producer.pad, s.producer.m))
  }

  lemma ReachableSane(cap: Capacity, t: Ring)
    requires Reachable(Word, cap, t)
    ensures ProducerSane(t)
  {
    var s := Unbounded(cap, t);
    ReachableInv(cap, s);
    assert s.producer.Storing? ==> s.producer.done <= StoreCount(s.producer.pad, s.producer.m) by {
      assert Open(0);
    }
  }

  lemma FinishEnds(s: Ring, m: seq<Byte>)
    requires ProducerSane(s) && (s.producer.Idle? || s.producer.m == m)
    requires !s.producer.Called? && !s.producer.Loaded?
    ensures Run(Word, s, Finish(m)).producer.Idle?
  {
    var stores := Repeat(StoreByte, 8 + |m|);
    if s.producer.Storing? {
      RunStoresFrom(s, 8 + |m|);
    } else {
      RunIdle(Word, s, 8 + |m|);
    }
    var s1 := Run(Word, s, stores);
    RunAppend(Word, s, stores, [MoveLocal]);
    RunOne(Word, s1, MoveLocal);
    RunAppend(Word, s, stores + [MoveLocal], [Publish]);
    RunOne(Word, Step(Word, s1, MoveLocal), Publish);
  }

  /** From any point of a write of `m`, the settling steps finish it. */
  lemma SettleEnds(s: Ring, m: seq<Byte>)
    requires ProducerSane(s) && (s.producer.Idle? || s.producer.m == m)
    ensures Run(Word, s, Settle(s, m)).producer.Idle?
  {
    var i := |s.freed| - 1;
    var s1 := Step(Word, s, LoadRead(i));
    RunOne(Word, s, LoadRead(i));
    var s2 := Step(Word, s1, Check);
    RunAppend(Word, s, [LoadRead(i)], [Check]);
    RunOne(Word, s1, Check);
    RunAppend(Word, s, [LoadRead(i)] + [Check], Finish(m));
    AfterCheck(s1);
    FinishEnds(s2, m);
  }

  lemma AfterCheck(s: Ring)
    requires ProducerSane(s) && !s.producer.Called?
    ensures var s' := Step(Word, s, Check);
      && ProducerSane(s') && !s'.producer.Called? && !s'.producer.Loaded?
      && (s'.producer.Idle? || (s.producer != Idle && s'.producer.m == s.producer.m))
  {
  }

  lemma {:induction false} RepeatIsQuiet(a: Action, n: nat)
    requires !a.Call?
    ensures forall b :: b in Repeat(a, n) ==> !b.Call?
  {
    if n > 0 {
      RepeatIsQuiet(a, n - 1);
    }
  }

  lemma SettleIsQuiet(s: Ring, m: seq<Byte>)
    ensures forall b :: b in Settle(s, m) ==> !b.Call?
  {
    RepeatIsQuiet(StoreByte, 8 + |m|);
  }

  // ------------------------------------------------------------------ worlds

  ghost predicate EnvOk(env: Env) {
    |env.memory| == env.cap + SPILL
  }

  lemma WorldReachable(env: Env, w: World)
    requires EnvOk(env)
    ensures Reachable(Word, env.cap, RingOf(env, w))
  {
  }

  /** Between writes, the ring of a world has accepted and refused exactly these payloads. */
  ghost predicate Books(env: Env, w: World, acc: seq<seq<Byte>>, ref: seq<seq<Byte>>) {
    forall n: nat :: Open(n) ==> Rests(RingOf(env, w), acc, ref)
  }

  lemma BooksMean(env: Env, w: World, acc: seq<seq<Byte>>, ref: seq<seq<Byte>>)
    ensures Books(env, w, acc, ref) <==> Rests(RingOf(env, w), acc, ref)
  {
    assert Open(0);
  }

  /** However its steps interleave with the consumer's, a write ends, having had one of its two
      outcomes, and the ring's history says which. */
  lemma DeliverBooks(env: Env, w: World, m: seq<Byte>, acc: seq<seq<Byte>>, ref: seq<seq<Byte>>)
    requires EnvOk(env) && Books(env, w, acc, ref) && |m| < U32
    ensures var w2 := Deliver(env, w, m);
      if |RingOf(env, w2).accepted| > |RingOf(env, w).accepted| then Books(env, w2, acc + [m], ref)
      else Books(env, w2, acc, ref + [m])
  {
    BooksMean(env, w, acc, ref);
    var r0 := Init(env.cap, env.memory);
    var before, during := Quiet(env.before(w.tick)), Quiet(env.during(w.tick));
    var s0 := RingOf(env, w);
    RunAppend(Word, r0, w.acts, before);
    var s1 := Run(Word, s0, before);
    RunRests(s0, before, acc, ref);
    RunAppend(Word, r0, w.acts + before, [Call(m)]);
    RunOne(Word, s1, Call(m));
    var s2 := Step(Word, s1, Call(m));
    EnterInCall(s1, m, acc, ref);
    RunAppend(Word, r0, w.acts + before + [Call(m)], during);
    var s3 := Run(Word, s2, during);
    RunInCall(s2, during, acc, ref, m);
    var entered := w.acts + before + [Call(m)] + during;
    assert s3 == Run(Word, r0, entered);
    assert Reachable(Word, env.cap, s3);
    ReachableSane(env.cap, s3);
    SettleEnds(s3, m);
    SettleIsQuiet(s3, m);
    RunInCall(s3, Settle(s3, m), acc, ref, m);
    RunAppend(Word, r0, entered, Settle(s3, m));
    var w2 := Deliver(env, w, m);
    BooksMean(env, w2, acc + [m], ref);
    BooksMean(env, w2, acc, ref + [m]);
  }

  // ------------------------------------------------------------------ the ledger of a call tree

  function Each<A, B>(f: A -> B, xs: seq<A>): (ys: seq<B>)
    ensures |ys| == |xs|
  {
    if xs == [] then [] else [f(xs[0])] + Each(f, xs[1..])
  }

  lemma {:induction false} EachAppend<A, B>(f: A -> B, a: seq<A>, b: seq<A>)
    ensures Each(f, a + b) == Each(f, a) + Each(f, b)
  {
    if a == [] {
      assert a + b == b;
    } else {
      EachAppend(f, a[1..], b);
      assert (a + b)[1..] == a[1..] + b;
      Associate([f(a[0])], Each(f, a[1..]), Each(f, b));
    }
  }

  lemma {:induction false} EachAt<A, B>(f: A -> B, xs: seq<A>, i: nat)
    requires i < |xs|
    ensures Each(f, xs)[i] == f(xs[i])
  {
    if i > 0 {
      EachAt(f, xs[1..], i - 1);
    }
  }

  function Encodings(ss: seq<Span>): (es: seq<seq<Byte>>)
    ensures |es| == |ss|
  {
    Each(Encode, ss)
  }

  lemma EncodingsAppend(a: seq<Span>, b: seq<Span>)
    ensures Encodings(a + b) == Encodings(a) + Encodings(b)
  {
    EachAppend(Encode, a, b);
  }

  lemma EncodingsAt(ss: seq<Span>, i: nat)
    requires i < |ss|
    ensures Encodings(ss)[i] == Encode(ss[i])
  {
    EachAt(Encode, ss, i);
  }

  function Own(n: Node, o: Outcome): seq<Span> {
    if n.outcome == o then [n.span] else []
  }

  /** The spans with an outcome, in the order they were finished: inner ones first. */
  function Which(ns: seq<Node>, o: Outcome): seq<Span>
    decreases ns
  {
    if ns == [] then [] else Which(ns[0].kids, o) + Own(ns[0], o) + Which(ns[1..], o)
  }

  lemma {:induction false} WhichAppend(a: seq<Node>, b: seq<Node>, o: Outcome)
    ensures Which(a + b, o) == Which(a, o) + Which(b, o)
    decreases a
  {
    if a == [] {
      assert a + b == b;
    } else {
      WhichAppend(a[1..], b, o);
      assert (a + b)[1..] == a[1..] + b;
      Associate(Which(a[0].kids, o) + Own(a[0], o), Which(a[1..], o), Which(b, o));
    }
  }

  lemma WhichOne(n: Node, o: Outcome)
    ensures Which([n], o) == Which(n.kids, o) + Own(n, o)
  {
    assert [n][1..] == [];
  }

  /** Executing `ns` adds exactly the written spans to what the ring accepted, encoded and in order of
      finishing, and exactly the refused ones to what it refused. */
  ghost predicate Accounts(env: Env, w: World, e: World, ns: seq<Node>) {
    forall acc: seq<seq<Byte>>, ref: seq<seq<Byte>> :: Books(env, w, acc, ref) ==>
      Books(env, e, acc + Encodings(Which(ns, Written)), ref + Encodings(Which(ns, Refused)))
  }

  lemma AccountsJoin(env: Env, w: World, a: seq<Node>, mid: World, b: seq<Node>, e: World)
    requires Accounts(env, w, mid, a) && Accounts(env, mid, e, b)
    ensures Accounts(env, w, e, a + b)
  {
    forall acc: seq<seq<Byte>>, ref: seq<seq<Byte>> | Books(env, w, acc, ref)
      ensures Books(env, e, acc + Encodings(Which(a + b, Written)), ref + Encodings(Which(a + b, Refused)))
    {
      JoinColumn(acc, a, b, Written);
      JoinColumn(ref, a, b, Refused);
    }
  }

  lemma JoinColumn(c: seq<seq<Byte>>, a: seq<Node>, b: seq<Node>, o: Outcome)
    ensures (c + Encodings(Which(a, o))) + Encodings(Which(b, o)) == c + Encodings(Which(a + b, o))
  {
    WhichAppend(a, b, o);
    EncodingsAppend(Which(a, o), Which(b, o));
    Associate(c, Encodings(Which(a, o)), Encodings(Which(b, o)));
  }

  /** The fates of a span at a finish, before the ring has a say, with `room` bytes to encode it in. */
  datatype Fate = Drop(rc: int, outcome: Outcome) | Send(m: seq<Byte>)

  function FateOf(timed: Span, minNs: Word64, maxQuery: Word32, room: nat): (fate: Fate)
    ensures fate.Send? ==> |fate.m| <= room
    ensures fate.Drop? ==> fate.outcome in {Filtered, Overflow} && (fate.rc == 1 <==> fate.outcome == Filtered)
    ensures fate.Drop? ==> fate.rc == 1 || fate.rc == -1
  {
    if TooShort(timed, minNs) then Drop(1, Filtered)
    else
      var t := Truncated(timed, maxQuery);
      EncodedSizeExact(t);
      if EncodedSize(t) > room then Drop(-1, Overflow) else Send(Encode(t))
  }

  /** The world when the ring write of a finish begins. */
  function AtWrite(w: World, s: Span): World {
    w.(tick := w.tick + 1, ctx := w.ctx.(currentParentId := s.parentId))
  }

  /** What a finish ends in, for the span's fate, when `w` is the world at the ring write. */
  ghost predicate Fated(env: Env, w: World, fate: Fate, f: Ended) {
    forall n: nat :: Open(n) ==>
      match fate
      case Drop(_, o) => f.w == w && f.outcome == o
      case Send(m) =>
        && Encode(f.span) == m && f.w == Deliver(env, w, m)
        && f.outcome == (if |RingOf(env, f.w).accepted| > |RingOf(env, w).accepted| then Written else Refused)
  }

  lemma FinishFate(env: Env, w: World, s: Span, minNs: Word64)
    ensures Fated(env, AtWrite(w, s),
                  FateOf(s.(durationNs := Elapsed(s.startNs, env.clock(w.tick))), minNs, env.maxQuery, BUF_SIZE),
                  FinishSpan(env, w, s, minNs))
  {
  }

  lemma FinishBooks(env: Env, w: World, s: Span, minNs: Word64, acc: seq<seq<Byte>>, ref: seq<seq<Byte>>)
    requires EnvOk(env) && Books(env, w, acc, ref)
    ensures var f := FinishSpan(env, w, s, minNs);
      Books(env, f.w, if f.outcome == Written then acc + [Encode(f.span)] else acc,
            if f.outcome == Refused then ref + [Encode(f.span)] else ref)
  {
    var timed := s.(durationNs := Elapsed(s.startNs, env.clock(w.tick)));
    var f, w1 := FinishSpan(env, w, s, minNs), AtWrite(w, s);
    FinishFate(env, w, s, minNs);
    SameRing(env, w, w1, acc, ref);
    assert Open(0);
    match FateOf(timed, minNs, env.maxQuery, BUF_SIZE)
    case Drop(_, _) =>
    case Send(m) =>
      DeliverBooks(env, w1, m, acc, ref);
  }

  // ------------------------------------------------------------------ every call tree keeps the ledger

  /** The ring is all that the ledger of a world depends on. */
  lemma SameRing(env: Env, w: World, v: World, acc: seq<seq<Byte>>, ref: seq<seq<Byte>>)
    requires w.acts == v.acts
    ensures Books(env, w, acc, ref) <==> Books(env, v, acc, ref)
  {
    assert RingOf(env, w) == RingOf(env, v);
    BooksMean(env, w, acc, ref);
    BooksMean(env, v, acc, ref);
  }

  lemma AccountsNothing(env: Env, w: World)
    ensures Accounts(env, w, w, [])
  {
    forall acc: seq<seq<Byte>>, ref: seq<seq<Byte>> | Books(env, w, acc, ref)
      ensures Books(env, w, acc + [], ref + [])
    {
      assert acc + [] == acc && ref + [] == ref;
    }
  }

  lemma AccountsMoved(env: Env, w: World, v: World, e: World, ns: seq<Node>)
    requires w.acts == v.acts && Accounts(env, v, e, ns)
    ensures Accounts(env, w, e, ns)
  {
    forall acc: seq<seq<Byte>>, ref: seq<seq<Byte>> | Books(env, w, acc, ref)
      ensures Books(env, e, acc + Encodings(Which(ns, Written)), ref + Encodings(Which(ns, Refused)))
    {
      SameRing(env, w, v, acc, ref);
    }
  }

  /** One more span around executed calls, with its outcome if it was finished. */
  lemma AccountsAround(env: Env, w: World, mid: World, e: World, n: Node)
    requires Accounts(env, w, mid, n.kids)
    requires forall acc: seq<seq<Byte>>, ref: seq<seq<Byte>> :: Books(env, mid, acc, ref) ==>
      Books(env, e, acc + Encodings(Own(n, Written)), ref + Encodings(Own(n, Refused)))
    ensures Accounts(env, w, e, [n])
  {
    forall acc: seq<seq<Byte>>, ref: seq<seq<Byte>> | Books(env, w, acc, ref)
      ensures Books(env, e, acc + Encodings(Which([n], Written)), ref + Encodings(Which([n], Refused)))
    {
      OwnColumn(acc, n, Written);
      OwnColumn(ref, n, Refused);
    }
  }

  lemma OwnColumn(c: seq<seq<Byte>>, n: Node, o: Outcome)
    ensures (c + Encodings(Which(n.kids, o))) + Encodings(Own(n, o)) == c + Encodings(Which([n], o))
  {
    WhichOne(n, o);
    EncodingsAppend(Which(n.kids, o), Own(n, o));
    Associate(c, Encodings(Which(n.kids, o)), Encodings(Own(n, o)));
  }

  lemma OneEncoding(s: Span)
    ensures Encodings([s]) == [Encode(s)]
  {
    assert [s][1..] == [];
  }

  /** The last step of a span: the outcome says what happened to the ring. */
  lemma FinishAccounts(env: Env, w: World, s: Span, minNs: Word64, n: Node)
    requires EnvOk(env)
    requires var f := FinishSpan(env, w, s, minNs); n.span == f.span && n.outcome == f.outcome
    ensures forall acc: seq<seq<Byte>>, ref: seq<seq<Byte>> :: Books(env, w, acc, ref) ==>
      Books(env, FinishSpan(env, w, s, minNs).w, acc + Encodings(Own(n, Written)), ref + Encodings(Own(n, Refused)))
  {
    OneEncoding(n.span);
    forall acc: seq<seq<Byte>>, ref: seq<seq<Byte>> | Books(env, w, acc, ref)
      ensures Books(env, FinishSpan(env, w, s, minNs).w, acc + Encodings(Own(n, Written)),
                    ref + Encodings(Own(n, Refused)))
    {
      FinishBooks(env, w, s, minNs, acc, ref);
      assert acc + [] == acc && ref + [] == ref;
    }
  }

  lemma LeftOpen(env: Env, w: World, n: Node)
    requires n.outcome == Unfinished
    ensures forall acc: seq<seq<Byte>>, ref: seq<seq<Byte>> :: Books(env, w, acc, ref) ==>
      Books(env, w, acc + Encodings(Own(n, Written)), ref + Encodings(Own(n, Refused)))
  {
    forall acc: seq<seq<Byte>>, ref: seq<seq<Byte>> | Books(env, w, acc, ref)
      ensures Books(env, w, acc + Encodings(Own(n, Written)), ref + Encodings(Own(n, Refused)))
    {
      assert acc + [] == acc && ref + [] == ref;
    }
  }

  lemma WrappedAccounts(env: Env, w: World, hook: Hook, kind: Byte, inner: Exec)
    requires EnvOk(env) && Accounts(env, Inside(w), inner.w, inner.nodes)
    ensures var e := Wrapped(env, w, hook, kind, inner); Accounts(env, w, e.w, e.nodes)
  {
    var span, e := SpanFor(env, w, hook, kind), Wrapped(env, w, hook, kind, inner);
    var n := e.nodes[0];
    AccountsMoved(env, w, Inside(w), inner.w, inner.nodes);
    if inner.died {
      LeftOpen(env, inner.w, n);
    } else {
      FinishAccounts(env, inner.w, span, env.minNs(inner.w.tick), n);
    }
    AccountsAround(env, w, inner.w, e.w, n);
  }

  lemma {:induction false} CallAccounts(env: Env, w: World, c: Invocation)
    requires EnvOk(env)
    ensures var e := ExecCall(env, w, c); Accounts(env, w, e.w, e.nodes)
    decreases c
  {
    if c.hook.Die? {
      AccountsNothing(env, w);
    } else if c.hook.SetEnabled? {
      var v, e := w.(enabled := c.hook.on), ExecCall(env, w, c);
      BodyAccounts(env, v, c.body);
      AccountsMoved(env, w, v, e.w, e.nodes);
    } else {
      match HookDecision(w.enabled, w.ctx, env.full, c.hook)
      case PassThrough => BodyAccounts(env, w, c.body);
      case Trace(kind) =>
        BodyAccounts(env, Inside(w), c.body);
        WrappedAccounts(env, w, c.hook, kind, ExecBody(env, Inside(w), c.body));
    }
  }

  lemma JoinAccounts(env: Env, w: World, a: Exec, b: Exec)
    requires Accounts(env, w, a.w, a.nodes) && Accounts(env, a.w, b.w, b.nodes)
    ensures var e := Joined(a, b); Accounts(env, w, e.w, e.nodes)
  {
    AccountsJoin(env, w, a.nodes, a.w, b.nodes, b.w);
  }

  /** In every call tree, whatever is interleaved with its writes and wherever it dies, the spans
      whose finish reported success are what the ring accepted, in the order they finished. */
  lemma {:induction false} BodyAccounts(env: Env, w: World, cs: seq<Invocation>)
    requires EnvOk(env)
    ensures var e := ExecBody(env, w, cs); Accounts(env, w, e.w, e.nodes)
    decreases cs
  {
    if cs == [] {
      AccountsNothing(env, w);
    } else {
      var first := ExecCall(env, w, cs[0]);
      CallAccounts(env, w, cs[0]);
      if !first.died {
        BodyAccounts(env, first.w, cs[1..]);
        JoinAccounts(env, w, first, ExecBody(env, first.w, cs[1..]));
      }
    }
  }

  lemma {:induction false} PhasesAccounts(env: Env, w: World, phases: seq<seq<Invocation>>)
    requires EnvOk(env)
    ensures var e := ExecPhases(env, w, phases); Accounts(env, w, e.w, e.nodes)
    decreases |phases|
  {
    if phases == [] {
      AccountsNothing(env, w);
    } else {
      var first := ExecBody(env, w, phases[0]);
      BodyAccounts(env, w, phases[0]);
      PhasesAccounts(env, first.w, phases[1..]);
      JoinAccounts(env, w, first, ExecPhases(env, first.w, phases[1..]));
    }
  }
}
