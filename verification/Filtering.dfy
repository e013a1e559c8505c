/** When the filter of short spans keeps a subtree: the exact conditions on clock, threshold and deaths. */
module Filtering {
  import opened Bits
  import opened Spans
  import opened Tracing
  import opened CallTrees

  // ------------------------------------------------------------------ filtering closed downward

  /** Only filtered spans, all the way down. */
  ghost predicate AllFiltered(ns: seq<Node>) {
    if ns == [] then true
    else ns[0].outcome == Filtered && AllFiltered(ns[0].kids) && AllFiltered(ns[1..])
  }

  /** No span that was let through, or is still open, lies inside a filtered one. */
  ghost predicate FilterClosed(ns: seq<Node>) {
    if ns == [] then true
    else
      && (ns[0].outcome == Filtered ==> AllFiltered(ns[0].kids))
      && FilterClosed(ns[0].kids)
      && FilterClosed(ns[1..])
  }

  /** An odd distance: that between two readings with whole spans in between. */
  predicate Odd(x: nat, y: nat) {
    (y - x) % 2 == 1
  }

  /** Among the readings from `from` up to `to`, a span started directly inside a short one is short. */
  ghost predicate Nests(env: Env, from: nat, to: nat) {
    forall a: nat, b: nat, c: nat, d: nat ::
      from <= a < b < c < d < to && Odd(a, b) && Odd(b, c) && Odd(c, d) && Short(env, a, d) ==> Short(env, b, c)
  }

  /** The spans inside a short one are short, and so on downward. */
  lemma {:induction false} InsideShort(env: Env, low: nat, high: nat, start: nat, from: nat, end: nat, ns: seq<Node>)
    requires Nests(env, low, high) && low <= start < from <= end < high && Odd(start, from)
    requires Timed(env, from, end, ns) && AllFinished(ns) && Short(env, start, end)
    ensures AllFiltered(ns)
    decreases ns
  {
    if ns != [] {
      var n := ns[0];
      TimedBounds(env, from + 1, n.ended, n.kids);
      TimedBounds(env, n.ended + 1, end, ns[1..]);
      NestsAt(env, low, high, start, from, n.ended, end);
      InsideShort(env, low, high, from, from + 1, n.ended, n.kids);
      InsideShort(env, low, high, start, n.ended + 1, end, ns[1..]);
    }
  }

  lemma NestsAt(env: Env, low: nat, high: nat, a: nat, b: nat, c: nat, d: nat)
    requires Nests(env, low, high) && low <= a < b < c < d < high
    requires Odd(a, b) && (c - b - 1) % 2 == 0 && (d - c - 1) % 2 == 0 && Short(env, a, d)
    ensures Odd(b, c) && Odd(a, c + 1) && Short(env, b, c)
  {
    assert Odd(c, d);
  }

  lemma {:induction false} NestsCloses(env: Env, low: nat, high: nat, from: nat, to: nat, ns: seq<Node>)
    requires Nests(env, low, high) && low <= from && to <= high
    requires Timed(env, from, to, ns) && Settled(ns)
    ensures FilterClosed(ns)
    decreases ns
  {
    if ns != [] {
      var n := ns[0];
      var next := if n.outcome == Unfinished then n.ended else n.ended + 1;
      TimedBounds(env, from + 1, n.ended, n.kids);
      TimedBounds(env, next, to, ns[1..]);
      NestsCloses(env, low, high, from + 1, n.ended, n.kids);
      NestsCloses(env, low, high, next, to, ns[1..]);
      if n.outcome == Filtered {
        InsideShort(env, low, high, from, from + 1, n.ended, n.kids);
      }
    }
  }

  /** Where the readings nest, filtering is closed downward in every sequence of phases. */
  lemma PhasesClosed(env: Env, w: World, phases: seq<seq<Invocation>>)
    requires Nests(env, w.tick, ExecPhases(env, w, phases).w.tick)
    ensures FilterClosed(ExecPhases(env, w, phases).nodes)
  {
    var e := ExecPhases(env, w, phases);
    PhasesTime(env, w, phases);
    PhasesSettle(env, w, phases);
    NestsCloses(env, w.tick, e.w.tick, w.tick, e.w.tick, e.nodes);
  }

  // ------------------------------------------------------------------ a monotone clock, a threshold never raised

  ghost predicate Monotone(clock: nat -> Word64, from: nat, to: nat) {
    forall i: nat, j: nat :: from <= i <= j < to ==> clock(i) <= clock(j)
  }

  /** Between the readings of two finishes, of which the first is inside a span, the threshold does not go
      up. The first two readings of a span with another inside it are starts. */
  ghost predicate NeverRaised(minNs: nat -> Word64, from: nat, to: nat) {
    forall i: nat, j: nat :: from + 2 <= i <= j < to ==> minNs(j) <= minNs(i)
  }

  lemma SteadyNests(env: Env, from: nat, to: nat)
    requires Monotone(env.clock, from, to) && NeverRaised(env.minNs, from, to)
    ensures Nests(env, from, to)
  {
    forall a: nat, b: nat, c: nat, d: nat
      | from <= a < b < c < d < to && Odd(a, b) && Odd(b, c) && Odd(c, d) && Short(env, a, d)
      ensures Short(env, b, c)
    {
      assert env.clock(a) <= env.clock(b) <= env.clock(c) <= env.clock(d);
      assert env.minNs(d) <= env.minNs(c);
    }
  }

  // ------------------------------------------------------------------ thresholds along one tree

  /** No finish among `ns`, all the way down, has a threshold below `min`. */
  ghost predicate NoneBelow(minNs: nat -> Word64, min: Word64, ns: seq<Node>) {
    if ns == [] then true
    else
      && (ns[0].outcome != Unfinished ==> min <= minNs(ns[0].ended))
      && NoneBelow(minNs, min, ns[0].kids)
      && NoneBelow(minNs, min, ns[1..])
  }

  /** No span's finish has a higher threshold than a finish inside it. */
  ghost predicate ThresholdsNest(minNs: nat -> Word64, ns: seq<Node>) {
    if ns == [] then true
    else
      && (ns[0].outcome != Unfinished ==> NoneBelow(minNs, minNs(ns[0].ended), ns[0].kids))
      && ThresholdsNest(minNs, ns[0].kids)
      && ThresholdsNest(minNs, ns[1..])
  }

  /** A span is no longer than one that encloses it, and so filtered with it. */
  lemma {:induction false} InsideFiltered(env: Env, start: nat, from: nat, end: nat, ns: seq<Node>)
    requires Monotone(env.clock, start, end + 1) && start < from <= end && Short(env, start, end)
    requires Timed(env, from, end, ns) && AllFinished(ns) && NoneBelow(env.minNs, env.minNs(end), ns)
    ensures AllFiltered(ns)
    decreases ns
  {
    InsideLonger(env, start, from, end, end, ns);
  }

  lemma {:induction false} InsideLonger(env: Env, start: nat, from: nat, to: nat, end: nat, ns: seq<Node>)
    requires Monotone(env.clock, start, end + 1) && start < from <= to <= end && Short(env, start, end)
    requires Timed(env, from, to, ns) && AllFinished(ns) && NoneBelow(env.minNs, env.minNs(end), ns)
    ensures AllFiltered(ns)
    decreases ns
  {
    if ns != [] {
      var n := ns[0];
      TimedBounds(env, from + 1, n.ended, n.kids);
      TimedBounds(env, n.ended + 1, to, ns[1..]);
      ShorterInside(env, start, from, n.ended, end);
      InsideLonger(env, start, from + 1, n.ended, end, n.kids);
      InsideLonger(env, start, n.ended + 1, to, end, ns[1..]);
    }
  }

  lemma ShorterInside(env: Env, a: nat, b: nat, c: nat, d: nat)
    requires Monotone(env.clock, a, d + 1) && a < b < c <= d && Short(env, a, d) && env.minNs(d) <= env.minNs(c)
    ensures Short(env, b, c)
  {
    assert env.clock(a) <= env.clock(b) <= env.clock(c) <= env.clock(d);
  }

  /** With a monotone clock and nested thresholds, filtering is closed downward. */
  lemma {:induction false} ThresholdsClose(env: Env, from: nat, to: nat, ns: seq<Node>)
    requires Monotone(env.clock, from, to) && ThresholdsNest(env.minNs, ns)
    requires Timed(env, from, to, ns) && Settled(ns)
    ensures FilterClosed(ns)
    decreases ns
  {
    if ns != [] {
      var n := ns[0];
      var next := if n.outcome == Unfinished then n.ended else n.ended + 1;
      TimedBounds(env, from + 1, n.ended, n.kids);
      TimedBounds(env, next, to, ns[1..]);
      ThresholdsClose(env, from + 1, n.ended, n.kids);
      ThresholdsClose(env, next, to, ns[1..]);
      if n.outcome == Filtered {
        InsideFiltered(env, from, from + 1, n.ended, n.kids);
      }
    }
  }

  lemma {:induction false} SteadyNoneBelow(env: Env, low: nat, high: nat, from: nat, end: nat, ns: seq<Node>, to: nat)
    requires NeverRaised(env.minNs, low, high) && low < from && to <= end < high && Timed(env, from, to, ns)
    ensures NoneBelow(env.minNs, env.minNs(end), ns)
    decreases ns
  {
    if ns != [] {
      var n := ns[0];
      var next := if n.outcome == Unfinished then n.ended else n.ended + 1;
      TimedBounds(env, from + 1, n.ended, n.kids);
      TimedBounds(env, next, to, ns[1..]);
      SteadyNoneBelow(env, low, high, from + 1, end, n.kids, n.ended);
      SteadyNoneBelow(env, low, high, next, end, ns[1..], to);
    }
  }

  /** A threshold that is never raised nests along every tree. */
  lemma {:induction false} SteadyThresholds(env: Env, low: nat, high: nat, from: nat, to: nat, ns: seq<Node>)
    requires NeverRaised(env.minNs, low, high) && low <= from && to <= high && Timed(env, from, to, ns)
    ensures ThresholdsNest(env.minNs, ns)
    decreases ns
  {
    if ns != [] {
      var n := ns[0];
      var next := if n.outcome == Unfinished then n.ended else n.ended + 1;
      TimedBounds(env, from + 1, n.ended, n.kids);
      TimedBounds(env, next, to, ns[1..]);
      SteadyThresholds(env, low, high, from + 1, n.ended, n.kids);
      SteadyThresholds(env, low, high, next, to, ns[1..]);
      if n.outcome != Unfinished {
        SteadyNoneBelow(env, low, high, from + 1, n.ended, n.kids, n.ended);
      }
    }
  }

  // ------------------------------------------------------------------ calls that take given readings

  /** User functions are traced. */
  predicate Recording(w: World) {
    w.enabled && w.ctx.active && w.ctx.fullTrace
  }

  const CALL: Hook := User([], [0x66], [], 1)

  function Leaves(k: nat): seq<Invocation> {
    if k == 0 then [] else [Invocation(CALL, [])] + Leaves(k - 1)
  }

  /** A traced call at the front of a body. */
  lemma CallThen(env: Env, w: World, body: seq<Invocation>, cs: seq<Invocation>)
    requires Recording(w) && !ExecBody(env, Inside(w), body).died
    ensures var e := Wrapped(env, w, CALL, FUNC, ExecBody(env, Inside(w), body));
      !e.died && ExecBody(env, w, [Invocation(CALL, body)] + cs) == Joined(e, ExecBody(env, e.w, cs))
  {
    var c := Invocation(CALL, body);
    assert ([c] + cs)[1..] == cs;
    assert ExecCall(env, w, c) == Wrapped(env, w, CALL, FUNC, ExecBody(env, Inside(w), body));
  }

  /** What a traced call that executed to its end comes to. */
  lemma AfterCall(env: Env, w: World, inner: Exec)
    requires Recording(w) && Restores(Inside(w), inner) && !inner.died
    requires inner.w.enabled
    ensures var e := Wrapped(env, w, CALL, FUNC, inner);
      && Recording(e.w) && e.w.tick == inner.w.tick + 1
      && |e.nodes| == 1 && e.nodes[0].kids == inner.nodes && e.nodes[0].outcome != Unfinished
      && (e.nodes[0].outcome == Filtered <==> Short(env, w.tick, inner.w.tick))
  {
    SpanForKeeps(env, w, CALL, FUNC);
    FinishRestores(env, inner.w, SpanFor(env, w, CALL, FUNC), env.minNs(inner.w.tick));
  }

  lemma TracedCall(env: Env, w: World, body: seq<Invocation>, inner: Exec, cs: seq<Invocation>) returns (e: Exec)
    requires Recording(w) && inner == ExecBody(env, Inside(w), body) && !inner.died && inner.w.enabled
    ensures ExecBody(env, w, [Invocation(CALL, body)] + cs) == Joined(e, ExecBody(env, e.w, cs))
    ensures Recording(e.w) && e.w.tick == inner.w.tick + 1 && !e.died
    ensures |e.nodes| == 1 && e.nodes[0].kids == inner.nodes && e.nodes[0].outcome != Unfinished
    ensures e.nodes[0].outcome == Filtered <==> Short(env, w.tick, inner.w.tick)
  {
    BodyRestores(env, Inside(w), body);
    CallThen(env, w, body, cs);
    AfterCall(env, w, inner);
    e := Wrapped(env, w, CALL, FUNC, inner);
  }

  /** The calls `cs` execute as `e`. */
  ghost predicate Runs(env: Env, w: World, cs: seq<Invocation>, e: Exec) {
    forall n: nat :: Open(n) ==> ExecBody(env, w, cs) == e
  }

  /** The calls `cs` start with some that execute as `e`, and go on with `more`. */
  ghost predicate Leads(env: Env, w: World, cs: seq<Invocation>, e: Exec, more: seq<Invocation>) {
    forall n: nat :: Open(n) ==>
      forall rest: Exec :: Runs(env, e.w, more, rest) ==> Runs(env, w, cs, Joined(e, rest))
  }

  lemma LeadsNowhere(env: Env, w: World, cs: seq<Invocation>)
    ensures Leads(env, w, cs, Exec(w, [], false), cs)
  {
    forall rest: Exec ensures Joined(Exec(w, [], false), rest) == rest {
      assert [] + rest.nodes == rest.nodes;
    }
  }

  lemma LeadsOn(env: Env, w: World, cs: seq<Invocation>, a: Exec, mid: seq<Invocation>, b: Exec, more: seq<Invocation>)
    requires Leads(env, w, cs, a, mid) && Leads(env, a.w, mid, b, more)
    ensures Leads(env, w, cs, Joined(a, b), more)
  {
    assert Open(0);
    forall rest: Exec | Runs(env, b.w, more, rest) ensures Runs(env, w, cs, Joined(Joined(a, b), rest)) {
      assert Runs(env, a.w, mid, Joined(b, rest));
      Associate(a.nodes, b.nodes, rest.nodes);
      assert Joined(a, Joined(b, rest)) == Joined(Joined(a, b), rest);
    }
  }

  lemma LeadsToEnd(env: Env, w: World, cs: seq<Invocation>, e: Exec)
    requires Leads(env, w, cs, e, []) && !e.died
    ensures Runs(env, w, cs, e)
  {
    assert Open(0);
    assert Runs(env, e.w, [], Exec(e.w, [], false));
    assert e.nodes + [] == e.nodes;
    assert Joined(e, Exec(e.w, [], false)) == e;
  }

  lemma RunsCall(env: Env, w: World, body: seq<Invocation>, inner: Exec, cs: seq<Invocation>) returns (e: Exec)
    requires Recording(w) && Runs(env, Inside(w), body, inner) && !inner.died && inner.w.enabled
    ensures Leads(env, w, [Invocation(CALL, body)] + cs, e, cs)
    ensures Recording(e.w) && e.w.tick == inner.w.tick + 1 && !e.died
    ensures |e.nodes| == 1 && e.nodes[0].kids == inner.nodes && e.nodes[0].outcome != Unfinished
    ensures e.nodes[0].outcome == Filtered <==> Short(env, w.tick, inner.w.tick)
  {
    assert Open(0);
    e := TracedCall(env, w, body, inner, cs);
  }

  /** `k` calls one after the other take `2 * k` readings. */
  lemma {:induction false} LeavesThen(env: Env, w: World, k: nat, cs: seq<Invocation>) returns (e: Exec)
    requires Recording(w)
    ensures Leads(env, w, Leaves(k) + cs, e, cs) && !e.died
    ensures Recording(e.w) && e.w.tick == w.tick + 2 * k
    decreases k
  {
    LeavesFirst(k, cs);
    if k == 0 {
      e := Exec(w, [], false);
      LeadsNowhere(env, w, cs);
    } else {
      var first := RunsCall(env, w, [], Exec(Inside(w), [], false), Leaves(k - 1) + cs);
      var others := LeavesThen(env, first.w, k - 1, cs);
      LeadsOn(env, w, Leaves(k) + cs, first, Leaves(k - 1) + cs, others, cs);
      e := Joined(first, others);
    }
  }

  lemma LeavesFirst(k: nat, cs: seq<Invocation>)
    ensures Leaves(k) + cs == if k == 0 then cs else [Invocation(CALL, [])] + (Leaves(k - 1) + cs)
  {
  }

  /** `k` calls and nothing else. */
  lemma LeavesOnly(env: Env, w: World, k: nat) returns (e: Exec)
    requires Recording(w)
    ensures Runs(env, w, Leaves(k), e) && Recording(e.w) && e.w.tick == w.tick + 2 * k && !e.died
  {
    e := LeavesThen(env, w, k, []);
    assert Leaves(k) + [] == Leaves(k);
    LeadsToEnd(env, w, Leaves(k), e);
  }

  /** `k1` calls, a call that makes `k2`, and `k3` calls. */
  function Siblings(k1: nat, k2: nat, k3: nat): seq<Invocation> {
    Leaves(k1) + [Invocation(CALL, Leaves(k2))] + Leaves(k3)
  }

  /** The one in the middle runs from reading `2 * k1` on, for `2 * k2` readings inside it. */
  lemma MiddleCall(env: Env, w: World, k1: nat, k2: nat, k3: nat)
    returns (e: Exec, before: seq<Node>, n: Node, after: seq<Node>)
    requires Recording(w)
    ensures Runs(env, w, Siblings(k1, k2, k3), e) && e.nodes == before + [n] + after && !e.died && e.w.enabled
    ensures e.w.tick == w.tick + 2 * k1 + 2 + 2 * k2 + 2 * k3
    ensures n.outcome == Filtered <==> Short(env, w.tick + 2 * k1, w.tick + 2 * k1 + 1 + 2 * k2)
  {
    var g := [Invocation(CALL, Leaves(k2))];
    var first := LeavesThen(env, w, k1, g + Leaves(k3));
    var inner := LeavesOnly(env, Inside(first.w), k2);
    var mid := RunsCall(env, first.w, Leaves(k2), inner, Leaves(k3));
    var last := LeavesOnly(env, mid.w, k3);
    before, n, after := first.nodes, mid.nodes[0], last.nodes;
    assert mid.nodes == [n];
    Associate(Leaves(k1), g, Leaves(k3));
    LeadsOn(env, w, Siblings(k1, k2, k3), first, g + Leaves(k3), mid, Leaves(k3));
    e := Joined(Joined(first, mid), last);
    assert Open(0);
  }

  lemma {:induction false} AllFilteredAt(a: seq<Node>, n: Node, b: seq<Node>)
    ensures AllFiltered(a + [n] + b) ==> n.outcome == Filtered
    decreases a
  {
    if a != [] {
      assert (a + [n] + b)[1..] == a[1..] + [n] + b;
      AllFilteredAt(a[1..], n, b);
    }
  }

  /** A call with a call inside it: the outer one is short, the inner one is not, and so closure fails. */
  lemma SiblingsBreak(env: Env, w: World, k1: nat, k2: nat, k3: nat)
    requires Recording(w)
    requires var b := w.tick + 1 + 2 * k1;
      var c := b + 1 + 2 * k2;
      Short(env, w.tick, c + 1 + 2 * k3) && !Short(env, b, c)
    ensures var e := ExecBody(env, w, [Invocation(CALL, Siblings(k1, k2, k3))]);
      e.w.tick == w.tick + 4 + 2 * k1 + 2 * k2 + 2 * k3 && !FilterClosed(e.nodes)
  {
    var inner, before, n, after := MiddleCall(env, Inside(w), k1, k2, k3);
    BreaksAround(env, w, Siblings(k1, k2, k3), inner, before, n, after);
  }

  lemma BreaksAround(env: Env, w: World, body: seq<Invocation>, inner: Exec, before: seq<Node>, n: Node,
                     after: seq<Node>)
    requires Recording(w) && Runs(env, Inside(w), body, inner) && !inner.died && inner.w.enabled
    requires inner.nodes == before + [n] + after && n.outcome != Filtered && Short(env, w.tick, inner.w.tick)
    ensures var e := ExecBody(env, w, [Invocation(CALL, body)]);
      e.w.tick == inner.w.tick + 1 && !FilterClosed(e.nodes)
  {
    AllFilteredAt(before, n, after);
    var e := RunsCall(env, w, body, inner, []);
    assert [Invocation(CALL, body)] + [] == [Invocation(CALL, body)];
    LeadsToEnd(env, w, [Invocation(CALL, body)], e);
    FilteredAround(e.nodes);
    assert Open(0);
  }

  lemma FilteredAround(ns: seq<Node>)
    requires ns != [] && ns[0].outcome == Filtered && !AllFiltered(ns[0].kids)
    ensures !FilterClosed(ns)
  {
  }

  // ------------------------------------------------------------------ the exact conditions

  const TRACING: World := World(true, true, true, FreshCtx(ZERO_TRACE).(fullTrace := true), BLANK, 0, 0, [])

  /** One function that calls another. */
  const NESTED: seq<Invocation> := [Invocation(CALL, Siblings(0, 0, 0))]

  /** Filtering is closed downward in every call tree that reads the clock between `from` and `to`. */
  ghost predicate AlwaysClosed(env: Env, from: nat, to: nat) {
    forall n: nat :: Open(n) ==>
      forall w: World, cs: seq<Invocation> :: from <= w.tick && ExecBody(env, w, cs).w.tick <= to ==>
        FilterClosed(ExecBody(env, w, cs).nodes)
  }

  /** For given readings and thresholds: exactly if a span started directly inside a short one would be
      short, too. */
  lemma FilterExact(env: Env, from: nat, to: nat)
    ensures AlwaysClosed(env, from, to) <==> Nests(env, from, to)
  {
    if Nests(env, from, to) {
      NestsAlways(env, from, to);
    } else {
      NestsNeeded(env, from, to);
    }
  }

  lemma NestsAlways(env: Env, from: nat, to: nat)
    requires Nests(env, from, to)
    ensures AlwaysClosed(env, from, to)
  {
    forall w: World, cs: seq<Invocation> | from <= w.tick && ExecBody(env, w, cs).w.tick <= to
      ensures FilterClosed(ExecBody(env, w, cs).nodes)
    {
      BodyClosed(env, w, cs, from, to);
    }
  }

  lemma NestsNeeded(env: Env, from: nat, to: nat)
    requires !Nests(env, from, to)
    ensures !AlwaysClosed(env, from, to)
  {
    var a, b, c, d := NotNested(env, from, to);
    var cs := BreakAt(env, a, b, c, d);
    BrokenAt(env, from, to, TRACING.(tick := a), cs);
  }

  lemma NotNested(env: Env, from: nat, to: nat) returns (a: nat, b: nat, c: nat, d: nat)
    requires !Nests(env, from, to)
    ensures from <= a < b < c < d < to && Odd(a, b) && Odd(b, c) && Odd(c, d) && Short(env, a, d) && !Short(env, b, c)
  {
    a, b, c, d :|
      from <= a < b < c < d < to && Odd(a, b) && Odd(b, c) && Odd(c, d) && Short(env, a, d) && !Short(env, b, c);
  }

  lemma BrokenAt(env: Env, from: nat, to: nat, w: World, cs: seq<Invocation>)
    requires from <= w.tick && ExecBody(env, w, cs).w.tick <= to && !FilterClosed(ExecBody(env, w, cs).nodes)
    ensures !AlwaysClosed(env, from, to)
  {
    assert Open(0);
  }

  lemma BreakAt(env: Env, a: nat, b: nat, c: nat, d: nat) returns (cs: seq<Invocation>)
    requires a < b < c < d && Odd(a, b) && Odd(b, c) && Odd(c, d) && Short(env, a, d) && !Short(env, b, c)
    ensures var e := ExecBody(env, TRACING.(tick := a), cs); e.w.tick == d + 1 && !FilterClosed(e.nodes)
  {
    Halves(a, b);
    Halves(b, c);
    Halves(c, d);
    SiblingsBreak(env, TRACING.(tick := a), (b - a) / 2, (c - b) / 2, (d - c) / 2);
    cs := [Invocation(CALL, Siblings((b - a) / 2, (c - b) / 2, (d - c) / 2))];
  }

  lemma Halves(x: nat, y: nat)
    requires x < y && Odd(x, y)
    ensures y == x + 1 + 2 * ((y - x) / 2)
  {
  }

  lemma BodyClosed(env: Env, w: World, cs: seq<Invocation>, from: nat, to: nat)
    requires Nests(env, from, to) && from <= w.tick && ExecBody(env, w, cs).w.tick <= to
    ensures FilterClosed(ExecBody(env, w, cs).nodes)
  {
    var e := ExecBody(env, w, cs);
    BodySound(env, w, cs);
    assert Open(0);
    NestsCloses(env, from, to, w.tick, e.w.tick, e.nodes);
  }

  lemma SteadyCloses(env: Env, from: nat, to: nat)
    requires Monotone(env.clock, from, to) && NeverRaised(env.minNs, from, to)
    ensures AlwaysClosed(env, from, to)
  {
    SteadyNests(env, from, to);
    FilterExact(env, from, to);
  }

  /** A threshold that goes up somewhere goes up from one reading to the next. */
  lemma FindRaise(minNs: nat -> Word64, i: nat, j: nat) returns (c: nat)
    requires i <= j && minNs(j) > minNs(i)
    ensures i <= c < j && minNs(c + 1) > minNs(c)
    decreases j
  {
    c := j - 1;
    if minNs(j) <= minNs(c) {
      c := FindRaise(minNs, i, c);
    }
  }

  /** For given thresholds: under every monotone clock exactly if the threshold is never raised, that is
      if no reading's threshold is above the one before it. */
  lemma ThresholdExact(env: Env, from: nat, to: nat)
    ensures (forall clock: nat -> Word64 :: Monotone(clock, from, to) ==> AlwaysClosed(env.(clock := clock), from, to))
       <==> NeverRaised(env.minNs, from, to)
  {
    if NeverRaised(env.minNs, from, to) {
      forall clock: nat -> Word64 | Monotone(clock, from, to)
        ensures AlwaysClosed(env.(clock := clock), from, to)
      {
        SteadyCloses(env.(clock := clock), from, to);
      }
    } else {
      var i: nat, j: nat :| from + 2 <= i <= j < to && env.minNs(j) > env.minNs(i);
      var c := FindRaise(env.minNs, i, j);
      var clock: nat -> Word64 := t => if t < c then 0 else env.minNs(c);
      RaisedBreaks(env, from, to, c, clock);
    }
  }

  /** A script that raises lumbre.min_duration_ns between the finishes of a call and of the one around it
      can have the outer one filtered and the inner one kept, under a clock that never goes back. */
  lemma RaisedBreaks(env: Env, from: nat, to: nat, c: nat, clock: nat -> Word64)
    requires from + 2 <= c && c + 1 < to && env.minNs(c + 1) > env.minNs(c)
    requires forall t: nat :: clock(t) == if t < c then 0 else env.minNs(c)
    ensures Monotone(clock, from, to)
    ensures !FilterClosed(ExecBody(env.(clock := clock), TRACING.(tick := c - 2), NESTED).nodes)
    ensures !AlwaysClosed(env.(clock := clock), from, to)
  {
    var w, env' := TRACING.(tick := c - 2), env.(clock := clock);
    assert Short(env', c - 2, c + 1) && !Short(env', c - 1, c);
    SiblingsBreak(env', w, 0, 0, 0);
    BrokenAt(env', from, to, w, NESTED);
  }

  /** The clock, too, must not go back: with a fixed threshold, readings 10, 10, 30, 15 around a call and
      one inside it keep only the inner one. */
  lemma FilterNeedsMonotoneClock(env: Env, w: World)
    requires Recording(w)
    requires env.clock(w.tick) == 10 && env.clock(w.tick + 1) == 10
    requires env.clock(w.tick + 2) == 30 && env.clock(w.tick + 3) == 15
    requires env.minNs(w.tick + 2) == 10 && env.minNs(w.tick + 3) == 10
    ensures !FilterClosed(ExecBody(env, w, NESTED).nodes)
  {
    SiblingsBreak(env, w, 0, 0, 0);
  }

  // ------------------------------------------------------------------ the kept spans

  /** Finished and not filtered, whatever became of the write. */
  predicate Kept(n: Node) {
    n.outcome != Filtered && n.outcome != Unfinished
  }

  ghost predicate HasKept(ns: seq<Node>) {
    ns != [] && (Kept(ns[0]) || HasKept(ns[0].kids) || HasKept(ns[1..]))
  }

  /** Every span that encloses a kept one is kept. */
  ghost predicate KeptSubtree(ns: seq<Node>) {
    if ns == [] then true
    else (HasKept(ns[0].kids) ==> Kept(ns[0])) && KeptSubtree(ns[0].kids) && KeptSubtree(ns[1..])
  }

  /** Some span that a death left open has a kept one inside. */
  ghost predicate KeptInsideOpen(ns: seq<Node>) {
    && ns != []
    && (|| (ns[0].outcome == Unfinished && HasKept(ns[0].kids))
        || KeptInsideOpen(ns[0].kids)
        || KeptInsideOpen(ns[1..]))
  }

  lemma {:induction false} NoneKept(ns: seq<Node>)
    requires AllFiltered(ns)
    ensures !HasKept(ns)
    decreases ns
  {
    if ns != [] {
      NoneKept(ns[0].kids);
      NoneKept(ns[1..]);
    }
  }

  /** Where filtering is closed downward, the kept spans form a subtree exactly if none of them lies inside
      a span left open. */
  lemma {:induction false} KeptSubtreeIff(ns: seq<Node>)
    requires FilterClosed(ns)
    ensures KeptSubtree(ns) <==> !KeptInsideOpen(ns)
    decreases ns
  {
    if ns != [] {
      KeptSubtreeIff(ns[0].kids);
      KeptSubtreeIff(ns[1..]);
      if ns[0].outcome == Filtered {
        NoneKept(ns[0].kids);
      }
    }
  }

  /** A function that calls another and then dies. */
  const DYING: seq<Invocation> := [Invocation(CALL, [Invocation(CALL, []), Invocation(Die, [])])]

  /** It leaves a span open that has a finished one inside, and if that one is not short, a kept one. */
  lemma DyingLeavesOpen(env: Env, w: World)
    requires Recording(w) && !Short(env, w.tick + 1, w.tick + 2)
    ensures KeptInsideOpen(ExecBody(env, w, DYING).nodes)
  {
    var inner := DiesAfterCall(env, Inside(w));
    var n := OpenAround(env, w, [Invocation(CALL, []), Invocation(Die, [])], inner);
    OpenKept(n);
    assert Open(0);
  }

  lemma OpenKept(n: Node)
    requires n.outcome == Unfinished && HasKept(n.kids)
    ensures KeptInsideOpen([n])
  {
  }

  lemma RunsDie(env: Env, w: World)
    ensures Runs(env, w, [Invocation(Die, [])], Exec(w, [], true))
  {
  }

  lemma DiesAfterCall(env: Env, w: World) returns (e: Exec)
    requires Recording(w)
    ensures Runs(env, w, [Invocation(CALL, []), Invocation(Die, [])], e) && e.died
    ensures !Short(env, w.tick, w.tick + 1) ==> HasKept(e.nodes)
  {
    var die := [Invocation(Die, [])];
    var first := RunsCall(env, w, [], Exec(Inside(w), [], false), die);
    assert [Invocation(CALL, [])] + die == [Invocation(CALL, []), Invocation(Die, [])];
    RunsDie(env, first.w);
    e := Joined(first, Exec(first.w, [], true));
    LeadsRun(env, w, [Invocation(CALL, []), Invocation(Die, [])], first, die, Exec(first.w, [], true));
  }

  lemma LeadsRun(env: Env, w: World, cs: seq<Invocation>, e: Exec, more: seq<Invocation>, rest: Exec)
    requires Leads(env, w, cs, e, more) && Runs(env, e.w, more, rest)
    ensures Runs(env, w, cs, Joined(e, rest))
  {
    assert Open(0);
  }

  lemma OpenAround(env: Env, w: World, body: seq<Invocation>, inner: Exec) returns (n: Node)
    requires Recording(w) && Runs(env, Inside(w), body, inner) && inner.died
    ensures Runs(env, w, [Invocation(CALL, body)], Exec(inner.w, [n], true))
    ensures n.outcome == Unfinished && n.kids == inner.nodes
  {
    assert Open(0);
    n := DiedCall(env, w, body, inner);
  }

  /** A function that dies, and one that does not. */
  const DYING_ALONE: seq<Invocation> := [Invocation(CALL, [Invocation(Die, [])])]
  const LEAF: seq<Invocation> := [Invocation(CALL, [])]

  lemma DiesAlone(env: Env, w: World)
    requires Recording(w)
    ensures var e := ExecBody(env, w, DYING_ALONE);
      Recording(e.w) && |Ids(e.nodes)| == 1 && !NoneOpen(e.nodes)
  {
    assert ExecBody(env, Inside(w), [Invocation(Die, [])]) == Exec(Inside(w), [], true);
    var n := DiedCall(env, w, [Invocation(Die, [])], Exec(Inside(w), [], true));
    IdsOne(n);
  }

  /** A traced call that died. */
  lemma DiedCall(env: Env, w: World, body: seq<Invocation>, inner: Exec) returns (n: Node)
    requires Recording(w) && inner == ExecBody(env, Inside(w), body) && inner.died
    ensures ExecBody(env, w, [Invocation(CALL, body)]) == Exec(inner.w, [n], true)
    ensures n.outcome == Unfinished && n.kids == inner.nodes
  {
    var c := Invocation(CALL, body);
    n := Wrapped(env, w, CALL, FUNC, inner).nodes[0];
    assert ExecCall(env, w, c) == Wrapped(env, w, CALL, FUNC, inner);
    assert ExecBody(env, w, [c]) == ExecCall(env, w, c);
  }

  lemma LeafStarts(env: Env, w: World)
    requires Recording(w)
    ensures ExecBody(env, w, LEAF).nodes != []
  {
    var e := RunsCall(env, w, [], Exec(Inside(w), [], false), []);
    assert [Invocation(CALL, [])] + [] == LEAF;
    LeadsToEnd(env, w, LEAF, e);
    assert Open(0);
  }

  lemma {:induction false} OpenNoSubtree(ns: seq<Node>)
    requires KeptInsideOpen(ns)
    ensures !KeptSubtree(ns)
    decreases ns
  {
    if KeptInsideOpen(ns[0].kids) {
      OpenNoSubtree(ns[0].kids);
    } else if KeptInsideOpen(ns[1..]) {
      OpenNoSubtree(ns[1..]);
    }
  }

  lemma {:induction false} FinishedNotOpen(ns: seq<Node>)
    requires AllFinished(ns)
    ensures !KeptInsideOpen(ns)
    decreases ns
  {
    if ns != [] {
      FinishedNotOpen(ns[0].kids);
      FinishedNotOpen(ns[1..]);
    }
  }
}
