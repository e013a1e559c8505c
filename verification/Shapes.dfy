/** What a call tree's execution looks like before the clock has a say: which spans start, nest, finish and
    stay open. Hence exact conditions that need no clock. */
module Shapes {
  import opened Bits
  import opened Bytes
  import opened Spans
  import opened Whitelist
  import opened Tracing
  import opened CallTrees
  import opened Filtering

  // ------------------------------------------------------------------ the clock does not change the shape

  /** The same spans, up to what the clock and the filter make of them. */
  ghost predicate SameShape(a: seq<Node>, b: seq<Node>)
    decreases a
  {
    if a == [] || b == [] then a == b
    else
      && a[0].began == b[0].began && a[0].ended == b[0].ended
      && (a[0].outcome == Unfinished <==> b[0].outcome == Unfinished)
      && SameShape(a[0].kids, b[0].kids)
      && SameShape(a[1..], b[1..])
  }

  lemma {:induction false} SameShapeAppend(a: seq<Node>, b: seq<Node>, c: seq<Node>, d: seq<Node>)
    requires SameShape(a, b) && SameShape(c, d)
    ensures SameShape(a + c, b + d)
    decreases a
  {
    if a == [] {
      assert a + c == c && b + d == d;
    } else {
      SameShapeAppend(a[1..], b[1..], c, d);
      assert (a + c)[1..] == a[1..] + c && (b + d)[1..] == b[1..] + d;
    }
  }

  /** The same but for what has happened to the ring. */
  ghost predicate Alike(w: World, v: World) {
    forall n: nat :: Open(n) ==> v == w.(acts := v.acts)
  }

  ghost predicate SameRun(a: Exec, b: Exec) {
    Alike(a.w, b.w) && a.died == b.died && SameShape(a.nodes, b.nodes)
  }

  lemma InsideAlike(w: World, v: World)
    requires Alike(w, v)
    ensures Alike(Inside(w), Inside(v)) && w.enabled == v.enabled && w.ctx == v.ctx && w.tick == v.tick
  {
    assert Open(0);
  }

  lemma WrappedAlike(env: Env, env': Env, w: World, v: World, hook: Hook, kind: Byte, a: Exec, b: Exec)
    requires Alike(w, v) && SameRun(a, b)
    ensures SameRun(Wrapped(env, w, hook, kind, a), Wrapped(env', v, hook, kind, b))
  {
    var m := WrappedNode(env, w, hook, kind, a);
    var n := WrappedNode(env', v, hook, kind, b);
    InsideAlike(w, v);
    InsideAlike(a.w, b.w);
    OneShape(m, n);
    WrappedWorlds(env, env', w, v, hook, kind, a, b);
  }

  lemma OneShape(m: Node, n: Node)
    requires m.began == n.began && m.ended == n.ended && (m.outcome == Unfinished <==> n.outcome == Unfinished)
    requires SameShape(m.kids, n.kids)
    ensures SameShape([m], [n])
  {
    assert [m][1..] == [] == [n][1..];
  }

  lemma WrappedWorlds(env: Env, env': Env, w: World, v: World, hook: Hook, kind: Byte, a: Exec, b: Exec)
    requires w.ctx == v.ctx && Alike(a.w, b.w) && a.died == b.died
    ensures Alike(Wrapped(env, w, hook, kind, a).w, Wrapped(env', v, hook, kind, b).w)
  {
    if !a.died {
      SpanForKeeps(env, w, hook, kind);
      SpanForKeeps(env', v, hook, kind);
      FinishAlike(env, env', a.w, b.w, SpanFor(env, w, hook, kind), SpanFor(env', v, hook, kind));
    }
  }

  lemma FinishAlike(env: Env, env': Env, w: World, v: World, s: Span, t: Span)
    requires Alike(w, v) && s.parentId == t.parentId
    ensures Alike(FinishSpan(env, w, s, env.minNs(w.tick)).w, FinishSpan(env', v, t, env'.minNs(v.tick)).w)
  {
    assert Open(0);
    FinishLeaves(env, w, s, env.minNs(w.tick));
    FinishLeaves(env', v, t, env'.minNs(v.tick));
  }

  lemma FinishLeaves(env: Env, w: World, s: Span, minNs: Word64)
    ensures var v := FinishSpan(env, w, s, minNs).w;
      v == w.(ctx := w.ctx.(currentParentId := s.parentId), tick := w.tick + 1, acts := v.acts)
  {
  }

  lemma JoinAlike(a: Exec, b: Exec, c: Exec, d: Exec)
    requires SameRun(a, b) && SameRun(c, d)
    ensures SameRun(Joined(a, c), Joined(b, d))
  {
    SameShapeAppend(a.nodes, b.nodes, c.nodes, d.nodes);
  }

  lemma {:induction false} CallAlike(env: Env, env': Env, w: World, v: World, c: Invocation)
    requires Alike(w, v) && env'.full == env.full
    ensures SameRun(ExecCall(env, w, c), ExecCall(env', v, c))
    decreases c
  {
    InsideAlike(w, v);
    if c.hook.SetEnabled? {
      SetAlike(w, v, c.hook.on);
      BodyAlike(env, env', w.(enabled := c.hook.on), v.(enabled := c.hook.on), c.body);
    } else if !c.hook.Die? {
      match HookDecision(w.enabled, w.ctx, env.full, c.hook)
      case PassThrough => BodyAlike(env, env', w, v, c.body);
      case Trace(kind) =>
        BodyAlike(env, env', Inside(w), Inside(v), c.body);
        WrappedAlike(env, env', w, v, c.hook, kind, ExecBody(env, Inside(w), c.body),
                     ExecBody(env', Inside(v), c.body));
    }
  }

  lemma SetAlike(w: World, v: World, on: bool)
    requires Alike(w, v)
    ensures Alike(w.(enabled := on), v.(enabled := on))
  {
    assert Open(0);
  }

  lemma {:induction false} BodyAlike(env: Env, env': Env, w: World, v: World, cs: seq<Invocation>)
    requires Alike(w, v) && env'.full == env.full
    ensures SameRun(ExecBody(env, w, cs), ExecBody(env', v, cs))
    decreases cs
  {
    if cs != [] {
      var a, b := ExecCall(env, w, cs[0]), ExecCall(env', v, cs[0]);
      CallAlike(env, env', w, v, cs[0]);
      if !a.died {
        BodyAlike(env, env', a.w, b.w, cs[1..]);
        JoinAlike(a, b, ExecBody(env, a.w, cs[1..]), ExecBody(env', b.w, cs[1..]));
      }
    }
  }

  /** Two environments with the same mode give any phases the same shape. */
  lemma {:induction false} PhasesAlike(env: Env, env': Env, w: World, v: World, phases: seq<seq<Invocation>>)
    requires Alike(w, v) && env'.full == env.full
    ensures SameRun(ExecPhases(env, w, phases), ExecPhases(env', v, phases))
    decreases |phases|
  {
    if phases != [] {
      var a, b := ExecBody(env, w, phases[0]), ExecBody(env', v, phases[0]);
      BodyAlike(env, env', w, v, phases[0]);
      PhasesAlike(env, env', a.w, b.w, phases[1..]);
      JoinAlike(a, b, ExecPhases(env, a.w, phases[1..]), ExecPhases(env', b.w, phases[1..]));
    }
  }

  // ------------------------------------------------------------------ closure of one tree under every clock

  lemma {:induction false} NoneBelowShape(minNs: nat -> Word64, min: Word64, a: seq<Node>, b: seq<Node>)
    requires SameShape(a, b)
    ensures NoneBelow(minNs, min, a) <==> NoneBelow(minNs, min, b)
    decreases a
  {
    if a != [] {
      NoneBelowShape(minNs, min, a[0].kids, b[0].kids);
      NoneBelowShape(minNs, min, a[1..], b[1..]);
    }
  }

  lemma {:induction false} ThresholdsShape(minNs: nat -> Word64, a: seq<Node>, b: seq<Node>)
    requires SameShape(a, b)
    ensures ThresholdsNest(minNs, a) <==> ThresholdsNest(minNs, b)
    decreases a
  {
    if a != [] {
      NoneBelowShape(minNs, minNs(a[0].ended), a[0].kids, b[0].kids);
      ThresholdsShape(minNs, a[0].kids, b[0].kids);
      ThresholdsShape(minNs, a[1..], b[1..]);
    }
  }

  /** Some span among `ns` was finished at reading `c`. */
  ghost predicate EndsAt(ns: seq<Node>, c: nat) {
    && ns != []
    && (|| (ns[0].outcome != Unfinished && ns[0].ended == c)
        || EndsAt(ns[0].kids, c)
        || EndsAt(ns[1..], c))
  }

  /** A span has a higher threshold at its finish than one inside it at its own, reading `c`. */
  ghost predicate Exceeds(minNs: nat -> Word64, ns: seq<Node>, c: nat) {
    && ns != []
    && (|| (ns[0].outcome != Unfinished && minNs(ns[0].ended) > minNs(c) && EndsAt(ns[0].kids, c))
        || Exceeds(minNs, ns[0].kids, c)
        || Exceeds(minNs, ns[1..], c))
  }

  lemma {:induction false} FindBelow(minNs: nat -> Word64, min: Word64, ns: seq<Node>) returns (c: nat)
    requires !NoneBelow(minNs, min, ns)
    ensures EndsAt(ns, c) && minNs(c) < min
    decreases ns
  {
    if ns[0].outcome != Unfinished && minNs(ns[0].ended) < min {
      c := ns[0].ended;
    } else if !NoneBelow(minNs, min, ns[0].kids) {
      c := FindBelow(minNs, min, ns[0].kids);
    } else {
      c := FindBelow(minNs, min, ns[1..]);
    }
  }

  lemma {:induction false} FindExcess(minNs: nat -> Word64, ns: seq<Node>) returns (c: nat)
    requires !ThresholdsNest(minNs, ns)
    ensures Exceeds(minNs, ns, c)
    decreases ns
  {
    if ns[0].outcome != Unfinished && !NoneBelow(minNs, minNs(ns[0].ended), ns[0].kids) {
      c := FindBelow(minNs, minNs(ns[0].ended), ns[0].kids);
    } else if !ThresholdsNest(minNs, ns[0].kids) {
      c := FindExcess(minNs, ns[0].kids);
    } else {
      c := FindExcess(minNs, ns[1..]);
    }
  }

  lemma {:induction false} EndsShape(a: seq<Node>, b: seq<Node>, c: nat)
    requires SameShape(a, b)
    ensures EndsAt(a, c) <==> EndsAt(b, c)
    decreases a
  {
    if a != [] {
      EndsShape(a[0].kids, b[0].kids, c);
      EndsShape(a[1..], b[1..], c);
    }
  }

  lemma {:induction false} ExceedsShape(minNs: nat -> Word64, a: seq<Node>, b: seq<Node>, c: nat)
    requires SameShape(a, b)
    ensures Exceeds(minNs, a, c) <==> Exceeds(minNs, b, c)
    decreases a
  {
    if a != [] {
      EndsShape(a[0].kids, b[0].kids, c);
      ExceedsShape(minNs, a[0].kids, b[0].kids, c);
      ExceedsShape(minNs, a[1..], b[1..], c);
    }
  }

  /** Time stands still but for reading `c`, where it moves on by just the threshold of a finish there. */
  ghost predicate JumpsAt(env: Env, c: nat) {
    forall t: nat :: env.clock(t) == if t < c then 0 else env.minNs(c)
  }

  /** A span that ends at the jump is kept. */
  lemma {:induction false} JumpKeeps(env: Env, c: nat, from: nat, to: nat, ns: seq<Node>)
    requires JumpsAt(env, c) && Timed(env, from, to, ns) && EndsAt(ns, c)
    ensures from < c < to && !AllFiltered(ns)
    decreases ns
  {
    var n := ns[0];
    var next := if n.outcome == Unfinished then n.ended else n.ended + 1;
    TimedBounds(env, from + 1, n.ended, n.kids);
    TimedBounds(env, next, to, ns[1..]);
    if n.outcome != Unfinished && n.ended == c {
      assert !Short(env, from, c);
    } else if EndsAt(n.kids, c) {
      JumpKeeps(env, c, from + 1, n.ended, n.kids);
    } else {
      JumpKeeps(env, c, next, to, ns[1..]);
    }
  }

  lemma {:induction false} JumpBreaks(env: Env, c: nat, from: nat, to: nat, ns: seq<Node>)
    requires JumpsAt(env, c) && Timed(env, from, to, ns) && Exceeds(env.minNs, ns, c)
    ensures !FilterClosed(ns)
    decreases ns
  {
    var n := ns[0];
    var next := if n.outcome == Unfinished then n.ended else n.ended + 1;
    if n.outcome != Unfinished && env.minNs(n.ended) > env.minNs(c) && EndsAt(n.kids, c) {
      JumpKeeps(env, c, from + 1, n.ended, n.kids);
      assert Short(env, from, n.ended);
    } else if Exceeds(env.minNs, n.kids, c) {
      JumpBreaks(env, c, from + 1, n.ended, n.kids);
    } else {
      JumpBreaks(env, c, next, to, ns[1..]);
    }
  }

  /** Filtering of these phases is closed downward under every monotone clock. */
  ghost predicate ClosedAnyClock(env: Env, w: World, phases: seq<seq<Invocation>>) {
    forall clock: nat -> Word64 :: Monotone(clock, w.tick, ExecPhases(env, w, phases).w.tick) ==>
      FilterClosed(ExecPhases(env.(clock := clock), w, phases).nodes)
  }

  /** For given phases: filtering is closed downward under every monotone clock exactly if no span's finish
      has a higher threshold than a finish inside it. */
  lemma TreeExact(env: Env, w: World, phases: seq<seq<Invocation>>)
    ensures ClosedAnyClock(env, w, phases) <==> ThresholdsNest(env.minNs, ExecPhases(env, w, phases).nodes)
  {
    if ThresholdsNest(env.minNs, ExecPhases(env, w, phases).nodes) {
      forall clock: nat -> Word64 | Monotone(clock, w.tick, ExecPhases(env, w, phases).w.tick)
        ensures FilterClosed(ExecPhases(env.(clock := clock), w, phases).nodes)
      {
        NestedCloses(env, clock, w, phases);
      }
    } else {
      var c := FindExcess(env.minNs, ExecPhases(env, w, phases).nodes);
      var clock: nat -> Word64 := t => if t < c then 0 else env.minNs(c);
      ExcessBreaks(env, clock, c, w, phases);
    }
  }

  lemma NestedCloses(env: Env, clock: nat -> Word64, w: World, phases: seq<seq<Invocation>>)
    requires ThresholdsNest(env.minNs, ExecPhases(env, w, phases).nodes)
    requires Monotone(clock, w.tick, ExecPhases(env, w, phases).w.tick)
    ensures FilterClosed(ExecPhases(env.(clock := clock), w, phases).nodes)
  {
    var env' := env.(clock := clock);
    var e, e' := ExecPhases(env, w, phases), ExecPhases(env', w, phases);
    PhasesAlike(env, env', w, w, phases);
    InsideAlike(e.w, e'.w);
    ThresholdsShape(env.minNs, e.nodes, e'.nodes);
    PhasesTime(env', w, phases);
    PhasesSettle(env', w, phases);
    ThresholdsClose(env', w.tick, e'.w.tick, e'.nodes);
  }

  lemma ExcessBreaks(env: Env, clock: nat -> Word64, c: nat, w: World, phases: seq<seq<Invocation>>)
    requires Exceeds(env.minNs, ExecPhases(env, w, phases).nodes, c) && JumpsAt(env.(clock := clock), c)
    ensures Monotone(clock, w.tick, ExecPhases(env, w, phases).w.tick)
    ensures !FilterClosed(ExecPhases(env.(clock := clock), w, phases).nodes)
  {
    var env' := env.(clock := clock);
    var e, e' := ExecPhases(env, w, phases), ExecPhases(env', w, phases);
    assert forall t: nat :: clock(t) == env'.clock(t);
    PhasesAlike(env, env', w, w, phases);
    ExceedsShape(env.minNs, e.nodes, e'.nodes, c);
    PhasesTime(env', w, phases);
    JumpBreaks(env', c, w.tick, e'.w.tick, e'.nodes);
  }

  // ------------------------------------------------------------------ the outline of calls

  /** What can be said of an execution from its calls alone. */
  datatype Outline = Outline(
    enabled: bool,           // tracing is enabled afterwards
    died: bool,
    started: bool,           // a span was started
    ended: bool,             // one was finished
    open: bool,              // one was left open
    endedInOpen: bool,       // one was finished inside one left open
    startedAfterOpen: bool   // one was started after one left open, at the same level
  )

  /** With an active context. `full` stands for the mode or the trigger header. */
  predicate Hooked(enabled: bool, full: bool, hook: Hook) {
    enabled &&
    match hook
    case Internal(cls, func, _, _) => FirstMatch(BUILT_IN, CanonicalKey(cls, func)).Match?
    case User(_, _, _, _) => full
    case _ => false
  }

  function Blank(enabled: bool, died: bool): Outline {
    Outline(enabled, died, false, false, false, false, false)
  }

  /** A span around calls: left open if they died. */
  function SpanAround(o: Outline): Outline {
    o.(started := true, ended := o.ended || !o.died, open := o.died,
       endedInOpen := o.endedInOpen || (o.died && o.ended))
  }

  function Followed(a: Outline, b: Outline): Outline {
    Outline(b.enabled, a.died || b.died, a.started || b.started, a.ended || b.ended, a.open || b.open,
            a.endedInOpen || b.endedInOpen,
            a.startedAfterOpen || b.startedAfterOpen || (a.open && b.started))
  }

  function OutlineCall(enabled: bool, full: bool, c: Invocation): Outline
    decreases c
  {
    if c.hook.Die? then Blank(enabled, true)
    else if c.hook.SetEnabled? then OutlineBody(c.hook.on, full, c.body)
    else if Hooked(enabled, full, c.hook) then SpanAround(OutlineBody(enabled, full, c.body))
    else OutlineBody(enabled, full, c.body)
  }

  function OutlineBody(enabled: bool, full: bool, cs: seq<Invocation>): Outline
    decreases cs
  {
    if cs == [] then Blank(enabled, false)
    else
      var first := OutlineCall(enabled, full, cs[0]);
      if first.died then first else Followed(first, OutlineBody(first.enabled, full, cs[1..]))
  }

  function OutlinePhases(enabled: bool, full: bool, phases: seq<seq<Invocation>>): Outline
    decreases |phases|
  {
    if phases == [] then Blank(enabled, false)
    else
      var first := OutlineBody(enabled, full, phases[0]);
      Followed(first, OutlinePhases(first.enabled, full, phases[1..]))
  }

  ghost predicate HasFinished(ns: seq<Node>) {
    ns != [] && (ns[0].outcome != Unfinished || HasFinished(ns[0].kids) || HasFinished(ns[1..]))
  }

  ghost predicate FinishedInsideOpen(ns: seq<Node>) {
    && ns != []
    && (|| (ns[0].outcome == Unfinished && HasFinished(ns[0].kids))
        || FinishedInsideOpen(ns[0].kids)
        || FinishedInsideOpen(ns[1..]))
  }

  /** The outline is right about an execution. */
  ghost predicate Outlined(e: Exec, o: Outline) {
    forall n: nat :: Open(n) ==>
      && o.enabled == e.w.enabled && o.died == e.died
      && o.started == (e.nodes != [])
      && o.ended == HasFinished(e.nodes)
      && o.open == !NoneOpen(e.nodes)
      && o.endedInOpen == FinishedInsideOpen(e.nodes)
      && o.startedAfterOpen == !NothingAfterOpen(e.nodes)
  }

  lemma {:induction false} OutlineAppend(a: seq<Node>, b: seq<Node>)
    ensures HasFinished(a + b) <==> HasFinished(a) || HasFinished(b)
    ensures NoneOpen(a + b) <==> NoneOpen(a) && NoneOpen(b)
    ensures FinishedInsideOpen(a + b) <==> FinishedInsideOpen(a) || FinishedInsideOpen(b)
    ensures NothingAfterOpen(a + b) <==> NothingAfterOpen(a) && NothingAfterOpen(b) && (b == [] || NoneOpen(a))
    decreases a
  {
    if a == [] {
      assert a + b == b;
    } else {
      OutlineAppend(a[1..], b);
      assert (a + b)[1..] == a[1..] + b;
    }
  }

  lemma JoinOutlined(a: Exec, b: Exec, o: Outline, p: Outline)
    requires Outlined(a, o) && Outlined(b, p)
    ensures Outlined(Joined(a, b), Followed(o, p))
  {
    assert Open(0);
    OutlineAppend(a.nodes, b.nodes);
  }

  lemma NothingOutlined(w: World, died: bool)
    ensures Outlined(Exec(w, [], died), Blank(w.enabled, died))
  {
  }

  lemma OutlineOne(n: Node)
    ensures HasFinished([n]) <==> n.outcome != Unfinished || HasFinished(n.kids)
    ensures NoneOpen([n]) <==> n.outcome != Unfinished
    ensures FinishedInsideOpen([n]) <==> FinishedInsideOpen(n.kids) || (n.outcome == Unfinished && HasFinished(n.kids))
    ensures NothingAfterOpen([n]) <==> NothingAfterOpen(n.kids)
  {
    assert [n][1..] == [];
  }

  lemma WrappedOutlined(env: Env, w: World, hook: Hook, kind: Byte, inner: Exec, o: Outline)
    requires Outlined(inner, o)
    ensures Outlined(Wrapped(env, w, hook, kind, inner), SpanAround(o))
  {
    var n := WrappedNode(env, w, hook, kind, inner);
    NodeOutlined(Wrapped(env, w, hook, kind, inner), n, inner, o);
  }

  lemma NodeOutlined(e: Exec, n: Node, inner: Exec, o: Outline)
    requires Outlined(inner, o) && e.nodes == [n] && e.died == inner.died && e.w.enabled == inner.w.enabled
    requires n.kids == inner.nodes && (n.outcome == Unfinished <==> inner.died)
    ensures Outlined(e, SpanAround(o))
  {
    assert Open(0);
    OutlineOne(n);
  }

  lemma FlagsKept(env: Env, w: World, e: Exec)
    requires Sound(env, w, e)
    ensures e.w.ctx.active == w.ctx.active && e.w.ctx.fullTrace == w.ctx.fullTrace
  {
    assert Open(0);
  }

  /** Which calls are traced. */
  lemma HookedIs(env: Env, w: World, full: bool, c: Invocation) returns (traced: bool, kind: Byte)
    requires w.ctx.active && full == (env.full || w.ctx.fullTrace) && !c.hook.Die? && !c.hook.SetEnabled?
    ensures Around(env, w, full, c, traced, kind, ExecCall(env, w, c), OutlineCall(w.enabled, full, c))
  {
    var d := HookDecision(w.enabled, w.ctx, env.full, c.hook);
    traced := Hooked(w.enabled, full, c.hook);
    kind := if d.Trace? then d.kind else 0;
  }

  /** Execution and outline of a call, with a span around it or without. */
  ghost predicate Around(env: Env, w: World, full: bool, c: Invocation, traced: bool, kind: Byte, e: Exec, o: Outline) {
    if traced then
      && e == Wrapped(env, w, c.hook, kind, ExecBody(env, Inside(w), c.body))
      && o == SpanAround(OutlineBody(w.enabled, full, c.body))
    else e == ExecBody(env, w, c.body) && o == OutlineBody(w.enabled, full, c.body)
  }

  lemma {:induction false} AroundOutlined(env: Env, w: World, full: bool, c: Invocation, traced: bool, kind: Byte,
                                          e: Exec, o: Outline)
    requires w.ctx.active && full == (env.full || w.ctx.fullTrace) && Around(env, w, full, c, traced, kind, e, o)
    ensures Outlined(e, o)
    decreases c, 0
  {
    if traced {
      BodyOutlined(env, Inside(w), full, c.body);
      WrappedOutlined(env, w, c.hook, kind, ExecBody(env, Inside(w), c.body), OutlineBody(w.enabled, full, c.body));
    } else {
      BodyOutlined(env, w, full, c.body);
    }
  }

  lemma {:induction false} CallOutlined(env: Env, w: World, full: bool, c: Invocation)
    requires w.ctx.active && full == (env.full || w.ctx.fullTrace)
    ensures Outlined(ExecCall(env, w, c), OutlineCall(w.enabled, full, c))
    decreases c, 1
  {
    if c.hook.Die? {
      NothingOutlined(w, true);
    } else if c.hook.SetEnabled? {
      BodyOutlined(env, w.(enabled := c.hook.on), full, c.body);
    } else {
      var traced, kind := HookedIs(env, w, full, c);
      AroundOutlined(env, w, full, c, traced, kind, ExecCall(env, w, c), OutlineCall(w.enabled, full, c));
    }
  }

  lemma {:induction false} BodyOutlined(env: Env, w: World, full: bool, cs: seq<Invocation>)
    requires w.ctx.active && full == (env.full || w.ctx.fullTrace)
    ensures Outlined(ExecBody(env, w, cs), OutlineBody(w.enabled, full, cs))
    decreases cs
  {
    if cs == [] {
      NothingOutlined(w, false);
    } else {
      var first, o := ExecCall(env, w, cs[0]), OutlineCall(w.enabled, full, cs[0]);
      CallOutlined(env, w, full, cs[0]);
      CallSound(env, w, cs[0]);
      FlagsKept(env, w, first);
      EnabledKnown(first, o);
      if !first.died {
        BodyOutlined(env, first.w, full, cs[1..]);
        JoinOutlined(first, ExecBody(env, first.w, cs[1..]), o, OutlineBody(first.w.enabled, full, cs[1..]));
      }
    }
  }

  lemma EnabledKnown(e: Exec, o: Outline)
    requires Outlined(e, o)
    ensures o.died == e.died && o.enabled == e.w.enabled
  {
    assert Open(0);
  }

  /** The outline of phases is right, whatever clock and thresholds are. */
  lemma {:induction false} PhasesOutlined(env: Env, w: World, full: bool, phases: seq<seq<Invocation>>)
    requires w.ctx.active && full == (env.full || w.ctx.fullTrace)
    ensures Outlined(ExecPhases(env, w, phases), OutlinePhases(w.enabled, full, phases))
    decreases |phases|
  {
    if phases == [] {
      NothingOutlined(w, false);
    } else {
      var first, o := ExecBody(env, w, phases[0]), OutlineBody(w.enabled, full, phases[0]);
      BodyOutlined(env, w, full, phases[0]);
      BodySound(env, w, phases[0]);
      FlagsKept(env, w, first);
      EnabledKnown(first, o);
      PhasesOutlined(env, first.w, full, phases[1..]);
      JoinOutlined(first, ExecPhases(env, first.w, phases[1..]), o,
                   OutlinePhases(first.w.enabled, full, phases[1..]));
    }
  }

  // ------------------------------------------------------------------ exact conditions on the calls

  lemma {:induction false} KeptIsFinished(ns: seq<Node>)
    ensures HasKept(ns) ==> HasFinished(ns)
    ensures KeptInsideOpen(ns) ==> FinishedInsideOpen(ns)
    decreases ns
  {
    if ns != [] {
      KeptIsFinished(ns[0].kids);
      KeptIsFinished(ns[1..]);
    }
  }

  /** Without a threshold everything finished is kept. */
  lemma {:induction false} FinishedIsKept(env: Env, from: nat, to: nat, ns: seq<Node>)
    requires Timed(env, from, to, ns) && forall t: nat :: env.minNs(t) == 0
    ensures HasFinished(ns) ==> HasKept(ns)
    ensures FinishedInsideOpen(ns) ==> KeptInsideOpen(ns)
    decreases ns
  {
    if ns != [] {
      FinishedIsKept(env, from + 1, ns[0].ended, ns[0].kids);
      FinishedIsKept(env, if ns[0].outcome == Unfinished then ns[0].ended else ns[0].ended + 1, to, ns[1..]);
    }
  }

  /** For given calls: some thresholds have a kept span inside one left open exactly if a traced call ends
      inside one that then dies. */
  lemma OpenExact(env: Env, w: World, full: bool, phases: seq<seq<Invocation>>)
    requires w.ctx.active && full == (env.full || w.ctx.fullTrace)
    ensures (exists minNs: nat -> Word64 :: KeptInsideOpen(ExecPhases(env.(minNs := minNs), w, phases).nodes))
       <==> OutlinePhases(w.enabled, full, phases).endedInOpen
  {
    if OutlinePhases(w.enabled, full, phases).endedInOpen {
      var minNs: nat -> Word64 := _ => 0;
      OpenKept0(env.(minNs := minNs), w, full, phases);
    }
    forall minNs: nat -> Word64 | KeptInsideOpen(ExecPhases(env.(minNs := minNs), w, phases).nodes)
      ensures OutlinePhases(w.enabled, full, phases).endedInOpen
    {
      var env' := env.(minNs := minNs);
      PhasesOutlined(env', w, full, phases);
      OpenKnown(ExecPhases(env', w, phases), OutlinePhases(w.enabled, full, phases));
      KeptIsFinished(ExecPhases(env', w, phases).nodes);
    }
  }

  lemma OpenKept0(env: Env, w: World, full: bool, phases: seq<seq<Invocation>>)
    requires w.ctx.active && full == (env.full || w.ctx.fullTrace) && forall t: nat :: env.minNs(t) == 0
    requires OutlinePhases(w.enabled, full, phases).endedInOpen
    ensures KeptInsideOpen(ExecPhases(env, w, phases).nodes)
  {
    var e := ExecPhases(env, w, phases);
    PhasesOutlined(env, w, full, phases);
    OpenKnown(e, OutlinePhases(w.enabled, full, phases));
    PhasesTime(env, w, phases);
    FinishedIsKept(env, w.tick, e.w.tick, e.nodes);
  }

  lemma OpenKnown(e: Exec, o: Outline)
    requires Outlined(e, o)
    ensures o.endedInOpen == FinishedInsideOpen(e.nodes)
    ensures o.startedAfterOpen == !NothingAfterOpen(e.nodes)
  {
    assert Open(0);
  }

  /** For given calls: parents are the enclosing spans, while ids are distinct, exactly if no traced call
      comes in a later phase than one that dies inside a traced call. */
  lemma ParentsExact(env: Env, w: World, full: bool, phases: seq<seq<Invocation>>)
    requires w.ctx.active && full == (env.full || w.ctx.fullTrace)
    requires Distinct([w.ctx.currentParentId] + Ids(ExecPhases(env, w, phases).nodes))
    ensures Parented(w.ctx.currentParentId, ExecPhases(env, w, phases).nodes)
       <==> !OutlinePhases(w.enabled, full, phases).startedAfterOpen
  {
    var e := ExecPhases(env, w, phases);
    PhasesOutlined(env, w, full, phases);
    OpenKnown(e, OutlinePhases(w.enabled, full, phases));
    PhasesLink(env, w, phases);
    ParentedIff(w.ctx.traceId, w.ctx.currentParentId, e.nodes);
  }
}
