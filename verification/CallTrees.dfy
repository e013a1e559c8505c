/** What holds of every call tree: numbering, parents, the implicit stack, timing and filtering. */
module CallTrees {
  import opened Bits
  import opened Bytes
  import opened Spans
  import opened Whitelist
  import opened Tracing

  // ------------------------------------------------------------------ one finish

  /** A finish restores the parent whatever its outcome, and changes of the span only its duration and,
      unless it is filtered, a database span's query, which is cut to the limit if there is one. */
  lemma FinishRestores(env: Env, w: World, s: Span, minNs: Word64)
    ensures var f := FinishSpan(env, w, s, minNs);
      && f.w.ctx == w.ctx.(currentParentId := s.parentId)
      && f.w.tick == w.tick + 1
      && f.w.enabled == w.enabled && f.w.ready == w.ready && f.w.root == w.root && f.w.rootBegan == w.rootBegan
      && f.span.spanId == s.spanId && f.span.parentId == s.parentId && f.span.kind == s.kind
      && f.span.traceId == s.traceId && f.span.startNs == s.startNs
      && f.span.durationNs == Elapsed(s.startNs, env.clock(w.tick))
      && f.span == s.(durationNs := f.span.durationNs, query := f.span.query)
      && f.span.query == (if f.outcome != Filtered && s.kind == 3 && 0 < env.maxQuery < |s.query|
                          then s.query[..env.maxQuery] else s.query)
      && f.outcome != Unfinished
      && (f.outcome == Filtered <==> TooShort(s.(durationNs := Elapsed(s.startNs, env.clock(w.tick))), minNs))
  {
  }

  /** It is dropped before the ring exactly if it is filtered, or if its encoding is longer than the pack
      buffer; then the ring takes no step. */
  lemma FinishDrops(env: Env, w: World, s: Span, minNs: Word64)
    ensures var f := FinishSpan(env, w, s, minNs);
      && (f.outcome == Overflow <==> f.outcome != Filtered && |Encode(f.span)| > 16384)
      && (f.outcome == Overflow || f.outcome == Filtered ==> f.w.acts == w.acts)
  {
    EncodedSizeExact(FinishSpan(env, w, s, minNs).span);
  }

  /** Short, of any type but HTTP_IN, is less than the threshold. */
  lemma TooShortIs(s: Span, minNs: Word64)
    ensures TooShort(s, minNs) <==> s.durationNs < minNs && s.kind != 1
  {
  }

  /** The time between two readings, also across a wrap-around of the clock's word. */
  lemma ElapsedIs(start: Word64, now: Word64)
    ensures start <= now ==> Elapsed(start, now) == now - start
    ensures start > now ==> Elapsed(start, now) == now + U64 - start
  {
  }

  lemma FilledKeeps(s: Span, hook: Hook, maxQuery: Word32)
    ensures var f := Filled(s, hook, maxQuery);
      && f.spanId == s.spanId && f.parentId == s.parentId && f.kind == s.kind
      && f.startNs == s.startNs && f.durationNs == s.durationNs && f.traceId == s.traceId
  {
  }

  lemma SpanForKeeps(env: Env, w: World, hook: Hook, kind: Byte)
    ensures var s := SpanFor(env, w, hook, kind);
      && s.spanId == w.ctx.spanCounter && s.parentId == w.ctx.currentParentId
      && s.kind == kind && s.startNs == env.clock(w.tick) && s.traceId == w.ctx.traceId
  {
    FilledKeeps(NewSpan(w.ctx, kind, env.clock(w.tick)), hook, env.maxQuery);
  }

  /** The built-in entries' numbers are the span types of these names. */
  lemma BuiltInTypes(i: nat)
    requires i < |BUILT_IN|
    ensures BUILT_IN[i].kind
         == if i < 2 then HTTP_OUT else if i < 8 then DB else if i < 12 then REDIS else if i < 15 then MEMCACHED
            else if i < 20 then FILE_IO else SOCKET
  {
    BuiltInNames(i);
  }

  /** Which internal calls are traced: with tracing enabled and an active context those of a built-in
      entry's names up to case, with the entry's span type. */
  lemma InternalDecision(enabled: bool, c: Ctx, full: bool, hook: Hook, i: nat)
    requires hook.Internal? && Unambiguous(hook.cls, hook.func) && i < |BUILT_IN|
    ensures SameButForCase(hook.cls, BUILT_IN[i].cls) && SameButForCase(hook.func, BUILT_IN[i].func) ==>
      HookDecision(enabled, c, full, hook) == if enabled && c.active then Trace(BUILT_IN[i].kind) else PassThrough
  {
    BuiltInOnly(hook.cls, hook.func, i);
  }

  /** And no others. */
  lemma OtherDecision(enabled: bool, c: Ctx, full: bool, hook: Hook)
    requires hook.Internal? && Unambiguous(hook.cls, hook.func)
    requires forall i :: 0 <= i < |BUILT_IN| ==>
      !(SameButForCase(hook.cls, BUILT_IN[i].cls) && SameButForCase(hook.func, BUILT_IN[i].func))
    ensures HookDecision(enabled, c, full, hook) == PassThrough
  {
    BuiltInNothingElse(hook.cls, hook.func);
  }

  /** User functions are traced, as FUNC, in full mode or when the request asks for it. */
  lemma UserDecision(enabled: bool, c: Ctx, full: bool, hook: Hook)
    requires !hook.Internal?
    ensures HookDecision(enabled, c, full, hook)
         == if hook.User? && enabled && c.active && (full || c.fullTrace) then Trace(8) else PassThrough
  {
  }

  /** What a traced call's span says, by its type. */
  ghost predicate Payload(s: Span, kind: Byte, hook: Hook, maxQuery: Word32) {
    match hook
    case Internal(_, func, arg, dbType) =>
      var text := if arg.AString? then arg.s else [];
      && (kind == 2 ==> s.url == s.method_ == [] && s.statusCode == 0)
      && (kind == 3 ==>
            && s.query == text[..if |text| <= maxQuery then |text| else maxQuery]
            && s.dbType == (if arg.AString? then dbType else []) && s.rowsAffected == 0)
      && (kind == 4 || kind == 5 ==> s.cacheCmd == func && s.cacheKey == text)
      && (kind == 6 ==> s.url == text)
      && (kind == 7 ==> s.url == [])
    case User(cls, func, file, line) =>
      kind == 8 ==> s.funcClass == cls && s.funcName == func && s.funcFile == file && s.funcLine == line
    case _ => true
  }

  lemma SpanPayload(env: Env, w: World, hook: Hook, kind: Byte)
    ensures Payload(SpanFor(env, w, hook, kind), kind, hook, env.maxQuery)
    ensures kind == 3 && hook.Internal? ==> |SpanFor(env, w, hook, kind).query| <= env.maxQuery
  {
  }

  /** A traced call is recorded as a span of the type decided on, with that payload, whatever its calls do
      and whether it is finished or left open. */
  lemma RecordedCall(env: Env, w: World, c: Invocation, kind: Byte) returns (n: Node)
    requires !c.hook.Die? && !c.hook.SetEnabled? && HookDecision(w.enabled, w.ctx, env.full, c.hook) == Trace(kind)
    ensures ExecCall(env, w, c).nodes == [n] && n.kids == ExecBody(env, Inside(w), c.body).nodes
    ensures n.span.kind == kind && Payload(n.span, kind, c.hook, env.maxQuery)
  {
    var inner, s := ExecBody(env, Inside(w), c.body), SpanFor(env, w, c.hook, kind);
    n := WrappedNode(env, w, c.hook, kind, inner);
    SpanForKeeps(env, w, c.hook, kind);
    SpanPayload(env, w, c.hook, kind);
    FinishRestores(env, inner.w, s, env.minNs(inner.w.tick));
    TracedTypes(w.enabled, w.ctx, env.full, c.hook, kind);
  }

  lemma TracedTypes(enabled: bool, c: Ctx, full: bool, hook: Hook, kind: Byte)
    requires HookDecision(enabled, c, full, hook) == Trace(kind)
    ensures kind == 3 ==> hook.Internal?
  {
  }

  /** What a span around `inner` adds to it. */
  lemma WrappedNode(env: Env, w: World, hook: Hook, kind: Byte, inner: Exec) returns (n: Node)
    ensures var e := Wrapped(env, w, hook, kind, inner);
      e.nodes == [n] && e.died == inner.died && e.w.enabled == inner.w.enabled
    ensures n.kids == inner.nodes && (n.outcome == Unfinished <==> inner.died)
    ensures n.began == w.tick && n.ended == inner.w.tick
  {
    FinishRestores(env, inner.w, SpanFor(env, w, hook, kind), env.minNs(inner.w.tick));
    n := Wrapped(env, w, hook, kind, inner).nodes[0];
  }

  /** The query of a database call is recorded as its longest prefix within the limit, also for a limit
      of 0: the setter cuts to nothing what the finish, for which 0 means no limit, would have kept. */
  lemma QueryRecorded(env: Env, w: World, hook: Hook, w2: World, minNs: Word64)
    requires hook.Internal? && hook.arg.AString?
    ensures var q, max := hook.arg.s, env.maxQuery;
      var f := FinishSpan(env, w2, SpanFor(env, w, hook, DB), minNs);
      f.span.query == q[..if |q| <= max then |q| else max] && f.span.dbType == hook.dbType
  {
  }

  // ------------------------------------------------------------------ the implicit stack

  /** The id of the innermost span left open among `ns`, or `parent` if none is. */
  function Innermost(parent: Word64, ns: seq<Node>): Word64
    decreases ns
  {
    if ns == [] then parent
    else
      Innermost(if ns[0].outcome == Unfinished then Innermost(ns[0].span.spanId, ns[0].kids) else parent, ns[1..])
  }

  lemma {:induction false} InnermostAppend(parent: Word64, a: seq<Node>, b: seq<Node>)
    ensures Innermost(parent, a + b) == Innermost(Innermost(parent, a), b)
    decreases a
  {
    if a == [] {
      assert a + b == b;
    } else {
      InnermostAppend(if a[0].outcome == Unfinished then Innermost(a[0].span.spanId, a[0].kids) else parent, a[1..], b);
      assert (a + b)[1..] == a[1..] + b;
    }
  }

  lemma InnermostOne(parent: Word64, n: Node)
    ensures Innermost(parent, [n])
         == if n.outcome == Unfinished then Innermost(n.span.spanId, n.kids) else parent
  {
    assert [n][1..] == [];
  }

  /** Calls leave the context as they found it, but for the counter and the root id; where a death left
      spans open, the innermost of them is still the current parent. */
  ghost predicate Restores(w: World, e: Exec) {
    && e.w.ctx.traceId == w.ctx.traceId
    && e.w.ctx.active == w.ctx.active
    && e.w.ctx.fullTrace == w.ctx.fullTrace
    && e.w.ready == w.ready && e.w.root == w.root && e.w.rootBegan == w.rootBegan
    && e.w.ctx.currentParentId == Innermost(w.ctx.currentParentId, e.nodes)
  }

  lemma WrappedRestores(env: Env, w: World, hook: Hook, kind: Byte, inner: Exec)
    requires Restores(Inside(w), inner)
    ensures Restores(w, Wrapped(env, w, hook, kind, inner))
  {
    SpanForKeeps(env, w, hook, kind);
    FinishRestores(env, inner.w, SpanFor(env, w, hook, kind), env.minNs(inner.w.tick));
    InnermostOne(w.ctx.currentParentId, Wrapped(env, w, hook, kind, inner).nodes[0]);
  }

  // ------------------------------------------------------------------ numbering

  /** Span ids in the order the spans were started. */
  function Ids(ns: seq<Node>): seq<Word64> {
    if ns == [] then [] else [ns[0].span.spanId] + Ids(ns[0].kids) + Ids(ns[1..])
  }

  lemma {:induction false} IdsAppend(a: seq<Node>, b: seq<Node>)
    ensures Ids(a + b) == Ids(a) + Ids(b)
  {
    if a == [] {
      assert a + b == b;
    } else {
      IdsAppend(a[1..], b);
      IdsFirst(a + b);
      IdsFirst(a);
      assert (a + b)[1..] == a[1..] + b;
      Associate([a[0].span.spanId] + Ids(a[0].kids), Ids(a[1..]), Ids(b));
    }
  }

  lemma IdsFirst(ns: seq<Node>)
    requires ns != []
    ensures Ids(ns) == ([ns[0].span.spanId] + Ids(ns[0].kids)) + Ids(ns[1..])
  {
  }

  lemma Associate<T>(a: seq<T>, b: seq<T>, c: seq<T>)
    ensures (a + b) + c == a + (b + c)
  {
  }

  lemma IdsOne(n: Node)
    ensures Ids([n]) == [n.span.spanId] + Ids(n.kids)
  {
    IdsFirst([n]);
    assert [n][1..] == [];
  }

  /** Consecutive 64-bit numbers from `first` on. */
  ghost predicate Consecutive(first: nat, ids: seq<Word64>) {
    forall i :: 0 <= i < |ids| ==> ids[i] == (first + i) % U64
  }

  /** `ids` are the next ids after counter `from`, and leave the counter at `to`. */
  ghost predicate HandedOut(from: nat, ids: seq<Word64>, to: nat) {
    Consecutive(from, ids) && to == (from + |ids|) % U64
  }

  lemma HandedOutJoin(from: nat, a: seq<Word64>, mid: nat, b: seq<Word64>, to: nat)
    requires HandedOut(from, a, mid) && HandedOut(mid, b, to)
    ensures HandedOut(from, a + b, to)
  {
    SumOfWrapped(from + |a|, |b|);
    forall i | 0 <= i < |a + b| ensures (a + b)[i] == (from + i) % U64 {
      if i >= |a| {
        SumOfWrapped(from + |a|, i - |a|);
      }
    }
  }

  /** One id, then those handed out after it. */
  lemma HandedOutFirst(n: Word64, ids: seq<Word64>, to: nat)
    requires HandedOut(Next64(n), ids, to)
    ensures HandedOut(n, [n] + ids, to)
  {
    HandedOutJoin(n, [n], Next64(n), ids, to);
  }

  /** Ids are handed out consecutively in the order of starting. */
  ghost predicate Numbers(w: World, e: Exec) {
    HandedOut(w.ctx.spanCounter, Ids(e.nodes), e.w.ctx.spanCounter)
  }

  lemma WrappedNumbers(env: Env, w: World, hook: Hook, kind: Byte, inner: Exec)
    requires Numbers(Inside(w), inner)
    ensures Numbers(w, Wrapped(env, w, hook, kind, inner))
  {
    FinishRestores(env, inner.w, SpanFor(env, w, hook, kind), env.minNs(inner.w.tick));
    WrappedIds(env, w, hook, kind, inner);
    HandedOutFirst(w.ctx.spanCounter, Ids(inner.nodes), inner.w.ctx.spanCounter);
  }

  lemma WrappedIds(env: Env, w: World, hook: Hook, kind: Byte, inner: Exec)
    ensures Ids(Wrapped(env, w, hook, kind, inner).nodes) == [w.ctx.spanCounter] + Ids(inner.nodes)
  {
    var span := SpanFor(env, w, hook, kind);
    SpanForKeeps(env, w, hook, kind);
    FinishRestores(env, inner.w, span, env.minNs(inner.w.tick));
    IdsOne(Wrapped(env, w, hook, kind, inner).nodes[0]);
  }

  lemma JoinNumbers(w: World, a: Exec, b: Exec)
    requires Numbers(w, a) && Numbers(a.w, b)
    ensures Numbers(w, Joined(a, b))
  {
    IdsAppend(a.nodes, b.nodes);
    HandedOutJoin(w.ctx.spanCounter, Ids(a.nodes), a.w.ctx.spanCounter, Ids(b.nodes), b.w.ctx.spanCounter);
  }

  ghost predicate Distinct(ids: seq<Word64>) {
    forall i, j :: 0 <= i < j < |ids| ==> ids[i] != ids[j]
  }

  /** Consecutive ids are pairwise distinct exactly when there are at most 2^64 of them. */
  lemma IdsUnique(first: nat, ids: seq<Word64>)
    requires Consecutive(first, ids)
    ensures Distinct(ids) <==> |ids| <= U64
  {
    if |ids| > U64 {
      assert ids[0] == ids[U64];
    } else {
      forall i, j | 0 <= i < j < |ids| ensures ids[i] != ids[j] {
        assert 0 < (first + j) - (first + i) < U64;
      }
    }
  }

  // ------------------------------------------------------------------ parents

  /** All spans belong to one trace, and each has the innermost span open at its start as its parent:
      the enclosing one, or one that a death before it has left open; `parent` if there is none. */
  ghost predicate Linked(trace: TraceId, parent: Word64, ns: seq<Node>)
    decreases ns
  {
    if ns == [] then true
    else
      var n := ns[0];
      && n.span.traceId == trace && n.span.parentId == parent
      && Linked(trace, n.span.spanId, n.kids)
      && Linked(trace, if n.outcome == Unfinished then Innermost(n.span.spanId, n.kids) else parent, ns[1..])
  }

  lemma {:induction false} LinkedAppend(trace: TraceId, parent: Word64, a: seq<Node>, b: seq<Node>)
    ensures Linked(trace, parent, a + b) <==> Linked(trace, parent, a) && Linked(trace, Innermost(parent, a), b)
    decreases a
  {
    if a == [] {
      assert a + b == b;
    } else {
      LinkedAppend(trace, if a[0].outcome == Unfinished then Innermost(a[0].span.spanId, a[0].kids) else parent,
                   a[1..], b);
      assert (a + b)[1..] == a[1..] + b;
    }
  }

  ghost predicate Links(w: World, e: Exec) {
    Linked(w.ctx.traceId, w.ctx.currentParentId, e.nodes)
  }

  lemma WrappedLinks(env: Env, w: World, hook: Hook, kind: Byte, inner: Exec)
    requires Links(Inside(w), inner)
    ensures Links(w, Wrapped(env, w, hook, kind, inner))
  {
    SpanForKeeps(env, w, hook, kind);
    FinishRestores(env, inner.w, SpanFor(env, w, hook, kind), env.minNs(inner.w.tick));
    assert Wrapped(env, w, hook, kind, inner).nodes[1..] == [];
  }

  /** Each span's parent is the span it was started in, or `parent` at the top. */
  ghost predicate Parented(parent: Word64, ns: seq<Node>)
    decreases ns
  {
    if ns == [] then true
    else
      ns[0].span.parentId == parent && Parented(ns[0].span.spanId, ns[0].kids) && Parented(parent, ns[1..])
  }

  lemma {:induction false} ParentedRest(parent: Word64, a: seq<Node>, b: seq<Node>)
    requires Parented(parent, a + b)
    ensures Parented(parent, b)
    decreases a
  {
    if a == [] {
      assert a + b == b;
    } else {
      assert (a + b)[1..] == a[1..] + b;
      ParentedRest(parent, a[1..], b);
    }
  }

  /** No span comes after one left open, anywhere. */
  ghost predicate NothingAfterOpen(ns: seq<Node>)
    decreases ns
  {
    if ns == [] then true
    else
      && (ns[0].outcome == Unfinished ==> ns[1..] == [])
      && NothingAfterOpen(ns[0].kids) && NothingAfterOpen(ns[1..])
  }

  /** No span at the top was left open. */
  ghost predicate NoneOpen(ns: seq<Node>)
    decreases ns
  {
    if ns == [] then true else ns[0].outcome != Unfinished && NoneOpen(ns[1..])
  }

  lemma DistinctParts(p: Word64, first: seq<Word64>, rest: seq<Word64>)
    requires Distinct([p] + (first + rest))
    ensures Distinct(first) && Distinct([p] + rest)
    ensures p !in first
    ensures forall x :: x in first ==> x !in rest
  {
    var all := [p] + (first + rest);
    forall i, j | 0 <= i < j < |first| ensures first[i] != first[j] {
      assert all[1 + i] == first[i] && all[1 + j] == first[j];
    }
    forall i, j | 0 <= i < j < |[p] + rest| ensures ([p] + rest)[i] != ([p] + rest)[j] {
      assert all[0] == p && all[|first| + j] == rest[j - 1];
      assert i > 0 ==> all[|first| + i] == rest[i - 1];
    }
    forall x | x in first ensures x != p && x !in rest {
      var i :| 0 <= i < |first| && first[i] == x;
      assert all[0] == p && all[1 + i] == x;
      forall j | 0 <= j < |rest| ensures rest[j] != x {
        assert all[1 + |first| + j] == rest[j];
      }
    }
  }

  lemma {:induction false} InnermostAmong(parent: Word64, ns: seq<Node>)
    ensures Innermost(parent, ns) == parent || Innermost(parent, ns) in Ids(ns)
    ensures NoneOpen(ns) ==> Innermost(parent, ns) == parent
    decreases ns
  {
    if ns != [] {
      var n := ns[0];
      IdsFirst(ns);
      InnermostAmong(n.span.spanId, n.kids);
      InnermostAmong(if n.outcome == Unfinished then Innermost(n.span.spanId, n.kids) else parent, ns[1..]);
    }
  }

  /** While ids are distinct, the current parent is back where it was exactly if no span is left open. */
  lemma {:induction false} InnermostIff(parent: Word64, ns: seq<Node>)
    requires parent !in Ids(ns)
    ensures Innermost(parent, ns) == parent <==> NoneOpen(ns)
    decreases ns
  {
    if ns != [] {
      var n := ns[0];
      IdsFirst(ns);
      if n.outcome == Unfinished {
        InnermostAmong(n.span.spanId, n.kids);
        InnermostAmong(Innermost(n.span.spanId, n.kids), ns[1..]);
      } else {
        InnermostIff(parent, ns[1..]);
      }
    }
  }

  /** While ids are distinct, parents are the enclosing spans exactly if nothing was started after a death
      that had left a span open at the same level. */
  lemma {:induction false} ParentedIff(trace: TraceId, parent: Word64, ns: seq<Node>)
    requires Linked(trace, parent, ns) && Distinct([parent] + Ids(ns))
    ensures Parented(parent, ns) <==> NothingAfterOpen(ns)
    decreases ns
  {
    if ns != [] {
      var n, rest := ns[0], ns[1..];
      IdsFirst(ns);
      DistinctParts(parent, [n.span.spanId] + Ids(n.kids), Ids(rest));
      ParentedIff(trace, n.span.spanId, n.kids);
      if n.outcome == Unfinished {
        InnermostAmong(n.span.spanId, n.kids);
      } else {
        ParentedIff(trace, parent, rest);
      }
    }
  }

  // ------------------------------------------------------------------ open spans

  /** Every span was finished. */
  ghost predicate AllFinished(ns: seq<Node>) {
    if ns == [] then true
    else ns[0].outcome != Unfinished && AllFinished(ns[0].kids) && AllFinished(ns[1..])
  }

  /** A finished span has only finished spans inside. */
  ghost predicate Settled(ns: seq<Node>) {
    if ns == [] then true
    else (ns[0].outcome != Unfinished ==> AllFinished(ns[0].kids)) && Settled(ns[0].kids) && Settled(ns[1..])
  }

  lemma {:induction false} SettledAppend(a: seq<Node>, b: seq<Node>)
    ensures Settled(a) && Settled(b) ==> Settled(a + b)
    ensures AllFinished(a) && AllFinished(b) ==> AllFinished(a + b)
    ensures AllFinished(a) && NothingAfterOpen(a) && NothingAfterOpen(b) ==> NothingAfterOpen(a + b)
    decreases a
  {
    if a == [] {
      assert a + b == b;
    } else {
      SettledAppend(a[1..], b);
      assert (a + b)[1..] == a[1..] + b;
    }
  }

  ghost predicate Settles(e: Exec) {
    Settled(e.nodes) && (!e.died ==> AllFinished(e.nodes))
  }

  lemma WrappedSettles(env: Env, w: World, hook: Hook, kind: Byte, inner: Exec)
    requires Settles(inner)
    ensures Settles(Wrapped(env, w, hook, kind, inner))
    ensures NothingAfterOpen(inner.nodes) ==> NothingAfterOpen(Wrapped(env, w, hook, kind, inner).nodes)
  {
    FinishRestores(env, inner.w, SpanFor(env, w, hook, kind), env.minNs(inner.w.tick));
    assert Wrapped(env, w, hook, kind, inner).nodes[1..] == [];
  }

  // ------------------------------------------------------------------ timing

  /** A span from reading `s` to reading `e` of the clock is too short to be kept. */
  predicate Short(env: Env, s: nat, e: nat) {
    0 < env.minNs(e) && Elapsed(env.clock(s), env.clock(e)) < env.minNs(e)
  }

  /** The readings from `from` up to `to` are exactly those of these spans, nested as their calls are;
      a span left open has only its first. */
  ghost predicate Timed(env: Env, from: nat, to: nat, ns: seq<Node>)
    decreases ns
  {
    if ns == [] then from == to
    else
      var n := ns[0];
      && n.began == from && 2 <= n.span.kind <= 8 && n.span.startNs == env.clock(from)
      && Timed(env, from + 1, n.ended, n.kids)
      && if n.outcome == Unfinished then Timed(env, n.ended, to, ns[1..])
         else
           && n.span.durationNs == Elapsed(env.clock(from), env.clock(n.ended))
           && (n.outcome == Filtered <==> Short(env, from, n.ended))
           && Timed(env, n.ended + 1, to, ns[1..])
  }

  lemma {:induction false} TimedAppend(env: Env, from: nat, mid: nat, to: nat, a: seq<Node>, b: seq<Node>)
    requires Timed(env, from, mid, a) && Timed(env, mid, to, b)
    ensures Timed(env, from, to, a + b)
    decreases a
  {
    if a == [] {
      assert a + b == b;
    } else {
      TimedAppend(env, if a[0].outcome == Unfinished then a[0].ended else a[0].ended + 1, mid, to, a[1..], b);
      assert (a + b)[1..] == a[1..] + b;
    }
  }

  lemma {:induction false} TimedBounds(env: Env, from: nat, to: nat, ns: seq<Node>)
    requires Timed(env, from, to, ns)
    ensures from <= to && (AllFinished(ns) ==> (to - from) % 2 == 0)
    decreases ns
  {
    if ns != [] {
      TimedBounds(env, from + 1, ns[0].ended, ns[0].kids);
      TimedBounds(env, if ns[0].outcome == Unfinished then ns[0].ended else ns[0].ended + 1, to, ns[1..]);
    }
  }

  lemma TracedKinds(enabled: bool, c: Ctx, full: bool, hook: Hook)
    ensures var d := HookDecision(enabled, c, full, hook);
      d.Trace? ==> enabled && c.active && 2 <= d.kind <= 8
  {
    if hook.Internal? {
      BuiltInKinds(CanonicalKey(hook.cls, hook.func));
    }
  }

  ghost predicate Times(env: Env, w: World, e: Exec) {
    Timed(env, w.tick, e.w.tick, e.nodes)
  }

  lemma WrappedTimes(env: Env, w: World, hook: Hook, kind: Byte, inner: Exec)
    requires 2 <= kind <= 8 && Times(env, Inside(w), inner)
    ensures Times(env, w, Wrapped(env, w, hook, kind, inner))
  {
    var n := WrappedNode(env, w, hook, kind, inner);
    WrappedTiming(env, w, hook, kind, inner, n);
    NodeTimes(env, w, Inside(w), inner, n, Wrapped(env, w, hook, kind, inner));
  }

  lemma NodeTimes(env: Env, w: World, inside: World, inner: Exec, n: Node, e: Exec)
    requires inside.tick == w.tick + 1 && Times(env, inside, inner) && e.nodes == [n] && n.kids == inner.nodes
    requires n.began == w.tick && n.ended == inner.w.tick && (n.outcome == Unfinished <==> inner.died)
    requires 2 <= n.span.kind <= 8 && n.span.startNs == env.clock(w.tick)
    requires e.w.tick == if inner.died then inner.w.tick else inner.w.tick + 1
    requires !inner.died ==>
      && n.span.durationNs == Elapsed(env.clock(w.tick), env.clock(inner.w.tick))
      && (n.outcome == Filtered <==> Short(env, w.tick, inner.w.tick))
    ensures Times(env, w, e)
  {
    TimedOne(env, w.tick, e.w.tick, n);
  }

  lemma WrappedTiming(env: Env, w: World, hook: Hook, kind: Byte, inner: Exec, n: Node)
    requires Wrapped(env, w, hook, kind, inner).nodes == [n] && 2 <= kind <= 8
    ensures n.span.kind == kind && n.span.startNs == env.clock(w.tick)
    ensures inner.died ==> Wrapped(env, w, hook, kind, inner).w.tick == inner.w.tick
    ensures !inner.died ==>
      && n.span.durationNs == Elapsed(env.clock(w.tick), env.clock(inner.w.tick))
      && (n.outcome == Filtered <==> Short(env, w.tick, inner.w.tick))
      && Wrapped(env, w, hook, kind, inner).w.tick == inner.w.tick + 1
  {
    SpanForKeeps(env, w, hook, kind);
    FinishRestores(env, inner.w, SpanFor(env, w, hook, kind), env.minNs(inner.w.tick));
  }

  lemma TimedOne(env: Env, from: nat, to: nat, n: Node)
    requires n.began == from && 2 <= n.span.kind <= 8 && n.span.startNs == env.clock(from)
    requires Timed(env, from + 1, n.ended, n.kids)
    requires n.outcome == Unfinished ==> n.ended == to
    requires n.outcome != Unfinished ==>
      && n.span.durationNs == Elapsed(env.clock(from), env.clock(n.ended))
      && (n.outcome == Filtered <==> Short(env, from, n.ended)) && n.ended + 1 == to
    ensures Timed(env, from, to, [n])
  {
    assert [n][1..] == [];
  }

  // ------------------------------------------------------------------ the root id

  /** While ids do not wrap around, the spans inside a request never become its root. */
  ghost predicate KeepsRoot(w: World, e: Exec) {
    RootStays(w.ctx, |Ids(e.nodes)|, e.w.ctx)
  }

  ghost predicate RootStays(c: Ctx, started: nat, after: Ctx) {
    c.currentParentId != 0 && c.spanCounter != 0 && c.spanCounter + started < U64 ==>
      && after.rootSpanId == c.rootSpanId
      && after.currentParentId != 0 && after.spanCounter == c.spanCounter + started
  }

  lemma RootStaysInside(c: Ctx, started: nat, after: Ctx)
    requires RootStays(Entered(c), started, after)
    ensures RootStays(c, 1 + started, after)
    ensures RootStays(c, 1 + started, after.(currentParentId := c.currentParentId))
  {
  }

  lemma WrappedKeepsRoot(env: Env, w: World, hook: Hook, kind: Byte, inner: Exec)
    requires KeepsRoot(Inside(w), inner)
    ensures KeepsRoot(w, Wrapped(env, w, hook, kind, inner))
  {
    RootStaysInside(w.ctx, |Ids(inner.nodes)|, inner.w.ctx);
    WrappedIds(env, w, hook, kind, inner);
    SpanForKeeps(env, w, hook, kind);
    FinishRestores(env, inner.w, SpanFor(env, w, hook, kind), env.minNs(inner.w.tick));
  }

  lemma JoinKeepsRoot(w: World, a: Exec, b: Exec)
    requires KeepsRoot(w, a) && KeepsRoot(a.w, b)
    ensures KeepsRoot(w, Joined(a, b))
  {
    IdsAppend(a.nodes, b.nodes);
  }

  // ------------------------------------------------------------------ every call tree

  /** All of the above, of an execution from the world `w`. */
  ghost predicate Sound(env: Env, w: World, e: Exec) {
    forall n: nat :: Open(n) ==>
      && Restores(w, e) && Numbers(w, e) && Links(w, e) && Settles(e) && Times(env, w, e) && KeepsRoot(w, e)
  }

  lemma SoundMoved(env: Env, w: World, v: World, e: Exec)
    requires Sound(env, v, e) && v == w.(enabled := v.enabled)
    ensures Sound(env, w, e)
  {
    assert Open(0);
  }

  lemma NothingIsSound(env: Env, w: World, died: bool)
    ensures Sound(env, w, Exec(w, [], died))
  {
  }

  lemma WrappedIsSound(env: Env, w: World, hook: Hook, kind: Byte, inner: Exec)
    requires 2 <= kind <= 8 && Sound(env, Inside(w), inner)
    ensures Sound(env, w, Wrapped(env, w, hook, kind, inner))
    ensures NothingAfterOpen(inner.nodes) ==> NothingAfterOpen(Wrapped(env, w, hook, kind, inner).nodes)
  {
    assert Open(0);
    WrappedRestores(env, w, hook, kind, inner);
    WrappedNumbers(env, w, hook, kind, inner);
    WrappedLinks(env, w, hook, kind, inner);
    WrappedSettles(env, w, hook, kind, inner);
    WrappedTimes(env, w, hook, kind, inner);
    WrappedKeepsRoot(env, w, hook, kind, inner);
  }

  /** What holds of two executions holds of the one after the other, also after a death. */
  lemma JoinIsSound(env: Env, w: World, a: Exec, b: Exec)
    requires Sound(env, w, a) && Sound(env, a.w, b)
    ensures Sound(env, w, Joined(a, b))
    ensures !a.died && NothingAfterOpen(a.nodes) && NothingAfterOpen(b.nodes) ==>
      NothingAfterOpen(Joined(a, b).nodes)
  {
    assert Open(0);
    InnermostAppend(w.ctx.currentParentId, a.nodes, b.nodes);
    JoinNumbers(w, a, b);
    LinkedAppend(w.ctx.traceId, w.ctx.currentParentId, a.nodes, b.nodes);
    SettledAppend(a.nodes, b.nodes);
    TimedAppend(env, w.tick, a.w.tick, b.w.tick, a.nodes, b.nodes);
    JoinKeepsRoot(w, a, b);
  }

  lemma {:induction false} CallSound(env: Env, w: World, c: Invocation)
    ensures Sound(env, w, ExecCall(env, w, c)) && NothingAfterOpen(ExecCall(env, w, c).nodes)
    decreases c
  {
    if c.hook.Die? {
      NothingIsSound(env, w, true);
    } else if c.hook.SetEnabled? {
      var v := w.(enabled := c.hook.on);
      BodySound(env, v, c.body);
      SoundMoved(env, w, v, ExecBody(env, v, c.body));
    } else {
      TracedKinds(w.enabled, w.ctx, env.full, c.hook);
      match HookDecision(w.enabled, w.ctx, env.full, c.hook)
      case PassThrough => BodySound(env, w, c.body);
      case Trace(kind) =>
        BodySound(env, Inside(w), c.body);
        WrappedIsSound(env, w, c.hook, kind, ExecBody(env, Inside(w), c.body));
    }
  }

  lemma {:induction false} BodySound(env: Env, w: World, cs: seq<Invocation>)
    ensures Sound(env, w, ExecBody(env, w, cs)) && NothingAfterOpen(ExecBody(env, w, cs).nodes)
    decreases cs
  {
    if cs == [] {
      NothingIsSound(env, w, false);
    } else {
      var first := ExecCall(env, w, cs[0]);
      CallSound(env, w, cs[0]);
      if !first.died {
        BodySound(env, first.w, cs[1..]);
        JoinIsSound(env, w, first, ExecBody(env, first.w, cs[1..]));
      }
    }
  }

  /** Every sequence of phases, each an arbitrary call tree that may die anywhere. */
  lemma {:induction false} PhasesSound(env: Env, w: World, phases: seq<seq<Invocation>>)
    ensures Sound(env, w, ExecPhases(env, w, phases))
    decreases |phases|
  {
    if phases == [] {
      NothingIsSound(env, w, false);
    } else {
      var first := ExecBody(env, w, phases[0]);
      BodySound(env, w, phases[0]);
      PhasesSound(env, first.w, phases[1..]);
      JoinIsSound(env, w, first, ExecPhases(env, first.w, phases[1..]));
    }
  }

  /** After any phases the current parent is the innermost span that a death left open; the rest of the
      context is as before, but for the counter and the root id. */
  lemma PhasesRestore(env: Env, w: World, phases: seq<seq<Invocation>>)
    ensures Restores(w, ExecPhases(env, w, phases))
  {
    PhasesSound(env, w, phases);
    assert Open(0);
  }

  /** Span ids are consecutive in the order of starting. */
  lemma PhasesNumber(env: Env, w: World, phases: seq<seq<Invocation>>)
    ensures Numbers(w, ExecPhases(env, w, phases))
  {
    PhasesSound(env, w, phases);
    assert Open(0);
  }

  /** Every span's parent is the innermost span open when it was started. */
  lemma PhasesLink(env: Env, w: World, phases: seq<seq<Invocation>>)
    ensures Links(w, ExecPhases(env, w, phases))
  {
    PhasesSound(env, w, phases);
    assert Open(0);
  }

  /** Clock readings nest as the calls do, and a span is filtered exactly when it is short. */
  lemma PhasesTime(env: Env, w: World, phases: seq<seq<Invocation>>)
    ensures Times(env, w, ExecPhases(env, w, phases))
  {
    PhasesSound(env, w, phases);
    assert Open(0);
  }

  /** A finished span has only finished spans inside, and without a death all are finished. */
  lemma PhasesSettle(env: Env, w: World, phases: seq<seq<Invocation>>)
    ensures Settles(ExecPhases(env, w, phases))
  {
    PhasesSound(env, w, phases);
    assert Open(0);
  }

  lemma PhasesKeepRoot(env: Env, w: World, phases: seq<seq<Invocation>>)
    ensures KeepsRoot(w, ExecPhases(env, w, phases))
  {
    PhasesSound(env, w, phases);
    assert Open(0);
  }

  /** A call that executed to its end restored the current parent. */
  lemma BodyRestores(env: Env, w: World, cs: seq<Invocation>)
    ensures var e := ExecBody(env, w, cs);
      Restores(w, e) && (!e.died ==> e.w.ctx.currentParentId == w.ctx.currentParentId)
  {
    BodySound(env, w, cs);
    assert Open(0);
    FinishedNoneOpen(ExecBody(env, w, cs).nodes);
    InnermostAmong(w.ctx.currentParentId, ExecBody(env, w, cs).nodes);
  }

  lemma {:induction false} FinishedNoneOpen(ns: seq<Node>)
    ensures AllFinished(ns) ==> NoneOpen(ns)
    decreases ns
  {
    if ns != [] {
      FinishedNoneOpen(ns[1..]);
    }
  }

  /** In one call tree, wherever it dies, parents are the enclosing spans. */
  lemma BodyParents(env: Env, w: World, cs: seq<Invocation>)
    ensures Parented(w.ctx.currentParentId, ExecBody(env, w, cs).nodes)
  {
    BodySound(env, w, cs);
    assert Open(0);
    LinkedParented(w.ctx.traceId, w.ctx.currentParentId, ExecBody(env, w, cs).nodes);
  }

  lemma {:induction false} LinkedParented(trace: TraceId, parent: Word64, ns: seq<Node>)
    requires Linked(trace, parent, ns) && NothingAfterOpen(ns)
    ensures Parented(parent, ns)
    decreases ns
  {
    if ns != [] {
      LinkedParented(trace, ns[0].span.spanId, ns[0].kids);
      if ns[0].outcome != Unfinished {
        LinkedParented(trace, parent, ns[1..]);
      }
    }
  }

  // ------------------------------------------------------------------ no spans without a context

  /** Without an active context nothing is traced. */
  lemma {:induction false} CallIdle(env: Env, w: World, c: Invocation)
    requires !w.ctx.active
    ensures var e := ExecCall(env, w, c); e.nodes == [] && e.w == w.(enabled := e.w.enabled)
    decreases c
  {
    if c.hook.SetEnabled? {
      BodyIdle(env, w.(enabled := c.hook.on), c.body);
    } else if !c.hook.Die? {
      BodyIdle(env, w, c.body);
    }
  }

  lemma {:induction false} BodyIdle(env: Env, w: World, cs: seq<Invocation>)
    requires !w.ctx.active
    ensures var e := ExecBody(env, w, cs); e.nodes == [] && e.w == w.(enabled := e.w.enabled)
    decreases cs
  {
    if cs != [] {
      CallIdle(env, w, cs[0]);
      BodyIdle(env, ExecCall(env, w, cs[0]).w, cs[1..]);
    }
  }

  lemma {:induction false} PhasesIdle(env: Env, w: World, phases: seq<seq<Invocation>>)
    requires !w.ctx.active
    ensures var e := ExecPhases(env, w, phases); e.nodes == [] && e.w == w.(enabled := e.w.enabled)
    decreases |phases|
  {
    if phases != [] {
      BodyIdle(env, w, phases[0]);
      PhasesIdle(env, ExecBody(env, w, phases[0]).w, phases[1..]);
    }
  }
}
