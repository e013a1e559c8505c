/**
 * Request tracing on values: the context and span operations of lumbre_span.c, the decisions of the
 * hooks in php_lumbre.c, and the execution of a request as a tree of calls.
 */
module Tracing {
  import opened Bits
  import opened Bytes
  import opened Spans
  import opened Whitelist
  import opened Ring
  import opened RingRuns

  // ------------------------------------------------------------------ context and spans

  /** lumbre_context_t. */
  datatype Ctx = Ctx(
    traceId: TraceId,
    rootSpanId: Word64,
    currentParentId: Word64,
    spanCounter: Word64,
    active: bool,
    fullTrace: bool
  )

  /** lumbre_context_init, for the trace id it settles on. */
  function FreshCtx(traceId: TraceId): Ctx {
    Ctx(traceId, 0, 0, 1, true, false)
  }

  /** lumbre_context_reset. */
  function ResetCtx(c: Ctx): Ctx {
    c.(active := false, traceId := ZERO_TRACE)
  }

  function Next64(n: Word64): Word64 {
    (n + 1) % U64
  }

  /** The span lumbre_span_start makes. */
  function NewSpan(c: Ctx, kind: Byte, now: Word64): Span {
    BLANK.(kind := kind, traceId := c.traceId, spanId := c.spanCounter, parentId := c.currentParentId,
           startNs := now)
  }

  /** The context lumbre_span_start leaves. */
  function Entered(c: Ctx): Ctx {
    c.(spanCounter := Next64(c.spanCounter), currentParentId := c.spanCounter,
       rootSpanId := if c.currentParentId == 0 then c.spanCounter else c.rootSpanId)
  }

  function Elapsed(start: Word64, now: Word64): Word64 {
    (now - start) % U64
  }

  /** Short spans are filtered, the request's root never is. */
  predicate TooShort(s: Span, minNs: Word64) {
    minNs > 0 && s.durationNs < minNs && s.kind != HTTP_IN
  }

  function Clip(q: Text, max: Word32): (r: Text)
    ensures r <= q && |r| <= max
    ensures |q| <= max ==> r == q
  {
    if |q| > max then q[..max] else q
  }

  /** The truncation of lumbre_span_finish, where 0 means no limit. */
  function Truncated(s: Span, maxQuery: Word32): Span {
    if s.kind == DB && maxQuery > 0 then s.(query := Clip(s.query, maxQuery)) else s
  }

  // ------------------------------------------------------------------ hooks

  datatype Arg = NoString | AString(s: Text)

  /** A function call as the engine hands it to a hook. An empty class name is a plain function. */
  datatype Hook =
    | Internal(cls: Text, func: Text, arg: Arg, dbType: Text)
    | User(ucls: Text, ufunc: Text, file: Text, line: Word32)
    | Unnamed                  // no function name: both hooks pass it through
    | SetEnabled(on: bool)     // ini_set of lumbre.enabled
    | Die                      // a fatal error: control never comes back to any hook

  /** A call and the calls it makes. */
  datatype Invocation = Invocation(hook: Hook, body: seq<Invocation>)

  datatype Decision = PassThrough | Trace(kind: Byte)

  /** Whether a hook starts a span, and of which type. */
  function HookDecision(enabled: bool, c: Ctx, full: bool, hook: Hook): Decision {
    if !enabled || !c.active then PassThrough
    else match hook
      case Internal(cls, func, _, _) =>
        (match FirstMatch(BUILT_IN, CanonicalKey(cls, func))
         case NotFound => PassThrough
         case Match(src) => Trace(src.kind))
      case User(_, _, _, _) => if full || c.fullTrace then Trace(FUNC) else PassThrough
      case _ => PassThrough
  }

  /** The payload a hook puts into its span before the call. */
  function Filled(s: Span, hook: Hook, maxQuery: Word32): Span {
    match hook
    case Internal(_, func, arg, dbType) =>
      if s.kind == DB then
        (match arg
         case AString(q) => s.(query := Clip(q, maxQuery), dbType := dbType, rowsAffected := 0)
         case NoString => s)
      else if s.kind == REDIS || s.kind == MEMCACHED || s.kind == CACHE then
        s.(cacheCmd := func, cacheKey := if arg.AString? then arg.s else [])
      else if s.kind == FILE_IO && arg.AString? then s.(url := arg.s)
      else s
    case User(cls, func, file, line) =>
      s.(funcClass := cls, funcName := func, funcFile := file, funcLine := line)
    case _ => s
  }

  // ------------------------------------------------------------------ the world a request runs in

  /** What the rest of the system does: the clock, the scheduling of ring steps around and during
      each write, and the settings. */
  datatype Env = Env(
    cap: Capacity,
    memory: seq<Byte>,                // the data area at first
    clock: nat -> Word64,             // the n-th reading
    before: nat -> seq<Action>,       // consumer steps between writes
    during: nat -> seq<Action>,       // ring steps interleaved with the n-th write
    full: bool,                       // lumbre.mode
    minNs: nat -> Word64,             // lumbre.min_duration_ns at the n-th finish
    maxQuery: Word32
  )

  datatype World = World(
    enabled: bool,
    stored: bool,                     // the pack buffer has its storage
    ready: bool,                      // ring and pack buffer initialised
    ctx: Ctx,
    root: Span,                       // the root span of the request, and
    rootBegan: nat,                   // the number of its clock reading
    tick: nat,                        // clock readings so far
    acts: seq<Action>                 // ring steps so far
  )

  function RingOf(env: Env, w: World): Ring {
    RingAt(env, w.acts)
  }

  function RingAt(env: Env, acts: seq<Action>): Ring {
    Run(Word, Init(env.cap, env.memory), acts)
  }

  /** Only lumbre_ringbuf_write is called on the ring, and only by the finish of a span. */
  function Quiet(acts: seq<Action>): (q: seq<Action>)
    ensures forall a :: a in q ==> !a.Call?
  {
    if acts == [] then []
    else if acts[0].Call? then Quiet(acts[1..])
    else [acts[0]] + Quiet(acts[1..])
  }

  /** Steps that bring a write in progress to its end, whatever point it is at. */
  function Settle(s: Ring, m: seq<Byte>): seq<Action> {
    [LoadRead(if s.freed == [] then 0 else |s.freed| - 1)] + [Check] + Finish(m)
  }

  /** A write of `m`, interleaved with other ring steps, up to its return. */
  function Deliver(env: Env, w: World, m: seq<Byte>): World {
    w.(acts := Delivered(env, w.tick, w.acts, m))
  }

  function Delivered(env: Env, tick: nat, acts: seq<Action>, m: seq<Byte>): seq<Action> {
    var entered := acts + Quiet(env.before(tick)) + [Call(m)] + Quiet(env.during(tick));
    entered + Settle(RingAt(env, entered), m)
  }

  // ------------------------------------------------------------------ finishing a span

  datatype Outcome = Unfinished | Filtered | Overflow | Refused | Written

  datatype Ended = Ended(w: World, span: Span, outcome: Outcome)

  /** lumbre_span_finish. Its return value is 1 for Filtered, 0 for Written, -1 for the others. */
  function FinishSpan(env: Env, w: World, s: Span, minNs: Word64): Ended {
    var timed := s.(durationNs := Elapsed(s.startNs, env.clock(w.tick)));
    var w1 := w.(tick := w.tick + 1, ctx := w.ctx.(currentParentId := s.parentId));
    if TooShort(timed, minNs) then Ended(w1, timed, Filtered)
    else
      var t := Truncated(timed, env.maxQuery);
      if EncodedSize(t) > BUF_SIZE then Ended(w1, t, Overflow)
      else
        var w2 := Deliver(env, w1, Encode(t));
        Ended(w2, t,
          if |RingOf(env, w2).accepted| > |RingOf(env, w1).accepted| then Written else Refused)
  }

  // ------------------------------------------------------------------ executing calls

  /** A started span with the spans started inside it; `began` and `ended` number its clock readings. */
  datatype Node = Node(span: Span, outcome: Outcome, began: nat, ended: nat, kids: seq<Node>)

  datatype Exec = Exec(w: World, nodes: seq<Node>, died: bool)

  /** The world inside a span just started. */
  function Inside(w: World): World {
    w.(ctx := Entered(w.ctx), tick := w.tick + 1)
  }

  function SpanFor(env: Env, w: World, hook: Hook, kind: Byte): Span {
    Filled(NewSpan(w.ctx, kind, env.clock(w.tick)), hook, env.maxQuery)
  }

  /** A span around a call that executed as `inner`. */
  function Wrapped(env: Env, w: World, hook: Hook, kind: Byte, inner: Exec): Exec {
    var span := SpanFor(env, w, hook, kind);
    if inner.died then
      Exec(inner.w, [Node(span, Unfinished, w.tick, inner.w.tick, inner.nodes)], true)
    else
      var f := FinishSpan(env, inner.w, span, env.minNs(inner.w.tick));
      Exec(f.w, [Node(f.span, f.outcome, w.tick, inner.w.tick, inner.nodes)], false)
  }

  /** lumbre_execute_internal and lumbre_execute_ex around an arbitrary call. */
  function ExecCall(env: Env, w: World, c: Invocation): Exec
    decreases c
  {
    match c.hook
    case Die => Exec(w, [], true)
    case SetEnabled(on) => ExecBody(env, w.(enabled := on), c.body)
    case hook =>
      match HookDecision(w.enabled, w.ctx, env.full, hook)
      case PassThrough => ExecBody(env, w, c.body)
      case Trace(kind) => Wrapped(env, w, hook, kind, ExecBody(env, Inside(w), c.body))
  }

  function ExecBody(env: Env, w: World, cs: seq<Invocation>): Exec
    decreases cs
  {
    if cs == [] then Exec(w, [], false)
    else
      var first := ExecCall(env, w, cs[0]);
      if first.died then first
      else
        Joined(first, ExecBody(env, first.w, cs[1..]))
  }

  // ------------------------------------------------------------------ requests and sessions

  /** The phases are the script, then what the engine still runs before RSHUTDOWN, such as shutdown
      functions and output callbacks. A death ends a phase, not the request. */
  datatype Request = Request(
    granted: bool,           // if need be, storage for the pack buffer is granted
    mapped: bool,            // and the ring can be mapped
    traceId: TraceId,        // propagated or random
    triggered: bool,         // the trigger header is present
    uri: Text,
    method_: Text,
    phases: seq<seq<Invocation>>
  )

  datatype Rooted = NoRoot | Root(node: Node)

  datatype Served = Served(w: World, root: Rooted, stray: seq<Node>)

  function RootSpan(c: Ctx, now: Word64, r: Request): Span {
    NewSpan(c, HTTP_IN, now).(requestUri := r.uri, method_ := r.method_)
  }

  /** RINIT. */
  function RequestInit(env: Env, w: World, r: Request): World {
    if !w.enabled then w
    else if !w.ready && !w.stored && !r.granted then w.(enabled := false)
    else if !w.ready && !r.mapped then w.(enabled := false, stored := true)
    else
      var c := FreshCtx(r.traceId).(fullTrace := r.triggered);
      var root := RootSpan(c, env.clock(w.tick), r);
      w.(stored := true, ready := true, ctx := Entered(c).(rootSpanId := root.spanId), root := root,
         rootBegan := w.tick, tick := w.tick + 1)
  }

  /** RSHUTDOWN, after calls that started the spans `kids`. */
  function RequestShutdown(env: Env, w: World, kids: seq<Node>): Served {
    if !w.ctx.active then Served(w, NoRoot, kids)
    else
      var f := FinishSpan(env, w, w.root, 0);
      Served(f.w.(ctx := ResetCtx(f.w.ctx), root := f.span),
             Root(Node(f.span, f.outcome, w.rootBegan, w.tick, kids)), [])
  }

  /** The phases of a request in turn. A phase that dies leaves its open spans open, and the context as
      it stands. */
  function ExecPhases(env: Env, w: World, phases: seq<seq<Invocation>>): Exec
    decreases |phases|
  {
    if phases == [] then Exec(w, [], false)
    else Joined(ExecBody(env, w, phases[0]), ExecPhases(env, ExecBody(env, w, phases[0]).w, phases[1..]))
  }

  /** One execution after the other; it died if either did. */
  function Joined(a: Exec, b: Exec): Exec {
    Exec(b.w, a.nodes + b.nodes, a.died || b.died)
  }

  /** RINIT, the request's phases, RSHUTDOWN. */
  function Serve(env: Env, w: World, r: Request): Served {
    var e := ExecPhases(env, RequestInit(env, w, r), r.phases);
    RequestShutdown(env, e.w, e.nodes)
  }

  /** The life of a worker: requests, and calls made outside any request. */
  datatype Item = Serves(r: Request) | Outside(cs: seq<Invocation>)

  datatype Life = Life(w: World, roots: seq<Node>, stray: seq<Node>)

  const NO_CTX: Ctx := Ctx(ZERO_TRACE, 0, 0, 0, false, false)

  function Born(enabled: bool): World {
    World(enabled, false, false, NO_CTX, BLANK, 0, 0, [])
  }

  function Live(env: Env, w: World, items: seq<Item>): Life
    decreases |items|
  {
    if items == [] then Life(w, [], [])
    else
      var past := Live(env, w, items[..|items| - 1]);
      match items[|items| - 1]
      case Outside(cs) =>
        var e := ExecBody(env, past.w, cs);
        Life(e.w, past.roots, past.stray + e.nodes)
      case Serves(r) =>
        var s := Serve(env, past.w, r);
        Life(s.w, if s.root.Root? then past.roots + [s.root.node] else past.roots, past.stray + s.stray)
  }
}
