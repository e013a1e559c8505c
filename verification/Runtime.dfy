/** lumbre_span.c and the hooks and request handlers of php_lumbre.c as classes that update their
    fields in place, proved against the functions of `Tracing`. */
module Runtime {
  import opened Bits
  import opened Bytes
  import opened Packer
  import opened Spans
  import opened SpanEncoder
  import opened Whitelist
  import opened Ring
  import opened RingTheorems
  import opened RingBuffers
  import opened RingAtomic
  import opened Tracing
  import opened CallTrees
  import opened Pipeline
  import opened Lifetimes

  datatype Option<T> = None | Some(value: T)

  /** The rest of the system as the code meets it: the clock, the settings, and the ring as it is
      moved on by the consumer and by the interleaving of a write with the consumer. */
  class Outside {
    const env: Env
    var tick: nat                     // clock readings so far
    var acts: seq<Action>             // ring steps so far

    constructor (env: Env)
      ensures this.env == env && tick == 0 && acts == []
    {
      this.env, tick, acts := env, 0, [];
    }

    /** lumbre_clock_ns. */
    method Now() returns (now: Word64)
      modifies `tick
      ensures now == env.clock(old(tick)) && tick == old(tick) + 1
    {
      now := env.clock(tick);
      tick := tick + 1;
    }

    /** The relaxed load of read_pos in a write of `m`. */
    method Load(m: seq<Byte>) returns (readPos: nat)
      modifies `acts
      ensures acts == Delivered(env, tick, old(acts), m) && readPos == LoadOf(RingAt(env, acts))
    {
      acts := Delivered(env, tick, acts, m);
      readPos := LoadOf(RingAt(env, acts));
    }
  }

  /** The value of read_pos that the producer loaded last. */
  function LoadOf(r: Ring): nat {
    if r.seen < |r.freed| then r.freed[r.seen] else 0
  }

  /** lumbre_context_t. */
  class Context {
    var traceId: TraceId
    var rootSpanId: Word64
    var currentParentId: Word64
    var spanCounter: Word64
    var active: bool
    var fullTrace: bool

    function Value(): Ctx reads this {
      Ctx(traceId, rootSpanId, currentParentId, spanCounter, active, fullTrace)
    }

    /** Zeroed module globals. */
    constructor ()
      ensures Value() == NO_CTX
    {
      traceId, rootSpanId, currentParentId, spanCounter, active, fullTrace := ZERO_TRACE, 0, 0, 0, false, false;
    }

    /** lumbre_context_init. */
    method Init(propagated: Option<TraceId>, random: Option<TraceId>)
      modifies this
      ensures Value() == FreshCtx(
        if propagated.Some? then propagated.value else if random.Some? then random.value else ZERO_TRACE)
      ensures active && !fullTrace && spanCounter == 1 && currentParentId == 0 && rootSpanId == 0
    {
      if propagated.Some? {
        traceId := propagated.value;
      } else if random.Some? {
        traceId := random.value;
      } else {
        traceId := ZERO_TRACE;
      }
      spanCounter := 1;
      currentParentId := 0;
      rootSpanId := 0;
      active := true;
      fullTrace := false;
    }

    /** lumbre_context_reset. */
    method Reset()
      modifies this
      ensures Value() == ResetCtx(old(Value()))
      ensures !active && Value() == old(Value()).(active := false, traceId := traceId)
      ensures forall i :: 0 <= i < 16 ==> traceId[i] == 0
    {
      active := false;
      traceId := ZERO_TRACE;
    }
  }

  datatype Recorded = Recorded(ring: RingState, acts: seq<Action>, rc: int)

  /** A write of `m`, with the steps of the ring around and during it. */
  function SendOf(env: Env, q: RingState, m: seq<Byte>, tick: nat, acts: seq<Action>): Recorded
    requires |q.data| == env.cap + SPILL
  {
    var acts' := Delivered(env, tick, acts, m);
    var e := WriteEffect(env.cap, q.data, q.local, LoadOf(RingAt(env, acts')), m);
    Recorded(AfterWrite(q, e), acts', e.rc)
  }

  function FateRecord(env: Env, q: RingState, fate: Fate, tick: nat, acts: seq<Action>): Recorded
    requires |q.data| == env.cap + SPILL
  {
    match fate
    case Drop(rc, _) => Recorded(q, acts, rc)
    case Send(m) => SendOf(env, q, m, tick, acts)
  }

  /** What becomes of a span that has been timed: a filtered one and one too long for a buffer of
      `room` bytes leave the ring as it is; the whole encoding of any other is written. */
  function RecordOf(env: Env, q: RingState, room: nat, timed: Span, minNs: Word64, maxQuery: Word32,
                    tick: nat, acts: seq<Action>): Recorded
    requires |q.data| == env.cap + SPILL
  {
    FateRecord(env, q, FateOf(timed, minNs, maxQuery, room), tick, acts)
  }

  /** lumbre_span_t, in the caller's storage. */
  class SpanObject {
    var kind: Byte
    var traceId: TraceId
    var spanId: Word64
    var parentId: Word64
    var startNs: Word64
    var durationNs: Word64
    var url: Text
    var method_: Text
    var statusCode: Word16
    var query: Text
    var dbType: Text
    var rowsAffected: Word32
    var cacheCmd: Text
    var cacheKey: Text
    var funcClass: Text
    var funcName: Text
    var funcFile: Text
    var funcLine: Word32
    var requestUri: Text

    function Value(): Span reads this {
      Span(kind, traceId, spanId, parentId, startNs, durationNs, url, method_, statusCode, query, dbType,
           rowsAffected, cacheCmd, cacheKey, funcClass, funcName, funcFile, funcLine, requestUri)
    }

    constructor ()
      ensures Value() == BLANK
    {
      new;
      Clear();
    }

    /** memset of the whole struct. */
    method Clear()
      modifies this
      ensures Value() == BLANK
    {
      ClearFixed();
      ClearPayload();
    }

    method ClearFixed()
      modifies `kind, `traceId, `spanId, `parentId, `startNs, `durationNs
      ensures kind == spanId == parentId == startNs == durationNs == 0 && traceId == ZERO_TRACE
    {
      kind, traceId, spanId, parentId, startNs, durationNs := 0, ZERO_TRACE, 0, 0, 0, 0;
    }

    method ClearPayload()
      modifies this
      ensures Value() == BLANK.(kind := old(kind), traceId := old(traceId), spanId := old(spanId),
                                parentId := old(parentId), startNs := old(startNs), durationNs := old(durationNs))
    {
      SetHttpOut([], [], 0);
      SetDb([], [], 0, 0);
      SetCache([], []);
      SetFunc([], [], [], 0);
      SetHttpIn([], []);
    }

    /** lumbre_span_start. */
    method Start(kind: Byte, ctx: Context, outside: Outside)
      modifies this, ctx, outside`tick
      ensures Value() == NewSpan(old(ctx.Value()), kind, outside.env.clock(old(outside.tick)))
      ensures ctx.Value() == Entered(old(ctx.Value())) && outside.tick == old(outside.tick) + 1
    {
      Clear();
      this.kind := kind;
      Identify(ctx);
      startNs := outside.Now();
      Push(ctx);
    }

    /** Take the next id, below the current parent. */
    method Identify(ctx: Context)
      modifies `traceId, `spanId, `parentId, ctx`spanCounter
      ensures traceId == ctx.traceId && spanId == old(ctx.spanCounter) && parentId == ctx.currentParentId
      ensures ctx.spanCounter == Next64(old(ctx.spanCounter))
    {
      traceId := ctx.traceId;
      spanId := ctx.spanCounter;
      ctx.spanCounter := Next64(ctx.spanCounter);
      parentId := ctx.currentParentId;
    }

    /** Become the current parent, and the root if there is none above. */
    method Push(ctx: Context)
      modifies ctx`currentParentId, ctx`rootSpanId
      ensures ctx.currentParentId == spanId
      ensures ctx.rootSpanId == if parentId == 0 then spanId else old(ctx.rootSpanId)
    {
      ctx.currentParentId := spanId;
      if parentId == 0 {
        ctx.rootSpanId := spanId;
      }
    }

    /** lumbre_span_set_http_out. */
    method SetHttpOut(url: Text, method_: Text, status: Word16)
      modifies this
      ensures Value() == old(Value()).(url := url, method_ := method_, statusCode := status)
    {
      this.url, this.method_, statusCode := url, method_, status;
    }

    /** lumbre_span_set_db. */
    method SetDb(query: Text, dbType: Text, rows: Word32, maxQuery: Word32)
      modifies this
      ensures Value() == old(Value()).(query := Clip(query, maxQuery), dbType := dbType, rowsAffected := rows)
    {
      this.query := if |query| > maxQuery then query[..maxQuery] else query;
      this.dbType := dbType;
      rowsAffected := rows;
    }

    /** lumbre_span_set_cache. */
    method SetCache(cmd: Text, key: Text)
      modifies this
      ensures Value() == old(Value()).(cacheCmd := cmd, cacheKey := key)
    {
      cacheCmd, cacheKey := cmd, key;
    }

    /** lumbre_span_set_func. */
    method SetFunc(cls: Text, name: Text, file: Text, line: Word32)
      modifies this
      ensures Value() == old(Value()).(funcClass := cls, funcName := name, funcFile := file, funcLine := line)
    {
      funcClass, funcName, funcFile, funcLine := cls, name, file, line;
    }

    /** lumbre_span_set_http_in. */
    method SetHttpIn(uri: Text, method_: Text)
      modifies this
      ensures Value() == old(Value()).(requestUri := uri, method_ := method_)
    {
      requestUri, this.method_ := uri, method_;
    }

    /** lumbre_span_set_file_io. */
    method SetFileIo(path: Text)
      modifies this
      ensures Value() == old(Value()).(url := path)
    {
      url := path;
    }

    /** The part of lumbre_span_finish before the encoding: duration, filter, parent, truncation. */
    method Close(ctx: Context, minNs: Word64, maxQuery: Word32, outside: Outside) returns (filtered: bool)
      modifies this, ctx, outside`tick
      ensures outside.tick == old(outside.tick) + 1
      ensures ctx.Value() == old(ctx.Value()).(currentParentId := old(parentId))
      ensures var timed := old(Value()).(durationNs := Elapsed(old(startNs), outside.env.clock(old(outside.tick))));
        && filtered == TooShort(timed, minNs)
        && Value() == if filtered then timed else Truncated(timed, maxQuery)
    {
      var now := outside.Now();
      durationNs := Elapsed(startNs, now);
      ctx.currentParentId := parentId;
      if minNs > 0 && durationNs < minNs && kind != HTTP_IN {
        return true;
      }
      if kind == DB && maxQuery > 0 && |query| > maxQuery {
        query := query[..maxQuery];
      }
      filtered := false;
    }

    /** The rest of it: encode into the emptied buffer, and write what was encoded. */
    method Record(rb: RingBuffer, mp: PackBuffer, outside: Outside) returns (rc: int)
      requires rb.Valid() && mp.Valid() && mp.buf.Length < U32 && mp.buf != rb.data
      requires rb.capacity == outside.env.cap
      modifies mp, mp.buf, rb, rb.header, rb.data, outside`acts
      ensures rb.Valid() && mp.Valid()
      ensures EncodedSize(Value()) > mp.buf.Length ==>
        rc == -1 && StateOf(rb) == old(StateOf(rb)) && outside.acts == old(outside.acts)
      ensures EncodedSize(Value()) <= mp.buf.Length ==>
        Recorded(StateOf(rb), outside.acts, rc)
        == SendOf(outside.env, old(StateOf(rb)), Encode(Value()), outside.tick, old(outside.acts))
    {
      var coded := Code(mp);
      if coded < 0 {
        return -1;
      }
      rc := Send(rb, mp.buf[..mp.pos], outside);
    }

    /** Encode into the emptied buffer. */
    method Code(mp: PackBuffer) returns (rc: int)
      requires mp.Valid()
      modifies mp, mp.buf
      ensures mp.Valid() && (rc == 0 || rc == -1) && (rc == 0 <==> EncodedSize(Value()) <= mp.buf.Length)
      ensures rc == 0 ==> mp.buf[..mp.pos] == Encode(Value())
    {
      mp.Reset();
      rc := EncodeSpan(Value(), mp);
    }

    /** Load read_pos and write. */
    method Send(rb: RingBuffer, m: seq<Byte>, outside: Outside) returns (rc: int)
      requires rb.Valid() && |m| < U32 && rb.capacity == outside.env.cap
      modifies rb, rb.header, rb.data, outside`acts
      ensures rb.Valid()
      ensures Recorded(StateOf(rb), outside.acts, rc)
           == SendOf(outside.env, old(StateOf(rb)), m, outside.tick, old(outside.acts))
    {
      var readPos := outside.Load(m);
      rc := rb.Write(m, readPos);
    }

    /** lumbre_span_finish. The parent is restored in every case. The result is 1 for a span that is too
        short, and otherwise 0 if it has been written and -1 if not. */
    method Finish(rb: RingBuffer, mp: PackBuffer, ctx: Context, minNs: Word64, maxQuery: Word32,
                  outside: Outside) returns (rc: int)
      requires rb.Valid() && mp.Valid() && mp.buf.Length < U32 && mp.buf != rb.data
      requires rb.capacity == outside.env.cap
      modifies this, ctx, outside, mp, mp.buf, rb, rb.header, rb.data
      ensures rb.Valid() && mp.Valid()
      ensures outside.tick == old(outside.tick) + 1
      ensures ctx.Value() == old(ctx.Value()).(currentParentId := old(parentId))
      ensures var timed := old(Value()).(durationNs := Elapsed(old(startNs), outside.env.clock(old(outside.tick))));
        && Value() == (if TooShort(timed, minNs) then timed else Truncated(timed, maxQuery))
        && (rc == 1 <==> TooShort(timed, minNs)) && (rc == 1 || rc == 0 || rc == -1)
        && Recorded(StateOf(rb), outside.acts, rc)
           == RecordOf(outside.env, old(StateOf(rb)), mp.buf.Length, timed, minNs, maxQuery,
                       outside.tick, old(outside.acts))
    {
      var filtered := Close(ctx, minNs, maxQuery, outside);
      if filtered {
        return 1;
      }
      rc := Record(rb, mp, outside);
    }
  }

  // ------------------------------------------------------------------ the finish and the model's

  lemma RunGrouped(r: Ring, a: seq<Action>, b: seq<Action>, c: seq<Action>, d: seq<Action>, e: seq<Action>)
    ensures Run(Word, r, a + b + c + d + e) == Run(Word, Run(Word, Run(Word, r, a), b), c + (d + e))
  {
    RunAppend(Word, r, a, b);
    RunAppend(Word, r, a + b, c);
    RunAppend(Word, r, a + b + c, d);
    RunAppend(Word, r, a + b + c + d, e);
    var s := Run(Word, Run(Word, r, a), b);
    RunAppend(Word, s, c, d + e);
    RunAppend(Word, Run(Word, s, c), d, e);
  }

  lemma DeliverEnds(env: Env, w: World, m: seq<Byte>)
    requires EnvOk(env) && RingOf(env, w).producer.Idle? && |m| < U32
    ensures RingOf(env, Deliver(env, w, m)).producer.Idle?
  {
    var acc, ref := RingOf(env, w).accepted, RingOf(env, w).refused;
    BooksMean(env, w, acc, ref);
    DeliverBooks(env, w, m, acc, ref);
    BooksMean(env, Deliver(env, w, m), acc + [m], ref);
    BooksMean(env, Deliver(env, w, m), acc, ref + [m]);
  }

  /** The model's write, as an entry and steps that finish it. */
  lemma DeliverSplits(env: Env, w: World, m: seq<Byte>) returns (rest: seq<Action>)
    ensures forall a :: a in rest ==> !a.Call?
    ensures RingOf(env, Deliver(env, w, m))
         == Run(Word, Run(Word, RingOf(env, w), Quiet(env.before(w.tick))), [Call(m)] + rest)
  {
    var before, during := Quiet(env.before(w.tick)), Quiet(env.during(w.tick));
    var entered := RingAt(env, w.acts + before + [Call(m)] + during);
    rest := during + Settle(entered, m);
    SettleIsQuiet(entered, m);
    RunGrouped(Init(env.cap, env.memory), w.acts, before, [Call(m)], during, Settle(entered, m));
  }

  lemma RingKnown(env: Env, w: World)
    requires EnvOk(env)
    ensures RingOf(env, w).cap == env.cap && RingOf(env, w).seen < |RingOf(env, w).freed|
  {
    WorldReachable(env, w);
    ReachableSane(env.cap, RingOf(env, w));
    RunKeepsCap(Word, Init(env.cap, env.memory), w.acts);
  }

  lemma SendMatches(env: Env, w: World, m: seq<Byte>, q: RingState)
    requires EnvOk(env) && Pictures(q, RingOf(env, w)) && |q.data| == env.cap + SPILL && |m| < U32
    ensures var d := SendOf(env, q, m, w.tick, w.acts);
      && Pictures(d.ring, RingOf(env, Deliver(env, w, m))) && d.acts == Deliver(env, w, m).acts
      && (d.rc == 0 || d.rc == -1)
      && (d.rc == 0 <==> |RingOf(env, Deliver(env, w, m)).accepted| > |RingOf(env, w).accepted|)
  {
    var before := Quiet(env.before(w.tick));
    var rest := DeliverSplits(env, w, m);
    DeliverEnds(env, w, m);
    RingKnown(env, w);
    PicturesKept(q, RingOf(env, w), before);
    var r := Run(Word, RingOf(env, w), before);
    WriteAtomic(q, r, m, rest);
    SendEnds(env, w, m, q, RingOf(env, w).accepted, RingOf(env, Deliver(env, w, m)));
  }

  lemma SendEnds(env: Env, w: World, m: seq<Byte>, q: RingState, acc: seq<seq<Byte>>, r: Ring)
    requires |q.data| == env.cap + SPILL && r.cap == env.cap && r.seen < |r.freed|
    requires r == RingAt(env, Delivered(env, w.tick, w.acts, m)) && Over(q, acc, m, r)
    ensures var d := SendOf(env, q, m, w.tick, w.acts);
      Pictures(d.ring, r) && (d.rc == 0 || d.rc == -1) && (d.rc == 0 <==> |r.accepted| > |acc|)
  {
    EffectSane(r.cap, q.data, q.local, r.freed[r.seen], m);
  }

  lemma EffectSane(cap: Capacity, data: seq<Byte>, local: nat, snap: nat, m: seq<Byte>)
    requires |data| == cap + SPILL
    ensures var e := WriteEffect(cap, data, local, snap, m);
      |e.data| == |data| && (e.rc == 0 || e.rc == -1)
  {
  }

  function ReturnCode(o: Outcome): int {
    match o
    case Written => 0
    case Filtered => 1
    case _ => -1
  }

  /** Ring memory, ring steps and return value of a finish are those of the model. */
  ghost predicate Matches(env: Env, done: Recorded, f: Ended) {
    forall n: nat :: Open(n) ==>
      Pictures(done.ring, RingOf(env, f.w)) && done.acts == f.w.acts && done.rc == ReturnCode(f.outcome)
  }

  lemma PicturedAtWrite(env: Env, w: World, s: Span, q: RingState)
    requires EnvOk(env) && Pictures(q, RingOf(env, w))
    ensures Pictures(q, RingOf(env, AtWrite(w, s))) && |q.data| == env.cap + SPILL
  {
    RingKnown(env, w);
  }

  /** The method's effect on a ring's memory is the model's, and its return value the model's outcome,
      whatever is interleaved with the write: hence what is proved of call trees over the transition
      system holds of it. */
  lemma FinishMatches(env: Env, w: World, s: Span, minNs: Word64, q: RingState)
    requires EnvOk(env) && Pictures(q, RingOf(env, w))
    ensures |q.data| == env.cap + SPILL
    ensures var f := FinishSpan(env, w, s, minNs);
      var done := RecordOf(env, q, BUF_SIZE, s.(durationNs := Elapsed(s.startNs, env.clock(w.tick))),
                           minNs, env.maxQuery, w.tick + 1, w.acts);
      Matches(env, done, f)
  {
    PicturedAtWrite(env, w, s, q);
    var fate := FateHere(env, w, s, minNs, q);
    FateMatches(env, AtWrite(w, s), fate, FinishSpan(env, w, s, minNs), q, w.tick + 1, w.acts);
  }

  lemma FateHere(env: Env, w: World, s: Span, minNs: Word64, q: RingState) returns (fate: Fate)
    requires |q.data| == env.cap + SPILL
    ensures Fated(env, AtWrite(w, s), fate, FinishSpan(env, w, s, minNs)) && FateFine(fate)
    ensures RecordOf(env, q, BUF_SIZE, s.(durationNs := Elapsed(s.startNs, env.clock(w.tick))), minNs, env.maxQuery,
                     w.tick + 1, w.acts)
         == FateRecord(env, q, fate, w.tick + 1, w.acts)
  {
    var timed := s.(durationNs := Elapsed(s.startNs, env.clock(w.tick)));
    fate := FateNamed(env, q, timed, minNs, w.tick + 1, w.acts);
    FinishFate(env, w, s, minNs);
  }

  lemma FateNamed(env: Env, q: RingState, timed: Span, minNs: Word64, tick: nat, acts: seq<Action>)
    returns (fate: Fate)
    requires |q.data| == env.cap + SPILL
    ensures fate == FateOf(timed, minNs, env.maxQuery, BUF_SIZE) && FateFine(fate)
    ensures RecordOf(env, q, BUF_SIZE, timed, minNs, env.maxQuery, tick, acts) == FateRecord(env, q, fate, tick, acts)
  {
    fate := FateOf(timed, minNs, env.maxQuery, BUF_SIZE);
  }

  ghost predicate FateFine(fate: Fate) {
    && (fate.Drop? ==> fate.rc == ReturnCode(fate.outcome))
    && (fate.Send? ==> |fate.m| <= BUF_SIZE)
  }

  /** A drop leaves the ring; a send has the write's effect. */
  lemma FateMatches(env: Env, w: World, fate: Fate, f: Ended, q: RingState, tick: nat, acts: seq<Action>)
    requires EnvOk(env) && Pictures(q, RingOf(env, w)) && |q.data| == env.cap + SPILL
    requires Fated(env, w, fate, f) && FateFine(fate) && w.tick == tick && w.acts == acts
    ensures Matches(env, FateRecord(env, q, fate, tick, acts), f)
  {
    assert Open(0);
    if fate.Send? {
      SendMatches(env, w, fate.m, q);
    }
  }

  // ------------------------------------------------------------------ the module

  /** The part of a world that the module globals hold. */
  datatype Seen = Seen(enabled: bool, stored: bool, ready: bool, ctx: Ctx, root: Span, tick: nat)

  function SeenOf(w: World): Seen {
    Seen(w.enabled, w.stored, w.ready, w.ctx, w.root, w.tick)
  }

  function SeenAfterSpan(s: Seen, span: Span): Seen {
    s.(ctx := s.ctx.(currentParentId := span.parentId), tick := s.tick + 1)
  }

  lemma SeenFinish(env: Env, w: World, s: Span, minNs: Word64)
    ensures var f := FinishSpan(env, w, s, minNs);
      var timed := s.(durationNs := Elapsed(s.startNs, env.clock(w.tick)));
      && SeenOf(f.w) == SeenAfterSpan(SeenOf(w), s)
      && f.span == if TooShort(timed, minNs) then timed else Truncated(timed, env.maxQuery)
  {
    FinishRestores(env, w, s, minNs);
  }

  function SeenAfterInit(s: Seen, r: Request, clock: nat -> Word64): Seen {
    var c := FreshCtx(r.traceId).(fullTrace := r.triggered);
    var root := RootSpan(c, clock(s.tick), r);
    s.(ctx := Entered(c).(rootSpanId := root.spanId), root := root, tick := s.tick + 1)
  }

  lemma SeenInit(env: Env, w: World, r: Request)
    requires w.enabled && (w.ready || ((w.stored || r.granted) && r.mapped))
    ensures SeenOf(RequestInit(env, w, r)) == SeenAfterInit(SeenOf(w), r, env.clock).(stored := true, ready := true)
  {
  }

  /** The module globals, with the handlers and hooks that act on them. */
  class Globals {
    const ctx: Context
    const root: SpanObject
    const outside: Outside
    const whitelist: Table
    const full: bool                  // lumbre.mode
    const maxQuery: Word32            // lumbre.max_query_len
    const bufferSize: nat             // lumbre.buffer_size
    var enabled: bool
    var ready: bool
    var mp: PackBuffer?
    var rb: RingBuffer?

    /** An active context implies an initialised pack buffer and ring. */
    ghost predicate Valid()
      reads this, ctx, mp, rb, if rb != null then {rb.header} else {}, whitelist, whitelist.entries
    {
      WhitelistReady() && forall n: nat :: Open(n) ==> (ctx.active ==> ready) && BuffersReady()
    }

    ghost predicate BuffersReady()
      reads this, mp, rb, if rb != null then {rb.header} else {}
    {
      && 3 <= bufferSize <= TOP_POWER
      && (mp != null ==> mp.Valid() && mp.buf.Length == BUF_SIZE)
      && (ready ==> mp != null && rb != null && rb.Valid() && mp.buf != rb.data)
    }

    ghost predicate WhitelistReady()
      reads whitelist, whitelist.entries
    {
      forall n: nat :: Open(n) ==>
        whitelist.entries.Length == SLOTS && whitelist.Valid(Fnv1a) && whitelist.list == BUILT_IN
    }

    /** What requests and hooks may change. */
    ghost function Footprint(): set<object>
      reads `mp, `rb
    {
      {this, ctx, root, outside} + (if mp != null then {mp, mp.buf} else {})
      + (if rb != null then {rb, rb.header, rb.data} else {})
    }

    /** The globals are those of the world `w`, and the ring's memory is its ring's. */
    ghost predicate Mirrors(w: World)
      reads this, ctx, root, outside, rb, if rb != null then {rb.header, rb.data} else {}
    {
      Shows(w) && RingShows(w.ready, w.acts)
    }

    ghost predicate Shows(w: World)
      reads this, ctx, root, outside`tick
    {
      forall n: nat :: Open(n) ==>
        full == outside.env.full && maxQuery == outside.env.maxQuery && Visible() == SeenOf(w)
    }

    function Visible(): Seen
      reads this, ctx, root, outside`tick
    {
      Seen(enabled, mp != null, ready, ctx.Value(), root.Value(), outside.tick)
    }

    /** The ring does not exist yet, or is the one that these steps have led to. */
    ghost predicate RingShows(made: bool, acts: seq<Action>)
      reads this`rb, outside`acts, rb, if rb != null then {rb.header, rb.data} else {}
    {
      RingFits() && forall n: nat :: Open(n) ==>
        && outside.acts == acts
        && if made then rb != null && rb.capacity == outside.env.cap && Pictures(StateOf(rb), RingAt(outside.env, acts))
           else acts == []
    }

    /** The environment's ring is the one lumbre.buffer_size asks for, zeroed. */
    ghost predicate RingFits() {
      forall n: nat :: Open(n) ==>
        && EnvOk(outside.env) && LeastPowerOfTwoAtLeast(outside.env.cap, bufferSize)
        && forall i :: 0 <= i < |outside.env.memory| ==> outside.env.memory[i] == 0
    }

    /** GINIT, with the settings of lumbre.*: no request yet, the built-in whitelist loaded. */
    constructor (outside: Outside, bufferSize: nat, enabled: bool)
      requires 3 <= bufferSize <= TOP_POWER && outside.tick == 0 && outside.acts == []
      requires EnvOk(outside.env) && LeastPowerOfTwoAtLeast(outside.env.cap, bufferSize)
      requires forall i :: 0 <= i < |outside.env.memory| ==> outside.env.memory[i] == 0
      ensures Valid() && Mirrors(Born(enabled)) && this.outside == outside
      ensures fresh(Footprint() - {outside})
    {
      ctx := new Context();
      root := new SpanObject();
      var table := BuiltInTable();
      whitelist := table;
      this.outside, this.bufferSize := outside, bufferSize;
      full, maxQuery := outside.env.full, outside.env.maxQuery;
      this.enabled, ready, mp, rb := enabled, false, null, null;
    }

    /** The first part of RINIT: the buffers, unless they exist. The pack buffer stays if the ring cannot
        be mapped. */
    method Prepare(granted: bool, mapped: bool, ghost acts: seq<Action>) returns (ok: bool)
      requires Valid() && RingShows(ready, acts)
      modifies `enabled, `ready, `mp, `rb, mp
      ensures Valid() && RingShows(ready, acts)
      ensures ok == (old(ready) || ((old(mp) != null || granted) && mapped))
      ensures enabled == (old(enabled) && ok) && ready == ok
      ensures mp != null <==> old(ready) || old(mp) != null || granted
      ensures old(ready) ==> mp == old(mp) && rb == old(rb)
      ensures fresh(Footprint() - old(Footprint()))
    {
      ValidHas();
      ok := true;
      if !ready {
        ok := PrepareNew(granted, mapped, acts);
      }
    }

    lemma ValidHas()
      requires Valid()
      ensures BuffersReady() && (ctx.active ==> ready)
    {
      assert Open(0);
    }

    method PrepareNew(granted: bool, mapped: bool, ghost acts: seq<Action>) returns (ok: bool)
      requires Valid() && !ready && RingShows(false, acts)
      modifies `enabled, `ready, `mp, `rb, mp
      ensures Valid() && RingShows(ready, acts) && ready == ok
      ensures ok == ((old(mp) != null || granted) && mapped) && enabled == (old(enabled) && ok)
      ensures mp != null <==> old(mp) != null || granted
      ensures fresh(Footprint() - old(Footprint()))
    {
      ValidHas();
      RingBlank(acts);
      ok := MakeBuffers(granted, mapped);
      ready := ok;
      enabled := enabled && ok;
      ValidNow();
      RingNow(ok, acts);
    }

    lemma RingBlank(acts: seq<Action>)
      requires RingShows(false, acts)
      ensures RingFits() && outside.acts == acts == []
    {
      assert Open(0);
    }

    lemma RingNow(made: bool, acts: seq<Action>)
      requires RingFits() && outside.acts == acts
      requires if made then
                 rb != null && rb.capacity == outside.env.cap && Pictures(StateOf(rb), RingAt(outside.env, acts))
               else acts == []
      ensures RingShows(made, acts)
    {
    }

    method MakeBuffers(granted: bool, mapped: bool) returns (ok: bool)
      requires BuffersReady() && !ready && RingFits()
      modifies `mp, `rb, mp
      ensures BuffersReady() && ok == ((old(mp) != null || granted) && mapped)
      ensures mp != null <==> old(mp) != null || granted
      ensures fresh(Footprint() - old(Footprint()))
      ensures ok ==> rb != null && rb.Valid() && mp.buf != rb.data && rb.capacity == outside.env.cap
                     && Pictures(StateOf(rb), RingAt(outside.env, []))
    {
      ok := Allocate(granted);
      if ok && mapped {
        MapRing();
      } else {
        ok := false;
      }
    }

    /** The pack buffer: storage is asked for at most once, and it starts empty. */
    method Allocate(granted: bool) returns (ok: bool)
      requires mp != null ==> mp.Valid() && mp.buf.Length == BUF_SIZE
      modifies `mp, mp
      ensures ok == (mp != null) == (old(mp) != null || granted)
      ensures mp != null ==> mp.Valid() && mp.buf.Length == BUF_SIZE
      ensures mp == old(mp) || (mp != null && fresh(mp) && fresh(mp.buf))
    {
      if mp == null {
        if !granted {
          return false;
        }
        var storage := new Byte[BUF_SIZE](_ => 0);
        mp := new PackBuffer(storage);
      } else {
        mp.Reset();
      }
      ok := true;
    }

    /** The ring in a zeroed mapping. */
    method MapRing()
      requires 3 <= bufferSize <= TOP_POWER && RingFits()
      modifies `rb
      ensures rb != null && fresh(rb) && fresh(rb.header) && fresh(rb.data) && rb.Valid()
      ensures rb.capacity == outside.env.cap && Pictures(StateOf(rb), RingAt(outside.env, []))
    {
      assert Open(0);
      rb := new RingBuffer(bufferSize);
      LeastIsUnique(rb.capacity, outside.env.cap, bufferSize);
      assert rb.data[..] == outside.env.memory;
    }

    /** The request's context. */
    method OpenContext(r: Request)
      modifies ctx
      ensures ctx.Value() == FreshCtx(r.traceId).(fullTrace := r.triggered)
    {
      ctx.Init(Some(r.traceId), None);
      if r.triggered {
        ctx.fullTrace := true;
      }
    }

    /** The request's root span. */
    method OpenRoot(r: Request)
      modifies ctx, root, outside`tick
      ensures outside.tick == old(outside.tick) + 1
      ensures root.Value() == RootSpan(old(ctx.Value()), outside.env.clock(old(outside.tick)), r)
      ensures ctx.Value() == Entered(old(ctx.Value())).(rootSpanId := root.spanId)
    {
      root.Start(HTTP_IN, ctx, outside);
      root.SetHttpIn(r.uri, r.method_);
      ctx.rootSpanId := root.spanId;
    }

    method OpenTrace(r: Request)
      modifies ctx, root, outside`tick
      ensures Visible() == SeenAfterInit(old(Visible()), r, outside.env.clock)
    {
      OpenContext(r);
      OpenRoot(r);
    }

    /** The last part of RINIT: the context and the root span. */
    method StartRoot(r: Request, ghost acts: seq<Action>)
      requires Valid() && ready && RingShows(true, acts)
      modifies ctx, root, outside`tick
      ensures Valid() && RingShows(true, acts)
      ensures Visible() == SeenAfterInit(old(Visible()), r, outside.env.clock)
    {
      assert Open(0);
      OpenTrace(r);
    }

    /** RINIT. */
    method RequestInit(r: Request, ghost w: World)
      requires Valid() && Mirrors(w) && !w.ctx.active
      modifies Footprint()
      ensures Valid() && Mirrors(Tracing.RequestInit(outside.env, w, r))
      ensures fresh(Footprint() - old(Footprint()))
    {
      ModelSeen(w);
      if enabled {
        InitEnabled(r, w);
      }
    }

    /** The rest of RINIT, with tracing enabled. */
    method InitEnabled(r: Request, ghost w: World)
      requires Valid() && Mirrors(w) && enabled && w.enabled && !w.ctx.active
      modifies Footprint()
      ensures Valid() && Mirrors(Tracing.RequestInit(outside.env, w, r))
      ensures fresh(Footprint() - old(Footprint()))
    {
      ModelSeen(w);
      var ok := Prepare(r.granted, r.mapped, w.acts);
      if ok {
        StartRoot(r, w.acts);
      }
      ghost var v := ModelInit(w, r, ok);
      MirrorsNow(v);
    }

    lemma ModelInit(w: World, r: Request, ok: bool) returns (v: World)
      requires w.enabled && ok == (w.ready || ((w.stored || r.granted) && r.mapped))
      ensures v == Tracing.RequestInit(outside.env, w, r) && v.acts == w.acts && v.ready == ok
      ensures ok ==> SeenOf(v) == SeenAfterInit(SeenOf(w), r, outside.env.clock).(stored := true, ready := true)
      ensures !ok ==> SeenOf(v) == SeenOf(w).(enabled := false, stored := w.stored || r.granted)
    {
      v := Tracing.RequestInit(outside.env, w, r);
      if ok {
        SeenInit(outside.env, w, r);
      }
    }

    /** A span as a finish at this point times it. */
    function TimedAt(span: SpanObject): Span
      reads span, outside`tick
    {
      span.Value().(durationNs := Elapsed(span.startNs, outside.env.clock(outside.tick)))
    }

    /** Finish a span with the module's buffers. */
    method FinishHeld(span: SpanObject, minNs: Word64) returns (rc: int)
      requires Valid() && ready && BuffersReady() && rb.capacity == outside.env.cap
      modifies span, ctx, outside, mp, mp.buf, rb, rb.header, rb.data
      ensures Valid() && outside.tick == old(outside.tick) + 1
      ensures ctx.Value() == old(ctx.Value()).(currentParentId := old(span.parentId))
      ensures span.Value() == (if TooShort(old(TimedAt(span)), minNs) then old(TimedAt(span))
                               else Truncated(old(TimedAt(span)), maxQuery))
      ensures Recorded(StateOf(rb), outside.acts, rc) == old(ToRecord(span, minNs))
    {
      rc := span.Finish(rb, mp, ctx, minNs, maxQuery, outside);
      ValidNow();
    }

    lemma ValidNow()
      requires WhitelistReady() && (ctx.active ==> ready) && BuffersReady()
      ensures Valid()
    {
    }

    /** If `f` is the model's finish, the ring's memory stays the model's. */
    method FinishOn(span: SpanObject, minNs: Word64, ghost f: Ended)
      requires Valid() && ready && BuffersReady() && RingFits() && rb.capacity == outside.env.cap
      requires Matches(outside.env, ToRecord(span, minNs), f)
      modifies span, ctx, outside, mp, mp.buf, rb, rb.header, rb.data
      ensures Valid() && outside.tick == old(outside.tick) + 1 && RingShows(true, f.w.acts)
      ensures ctx.Value() == old(ctx.Value()).(currentParentId := old(span.parentId))
      ensures span.Value() == (if TooShort(old(TimedAt(span)), minNs) then old(TimedAt(span))
                               else Truncated(old(TimedAt(span)), maxQuery))
    {
      ghost var done := ToRecord(span, minNs);
      var rc := FinishHeld(span, minNs);
      RingShowsMatch(done, f);
    }

    /** What the finish of a span at this point records. */
    ghost function ToRecord(span: SpanObject, minNs: Word64): Recorded
      requires rb != null && rb.Valid() && rb.capacity == outside.env.cap
      reads this, span, outside, rb, if rb != null then {rb.header, rb.data} else {}
    {
      RecordOf(outside.env, StateOf(rb), BUF_SIZE, TimedAt(span), minNs, maxQuery, outside.tick + 1, outside.acts)
    }

    lemma RingShowsMatch(done: Recorded, f: Ended)
      requires rb != null && rb.capacity == outside.env.cap && RingFits()
      requires done.ring == StateOf(rb) && done.acts == outside.acts && Matches(outside.env, done, f)
      ensures RingShows(true, f.w.acts)
    {
      assert Open(0);
    }

    /** The model's finish of a span that is `s`, in the world `w`. */
    lemma ModelFinish(span: SpanObject, w: World, s: Span, minNs: Word64) returns (f: Ended)
      requires Valid() && Mirrors(w) && w.ctx.active && span.Value() == s
      ensures f == FinishSpan(outside.env, w, s, minNs)
      ensures ready && BuffersReady() && RingFits() && rb.capacity == outside.env.cap
      ensures Matches(outside.env, ToRecord(span, minNs), f) && EndSeen(w, s, minNs, f)
    {
      f := FinishSpan(outside.env, w, s, minNs);
      ActiveHolds(w);
      ModelRecord(span, w, s, minNs);
      FinishMatches(outside.env, w, s, minNs, StateOf(rb));
      EndIsSeen(w, s, minNs);
    }

    lemma ModelRecord(span: SpanObject, w: World, s: Span, minNs: Word64)
      requires rb != null && rb.Valid() && rb.capacity == outside.env.cap && span.Value() == s
      requires outside.acts == w.acts && outside.tick == w.tick && maxQuery == outside.env.maxQuery
      ensures ToRecord(span, minNs)
           == RecordOf(outside.env, StateOf(rb), BUF_SIZE,
                       s.(durationNs := Elapsed(s.startNs, outside.env.clock(w.tick))), minNs,
                       outside.env.maxQuery, w.tick + 1, w.acts)
    {
      TimedIs(span, s);
      RecordFor(span, minNs, s.(durationNs := Elapsed(s.startNs, outside.env.clock(w.tick))), outside.env.maxQuery,
                w.tick + 1, w.acts);
    }

    lemma RecordFor(span: SpanObject, minNs: Word64, timed: Span, max: Word32, tick: nat, acts: seq<Action>)
      requires rb != null && rb.Valid() && rb.capacity == outside.env.cap
      requires TimedAt(span) == timed && maxQuery == max && outside.tick + 1 == tick && outside.acts == acts
      ensures ToRecord(span, minNs) == RecordOf(outside.env, StateOf(rb), BUF_SIZE, timed, minNs, max, tick, acts)
    {
    }

    lemma TimedIs(span: SpanObject, s: Span)
      requires span.Value() == s
      ensures TimedAt(span) == s.(durationNs := Elapsed(s.startNs, outside.env.clock(outside.tick)))
    {
    }

    lemma EndIsSeen(w: World, s: Span, minNs: Word64)
      ensures EndSeen(w, s, minNs, FinishSpan(outside.env, w, s, minNs))
    {
      SeenFinish(outside.env, w, s, minNs);
    }

    /** What of a finish shows outside the ring. */
    ghost predicate EndSeen(w: World, s: Span, minNs: Word64, f: Ended) {
      forall n: nat :: Open(n) ==>
        var timed := s.(durationNs := Elapsed(s.startNs, outside.env.clock(w.tick)));
        && SeenOf(f.w) == SeenAfterSpan(SeenOf(w), s)
        && f.span == if TooShort(timed, minNs) then timed else Truncated(timed, outside.env.maxQuery)
    }

    /** What lies behind `Valid` and `Mirrors` while a context is active. */
    lemma ActiveHolds(w: World)
      requires Valid() && Mirrors(w) && w.ctx.active
      ensures ready && BuffersReady() && RingFits() && rb.capacity == outside.env.cap
      ensures EnvOk(outside.env) && Pictures(StateOf(rb), RingOf(outside.env, w))
      ensures outside.acts == w.acts && outside.tick == w.tick && maxQuery == outside.env.maxQuery
    {
      assert Open(0);
    }

    /** Finish the root span, then close the context. */
    method FinishRoot(ghost f: Ended)
      requires Valid() && ready && BuffersReady() && RingFits() && rb.capacity == outside.env.cap
      requires Matches(outside.env, ToRecord(root, 0), f)
      modifies root, ctx, outside, mp, mp.buf, rb, rb.header, rb.data
      ensures Valid() && RingShows(true, f.w.acts)
      ensures var s, timed := old(Visible()), old(TimedAt(root));
        Visible() == s.(ctx := ResetCtx(s.ctx.(currentParentId := s.root.parentId)), tick := s.tick + 1,
                        root := if TooShort(timed, 0) then timed else Truncated(timed, maxQuery))
    {
      FinishOn(root, 0, f);
      CloseContext(f.w.acts);
    }

    method EndRoot(ghost w: World, ghost f: Ended)
      requires Valid() && Mirrors(w) && ready && BuffersReady() && RingFits() && rb.capacity == outside.env.cap
      requires Matches(outside.env, ToRecord(root, 0), f) && EndSeen(w, w.root, 0, f)
      modifies Footprint()
      ensures Valid() && mp == old(mp) && rb == old(rb)
      ensures Mirrors(f.w.(ctx := ResetCtx(f.w.ctx), root := f.span))
    {
      ModelSeen(w);
      EndFacts(w, w.root, 0, f);
      FinishRoot(f);
      MirrorsNow(f.w.(ctx := ResetCtx(f.w.ctx), root := f.span));
    }

    method CloseContext(ghost acts: seq<Action>)
      requires Valid() && RingShows(true, acts)
      modifies ctx
      ensures Valid() && RingShows(true, acts) && ctx.Value() == ResetCtx(old(ctx.Value()))
    {
      ValidHas();
      ctx.Reset();
      ValidNow();
    }

    /** RSHUTDOWN. The root span is never filtered. */
    method RequestShutdown(ghost w: World, ghost kids: seq<Node>)
      requires Valid() && Mirrors(w)
      modifies Footprint()
      ensures Valid() && Mirrors(Tracing.RequestShutdown(outside.env, w, kids).w)
      ensures mp == old(mp) && rb == old(rb)
    {
      ModelSeen(w);
      if ctx.active {
        ghost var f := ModelFinish(root, w, w.root, 0);
        EndRoot(w, f);
      }
    }

    lemma ModelSeen(w: World)
      requires Mirrors(w)
      ensures Visible() == SeenOf(w) && full == outside.env.full && maxQuery == outside.env.maxQuery
    {
      assert Open(0);
    }

    lemma MirrorsNow(w: World)
      requires Visible() == SeenOf(w) && RingShows(w.ready, w.acts)
      requires full == outside.env.full && maxQuery == outside.env.maxQuery
      ensures Mirrors(w)
    {
    }

    lemma EndFacts(w: World, s: Span, minNs: Word64, f: Ended)
      requires EndSeen(w, s, minNs, f)
      ensures var timed := s.(durationNs := Elapsed(s.startNs, outside.env.clock(w.tick)));
        && SeenOf(f.w) == SeenAfterSpan(SeenOf(w), s)
        && f.span == if TooShort(timed, minNs) then timed else Truncated(timed, outside.env.maxQuery)
    {
      assert Open(0);
    }

    /** The payload a hook puts into its span. */
    method Fill(span: SpanObject, hook: Hook)
      modifies span
      ensures span.Value() == Filled(old(span.Value()), hook, maxQuery)
    {
      match hook
      case Internal(_, func, arg, dbType) =>
        if span.kind == DB {
          if arg.AString? {
            span.SetDb(arg.s, dbType, 0, maxQuery);
          }
        } else if span.kind == REDIS || span.kind == MEMCACHED || span.kind == CACHE {
          span.SetCache(func, if arg.AString? then arg.s else []);
        } else if span.kind == FILE_IO {
          if arg.AString? {
            span.SetFileIo(arg.s);
          }
        }
      case User(cls, func, file, line) =>
        span.SetFunc(cls, func, file, line);
      case _ =>
    }

    /** The part of the hooks that decides whether to trace. */
    method Decide(hook: Hook, ghost w: World) returns (d: Decision)
      requires Valid() && Mirrors(w)
      ensures Valid() && d == HookDecision(w.enabled, w.ctx, outside.env.full, hook)
    {
      assert Open(0);
      if !enabled || !ctx.active {
        return PassThrough;
      }
      match hook
      case Internal(cls, func, _, _) =>
        var found := whitelist.Lookup(cls, func, Fnv1a);
        d := if found.Match? then Trace(found.source.kind) else PassThrough;
      case User(_, _, _, _) =>
        d := if full || ctx.fullTrace then Trace(FUNC) else PassThrough;
      case _ =>
        d := PassThrough;
    }

    /** The part of the hooks that starts a span. */
    method Begin(hook: Hook, kind: Byte) returns (span: SpanObject)
      modifies ctx, outside`tick
      ensures fresh(span)
      ensures span.Value()
           == Filled(NewSpan(old(ctx.Value()), kind, outside.env.clock(old(outside.tick))), hook, maxQuery)
      ensures Visible() == old(Visible()).(ctx := Entered(old(ctx.Value())), tick := old(outside.tick) + 1)
    {
      span := new SpanObject();
      span.Start(kind, ctx, outside);
      Fill(span, hook);
    }

    method Enter(hook: Hook, kind: Byte, ghost w: World) returns (span: SpanObject, ghost s: Span)
      requires Valid() && Mirrors(w) && w.ctx.active
      modifies ctx, outside`tick
      ensures Valid() && Mirrors(Inside(w))
      ensures fresh(span) && span.Value() == s && Begun(s, hook, kind, w)
    {
      assert Open(0);
      span := Begin(hook, kind);
      s := span.Value();
    }

    /** The span is the one the model starts for the hook. */
    ghost predicate Begun(s: Span, hook: Hook, kind: Byte, w: World) {
      forall n: nat :: Open(n) ==> s == SpanFor(outside.env, w, hook, kind)
    }

    /** The part of the hooks that finishes it. */
    method Leave(span: SpanObject, ghost w: World, ghost f: Ended)
      requires Valid() && Mirrors(w) && ready && BuffersReady() && RingFits() && rb.capacity == outside.env.cap
      requires span != root && Matches(outside.env, ToRecord(span, outside.env.minNs(w.tick)), f)
      requires EndSeen(w, span.Value(), outside.env.minNs(w.tick), f)
      modifies Footprint(), span
      ensures Valid() && mp == old(mp) && rb == old(rb) && Mirrors(f.w)
    {
      ModelSeen(w);
      EndFacts(w, span.Value(), outside.env.minNs(w.tick), f);
      FinishOn(span, outside.env.minNs(outside.tick), f);
      MirrorsNow(f.w);
    }

    /** The setting lumbre.enabled changes. */
    method SetEnabled(on: bool, ghost w: World)
      requires Valid() && Mirrors(w)
      modifies `enabled
      ensures Valid() && Mirrors(w.(enabled := on))
    {
      assert Open(0);
      enabled := on;
    }

    /** A call that makes the calls `c.body`, with the hooks around it and inside. */
    method Execute(c: Invocation, ghost w: World) returns (died: bool)
      requires Valid() && Mirrors(w)
      modifies Footprint()
      ensures Valid() && mp == old(mp) && rb == old(rb)
      ensures var e := ExecCall(outside.env, w, c); died == e.died && Mirrors(e.w)
      decreases c, 4
    {
      if c.hook.Die? {
        died := true;
      } else if c.hook.SetEnabled? {
        SetEnabled(c.hook.on, w);
        died := ExecuteAll(c.body, w.(enabled := c.hook.on));
      } else {
        died := ExecuteHooked(c, w, ExecCall(outside.env, w, c));
      }
    }

    /** lumbre_execute_internal and lumbre_execute_ex; `e` is what the model makes of the call. */
    method ExecuteHooked(c: Invocation, ghost w: World, ghost e: Exec) returns (died: bool)
      requires Valid() && Mirrors(w) && Comes(c, w, e)
      modifies Footprint()
      ensures Valid() && mp == old(mp) && rb == old(rb)
      ensures died == e.died && Mirrors(e.w)
      decreases c, 3
    {
      var d := DecideFor(c, w, e);
      died := ExecuteDecided(c, d, w, e);
    }

    method DecideFor(c: Invocation, ghost w: World, ghost e: Exec) returns (d: Decision)
      requires Valid() && Mirrors(w) && Comes(c, w, e)
      ensures Valid() && Mirrors(w) && Footprint() == old(Footprint()) && Decided(c, d, w, e)
    {
      d := Decide(c.hook, w);
      ComesDecided(c, w, e, d);
    }

    method ExecuteDecided(c: Invocation, d: Decision, ghost w: World, ghost e: Exec) returns (died: bool)
      requires Valid() && Mirrors(w) && Decided(c, d, w, e)
      modifies Footprint()
      ensures Valid() && mp == old(mp) && rb == old(rb)
      ensures died == e.died && Mirrors(e.w)
      decreases c, 2
    {
      if d.PassThrough? {
        PassedThrough(c, d, w, e);
        died := ExecuteAll(c.body, w);
      } else {
        died := ExecuteTraced(c, d.kind, w, e);
      }
    }

    ghost predicate Decided(c: Invocation, d: Decision, w: World, e: Exec) {
      && (d.PassThrough? ==> forall n: nat :: Open(n) ==> e == ExecBody(outside.env, w, c.body))
      && (d.Trace? ==> w.ctx.active && Around(c, d.kind, w, e))
    }

    lemma PassedThrough(c: Invocation, d: Decision, w: World, e: Exec)
      requires Decided(c, d, w, e) && d.PassThrough?
      ensures e == ExecBody(outside.env, w, c.body)
    {
      assert Open(0);
    }

    lemma ComesDecided(c: Invocation, w: World, e: Exec, d: Decision)
      requires Comes(c, w, e) && d == HookDecision(w.enabled, w.ctx, outside.env.full, c.hook)
      ensures Decided(c, d, w, e)
    {
      assert Open(0);
      TracedKinds(w.enabled, w.ctx, outside.env.full, c.hook);
    }

    ghost predicate Comes(c: Invocation, w: World, e: Exec) {
      forall n: nat :: Open(n) ==> !c.hook.Die? && !c.hook.SetEnabled? && e == ExecCall(outside.env, w, c)
    }

    /** With a span around the call: `e` is what the model makes of it. */
    method ExecuteTraced(c: Invocation, kind: Byte, ghost w: World, ghost e: Exec) returns (died: bool)
      requires Valid() && Mirrors(w) && w.ctx.active && Around(c, kind, w, e)
      modifies Footprint()
      ensures Valid() && mp == old(mp) && rb == old(rb)
      ensures died == e.died && Mirrors(e.w)
      decreases c, 1
    {
      var span, s := Enter(c.hook, kind, w);
      died := ExecuteInside(span, s, c, kind, w, e);
    }

    method ExecuteInside(span: SpanObject, ghost s: Span, c: Invocation, ghost kind: Byte, ghost w: World,
                         ghost e: Exec) returns (died: bool)
      requires Valid() && Mirrors(Inside(w)) && w.ctx.active && Around(c, kind, w, e)
      requires span !in Footprint() && span.Value() == s && Begun(s, c.hook, kind, w)
      modifies Footprint(), span
      ensures Valid() && mp == old(mp) && rb == old(rb)
      ensures died == e.died && Mirrors(e.w)
      decreases c, 0
    {
      died := ExecuteAll(c.body, Inside(w));
      ghost var inner := ExecBody(outside.env, Inside(w), c.body);
      if died {
        DiedInside(c, kind, w, e);
      } else {
        ghost var f := ModelLeave(span, s, c, kind, w, inner, e);
        Leave(span, inner.w, f);
      }
    }

    ghost predicate Around(c: Invocation, kind: Byte, w: World, e: Exec) {
      forall n: nat :: Open(n) ==>
        e == Wrapped(outside.env, w, c.hook, kind, ExecBody(outside.env, Inside(w), c.body))
    }

    lemma DiedInside(c: Invocation, kind: Byte, w: World, e: Exec)
      requires Around(c, kind, w, e) && ExecBody(outside.env, Inside(w), c.body).died
      ensures e.died && e.w == ExecBody(outside.env, Inside(w), c.body).w
    {
      assert Open(0);
    }

    /** The model's finish of a span around a call that executed to its end as `inner`. */
    lemma ModelLeave(span: SpanObject, s: Span, c: Invocation, kind: Byte, w: World, inner: Exec, e: Exec)
      returns (f: Ended)
      requires Valid() && w.ctx.active && Around(c, kind, w, e)
      requires inner == ExecBody(outside.env, Inside(w), c.body) && !inner.died
      requires Mirrors(inner.w) && span.Value() == s && Begun(s, c.hook, kind, w)
      ensures f.w == e.w && !e.died
      ensures ready && BuffersReady() && RingFits() && rb.capacity == outside.env.cap
      ensures Matches(outside.env, ToRecord(span, outside.env.minNs(inner.w.tick)), f)
      ensures EndSeen(inner.w, s, outside.env.minNs(inner.w.tick), f)
    {
      BodyRestores(outside.env, Inside(w), c.body);
      assert Open(0);
      f := ModelFinish(span, inner.w, s, outside.env.minNs(inner.w.tick));
    }

    method ExecuteAll(cs: seq<Invocation>, ghost w: World) returns (died: bool)
      requires Valid() && Mirrors(w)
      modifies Footprint()
      ensures Valid() && mp == old(mp) && rb == old(rb)
      ensures var e := ExecBody(outside.env, w, cs); died == e.died && Mirrors(e.w)
      decreases cs
    {
      died := false;
      if cs != [] {
        died := Execute(cs[0], w);
        if !died {
          died := ExecuteAll(cs[1..], ExecCall(outside.env, w, cs[0]).w);
        }
      }
    }

    /** The phases of a request; a phase that dies leaves the globals as they stand. */
    method ExecutePhases(phases: seq<seq<Invocation>>, ghost w: World)
      requires Valid() && Mirrors(w)
      modifies Footprint()
      ensures Valid() && mp == old(mp) && rb == old(rb)
      ensures Mirrors(ExecPhases(outside.env, w, phases).w)
      decreases |phases|
    {
      if phases != [] {
        var died := ExecuteAll(phases[0], w);
        ExecutePhases(phases[1..], ExecBody(outside.env, w, phases[0]).w);
      }
    }

    /** One request, whatever its calls do. */
    method HandleRequest(r: Request, ghost w: World)
      requires Valid() && Mirrors(w) && !w.ctx.active
      modifies Footprint()
      ensures Valid() && Mirrors(Serve(outside.env, w, r).w)
      ensures fresh(Footprint() - old(Footprint()))
    {
      RequestInit(r, w);
      ghost var w1 := Tracing.RequestInit(outside.env, w, r);
      ExecutePhases(r.phases, w1);
      ghost var e := ExecPhases(outside.env, w1, r.phases);
      RequestShutdown(e.w, e.nodes);
    }

    /** The life of a worker: requests, and calls outside any request, one after the other. */
    method Work(items: seq<Item>, ghost w: World)
      requires Valid() && Mirrors(w) && EnvOk(outside.env) && !w.ctx.active && w.ctx.currentParentId == 0
      modifies Footprint()
      ensures Valid() && Mirrors(Live(outside.env, w, items).w)
      ensures fresh(Footprint() - old(Footprint()))
      decreases |items|
    {
      if items != [] {
        Work(items[..|items| - 1], w);
        IdleBetween(outside.env, w, items[..|items| - 1]);
        Do(items[|items| - 1], Live(outside.env, w, items[..|items| - 1]).w);
      }
    }

    method Do(item: Item, ghost w: World)
      requires Valid() && Mirrors(w) && !w.ctx.active
      modifies Footprint()
      ensures Valid() && fresh(Footprint() - old(Footprint()))
      ensures Mirrors(match item case Serves(r) => Serve(outside.env, w, r).w
                                 case Outside(cs) => ExecBody(outside.env, w, cs).w)
    {
      match item
      case Serves(r) => HandleRequest(r, w);
      case Outside(cs) => var died := ExecuteAll(cs, w);
    }
  }

  lemma LeastIsUnique(a: nat, b: nat, v: nat)
    requires LeastPowerOfTwoAtLeast(a, v) && LeastPowerOfTwoAtLeast(b, v)
    ensures a == b
  {
  }
}
