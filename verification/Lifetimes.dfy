/** Whole requests and worker lifetimes, and the end of the pipeline: what the consumer decodes. */
module Lifetimes {
  import opened Bits
  import opened Bytes
  import opened Msgpack
  import opened Spans
  import opened Ring
  import opened RingSafety
  import opened RingWord
  import opened RingTheorems
  import opened RingRuns
  import opened Tracing
  import opened CallTrees
  import opened Filtering
  import opened Pipeline

  // ------------------------------------------------------------------ counting finishes

  /** Spans a finish was called for. */
  function Finishes(ns: seq<Node>): nat {
    |Which(ns, Written)| + |Which(ns, Refused)| + |Which(ns, Overflow)| + |Which(ns, Filtered)|
  }

  lemma FinishesAppend(a: seq<Node>, b: seq<Node>)
    ensures Finishes(a + b) == Finishes(a) + Finishes(b)
  {
    WhichAppend(a, b, Written);
    WhichAppend(a, b, Refused);
    WhichAppend(a, b, Overflow);
    WhichAppend(a, b, Filtered);
  }

  lemma FinishesOne(n: Node)
    ensures Finishes([n]) == Finishes(n.kids) + if n.outcome == Unfinished then 0 else 1
  {
    WhichOne(n, Written);
    WhichOne(n, Refused);
    WhichOne(n, Overflow);
    WhichOne(n, Filtered);
  }

  /** Every started span has one outcome, or is left open. */
  lemma {:induction false} StartsSplit(ns: seq<Node>)
    ensures |Ids(ns)| == Finishes(ns) + |Which(ns, Unfinished)|
    decreases ns
  {
    if ns != [] {
      var n := ns[0];
      StartsSplit(n.kids);
      StartsSplit(ns[1..]);
      assert ns == [n] + ns[1..];
      IdsAppend([n], ns[1..]);
      IdsOne(n);
      FinishesAppend([n], ns[1..]);
      FinishesOne(n);
      WhichOne(n, Unfinished);
    }
  }

  /** The clock is read once per start and once per finish, so each finish is counted once. */
  ghost predicate Tallies(from: nat, to: nat, ns: seq<Node>) {
    to == from + |Ids(ns)| + Finishes(ns)
  }

  lemma {:induction false} TimedTallies(env: Env, from: nat, to: nat, ns: seq<Node>)
    requires Timed(env, from, to, ns)
    ensures Tallies(from, to, ns)
    decreases ns
  {
    if ns != [] {
      var n, rest := ns[0], ns[1..];
      TimedTallies(env, from + 1, n.ended, n.kids);
      TimedTallies(env, if n.outcome == Unfinished then n.ended else n.ended + 1, to, rest);
      assert ns == [n] + rest;
      IdsAppend([n], rest);
      IdsOne(n);
      FinishesAppend([n], rest);
      FinishesOne(n);
    }
  }

  // ------------------------------------------------------------------ one request

  /** RINIT starts a root span. */
  predicate Traced(w: World, r: Request) {
    w.enabled && (w.ready || ((w.stored || r.granted) && r.mapped))
  }

  /** RINIT in every case: nothing at all with tracing disabled; tracing disabled if storage or mapping
      fails; otherwise a new context, active, with the request's trace id and one span started in it. */
  lemma RequestStarts(env: Env, w: World, r: Request)
    ensures var v := RequestInit(env, w, r);
      if !w.enabled then v == w
      else if !Traced(w, r) then v == w.(enabled := false, stored := w.stored || r.granted)
      else
        && v == w.(stored := true, ready := true, ctx := v.ctx, root := v.root, rootBegan := w.tick, tick := w.tick + 1)
        && v.ctx == Ctx(r.traceId, 1, 1, 2, true, r.triggered)
        && v.root.kind == 1 && v.root.traceId == r.traceId && v.root.spanId == 1 && v.root.parentId == 0
        && v.root.startNs == env.clock(w.tick) && v.root.requestUri == r.uri && v.root.method_ == r.method_
  {
  }

  /** Throughout a request, in any of its phases and up to any point at which a death may cut one off,
      spans are started only while the context is active, which implies an initialised ring; the root id
      stays 1 for as long as fewer than 2^64 - 2 spans have been started in it. */
  lemma InRequest(env: Env, w: World, r: Request, phases: seq<seq<Invocation>>)
    requires !w.ctx.active
    ensures var e := ExecPhases(env, RequestInit(env, w, r), phases);
      && e.w.ctx.active == Traced(w, r)
      && (e.w.ctx.active ==> e.w.ready)
      && (e.nodes != [] ==> e.w.ctx.active)
      && (Traced(w, r) ==> e.w.ctx.traceId == r.traceId && e.w.ctx.fullTrace == r.triggered)
      && (Traced(w, r) && |Ids(e.nodes)| < U64 - 2 ==> e.w.ctx.rootSpanId == e.w.root.spanId == 1)
  {
    var w1 := RequestInit(env, w, r);
    PhasesRestore(env, w1, phases);
    PhasesKeepRoot(env, w1, phases);
    if !Traced(w, r) {
      PhasesIdle(env, w1, phases);
    }
  }

  /** The spans of a request: one tree below an HTTP_IN span that is never filtered or left open, all
      in one trace, numbered from 1 in the order they were started, each with the innermost span open at
      its start as its parent. */
  ghost predicate RequestTree(n: Node) {
    && n.span.kind == HTTP_IN && n.span.spanId == 1
    && Kept(n)
    && Consecutive(1, Ids([n]))
    && Linked(n.span.traceId, 0, [n])
  }

  /** Parents are the enclosing spans, throughout a request of fewer than 2^64 spans, exactly if nothing
      was started after a death that had left a span open. */
  lemma RequestParents(n: Node)
    requires RequestTree(n) && |Ids([n])| < U64
    ensures Parented(0, [n]) <==> NothingAfterOpen([n])
  {
    var ids := Ids([n]);
    forall i, j | 0 <= i < j < |[0] + ids| ensures ([0] + ids)[i] != ([0] + ids)[j] {
      assert ids[j - 1] == j;
      assert i > 0 ==> ids[i - 1] == i;
    }
    ParentedIff(n.span.traceId, 0, [n]);
  }

  /** A phase after others: the spans it starts have the root as their parent exactly if no phase before
      it left a span open; otherwise they have the innermost open span. */
  lemma LaterPhase(env: Env, w: World, r: Request, earlier: seq<seq<Invocation>>, phase: seq<Invocation>)
    requires !w.ctx.active && Traced(w, r)
    requires |Ids(ExecPhases(env, RequestInit(env, w, r), earlier).nodes)| < U64 - 2
    ensures var before := ExecPhases(env, RequestInit(env, w, r), earlier);
      var parent := Innermost(1, before.nodes);
      && Parented(parent, ExecBody(env, before.w, phase).nodes)
      && (parent == 1 <==> NoneOpen(before.nodes))
  {
    var w1 := RequestInit(env, w, r);
    var before := ExecPhases(env, w1, earlier);
    PhasesRestore(env, w1, earlier);
    PhasesNumber(env, w1, earlier);
    BodyParents(env, before.w, phase);
    InnermostIff(1, before.nodes);
  }

  /** It happens: a script that dies inside a traced call, and a shutdown function after it. The second
      call's parent is the first, which does not enclose it. */
  lemma DeathMovesParents(env: Env, w: World, r: Request)
    requires !w.ctx.active && Traced(w, r) && r.triggered
    requires r.phases == [DYING_ALONE, LEAF]
    ensures var s := Serve(env, w, r); s.root.Root? && !Parented(0, [s.root.node])
  {
    ServeTree(env, w, r);
    var w1, n := RequestInit(env, w, r), Serve(env, w, r).root.node;
    var e1 := ExecBody(env, w1, DYING_ALONE);
    DiesAlone(env, w1);
    OnePhase(env, w1, DYING_ALONE);
    LaterPhase(env, w, r, [DYING_ALONE], LEAF);
    LeafStarts(env, e1.w);
    var e2 := ExecBody(env, e1.w, LEAF);
    TwoPhases(env, w1, DYING_ALONE, LEAF);
    NotParented(n, e1.nodes, e2.nodes);
  }

  lemma NotParented(n: Node, a: seq<Node>, b: seq<Node>)
    requires n.span.spanId == 1 && n.kids == a + b && b != [] && b[0].span.parentId != 1
    ensures !Parented(0, [n])
  {
    if Parented(0, [n]) {
      ParentedRest(1, a, b);
    }
  }

  lemma TwoPhases(env: Env, w: World, a: seq<Invocation>, b: seq<Invocation>)
    ensures ExecPhases(env, w, [a, b]).nodes
         == ExecBody(env, w, a).nodes + ExecBody(env, ExecBody(env, w, a).w, b).nodes
  {
    assert [a, b][1..] == [b];
    OnePhase(env, ExecBody(env, w, a).w, b);
  }

  lemma ServeIdle(env: Env, w: World, r: Request)
    requires !w.ctx.active && !Traced(w, r)
    ensures var s := Serve(env, w, r);
      s.root == NoRoot && s.stray == [] && s.w == w.(enabled := s.w.enabled, stored := s.w.stored)
  {
    PhasesIdle(env, RequestInit(env, w, r), r.phases);
  }

  /** The root of a request's spans says what was requested and when it began, and the request leaves the
      context without a trace id. */
  lemma ServeRoot(env: Env, w: World, r: Request)
    requires !w.ctx.active && Traced(w, r)
    ensures var s := Serve(env, w, r);
      && s.root.Root? && s.root.node.span.kind == 1 && s.root.node.span.startNs == env.clock(w.tick)
      && s.root.node.span.requestUri == r.uri && s.root.node.span.method_ == r.method_
      && (forall i :: 0 <= i < 16 ==> s.w.ctx.traceId[i] == 0)
  {
    var w1 := RequestInit(env, w, r);
    var e := ExecPhases(env, w1, r.phases);
    RequestStarts(env, w, r);
    PhasesRestore(env, w1, r.phases);
    ShutdownKeeps(env, e.w, e.nodes, w1.root);
  }

  lemma ShutdownKeeps(env: Env, w: World, kids: seq<Node>, s: Span)
    requires w.ctx.active && w.root == s
    ensures var d := RequestShutdown(env, w, kids);
      && d.root.Root? && d.root.node.span.kind == s.kind && d.root.node.span.startNs == s.startNs
      && d.root.node.span.requestUri == s.requestUri && d.root.node.span.method_ == s.method_
      && (forall i :: 0 <= i < 16 ==> d.w.ctx.traceId[i] == 0)
  {
    FinishRestores(env, w, s, 0);
  }

  /** What RSHUTDOWN makes of the executed phases. */
  lemma ServeTree(env: Env, w: World, r: Request)
    requires !w.ctx.active && Traced(w, r)
    ensures var s := Serve(env, w, r);
      && s.root.Root? && s.stray == [] && RequestTree(s.root.node)
      && s.root.node.span.traceId == r.traceId
      && s.w.ready && !s.w.ctx.active && s.w.ctx.currentParentId == 0
  {
    var w1 := RequestInit(env, w, r);
    var e := ExecPhases(env, w1, r.phases);
    PhasesRestore(env, w1, r.phases);
    PhasesNumber(env, w1, r.phases);
    PhasesLink(env, w1, r.phases);
    FinishRestores(env, e.w, e.w.root, 0);
    var n := Serve(env, w, r).root.node;
    IdsOne(n);
    HandedOutFirst(1, Ids(e.nodes), e.w.ctx.spanCounter);
    assert [n][1..] == [];
  }

  /** With a clock monotone over the readings of its calls, and no span's finish having a higher threshold
      than a finish inside it, no filtered span of a request has a kept or open one inside. So its kept
      spans form a subtree with the root exactly if none of them lies inside a span left open, and in
      particular if no phase died. */
  lemma RequestFilter(env: Env, w: World, r: Request)
    requires !w.ctx.active && Traced(w, r)
    requires var e := ExecPhases(env, RequestInit(env, w, r), r.phases);
      Monotone(env.clock, w.tick + 1, e.w.tick) && ThresholdsNest(env.minNs, e.nodes)
    ensures var s := Serve(env, w, r);
      && s.root.Root? && Kept(s.root.node) && FilterClosed([s.root.node])
      && (KeptSubtree([s.root.node]) <==> !KeptInsideOpen([s.root.node]))
      && (!ExecPhases(env, RequestInit(env, w, r), r.phases).died ==> KeptSubtree([s.root.node]))
  {
    var w1, s := RequestInit(env, w, r), Serve(env, w, r);
    var e := ExecPhases(env, w1, r.phases);
    ServeTree(env, w, r);
    FinishRestores(env, e.w, e.w.root, 0);
    PhasesTime(env, w1, r.phases);
    PhasesSettle(env, w1, r.phases);
    ThresholdsClose(env, w1.tick, e.w.tick, e.nodes);
    assert [s.root.node][1..] == [];
    KeptSubtreeIff([s.root.node]);
    if !e.died {
      FinishedNotOpen(e.nodes);
    }
  }

  /** So it is, whatever the calls, if the threshold is not raised between the readings of the calls. */
  lemma RequestSteady(env: Env, w: World, r: Request)
    requires !w.ctx.active && Traced(w, r)
    requires NeverRaised(env.minNs, w.tick + 1, ExecPhases(env, RequestInit(env, w, r), r.phases).w.tick)
    ensures ThresholdsNest(env.minNs, ExecPhases(env, RequestInit(env, w, r), r.phases).nodes)
  {
    var w1 := RequestInit(env, w, r);
    var e := ExecPhases(env, w1, r.phases);
    PhasesTime(env, w1, r.phases);
    SteadyThresholds(env, w1.tick, e.w.tick, w1.tick, e.w.tick, e.nodes);
  }

  /** A request that dies inside a span can keep one below it: then the kept spans are no subtree. */
  lemma DeathBreaksSubtree(env: Env, w: World, r: Request)
    requires !w.ctx.active && Traced(w, r) && r.triggered && r.phases == [DYING]
    requires env.minNs(w.tick + 3) == 0
    ensures var s := Serve(env, w, r); s.root.Root? && !KeptSubtree([s.root.node])
  {
    OnePhase(env, RequestInit(env, w, r), DYING);
    DyingLeavesOpen(env, RequestInit(env, w, r));
    OpenBreaksSubtree(env, w, r);
  }

  lemma OpenBreaksSubtree(env: Env, w: World, r: Request)
    requires !w.ctx.active && Traced(w, r)
    requires KeptInsideOpen(ExecPhases(env, RequestInit(env, w, r), r.phases).nodes)
    ensures var s := Serve(env, w, r); s.root.Root? && !KeptSubtree([s.root.node])
  {
    ServeTree(env, w, r);
    var n := Serve(env, w, r).root.node;
    OpenNoSubtree(n.kids);
    SubtreeBelow(n);
  }

  lemma SubtreeBelow(n: Node)
    requires !KeptSubtree(n.kids)
    ensures !KeptSubtree([n])
  {
  }

  lemma OnePhase(env: Env, w: World, cs: seq<Invocation>)
    ensures ExecPhases(env, w, [cs]) == ExecBody(env, w, cs)
  {
    var e := ExecBody(env, w, cs);
    assert ExecPhases(env, e.w, []) == Exec(e.w, [], false);
    assert [cs][1..] == [];
    assert e.nodes + [] == e.nodes;
  }

  /** The ledger and the tally of a request. */
  lemma ServeAccounts(env: Env, w: World, r: Request)
    requires EnvOk(env) && !w.ctx.active && Traced(w, r)
    ensures var s := Serve(env, w, r);
      s.root.Root? && Accounts(env, w, s.w, [s.root.node]) && Tallies(w.tick, s.w.tick, [s.root.node])
  {
    var w1 := RequestInit(env, w, r);
    var e, s := ExecPhases(env, w1, r.phases), Serve(env, w, r);
    var f := FinishSpan(env, e.w, e.w.root, 0);
    PhasesRestore(env, w1, r.phases);
    PhasesAccounts(env, w1, r.phases);
    AccountsMoved(env, w, w1, e.w, e.nodes);
    var n := s.root.node;
    FinishAccounts(env, e.w, e.w.root, 0, n);
    AccountsAround(env, w, e.w, f.w, n);
    AccountsUntil(env, w, f.w, s.w, [n]);
    PhasesTime(env, w1, r.phases);
    TimedTallies(env, w1.tick, e.w.tick, e.nodes);
    FinishRestores(env, e.w, e.w.root, 0);
    IdsOne(n);
    FinishesOne(n);
  }

  lemma AccountsUntil(env: Env, w: World, e: World, v: World, ns: seq<Node>)
    requires Accounts(env, w, e, ns) && e.acts == v.acts
    ensures Accounts(env, w, v, ns)
  {
    forall acc: seq<seq<Byte>>, ref: seq<seq<Byte>> | Books(env, w, acc, ref)
      ensures Books(env, v, acc + Encodings(Which(ns, Written)), ref + Encodings(Which(ns, Refused)))
    {
      SameRing(env, e, v, acc + Encodings(Which(ns, Written)), ref + Encodings(Which(ns, Refused)));
    }
  }

  // ------------------------------------------------------------------ the life of a worker

  /** Between requests no context is active and no span is open, every span belongs to the tree of a
      request, requests have needed an initialised ring, and the ring has accepted and refused what the
      outcomes of the spans say. */
  ghost predicate LifeOk(env: Env, w: World, l: Life) {
    && !l.w.ctx.active && l.w.ctx.currentParentId == 0 && l.stray == []
    && (l.roots != [] ==> l.w.ready)
    && (forall n :: n in l.roots ==> RequestTree(n))
    && Accounts(env, w, l.w, l.roots)
    && Tallies(w.tick, l.w.tick, l.roots)
  }

  lemma OutsideOk(env: Env, w: World, past: Life, cs: seq<Invocation>)
    requires LifeOk(env, w, past)
    ensures var e := ExecBody(env, past.w, cs); LifeOk(env, w, Life(e.w, past.roots, past.stray + e.nodes))
  {
    BodyIdle(env, past.w, cs);
    AccountsUntil(env, w, past.w, ExecBody(env, past.w, cs).w, past.roots);
  }

  lemma TreeAdded(env: Env, w: World, past: Life, e: World, n: Node)
    requires LifeOk(env, w, past) && RequestTree(n) && !e.ctx.active && e.ctx.currentParentId == 0 && e.ready
    requires Accounts(env, past.w, e, [n]) && Tallies(past.w.tick, e.tick, [n])
    ensures LifeOk(env, w, Life(e, past.roots + [n], []))
  {
    AccountsJoin(env, w, past.roots, past.w, [n], e);
    IdsAppend(past.roots, [n]);
    FinishesAppend(past.roots, [n]);
  }

  lemma ServesOk(env: Env, w: World, past: Life, r: Request)
    requires EnvOk(env) && LifeOk(env, w, past)
    ensures var s := Serve(env, past.w, r);
      LifeOk(env, w, Life(s.w, if s.root.Root? then past.roots + [s.root.node] else past.roots,
                          past.stray + s.stray))
  {
    if Traced(past.w, r) {
      var s := Serve(env, past.w, r);
      ServeTree(env, past.w, r);
      ServeAccounts(env, past.w, r);
      TreeAdded(env, w, past, s.w, s.root.node);
      assert past.stray + s.stray == [];
    } else {
      ServeIdle(env, past.w, r);
      AccountsUntil(env, w, past.w, Serve(env, past.w, r).w, past.roots);
    }
  }

  /** Over any sequence of requests and of calls outside requests. */
  lemma {:induction false} LiveOk(env: Env, w: World, items: seq<Item>)
    requires EnvOk(env) && !w.ctx.active && w.ctx.currentParentId == 0
    ensures LifeOk(env, w, Live(env, w, items))
    decreases |items|
  {
    if items == [] {
      AccountsNothing(env, w);
    } else {
      var past := Live(env, w, items[..|items| - 1]);
      LiveOk(env, w, items[..|items| - 1]);
      match items[|items| - 1]
      case Outside(cs) => OutsideOk(env, w, past, cs);
      case Serves(r) => ServesOk(env, w, past, r);
    }
  }

  lemma IdleBetween(env: Env, w: World, items: seq<Item>)
    requires EnvOk(env) && !w.ctx.active && w.ctx.currentParentId == 0
    ensures !Live(env, w, items).w.ctx.active
  {
    LiveOk(env, w, items);
  }

  /** Between requests, the payloads the ring accepted are the encodings of the written spans, those it
      refused the encodings of the refused ones. */
  lemma LiveBooks(env: Env, enabled: bool, items: seq<Item>)
    requires EnvOk(env)
    ensures var l := Live(env, Born(enabled), items);
      Rests(RingOf(env, l.w), Encodings(Which(l.roots, Written)), Encodings(Which(l.roots, Refused)))
  {
    var w := Born(enabled);
    var l := Live(env, w, items);
    LiveOk(env, w, items);
    assert RingOf(env, w) == Init(env.cap, env.memory);
    BooksMean(env, w, [], []);
    var written, refused := Encodings(Which(l.roots, Written)), Encodings(Which(l.roots, Refused));
    assert Books(env, l.w, [] + written, [] + refused);
    assert [] + written == written && [] + refused == refused;
    BooksMean(env, l.w, written, refused);
  }

  // ------------------------------------------------------------------ end to end

  /** The payloads decode, each to its end, to the first of these spans: to a map with their fields under
      the keys of their types, in order, so to all that their types make relevant. */
  ghost predicate DecodesTo(taken: seq<seq<Byte>>, ss: seq<Span>) {
    && |taken| <= |ss|
    && forall i :: 0 <= i < |taken| ==>
         Decode(taken[i]) == Ok(Map(WirePairs(ss[i])), []) && DecodeSpan(taken[i]) == Ok(ViewOf(ss[i]), [])
  }

  lemma EncodingsDecode(taken: seq<seq<Byte>>, ss: seq<Span>)
    requires taken <= Encodings(ss)
    ensures DecodesTo(taken, ss)
  {
    forall i | 0 <= i < |taken|
      ensures Decode(taken[i]) == Ok(Map(WirePairs(ss[i])), []) && DecodeSpan(taken[i]) == Ok(ViewOf(ss[i]), [])
    {
      EncodingsAt(ss, i);
      SpanRoundTrip(ss[i], []);
      WireFormat(ss[i], []);
      assert Encode(ss[i]) + [] == Encode(ss[i]);
    }
  }

  lemma {:induction false} TakenGrows(w: Width, s: Ring, acts: seq<Action>)
    ensures s.taken <= Run(w, s, acts).taken
    decreases |acts|
  {
    if acts != [] {
      TakenGrows(w, s, acts[..|acts| - 1]);
      StepTakes(w, Run(w, s, acts[..|acts| - 1]), acts[|acts| - 1]);
    }
  }

  lemma StepTakes(w: Width, s: Ring, a: Action)
    ensures s.taken <= Step(w, s, a).taken
  {
  }

  /** The ring after the life of a worker and any further steps of the consumer. */
  function RingAfter(env: Env, enabled: bool, items: seq<Item>, more: seq<Action>): Ring {
    Run(Word, RingOf(env, Live(env, Born(enabled), items).w), more)
  }

  lemma AfterLife(env: Env, enabled: bool, items: seq<Item>, more: seq<Action>)
    requires EnvOk(env) && forall a :: a in more ==> !a.Call?
    ensures var l, t := Live(env, Born(enabled), items), RingAfter(env, enabled, items, more);
      && Rests(t, Encodings(Which(l.roots, Written)), Encodings(Which(l.roots, Refused)))
      && Reachable(Word, env.cap, t)
  {
    var l := Live(env, Born(enabled), items);
    LiveBooks(env, enabled, items);
    RunRests(RingOf(env, l.w), more, Encodings(Which(l.roots, Written)), Encodings(Which(l.roots, Refused)));
    RunAppend(Word, Init(env.cap, env.memory), l.w.acts, more);
  }

  /** End to end. Requests run any call trees, cut off anywhere, with any interleaving of ring steps
      and any settings. At every moment, in the middle of a write or after the last request, what the
      consumer has taken decodes to a prefix of the spans whose finish reported success, in the order
      they finished, in everything their types make relevant. */
  lemma EndToEnd(env: Env, enabled: bool, items: seq<Item>, more: seq<Action>, moment: nat)
    requires EnvOk(env) && forall a :: a in more ==> !a.Call?
    requires var l := Live(env, Born(enabled), items); moment <= |l.w.acts + more|
    ensures var l := Live(env, Born(enabled), items);
      DecodesTo(Run(Word, Init(env.cap, env.memory), (l.w.acts + more)[..moment]).taken,
                Which(l.roots, Written))
  {
    var l := Live(env, Born(enabled), items);
    AllTaken(env, enabled, items, more);
    TakenBefore(Word, Init(env.cap, env.memory), l.w.acts + more, moment);
    EncodingsDecode(Run(Word, Init(env.cap, env.memory), (l.w.acts + more)[..moment]).taken, Which(l.roots, Written));
  }

  lemma TakenBefore(w: Width, s: Ring, acts: seq<Action>, moment: nat)
    requires moment <= |acts|
    ensures Run(w, s, acts[..moment]).taken <= Run(w, s, acts).taken
  {
    RunAppend(w, s, acts[..moment], acts[moment..]);
    assert acts == acts[..moment] + acts[moment..];
    TakenGrows(w, Run(w, s, acts[..moment]), acts[moment..]);
  }

  lemma AllTaken(env: Env, enabled: bool, items: seq<Item>, more: seq<Action>)
    requires EnvOk(env) && forall a :: a in more ==> !a.Call?
    ensures var l := Live(env, Born(enabled), items);
      Run(Word, Init(env.cap, env.memory), l.w.acts + more).taken <= Encodings(Which(l.roots, Written))
  {
    var l := Live(env, Born(enabled), items);
    AfterLife(env, enabled, items, more);
    RunAppend(Word, Init(env.cap, env.memory), l.w.acts, more);
    RingSafe(true, env.cap, RingAfter(env, enabled, items, more));
  }

  /** Every finish is accounted for, in a life of any length. The clock readings are the starts and
      the finishes; a finish was a success, a write the ring refused, an encoding too long for the
      buffer, or filtered; `dropped` counts the refused writes, and only those, modulo 2^64. */
  lemma EveryFinishCounted(env: Env, enabled: bool, items: seq<Item>)
    requires EnvOk(env)
    ensures var l := Live(env, Born(enabled), items);
      && l.w.tick - |Ids(l.roots)|
         == |Which(l.roots, Written)| + |Which(l.roots, Refused)| + |Which(l.roots, Overflow)|
            + |Which(l.roots, Filtered)|
      && |Ids(l.roots)| == l.w.tick - |Ids(l.roots)| + |Which(l.roots, Unfinished)|
      && RingOf(env, l.w).dropped == |Which(l.roots, Refused)| % U64
  {
    var l := Live(env, Born(enabled), items);
    LiveOk(env, Born(enabled), items);
    StartsSplit(l.roots);
    LiveBooks(env, enabled, items);
    WorldReachable(env, l.w);
    RingSafe(true, env.cap, RingOf(env, l.w));
  }

  /** Nothing accepted is lost: after any life the consumer alone can go on to take, and decode, every
      span whose finish reported success. */
  lemma EverythingArrives(env: Env, enabled: bool, items: seq<Item>) returns (more: seq<Action>)
    requires EnvOk(env)
    ensures ConsumerOnly(more)
    ensures var l, t := Live(env, Born(enabled), items), RingAfter(env, enabled, items, more);
      && t.taken == Encodings(Which(l.roots, Written))
      && DecodesTo(t.taken, Which(l.roots, Written))
  {
    var l := Live(env, Born(enabled), items);
    LiveBooks(env, enabled, items);
    var r0 := Init(env.cap, env.memory);
    var s := Run(Ideal, r0, l.w.acts);
    RunInv(env.cap, env.memory, l.w.acts);
    more := Drain(s);
    RunAppend(Ideal, r0, l.w.acts, more);
    RunAppend(Word, r0, l.w.acts, more);
    RunWord(env.cap, env.memory, l.w.acts);
    RunWord(env.cap, env.memory, l.w.acts + more);
    EncodingsDecode(Encodings(Which(l.roots, Written)), Which(l.roots, Written));
  }
}
