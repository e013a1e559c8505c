/** lumbre_span_encode: the call sequence that writes a span, against `Spans.Encode`. */
module SpanEncoder {
  import opened Bits
  import opened Bytes
  import opened Msgpack
  import opened Packer
  import opened Spans

  /** The encodings of the calls, in order: the map header, then one pair per field. */
  function Chunks(s: Span): seq<seq<Byte>> {
    [EncMapHeader(FieldCount(s.kind))] + PairChunks(Fields(s))
  }

  function PairChunks(fs: seq<Field>): (es: seq<seq<Byte>>)
    ensures |es| == |fs|
  {
    seq(|fs|, i requires 0 <= i < |fs| => EncPair(fs[i].key, fs[i].val))
  }

  lemma {:induction false} FlattenPairs(fs: seq<Field>)
    ensures Flatten(PairChunks(fs)) == EncFields(fs)
  {
    if fs != [] {
      FlattenPairs(fs[1..]);
      FirstChunk(fs);
      FlattenFirst(PairChunks(fs)[0], PairChunks(fs[1..]));
    }
  }

  lemma FirstChunk(fs: seq<Field>)
    requires fs != []
    ensures PairChunks(fs) == [PairChunks(fs)[0]] + PairChunks(fs[1..])
    ensures EncFields(fs) == PairChunks(fs)[0] + EncFields(fs[1..])
  {
  }

  lemma FlattenFirst(e: seq<Byte>, es: seq<seq<Byte>>)
    ensures Flatten([e] + es) == e + Flatten(es)
  {
    FlattenAppend([e], es);
    FlattenOne(e);
  }

  lemma FlattenChunks(s: Span)
    ensures Flatten(Chunks(s)) == Encode(s)
  {
    FlattenPairs(Fields(s));
    FlattenFirst(EncMapHeader(FieldCount(s.kind)), PairChunks(Fields(s)));
  }

  // ------------------------------------------------------------------ progress of a span's job

  /** The job emits `s`, and its first `i` encodings are in the buffer `b`, `p`. */
  ghost predicate Wrote(s: Span, j: Job, i: nat, b: seq<Byte>, p: nat) {
    forall n: nat :: Open(n) ==> j.es == Chunks(s) && Progress(j, i, b, p)
  }

  ghost predicate OutOfSpace(s: Span, j: Job, b: seq<Byte>, p: nat) {
    forall n: nat :: Open(n) ==> j.es == Chunks(s) && Overflowed(j, b, p)
  }

  lemma AdvanceFor(s: Span, j: Job, i: nat, b1: seq<Byte>, p1: nat, b2: seq<Byte>, p2: nat, rc: int)
    requires i <= |Fields(s)| && Wrote(s, j, i, b1, p1)
    requires Emits(b1, p1, b2, p2, Chunks(s)[i], rc)
    ensures rc == 0 ==> Wrote(s, j, i + 1, b2, p2)
    ensures rc != 0 ==> OutOfSpace(s, j, b2, p2)
  {
    assert Open(0);
    Advance(j, i, b1, p1, b2, p2, rc);
  }

  // ------------------------------------------------------------------ one call of the job

  method FirstMap(mp: PackBuffer, count: nat, ghost s: Span, ghost j: Job) returns (rc: int)
    requires mp.Valid() && count == FieldCount(s.kind)
    requires Wrote(s, j, 0, mp.buf[..], mp.pos)
    modifies mp, mp.buf
    ensures mp.Valid() && (rc == 0 || rc == -1)
    ensures rc == 0 ==> Wrote(s, j, 1, mp.buf[..], mp.pos)
    ensures rc != 0 ==> OutOfSpace(s, j, mp.buf[..], mp.pos)
  {
    ghost var b1, p1 := mp.buf[..], mp.pos;
    rc := mp.PackMap(count);
    AdvanceFor(s, j, 0, b1, p1, mp.buf[..], mp.pos, rc);
  }

  method NextUInt(mp: PackBuffer, key: Text, val: Word64, ghost s: Span, ghost j: Job, ghost i: nat) returns (rc: int)
    requires mp.Valid() && i < |Fields(s)| && Fields(s)[i] == Field(key, UInt(val))
    requires Wrote(s, j, i + 1, mp.buf[..], mp.pos)
    modifies mp, mp.buf
    ensures mp.Valid() && (rc == 0 || rc == -1)
    ensures rc == 0 ==> Wrote(s, j, i + 2, mp.buf[..], mp.pos)
    ensures rc != 0 ==> OutOfSpace(s, j, mp.buf[..], mp.pos)
  {
    ghost var b1, p1 := mp.buf[..], mp.pos;
    rc := mp.PackUIntKv(key, val);
    AdvanceFor(s, j, i + 1, b1, p1, mp.buf[..], mp.pos, rc);
  }

  method NextStr(mp: PackBuffer, key: Text, val: Text, ghost s: Span, ghost j: Job, ghost i: nat) returns (rc: int)
    requires mp.Valid() && i < |Fields(s)| && Fields(s)[i] == Field(key, Str(val))
    requires Wrote(s, j, i + 1, mp.buf[..], mp.pos)
    modifies mp, mp.buf
    ensures mp.Valid() && (rc == 0 || rc == -1)
    ensures rc == 0 ==> Wrote(s, j, i + 2, mp.buf[..], mp.pos)
    ensures rc != 0 ==> OutOfSpace(s, j, mp.buf[..], mp.pos)
  {
    ghost var b1, p1 := mp.buf[..], mp.pos;
    rc := mp.PackStrKv(key, val);
    AdvanceFor(s, j, i + 1, b1, p1, mp.buf[..], mp.pos, rc);
  }

  method NextBin(mp: PackBuffer, key: Text, val: TraceId, ghost s: Span, ghost j: Job, ghost i: nat) returns (rc: int)
    requires mp.Valid() && i < |Fields(s)| && Fields(s)[i] == Field(key, Bin(val))
    requires Wrote(s, j, i + 1, mp.buf[..], mp.pos)
    modifies mp, mp.buf
    ensures mp.Valid() && (rc == 0 || rc == -1)
    ensures rc == 0 ==> Wrote(s, j, i + 2, mp.buf[..], mp.pos)
    ensures rc != 0 ==> OutOfSpace(s, j, mp.buf[..], mp.pos)
  {
    ghost var b1, p1 := mp.buf[..], mp.pos;
    rc := mp.PackBinKv(key, val);
    AdvanceFor(s, j, i + 1, b1, p1, mp.buf[..], mp.pos, rc);
  }

  // ------------------------------------------------------------------ the call sequence

  method EncodeIdentity(s: Span, mp: PackBuffer, ghost j: Job) returns (rc: int)
    requires mp.Valid() && Wrote(s, j, 0, mp.buf[..], mp.pos)
    modifies mp, mp.buf
    ensures mp.Valid() && (rc == 0 || rc == -1)
    ensures rc == 0 ==> Wrote(s, j, 4, mp.buf[..], mp.pos)
    ensures rc != 0 ==> OutOfSpace(s, j, mp.buf[..], mp.pos)
  {
    rc := FirstMap(mp, FieldCount(s.kind), s, j);
    if rc < 0 { return -1; }
    rc := NextUInt(mp, K_TYPE, s.kind, s, j, 0);
    if rc < 0 { return -1; }
    rc := NextBin(mp, K_TRACE_ID, s.traceId, s, j, 1);
    if rc < 0 { return -1; }
    rc := NextUInt(mp, K_SPAN_ID, s.spanId, s, j, 2);
  }

  method EncodeTiming(s: Span, mp: PackBuffer, ghost j: Job) returns (rc: int)
    requires mp.Valid() && Wrote(s, j, 4, mp.buf[..], mp.pos)
    modifies mp, mp.buf
    ensures mp.Valid() && (rc == 0 || rc == -1)
    ensures rc == 0 ==> Wrote(s, j, 7, mp.buf[..], mp.pos)
    ensures rc != 0 ==> OutOfSpace(s, j, mp.buf[..], mp.pos)
  {
    rc := NextUInt(mp, K_PARENT, s.parentId, s, j, 3);
    if rc < 0 { return -1; }
    rc := NextUInt(mp, K_START, s.startNs, s, j, 4);
    if rc < 0 { return -1; }
    rc := NextUInt(mp, K_DURATION, s.durationNs, s, j, 5);
  }

  method EncodeHttpIn(s: Span, mp: PackBuffer, ghost j: Job) returns (rc: int)
    requires mp.Valid() && s.kind == HTTP_IN && Wrote(s, j, 7, mp.buf[..], mp.pos)
    modifies mp, mp.buf
    ensures mp.Valid() && (rc == 0 || rc == -1)
    ensures rc == 0 ==> Wrote(s, j, 9, mp.buf[..], mp.pos)
    ensures rc != 0 ==> OutOfSpace(s, j, mp.buf[..], mp.pos)
  {
    rc := NextStr(mp, K_URI, s.requestUri, s, j, 6);
    if rc < 0 { return -1; }
    rc := NextStr(mp, K_METHOD, s.method_, s, j, 7);
  }

  method EncodeHttpOut(s: Span, mp: PackBuffer, ghost j: Job) returns (rc: int)
    requires mp.Valid() && s.kind == HTTP_OUT && Wrote(s, j, 7, mp.buf[..], mp.pos)
    modifies mp, mp.buf
    ensures mp.Valid() && (rc == 0 || rc == -1)
    ensures rc == 0 ==> Wrote(s, j, 10, mp.buf[..], mp.pos)
    ensures rc != 0 ==> OutOfSpace(s, j, mp.buf[..], mp.pos)
  {
    rc := NextStr(mp, K_URL, s.url, s, j, 6);
    if rc < 0 { return -1; }
    rc := NextStr(mp, K_METHOD, s.method_, s, j, 7);
    if rc < 0 { return -1; }
    rc := NextUInt(mp, K_STATUS, s.statusCode, s, j, 8);
  }

  method EncodeDb(s: Span, mp: PackBuffer, ghost j: Job) returns (rc: int)
    requires mp.Valid() && s.kind == DB && Wrote(s, j, 7, mp.buf[..], mp.pos)
    modifies mp, mp.buf
    ensures mp.Valid() && (rc == 0 || rc == -1)
    ensures rc == 0 ==> Wrote(s, j, 10, mp.buf[..], mp.pos)
    ensures rc != 0 ==> OutOfSpace(s, j, mp.buf[..], mp.pos)
  {
    rc := NextStr(mp, K_QUERY, s.query, s, j, 6);
    if rc < 0 { return -1; }
    rc := NextStr(mp, K_DB_TYPE, s.dbType, s, j, 7);
    if rc < 0 { return -1; }
    rc := NextUInt(mp, K_ROWS, s.rowsAffected, s, j, 8);
  }

  method EncodeCache(s: Span, mp: PackBuffer, ghost j: Job) returns (rc: int)
    requires mp.Valid() && (s.kind == REDIS || s.kind == MEMCACHED) && Wrote(s, j, 7, mp.buf[..], mp.pos)
    modifies mp, mp.buf
    ensures mp.Valid() && (rc == 0 || rc == -1)
    ensures rc == 0 ==> Wrote(s, j, 9, mp.buf[..], mp.pos)
    ensures rc != 0 ==> OutOfSpace(s, j, mp.buf[..], mp.pos)
  {
    rc := NextStr(mp, K_CMD, s.cacheCmd, s, j, 6);
    if rc < 0 { return -1; }
    rc := NextStr(mp, K_KEY, s.cacheKey, s, j, 7);
  }

  method EncodeResource(s: Span, mp: PackBuffer, ghost j: Job) returns (rc: int)
    requires mp.Valid() && (s.kind == FILE_IO || s.kind == SOCKET) && Wrote(s, j, 7, mp.buf[..], mp.pos)
    modifies mp, mp.buf
    ensures mp.Valid() && (rc == 0 || rc == -1)
    ensures rc == 0 ==> Wrote(s, j, 8, mp.buf[..], mp.pos)
    ensures rc != 0 ==> OutOfSpace(s, j, mp.buf[..], mp.pos)
  {
    rc := NextStr(mp, K_URL, s.url, s, j, 6);
  }

  lemma FunctionFields(s: Span)
    requires s.kind == FUNC
    ensures |Fields(s)| == 10
    ensures Fields(s)[6] == Field(K_CLASS, Str(s.funcClass)) && Fields(s)[7] == Field(K_FUNC, Str(s.funcName))
    ensures Fields(s)[8] == Field(K_FILE, Str(s.funcFile)) && Fields(s)[9] == Field(K_LINE, UInt(s.funcLine))
  {
  }

  method EncodeFunction(s: Span, mp: PackBuffer, ghost j: Job) returns (rc: int)
    requires mp.Valid() && s.kind == FUNC && Wrote(s, j, 7, mp.buf[..], mp.pos)
    modifies mp, mp.buf
    ensures mp.Valid() && (rc == 0 || rc == -1)
    ensures rc == 0 ==> Wrote(s, j, 11, mp.buf[..], mp.pos)
    ensures rc != 0 ==> OutOfSpace(s, j, mp.buf[..], mp.pos)
  {
    FunctionFields(s);
    rc := NextStr(mp, K_CLASS, s.funcClass, s, j, 6);
    if rc < 0 { return -1; }
    rc := NextStr(mp, K_FUNC, s.funcName, s, j, 7);
    if rc < 0 { return -1; }
    rc := NextStr(mp, K_FILE, s.funcFile, s, j, 8);
    if rc < 0 { return -1; }
    rc := NextUInt(mp, K_LINE, s.funcLine, s, j, 9);
  }

  method EncodeDetail(s: Span, mp: PackBuffer, ghost j: Job) returns (rc: int)
    requires mp.Valid() && Wrote(s, j, 7, mp.buf[..], mp.pos)
    modifies mp, mp.buf
    ensures mp.Valid() && (rc == 0 || rc == -1)
    ensures rc == 0 ==> Wrote(s, j, 1 + FieldCount(s.kind), mp.buf[..], mp.pos)
    ensures rc != 0 ==> OutOfSpace(s, j, mp.buf[..], mp.pos)
  {
    rc := 0;
    if s.kind == HTTP_IN {
      rc := EncodeHttpIn(s, mp, j);
    } else if s.kind == HTTP_OUT {
      rc := EncodeHttpOut(s, mp, j);
    } else if s.kind == DB {
      rc := EncodeDb(s, mp, j);
    } else if s.kind == REDIS || s.kind == MEMCACHED {
      rc := EncodeCache(s, mp, j);
    } else if s.kind == FILE_IO || s.kind == SOCKET {
      rc := EncodeResource(s, mp, j);
    } else if s.kind == FUNC {
      rc := EncodeFunction(s, mp, j);
    }
  }

  lemma JobResult(s: Span, j: Job, b: seq<Byte>, p: nat, rc: int)
    requires |j.b0| == |b| && j.p0 <= |b| && p <= |b|
    requires rc == 0 ==> Wrote(s, j, 1 + FieldCount(s.kind), b, p)
    requires rc != 0 ==> rc == -1 && OutOfSpace(s, j, b, p)
    ensures Emits(j.b0, j.p0, b, p, Encode(s), rc)
    ensures rc == -1 ==> j.p0 <= p < j.p0 + |Encode(s)| && b[..p] == j.b0[..j.p0] + Encode(s)[..p - j.p0]
  {
    FlattenChunks(s);
    assert Open(0);
    HeaderCountsFields(s);
    assert j.es[..1 + FieldCount(s.kind)] == j.es;
  }

  lemma ProperPrefix(c: seq<Byte>, e: seq<Byte>, n: nat)
    requires n < |e|
    ensures c <= c + e[..n] < c + e
  {
    assert c + e == (c + e[..n]) + e[n..];
  }

  /** lumbre_span_encode. Succeeds exactly when the closed-form size fits the space left, and then
      advances by exactly that; a failure leaves a proper prefix of the encoding behind. */
  method EncodeSpan(s: Span, mp: PackBuffer) returns (rc: int)
    requires mp.Valid()
    modifies mp, mp.buf
    ensures mp.Valid()
    ensures rc == 0 || rc == -1
    ensures rc == 0 <==> old(mp.pos) + EncodedSize(s) <= mp.buf.Length
    ensures rc == 0 ==> mp.pos == old(mp.pos) + EncodedSize(s)
    ensures rc == 0 ==> mp.Contents() == old(mp.Contents()) + Encode(s)
    ensures rc == -1 ==> old(mp.Contents()) <= mp.Contents() < old(mp.Contents()) + Encode(s)
    ensures mp.buf[mp.pos..] == old(mp.buf[..])[mp.pos..]
  {
    EncodedSizeExact(s);
    ghost var j := Job(mp.buf[..], mp.pos, Chunks(s));
    assert j.es[..0] == [];
    Started(j);
    rc := EncodeIdentity(s, mp, j);
    if rc == 0 {
      rc := EncodeTiming(s, mp, j);
    }
    if rc == 0 {
      rc := EncodeDetail(s, mp, j);
    }
    JobResult(s, j, mp.buf[..], mp.pos, rc);
    if rc != 0 {
      ProperPrefix(j.b0[..j.p0], Encode(s), mp.pos - j.p0);
    }
    assert rc == 0 ==> Encode(s)[..|Encode(s)|] == Encode(s);
  }
}
