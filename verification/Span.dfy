/** Spans, their MessagePack encoding, and the decoder that recovers them. */
module Spans {
  import opened Bits
  import opened Bytes
  import opened Msgpack
  import opened Packer

  // ------------------------------------------------------------------ data

  type Word16 = x: nat | x < U16
  type Word32 = x: nat | x < U32
  type Word64 = x: nat | x < U64

  /** A C string with its 32-bit length, short enough that `5 + len` does not wrap. */
  type Text = s: seq<Byte> | 5 + |s| < U32

  type TraceId = s: seq<Byte> | |s| == 16 witness [0, 0, 0, 0, 0, 0, 0, 0, 0, 0, 0, 0, 0, 0, 0, 0]

  const ZERO_TRACE: TraceId := [0, 0, 0, 0, 0, 0, 0, 0, 0, 0, 0, 0, 0, 0, 0, 0]

  const HTTP_IN: Byte := 1
  const HTTP_OUT: Byte := 2
  const DB: Byte := 3
  const REDIS: Byte := 4
  const MEMCACHED: Byte := 5
  const FILE_IO: Byte := 6
  const SOCKET: Byte := 7
  const FUNC: Byte := 8
  const CACHE: Byte := 9

  /** lumbre_span_t. A pointer and its length are one byte string. */
  datatype Span = Span(
    kind: Byte,
    traceId: TraceId,
    spanId: Word64,
    parentId: Word64,
    startNs: Word64,
    durationNs: Word64,
    url: Text,
    method_: Text,
    statusCode: Word16,
    query: Text,
    dbType: Text,
    rowsAffected: Word32,
    cacheCmd: Text,
    cacheKey: Text,
    funcClass: Text,
    funcName: Text,
    funcFile: Text,
    funcLine: Word32,
    requestUri: Text
  )

  /** The all-zero span of memset. */
  const BLANK: Span :=
    Span(0, ZERO_TRACE, 0, 0, 0, 0, [], [], 0, [], [], 0, [], [], [], [], [], 0, [])

  // ------------------------------------------------------------------ encoding

  const K_TYPE: seq<Byte> := [0x74]                 // "t"
  const K_TRACE_ID: seq<Byte> := [0x74, 0x69, 0x64] // "tid"
  const K_SPAN_ID: seq<Byte> := [0x73, 0x69, 0x64]  // "sid"
  const K_PARENT: seq<Byte> := [0x70, 0x69, 0x64]   // "pid"
  const K_START: seq<Byte> := [0x73]                // "s"
  const K_DURATION: seq<Byte> := [0x64]             // "d"
  const K_URL: seq<Byte> := [0x75, 0x72, 0x6c]      // "url"
  const K_METHOD: seq<Byte> := [0x6d, 0x74, 0x68]   // "mth"
  const K_STATUS: seq<Byte> := [0x73, 0x74]         // "st"
  const K_QUERY: seq<Byte> := [0x71]                // "q"
  const K_DB_TYPE: seq<Byte> := [0x64, 0x62, 0x74]  // "dbt"
  const K_ROWS: seq<Byte> := [0x72]                 // "r"
  const K_CMD: seq<Byte> := [0x63, 0x6d, 0x64]      // "cmd"
  const K_KEY: seq<Byte> := [0x6b]                  // "k"
  const K_CLASS: seq<Byte> := [0x63, 0x6c, 0x73]    // "cls"
  const K_FUNC: seq<Byte> := [0x66, 0x6e]           // "fn"
  const K_FILE: seq<Byte> := [0x66]                 // "f"
  const K_LINE: seq<Byte> := [0x6c]                 // "l"
  const K_URI: seq<Byte> := [0x75, 0x72, 0x69]      // "uri"

  datatype Field = Field(key: Text, val: Token)

  function CommonFields(s: Span): seq<Field> {
    [ Field(K_TYPE, UInt(s.kind)),
      Field(K_TRACE_ID, Bin(s.traceId)),
      Field(K_SPAN_ID, UInt(s.spanId)),
      Field(K_PARENT, UInt(s.parentId)),
      Field(K_START, UInt(s.startNs)),
      Field(K_DURATION, UInt(s.durationNs)) ]
  }

  function DetailFields(s: Span): seq<Field> {
    if s.kind == HTTP_IN then
      [Field(K_URI, Str(s.requestUri)), Field(K_METHOD, Str(s.method_))]
    else if s.kind == HTTP_OUT then
      [Field(K_URL, Str(s.url)), Field(K_METHOD, Str(s.method_)), Field(K_STATUS, UInt(s.statusCode))]
    else if s.kind == DB then
      [Field(K_QUERY, Str(s.query)), Field(K_DB_TYPE, Str(s.dbType)), Field(K_ROWS, UInt(s.rowsAffected))]
    else if s.kind == REDIS || s.kind == MEMCACHED then
      [Field(K_CMD, Str(s.cacheCmd)), Field(K_KEY, Str(s.cacheKey))]
    else if s.kind == FILE_IO || s.kind == SOCKET then
      [Field(K_URL, Str(s.url))]
    else if s.kind == FUNC then
      [Field(K_CLASS, Str(s.funcClass)), Field(K_FUNC, Str(s.funcName)),
       Field(K_FILE, Str(s.funcFile)), Field(K_LINE, UInt(s.funcLine))]
    else []
  }

  function Fields(s: Span): seq<Field> {
    CommonFields(s) + DetailFields(s)
  }

  /** lumbre_span_field_count. */
  function FieldCount(kind: Byte): nat {
    if kind == HTTP_IN then 8
    else if kind == HTTP_OUT then 9
    else if kind == DB then 9
    else if kind == REDIS || kind == MEMCACHED then 8
    else if kind == FILE_IO || kind == SOCKET then 7
    else if kind == FUNC then 10
    else 6
  }

  function EncFields(fs: seq<Field>): seq<Byte> {
    if fs == [] then [] else EncPair(fs[0].key, fs[0].val) + EncFields(fs[1..])
  }

  function Encode(s: Span): seq<Byte> {
    EncMapHeader(FieldCount(s.kind)) + EncFields(Fields(s))
  }

  // ------------------------------------------------------------------ what a span says

  /** The part of a span that its type makes relevant. */
  datatype Detail =
    | HttpIn(uri: seq<Byte>, method_: seq<Byte>)
    | HttpOut(url: seq<Byte>, method_: seq<Byte>, status: nat)
    | Query(query: seq<Byte>, dbType: seq<Byte>, rows: nat)
    | CacheOp(cmd: seq<Byte>, key: seq<Byte>)
    | Resource(url: seq<Byte>)
    | Function(cls: seq<Byte>, name: seq<Byte>, file: seq<Byte>, line: nat)
    | Nothing

  datatype View = View(kind: nat, traceId: seq<Byte>, spanId: nat, parentId: nat,
                       startNs: nat, durationNs: nat, detail: Detail)

  function DetailOf(s: Span): Detail {
    if s.kind == HTTP_IN then HttpIn(s.requestUri, s.method_)
    else if s.kind == HTTP_OUT then HttpOut(s.url, s.method_, s.statusCode)
    else if s.kind == DB then Query(s.query, s.dbType, s.rowsAffected)
    else if s.kind == REDIS || s.kind == MEMCACHED then CacheOp(s.cacheCmd, s.cacheKey)
    else if s.kind == FILE_IO || s.kind == SOCKET then Resource(s.url)
    else if s.kind == FUNC then Function(s.funcClass, s.funcName, s.funcFile, s.funcLine)
    else Nothing
  }

  function ViewOf(s: Span): View {
    View(s.kind, s.traceId, s.spanId, s.parentId, s.startNs, s.durationNs, DetailOf(s))
  }

  // ------------------------------------------------------------------ decoder: fields are found by key

  function Lookup(ps: seq<(Value, Value)>, key: seq<Byte>): Token {
    if ps == [] then MapHeader(0)   // stands for "absent": no decoded leaf is a map header
    else if ps[0].0 == Leaf(Str(key)) && ps[0].1.Leaf? then ps[0].1.token
    else Lookup(ps[1..], key)
  }

  function DetailFrom(kind: nat, ps: seq<(Value, Value)>): Parsed<Detail> {
    if kind == HTTP_IN then
      match (Lookup(ps, K_URI), Lookup(ps, K_METHOD))
      case (Str(u), Str(m)) => Ok(HttpIn(u, m), [])
      case _ => Fail
    else if kind == HTTP_OUT then
      match (Lookup(ps, K_URL), Lookup(ps, K_METHOD), Lookup(ps, K_STATUS))
      case (Str(u), Str(m), UInt(st)) => Ok(HttpOut(u, m, st), [])
      case _ => Fail
    else if kind == DB then
      match (Lookup(ps, K_QUERY), Lookup(ps, K_DB_TYPE), Lookup(ps, K_ROWS))
      case (Str(q), Str(d), UInt(r)) => Ok(Query(q, d, r), [])
      case _ => Fail
    else if kind == REDIS || kind == MEMCACHED then
      match (Lookup(ps, K_CMD), Lookup(ps, K_KEY))
      case (Str(c), Str(k)) => Ok(CacheOp(c, k), [])
      case _ => Fail
    else if kind == FILE_IO || kind == SOCKET then
      match Lookup(ps, K_URL)
      case Str(u) => Ok(Resource(u), [])
      case _ => Fail
    else if kind == FUNC then
      match (Lookup(ps, K_CLASS), Lookup(ps, K_FUNC), Lookup(ps, K_FILE), Lookup(ps, K_LINE))
      case (Str(c), Str(n), Str(f), UInt(l)) => Ok(Function(c, n, f, l), [])
      case _ => Fail
    else Ok(Nothing, [])
  }

  function ViewFrom(ps: seq<(Value, Value)>): Parsed<View> {
    match (Lookup(ps, K_TYPE), Lookup(ps, K_TRACE_ID), Lookup(ps, K_SPAN_ID),
           Lookup(ps, K_PARENT), Lookup(ps, K_START), Lookup(ps, K_DURATION))
    case (UInt(kind), Bin(trace), UInt(id), UInt(parent), UInt(start), UInt(dur)) =>
      (match DetailFrom(kind, ps)
       case Fail => Fail
       case Ok(d, _) => Ok(View(kind, trace, id, parent, start, dur, d), []))
    case _ => Fail
  }

  /** Decode one span from the front of a byte string. */
  function DecodeSpan(b: seq<Byte>): Parsed<View> {
    match Decode(b)
    case Ok(Map(ps), rest) =>
      (match ViewFrom(ps)
       case Fail => Fail
       case Ok(v, _) => Ok(v, rest))
    case _ => Fail
  }

  // ------------------------------------------------------------------ round trip

  lemma HeaderCountsFields(s: Span)
    ensures |Fields(s)| == FieldCount(s.kind)
  {
  }

  lemma KeysDistinct(s: Span)
    ensures forall i, j :: 0 <= i < j < |Fields(s)| ==> Fields(s)[i].key != Fields(s)[j].key
  {
  }

  ghost predicate PairableFields(fs: seq<Field>) {
    forall f :: f in fs ==> Packable(f.val) && !f.val.MapHeader?
  }

  lemma FieldsPackable(s: Span)
    ensures PairableFields(Fields(s))
  {
    CommonPackable(s);
    DetailPackable(s);
  }

  lemma CommonPackable(s: Span)
    ensures PairableFields(CommonFields(s))
  {
  }

  lemma DetailPackable(s: Span)
    ensures PairableFields(DetailFields(s))
  {
  }

  function Pairs(fs: seq<Field>): (ps: seq<(Value, Value)>)
    ensures |ps| == |fs|
    ensures forall i :: 0 <= i < |fs| ==> ps[i] == (Leaf(Str(fs[i].key)), Leaf(fs[i].val))
  {
    if fs == [] then [] else [(Leaf(Str(fs[0].key)), Leaf(fs[0].val))] + Pairs(fs[1..])
  }

  lemma LeafRoundTrip(t: Token, rest: seq<Byte>)
    requires Packable(t) && !t.MapHeader?
    ensures Decode(Pack(t) + rest) == Ok(Leaf(t), rest)
  {
    assert NextToken(Pack(t) + rest) == Ok(t, rest) by {
      TokenRoundTrip(t, rest);
    }
  }

  lemma {:induction false} FieldsRoundTrip(fs: seq<Field>, rest: seq<Byte>)
    requires PairableFields(fs)
    ensures DecodePairs(|fs|, EncFields(fs) + rest) == Ok(Pairs(fs), rest)
  {
    if fs == [] {
      assert [] + rest == rest;
    } else {
      FieldsRoundTrip(fs[1..], rest);
      PairStep(fs[0], fs[1..], EncFields(fs[1..]) + rest, rest);
      SplitFields(fs, rest);
    }
  }

  lemma SplitFields(fs: seq<Field>, rest: seq<Byte>)
    requires fs != []
    ensures EncFields(fs) + rest
         == Pack(Str(fs[0].key)) + (Pack(fs[0].val) + (EncFields(fs[1..]) + rest))
    ensures Pairs(fs) == [(Leaf(Str(fs[0].key)), Leaf(fs[0].val))] + Pairs(fs[1..])
  {
    Regroup(Pack(Str(fs[0].key)), Pack(fs[0].val), EncFields(fs[1..]), rest);
  }

  lemma Regroup(k: seq<Byte>, v: seq<Byte>, t: seq<Byte>, rest: seq<Byte>)
    ensures ((k + v) + t) + rest == k + (v + (t + rest))
  {
  }

  lemma PairStep(f: Field, fs: seq<Field>, tail: seq<Byte>, rest: seq<Byte>)
    requires Packable(f.val) && !f.val.MapHeader?
    requires DecodePairs(|fs|, tail) == Ok(Pairs(fs), rest)
    ensures DecodePairs(|fs| + 1, Pack(Str(f.key)) + (Pack(f.val) + tail))
         == Ok([(Leaf(Str(f.key)), Leaf(f.val))] + Pairs(fs), rest)
  {
    assert Decode(Pack(f.val) + tail) == Ok(Leaf(f.val), tail) by {
      LeafRoundTrip(f.val, tail);
    }
    var kv := Pack(Str(f.key)) + (Pack(f.val) + tail);
    assert Decode(kv) == Ok(Leaf(Str(f.key)), Pack(f.val) + tail) by {
      LeafRoundTrip(Str(f.key), Pack(f.val) + tail);
    }
  }

  lemma {:induction false} LookupFinds(fs: seq<Field>, i: nat)
    requires i < |fs|
    requires forall j :: 0 <= j < i ==> fs[j].key != fs[i].key
    ensures Lookup(Pairs(fs), fs[i].key) == fs[i].val
  {
    assert Pairs(fs)[1..] == Pairs(fs[1..]);
    if i > 0 {
      assert fs[0].key != fs[i].key;
      LookupFinds(fs[1..], i - 1);
    }
  }

  lemma ViewFromFields(s: Span)
    ensures ViewFrom(Pairs(Fields(s))) == Ok(ViewOf(s), [])
  {
    var fs := Fields(s);
    KeysDistinct(s);
    forall i | 0 <= i < |fs| ensures Lookup(Pairs(fs), fs[i].key) == fs[i].val {
      LookupFinds(fs, i);
    }
    assert fs[0] == Field(K_TYPE, UInt(s.kind));
    assert fs[1] == Field(K_TRACE_ID, Bin(s.traceId));
    assert fs[2] == Field(K_SPAN_ID, UInt(s.spanId));
    assert fs[3] == Field(K_PARENT, UInt(s.parentId));
    assert fs[4] == Field(K_START, UInt(s.startNs));
    assert fs[5] == Field(K_DURATION, UInt(s.durationNs));
    var ds := DetailFields(s);
    forall i | 0 <= i < |ds| ensures Lookup(Pairs(fs), ds[i].key) == ds[i].val {
      assert fs[6 + i] == ds[i];
    }
    DetailFromFields(s, Pairs(fs));
  }

  lemma DetailFromFields(s: Span, ps: seq<(Value, Value)>)
    requires forall i :: 0 <= i < |DetailFields(s)| ==>
      Lookup(ps, DetailFields(s)[i].key) == DetailFields(s)[i].val
    ensures DetailFrom(s.kind, ps) == Ok(DetailOf(s), [])
  {
    var ds := DetailFields(s);
    if |ds| > 0 { assert Lookup(ps, ds[0].key) == ds[0].val; }
    if |ds| > 1 { assert Lookup(ps, ds[1].key) == ds[1].val; }
    if |ds| > 2 { assert Lookup(ps, ds[2].key) == ds[2].val; }
    if |ds| > 3 { assert Lookup(ps, ds[3].key) == ds[3].val; }
  }

  /** Decoding an encoded span returns everything its type makes relevant, and what follows. */
  lemma SpanRoundTrip(s: Span, rest: seq<Byte>)
    ensures DecodeSpan(Encode(s) + rest) == Ok(ViewOf(s), rest)
  {
    EncodedPairs(s, rest);
    ViewFromFields(s);
  }

  /** A decoded pair of a text key and a value. */
  function KeyValue(key: seq<Byte>, t: Token): (Value, Value) {
    (Leaf(Str(key)), Leaf(t))
  }

  /** What the pairs of a span are on the wire, by its type, the keys in bytes. */
  function WirePairs(s: Span): seq<(Value, Value)> {
    [ KeyValue([0x74], UInt(s.kind)),                                 // "t"
      KeyValue([0x74, 0x69, 0x64], Bin(s.traceId)),                   // "tid"
      KeyValue([0x73, 0x69, 0x64], UInt(s.spanId)),                   // "sid"
      KeyValue([0x70, 0x69, 0x64], UInt(s.parentId)),                 // "pid"
      KeyValue([0x73], UInt(s.startNs)),                              // "s"
      KeyValue([0x64], UInt(s.durationNs)) ] +                        // "d"
    match s.kind
    case 1 => [ KeyValue([0x75, 0x72, 0x69], Str(s.requestUri)),      // "uri"
                KeyValue([0x6d, 0x74, 0x68], Str(s.method_)) ]        // "mth"
    case 2 => [ KeyValue([0x75, 0x72, 0x6c], Str(s.url)),             // "url"
                KeyValue([0x6d, 0x74, 0x68], Str(s.method_)),         // "mth"
                KeyValue([0x73, 0x74], UInt(s.statusCode)) ]          // "st"
    case 3 => [ KeyValue([0x71], Str(s.query)),                       // "q"
                KeyValue([0x64, 0x62, 0x74], Str(s.dbType)),          // "dbt"
                KeyValue([0x72], UInt(s.rowsAffected)) ]              // "r"
    case 4 => [ KeyValue([0x63, 0x6d, 0x64], Str(s.cacheCmd)),        // "cmd"
                KeyValue([0x6b], Str(s.cacheKey)) ]                   // "k"
    case 5 => [ KeyValue([0x63, 0x6d, 0x64], Str(s.cacheCmd)),
                KeyValue([0x6b], Str(s.cacheKey)) ]
    case 6 => [ KeyValue([0x75, 0x72, 0x6c], Str(s.url)) ]
    case 7 => [ KeyValue([0x75, 0x72, 0x6c], Str(s.url)) ]
    case 8 => [ KeyValue([0x63, 0x6c, 0x73], Str(s.funcClass)),       // "cls"
                KeyValue([0x66, 0x6e], Str(s.funcName)),              // "fn"
                KeyValue([0x66], Str(s.funcFile)),                    // "f"
                KeyValue([0x6c], UInt(s.funcLine)) ]                  // "l"
    case _ => []
  }

  lemma {:induction false} PairsAppend(a: seq<Field>, b: seq<Field>)
    ensures Pairs(a + b) == Pairs(a) + Pairs(b)
  {
  }

  lemma CommonWire(s: Span)
    ensures Pairs(CommonFields(s)) == WirePairs(s)[..6]
  {
  }

  lemma DetailWire(s: Span)
    ensures Pairs(DetailFields(s)) == WirePairs(s)[6..]
  {
  }

  /** Decoding an encoded span with any MessagePack reader yields exactly these pairs, in this order. */
  lemma WireFormat(s: Span, rest: seq<Byte>)
    ensures Decode(Encode(s) + rest) == Ok(Map(WirePairs(s)), rest)
  {
    EncodedPairs(s, rest);
    PairsAppend(CommonFields(s), DetailFields(s));
    CommonWire(s);
    DetailWire(s);
    assert WirePairs(s) == WirePairs(s)[..6] + WirePairs(s)[6..];
  }

  lemma EncodedPairs(s: Span, rest: seq<Byte>)
    ensures Decode(Encode(s) + rest) == Ok(Map(Pairs(Fields(s))), rest)
  {
    var fs := Fields(s);
    FieldsPackable(s);
    FieldsRoundTrip(fs, rest);
    HeaderThenPairs(s, EncFields(fs) + rest);
    assert Encode(s) + rest == EncMapHeader(FieldCount(s.kind)) + (EncFields(fs) + rest) by {
      Regroup([], EncMapHeader(FieldCount(s.kind)), EncFields(fs), rest);
    }
    DecodeMap(Encode(s) + rest, fs, EncFields(fs) + rest, rest);
  }

  lemma DecodeMap(b: seq<Byte>, fs: seq<Field>, body: seq<Byte>, rest: seq<Byte>)
    requires NextToken(b) == Ok(MapHeader(|fs|), body) && DecodePairs(|fs|, body) == Ok(Pairs(fs), rest)
    ensures Decode(b) == Ok(Map(Pairs(fs)), rest)
  {
  }

  lemma HeaderThenPairs(s: Span, body: seq<Byte>)
    ensures NextToken(EncMapHeader(FieldCount(s.kind)) + body) == Ok(MapHeader(|Fields(s)|), body)
  {
    HeaderCountsFields(s);
    MapHeaderRoundTrip(FieldCount(s.kind), body);
  }

  /** The encoding is injective on views and self-delimiting: two encoded streams that agree
      as bytes start with the same view and continue with the same bytes. */
  lemma EncodeInjective(s1: Span, r1: seq<Byte>, s2: Span, r2: seq<Byte>)
    ensures Encode(s1) + r1 == Encode(s2) + r2 ==> ViewOf(s1) == ViewOf(s2) && r1 == r2
    ensures ViewOf(s1) == ViewOf(s2) ==> Encode(s1) == Encode(s2)
  {
    if Encode(s1) + r1 == Encode(s2) + r2 {
      SpanRoundTrip(s1, r1);
      SpanRoundTrip(s2, r2);
    }
    if ViewOf(s1) == ViewOf(s2) {
      assert CommonFields(s1) == CommonFields(s2);
      assert DetailFields(s1) == DetailFields(s2);
    }
  }

  // ------------------------------------------------------------------ size

  function UIntSize(v: nat): nat {
    if v < 0x80 then 1 else if v < 0x100 then 2 else if v < 0x1_0000 then 3 else if v < U32 then 5 else 9
  }

  function StrSize(len: nat): nat {
    len + (if len < 32 then 1 else if len < 0x1_0000 then 3 else 5)
  }

  function DetailSize(s: Span): nat {
    if s.kind == HTTP_IN then 8 + StrSize(|s.requestUri|) + StrSize(|s.method_|)
    else if s.kind == HTTP_OUT then 11 + StrSize(|s.url|) + StrSize(|s.method_|) + UIntSize(s.statusCode)
    else if s.kind == DB then 8 + StrSize(|s.query|) + StrSize(|s.dbType|) + UIntSize(s.rowsAffected)
    else if s.kind == REDIS || s.kind == MEMCACHED then 6 + StrSize(|s.cacheCmd|) + StrSize(|s.cacheKey|)
    else if s.kind == FILE_IO || s.kind == SOCKET then 4 + StrSize(|s.url|)
    else if s.kind == FUNC then
      11 + StrSize(|s.funcClass|) + StrSize(|s.funcName|) + StrSize(|s.funcFile|) + UIntSize(s.funcLine)
    else 0
  }

  /** The exact encoded size of a span, in closed form. */
  function EncodedSize(s: Span): nat {
    37 + UIntSize(s.kind) + UIntSize(s.spanId) + UIntSize(s.parentId)
    + UIntSize(s.startNs) + UIntSize(s.durationNs) + DetailSize(s)
  }

  function FieldsSize(fs: seq<Field>): nat {
    if fs == [] then 0
    else StrSize(|fs[0].key|) + TokenSize(fs[0].val) + FieldsSize(fs[1..])
  }

  function TokenSize(t: Token): nat {
    match t
    case UInt(n) => UIntSize(n)
    case Str(s) => StrSize(|s|)
    case Bin(b) => |b| + (if |b| < 0x100 then 2 else 3)
    case MapHeader(c) => if c < 16 then 1 else 3
  }

  lemma {:induction false} EncFieldsSize(fs: seq<Field>)
    ensures |EncFields(fs)| == FieldsSize(fs)
  {
    if fs != [] {
      EncFieldsSize(fs[1..]);
      PairSize(fs[0]);
    }
  }

  lemma PairSize(f: Field)
    ensures |EncPair(f.key, f.val)| == StrSize(|f.key|) + TokenSize(f.val)
  {
  }

  lemma {:induction false} FieldsSizeAppend(a: seq<Field>, b: seq<Field>)
    ensures FieldsSize(a + b) == FieldsSize(a) + FieldsSize(b)
  {
    if a == [] {
      assert a + b == b;
    } else {
      assert (a + b)[1..] == a[1..] + b;
      FieldsSizeAppend(a[1..], b);
    }
  }

  lemma SizeOfFirst(fs: seq<Field>)
    requires fs != []
    ensures FieldsSize(fs) == StrSize(|fs[0].key|) + TokenSize(fs[0].val) + FieldsSize(fs[1..])
  {
  }

  lemma EncodedSizeExact(s: Span)
    ensures |Encode(s)| == EncodedSize(s)
  {
    EncFieldsSize(Fields(s));
    FieldsSizeAppend(CommonFields(s), DetailFields(s));
    CommonSize(s);
    DetailSizeExact(s);
  }

  lemma CommonSize(s: Span)
    ensures FieldsSize(CommonFields(s)) == 36 + UIntSize(s.kind) + UIntSize(s.spanId)
         + UIntSize(s.parentId) + UIntSize(s.startNs) + UIntSize(s.durationNs)
  {
    var fs := CommonFields(s);
    SizeOfFirst(fs);
    SizeOfFirst(fs[1..]);
    SizeOfFirst(fs[2..]);
    assert fs[1..][1..] == fs[2..];
    assert fs[2..][1..] == fs[3..];
    SizeOfFirst(fs[3..]);
    assert fs[3..][1..] == fs[4..];
    SizeOfFirst(fs[4..]);
    assert fs[4..][1..] == fs[5..];
    SizeOfFirst(fs[5..]);
    assert fs[5..][1..] == [];
  }

  lemma DetailSizeExact(s: Span)
    ensures FieldsSize(DetailFields(s)) == DetailSize(s)
  {
    var fs := DetailFields(s);
    if |fs| > 0 {
      SizeOfFirst(fs);
      if |fs| > 1 {
        SizeOfFirst(fs[1..]);
        assert fs[1..][1..] == fs[2..];
        if |fs| > 2 {
          SizeOfFirst(fs[2..]);
          assert fs[2..][1..] == fs[3..];
          if |fs| > 3 {
            SizeOfFirst(fs[3..]);
            assert fs[3..][1..] == [];
          }
        }
      }
    }
  }

  /** LUMBRE_MSGPACK_BUF_SIZE. */
  const BUF_SIZE: nat := 16384

  /** A database span with a `db_type` of at most 7 bytes fits the buffer whatever its other
      fields when its query has at most 16286 bytes; with one byte more, one does not. */
  lemma DbSpanFits(s: Span)
    requires s.kind == DB && |s.dbType| <= 7 && |s.query| <= 16286
    ensures |Encode(s)| <= BUF_SIZE
  {
    EncodedSizeExact(s);
  }

  lemma DbSpanBoundTight(query: Text, dbType: Text)
    requires |query| == 16287 && |dbType| == 7
    ensures exists s: Span ::
      s.kind == DB && s.query == query && s.dbType == dbType && |Encode(s)| > BUF_SIZE
  {
    var top: Word64 := U64 - 1;
    var s := BLANK.(kind := DB, spanId := top, parentId := top, startNs := top, durationNs := top,
                    query := query, dbType := dbType, rowsAffected := U32 - 1);
    EncodedSizeExact(s);
  }
}
