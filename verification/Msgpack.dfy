/**
 * The MessagePack subset written by lumbre_msgpack.c, a decoder for the format
 * families it uses, and the packer itself.
 */
module Msgpack {
  import opened Bits
  import opened Bytes

  datatype Token =
    | UInt(n: nat)
    | Str(s: seq<Byte>)
    | Bin(b: seq<Byte>)
    | MapHeader(count: nat)

  datatype Parsed<+T> = Fail | Ok(value: T, rest: seq<Byte>)

  // ------------------------------------------------------------------ encodings

  function EncUInt(v: nat): seq<Byte> {
    if v < 128 then [v]
    else if v <= 0xFF then [0xcc, v]
    else if v <= 0xFFFF then [0xcd] + Be(v, 2)
    else if v <= 0xFFFF_FFFF then [0xce] + Be(v, 4)
    else [0xcf] + Be(v, 8)
  }

  function StrHeader(len: nat): seq<Byte> {
    if len < 32 then [0xa0 + len]
    else if len <= 0xFFFF then [0xda] + Be(len, 2)
    else [0xdb] + Be(len, 4)
  }

  function EncStr(s: seq<Byte>): seq<Byte> {
    StrHeader(|s|) + s
  }

  function BinHeader(len: nat): seq<Byte> {
    if len <= 0xFF then [0xc4, len] else [0xc5] + Be(len, 2)
  }

  function EncBin(b: seq<Byte>): seq<Byte> {
    BinHeader(|b|) + b
  }

  function EncMapHeader(count: nat): seq<Byte> {
    if count <= 15 then [0x80 + count] else [0xde] + Be(count, 2)
  }

  function Pack(t: Token): seq<Byte> {
    match t
    case UInt(n) => EncUInt(n)
    case Str(s) => EncStr(s)
    case Bin(b) => EncBin(b)
    case MapHeader(c) => EncMapHeader(c)
  }

  /** The values a packer call can represent: 64-bit integers, string lengths for which
      `5 + len` does not wrap 32 bits, binaries of the supported lengths, 16-bit map counts. */
  predicate Packable(t: Token) {
    match t
    case UInt(n) => n < U64
    case Str(s) => 5 + |s| < U32
    case Bin(b) => |b| <= 0xFFFF
    case MapHeader(c) => c <= 0xFFFF
  }

  function PackAll(ts: seq<Token>): seq<Byte> {
    if ts == [] then [] else Pack(ts[0]) + PackAll(ts[1..])
  }

  // ------------------------------------------------------------------ decoder

  function ReadUInt(b: seq<Byte>, width: nat): Parsed<nat> {
    if width <= |b| then Ok(FromBe(b[..width]), b[width..]) else Fail
  }

  function ReadChunk(b: seq<Byte>, n: nat): Parsed<seq<Byte>> {
    if n <= |b| then Ok(b[..n], b[n..]) else Fail
  }

  /** A length field of `width` bytes, then that many bytes. */
  function ReadSized(b: seq<Byte>, width: nat): Parsed<seq<Byte>> {
    match ReadUInt(b, width)
    case Fail => Fail
    case Ok(n, rest) => ReadChunk(rest, n)
  }

  function AsUInt(p: Parsed<nat>): Parsed<Token> {
    match p case Fail => Fail case Ok(v, rest) => Ok(UInt(v), rest)
  }

  function AsMap(p: Parsed<nat>): Parsed<Token> {
    match p case Fail => Fail case Ok(v, rest) => Ok(MapHeader(v), rest)
  }

  function AsStr(p: Parsed<seq<Byte>>): Parsed<Token> {
    match p case Fail => Fail case Ok(v, rest) => Ok(Str(v), rest)
  }

  function AsBin(p: Parsed<seq<Byte>>): Parsed<Token> {
    match p case Fail => Fail case Ok(v, rest) => Ok(Bin(v), rest)
  }

  /** The first token of `b`, by the first-byte table of the MessagePack specification
      restricted to the unsigned integer, string, binary and map families. */
  function NextToken(b: seq<Byte>): (r: Parsed<Token>)
    ensures r.Ok? ==> |r.rest| < |b|
  {
    if b == [] then Fail
    else
      var h, t := b[0], b[1..];
      if h < 0x80 then Ok(UInt(h), t)
      else if h < 0x90 then Ok(MapHeader(h - 0x80), t)
      else if 0xa0 <= h < 0xc0 then AsStr(ReadChunk(t, h - 0xa0))
      else if h == 0xc4 then AsBin(ReadSized(t, 1))
      else if h == 0xc5 then AsBin(ReadSized(t, 2))
      else if h == 0xc6 then AsBin(ReadSized(t, 4))
      else if h == 0xcc then AsUInt(ReadUInt(t, 1))
      else if h == 0xcd then AsUInt(ReadUInt(t, 2))
      else if h == 0xce then AsUInt(ReadUInt(t, 4))
      else if h == 0xcf then AsUInt(ReadUInt(t, 8))
      else if h == 0xd9 then AsStr(ReadSized(t, 1))
      else if h == 0xda then AsStr(ReadSized(t, 2))
      else if h == 0xdb then AsStr(ReadSized(t, 4))
      else if h == 0xde then AsMap(ReadUInt(t, 2))
      else if h == 0xdf then AsMap(ReadUInt(t, 4))
      else Fail
  }

  function NextTokens(n: nat, b: seq<Byte>): Parsed<seq<Token>> {
    if n == 0 then Ok([], b)
    else match NextToken(b)
      case Fail => Fail
      case Ok(t, rest) =>
        match NextTokens(n - 1, rest)
        case Fail => Fail
        case Ok(ts, rest') => Ok([t] + ts, rest')
  }

  /** Whole values: a map header owns the pairs that follow it. */
  datatype Value = Leaf(token: Token) | Map(pairs: seq<(Value, Value)>)

  function Decode(b: seq<Byte>): (r: Parsed<Value>)
    ensures r.Ok? ==> |r.rest| < |b|
    decreases |b|, 0, 0
  {
    match NextToken(b)
    case Fail => Fail
    case Ok(MapHeader(n), rest) =>
      (match DecodePairs(n, rest)
       case Fail => Fail
       case Ok(ps, rest') => Ok(Map(ps), rest'))
    case Ok(t, rest) => Ok(Leaf(t), rest)
  }

  function DecodePairs(n: nat, b: seq<Byte>): (r: Parsed<seq<(Value, Value)>>)
    ensures r.Ok? ==> |r.value| == n && |r.rest| <= |b|
    decreases |b|, 1, n
  {
    if n == 0 then Ok([], b)
    else match Decode(b)
      case Fail => Fail
      case Ok(k, rest) =>
        match Decode(rest)
        case Fail => Fail
        case Ok(v, rest') =>
          match DecodePairs(n - 1, rest')
          case Fail => Fail
          case Ok(ps, rest'') => Ok([(k, v)] + ps, rest'')
  }

  // ------------------------------------------------------------------ round trips

  lemma ReadUIntOfBe(v: nat, width: nat, rest: seq<Byte>)
    requires v < Range(width)
    ensures ReadUInt(Be(v, width) + rest, width) == Ok(v, rest)
  {
    BeRoundTrip(v, width);
    var b := Be(v, width) + rest;
    assert b[..width] == Be(v, width) && b[width..] == rest;
  }

  lemma ReadSizedOfBe(s: seq<Byte>, width: nat, rest: seq<Byte>)
    requires |s| < Range(width)
    ensures ReadSized(Be(|s|, width) + s + rest, width) == Ok(s, rest)
  {
    ReadUIntOfBe(|s|, width, s + rest);
    assert Be(|s|, width) + s + rest == Be(|s|, width) + (s + rest);
    assert (s + rest)[..|s|] == s && (s + rest)[|s|..] == rest;
  }

  lemma TailOf(h: Byte, t: seq<Byte>, rest: seq<Byte>)
    ensures (([h] + t) + rest)[0] == h && (([h] + t) + rest)[1..] == t + rest
  {
  }

  lemma Be1(v: nat)
    requires v < 256
    ensures Be(v, 1) == [v]
  {
    assert Be(v / 256, 0) == [];
  }

  lemma UIntRoundTrip(v: nat, rest: seq<Byte>)
    requires v < U64
    ensures NextToken(EncUInt(v) + rest) == Ok(UInt(v), rest)
  {
    Ranges();
    if v < 128 {
      TailOf(v, [], rest);
      assert [] + rest == rest;
    } else if v <= 0xFF {
      Be1(v);
      TailOf(0xcc, Be(v, 1), rest);
      assert [0xcc] + Be(v, 1) == [0xcc, v];
      ReadUIntOfBe(v, 1, rest);
    } else {
      var (h: Byte, w: nat) := if v <= 0xFFFF then (0xcd, 2) else if v <= 0xFFFF_FFFF then (0xce, 4) else (0xcf, 8);
      TailOf(h, Be(v, w), rest);
      ReadUIntOfBe(v, w, rest);
    }
  }

  lemma StrRoundTrip(s: seq<Byte>, rest: seq<Byte>)
    requires |s| < U32
    ensures NextToken(EncStr(s) + rest) == Ok(Str(s), rest)
  {
    Ranges();
    if |s| < 32 {
      TailOf(0xa0 + |s|, s, rest);
      assert (s + rest)[..|s|] == s && (s + rest)[|s|..] == rest;
    } else {
      var (h: Byte, w: nat) := if |s| <= 0xFFFF then (0xda, 2) else (0xdb, 4);
      TailOf(h, Be(|s|, w) + s, rest);
      assert EncStr(s) == [h] + (Be(|s|, w) + s);
      ReadSizedOfBe(s, w, rest);
    }
  }

  lemma BinRoundTrip(b: seq<Byte>, rest: seq<Byte>)
    requires |b| <= 0xFFFF
    ensures NextToken(EncBin(b) + rest) == Ok(Bin(b), rest)
  {
    Ranges();
    var (h: Byte, w: nat) := if |b| <= 0xFF then (0xc4, 1) else (0xc5, 2);
    if |b| <= 0xFF {
      Be1(|b|);
    }
    TailOf(h, Be(|b|, w) + b, rest);
    assert EncBin(b) == [h] + (Be(|b|, w) + b);
    ReadSizedOfBe(b, w, rest);
  }

  /** A map header decodes to its count exactly when the count fits 16 bits: the packer
      truncates larger counts. */
  lemma MapHeaderRoundTrip(count: nat, rest: seq<Byte>)
    ensures NextToken(EncMapHeader(count) + rest) == Ok(MapHeader(count), rest) <==> count <= 0xFFFF
  {
    Ranges();
    if count <= 15 {
      TailOf(0x80 + count, [], rest);
      assert [] + rest == rest;
    } else {
      TailOf(0xde, Be(count, 2), rest);
      var b := Be(count, 2) + rest;
      assert b[..2] == Be(count, 2);
      if count <= 0xFFFF {
        ReadUIntOfBe(count, 2, rest);
      }
    }
  }

  lemma TokenRoundTrip(t: Token, rest: seq<Byte>)
    requires Packable(t)
    ensures NextToken(Pack(t) + rest) == Ok(t, rest)
  {
    match t
    case UInt(n) => UIntRoundTrip(n, rest);
    case Str(s) => StrRoundTrip(s, rest);
    case Bin(b) => BinRoundTrip(b, rest);
    case MapHeader(c) => MapHeaderRoundTrip(c, rest);
  }

  /** The digits of `v` to base 256, most significant first. */
  ghost predicate Digits(d: seq<Byte>, v: nat) {
    forall i :: 0 <= i < |d| ==> d[i] == v / Range(|d| - 1 - i) % 256
  }

  /** The first byte, the width and order of the number after it, and the payload behind that, as the
      formats "positive fixint", "uint 8" to "uint 64", "fixstr", "str 16", "str 32", "bin 8", "bin 16",
      "fixmap" and "map 16" of the MessagePack specification have them. */
  ghost predicate InFormat(b: seq<Byte>, first: Byte, v: nat, width: nat, payload: seq<Byte>) {
    && |b| == 1 + width + |payload|
    && b[0] == first && Digits(b[1..1 + width], v) && b[1 + width..] == payload
  }

  lemma Formatted(first: Byte, v: nat, width: nat, payload: seq<Byte>)
    ensures InFormat([first] + Be(v, width) + payload, first, v, width, payload)
  {
    var b := [first] + Be(v, width) + payload;
    assert b[1..1 + width] == Be(v, width);
    forall i | 0 <= i < width ensures Be(v, width)[i] == v / Range(width - 1 - i) % 256 {
      BeDigit(v, width, i);
    }
  }

  /** A number alone. */
  lemma FormattedNumber(first: Byte, v: nat, width: nat)
    ensures InFormat([first] + Be(v, width), first, v, width, [])
  {
    Formatted(first, v, width, []);
    assert [first] + Be(v, width) + [] == [first] + Be(v, width);
  }

  lemma NumberFormat(n: nat)
    requires n < U64
    ensures var b := Pack(UInt(n));
      if n <= 0x7f then InFormat(b, n, n, 0, [])
      else if n <= 0xff then InFormat(b, 0xcc, n, 1, [])
      else if n <= 0xffff then InFormat(b, 0xcd, n, 2, [])
      else if n <= 0xffff_ffff then InFormat(b, 0xce, n, 4, [])
      else InFormat(b, 0xcf, n, 8, [])
  {
    if n <= 0xff {
      Be1(n);
      FormattedNumber(0xcc, n, 1);
    } else {
      FormattedNumber(if n <= 0xffff then 0xcd else if n <= 0xffff_ffff then 0xce else 0xcf, n,
                      if n <= 0xffff then 2 else if n <= 0xffff_ffff then 4 else 8);
    }
  }

  lemma StringFormat(s: seq<Byte>)
    requires |s| < U32
    ensures var b := Pack(Str(s));
      if |s| <= 31 then InFormat(b, 0xa0 + |s|, |s|, 0, s)
      else if |s| <= 0xffff then InFormat(b, 0xda, |s|, 2, s)
      else InFormat(b, 0xdb, |s|, 4, s)
  {
    Formatted(if |s| <= 31 then 0xa0 + |s| else 0, |s|, 0, s);
    Formatted(0xda, |s|, 2, s);
    Formatted(0xdb, |s|, 4, s);
  }

  lemma BinaryFormat(d: seq<Byte>)
    requires |d| <= 0xffff
    ensures var b := Pack(Bin(d));
      if |d| <= 0xff then InFormat(b, 0xc4, |d|, 1, d) else InFormat(b, 0xc5, |d|, 2, d)
  {
    Be1(if |d| <= 0xff then |d| else 0);
    Formatted(0xc4, |d|, 1, d);
    Formatted(0xc5, |d|, 2, d);
  }

  lemma MapFormat(count: nat)
    requires count <= 0xffff
    ensures var b := Pack(MapHeader(count));
      if count <= 15 then InFormat(b, 0x80 + count, count, 0, []) else InFormat(b, 0xde, count, 2, [])
  {
    Formatted(0xde, count, 2, []);
  }

  /** Any sequence of packed tokens reads back as itself, leaving any suffix over. */
  lemma {:induction false} StreamRoundTrip(ts: seq<Token>, rest: seq<Byte>)
    requires forall t :: t in ts ==> Packable(t)
    ensures NextTokens(|ts|, PackAll(ts) + rest) == Ok(ts, rest)
  {
    if ts == [] {
      assert [] + rest == rest;
    } else {
      var us := ts[1..];
      StreamRoundTrip(us, rest);
      StreamStep(ts[0], us, PackAll(us) + rest, rest);
      PackAllCons(ts, rest);
    }
  }

  lemma PackAllCons(ts: seq<Token>, rest: seq<Byte>)
    requires ts != []
    ensures ts == [ts[0]] + ts[1..]
    ensures PackAll(ts) + rest == Pack(ts[0]) + (PackAll(ts[1..]) + rest)
  {
    var p := Pack(ts[0]);
    assert PackAll(ts) == p + PackAll(ts[1..]);
    assert p + PackAll(ts[1..]) + rest == p + (PackAll(ts[1..]) + rest);
  }

  lemma StreamStep(t: Token, ts: seq<Token>, tail: seq<Byte>, rest: seq<Byte>)
    requires Packable(t) && NextTokens(|ts|, tail) == Ok(ts, rest)
    ensures NextTokens(|ts| + 1, Pack(t) + tail) == Ok([t] + ts, rest)
  {
    assert NextToken(Pack(t) + tail) == Ok(t, tail) by {
      TokenRoundTrip(t, tail);
    }
  }

  /** The packer's encoding of a token is the shortest the format has, with one exception:
      strings of 32 to 255 bytes, for which it does not use the one-byte length form. */
  lemma ShortestForm(t: Token)
    requires Packable(t)
    ensures (forall b: seq<Byte> :: NextToken(b) == Ok(t, []) ==> |Pack(t)| <= |b|)
       <==> !(t.Str? && 32 <= |t.s| <= 255)
  {
    Ranges();
    if t.Str? && 32 <= |t.s| <= 255 {
      var b := [0xd9] + (Be(|t.s|, 1) + t.s);
      TailOf(0xd9, Be(|t.s|, 1) + t.s, []);
      ReadSizedOfBe(t.s, 1, []);
      assert b + [] == b;
      assert NextToken(b) == Ok(t, []) && |Pack(t)| > |b|;
    } else {
      forall b: seq<Byte> | NextToken(b) == Ok(t, []) ensures |Pack(t)| <= |b| {
        NoShorter(t, b);
      }
    }
  }

  lemma NoShorter(t: Token, b: seq<Byte>)
    requires Packable(t) && NextToken(b) == Ok(t, [])
    requires !(t.Str? && 32 <= |t.s| <= 255)
    ensures |Pack(t)| <= |b|
  {
    Ranges();
  }
}
