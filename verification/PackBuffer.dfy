/** The packer of lumbre_msgpack.c: every call appends to a caller-owned buffer or reports -1. */
module Packer {
  import opened Bits
  import opened Bytes
  import opened Msgpack

  /** What one call does to a buffer: from contents `b0` at position `p0` to `b1` at `p1`, for
      the encoding `e`. It returns 0 exactly when `e` fits; what was written is a prefix of `e`,
      all of it on success; nothing below `p0` or from `p1` on changes. */
  ghost predicate Emits(b0: seq<Byte>, p0: nat, b1: seq<Byte>, p1: nat, e: seq<Byte>, rc: int) {
    && |b0| == |b1| && p0 <= p1 <= |b1| && p1 - p0 <= |e|
    && (rc == 0 || rc == -1)
    && (rc == 0 <==> p0 + |e| <= |b0|)
    && (rc == 0 ==> p1 == p0 + |e|)
    && b1[..p1] == b0[..p0] + e[..p1 - p0]
    && b1[p1..] == b0[p1..]
  }

  /** A successful call followed by another behaves as one call for the joined encoding; when
      the second fails, also for any encoding that goes on after it. */
  lemma Chain(b0: seq<Byte>, p0: nat, b1: seq<Byte>, p1: nat, e1: seq<Byte>,
              b2: seq<Byte>, p2: nat, e2: seq<Byte>, rc: int, more: seq<Byte>)
    requires Emits(b0, p0, b1, p1, e1, 0) && Emits(b1, p1, b2, p2, e2, rc)
    ensures Emits(b0, p0, b2, p2, e1 + e2, rc)
    ensures rc != 0 ==> Emits(b0, p0, b2, p2, e1 + (e2 + more), rc)
  {
    var n := p2 - p1;
    assert b2[..p2] == b0[..p0] + (e1 + e2[..n]);
    assert (e1 + e2)[..p2 - p0] == e1 + e2[..n];
    assert b1[p2..] == b1[p1..][n..];
    assert b0[p2..] == b0[p1..][n..];
    assert (e1 + (e2 + more))[..p2 - p0] == e1 + e2[..n];
  }

  /** A failed call also fails for every longer encoding. */
  lemma Overflows(b0: seq<Byte>, p0: nat, b1: seq<Byte>, p1: nat, e: seq<Byte>, more: seq<Byte>)
    requires Emits(b0, p0, b1, p1, e, -1)
    ensures Emits(b0, p0, b1, p1, e + more, -1)
  {
    assert (e + more)[..p1 - p0] == e[..p1 - p0];
  }

  function Flatten(es: seq<seq<Byte>>): seq<Byte> {
    if es == [] then [] else Flatten(es[..|es| - 1]) + es[|es| - 1]
  }

  lemma {:induction false} FlattenAppend(a: seq<seq<Byte>>, b: seq<seq<Byte>>)
    ensures Flatten(a + b) == Flatten(a) + Flatten(b)
  {
    if b == [] {
      assert a + b == a;
    } else {
      assert (a + b)[..|a + b| - 1] == a + b[..|b| - 1];
      FlattenAppend(a, b[..|b| - 1]);
    }
  }

  lemma FlattenOne(e: seq<Byte>)
    ensures Flatten([e]) == e
  {
    var es := [e];
    assert es[..0] == [];
    assert Flatten(es) == Flatten(es[..0]) + e;
  }

  /** A sequence of packer calls: the buffer it started from and the encodings it emits. */
  datatype Job = Job(b0: seq<Byte>, p0: nat, es: seq<seq<Byte>>)

  /** The first `i` encodings of a job are in the buffer `b`, `p`. */
  ghost predicate Progress(j: Job, i: nat, b: seq<Byte>, p: nat) {
    i <= |j.es| && Emits(j.b0, j.p0, b, p, Flatten(j.es[..i]), 0)
  }

  /** The job ran out of space: what it left is a proper prefix of all its encodings. */
  ghost predicate Overflowed(j: Job, b: seq<Byte>, p: nat) {
    Emits(j.b0, j.p0, b, p, Flatten(j.es), -1)
  }

  lemma Started(j: Job)
    requires j.p0 <= |j.b0|
    ensures Progress(j, 0, j.b0, j.p0)
  {
    assert j.es[..0] == [];
  }

  lemma Advance(j: Job, i: nat, b1: seq<Byte>, p1: nat, b2: seq<Byte>, p2: nat, rc: int)
    requires i < |j.es| && Progress(j, i, b1, p1) && Emits(b1, p1, b2, p2, j.es[i], rc)
    ensures rc == 0 ==> Progress(j, i + 1, b2, p2)
    ensures rc != 0 ==> Overflowed(j, b2, p2)
  {
    var before, e, after := Flatten(j.es[..i]), j.es[i], Flatten(j.es[i + 1..]);
    Chain(j.b0, j.p0, b1, p1, before, b2, p2, e, rc, after);
    FlattenAround(j.es, i);
  }

  lemma FlattenAround(es: seq<seq<Byte>>, i: nat)
    requires i < |es|
    ensures Flatten(es[..i + 1]) == Flatten(es[..i]) + es[i]
    ensures Flatten(es) == Flatten(es[..i]) + (es[i] + Flatten(es[i + 1..]))
  {
    FlattenSnoc(es, i);
    CutAt(es, i + 1);
    FlattenAppend(es[..i + 1], es[i + 1..]);
    Joined(Flatten(es), Flatten(es[..i + 1]), Flatten(es[..i]), es[i], Flatten(es[i + 1..]));
  }

  lemma CutAt<T>(s: seq<T>, i: nat)
    requires i <= |s|
    ensures s == s[..i] + s[i..]
  {
  }

  lemma FlattenSnoc(es: seq<seq<Byte>>, i: nat)
    requires i < |es|
    ensures Flatten(es[..i + 1]) == Flatten(es[..i]) + es[i]
  {
    assert es[..i + 1][..i] == es[..i];
  }

  lemma Joined(whole: seq<Byte>, start: seq<Byte>, a: seq<Byte>, b: seq<Byte>, c: seq<Byte>)
    requires start == a + b && whole == start + c
    ensures whole == a + (b + c)
  {
  }

  function EncPair(key: seq<Byte>, t: Token): seq<Byte> {
    EncStr(key) + Pack(t)
  }

  /** The tag bits of a fixmap or fixstr and its count do not overlap. */
  lemma TagBits(n: nat)
    ensures n <= 15 ==> Or(0x80, n) == 0x80 + n
    ensures n < 32 ==> Or(0xa0, n) == 0xa0 + n
  {
    assert Pow2(4) == 16 && Pow2(5) == 32;
    assert Shl(8, 4) == 0x80 && Shl(5, 5) == 0xa0;
    if n <= 15 { OrLow(8, n, 4); }
    if n < 32 { OrLow(5, n, 5); }
  }

  /** The check of lumbre_msgpack_pack_str for a string of more than 65535 bytes, in the arithmetic of
      the C code: `5 + len` is a 32-bit sum. */
  predicate PassesCheck(pos: nat, len: nat, capacity: nat) {
    pos + (5 + len) % U32 <= capacity
  }

  /** It says whether the string fits, at every position of every buffer, exactly for lengths whose sum
      does not wrap. */
  lemma SpaceCheckExact(len: nat)
    requires len < U32
    ensures (forall pos: nat, capacity: nat :: PassesCheck(pos, len, capacity) <==> pos + 5 + len <= capacity)
       <==> 5 + len < U32
  {
    if 5 + len >= U32 {
      assert PassesCheck(0, len, 5 + len - U32);
    }
  }

  class PackBuffer {
    const buf: array<Byte>   // its length is the C field `capacity`
    var pos: nat

    ghost predicate Valid() reads this {
      pos <= buf.Length
    }

    ghost function Contents(): seq<Byte>
      requires Valid()
      reads this, buf
    {
      buf[..pos]
    }

    constructor (storage: array<Byte>)
      ensures Valid() && buf == storage && pos == 0
    {
      buf, pos := storage, 0;
    }

    method Reset()
      modifies this
      ensures Valid() && pos == 0
    {
      pos := 0;
    }

    // -------------------------------------------------------------- stores, space already checked

    method PutByte(b: Byte)
      requires pos + 1 <= buf.Length
      modifies this, buf
      ensures Valid() && Emits(old(buf[..]), old(pos), buf[..], pos, [b], 0)
    {
      buf[pos] := b;
      pos := pos + 1;
    }

    /** memcpy to the current position. */
    method PutBytes(s: seq<Byte>)
      requires pos + |s| <= buf.Length
      modifies this, buf
      ensures Valid() && Emits(old(buf[..]), old(pos), buf[..], pos, s, 0)
    {
      forall i | 0 <= i < |s| {
        buf[pos + i] := s[i];
      }
      pos := pos + |s|;
      assert buf[..pos] == old(buf[..pos]) + s;
      assert s[..|s|] == s;
    }

    /** lumbre_store16/32/64: byte-swap, then copy out of little-endian memory. */
    method PutBigEndian(val: nat, n: nat)
      requires pos + n <= buf.Length
      modifies this, buf
      ensures Valid() && Emits(old(buf[..]), old(pos), buf[..], pos, Be(val, n), 0)
    {
      var be := ByteSwap(val, n);
      SwapStoresBigEndian(val, n);
      PutBytes(Le(be, n));
    }

    /** A one-byte tag followed by an `n`-byte big-endian field. */
    method PutTagged(tag: Byte, val: nat, n: nat)
      requires pos + 1 + n <= buf.Length
      modifies this, buf
      ensures Valid() && Emits(old(buf[..]), old(pos), buf[..], pos, [tag] + Be(val, n), 0)
    {
      ghost var b0, p0 := buf[..], pos;
      PutByte(tag);
      ghost var b1, p1 := buf[..], pos;
      PutBigEndian(val, n);
      Chain(b0, p0, b1, p1, [tag], buf[..], pos, Be(val, n), 0, []);
    }

    // -------------------------------------------------------------- packers

    method PackMap(count: nat) returns (rc: int)
      requires Valid() && count < U32
      modifies this, buf
      ensures Valid() && Emits(old(buf[..]), old(pos), buf[..], pos, EncMapHeader(count), rc)
      ensures rc != 0 ==> pos == old(pos) && buf[..] == old(buf[..])
    {
      if count <= 15 {
        rc := PackFixMap(count);
      } else {
        rc := PackMap16(count);
      }
    }

    method PackFixMap(count: nat) returns (rc: int)
      requires Valid() && count <= 15
      modifies this, buf
      ensures Valid() && Emits(old(buf[..]), old(pos), buf[..], pos, [0x80 + count], rc)
      ensures rc != 0 ==> pos == old(pos) && buf[..] == old(buf[..])
    {
      if pos + 1 > buf.Length { return -1; }
      TagBits(count);
      PutByte(Or(0x80, count));
      rc := 0;
    }

    /** Only the low 16 bits of the count are stored. */
    method PackMap16(count: nat) returns (rc: int)
      requires Valid()
      modifies this, buf
      ensures Valid() && Emits(old(buf[..]), old(pos), buf[..], pos, [0xde] + Be(count, 2), rc)
      ensures rc != 0 ==> pos == old(pos) && buf[..] == old(buf[..])
    {
      if pos + 3 > buf.Length { return -1; }
      PutTagged(0xde, count, 2);
      rc := 0;
    }

    method PackUInt(val: nat) returns (rc: int)
      requires Valid() && val < U64
      modifies this, buf
      ensures Valid() && Emits(old(buf[..]), old(pos), buf[..], pos, EncUInt(val), rc)
      ensures rc != 0 ==> pos == old(pos) && buf[..] == old(buf[..])
    {
      if val < 128 {
        if pos + 1 > buf.Length { return -1; }
        PutByte(val);
      } else if val <= 0xFF {
        if pos + 2 > buf.Length { return -1; }
        Be1(val);
        PutTagged(0xcc, val, 1);
        assert [0xcc] + [val] == [0xcc, val];
      } else if val <= 0xFFFF {
        if pos + 3 > buf.Length { return -1; }
        PutTagged(0xcd, val, 2);
      } else if val <= 0xFFFF_FFFF {
        if pos + 5 > buf.Length { return -1; }
        PutTagged(0xce, val, 4);
      } else {
        if pos + 9 > buf.Length { return -1; }
        PutTagged(0xcf, val, 8);
      }
      rc := 0;
    }

    method PackStr(str: seq<Byte>) returns (rc: int)
      requires Valid() && 5 + |str| < U32
      modifies this, buf
      ensures Valid() && Emits(old(buf[..]), old(pos), buf[..], pos, EncStr(str), rc)
      ensures rc != 0 ==> pos == old(pos) && buf[..] == old(buf[..])
    {
      var len := |str|;
      ghost var b0, p0 := buf[..], pos;
      if len < 32 {
        if pos + (1 + len) > buf.Length { return -1; }
        TagBits(len);
        PutByte(Or(0xa0, len));
      } else if len <= 0xFFFF {
        if pos + (3 + len) > buf.Length { return -1; }
        PutTagged(0xda, len, 2);
      } else {
        if pos + (5 + len) > buf.Length { return -1; }
        PutTagged(0xdb, len, 4);
      }
      ghost var b1, p1 := buf[..], pos;
      if len > 0 {
        PutBytes(str);
      }
      Chain(b0, p0, b1, p1, StrHeader(len), buf[..], pos, str, 0, []);
      rc := 0;
    }

    method PackBin(data: seq<Byte>) returns (rc: int)
      requires Valid() && |data| < U32
      modifies this, buf
      ensures Valid()
      ensures |data| <= 0xFFFF ==> Emits(old(buf[..]), old(pos), buf[..], pos, EncBin(data), rc)
      ensures |data| > 0xFFFF ==> rc == -1
      ensures rc != 0 ==> pos == old(pos) && buf[..] == old(buf[..])
    {
      var len := |data|;
      ghost var b0, p0 := buf[..], pos;
      if len <= 0xFF {
        if pos + (2 + len) > buf.Length { return -1; }
        Be1(len);
        PutTagged(0xc4, len, 1);
        assert [0xc4] + [len] == [0xc4, len];
      } else if len <= 0xFFFF {
        if pos + (3 + len) > buf.Length { return -1; }
        PutTagged(0xc5, len, 2);
      } else {
        return -1;
      }
      ghost var b1, p1 := buf[..], pos;
      if len > 0 {
        PutBytes(data);
      }
      Chain(b0, p0, b1, p1, BinHeader(len), buf[..], pos, data, 0, []);
      rc := 0;
    }

    // -------------------------------------------------------------- key-value helpers

    method PackStrKv(key: seq<Byte>, val: seq<Byte>) returns (rc: int)
      requires Valid() && 5 + |key| < U32 && 5 + |val| < U32
      modifies this, buf
      ensures Valid() && Emits(old(buf[..]), old(pos), buf[..], pos, EncPair(key, Str(val)), rc)
    {
      rc := PackStr(key);
      ghost var b1, p1 := buf[..], pos;
      if rc != 0 {
        Overflows(old(buf[..]), old(pos), b1, p1, EncStr(key), EncStr(val));
        return rc;
      }
      rc := PackStr(val);
      Chain(old(buf[..]), old(pos), b1, p1, EncStr(key), buf[..], pos, EncStr(val), rc, []);
    }

    method PackUIntKv(key: seq<Byte>, val: nat) returns (rc: int)
      requires Valid() && 5 + |key| < U32 && val < U64
      modifies this, buf
      ensures Valid() && Emits(old(buf[..]), old(pos), buf[..], pos, EncPair(key, UInt(val)), rc)
    {
      rc := PackStr(key);
      ghost var b1, p1 := buf[..], pos;
      if rc != 0 {
        Overflows(old(buf[..]), old(pos), b1, p1, EncStr(key), EncUInt(val));
        return rc;
      }
      rc := PackUInt(val);
      Chain(old(buf[..]), old(pos), b1, p1, EncStr(key), buf[..], pos, EncUInt(val), rc, []);
    }

    method PackBinKv(key: seq<Byte>, data: seq<Byte>) returns (rc: int)
      requires Valid() && 5 + |key| < U32 && |data| < U32
      modifies this, buf
      ensures Valid()
      ensures |data| <= 0xFFFF ==> Emits(old(buf[..]), old(pos), buf[..], pos, EncPair(key, Bin(data)), rc)
      ensures |data| > 0xFFFF ==> rc == -1 && old(pos) <= pos && buf[..old(pos)] == old(buf[..pos])
    {
      rc := PackStr(key);
      ghost var b1, p1 := buf[..], pos;
      if rc != 0 {
        Overflows(old(buf[..]), old(pos), b1, p1, EncStr(key), EncBin(data));
        return rc;
      }
      rc := PackBin(data);
      if |data| <= 0xFFFF {
        Chain(old(buf[..]), old(pos), b1, p1, EncStr(key), buf[..], pos, EncBin(data), rc, []);
      } else {
        assert b1[..p1][..old(pos)] == old(buf[..pos]);
      }
    }
  }
}
