/** The I/O function table of lumbre_whitelist.c: open addressing with linear probing over 64 slots,
    against a plain list searched by canonical key. */
module Whitelist {
  import opened Bits
  import opened Bytes

  // ------------------------------------------------------------------ canonical keys

  type Name = seq<Byte>

  /** LUMBRE_WL_KEY_BUF_SIZE. */
  const KEY_BUF_SIZE: nat := 128

  const COLON: Byte := 0x3a

  /** ASCII upper-case letters to lower case. */
  function Lower(c: Byte): Byte {
    if 0x41 <= c <= 0x5a then c + 0x20 else c
  }

  /** For an upper-case letter, `c | 0x20` is its lower-case letter. */
  lemma LowerIsOr(c: Byte)
    requires 0x41 <= c <= 0x5a
    ensures Or(c, 0x20) == Lower(c)
  {
    assert Pow2(5) == 32;
    assert Shl(2, 5) == 64 && Shl(1, 5) == 32 && Shl(3, 5) == 96;
    assert Or(2, 1) == 3;
    OrHigh(2, 1, c - 64, 5);
  }

  method LowerByte(c: Byte) returns (l: Byte)
    ensures l == Lower(c)
  {
    if 0x41 <= c <= 0x5a {
      LowerIsOr(c);
      l := Or(c, 0x20);
    } else {
      l := c;
    }
  }

  function LowerAll(s: Name): Name {
    seq(|s|, i requires 0 <= i < |s| => Lower(s[i]))
  }

  /** The canonical key "class::func" or "func"; empty when it would overflow the key buffer. An empty
      class name stands for the C null pointer or zero length. */
  function CanonicalKey(cls: Name, func: Name): (k: Name)
    ensures |k| < KEY_BUF_SIZE
  {
    if |cls| > 0 then
      if |cls| + 2 + |func| >= KEY_BUF_SIZE then [] else LowerAll(cls) + [COLON, COLON] + LowerAll(func)
    else if |func| >= KEY_BUF_SIZE then []
    else LowerAll(func)
  }

  /** Copy a name in lower case to position `pos` of a buffer. */
  method CopyLower(buf: array<Byte>, pos: nat, name: Name)
    requires pos + |name| <= buf.Length
    modifies buf
    ensures buf[..pos + |name|] == old(buf[..pos]) + LowerAll(name)
  {
    for i := 0 to |name|
      invariant buf[..pos + i] == old(buf[..pos]) + LowerAll(name)[..i]
    {
      var l := LowerByte(name[i]);
      buf[pos + i] := l;
    }
    assert LowerAll(name)[..|name|] == LowerAll(name);
  }

  /** lumbre_wl_build_key: the key goes into a caller's buffer, its length is returned. */
  method BuildKey(buf: array<Byte>, cls: Name, func: Name) returns (len: nat)
    requires buf.Length == KEY_BUF_SIZE
    modifies buf
    ensures len == |CanonicalKey(cls, func)| && buf[..len] == CanonicalKey(cls, func)
  {
    var pos := 0;
    if |cls| > 0 {
      if |cls| + 2 + |func| >= KEY_BUF_SIZE {
        return 0;
      }
      CopyLower(buf, 0, cls);
      buf[|cls|] := COLON;
      buf[|cls| + 1] := COLON;
      pos := |cls| + 2;
      assert buf[..pos] == LowerAll(cls) + [COLON, COLON];
    } else if |func| >= KEY_BUF_SIZE {
      return 0;
    }
    CopyLower(buf, pos, func);
    len := pos + |func|;
  }

  /** The same byte, or the same ASCII letter in the other case. */
  predicate CaseVariant(x: Byte, y: Byte) {
    || x == y
    || ('A' as int <= x <= 'Z' as int && y - x == 'a' as int - 'A' as int)
    || ('A' as int <= y <= 'Z' as int && x - y == 'a' as int - 'A' as int)
  }

  predicate SameButForCase(a: Name, b: Name) {
    |a| == |b| && forall i :: 0 <= i < |a| ==> CaseVariant(a[i], b[i])
  }

  lemma LoweredAlike(a: Name, b: Name)
    ensures LowerAll(a) == LowerAll(b) <==> SameButForCase(a, b)
  {
    if LowerAll(a) == LowerAll(b) {
      forall i | 0 <= i < |a| ensures CaseVariant(a[i], b[i]) {
        assert LowerAll(a)[i] == LowerAll(b)[i];
      }
    }
  }

  /** Names that differ only in the case of ASCII letters have the same canonical key. */
  lemma KeysIgnoreCase(cls: Name, func: Name, cls': Name, func': Name)
    requires SameButForCase(cls, cls') && SameButForCase(func, func')
    ensures CanonicalKey(cls, func) == CanonicalKey(cls', func')
  {
    LoweredAlike(cls, cls');
    LoweredAlike(func, func');
  }

  predicate NoColon(a: Name) {
    forall i :: 0 <= i < |a| ==> a[i] != ':' as int
  }

  /** A method of a class without a colon in its name, or a function without one. */
  predicate Unambiguous(cls: Name, func: Name) {
    NoColon(cls) && (cls == [] ==> NoColon(func))
  }

  /** The key of a method is its class and its function in lower case around two colons, that of a plain
      function the function in lower case; there is none exactly if it would be empty or longer than 127
      bytes. */
  lemma KeyIs(cls: Name, func: Name)
    ensures var len := |func| + if cls == [] then 0 else |cls| + 2;
      var k := CanonicalKey(cls, func);
      if len > 127 then k == []
      else
        && |k| == len && SameButForCase(k[len - |func|..], func)
        && (cls != [] ==> SameButForCase(k[..|cls|], cls) && k[|cls|] == k[|cls| + 1] == ':' as int)
        && forall i :: 0 <= i < |k| ==> !('A' as int <= k[i] <= 'Z' as int)
  {
    var k := CanonicalKey(cls, func);
    if k != [] && cls != [] {
      assert k[..|cls|] == LowerAll(cls) && k[|cls| + 2..] == LowerAll(func);
    }
  }

  /** Two plain functions, or any two with unambiguous names, have the same key only if their names differ
      in nothing but case. */
  lemma KeysSeparate(cls: Name, func: Name, cls': Name, func': Name)
    requires cls == cls' == [] || (Unambiguous(cls, func) && Unambiguous(cls', func'))
    requires CanonicalKey(cls, func) == CanonicalKey(cls', func') != []
    ensures SameButForCase(cls, cls') && SameButForCase(func, func')
  {
    if cls != [] || cls' != [] {
      SameClassLength(cls, func, cls', func');
    }
    SplitKey(cls, func, cls', func');
    LoweredAlike(cls, cls');
    LoweredAlike(func, func');
  }

  lemma SameClassLength(cls: Name, func: Name, cls': Name, func': Name)
    requires Unambiguous(cls, func) && Unambiguous(cls', func')
    requires CanonicalKey(cls, func) == CanonicalKey(cls', func') != []
    ensures |cls| == |cls'|
  {
    FirstColon(cls, func);
    FirstColon(cls', func');
  }

  /** With colons they can collide: a plain function that is called like a method's key has that key. */
  lemma KeyOfKey(cls: Name, func: Name)
    ensures CanonicalKey([], CanonicalKey(cls, func)) == CanonicalKey(cls, func)
  {
  }

  /** The first colon of a key, if it has one, is behind the class. */
  lemma FirstColon(cls: Name, func: Name)
    requires Unambiguous(cls, func) && CanonicalKey(cls, func) != []
    ensures var k := CanonicalKey(cls, func);
      if cls == [] then NoColon(k)
      else |k| == |cls| + 2 + |func| && k[|cls|] == ':' as int && NoColon(k[..|cls|])
  {
  }

  lemma SplitKey(cls: Name, func: Name, cls': Name, func': Name)
    requires |cls| == |cls'| && CanonicalKey(cls, func) == CanonicalKey(cls', func') != []
    ensures LowerAll(cls) == LowerAll(cls') && LowerAll(func) == LowerAll(func')
  {
    if cls != [] {
      var k := CanonicalKey(cls, func);
      assert k[..|cls|] == LowerAll(cls) && k[|cls| + 2..] == LowerAll(func);
      assert k[..|cls|] == LowerAll(cls') && k[|cls| + 2..] == LowerAll(func');
    }
  }

  /** A name is these characters. */
  predicate Spells(k: Name, s: string) {
    |k| == |s| && forall i :: 0 <= i < |k| ==> k[i] == s[i] as int
  }

  // ------------------------------------------------------------------ hashing

  /** FNV-1a over a prefix of the data. */
  function Fnv1a(data: seq<Byte>): (h: nat)
    ensures h < U32
  {
    if data == [] then 0x811c_9dc5
    else (Xor(Fnv1a(data[..|data| - 1]), data[|data| - 1]) * 0x0100_0193) % U32
  }

  /** lumbre_fnv1a. */
  method ComputeFnv1a(data: seq<Byte>) returns (hash: nat)
    ensures hash == Fnv1a(data)
  {
    hash := 0x811c_9dc5;
    for i := 0 to |data|
      invariant hash == Fnv1a(data[..i])
    {
      assert data[..i + 1][..i] == data[..i];
      hash := Xor(hash, data[i]);
      hash := (hash * 0x0100_0193) % U32;
    }
    assert data[..|data|] == data;
  }

  /** FNV-1a by its definition, from offset basis and prime: over any bytes, the exclusive or of each with
      the hash so far, bit by bit, times the prime, in 32-bit words. */
  lemma Fnv1aIs(data: seq<Byte>, b: Byte)
    ensures Fnv1a([]) == 2166136261
    ensures exists x: nat ::
      && Fnv1a(data + [b]) == x * 16777619 % 4294967296
      && forall i: nat :: Bit(x, i) <==> Bit(Fnv1a(data), i) != Bit(b, i)
  {
    assert (data + [b])[..|data|] == data;
    var x := Xor(Fnv1a(data), b);
    forall i: nat ensures Bit(x, i) <==> Bit(Fnv1a(data), i) != Bit(b, i) {
      XorBit(Fnv1a(data), b, i);
    }
    assert Fnv1a(data + [b]) == x * 16777619 % 4294967296;
  }

  // ------------------------------------------------------------------ the specification

  /** One entry of a whitelist, as written in its source table. */
  datatype Source = Source(cls: Name, func: Name, kind: Byte)

  function KeyOf(s: Source): Name {
    CanonicalKey(s.cls, s.func)
  }

  datatype Found = NotFound | Match(source: Source)

  /** A lookup in the list: its first entry with the canonical key. */
  function FirstMatch(list: seq<Source>, key: Name): Found {
    if list == [] || key == [] then NotFound
    else
      var before, s := FirstMatch(list[..|list| - 1], key), list[|list| - 1];
      if before == NotFound && KeyOf(s) == key then Match(s) else before
  }

  lemma {:induction false} FirstMatchIs(list: seq<Source>, key: Name, j: nat)
    requires key != [] && j < |list| && KeyOf(list[j]) == key
    requires forall i :: 0 <= i < j ==> KeyOf(list[i]) != key
    ensures FirstMatch(list, key) == Match(list[j])
  {
    var init := list[..|list| - 1];
    if j < |init| {
      FirstMatchIs(init, key, j);
    } else {
      FirstMatchNone(init, key);
    }
  }

  lemma {:induction false} FirstMatchNone(list: seq<Source>, key: Name)
    requires forall s :: s in list ==> KeyOf(s) != key
    ensures FirstMatch(list, key) == NotFound
  {
    if list != [] {
      FirstMatchNone(list[..|list| - 1], key);
    }
  }

  /** The entries that get into the table: those with a key. */
  function Loaded(list: seq<Source>): seq<Source> {
    if list == [] then []
    else
      var before, s := Loaded(list[..|list| - 1]), list[|list| - 1];
      if KeyOf(s) == [] then before else before + [s]
  }

  lemma {:induction false} LoadedMatch(list: seq<Source>, key: Name)
    ensures FirstMatch(Loaded(list), key) == FirstMatch(list, key)
  {
    if list != [] && key != [] {
      var init, s := list[..|list| - 1], list[|list| - 1];
      LoadedMatch(init, key);
      if KeyOf(s) != [] {
        assert Loaded(list)[..|Loaded(list)| - 1] == Loaded(init);
      }
    }
  }

  // ------------------------------------------------------------------ the table

  const SLOTS: nat := 64

  datatype Entry = Vacant | Occupied(source: Source, hash: nat)

  /** The slot `d` probes after the home slot of a hash. */
  function Probe(hash: nat, d: nat): (slot: nat)
    ensures slot < SLOTS
  {
    (hash + d) % SLOTS
  }

  /** LUMBRE_WHITELIST_MASK. */
  lemma Mask63(x: nat)
    ensures And(x, 63) == x % SLOTS
  {
    assert Pow2(6) == 64;
    AndMask(x, 6);
  }

  lemma NextProbe(hash: nat, d: nat)
    ensures (Probe(hash, d) + 1) % SLOTS == Probe(hash, d + 1)
  {
  }

  lemma ProbesDiffer(hash: nat, d: nat, e: nat)
    requires d < SLOTS && e < SLOTS && Probe(hash, d) == Probe(hash, e)
    ensures d == e
  {
  }

  /** A source placed `d` probes from its home slot. */
  datatype Placed = Placed(source: Source, d: nat)

  function SlotOf(p: Placed, hash: Name -> nat): nat {
    Probe(hash(KeyOf(p.source)), p.d)
  }

  /** The placed source is in its slot, and every slot on the way there is occupied. */
  ghost predicate InPlace(table: seq<Entry>, p: Placed, hash: Name -> nat)
    requires |table| == SLOTS
  {
    var h := hash(KeyOf(p.source));
    && KeyOf(p.source) != [] && p.d < SLOTS
    && table[Probe(h, p.d)] == Occupied(p.source, h)
    && forall d :: 0 <= d < p.d ==> table[Probe(h, d)].Occupied?
  }

  /** The table holds exactly the sources `ps`, in this order of insertion. */
  ghost predicate Holds(table: seq<Entry>, ps: seq<Placed>, hash: Name -> nat) {
    && |table| == SLOTS
    && (forall p :: p in ps ==> InPlace(table, p, hash))
    && (forall k :: 0 <= k < SLOTS && table[k].Occupied? ==> exists p :: p in ps && SlotOf(p, hash) == k)
    && (forall i, j :: 0 <= i < j < |ps| && KeyOf(ps[i].source) == KeyOf(ps[j].source) ==> ps[i].d < ps[j].d)
  }

  function Sources(ps: seq<Placed>): (ss: seq<Source>)
    ensures |ss| == |ps|
    ensures forall i :: 0 <= i < |ps| ==> ss[i] == ps[i].source
  {
    seq(|ps|, i requires 0 <= i < |ps| => ps[i].source)
  }

  // ------------------------------------------------------------------ insertion

  /** Filling the first vacant slot of a probe path keeps the table's invariant. */
  lemma InsertHolds(table: seq<Entry>, ps: seq<Placed>, hash: Name -> nat, s: Source, d: nat)
    requires Holds(table, ps, hash) && KeyOf(s) != [] && d < SLOTS
    requires table[Probe(hash(KeyOf(s)), d)] == Vacant
    requires forall e :: 0 <= e < d ==> table[Probe(hash(KeyOf(s)), e)].Occupied?
    ensures var slot := Probe(hash(KeyOf(s)), d);
      Holds(table[slot := Occupied(s, hash(KeyOf(s)))], ps + [Placed(s, d)], hash)
  {
    var h := hash(KeyOf(s));
    var slot, new_ := Probe(h, d), Placed(s, d);
    var table', ps' := table[slot := Occupied(s, h)], ps + [new_];
    forall p | p in ps' ensures InPlace(table', p, hash) {
      if p != new_ {
        assert InPlace(table, p, hash);
      } else {
        forall e | 0 <= e < d ensures table'[Probe(h, e)].Occupied? { }
      }
    }
    forall k | 0 <= k < SLOTS && table'[k].Occupied? ensures exists p :: p in ps' && SlotOf(p, hash) == k {
      if k == slot {
        assert new_ in ps' && SlotOf(new_, hash) == k;
      } else {
        var p :| p in ps && SlotOf(p, hash) == k;
        assert p in ps';
      }
    }
    forall i, j | 0 <= i < j < |ps'| && KeyOf(ps'[i].source) == KeyOf(ps'[j].source)
      ensures ps'[i].d < ps'[j].d
    {
      if j == |ps| {
        assert ps'[i] == ps[i] && InPlace(table, ps[i], hash);
      } else {
        assert ps'[i] == ps[i] && ps'[j] == ps[j];
      }
    }
  }

  /** The slots of the first sources. */
  ghost function SlotSet(ps: seq<Placed>, hash: Name -> nat): (slots: set<nat>)
    ensures |slots| <= |ps|
    ensures forall p :: p in ps ==> SlotOf(p, hash) in slots
  {
    if ps == [] then {}
    else SlotSet(ps[..|ps| - 1], hash) + {SlotOf(ps[|ps| - 1], hash)}
  }

  function Below(n: nat): (s: set<nat>)
    ensures |s| == n
    ensures forall k: nat :: k in s <==> k < n
  {
    if n == 0 then {} else Below(n - 1) + {n - 1}
  }

  lemma SubsetCard(a: set<nat>, b: set<nat>)
    requires a <= b
    ensures |a| <= |b|
  {
    assert b == a + (b - a);
  }

  /** A table of fewer than 64 entries has a vacant slot on every probe path. */
  lemma VacancyAhead(table: seq<Entry>, ps: seq<Placed>, hash: Name -> nat, h: nat) returns (d: nat)
    requires Holds(table, ps, hash) && |ps| < SLOTS
    ensures d < SLOTS && table[Probe(h, d)] == Vacant
  {
    var k := VacantSlot(table, ps, hash, SLOTS);
    d := (k + SLOTS - h % SLOTS) % SLOTS;
    assert Probe(h, d) == k;
  }

  lemma VacantSlot(table: seq<Entry>, ps: seq<Placed>, hash: Name -> nat, n: nat) returns (k: nat)
    requires Holds(table, ps, hash) && |ps| < n == SLOTS
    ensures k < n && table[k] == Vacant
  {
    var slots := SlotSet(ps, hash);
    if Below(n) <= slots {
      SubsetCard(Below(n), slots);
    }
    k :| k in Below(n) && k !in slots;
    assert table[k] == Vacant;
  }

  // ------------------------------------------------------------------ lookup

  /** A vacant slot `d` probes along means no source with that hash lies further: if none lies before
      it either, the key is absent. */
  lemma AbsentBeyond(table: seq<Entry>, ps: seq<Placed>, hash: Name -> nat, key: Name, d: nat)
    requires Holds(table, ps, hash) && d < SLOTS && table[Probe(hash(key), d)] == Vacant
    requires forall e :: 0 <= e < d ==> Mismatch(table[Probe(hash(key), e)], key)
    ensures FirstMatch(Sources(ps), key) == NotFound
  {
    forall s | s in Sources(ps) ensures KeyOf(s) != key {
      var i :| 0 <= i < |ps| && Sources(ps)[i] == s;
      var p := ps[i];
      assert InPlace(table, p, hash);
    }
    FirstMatchNone(Sources(ps), key);
  }

  ghost predicate Mismatch(e: Entry, key: Name) {
    e.Occupied? && KeyOf(e.source) != key
  }

  /** The first source with the key along its probe path is the first in the list. */
  lemma FirstAlongPath(table: seq<Entry>, ps: seq<Placed>, hash: Name -> nat, key: Name, d: nat)
    requires Holds(table, ps, hash) && d < SLOTS && key != []
    requires table[Probe(hash(key), d)].Occupied? && KeyOf(table[Probe(hash(key), d)].source) == key
    requires forall e :: 0 <= e < d ==> Mismatch(table[Probe(hash(key), e)], key)
    ensures FirstMatch(Sources(ps), key) == Match(table[Probe(hash(key), d)].source)
  {
    var slot := Probe(hash(key), d);
    var p :| p in ps && SlotOf(p, hash) == slot;
    var j :| 0 <= j < |ps| && ps[j] == p;
    assert InPlace(table, p, hash);
    ProbesDiffer(hash(key), p.d, d);
    forall i | 0 <= i < j ensures KeyOf(Sources(ps)[i]) != key {
      assert InPlace(table, ps[i], hash);
    }
    FirstMatchIs(Sources(ps), key, j);
  }

  // ------------------------------------------------------------------ lumbre_whitelist_t

  class Table {
    const entries: array<Entry>
    ghost var placed: seq<Placed>
    ghost var list: seq<Source>

    /** The table holds the list it was built from, with room to spare. */
    ghost predicate Valid(hash: Name -> nat)
      reads this, entries
    {
      && Holds(entries[..], placed, hash)
      && Sources(placed) == Loaded(list)
      && |placed| < SLOTS
    }

    constructor ()
      ensures fresh(entries) && entries.Length == SLOTS
    {
      entries := new Entry[SLOTS](_ => Vacant);
      placed, list := [], [];
    }

    /** lumbre_whitelist_init, for any source table and any hash function. */
    method Init(sources: seq<Source>, hash: Name -> nat)
      requires entries.Length == SLOTS && |Loaded(sources)| < SLOTS
      modifies this, entries
      ensures Valid(hash) && list == sources
    {
      forall k | 0 <= k < SLOTS {
        entries[k] := Vacant;
      }
      placed := [];
      list := sources;
      for i := 0 to |sources|
        invariant list == sources
        invariant Holds(entries[..], placed, hash) && Sources(placed) == Loaded(sources[..i])
      {
        var s := sources[i];
        LoadedSnoc(sources, i);
        LoadedGrows(sources, i + 1);
        var keyBuf := new Byte[KEY_BUF_SIZE];
        var len := BuildKey(keyBuf, s.cls, s.func);
        if len == 0 {
          continue;
        }
        Insert(s, hash(keyBuf[..len]), hash);
      }
      assert sources[..|sources|] == sources;
    }

    /** Fill the first vacant slot from the home slot on. */
    method Insert(s: Source, h: nat, ghost hash: Name -> nat)
      requires entries.Length == SLOTS && Holds(entries[..], placed, hash) && |placed| < SLOTS - 1
      requires KeyOf(s) != [] && h == hash(KeyOf(s))
      modifies this`placed, entries
      ensures Holds(entries[..], placed, hash) && Sources(placed) == Sources(old(placed)) + [s]
    {
      ghost var table := entries[..];
      var slot, d := FirstVacant(h, hash);
      entries[slot] := Occupied(s, h);
      assert entries[..] == table[slot := Occupied(s, h)];
      InsertHolds(table, placed, hash, s, d);
      placed := placed + [Placed(s, d)];
    }

    /** Probe for it. */
    method FirstVacant(h: nat, ghost hash: Name -> nat) returns (slot: nat, ghost d: nat)
      requires entries.Length == SLOTS && Holds(entries[..], placed, hash) && |placed| < SLOTS
      ensures d < SLOTS && slot == Probe(h, d) && entries[slot] == Vacant
      ensures forall e :: 0 <= e < d ==> entries[..][Probe(h, e)].Occupied?
    {
      Mask63(h);
      slot, d := And(h, 63), 0;
      ghost var table := entries[..];
      ghost var stop := VacancyAhead(table, placed, hash, h);
      while entries[slot].Occupied?
        invariant d <= stop && slot == Probe(h, d)
        invariant forall e :: 0 <= e < d ==> table[Probe(h, e)].Occupied?
        decreases stop - d
      {
        assert table[slot].Occupied?;
        Mask63(slot + 1);
        NextProbe(h, d);
        slot := And(slot + 1, 63);
        d := d + 1;
      }
    }

    /** lumbre_whitelist_match. */
    method Lookup(cls: Name, func: Name, hash: Name -> nat) returns (r: Found)
      requires Valid(hash) && entries.Length == SLOTS
      ensures r == FirstMatch(list, CanonicalKey(cls, func))
    {
      LoadedMatch(list, CanonicalKey(cls, func));
      var keyBuf := new Byte[KEY_BUF_SIZE];
      var len := BuildKey(keyBuf, cls, func);
      if len == 0 {
        return NotFound;
      }
      r := Search(keyBuf[..len], hash(keyBuf[..len]), hash);
    }

    /** Probe from the home slot until the key or a vacant slot comes up. */
    method Search(key: Name, h: nat, ghost hash: Name -> nat) returns (r: Found)
      requires Valid(hash) && entries.Length == SLOTS && key != [] && h == hash(key)
      ensures r == FirstMatch(Sources(placed), key)
    {
      Mask63(h);
      var slot := And(h, 63);
      ghost var d, table := 0, entries[..];
      ghost var stop := VacancyAhead(table, placed, hash, h);
      while entries[slot].Occupied?
        invariant entries[..] == table && d <= stop && slot == Probe(h, d)
        invariant forall e :: 0 <= e < d ==> Mismatch(table[Probe(h, e)], key)
        decreases stop - d
      {
        var same := SameKey(entries[slot], key, h);
        HashedRight(table, placed, hash, slot);
        if same {
          FirstAlongPath(table, placed, hash, key, d);
          return Match(entries[slot].source);
        }
        Mask63(slot + 1);
        NextProbe(h, d);
        slot := And(slot + 1, 63);
        d := d + 1;
      }
      AbsentBeyond(table, placed, hash, key, d);
      r := NotFound;
    }
  }

  /** Compare hashes, then rebuild the entry's key and compare that. */
  method SameKey(e: Entry, key: Name, h: nat) returns (same: bool)
    requires e.Occupied?
    ensures same <==> e.hash == h && KeyOf(e.source) == key
  {
    if e.hash != h {
      return false;
    }
    var entryKey := new Byte[KEY_BUF_SIZE];
    var entryLen := BuildKey(entryKey, e.source.cls, e.source.func);
    same := entryLen == |key| && entryKey[..entryLen] == key;
  }

  lemma HashedRight(table: seq<Entry>, ps: seq<Placed>, hash: Name -> nat, k: nat)
    requires Holds(table, ps, hash) && k < SLOTS && table[k].Occupied?
    ensures table[k].hash == hash(KeyOf(table[k].source))
  {
    var p :| p in ps && SlotOf(p, hash) == k;
    assert InPlace(table, p, hash);
  }

  lemma LoadedSnoc(list: seq<Source>, i: nat)
    requires i < |list|
    ensures Loaded(list[..i + 1])
         == if KeyOf(list[i]) == [] then Loaded(list[..i]) else Loaded(list[..i]) + [list[i]]
  {
    assert list[..i + 1][..i] == list[..i];
  }

  lemma {:induction false} LoadedGrows(list: seq<Source>, i: nat)
    requires i <= |list|
    ensures |Loaded(list[..i])| <= |Loaded(list)|
    decreases |list|
  {
    if i < |list| {
      LoadedGrows(list[..|list| - 1], i);
      assert list[..|list| - 1][..i] == list[..i];
    } else {
      assert list[..i] == list;
    }
  }

  // ------------------------------------------------------------------ the built-in table

  function Ascii(s: string): Name {
    seq(|s|, i requires 0 <= i < |s| => (s[i] as int) % 256)
  }

  /** lumbre_wl_static_table; the kinds are those of the span types. */
  const BUILT_IN: seq<Source> := [
    Source([], Ascii("curl_exec"), 2),
    Source([], Ascii("curl_multi_exec"), 2),
    Source(Ascii("PDO"), Ascii("execute"), 3),
    Source(Ascii("PDO"), Ascii("query"), 3),
    Source([], Ascii("mysqli_query"), 3),
    Source([], Ascii("mysqli_real_query"), 3),
    Source([], Ascii("pg_query"), 3),
    Source([], Ascii("pg_execute"), 3),
    Source(Ascii("Redis"), Ascii("get"), 4),
    Source(Ascii("Redis"), Ascii("set"), 4),
    Source(Ascii("Redis"), Ascii("mget"), 4),
    Source(Ascii("Redis"), Ascii("pipeline"), 4),
    Source(Ascii("Memcached"), Ascii("get"), 5),
    Source(Ascii("Memcached"), Ascii("set"), 5),
    Source(Ascii("Memcached"), Ascii("getMulti"), 5),
    Source([], Ascii("file_get_contents"), 6),
    Source([], Ascii("file_put_contents"), 6),
    Source([], Ascii("fopen"), 6),
    Source([], Ascii("fwrite"), 6),
    Source([], Ascii("fread"), 6),
    Source([], Ascii("fsockopen"), 7),
    Source([], Ascii("stream_socket_client"), 7)
  ]

  lemma {:induction false} LoadedBound(list: seq<Source>)
    ensures |Loaded(list)| <= |list|
  {
    if list != [] {
      LoadedBound(list[..|list| - 1]);
    }
  }

  lemma {:induction false} MatchIsListed(list: seq<Source>, key: Name)
    ensures FirstMatch(list, key).Match? ==>
      FirstMatch(list, key).source in list && KeyOf(FirstMatch(list, key).source) == key
  {
    if list != [] {
      MatchIsListed(list[..|list| - 1], key);
    }
  }

  /** When no two sources share a key, a lookup finds a source exactly if it is in the list under that
      key. */
  lemma MatchIffListed(list: seq<Source>, key: Name, s: Source)
    requires key != []
    requires forall i, j :: 0 <= i < j < |list| ==> KeyOf(list[i]) != KeyOf(list[j])
    ensures FirstMatch(list, key) == Match(s) <==> s in list && KeyOf(s) == key
  {
    MatchIsListed(list, key);
    if s in list && KeyOf(s) == key {
      var j :| 0 <= j < |list| && list[j] == s;
      FirstMatchIs(list, key, j);
    }
  }

  /** Length and a few letters tell the keys of the built-in table apart. */
  function PlaceOf(k: Name): nat {
    if |k| < 5 then SLOTS
    else if |k| == 5 then (if k[1] == 0x6f then 17 else 19)
    else if |k| == 6 then 18
    else if |k| == 8 then 6
    else if |k| == 9 then (if k[1] == 0x75 then 0 else 20)
    else if |k| == 10 then (if k[1] == 0x64 then 3 else if k[1] == 0x67 then 7 else if k[7] == 0x67 then 8 else 9)
    else if |k| == 11 then 10
    else if |k| == 12 then (if k[1] == 0x64 then 2 else 4)
    else if |k| == 14 then (if k[11] == 0x67 then 12 else 13)
    else if |k| == 15 then (if k[1] == 0x75 then 1 else 11)
    else if |k| == 17 then (if k[5] == 0x69 then 5 else if k[5] == 0x67 then 15 else 16)
    else if |k| == 19 then 14
    else 21
  }

  lemma FirstPlaces(i: nat)
    requires i < 6
    ensures PlaceOf(KeyOf(BUILT_IN[i])) == i
  {
  }

  lemma SecondPlaces(i: nat)
    requires 6 <= i < 12
    ensures PlaceOf(KeyOf(BUILT_IN[i])) == i
  {
  }

  lemma ThirdPlaces(i: nat)
    requires 12 <= i < 17
    ensures PlaceOf(KeyOf(BUILT_IN[i])) == i
  {
  }

  lemma LastPlaces(i: nat)
    requires 17 <= i < 22
    ensures PlaceOf(KeyOf(BUILT_IN[i])) == i
  {
  }

  lemma BuiltInPlace(i: nat)
    requires i < |BUILT_IN|
    ensures PlaceOf(KeyOf(BUILT_IN[i])) == i
  {
    if i < 6 { FirstPlaces(i); }
    else if i < 12 { SecondPlaces(i); }
    else if i < 17 { ThirdPlaces(i); }
    else { LastPlaces(i); }
  }

  /** The built-in functions, however their names are capitalised, and nothing else: a lookup in the
      built-in table hits an entry exactly when its key is the entry's. */
  lemma BuiltInMatch(cls: Name, func: Name, i: nat)
    requires i < |BUILT_IN|
    ensures FirstMatch(BUILT_IN, CanonicalKey(cls, func)) == Match(BUILT_IN[i])
       <==> CanonicalKey(cls, func) == KeyOf(BUILT_IN[i])
    ensures SameButForCase(cls, BUILT_IN[i].cls) && SameButForCase(func, BUILT_IN[i].func) ==>
      FirstMatch(BUILT_IN, CanonicalKey(cls, func)) == Match(BUILT_IN[i])
  {
    var key, s := CanonicalKey(cls, func), BUILT_IN[i];
    BuiltInPlace(i);
    MatchIsListed(BUILT_IN, key);
    if key == KeyOf(s) {
      FirstMatchAmong(BUILT_IN, key, i);
    }
    if SameButForCase(cls, s.cls) && SameButForCase(func, s.func) {
      KeysIgnoreCase(cls, func, s.cls, s.func);
    }
  }

  /** Class and function as written, "" for none. */
  predicate Named(s: Source, cls: string, func: string) {
    Spells(s.cls, cls) && Spells(s.func, func)
  }

  predicate Plain(s: string) {
    forall i :: 0 <= i < |s| ==> s[i] < 128 as char && s[i] != ':'
  }

  lemma NamedAs(s: Source, cls: string, func: string)
    requires s.cls == Ascii(cls) && s.func == Ascii(func) && Plain(cls) && Plain(func)
    ensures Named(s, cls, func) && NoColon(s.cls) && NoColon(s.func)
  {
  }

  // The 22 built-in functions by name, with their span types.

  lemma BuiltInHttp()
    ensures forall i :: 0 <= i < 2 ==> BUILT_IN[i].kind == 2 && NoColon(BUILT_IN[i].cls) && NoColon(BUILT_IN[i].func)
    ensures Named(BUILT_IN[0], "", "curl_exec")
    ensures Named(BUILT_IN[1], "", "curl_multi_exec")
  {
    assert [] == Ascii("");
    NamedAs(BUILT_IN[0], "", "curl_exec");
    NamedAs(BUILT_IN[1], "", "curl_multi_exec");
  }

  lemma BuiltInPdo()
    ensures forall i :: 2 <= i < 4 ==> BUILT_IN[i].kind == 3 && NoColon(BUILT_IN[i].cls) && NoColon(BUILT_IN[i].func)
    ensures Named(BUILT_IN[2], "PDO", "execute")
    ensures Named(BUILT_IN[3], "PDO", "query")
  {
    NamedAs(BUILT_IN[2], "PDO", "execute");
    NamedAs(BUILT_IN[3], "PDO", "query");
  }

  lemma BuiltInMysql()
    ensures forall i :: 4 <= i < 6 ==> BUILT_IN[i].kind == 3 && NoColon(BUILT_IN[i].cls) && NoColon(BUILT_IN[i].func)
    ensures Named(BUILT_IN[4], "", "mysqli_query")
    ensures Named(BUILT_IN[5], "", "mysqli_real_query")
  {
    assert [] == Ascii("");
    NamedAs(BUILT_IN[4], "", "mysqli_query");
    NamedAs(BUILT_IN[5], "", "mysqli_real_query");
  }

  lemma BuiltInPostgres()
    ensures forall i :: 6 <= i < 8 ==> BUILT_IN[i].kind == 3 && NoColon(BUILT_IN[i].cls) && NoColon(BUILT_IN[i].func)
    ensures Named(BUILT_IN[6], "", "pg_query")
    ensures Named(BUILT_IN[7], "", "pg_execute")
  {
    assert [] == Ascii("");
    NamedAs(BUILT_IN[6], "", "pg_query");
    NamedAs(BUILT_IN[7], "", "pg_execute");
  }

  lemma BuiltInRedis()
    ensures forall i :: 8 <= i < 10 ==> BUILT_IN[i].kind == 4 && NoColon(BUILT_IN[i].cls) && NoColon(BUILT_IN[i].func)
    ensures Named(BUILT_IN[8], "Redis", "get")
    ensures Named(BUILT_IN[9], "Redis", "set")
  {
    NamedAs(BUILT_IN[8], "Redis", "get");
    NamedAs(BUILT_IN[9], "Redis", "set");
  }

  lemma BuiltInRedisMore()
    ensures forall i :: 10 <= i < 12 ==> BUILT_IN[i].kind == 4 && NoColon(BUILT_IN[i].cls) && NoColon(BUILT_IN[i].func)
    ensures Named(BUILT_IN[10], "Redis", "mget")
    ensures Named(BUILT_IN[11], "Redis", "pipeline")
  {
    NamedAs(BUILT_IN[10], "Redis", "mget");
    NamedAs(BUILT_IN[11], "Redis", "pipeline");
  }

  lemma BuiltInMemcached()
    ensures forall i :: 12 <= i < 15 ==> BUILT_IN[i].kind == 5 && NoColon(BUILT_IN[i].cls) && NoColon(BUILT_IN[i].func)
    ensures Named(BUILT_IN[12], "Memcached", "get")
    ensures Named(BUILT_IN[13], "Memcached", "set")
    ensures Named(BUILT_IN[14], "Memcached", "getMulti")
  {
    NamedAs(BUILT_IN[12], "Memcached", "get");
    NamedAs(BUILT_IN[13], "Memcached", "set");
    NamedAs(BUILT_IN[14], "Memcached", "getMulti");
  }

  lemma BuiltInFileContents()
    ensures forall i :: 15 <= i < 17 ==> BUILT_IN[i].kind == 6 && NoColon(BUILT_IN[i].cls) && NoColon(BUILT_IN[i].func)
    ensures Named(BUILT_IN[15], "", "file_get_contents")
    ensures Named(BUILT_IN[16], "", "file_put_contents")
  {
    assert [] == Ascii("");
    NamedAs(BUILT_IN[15], "", "file_get_contents");
    NamedAs(BUILT_IN[16], "", "file_put_contents");
  }

  lemma BuiltInFiles()
    ensures forall i :: 17 <= i < 20 ==> BUILT_IN[i].kind == 6 && NoColon(BUILT_IN[i].cls) && NoColon(BUILT_IN[i].func)
    ensures Named(BUILT_IN[17], "", "fopen")
    ensures Named(BUILT_IN[18], "", "fwrite")
    ensures Named(BUILT_IN[19], "", "fread")
  {
    assert [] == Ascii("");
    NamedAs(BUILT_IN[17], "", "fopen");
    NamedAs(BUILT_IN[18], "", "fwrite");
    NamedAs(BUILT_IN[19], "", "fread");
  }

  lemma BuiltInSockets()
    ensures forall i :: 20 <= i < 22 ==> BUILT_IN[i].kind == 7 && NoColon(BUILT_IN[i].cls) && NoColon(BUILT_IN[i].func)
    ensures Named(BUILT_IN[20], "", "fsockopen")
    ensures Named(BUILT_IN[21], "", "stream_socket_client")
  {
    assert [] == Ascii("");
    NamedAs(BUILT_IN[20], "", "fsockopen");
    NamedAs(BUILT_IN[21], "", "stream_socket_client");
  }

  /** There are 22 of them, none with a colon in its names, and their span types are HTTP_OUT, DB, REDIS,
      MEMCACHED, FILE_IO and SOCKET in turn. */
  lemma BuiltInNames(i: nat)
    requires i < |BUILT_IN|
    ensures |BUILT_IN| == 22 && NoColon(BUILT_IN[i].cls) && NoColon(BUILT_IN[i].func)
    ensures BUILT_IN[i].kind
         == if i < 2 then 2 else if i < 8 then 3 else if i < 12 then 4 else if i < 15 then 5 else if i < 20 then 6
            else 7
  {
    if i < 2 { BuiltInHttp(); }
    else if i < 4 { BuiltInPdo(); }
    else if i < 6 { BuiltInMysql(); }
    else if i < 8 { BuiltInPostgres(); }
    else if i < 10 { BuiltInRedis(); }
    else if i < 12 { BuiltInRedisMore(); }
    else if i < 15 { BuiltInMemcached(); }
    else if i < 17 { BuiltInFileContents(); }
    else if i < 20 { BuiltInFiles(); }
    else { BuiltInSockets(); }
  }

  /** A call of unambiguous names hits an entry of the built-in table exactly if its names are the
      entry's up to case. */
  lemma BuiltInOnly(cls: Name, func: Name, i: nat)
    requires i < |BUILT_IN| && Unambiguous(cls, func)
    ensures FirstMatch(BUILT_IN, CanonicalKey(cls, func)) == Match(BUILT_IN[i])
       <==> SameButForCase(cls, BUILT_IN[i].cls) && SameButForCase(func, BUILT_IN[i].func)
  {
    BuiltInMatch(cls, func, i);
    BuiltInNames(i);
    if FirstMatch(BUILT_IN, CanonicalKey(cls, func)) == Match(BUILT_IN[i]) {
      KeysSeparate(cls, func, BUILT_IN[i].cls, BUILT_IN[i].func);
    }
  }

  /** And nothing is found under any other names. */
  lemma BuiltInNothingElse(cls: Name, func: Name)
    requires Unambiguous(cls, func)
    ensures FirstMatch(BUILT_IN, CanonicalKey(cls, func)) == NotFound
       <==> forall i :: 0 <= i < |BUILT_IN| ==>
              !(SameButForCase(cls, BUILT_IN[i].cls) && SameButForCase(func, BUILT_IN[i].func))
  {
    var r := FirstMatch(BUILT_IN, CanonicalKey(cls, func));
    forall i | 0 <= i < |BUILT_IN|
      ensures r == Match(BUILT_IN[i])
         <==> SameButForCase(cls, BUILT_IN[i].cls) && SameButForCase(func, BUILT_IN[i].func)
    {
      BuiltInOnly(cls, func, i);
    }
    MatchIsListed(BUILT_IN, CanonicalKey(cls, func));
  }

  lemma FirstMatchAmong(list: seq<Source>, key: Name, i: nat)
    requires list == BUILT_IN && i < |list| && key == KeyOf(list[i])
    ensures FirstMatch(list, key) == Match(list[i])
  {
    BuiltInPlace(i);
    forall j | 0 <= j < |list| && j != i ensures KeyOf(list[j]) != key {
      BuiltInPlace(j);
    }
    FirstMatchIs(list, key, i);
  }

  /** Every hit in the built-in table has one of the I/O kinds, never that of a request's root. */
  lemma BuiltInKinds(key: Name)
    ensures var r := FirstMatch(BUILT_IN, key); r.Match? ==> 2 <= r.source.kind <= 7
  {
    MatchIsListed(BUILT_IN, key);
  }

  /** Build and query the built-in table with FNV-1a, as the extension does. */
  method BuiltInTable() returns (t: Table)
    ensures fresh(t) && fresh(t.entries) && t.entries.Length == SLOTS
    ensures t.Valid(Fnv1a) && t.list == BUILT_IN
  {
    LoadedBound(BUILT_IN);
    t := new Table();
    t.Init(BUILT_IN, Fnv1a);
  }
}
