/**
 * The shared-memory ring as a transition system.
 *
 * One producer runs the steps of lumbre_ringbuf_write, storing one byte at a time; one consumer
 * runs the steps of the reference reader, loading one byte at a time. A run is any interleaving.
 * Positions are kept either as unbounded numbers or as the 64- and 32-bit words of the C code.
 */
module Ring {
  import opened Bits
  import opened Bytes

  // ------------------------------------------------------------------ machine arithmetic

  /** `Word` arithmetic wraps as uint64_t and uint32_t do; `Ideal` arithmetic does not wrap. */
  datatype Width = Ideal | Word

  function N64(w: Width, x: int): (r: int)
    ensures x >= 0 ==> r >= 0
  {
    if w.Word? then x % U64 else x
  }

  function N32(w: Width, x: int): (r: int)
    ensures x >= 0 ==> r >= 0
  {
    if w.Word? then x % U32 else x
  }

  /** The capacities lumbre_next_power_of_2 can produce, from 4 up. */
  predicate IsCapacity(c: nat) {
    exists k | 2 <= k <= 31 :: c == Pow2(k)
  }

  lemma FourIsCapacity()
    ensures IsCapacity(4)
  {
    assert Pow2(2) == 4;
  }

  type Capacity = c: nat | 4 <= c <= TOP_POWER && IsCapacity(c) witness (FourIsCapacity(); 4)

  // ------------------------------------------------------------------ layout of one message

  /** LUMBRE_RINGBUF_PADDING_MARKER in memory. */
  const MARKER: seq<Byte> := [0xFF, 0xFF, 0xFF, 0xFF]

  /** A marker may start less than 4 bytes before the end of the ring. */
  const SPILL: nat := 3

  /** The length prefix, a little-endian word the size of the marker. */
  function LengthBytes(len: nat): (b: seq<Byte>)
    ensures |b| == 4
  {
    Le(len, |MARKER|)
  }

  /** Length prefix and payload. */
  function Frame(m: seq<Byte>): seq<Byte> {
    LengthBytes(|m|) + m
  }

  datatype Store = Store(addr: nat, val: Byte)

  /** The number of bytes a write stores: the marker if it pads, then the frame. */
  function StoreCount(pad: nat, m: seq<Byte>): nat {
    (if pad > 0 then 4 else 0) + 4 + |m|
  }

  /** The `i`-th of them: the marker at the offset, the frame behind it or at the ring's start. */
  function NthStore(offset: nat, pad: nat, m: seq<Byte>, i: nat): Store
    requires i < StoreCount(pad, m)
  {
    if pad == 0 then Store(offset + i, Frame(m)[i])
    else if i < 4 then Store(offset + i, MARKER[i])
    else Store(i - 4, Frame(m)[i - 4])
  }

  function Put(data: seq<Byte>, st: Store): (d: seq<Byte>)
    ensures |d| == |data|
  {
    if st.addr < |data| then data[st.addr := st.val] else data
  }

  function Get(data: seq<Byte>, at: nat): Byte {
    if at < |data| then data[at] else 0
  }

  // ------------------------------------------------------------------ the producer's decisions

  function Offset(cap: Capacity, pos: nat): (r: nat)
    ensures r < cap
  {
    And(pos, cap - 1)
  }

  /** The guard `payload_len > capacity - 4`. */
  predicate TooLong(w: Width, cap: Capacity, len: nat) {
    len > N32(w, cap - 4)
  }

  datatype Verdict = Refuse | Accept(offset: nat, pad: nat)

  /** Space check, wrap test, and the check that padding and message both fit, given the bytes in
      use behind the write position and the offset it falls on. */
  function Fit(w: Width, cap: Capacity, used: int, offset: nat, len: nat): Verdict
    requires offset < cap
  {
    var needed := N32(w, 4 + len);
    if N64(w, used + needed) > cap then Refuse
    else if N32(w, offset + needed) <= cap then Accept(offset, 0)
    else
      var pad := N32(w, cap - offset);
      if N64(w, N64(w, used + pad) + needed) > cap then Refuse else Accept(offset, pad)
  }

  function Decide(w: Width, cap: Capacity, local: nat, snap: nat, len: nat): Verdict {
    Fit(w, cap, N64(w, local - snap), Offset(cap, local), len)
  }

  /** `local_write_pos` after padding and message. */
  function Advanced(w: Width, local: nat, pad: nat, len: nat): nat {
    N64(w, N64(w, local + pad) + N32(w, 4 + len))
  }

  // ------------------------------------------------------------------ state

  datatype Producer =
    | Idle
    | Called(m: seq<Byte>)                            // past the length guard
    | Loaded(m: seq<Byte>, snap: nat)                 // read_pos loaded
    | Storing(m: seq<Byte>, offset: nat, pad: nat, done: nat)   // `done` bytes stored
    | Stored(m: seq<Byte>)                            // local_write_pos advanced, not published

  datatype Consumer =
    | Header(skip: nat, got: seq<Byte>)               // reading 4 bytes, `skip` bytes of padding skipped
    | Body(skip: nat, len: nat, got: seq<Byte>)       // reading the payload

  datatype Ring = Ring(
    cap: Capacity,
    data: seq<Byte>,             // the ring and the SPILL bytes after it
    local: nat,                  // local_write_pos
    published: seq<nat>,         // values stored to write_pos so far; the last is current
    freed: seq<nat>,             // values stored to read_pos so far; the last is current
    seen: nat,                   // index of the newest read_pos value the producer has loaded
    fetched: nat,                // index of the newest write_pos value the consumer has loaded
    dropped: nat,
    producer: Producer,
    readPos: nat,                // the consumer's own read position, a message boundary
    consumer: Consumer,
    // history
    accepted: seq<seq<Byte>>,    // payloads published
    refused: seq<seq<Byte>>,     // payloads dropped
    taken: seq<seq<Byte>>,       // payloads the consumer has read
    released: nat                // how many of them read_pos has been moved past
  )

  function Init(cap: Capacity, data: seq<Byte>): Ring {
    Ring(cap, data, 0, [0], [0], 0, 0, 0, Idle, 0, Header(0, []), [], [], [], 0)
  }

  // ------------------------------------------------------------------ steps

  datatype Action =
    | Call(m: seq<Byte>)   // lumbre_ringbuf_write is entered
    | LoadRead(i: nat)     // relaxed load of read_pos: the i-th value stored, never older than one seen
    | Check
    | StoreByte
    | MoveLocal
    | Publish
    | LoadWrite(i: nat)    // the consumer loads write_pos
    | Consume              // one consumer step: load a byte, skip padding, or finish a message
    | Release              // the consumer stores read_pos

  function Dropped(w: Width, s: Ring, m: seq<Byte>): Ring {
    s.(dropped := N64(w, s.dropped + 1), refused := s.refused + [m], producer := Idle)
  }

  function CallStep(w: Width, s: Ring, m: seq<Byte>): Ring {
    if !s.producer.Idle? || |m| >= U32 then s
    else if TooLong(w, s.cap, |m|) then Dropped(w, s, m)
    else s.(producer := Called(m))
  }

  function LoadReadStep(s: Ring, i: nat): Ring {
    if s.producer.Called? && s.seen <= i < |s.freed| then
      s.(producer := Loaded(s.producer.m, s.freed[i]), seen := i)
    else s
  }

  function CheckStep(w: Width, s: Ring): Ring {
    if !s.producer.Loaded? then s
    else match Decide(w, s.cap, s.local, s.producer.snap, |s.producer.m|)
      case Refuse => Dropped(w, s, s.producer.m)
      case Accept(offset, pad) => s.(producer := Storing(s.producer.m, offset, pad, 0))
  }

  /** Bytes are still to be stored. */
  predicate StoresLeft(s: Ring) {
    s.producer.Storing? && s.producer.done < StoreCount(s.producer.pad, s.producer.m)
  }

  function NextStore(s: Ring): Store
    requires StoresLeft(s)
  {
    NthStore(s.producer.offset, s.producer.pad, s.producer.m, s.producer.done)
  }

  function StoreStep(s: Ring): Ring {
    if StoresLeft(s) then
      s.(data := Put(s.data, NextStore(s)), producer := s.producer.(done := s.producer.done + 1))
    else s
  }

  function MoveStep(w: Width, s: Ring): Ring {
    if s.producer.Storing? && !StoresLeft(s) then
      s.(local := Advanced(w, s.local, s.producer.pad, |s.producer.m|), producer := Stored(s.producer.m))
    else s
  }

  function PublishStep(s: Ring): Ring {
    if s.producer.Stored? then
      s.(published := s.published + [s.local], accepted := s.accepted + [s.producer.m], producer := Idle)
    else s
  }

  function LoadWriteStep(s: Ring, i: nat): Ring {
    if s.fetched <= i < |s.published| then s.(fetched := i) else s
  }

  /** The consumer's next state while it reads a header at its position `pos`. */
  function NextHeader(w: Width, cap: Capacity, data: seq<Byte>, pos: nat, c: Consumer): Consumer
    requires c.Header?
  {
    var at := Offset(cap, N64(w, pos + c.skip));
    if |c.got| < 4 then Header(c.skip, c.got + [Get(data, at + |c.got|)])
    else if c.got == MARKER then Header(c.skip + (cap - at), [])
    else Body(c.skip, FromLe(c.got), [])
  }

  function HeaderStep(w: Width, s: Ring): Ring
    requires s.consumer.Header?
  {
    if s.consumer == Header(0, []) && !Visible(s) then s
    else s.(consumer := NextHeader(w, s.cap, s.data, s.readPos, s.consumer))
  }

  function NextBody(w: Width, cap: Capacity, data: seq<Byte>, pos: nat, c: Consumer): Consumer
    requires c.Body?
  {
    var at := Offset(cap, N64(w, pos + c.skip));
    Body(c.skip, c.len, c.got + [Get(data, at + 4 + |c.got|)])
  }

  function BodyStep(w: Width, s: Ring): Ring
    requires s.consumer.Body?
  {
    var c := s.consumer;
    if |c.got| < c.len then s.(consumer := NextBody(w, s.cap, s.data, s.readPos, c))
    else s.(readPos := N64(w, s.readPos + c.skip + 4 + c.len), taken := s.taken + [c.got], consumer := Header(0, []))
  }

  function ReleaseStep(s: Ring): Ring {
    if s.consumer == Header(0, []) then s.(freed := s.freed + [s.readPos], released := |s.taken|) else s
  }

  /** One step of either side. An action that is not possible changes nothing. */
  function Step(w: Width, s: Ring, a: Action): Ring {
    match a
    case Call(m) => CallStep(w, s, m)
    case LoadRead(i) => LoadReadStep(s, i)
    case Check => CheckStep(w, s)
    case StoreByte => StoreStep(s)
    case MoveLocal => MoveStep(w, s)
    case Publish => PublishStep(s)
    case LoadWrite(i) => LoadWriteStep(s, i)
    case Consume => if s.consumer.Header? then HeaderStep(w, s) else BodyStep(w, s)
    case Release => ReleaseStep(s)
  }

  /** The consumer's position differs from the write_pos it loaded. */
  predicate Visible(s: Ring) {
    s.fetched < |s.published| && s.readPos != s.published[s.fetched]
  }

  function Run(w: Width, s: Ring, acts: seq<Action>): Ring
    decreases |acts|
  {
    if acts == [] then s else Step(w, Run(w, s, acts[..|acts| - 1]), acts[|acts| - 1])
  }
}
