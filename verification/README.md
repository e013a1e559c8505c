# Lumbre: a verified model of the tracing pipeline

Lumbre is a PHP extension that records calls. Hooks around function calls start and finish spans;
the spans of a request form a tree below one HTTP_IN span. A finished span is timed, possibly
filtered, packed to MessagePack, and written to a ring buffer in shared memory from which a separate
consumer process reads. This project models that pipeline in Dafny and proves what holds of it over
every run.

| file | what it models |
|---|---|
| `Bits.dfy`, `Bytes.dfy` | bit operators on machine words, `lumbre_next_power_of_2`, byte order |
| `Msgpack.dfy`, `PackBuffer.dfy` | the MessagePack subset with a decoder (specification), and the packer as a class over a buffer |
| `Span.dfy`, `SpanEncoder.dfy` | spans, their encoding, a decoder that looks fields up by key, and `lumbre_span_encode` |
| `Ring.dfy` | the ring as a transition system: one byte store or load per step, stale loads of positions |
| `RingSafety.dfy` | the invariant of the ring and its preservation by every step |
| `RingWord.dfy` | the ring in the C code's 32- and 64-bit arithmetic is the ring with unbounded positions |
| `RingTheorems.dfy`, `RingRuns.dfy` | what follows for every reachable state: safety, framing, conservation, progress |
| `RingBuffer.dfy` | `lumbre_ringbuf_write` as a class, refining the transition system |
| `RingAtomic.dfy` | a write is atomic under every interleaving with the consumer |
| `Whitelist.dfy` | the open-addressing table of traced functions against a plain list |
| `Tracing.dfy`, `CallTrees.dfy` | context, spans and hooks over arbitrary call trees: numbering, parents, timing |
| `Filtering.dfy` | the filter of short spans: the exact conditions under which the kept spans form a subtree |
| `Shapes.dfy` | what is decided by the calls alone, before the clock has a say: exact conditions on given calls |
| `Pipeline.dfy`, `Lifetimes.dfy` | the ledger of written spans, requests, worker lifetimes, the end-to-end theorem |
| `Runtime.dfy` | contexts, spans and the module globals as classes, refining the functions of `Tracing.dfy` |

Conventions. A C pointer with its length is a byte string. Machine words are naturals with their
bound in the type, and every wrap-around is written out (`% U32`, `% U64`). The ring machine exists
in two widths, `Ideal` and `Word`, that share one text: `Word` computes as the C code does, and the
theorems about it follow from those about `Ideal` by `RingWord.RunWord`. The predicate `Bits.Open`
is always true; predicates stated under it are handed around by the verifier as a unit.

The data area of a ring has three bytes more than its capacity, because the padding marker is four
bytes long even where fewer remain before the ring's end. `RingTheorems.StoresInBounds` says what
these bytes are used for, and `RingTheorems.MappingHasSpill` that the page-rounded mapping has them.

A request is a sequence of phases: the script, then what the engine still runs before request
shutdown, such as shutdown functions and output callbacks. Each phase is an arbitrary call tree that a
fatal error may cut off at any depth; the context stays as it is and the next phase starts.

The environment of a request (`Tracing.Env`) is arbitrary: the readings of the clock, the settings,
the steps of the consumer around each write, and the interleaving of ring steps within each write.

Where the code and its comments differ, the model follows the code: a file function whose first
argument is a URL keeps the FILE_IO type (the note at `lumbre_whitelist.c:85-87` says the hook
changes it; the hook at `php_lumbre.c:640-648` does not).

## Model

| member | source | states |
|---|---|---|
| Bits.NextPowerOfTwo | lumbre_ringbuf.c:53-69 | bit smearing yields the least power of two not below the argument up to 2^31, 1 for 0, and wraps to 0 above |
| Bits.PowerTestCorrect | lumbre_ringbuf.h:26 | the macro holds exactly of the powers of two |
| Bits.SmearStep | lumbre_ringbuf.c:62-66 | a step `v \|= v >> s` doubles the number of leading bits known to be set |
| Bits.AndMask | lumbre_ringbuf.c:161 | masking with a power of two less one is the remainder |
| Bits.AndBit | lumbre_ringbuf.c:161 | bit by bit, masking is conjunction |
| Bits.XorBit | lumbre_whitelist.c:19-30 | bit by bit, the operator in the hash is inequality |
| Bytes.SwapStoresBigEndian | lumbre_msgpack.c:25-41 | the bytes stored after a byte swap are the value's, most significant first, for any width |
| Bytes.BeDigit | lumbre_msgpack.c:25-41 | byte i of n big-endian bytes is the digit of weight 256^(n-1-i) |
| Bytes.LeDigit | lumbre_ringbuf.c:182-184 | byte i of a little-endian word is the digit of weight 256^i |
| Msgpack.UIntRoundTrip | lumbre_msgpack.c:70-101 | every 64-bit integer reads back, leaving any suffix over |
| Msgpack.StrRoundTrip | lumbre_msgpack.c:105-131 | every string reads back, leaving any suffix over |
| Msgpack.BinRoundTrip | lumbre_msgpack.c:135-159 | every byte string that is packed at all reads back, leaving any suffix over |
| Msgpack.MapHeaderRoundTrip | lumbre_msgpack.c:54-66 | a map header reads back exactly when its count is at most 65535; larger counts are truncated |
| Msgpack.StreamRoundTrip | lumbre_msgpack.c:54-159 | any sequence of packed values decodes back to itself, leaving any suffix over |
| Msgpack.ShortestForm | lumbre_msgpack.c:54-159 | no byte string that decodes to a value is shorter than its packed form, except exactly for strings of 32 to 255 bytes |
| Msgpack.NumberFormat | lumbre_msgpack.c:70-101 | integers up to 0x7f, 0xff, 0xffff, 0xffffffff and above are one byte, or the tags 0xcc, 0xcd, 0xce, 0xcf before 1, 2, 4, 8 digits, most significant first |
| Msgpack.StringFormat | lumbre_msgpack.c:105-131 | strings up to 31, 65535 and more bytes begin with 0xa0 plus the length, 0xda and two digits, 0xdb and four; the bytes follow |
| Msgpack.BinaryFormat | lumbre_msgpack.c:135-159 | byte strings up to 255 and 65535 bytes begin with 0xc4 and one digit or 0xc5 and two; the bytes follow |
| Msgpack.MapFormat | lumbre_msgpack.c:54-66 | maps of up to 15 and 65535 pairs begin with 0x80 plus the count, or 0xde and two digits |
| Packer.PackBuffer.PackMap | lumbre_msgpack.c:54-66 | succeeds exactly when the header fits; on failure neither position nor bytes change; bytes below the old and above the new position stay |
| Packer.PackBuffer.PackUInt | lumbre_msgpack.c:70-101 | the same, for integers |
| Packer.PackBuffer.PackStr | lumbre_msgpack.c:105-131 | the same, for strings |
| Packer.SpaceCheckExact | lumbre_msgpack.c:118-124 | the space check of a long string, a 32-bit sum, says whether it fits exactly for lengths with `5 + len` below 2^32 |
| Packer.PackBuffer.PackBin | lumbre_msgpack.c:135-159 | the same, for byte strings, which also fail above 65535 bytes |
| Packer.PackBuffer.PackStrKv | lumbre_msgpack.c:163-170 | succeeds exactly when key and value fit together; a failure leaves a prefix of the pair |
| Packer.PackBuffer.PackUIntKv | lumbre_msgpack.c:172-179 | the same, for an integer value |
| Packer.PackBuffer.PackBinKv | lumbre_msgpack.c:181-188 | the same, for a byte string value |
| Packer.PackBuffer.Reset | lumbre_msgpack.c:47-50 | the contents become empty |
| Packer.Advance | lumbre_msgpack.c:163-188 | one more call in a sequence of packer calls: everything so far is written, or the sequence stops with a proper prefix of all its encodings |
| Spans.HeaderCountsFields | lumbre_span.c:23-35 | the count in the map header is the number of pairs written, for every type byte |
| Spans.KeysDistinct | lumbre_span.c:102-195 | no two pairs of a span have the same key |
| Spans.SpanRoundTrip | lumbre_span.c:102-195 | decoding an encoded span, of any type, returns every field its type makes relevant, and whatever follows |
| Spans.WireFormat | lumbre_msgpack.h:33-61 | an encoded span read by any MessagePack reader is a map from the keys "t", "tid", "sid", "pid", "s", "d" and those of its type, in literal bytes, to its fields, in the order of packing |
| Spans.EncodeInjective | lumbre_span.c:102-195 | encoding is injective on what a span's type makes relevant, and self-delimiting in a stream |
| Spans.EncodedSizeExact | lumbre_span.c:102-195 | the length of the encoding in closed form |
| Spans.DbSpanFits | lumbre_msgpack.h:20 | a database span with a type of at most 7 and a query of at most 16286 bytes fits the pack buffer |
| Spans.DbSpanBoundTight | lumbre_msgpack.h:20 | with a query one byte longer, some span does not |
| SpanEncoder.EncodeSpan | lumbre_span.c:102-195 | succeeds exactly when the closed-form size fits the space left and then appends the whole encoding; otherwise what was appended is a proper prefix of it |
| RingSafety.DecideMeaning | lumbre_ringbuf.c:145-179 | the checks accept exactly when padding and message fit behind the loaded read position |
| RingSafety.FrameLayout | lumbre_ringbuf.c:172-187 | a message in memory is its length in four bytes, least significant first, then its own bytes; the padding marker is four bytes 0xFF |
| RingSafety.LengthIsNotMarker | lumbre_ringbuf.h:22 | no length prefix of a message that fits a ring is the padding marker |
| RingSafety.StepInv | lumbre_ringbuf.c:139-196 | every byte-level step of producer and consumer keeps the ring's invariant |
| RingSafety.SnapshotBehind | lumbre_ringbuf.c:153-156 | a stale read position is behind the true one, and still at most a ring's length behind the write positions |
| RingSafety.StoresMakeUnit | lumbre_ringbuf.c:174-188 | the byte stores of a write add up to marker, length prefix and payload in place, although the marker may spill past the end |
| RingWord.FitWord | lumbre_ringbuf.c:145-170 | no 32- or 64-bit expression of the checks wraps, for any capacity from 4 to 2^31 |
| RingWord.DecideWord | lumbre_ringbuf.c:153-170 | on 64-bit positions the checks decide as on unbounded ones |
| RingWord.RunWord | lumbre_ringbuf.c:153-193 | on every run the 64-bit ring takes the same decisions and makes the same stores as the unbounded one |
| RingTheorems.RingSafe | lumbre_ringbuf.c:139-196 | in every reachable state the bytes from read_pos to write_pos parse as exactly the accepted messages not yet released, in order; what the consumer has taken is a prefix of the accepted messages; dropped counts the refusals modulo 2^64; all this for a reader that looks for the marker and for one that takes fewer than 4 remaining bytes as padding |
| RingTheorems.PublishedBytesStable | lumbre_ringbuf.c:172-193 | no step changes a byte between the 64-bit read_pos and write_pos, also in the middle of a write |
| RingTheorems.StoresInBounds | lumbre_ringbuf.c:172-187 | every store is inside the ring, or is a marker byte at most three bytes past it |
| RingTheorems.LoadsInBounds | tests/test_ringbuf.c:399-418 | the consumer's loads stay in the ring and those three bytes, and those of payloads in the ring |
| RingTheorems.MappingHasSpill | lumbre_ringbuf.c:94-106 | the last page of the mapping has the three bytes, for every capacity |
| RingTheorems.GuardSound | lumbre_ringbuf.c:144-150 | the length guard keeps `4 + len` from wrapping and inside the ring exactly for capacities of at least 4 |
| RingTheorems.TinyTakes | lumbre_ringbuf.c:144-159 | a ring of fewer than 4 bytes takes a payload exactly if `4 + len` wraps around to at most its capacity |
| RingTheorems.TinyRefuses | lumbre_ringbuf.c:144-159 | so every sequence of writes to it whose lengths do not wrap, among them all that fit the pack buffer, is refused as a whole and leaves the position at 0 |
| RingTheorems.PublishedFraming | lumbre_ringbuf.c:164-193 | everything published is a message directly behind its padding, which reaches the ring's end; write_pos is local_write_pos between calls; in 64-bit positions |
| RingTheorems.SnapshotsMonotone | lumbre_ringbuf.c:152-153 | successive loads of read_pos never go back in its history; what they see is never ahead of its true value, nor that of what was read, and at most a ring's length behind write_pos |
| RingTheorems.SnapshotsOrdered | lumbre_ringbuf.c:152-153 | the same order on unbounded positions, where it can be said in numbers |
| RingTheorems.Conservation | lumbre_ringbuf.c:139-196 | every payload offered is accepted, refused or being written, once; the accepted are the taken followed by those in flight |
| RingRuns.WriteIsRun | lumbre_ringbuf.c:139-196 | the steps of one call add up to its whole effect |
| RingRuns.AllStoresWritten | lumbre_ringbuf.c:172-187 | the stores, one byte at a time, equal three block copies |
| RingRuns.EmptyAccepts | lumbre_ringbuf.c:156-179 | on an empty ring a message is accepted exactly when it fits before or after the write offset |
| RingRuns.HalfAlwaysAccepted | lumbre_ringbuf.c:156-179 | so a message of at most half the ring is accepted at every offset |
| RingRuns.HalfPlusOneRefused | lumbre_ringbuf.c:164-170 | one byte more is refused in a reachable empty state, in every ring of 8 bytes and up |
| RingRuns.Drain | tests/test_ringbuf.c:399-420 | from every reachable state the consumer alone can take all accepted messages and free the ring |
| RingBuffers.RingBuffer.constructor | lumbre_ringbuf.c:80-133 | a zeroed ring of the least power-of-two capacity not below the one asked for |
| RingBuffers.RingBuffer.Write | lumbre_ringbuf.c:139-196 | the whole new state of ring, positions and counters, for whatever position the load returned |
| RingBuffers.RingBuffer.Reset | lumbre_ringbuf.c:218-224 | all positions and the counter are zero |
| RingBuffers.WriteStaysInside | lumbre_ringbuf.c:156-187 | an accepted message lies inside the ring whatever the load of read_pos returned |
| RingBuffers.WriteRefines | lumbre_ringbuf.c:139-196 | a call of Write leaves what the steps of a call leave in the transition system |
| RingAtomic.StepUnderway | lumbre_ringbuf.c:139-196 | every step of a write in progress, and of the consumer beside it, leads towards the effect of one uninterrupted call |
| RingAtomic.WriteAtomic | lumbre_ringbuf.c:139-196 | a write interleaved in any way with the consumer's steps leaves the memory, positions and counters of one uninterrupted call of Write that loads the value of read_pos the producer loaded, and its payload is accepted exactly when that call returns 0 |
| Whitelist.BuildKey | lumbre_whitelist.c:42-75 | the key built in the caller's buffer is the canonical key, of length 0 when it does not fit |
| Whitelist.KeysIgnoreCase | lumbre_whitelist.c:32-75 | names that differ only in case have the same key |
| Whitelist.KeyIs | lumbre_whitelist.c:42-75 | the canonical key is class, two colons and function in lower case, or the function alone; empty exactly if that would be empty or longer than 127 bytes |
| Whitelist.KeysSeparate | lumbre_whitelist.c:42-75 | names with the same key differ in nothing but case, for plain functions, and for any two names where no class, and no function compared with a method, has a colon |
| Whitelist.KeyOfKey | lumbre_whitelist.c:42-75 | with colons they need not: a plain function named like a method's key has that key |
| Whitelist.ComputeFnv1a | lumbre_whitelist.c:19-30 | the loop computes FNV-1a |
| Whitelist.Fnv1aIs | lumbre_whitelist.c:19-30 | the hash by its definition, with offset basis and prime as numbers and the exclusive or bit by bit |
| Whitelist.InsertHolds | lumbre_whitelist.c:158-171 | filling the first vacant slot on a key's probe path keeps every path from a home slot to its entry occupied |
| Whitelist.VacancyAhead | lumbre_whitelist.c:158-161 | with fewer than 64 entries every probe path reaches a vacant slot |
| Whitelist.AbsentBeyond | lumbre_whitelist.c:195-215 | a key not met before the first vacant slot on its path is not in the list |
| Whitelist.Table.Init | lumbre_whitelist.c:138-173 | any list with fewer than 64 entries, under any hash function, ends up in a table that holds it |
| Whitelist.Table.Lookup | lumbre_whitelist.c:175-216 | a lookup returns the first entry of the list with the canonical key of the names, or nothing if there is none |
| Whitelist.MatchIffListed | lumbre_whitelist.c:175-216 | with distinct keys an entry is found exactly when it is in the list under that key |
| Whitelist.BuiltInMatch | lumbre_whitelist.c:97-131 | each of the 22 built-in functions is found, as itself, under any capitalisation, and under no other key |
| Whitelist.BuiltInHttp | lumbre_whitelist.c:98-100 | entries curl_exec and curl_multi_exec, of type 2, spelled out |
| Whitelist.BuiltInPdo | lumbre_whitelist.c:103-104 | entries the two methods of PDO, of type 3, spelled out |
| Whitelist.BuiltInMysql | lumbre_whitelist.c:105-106 | entries the two functions of mysqli, of type 3, spelled out |
| Whitelist.BuiltInPostgres | lumbre_whitelist.c:107-108 | entries pg_query and pg_execute, of type 3, spelled out |
| Whitelist.BuiltInRedis | lumbre_whitelist.c:111-112 | entries Redis get and set, of type 4, spelled out |
| Whitelist.BuiltInRedisMore | lumbre_whitelist.c:113-114 | entries Redis mget and pipeline, of type 4, spelled out |
| Whitelist.BuiltInMemcached | lumbre_whitelist.c:117-119 | entries the three methods of Memcached, of type 5, spelled out |
| Whitelist.BuiltInFileContents | lumbre_whitelist.c:122-123 | entries file_get_contents and file_put_contents, of type 6, spelled out |
| Whitelist.BuiltInFiles | lumbre_whitelist.c:124-126 | entries fopen, fwrite and fread, of type 6, spelled out |
| Whitelist.BuiltInSockets | lumbre_whitelist.c:129-130 | entries fsockopen and stream_socket_client, of type 7, spelled out |
| Whitelist.BuiltInNames | lumbre_whitelist.c:97-131 | these are all 22 entries, each with the span type of its group |
| Whitelist.BuiltInOnly | lumbre_whitelist.c:175-216 | an entry is hit if and only if the names asked for are its names up to case, unless a class name, or a plain function's, has a colon |
| Whitelist.BuiltInNothingElse | lumbre_whitelist.c:175-216 | and nothing is found if and only if they are those of no entry |
| Whitelist.BuiltInKinds | lumbre_whitelist.c:97-131 | a hit never has the type of a request's root or of a user function |
| CallTrees.FinishRestores | lumbre_span.c:201-238 | a finish restores the parent whatever becomes of the span, and changes nothing of the span but its duration and, unless it is filtered, a database span's query, which is cut to the limit if there is one; it is filtered exactly when too short |
| CallTrees.FinishDrops | lumbre_span.c:229-235 | it overflows exactly if its encoding is longer than 16384 bytes and it is not filtered; in either case the ring takes no step |
| CallTrees.TooShortIs | lumbre_span.c:215-218 | too short is below the threshold, and not the type of a request's root |
| CallTrees.ElapsedIs | lumbre_span.c:209-210 | a duration is the time between two readings, also across a wrap-around of the clock's word |
| CallTrees.BuiltInTypes | lumbre_span.h:25-33 | the types of the built-in entries are the ones with these names |
| CallTrees.InternalDecision | php_lumbre.c:585-621 | with tracing enabled and a context active, a call whose names are a built-in entry's up to case starts a span of that entry's type; otherwise it starts none |
| CallTrees.OtherDecision | php_lumbre.c:585-621 | any other internal call starts none |
| CallTrees.UserDecision | php_lumbre.c:698-720 | a user function starts a span of type 8 exactly in full mode or in a triggered request, while tracing is enabled and a context active |
| CallTrees.SpanPayload | php_lumbre.c:628-668 | what a started span says, by its type: command and key, path, class, function, file and line, the query cut to the limit with the database type and no rows |
| CallTrees.RecordedCall | php_lumbre.c:575-767 | a traced call is recorded as a span of the type decided on, with that payload, whatever the calls inside it do and whether it is finished or left open |
| CallTrees.PhasesRestore | lumbre_span.c:76-96 | after any phases, each an arbitrary call tree that may die anywhere, current_parent_id is the innermost span a death left open, or what it was if there is none |
| CallTrees.BodyRestores | lumbre_span.c:221-224 | a call tree that does not die leaves current_parent_id as it found it |
| CallTrees.InnermostIff | lumbre_span.c:221-224 | while ids are distinct the parent is back where it was exactly if no span was left open |
| CallTrees.PhasesNumber | lumbre_span.c:85 | span ids are consecutive in the order of starting |
| CallTrees.IdsUnique | lumbre_span.c:85 | they are pairwise distinct exactly when there are at most 2^64 |
| CallTrees.PhasesLink | lumbre_span.c:83-90 | each span's parent is the innermost span open at its start, and its trace id the request's |
| CallTrees.BodyParents | lumbre_span.c:86-90 | in one call tree, wherever it dies, parents are the enclosing spans |
| CallTrees.ParentedIff | lumbre_span.c:86-90 | over several phases they are exactly if nothing was started after a death that had left a span open |
| CallTrees.PhasesTime | lumbre_span.c:209-213 | the clock is read once per start and once per finish, nested as the calls are, and a span is filtered exactly when the time between is short |
| CallTrees.PhasesSettle | php_lumbre.c:676-695 | a finished span has only finished spans inside, and without a death all are finished |
| CallTrees.PhasesIdle | php_lumbre.c:585-592 | without an active context no span is started and the ring is not touched |
| CallTrees.PhasesKeepRoot | lumbre_span.c:92-95 | no span inside a request becomes its root while ids do not wrap, also after a death |
| CallTrees.QueryRecorded | lumbre_span.h:191-203 | the query of a database call is recorded as its longest prefix within the limit, nothing for a limit of 0 although the finish takes 0 for no limit |
| Filtering.PhasesClosed | lumbre_span.c:211-218 | where no span started directly inside a short one could be long enough, no filtered span of any phases has a kept or open one inside |
| Filtering.FilterExact | lumbre_span.c:211-218 | for given clock readings and thresholds that condition is exact: it holds if and only if filtering is closed downward in every call tree that takes these readings |
| Filtering.ThresholdExact | php_lumbre.c:196-199 | for given thresholds filtering is closed downward under every monotone clock, in every call tree, if and only if the threshold is never raised from one reading to a later one |
| Filtering.ThresholdsClose | lumbre_span.c:211-218 | under a monotone clock filtering of a tree is closed downward if no span's finish has a higher threshold than a finish inside it |
| Shapes.PhasesAlike | php_lumbre.c:575-767 | which spans start, nest, finish and stay open, and at which readings, does not depend on clock, thresholds and ring |
| Shapes.TreeExact | lumbre_span.c:211-218 | for given calls filtering is closed downward under every monotone clock if and only if no span's finish has a higher threshold than a finish inside it |
| Shapes.PhasesOutlined | php_lumbre.c:575-767 | from the calls alone: whether spans are started, finished, left open, finished inside one left open, or started after one |
| Shapes.OpenExact | lumbre_span.c:211-218 | for given calls some thresholds keep a span inside one left open if and only if a traced call ends inside one that then dies |
| Shapes.ParentsExact | lumbre_span.c:86-90 | for given calls parents are the enclosing spans, while ids are distinct, if and only if no traced call comes in a later phase than one that dies inside a traced call |
| Filtering.RaisedBreaks | php_lumbre.c:196-199 | a threshold raised between two finishes makes a call and the one inside it break closure, under a monotone clock |
| Filtering.FilterNeedsMonotoneClock | lumbre_span.c:211-218 | with a fixed threshold and a clock that goes back, closure fails for a function that calls another |
| Filtering.KeptSubtreeIff | lumbre_span.c:211-218 | where filtering is closed downward, every span around a kept one is kept if and only if no kept one lies inside a span left open |
| Pipeline.SettleEnds | lumbre_ringbuf.c:139-196 | from any point of a write the producer's own steps bring it to its end |
| Pipeline.DeliverBooks | lumbre_ringbuf.c:139-196 | a write interleaved with any ring steps ends accepted or refused, once, and the history of the ring says which |
| Pipeline.FinishBooks | lumbre_span.c:229-237 | a finish adds the encoding of the span to the accepted payloads on success, to the refused ones on a full ring, and to neither otherwise |
| Pipeline.PhasesAccounts | php_lumbre.c:575-696 | in every sequence of call trees the payloads the ring accepts are the encodings of the spans whose finish succeeded, in the order they finished |
| Lifetimes.RequestStarts | php_lumbre.c:249-391 | request start in every case: nothing with tracing disabled; tracing disabled if storage or mapping fails; otherwise an active context with the request's trace id and trigger, and a span of type 1 and id 1 with its URI and method |
| Lifetimes.InRequest | php_lumbre.c:249-391 | at every point of every phase of a request an active context implies an initialised ring, spans start only while active, trace id and trigger are the request's, and the root id is 1 |
| Lifetimes.ServeTree | php_lumbre.c:397-414 | the spans of a request form one tree below an HTTP_IN span that is never filtered, numbered from 1, each with the innermost open span as its parent; afterwards the parent id is 0 and the context inactive |
| Lifetimes.ServeRoot | php_lumbre.c:249-414 | the root of that tree has type 1, the URI and method of the request and the reading at its start; afterwards the trace id is zero |
| Lifetimes.RequestParents | lumbre_span.c:86-90 | in that tree parents are the enclosing spans exactly if nothing was started after a death that had left a span open |
| Lifetimes.DeathMovesParents | php_lumbre.c:397-414 | a script that dies inside a traced call, followed by a traced call in a later phase, gives a tree in which a parent does not enclose its child |
| Lifetimes.LaterPhase | php_lumbre.c:397-414 | the spans that a later phase starts have the root as their parent exactly if no earlier phase left a span open, and otherwise the innermost open span |
| Lifetimes.RequestFilter | lumbre_span.c:211-218 | with a clock monotone over the readings of its calls, and no span's finish having a higher threshold than a finish inside it, no filtered span of a request has a kept or open one inside; its kept spans form a subtree with its root exactly if none lies inside a span left open, so always if no phase dies |
| Lifetimes.RequestSteady | php_lumbre.c:196-199 | a threshold not raised between the readings of a request's calls meets that condition, whatever the calls |
| Lifetimes.DeathBreaksSubtree | lumbre_span.c:211-218 | a request that dies inside a span can keep one below it, and then they do not |
| Lifetimes.LiveOk | php_lumbre.c:249-414 | over any sequence of requests and calls outside them, tracing switched at any time and phases aborted at any depth: between requests no context is active, the parent id is 0, every span belongs to the tree of a request, a request was only traced with an initialised ring, and ring and clock agree with the outcomes |
| Lifetimes.LiveBooks | lumbre_span.c:237 | over such a life the accepted payloads are the encodings of the written spans, the refused ones of the refused |
| Lifetimes.EndToEnd | lumbre_span.c:201-238 | at every moment of every life, what the consumer has taken decodes to a prefix of the spans whose finish succeeded, in finish order: each payload to the map with the span's fields under its type's literal keys |
| Lifetimes.EveryFinishCounted | lumbre_span.c:209-237 | finishes are written + refused + overflowed + filtered, and dropped is the number of refused ones modulo 2^64, overflows not among them |
| Lifetimes.EverythingArrives | lumbre_span.c:237 | the consumer alone can go on to take and decode every written span |
| Runtime.Context.Init | lumbre_span.c:42-60 | the whole context, with the trace id that was propagated, random or zero |
| Runtime.Context.Reset | lumbre_span.c:66-70 | inactive with a zero trace id, and otherwise the same |
| Runtime.SpanObject.Start | lumbre_span.c:76-96 | the span and the context that starting a span on the model gives |
| Runtime.SpanObject.SetDb | lumbre_span.h:191-203 | the query is cut to the limit; nothing but the database fields changes |
| Runtime.SpanObject.SetHttpOut | lumbre_span.h:178-189 | nothing but the request fields changes |
| Runtime.SpanObject.SetCache | lumbre_span.h:205-214 | nothing but the cache fields changes |
| Runtime.SpanObject.SetFunc | lumbre_span.h:216-230 | nothing but the function fields changes |
| Runtime.SpanObject.SetHttpIn | lumbre_span.h:232-241 | nothing but the incoming request fields changes |
| Runtime.SpanObject.SetFileIo | lumbre_span.h:243-249 | nothing but the path changes |
| Runtime.SpanObject.Finish | lumbre_span.c:201-238 | span, context, ring memory and return value, which is 1 exactly for a span that is too short; nothing but a whole encoding ever reaches the ring |
| Runtime.FinishMatches | lumbre_span.c:201-238 | the effect of that method on a ring's memory and its return value are those of the model, whatever is interleaved with the write, so the theorems about call trees apply to it |
| Runtime.Globals.constructor | php_lumbre.c:218-223 | the globals of a new process, with the built-in table |
| Runtime.Globals.Decide | php_lumbre.c:585-621 | the hooks trace exactly the calls the model says, using the real table |
| Runtime.Globals.Fill | php_lumbre.c:628-668 | the payload extracted before the call |
| Runtime.Globals.RequestInit | php_lumbre.c:249-391 | the globals after request start are the model's, whether or not storage is granted and the ring can be mapped, and a new ring is the model's empty ring |
| Runtime.Globals.RequestShutdown | php_lumbre.c:397-414 | globals and ring memory after request end are the model's |
| Runtime.Globals.ExecutePhases | php_lumbre.c:575-767 | around any phases the hooks take globals and ring memory where the model goes, also after a death |
| Runtime.Globals.Execute | php_lumbre.c:575-767 | around any call tree the hooks take globals and ring memory where the model goes, and abort where it aborts |
| Runtime.Globals.HandleRequest | php_lumbre.c:249-414 | so does a whole request |
| Runtime.Globals.Work | php_lumbre.c:218-767 | so does the whole life of a worker, to which the end-to-end theorem and the others about lives therefore apply |

## Left out

- Opening, sizing, mapping and unlinking the shared file, paths, process and worker ids, magic and version: foreign calls. A ring starts zeroed, or with arbitrary contents in the transition system. Whether mapping succeeds is a field of the request.
- Weak memory beyond stale, monotone loads of positions: the stores of a write become visible in program order, which the release store of write_pos and the consumer's matching load provide.
- The consumer process is not in the repository; the model's consumer follows the reader in the ring's tests. It takes only what it has loaded of write_pos.
- RingBuffers.RingBuffer.constructor: requested sizes 0, 1 and 2, which round to capacities below 4, and above 2^31, which round to 0. The C code maps such a ring and every write to it whose length does not wrap is refused (RingTheorems.TinyRefuses); the class has no such ring, because its length guard and its mask mean nothing there (RingTheorems.GuardSound).
- Runtime.Globals.constructor: the same sizes of lumbre.buffer_size, for the same reason.
- Packer.PackBuffer.PackStr: texts of 2^32 - 5 bytes or more, for which the 32-bit space check wraps (Packer.SpaceCheckExact). The hooks cast any string length to 32 bits (php_lumbre.c:562) and clip only queries, so an argument of about 4 GiB would get there; what the C code then does is not defined, and the type `Spans.Text` excludes it. So does `Packer.PackBuffer.PackStrKv`.
- Packer.PackBuffer.PackStrKv: the same texts.
- Packer.PackBuffer.PackUIntKv: the same texts as keys; every caller passes a literal of at most 3 bytes.
- Packer.PackBuffer.PackBinKv: likewise.
- A NULL pointer with a nonzero length, which no caller passes.
- Zend internals: argument and name extraction, inference of the database type, header lookup and hexadecimal conversion, INI parsing, phpinfo, MINIT and MSHUTDOWN. Their results are fields of calls and requests. lumbre.mode and lumbre.max_query_len are fixed per process, as their INI entries say.
- The real clock and random source: arbitrary readings (monotone where a theorem says so) and an arbitrary trace id.
- Fibers (PHP 8.1 and up): a fiber suspended inside a hooked call lets others run before the call returns. Calls then do not nest, and current_parent_id is restored out of order; a tree of calls cannot express that.
- Process forks, threads and re-entrant signal handlers.
- The original function that a hook calls is modelled by the calls it makes; what else it does to the engine is not part of the model.
- lumbre_ringbuf_reset on a ring in use, which discards messages: a utility of the tests, modelled as a method only.
- Hooks for exceptions need nothing of their own: an exception is a flag in the engine and the span is finished. A fatal error goes to the end of the phase; the engine's handlers that catch one deeper inside a call are not modelled.
