# A model of the hard cores of TDLib

Dafny models of seven self-contained cores of TDLib, and proofs of what they are for.
`dafny verify dfyconfig.toml` checks the whole project.

| Files | Core |
|---|---|
| `BufferQueue.dfy`, `BufferedFdQueue.dfy`, `QueueBenchmark.dfy`, `BenchmarkOnRings.dfy` | the lock-free single-producer single-consumer ring, its sleep and wake-up protocol over an eventfd, the ping-pong benchmark over abstract queues, and over two such rings |
| `TlSchema.dfy`, `TlCode.dfy`, `TlWriter.dfy`, `TlRuntime.dfy`, `TlRoundTrip.dfy`, `TlNormalForm.dfy`, `TlSolidSchema.dfy`, `TlEmission.dfy`, `TlWire.dfy` | the generator of TL storers and parsers, when it stops, the two little languages it emits, their meaning, and the bytes on the wire |
| `TlsHello.dfy`, `TlsHelloScopes.dfy`, `TlsHelloNesting.dfy`, `TlsHelloPasses.dfy`, `TlsHelloHeader.dfy`, `TlsHelloSigned.dfy`, `TlsGrease.dfy`, `TlsHelloDefault.dfy`, `TlsHelloBodies.dfy`, `TlsHelloRecord.dfy`, `CurveAlgebra.dfy`, `Curve25519.dfy` | the two-pass builder of the TLS ClientHello, and the fake public key in it |
| `Streaming.dfy`, `Framing.dfy`, `Obfuscation.dfy`, `ObfuscatedReader.dfy` | message framing, obfuscation with one keystream, TLS records, in both directions |
| `DuplicateChecker.dfy`, `AuthData.dfy`, `Container.dfy` | replay protection, message identifiers, the server clock, packing messages into containers |
| `BacktraceTable.dfy`, `AllocationAccounting.dfy` | the lock-free hash table of the memory profiler and its byte counters |
| `DisjointSet.dfy`, `SplitSource.dfy`, `GreedyPacking.dfy`, `SplitFiles.dfy` | splitting a source file: union-find over shared names and largest-first packing |
| `Options.dfy`, `Bytes.dfy` | shared helpers |

Concurrent code is a state machine with one atomic memory access per step and a program counter per thread; every
main result about it holds for every interleaving and every length of run. Code that changes objects in place is a
class with the same fields; each method is proved against a function of its inputs and the old state, and what the
source promises is proved about that function. Clocks, random numbers, shuffles and coin flips are arbitrary values.
Times are real numbers. HMAC, SHA and AES are arbitrary functions; AES in counter mode is exclusive-or with a keystream
that depends on the position only (section 6.5 of NIST SP 800-38A). Message identifiers, sizes and counters are
unbounded unless the wrap-around matters: the ring has 32-bit counters, and the profiler 32-bit block sizes.

## What turned out different from what one would expect

- A TL vector whose elements take no bytes does not survive a round trip: the parser rejects a vector with more
  elements than bytes left (`td-master/td/tl/tl_object_parse.h:126`). `FetchUndoesStore` gives the exact condition on
  the value (`Fits`, which also excludes flags words that the parser finds negative), `EmptyObjectsDoNotFit` a concrete schema and value, and `SolidRoundTrip` a condition on the
  schema alone under which every value comes back.
- A conditional `True` field that is not bare is never stored, but the emitted parser goes on to parse it, with a class
  `TlFetchTrue` that exists nowhere. `ParserIsDefined`: the parser of a combinator names only existing classes if and
  only if every conditional `True` field is bare. In the model such a class fails on every input, so that the value
  comes back if and only if the bits of these fields are off (`Fits` in `FetchUndoesStore`); `BoxedTrueIsLost` has both
  cases on one schema.
- The hash of a hello is written over its bytes 11 to 42, whatever stands there. `ScopeInHeader`: a scope keeps its
  length and contents in the header if and only if it lies outside these bytes; `LengthIsOverwritten` has a program that
  yields a header in which the length of a scope is gone. In the default program the shuffled parts begin at byte 118.
- The array duplicate checker remembers up to 2N identifiers, not the last N of the comment above it, so it accepts
  some identifiers that the ordered-set checkers refuse; `ArrayRefinesSet` says exactly which, and `ArrayAcceptsMore`
  has a run of four. No identifier is accepted twice by either (`NoReplay`, `SetNoReplay`).
- The comment at `td-master/td/mtproto/AuthData.h:214-215` says that the server time difference is at least every
  observed one; the code ignores increases up to a ten-thousandth of a second. `UpdateServerTimeDifference` states when
  exactly the difference kept is less than the one just observed, and when it is at least all of them;
  `SmallIncreaseIsMissed` has a pair of differences, and the invariant proved allows for that much.
- A message written with a request for a quick ack is not read back as a message by the same class, because the top bit
  of the length word has another meaning in that direction. `FrameRoundTrip` states this as an if-and-only-if, and
  `RequestRoundTrip` what the other side reads.
- The profiler records block sizes as signed 32-bit numbers: its total is the live memory exactly when every live block
  is shorter than 2^31 bytes (`UsedMemory`); one of 2^32 bytes counts as empty (`HugeBlockIsNotCounted`). `realloc` cuts
  both sizes in the same way: the start of the old data, as far as both blocks reach, survives exactly when neither cut
  size falls short of it (`ReallocKeepsStart`); growing 100 bytes to 2^32 loses all of them (`GrowingCanLoseAll`).
- The abort in `td-master/memprof/memprof.cpp:185` is commented as unreachable, and the assertion on the load in line 163
  is meant to hold. `AbortIsReachable`: for two threads or more, some run aborts if and only if the threads are not few
  for the size of the table (`FewThreads`: 10 (size/2 + threads + 1) < 7 size).
- The body of a query without identifiers to wait for, whose packet begins like a list of them, is read as if it had
  some; `QueryRoundTrip` states when exactly identifiers and packet come back.
- With zero queries the benchmark still plays one round per connection (`Rounds` in `QueueBenchmark.dfy`).

## Model

| member | source | states |
|---|---|---|
| BufferQueue.ReaderReadiness | td-master/benchmark/bench_queue.cpp:241-251 | on 32-bit counters that have wrapped any number of times, the reader's tests decide exactly the comparison of the unbounded counts |
| BufferQueue.WriterReadiness | td-master/benchmark/bench_queue.cpp:245-255 | the same for the writer's tests against the buffer size |
| BufferQueue.PutKeepsInv | td-master/benchmark/bench_queue.cpp:270-272 | a put into a ring with a free slot keeps the chain of counters and every value not yet read in its slot |
| BufferQueue.GetKeepsInv | td-master/benchmark/bench_queue.cpp:257-259 | a get returns the oldest value put and not yet got, and keeps the chain |
| BufferQueue.FlushesKeepInv | td-master/benchmark/bench_queue.cpp:261-281 | publishing and reloading an index keeps the chain |
| BufferQueue.NoSlotRace | td-master/benchmark/bench_queue.cpp:257-272 | reader and writer never stand at the same slot |
| BufferedFdQueue.InvHolds | td-master/benchmark/bench_queue.cpp:334-430 | the invariant of ring, flag, eventfd and program counters holds after every run |
| BufferedFdQueue.Fifo | td-master/benchmark/bench_queue.cpp:307-327 | over every run the values got are a prefix of the values put, at most one buffer behind, and every later one is still in its slot |
| BufferedFdQueue.NoConcurrentSlotAccess | td-master/benchmark/bench_queue.cpp:257-272 | over every run, a store and a read that are both about to happen go to different slots |
| BufferedFdQueue.PutAbortsIffFull | td-master/benchmark/bench_queue.cpp:313-322 | put fails exactly when no slot has been published as free |
| BufferedFdQueue.PutHasRoom | td-master/benchmark/bench_queue.cpp:313-322 | for a reader that only calls get, a put never aborts while the unread values and one more leave a slot free |
| BufferedFdQueue.NoLostWakeup | td-master/benchmark/bench_queue.cpp:346-353 | a reader asleep on a zero eventfd has read all that is published, or the writer is still between publication and notification |
| BufferedFdQueue.NotificationArrives | td-master/benchmark/bench_queue.cpp:358-366 | in that window the writer's next steps make the reader runnable, in every interleaving |
| BufferedFdQueue.CallTerminates | td-master/benchmark/bench_queue.cpp:381-425 | while something unread is published, each step of a running get or wait brings its end nearer and no step of the writer moves it away |
| QueueBenchmark.RunIsSafe | td-master/benchmark/bench_queue.cpp:704-742 | for up to 128 connections, in every state of every run no check fails, no put is refused, and each queue holds at most one value per connection |
| QueueBenchmark.ServeFits | td-master/benchmark/bench_queue.cpp:707-717 | serving keeps one token per unfinished connection, and the order check holds |
| QueueBenchmark.TurnFits | td-master/benchmark/bench_queue.cpp:728-736 | so does receiving a token and sending the next one |
| QueueBenchmark.DropFits | td-master/benchmark/bench_queue.cpp:736-738 | so does receiving the last token of a connection |
| QueueBenchmark.NoDeadlock | td-master/benchmark/bench_queue.cpp:704-742 | in every reachable state one side can go on, unless both have ended |
| QueueBenchmark.StepsEndRun | td-master/benchmark/bench_queue.cpp:704-742 | every step of either side lowers a natural number, so every run ends |
| QueueBenchmark.EndOfRun | td-master/benchmark/bench_queue.cpp:704-742 | at the end the queues are empty and every connection has played all its rounds on both sides |
| BenchmarkOnRings.RingsAreSafe | td-master/benchmark/bench_queue.cpp:704-742 | the benchmark on two rings, one memory access at a time, with programs that know only the values which come out of the rings: in every state of every run no put is refused, no check on such a value fails, and each ring holds at most one unread value per connection |
| BenchmarkOnRings.RunRefines | td-master/benchmark/bench_queue.cpp:704-742 | every run on the rings follows a run over abstract queues, under the map that takes the unread values of a ring for a queue |
| BenchmarkOnRings.InGet | td-master/benchmark/bench_queue.cpp:708-708 | the value that a thread goes on with, as read from the ring, is the front value of the abstract queue |
| BenchmarkOnRings.InPut | td-master/benchmark/bench_queue.cpp:713-713 | storing the value of a put in a slot of the ring is putting it at the end of the abstract queue |
| BenchmarkOnRings.NoDeadlock | td-master/benchmark/bench_queue.cpp:381-425 | in every reachable state a thread can take a step unless both have ended: never do both sleep, or one sleep for good |
| BenchmarkOnRings.EveryRunEnds | td-master/benchmark/bench_queue.cpp:381-425 | every memory access lowers a natural number, so spins, sleeps and loops all end |
| BenchmarkOnRings.EndOfRun | td-master/benchmark/bench_queue.cpp:704-742 | at the end everything put has been got, and every connection has played all its rounds |
| TlWriter.GenFieldFetch | td-master/td/generate/tl_writer_cpp.cpp:216-299 | what is emitted to parse a field, with the failed assertions, and the variables assigned afterwards |
| TlWriter.GenFieldStore | td-master/td/generate/tl_writer_cpp.cpp:439-530 | the same for storing a field |
| TlWriter.OrTrueFields | td-master/td/generate/tl_writer_cpp.cpp:502-515 | the True fields that are or-ed into a flags word, in order |
| TlWriter.CheckAllStored | td-master/td/generate/tl_writer_cpp.cpp:666-670 | closing a function fails unless every variable has been assigned |
| TlWriter.WriteConstructorFetch | td-master/td/generate/tl_writer_cpp.cpp:216-299 | the loop over the fields emits the program for which the round trip is proved |
| TlWriter.WriteConstructorStore | td-master/td/generate/tl_writer_cpp.cpp:439-530 | the same for the storing program |
| TlRoundTrip.BoxesAgree | td-master/td/generate/tl_writer_cpp.cpp:185-209 | the two generators branch differently, yet box a type with the same constructor id or both leave it bare |
| TlRoundTrip.StringRoundTrip | td-master/tdutils/td/utils/tl_storers.h:53-88 | a string of any length below 2^32 is parsed back, in each of the three forms, leaving exactly the trailing bytes |
| TlRoundTrip.PolymorphicRoundTrip | td-master/td/generate/tl_writer_cpp.cpp:682-699 | with distinct constructor ids the fetch switch finds the constructor that was stored |
| TlRoundTrip.FieldsRoundTrip | td-master/td/generate/tl_writer_cpp.cpp:216-299 | the emitted parser of the fields undoes the emitted storer: flags words, conditional fields, True bits, trailing bytes |
| TlRoundTrip.RoundTrip | td-master/td/generate/tl_writer_cpp.cpp:140-209 | for every good schema, type and value, the emitted parser returns the normalized value and the trailing bytes, and fails exactly when the value does not fit |
| TlEmission.ProgramsExist | td-master/td/generate/tl_writer_cpp.cpp:216-299 | the generators stop on a failed assertion exactly unless every field depends on variables of earlier fields only, every variable is assigned exactly once, and the types of the fields have code |
| TlEmission.CodeExists | td-master/td/generate/tl_writer_cpp.cpp:140-209 | for which uses of types there is parsing and storing code |
| TlWire.NumbersOf4Bytes | td-master/td/tl/tl_object_parse.h:53-59 | every number below 2^32 is stored for the 32-bit types as its four bytes, low bytes first, and read back from them and whatever follows |
| TlWire.NumbersOf8Bytes | td-master/td/tl/tl_object_parse.h:61-75 | the same for the 64-bit types |
| TlWire.WiderNumbers | td-master/td/tl/tl_object_parse.h:77-99 | the same for 16, 32 and 64 bytes |
| TlWire.BoolIsRead | td-master/td/tl/tl_object_parse.h:35-51 | true and false are each read from their own four bytes, and other bytes are an error |
| TlWire.StoresString | td-master/tdutils/td/utils/tl_storers.h:53-88 | the three forms of a string, byte by byte, to a multiple of four bytes |
| TlWire.StoresWire | td-master/td/tl/tl_object_store.h:19-86 | for every good schema, type and value, the storing code writes exactly the bytes that the reference serializer `Wire` derives from the type: constructor numbers, counts, flags words, conditional fields |
| TlWire.ParsesWire | td-master/td/tl/tl_object_parse.h:20-147 | from those bytes the parsing code reads the normalized value and exactly the trailing bytes, or fails exactly when the value does not fit |
| TlWire.NegativeFlagsAreRefused | td-master/td/generate/tl_writer_cpp.cpp:284-287 | a flags word with its highest bit on is an error |
| TlNormalForm.FetchUndoesStore | td-master/td/generate/tl_writer_cpp.cpp:345-407 | the parser returns the normalized value and exactly the trailing bytes if and only if every vector fits, no flags word is negative, and none announces a True field that is not bare |
| TlNormalForm.EmptyObjectsDoNotFit | td-master/td/tl/tl_object_parse.h:119-136 | a concrete value that is stored but not parsed back |
| TlNormalForm.FlagsWordBits | td-master/td/generate/tl_writer_cpp.cpp:502-515 | a bit of a stored flags word is on exactly if it was on before or a True field asked for it |
| TlNormalForm.NormalFormIsStable | td-master/td/generate/tl_writer_cpp.cpp:439-530 | normalizing is idempotent, keeps the type, and does not change the stored bytes |
| TlNormalForm.SecondTripIsExact | td-master/td/generate/tl_writer_cpp.cpp:439-530 | what was parsed is stored as the same bytes and is its own normal form |
| TlNormalForm.ParserIsDefined | td-master/td/generate/tl_writer_cpp.cpp:478-487 | of the combinators that both generators accept, those whose parser names only existing classes are exactly those whose conditional True fields are bare |
| TlNormalForm.BoxedTrueIsLost | td-master/td/generate/tl_writer_cpp.cpp:478-487 | a concrete schema where a field that is false survives the trip and one that is true is lost |
| TlSolidSchema.AlwaysFits | td-master/td/tl/tl_object_parse.h:119-136 | if vector elements take bytes and conditional True fields are bare and below bit 31, every value without negative flags fits, whatever follows it |
| TlSolidSchema.SolidRoundTrip | td-master/td/generate/tl_writer_cpp.cpp:140-209 | for such a schema every value without negative flags comes back normalized, with exactly the trailing bytes |
| TlsHello.PartsShift | td-master/td/mtproto/TlsInit.cpp:265-272 | a balanced permutation part has the same length wherever it stands and leaves the open scopes alone |
| TlsHello.ReorderLength | td-master/td/mtproto/TlsInit.cpp:401-405 | a shuffle of the parts does not change their total length |
| TlsHello.OpsStore | td-master/td/mtproto/TlsInit.cpp:319-411 | whatever passes the length pass is stored without a failed check, in exactly as many bytes, with the same open scopes |
| TlsHelloScopes.ScopeHoldsItsLength | td-master/td/mtproto/TlsInit.cpp:374-384 | once all ops are stored, a scope between two of them stands as its big-endian length followed by what the ops inside store, whatever comes before, around and after |
| TlsHelloScopes.BeginHasEnd | td-master/td/mtproto/TlsInit.cpp:374-384 | in a balanced program every opening mark has its closing mark |
| TlsHelloNesting.PartInPlace | td-master/td/mtproto/TlsInit.cpp:387-406 | whatever the shuffle, each part stands whole in the buffer once all ops are stored, before padding and hash, behind the parts shuffled in front of it |
| TlsHelloNesting.EveryScopeHoldsItsLength | td-master/td/mtproto/TlsInit.cpp:374-406 | so every scope, however deep in however many permutations and under any shuffle, stands in that buffer as its big-endian length and its contents |
| TlsHelloNesting.EveryBeginIsOfAScope | td-master/td/mtproto/TlsInit.cpp:374-406 | every opening mark of a balanced program, at any depth, is that of such a scope |
| TlsHelloSigned.SurvivesIffOutsideHash | td-master/td/mtproto/TlsInit.cpp:420-423 | a stretch of the hello survives every digest and time if and only if it does not overlap the bytes 11 to 42 |
| TlsHelloSigned.ScopeInHeader | td-master/td/mtproto/TlsInit.cpp:374-423 | for every program that yields a header, a scope at any depth stands in the padded hello as its length and contents, and in the header for every digest and time if and only if it lies outside the hash |
| TlsHelloSigned.PartInHeader | td-master/td/mtproto/TlsInit.cpp:387-423 | a part of a shuffle that lies outside the hash stands whole in the header |
| TlsHelloSigned.TimeIsRecovered | td-master/td/mtproto/TlsInit.cpp:420-423 | the first 28 of the overwritten bytes are the digest, and whoever knows the digest reads the time back from the last four |
| TlsHelloSigned.LengthIsOverwritten | td-master/td/mtproto/TlsInit.cpp:420-423 | a program that yields a header in which the length of a scope is replaced by the digest |
| TlsHelloPasses.TlsHelloCalcLength.DoOp | td-master/td/mtproto/TlsInit.cpp:213-276 | the length pass changes its fields as the specification says |
| TlsHelloPasses.FillLimits | td-master/td/mtproto/TlsInit.cpp:222-233 | the length pass fails for a fill outside 1 to 1024 bytes |
| TlsHelloPasses.ScopeLimit | td-master/td/mtproto/TlsInit.cpp:248-264 | and for contents of a scope from 2^14 bytes on |
| TlsHelloPasses.TlsHelloStore.DoOp | td-master/td/mtproto/TlsInit.cpp:319-411 | the store pass writes what the specification says and succeeds wherever it must |
| TlsHelloPasses.TlsHelloStore.EndScope | td-master/td/mtproto/TlsInit.cpp:374-384 | closing a scope patches its two length bytes in place and nothing else |
| TlsHelloPasses.TlsHelloStore.StorePart | td-master/td/mtproto/TlsInit.cpp:387-399 | a part of a permutation is stored in a buffer of its own that it fills exactly |
| TlsHelloHeader.PassingIsBalanced | td-master/td/mtproto/TlsInit.cpp:282-301 | what passes the length pass with balanced parts is scope-balanced throughout |
| TlsHelloHeader.PassingLength | td-master/td/mtproto/TlsInit.cpp:282-301 | if finishing the length pass succeeds, the length is 517 |
| TlsHelloHeader.Sign | td-master/td/mtproto/TlsInit.cpp:420-423 | the hash over the whole hello, with the time mixed in, takes the place of bytes 11 to 42 |
| TlsHelloHeader.GenerateHeader | td-master/td/mtproto/TlsInit.cpp:486-504 | for every op program with balanced parts: a hello exactly when the length pass succeeds, always 517 bytes, filled to the last byte, no failed check |
| TlsGrease.Init | td-master/td/mtproto/TlsInit.cpp:27-37 | the two loops make, in place, bytes with the low half 10 and a random high half, changed in its lowest bit exactly where the members of a pair would be alike |
| TlsHelloDefault.ScopedExtension | td-master/td/mtproto/TlsInit.cpp:152-153 | a type followed by one scope around the rest is one extension of section 4.2 of RFC 8446 |
| TlsHelloDefault.PartStoresExtension | td-master/td/mtproto/TlsInit.cpp:151-167 | every part of the default program is one extension of a known length, for every domain and random fill |
| TlsHelloBodies.PermutationStores | td-master/td/mtproto/TlsInit.cpp:151-167 | whatever the shuffle, the permutation is a list of extensions, of the fifteen types in shuffled order, each with a body that parses |
| TlsHelloBodies.PartStoresBody | td-master/td/mtproto/TlsInit.cpp:151-167 | the body of every part (host name list, status request, groups, signature algorithms, protocols, key shares and the rest) parses to its last byte, for every domain, grease and key |
| TlsHelloRecord.HostNameHasLength | td-master/td/mtproto/TlsInit.cpp:152-153 | in the header of the default program the host name stands behind its length, wherever the shuffle puts it, whatever the hash and the time |
| TlsHelloRecord.KeyInHeader | td-master/td/mtproto/TlsInit.cpp:151-167 | so does the public key behind its group and length |
| TlsHelloRecord.DefaultFits | td-master/td/mtproto/TlsInit.cpp:139-169 | the default program passes the length pass for every domain, cut to 182 bytes |
| TlsHelloRecord.PaddedParses | td-master/td/mtproto/TlsInit.cpp:139-169 | the hard-coded extension length 403 is what the extensions and the padding of section 3 of RFC 7685 take together |
| TlsHelloRecord.DefaultRecord | td-master/td/mtproto/TlsInit.cpp:139-169 | for every domain, random fill, shuffle, hash and time the result is one TLS record (section 5.1 of RFC 8446) with one ClientHello (section 4.1.2) that a parser consumes to the last byte; with grease as `Grease::init` makes it, no two extensions are of one type (section 4.2), and all their bodies parse to the last byte |
| TlsHelloRecord.GenerateDefaultHeader | td-master/td/mtproto/TlsInit.cpp:486-504 | the whole procedure with the default program, from making the grease on, yields such a record, with the host name, cut to 182 bytes, and the public key in their places; whoever knows the secret can check the hash in it against the header with zeros in its place, and read the time |
| CurveAlgebra.DoublingIdentity | td-master/td/mtproto/TlsInit.cpp:444-464 | the polynomial identity that makes the curve value at the doubled coordinate a square |
| Curve25519.DoublePoint | td-master/td/mtproto/TlsInit.cpp:444-464 | (x^2 - 1)^2 / (4 y^2) is the coordinate of a point whenever x is |
| Curve25519.GetY2 | td-master/td/mtproto/TlsInit.cpp:432-442 | the modular steps compute x^3 + 486662 x^2 + x |
| Curve25519.BasePoint | td-master/td/mtproto/TlsInit.cpp:432-442 | the curve is the one on which 9 is the coordinate of a point (section 4.1 of RFC 7748) |
| Curve25519.GetDoubleX | td-master/td/mtproto/TlsInit.cpp:444-464 | the result times 4 y^2 is (x^2 - 1)^2, and zero where 4 y^2 vanishes and the inversion fails; the coordinate of a point gives the coordinate of a point |
| Curve25519.StoreKey | td-master/td/mtproto/TlsInit.cpp:349-366 | three doublings in a row lead from the candidate to the number that the 32 bytes of the key stand for, low bytes first; it is reduced, and the coordinate of a point |
| Streaming.DrainInPieces | td-master/td/mtproto/TcpTransport.cpp:20-48 | taking out items before the rest of the bytes arrives makes no difference |
| Framing.ReadFromStream | td-master/td/mtproto/TcpTransport.cpp:20-48 | an item and its bytes consumed, or nothing consumed and the size to wait for: with fewer bytes there is no item, and, once the length has arrived, with as many there is one |
| Framing.FrameLayout | td-master/td/mtproto/TcpTransport.cpp:50-73 | the length of message and padding in four bytes, low bytes first, with the request for a quick ack as the highest bit of the fourth |
| Framing.ReadChunks | td-master/td/mtproto/TcpTransport.cpp:20-48 | however the bytes are cut into chunks, the same items come out in the same order, and no complete item is left over |
| Framing.EncodeRoundTrip | td-master/td/mtproto/TcpTransport.cpp:20-73 | every list of messages and quick acks comes back exactly, and what follows is left |
| Framing.PartialItemWaits | td-master/td/mtproto/TcpTransport.cpp:24-42 | a proper prefix of an item is waited for |
| Framing.FrameRoundTrip | td-master/td/mtproto/TcpTransport.cpp:50-73 | a written message is read back as a message if and only if no quick ack was asked for |
| Framing.RequestRoundTrip | td-master/td/mtproto/TcpTransport.cpp:50-73 | the other side reads message, padding and the quick-ack request |
| Framing.WritePrepareInplace | td-master/td/mtproto/TcpTransport.cpp:50-73 | the buffer holds the framed message, or a check failed, and when |
| Obfuscation.AesCtrState.EncryptMessage | td-master/td/mtproto/TcpTransport.cpp:154-162 | the message is encrypted in place with the next stretch of the keystream |
| Obfuscation.CryptBits | td-master/td/mtproto/TcpTransport.cpp:154-162 | a bit is turned over exactly if it is on in the keystream byte at its own position |
| Obfuscation.PlainHeaderShows | td-master/td/mtproto/TcpTransport.cpp:109-112 | in the header before encryption the word at byte 56 is 0xdddddddd with padding and 0xeeeeeeee without, the signed 16-bit number at byte 60 is the data center unless that is 0, and all other bytes are random |
| Obfuscation.InputKeystreamIsShown | td-master/td/mtproto/TcpTransport.cpp:114-131 | the keystream of what arrives has its key in the bytes 55 down to 24 of the header and its counter in the bytes 23 down to 8, so that the peer finds it in the header as sent |
| Obfuscation.ObfuscatedTransport.constructor | td-master/td/mtproto/TcpTransport.cpp:80-143 | the first 56 bytes of the header stay plain and are random, and start like no other protocol unless TLS is emulated; the last 8 are encrypted at their position; both keystreams come from the header itself |
| Obfuscation.ObfuscatedTransport.Write | td-master/td/mtproto/TcpTransport.cpp:154-171 | after every write, the output is the header and all framed messages under one continuous keystream; a message with the room asked for in front and 15 bytes behind is accepted, and in one record grows by exactly that room before rounding |
| Obfuscation.ObfuscatedTransport.DoWriteTls | td-master/td/mtproto/TcpTransport.cpp:173-190 | the splitting loop ends and sends everything in records of at most 2878 bytes |
| Obfuscation.ObfuscatedTransport.DoWriteRecord | td-master/td/mtproto/TcpTransport.cpp:192-213 | one record, after the one ChangeCipherSpec if it is the first, with the header in front if it has not been sent |
| Obfuscation.ObfuscatedTransport.MaxPrependSize | td-master/td/mtproto/TcpTransport.h:124-137 | the room asked for is what a write in one record puts in front, rounded up to a multiple of 4 |
| Obfuscation.RecordsRoundTrip | td-master/td/mtproto/TlsReaderByteFlow.cpp:15-37 | the record reader takes back every payload |
| Obfuscation.UnwrapRecords | td-master/td/mtproto/TcpTransport.cpp:192-213 | after the one ChangeCipherSpec, the record headers come off again |
| Obfuscation.PeerRecovers | td-master/td/mtproto/TcpTransport.cpp:109-162 | from the encrypted stream alone, the other side derives the keystream and recovers the header and every message of every write, nothing lost, repeated or reordered |
| Obfuscation.ObfuscatedTransport.OutputIsReadable | td-master/td/mtproto/TcpTransport.cpp:109-217 | the same from the output of the transport object after any sequence of writes, with or without TLS records of 1 to 2878 bytes; what the peer decrypts tells it the kind of framing and the data center, and the header sent tells it the keystream expected of it |
| ObfuscatedReader.Reader.TakeRecord | td-master/td/mtproto/TlsReaderByteFlow.cpp:15-37 | one record, or too few bytes, or bytes that are no record |
| ObfuscatedReader.Reader.ReadNext | td-master/td/mtproto/TcpTransport.cpp:145-152 | whenever it asks for more bytes, the items delivered are those of everything that has arrived, however it arrived |
| ObfuscatedReader.PeerItemsArrive | td-master/td/mtproto/TcpTransport.cpp:145-152 | items encrypted by the other side, in records of any size, are exactly the items delivered |
| DuplicateChecker.IdDuplicateCheckerOld.Check | td-master/benchmark/bench_misc.cpp:485-502 | the ordered-set checker changes its set as the specification says |
| DuplicateChecker.IdDuplicateCheckerNew.Check | td-master/benchmark/bench_misc.cpp:515-530 | inserting first decides and remembers exactly the same |
| DuplicateChecker.MessageIdDuplicateChecker.Check | td-master/td/mtproto/AuthData.cpp:19-46 | the array is updated in place as the specification says and stays strictly sorted with at most 2N entries |
| DuplicateChecker.MessageIdDuplicateChecker.FindLowerBound | td-master/td/mtproto/AuthData.cpp:38-38 | the search by halving finds the insertion point |
| DuplicateChecker.ArrayRefinesSet | td-master/td/mtproto/AuthData.cpp:19-46 | one identifier shown to array and set: equal windows stay equal, the array accepts what the set accepts, and exactly which more |
| DuplicateChecker.RunsAgree | td-master/benchmark/bench_misc.cpp:588-621 | after every run and for every N >= 1 the last N entries of the array are the set |
| DuplicateChecker.NoReplay | td-master/td/mtproto/AuthData.cpp:19-46 | the array accepts no identifier twice, however many come in between |
| DuplicateChecker.SetNoReplay | td-master/benchmark/bench_misc.cpp:485-530 | nor do the ordered sets |
| DuplicateChecker.RunAnswers | td-master/td/mtproto/AuthData.cpp:19-46 | after every run: an identifier accepted before is answered as already processed while it is remembered and as too old afterwards; only accepted ones are answered as already processed, and too old is only what lies below N or more accepted ones |
| DuplicateChecker.SetRunAnswers | td-master/benchmark/bench_misc.cpp:485-530 | the ordered sets answer as already processed exactly what is in the window, and as too old exactly what lies below a full one |
| DuplicateChecker.ArrayAcceptsMore | td-master/td/mtproto/AuthData.cpp:19-46 | a run of four identifiers whose last one is new to the array and too old for the sets |
| AuthData.NextIdGrows | td-master/td/mtproto/AuthData.cpp:107-125 | for every clock and random number: strictly larger, a multiple of 4, and equal to the server time but for its 22 low bits, unless it is 8 to 8192 above a last identifier that is not behind the time |
| AuthData.EveryIdIsDrawn | td-master/td/mtproto/AuthData.cpp:107-125 | each of the 2^20 identifiers that show the time and are above the last one is drawn for some random number |
| AuthData.AuthData.NextMessageId | td-master/td/mtproto/AuthData.cpp:107-125 | the identifier drawn and remembered has these properties; in units of 2^-32 seconds it is less than 2^22 + 1 below the server time and at most last + 8192 or server time + 2^22, and valid to be sent at once if the last one was not ahead of the clock |
| AuthData.AuthData.NextSeqNo | td-master/td/mtproto/AuthData.h:267-274 | odd for content-related messages, even otherwise, never decreasing |
| AuthData.AuthData.UpdateServerTimeDifference | td-master/td/mtproto/AuthData.cpp:70-83 | the difference plus 0.0001 stays at least every difference observed since the last reset; when exactly the difference kept is less than the one just observed |
| AuthData.AuthData.CheckPacket | td-master/td/mtproto/AuthData.cpp:139-167 | when each refusal happens; accepted identifiers are odd and pairwise distinct over the whole run; a refusal for the time is only ever for one too old; what the clock becomes |
| Container.ContainerRoundTrip | td-master/td/mtproto/CryptoStorer.h:188-203 | a container body parses back into exactly its messages, in order, to the last byte |
| Container.RecordLayout | td-master/td/mtproto/CryptoStorer.h:140-160 | identifier in eight bytes, sequence number and length in four each, low bytes first, then the body |
| Container.ContainerLayout | td-master/td/mtproto/CryptoStorer.h:188-203 | the bytes of a container: its type, the number of messages, the messages |
| Container.InvokeAfterLayout | td-master/td/mtproto/CryptoStorer.h:109-132 | the bytes in front of a query that waits for one or for several others |
| Container.QueryRoundTrip | td-master/td/mtproto/CryptoStorer.h:109-166 | the other side reads back the identifiers to wait for and the packet of a query if and only if there are such identifiers or the packet does not itself begin like a list of them |
| Container.PacketRoundTrip | td-master/td/mtproto/CryptoStorer.h:290-326 | so does a container inside a message |
| Container.SizeIsStored | td-master/td/mtproto/PacketStorer.h:22-35 | the length pass adds up to the bytes written |
| Container.CreateServices | td-master/td/mtproto/CryptoStorer.h:207-238 | the service messages draw growing identifiers in the order in which they are stored |
| Container.FirstKindIsSole | td-master/td/mtproto/CryptoStorer.h:249-287 | if there is one message in all, the chosen type is that message |
| Container.CryptoImpl.constructor | td-master/td/mtproto/CryptoStorer.h:207-288 | a container exactly for several messages or a first query with a bad time; its identifier exceeds, and its sequence number is at least, every inner one; the identifiers written through the get_info, resend and ping pointers each name the one part with that body |
| Container.CryptoImpl.Store | td-master/td/mtproto/CryptoStorer.h:290-326 | the container of all parts, or the one message there is; if its parts are of a size that can be stored, it parses back to exactly them |
| BacktraceTable.AdvancePasses | td-master/memprof/memprof.cpp:178-189 | moving to the next slot keeps what is known of the slots passed; only in a full table does a probe come round to its home |
| BacktraceTable.TakingKeepsTable | td-master/memprof/memprof.cpp:171-176 | a successful exchange keeps hashes unique and reachable from their home through taken slots |
| BacktraceTable.StepKeepsInv | td-master/memprof/memprof.cpp:154-191 | every step of every thread keeps the invariant, for any number of threads |
| BacktraceTable.RunIsSafe | td-master/memprof/memprof.cpp:154-191 | for any number of threads, in every state of every run no hash is in two slots, every hash is reachable, and a slot once taken keeps its hash |
| BacktraceTable.ReachedSlots | td-master/memprof/memprof.cpp:154-191 | a call ends at the slot of its own hash, or of the unknown one once more than half of the slots have been counted; with few enough threads (below 1,999,999 for the ten million slots of the source) nobody aborts |
| BacktraceTable.CallKeepsHash | td-master/memprof/memprof.cpp:154-191 | a call is about one hash from its start to its answer, and a step of one thread leaves the calls of the others alone |
| BacktraceTable.AbortIsReachable | td-master/memprof/memprof.cpp:154-191 | for any start with two threads or more, some run reaches an abort if and only if the threads are not few |
| BacktraceTable.OneSlotPerHash | td-master/memprof/memprof.cpp:154-191 | calls given the slot of one hash, at any two times of a run, are given one slot |
| BacktraceTable.OwnStepAdvances | td-master/memprof/memprof.cpp:158-190 | a call ends after at most 24 times the table size and 11 of its own steps |
| BacktraceTable.OtherStepsKeepRank | td-master/memprof/memprof.cpp:158-190 | other threads never take it back |
| BacktraceTable.CallsNeverWait | td-master/memprof/memprof.cpp:158-190 | a call can always take its next step |
| AllocationAccounting.TruncationIsExact | td-master/memprof/memprof.cpp:229-229 | the 32-bit size is the size exactly below 2^31 |
| AllocationAccounting.SlotsCoverBlocks | td-master/memprof/memprof.cpp:193-211 | the counters of all slots together charge every live block once |
| AllocationAccounting.RecordedIsLive | td-master/memprof/memprof.cpp:327-331 | their sum is the live memory if and only if no live block has 2^31 bytes or more |
| AllocationAccounting.Profiler.Malloc | td-master/memprof/memprof.cpp:215-237 | a new live block is charged to its slot; the assertion fails exactly for a negative 32-bit size |
| AllocationAccounting.Profiler.Free | td-master/memprof/memprof.cpp:252-267 | a live block is freed and its charge taken back, and the counter never underflows |
| AllocationAccounting.Profiler.Realloc | td-master/memprof/memprof.cpp:276-286 | a new block that starts with as much of the old data as the smaller 32-bit size says, and the old one is freed; the assertion fails exactly for a negative 32-bit size |
| AllocationAccounting.ReallocKeepsStart | td-master/memprof/memprof.cpp:276-286 | the start of the old data survives whatever the new block held if and only if neither 32-bit size falls short of it |
| AllocationAccounting.GrowingCanLoseAll | td-master/memprof/memprof.cpp:282-283 | a concrete growth that copies nothing |
| AllocationAccounting.Profiler.UsedMemory | td-master/memprof/memprof.cpp:327-331 | the memory in use, exactly when sizes fit in 31 bits |
| DisjointSet.DisjointSet.Find | td-master/SplitSource.php:3-8 | ends at the root, and compression does not change the partition |
| DisjointSet.DisjointSet.Union | td-master/SplitSource.php:10-21 | merges two sets and no others, whichever way the coin falls |
| SplitSource.LinkedIsEquivalence | td-master/SplitSource.php:165-195 | being linked by chains of shared names is an equivalence |
| SplitSource.LinkFunctions | td-master/SplitSource.php:165-195 | after the loop two functions have one root if and only if a chain of shared names links them |
| SplitFiles.Group | td-master/SplitSource.php:197-207 | each root has the text of its functions, in order, and its length |
| SplitFiles.Spread | td-master/SplitSource.php:210-216 | each set goes to a file that is smallest at that moment; recorded sizes are the lengths |
| SplitFiles.SplitFunctions | td-master/SplitSource.php:160-216 | every function is in exactly one file, linked functions together, each file is the text of its functions |
| GreedyPacking.LoadsCoverAll | td-master/SplitSource.php:212-216 | the files together weigh what the sets weigh |
| GreedyPacking.Balanced | td-master/SplitSource.php:212-216 | two files never differ by more than the largest set |
| GreedyPacking.CloseToAverage | td-master/SplitSource.php:212-216 | the largest file is at most total/chunks + (1 - 1/chunks) of the largest set |
| GreedyPacking.FourThirds | td-master/SplitSource.php:208-216 | largest first: at most 4/3 - 1/(3 chunks) of the largest file of any other assignment of the sets |

## Left out

- `calloc` (a `malloc` whose data are zeros), `dump_alloc` to other callers.
- Sockets, polling, actors, promises, the HTTP transport, DH and RSA: input and output, or foreign calls.
- The other queues of `bench_queue.cpp` and `client_run2`: single slots or kernel objects, right only under ping-pong use.
- Memory orders weaker than sequential consistency, overflow of the eventfd counter, and a put into the plain ring by a
  second writer.
- The benchmark is modelled on the rings with an eventfd, and on no other kind of queue.
- Conditional `#` fields in TL: the emitted storer reads a variable that it has not assigned, so a good schema has none.
  True fields use one of the 32 bits of a flags word.
- TL: the storer type that prints to text, `TlBufferParser`, which may alter invalid strings, and the writers for other
  languages. A value of the C++ type is taken to have no null pointers.
- TlRoundTrip.RoundTrip: the parser of the model has a fuel that bounds the nesting of objects; the result holds for
  every fuel from the height of the value on, and a parser of adversarial input without such a bound is not modelled.
- The TLS program for Darwin, the search for a random curve point and for an acceptable obfuscation header (the outcomes
  are arbitrary accepted values), and the reply to the hello.
- Curve25519.GetDoubleX: that 2^255 - 19 is prime is not proved; an inversion error is taken to mean a zero
  denominator, and Euler's criterion behind the residue test is not part of this model.
- Obfuscation: `derive` stands for the key schedule with the proxy secret; large packets that the connection refuses
  by size are accepted by the reader modelled here.
- AuthData.AuthData.NextMessageId: identifiers do not wrap at 2^64, and the server time is not negative.
- Future salts, authorization keys and the session header.
- The service messages are opaque bodies; gzip is a change of the body made before.
- AllocationAccounting: the counters change one call at a time; capturing and hashing backtraces is left out, and calls
  of `get_ht_pos` have non-zero hashes.
- BacktraceTable.AbortIsReachable: a program with a single thread is left out.
- `SplitSource.php`: cutting the source into functions, matching names and pruning includes; the functions and the lists
  of functions per name are the input.
