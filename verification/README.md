# A model of the network experiment and its support library

The repository measures how a UDP flood changes the round trip times of a file transfer. A client
fetches a file block by block from a server and logs the start and end of every round; a flooder
tells the client when it floods; a parser reads the log back. Underneath lie a hash table, a cache
built on it, a bit-field packer and an append-only log of the machine's environment.

The project states in Dafny what these parts do, step for step, and proves what they are for.

* `Links`, `HashTable`: the chained hash table. The node objects and the bucket array are spliced in
  place; their pointers mirror a pure `Shape`, about which `Links` proves that chains ascend, end,
  and hold exactly the keys of their bucket. Every operation is the operation of a map.
* `CacheSpec`, `CacheRuns`, `Cache`: the cache. `Cache` is the imperative code, `CacheRuns.Step` the
  transition it is proved to make, and the theorems speak of all sequences of operations.
* `Bits`, `Opcode`, `OpcodeDef`: 64-bit opcodes with run-time fields, on machine words.
* `Bytes`, `CaptureFormat`, `CaptureLog`, `Capture`: the environment log, its records, the walk back
  over their trailers, and the program that writes and reads it.
* `Wire`: the protocol messages as bytes and the loops that move them over a connection.
* `Protocol`: one file transfer as a state machine of two threads and two FIFO channels.
* `Flooder`: the flooder's loop and the order of everything it does.
* `Experiment`: all threads together. An `Action` is one step of one of them (a message, a log
  write, a section under the lock, a clock tick), so a `Run` is any interleaving.
* `Threads`: the loops of the server, the client and the listening thread as they are written, each
  proved to be a run of those steps.
* `ControlNote`: the request counter against what the log says of the control note.
* `TimingLog`, `Parser`, `Measurements`: the log as text, the parser's loop, and what it recovers
  from the log of any run.

## Where code and documentation differ

* `compareTimes` is documented as negative when the first time is the earlier one; it computes the
  difference the other way round. The scan of the cache therefore ejects the entry used most
  recently, while the comments promise the least recently used one. `Policy` names both choices;
  `EjectsLeastRecent` says exactly when they agree, `ThirdPutEjects` gives three puts after which
  they differ.
* The byte limit of the cache is kept by every run exactly if it is below 2^31 or the cache holds a
  single item: otherwise the 32-bit sum of the fit test can wrap (`SizeLimit`).
* The display of the environment log finds the first record exactly if the file ended in four zero
  bytes before the first record was appended. On a log that began as an empty file the first record
  is never shown (`WalkFindsFirst`, `DisplaySkipsFirst`). Its sanity check adds 27 in 32 bits, so a
  trailer near 2^32 that holds its own position passes it and is read for ever (`DisplayHangs`); no
  file shorter than 2^32 - 27 bytes can do that (`EndlessNear`).
* A record holds a user, group or host name whole exactly if it is shorter than 256 bytes, the
  range of the length byte (`StoredWhole`).
* The handshake has two messages in flight, not one, between the server's first block and the
  client's reading of the acknowledgement before it: the server does not wait in between
  (`InFlight` gives the exact states, `TwoInFlight` runs that reach one).
* The bound on the counter's decrements holds in all that can follow if and only if the log is open
  when the listening thread handles the control note (`DecrementsAfterControl`). Before the first
  transfer and between two transfers it is not; then the marker is lost and a run breaks the bound
  (`LostControlMarker`, where the log has just been closed).

## Model

| member | source | states |
|---|---|---|
| Links.SpliceOk | lib/cmpsc311_hashtable.c:118-148 | linking a new key between its neighbours keeps every chain of the table ascending, doubly linked and in its bucket |
| Links.UnspliceOk | lib/cmpsc311_hashtable.c:203-222 | so does unlinking a key, wherever it stands in its chain |
| Links.WalkFrom | lib/cmpsc311_hashtable.c:169-175 | following next from a key meets each larger or equal key of its bucket once, in ascending order, and ends |
| Links.ChainSorted | lib/cmpsc311_hashtable.c:61-83 | every chain lists exactly the keys of its bucket, strictly ascending, so chains are acyclic and disjoint |
| Links.StepOn | lib/cmpsc311_hashtable.c:264-289 | the key an iterator reaches next is the least, by bucket and then by key, that it has not returned |
| Links.StepOff | lib/cmpsc311_hashtable.c:264-289 | moving to the next bucket loses no key |
| Links.BucketIs | lib/cmpsc311_hashtable.c:21 | a key below the table size is its own bucket, and adding multiples of the size changes nothing |
| Links.SmallKeysAscend | lib/cmpsc311_hashtable.c:264-289 | keys below the table size are iterated in ascending order |
| HashTable.HTable.constructor | lib/cmpsc311_hashtable.c:40-51 | a new table is empty and well linked |
| HashTable.HTable.Find | lib/cmpsc311_hashtable.c:164-179 | find is map lookup, although it stops at the first larger index |
| HashTable.HTable.Insert | lib/cmpsc311_hashtable.c:95-154 | insert is map update and refuses exactly a present index, where the original asserts; the element counter counts the entries, modulo 2^32 |
| HashTable.HTable.InsertPoint | lib/cmpsc311_hashtable.c:101-116 | the walk of an insertion ends between the two neighbours the new key must have |
| HashTable.HTable.Delete | lib/cmpsc311_hashtable.c:189-231 | delete is map removal and returns what was stored; the counter still counts the entries |
| HashTable.HTable.FindNode | lib/cmpsc311_hashtable.c:195-201 | the walk of a deletion ends at the node of the index, if there is one |
| HashTable.SpliceIn | lib/cmpsc311_hashtable.c:118-148 | the pointer updates of an insertion make the heap mirror the spliced shape |
| HashTable.SpliceOut | lib/cmpsc311_hashtable.c:203-222 | the pointer updates of a deletion make the heap mirror the unspliced shape |
| HashTable.HtIterator.constructor | lib/cmpsc311_hashtable.c:245-253 | a fresh iterator has every key still to return |
| HashTable.HtIterator.Iterate | lib/cmpsc311_hashtable.c:264-289 | a call returns the block of the least key still to return, or nothing exactly when none is left, then and on every later call |
| HashTable.HtIterator.StepInChain | lib/cmpsc311_hashtable.c:266-276 | inside a chain it returns the next key or moves to the next bucket, losing nothing |
| HashTable.HtIterator.FirstNonEmpty | lib/cmpsc311_hashtable.c:278-288 | at a bucket it returns the head of the first chain that is not empty, which is the least key left |
| HashTable.IterateAll | lib/cmpsc311_hashtable.c:245-289 | repeated calls return every stored block exactly once, in bucket and then key order, as many as the counter says; keys below the table size come in ascending order |
| HashTable.Cleanup | lib/cmpsc311_hashtable.c:61-83 | cleanup frees every block exactly once, in that order, and empties every bucket |
| CacheSpec.CompareTimes | lib/cmpsc311_util.c:181-193 | both branches compute the difference in microseconds, second time minus first |
| CacheSpec.CompareTimesIs | lib/cmpsc311_util.c:181-193 | a second counts a million microseconds, and the result is positive when the second time is the later |
| CacheSpec.VictimExists | lib/cmpsc311_cache.c:346-353 | a cache that is not empty always has an entry to eject |
| CacheSpec.VictimUnique | lib/cmpsc311_cache.c:346-353 | there is one only: first in iteration order among those with the extreme stamp |
| CacheSpec.EjectsLeastRecent | lib/cmpsc311_cache.c:186-191 | the entry ejected is a least recently used one if and only if all stamps are equal |
| CacheSpec.EjectsMostRecent | lib/cmpsc311_cache.c:345-353 | an entry touched after all others is the one ejected |
| CacheSpec.RoomIsMade | lib/cmpsc311_cache.c:219-226 | the eject loop ends with room for the item after the shortest run of ejections that makes it |
| CacheSpec.EjectShrinks | lib/cmpsc311_cache.c:219-226 | what the loop leaves is part of what was there, with the same buffers |
| Cache.Scan | lib/cmpsc311_cache.c:345-353 | the scan over the iterator ends at the victim of the policy as written |
| Cache.Supersedes | lib/cmpsc311_cache.c:350-352 | the test of the scan on the objects is the comparison of their stamps |
| Cache.FirstEntry | lib/cmpsc311_cache.c:133-137 | a fresh iterator finds an entry exactly if the cache holds one |
| Cache.Cache.Init | lib/cmpsc311_cache.c:72-106 | init makes the transition of the state machine, error returns included |
| Cache.Cache.Put | lib/cmpsc311_cache.c:181-245 | put makes the transition: checks, ejections, insertion, the buffers freed, and the assertion on a present cid |
| Cache.Cache.MakeRoom | lib/cmpsc311_cache.c:219-226 | the eject loop always ends, never takes its error exit, and leaves what the shortest run of ejections leaves |
| Cache.Cache.InsertEntry | lib/cmpsc311_cache.c:235-244 | the insertion adds exactly the new entry and keeps counters and table in agreement |
| Cache.Cache.Get | lib/cmpsc311_cache.c:255-278 | get makes the transition: the buffer stored and a stamp equal to the clock reading, or nothing |
| Cache.Cache.Delete | lib/cmpsc311_cache.c:288-320 | delete makes the transition: the entry goes and its buffer is handed back |
| Cache.Cache.Eject | lib/cmpsc311_cache.c:333-370 | eject removes the victim, frees its buffer and fails only on an empty or closed cache |
| Cache.Cache.TakeOut | lib/cmpsc311_cache.c:300-314 | the removal common to delete, eject and close: one entry leaves table and counters, and it had not been freed before |
| Cache.Cache.Close | lib/cmpsc311_cache.c:116-168 | close makes the transition: every buffer and every entry held is freed once, the cleanup of the table then frees no entry again, and the cache is closed |
| Cache.Cache.Drain | lib/cmpsc311_cache.c:129-151 | its loop takes exactly as many rounds as there are items, with no error exit, frees every entry, and leaves table and counters empty |
| CacheRuns.RunGood | lib/cmpsc311_cache.c:181-370 | in every run the cache is a sub-map of an unbounded map, within its item limit, and every buffer given is held, handed back or freed |
| CacheRuns.HitIsLatest | lib/cmpsc311_cache.c:255-320 | in every run a hit is had exactly for a cid the cache holds, and gives the buffer of the latest put of it not deleted since |
| CacheRuns.StampIsLatest | lib/cmpsc311_cache.c:233-270 | in every run each entry carries the clock reading of the latest put or get of its cid |
| CacheRuns.PutAnswers | lib/cmpsc311_cache.c:201-217 | a put of an absent cid succeeds exactly for a buffer that is not null and of 1 to max bytes; otherwise nothing changes |
| CacheRuns.NoDoubleFree | lib/cmpsc311_cache.c:116-168 | in every run a buffer given once is freed at most once, and once freed it is neither held nor handed back |
| CacheRuns.JustUsedIsEjected | lib/cmpsc311_cache.c:266-273 | a hit at the latest time makes its entry the next victim of the code; under the documented policy it does so only for an entry that is alone |
| CacheRuns.ThirdPutEjects | lib/cmpsc311_cache.c:186-226 | of three puts at rising times into a cache for two, the code keeps the first and the third; the documented policy would keep the last two |
| CacheRuns.VanishesOnlyBy | lib/cmpsc311_cache.c:116-370 | an entry goes only by its delete, by close, or as the victim of an ejection that was needed |
| CacheRuns.SizeLimit | lib/cmpsc311_cache.c:214-237 | all runs keep the byte limit if and only if it is below 2^31 or the cache holds one item |
| CacheRuns.OverfillExceeds | lib/cmpsc311_cache.c:219-221 | two items of 2^31 bytes fit together into any cache with a larger limit and room for two |
| Opcode.ShiftInBit | lib/cmpsc311_opcode.c:274-293 | shifting a value in replaces the field's bits, masked, and no other bit |
| Opcode.ShiftOutBit | lib/cmpsc311_opcode.c:305-319 | shifting a value out gives the field's bits at the bottom and zeros above |
| Opcode.OutOfIn | lib/cmpsc311_opcode.c:274-319 | a value that fits is read back as it was set |
| Opcode.OutOfOther | lib/cmpsc311_opcode.c:274-319 | setting one field does not change what is read from a disjoint one |
| Opcode.LaidApart | lib/cmpsc311_opcode.c:112-125 | the fields of every layout occupy pairwise disjoint bits |
| Opcode.LaidCovers | lib/cmpsc311_opcode.c:112-125 | together they cover exactly the used bits from the top |
| Opcode.WidthsShiftable | lib/cmpsc311_opcode.c:112-125 | with widths of 1 to 63 no access shifts by 64 |
| Opcode.SetIsUpdate | lib/cmpsc311_opcode.c:194-230 | a set is one update of the map of field values |
| Opcode.FitsIs | lib/cmpsc311_opcode.c:207-216 | a value is accepted for a width exactly if all its higher bits are zero |
| Opcode.Answers | lib/cmpsc311_opcode.c:194-262 | a set is carried out exactly if the first field of that id has room for the value, a get exactly if there is such a field |
| Opcode.StepSimulates | lib/cmpsc311_opcode.c:194-262 | each set or get, rejected ones included, does what it would on a map, and leaves bits outside the layout alone |
| Opcode.RunSimulates | lib/cmpsc311_opcode.c:194-262 | so does every sequence of them |
| Opcode.SameValues | lib/cmpsc311_opcode.c:112-125 | in a layout of all 64 bits, opcodes that agree on all fields are equal |
| Opcode.CopiedValues | lib/cmpsc311_opcode.c:194-262 | copying some fields from one opcode to another changes those and no others |
| Opcode.Rebuild | lib/cmpsc311_opcode.c:194-262 | reading all fields of an opcode and setting them, in any order, into any other rebuilds it |
| OpcodeDef.Definition.constructor | lib/cmpsc311_opcode.c:57-80 | a new definition has an empty layout |
| OpcodeDef.Definition.AddField | lib/cmpsc311_opcode.c:93-129 | a field is turned down exactly for a name or id in use or for lack of bits, and is otherwise laid below the others; a field that fills the 64 bits exactly is accepted |
| OpcodeDef.NarrowUsable | lib/cmpsc311_opcode.c:112-125 | a layout of fields of 1 to 63 bits can be accessed throughout |
| OpcodeDef.TwoFields | lib/cmpsc311_opcode.c:93-129 | two fields can be added that fill the 64 bits, the first from the top, the second with all that is left |
| OpcodeDef.Definition.Set | lib/cmpsc311_opcode.c:194-230 | the search and the checks of a set choose the first field of that id |
| OpcodeDef.Definition.Get | lib/cmpsc311_opcode.c:243-262 | so do those of a get |
| Bytes.MemoryRoundTrip | proto/proto.c:9-11 | the four bytes of an integer in memory give the integer back |
| CaptureFormat.WordRoundTrip | lib/cmpsc311_capture.c:178-183 | conversion to network order before writing is undone by the one after reading |
| CaptureFormat.MaskTwice | lib/cmpsc311_capture.c:196-219 | masking with 0xca is its own inverse |
| CaptureFormat.MaskFlips | lib/cmpsc311_capture.c:195-198 | masking flips bits 1, 3, 6 and 7 of a byte and leaves the others |
| CaptureFormat.NameAt | lib/cmpsc311_capture.c:191-221 | a name is stored as its length byte and its bytes, each with those bits flipped |
| CaptureFormat.RecordLayout | lib/cmpsc311_capture.c:172-226 | where each entry of a record lies |
| CaptureFormat.WordBytes | lib/cmpsc311_capture.c:178-183 | numbers are stored most significant byte first, negative ones in two's complement |
| CaptureFormat.RecordShape | lib/cmpsc311_capture.c:185-225 | a record has at least 27 bytes and ends in its own offset |
| CaptureFormat.ParseRecordFront | lib/cmpsc311_capture.c:277-370 | parsing a written record gives its entries and the bytes behind it |
| CaptureFormat.StoredWhole | lib/cmpsc311_capture.c:191-221 | nothing of an entry is lost if and only if all three names are shorter than 256 bytes |
| CaptureLog.WalkFindsFirst | lib/cmpsc311_capture.c:256-273 | for every log under 2^32 bytes the walk back stops at the first record if and only if the file before it ended in four zeros; for a file of one to three bytes, if the read that wraps around to the end of the log finds zeros |
| CaptureLog.FirstIsLost | lib/cmpsc311_capture.c:256-273 | on a file that was empty the walk stops behind the first record |
| CaptureLog.StopsAtOnce | lib/cmpsc311_capture.c:261-266 | the walk stays where it is exactly where the read before it finds zeros |
| CaptureLog.TrailerOutside | lib/cmpsc311_capture.c:262-263 | a trailer read before the start of the file leaves the old offset, byte-swapped |
| CaptureLog.TrailerZero | lib/cmpsc311_capture.c:262-263 | that read gives zero behind four zeros, or below offset 4 where the wrapped position finds zeros |
| CaptureLog.WalkStops | lib/cmpsc311_capture.c:258-273 | from the end of appended records the walk steps over every one of them |
| CaptureLog.EndlessNear | lib/cmpsc311_capture.c:266 | the walk can run for ever only from an offset of 2^32 - 27 or more |
| CaptureLog.DisplayHangs | lib/cmpsc311_capture.c:256-273 | it does on one that ends in its own length |
| CaptureLog.BadFiles | lib/cmpsc311_capture.c:258-273 | for every file under 2^32 - 27 bytes: it is bad exactly if the walk meets a trailer that is not zero and less than 27 bytes back; the display then returns -1 and shows nothing |
| CaptureLog.CutRecord | lib/cmpsc311_capture.c:277-363 | a log that is a single record cut off anywhere behind its time gives an error and nothing else |
| CaptureLog.ParseAppended | lib/cmpsc311_capture.c:275-386 | the forward parse of appended records gives them in order and ends without an error |
| CaptureLog.DisplayReturnsAll | lib/cmpsc311_capture.c:250-398 | after four zeros, the display returns exactly the records appended, byte order and mask undone |
| CaptureLog.DisplaySkipsFirst | lib/cmpsc311_capture.c:250-398 | on a log begun as an empty file it returns all but the first |
| Capture.MaskInPlace | lib/cmpsc311_capture.c:195-198 | the masking loop masks the string in its buffer and nothing behind it |
| Capture.WriteName | lib/cmpsc311_capture.c:191-200 | length byte and masked name are written as the record format says, whatever the length |
| Capture.EnvironmentCapture | lib/cmpsc311_capture.c:172-226 | one call appends exactly the record of what it was given, whose bytes are pinned by `RecordLayout`, `NameAt` and `MaskFlips` |
| Capture.Reader.ReadName | lib/cmpsc311_capture.c:300-315 | a name is read and unmasked, or found cut off |
| Capture.Reader.ReadRest | lib/cmpsc311_capture.c:279-370 | reading entry by entry is parsing the record, failing where it is cut off |
| Capture.FindFirst | lib/cmpsc311_capture.c:256-273 | on every file the loop ends where the walk does, reports a bad file, or reads one trailer for ever |
| Capture.ReadRecords | lib/cmpsc311_capture.c:275-393 | the reading loop returns and logs what the parse says, up to a record cut off |
| Capture.DisplayLog | lib/cmpsc311_capture.c:250-398 | on every file the program returns and logs what the specification says |
| Wire.MarshallInverse | proto/proto.c:7-20 | marshall and unmarshall are mutual inverses |
| Wire.MarshalledLayout | proto/proto.c:7-14 | the type comes first, least significant byte first, then the bytes of the block |
| Wire.Marshall | proto/proto.c:7-14 | the buffer holds the bytes of the message; a null buffer is refused |
| Wire.Unmarshall | proto/proto.c:16-20 | the structure holds the message of the bytes |
| Wire.SendBytes | lib/cmpsc311_network.c:297-323 | however writes split, success means all bytes went out in order, failure that a proper prefix did |
| Wire.ReadBytes | lib/cmpsc311_network.c:335-362 | however reads split, success means the buffer holds exactly the next bytes of the stream |
| Wire.StreamRoundTrip | proto/proto.c:7-20 | a sequence of messages comes out of its byte stream as it went in, with no byte left over |
| Wire.SendMessage | server/server.c:70-73 | sending a message appends its bytes to the stream |
| Wire.ReceiveMessage | server/server.c:62-64 | receiving one takes it off the stream |
| Wire.StreamMore | server/server.c:85-94 | messages sent one after the other make the stream of the whole sequence |
| Wire.SendAll | server/server.c:85-94 | messages sent one after the other, however writes split, make the stream of the sequence |
| Wire.ReceiveAll | client/client.c:102-109 | messages received one after the other, however reads split, are the first of the stream, and the rest is left |
| Wire.ReceivedMore | client/client.c:102-109 | one more message taken off the stream is the next one |
| Wire.Deliver | lib/cmpsc311_network.c:297-362 | sent over one end and received at the other, a sequence arrives as it was sent, with no byte left over |
| Protocol.OpenedOk | client/client.c:80-90 | the invariant of a transfer holds when it begins |
| Protocol.ClientKeeps | client/client.c:73-145 | every step of the client keeps it |
| Protocol.ServerKeeps | server/server.c:45-113 | every step of the server keeps it |
| Protocol.NoFailureNoDeadlock | server/server.c:62-103 | no assertion about message types fails, and one side can move until both are done |
| Protocol.InFlight | server/server.c:70-94 | never more than two messages are in flight; two exactly while the first answer and the message behind it are both unread |
| Protocol.TwoInFlight | server/server.c:70-94 | for every file there is a run with two in flight |
| Protocol.TransferComplete | client/client.c:73-145 | in any interleaving a file of n bytes takes ceil(n/8096) blocks, twice that and 4 messages, one END round more than blocks, and always the same number of steps |
| Protocol.BlocksHold | proto/proto.h:7 | the blocks of a file are the least number that hold it: one for 8096 bytes, two for 8097 |
| Flooder.FlooderRun.RunCycle | flooder/flooder.c:90-153 | a cycle does exactly START, CONTRO when first due, 60 seconds after the start, datagrams until a clock reading reaches the end of the time given, ENDIN; both byte counters are multiples of the datagram size and sent never exceeds tried |
| Flooder.FlooderRun.Run | flooder/flooder.c:90-153 | any number of cycles keeps the order of events |
| Flooder.FlooderRun.Flood | flooder/flooder.c:134-147 | the loop sends datagrams as long as the reading before each is below the end time |
| Flooder.DatagramAt | flooder/flooder.c:134-147 | the datagrams of a cycle are those tried, in order, each with its outcome |
| Flooder.DeliveredAre | flooder/flooder.c:138-145 | those counted as sent are the ones whose write did not fail |
| Flooder.NotesInCycles | flooder/flooder.c:101-151 | the notes are cycles of START, at most one CONTRO in all, ENDIN |
| Flooder.DatagramsOnlyWhileFlooding | flooder/flooder.c:109-149 | a datagram follows a START with no note in between, and an ENDIN comes between it and any CONTRO, which is later |
| Experiment.StepOk | client/client.c:36-162 | every step of every thread keeps all invariants of the experiment |
| Experiment.RunOk | client/client.c:36-162 | so every state of every interleaving has them |
| Experiment.TransfersSafe | client/client.c:73-145 | in every interleaving no type assertion fails, and a finished transfer has logged one END for each block and one for the end of the file |
| Experiment.ExitBalance | client/client.c:46-71 | when the request loop exits, the increments are fewer than the decrements, which exceed them by at most the END lines of the last transfer |
| Experiment.BoundedBefore | client/client.c:155-162 | with the control marker in the log the decrements are at most one more than the END lines after it; before flooder_state is set there are none |
| ControlNote.OpenLogKeepsBound | client/main.c:46-52 | if the log is open when the control note is handled, every state that follows keeps the bound |
| ControlNote.ClosedLogBreaksBound | client/main.c:46-52 | if it is closed, a run follows that breaks it |
| ControlNote.DecrementsAfterControl | client/client.c:155-162 | in every interleaving: no decrement before the control note is handled, and the bound in all that follows if and only if the log is open then |
| ControlNote.LostControlMarker | client/main.c:46-52 | a run that completes a transfer, handles the control note after it, and then breaks the bound |
| Experiment.LoopWindsDown | client/client.c:46-71 | once flooder_state is set, each new transfer lowers the number still possible, and each step within one brings its end nearer |
| Experiment.FewTransfersAfterControl | client/client.c:46-54 | from then on at most counter + 1 transfers begin |
| Experiment.NeverStuck | client/client.c:46-54 | until it exits, the request loop or its server can always move |
| Experiment.CanComplete | client/client.c:73-145 | from every reachable state inside a transfer, client and server alone can finish it |
| Threads.ServerFunc | server/server.c:45-113 | the server's loop, on any messages and any file, is a run of server steps up to where it cannot go on; it has then sent one block more than were acknowledged, or all of them and the completion |
| Threads.SendFile | server/server.c:85-102 | its loop sends one block more than were acknowledged, and ends normally exactly if all were |
| Threads.Client.LogRequestStart | client/client.c:147-153 | the log grows by a START line carrying the clock just read, as one step of the model |
| Threads.Client.LogRequestEnd | client/client.c:155-162 | the log grows by an END line carrying the clock just read, and then the counter is updated, two steps |
| Threads.Client.UpdateRequestCounter | client/client.c:58-71 | up by one before the control note, down by one after it |
| Threads.Client.RequestFile | client/client.c:84-98 | request and acknowledgement are the client's first two steps |
| Threads.Client.SendRequest | client/client.c:73-145 | the client's loop, on any messages, is a run of client steps up to its end or to where it cannot go on; it has then answered every message up to the completion or the first odd one |
| Threads.Listener.FlooderChecks | client/main.c:30-55 | the listening loop, with any steps of the other threads between its own, is a run of the experiment and handles every note given, in order |
| Threads.Listener.HandleNote | client/main.c:38-52 | the marker is written if the log is open at that moment; flooder_state is set after the control marker |
| Threads.Listener.Others | client/main.c:33-53 | what the other threads do leaves the note in hand and those handled alone |
| TimingLog.DigitsReadBack | client/client.c:151 | decimal time stamps read back as printed |
| TimingLog.DecimalDigits | client/client.c:151 | numbers are printed in decimal, most significant digit first |
| TimingLog.LinesWritten | client/client.c:147-160 | the five kinds of lines as they stand in the file |
| TimingLog.ReadBack | analysis/parser/data_parser.py:38-49 | the parser's tests on a line recognise each of the five kinds of lines written, with its time |
| TimingLog.LogRoundTrip | analysis/parser/data_parser.py:34-37 | reading the log file line by line gives the log |
| TimingLog.TextAppended | client/client.c:152 | each write appends one line to the file |
| Parser.ParseClientTimes | analysis/parser/data_parser.py:22-57 | on any text the loop gives six lists, each of exactly the points of the END lines whose markers before them put them there, and raises exactly if a time is unreadable or an END precedes every START |
| Parser.MarkOfEnd | analysis/parser/data_parser.py:48-51 | there is one data point for each END line, in order, measured from the latest START before it |
| Parser.PointOfEnd | analysis/parser/data_parser.py:44-51 | its round trip time is its end less the last start, and its place on the time axis the seconds from the first start that is not zero to that one |
| Parser.LabelsOfEnd | analysis/parser/data_parser.py:38-43 | it counts as under the flood exactly if a FLOODER_START stands behind every FLOODER_END before it, and as control exactly if a FLOODER_CONTROL stands before it |
| Parser.ListsAre | analysis/parser/data_parser.py:52-57 | each of the six lists holds exactly the points of the END lines with its labels, in order |
| Parser.UnmarkedRound | analysis/parser/data_parser.py:31-56 | a round before any marker is filed under the flood |
| Parser.ParsesIs | analysis/parser/data_parser.py:44-51 | no exception is raised exactly when every time can be read and a START precedes every END |
| Parser.LastStartIs | analysis/parser/data_parser.py:44-45 | the start of a point is the last one with none after it |
| Parser.NoStart | analysis/parser/data_parser.py:44-45 | there is none exactly when no START precedes |
| Parser.FirstStartIs | analysis/parser/data_parser.py:46-47 | time is counted from the first START whose time is not zero |
| Parser.FlooderOnIs | analysis/parser/data_parser.py:38-41 | a point counts as taken under the flood exactly if no FLOODER_END stands after the last FLOODER_START, at the beginning too |
| Parser.OneMoreSorted | analysis/parser/data_parser.py:52-56 | each point goes to the full list and one of the other two, of the experiment or of the control |
| Parser.ListsMerge | analysis/parser/data_parser.py:52-56 | the lists with and without the flood merge, in order, to the full list, for experiment and control |
| Measurements.RoundsRecovered | analysis/parser/data_parser.py:44-51 | from any log in which the client's lines are its rounds, each round is recovered, whatever markers stand between |
| Measurements.ParserRecoversRounds | analysis/parser/data_parser.py:22-57 | for every interleaving, parsing the log file succeeds and gives one point per END with the round trip time of the round that ended there |
| Measurements.StepWrites | client/client.c:147-162 | a step of the client at a start or end writes the clock as it stands, the listening thread a marker if the log is open, every other step nothing |
| Measurements.StampedWhenWritten | client/client.c:147-162 | in every interleaving each START and END line carries the clock at the moment it was written |
| Measurements.LabelsFollowNotes | client/main.c:38-52 | at every moment of every run both labels follow the flooder's notes whose markers reached the log, the latest START or ENDIN deciding |
| Measurements.MarkersAreNotes | client/main.c:38-52 | if no marker was lost, the markers are the flooder's notes in the order sent, up to those still on their way |

## Left out

- HashTable.HTable.Insert: the cookie check of the nodes and a failed allocation, which end the program; indices are unbounded rather than 64-bit, since the table only compares them and takes remainders.
- HashTable.HTable.Delete: the memory behind a freed node; a node that left the table is simply not part of it any more.
- CacheSpec.CompareTimes: overflow of the long result, for stamps some 290000 years apart.
- Cache.Cache.Put: when the duplicate assertion ends the program the contract states the reply only; the clock's reading is a parameter, and buffers are numbers of which zero is the null pointer.
- Opcode.RunSimulates: fields of width 0 or 64 are excluded for accesses, because C leaves a shift by 64 undefined.
- OpcodeDef.Definition.AddField: adding an acceptable field to a full table, where the original writes past its array; `release_opcode_definition` and the functions that print opcodes.
- CaptureLog.WalkFindsFirst: logs of 2^32 bytes and more, where a record's 32-bit trailer no longer names a place in the file.
- Capture.EnvironmentCapture: where the entries come from (clock, user database, network) and errors when opening or writing the log.
- Capture.DisplayLog: the layout of the printed line; the entries printed are its result. Where the original reads one trailer for ever, the model returns `Hangs`.
- Protocol.ClientKeeps: failing reads and writes, whose return codes client and server ignore, and the contents of blocks, which the server blanks before it sends them. A message is its type. States of the two concurrent threads are values; the loops that update variables in place are in `Threads`.
- Experiment.RunOk: each write to the timing log is one step; between transfers the log is closed and a marker written then is lost, whatever other file has taken its descriptor. Clocks are inputs that never go back. The counter and its bounds are unbounded integers.
- Threads.Client.SendRequest: setting up the connection and the outer loop, which are the steps Connect and Leave of `Experiment`.
- Flooder.FlooderRun.RunCycle: sleeping and spinning, which only let time pass; failures of the notes to the client; the byte counters do not wrap. The run stops where the given clock readings end.
- Parser.ParseClientTimes: rounding of floating-point numbers, forms of numbers other than the decimal digits the client prints, white space outside ASCII, and which exception is raised.
- Socket setup, signals, argument parsing, thread creation and the main functions: system calls without an algorithm.
- The noise generator, the packet sink, the plotting and statistics scripts, logging, gcrypt and curl wrappers, byte swapping of 64-bit words: plumbing with no algorithm of its own.
