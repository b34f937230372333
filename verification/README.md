# Models and proofs for comserv and lib330

`comserv` receives framed packets of seismic data from a digitizer, keeps them in rings of
shared memory and hands them to client programs, some of which may block the server until they
have acknowledged a packet. `lib330` talks to a newer digitizer: it compresses samples into
Steim-2 records (SEED Reference Manual, Appendix B), decompresses and reframes those that arrive
compressed, builds archive records, runs event detectors and the boolean equations over them, and
serves recent data from a bounded pool of memory.

This project restates the parts of the two programs with the most state and the most branching in
Dafny, and proves what they are for. Code that updates things in place is a class or a method over
arrays and fields, proved against a function on values; the laws are lemmas about those functions.

`dafny verify dfyconfig.toml` checks everything.

| part | modules |
|---|---|
| packet rings, requests | `RingModel`, `ServerModel`, `Delivery`, `DeliveryRuns`, `Answers`, `PacketRings` |
| blocking clients over whole runs | `ExactDelivery`, `ClientStarts`, `WedgedClients`, `LateDelivery` |
| the table of clients | `ClientModel`, `ClientRuns`, `ClientTable` |
| Steim-2 records | `SteimModel`, `SteimCodec`, `SteimFrames`, `SteimStandard`, `Steim`, `SteimRecords`, `SteimReframe`, `SteimReadings`, `SteimBlockettes` |
| control-detector equations | `ControlModel`, `ControlCompiler`, `ControlDetector` |
| the serial link | `Crc`, `FrameModel`, `Framing`, `ReceiverModel`, `ReceiverRuns`, `ReceiverDelivery`, `Receiver`, `Upload`, `TxRing` |
| memory of the data server | `MemoryModel`, `MemoryManager` |
| archive records, continuity cache | `ArchiveModel`, `Archive`, `OpaqueLinks`, `Continuity` |
| message digest, threshold detector | `Md5Model`, `Md5`, `Threshold` |
| shared | `Options`, `Bytes`, `Circle`, `Lists` |

## Where the code falls short of what one would expect

Each of these is a lemma with a concrete input, or one half of an "exactly when".

- A queue can look empty to a client although it is not: its cached cursor is on an element that
  was discarded, is now `head`, and still shows the old packet number. `Delivery.NextScanExact`
  says that a continuing request sees all of a queue exactly when this is not so. A client that
  blocks from the start never gets there (`ClientStarts.ReservedClientExact`). One that begins to
  block later, as after a timeout, gets every packet exactly once if the answer to CSQ_FIRST it
  goes on from considered a packet (`ClientStarts.FirstExact` for the exact condition,
  `ClientStarts.LateClientExact` for the run). If that answer was empty, a queue can wedge exactly
  when it holds two packets from before (`WedgedClients.WedgeExact`): from then on it refuses
  packets, and none of it is ever served to the client (`WedgedClients.WedgeStays`). Any fresh
  server with a queue of three elements gets there (`WedgedClients.WedgedQueue`).
- The frame that a link packet announced as the first one, if it comes while a ring is blocked, is
  refused but marks the sequence as valid; when it is sent again it is acknowledged without ever
  being filed. With an older digitizer, which announces nothing, the refused frame is out of
  sequence from then on (`ReceiverRuns.LostStart`, and `ReceiverRuns.FromStart` for the exact
  condition).
- A chunk of memory that lies directly before the first free segment is lost, because the head of
  the list stays where it was (`MemoryManager.ChunkBeforeHead`); the second free segment then points
  back at the chunk, and can be handed out twice (`MemoryManager.HandedOutTwice`).
- The digest's length field is that of RFC 1321 exactly when bit 31 of the number of bits is clear
  (`Md5Model.HighExact`).
- An equation with more than fifty operators needs a temporary that the evaluator does not have
  (`ControlDetector.EquationOutcome`); a NOT right behind a left parenthesis negates everything in
  the parentheses (`ControlDetector.NotBehindParenthesis`).
- The compressor's magnitude test lets one difference through that does not fit thirty bits, the
  most negative word (`SteimCodec.WidestExact`).
- Of a group of outgoing packets larger than the ring of 64 the first are written over by the last; the
  configuration file limits the size, a client's command does not (`TxRing.Ring.SendTxPacket`, and
  `TxRing.PutExact` for what is written over). The count of waiting packets has 16 bits: with a group
  size above 32767 it goes negative, and all that was waiting is lost (`TxRing.CountExact`).
- A blockette of compressed words, each with a code and going on from the last sample of the record, is
  filed as the samples decompressed from it exactly when it fits (`SteimBlockettes.Fits`, `SteimBlockettes.ProcessBlockette`): nothing was decompressed, or every word
  looked into has a valid subcode and room, and those words are all there are or fill the buffer at the
  end of a frame. A word without a valid subcode, or samples beyond the buffer, drop the whole
  blockette, although its samples are counted as there (lib330/libcompress.c:337, 358,
  lib330/libsample.c:739, 901): nothing is filed, the last sample is what lies in front of the buffer,
  and a record that was to start has the dropped blockette's first sample and no words
  (`SteimBlockettes.InvalidWord`, `SteimBlockettes.DroppedUnread`). Words behind those that fill the
  buffer are filed by indexes of some blockette before (`SteimBlockettes.WordsBehind`).
- A word with code zero is decompressed as four samples, but a reader of the record passes over it: it
  has the same samples exactly when every word has a code (`SteimReadings.ReaderExact`,
  `SteimReadings.WordWithoutCode`).
- A blockette whose previous sample is not the last one of the record being built is filed all the
  same, and a reader gets other samples than those decompressed (`SteimReadings.ContinuesExact`, and
  the last condition of `SteimBlockettes.ProcessBlockette`).
- The header of an archive record says at which byte the data begin, and readers go by it
  (clients.ucb/cs2ringserver/cs2ringserver.c:249). It is moved up with the data (lib330/libarchive.c:208-215), but
  when a record with blockettes joins an archive of blockettes only, there are none to be moved: from
  then on it leads to a blockette. It is right exactly when blockettes come with the first record or
  behind data (`ArchiveModel.FirstDataExact`, `ArchiveModel.FirstDataBehind`), and a reader gets the
  samples exactly then, or when there are none (`ArchiveModel.SeriesFound`).

## Model

| member | source | states |
|---|---|---|
| `RingModel.PutLive` | comserv_src/buffers.c:81-99 | storing appends the packet behind the live ones; the oldest one goes only when the ring is full |
| `RingModel.AvailMeaning` | comserv_src/buffers.c:102-114 | a ring refuses a packet exactly when it is full and its oldest packet still waits for a client |
| `RingModel.PutValid` | comserv_src/buffers.c:81-99 | storing keeps packet numbers rising from tail to head and below the counter, free elements unblocked, and discards no packet that still has a bit |
| `RingModel.AckMeaning` | comserv_src/commands.c:281-309 | an acknowledge pass goes over live packets below the client's number only, stops at the first that is not, takes away just the client's bit and caches where it stopped |
| `RingModel.SamePacketsValid` | comserv_src/commands.c:281-309 | taking bits away leaves a ring valid, with the same numbers and data in the same order |
| `RingModel.FromIsOwed` | comserv_src/commands.c:317-327 | what a queue has from a scan position on is what it holds from a packet number on, when the position splits it there |
| `ServerModel.BestIsLowest` | comserv_src/commands.c:319-327 | the queue picked has the lowest next number of all selected queues, and one is picked whenever one has a packet |
| `ServerModel.TakenSplits` | comserv_src/commands.c:317-372 | a request considers a prefix of the merged queues and leaves the rest |
| `ServerModel.TakenInOrder` | comserv_src/commands.c:317-372 | packets considered rise strictly over all six queues, none below where the request starts |
| `ServerModel.LeftAbove` | comserv_src/commands.c:317-372 | what is left in each selected queue is exactly what lies above the last packet considered |
| `ServerModel.MergeAppend` | comserv_src/commands.c:312-327 | a newer packet comes last in the merge, whichever queue it is in |
| `Delivery.ScanKeeps` | comserv_src/commands.c:254-311 | a scan of one queue keeps its packets and takes only the client's own bit, only from packets below its number |
| `Delivery.NextScanExact` | comserv_src/commands.c:281-309 | a continuing request sees all of a queue from its number on, and nothing else, exactly when the cursor is not on a stale head |
| `DeliveryRuns.StoreSound` | comserv_src/buffers.c:81-99 | storing keeps six valid rings without common packet numbers and every client's cursors meaningful |
| `DeliveryRuns.RequestSound` | comserv_src/commands.c:250-375 | so does a request of any client in any order |
| `DeliveryRuns.UnblockSound` | comserv_src/buffers.c:139-153 | so does unblocking, which clears one client's bits and nothing else |
| `DeliveryRuns.RequestSame` | comserv_src/commands.c:250-375 | a request changes no packet and no bit but the client's own |
| `DeliveryRuns.RequestInOrder` | comserv_src/commands.c:250-375 | for every client and request: packets rise over all queues, come from selected queues, and the next request starts above the last one |
| `Answers.SelectorExact` | comserv_src/commands.c:343-351 | a selector without a question mark lets through just the channel it is |
| `Answers.SelectorWild` | comserv_src/commands.c:343-351 | one with a question mark at one place lets through just the channels that agree at the other four |
| `Answers.WantedExact` | comserv_src/commands.c:332-357 | a packet is wanted exactly when it is not earlier than the start time and its channel agrees with one of the selectors for its queue |
| `Answers.HandedOver` | comserv_src/commands.c:328-366 | of the packets considered the client gets, in their order, just those |
| `Answers.AnswerFits` | comserv_src/commands.c:317 | it never gets more than it asked for |
| `Answers.StartsOldest` | comserv_src/commands.c:254-301 | CSQ_TIME, and CSQ_FIRST of a client that does not block, start with the oldest packet of each queue |
| `Answers.StartsNewest` | comserv_src/commands.c:271-301 | CSQ_LAST starts with the newest packet of all queues and no other |
| `Answers.NumberReached` | comserv_src/commands.c:260-273 | a request that starts afresh leaves the client at a number that no later packet is below |
| `ExactDelivery.DiscardedBelow` | comserv_src/buffers.c:88-97 | the packet a store discards is one the blocking client has acknowledged |
| `ExactDelivery.StorePending` | comserv_src/buffers.c:81-99 | a stored packet of a selected queue is owed to the blocking client, behind everything owed before |
| `ExactDelivery.NextPending` | comserv_src/commands.c:281-372 | a continuing request takes a prefix of what is owed and leaves the rest owed |
| `ExactDelivery.NextCovered` | comserv_src/commands.c:281-309 | only packets below the number the client had reached before the request lose its bit |
| `ExactDelivery.StepExact` | comserv_src/commands.c:250-375 | one event of any kind: what was owed and what is stored is what is served and what is owed afterwards |
| `ExactDelivery.RunExact` | comserv_src/commands.c:250-375 | over every run, a blocking client gets every packet of its queues exactly once and in order: owed before plus stored equals served plus still owed, and what is owed is live and marked |
| `ExactDelivery.ShortAnswerDrains` | comserv_src/commands.c:317-329 | an answer with fewer packets than asked for leaves nothing owed |
| `ExactDelivery.RunInOrder` | comserv_src/commands.c:250-375 | blocking or not, a client that continues never gets a packet twice or out of order |
| `ClientStarts.WhileWaiting` | comserv_src/buffers.c:81-99 | until a blocking client continues, the packets from the one on at which it began to block stay live and marked, and those stored are owed behind them |
| `ClientStarts.FirstExact` | comserv_src/commands.c:254-273 | with exactly the packets from number a on marked, the skip of CSQ_FIRST takes a prefix of them and leaves the rest owed, and the client is covered, exactly when a packet was considered or there was none before a; it is empty exactly when nothing is owed or nothing asked for |
| `ClientStarts.StartExact` | comserv_src/commands.c:250-375 | from the time the packets from a on are marked, over every run that waits, gets such an answer and goes on: owed and stored equals served and still owed |
| `ClientStarts.ReservedClientExact` | comserv_src/commands.c:250-375 | from an empty server on, all packets ever stored in the queues of a client that blocks from the start are those served to it and those owed, in order, however long it waits |
| `ClientStarts.LateClientExact` | comserv_src/server.c:1126-1134 | a client that begins to block at any time, after any run without its bits, gets all packets stored since then exactly once, if the answer it goes on from considered one or nothing was ever stored before |
| `WedgedClients.WedgeStays` | comserv_src/commands.c:285-288 | once wedged, over every run in which the client goes on: it stays wedged, the queue keeps the same packets, takes no other, and none of it is served to the client |
| `WedgedClients.LateWedges` | comserv_src/commands.c:285-288 | after an empty answer to CSQ_FIRST and with two packets from before in a selected queue there is a steady run to a wedge |
| `WedgedClients.WedgeExact` | comserv_src/commands.c:254-301 | after an empty answer to CSQ_FIRST a selected queue can wedge exactly when it holds two packets from before the client began to block |
| `WedgedClients.CoveredNeverWedged` | comserv_src/commands.c:281-309 | a covered client never gets wedged, over any steady run |
| `WedgedClients.WedgedQueue` | comserv_src/commands.c:254-301 | from every fresh server with a queue of three elements a run of stores, a late block, an empty first answer and continuing requests to a wedge with packets waiting |
| `LateDelivery.SelectedExact` | comserv_src/commands.c:281-372 | over every steady run of a client whose selected queues are clear, packets from a number on: owed and stored equals served and owed |
| `LateDelivery.EmptyStartExact` | comserv_src/commands.c:254-301 | after an empty answer to CSQ_FIRST, with no two earlier packets in a selected queue, every packet from the block on is served exactly once |
| `PacketRings.RingBuffer.constructor` | comserv_src/buffers.c:59-74 | an empty ring of linked elements, none blocked |
| `PacketRings.RingBuffer.GetBuffer` | comserv_src/buffers.c:81-99 | a cleared element with the mask and the number, or none and nothing changed when the next element is blocked |
| `PacketRings.RingBuffer.BufAvail` | comserv_src/buffers.c:102-114 | whether a packet can be stored |
| `PacketRings.RingBuffer.Unblock` | comserv_src/buffers.c:146-151 | takes one client's bit from every element of the ring |
| `PacketRings.RingBuffer.AckPass` | comserv_src/commands.c:284-301 | the acknowledge loop, in place, is the acknowledge function |
| `PacketRings.RingBuffer.SkipPass` | comserv_src/commands.c:265-269 | the skip to the client's first marked packet |
| `PacketRings.Server.constructor` | comserv_src/buffers.c:46-75 | six empty rings that share nothing: a fresh server |
| `PacketRings.Server.Attach` | comserv_src/server.c:1126-1141 | a reserved client becomes blocking, or is unblocked, as an event of the runs |
| `PacketRings.Server.CheckMask` | comserv_src/buffers.c:120-136 | which queues are found blocked, after a look at one or at all; the rings stay as they are |
| `PacketRings.Server.Store` | comserv_src/buffers.c:81-99 | a packet is stored if the queue can take it; the whole server state is that of the run model |
| `PacketRings.Server.UnblockAll` | comserv_src/buffers.c:139-153 | a client's bit goes from all six rings |
| `PacketRings.Server.Selected` | comserv_src/commands.c:332-357 | time and selector tests: the packet is wanted exactly when it is late enough and one of the five-character selectors matches |
| `PacketRings.Server.PickLowest` | comserv_src/commands.c:319-329 | the loop over the queues finds the lowest next packet, or that there is none |
| `PacketRings.Server.MergeQueues` | comserv_src/commands.c:317-372 | the transfer loop delivers the wanted ones of the packets considered |
| `PacketRings.Server.ScanQueues` | comserv_src/commands.c:252-311 | where each queue starts and what is acknowledged, for each of the four kinds of request |
| `PacketRings.Server.DataBlk` | comserv_src/commands.c:250-375 | a whole request in place is the request of the run model: answer, rings, cursors and number; the client's buffers get just the late enough packets that agree with a selector, in order and no more than asked for |
| `ClientModel.StepMasks` | comserv_src/buffers.c:94 | storing, requests, unblocking and a choice not to block keep every bit, in packets and in the mask for new ones, that of a client in the set; so does a choice to block of a member |
| `ClientModel.UnblockedNone` | comserv_src/server.c:390-395 | unblocking a client that nobody's bit names changes nothing |
| `ClientModel.TurnOk` | comserv_src/server.c:371-445 | packets, requests, unblock commands, attaches and checks keep: bits name only reserved clients configured with a timeout, places behind them are open, and the server is sound |
| `ClientModel.LeaveMeaning` | comserv_src/server.c:371-403 | a reserved client keeps its place, and its bits unless it timed out; any other one leaves, those behind it move up in order with flags, numbers and cursors, and no bit changes |
| `ClientModel.CheckMeaning` | comserv_src/server.c:405-445 | one client in turn is looked at; it goes when it timed out, died or is a silent foreign one, and bits go only with a reserved one that timed out |
| `ClientModel.LostExact` | comserv_src/server.c:410-424 | who is looked at next, and exactly when that client is gone: silent for longer than its timeout while it blocks, dead, or another user's, silent for a minute and not busy |
| `ClientModel.AttachMeaning` | comserv_src/server.c:1101-1163 | a client that shows up gets the first place with its name that is reserved or has its process or none, otherwise a new one unless the table is full; it begins to block only if configured to |
| `ClientModel.ConfiguredOk` | comserv_src/cscfg.c:315-337 | the configured table meets the invariant, with the clients that have a timeout as those that may block |
| `ClientRuns.OpenAsk` | comserv_src/commands.c:281-309 | a request of a client that does not block changes no packet, no bit and no other client |
| `ClientRuns.TurnAlike` | comserv_src/server.c:371-445 | for reserved clients each event of the table is at most one event of the packet server |
| `ClientRuns.RunRefines` | comserv_src/server.c:371-445 | any run with clients coming and going is, for the reserved ones, a run of the packet server: same rings, same packets stored, same packets served |
| `ClientRuns.RunReserved` | comserv_src/server.c:371-403 | over every run the reserved places keep their names and timeouts |
| `ClientRuns.NamedPlace` | comserv_src/server.c:1102-1105 | with distinct configured names, after every run a client under a configured name gets that place, whatever its process, and nobody else does |
| `ClientRuns.SilentReleased` | comserv_src/server.c:405-445 | a blocking client that stays silent for longer than its timeout is released by the time everybody has been looked at once |
| `ClientRuns.TurnWaits` | comserv_src/commands.c:294-295 | a packet that waits for a reserved client goes on waiting after every event but its own acknowledgement, its timeout, an unblock command for it, or its return without blocking |
| `ClientRuns.RunWaits` | comserv_src/commands.c:294-295 | the same over whole runs in which the client keeps its segment: no interleaving of stores, requests, attaches and detaches of others takes the packet or the bit |
| `ClientRuns.Released` | comserv_src/server.c:390-395 | after a timeout, an unblock command or a return without blocking no packet waits for the client and no new one will |
| `ClientRuns.BitsOfBlockers` | comserv_src/buffers.c:94 | over every run from the configuration on, a packet waits for nobody but a client configured with a timeout |
| `ClientRuns.TableRunExact` | comserv_src/commands.c:250-375 | whoever comes and goes, a covered reserved client that goes on with the segment it has and is not released gets every packet exactly once and in order |
| `ClientRuns.TableClientExact` | comserv_src/commands.c:250-375 | from the configuration on, a client with a timeout gets every packet that ever arrived in its queues exactly once, unless it is released or shows up again after its first answer |
| `ClientRuns.TableLateExact` | comserv_src/server.c:1126-1134 | so does one that comes back under its name after it was released, from then on, if the first answer it goes on from considered a packet and it keeps its segment from there on |
| `ClientTable.Table.constructor` | comserv_src/cscfg.c:315-337 | the configured clients have places in order over an empty server, and exactly those with a timeout block |
| `ClientTable.Table.Store` | comserv_src/buffers.c:81-99 | a packet is stored with the bits of the clients that block now |
| `ClientTable.Table.Unblock` | comserv_src/commands.c:573-579 | the bits of a client go from all packets and from the mask |
| `ClientTable.Table.Contract` | comserv_src/server.c:399-401 | the clients behind one move up by a place, in order, with their flags, numbers and cursors |
| `ClientTable.Table.DetachClient` | comserv_src/server.c:371-403 | in place, a client leaves as in the model |
| `ClientTable.Table.Serve` | comserv_src/server.c:1187-1190 | a served client is active from now on, and its request is that of the run model: answer, rings, cursors and number |
| `ClientTable.Table.CheckClients` | comserv_src/server.c:405-445 | the look at one client, in place, is the event of the model |
| `ClientTable.Table.FindClient` | comserv_src/server.c:1102-1105 | the first entry that matches by name and process, or by name alone when reserved |
| `ClientTable.Table.AttachClient` | comserv_src/server.c:1101-1172 | an attach in place is the event of the model: entry, flag, mask and packets; an old place has the same name, behind the reserved ones also the same process or none, and a reserved one is found by name |
| `SteimModel.PushRead` | lib330/libcompress.c:78-95 | a difference within its format can be read back from the word it was packed into, and so can the word before it |
| `SteimCodec.PackUnpack` | lib330/libcompress.c:267-268 | all packed differences of a word can be unpacked again |
| `SteimCodec.WordRoundTrip` | lib330/libcompress.c:324-360 | decoding a packed word after the same sample gives its samples back, in each of the seven formats |
| `SteimCodec.WidestExact` | lib330/libcompress.c:193-206 | the one-sample format returns its sample exactly when the difference fits thirty bits, and which differences pass the test without fitting |
| `SteimCodec.ChooseMost` | lib330/libcompress.c:168-254 | the format chosen packs at least as many samples as any format whose differences all pass |
| `SteimCodec.StepRoundTrip` | lib330/libcompress.c:158-271 | on any stream with differences within 2^29-1 one step makes a whole word that decodes to the samples it took |
| `SteimCodec.StreamRoundTrip` | lib330/libcompress.c:119-288 | compressing a whole stream and decompressing the words gives the stream back |
| `SteimStandard.FourBytes` | lib330/libcompress.c:88-95 | code 1 is four differences of eight bits, at the places the standard gives them |
| `SteimStandard.OneOfThirty` | lib330/libcompress.c:88-95 | code 2 with the bits 01: one of thirty bits |
| `SteimStandard.TwoOfFifteen` | lib330/libcompress.c:88-95 | code 2 with the bits 10: two of fifteen |
| `SteimStandard.ThreeOfTen` | lib330/libcompress.c:88-95 | code 2 with the bits 11: three of ten |
| `SteimStandard.FiveOfSix` | lib330/libcompress.c:88-95 | code 3 with the bits 00: five of six |
| `SteimStandard.SixOfFive` | lib330/libcompress.c:88-95 | code 3 with the bits 01: six of five |
| `SteimStandard.SevenOfFour` | lib330/libcompress.c:88-95 | code 3 with the bits 10: seven of four |
| `SteimStandard.SampleBySample` | lib330/libcompress.c:352-363 | each sample is the one before it plus its difference |
| `SteimStandard.StandardChoice` | lib330/libcompress.c:158-254 | a word gets as many samples, up to seven, as have differences small enough for a word of so many |
| `SteimFrames.AddCodeAppends` | lib330/libcompress.c:270 | adding a code to the flag word appends it to the codes there |
| `SteimFrames.CodePosition` | lib330/libcompress.c:270-276 | in a whole frame the code of word w is at bits 31-2w and 30-2w of the flag word |
| `SteimFrames.PadAppends` | lib330/libsample.c:500-504 | shifting the flag word of a partial frame gives code zero to each unused word |
| `Steim.ComPacket.ReadAhead` | lib330/libcompress.c:186-192 | the difference buffer is extended to the differences of the samples ahead |
| `Steim.ComPacket.Roam` | lib330/libcompress.c:193-249 | one turn of the search: up, down or done at the smallest row that fits |
| `Steim.ComPacket.ChooseFormat` | lib330/libcompress.c:158-254 | the roaming search ends, from any starting row, at the first row that fits |
| `Steim.ComPacket.PackWord` | lib330/libcompress.c:259-268 | the word for the chosen samples |
| `Steim.ComPacket.StoreWord` | lib330/libcompress.c:269-282 | a word and its code are appended to the record, and a full frame is stored |
| `Steim.ComPacket.CompressWord` | lib330/libcompress.c:154-287 | the next word of a record is that of the samples taken off the queue |
| `Steim.ComPacket.CompressBlock` | lib330/libcompress.c:119-288 | the same with the start of a record and without a record buffer; the first sample is in word 1 |
| `Steim.ComPacket.CompleteFrame` | lib330/libsample.c:500-511 | a partial frame is completed without changing the data of the record |
| `Steim.ComPacket.TakeRecord` | lib330/libsample.c:281-282 | the last sample goes to word 2 of the frame behind the blockettes, the first data frame if there is one, and nothing else changes |
| `Steim.ComPacket.InsertBlockette` | lib330/libsample.c:531-547 | a blockette goes behind those of the record and in front of its data, all of them linked in order |
| `Steim.ComPacket.Queued` | lib330/libsample.c:869-876 | a sample is put at the end of the ring of waiting samples |
| `SteimRecords.DecodeIsSums` | lib330/libcompress.c:322-373 | decoding words in turn is summing all their differences |
| `SteimRecords.ReadBack` | lib330/libsample.c:412-468 | a finished record alone, from its first sample and differences, decodes to the samples put into it, and has the first and the last of them |
| `SteimRecords.Channel.AddSample` | lib330/libsample.c:865-897 | every sample fed is kept in order across words, frames and records, every blockette too, and each finished record decodes to its samples |
| `SteimRecords.Channel.ExplainedCount` | lib330/libsample.c:412-468 | however the frames of a channel are read, there are as many samples as the words with a code have differences |
| `SteimRecords.Channel.FinishRecord` | lib330/libsample.c:412-468 | a record is finished, with data frames or with blockettes only; of a sound channel it goes on from the last sample of the one before, and without data frames has that one behind its blockettes |
| `SteimRecords.Channel.Flush` | lib330/libsample.c:470-513 | everything fed is in finished records afterwards, in order |
| `SteimRecords.Channel.AddBlockette` | lib330/libsample.c:519-551 | blockettes are kept in order, none and no sample is lost, and a record that they fill is finished without data |
| `SteimReframe.BegunIs` | lib330/libcompress.c:322-341 | which words a decompression looks into: up to the first without a valid row or until the buffer is full |
| `SteimReframe.Precomp.Decompress` | lib330/libcompress.c:291-377 | the samples of those words as far as there is room, where each word starts, and what is left valid |
| `SteimStandard.MapRead` | lib330/libcompress.c:326 | code k of eight is at bits 15-2k and 14-2k of its map word, where shifting in the codes one behind the other puts it |
| `SteimStandard.PackedSource` | lib330/libcompress.c:318-373 | a blockette packed from any code-word pairs has just these pairs |
| `SteimStandard.TwoWords` | lib330/libcompress.c:322-363 | one of two words, with codes 2 and 1, and its five samples |
| `SteimReframe.Precomp.StoreSamples` | lib330/libcompress.c:352-363 | the sums of one word in the buffer, up to its end |
| `SteimReframe.Precomp.CopyWords` | lib330/libcompress.c:406-421 | codes and words are copied to the frame in order |
| `SteimReframe.Precomp.BuildFrame` | lib330/libcompress.c:405-437 | a frame gets the next words of the blockette, as many as are left and have room; the samples counted are the difference of the two indexes, and the last sample is the one in front of the second, whatever the buffers hold |
| `SteimReframe.Precomp.BuildBlocks` | lib330/libcompress.c:380-438 | the same with the start of a record, whose first sample is the one at the index of its first word; also with no words left and without a record buffer |
| `SteimReframe.SpreadAt` | lib330/libcompress.c:341-376 | the index buffer leads to the first and the last sample of every word |
| `SteimReadings.DecodeSplit` | lib330/libcompress.c:322-373 | decoding words in two parts, the second after the last sample of the first |
| `SteimReadings.ReaderExact` | lib330/libcompress.c:325-333 | a reader that passes over words with code zero gets the samples decompressed from them exactly when every word has a code |
| `SteimReadings.WordWithoutCode` | lib330/libcompress.c:325-333 | one word with code zero: four samples decompressed, none read |
| `SteimReadings.ContinuesExact` | lib330/libcompress.c:306-354 | words give the same samples after two different samples only if there are no words |
| `SteimReadings.ExplainedBehind` | lib330/libcompress.c:380-438 | a channel with a record that went on with one more word has that word's samples behind those before, in the record being built or in the finished one |
| `SteimBlockettes.FileNext` | lib330/libsample.c:903-917 | one turn of the filing loop: the words copied, the samples counted, the record finished when it is full, and what a call with no words left leaves behind |
| `SteimBlockettes.FileBlockette` | lib330/libsample.c:901-919 | the loop ends for every blockette; with words left it stops behind those of the total, and the counts sum to it, exactly when they are all words or end a frame; with none left nothing is counted |
| `SteimBlockettes.DecodableFits` | lib330/libcompress.c:322-363 | all words are looked into and kept exactly when all have valid subcodes and there is room for their samples |
| `SteimBlockettes.ProcessBlockette` | lib330/libsample.c:739-919 | for every blockette: the counts sum to the samples decompressed and the channel has these behind those fed before if it fits, all words filed have codes and the record goes on from its previous sample; and if the channel has them, that is so, or a word with code zero came in words behind those that filled the buffer. What a dropped blockette leaves behind |
| `SteimBlockettes.InvalidWord` | lib330/libcompress.c:334-339 | four samples and then a word without a valid subcode: the samples are counted, and the blockette fits nowhere |
| `SteimBlockettes.WordsBehind` | lib330/libcompress.c:322-323 | a first word that fills the buffer fits exactly at the last word of a frame |
| `SteimBlockettes.DroppedUnread` | lib330/libcompress.c:398-404 | a record begun by a dropped blockette can be read as no samples at all |
| `ControlCompiler.FactorCorrect` | lib330/libctrldet.c:158-186 | parsing a factor consumes its tokens and gives an operand with its value, by as many operations as operators |
| `ControlCompiler.ParenCorrect` | lib330/libctrldet.c:125-186 | the same for parentheses, with and without a leading NOT |
| `ControlCompiler.FactorsCorrect` | lib330/libctrldet.c:199-235 | AND and EOR, of the same rank, group from the left |
| `ControlCompiler.TermsCorrect` | lib330/libctrldet.c:246-259 | OR groups from the left, below them |
| `ControlCompiler.ExprCorrect` | lib330/libctrldet.c:238-260 | the same for an expression in front of anything that does not go on with it |
| `ControlCompiler.ExpandCorrect` | lib330/libctrldet.c:262-285 | for every equation: each temporary is set before it is read, the last operation has the value of the equation, one operation for each operator |
| `ControlDetector.Expander.GetToken` | lib330/libctrldet.c:79-118 | the next token, never one behind the end |
| `ControlDetector.Expander.StackDetOp` | lib330/libctrldet.c:67-77 | an operation is appended under the next temporary |
| `ControlDetector.Expander.ParseUnary` | lib330/libctrldet.c:125-156 | for every list of tokens, result, tokens left and operations of the parsing step |
| `ControlDetector.Expander.ParseFactor` | lib330/libctrldet.c:158-186 | the same for a factor |
| `ControlDetector.Expander.ParseTerm` | lib330/libctrldet.c:188-236 | the same for a term |
| `ControlDetector.Expander.ParseExpress` | lib330/libctrldet.c:238-260 | the same for an expression |
| `ControlDetector.Expander.ExpandEquation` | lib330/libctrldet.c:262-285 | parsing ends for every list of tokens and makes the operations of the compiler |
| `ControlDetector.Evaluate` | lib330/libctrldet.c:303-343 | running sound operations on temporaries that hold anything gives the value of the last one, unless a temporary too many is needed |
| `ControlDetector.EquationOutcome` | lib330/libctrldet.c:287-343 | the evaluator gives the value of an equation exactly when it has at most fifty operators |
| `ControlDetector.NotBehindParenthesis` | lib330/libctrldet.c:166-173 | NOT a AND b with and without parentheses around it |
| `Crc.SerialIsCheck` | comserv_src/comlink.c:280-287 | comparing each bit with the top one computes the remainder of the message times x^32 |
| `Crc.ByteStep` | comserv_src/comlink.c:316 | eight bits at once are one table entry |
| `Crc.CheckNext` | comserv_src/comlink.c:315-316 | one more byte of a message |
| `Crc.MakeEntry` | comserv_src/comlink.c:278-287 | the inner loop makes the entry of a byte |
| `Crc.GcrcInit` | comserv_src/comlink.c:271-292 | all 256 entries, in the byte order of the machine |
| `Crc.GcrcCalcBig` | comserv_src/comlink.c:310-318 | the table-driven check is the remainder, for every message |
| `Crc.GcrcCalcLittle` | comserv_src/comlink.c:295-308 | the little-endian form gives its bytes in the other order, for every message |
| `Crc.Unnoticed` | comserv_src/comlink.c:295-318 | an error goes unnoticed exactly when its pattern is divided without remainder |
| `FrameModel.RunAppend` | comserv_src/comlink.c:1923-2016 | input in two parts is the input in one |
| `FrameModel.FrameRoundTrip` | comserv_src/comlink.c:1891-2016 | a frame gives its packet, whichever bytes the sender escapes, if the packet fits |
| `FrameModel.FramesRoundTrip` | comserv_src/comlink.c:1891-2016 | frames one after the other give their packets in order |
| `FrameModel.TooLong` | comserv_src/comlink.c:1994-2013 | of a packet that is too long nothing is delivered, and the bytes behind it are taken from the start |
| `FrameModel.NoiseSkipped` | comserv_src/comlink.c:1955-1972 | bytes in front of a lead-in are passed over |
| `FrameModel.BrokenLeadIn` | comserv_src/comlink.c:1955-1972 | so is a lead-in that is broken off, and its first byte may come any number of times |
| `Framing.Framer.DleStrip` | comserv_src/comlink.c:1891-1921 | bytes up to a terminator, the end of the buffer or of the input, with an escape carried over to the next call |
| `Framing.Framer.Synchronize` | comserv_src/comlink.c:1955-1972 | the lead-in, resumed in any state |
| `Framing.Framer.ReceiveBlock` | comserv_src/comlink.c:1973-1993 | what has been read of a packet, and its end |
| `Framing.Framer.AwaitEnd` | comserv_src/comlink.c:1994-2013 | the terminator behind a full buffer |
| `Framing.Framer.CheckInput` | comserv_src/comlink.c:1951-2016 | one call uses a prefix of the input as if it came byte by byte |
| `Framing.Framer.Drain` | comserv_src/comlink.c:1923-2016 | however reads cut the input into pieces, the packets passed on are those of the bytes one at a time |
| `ReceiverRuns.AcceptedIsFiled` | comserv_src/comlink.c:1026-1055 | once the look at its ring let a frame pass there is a buffer, the packet is appended to that ring with the next number, and no blocked packet is lost |
| `ReceiverRuns.RefusedChangesNothing` | comserv_src/comlink.c:900-945 | a frame that is not accepted changes neither the rings nor the last number |
| `ReceiverRuns.AdmittedExact` | comserv_src/comlink.c:847-978 | the number a frame must have to be accepted, and when it is out of sequence |
| `ReceiverRuns.RingsExact` | comserv_src/buffers.c:120-136 | a frame passes the look at the rings exactly when its own ring, or without one every ring, can take a packet and no other was found blocked before |
| `ReceiverRuns.AcksExact` | comserv_src/comlink.c:900-921 | what is acknowledged: accepted frames, and the last number again for a frame out of sequence while no ring is blocked |
| `ReceiverRuns.StepAccepted` | comserv_src/comlink.c:971-972 | a frame accepted in sequence is the last one from then on and starts the count of errors anew |
| `ReceiverRuns.InSequence` | comserv_src/comlink.c:898-1055 | while no ring is blocked, frames that come in sequence are all accepted |
| `ReceiverRuns.ErrorsInARow` | comserv_src/comlink.c:492-523 | as many frames out of sequence in a row as the limit says leave the link valid, one more makes it start over |
| `ReceiverRuns.Consecutive` | comserv_src/comlink.c:898-928 | while the sequence is valid the numbers accepted follow one another modulo the modulus |
| `ReceiverRuns.FromStart` | comserv_src/comlink.c:929-978 | from any start, with link packets or without, the numbers accepted follow one another; the first is the one announced or worked out exactly when that frame was not refused, otherwise they go on from the stale last number |
| `ReceiverRuns.LinkPacketExact` | comserv_src/comlink.c:847-866 | a link packet gives the number and the modulus and makes the link not valid; the frame with that number is the one admitted next |
| `ReceiverRuns.FromLinkPacket` | comserv_src/comlink.c:851-934 | from a link packet on they follow the announced number, which is the first one accepted exactly when it was not refused |
| `ReceiverModel.LastRunExact` | comserv_src/comlink.c:991-1008 | the place found begins the last run of numbers seen: all seen up to an end, none behind it, and not the one before |
| `ReceiverRuns.WorkedOut` | comserv_src/comlink.c:982-1012 | over every run until the link is valid, the lowest number is worked out anew whenever a number comes again, from those that had come by then |
| `ReceiverRuns.OlderStart` | comserv_src/comlink.c:975-1012 | the first frame accepted from an older digitizer since it started over has the number that begins the last run of those that had come when one last came again |
| `ReceiverRuns.LostStart` | comserv_src/comlink.c:929-934 | a start that was refused is never made up for: the frame is out of sequence when it comes again, and answered with the number that was last before, which after a link packet is its own |
| `ReceiverRuns.FiledInOrder` | comserv_src/comlink.c:1018-1055 | over any run each accepted frame for a ring is filed once, in the order accepted, under consecutive packet numbers, and nothing else is |
| `ReceiverDelivery.RunDelivers` | comserv_src/comlink.c:1018-1055 | a run of the receiver is a run of its rings, in which the accepted frames for selected queues are the packets stored |
| `ReceiverDelivery.FramesExact` | comserv_src/commands.c:250-375 | from link to client: accepted frames of the selected queues since the client began to block are, in order, those served to it and those still owed |
| `ReceiverDelivery.AllFramesExact` | comserv_src/commands.c:250-375 | for a client that blocks from the start these are all frames ever accepted for its queues |
| `Receiver.Receiver.Reconfigure` | comserv_src/comlink.c:492-523 | what starting over forgets |
| `Receiver.Receiver.LowestSeen` | comserv_src/comlink.c:991-1011 | one pass finds where the last run of numbers seen begins |
| `Receiver.Receiver.CheckSequence` | comserv_src/comlink.c:847-1017 | what a number means and what it changes, with and without link packets |
| `Receiver.Receiver.AckAgain` | comserv_src/comlink.c:900-921 | a number out of sequence: the last one is acknowledged again unless a ring is blocked |
| `Receiver.Receiver.Accept` | comserv_src/comlink.c:1026-1055 | a number in sequence: acknowledged and filed unless the ring is blocked |
| `Receiver.Receiver.Process` | comserv_src/comlink.c:840-1058 | a whole frame, in place, is the step of the run model |
| `Upload.Tiles` | comserv_src/commands.c:1127-1129 | each byte of a file is in exactly one segment |
| `Upload.AllWritten` | comserv_src/comlink.c:645-674 | when all segments have been sent, in any order and however often, the other side has the file |
| `Upload.Sender.constructor` | comserv_src/commands.c:1115-1135 | an upload starts with an empty map |
| `Upload.Sender.SendSegment` | comserv_src/comlink.c:644-682 | the bytes and number of a segment, when it asks for a map, and where the next one is looked for |
| `Upload.Sender.FindMissing` | comserv_src/comlink.c:638-686 | the first missing segment from a place on |
| `Upload.Sender.NextSegment` | comserv_src/comlink.c:636-707 | whatever is sent is missing from the last map, and the end is announced exactly when nothing is |
| `Upload.Sender.ProcessUpMap` | comserv_src/comlink.c:710-751 | a map is taken over only when one is awaited |
| `Upload.Sender.Delivered` | comserv_src/comlink.c:687-706 | at the announced end the other side has the file, if its maps were true |
| `TxRing.PutExact` | comserv_src/comlink.c:414-435 | a packet put into the ring is one more waiting exactly while a slot is free; otherwise it is written over the one a round before |
| `TxRing.Ring.SendWindow` | comserv_src/comlink.c:341-407 | everything waiting is sent, in order |
| `TxRing.CountExact` | comserv_src/comlink.c:432-437 | over any number of packets the 16-bit count of those waiting stays right exactly with group sizes up to 32767 |
| `TxRing.Ring.SendTxPacket` | comserv_src/comlink.c:410-438 | what is waiting or sent after each put, for every group size and every value of the count; with groups of at most 64 each packet is sent once and in order |
| `MemoryModel.Removed` | lib330/libdss.c:401-408 | taking a segment out keeps the list linked in both directions |
| `MemoryModel.Replaced` | lib330/libdss.c:385-396 | so does putting another segment in its place |
| `MemoryModel.Split` | lib330/libdss.c:381-388 | a segment cut in two still divides up the memory |
| `MemoryModel.Merge` | lib330/libdss.c:468-476 | so do two neighbours made one |
| `MemoryModel.Grow` | lib330/libdss.c:320-321 | so does new memory |
| `MemoryManager.Dss.Scan` | lib330/libdss.c:272-290 | the first of the smallest segments that are large enough, or none exactly when none is |
| `MemoryManager.Dss.AddChunk` | lib330/libdss.c:328-370 | new memory is joined to the first free segment it touches, or put in front when it touches none; every header in use stays as it is |
| `MemoryManager.Dss.TakePart` | lib330/libdss.c:380-397 | the front of a segment is handed out and the rest, of the size left, takes its place in the list |
| `MemoryManager.Dss.TakeWhole` | lib330/libdss.c:399-409 | a segment is handed out whole |
| `MemoryManager.Dss.MemReq` | lib330/libdss.c:294-411 | free and used segments keep dividing up all memory obtained, which stays within the limit; what is handed out has at least the next multiple of four of the bytes asked for and less than thirty-two more; a fit that exists is used, the smallest one; memory is asked for only when there is none, and nothing is handed out only when no free segment is large enough |
| `MemoryManager.Dss.Rejoin` | lib330/libdss.c:451-508 | a loose segment is joined to the first free one it touches, or goes behind the last one below it when it touches none |
| `MemoryManager.Dss.MemFree` | lib330/libdss.c:433-508 | a segment given back leaves its user's list and rejoins the free ones; nothing is lost or owned twice, no other segment in use changes size |
| `MemoryManager.ChunkBeforeHead` | lib330/libdss.c:339-353 | new memory directly before the head is lost: no list from the unchanged head accounts for it |
| `MemoryManager.HandedOutTwice` | lib330/libdss.c:400-408 | then the second free segment, taken out whole, leaves the head's link on it, and the next scan of that size finds it again while it is in use |
| `ArchiveModel.HoldsAll` | lib330/libarchive.c:196-264 | an archive holds all blockettes and then all data frames of its records, in order, but for the last-sample word |
| `ArchiveModel.StartRead` | lib330/libarchive.c:236-242 | the first frame of an appended record, read as a later one, has the same words with samples |
| `ArchiveModel.ArchiveReads` | lib330/libarchive.c:196-264 | two records that follow one another are read from the archive as one |
| `ArchiveModel.FirstDataExact` | lib330/libarchive.c:205-221 | the header leads to the first data frame exactly when no blockettes came in front of no data, and otherwise to one of the blockettes |
| `ArchiveModel.FirstDataBehind` | lib330/libarchive.c:208-215 | two records, the second with a data frame: the data are at byte 192 and the header says 128 |
| `ArchiveModel.FoundExact` | clients.ucb/cs2ringserver/cs2ringserver.c:222-254 | what a reader takes for the data: the data frames when the header leads there or counts none, otherwise it meets a blockette |
| `ArchiveModel.JoinRecord` | lib330/libarchive.c:196-264 | the data frames of a record behind those there read as the samples of both; without data frames it leaves samples and last sample as they were |
| `ArchiveModel.SeriesReads` | lib330/libarchive.c:196-264 | the data frames of any series of records that go on from one another, with data frames or without, read as all their samples and end with the last of them |
| `ArchiveModel.SeriesFound` | lib330/libarchive.c:196-264 | a reader that goes by the header gets all the samples of the series exactly when no blockettes came in front of no data, or there are no samples |
| `ArchiveModel.ChannelToArchive` | lib330/libarchive.c:196-296 | from sample to archive: all samples and blockettes that a channel was fed and put into records are in one archive, in order, and a reader gets the samples under the same condition |
| `Archive.Arc.Flush` | lib330/libarchive.c:90-166 | what is passed on, with the header of the moment in front; announced as new exactly when the other side does not have it, and as final exactly when the buffer is cleared; no record is lost or there twice |
| `Archive.Arc.ShiftBack` | lib330/libarchive.c:208-215 | data frames move back in place, and only then the header's offset of the data goes up |
| `Archive.Arc.MoveIn` | lib330/libarchive.c:208-221 | the new blockettes go between the old ones and the data, and the offset goes up by their size when there are data |
| `Archive.Arc.InsertBlockettes` | lib330/libarchive.c:205-235 | following the links afterwards visits the old and then the new blockettes |
| `Archive.Arc.AppendFrames` | lib330/libarchive.c:236-242 | data frames go to the end and the frame count stays exact |
| `Archive.Arc.CopyLast` | lib330/libarchive.c:262-264 | the last-sample word of the first data frame is replaced and nothing else; without one, that of the frame not used yet, or the word behind the buffer when blockettes fill it |
| `Archive.Arc.Extend` | lib330/libarchive.c:203-264 | one more record: the buffer holds the series with it, and the header its counts and its offset of the data |
| `Archive.Arc.StartNew` | lib330/libarchive.c:276-288 | a record and its header as they are |
| `Archive.Arc.ArchiveRecord` | lib330/libarchive.c:180-296 | over any actions, every record is once and in order at the other side, where records written over take the place of the last one, or in the buffer; frames never exceed the limit |
| `OpaqueLinks.OpaqueArc.FindLast` | lib330/libarchive.c:392-400 | the end of a chain of blockettes |
| `OpaqueLinks.OpaqueArc.Relink` | lib330/libarchive.c:404-415 | links of copied blockettes lead to where they are now |
| `OpaqueLinks.OpaqueArc.Extend` | lib330/libarchive.c:390-419 | following the links visits the old blockettes and then the new ones, with their bytes as they were |
| `Continuity.ExactFit` | lib330/libcont.c:1079-1083 | a size that a free buffer was made for is met by one, and what is left is made for what is left |
| `Continuity.Recycled` | lib330/libcont.c:1101-1124 | using a free buffer keeps each buffer in exactly one list and its record within its room |
| `Continuity.Store.FindFit` | lib330/libcont.c:1073-1100 | the first buffer with the least room that is enough, or none exactly when none will do |
| `Continuity.Store.Write` | lib330/libcont.c:1068-1125 | records are active in the order written, in a free buffer if one will do, in new memory only if not |
| `Continuity.Store.Begin` | lib330/libcont.c:1157-1168 | at a save the active buffers go to the end of the free ones, also after a start from file |
| `Continuity.Store.Save` | lib330/libcont.c:1151-1168 | a save whose sizes are those of the buffers, in any order, allocates nothing and uses them all |
| `Md5Model.DigestAppend` | lib330/libmd5.c:263-268 | whole blocks first and the rest afterwards is the digest of all |
| `Md5Model.Counted` | lib330/libmd5.c:239-243 | the signed carry test counts a piece's bits as one addition would |
| `Md5Model.HighExact` | lib330/libmd5.c:239-243 | the length field is that of the standard exactly when bit 31 of the number of bits is clear |
| `Md5Model.LengthStandard` | lib330/libmd5.c:322-336 | the length field is the number of bits, lowest byte first over all eight bytes |
| `Md5Model.PaddingStandard` | lib330/libmd5.c:308-321 | the padding is one bit and as few zeros as leave eight bytes of a whole block |
| `Md5.WorkingVar.CountBits` | lib330/libmd5.c:239-243 | the two signed words after a piece |
| `Md5.WorkingVar.Update` | lib330/libmd5.c:234-275 | fed in any pieces, the state is that of the whole message: digest of whole blocks, bytes behind them, count |
| `Md5.WorkingVar.GetResult` | lib330/libmd5.c:283-337 | padding and length in one or two last blocks; the running state is not touched |
| `Md5.ResultExact` | lib330/libmd5.c:283-337 | the digest is that of RFC 1321 for every message whose number of bits has bit 31 clear |
| `Threshold.Detector.HighSide` | lib330/libdetect.c:852-881 | the high side of a sample |
| `Threshold.Detector.LowSide` | lib330/libdetect.c:882-911 | the low side of a sample |
| `Threshold.Detector.Detect` | lib330/libdetect.c:817-916 | one call goes on where the last one stopped and ends at the next onset or the end; it reports that onset and no other |
| `Threshold.Detector.DetectAll` | lib330/libdetect.c:817-916 | calls until nothing remains use each sample once: state and onsets are those of a fold over the buffer |
| `Threshold.AlwaysConsistent` | lib330/libdetect.c:852-911 | over all samples a side is on exactly when its count has reached the number of hits |
| `Threshold.OnByHits` | lib330/libdetect.c:852-881 | from the start, the high side is on exactly when enough samples were above the limit since it was last switched off |
| `Threshold.OnsetExact` | lib330/libdetect.c:852-911 | onsets are just where a side that was off is on, with that side's peak, in order and never two at one sample |
| `Threshold.LowMirrors` | lib330/libdetect.c:882-911 | the low side is the high side turned over |
| `Threshold.LowOnByHits` | lib330/libdetect.c:852-911 | from the start, the low side is on exactly when enough samples were below its limit since it was last switched off, samples that switch the high side on left out |
| `Threshold.SwitchedOff` | lib330/libdetect.c:871-881 | which sample switches the high side off |
| `Threshold.PeakExact` | lib330/libdetect.c:844-849 | the peak is the largest sample since the high side was last switched off |

## Left out

Weaker than the code, or under a condition:

- PacketRings.Server.Store: packet numbers stay below 2^31 - 1, where the merge would take a queue for empty; the wrap of the counter is not modelled. Copying a packet into its element is one assignment of the whole data.
- PacketRings.Server.DataBlk: masks are sets of client numbers and queue numbers, so client numbers above 31, which the 32-bit masks cannot hold, are not told apart; a request's number belongs to its client and is not changed by others.
- ExactDelivery.RunExact: the client keeps one queue mask and goes on with CSQ_NEXT; before it goes on it may ask with CSQ_FIRST any number of times (`ClientStarts.WhileWaiting`), and starting over with CSQ_FIRST later is `ClientStarts.StartExact` from the number acknowledged. Starting over with CSQ_LAST or CSQ_TIME is not followed.
- LateDelivery.EmptyStartExact: packets from before the client began to block, which it may also be served after an empty first answer, are not counted.
- ClientRuns.TableRunExact: a client that shows up again while it goes on, with a segment whose number is zero or its old one, is not followed; before it goes on it may show up with any (`ClientRuns.TableStartExact`).
- ClientTable.Table.DetachClient: removing shared segments and the busy client's number are not modelled.
- ClientTable.Table.AttachClient: a client that shows up goes on with the number and cursors of its place; the number that a new segment brings along is not modelled, nor segments that cannot be attached.
- ClientTable.Table.Serve: data requests; other commands, which note the time of service too, are not events of the table.
- Steim.ComPacket.CompressBlock: a missing record buffer is modelled for the call alone; the channel always has one.
- SteimRecords.Channel.AddSample: differences stay within 2^29-1, as the format demands; beyond that the code reports an incompressible difference and packs it anyway, which `SteimCodec.WidestExact` describes. Headers and detector evaluation at the end of a frame are not modelled.
- SteimRecords.Channel.AddBlockette: the time of a blockette is not modelled, nor that flushing a channel passes its archive on.
- SteimBlockettes.ProcessBlockette: a channel without waiting samples, as one of compressed blockettes has none. Of a blockette that fills the buffer before its last word, in the middle of a frame, and has words with code zero, it does not say whether the channel has the samples; the message on a previous sample that differs from the last one, and the filters and detectors fed from the buffer, are not modelled.
- ControlDetector.Expander.ParseExpress: what the pointer of a token that is no flag holds is one unknown value; running such an equation is not modelled.
- Framing.Framer.CheckInput: the branch for datagrams is not modelled; a buffer has room for one byte at least.
- Receiver.Receiver.Process: frames whose length, checksum and check word were right; a control byte with one of its three values and a modulus from 1 to 256. Frames that are not filed count as one kind.
- Upload.Sender.NextSegment: files below 64 KB, as the 16-bit offsets demand; an abort and the counters for the client's display are not modelled.
- TxRing.Ring.SendTxPacket: hexadecimal coding and the check word of a sent packet are not modelled.
- MemoryManager.Dss.MemReq: requests are at least a header long, new memory is not owned yet and does not lie directly before the head of the list (see `MemoryManager.ChunkBeforeHead` and `MemoryManager.HandedOutTwice`).
- MemoryManager.Dss.MemFree: the neighbours a freed segment still points at are in use, as in the lists its user keeps.
- Archive.Arc.ArchiveRecord: a record without blockettes and data frames, which the code drops when the next one comes, and records with an impossible time are not counted; the time gap and whether a time is possible are given; a record that fits an empty archive; a channel with rate zero, which is not archived, is not modelled. Of the header only the counts, the first link and the offset of the data, without its limit of 16 bits, are modelled.
- OpaqueLinks.OpaqueArc.Extend: the chain of a record lies in rising order behind its overhead; when to flush instead is left out.
- Continuity.Store.Save: what the records contain is given.
- Md5.WorkingVar.Update: pieces below 2^28 bytes. The compression function is any function of a digest and a block, so its sixty-four steps, the final byte swap and the big-endian variants are not modelled.
- Threshold.Detector.Detect: samples are whole numbers; rounding of floating-point samples and the onset's time are left out.

Not modelled at all:

- Sockets, serial ports, shared memory, semaphores, signals and logging: given inputs or nothing.
- Other commands of the server's handler, the menu clients, configuration parsing, station-name checks, SEED header formatting: easy members only.
- The FIR and IIR filters and the Murdock-Hutt picker, where floating point is the point.
- Registration with a digitizer, timers and callbacks.
- `compact_memory`, report lists and clients of the data server.
- The archive's message and timing cases, and reading back an archive at the start.
- The digitizer itself: the receiver is proved over any stream of frames.
