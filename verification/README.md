# Verification of the coldforce networking library

A Dafny 4.11 model of four parts of coldforce, a C networking library with its own event loop, HTTP/1.1
and HTTP/2. `dafny verify dfyconfig.toml` checks all of it.

**The HTTP/2 codec.** HPACK (RFC 7541): prefix integers, Huffman strings, the dynamic table, and whole header
blocks, printed and parsed by two ends whose tables have to stay in step. The Huffman code table is a parameter;
a valid table is prefix-free with codes of 5 to 30 bits and thirty ones for EOS, and the shipped one is valid
and canonical, and gives the bytes of the standard's examples. Blocks of any peer are covered too, in every form
the standard allows. The nibble automaton of the decoder is specified by the code it decodes; every valid code
that leaves no path open has one, and the shipped code leaves none. Frames (section 4.1 of RFC 7540): ten
constructors, printer, parser for frames of any sender, and the receive loop over a byte stream that may be cut
anywhere.

**The HTTP/2 stream protocol.** The state machine of a stream (section 5.1 of RFC 7540), two ends of it
joined by in-order channels; flow-control windows with adaptive doubling (section 6.9), with the credit of a
whole connection followed across both ends; header blocks and data cut into frames and put together again. The
parts are joined: headers on new streams are followed from the sender's call to the header the server decodes.

**The event loop.** A ring-buffer queue and a doubly linked list on the heap, each against a sequence; a
deadline-sorted timer list; and the event worker, whose timers move between that list and the queue and can
be cancelled in either, as a state machine with an invariant over all runs and as objects that refine it.

**Incremental byte processors.** The chunked and the fixed-length body reader of HTTP/1.1, SHA-1 and MD5
updates over an abstract compression of one block, and Base64.

## How it is laid out

Values and heap code are kept apart. A module such as `Hpack`, `WorkerModel`, `FlowControl`, `StreamModel` or
`Chunked` says what the program computes, as functions on values. `HpackRoundTrip`, `WorkerInvariant`,
`StreamDelivery` and `ContentReceiver` prove what is promised about those functions, over all inputs and all
runs; `HpackWire`, `FrameWire` and `ChunkedWire` say what any sender's bytes come to, `HpackExamples` what the
standard's own examples do, `HuffmanTable` and `StaticNames` hold the tables as the standard lists them, and
`StreamErrors` how faulty frames are answered; `StreamCredit` ties the streams to the books of `FlowControl`,
and `EndToEnd` joins codec, frames and streams. Classes and methods (`HpackCodec`, `DynamicTable`, `Automaton`,
`FrameStream.Receiver`, `Stream`, `Queue`, `LinkedList`, `TimerManager`, `EventWorker`,
`ContentReceiver.Receiver`, `Sha1`, `Md5`, `Base64`) have the program's own loops and fields, and their
postconditions tie them to those functions. 32-bit arithmetic is written out with `Wrap32`. A name ending in
`Exactly` is an if-and-only-if: a promise that does not hold everywhere, with the condition under which it does.

`Undefined`, `Unspecified`, `Lost` and `Crashed`, and a result that says a copy did not stay inside its buffer
or a call does not return, mark where the program leaves defined ground or never comes back; nothing is claimed
about it from there on. Comparisons the program makes in `double` are over the reals; for
32-bit operands they agree.

## Where the program does not keep to its standards

Each of these follows the code and is a theorem with the exact condition.

* An empty string sent Huffman-coded is refused by the decoder, so a header block with an empty name or value
  breaks the connection (`Huffman.RoundTrip`, `HpackRoundTrip.ConnectionRoundTrip`).
* Padding of more than seven bits is accepted, up to 29 (`Huffman.AcceptedExactly`); section 5.2 of RFC 7541
  wants it refused.
* The dynamic table is searched without regard to case, so a value can arrive in the spelling of an older one
  (`HpackRoundTrip.CaseKeptExactly`).
* The index of a static entry without a stored value makes the program read a null pointer or past its value
  table (`Hpack.UndefinedExactly`), and an index past 32 bits can wrap to one (`Hpack.WrappedIndexUndefined`).
* At the table size the program uses nothing is evicted and the total can wrap (`HpackRoundTrip.NothingIsEvicted`,
  `DynamicTable.SoundExactly`); the two ends stay in step all the same (`HpackRoundTrip.DefaultConnection`).
* The pad length byte is left out of a padded frame's length (`Frame.PaddedInStepExactly`).
* A frame whose length does not cover its padding and its fixed fields is parsed beyond its length, and beyond
  the end of the buffer if the next bytes have not been read yet (`Frame.OwnBytesExactly`); so what such a
  stream of bytes comes to can depend on how it is cut into reads (`FrameStream.SomeCutLosesExactly`,
  `FrameStream.ShortFrameDependsOnReads`).
* SETTINGS have their parameters counted in 16 bits (`FrameWire.SettingsDecodeExactly`).
* The stream states depart from section 5.1 of RFC 7540 in the cases listed in `StreamStates.Departs`
  (`StreamStates.StandardExactly`); frames that close a stream first, and DATA beyond the window, are answered
  otherwise than the standard asks: the former with nothing, the latter with FRAME_SIZE_ERROR
  (`StreamErrors.AnsweredExactly`).
* A promise in several frames is skipped by a stream that has no header of its own yet
  (`StreamErrors.PromiseArrivesExactly`).
* HEADERS with END_STREAM opens an idle stream without half-closing it (`StreamStates.EndStreamOnHeaders`).
* A header block of several frames with END_STREAM on an open stream is cut short by the sender's own state
  machine (`StreamDelivery.HeaderBlockArrives`); one that does arrive is reported to no handler
  (`StreamDelivery.HeaderReportedExactly`); a second block on a stream is skipped undecoded
  (`StreamDelivery.HeaderDecodedExactly`), which takes the compression tables out of step
  (`HpackRoundTrip.SkippedBlockExactly`), and in several frames it crashes the receiver or is decoded without its
  first piece (`StreamDelivery.SecondBlockExactly`); and with priority fields the first frame can exceed the
  peer's limit (`StreamDelivery.HeaderFramesFitExactly`).
* Data beyond the flow-control window is not cut to the window, and END_STREAM goes out on what is sent of it
  (`StreamDelivery.OversizedDataExactly`); a peer frame size of 0 makes the cutting loops send empty frames for
  ever (`Stream.CuttingEndsExactly`, `Stream.EmptyDataForever`, `Stream.EmptyContinuations`).
* DATA that is dropped or cancelled is never given back to the connection window
  (`FlowControl.DroppedDataLeaksExactly`); a window of size 0 sends increments of 0
  (`FlowControl.IncrementsLegalExactly`); an explicit increment can wrap (`FlowControl.GrantSoundExactly`).
* A chunked body is not recognised as complete if a read ends between the last size line and the final line
  end; what follows is then handed on as part of it (`ContentReceiver.BodySurvivesReads`,
  `ContentReceiver.NextMessageTaken`). An empty chunk ends it (`ContentReceiver.EmptyChunkEnds`).
* Trailer fields are not read (`ChunkedWire.NothingOverExactly`), and a size line of more than 16 characters,
  extension included, is refused (`ChunkedWire.LongLineRefused`).
* A timer of 2^32 - 1 ms reads as no timer at all (`WorkerInvariant.WaitsForeverExactly`).
* SHA-1's update copies beyond its buffer when the bytes waiting and the new ones reach 2^32
  (`Sha1.SafeExactly`).
* Base64 decoding reports a length it did not count (`Base64.ReportedExactly`).

## Model

| member | source | states |
|---|---|---|
| PrefixInt.RoundTrip | src/http2/co_http2_hpack.c:89-166 | every 32-bit value, at every prefix size from 4 to 7 bits, comes back from at most six bytes, whatever follows, with no wrap in the decoder |
| PrefixInt.ParseTailOfTail | src/http2/co_http2_hpack.c:142-163 | while digits remain, neither the multiplier nor the accumulator of the continuation loop has wrapped |
| PrefixInt.ParseIsSum | src/http2/co_http2_hpack.c:125-166 | on any complete integer, from any sender, the parser yields the sum of section 5.1 of RFC 7541 modulo 2^32, the multiplier modulo 2^32 too, and uses exactly its bytes |
| PrefixInt.ExampleInteger | src/http2/co_http2_hpack.c:89-166 | an instance: 1337 at five bits is 1F 9A 0A (appendix C.1.2) |
| PrefixInt.FlagMaskIsModulo | src/http2/co_http2_hpack.c:136-141 | clearing only the flag bit is the value modulo 2^N exactly for first bytes below twice the flag, which the dispatch order guarantees |
| PrefixInt.LongIntegerWraps | src/http2/co_http2_hpack.c:142-163 | an instance: six bytes for 2^32 + 1 are taken for 1 |
| PrefixInt.Serialize | src/http2/co_http2_hpack.c:89-122 | the printing loop appends exactly the specified bytes |
| PrefixInt.Deserialize | src/http2/co_http2_hpack.c:125-166 | the parsing loop accepts, yields and consumes exactly what the specification says, on any bytes |
| Huffman.DecodeIsFaithful | src/http2/co_http2_huffman.c:2743-2809 | what bitwise decoding accepts is what was spelled: the codes of the output, then the open path |
| Huffman.Rate | src/http2/co_http2_huffman.c:2752-2754 | every symbol costs at least five bits, which bounds the output |
| Huffman.RoundTrip | src/http2/co_http2_huffman.c:2666-2809 | decoding an encoded string gives it back if and only if it is not empty |
| Huffman.AcceptedExactly | src/http2/co_http2_huffman.c:2799-2804 | a byte string is accepted with a given result exactly if it is the codes of that result followed by fewer than 30 ones, at least one bit in all |
| Huffman.LongPaddingAccepted | src/http2/co_http2_huffman.c:2799-2804 | eight bits of padding are accepted, against section 5.2 of RFC 7541 |
| Huffman.EncodedLength | src/http2/co_http2_huffman.c:2674-2677 | the encoding is at most four bytes per byte, so it fits its allocation, and is not empty for a non-empty string |
| Huffman.FillByte | src/http2/co_http2_huffman.c:2688-2724 | the inner packing loop fills one byte with the next pending bits, most significant first, and pads the last with ones |
| Huffman.EncodeString | src/http2/co_http2_huffman.c:2666-2741 | the packing loops write exactly the concatenated codes padded with ones, inside the buffer, with a terminator |
| Automaton.SelfLoopIsError | src/http2/co_http2_huffman.c:2776-2782 | an entry leads back to its own node if and only if its nibble runs into EOS |
| Automaton.StepRefinesBits | src/http2/co_http2_huffman.c:2768-2797 | one table step is four bitwise steps |
| Automaton.DecodeString | src/http2/co_http2_huffman.c:2743-2809 | the table-driven decoder accepts and returns exactly what bitwise decoding does, with every write inside two bytes per input byte |
| HuffmanCode.OnlyOnce | src/http2/co_http2_huffman.c:24-91 | no symbol has two codes, and there is none past 256 |
| HuffmanCode.ShippedIsValid | src/http2/co_http2_huffman.c:24-91 | the code the program ships is prefix-free, with lengths from 5 to 30 and thirty ones for EOS |
| HuffmanCode.RowIsEntry | src/http2/co_http2_huffman.c:24-91 | the lists the proofs use and the 257 rows in the order of their symbols give every symbol the same code |
| HuffmanCode.ShippedIsCanonical | src/http2/co_http2_huffman.c:24-91 | of two symbols with codes of one length the higher has the higher code, and a shorter code, put to the left, is below every longer one |
| HuffmanCode.ShippedIsClosed | src/http2/co_http2_huffman.c:24-91 | any 30 bits begin with one of its codes |
| AutomatonTable.AutomatonExists | src/http2/co_http2_huffman.c:93-2664 | every valid code that leaves no path open has a nibble automaton that implements it |
| AutomatonTable.ShippedAutomaton | src/http2/co_http2_huffman.c:24-91 | so has the shipped code, and all results on strings and header blocks hold of it |
| HpackExamples.DomainEncoded | src/http2/co_http2_huffman.c:2666-2741 | an instance: the bytes of `www.example.com` in appendix C.4.1 of RFC 7541 |
| HpackExamples.NoCacheEncoded | src/http2/co_http2_huffman.c:2666-2741 | an instance: `no-cache`, appendix C.4.2 |
| HpackExamples.KeyEncoded | src/http2/co_http2_huffman.c:2666-2741 | an instance: `custom-key`, appendix C.4.3 |
| HpackExamples.SettingEncoded | src/http2/co_http2_huffman.c:2666-2741 | an instance: `custom-value`, appendix C.4.3 |
| HpackExamples.ThreeRequests | src/http2/co_http2_hpack.c:538-721 | at any table size that holds the fields, the three requests of appendix C.4 of RFC 7541 are printed byte for byte as they stand there, table and all |
| CStrings.StatusRoundTrip | src/http2/co_http2_hpack.c:672-700 | a status number printed in decimal and scanned again is the same number, for all 16-bit values |
| StaticTable.Find | src/http2/co_http2_hpack.c:514-536 | the hashed lookup finds only an entry with the name looked for, up to case |
| StaticTable.FindsPseudoHeaders | src/http2/co_http2_hpack.c:20-74 | the names of the pseudo-headers hash to their slots, and each is found at its first entry |
| StaticNames.TableIsTheStandards | src/http2/co_http2_hpack.c:21-47 | all 61 names are those of appendix A of RFC 7541, and the program has a value exactly where the standard's is not empty, the same one |
| StaticNames.EveryNameIsFound | src/http2/co_http2_hpack.c:49-87 | every one of them hashes to its slot and is found, at its first entry |
| DynamicTable.EvictsWhatDoesNotFit | src/http2/co_http2_hpack.c:366-376 | eviction leaves the longest newest-first prefix that fits, keeps the total right, and never reads an absent tail |
| DynamicTable.LongestFitUnique | src/http2/co_http2_hpack.c:402-424 | that prefix is the only one of its kind |
| DynamicTable.AddKeepsSoundExactly | src/http2/co_http2_hpack.c:379-442 | an addition keeps the total equal to the sum of the sizes and within the bound if and only if the 32-bit total does not wrap |
| DynamicTable.ResizeKeepsSound | src/http2/co_http2_hpack.c:349-376 | a resize keeps the table sound and leaves the longest prefix that fits the new bound |
| DynamicTable.CountedEvicts | src/http2/co_http2_hpack.c:366-376 | even with a total that has wrapped, eviction ends within the bound and never reads an absent tail |
| DynamicTable.SoundExactly | src/http2/co_http2_hpack.c:379-400 | a table the program made holds the total of section 4.1 of RFC 7541 if and only if that total is below 2^32 |
| DynamicTable.IndicesFit | src/http2/co_http2_hpack.c:462-472 | a table within its bound holds fewer than 2^27 entries, so the index of none of them wraps |
| DynamicTable.DynamicTable.EvictOldest | src/http2/co_http2_hpack.c:366-376 | the eviction loop terminates in the specified table |
| DynamicTable.DynamicTable.AddItem | src/http2/co_http2_hpack.c:379-442 | the new entry at the head, then eviction |
| DynamicTable.DynamicTable.Resize | src/http2/co_http2_hpack.c:349-376 | a bound of 0 empties the table, any other evicts |
| DynamicTable.DynamicTable.FindItem | src/http2/co_http2_hpack.c:444-473 | the index of the newest entry equal up to case, or none |
| DynamicTable.DynamicTable.FindItemByIndex | src/http2/co_http2_hpack.c:476-512 | the entry with an index, or none past the end |
| Hpack.UndefinedExactly | src/http2/co_http2_hpack.c:814-877 | on any bytes and any table of the program, one representation leaves defined ground if and only if it is the index of a static entry whose value is absent or past the value table, which its first byte tells unless the index is longer |
| Hpack.WrappedIndexUndefined | src/http2/co_http2_hpack.c:136-163 | an instance in which a longer index wraps to such an entry |
| HpackWire.FirstBits | src/http2/co_http2_hpack.c:538-935 | the first byte of every representation is the one drawn in section 6 of RFC 7541 |
| HpackWire.Decodes | src/http2/co_http2_hpack.c:723-935 | every representation a peer may send, with its name by index or spelled out, any bytes for strings and either encoding, in front of anything: it gives exactly the field it stands for, changes the table only if it is to be indexed or is a size update, and uses exactly its bytes; it is refused exactly with an unknown index or an empty Huffman-coded string |
| HpackWire.SizeDecodes | src/http2/co_http2_hpack.c:855-869 | a table size update gives no field and leaves the longest newest-first prefix that fits |
| HpackWire.BlockDecodes | src/http2/co_http2_hpack.c:796-935 | a block of any representations is read one after the other, to the end or to the first that is refused |
| Hpack.BlockKeepsCounted | src/http2/co_http2_hpack.c:796-935 | no block of any bytes leaves a table whose 32-bit sizes and total are wrong modulo 2^32, and it is sound if and only if its entries are below 2^32 in all |
| HpackCodec.SerializeString | src/http2/co_http2_hpack.c:224-257 | the string printer appends length and body as specified |
| HpackCodec.SerializeHeaderField | src/http2/co_http2_hpack.c:538-569 | one field is printed as specified and the table is updated with it |
| HpackCodec.SerializeHeader | src/http2/co_http2_hpack.c:571-721 | a header is printed part by part as the specified emissions in order, table included |
| HpackCodec.DeserializeString | src/http2/co_http2_hpack.c:259-296 | the string parser, with the automaton, agrees with the reference decoder on any bytes |
| HpackCodec.DeserializeHeaderField | src/http2/co_http2_hpack.c:723-794 | a literal is parsed as specified, name by index or spelled out |
| HpackCodec.DeserializeOne | src/http2/co_http2_hpack.c:810-926 | one representation is dispatched and parsed as specified, table included, on any bytes; it tells malformed ones from those on which the program reads an absent static value |
| HpackCodec.DeserializeHeader | src/http2/co_http2_hpack.c:796-935 | the block loop yields exactly the specified outcome, header and table on any bytes |
| HpackRoundTrip.StringRoundTrip | src/http2/co_http2_hpack.c:224-296 | a printed string of any bytes comes back up to its first NUL with its exact length, unless it is empty and Huffman-coded |
| HpackRoundTrip.AddInStep | src/http2/co_http2_hpack.c:379-442 | adding the same field, under the name as it arrives, keeps two tables in step entry by entry, in total and in what is evicted |
| HpackRoundTrip.OneRoundTrip | src/http2/co_http2_hpack.c:538-935 | one emission, at tables in step, is parsed to exactly what the sender's own table says it arrives as, and leaves the tables in step; with an empty string it is malformed |
| HpackRoundTrip.BlockRoundTrip | src/http2/co_http2_hpack.c:571-935 | a whole block parses if and only if none of its strings is empty, and then to the header its arrivals build |
| HpackRoundTrip.EmissionsMean | src/http2/co_http2_hpack.c:571-721 | replaying what the printer sends for a header rebuilds the header up to case, for field names that are not pseudo-headers |
| HpackRoundTrip.ConnectionRoundTrip | src/http2/co_http2_hpack.c:571-935 | over any sequence of headers, every one comes back up to case, as the sender's table predicts, and both tables agree after every block, if and only if no string sent is empty |
| HpackRoundTrip.NewTablesInStep | src/http2/co_http2_hpack.c:321-335 | two new tables of the same size start in step |
| HpackRoundTrip.ShortHeadersAreSendable | src/http2/co_http2_hpack.c:379-442 | strings below 2^30 bytes and fewer than 2^32 fields in all are enough for the connection results, at any table size |
| HpackRoundTrip.DefaultConnection | src/http2/co_http2_client.c:92-97 | with two new tables of the size the program uses, 2^32 - 1, any such headers come back up to case if and only if no string sent is empty |
| HpackRoundTrip.NothingIsEvicted | src/http2/co_http2_hpack.c:366-376 | at that size printing only puts entries in front of what the table holds, whatever its 32-bit total |
| HpackRoundTrip.SkippedBlockExactly | src/http2/co_http2_stream.c:612-641 | after a block the receiver skips undecoded, the tables are in step if and only if all its fields were in the sender's table already |
| HpackRoundTrip.CaseKeptExactly | src/http2/co_http2_hpack.c:444-473 | over a connection all headers come back byte for byte if and only if, for every field, the entry of the sender's own table, the static name or the constant form it is sent by is spelled the same |
| HpackRoundTrip.CaseIsLost | src/http2/co_http2_hpack.c:462-468 | an instance in which it is not |
| Frame.FrameRoundTrip | src/http2/co_http2_frame.c:33-533 | an unpadded frame of any constructor, whatever follows it, is parsed back using exactly its bytes if and only if its length fits the receiver's maximum and 24 bits |
| Frame.StrictPrefixNeedsMore | src/http2/co_http2_frame.c:219-253 | every strict prefix of such a frame asks for more data |
| Frame.PaddedInStepExactly | src/http2/co_http2_frame.c:675-690 | a DATA, HEADERS or PUSH_PROMISE frame leaves the parser in step with the printer if and only if it has no padding |
| Frame.PayloadRoundTrip | src/http2/co_http2_frame.c:53-208 | each of the ten payloads is parsed back from its printed bytes |
| Frame.PastEndExactly | src/http2/co_http2_frame.c:270-528 | on any bytes the payload parser runs past the end of the buffer if and only if less is there than padding, fixed fields and the remaining length, wrapped if negative, come to; otherwise it uses exactly that much |
| Frame.OwnBytesExactly | src/http2/co_http2_frame.c:270-528 | with just the frame's own bytes there, it runs past the end if and only if the length does not cover padding and fixed fields; a frame whose length does never uses more than it |
| FrameWire.ConstructorsConform | src/http2/co_http2_frame.c:33-209 | what the constructors build, unpadded, is printed as the standard draws it, and its flags and length fit |
| FrameWire.Decodes | src/http2/co_http2_frame.c:211-533 | every frame of section 6 of RFC 7540, padded or not, from any sender and with any other flags, in front of anything: it is taken apart into its own fields and uses exactly its bytes, if its length is within the maximum, and is an error otherwise |
| FrameWire.SettingsDecodeExactly | src/http2/co_http2_frame.c:404-417 | SETTINGS are left with exactly their bytes used if and only if they have fewer than 2^16 parameters |
| FrameStream.ParseStable | src/http2/co_http2_frame.c:211-533 | a finished or failed parse does not change when more bytes come |
| FrameStream.DrainIncremental | src/http2/co_http2_client.c:459-541 | draining in two reads is draining at once, and neither runs past the buffer, on bytes in which no frame reached goes beyond what is there when its length is |
| FrameStream.SegmentationIsIrrelevant | src/http2/co_http2_client.c:459-541 | two ways of cutting such a stream of bytes into reads deliver the same frames and end the same way, and never run past the buffer |
| FrameStream.SomeCutLosesExactly | src/http2/co_http2_client.c:459-541 | of any stream of bytes some cutting into reads makes the parser run past the buffer if and only if it is not such a stream |
| FrameStream.ContainedIsGuarded | src/http2/co_http2_frame.c:270-528 | streams of frames whose lengths cover padding and fixed fields are such streams |
| FrameStream.ShortFrameDependsOnReads | src/http2/co_http2_frame.c:347-356 | an instance of one that is not: RST_STREAM of length 0, delivered or read past the buffer according to the reads |
| FrameStream.FramesSurviveReads | src/http2/co_http2_client.c:459-541 | however printed frames are cut into reads, after every read exactly the completed ones are delivered, in order, and at the end all of them with nothing pending |
| FrameStream.Serialize | src/http2/co_http2_frame.c:33-209 | the printer appends exactly the specified bytes |
| FrameStream.DeserializePayload | src/http2/co_http2_frame.c:270-528 | the payload parsers agree with the specification on any bytes, wrapping lengths included |
| FrameStream.DeserializeParams | src/http2/co_http2_frame.c:404-417 | the settings loop reads exactly the listed parameters |
| FrameStream.Receiver.Deserialize | src/http2/co_http2_frame.c:211-533 | the position moves only past a complete frame |
| FrameStream.Receiver.OnReceive | src/http2/co_http2_client.c:438-541 | one call of the receive handler is one read of the specification, although the buffer is cleared only when used up |
| StreamStates.RankNeverDecreases | src/http2/co_http2_stream.c:160-395 | no frame moves a stream backwards, and Closed is final |
| StreamStates.StandardExactly | src/http2/co_http2_stream.c:160-395 | state by state, frame by frame, sent or received: the machine does what section 5.1 of RFC 7540 says, if and only if the case is not one of the listed departures |
| StreamStates.EndStreamOnHeaders | src/http2/co_http2_stream.c:183-231 | END_STREAM on HEADERS half-closes a stream if and only if it was not idle |
| StreamStates.SendCommutes | src/http2/co_http2_stream.c:204-350 | what may be sent now could also have been sent after hearing what is in flight, to the same effect, unless that closes the stream |
| StreamStates.StepKeepsInv | src/http2/co_http2_stream.c:400-446 | each send or receive at either end keeps the two ends mirrored once everything in flight has arrived |
| StreamStates.EndsAgree | src/http2/co_http2_stream.c:160-395 | over every run from open, with any frames, nothing that arrives is refused, and with nothing in flight the two states mirror each other |
| StreamStates.LateFrameNeedsTheTest | src/http2/co_http2_client.c:478-484 | a run of two sends after which a frame in flight would be refused by a closed stream if the receive loop did not skip it |
| FlowControl.TakeKeepsHealthy | src/http2/co_http2_stream.c:104-142 | whatever is consumed, the window stays within its size and 2^31-1, doubling stays within 32 bits, more than a fifth is left, every increment is legal and exact |
| FlowControl.RefillsExactly | src/http2/co_http2_stream.c:104-142 | an increment is sent if and only if at most a fifth of the size is left, and then the window is full at its new size and the increment is what was missing |
| FlowControl.SizeDoubles | src/http2/co_http2_stream.c:119-141 | over any run of consumptions from a window of size m, after k increments the size is the lesser of 2^k * m and 2^31 - 1 |
| FlowControl.GrantsExactly | src/http2/co_http2_stream.c:1266-1290 | an explicit update adds exactly what was asked for, or what is missing to 2^31 - 1 if that is less, as long as the sum fits 32 bits |
| FlowControl.IncrementsLegalExactly | src/http2/co_http2_stream.c:119-138 | all automatic increments are legal if and only if the window's size is not 0 |
| FlowControl.GrantSoundExactly | src/http2/co_http2_stream.c:1266-1290 | an explicit update keeps the books if and only if window plus increment fits 32 bits |
| FlowControl.LedgerBalances | src/http2/co_http2_stream.c:104-142 | over every run, local window = initial + all increments sent - all accepted DATA |
| FlowControl.CreditConserved | src/http2/co_http2_stream.c:432-439 | over every run of both ends, from any initial connection window and any initial stream window, on every stream and the connection, sender's window + updates in flight + DATA in flight + lost credit = receiver's window; so no allowed DATA is refused for its size and no WINDOW_UPDATE overflows |
| FlowControl.StepKeepsInv | src/http2/co_http2_client.c:304-319 | every step of either end keeps that balance for every stream |
| FlowControl.SendableIsExact | src/http2/co_http2_stream.c:1356-1369 | with nothing in flight or lost, the receiver accepts the next DATA if and only if the sender thinks it may send it |
| FlowControl.DroppedDataLeaksExactly | src/http2/co_http2_client.c:478-505 | after any run with nothing left in flight, the sender's connection window is behind the receiver's by the sizes of all DATA that was dropped or cancelled; they agree if and only if every such DATA was empty |
| StreamCredit.SendIsStep | src/http2/co_http2_stream.c:400-446 | DATA that a modelled stream sends is one step of those books: the same windows fall by the same amount |
| StreamCredit.ArriveIsStep | src/http2/co_http2_stream.c:477-611 | DATA that arrives at a modelled stream is one step, with the outcome its state and its handler give it; the WINDOW_UPDATE frames it sends are the amounts put in flight |
| StreamCredit.UpdateIsStep | src/http2/co_http2_stream.c:802-825 | a WINDOW_UPDATE that arrives on a stream is one step, known to the stream exactly if its state accepts it |
| StreamCredit.SystemUpdateIsStep | src/http2/co_http2_client.c:304-319 | so is one that arrives on the connection |
| StreamCredit.ExtendIsStep | src/http2/co_http2_stream.c:1266-1290 | so is an explicit one; where the state refuses the frame, the window has grown all the same and the credit is lost |
| StreamCredit.CreditHoldsForEnds | src/http2/co_http2_client.c:498-505 | over every run of two ends of a stream, with any answers of the handlers, in which DATA is sent as far as the sender's windows allow: the next DATA to arrive always fits the receiver's windows, and no WINDOW_UPDATE overflows the sender's |
| StreamModel.CutsAreRight | src/http2/co_http2_stream.c:964-1010 | cutting loses nothing, keeps order, respects the limit and wastes no frame |
| StreamDelivery.ContinuationsArrive | src/http2/co_http2_stream.c:826-898 | CONTINUATION frames all pass both state machines and complete the receiver's pool to the whole block |
| StreamDelivery.HeaderBlockArrives | src/http2/co_http2_stream.c:1015-1139 | a header block sent with one call reaches the decoder whole and once, and all its frames are sent, if and only if it fits one frame, or END_STREAM was not asked for, or the stream was idle or reserved |
| StreamDelivery.HeaderReportedExactly | src/http2/co_http2_stream.c:841-895 | when it is all sent, a handler is called if and only if it came in one frame |
| StreamDelivery.HeaderDecodedExactly | src/http2/co_http2_stream.c:612-641 | a header block reaches the decoder if and only if no header is held already |
| StreamDelivery.SecondBlockExactly | src/http2/co_http2_stream.c:612-641 | a second header block on a stream crashes the receiver if and only if it came in several frames and the first in one; if the first came in several too, the decoder is given it without its first piece |
| StreamDelivery.PooledNeverCrashes | src/http2/co_http2_stream.c:826-846 | a stream that has a header pool survives any run of any frames, with any answers of the handlers |
| StreamDelivery.HeaderFramesFitExactly | src/http2/co_http2_stream.c:1070-1079 | every frame is within the peer's limit if and only if there are no priority fields or the block leaves room for them |
| StreamDelivery.DataArrives | src/http2/co_http2_stream.c:933-1013 | data within the windows of both ends is sent in frames within the limit, END_STREAM on the last exactly if asked for; both sender windows fall by its size; the receiver gets the same bytes; the states mirror each other again |
| StreamDelivery.OversizedDataExactly | src/http2/co_http2_stream.c:953-1010 | of one call the DATA frames on the wire carry a front part of the data: all of it if and only if it fits the windows or they are shut, within the windows if and only if it is at most twice as much, and END_STREAM goes out although data is missing if and only if it was asked for and the data is cut |
| StreamErrors.AnsweredExactly | src/http2/co_http2_stream.c:477-909 | any frame that reaches an open or half-closed stream, with any answers of the handlers, is answered with exactly the RST_STREAM that its kind, the windows, the header and the answers call for, or with none, unless the program crashes on it |
| StreamErrors.ResetReportedExactly | src/http2/co_http2_stream.c:717-741 | a reset closes the stream and is reported; the stream is finished with its code unless that is CANCEL or REFUSED_STREAM |
| StreamErrors.PromiseArrivesExactly | src/http2/co_http2_stream.c:742-898 | the block of a promise is decoded and the promised stream created if and only if it came in one frame or the stream has its own header already |
| EndToEnd.BlockOnNewStream | src/http2/co_http2_server.c:140-203 | a block of any bytes on a stream new to the server, however it is cut into frames, comes to the decoder whole, and the server's table and headers become what the decoder says |
| EndToEnd.RequestsGoOut | src/http2/co_http2_stream.c:1059-1139 | all frames of headers on new streams are sent, block after block |
| EndToEnd.ServerDecodes | src/http2/co_http2_server.c:140-203 | the server's run over the frames of any blocks on new streams decodes them as if it had been given them in order, and nothing else; if one does not decode, headers are missing |
| EndToEnd.HeadersSurviveTheWay | src/http2/co_http2_stream.c:1015-1139 | headers sent on new streams, compressed, cut, printed, read in any pieces, collected and decoded: all of them come, each on its stream, in order and equal up to case, if and only if no string in them is empty, and then the tables are in step again |
| Stream.CuttingEndsExactly | src/http2/co_http2_stream.c:977-1000 | the cutting loop reaches the end of the data, in any number of turns, if and only if the frame size is not 0 or there is nothing to send; its calls are then those of the cut data |
| Stream.EmptyDataForever | src/http2/co_http2_stream.c:977-1000 | with a frame size of 0, one empty DATA frame that is let through is followed by any number, and the position stays where it is |
| Stream.Stream.SendPieces | src/http2/co_http2_stream.c:977-1000 | the loop, for any number of turns and any frame size, sends the calls of those turns and comes to their position |
| Stream.EmptyContinuations | src/http2/co_http2_stream.c:1094-1121 | with a frame size of 0, one CONTINUATION that is let through is followed by any number |
| StreamModel.AllSentEach | src/http2/co_http2_stream.c:992-998 | when no frame is refused, ignoring the result of each send makes no difference |
| Stream.Client.OnFrame | src/http2/co_http2_client.c:475-513 | one turn of the receive loop is one arrival of the specification, with accepted DATA charged to both windows |
| Stream.Client.OnSystemWindowUpdate | src/http2/co_http2_client.c:304-319 | the connection's window as all its streams see it grows by the increment, unless that passes the maximum, when the connection is closed |
| Stream.Stream.ChangeState | src/http2/co_http2_stream.c:160-395 | the nested switch on state, direction, type and END_STREAM makes the change and reports the error of the transition function, on which the results above rest |
| Stream.Stream.SendFrame | src/http2/co_http2_stream.c:400-446 | a frame is sent exactly if the machine accepts it, with the stream's id, and DATA lowers both remote windows |
| Stream.Stream.UpdateLocalWindow | src/http2/co_http2_stream.c:104-142 | the fields and the WINDOW_UPDATE sent are those of the specification, about which `FlowControl.RefillsExactly` and `FlowControl.SizeDoubles` say what they come to |
| Stream.Stream.UpdateRemoteWindow | src/http2/co_http2_stream.c:144-158 | the window falls by what was sent, and not below 0 |
| Stream.Stream.SendWindowUpdate | src/http2/co_http2_stream.c:1266-1290 | the same for an explicit update, clamped to the maximum |
| Stream.Stream.ExtendWindow | src/http2/co_http2_stream.c:1266-1290 | on a stream of a client that is the extension of the specification, and it is sent exactly if the state allows it |
| Stream.Stream.Sendable | src/http2/co_http2_stream.c:1356-1369 | the most that both remote windows allow, and nothing for the connection's own stream |
| Stream.Stream.OnReceiveFrame | src/http2/co_http2_stream.c:477-909 | every kind of frame, on any stream, changes it as specified, resets, handler calls and the crash included |
| Stream.Stream.OnData | src/http2/co_http2_stream.c:495-611 | DATA is checked against both windows, charged, and handed on or pooled |
| Stream.Stream.OnHeaders | src/http2/co_http2_stream.c:612-703 | HEADERS are decoded, pooled or skipped as specified |
| Stream.Stream.OnContinuation | src/http2/co_http2_stream.c:826-898 | CONTINUATION completes a pooled block as specified, or is the one that crashes for want of a pool |
| Stream.Stream.SendData | src/http2/co_http2_stream.c:933-1013 | the sending loop sends exactly the cut frames and returns how much it sent; oversized data and the connection's stream are refused; it fails to return if and only if there is data and the peer's frame size is 0 |
| Stream.Stream.SendHeader | src/http2/co_http2_stream.c:1015-1139 | the sending loops send the cut frames up to the first refused one, once per stream; with a peer frame size of 0 they end if and only if the state machine refuses one of the first two frames |
| WorkerInvariant.StepKeepsInv | src/core/co_event_worker.c:145-415 | every enabled step of the worker keeps ownership, order, schedule, closing and history |
| WorkerInvariant.EveryTimerOwnedOnce | src/core/co_event_worker.c:216-243 | in every reachable state a running timer is once in the list or once live in the queue, or was dropped after STOP, and a timer that does not run is in neither |
| WorkerInvariant.CancelAssertionHolds | src/core/co_event_worker.c:363-389 | the assertion in cancellation never fails in a reachable state |
| WorkerInvariant.ExactlyOnce | src/core/co_event_worker.c:294-339 | in every reachable state accepted events are the dispatched ones followed by the queue, in order, cancellation flags aside |
| WorkerInvariant.StopDrains | src/core/co_event_worker.c:145-182 | a run that STOP has ended has dispatched all it accepted |
| WorkerInvariant.FiresAnswerStarts | src/core/co_event_worker.c:216-243 | every firing answers one start, with no stop and no other firing of that timer between |
| WorkerInvariant.NoTimerIsEarly | src/core/co_timer.c:55-76 | in every reachable state a listed timer's deadline is the time of its last start plus its wait, and a timer queued or about to fire has reached it |
| WorkerInvariant.StartListsTimer | src/core/co_timer.c:55-76 | starting an idle timer lists it, due its wait from now |
| WorkerInvariant.StopForgetsTimer | src/core/co_timer.c:79-99 | after a stop the timer is neither in the list nor live in the queue |
| WorkerInvariant.DueTimerFires | src/core/co_event_worker.c:216-243 | a due timer of an idle worker is fired by the next check, pop and dispatch, and then runs again, due its wait from now, if and only if it repeats |
| WorkerInvariant.TimeoutIsExact | src/core/co_timer_manager.c:124-152 | the 32-bit timeout is 0 if and only if the head is due, and otherwise nothing in the list is due |
| WorkerInvariant.WaitEndsAtTheHead | src/core/co_timer_manager.c:124-152 | in every reachable state whose head is not due, now plus the wait is exactly the head's deadline |
| WorkerInvariant.AfterTheWait | src/core/co_event_worker.c:145-182 | after the clock has moved by the wait or more the head can expire; by anything less, nothing in the list can |
| WorkerInvariant.WaitsForeverExactly | src/core/co_timer_manager.c:124-152 | the wait is for ever if and only if there is no timer or the head is exactly 2^32 - 1 ms away |
| WorkerInvariant.LongestWait | src/core/co_timer.c:55-76 | an instance: the only timer, of the longest wait, just started |
| WorkerInvariant.TimeoutTruncates | src/core/co_timer_manager.c:140-148 | without the invariant's bound the cast would take a deadline 2^32 ms away for due |
| WorkerInvariant.InsertionIsFifo | src/core/co_timer_manager.c:56-94 | insertion keeps the list sorted and goes behind entries with the same deadline |
| Queue.DoublingFits | src/core/co_queue.c:91-132 | both growth copies stay in bounds because the capacity at least doubles |
| Queue.Queue.SetCapacity | src/core/co_queue.c:91-132 | any growth keeps the contents, wrapped or full, exactly if both copies fit the new buffer |
| Queue.Queue.Push | src/core/co_queue.c:135-164 | appends one element |
| Queue.Queue.Pop | src/core/co_queue.c:167-191 | removes and returns the first element, if there is one |
| Queue.Queue.PushArray | src/core/co_queue.c:194-244 | appends all elements in order, in one copy or two |
| Queue.Queue.PeekArray | src/core/co_queue.c:262-295 | copies the first elements, as many as there are |
| Queue.Queue.PopArray | src/core/co_queue.c:247-259 | copies and removes them |
| Queue.Queue.Remove | src/core/co_queue.c:298-318 | drops the first elements, as many as there are |
| Queue.Queue.Find | src/core/co_queue.c:334-386 | the earliest match in queue order, or none |
| LinkedList.List.AddHead | src/core/co_list.c:155-187 | a new first element, all links right |
| LinkedList.List.AddTail | src/core/co_list.c:190-223 | a new last element |
| LinkedList.List.RemoveHead | src/core/co_list.c:257-284 | the first element gone, if there was one |
| LinkedList.List.RemoveTail | src/core/co_list.c:286-313 | the last element gone, if there was one |
| LinkedList.List.RemoveAt | src/core/co_list.c:329-354 | the element at a position gone, its neighbours linked |
| LinkedList.List.Insert | src/core/co_list.c:432-465 | a new element in front of a position |
| LinkedList.List.InsertAfter | src/core/co_list.c:467-500 | a new element behind a position |
| LinkedList.List.Find | src/core/co_list.c:584-603 | the first node with a matching value, or none |
| LinkedList.List.Contains | src/core/co_list.c:134-152 | whether some value matches |
| TimerManager.TimerManager.Register | src/core/co_timer_manager.c:56-94 | the entry is inserted before the first that ends strictly later |
| TimerManager.TimerManager.Unregister | src/core/co_timer_manager.c:97-121 | the first entry of the timer is removed, if there is one |
| TimerManager.TimerManager.GetNextTimeout | src/core/co_timer_manager.c:124-152 | the wait for the head, cast to 32 bits; with a head less than 2^32 ms away, now plus the wait is its deadline |
| TimerManager.TimerManager.RemoveHeadTimer | src/core/co_timer_manager.c:154-172 | the head and its timer |
| EventWorker.EventWorker.Add | src/core/co_event_worker.c:294-320 | the add step of the state machine, and whether the event was accepted |
| EventWorker.EventWorker.StartTimer | src/core/co_timer.c:55-76 | the start step |
| EventWorker.EventWorker.StopTimer | src/core/co_timer.c:79-99 | the stop step, in whichever place the timer is |
| EventWorker.EventWorker.DestroyTimer | src/core/co_timer.c:43-53 | stop, and the timer is forgotten |
| EventWorker.EventWorker.UnregisterTimer | src/core/co_event_worker.c:363-389 | a queued timer's event is marked in place; any other timer leaves the list |
| EventWorker.EventWorker.CheckTimer | src/core/co_event_worker.c:391-415 | a run of expiries after which nothing in the list is due at the last clock read |
| EventWorker.EventWorker.Pump | src/core/co_event_worker.c:323-339 | expiries, then the oldest event taken from the queue |
| EventWorker.EventWorker.Dispatch | src/core/co_event_worker.c:216-281 | the dispatch step for each kind of event |
| EventWorker.EventWorker.Run | src/core/co_event_worker.c:145-182 | the main loop, with events added by other threads during waits and handlers that post, start, stop and destroy, is a run of the state machine; stopped, it leaves an empty queue |
| Chunked.LineScans | src/http/co_http_content_receiver.c:95-113 | a printed size is scanned to the same number, in at most eight digits |
| ChunkedWire.DigitsAreHexadecimal | src/http/co_http_content_receiver.c:95-113 | digits are printed in lower case and scanned in either |
| ChunkedWire.HexIsNumber | src/http/co_http_server.c:251-289 | a size is printed as its number to the base 16, without leading zeros |
| ChunkedWire.LineIsScanned | src/http/co_http_content_receiver.c:95-113 | any sender's size line of up to 16 characters, with leading zeros or an extension, is scanned to the number of its digits |
| ChunkedWire.BodyDecodes | src/http/co_http_content_receiver.c:75-198 | of any body in the form of section 4.1 of RFC 7230, within the limits, given at once, exactly the payload is handed on, and the reader stops two bytes behind the last size line |
| ChunkedWire.NothingOverExactly | src/http/co_http_content_receiver.c:182-194 | so it stops right behind the body if and only if there are no trailer fields |
| ChunkedWire.LongLineRefused | src/http/co_http_content_receiver.c:103-108 | a size line of more than 16 characters is an error |
| ChunkedWire.LargeChunkRefused | src/http/co_http_content_receiver.c:110-122 | a chunk above the limit ends the body before any of it is handed on |
| ChunkedWire.RefusalEnds | src/http/co_http_content_receiver.c:158-174 | on any bytes a handler changes nothing until it refuses a piece, and then nothing more is handed on |
| ChunkedWire.RefuserGetsNothing | src/http/co_http_content_receiver.c:158-174 | a handler that takes nothing ends any body that has something to hand on |
| Chunked.Resume | src/http/co_http_content_receiver.c:75-198 | wherever in a printed body the last read ended, the next one continues rightly, and if it ended inside the last two bytes, reads on behind the body as if chunks followed |
| Chunked.SendChunked | src/http/co_http_server.c:251-289 | size line, data and line end, in that order |
| ContentReceiver.BodySurvivesReads | src/http/co_http_content_receiver.c:75-198 | over any cutting of a printed body into reads, with anything behind it, what is handed on is a prefix of the payload until all of it has come; the receiver then stops, with just what followed in that read pending, if and only if no read ended between the last size line and the final line end; otherwise it hands on what follows as chunks of the same body |
| ContentReceiver.NextMessageTaken | src/http/co_http_content_receiver.c:90-131 | an instance: a chunk of the next message is handed on as part of an empty body |
| ContentReceiver.EmptyChunkEnds | src/http/co_http_server.c:251-297 | an empty chunk ends the body wherever it is printed |
| ContentReceiver.PlainBodySurvivesReads | src/http/co_http_content_receiver.c:20-73 | a body of known length: exactly its first bytes are handed on, it is complete exactly when all have come, and the rest is left alone |
| ContentReceiver.Receiver.ReceiveChunked | src/http/co_http_content_receiver.c:75-198 | the loop's fields and result are those of the specification on any bytes |
| ContentReceiver.Receiver.ReceivePlain | src/http/co_http_content_receiver.c:20-73 | the same for a known length |
| ContentReceiver.Receiver.MoreDataNext | src/http/co_http_content_receiver.c:328-345 | the unread bytes stay the same, and a used-up buffer is cleared |
| HashBlocks.PaddingIsInjective | src/http/co_sha1.c:231-256 | two messages with the same padded form are the same message |
| HashBlocks.BitsAreTheLength | src/http/co_sha1.c:239-244 | the two words of the bit count are the length below 2^61 bytes |
| HashBlocks.PaddedIs | src/http/co_sha1.c:231-256 | the padded message place by place: the message, one bit, zeros, the length in the last eight bytes, and no more blocks than that takes |
| HashBlocks.WordsAreTheLength | src/http/co_sha1.c:239-244 | for every length the two words are eight times it modulo 2^64 |
| HashBlocks.FoldOneMore | src/http/co_sha1.c:206-224 | one more whole block is one more compression, of that block |
| Sha1.SafeExactly | src/http/co_sha1.c:195-229 | below 2^32 bytes waiting and new, every branch and every loop test of an update is right; from there on the wrapped sum is at most 63 and the copy runs beyond the 64-byte buffer |
| Sha1.CountCarries | src/http/co_sha1.c:195-204 | the carry between the two count words is right for every size |
| Sha1.LengthIsBigEndian | src/http/co_sha1.c:237-256 | the last eight bytes of every padded message, read as one big-endian number, are its length in bits modulo 2^64 |
| Sha1.DigestIsWords | src/http/co_sha1.c:258-263 | each four bytes of the digest, read big-endian, are a word of the state |
| Sha1.InitialBytes | src/http/co_sha1.c:175-186 | the words it starts from, written out, are the bytes of section 6.1 of RFC 3174 |
| Sha1.Context.Update | src/http/co_sha1.c:188-229 | for every 32-bit size: it stays inside its buffer if and only if that bound holds, and then the state is that of all whole blocks so far and the buffer holds the rest |
| Sha1.Context.Final | src/http/co_sha1.c:231-264 | the padding loop ends, and the digest is that of the padded message |
| Sha1.HashPieces | src/http/co_sha1.c:188-278 | any partition of a message into updates that all keep the bound gives the hash of the whole message |
| Md5.CountCarries | src/http/co_md5.c:173-182 | the 29-bit byte count and its carry are right for every size |
| Md5.BitsFromBytes | src/http/co_md5.c:240-249 | the shifted byte count is the bit count modulo 2^64 |
| Md5.LengthIsLittleEndian | src/http/co_md5.c:238-249 | the last eight bytes of every padded message, read as one little-endian number, are its length in bits modulo 2^64 |
| Md5.DigestIsWords | src/http/co_md5.c:253-256 | each four bytes of the digest, read little-endian, are a word of the state |
| Md5.InitialBytes | src/http/co_md5.c:150-164 | the words it starts from, written out, are the bytes of section 3.3 of RFC 1321 |
| Md5.Context.Update | src/http/co_md5.c:166-213 | the state is that of all whole blocks so far, and the buffer holds the rest |
| Md5.Context.Final | src/http/co_md5.c:215-259 | padding in the buffer, in one block or two, gives the digest of the padded message |
| Md5.HashPieces | src/http/co_md5.c:166-273 | any partition of a message into updates gives the hash of the whole message |
| Base64.GroupKeepsNumber | src/http/co_base64.c:46-53 | three bytes and their four sextets are the same 24-bit number |
| Base64.LettersAreTheAlphabet | src/http/co_base64.c:83-87 | the letters are those of tables 1 and 2 of RFC 4648 |
| Base64.EncodedLength | src/http/co_base64.c:19-44 | with its padding a text has four characters for every three bytes begun |
| Base64.Examples | src/http/co_base64.c:19-68 | instances: texts of section 10 of RFC 4648 |
| Base64.MeaningExactly | src/http/co_base64.c:102-119 | of the first 128 characters the decoder takes exactly the letters of both alphabets, `!` and `:`, and skips exactly line ends and `=` |
| Base64.RefusedExactly | src/http/co_base64.c:93-167 | any text is refused if and only if it has a bad character |
| Base64.ReadConcat | src/http/co_base64.c:93-167 | texts one behind the other are read one behind the other |
| Base64.DecodedAgain | src/http/co_base64.c:121-161 | decoding any sextets and encoding the bytes gives the same sextets, as far as they fill bytes |
| Base64.RoundTrip | src/http/co_base64.c:19-167 | every byte string, in either alphabet, padded or not, decodes to itself, and the length reported is its length |
| Base64.ReportedExactly | src/http/co_base64.c:121-161 | the length reported is the number of bytes written if and only if the skipped characters are no more than the last group lacks |
| Base64.CeilThirdIs | src/http/co_base64.c:16-30 | the rounded-up division over reals is the number of groups |
| Base64.EncodeText | src/http/co_base64.c:19-68 | the encoding loop writes exactly the text, inside its buffer, ended by a NUL |
| Base64.DecodeText | src/http/co_base64.c:93-167 | the decoding loop accepts exactly texts without bad characters and writes exactly their bytes, inside its buffer |

## Left out

- AutomatonTable.AutomatonExists: the automaton is built from the code; the 4096 shipped entries are not copied, so that they are the ones built is left to their comparison.
- AutomatonTable.ShippedAutomaton: makes an automaton for the shipped code; that the 4096 shipped entries are one is left to their comparison with it.
- Automaton.DecodeString: takes the table as a parameter that implements the code; the 4096 shipped entries are not copied.
- HpackRoundTrip.ConnectionRoundTrip: `:path` is an opaque string, because co_url is not part of this model, and both ends start with the same table size, because no SETTINGS or table size update reaches the tables in the program either.
- StreamStates.EndsAgree: starts from an open stream; a stream's creation, push promises and `co_http2_stream_set_protocol_mode`, which overwrites the state, are left out of the runs.
- FlowControl.CreditConserved: both ends know the same two initial windows from the start; the program does not apply a later SETTINGS_INITIAL_WINDOW_SIZE to existing streams.
- Stream.Stream.OnReceiveFrame: what handlers answer and whether the HPACK decoder accepts a block are parameters, and handlers do not call back into the stream; a promised stream's own creation is only an event.
- Stream.Stream.SendData: a call that would not return is told apart; the frames it goes on sending are the matter of `Stream.EmptyDataForever`.
- StreamCredit.CreditHoldsForEnds: is about one stream and its connection; `FlowControl.CreditConserved` has any number of streams.
- EndToEnd.HeadersSurviveTheWay: the server's map of streams is on values, all frames are those of headers on new streams within its limit on streams, blocks stay below 2^32 bytes, priority fields fit beside the block (`StreamDelivery.HeaderFramesFitExactly`), stream ids do not wrap, and the handlers accept.
- EventWorker.EventWorker.Run: the waits, the events of other threads and what handlers do are a finite supply, each worker function is one atomic step, and handlers create no timers inside the loop; the state machine itself has creation at any time.
- Sha1.Context.Update: past the bound of `SafeExactly` nothing is said about the memory the copy overwrites.
- Queue.Queue.SetCapacity: where the copies do not fit, nothing is said about the memory they overwrite.
- ContentReceiver.BodySurvivesReads: the handler accepts every piece; a refusal is modelled in the receiver, where it ends the call.
- The reuse of stream ids, and padded frames sent by the program, beyond their loss of step.
- SETTINGS, PING and GOAWAY handling on the connection, the upgrade from HTTP/1.1, and what the server's handlers do with a request.
- Sockets, TLS, selectors, logging, threads and semaphores; sending always succeeds. The unlocked search of the queue during cancellation is a data race that atomic steps do not show.
- Allocation failure and who frees what.
- `co_map`, replaced by finite maps; removing a bucket's head there drops what follows it.
- The rounds inside the SHA-1 and MD5 transforms.
- `co_array.c`, on which byte arrays are built, is not part of this model; a byte array is taken to append and clear, and clearing an absent one to do nothing.
- Cookies, authentication, tokens, configuration, addresses, WebSocket.
