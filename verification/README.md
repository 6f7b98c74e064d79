# Wireframe, modelled and proved in Dafny

This project models the parts of the Wireframe library where bytes, frames and queues have to
come out right, and proves what they promise over all inputs and all runs.

* **RESP codec.** An incremental recursive-descent parser with depth, element and byte limits,
  a printer, and a separately written length calculator. The parser is proved to recognise
  exactly a grammar of concrete syntax trees, to be stable under arriving bytes, and to decide
  within a number of bytes linear in the frame limit; printing and parsing are inverse exactly
  on the frames the wire form can carry. Numerals and UTF-8 text have definitions of their own,
  and each kind of malformed or unfinished input is proved to get its own answer.
* **Stream decoders.** A reader that drains a decoder after every arrival gives the same frames,
  first error and leftover for every chunking, for RESP, Hotline and MySQL, and delivers exactly
  what was sent.
* **Connection actor.** Producers, dropped senders and cancellation are environment steps; the
  select loop and its handlers are actor steps. Source counting, conservation of frames, the
  command-end hook, correlation stamping, graceful shutdown and the bound on how long
  high-priority traffic can hold back a low-priority frame hold in every run; whole runs against
  any schedule of producers are proved to terminate once the producers have gone.
* **Message assembler.** Keyed assemblies with size limits, aggregate budgets, declared totals
  and timeouts: state and outcomes as functions of what arrived, memory bounds, contents of
  dispatched messages, and for any interleaving exactly when keys are independent and when a
  message is delivered.
* **Fragmentation.** Splitting, the embedded header, the ordering tracker, the reassembler with
  its running byte counter and its answers as functions of what arrived, the packet round trip,
  delivery of interleaved messages, and exactly which frame budgets the derived fragment size
  keeps for payloads that memory can hold.
* **Length prefixes.** One, two, four and eight bytes in both byte orders, inverse both ways.

Code that updates things in place is modelled in place: `BytesMut` is a `Buffer` object, the
actor, its lifecycle state and its fairness tracker, the assembler, the reassembler, the splitter
and the series tracker are classes, and every method is proved equal to a function on values.
The theorems are about those functions. Code that only computes is functions.

Modelling decisions:

* Integers are unbounded with the source's widths written out; `usize` is 64 bits wide.
* UTF-8 is defined as in section 4 of RFC 3629; `str::parse::<i64>` and `itoa` follow their
  documentation; each `io::Error` message is a constructor of its own.
* bincode's standard configuration is modelled from its specification: one byte below 251, then
  tags 251, 252 and 253 with two, four and eight little-endian bytes.
* Times are natural numbers passed in. A sum over a hash map is a sum over a finite map.
* A queue is a sequence and a closed flag; a closed queue takes no more sends.
* The `before_send` hook is a function of the number of frames already sent and the frame, which
  covers stateful hooks within a run; `stream_end_frame` runs at most once per run.
* A run starts with both queues installed.
* Automatic induction is switched off; every inductive proof is written out.

Where code and comments disagree, the code is followed:

* `LengthFormat::try_new` admits widths 3, 5, 6 and 7, but reading and writing always fail for
  them (`LengthPrefix.UsableWidths`).
* The comment at `src/fragment/payload.rs:32-34` calls the header fixed-width; it is not, and
  `encoded_fragment_ceiling` bounds a full fragment only while both numbers encode to one byte
  (`FragmentBudget.CeilingHolds`). The 32 guard bytes absorb the growth exactly.
* `FragmentSeries::accept` is documented to answer a repeated index as a duplicate; the repetition
  of a last fragment at the largest index is answered as an already complete series instead
  (`FragmentSeries.AnswersByCount`).
* A protocol error on a response stream drops what the stream still held, so a run that ends
  normally has emitted a response only up to its first error (`ActorTheorems.Conservation`).

## Model

| member | source | states |
|---|---|---|
| `Decimal.DigitsRoundTrip` | examples/resp_codec_impl/encode.rs:89-94 | the digits printed for a length have that length as their value |
| `Decimal.DigitsShortest` | examples/resp_codec_impl/parse.rs:236-239 | no digit string for a value is shorter than the canonical one |
| `Decimal.FormatRoundTrip` | examples/resp_codec_impl/encode.rs:80-85 | every i64, the smallest included, parses back from its printed text |
| `Decimal.FormatShortest` | examples/resp_codec_impl/parse.rs:152-155 | re-printing a number that was parsed with signs or leading zeros never lengthens it |
| `Decimal.ParsesNumerals` | examples/resp_codec_impl/parse.rs:152-155 | a text is read as a number exactly if it is a sign the number may have, zeros, and its digits, and the number is an i64 |
| `Decimal.CountDigits` | examples/resp_codec_impl/encode.rs:114-121 | the counting loop agrees with the printed digits (also parse.rs:52-59) |
| `Decimal.CountSigned` | examples/resp_codec_impl/encode.rs:124-132 | the signed count equals the printed length, minus sign and smallest i64 included |
| `Utf8.AsciiIsValid` | examples/resp_codec_impl/parse.rs:98-100 | ASCII lines pass the UTF-8 decision |
| `Utf8.ValidExactly` | examples/resp_codec_impl/parse.rs:98-100 | exactly the encodings of sequences of Unicode scalar values are accepted as text |
| `RespGrammar.CanonicalBytes` | examples/resp_codec_impl/encode.rs:62-111 | the printer's output is the byte form of one particular syntax tree |
| `RespGrammar.CanonicalSpells` | examples/resp_codec_impl/encode.rs:62-111 | that tree is within every parser limit for every carriable, shallow frame that fits |
| `RespGrammar.SpellingSound` | examples/resp_codec_impl/parse.rs:286-342 | whatever can be spelt within the limits is shallow, carriable and at least as long as its printed form |
| `RespGrammar.NumberIsLine` | examples/resp_codec_impl/parse.rs:211-215 | text that parses as a number contains no line break |
| `RespParse.ScanForLine` | examples/resp_codec_impl/parse.rs:374-400 | the byte loop computes the line specification, limits and partial input included |
| `RespParse.CollectItems` | examples/resp_codec_impl/parse.rs:321-331 | the cursor loop computes the item specification: the first obstacle decides |
| `RespTheorems.ScanMeaning` | examples/resp_codec_impl/parse.rs:374-400 | a found line is the text up to the first line break, within the limit |
| `RespTheorems.ScanFinds` | examples/resp_codec_impl/parse.rs:380-394 | a stored single-line text is found by the scan |
| `RespTheorems.FrameBounds` | examples/resp_codec_impl/parse.rs:345-371 | a parsed frame consumes at least one byte and nothing beyond the buffer |
| `RespTheorems.FrameStable` | examples/resp_codec_impl/parse.rs:345-371 | an answer is repeated on every buffer that shares the bytes it rests on |
| `RespTheorems.ArrayStable` | examples/resp_codec_impl/parse.rs:286-342 | the same for arrays, across their nested frames |
| `RespTheorems.PrefixStability` | examples/resp_codec_impl/parse.rs:84-89 | appending bytes changes no success or error; a success rests on exactly its bytes and was "need more" on every shorter prefix |
| `RespTheorems.FrameWithin` | examples/resp_codec_impl/parse.rs:345-371 | at any depth a parsed frame takes at most about twice the limit, and an undecided one has at most a linear number of bytes per level left |
| `RespTheorems.AlwaysDecides` | examples/resp_codec_impl/parse.rs:84-89 | no frame takes more than `Longest(max)` bytes, which is 2·max − 1 (max + 3 for limits below 4), and "need more" is answered only to at most 65·(max + 3 + 1023·Longest(max)) bytes |
| `RespTheorems.FrameSpelt` | examples/resp_codec_impl/parse.rs:345-371 | the bytes of an accepted frame are a spelling of it within all limits |
| `RespTheorems.BulkSpelt` | examples/resp_codec_impl/parse.rs:180-264 | the same for bulk strings: header, exact payload and terminator |
| `RespTheorems.FrameFinds` | examples/resp_codec_impl/parse.rs:345-371 | every spelling within the limits, anywhere in a buffer, is read as its frame and exactly its bytes |
| `RespTheorems.ParsesExactlyTheGrammar` | examples/resp_codec_impl/parse.rs:84-371 | a frame and a length are answered if and only if that many leading bytes spell that frame within the limits |
| `RespTheorems.RoundTrip` | examples/resp_codec_impl/encode.rs:62-111 | an encodable frame is read back from its encoding, whatever follows, if and only if it is carriable |
| `RespTheorems.Normalisation` | examples/resp_codec_impl/codec.rs:48-76 | an accepted frame re-encodes within the bytes it came from, and those bytes decode to it |
| `RespTheorems.LineBreakIsLost` | examples/resp_codec_impl/parse.rs:380-394 | a line break in a simple string is the concrete frame that does not survive |
| `RespErrors.LineVerdict` | examples/resp_codec_impl/parse.rs:374-400 | a line is refused, as too long, exactly when more than the limit has arrived without its end |
| `RespErrors.MarkVerdict` | examples/resp_codec_impl/parse.rs:345-371 | nesting beyond the limit, no byte yet, and an unknown marker get their own answers |
| `RespErrors.TextVerdict` | examples/resp_codec_impl/parse.rs:91-142 | a whole text line is the frame, or the invalid-text error of its kind |
| `RespErrors.NumberVerdict` | examples/resp_codec_impl/parse.rs:211-215 | a whole line is read as each number it is a numeral for, and refused exactly if it is a numeral for none |
| `RespErrors.IntegerVerdict` | examples/resp_codec_impl/parse.rs:143-160 | a whole integer line is the integer, or the invalid-integer error exactly if it is no numeral |
| `RespErrors.BulkVerdict` | examples/resp_codec_impl/parse.rs:180-284 | a bulk string is judged by its numeral, its canonical size, what has arrived and its end, each with its own answer |
| `RespErrors.ArrayVerdict` | examples/resp_codec_impl/parse.rs:286-342 | an array is judged by its numeral, its count, its items and its size, each with its own answer |
| `RespErrors.ItemsVerdict` | examples/resp_codec_impl/parse.rs:321-331 | if not all items are there, the answer is that of the first item that is not |
| `RespEncode.EncodedLenAt` | examples/resp_codec_impl/encode.rs:21-52 | the measured length is the encoding's length, and each error has its stated cause |
| `RespEncode.MeasureItems` | examples/resp_codec_impl/encode.rs:44-49 | the accumulation with overflow checks totals the encodings of all items |
| `RespEncode.EncodeFrameAt` | examples/resp_codec_impl/encode.rs:62-111 | emission succeeds exactly on frames within the depth limit and then appends the encoding |
| `RespEncode.EncodeItems` | examples/resp_codec_impl/encode.rs:105-107 | nested emission appends all items in order or stops at the depth limit |
| `RespEncode.NullLine` | examples/resp_codec_impl/encode.rs:86-99 | the constant null forms are the printed forms of length -1 |
| `RespCodec.RespAdapter.DecodeNext` | examples/resp_codec_impl/codec.rs:48-60 | a frame leaves with exactly its bytes; otherwise the buffer is untouched |
| `RespCodec.RespAdapter.Encode` | examples/resp_codec_impl/codec.rs:66-76 | accepted exactly when shallow and within the maximum, otherwise the error names which of the two failed; a rejected frame leaves the destination untouched |
| `RespCodec.DecodesExactly` | examples/resp_codec_impl/codec.rs:48-60 | the adapter yields exactly the frames spelt by the leading bytes within the limit, and reports longer ones as too large |
| `RespCodec.DecoderStable` | examples/resp_codec_impl/codec.rs:48-60 | the adapter's answers survive appended bytes and consume something |
| `RespCodec.RespChunkIndependence` | examples/resp_codec_impl/codec.rs:48-60 | frames, first error and leftover do not depend on the chunking |
| `RespCodec.RespTransport` | examples/resp_codec_impl/codec.rs:48-76 | frames sent, and then bytes that are no frame, arrive in any chunking: the frames complete and in order, the rest left over with its error, if any |
| `Streaming.DrainEarly` | src/codec/examples.rs:60-94 | draining before more bytes arrive changes nothing in the end |
| `Streaming.ChunkIndependence` | src/codec/examples.rs:60-94 | every stable decoder is independent of chunking |
| `Streaming.Transport` | src/codec/examples.rs:60-124 | the same for every stable decoder that reads each frame off its wire form |
| `ExampleCodecs.HotlineAdapter.Encode` | src/codec/examples.rs:100-124 | appends the wire form exactly when payload and frame sizes fit; otherwise nothing |
| `ExampleCodecs.HotlineAdapter.DecodeNext` | src/codec/examples.rs:60-94 | a frame leaves with exactly its bytes; otherwise the buffer is untouched |
| `ExampleCodecs.HotlineRoundTrip` | src/codec/examples.rs:60-124 | an encodable frame is decoded from its wire form, whatever follows |
| `ExampleCodecs.HotlineReencodes` | src/codec/examples.rs:60-94 | an accepted frame re-encodes to its input except for the eight reserved bytes |
| `ExampleCodecs.HotlineVerdict` | src/codec/examples.rs:62-94 | every header, whatever its reserved bytes, is judged by its fields and what follows, each case with its own answer |
| `ExampleCodecs.HotlineDecides` | src/codec/examples.rs:62-84 | a header and the maximum payload are always enough for an answer |
| `ExampleCodecs.HotlineStable` | src/codec/examples.rs:60-94 | answers survive appended bytes |
| `ExampleCodecs.HotlineChunkIndependence` | src/codec/examples.rs:60-94 | Hotline streams decode the same in any chunking |
| `ExampleCodecs.HotlineTransport` | src/codec/examples.rs:60-124 | the same for encodable Hotline frames |
| `ExampleCodecs.MysqlAdapter.Encode` | src/codec/examples.rs:233-262 | appends the wire form exactly when the payload fits both limits; otherwise nothing, with the right error |
| `ExampleCodecs.MysqlAdapter.DecodeNext` | src/codec/examples.rs:198-227 | a frame leaves with exactly its bytes; otherwise the buffer is untouched |
| `ExampleCodecs.MysqlRoundTrip` | src/codec/examples.rs:198-262 | an encodable frame is decoded from its wire form, whatever follows |
| `ExampleCodecs.MysqlReencodes` | src/codec/examples.rs:198-227 | the bytes consumed are exactly the wire form of the frame |
| `ExampleCodecs.MysqlVerdict` | src/codec/examples.rs:199-227 | every header is judged by its length and what follows, each case with its own answer |
| `ExampleCodecs.MysqlDecides` | src/codec/examples.rs:199-217 | a header and the maximum payload are always enough for an answer |
| `ExampleCodecs.MysqlStable` | src/codec/examples.rs:198-227 | answers survive appended bytes |
| `ExampleCodecs.MysqlChunkIndependence` | src/codec/examples.rs:198-227 | MySQL streams decode the same in any chunking |
| `ExampleCodecs.MysqlTransport` | src/codec/examples.rs:198-262 | the same for encodable MySQL frames |
| `Endian.LittleReads` | src/frame/conversion.rs:219-224 | little-endian bytes read back as the value exactly when it fits the width |
| `Endian.LittleWrites` | src/frame/conversion.rs:22-25 | every byte string is the little-endian form of its value |
| `Endian.BigReads` | src/frame/conversion.rs:203-216 | big-endian bytes read back as the value exactly when it fits the width |
| `Endian.BigWrites` | src/frame/conversion.rs:78-106 | every byte string is the big-endian form of its value |
| `Endian.BigIsReversed` | src/frame/conversion.rs:133-146 | the two byte orders are mirror images |
| `LengthPrefix.BytesToU64` | src/frame/conversion.rs:78-106 | the value of the leading bytes, or the error with its cause |
| `LengthPrefix.U64ToBytes` | src/frame/conversion.rs:234-260 | the prefix followed by zeros, or an error that leaves the array untouched |
| `LengthPrefix.WriteShifted` | src/frame/conversion.rs:219-224 | the byte loop writes the little-endian form |
| `LengthPrefix.WriteTrailing` | src/frame/conversion.rs:203-216 | the trailing bytes of the full width are the narrow big-endian form |
| `LengthPrefix.BigPadded` | src/frame/conversion.rs:38-61 | leading zeros leave a big-endian value unchanged |
| `LengthPrefix.LittlePadded` | src/frame/conversion.rs:62-67 | trailing zeros leave a little-endian value unchanged |
| `LengthPrefix.WriteLen` | src/frame/format.rs:100-112 | appends the prefix, or nothing on an error |
| `LengthPrefix.ReadLen` | src/frame/format.rs:86-94 | the length specification, errors included |
| `LengthPrefix.PrefixRoundTrip` | src/frame/format.rs:86-112 | a written length is read back, whatever follows |
| `LengthPrefix.LengthRoundTrip` | src/frame/format.rs:86-112 | every readable prefix is the one written for its value |
| `LengthPrefix.UsableWidths` | src/frame/format.rs:46-54 | of the admitted widths exactly 1, 2, 4 and 8 can be read or written |
| `Bincode.VarintRoundTrip` | src/fragment/payload.rs:60-62 | variable-width integers read back, for 32- and 64-bit targets |
| `Bincode.ReadsForms` | src/fragment/payload.rs:121-127 | an integer is read exactly from its forms, the shortest or a wider one |
| `Bincode.ReadFits` | src/fragment/payload.rs:121-127 | a value read for a target fits it |
| `FragmentWire.HeaderRoundTrip` | src/fragment/header.rs:25-34 | every header reads back with exactly its length |
| `FragmentWire.ReadsHeaders` | src/fragment/payload.rs:121-131 | a header is read to its last byte exactly from an identifier and an index in any form and a flag byte of 0 or 1 |
| `FragmentWire.EncodeFragmentPayload` | src/fragment/payload.rs:56-75 | the buffer built step by step is marker, length, header and body |
| `FragmentWire.FragmentPayloadRoundTrip` | src/fragment/payload.rs:56-131 | header and body are recovered from an embedded fragment |
| `FragmentWire.DecodesExactly` | src/fragment/payload.rs:87-131 | a fragment is found exactly in payloads whose header bytes are a header and end where announced; exactly payloads without marker and length pass as ordinary |
| `Fragmenter.Splitter.TakeMessageId` | src/fragment/fragmenter.rs:70-79 | identifiers are handed out once each, in order |
| `Fragmenter.Splitter.BuildFragments` | src/fragment/fragmenter.rs:131-195 | the slicing loop yields the numbered chunks, the last one marked, or the index overflow |
| `Fragmenter.Splitter.FragmentPacket` | src/fragment/packet.rs:82-111 | a fitting packet unchanged, or one embedded packet per fragment |
| `Fragmenter.PiecesCover` | src/fragment/fragmenter.rs:166-192 | the chunks concatenate to the payload, each within the cap and all but the last at it |
| `Fragmenter.PiecesCount` | src/fragment/fragmenter.rs:151-164 | as many chunks as the length over the cap rounded up, one for an empty payload |
| `Fragmenter.FragmentsFail` | src/fragment/fragmenter.rs:187-191 | splitting fails exactly when more than 2^32 fragments are needed |
| `Fragmenter.SmallPacketsUnmarked` | src/fragment/packet.rs:82-98 | a packet goes out as it is exactly if its payload fits, otherwise in several packets |
| `FragmentBudget.CapLeaves41` | src/fragment/config.rs:51-65 | a cap exists exactly from 42 bytes up and leaves 41 bytes |
| `FragmentBudget.PacketBound` | src/fragment/config.rs:39-65 | every packet produced under a budget up to 4 GiB and 19 bytes encodes within it |
| `FragmentBudget.HugeBound` | src/fragment/config.rs:39-65 | budgets so large that no payload a `Vec` can hold reaches index 251 with a nearly full fragment are kept too |
| `FragmentBudget.WidestLength` | src/fragment/packet.rs:100-109 | the encoded length of the last fragment of a packet with every identifier at full width |
| `FragmentBudget.BudgetIsKept` | src/fragment/config.rs:39-65 | over all identifiers and all payloads a `Vec` can hold, the budget is kept if and only if it is at most 4 GiB and 19 bytes or 252·(budget − 41) − 1 exceeds the longest `Vec` |
| `FragmentBudget.BudgetIsMet` | src/fragment/config.rs:35-37 | for every budget from 64 KiB and 20 bytes up to 4 GiB and 19 bytes some packet fills it to the last byte, so no guard byte is spare |
| `FragmentBudget.CeilingHolds` | src/fragment/config.rs:79-83 | the ceiling bounds a full fragment exactly while identifier and index are below 251 |
| `FragmentSeries.Tracker.AdvanceAccepted` | src/fragment/series.rs:58-76 | advancing past an index, or the overflow that changes nothing |
| `FragmentSeries.Tracker.AcceptNext` | src/fragment/series.rs:109-137 | the new state and the answer of one accept call |
| `FragmentSeries.RefusalKeepsState` | src/fragment/series.rs:109-137 | errors and duplicates leave the series as it was |
| `FragmentSeries.TakenInOrder` | src/fragment/series.rs:109-137 | from any unfinished state the fragments taken are consecutive and only the final one can be a last one |
| `FragmentSeries.CompletesOnce` | src/fragment/series.rs:121-123 | `Complete` is answered once if the series completes, else never |
| `FragmentSeries.SeriesOrder` | src/fragment/series.rs:26-137 | over any calls on a fresh series: indices 0, 1, 2, … without gaps and at most one completion, at the end |
| `FragmentSeries.TopIndex` | src/fragment/series.rs:58-76 | at the largest u32 index only a last fragment is taken |
| `FragmentSeries.AnswersByCount` | src/fragment/series.rs:109-137 | after any calls every answer follows from how many fragments were taken: repetition, gap, completion and overflow each get theirs |
| `Reassembler.PushBounded` | src/fragment/reassembler/mod.rs:188-213 | every push keeps the message, partial-count and aggregate limits |
| `Reassembler.MessageReassembler.PurgeExpiredAt` | src/fragment/reassembler/mod.rs:226-241 | exactly the expired partials go and the byte counter stays exact |
| `Reassembler.MessageReassembler.PushAt` | src/fragment/reassembler/mod.rs:188-213 | the new partials and the answer, with the byte counter exact |
| `Reassembler.MessageReassembler.RegisterFirst` | src/fragment/reassembler/first_fragment.rs:15-36 | a first fragment is retained only within all limits and only if more will follow |
| `Reassembler.MessageReassembler.AppendAndMaybeComplete` | src/fragment/reassembler/mod.rs:263-296 | the message grows or completes, or is dropped with the right error |
| `Reassembler.MessageReassembler.Release` | src/fragment/reassembler/budget.rs:87-103 | removing a partial releases exactly its bytes |
| `FragmentTheorems.ReplayAnyOrder` | src/fragment/series.rs:109-137 | fragments delivered in any order with repetitions and gaps: exactly the leading ones in turn are taken, completing once if that is all, with the payload |
| `FragmentTheorems.GapFreeDeliversAll` | src/fragment/series.rs:117-130 | an order without gaps that ends with the last fragment delivers all of them |
| `FragmentTheorems.PassThrough` | src/fragment/adapter.rs:101-126 | a small packet comes back as it was exactly when it carries no marker |
| `FragmentTheorems.SmallPacketRoundTrip` | src/fragment/adapter.rs:92-126 | a packet that fits travels as it is and comes back as it was exactly if it does not look like a fragment |
| `FragmentTheorems.FragmentIsPushed` | src/fragment/adapter.rs:101-126 | a packet that embeds a fragment is answered as the fragment is, with its own envelope around a whole message |
| `FragmentTheorems.MalformedIsRefused` | src/fragment/adapter.rs:101-126 | a marked packet that embeds nothing is a decoding error and changes nothing |
| `FragmentTheorems.TakeNext` | src/fragment/reassembler/mod.rs:263-325 | the fragment in turn extends the message in progress, or completes it with the whole payload |
| `FragmentTheorems.PacketRoundTrip` | src/fragment/adapter.rs:92-126 | a fragmented packet, repeated fragments allowed, comes back from a reassembler whose unexpired messages leave room, silent until its last fragment |
| `ReassemblyRuns.PushLocal` | src/fragment/reassembler/mod.rs:188-325 | a fragment that no crowd limit refuses is treated as if its message were alone |
| `ReassemblyRuns.MessagesIndependent` | src/fragment/reassembler/mod.rs:188-325 | in any interleaving a message fares as in its own run if and only if no limit on concurrent messages or total bytes refused one of its fragments |
| `ReassemblyRuns.DeliveredInterleaved` | src/fragment/reassembler/mod.rs:188-325 | in any interleaving, fragments in turn, with repetitions and in time bring the message with the last of them if and only if it is within the message limit and no crowd limit refused one |
| `ReassemblyHistory.StateIsHistory` | src/fragment/reassembler/mod.rs:188-325 | after every run each message in progress is what the arrivals and their answers say: fragments from zero on, their bytes in order, its start |
| `ReassemblyHistory.AnswersByHistory` | src/fragment/reassembler/mod.rs:188-325 | every answer in every run, errors included, follows from the message's own history and how full the reassembler is |
| `ReassemblyHistory.ReassemblyCorrect` | src/fragment/reassembler/mod.rs:263-325 | in every run a delivered message consists of fragments 0, 1, …, n taken in time since its last start, only the last marked last, and is their bodies in order |
| `MessageSeries.AcceptContinuation` | src/message_assembler/series/mod.rs:165-200 | acceptance keeps key and declared total and completes exactly on a last frame |
| `MessageSeries.SequencesConsecutive` | src/message_assembler/series/mod.rs:203-271 | whatever arrives, the accepted sequence numbers of a message are consecutive |
| `AssemblyState.MessageAssemblyState.PurgeExpiredAt` | src/message_assembler/state.rs:336-349 | exactly the expired assemblies go, and they are reported |
| `AssemblyState.MessageAssemblyState.TotalBufferedBytes` | src/message_assembler/state.rs:355-360 | the sum of the bytes of all assemblies |
| `AssemblyState.MessageAssemblyState.AcceptFirstFrameAt` | src/message_assembler/state.rs:156-214 | new state and outcome of a first frame, every error included |
| `AssemblyState.MessageAssemblyState.AcceptContinuationFrameAt` | src/message_assembler/state.rs:265-326 | new state and outcome of a continuation, every error and eviction included |
| `AssemblyTheorems.FirstBounded` | src/message_assembler/state.rs:169-213 | an accepted first frame keeps every bound |
| `AssemblyTheorems.ContinuationBounded` | src/message_assembler/partial.rs:78-103 | an accepted continuation keeps every bound |
| `AssemblyTheorems.BudgetChecked` | src/message_assembler/budget.rs:61-90 | passing the aggregate comparison leaves the grown total within both budgets |
| `AssemblyTheorems.MemoryBounds` | src/message_assembler/state.rs:161-213 | in every reachable state: budgets, message limit and declared totals are kept |
| `AssemblyTheorems.HeldWithinBudgets` | src/message_assembler/budget.rs:61-90 | in every reachable state the metadata and body bytes really held are within each budget short of the largest usize |
| `AssemblyTheorems.DeclaredFits` | src/message_assembler/state.rs:174-183 | with a declared total, metadata and body together stay within the message limit |
| `AssemblyTheorems.OtherKeysUntouched` | src/message_assembler/state.rs:265-326 | a frame changes other keys only by the timeout purge |
| `AssemblyTheorems.RefusalScope` | src/message_assembler/state.rs:241-326 | a refused frame evicts its own assembly exactly for the errors that are not harmless |
| `AssemblyHistory.AssemblyCorrect` | src/message_assembler/partial.rs:114-126 | in every run a dispatched message is the first frame's routing and metadata with the bodies accepted in order since, consecutively numbered and as long as declared |
| `AssemblyHistory.StateIsHistory` | src/message_assembler/state.rs:156-349 | after every run each assembly is what the frames and their outcomes say, expiry, dispatch and eviction included |
| `AssemblyHistory.OutcomesByHistory` | src/message_assembler/state.rs:156-326 | every outcome in every run, errors included, follows from the key's own history and how much is buffered |
| `AssemblyHistory.SeriesFollows` | src/message_assembler/series/mod.rs:165-271 | the answer to a frame's number follows from the numbers accepted so far |
| `AssemblyHistory.DuplicateFirstKeeps` | src/message_assembler/state.rs:161-167 | a first frame for an assembly in progress is refused and changes nothing beyond the purge |
| `AssemblyHistory.FirstsAreApart` | src/message_assembler/state.rs:161-167 | between two accepted first frames of a key the first assembly has expired, been dispatched or been evicted |
| `KeyedRuns.StoryHolds` | src/message_assembler/state.rs:156-349 | the argument for any machine with one entry per key whose steps tell each key's history on |
| `AssemblyTheorems.StepLocal` | src/message_assembler/state.rs:156-326 | a frame that no aggregate budget refuses is treated as if its key were alone and there were no budgets |
| `AssemblyTheorems.LiveLater` | src/message_assembler/state.rs:336-349 | purging early and again later is purging later |
| `AssemblyTheorems.NonInterference` | src/message_assembler/state.rs:156-349 | with times that do not go back, a key's outcomes in any interleaved run equal those of its own frames alone and without budgets if and only if no budget refused one of them |
| `AssemblyTheorems.LightTraffic` | src/message_assembler/budget.rs:61-124 | traffic whose bytes together stay within the budgets: every key fares as if it were alone |
| `KeyedRuns.KeysIndependent` | src/message_assembler/state.rs:156-349 | the argument for any machine with one entry per key whose steps are local, timely and purge by age |
| `AssemblyComplete.NextStep` | src/message_assembler/state.rs:265-326 | a later frame of a message is accepted exactly when it is in time and the body so far fits, and the last one dispatches the message |
| `AssemblyComplete.DeliveredExactly` | src/message_assembler/state.rs:156-326 | in any interleaving, with or without budgets, a message of one or more frames, numbered up to the top u32 or unnumbered, declared or not, is dispatched whole if and only if it is in time, within the limits, and no budget refused one of its frames |
| `AssemblyComplete.FittingIsDelivered` | src/message_assembler/state.rs:156-326 | without budgets, or with traffic within them, every fitting message is dispatched whole |
| `Fairness.FairnessTracker.RecordHighPriority` | src/fairness.rs:84-89 | the burst grows by one and its start is the first frame's time |
| `Fairness.FairnessTracker.ShouldYieldToLowPriority` | src/fairness.rs:92-104 | due exactly at the threshold or after the time slice |
| `Fairness.FairnessTracker.Clear` | src/fairness.rs:107-113 | the burst is forgotten, the policy kept |
| `Fairness.FairnessTracker.SetConfig` | src/fairness.rs:78-81 | a new policy starts without history |
| `ConnectionActor.ActorState.CountClosed` | src/connection/state.rs:54-59 | one more source closed, finished when all are |
| `ConnectionActor.ActorState.StartShutdown` | src/connection/state.rs:62-66 | only an active run starts to shut down |
| `ConnectionActor.ActorState.constructor` | src/connection/state.rs:38-51 | three baseline sources, one of them closed, and one per output |
| `ConnectionActor.ConnectionActor.SetResponse` | src/connection/mod.rs:209-218 | refused over an active channel, otherwise installed; the output stays well-formed |
| `ConnectionActor.ConnectionActor.SetMultiPacket` | src/connection/mod.rs:257-274 | refused over an active stream, otherwise installed with its stamp |
| `ConnectionActor.ConnectionActor.PushFrame` | src/connection/frame.rs:85-89 | one emission, passed through the hook |
| `ConnectionActor.ConnectionActor.EmitMultiPacketFrame` | src/connection/frame.rs:18-52 | one emission carrying the installed correlation identifier |
| `ConnectionActor.ConnectionActor.HandleClosedHigh` | src/connection/drain.rs:155-160 | the high queue gone and counted, the burst forgotten |
| `ConnectionActor.ConnectionActor.HandleClosedLow` | src/connection/drain.rs:161-163 | the low queue gone and counted |
| `ConnectionActor.ConnectionActor.HandleMultiPacketClosed` | src/connection/shutdown.rs:48-63 | the channel counted, its stamped terminator emitted, then cleared and the command ended |
| `ConnectionActor.ConnectionActor.TryOpportunisticLowDrain` | src/connection/drain.rs:171-188 | one frame, a noticed disconnection, or nothing |
| `ConnectionActor.ConnectionActor.TryOpportunisticMultiDrain` | src/connection/drain.rs:191-215 | one stamped frame, a noticed disconnection, or nothing |
| `ConnectionActor.ConnectionActor.AfterHighFrame` | src/connection/drain.rs:73-97 | the burst counted, and on a yield the low queue tried before the channel |
| `ConnectionActor.ConnectionActor.ProcessShutdown` | src/connection/shutdown.rs:14-44 | queues closed, output abandoned and counted, the command ended only for a channel |
| `ConnectionActor.ConnectionActor.ProcessResponse` | src/connection/response.rs:19-76 | one item, the end, or an error of the response stream |
| `ConnectionActor.ConnectionActor.ProcessHigh` | src/connection/drain.rs:131-160 | a high frame with its aftermath, or the closed queue |
| `ConnectionActor.ConnectionActor.ProcessLow` | src/connection/drain.rs:131-163 | a low frame, or the closed queue |
| `ConnectionActor.ConnectionActor.ProcessMultiPacket` | src/connection/drain.rs:131-166 | a stamped channel frame, or the closed channel |
| `ConnectionActor.ConnectionActor.NextBranch` | src/connection/mod.rs:342-369 | the first ready branch in the biased order, or none |
| `ConnectionActor.ConnectionActor.PollSources` | src/connection/mod.rs:377-384 | one turn: the chosen branch handled, or nothing changed |
| `ConnectionActor.ConnectionActor.RunToEnd` | src/connection/mod.rs:290-318 | for every schedule of sends, departures, cancellation and turns, once the producers have gone the loop terminates by biased turns and, unless the response stream failed, has emitted everything sent to the queues and everything of an output not abandoned, in order, the command ended once; cancelled before the start it emits nothing |
| `ActorSchedule.SettledActs` | src/connection/mod.rs:309-311 | with all producers gone every turn, handling a cancellation included, leaves strictly less to do |
| `ActorSchedule.PlayKeeps` | src/connection/mod.rs:309-311 | every schedule of producer steps and turns keeps the invariant |
| `ConnectionActor.ConnectionActor.Follow` | src/connection/mod.rs:309-311 | the object follows the value-level run of any schedule, waiting when nothing is ready |
| `ConnectionActor.ConnectionActor.Drain` | src/connection/mod.rs:309-311 | with all producers gone the loop terminates after biased turns, in a state that keeps the invariant |
| `ActorInvariant.StepKeeps` | src/connection/dispatch.rs:17-33 | every environment and actor step, on any ready branch, keeps the invariant |
| `ActorInvariant.AfterHighKeeps` | src/connection/drain.rs:73-97 | the aftermath of a high frame keeps the invariant |
| `ActorInvariant.ShutdownKeeps` | src/connection/shutdown.rs:20-44 | handling cancellation keeps the invariant |
| `ActorInvariant.CloseMultiKeeps` | src/connection/shutdown.rs:48-63 | closing the channel keeps the invariant |
| `ActorInvariant.EndResponseKeeps` | src/connection/response.rs:65-72 | the end of the response keeps the invariant |
| `ActorInvariant.BreakResponseKeeps` | src/connection/response.rs:54-63 | a protocol error keeps the invariant |
| `ActorTheorems.SourceCounting` | src/connection/state.rs:38-66 | in every reached state closed sources are one plus the sources gone, finished means all gone, and idle is unreachable before |
| `ActorTheorems.Conservation` | src/connection/drain.rs:43-55 | in every reached state what each source emitted and still holds is what it was sent, in order and once, except what a shutdown or stream error gave up; the terminator went out exactly if the output ended by itself; an I/O error alone fails the run, and a finished run has emitted everything up to a protocol error |
| `ActorTheorems.CommandEndAndStamping` | src/connection/shutdown.rs:41-63 | the hook fires at most once, exactly once for a finished channel run, and channel frames with the terminator carry the installed identifier |
| `ActorTheorems.ChoiceIsFirst` | src/connection/mod.rs:359-368 | a branch is chosen if and only if it is ready and no branch before it in the order is; none if and only if nothing is ready |
| `ActorTheorems.WaitsExactly` | src/connection/mod.rs:342-369 | in every reached state the actor waits exactly if it has not to shut down and every source it has is open and empty |
| `ActorTheorems.CancellationFirst` | src/connection/mod.rs:359-360 | a cancellation is what an active actor turns to next, and nothing else makes it shut down |
| `ActorTheorems.ShutdownBegins` | src/connection/shutdown.rs:14-44 | handling cancellation emits nothing, gives up the output and leaves the queues to drain |
| `ActorTheorems.GracefulShutdown` | src/connection/shutdown.rs:14-44 | from then on the steps are bounded by what was buffered, the actor never waits, nothing comes from the output, and all queued frames are emitted by the end |
| `ActorBypass.HighCounts` | src/connection/drain.rs:73-97 | each high frame brings the yield one closer or lets a low frame out |
| `ActorBypass.BoundedBypass` | src/connection/drain.rs:73-188 | with threshold k the low frame behind p others is out by the k·(p + 1)-th further high frame, in every biased run |
| `ActorBypass.Starvation` | src/fairness.rs:84-104 | without a threshold, and while no time slice runs out, there is for every n a biased run with n further high frames in which no low frame has gone out |
| `ActorEmissions.YieldLaw` | src/connection/drain.rs:73-97 | after a high frame something is let out exactly if the burst reaches the threshold or the slice since its first frame is over; low first, then the channel; a departed dry queue is given up |
| `ActorEmissions.TurnLaw` | src/connection/dispatch.rs:17-33 | every turn puts out exactly what its branch should, and the tracker keeps knowing the burst |
| `ActorEmissions.BurstLaw` | src/fairness.rs:84-113 | in every run the tracker counts exactly the high frames at the end of the log and knows when the first was recorded |
| `ActorEmissions.YieldsOnCount` | src/connection/drain.rs:73-97 | with a threshold k and no slice a high turn lets something out exactly from the k-th high frame in a row on |
| `ActorEmissions.TerminatorLaw` | src/connection/shutdown.rs:48-63 | in every reached state the terminator has gone out, once, exactly if the output ended by itself and there is one, and nothing of the output comes after it |

## Left out

- Waiting inside the select loop: a turn with nothing ready is a turn that changes nothing.
- Tokio runtime, sockets, `Framed`, wakers and cancellation tokens: only queue contents, readiness and the drain loop are modelled.
- A send permit reserved before a receiver is closed could still deliver afterwards; here a closed queue takes no more sends.
- The actor with a fragmenter installed: emission is modelled without one, and packet fragmentation separately.
- `set_low_queue`, which can start a run without a low queue, and metrics, logging and connection counters.
- FirstFrameInput length validation and header parsing for message assembly: plain comparisons.
- Total buffered bytes above the largest `usize`: the source's sum would overflow there, the model's does not; `AssemblyTheorems.MemoryBounds` says that a budget of that size is no limit.
- The other fields derived by `for_frame_budget` and the atomicity of the message identifier counter.
- Codec end-of-file handling, recovery policies, the length-delimited codec of `tokio_util`, client, server, middleware, extractors, preamble and session registry.
