# Verification of rust-LIN

This project models the core of rust-LIN, a Local Interconnect Network library, and proves what its
parts promise: the end-to-end protection of payloads, the checksum and identifier arithmetic, the
subscriber queues and the in-process bus with its interleavings, the LIN description file parser and
its signal decoding, and the adapter that turns frames into RELAY messages.

`dafny verify dfyconfig.toml` checks everything.

## Files

| file | contents |
|---|---|
| Word.dfy, Wrappers.dfy | machine words as integers, their bits and little-endian bytes; Option and Result |
| Gf2.dfy | polynomials over GF(2), remainders and their uniqueness |
| Crc.dfy, CrcTheorems.dfy | the CRC loop, its bit-serial form, the remainder theorem, bursts, parity, zero bytes |
| CrcOrder.dfy | the order of x modulo the generator, and the pairs of flipped bits it decides |
| E2e.dfy, E2eTheorems.dfy | protector and receiver, their inverse relation, altered frames, whole sessions |
| LinFrame.dfy | protected identifier, checksum, validation, filters |
| SubQueue.dfy | the queue behind a subscription: back-pressure policies and rate limiter |
| Wakeup.dfy | the notify protocol between pushes, close and receiving tasks |
| BusMachine.dfy | the bus as a state machine over the steps of its operations |
| BusCalls.dfy | what single calls do: refusals, a publish and the header after it, a subscribe, the removal of closed subscriptions |
| BusTheorems.dfy, BusTraffic.dfy, BusMetrics.dfy | what every interleaving keeps: registrations and subscriber views, frame contents and answers, counters |
| VirtualBus.dfy | the bus object: each method takes the machine's steps for it |
| Text.dfy, TextLaws.dfy | string operations and decimal numbers, and how they act on assembled text |
| LdfBits.dfy | the signal extraction loop and the number slice it computes |
| LdfParser.dfy, LdfTheorems.dfy | the description file parser, what every parsed database satisfies, decoding |
| LdfLayout.dfy | which raw texts clean to given lines |
| LdfLines.dfy | what the parser makes of any line and any list of lines, well formed or not |
| LdfPrinter.dfy | a reference printer for descriptions and the proof that the parser reads them back |
| Adapter.dfy, Pipeline.dfy | frame/message conversion, the send path, the forwarding task |
| RelayNode.dfy | the forwarding task on a live bus, before and after its consumer has gone |

## How the source is represented

- Unsigned words are integers with range types; wrap-around and truncation are written out. A
  bitwise exclusive or is computed bit by bit on the integers.
- A function that specifies a loop or a method of the source stands beside it; the method's
  `ensures` equates the two, and the properties are proved about the function.
- Sections under a lock are single steps, except that a header keeps the bus lock over three: its
  two write counters and its broadcast, each visible to whoever reads the counters. Within one step
  the pushes to different queues touch disjoint state, so a receiver that pops between two of them is
  covered by popping before or after. The closed check of an operation and each delivery counter of a
  header are further steps, and other operations may come between any two.
- Atomic counters are sequentially consistent: every reader sees their updates in program order.
- Time is a natural number handed to each step that reads a clock; no operation assumes it grows
  except where a theorem says so. Metrics counters do not wrap.
- Histories (`log`, `pubs`, `attempts`, `received`, `popped`, `ops`, `all`) are there for the
  statements; no step reads them to decide anything.
- In RelayNode.dfy a fetch of the task is the receive of its subscription on the bus, and a frame that passes
  the rate limiter of that subscription is an arrival for the task; all other steps of the two interleave.
- Which parked task a notification wakes is left open by the machine in Wakeup.dfy.
- The order in which a hash map is walked and the reading of an unsigned number that may be written
  as a float are parameters of the parser (`Host`); the order may differ from section to section.

## Where the code and its descriptions differ

The model follows the code in each case.

- The header table says the CRC covers bytes 0 to 7 and the payload (src/safety/mod.rs:18). The code
  also feeds it the two zeroed bytes of the CRC slot (src/safety/mod.rs:205-211, 272-275). The two
  agree exactly when the CRC of the first eight bytes alone is 0 or 0xF01F
  (`E2eTheorems.SlotCoverage`, with an input that differs in `E2eTheorems.SlotCoverageDiffers`).
- fmea.json:20 gives protected identifier 0xD0 for id 0x10; the code and its tests give 0x50
  (`LinFrame.KnownVectors`).
- The Block policy is described as blocking until there is space (src/relay.rs:143). It pushes
  without bound (`SubQueue.UndrainedQueue`).
- Sequence safety of the end-to-end layer ends exactly at 2^32 protected payloads
  (`E2eTheorems.SessionSafety`).
- A consumer that drops its end stops the forwarding task, which closes nothing: the subscription stays
  registered, and a Block queue keeps growing (`RelayNode.OpenSubscription`, `RelayNode.AbandonedGrows`).
- A receiving task can miss a close, and of two tasks sharing a receiver one can be left asleep with
  more frames waiting than the others will take (`Wakeup.CloseStrandsExactly`, `Wakeup.NoLostWakeup`).
- While a header is under way the counters need not agree with each other; how far they can be apart
  is stated by `BusMetrics.InFlightBounds`, with a run in `BusMetrics.CountersDisagree`.
- A subscriber may be registered after close has cleared the list (`BusTheorems.CloseIsFinal`,
  `BusTheorems.SubscriberOutlivesClose`).
- Signal offsets close to 2^64, which a negative offset in a description produces, wrap around in a
  release build (`LdfBits.ExtractionIsSlice`); a debug build stops there instead.
- LDF frame identifiers are documented as 0 to 63 (src/ldf/mod.rs:58) but are truncated to eight
  bits only (src/ldf/mod.rs:453): a declared number is in range exactly when it is modulo 256, and
  numbers that agree modulo 256 share an id, whatever their sign (`LdfPrinter.DeclaredIds`). Schedule entries are checked
  (`LdfTheorems.ParsedIsSound`).
- A frame whose name starts with AssignFrameId never gets a schedule slot
  (`LdfPrinter.SlotReadsBack`).
- A message that cannot be converted is reported as a closed node (`Adapter.SendAnswers`), and the
  checksum fields of a message do not reach the bus (`Adapter.SentFrameEchoes`).

## Model

| member | source | states |
|---|---|---|
| Crc.ComputeCrc16 | src/safety/mod.rs:285-298 | the nested loops compute the register function that all CRC results are about |
| Crc.Crc16IsShiftIn | src/safety/mod.rs:285-298 | byte-wise feeding equals feeding the bits one by one, most significant first, into an all-ones register |
| CrcTheorems.CrcIsRemainder | src/safety/mod.rs:283-298 | a word is the CRC of a byte string iff it is the remainder of the message times x^16, with the initial register folded in, modulo x^16+x^12+x^5+1 |
| Gf2.RemainderUnique | src/safety/mod.rs:283-298 | that remainder is unique, so the previous row determines the CRC |
| CrcTheorems.UndetectedErrors | src/safety/mod.rs:206-222 | an alteration of equal length keeps the CRC iff the generator divides the difference polynomial times x^16 |
| CrcTheorems.BurstChangesCrc | src/safety/mod.rs:206-222 | flips confined to sixteen consecutive bits change the CRC at every data length |
| CrcTheorems.CrcParity | src/safety/mod.rs:285-298 | the CRC and the data it covers have the same parity of one bits |
| CrcTheorems.ZeroSlotUnseen | src/safety/mod.rs:272-275 | two zero bytes after a header leave the CRC as without them iff the header alone has CRC 0 or 0xF01F, whatever follows |
| CrcOrder.OrderOfX | src/safety/mod.rs:285-298 | x^n is 1 modulo the generator iff 32767 divides n |
| CrcOrder.TwoFlips | src/safety/mod.rs:206-222 | two flipped bits keep the CRC iff their distance is a multiple of 32767 |
| CrcOrder.SplitFlips | src/safety/mod.rs:206-222 | one flipped bit of the data and one of its CRC go together iff their distance, with the CRC behind the data, is a multiple of 32767 |
| CrcOrder.FewFlipsChangeCrc | src/safety/mod.rs:206-222 | one, two or three flipped bits change the CRC of up to 32767 bits |
| E2e.Protector.Protect | src/safety/mod.rs:141-144 | emits the frame for the current counter, byte by byte as on the wire, and advances it modulo 2^32 |
| E2e.WriteProtected | src/safety/mod.rs:267-281 | filling the header buffer in place gives little-endian identifiers, counter and CRC, the CRC over the header with two zero bytes and the payload |
| E2e.LayoutIsFrame | src/safety/mod.rs:267-281 | a byte string is the protected frame of a payload iff each of its ten header bytes is the one the layout names |
| E2e.FieldsOnWire | src/safety/mod.rs:201-229 | identifiers, counter and CRC are read least significant byte first |
| E2e.Receiver.Unwrap | src/safety/mod.rs:192-260 | answer and next state of one call, with the checks in the source's order; an error leaves the state |
| E2e.FieldsDetermineFrame | src/safety/mod.rs:192-241 | the wire fields check out iff the bytes are the frame the sender builds from them |
| E2e.UnwrapInvertsProtect | src/safety/mod.rs:192-260 | a payload is returned iff the bytes are its protected frame, with any counter first and the successor modulo 2^32 afterwards |
| E2e.RejectionReasons | src/safety/mod.rs:193-254 | for each error kind, exactly which byte strings and states cause it; no rejection moves the receiver |
| E2eTheorems.BurstRejected | src/safety/mod.rs:213-222 | a burst of up to sixteen bits in the covered bytes is a CrcMismatch for every receiver state |
| E2eTheorems.FewFlipsRejected | src/safety/mod.rs:213-222 | one, two or three flipped bits anywhere in a frame of up to 4093 bytes, or outside the CRC bytes of one of up to 4095, are a CrcMismatch for every receiver state |
| E2eTheorems.FewFlipsTight | src/safety/mod.rs:213-222 | at 4094 bytes every accepted frame has two bits, the first and the last of the CRC, that can be flipped unnoticed |
| E2eTheorems.SlotCoverage | src/safety/mod.rs:272-276 | the frame's CRC is the one over bytes 0-7 and the payload iff the CRC of bytes 0-7 is 0 or 0xF01F |
| E2eTheorems.SlotCoverageDiffers | src/safety/mod.rs:272-276 | the first frame of configuration (0, 0) is one where they differ, for every payload |
| E2eTheorems.FramesHaveEvenParity | src/safety/mod.rs:267-281 | every emitted frame has an even number of one bits |
| E2eTheorems.AcceptedHasEvenParity | src/safety/mod.rs:205-222 | whatever passes the CRC check has an even number of one bits |
| E2eTheorems.OddFlipsRejected | src/safety/mod.rs:213-222 | an odd number of flipped bits anywhere, CRC bytes included, is a CrcMismatch at every length |
| E2eTheorems.EmittedFrames | src/safety/mod.rs:129-144 | the i-th call of a fresh sender carries counter i modulo 2^32 |
| E2eTheorems.SessionSafety | src/safety/mod.rs:141-144 | over every dropping, duplicating, reordering and injecting channel the accepted payloads are a contiguous in-order slice of those protected, iff fewer than 2^32 were protected |
| E2eTheorems.WrapAmbiguity | src/safety/mod.rs:244-256 | the run that breaks the slice property from 2^32 payloads on |
| E2eTheorems.LosslessDelivery | src/safety/mod.rs:243-259 | a faithful channel delivers everything from any joining point across any number of counter wraps |
| LinFrame.PidIsParityCode | src/frame.rs:160-186 | a byte verifies iff the two parity equations hold, and then as its own low six bits only; otherwise it is an invalid frame; protected ids lie in 1..254 |
| LinFrame.PidOfAnyByte | src/frame.rs:160-186 | the two bits above an identifier are ignored when it is protected |
| LinFrame.PidDetectsBitFlip | src/frame.rs:177-186 | one flipped bit in a protected identifier is always detected |
| LinFrame.ComputeChecksum | src/frame.rs:201-214 | the carry-around loop stays within a byte; with T the sum of the data, plus the protected id in the Enhanced case only, it gives 255 for T = 0, else 254 - (T - 1) mod 255 |
| LinFrame.ChecksumClosedForm | src/frame.rs:201-214 | the same closed form of the checksum function, for Classic without and for Enhanced with the protected id |
| LinFrame.ChecksumCollisions | src/frame.rs:201-214 | two inputs collide iff their totals agree modulo 255 and are zero together |
| LinFrame.ChecksumIgnoresOrder | src/frame.rs:207-212 | byte order is irrelevant |
| LinFrame.ReceiverSum | src/frame.rs:201-214 | the receiver's folded sum is 0xFF iff the checksum byte is right, or is 0xFF where 0x00 was due |
| LinFrame.SingleByteError | src/frame.rs:201-214 | one replaced byte goes unnoticed iff 0x00 and 0xFF were swapped and another covered byte is not zero |
| LinFrame.EnhancedSeparatesIds | src/frame.rs:160-214 | for every data string distinct ids give distinct Enhanced checksums, none of them 0xFF |
| SubQueue.SubInner.Push | src/bus.rs:63-101 | a push is the rate step followed by the queue step; it is accepted iff the limiter has room or opens a window and, under DropNewest, the queue has room; a spent token stays spent when the queue refuses |
| SubQueue.SubInner.TakeToken | src/bus.rs:64-75 | a window opens a second after the last opening; within it the first limit attempts pass and are counted |
| SubQueue.SubInner.Enqueue | src/bus.rs:77-100 | the three policies on a full and a non-full queue |
| SubQueue.SubInner.Pop | src/bus.rs:103-105 | takes the oldest frame, or nothing |
| SubQueue.QueueConserves | src/bus.rs:77-105 | after any run, what left plus what is queued is what was accepted, in order; accepted = popped + evicted + queued; popped frames are a subsequence of pushed ones |
| SubQueue.PolicyGuarantees | src/bus.rs:78-100 | which policies refuse, which evict, and that DropNewest and DropOldest stay within the capacity |
| SubQueue.UndrainedQueue | src/bus.rs:78-100 | without a reader: DropNewest keeps the oldest frames, DropOldest the newest, Block all of them |
| SubQueue.RateBound | src/bus.rs:64-75 | for every monotone clock at most (k+1) * limit pushes pass in a closed span of k seconds |
| SubQueue.RateBoundTight | src/bus.rs:64-75 | that bound is reached |
| SubQueue.GrantedExactly | src/bus.rs:64-75 | for every monotone clock an attempt passes iff there is no limit, it opens a window, or fewer than the limit have passed since the window was opened |
| SubQueue.QuietPushPasses | src/bus.rs:64-75 | an attempt passes whenever fewer than the limit have passed in the second that ends with it |
| SubQueue.AcceptedExactly | src/bus.rs:63-101 | a push to a subscription is accepted iff it passes the limiter and, under DropNewest, the queue is not full |
| SubQueue.QuietPushAccepted | src/bus.rs:63-101 | under Block and DropOldest a push is accepted whenever fewer than the limit were accepted in the second that ends with it |
| SubQueue.AcceptanceRate | src/bus.rs:63-105 | the same bound on accepted frames of a whole subscription, whatever policy, capacity and reader |
| Wakeup.NoLostWakeup | src/bus.rs:77-100 | in every interleaving of push, close and recv no task sleeps without a wakeup pending while more frames wait than the tasks that will look can take, iff at most one task receives |
| Wakeup.MergedPermit | src/bus.rs:77-100 | with two or more tasks, pushes that find nobody parked share one permit and leave a task asleep |
| Wakeup.CloseStrandsExactly | src/bus.rs:112-151 | close leaves the task parked for good iff it stood between its closed check and its wakeup future without a permit; otherwise it returns None, with the queue empty iff it had not already returned None before frames still queued were pushed |
| Wakeup.PushAfterNone | src/bus.rs:77-151 | a run in which a frame pushed after the task returned None stays in the queue |
| BusTheorems.SubscriberView | src/virtual_bus/mod.rs:82-101 | in every interleaving the frames offered to a subscriber are exactly the broadcasts between its registration and removal that pass its filters, in order; it gets part of them in order, all of them under Block without a rate limit |
| BusTheorems.StepKeyed | src/virtual_bus/mod.rs:97-101 | the list holds exactly the subscriptions not yet removed, each once |
| BusTheorems.CloseIsFinal | src/virtual_bus/mod.rs:237-271 | after close cleared the list someone can still be registered iff a subscribe had passed its closed check |
| BusTheorems.SubscriberOutlivesClose | src/virtual_bus/mod.rs:237-271 | the interleaving in which a closed bus keeps an open subscriber |
| BusTraffic.WellFormedTraffic | src/virtual_bus/mod.rs:151-201 | in every interleaving each queued or received frame validates, has the checksum of its protected id, is Classic for 0x3C and 0x3D, and holds the data of the last publish before its broadcast |
| BusTraffic.HeaderAnswers | src/virtual_bus/mod.rs:303-328 | a header's answer follows from the last publish for its id alone: none, empty, or data |
| BusTraffic.BroadcastableExactly | src/virtual_bus/mod.rs:316-334 | a frame is broadcast in some run iff it has a six-bit id, one to eight bytes, Classic on 0x3C and 0x3D, and the LIN checksum of its bytes and protected id |
| BusCalls.RefusedCalls | src/virtual_bus/mod.rs:165-186 | which refusal a publish or header gets, in order: closed bus, id above 63, payload above eight bytes; a refused call changes nothing but the error count |
| BusCalls.PublishDecides | src/virtual_bus/mod.rs:151-201 | after an uninterrupted publish the header for its id is answered with its data, their LIN checksum and its type, Classic on 0x3C and 0x3D, or with the error for no or empty data; no other answer changes |
| BusCalls.HeaderBroadcasts | src/virtual_bus/mod.rs:303-343 | an uninterrupted header broadcasts exactly the frame it answers, to everyone whose filters want it, and nothing when it answers an error |
| BusCalls.FanoutExactly | src/virtual_bus/mod.rs:82-95 | a broadcast is for each registered subscription whose filters want it, once |
| BusCalls.PublishThenHeader | src/virtual_bus/mod.rs:151-343 | published data of one to eight bytes are what the next header for the id broadcasts |
| BusCalls.NewSubscription | src/virtual_bus/mod.rs:232-252 | a subscribe adds one open empty queue with its filters, policy and rate limit, and its depth or 64 |
| BusCalls.HeaderCollects | src/virtual_bus/mod.rs:97-101 | a header drops exactly the subscriptions closed by their receivers, keeps the order of the others, and no longer reaches those it dropped |
| BusMetrics.MetricsConservation | src/virtual_bus/mod.rs:330-342 | with no header in flight writes and bytes are the broadcasts, deliveries the accepted pushes, deliveries plus drops the matching live subscribers summed over the sends, and there are one to eight bytes to a frame |
| BusMetrics.InFlightBounds | src/virtual_bus/mod.rs:330-342 | at every moment the counters and what is outstanding add up; bytes are counted before their write and after their delivery, and the other bounds miss by one header's bytes |
| BusMetrics.CountersDisagree | src/virtual_bus/mod.rs:330-332 | between its two write counters the first header of a bus shows bytes without a write |
| BusMetrics.SnapshotBetween | src/virtual_bus/mod.rs:378-387 | what metrics returns lies counter by counter between its first and its last load |
| BusMetrics.ErrorsCounted | src/virtual_bus/mod.rs:291-314 | the error counter is the number of refused calls and unanswered headers, and an empty response is not counted |
| VirtualBus.VirtualBus.constructor | src/virtual_bus/mod.rs:129-140 | a new bus is the machine's initial state |
| VirtualBus.VirtualBus.Publish | src/virtual_bus/mod.rs:151-201 | an uninterrupted publish takes the machine from one state to the next |
| VirtualBus.VirtualBus.Subscribe | src/virtual_bus/mod.rs:232-252 | an uninterrupted subscribe does, with a fresh queue |
| VirtualBus.VirtualBus.SendHeader | src/virtual_bus/mod.rs:290-343 | an uninterrupted header does, with its answer |
| VirtualBus.VirtualBus.BroadcastFrame | src/virtual_bus/mod.rs:82-95 | the loop over the subscribers pushes each matching queue once and counts deliveries and drops |
| VirtualBus.VirtualBus.CollectClosed | src/virtual_bus/mod.rs:98-101 | exactly the closed subscriptions leave the list, in order |
| VirtualBus.VirtualBus.LookUp | src/virtual_bus/mod.rs:307-328 | the frame or error a header is answered with |
| VirtualBus.VirtualBus.Close | src/virtual_bus/mod.rs:257-271 | closes every registered queue once and empties the list; later calls change nothing |
| VirtualBus.VirtualBus.Receive | src/bus.rs:141-145 | the pop of a receiver is the machine's receive event |
| VirtualBus.VirtualBus.CloseReceiver | src/bus.rs:153-156 | the close of a receiver is the machine's event for it |
| VirtualBus.OperationsReachable | src/virtual_bus/mod.rs:151-343 | every uninterrupted operation leads between reachable states of the machine, so its theorems apply to the object |
| LdfBits.ExtractBits | src/ldf/mod.rs:515-530 | the bit loop computes the bits of the field, never more than 64 of them |
| LdfBits.ExtractionIsSlice | src/ldf/mod.rs:515-530 | for all payloads it equals floor(LE / 2^offset) mod 2^min(width, 64), iff offset + min(width, 64) is at most 2^64 |
| LdfBits.ExtractionConcatenates | src/ldf/mod.rs:515-530 | adjacent extractions concatenate |
| LdfBits.ExtractionReadsField | src/ldf/mod.rs:515-530 | two payloads give the same value iff they agree on the bits of the field |
| LdfParser.Db.Decode | src/ldf/mod.rs:181-193 | None for an unknown frame, otherwise the values of its declared signals |
| LdfTheorems.DecodedValues | src/ldf/mod.rs:184-191 | exactly the referenced and declared signals are decoded, each to the bits of the payload from its last reference on, at most 64 of them: floor(LE / 2^offset) mod 2^width when the position does not wrap |
| LdfTheorems.DecodingReadsFields | src/ldf/mod.rs:181-193 | two payloads decode alike iff they agree on every bit of every decoded signal |
| LdfParser.Parse | src/ldf/mod.rs:208-229 | comments, white space and empty lines are removed, then the whole file is read |
| LdfParser.LdfParser.ParseTop | src/ldf/mod.rs:251-279 | terminates with the cursor at the end, having read every section as specified |
| LdfParser.LdfParser.ParseNodes | src/ldf/mod.rs:281-310 | reads the lines up to the first closing brace; the cursor never passes the end |
| LdfParser.LdfParser.ParseSignals | src/ldf/mod.rs:312-356 | the same for signal declarations |
| LdfParser.LdfParser.ParseFrames | src/ldf/mod.rs:358-396 | the same for frames and their nested lines, skipping lines with a brace that are no header |
| LdfParser.LdfParser.ParseScheduleTables | src/ldf/mod.rs:398-437 | the same for schedule tables, looking names up in the frames read so far |
| LdfParser.FrameIdByName | src/ldf/mod.rs:465-472 | the search loop returns the first frame of the walk with the name, or 0xFF when no frame has it, whatever the order |
| LdfTheorems.ParsedIsSound | src/ldf/mod.rs:251-437 | for every file and every order of the frame lookups: frames are filed under their own id, signals under their own name, and schedule ids are at most 0x3F and keys of the frames |
| LdfTheorems.LastDeclarationWins | src/ldf/mod.rs:316-355 | a Signals section declares what its lines say, the last line for a name wins, other names keep their declaration |
| LdfTheorems.LastFrameWins | src/ldf/mod.rs:362-395 | the same for the frames of a Frames section and their ids |
| LdfTheorems.LastTableWins | src/ldf/mod.rs:402-436 | the same for schedule tables and their names |
| LdfPrinter.SignalLineReadsBack | src/ldf/mod.rs:323-353 | a printed signal line reads back whatever stands for its width and initial value; what is no number counts as zero |
| LdfPrinter.SignalReadsBack | src/ldf/mod.rs:323-353 | a printed signal declaration reads back as the signal |
| LdfPrinter.FrameReadsBack | src/ldf/mod.rs:444-463 | a printed header reads back with the declared number modulo 256 as its id, white space behind the name or not, and is no header when the number does not parse; a length that is no number counts as zero |
| LdfPrinter.ExtraFieldsIgnored | src/ldf/mod.rs:448-455 | more fields behind the length change nothing |
| LdfPrinter.IntReadsBack | src/ldf/mod.rs:493-500 | decimal numbers of either sign parse iff they fit a signed 64-bit word |
| LdfPrinter.HexTextReadsBack | src/ldf/mod.rs:493-500 | the same for hexadecimal behind 0x or 0X, with digits in any mixture of cases |
| LdfPrinter.DeclaredIds | src/ldf/mod.rs:453 | for declared numbers of any sign and notation, an id is in range iff n mod 256 is, and two declarations share an id iff they agree modulo 256 |
| LdfPrinter.WordExactly | src/ldf/mod.rs:331-332 | a number becomes an unsigned word modulo 2^64, and text that is none becomes zero |
| LdfPrinter.RefLineReadsBack | src/ldf/mod.rs:380-389 | a printed signal reference reads back whatever stands for its offset |
| LdfPrinter.RefReadsBack | src/ldf/mod.rs:380-389 | a printed signal reference reads back |
| LdfPrinter.SlotLineReadsBack | src/ldf/mod.rs:419-430 | a slot line reads back with its keyword in any case and its delay modulo 2^32, or zero when that is no number; another keyword, or a name that starts with AssignFrameId, gives no slot |
| LdfPrinter.SlotReadsBack | src/ldf/mod.rs:419-430 | a printed schedule slot reads back, unless its frame name starts with AssignFrameId |
| LdfLayout.LayoutCleans | src/ldf/mod.rs:211-223 | a text cleans to given lines iff it shows them in order, each with any white space around it and any comment behind, among blank and comment-only lines |
| LdfPrinter.DescriptionReadsBack | src/ldf/mod.rs:208-437 | every layout of a printed description over identifier names with unambiguous frames parses to exactly its meaning, and the printed text is one |
| LdfLines.StatementPadded | src/ldf/mod.rs:323-493 | white space around and any number of semicolons behind a statement or a number make no difference |
| LdfLines.TablePadded | src/ldf/mod.rs:408-409 | the same for the name of a table and its braces |
| LdfLines.DeclaringLines | src/ldf/mod.rs:323-455 | a line declares a signal iff it has two commas behind a colon, a reference iff it has a comma, a slot iff the second of at least three words is the keyword and it does not begin with AssignFrameId, and a frame only with two commas behind a colon |
| LdfLines.OpeningLines | src/ldf/mod.rs:367-408 | a table is opened by a line that ends in a brace, a frame by one that has a brace anywhere and declares it |
| LdfLines.NothingQuoted | src/ldf/mod.rs:474-481 | a line with fewer than two quotes quotes nothing |
| LdfLines.MasterAlone | src/ldf/mod.rs:293-297 | the master may stand without timing |
| LdfLines.BodyExactly | src/ldf/mod.rs:285-289 | a body reaches to the first closing brace or the end of the file |
| LdfLines.BlocksExactly | src/ldf/mod.rs:362-394 | in Frames and Schedule_tables a line that opens no block is skipped, and a closing brace outside a block ends the section |
| LdfLines.BlockExactly | src/ldf/mod.rs:367-391 | a block is its header and the lines up to its closing brace or the end of the file |
| LdfLines.RefsExactly | src/ldf/mod.rs:371-390 | the references of a frame are those of all its lines that hold one, in order |
| LdfLines.BraceOnItsOwn | src/ldf/mod.rs:281-284 | the brace of a section may stand on the next line |
| LdfLines.UnknownLine | src/ldf/mod.rs:275-277 | a line that starts no section and sets no value is skipped |
| LdfLines.NodesExactly | src/ldf/mod.rs:285-309 | the last Master line decides, and the slaves of all Slaves lines are kept in order |
| LdfLines.EntryExactly | src/ldf/mod.rs:421-430 | a slot gives one entry for a frame of its name with an id of at most 0x3F, else none |
| Text.ParsePrinted | src/ldf/mod.rs:493-500 | decimal notation parses back to its number when it fits the word |
| Text.PositionalValue | src/ldf/mod.rs:493-500 | a text is a number iff it is not empty and all digits, and then the sum of its digits times powers of the radix |
| Text.Signs | src/ldf/mod.rs:493-500 | a plus may stand in front of any number, a minus of signed ones only, and a sign alone is no number |
| TextLaws.WordsExactly | src/ldf/mod.rs:422 | words are what stands between stretches of white space of any kind and length |
| Adapter.MessageRoundTrip | src/adapt.rs:28-92 | conversion to a message and back gives the frame iff its id is at most 0x3F, whatever data, checksum, type and sequence number |
| Adapter.FrameOfMessage | src/adapt.rs:59-92 | which messages are frames, and what a missing or unreadable checksum type or checksum stands for |
| Adapter.Normalises | src/adapt.rs:28-92 | a message that reads as a frame reads the same after being rewritten |
| Pipeline.Forwarder.constructor | src/adapt.rs:146-167 | the bus subscription and the channel get the same depth, at least one |
| Pipeline.Forwarder.Fetch | src/adapt.rs:171-177 | one popped frame becomes one numbered message |
| Pipeline.Forwarder.Forward | src/adapt.rs:179-181 | the message goes into the channel, waits for room, or ends the task |
| Pipeline.DeliveredInOrder | src/adapt.rs:142-188 | the k-th delivered message has number k and reads back as the k-th popped frame; while the consumer listens, what it received, what is in the channel and what is in hand are every popped frame in order |
| Pipeline.PipelineBound | src/adapt.rs:166-185 | under DropNewest and DropOldest queue, hand and channel together hold at most 2 * depth + 1 frames |
| Pipeline.PipelineBoundTight | src/adapt.rs:166-185 | that bound is reached |
| Pipeline.EndToEnd | src/adapt.rs:142-188 | delivered messages are in order part of what was offered; all of the accepted frames under DropNewest, all of the offered ones under Block |
| Pipeline.EndsDrained | src/adapt.rs:171-183 | the task ends only with an empty queue and nothing in hand, or because nobody listens |
| Pipeline.NothingAfterHang | src/adapt.rs:142-188 | after the consumer has dropped its end the channel is gone and nothing more is received |
| RelayNode.RunCoupled | src/adapt.rs:168-185 | in every interleaving the bus and the task are each in a state they reach alone, with one queue and one sequence of pops; only the bus's close closes the subscription |
| RelayNode.RelayView | src/adapt.rs:142-188 | the consumer's messages are numbered from 0 and read back as frames that are, in order, part of the broadcasts since the subscription; the first of all of them under Block without a rate limit |
| RelayNode.OpenSubscription | src/adapt.rs:179-181 | on an open bus the task ends only when the consumer is gone, and its subscription stays registered; under Block without a rate limit the queue is every broadcast since the subscription but those popped |
| RelayNode.EndedStays | src/adapt.rs:170-185 | an ended task never pops again |
| RelayNode.AbandonedGrows | src/adapt.rs:179-181 | from every state of an open bus, an unlimited Block queue whose consumer leaves grows past any size without its subscription being closed or removed |

## Left out

- Command line, JSON and base64 encodings, Display texts, version and timestamp fields, health strings.
- The schedule stored by `set_schedule` (src/virtual_bus/mod.rs:349-364), the master and slave nodes and the mock bus: they would add only easy members.
- Cancellation of a `recv` in mid-flight, and task starvation: the machines say what can happen, not that a scheduler lets it.
- `extract_float` and the f64 path of `parse_uint` (src/ldf/mod.rs:483-511): the speed is kept as the text of its line, the number reader is a parameter.
- I/O errors while reading a description file (src/ldf/mod.rs:211-212).
- Wrap-around of the 64-bit metrics counters, and the reorderings a relaxed memory model allows between them.
- Bursts that straddle the CRC bytes and the data of a protected frame, and frames forged with a valid CRC.
- VirtualBus.VirtualBus.SendHeader: states the result of a header that no other operation interrupts; interleavings are the business of the machine in BusMachine.dfy.
- LdfPrinter.DescriptionReadsBack: covers descriptions with at least one slave whose names and numbers are identifier-like words; other spellings the parser tolerates are covered by the soundness theorem only.
- LdfTheorems.ParsedIsSound: does not claim that declared frame identifiers are at most 0x3F, because the source truncates them to eight bits (src/ldf/mod.rs:453).
