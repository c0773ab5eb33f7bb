# Verification of the audio server

A Dafny 4.11 model of the parts of this server that carry state, with proofs about it. `dafny verify dfyconfig.toml`
checks everything.

* **RTP packets** (`Octets`, `Blocks`, `Endian`, `Wire`, `Layout`, `Packet`, `Edits`, `Calls`, `Exceptions`). `Wire`
  is the format of RFC 3550, sections 5.1 and 5.3.1, as an encoder and a decoder of packet values and as a table of
  octets, proved to be the same. `Packet.RtpPacket` is the object: one fixed buffer, 16-bit offsets, edits in place by
  `memmove`. `Layout` says when buffer and fields agree; every guarded setter keeps that, and what it does to the
  packet is stated on the packet value. Where a setter does not keep it, its contract says exactly when and what the
  octets then mean, and `Exceptions` has a run into each such case. `Edits` runs whole sequences of edits and closes
  the round trip through the parser; `Calls` does the same for runs of single calls, where a resize and the write
  through the span it makes room for may be far apart.
* **Push-to-talk** (`PttHandler`, `PttProtocol`, `PttAtomicity`, `BridgeRouting`, `Bridge`). The handler as a
  sequential pipeline on top of the packet model, with the codec as any pair of stateful functions; the same handler
  as a machine of interleaved memory accesses by any number of threads, with stale unlocked reads; the proof that
  every such interleaving is a run of the sequential handler; and a bridge of two lanes with a book that gives every
  packet one fate.
* **Small vector** (`SmallVector`). Inline and heap storage, growth, in-place insertion with references into the
  vector, swapping and assignment, against plain sequences.
* **Signalling** (`Signalling`, `Coordinator`). The two registries and the bridge table as a state machine over
  joins, calls, ends, leaves, failures and close callbacks, and the server's objects that perform its steps.
* **Outgoing queue** (`WriteQueue`). The coroutine that writes a session's messages, cut at its suspension.

Reading the model:

* Octets are numbers below 256; masks and shifts are written as arithmetic, and `Octets` proves the two equal for
  all octets.
* A failed `narrow_cast` assertion (backend/src/ThirdParty/RtpCpp/casts.hpp:10-13) is read as rejection, and so is the
  one write that can land outside the buffer, of the padding count.
* The guards of editing runs are the ones the source leaves to its callers: a payload type below 128, padding that
  fits in total, a payload or padding that is not empty. The contracts of the setters have no such precondition and
  say what happens without them.
* A parse reads an extension header before it knows that the packet holds it, so `Parse` asks that the buffer does;
  nothing is asked where an earlier check fails.
* `PTTHandler` constructs its packet over the copy, which forces the version bits to 2 before parsing
  (backend/src/api/PTTHandler.cpp:59): a wrong version is not filtered there.
* The call to `this->uninitialized_fill_n` (backend/src/ThirdParty/RtpCpp/SmallVector.hpp:923) names no member; it is
  read as `std::uninitialized_fill_n`.
* Requests, callbacks and coroutine sections between suspensions are single steps; the interleaving of memory
  accesses is modelled for the push-to-talk handler only.
* Session ids are strings, and a new session's id is one that is not registered.

Properties that turned out to depend on the caller, each with its exact condition: pairing and
call accounting need a free caller, which only the web client checks (frontend/src/hooks/useWebRTC.ts:361); a new call
is safe from the close callbacks of an earlier one only if those have run; a bare `stop` of the handler strands frames;
dropping an extension or all padding, and emptying the payload, leave octets that mean something else.

## Model

| member | source | states |
|---|---|---|
| `Octets.BitTests` | backend/src/ThirdParty/RtpCpp/RtpPacket.hpp:68-95 | the shifts and masks that read version, padding, extension and marker bit are the arithmetic tests used everywhere else, for all octets |
| `Octets.WithPaddingBitIsMask` | backend/src/ThirdParty/RtpCpp/RtpPacket.hpp:386-388 | clearing and setting the padding bit by mask changes that bit and no other |
| `Octets.WithExtensionBitIsMask` | backend/src/ThirdParty/RtpCpp/RtpPacket.hpp:659-665 | the same for the extension bit |
| `Octets.WithCountIsMask` | backend/src/ThirdParty/RtpCpp/RtpPacket.hpp:635-636 | writing the CSRC count replaces the low four bits and keeps the high ones |
| `Octets.WithVersion2IsMask` | backend/src/ThirdParty/RtpCpp/RtpPacket.hpp:580-587 | stamping the version replaces the two top bits by 2 |
| `Octets.WithMarkerBitIsMask` | backend/src/ThirdParty/RtpCpp/RtpPacket.hpp:393-398 | the marker bit is replaced, the payload type stays |
| `Octets.WithTypeIsMask` | backend/src/ThirdParty/RtpCpp/RtpPacket.hpp:478-482 | the payload type is ored in unmasked: from 128 on it also sets the marker bit |
| `Octets.StampedFlags` | backend/src/ThirdParty/RtpCpp/RtpPacket.hpp:554-563 | the stamped first octet reads back as version 2 with the flags and count that were set, whatever the setter order |
| `Endian.Write16` | backend/src/ThirdParty/RtpCpp/endianness.hpp:66-70 | writes exactly two octets, most significant first |
| `Endian.Write32` | backend/src/ThirdParty/RtpCpp/endianness.hpp:72-78 | writes exactly four octets, most significant first |
| `Endian.Bytes16Octets` | backend/src/ThirdParty/RtpCpp/endianness.hpp:66-70 | the two octets of every 16-bit value: the quotient by 256, then the remainder |
| `Endian.Bytes32Octets` | backend/src/ThirdParty/RtpCpp/endianness.hpp:72-78 | the four octets of every 32-bit value, as the source computes them one by one |
| `Endian.Bytes16OfRead16` | backend/src/ThirdParty/RtpCpp/endianness.hpp:92-96 | writing a 16-bit value that was read restores the octets |
| `Endian.Bytes32OfRead32` | backend/src/ThirdParty/RtpCpp/endianness.hpp:98-102 | the same for 32 bits |
| `Endian.WordsOfBytes` | backend/src/ThirdParty/RtpCpp/RtpPacket.hpp:319-329 | a CSRC list written out and read back is the same list |
| `Endian.BytesOfWordsOf` | backend/src/ThirdParty/RtpCpp/RtpPacket.hpp:589-600 | octets read as a list and written out are the same octets |
| `Wire.DecodeEncode` | backend/src/ThirdParty/RtpCpp/RtpPacket.hpp:190-318 | the wire format of RFC 3550, sections 5.1 and 5.3.1, loses nothing: decoding the encoding of any well-formed packet, with any padding octets, gives it back |
| `Wire.EncodeDecode` | backend/src/ThirdParty/RtpCpp/RtpPacket.hpp:190-318 | the converse: octets that decode are the one encoding of what they decode to, with their own padding octets |
| `Wire.DecodesIffLaidOut` | backend/src/ThirdParty/RtpCpp/RtpPacket.hpp:190-318 | octets decode to a packet if and only if they stand octet by octet as the format's table says: every bit of the first two, each number most significant octet first, list, extension, payload and padding in their places |
| `Layout.FramedDecodes` | backend/src/ThirdParty/RtpCpp/RtpPacket.hpp:554-563 | octets framed by header fields and sizes decode, once the version is stamped, to the packet they stand for |
| `Layout.ParsedFramed` | backend/src/ThirdParty/RtpCpp/RtpPacket.hpp:190-318 | an accepted packet is framed by what the parser reads off it, and stands for its decoding |
| `Packet.RtpPacket.Fresh` | backend/src/ThirdParty/RtpCpp/RtpPacket.hpp:145-147 | a default packet satisfies the layout invariant and is the empty packet |
| `Packet.RtpPacket.Over` | backend/src/ThirdParty/RtpCpp/RtpPacket.hpp:134-138 | construction over a filled buffer stamps the version bits and changes nothing else; offsets start at 12 |
| `Packet.RtpPacket.Holding` | backend/src/ThirdParty/RtpCpp/RtpPacket.hpp:166-177 | a default view takes a buffer as it is, without a stamp |
| `Packet.RtpPacket.FramedIsWire` | backend/src/ThirdParty/RtpCpp/RtpPacket.hpp:554-563 | under the invariant the stamped octets decode to the packet and their number is its size |
| `Packet.RtpPacket.SetMarker` | backend/src/ThirdParty/RtpCpp/RtpPacket.hpp:393-398 | keeps the invariant and changes the marker only |
| `Packet.RtpPacket.SetPayloadType` | backend/src/ThirdParty/RtpCpp/RtpPacket.hpp:478-482 | keeps the invariant exactly for values below 128; above, the octets decode to the truncated type with the marker set |
| `Packet.RtpPacket.SetSequenceNumber` | backend/src/ThirdParty/RtpCpp/RtpPacket.hpp:484-487 | changes the sequence number only |
| `Packet.RtpPacket.SetTimestamp` | backend/src/ThirdParty/RtpCpp/RtpPacket.hpp:489-492 | changes the timestamp only |
| `Packet.RtpPacket.SetSsrc` | backend/src/ThirdParty/RtpCpp/RtpPacket.hpp:494-497 | changes the SSRC only |
| `Packet.RtpPacket.WriteCsrc` | backend/src/ThirdParty/RtpCpp/RtpPacket.hpp:589-600 | writes the list from octet 12 on and nothing else, inside buffer and packet |
| `Packet.RtpPacket.CommitCsrc` | backend/src/ThirdParty/RtpCpp/RtpPacket.hpp:343-348 | makes the pending list the packet's, moving extension, payload and padding without changing them; says exactly when it refuses, and then changes nothing |
| `Packet.RtpPacket.SetExtension` | backend/src/ThirdParty/RtpCpp/RtpPacket.hpp:442-475 | opens or resizes the extension, keeps payload and padding octets; refuses exactly when the result does not fit, and then changes nothing |
| `Packet.RtpPacket.RoomAt` | backend/src/ThirdParty/RtpCpp/RtpPacket.hpp:442-475 | the data of an opened or resized extension starts as what the buffer holds behind the extension header; nothing is cleared |
| `Packet.RtpPacket.DropExtension` | backend/src/ThirdParty/RtpCpp/RtpPacket.hpp:442-447 | removing an extension breaks the invariant exactly when there is one: the octets then decode to a packet whose payload starts with the old extension |
| `Packet.RtpPacket.SetExtensionId` | backend/src/ThirdParty/RtpCpp/RtpPacket.hpp:400-409 | changes or opens with the id; data, payload and padding stay |
| `Packet.RtpPacket.SetExtensionLength` | backend/src/ThirdParty/RtpCpp/RtpPacket.hpp:411-439 | grows or shrinks the extension in place; payload and padding octets stay, id stays |
| `Packet.RtpPacket.ExtensionData` | backend/src/ThirdParty/RtpCpp/RtpPacket.hpp:532-552 | hands out the extension data; all assertions hold |
| `Packet.RtpPacket.WriteExtensionData` | backend/src/ThirdParty/RtpCpp/RtpPacket.hpp:532-552 | writing through the span changes the extension data only |
| `Packet.RtpPacket.AddPadding` | backend/src/ThirdParty/RtpCpp/RtpPacket.hpp:376-388 | a positive count keeps the invariant exactly when the new total fits; the 16-bit size wraps, and a write outside the buffer is told apart |
| `Packet.RtpPacket.SetPaddingBytes` | backend/src/ThirdParty/RtpCpp/RtpPacket.hpp:363-391 | when it refuses, when it writes outside, and when it keeps the invariant: a positive count exactly when the total fits, a count of 0 exactly when there was no padding, as it keeps the old one, which the octets then decode to as payload |
| `Packet.RtpPacket.SetPayloadSize` | backend/src/ThirdParty/RtpCpp/RtpPacket.hpp:500-518 | sets the payload region; with size and padding 0 the octet before the payload is overwritten, harmless exactly when it was 0 |
| `Packet.RtpPacket.Payload` | backend/src/ThirdParty/RtpCpp/RtpPacket.hpp:520-530 | hands out the payload; all assertions hold |
| `Packet.RtpPacket.WritePayload` | backend/src/ThirdParty/RtpCpp/RtpPacket.hpp:520-530 | writing through the span changes the payload only |
| `Packet.RtpPacket.ToWire` | backend/src/ThirdParty/RtpCpp/RtpPacket.hpp:554-563 | the octets handed out stand as the format's table says for the packet, decode to it and have its size |
| `Packet.RtpPacket.ExtractCsrc` | backend/src/ThirdParty/RtpCpp/RtpPacket.hpp:319-329 | reads the list in order |
| `Packet.BigEnough` | backend/src/ThirdParty/RtpCpp/RtpPacket.hpp:277-295 | a buffer of 76 octets or more holds every extension header that a parse reads |
| `Packet.RtpPacket.Parse` | backend/src/ThirdParty/RtpCpp/RtpPacket.hpp:179-182 | each answer exactly when its condition on the octets holds, first complaint first; succeeds exactly on the octets the format admits, then stands for their decoding; the invariant for editing holds afterwards exactly when the packet is extended or the old extension offset happens to be right |
| `Packet.RtpPacket.ParseLead` | backend/src/ThirdParty/RtpCpp/RtpPacket.hpp:190-239 | first octet, padding count and CSRC bound; each complaint exactly when its condition on the octets holds, the first one first |
| `Packet.RtpPacket.ParseExtension` | backend/src/ThirdParty/RtpCpp/RtpPacket.hpp:277-318 | extension header and its two overflow answers |
| `Packet.RtpPacket.ParsePacket` | backend/src/ThirdParty/RtpCpp/RtpPacket.hpp:190-274 | the whole parse ends with the verdict of the octets and, on success, with the fields, sizes and list they spell |
| `Packet.VerdictOf` | backend/src/ThirdParty/RtpCpp/RtpPacket.hpp:190-318 | exact acceptance: the sequence of checks passes if and only if the format admits the octets |
| `Packet.VerdictAnswers` | backend/src/ThirdParty/RtpCpp/RtpPacket.hpp:190-318 | which complaint comes when, read off the octets: too short, malformed, list or padding too long, extension too long, numbers that do not fit 16 bits, in the source's order |
| `Edits.RunFits` | backend/src/ThirdParty/RtpCpp/RtpPacket.hpp:363-518 | every guarded run of edits ends in a well-formed packet that fits the buffer |
| `Edits.ApplyShows` | backend/src/ThirdParty/RtpCpp/RtpPacket.hpp:363-518 | an edit is heeded exactly when there is room for it, and changes nothing otherwise |
| `Edits.StandsUntilOverwritten` | backend/src/ThirdParty/RtpCpp/RtpPacket.hpp:363-518 | what a packet shows at some point of a run it shows at the end, unless a later edit is of that kind |
| `Edits.LastEditStands` | backend/src/ThirdParty/RtpCpp/RtpPacket.hpp:363-518 | in a guarded run the last edit of a kind that there was room for is what the packet ends up with |
| `Edits.Perform` | backend/src/ThirdParty/RtpCpp/RtpPacket.hpp:343-518 | each in-place edit is the packet-level edit, or changes nothing when that does not fit |
| `Edits.Replay` | backend/src/ThirdParty/RtpCpp/RtpPacket.hpp:343-518 | every guarded run in place computes what the packet-level run says, and keeps the layout invariant |
| `Edits.Deliver` | backend/src/ThirdParty/RtpCpp/RtpPacket.hpp:154-182 | what one object hands out another parses to the same packet; it can go on editing exactly when the packet is extended or lists no CSRC |
| `Edits.SendAndParse` | backend/src/ThirdParty/RtpCpp/RtpPacket.hpp:154-182 | round trip: any guarded run on a fresh packet, handed out and parsed by another object, arrives with every field, CSRC, extension and payload octet and padding count |
| `Calls.DoOpen` | backend/src/ThirdParty/RtpCpp/RtpPacket.hpp:442-475 | opening or resizing alone keeps what fits of the old extension data |
| `Calls.DoResize` | backend/src/ThirdParty/RtpCpp/RtpPacket.hpp:411-439 | the same for the length alone, and the id stays |
| `Calls.DoSetSize` | backend/src/ThirdParty/RtpCpp/RtpPacket.hpp:500-518 | resizing the payload alone keeps what fits of it, and clears its last octet when there is no padding |
| `Calls.Do` | backend/src/ThirdParty/RtpCpp/RtpPacket.hpp:343-563 | each single call, a resize or a fill, does what it promises and keeps the invariant |
| `Calls.DoAll` | backend/src/ThirdParty/RtpCpp/RtpPacket.hpp:343-563 | so does every run of single calls that is guarded whatever the buffer holds in the room made but not filled |
| `Calls.CallAndParse` | backend/src/ThirdParty/RtpCpp/RtpPacket.hpp:154-182 | round trip for runs of single calls, with anything between a resize and the fill |
| `Calls.InterleavedExample` | backend/src/ThirdParty/RtpCpp/RtpPacket.hpp:343-348 | a CSRC list committed between making room for the payload and writing it: the run is guarded, and every way it can go ends with the intended packet |
| `Exceptions.TypeTooLarge` | backend/src/ThirdParty/RtpCpp/RtpPacket.hpp:478-482 | a payload type that sets the marker |
| `Exceptions.PaddingTooLarge` | backend/src/ThirdParty/RtpCpp/RtpPacket.hpp:370-383 | padding that passes the size check and does not fit |
| `Exceptions.PaddingCleared` | backend/src/ThirdParty/RtpCpp/RtpPacket.hpp:375-388 | cleared padding that stays as payload |
| `Exceptions.PayloadEmptied` | backend/src/ThirdParty/RtpCpp/RtpPacket.hpp:515 | an empty payload that clears an octet of the SSRC |
| `Exceptions.ExtensionDropped` | backend/src/ThirdParty/RtpCpp/RtpPacket.hpp:442-447 | a dropped extension that stays as payload |
| `Exceptions.ParsedForReading` | backend/src/ThirdParty/RtpCpp/RtpPacket.hpp:568-576 | a parsed packet with a CSRC and no extension that cannot be edited in place |
| `PttHandler.SaidParses` | backend/src/api/PTTHandler.cpp:100-124 | a released packet is 172 octets and parses to the header fields of its arrival around the re-encoded block |
| `PttHandler.HeardIffHolds` | backend/src/api/PTTHandler.cpp:55-73 | a packet is heard if and only if it has 1 to 1500 octets that decode, with the version bits read as 2, to a packet with a payload; marker, list and extension make no difference |
| `PttHandler.TakeHeeds` | backend/src/api/PTTHandler.cpp:62-87 | such a packet steps the decoder once with its payload and adds exactly one frame, with its five header fields, if samples came; any other changes neither |
| `PttHandler.ReleasePlays` | backend/src/api/PTTHandler.cpp:100-127 | a release encodes every frame in the state the one before it left, and returns, in that order, one packet for each block, with the frame's header fields, and nothing else |
| `PttHandler.BurstPipeline` | backend/src/api/PTTHandler.cpp:39-129 | what a burst releases is, in arrival order, what each arrival contributes: nothing lost, added or reordered, with the codec's state threaded through |
| `PttHandler.PttHandler.Start` | backend/src/api/PTTHandler.cpp:22-27 | raises the flag and drops what was buffered |
| `PttHandler.PttHandler.Stop` | backend/src/api/PTTHandler.cpp:29-33 | lowers the flag and leaves the buffer |
| `PttHandler.PttHandler.ProcessPacket` | backend/src/api/PTTHandler.cpp:39-90 | consumes exactly while active; then steps decoder and buffer by what the packet holds, as in `TakeHeeds`; an idle handler is not touched |
| `PttHandler.PttHandler.StopAndRelease` | backend/src/api/PTTHandler.cpp:92-129 | returns the re-encoded packets of the buffer in order and leaves it empty |
| `PttHandler.ParseCopy` | backend/src/api/PTTHandler.cpp:56-64 | parsing the zero-padded copy accepts exactly what decodes once the version bits are forced to 2 |
| `PttHandler.Repack` | backend/src/api/PTTHandler.cpp:109-122 | a packet built by the setters is the encoding of the frame's header and block |
| `PttHandler.Burst` | backend/src/api/PTTHandler.cpp:22-129 | end to end: from any handler state, button down, packets, button up: each packet is heeded in the decoder state the one before it left, what is buffered is played out, and that is what each packet contributes |
| `PttProtocol.StepKeepsInv` | backend/src/api/PTTHandler.cpp:22-129 | every memory access of every thread keeps the invariant: the mutex holder knows the flag, a lowered flag means an empty buffer, and frames are conserved |
| `PttProtocol.RunKeepsInv` | backend/src/api/PTTHandler.cpp:22-129 | so does every interleaving |
| `PttProtocol.NoStrandedFrame` | backend/src/api/PTTHandler.cpp:39-48 | over every interleaving of media, start and release calls: when the mutex is free and the flag is down the buffer is empty |
| `PttProtocol.FramesConserved` | backend/src/api/PTTHandler.cpp:80-87 | over every interleaving: frames appended are those released, discarded or still buffered, in order and once each |
| `PttProtocol.AppendsAndBatches` | backend/src/api/PTTHandler.cpp:94-128 | appends happen under the mutex with the flag up; a release or a repeated start always takes the whole buffer |
| `PttProtocol.HolderFinishes` | backend/src/api/PTTHandler.cpp:22-129 | the mutex holder can always go on, nobody else can touch flag or buffer, and it is done after a bounded number of accesses |
| `PttProtocol.StopStrands` | backend/src/api/PTTHandler.cpp:29-33 | the bare stop breaks the empty-buffer property exactly when frames are buffered |
| `PttProtocol.ReleaseAlone` | backend/src/api/PTTHandler.cpp:92-129 | a release that finds the mutex free lowers the flag and takes the whole buffer, in one batch |
| `PttProtocol.StrandedExample` | backend/src/api/PTTHandler.cpp:29-33 | a run with a bare stop that strands a frame |
| `PttAtomicity.AccessBehind` | backend/src/api/PTTHandler.cpp:22-129 | apart from the flag, nothing of a call is seen before its last access |
| `PttAtomicity.StepUnderway` | backend/src/api/PTTHandler.cpp:22-129 | a call that takes the mutex is the one under way until it is finished |
| `PttAtomicity.ThreadFinishesItsCalls` | backend/src/api/PTTHandler.cpp:22-129 | over every interleaving: a thread finishes the calls it makes, each as what it is, in order and once |
| `PttAtomicity.InterleavingIsSequential` | backend/src/api/PTTHandler.cpp:22-129 | every interleaving that ends with the mutex free leaves flag, buffer and released batches where its calls leave them made whole, one after the other in the order in which they took the mutex |
| `PttAtomicity.ServeAllIsAtomic` | backend/src/api/PTTHandler.cpp:22-129 | the whole calls are what the sequential handler does, with the work of each packet in its decoder state |
| `PttAtomicity.InterleavingIsHandler` | backend/src/api/PTTHandler.cpp:22-129 | so an interleaving leaves flag and buffer where the sequential handler leaves them after the same requests, and what that one released is what the batches of the interleaving encode to, one after the other |
| `PttAtomicity.ReleaseAppend` | backend/src/api/PTTHandler.cpp:92-129 | releasing in two goes is releasing at once, with the encoder's state carried over |
| `PttAtomicity.ServeOn` | backend/src/api/PTTHandler.cpp:22-129 | the handler object performs such requests and returns what they release |
| `BridgeRouting.ArrivalFate` | backend/src/api/Bridge.cpp:41-75 | the fate of a packet when it comes in: live, undeliverable, buffered or rejected, by the flag, what the packet holds and what the decoder makes of it |
| `BridgeRouting.StepMoves` | backend/src/api/Bridge.cpp:77-101 | later events change fates only of buffered packets: released, failed to encode, undeliverable, or discarded by a repeated start; nothing sent is taken back |
| `BridgeRouting.EveryPacketOneFate` | backend/src/api/Bridge.cpp:41-101 | over every run of a lane: each packet has one fate, the partner was offered exactly the live and released ones, once each and in arrival order, and nothing is held back once the button is up |
| `BridgeRouting.HandAllReleases` | backend/src/api/Bridge.cpp:85-92 | sending frame by frame is sending the handler's release |
| `Bridges.LanesIndependent` | backend/src/api/Bridge.cpp:41-101 | over every run each direction ends as if the other's events, push-to-talk included, had not happened |
| `Bridges.Bridge.constructor` | backend/src/api/Bridge.cpp:20-25 | a bridge starts with two idle lanes; a side whose transcoder failed has no handler |
| `Bridges.Bridge.FromFirst` | backend/src/api/Bridge.cpp:42-57 | the first audio callback steps the first lane and leaves the second; while the button is down the handler heeds the packet and the partner gets nothing, otherwise the partner gets the packet as it is |
| `Bridges.Bridge.FromSecond` | backend/src/api/Bridge.cpp:59-74 | the same for the second |
| `Bridges.Bridge.StartPtt` | backend/src/api/Bridge.cpp:77-83 | a press by a session starts that session's handler and lane and leaves the other; a stranger's starts none |
| `Bridges.Bridge.StopPtt` | backend/src/api/Bridge.cpp:85-101 | stops the handler and lane of the session, leaves the other, and sends the partner exactly what was released |
| `Bridges.ServeAll` | backend/src/api/Bridge.cpp:41-101 | over any calls on the object: each direction ends where its own events alone lead, and each peer was sent exactly what the lane towards it newly offered |
| `SmallVectors.NewCapacity` | backend/src/ThirdParty/RtpCpp/SmallVector.cpp:131-150 | fails exactly when the size type cannot express the request or is exhausted; otherwise the least capacity that holds the request and more than doubles the old one, or the limit |
| `SmallVectors.CopiedTwicePeak` | backend/src/ThirdParty/RtpCpp/SmallVector.cpp:131-206 | over every run of pushes and pops on a fresh vector, growing moved at most twice as many elements as the vector ever held at once |
| `SmallVectors.PeakReached` | backend/src/ThirdParty/RtpCpp/SmallVector.cpp:131-206 | that most is a size the vector has along the run, and it never has more |
| `SmallVectors.PushAndPop` | backend/src/ThirdParty/RtpCpp/SmallVector.hpp:590-606 | the vector itself on such a run: contents of a stack, and that bound on what it copied |
| `SmallVectors.MoveUp` | backend/src/ThirdParty/RtpCpp/SmallVector.hpp:842 | the backward loop moves a range up over itself unharmed |
| `SmallVectors.MoveDown` | backend/src/ThirdParty/RtpCpp/SmallVector.hpp:794 | the forward loop moves a range down over itself unharmed |
| `SmallVectors.Fill` | backend/src/ThirdParty/RtpCpp/SmallVector.hpp:901 | a fill that reads its value through a reference each time writes one value throughout |
| `SmallVectors.SwapShared` | backend/src/ThirdParty/RtpCpp/SmallVector.hpp:1044-1049 | the exchange loop swaps the common prefix |
| `SmallVectors.LongTailInserts` | backend/src/ThirdParty/RtpCpp/SmallVector.hpp:888-903 | the writes of the first branch amount to an insertion |
| `SmallVectors.ShortTailInserts` | backend/src/ThirdParty/RtpCpp/SmallVector.hpp:905-924 | so do those of the second |
| `SmallVectors.SmallVector.Grow` | backend/src/ThirdParty/RtpCpp/SmallVector.cpp:188-206 | elements survive in a new block of the new capacity; on failure nothing changes |
| `SmallVectors.SmallVector.Reserve` | backend/src/ThirdParty/RtpCpp/SmallVector.hpp:701-704 | room for the request or no change, with the contents kept |
| `SmallVectors.SmallVector.ReserveForParam` | backend/src/ThirdParty/RtpCpp/SmallVector.hpp:254-270 | after growing, a reference into the vector is moved to the new block and still reads the same value |
| `SmallVectors.SmallVector.PushBack` | backend/src/ThirdParty/RtpCpp/SmallVector.hpp:590-604 | appends the value, also of an element of the vector itself; fails exactly at the limit |
| `SmallVectors.SmallVector.PopBack` | backend/src/ThirdParty/RtpCpp/SmallVector.hpp:606 | drops the last element |
| `SmallVectors.SmallVector.AppendCopies` | backend/src/ThirdParty/RtpCpp/SmallVector.hpp:736-740 | appends copies, also of an element of the vector itself |
| `SmallVectors.SmallVector.AppendRange` | backend/src/ThirdParty/RtpCpp/SmallVector.hpp:721-733 | appends a range, without growing also one of its own |
| `SmallVectors.SmallVector.RaiseOne` | backend/src/ThirdParty/RtpCpp/SmallVector.hpp:840-850 | opens a gap of one; a reference into the moved part follows it |
| `SmallVectors.SmallVector.PlaceOne` | backend/src/ThirdParty/RtpCpp/SmallVector.hpp:840-853 | the in-place part of the insertion, with a parameter that may have moved |
| `SmallVectors.SmallVector.InsertOne` | backend/src/ThirdParty/RtpCpp/SmallVector.hpp:820-854 | inserts before the position, with or without growth, also an element of the vector itself |
| `SmallVectors.SmallVector.InsertCopiesLong` | backend/src/ThirdParty/RtpCpp/SmallVector.hpp:888-903 | the branch with a long tail, reference adjustment included |
| `SmallVectors.SmallVector.InsertCopiesShort` | backend/src/ThirdParty/RtpCpp/SmallVector.hpp:905-924 | the branch with a short tail; no fill reads what it overwrote |
| `SmallVectors.SmallVector.InsertCopies` | backend/src/ThirdParty/RtpCpp/SmallVector.hpp:865-925 | inserts n copies before the position, also of an element of the vector itself |
| `SmallVectors.SmallVector.InsertRangeLong` | backend/src/ThirdParty/RtpCpp/SmallVector.hpp:964-974 | the branch with a long tail for a range |
| `SmallVectors.SmallVector.InsertRangeShort` | backend/src/ThirdParty/RtpCpp/SmallVector.hpp:976-994 | the branch with a short tail, in its two parts |
| `SmallVectors.SmallVector.InsertRange` | backend/src/ThirdParty/RtpCpp/SmallVector.hpp:927-995 | inserts a range from elsewhere before the position |
| `SmallVectors.SmallVector.Erase` | backend/src/ThirdParty/RtpCpp/SmallVector.hpp:785-798 | removes one element |
| `SmallVectors.SmallVector.EraseRange` | backend/src/ThirdParty/RtpCpp/SmallVector.hpp:800-817 | removes a range |
| `SmallVectors.SmallVector.SwapElements` | backend/src/ThirdParty/RtpCpp/SmallVector.hpp:1044-1064 | element-wise exchange of vectors of different sizes |
| `SmallVectors.SmallVector.Swap` | backend/src/ThirdParty/RtpCpp/SmallVector.hpp:1030-1065 | exchanges the contents in all four storage combinations; the reserves cannot fail, two heap blocks just change hands, and no block ends up shared |
| `SmallVectors.SmallVector.TakeElements` | backend/src/ThirdParty/RtpCpp/SmallVector.hpp:1074-1113 | copying over, growing or filling up ends with the other's contents |
| `SmallVectors.SmallVector.Assign` | backend/src/ThirdParty/RtpCpp/SmallVector.hpp:1067-1114 | copy assignment, self-assignment included |
| `SmallVectors.SmallVector.AssignRemote` | backend/src/ThirdParty/RtpCpp/SmallVector.hpp:628-636 | takes the heap block over; the other is left empty and small, no block shared |
| `SmallVectors.SmallVector.AssignMove` | backend/src/ThirdParty/RtpCpp/SmallVector.hpp:1116-1171 | move assignment transfers the contents and empties the other, whichever storage either uses |
| `SmallVectors.SmallVector.MoveFrom` | backend/src/ThirdParty/RtpCpp/SmallVector.hpp:1318-1334 | the variant for vectors without inline room takes over heap blocks only, never inline storage |
| `Signalling.RunKeepsRegistry` | backend/src/api/coordinator.cpp:29-38 | over every run, with no assumption on callers: both registries hold the same sessions, and a bridged session is registered and on its own bridge |
| `Signalling.CallFindsSessions` | backend/src/api/HttpRouter.cpp:79-105 | an accepted call uses two registered, different sessions, both with a peer |
| `Signalling.PttPicksOwnSide` | backend/src/api/Bridge.cpp:77-101 | a bridged session is at exactly one end of its bridge, so a request finds exactly one side, its own |
| `Signalling.DisconnectOutOfCall` | backend/src/api/coordinator.cpp:60-86 | a disconnect takes the bridge out under both keys, closes the connections of both parties, which then owe a callback each, tells the partner if it is still there, and touches nobody else |
| `Signalling.LeaveEffect` | backend/src/api/coordinator.cpp:29-33 | a session that leaves is out of its call so, and out of both registries |
| `Signalling.FailEffect` | backend/src/api/PeerConnection.cpp:118-127 | a session whose connection fails is out of its call so |
| `Signalling.ClosedEffect` | backend/src/api/PeerConnection.cpp:118-127 | so is one whose closed connection calls back, and that callback is no longer owed |
| `Signalling.EndEffect` | backend/src/api/HttpRouter.cpp:122-134 | a session that ends its call is out of it so, and is told after its partner |
| `Signalling.JoinEffect` | backend/src/api/coordinator.cpp:35-38 | a new session is in both registries and nowhere else |
| `Signalling.AnswerIff` | backend/src/api/HttpRouter.cpp:74-92 | a call is answered Ok, bad request or not found exactly when |
| `Signalling.CallEffect` | backend/src/api/HttpRouter.cpp:94-109 | a call that is answered Ok puts both on one bridge, tells caller and then target, opens both connections, and a connection that was open owes its callback; any other call changes nothing |
| `Signalling.RegisteredIff` | backend/src/api/coordinator.cpp:29-38 | over every run: the registered sessions are those that have joined and not left since |
| `Signalling.OpenIffInCall` | backend/src/api/coordinator.cpp:60-86 | over every run, whoever calls whom: the open connections are exactly those of the sessions in a call |
| `Signalling.CallSucceedsIff` | backend/src/api/HttpRouter.cpp:74-92 | over every run: a call between two different registered sessions succeeds if and only if the target is in no call |
| `Signalling.RemovesThePair` | backend/src/api/BridgeManager.cpp:12-18 | from either side the same bridge is removed: both keys, and nothing else |
| `Signalling.DisconnectEffect` | backend/src/api/coordinator.cpp:60-86 | disconnecting removes the bridge, tells the partner, and leaves the registries |
| `Signalling.StepKeepsSound` | backend/src/api/coordinator.cpp:22-38 | every step with a free caller keeps the registry, the pairing and the account of calls |
| `Signalling.RunKeepsSound` | backend/src/api/HttpRouter.cpp:64-138 | over every run with free callers: partners form a symmetric pairing without fixed point on one bridge; calls created are calls removed plus half the bridged sessions, match messages twice the calls created, partner messages the calls removed |
| `Signalling.CallKeepsPairingIff` | backend/src/api/HttpRouter.cpp:79-95 | an accepted call keeps the pairing if and only if the caller was free, which the server does not check |
| `Signalling.CallKeepsBalanceIff` | backend/src/api/HttpRouter.cpp:94-106 | and the account of calls likewise |
| `Signalling.BusyCallerExample` | backend/src/api/HttpRouter.cpp:79-95 | a run of the server alone that leaves a session with a partner who has another |
| `Signalling.DisconnectIdempotent` | backend/src/api/coordinator.cpp:60-86 | disconnecting twice is disconnecting once |
| `Signalling.ClosedMeasure` | backend/src/api/PeerConnection.cpp:118-127 | each close callback uses up more than it can cause, so callbacks run out |
| `Signalling.IdleCallbacks` | backend/src/api/PeerConnection.cpp:118-127 | callbacks of sessions that are in no call, in any order and number, change neither tables nor log, and run out |
| `Signalling.DisconnectSettles` | backend/src/api/coordinator.cpp:60-86 | a disconnect and then the callbacks it causes, in any order, end where the disconnect did, whatever other sessions are still owed: same tables, no further messages, in a bounded number of steps |
| `Signalling.QuietDisconnectSettles` | backend/src/api/coordinator.cpp:60-86 | the same for callbacks of all sessions, where nobody in a call is owed one |
| `Signalling.RunKeepsQuiet` | backend/src/api/PeerConnection.cpp:118-127 | on every run whose calls are clean no session in a call is owed a callback of an earlier connection |
| `Signalling.CallKeepsQuietIff` | backend/src/api/HttpRouter.cpp:94-109 | a call keeps that so if and only if neither side has an earlier connection open or closing |
| `Signalling.CallbackHarmlessIff` | backend/src/api/coordinator.cpp:22-24 | a close callback leaves the bridges alone if and only if its session is in no call |
| `Signalling.LateCallbackExample` | backend/src/api/coordinator.cpp:22-24 | a run with free callers in which the late callback of a finished call ends the next one |
| `Signalling.CascadeKeeps` | backend/src/api/coordinator.cpp:60-86 | callbacks alone keep all invariants and the set of surviving bridges |
| `Signalling.CascadeSettles` | backend/src/api/coordinator.cpp:60-86 | the cascade is confluent: in every order, the bridges left are those with no session owed a callback, and one partner is told for each bridge that went |
| `Coordinators.BridgeManager.AddBridge` | backend/src/api/BridgeManager.cpp:7-10 | enters the bridge under both sessions; every bridge stays in order, no two share a handler |
| `Coordinators.BridgeManager.GetPartner` | backend/src/api/BridgeManager.cpp:24-29 | the partner on the session's bridge, the empty string for a session without one |
| `Coordinators.BridgeManager.RemoveBridge` | backend/src/api/BridgeManager.cpp:12-18 | takes out the session and its partner and leaves every other bridge in order |
| `Coordinators.BridgeManager.StartPtt` | backend/src/api/BridgeManager.cpp:31-37 | the button goes down on the session's own lane of its bridge; every other bridge is as it was |
| `Coordinators.BridgeManager.StopPtt` | backend/src/api/BridgeManager.cpp:39-45 | the button goes up there, the partner gets what was released, every other bridge is as it was |
| `Coordinators.Coordinator.Connect` | backend/src/api/coordinator.cpp:35-38 | a new session goes into both registries |
| `Coordinators.Coordinator.OnWsLeave` | backend/src/api/coordinator.cpp:29-33 | disconnects, then leaves both registries: afterwards the session is registered nowhere, in no call and without a connection |
| `Coordinators.Coordinator.OnClosed` | backend/src/api/coordinator.cpp:22-24 | the close callback disconnects: the session is in no call and without a connection |
| `Coordinators.Coordinator.OnFailed` | backend/src/api/PeerConnection.cpp:118-127 | so does a failure: bridge, connections, partner's message and all else as in `DisconnectOutOfCall` |
| `Coordinators.Coordinator.DisconnectSession` | backend/src/api/coordinator.cpp:60-86 | the imperative disconnect takes the session out of its call as in `DisconnectOutOfCall`; peers and sessions are only used where they exist |
| `Coordinators.Coordinator.EndBridge` | backend/src/api/coordinator.cpp:65-85 | the part for a session in a call |
| `Coordinators.Coordinator.PlaceBridge` | backend/src/api/HttpRouter.cpp:94-96 | sets up a bridge between the two peers, with idle lanes, and enters it |
| `Coordinators.Coordinator.Announce` | backend/src/api/HttpRouter.cpp:98-109 | both sessions get their match message and both peers a connection |
| `Coordinators.Coordinator.HandleCall` | backend/src/api/HttpRouter.cpp:64-113 | Ok if and only if the two differ, the target is registered and in no call and both have a peer; bad request if and only if they are the same; then both sessions are on a new bridge between their peers, both are told and both connections open, and otherwise nothing changes; under the registry invariant no lookup comes back empty |
| `Coordinators.Coordinator.HandlePttStart` | backend/src/api/HttpRouter.cpp:140-158 | refuses exactly sessions in no call; otherwise performs the start on the session's own lane, and no other bridge changes |
| `Coordinators.Coordinator.HandlePttStop` | backend/src/api/HttpRouter.cpp:160-178 | refuses exactly sessions in no call; otherwise performs the stop there, and the partner gets what was released |
| `Coordinators.Coordinator.HandleEndCall` | backend/src/api/HttpRouter.cpp:115-138 | the session is out of its call as in `DisconnectOutOfCall`, and is told so after its partner |
| `WriteQueue.StepKeepsInv` | backend/src/api/WebsocketSession.cpp:22-74 | every step between two suspensions keeps the invariant |
| `WriteQueue.RunKeepsInv` | backend/src/api/WebsocketSession.cpp:22-74 | so does every run, and what it enqueues is what its steps bring, in order |
| `WriteQueue.WrittenThenQueued` | backend/src/api/WebsocketSession.cpp:22-49 | over every run: messages written, then messages queued, are the messages enqueued, in order |
| `WriteQueue.OneWriter` | backend/src/api/WebsocketSession.cpp:22-49 | over every run: at most one writer, which always has a message, and while suspended holds the front one |
| `WriteQueue.NoLostWakeUp` | backend/src/api/WebsocketSession.cpp:71-74 | over every run: an open session with messages has a writer unless the last one broke off |
| `WriteQueue.AcceptOpens` | backend/src/api/WebsocketSession.cpp:61-74 | an accepted session is open, its connection packet is queued behind what waits, and a writer runs exactly if anything does |
| `WriteQueue.EnqueueEffect` | backend/src/api/WebsocketSession.cpp:22-29 | a message goes to the end of the queue and wakes a writer exactly when the session is open and has none |
| `WriteQueue.FailureKeepsMessage` | backend/src/api/WebsocketSession.cpp:40-48 | a write that fails ends its writer, and the message it held stays at the front |
| `WriteQueue.OpenIffAccepted` | backend/src/api/WebsocketSession.cpp:61-61 | over every run: a session is open exactly once it has been accepted |
| `WriteQueue.WaitsBeforeAccept` | backend/src/api/WebsocketSession.cpp:22-29 | before that its messages wait, in order |
| `WriteQueue.AcceptDelivers` | backend/src/api/WebsocketSession.cpp:22-74 | from the start: messages queued before the handshake and the connection packet are all written, in order, once it is done |
| `WriteQueue.RestartsAtFront` | backend/src/api/WebsocketSession.cpp:25-38 | after an error the next message starts a writer on the same front message |
| `WriteQueue.Drains` | backend/src/api/WebsocketSession.cpp:34-48 | successful writes empty the queue in order and end the writer |
| `WriteQueue.RetryDelivers` | backend/src/api/WebsocketSession.cpp:22-49 | so one more message and working writes deliver everything a broken writer left |
| `WriteQueue.WebsocketSession.QueueMessage` | backend/src/api/WebsocketSession.cpp:22-29 | the imperative enqueue: the message is last, and a writer is spawned exactly when the session is open and has none |
| `WriteQueue.WebsocketSession.Accepted` | backend/src/api/WebsocketSession.cpp:61-74 | the opening part of the session: it is open, the connection packet queued, and a writer spawned exactly when there is something to write and none |
| `WriteQueue.WebsocketSession.BeginWriter` | backend/src/api/WebsocketSession.cpp:31-38 | the start of the writer takes up the front message |
| `WriteQueue.WebsocketSession.WriteDone` | backend/src/api/WebsocketSession.cpp:38-48 | its return from a write: on success the front message goes and the writer takes the next or leaves, on failure it leaves and the queue stays; popping never meets an empty queue |

## Left out

- Resizable buffers (`DynamicRtpPacket`): the branches that call `resize`; nothing in the server uses them.
- Buffers above 65535 octets, where the 16-bit offsets cannot express every packet.
- Packet.RtpPacket.Parse: asks that the packet, and an extension header the source is going to read, lie in the buffer, because the source would read behind it.
- SmallVectors.SmallVector.Grow: a reallocation always yields a fresh block, `2 * capacity + 1` does not wrap at 64 bits, and freed blocks are not tracked, so leaks and double frees are out of view beyond the absence of sharing.
- Moved-from elements keep their value, as for the trivially copyable types in use; constructors and destructors of elements are not modelled.
- `resize`, `truncate`, `assign`, `emplace_back`, comparison and the iterator-category variants of the vector, which would only add easy members.
- The packet's CSRC list is a sequence rather than the modelled vector; the vector's contracts are the bridge between the two.
- Opus and PCM: any stateful codec with blocks of 160 octets.
- Whether a track is open when a packet is sent to a peer: a packet is offered to the partner.
- The order of live and released packets when threads race: `stop_ptt` sends after the handler's lock is released, so order across the two is claimed for the sequential lane only.
- Sockets, HTTP, JSON, logging, UUIDs and the WebRTC library: write results, failures and close callbacks are choices of the environment, JSON always serializes.
- A failed websocket handshake: the session then stays registered for good, as nothing calls its leave callback.
- The 64-bit endianness functions, SDP rewriting and the browser's ICE queue.
