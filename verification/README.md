# Croesus: verified models of the protocol cores in its pods

The Croesus app is a thin client; the logic worth verifying is in the libraries it vendors under
`Croesus/Pods`. This project models these parts and proves properties of them for all inputs, all
runs and all interleavings:

| component | files here | modelled source |
|---|---|---|
| DTLS handshake transport: fragments, reassembly bit mask, seven-slot ring, flights cut to the MTU | `Wire`, `Reassembly`, `HandshakeReceive`, `HandshakeReceiver`, `HandshakeSend`, `DtlsDelivery`, `DtlsLink` | `BoringSSL-GRPC/ssl/d1_both.cc`, `dtls_method.cc` |
| DTLS record layer: replay window, sequence numbers and epochs, nonces | `ReplayWindow`, `RecordReader`, `RecordWriter`, `RecordNonce`, `RecordLayer` | `BoringSSL-GRPC/ssl/dtls_record.cc`, `ssl_aead_ctx.cc` |
| Protocol Buffers printer and parser | `PbWire`, `PbMessage`, `PbRoundTrip`, `PbMerge`, `PbDefaults`, `PbFormat`, `PbIterator`, `PbEncoder`, `PbDecoder` | `nanopb/pb_encode.c`, `pb_decode.c`, `pb_common.c`, `pb.h` |
| TLS write path and handshake message buffer | `WriteQueue`, `WriteRuns`, `WriteCompletion`, `WritePipeline`, `MessageBuffer` | `BoringSSL-GRPC/ssl/s3_pkt.cc`, `s3_both.cc`, `ssl_buffer.cc` |
| TLS 1.2 client and server handshake machines | `Handshake`, `HandshakeAgreement`, `HandshakeServing`, `HandshakeRuns`, `HandshakeProgress`, `HandshakeCompletion`, `HandshakeAlone`, `HandshakeConformance`, `HandshakeServerConformance`, `HandshakeHistories`, `HandshakeMachines`, `HandshakeFlights` | `BoringSSL-GRPC/ssl/handshake_client.cc`, `handshake_server.cc`, `handshake.cc` |
| Server cipher choice | `CipherChoice` | `BoringSSL-GRPC/ssl/handshake_server.cc` |
| Saturating reference count | `RefCount` | `BoringSSL-GRPC/crypto/refcount_c11.c`, `refcount_lock.c` |

Most components have two layers. Functions on values say what each operation means, and the
theorems are about them: invariants over runs, round trips, agreement of two machines. Classes and
methods with loops, arrays and updates in place follow the source's form and are proved to do what
those functions say. Cryptography, the transport, callbacks and memory placement are
parameters; where a run is quantified, so are they.

`dafny verify dfyconfig.toml` checks everything.

## What the proofs found

- `pb_decode_varint32_eof` looks for overflow in the fifth byte only if it is the last one. A
  continued fifth byte loses its high bits silently (`PbWire.Varint32DropsHighBits`). The value is
  kept if and only if the fifth byte carries less than 16 and later bytes nothing
  (`PbWire.Varint32ExactIff`).
- A nanopb string that fills its buffer without a terminator is encoded and then refused by the
  decoder (`PbRoundTrip.FullStringIsRefused`; `PbRoundTrip.StringNeedsTerminator` for all strings).
- When sealing fails in the middle of a DTLS packet, the cursor is not put back: the records sealed
  for that packet are dropped although the cursor has passed them
  (`HandshakeSend.DropsShortMessage`). Nothing is dropped if and only if no record of the packet's
  first message can be made in the state before the call (`HandshakeSend.DropsNothingIff`);
  `HandshakeSend.NoSealFails` gives a condition on the sender under which no seal fails.
- `ssl3_write_app_data` clears `wnum` before it refuses a retry that is too short. A retry after
  that seals bytes a second time (`WriteRuns.ShortRetrySealsTwice`); `WriteRuns.WriteKeepsAccount`
  gives the exact condition.
- `SSLBuffer` keeps a 16-bit offset next to a capacity of up to 0xffff. Capacities from 0xfffa on
  are accepted, and then `Consume` can leave the buffer at the wrong bytes
  (`WritePipeline.WrappedBuffer`, and `WritePipeline.CapacitySafeIff` for the exact limit). A writer
  can be brought there: in `WritePipeline.MemoryIsSent` the end of an alert is replaced by bytes of
  the memory in front of the contents. A record write keeps the order for all placements and transports if and only if it asks
  for no such capacity (`WriteRuns.WriteKeepsOrderIff`).
- A handshake fragment seven ahead of the one to be read passes the test that ignores fragments
  outside the window and is then refused as an error, while one eight ahead is ignored. For an
  honest sender's records `DtlsDelivery.HonestRecordRefused` says exactly which are refused.
- A DTLS sequence number that overflows is left at zero by the failing update, so the record after
  it would reuse a nonce (`RecordWriter.OverflowReusesZero`).

## Model

| member | source | states |
|---|---|---|
| `Wire.HeaderRoundTrip` | Croesus/Pods/BoringSSL-GRPC/ssl/d1_both.cc:459-473 | A fragment header whose fields fit their widths (8, 24, 16, 24 and 24 bits, big-endian, RFC 6347 section 4.2.2) is parsed back as written. |
| `Wire.FragmentRoundTrip` | Croesus/Pods/BoringSSL-GRPC/ssl/d1_both.cc:459-473 | A fragment followed by anything is parsed back exactly, and the rest is returned. |
| `Wire.ParsedFragmentPrints` | Croesus/Pods/BoringSSL-GRPC/ssl/d1_both.cc:459-473 | Whatever parses as a fragment is the printed form of that fragment: parsing loses nothing. |
| `RecordLayer.FragmentHeaderLayout` | Croesus/Pods/BoringSSL-GRPC/ssl/d1_both.cc:459-473 | Where the fields of a fragment header stand: type at byte 0, length at 1 to 3, number at 4 and 5, offset at 6 to 8, fragment length at 9 to 11, highest byte first. |
| `Reassembly.BitRangeBits` | Croesus/Pods/BoringSSL-GRPC/ssl/d1_both.cc:203-205 | `bit_range(start, end)` has exactly the bits `start <= k < end`, for all 8-bit ranges. |
| `Reassembly.FullMaskIsWholeRange` | Croesus/Pods/BoringSSL-GRPC/ssl/d1_both.cc:233-250 | With the tail bits clear, the byte-wise fullness test holds exactly when the mask denotes the whole range `[0, msg_len)`. |
| `Reassembly.MarkedSet` | Croesus/Pods/BoringSSL-GRPC/ssl/d1_both.cc:211-231 | If a step sets exactly the bits of `[start, end)`, the set the mask denotes becomes its union with that range, and bits past `msg_len` stay clear. |
| `Reassembly.SetBits` | Croesus/Pods/BoringSSL-GRPC/ssl/d1_both.cc:219-231 | The two cases of marking (one byte, or a first, whole and last bytes) set exactly the bits of `[start, end)`; all indexing is in bounds. |
| `Reassembly.IsFull` | Croesus/Pods/BoringSSL-GRPC/ssl/d1_both.cc:233-245 | The loop and the last-byte test decide whether every bit below `msg_len` is set. |
| `Reassembly.HmFragment.constructor` | Croesus/Pods/BoringSSL-GRPC/ssl/d1_both.cc:152-199 | A new message has its header written as one whole fragment, nothing received, and a mask exactly when its body is not empty. |
| `Reassembly.HmFragment.Mark` | Croesus/Pods/BoringSSL-GRPC/ssl/d1_both.cc:211-251 | Marking adds the range to the received set and drops the mask exactly when the whole message has been received, for any order and overlap of ranges. |
| `Reassembly.HmFragment.Receive` | Croesus/Pods/BoringSSL-GRPC/ssl/d1_both.cc:399-402 | The fragment body is copied behind the header at its offset, nothing else of the message changes, and the range is marked. |
| `HandshakeReceive.SameSlotSameSequence` | Croesus/Pods/BoringSSL-GRPC/ssl/d1_both.cc:265-277 | An occupied slot found for a number in the window holds a message with that very number, so the check at line 276 never fails. |
| `HandshakeReceive.ProcessKeepsRing` | Croesus/Pods/BoringSSL-GRPC/ssl/d1_both.cc:265-295 | One fragment keeps the ring invariant (slot `seq mod 7`, window of seven), changes at most its own slot, and outside the window changes nothing; a failing one changes nothing. |
| `HandshakeReceive.FoundIsOk` | Croesus/Pods/BoringSSL-GRPC/ssl/d1_both.cc:265-295 | The message a fragment is added to has its number, type and length; a message already handed out is complete. |
| `HandshakeReceive.NextKeepsRing` | Croesus/Pods/BoringSSL-GRPC/ssl/d1_both.cc:426-438 | Releasing the front message keeps the ring invariant, also when the 16-bit counter wraps, where the ring is then empty. |
| `HandshakeReceive.ProcessRecord` | Croesus/Pods/BoringSSL-GRPC/ssl/d1_both.cc:350-406 | Handling all fragments of a record, up to the first failure, keeps the ring invariant. |
| `HandshakeReceive.FirstDeliveryIsOfCurrentEra` | Croesus/Pods/BoringSSL-GRPC/ssl/d1_both.cc:374-378 | Over every run, a message handed out for the first time contains no byte from a record of an earlier read epoch. |
| `HandshakeReceive.EpochChangeNeedsEmptyRing` | Croesus/Pods/BoringSSL-GRPC/ssl/dtls_method.cc:81-95 | Over every run, the read epoch changes exactly when no ChangeCipherSpec is pending and the ring is empty except for a message already handed out. |
| `HandshakeReceive.PendingIffOpened` | Croesus/Pods/BoringSSL-GRPC/ssl/d1_both.cc:321-338 | Over every run, told by its events alone: a ChangeCipherSpec is pending if and only if a record of type 20 with the one byte 1 was opened under the null cipher and none has been taken since; while one is pending, a change of the read epoch is refused. |
| `HandshakeReceive.GetOutcome` | Croesus/Pods/BoringSSL-GRPC/ssl/d1_both.cc:408-424 | A message is handed out if and only if the front slot holds one of which every byte has been received; it is that message, header and body, and it counts as handed out from then on. |
| `HandshakeReceive.HandedOutIff` | Croesus/Pods/BoringSSL-GRPC/ssl/d1_both.cc:408-438 | Over every run, told by its events: `has_message` holds if and only if a message was handed out and none has been released since. |
| `HandshakeReceive.RunCounts` | Croesus/Pods/BoringSSL-GRPC/ssl/d1_both.cc:426-438 | Over every run, the next sequence number is the number of messages released and the read epoch the number of changes not refused, both modulo 2^16. |
| `HandshakeReceive.OpenedByType` | Croesus/Pods/BoringSSL-GRPC/ssl/d1_both.cc:307-348 | What becomes of a record, for each content type by its number: discarded, taken, or refused with which alert; only a ChangeCipherSpec changes the flag, and only a handshake record changes anything else. |
| `HandshakeReceiver.Receiver.GetIncoming` | Croesus/Pods/BoringSSL-GRPC/ssl/d1_both.cc:265-295 | Finds or inserts the message in its slot; refuses a number outside the window and a fragment whose type or length disagrees, each with its own alert, and then changes nothing. |
| `HandshakeReceiver.Receiver.ReceiveInto` | Croesus/Pods/BoringSSL-GRPC/ssl/d1_both.cc:399-402 | Adds a fragment to one message of the ring; the others, whose buffers are apart, keep their contents. |
| `HandshakeReceiver.Receiver.ReceiveFragment` | Croesus/Pods/BoringSSL-GRPC/ssl/d1_both.cc:350-403 | The loop body of `dtls1_open_handshake` on the real ring does what the value-level step says, on every branch, including the error for `seq == handshake_read_seq + 7`. |
| `HandshakeReceiver.Receiver.Open` | Croesus/Pods/BoringSSL-GRPC/ssl/d1_both.cc:297-406 | A whole record on the real ring does what the value-level operation says, for every content type, which `PendingIffOpened`, `OpenedByType` and `HonestRecordRefused` pin down. |
| `HandshakeReceiver.Receiver.Get` | Croesus/Pods/BoringSSL-GRPC/ssl/d1_both.cc:408-424 | Hands out the front message exactly when it is complete, as one whole fragment, and remembers that. |
| `HandshakeReceiver.Receiver.Next` | Croesus/Pods/BoringSSL-GRPC/ssl/d1_both.cc:426-438 | Empties the front slot and advances the 16-bit counter; all other messages stay. |
| `HandshakeReceiver.Receiver.HasUnprocessedData` | Croesus/Pods/BoringSSL-GRPC/ssl/d1_both.cc:440-457 | True exactly when a ChangeCipherSpec is pending or some message other than the one handed out is buffered. |
| `HandshakeReceiver.Receiver.ChangeReadState` | Croesus/Pods/BoringSSL-GRPC/ssl/dtls_method.cc:81-95 | Succeeds exactly when nothing is unprocessed; then the epoch is bumped and the buffered messages are untouched. |
| `HandshakeSend.CutMarks` | Croesus/Pods/BoringSSL-GRPC/ssl/d1_both.cc:693-733 | Cutting a message anywhere behind its first byte splits what it says into what the piece says and what is left, with nothing lost or repeated. |
| `HandshakeSend.FlightSender.Add` | Croesus/Pods/BoringSSL-GRPC/ssl/d1_both.cc:555-594 | Appends a message under the current write epoch after clearing a completed flight, and fails, changing nothing, when seven are queued. |
| `HandshakeSend.FlightSender.BuildMessage` | Croesus/Pods/BoringSSL-GRPC/ssl/d1_both.cc:511-537 | Every message is stored as one whole fragment with the next send number and its own length (RFC 6347 section 4.2.6). |
| `HandshakeSend.FlightSender.UpdateMtu` | Croesus/Pods/BoringSSL-GRPC/ssl/d1_both.cc:615-632 | An MTU of 228 or more, or one that may not be queried, is left alone; otherwise the answer is taken if it is between 228 and 2^30, and 1472 if not. |
| `HandshakeSend.FlightSender.SealNextMessage` | Croesus/Pods/BoringSSL-GRPC/ssl/d1_both.cc:644-734 | The sealed record fits the room, carries exactly the next piece of the current message, and the cursor moves past exactly that piece; on failure it does not move. |
| `HandshakeSend.FlightSender.SealNextPacket` | Croesus/Pods/BoringSSL-GRPC/ssl/d1_both.cc:739-780 | The packet fits, its records say in order what the cursor has moved over, and a successful packet makes progress. |
| `HandshakeSend.PacketIsFull` | Croesus/Pods/BoringSSL-GRPC/ssl/d1_both.cc:736-780 | As much of the flight as possible goes into a packet: without a failure it ends only at the end of the flight, in front of a message of which no record fits in the room left, or behind a record that uses all of that room. |
| `HandshakeSend.FlightSender.SendPacket` | Croesus/Pods/BoringSSL-GRPC/ssl/d1_both.cc:782-818 | A packet is refused exactly when the transport does not take it; then the cursor is put back, so nothing is skipped. A packet that is taken is not empty and not over the MTU. |
| `HandshakeSend.FlightSender.SendFlight` | Croesus/Pods/BoringSSL-GRPC/ssl/d1_both.cc:782-827 | Terminates by (messages left, bytes left); packets written, records given up and the rest make up the flight, in order and once. The result says how far it came: after a shutdown nothing is done; the transport has taken every packet but the one reported as refused; and a healthy sender on an open connection with a willing transport sends everything. A failure gives up no record exactly when no record of the first message of its packet could be made. |
| `HandshakeSend.AttemptFailsIff` | Croesus/Pods/BoringSSL-GRPC/ssl/d1_both.cc:644-734 | For a room of any size: sealing a message fails if and only if its epoch is neither current nor previous, it is not one whole message around the cursor, or there is room and the AEAD fails, the number is the last one or the ciphertext would reach 2^16 bytes. Without room for the worst case nothing happens. |
| `HandshakeSend.DropsNothingIff` | Croesus/Pods/BoringSSL-GRPC/ssl/d1_both.cc:739-780 | A failing packet gives up no record if and only if no record of its first message can be made in the state before the call (`CanSeal`: epoch, form of the message, room, AEAD, number, 2^16 limit), and if and only if the cursor has not moved. |
| `HandshakeSend.DropsShortMessage` | Croesus/Pods/BoringSSL-GRPC/ssl/d1_both.cc:739-780 | MTU 200000, a one-byte message and one of 70000 bytes: the first is sealed, the second fails, and the cursor has passed the dropped first. |
| `HandshakeSend.NoSealFails` | Croesus/Pods/BoringSSL-GRPC/ssl/d1_both.cc:739-780 | With whole messages of the current or previous epoch, an MTU below 2^16, a working AEAD and numbers left for what is still to be said, no seal of a packet fails, and a packet with room for its first record goes out. |
| `HandshakeSend.FlightSender.FlushFlight` | Croesus/Pods/BoringSSL-GRPC/ssl/d1_both.cc:829-834 | The same for a flush, after which the flight counts as complete; on success everything that was left has been written, once and in order, and with nothing in the way it succeeds. |
| `HandshakeSend.FlightSender.Retransmit` | Croesus/Pods/BoringSSL-GRPC/ssl/d1_both.cc:836-845 | Retransmission starts over and, on success, covers the whole flight again; with nothing in the way it succeeds. |
| `DtlsDelivery.HandedOutIsWhatWasAdded` | Croesus/Pods/BoringSSL-GRPC/ssl/d1_both.cc:408-424 | For every flight, MTU and retransmission, and every loss, duplication and reordering of the records: a message handed out equals, header and body, byte for byte, the one added with that sequence number. |
| `DtlsDelivery.ReleasedInOrder` | Croesus/Pods/BoringSSL-GRPC/ssl/d1_both.cc:426-438 | The messages released over a run are the added ones, each once and in order. |
| `DtlsDelivery.HonestFragmentAgrees` | Croesus/Pods/BoringSSL-GRPC/ssl/d1_both.cc:350-403 | A fragment cut from an added message keeps every buffered byte equal to the message it belongs to. |
| `DtlsDelivery.WholeFlightArrives` | Croesus/Pods/BoringSSL-GRPC/ssl/d1_both.cc:350-424 | Completeness: if the records of a written flight that carry part of a message are opened while it is in the window, in any order, among other records and with messages handed out and released in between, the message is complete in its slot or has been released, and is what was added. |
| `DtlsDelivery.HonestRecordRefused` | Croesus/Pods/BoringSSL-GRPC/ssl/d1_both.cc:364-397 | A record cut from an added message is refused if and only if the message is too long for the receiver, or out of turn in epoch 1, or exactly seven ahead; everything else is taken or ignored. |
| `DtlsDelivery.AllOpenedIffWelcome` | Croesus/Pods/BoringSSL-GRPC/ssl/d1_both.cc:350-406 | A series of such records, in any order and repetition, goes through if and only if none of them falls under that condition. |
| `DtlsLink.Speaker.Say` | Croesus/Pods/BoringSSL-GRPC/ssl/d1_both.cc:525-594 | A message is added exactly when it fits its length field and the flight has fewer than seven entries; the send number stays the number of messages added, and the flight is made of exactly such messages. |
| `DtlsLink.Speaker.Transmits` | Croesus/Pods/BoringSSL-GRPC/ssl/d1_both.cc:829-845 | Whatever a flush or a retransmission of the real sender writes carries pieces of messages of its history, so it is a transmission the network theorems allow; on success it says everything that was left, or the whole flight again. |
| `DtlsLink.Link.Transmits` | Croesus/Pods/BoringSSL-GRPC/ssl/d1_both.cc:829-845 | The same with the wire: on success the records added to it say, in order and once, all of what was to be sent, and with nothing in the way a call succeeds. |
| `DtlsLink.Link.Get` | Croesus/Pods/BoringSSL-GRPC/ssl/d1_both.cc:408-424 | The same on the objects: after any sequence of calls of the real sender and the real receiver, with the network delivering any written record any number of times, what is handed out is what was added. |
| `ReplayWindow.ShiftedMarks` | Croesus/Pods/BoringSSL-GRPC/ssl/dtls_record.cc:158-165 | Shifting the 64-bit map left by `n` moves the mark at `i` to `i + n` and clears the low `n`. |
| `ReplayWindow.SlideKeepsMarks` | Croesus/Pods/BoringSSL-GRPC/ssl/dtls_record.cc:158-165 | Sliding the window to a new maximum keeps exactly the marks of recorded numbers that are still inside. |
| `ReplayWindow.Window.ShouldDiscard` | Croesus/Pods/BoringSSL-GRPC/ssl/dtls_record.cc:140-150 | A number is discarded exactly when it is at most the maximum recorded and either 64 or more behind it or already recorded (RFC 6347 section 4.1.2.6). |
| `ReplayWindow.Window.Record` | Croesus/Pods/BoringSSL-GRPC/ssl/dtls_record.cc:155-175 | The map and maximum go on representing the plain set of recorded numbers, with the new one added. |
| `RecordReader.ToU64` | Croesus/Pods/BoringSSL-GRPC/ssl/dtls_record.cc:128-136 | The loop computes the big-endian value of the eight bytes. |
| `RecordReader.AcceptedOrUnchanged` | Croesus/Pods/BoringSSL-GRPC/ssl/dtls_record.cc:177-272 | A record is accepted exactly when it is authentic, of the current epoch and not discarded; it is then recorded. Any other record leaves the window as it was. |
| `RecordReader.NoReplay` | Croesus/Pods/BoringSSL-GRPC/ssl/dtls_record.cc:225-259 | Over every run, no record is accepted twice in an epoch, and no sequence number twice until the epoch wraps. |
| `RecordReader.InPlaceReader.Open` | Croesus/Pods/BoringSSL-GRPC/ssl/dtls_record.cc:177-272 | The in-place reader does what the set-based one says, with the window standing for the set. |
| `RecordReader.InPlaceReader.NextEpoch` | Croesus/Pods/BoringSSL-GRPC/ssl/dtls_method.cc:81-95 | A new epoch starts with an empty window and the epoch number bumped modulo 2^16. |
| `RecordLayer.RecordRoundTrip` | Croesus/Pods/BoringSSL-GRPC/ssl/dtls_record.cc:192-206 | A record put together as `dtls_seal_record` does is decoded as it was, whatever follows it. |
| `RecordLayer.DecodedRecordPrints` | Croesus/Pods/BoringSSL-GRPC/ssl/dtls_record.cc:192-206 | Whatever decodes as a record begins with that record put together. |
| `RecordLayer.RecordHeaderLayout` | Croesus/Pods/BoringSSL-GRPC/ssl/dtls_record.cc:319-345 | Type at byte 0, version at 1 and 2, epoch and number at 3 to 10, length at 11 and 12, and then the body. |
| `RecordLayer.SealedIsOpened` | Croesus/Pods/BoringSSL-GRPC/ssl/dtls_record.cc:177-272 | From sealing to opening: a record sealed under some version, epoch and number, as bytes with anything behind it, is opened by a reader with the same keys to exactly what was sealed, and remembered, if and only if the reader expects that version, is in that epoch and does not discard the number; a text over the limit is an overflow, and anything else is skipped and changes nothing. |
| `RecordLayer.PlainIsOpened` | Croesus/Pods/BoringSSL-GRPC/ssl/dtls_record.cc:208-216 | The same under the null cipher, where only the major version counts. |
| `RecordLayer.LongOrCutIsRefused` | Croesus/Pods/BoringSSL-GRPC/ssl/dtls_record.cc:192-206 | A record with a body of more than 16704 bytes, or of which anything is missing, is not decoded. |
| `RecordLayer.NothingToOpen` | Croesus/Pods/BoringSSL-GRPC/ssl/dtls_record.cc:177-206 | After a close_notify nothing is opened, an empty input asks for more, and a datagram that does not decode is skipped whole. |
| `RecordNonce.CreatedContextOk` | Croesus/Pods/BoringSSL-GRPC/ssl/ssl_aead_ctx.cc:57-149 | Every cipher kind is set up with consistent nonce lengths and flags. |
| `RecordLayer.CreatedForSuite` | Croesus/Pods/BoringSSL-GRPC/ssl/ssl_aead_ctx.cc:109-146 | Which suites send a nonce with the record, exclusive-or the sequence number, use a random nonce, or leave out additional data, their length or their version. |
| `RecordNonce.XorAllCancels` | Croesus/Pods/BoringSSL-GRPC/ssl/ssl_aead_ctx.cc:350-356 | XORing the fixed nonce in twice gives back the original bytes. |
| `RecordLayer.XorBit` | Croesus/Pods/BoringSSL-GRPC/ssl/ssl_aead_ctx.cc:350-356 | Each bit of the exclusive or is the sum of the two bits modulo 2. |
| `RecordLayer.NonceLayout` | Croesus/Pods/BoringSSL-GRPC/ssl/ssl_aead_ctx.cc:325-356 | The fixed nonce stands in front of the variable part, or the sequence number is exclusive-ored into the last eight bytes of it. |
| `RecordNonce.DistinctNonces` | Croesus/Pods/BoringSSL-GRPC/ssl/ssl_aead_ctx.cc:325-356 | With the fixed nonce prepended or XORed in, two 8-byte sequence numbers give the same nonce exactly when they are equal. |
| `RecordNonce.OpenAgreesWithSeal` | Croesus/Pods/BoringSSL-GRPC/ssl/ssl_aead_ctx.cc:225-294 | Opening recomputes the nonce and additional data of sealing if and only if the length is not authenticated or the overhead is the maximum one. |
| `RecordLayer.AdditionalDataLayout` | Croesus/Pods/BoringSSL-GRPC/ssl/ssl_aead_ctx.cc:203-224 | The additional data byte by byte: sequence number at 0 to 7, content type at 8, then version and length unless left out; thirteen bytes with both. |
| `RecordLayer.SameAdditionalDataIff` | Croesus/Pods/BoringSSL-GRPC/ssl/ssl_aead_ctx.cc:203-224 | Two records have the same additional data if and only if they agree in sequence number and content type, in the version unless it is left out, and in the 16-bit length unless it is. |
| `RecordNonce.SequenceBytesInjective` | Croesus/Pods/BoringSSL-GRPC/ssl/dtls_record.cc:294-320 | Epoch and number are recovered from the eight sequence bytes, so distinct pairs give distinct sequence numbers. |
| `RecordNonce.AssembleNonce` | Croesus/Pods/BoringSSL-GRPC/ssl/ssl_aead_ctx.cc:325-356 | The fill and XOR loops build the nonce that the specification gives. |
| `RecordWriter.PairsDistinctIffNoOverflow` | Croesus/Pods/BoringSSL-GRPC/ssl/dtls_record.cc:294-351 | Until the epoch wraps, no two records that come out share an (epoch, number) pair, retransmissions of the previous epoch included, as long as no epoch has sealed more than 2^48 records; and only as long, if every ciphertext was short enough to be sent. |
| `RecordWriter.UsesDistinctIffNoOverflow` | Croesus/Pods/BoringSSL-GRPC/ssl/dtls_record.cc:294-351 | The same of every record the AEAD seals, also one lost at the overflow or at the 2^16 test: until the epoch wraps, the AEAD is never given an (epoch, number) pair twice if and only if no epoch has sealed more than 2^48 records. |
| `RecordWriter.OverflowReusesZero` | Croesus/Pods/BoringSSL-GRPC/ssl/internal.h:746-748 | At the last number the update fails but leaves zero behind, so the next seal reuses the first pair of the epoch. |
| `RecordWriter.NoncesDistinct` | Croesus/Pods/BoringSSL-GRPC/ssl/ssl_aead_ctx.cc:325-356 | Hence under one key no nonce is used twice before an overflow or an epoch wrap, neither by two records the AEAD has sealed, whatever became of them, nor by two that came out. |
| `RecordWriter.Writer.SetWriteState` | Croesus/Pods/BoringSSL-GRPC/ssl/dtls_method.cc:97-107 | Moves the current numbers to the previous epoch and starts the new epoch at zero. |
| `RecordWriter.Writer.SealRecord` | Croesus/Pods/BoringSSL-GRPC/ssl/dtls_record.cc:294-351 | The record made, or none, and the numbers afterwards are those of the numbering model: under the epoch asked for, with its next number, exactly when the record fits, the AEAD works, the number is not the last and the ciphertext is below 2^16 bytes. |
| `RecordWriter.SealFailsIff` | Croesus/Pods/BoringSSL-GRPC/ssl/dtls_record.cc:294-351 | With room for the worst case and a working AEAD, however much room there is, sealing fails if and only if the number is the last one or the ciphertext reaches 2^16 bytes. |
| `PbWire.VarintRoundTrip` | Croesus/Pods/nanopb/pb_decode.c:250-270 | `pb_decode_varint` undoes `pb_encode_varint` on every 64-bit integer, whatever follows. |
| `PbFormat.VarintIsTheForm` | Croesus/Pods/nanopb/pb_encode.c:574-594 | What is written for a number is the one shortest base-128 form of it: seven bits a byte, lowest first, high bit set on all but the last. |
| `PbWire.Varint32RoundTrip` | Croesus/Pods/nanopb/pb_decode.c:182-242 | `pb_decode_varint32` undoes it on every 32-bit integer. |
| `PbWire.Varint32IsLowHalf` | Croesus/Pods/nanopb/pb_decode.c:182-242 | Whenever the 32-bit reader accepts a varint of at most ten bytes, the 64-bit reader accepts the same bytes, and the 32-bit result is its low half. |
| `PbWire.Varint32DropsHighBits` | Croesus/Pods/nanopb/pb_decode.c:232-237 | An input: `80 80 80 80 90 00` is 2^32 but is read as 0. |
| `PbWire.Varint32ExactIff` | Croesus/Pods/nanopb/pb_decode.c:202-242 | The 32-bit reader gives the value of an accepted varint of at most ten bytes if and only if the fifth byte carries less than 16 and every later byte nothing. |
| `PbWire.ZigZagRoundTrip` | Croesus/Pods/nanopb/pb_decode.c:1240-1252 | Zig-zag decoding undoes encoding on every 64-bit signed integer. |
| `PbWire.SignedRoundTrip` | Croesus/Pods/nanopb/pb_decode.c:1289-1324 | A signed value that fits a field comes back through the unsigned 64-bit wire form and the cast to the field size. |
| `PbWire.LittleEndianRoundTrip` | Croesus/Pods/nanopb/pb_decode.c:1254-1286 | Fixed-width integers are read back as written. |
| `PbFormat.FixedWidthBytes` | Croesus/Pods/nanopb/pb_encode.c:607-632 | Fixed-width integers are written in four or eight bytes, lowest first. |
| `PbFormat.ZigZagOrder` | Croesus/Pods/nanopb/pb_encode.c:596-605 | Zig-zag numbers 0, -1, 1, -2 as 0, 1, 2, 3, and so on for all 64-bit integers. |
| `PbFormat.TagOnTheWire` | Croesus/Pods/nanopb/pb_encode.c:635-672 | A tag is the varint of eight times the field number plus the wire type, 0, 1, 2 or 5 by the type of the field; 2 for a packed array. |
| `PbFormat.KnownMessage` | Croesus/Pods/nanopb/pb_encode.c:494-516 | An input: 150 in field 1 of a message in field 3 of another one is `1a 03 08 96 01`. |
| `PbFormat.ArrayIsPacked` | Croesus/Pods/nanopb/pb_encode.c:128-177 | A non-empty array of numbers is one tag of wire type 2, one length and all items behind it. |
| `PbFormat.KnownArray` | Croesus/Pods/nanopb/pb_encode.c:128-177 | An input: 3, 270 and 86942 in the array of field 4 are `22 06 03 8e 02 9e a7 05`. |
| `PbWire.DelimitedRoundTrip` | Croesus/Pods/nanopb/pb_decode.c:367-395 | A length prefix and its bytes are taken off as one substream, whatever follows. |
| `PbWire.SkipExtends` | Croesus/Pods/nanopb/pb_decode.c:316-326 | Skipping a field consumes the same bytes whatever follows it. |
| `PbFormat.SkipsWritten` | Croesus/Pods/nanopb/pb_decode.c:316-326 | Skipping by wire type steps over exactly what the encoder writes for one value, of any type. |
| `PbFormat.ForeignFieldIsUnknown` | Croesus/Pods/nanopb/pb_decode.c:960-970 | So a field written under a tag the reader's descriptor does not have is one whole unknown field to it. |
| `PbFormat.SkipRefuses` | Croesus/Pods/nanopb/pb_decode.c:316-326 | Other wire types are errors, and so is an input that ends first. |
| `PbMessage.CString` | Croesus/Pods/nanopb/pb_encode.c:831-855 | The encoded string is the buffer up to its first NUL or its end. |
| `PbMessage.FindFrom` | Croesus/Pods/nanopb/pb_common.c:78-95 | The first field with the tag, or none if no field has it. |
| `PbRoundTrip.ScalarAcceptedIff` | Croesus/Pods/nanopb/pb_decode.c:1289-1378 | A varint field accepts exactly the numbers it has room for, after the sign or zig-zag rule of its type, and stores them unchanged. |
| `PbRoundTrip.ScalarRoundTrip` | Croesus/Pods/nanopb/pb_decode.c:1289-1378 | Every integer and fixed-width type, at every field size, reads back the value that was written. |
| `PbRoundTrip.TagStep` | Croesus/Pods/nanopb/pb_decode.c:920-1000 | A known tag hands the rest of the input to that field, wherever the iterator stands. |
| `PbRoundTrip.ValueRoundTrip` | Croesus/Pods/nanopb/pb_decode.c:1391-1508 | One item of any type, submessages included, decodes to the value encoded, when its destination holds the default. |
| `PbRoundTrip.ItemsRoundTrip` | Croesus/Pods/nanopb/pb_decode.c:444-458 | An unpacked array is rebuilt item by item, in order. |
| `PbRoundTrip.PackedRoundTrip` | Croesus/Pods/nanopb/pb_decode.c:415-443 | A packed array is rebuilt item by item, and its substream is used up. |
| `PbRoundTrip.FieldRoundTrip` | Croesus/Pods/nanopb/pb_decode.c:401-475 | Decoding what one field wrote moves the message and the seen set from the state before the field to the state after it. |
| `PbRoundTrip.ZeroIsDefault` | Croesus/Pods/nanopb/pb_encode.c:215-303 | A proto3 value the encoder leaves out is equal to the default the decoder sets, at any depth. |
| `PbRoundTrip.RoundTrip` | Croesus/Pods/nanopb/pb_decode.c:1051-1063 | `pb_decode(pb_encode(m))` succeeds, uses all bytes and gives `m` up to the contents of absent optional fields and unset unions, for every acyclic descriptor and every storable message. |
| `PbRoundTrip.EncodesIffRoom` | Croesus/Pods/nanopb/pb_encode.c:126-139 | Encoding fails exactly when, at some depth, an array to be sent has more entries than its room or a bytes field is larger than its buffer. |
| `PbRoundTrip.StringNeedsTerminator` | Croesus/Pods/nanopb/pb_decode.c:1428-1461 | A string that fills its buffer is encoded but refused on decoding: it decodes again if and only if its terminator lies inside the buffer. |
| `PbRoundTrip.FullStringIsRefused` | Croesus/Pods/nanopb/pb_decode.c:1428-1461 | An input: four characters in a buffer of four bytes are encoded as `04 41 42 43 44`, and the field refuses these bytes. |
| `PbFormat.BodyAcceptedIff` | Croesus/Pods/nanopb/pb_decode.c:1391-1461 | A bytes, string or fixed-length field takes a body if and only if its buffer can hold it, with length or terminator. |
| `PbFormat.PackedAcceptedIff` | Croesus/Pods/nanopb/pb_decode.c:415-443 | A packed array is accepted if and only if its items fit behind those that are there. |
| `PbFormat.WireTypeIgnored` | Croesus/Pods/nanopb/pb_decode.c:401-520 | Behind a known tag the wire type only tells a packed array from one item; otherwise any wire type is read alike. |
| `PbFormat.FullArrayRefuses` | Croesus/Pods/nanopb/pb_decode.c:444-458 | An array that is full refuses another item, packed or not. |
| `PbFormat.ZeroTagEnds` | Croesus/Pods/nanopb/pb_decode.c:293-312 | A zero tag ends a message, whatever follows. |
| `PbFormat.OmittedIff` | Croesus/Pods/nanopb/pb_encode.c:307-392 | When a field leaves no bytes: without its flag, without items, not chosen, or a proto3 value that is zero or empty; a required field always leaves some. |
| `PbMerge.Concatenation` | Croesus/Pods/nanopb/pb_decode.c:901-1000 | Decoding `a + b` is decoding `a` and then `b` into the same message; a zero tag in `a` ends the message there. |
| `PbMerge.MergeOfConcatenation` | Croesus/Pods/nanopb/pb_decode.c:1010-1046 | The required-field check of a concatenation covers both halves together; neither alone needs to pass it. |
| `PbMerge.RequiredFieldsMustOccur` | Croesus/Pods/nanopb/pb_decode.c:1010-1046 | A message whose fields all decode is accepted if and only if each of its first 64 required fields occurs in it. |
| `PbMerge.UnknownFieldIsInvisible` | Croesus/Pods/nanopb/pb_decode.c:936-971 | A well-formed field with an unknown tag between two field sequences changes nothing. |
| `PbMerge.LastOneWins` | Croesus/Pods/nanopb/pb_decode.c:401-413 | Of two occurrences of a non-repeated scalar, string or bytes field, the later one counts. |
| `PbMerge.SubmessagesMerge` | Croesus/Pods/nanopb/pb_decode.c:1463-1485 | Two occurrences of a submessage field are one occurrence of the concatenated bodies. |
| `PbDefaults.UnmetIsDefault` | Croesus/Pods/nanopb/pb_decode.c:812-882 | In a decoded message, a field the input does not meet is unset: its flag is clear, and its value is the declared default if there is one, otherwise zero or empty, at every depth of submessages; a union is unset if no member is met. |
| `PbDefaults.UnmetIsKept` | Croesus/Pods/nanopb/pb_decode.c:901-1000 | Decoding into any message leaves every cell as it was none of whose fields is met. |
| `PbDefaults.UnmetFieldIsKept` | Croesus/Pods/nanopb/pb_decode.c:901-1049 | The same for one field of a whole decoding. |
| `PbDefaults.UnmetInSubmessage` | Croesus/Pods/nanopb/pb_decode.c:1463-1485 | Fields not met inside a submessage are unset when it begins there: on the first occurrence, in every item of an array, and in every occurrence of a union's member, whatever the union held before. |
| `PbDefaults.UnionStartsOver` | Croesus/Pods/nanopb/pb_decode.c:461-469 | What a union is given does not depend on what it held, and it then names the member. |
| `PbDefaults.DeclaredDefault` | Croesus/Pods/nanopb/pb_decode.c:854-858 | An input: an optional field with default 5 and no bytes at all decodes to 5 with its flag clear. |
| `PbMerge.UnpackedIsAccepted` | Croesus/Pods/nanopb/pb_decode.c:444-458 | A packable array sent one item per tag is read like the packed form. |
| `PbIterator.FieldIter.Next` | Croesus/Pods/nanopb/pb_common.c:20-76 | Steps to the next field or wraps to the first, and keeps counting the required fields passed. |
| `PbIterator.FieldIter.Find` | Croesus/Pods/nanopb/pb_common.c:78-95 | Searches once around from wherever it stands; finds the tag exactly when some field has it (or the end marker of an empty descriptor has tag 0), and otherwise does not move. |
| `PbIterator.FoundIsFirst` | Croesus/Pods/nanopb/pb_common.c:78-95 | With distinct tags the field found does not depend on where the iterator stood. |
| `PbEncoder.EmittedThen` | Croesus/Pods/nanopb/pb_encode.c:101-119 | Two encoding calls in a row emit the concatenation, counting or writing, and fail exactly when it has no encoding or no room. |
| `PbEncoder.VarintBytes` | Croesus/Pods/nanopb/pb_encode.c:574-594 | The loop produces the base-128 form, low groups first. |
| `PbEncoder.VarintFitsBuffer` | Croesus/Pods/nanopb/pb_encode.c:576-577 | The ten-byte scratch array suffices for every 64-bit integer. |
| `PbEncoder.OStream.Write` | Croesus/Pods/nanopb/pb_encode.c:101-119 | Succeeds exactly when sizing or when there is room; then exactly these bytes are at the old position and nothing outside the room has changed. |
| `PbEncoder.OStream.EncodeArrayField` | Croesus/Pods/nanopb/pb_encode.c:126-211 | Emits the packed or the tagged form of the array, or fails when it is too long. |
| `PbEncoder.OStream.EncodeSubmessage` | Croesus/Pods/nanopb/pb_encode.c:682-730 | The second pass writes exactly what the first counted, so "submsg size changed" is unreachable, at every depth. |
| `PbEncoder.OStream.EncodeBasicField` | Croesus/Pods/nanopb/pb_encode.c:307-392 | Emits the field, or nothing if it is absent, for every repetition rule. |
| `PbEncoder.OStream.EncodeMessage` | Croesus/Pods/nanopb/pb_encode.c:494-516 | Succeeds exactly when the message has an encoding and it fits; a buffer then holds exactly the encoding, a sizing stream has counted its length. |
| `PbEncoder.GetEncodedSize` | Croesus/Pods/nanopb/pb_encode.c:533-542 | Returns the length of the encoding, exactly when there is one. |
| `PbEncoder.SizingPredictsWriting` | Croesus/Pods/nanopb/pb_encode.c:682-730 | Writing succeeds if and only if counting did and the room is at least the count; it then writes exactly as many bytes. |
| `PbDecoder.IStream.DecodeVarint32Eof` | Croesus/Pods/nanopb/pb_decode.c:182-242 | The loop computes the specified 32-bit reading, and reports end of file only when not even a first byte was there. |
| `PbDecoder.IStream.DecodeVarint` | Croesus/Pods/nanopb/pb_decode.c:250-270 | The loop computes the specified 64-bit reading. |
| `PbDecoder.IStream.Skip` | Croesus/Pods/nanopb/pb_decode.c:316-326 | Skips exactly one field of the wire type, or fails. |
| `PbDecoder.IStream.MakeSubstream` | Croesus/Pods/nanopb/pb_decode.c:367-380 | The substream is exactly the delimited bytes, and the outer stream keeps exactly what follows. |
| `PbDecoder.IStream.CloseSubstream` | Croesus/Pods/nanopb/pb_decode.c:382-395 | Closing skips what the substream left and puts the outer stream behind it. |
| `PbDecoder.IStream.DecodePackedItems` | Croesus/Pods/nanopb/pb_decode.c:425-441 | Reads items until the substream or the array is used up; accepted exactly when the substream is. |
| `PbDecoder.IStream.DecodeStaticField` | Croesus/Pods/nanopb/pb_decode.c:401-475 | Every repetition rule, with merging into singular submessages, resetting unions, and overflow errors. |
| `PbDecoder.IStream.DecodeSubmessage` | Croesus/Pods/nanopb/pb_decode.c:1463-1485 | Decodes a submessage from its own substream and resumes behind it, even when the submessage stopped early. |
| `PbDecoder.IStream.DecodeMessage` | Croesus/Pods/nanopb/pb_decode.c:901-1049 | The loop over fields, with iterator, bit set and required check, computes exactly the specified decoding, and fails exactly when that does. |
| `PbDecoder.IStream.DecodeFresh` | Croesus/Pods/nanopb/pb_decode.c:1051-1063 | Decoding after setting the defaults is the specified decoding of a new message. |
| `PbDecoder.SetToDefaults` | Croesus/Pods/nanopb/pb_decode.c:884-895 | The loop over fields sets every cell to its default, recursively; `PbDefaults.UnmetIsDefault` says what that is. |
| `PbDecoder.SeenFields.Mark` | Croesus/Pods/nanopb/pb_decode.c:990-996 | Or-ing one bit into the two words adds exactly that index to the set. |
| `PbDecoder.SeenFields.Check` | Croesus/Pods/nanopb/pb_decode.c:1028-1046 | The word and remainder comparisons hold exactly when all of the first 64 required fields have been seen. |
| `PbDecoder.OnesIff` | Croesus/Pods/nanopb/pb_decode.c:1038-1045 | A word equals `allbits >> (32 - r)` exactly when its bits below `r` are set and no others. |
| `PbDecoder.CountRequired` | Croesus/Pods/nanopb/pb_decode.c:1011-1024 | Seeking to the end and the fixup give the number of required fields, from any position. |
| `WriteQueue.FlushFlightInOrder` | Croesus/Pods/BoringSSL-GRPC/ssl/s3_both.cc:231-279 | Flushing a buffer that ends by the 16-bit limit keeps the order, and when it succeeds every sealed byte has been sent. |
| `WriteCompletion.FlushCompletes` | Croesus/Pods/BoringSSL-GRPC/ssl/s3_both.cc:231-279 | On an open connection, with a transport that takes what waits, in any parts, and is flushed: the flush returns 1, has sent exactly the write buffer and the rest of the flight, and no flight is left. |
| `WriteCompletion.FlushRefusedIff` | Croesus/Pods/BoringSSL-GRPC/ssl/s3_both.cc:236-246 | It is refused without touching anything if and only if writing is shut down or the flight is longer than INT_MAX; otherwise the transport has been called. |
| `WriteCompletion.TransportDecidesFlush` | Croesus/Pods/BoringSSL-GRPC/ssl/s3_both.cc:248-278 | A flush that is not refused goes on exactly while the transport answers positively: it reports success only behind a positive answer to the flush of the transport, and otherwise stops at the first answer that is not, keeping the flight. |
| `WriteCompletion.BlockedFlushKeepsDue` | Croesus/Pods/BoringSSL-GRPC/ssl/s3_both.cc:248-274 | A flush that is blocked anywhere loses nothing and keeps the flight: sent, buffered and waiting bytes together are the same as before. |
| `WriteCompletion.ResumedFlushCompletes` | Croesus/Pods/BoringSSL-GRPC/ssl/s3_both.cc:231-279 | Resumed with a willing transport it ends with the same bytes sent as if it had never been blocked. |
| `WriteCompletion.FlightLeaves` | Croesus/Pods/BoringSSL-GRPC/ssl/s3_both.cc:231-279 | An input: a flight of six bytes and a transport that answers 6 and 1; all six bytes leave. |
| `WriteQueue.AddRecordInOrder` | Croesus/Pods/BoringSSL-GRPC/ssl/s3_both.cc:135-165 | A record joins the end of the queues, or nothing does. |
| `WriteQueue.AddMessageSealed` | Croesus/Pods/BoringSSL-GRPC/ssl/s3_both.cc:184-205 | A message is sealed whole and in order, however the fragment limit cuts it, and only records are added. |
| `WriteQueue.AddMessageCuts` | Croesus/Pods/BoringSSL-GRPC/ssl/s3_both.cc:184-205 | In as few records as the limit allows: all but the last are as long as it, and none of a non-empty message is empty. |
| `WriteQueue.AddMessageInOrder` | Croesus/Pods/BoringSSL-GRPC/ssl/s3_both.cc:184-205 | Its records join the end of the queues, also when sealing fails half-way. |
| `WriteRuns.WriteCompletes` | Croesus/Pods/BoringSSL-GRPC/ssl/s3_pkt.cc:221-289 | When malloc and sealing work and the transport takes everything, the waiting flight and then the new record are on the wire and the write reports success, for every capacity up to 0xffff. |
| `WriteRuns.MessageJoins` | Croesus/Pods/BoringSSL-GRPC/ssl/s3_both.cc:184-205 | When sealing works, a handshake message joins the flight as exactly its records. |
| `WriteCompletion.WriteCompletesInParts` | Croesus/Pods/BoringSSL-GRPC/ssl/s3_pkt.cc:221-289 | The same as before in any number of parts, if the capacity is safe. |
| `WriteCompletion.RetryRefusedIff` | Croesus/Pods/BoringSSL-GRPC/ssl/s3_pkt.cc:202-218 | The retry of a pending record is refused if and only if it is shorter, of another type, or at another address without the mode for that. |
| `WriteCompletion.RetryCompletes` | Croesus/Pods/BoringSSL-GRPC/ssl/s3_pkt.cc:202-218 | A retry that is not refused finishes the record and reports its length. |
| `WriteCompletion.TransportDecidesWrite` | Croesus/Pods/BoringSSL-GRPC/ssl/s3_pkt.cc:202-218 | A retry that is not refused reports the record exactly when the transport has taken all of the buffer, and stays pending otherwise. |
| `WriteCompletion.NothingStarts` | Croesus/Pods/BoringSSL-GRPC/ssl/s3_pkt.cc:129-289 | With something else in the write buffer, a fragment over the limit, or nothing left to write, a write changes, seals and sends nothing; only the last is not an error. |
| `WriteCompletion.AppWriteCompletes` | Croesus/Pods/BoringSSL-GRPC/ssl/s3_pkt.cc:129-200 | On an open connection, a write with malloc, sealing and transport willing and safe capacities: all of the data are sealed in order and sent behind what waited, and the call returns their length. |
| `WriteCompletion.PartialWriteSealsOne` | Croesus/Pods/BoringSSL-GRPC/ssl/s3_pkt.cc:161-199 | With partial writes enabled a call seals one record at most. |
| `WriteRuns.DoWriteInOrder` | Croesus/Pods/BoringSSL-GRPC/ssl/s3_pkt.cc:221-289 | A record write keeps the order if the capacity it asks for, if any, is above 0xffff (refused) or at most 0xfff9. |
| `WriteRuns.DoWriteShape` | Croesus/Pods/BoringSSL-GRPC/ssl/s3_pkt.cc:221-289 | Whatever the capacity: a record write seals at most one record, whose plaintext is the caller's, and remembers exactly an unfinished one. |
| `WriteRuns.WriteKeepsOrderIff` | Croesus/Pods/BoringSSL-GRPC/ssl/ssl_buffer.cc:47-97 | A record write that needs a new buffer keeps the order for every placement and content of the memory, every sealed record and every transport, if and only if the capacity it asks for is above 0xffff or at most 0xfff9. |
| `WriteRuns.UnsafeWrite` | Croesus/Pods/BoringSSL-GRPC/ssl/s3_pkt.cc:221-289 | Otherwise, with the contents placed seven bytes in and a first write by the transport of at least 65529 bytes: everything is reported as written, but the last bytes sent are the memory in front of the contents. |
| `WriteRuns.WriteKeepsAccount` | Croesus/Pods/BoringSSL-GRPC/ssl/s3_pkt.cc:129-200 | After an application write, acknowledged bytes, `wnum` and the pending record account for everything sealed if and only if the write was not shorter than what earlier calls had already written of it. |
| `WriteRuns.ShortRetrySealsTwice` | Croesus/Pods/BoringSSL-GRPC/ssl/s3_pkt.cc:129-166 | For every fragment limit `n` from 512 to 16384: a write of `n + 1` bytes whose second record is blocked, any retry shorter than `n`, and a retry with all seal `data[..n] + data[n..] + data[1..]`, which is no prefix of the stream. |
| `WriteRuns.SentIsPrefixOfSealed` | Croesus/Pods/BoringSSL-GRPC/ssl/s3_pkt.cc:221-289 | Over every run, every transport and every placement of the buffers: while each capacity asked for is above 0xffff or at most 0xfff9, the bytes sent are a prefix of all sealed records concatenated in the order of sealing. |
| `WriteRuns.SealedExactlyOnce` | Croesus/Pods/BoringSSL-GRPC/ssl/s3_pkt.cc:129-218 | Over every run of a caller that retries with the same bytes and not fewer, each application byte is sealed exactly once and in order, whatever the fragment size, partial-write mode and failures. |
| `WriteRuns.DispatchInOrder` | Croesus/Pods/BoringSSL-GRPC/ssl/s3_pkt.cc:377-423 | Dispatching an alert whose capacity is safe keeps the order. |
| `WriteRuns.AlertKeepsAccount` | Croesus/Pods/BoringSSL-GRPC/ssl/s3_pkt.cc:377-423 | Dispatching an alert never changes what is accounted for of the caller's stream, whatever the capacity. |
| `WriteCompletion.AlertClearedIff` | Croesus/Pods/BoringSSL-GRPC/ssl/s3_pkt.cc:405-423 | A dispatched alert is cleared exactly when it was written, and kept otherwise. |
| `WriteCompletion.AlertCompletes` | Croesus/Pods/BoringSSL-GRPC/ssl/s3_pkt.cc:377-423 | The first closing alert shuts writing down and, with everything willing, is on the wire behind what waited when the call returns, the transport being flushed behind a fatal one; a later one changes nothing. |
| `WriteCompletion.BlockedAlertWaits` | Croesus/Pods/BoringSSL-GRPC/ssl/s3_pkt.cc:377-399 | An alert that cannot be written at once is kept, and writing is shut down all the same. |
| `WriteCompletion.ClosedStaysClosed` | Croesus/Pods/BoringSSL-GRPC/ssl/s3_pkt.cc:129-150 | Over every run after the shutdown, no application data are sealed or acknowledged any more. |
| `WritePipeline.ConsumesRightIff` | Croesus/Pods/BoringSSL-GRPC/ssl/ssl_buffer.cc:90-97 | For a buffer placed at any offset: every consumption leaves exactly the bytes that follow, whatever is in the memory, if and only if the contents end by the 16-bit limit. |
| `WritePipeline.CapacitySafeIff` | Croesus/Pods/BoringSSL-GRPC/ssl/ssl_buffer.cc:47-81 | A full buffer of a capacity is safe for every placement, memory and consumption if and only if the capacity is at most 0xfff9; 0xfffa to 0xffff are accepted but unsafe. |
| `WritePipeline.WrappedBuffer` | Croesus/Pods/BoringSSL-GRPC/ssl/ssl_buffer.cc:47-97 | A real buffer of capacity 0xffff, placed at offset 7 and filled: after 65530 bytes have been consumed its offset is 1 and its contents are bytes 1 to 5 of the memory it was placed in. |
| `WritePipeline.SSLBuffer.EnsureCap` | Croesus/Pods/BoringSSL-GRPC/ssl/ssl_buffer.cc:47-81 | Grows the capacity, keeps the contents and aligns what follows the header, wherever malloc puts the memory; fails exactly above 0xffff or when malloc fails. |
| `WriteCompletion.OffsetAligns` | Croesus/Pods/BoringSSL-GRPC/ssl/ssl_buffer.cc:57-80 | Wherever malloc puts the memory, what follows the header stands at a multiple of eight. |
| `WritePipeline.SSLBuffer.Append` | Croesus/Pods/BoringSSL-GRPC/ssl/ssl_buffer.cc:83-88 | What is written behind the contents joins them. |
| `WritePipeline.SSLBuffer.Consume` | Croesus/Pods/BoringSSL-GRPC/ssl/ssl_buffer.cc:90-97 | Exactly the first bytes are dropped if the contents end by the 16-bit limit; otherwise the buffer points where the wrapped offset says, into the memory in front. |
| `WritePipeline.Writer.FlushWriteBuffer` | Croesus/Pods/BoringSSL-GRPC/ssl/ssl_buffer.cc:239-252 | The loop hands the buffer to the transport part by part, byte for byte as specified, also from a buffer whose offset wraps. |
| `WritePipeline.Writer.AddHandshakeMessage` | Croesus/Pods/BoringSSL-GRPC/ssl/s3_both.cc:184-205 | The do-while loop over chunks does what the specification says. |
| `WritePipeline.Writer.FlushPendingFlight` | Croesus/Pods/BoringSSL-GRPC/ssl/s3_both.cc:231-279 | The write buffer first, then the flight, then the transport's flush, with the state after every failure, for every buffer. |
| `WritePipeline.Writer.WriteRecord` | Croesus/Pods/BoringSSL-GRPC/ssl/s3_pkt.cc:221-289 | Takes over the flight, seals behind it and writes, as specified for every capacity and every outcome of malloc; no abort in `SSLBuffer` is reachable. |
| `WritePipeline.Writer.WriteAppData` | Croesus/Pods/BoringSSL-GRPC/ssl/s3_pkt.cc:129-200 | The loop over the fragments cut from the data, with `wnum` saved and restored, as specified for every capacity. |
| `WritePipeline.Writer.SendClosingAlert` | Croesus/Pods/BoringSSL-GRPC/ssl/s3_pkt.cc:377-423 | Shuts writing down and dispatches the alert at once if nothing is being written, as specified for every capacity. |
| `WritePipeline.Drive` | Croesus/Pods/BoringSSL-GRPC/ssl/s3_pkt.cc:129-423 | One writer object through any schedule of messages, flight records, flushes, writes and alerts, under any answers of transport, cipher and malloc, is in the state of the specified run. While each capacity asked for is safe, what was sent is a prefix of the sealed records in order; whatever the capacities, an honest caller's bytes are sealed once and in order. |
| `WritePipeline.MemoryIsSent` | Croesus/Pods/BoringSSL-GRPC/ssl/s3_pkt.cc:221-289 | A run of the writer that breaks the order: an unflushed message of 65503 to 65508 bytes, an alert behind it, the contents placed seven bytes in and a first write by the transport of at least 65529 bytes. The alert is reported as sent, the last bytes on the wire are bytes of the memory in front of the contents, and if the first of them differs from what was due, what was sent is no prefix of what was sealed. |
| `MessageBuffer.FrameParses` | Croesus/Pods/BoringSSL-GRPC/ssl/s3_both.cc:399-425 | A framed handshake message is parsed back, whatever follows it. |
| `RecordLayer.FrameLayout` | Croesus/Pods/BoringSSL-GRPC/ssl/s3_both.cc:399-425 | Type at byte 0, length at 1 to 3, highest byte first, and then the body. |
| `MessageBuffer.ParsedIsFrame` | Croesus/Pods/BoringSSL-GRPC/ssl/s3_both.cc:399-425 | What is parsed is what the buffer starts with; otherwise the number of bytes asked for is more than there are. |
| `MessageBuffer.ReadingIsUnique` | Croesus/Pods/BoringSSL-GRPC/ssl/s3_both.cc:399-425 | Two readings of one byte string start with the same messages. |
| `MessageBuffer.MessagesArriveInOrder` | Croesus/Pods/BoringSSL-GRPC/ssl/s3_both.cc:474-583 | However the bytes of a message sequence are cut into records, the messages consumed are the first of the sequence, unchanged and in order. |
| `MessageBuffer.EveryMessageArrives` | Croesus/Pods/BoringSSL-GRPC/ssl/s3_both.cc:441-583 | And every message arrives: with none over the limit, a reader that takes what is whole before each record ends with exactly the messages of the sequence and an empty buffer, however they are cut. |
| `MessageBuffer.Inbox.ParseFront` | Croesus/Pods/BoringSSL-GRPC/ssl/s3_both.cc:399-425 | Parses the first message or says how many bytes it would take. |
| `MessageBuffer.Inbox.AcceptRecord` | Croesus/Pods/BoringSSL-GRPC/ssl/s3_both.cc:441-459 | A record is buffered exactly when no complete message waits and the message under way is within the limit, so less than the limit was buffered before it. |
| `MessageBuffer.Inbox.HasUnprocessedData` | Croesus/Pods/BoringSSL-GRPC/ssl/s3_both.cc:461-472 | False exactly when the buffer is empty or is the frame of one message and nothing else, and that message has been handed out. |
| `MessageBuffer.Inbox.NextMessage` | Croesus/Pods/BoringSSL-GRPC/ssl/s3_both.cc:562-583 | Drops exactly the first message. |
| `HandshakeAgreement.ScriptsAgree` | Croesus/Pods/BoringSSL-GRPC/ssl/handshake_client.cc:1707-1789 | What the client machine sends and expects and what the server machine expects and sends is one script, for all negotiated parameters. |
| `HandshakeAgreement.ClientKeepsStep` | Croesus/Pods/BoringSSL-GRPC/ssl/handshake_client.cc:385-1705 | Every client step, with any answer of the callbacks, sends or takes exactly the next lines of the script and never fails on a message that follows it. |
| `HandshakeServing.ServerKeepsStep` | Croesus/Pods/BoringSSL-GRPC/ssl/handshake_server.cc:426-1537 | The same for every server step. |
| `HandshakeRuns.NeverSurprised` | Croesus/Pods/BoringSSL-GRPC/ssl/handshake_server.cc:1539-1621 | In every run of the two machines against each other, with any pattern of blocked and repeated steps, neither meets an unexpected message or a Finished it cannot verify, and no flight exceeds seven entries. |
| `HandshakeRuns.TranscriptsAgree` | Croesus/Pods/BoringSSL-GRPC/ssl/handshake.cc:380-476 | At every moment one transcript is a prefix of the other, every Finished is the MAC of exactly what had been said before it, and each message joined a flight once, in script order. |
| `HandshakeRuns.DoneMeansAgreed` | Croesus/Pods/BoringSSL-GRPC/ssl/handshake.cc:215-222 | When both sides are done their transcripts are equal and the whole script was said. |
| `HandshakeAlone.ClientHeeds` | Croesus/Pods/BoringSSL-GRPC/ssl/handshake_client.cc:871-888 | An answer of a check or callback matters where one is asked for and nowhere else; a refusal fails the handshake on the spot, and a postponed answer changes nothing. |
| `HandshakeAlone.ServerHeeds` | Croesus/Pods/BoringSSL-GRPC/ssl/handshake_server.cc:1042-1056 | The same for the server, whose own certificate cannot be postponed. |
| `HandshakeAlone.ClientIsChecked` | Croesus/Pods/BoringSSL-GRPC/ssl/handshake_client.cc:1707-1789 | Against any peer, whatever it sends: a client that was refused once has failed where it asked and is never done; a client that is done was told to go on by every check its parameters call for, among them the verification of the certificate unless a session is resumed. |
| `HandshakeAlone.ServerIsChecked` | Croesus/Pods/BoringSSL-GRPC/ssl/handshake_server.cc:1539-1621 | The same for a server; if the peer sent a certificate, verifying it and its CertificateVerify are among the checks. |
| `HandshakeConformance.ClientConformsToScript` | Croesus/Pods/BoringSSL-GRPC/ssl/handshake_client.cc:1707-1789 | Against any peer: what a client has heard and said is the beginning of a script of its own parameters, with options only where it allows them, and every Finished it took is the MAC of its own transcript; when it is done, it is a whole script. A message out of place stops it. |
| `HandshakeServerConformance.ServerConformsToScript` | Croesus/Pods/BoringSSL-GRPC/ssl/handshake_server.cc:1539-1621 | The same for a server, for a client with or without a certificate. |
| `HandshakeConformance.PartsAreScript` | Croesus/Pods/BoringSSL-GRPC/ssl/handshake_client.cc:1707-1789 | The numbered parts of that statement make up the script both machines were proved to agree on. |
| `HandshakeHistories.BothAreChecked` | Croesus/Pods/BoringSSL-GRPC/ssl/handshake.cc:491-628 | Over every run of the two machines against each other, all of this holds of both histories. |
| `HandshakeProgress.NoDeadlock` | Croesus/Pods/BoringSSL-GRPC/ssl/handshake.cc:491-628 | While nobody has refused, a connection in which neither side can move and nothing is being flushed is one in which both are done. |
| `HandshakeCompletion.CanBeCompleted` | Croesus/Pods/BoringSSL-GRPC/ssl/handshake.cc:491-628 | From every moment of every run in which nobody has refused, at most 122 more events with agreeing callbacks complete the handshake on both sides; a measure goes down with each. |
| `Handshake.FinishedAcceptedIff` | Croesus/Pods/BoringSSL-GRPC/ssl/handshake.cc:380-476 | A Finished one side sends is accepted by the other if and only if both have hashed the same transcript, and then their transcripts are equal again. |
| `HandshakeMachines.Converse` | Croesus/Pods/BoringSSL-GRPC/ssl/handshake.cc:491-628 | Two handshake objects updated in place, under any schedule of calls, any answers of the callbacks and any partial flushes: neither ever fails on an unexpected message or a Finished, no flight exceeds seven entries, one transcript is a prefix of the other, and when both are done they are equal. An object that was refused has failed where it asked and is never done; one that is done was told to go on by every check its parameters call for. |
| `HandshakeFlights.Converse` | Croesus/Pods/BoringSSL-GRPC/ssl/d1_both.cc:555-594 | The same two objects, each adding to a real flight sender and flushing it under any MTU, AEAD and transport: no message and no ChangeCipherSpec is ever refused for a full flight, and each sender holds, entry by entry, what its side added since its last flush. |
| `HandshakeFlights.AddAll` | Croesus/Pods/BoringSSL-GRPC/ssl/d1_both.cc:539-594 | Messages that can be built and ChangeCipherSpecs all join a sender's flight exactly when it has seven entries at most with them; the entries are these items, in order, behind what was there, and each message takes one number. |
| `HandshakeMachines.ClientLoopIsRun` | Croesus/Pods/BoringSSL-GRPC/ssl/handshake.cc:491-628 | A call of the loop of `ssl_run_handshake` over the client steps, until it has to wait, is a run of single client steps of the connection and leaves the server alone. |
| `HandshakeMachines.TakeTurn` | Croesus/Pods/BoringSSL-GRPC/ssl/handshake.cc:491-628 | Every turn of the two objects, a call or a partial flush, extends the run they are in: all branches of the in-place steps agree with the machines of the theorems. |
| `HandshakeMachines.ServerLoopIsRun` | Croesus/Pods/BoringSSL-GRPC/ssl/handshake.cc:491-628 | The same for the server. |
| `CipherChoice.Choose` | Croesus/Pods/BoringSSL-GRPC/ssl/handshake_server.cc:389-423 | The loop with `group_min` returns the preferred cipher: in the first equal-preference group with a shared cipher, the one earliest in the other list; none exactly when no cipher is shared. |
| `CipherChoice.ChooseCipher` | Croesus/Pods/BoringSSL-GRPC/ssl/handshake_server.cc:357-424 | With server preference this is by the server's groups, otherwise the client's first shared cipher. |
| `CipherChoice.BestChoiceIsUnique` | Croesus/Pods/BoringSSL-GRPC/ssl/internal.h:1860-1889 | The declarative meaning leaves no freedom. |
| `CipherChoice.WithoutGroupsFirstWins` | Croesus/Pods/BoringSSL-GRPC/ssl/internal.h:1876-1878 | Without groups the first shared cipher is preferred, and no other. |
| `RefCount.Linearizable` | Croesus/Pods/BoringSSL-GRPC/crypto/refcount_c11.c:37-65 | For any number of threads, any interleaving and spurious failures: the operations take effect one after the other with the results of the locked form, each within its call, and aborts happen only where the locked form aborts. |
| `RefCount.RealTimeOrder` | Croesus/Pods/BoringSSL-GRPC/crypto/refcount_c11.c:37-65 | A call that ended before another began took effect before it. |
| `RefCount.CallCompletes` | Croesus/Pods/BoringSSL-GRPC/crypto/refcount_c11.c:37-65 | A call that is left alone, wherever it stands, returns after at most four actions, and does to the count exactly what the locked form does; it aborts exactly where that does. |
| `RefCount.CountsReferences` | Croesus/Pods/BoringSSL-GRPC/crypto/refcount_c11.c:37-65 | In every run of threads that begin a call only with a reference in hand and may pass references on: no abort, every operation takes effect at a positive count, and the count is saturated or equals the references held and under way; it is zero exactly when one release, the last operation, has returned 1. |
| `RefCount.LastReleaseFrees` | Croesus/Pods/BoringSSL-GRPC/crypto/refcount_c11.c:48-65 | When all references are given up and all calls have returned, exactly one release has returned 1, or none if the count saturated. |
| `RefCount.SaturationIsForever` | Croesus/Pods/BoringSSL-GRPC/crypto/refcount_lock.c:29-51 | Once saturated, the count never changes and no release returns 1. |
| `RefCount.LockedCount.Increment` | Croesus/Pods/BoringSSL-GRPC/crypto/refcount_lock.c:29-35 | Increments unless saturated. |
| `RefCount.LockedCount.DecrementAndTestZero` | Croesus/Pods/BoringSSL-GRPC/crypto/refcount_lock.c:37-51 | Aborts at zero, otherwise decrements unless saturated and reports reaching zero. |

## Left out

- TLS 1.3, 0-RTT early data, handoff, V2ClientHello, SSL 3.0 special cases, renegotiation and HelloVerifyRequest: not modelled; the handshake machines are those of TLS 1.2 with their oracles, and the client only looks for a HelloVerifyRequest that this server never sends.
- Cryptography, X.509 and key derivation: AEAD opening is a parameter, a Finished message is an ideal MAC over the transcript, certificate and signature checks are answers that may be yes, later or no.
- `tls_seal_record`, `tls_open_record`, `ssl_record_sequence_update`: their bodies are not part of this model; the contracts in `internal.h` are used instead.
- BIO calls, clocks, the error queue, and message and info callbacks: the transport is a sequence of arbitrary answers; the rest has no state here.
- Failing allocations: except for the TLS write buffer, `malloc`, `BUF_MEM` and `new` are taken to succeed; the handshake message memory that the source leaves uninitialized is modelled as zero bytes.
- `DtlsDelivery.HandedOutIsWhatWasAdded`: at most 65536 messages are added per connection direction, because the wire has 16-bit message numbers and a later message would share its number with an earlier one.
- `DtlsDelivery.WholeFlightArrives`: fewer than 65536 messages have been added, so that the receiver's number does not wrap.
- `DtlsLink.Link.Say`: no more than 65536 messages, for the same reason as above.
- DTLS timers (`d1_lib.cc`), `dtls1_write_app_data` and MTU discovery by the transport: not modelled; the MTU is whatever the update finds.
- The handshake machines run over an ordered channel; joining them with the DTLS transport, where a ChangeCipherSpec is a flag rather than a place in the order, is not modelled.
- `HandshakeRuns.NeverSurprised`: the parameters both sides have negotiated are taken to agree, as the hellos establish them; parsing of message bodies is an oracle.
- nanopb malloc mode, pointer and callback fields, extensions, fixed-count arrays, custom stream callbacks and the build without 64-bit integers: not modelled; sizes are those of the 32-bit field configuration.
- Pointer arithmetic on the destination struct: a field names the cell its offsets lead to, members of a union sharing one; the destination is passed on as a value and returned, so its contents after a failed decode are not described.
- `PbMessage.DefaultsUpTo`: contents hidden behind a zero count or an unset union are not represented.
- `PbWire.Varint32ExactIff`, like `PbWire.Varint32IsLowHalf`: at most ten bytes, because the reader's shift count is an 8-bit integer that wraps on longer varints; the wrap itself is in the model.
- `size_t` overflow in `bytes_written + count` and in buffer sizes: lengths are unbounded integers, as no buffer can be that large.
- `pb_encode_nullterminated`, `pb_encode_delimited` and `pb_decode_delimited`: one more call each around modelled ones.
- `WritePipeline.Writer.WriteAppData`: a negative length argument and early-data writes are not modelled; the first is refused like a short retry.
- `HandshakeFlights.Converse`: how many messages of a flight reach the other machine is chosen by the schedule, and what the sender's flush writes by its own conditions; the two are not tied together.
- `ssl_parse_client_cipher_list` and the compatibility masks: the set of usable ciphers is a parameter of the cipher choice.
- Lock-freedom of the reference count and memory-order effects: the atomics are sequentially consistent steps.
- The Swift application, the other pods, CPU feature detection, thread-local storage and the read buffer of `ssl_buffer.cc`: no property of comparable depth lives there.
