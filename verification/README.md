# Verified model of the Geberit mock devices

This project models, in Dafny 4.11, the two wire-protocol stacks of the mock Geberit devices and the
stateful layers on top of them, and proves properties of the model over all inputs and all runs.

**Alba.** `Cobs`, `Crc` and `Hdlc` are the outer frame: byte stuffing, check, control bytes and a
streaming parser that resynchronises after any garbage. `AesCtr` and `SecureChannel` add the inner
frame and the stateful stream cipher. `ArendiSession` is the device's side of the link as a state
machine whose steps are the regions between two awaits of the handshake loop, the frame loop, the byte
feed, the disconnect notice and the notification pusher; timeouts, received bytes, key material and
the application's answers are in the step's label, so a theorem about all label sequences is a theorem
about all interleavings. `ArendiTheorems`, `ArendiQueue`, `ArendiAcks` and `ArendiStream` say what every
run keeps; `ArendiHandshake`, `ArendiEnds` and `ArendiReceipts` what a run comes to: a handshake that is
offered completes, a request is answered, and a run, a phase or a wait ends for the stated reasons and no
others. `ArendiServer` is the object that takes these steps in place. `Ble20`, `Ble20Answers`,
`Ble20Defaults` and `Ble20Sessions` are the data point store, what a client finds in its answers, its
tunnel frames and its persistence from session to session; `ArendiApplication` puts it behind the link,
from the client's requests to the answers it reads. `OfflineTools` and `PassiveDecryption` are the tools that read captured traffic,
`PassiveSession` the latter on whole sessions of the modelled device.

**Mera.** `CrcMessages`, `MeraFrames`, `Reassembly` and `MeraTransport` cut a response into frames and
put it together again; `MeraRequests` is the request side with its acknowledgement bitmap and its
flow-control retransmission, `MeraFlow` the closed loop of that retransmission and the collector over a
lossy channel. `MeraStore` holds settings, firmware versions and identity, `FirmwareUpdate` the simulated
update with its tasks.

**Shared.** `Persistence` is the state file of all devices, `PollLoop` the bridge's background poll with
its circuit breaker, `Bytes` the bytes and bits.

An object of the source is a class whose methods are proved against functions on its abstract value;
the laws are lemmas about those functions. The CRC follows the byte-wise form of the division of
clause 2 of ITU-T V.41 with the source's own initial values, the stuffing is that of section III of
Cheshire and Baker, "Consistent Overhead Byte Stuffing", the control bytes are those of clause 5.3 of
ISO/IEC 13239, and the counter mode is that of section 6.5 of NIST SP 800-38A with a 32-bit counter.
The block cipher itself is an arbitrary function from blocks to blocks.

Where the code and what is said about it differ, the code is followed:

* The overhead of the stuffing is not bounded by ceil(n/254): a zero-free input whose length is a
  multiple of 254 gets one byte more, because the encoder opens an empty group after a full last one
  (`Cobs.Overhead`).
* The frame collector keeps frames that arrive after their message is complete, for the next one. They do
  no harm if the next message has their indices and receives its own frames of these indices before it
  is complete; otherwise it is delivered with foreign data, or, when one of the indices lies beyond it,
  lost with an error (`Reassembly.IntactAfterTraffic`, `Reassembly.IntactWithoutRepeats`). A repeated
  first frame forgets the others, and only what comes after the last one counts
  (`Reassembly.LastFirstDecides`).
* The flow control brings this about by itself: without any loss, the early report after four frames makes
  the device resend the rest of a response of five to eight frames, and these stay behind in the
  collector (`MeraFlow.LosslessLeaves`, `MeraFlow.NextResponse`). Its three rounds of retransmission are
  never used up: the collector reports before the end of such a response at most once, so the exchange
  stands still when the first frame is lost, when fewer than four come through, when that report is lost,
  or when a frame is lost twice; a response of up to four frames is never retransmitted (`MeraFlow.ExchangeOutcome`).
* The capture splitter is not the streaming parser: behind bytes with an odd number of zeros it loses every
  frame, behind an even number none (`OfflineTools.SplitterByParity`).
* The check of a Mera message stands before its body, so it does not detect every burst of 16 bits across
  their border, as it does within the body (`CrcMessages.BorderUnseen`, `CrcMessages.BurstSeen`).
* A response of more than 251 bytes is fragmented, but its reader raises (`MeraFrames.ResponseRoundTrip`).
* The probe announces up to twelve parameters but only eight fit (`MeraRequests.ProbeRoundTrip`).
* A write over the air changes protected rows too, serial number and PIN among them, but only in memory:
  the next session shows the saved ones again (`Ble20Sessions.RestartAgrees`).
* A factory reset leaves the active profile settings as they are (`MeraStore.StoredAndActiveApart`).
* A publishing error after the success point of a poll counts as the first failure of a new outage; it
  does not keep the circuit open (`PollLoop.PublishErrorCountsOnce`).

`dafny verify dfyconfig.toml` checks the whole project.

## Model

| member | source | states |
|---|---|---|
| Cobs.CobsEncode | aquaclean_console_app/bluetooth_le/LE/AriendiSecurity.py:79-100 | the encoder loop, with its patched placeholder bytes, writes the group-wise encoding that the round trip and the overhead bound are about |
| Cobs.CobsDecode | aquaclean_console_app/bluetooth_le/LE/AriendiSecurity.py:103-119 | the strict decoder loop computes `Decode`; None is the ValueError of a zero code or a truncated group |
| Cobs.CobsDecodeLenient | tools/android-ble-arendi-decode.py:28-41 | the capture tool's decoder loop computes `DecodeLenient`, which never fails |
| Cobs.RoundTrip | aquaclean_console_app/bluetooth_le/LE/AriendiSecurity.py:79-119 | decoding inverts encoding on every byte string, runs of 254 and more non-zero bytes included, and the encoding is non-empty and holds no zero |
| Cobs.EncodeAtZero | aquaclean_console_app/bluetooth_le/LE/AriendiSecurity.py:79-100 | where a zero stands in the data the encodings of the two parts simply meet |
| Cobs.EncodeWithoutZero | aquaclean_console_app/bluetooth_le/LE/AriendiSecurity.py:79-100 | zero-free data of at most 253 bytes get one code byte, their length plus one; of longer data each 254 bytes get 0xFF |
| Cobs.Overhead | aquaclean_console_app/bluetooth_le/LE/AriendiSecurity.py:79-100 | between 1 and 1 + n/254 bytes are added; the bound ceil(n/254) is exceeded exactly for zero-free inputs whose length is a multiple of 254, because a full last group is followed by an empty one |
| Cobs.LenientAgrees | tools/android-ble-arendi-decode.py:28-41 | wherever the strict decoder succeeds the capture tool's decoder returns the same bytes |
| Cobs.LenientBrokenOff | tools/android-ble-arendi-decode.py:28-41 | from an encoding that breaks off anywhere the capture tool's decoder gives the beginning of the data, of exactly known length but for groups of 254 |
| Cobs.ZeroCodeIsOne | tools/android-ble-arendi-decode.py:28-41 | a zero code is read as an empty group, like a one |
| Crc.ComputeGeberitCrc | esphome/gatt-probe.py:67-75 | the byte-wise CRC loop computes `GeberitCrc` |
| Crc.GeberitByteIsDivision | esphome/gatt-probe.py:71-74 | one byte-wise update is eight steps of bit-serial division by x^16+x^12+x^5+1, most significant bit first |
| Crc.GeberitIsDivision | esphome/gatt-probe.py:67-75 | the byte-wise loop from any register is the bit-serial division of the message by x^16+x^12+x^5+1 |
| Crc.GeberitCrcIsDivision | esphome/gatt-probe.py:67-75 | the CRC of a message is the bit-serial remainder started from 0x1234 |
| Crc.GeberitByteInjective | esphome/gatt-probe.py:71-74 | for each byte the update is injective on the 16-bit state, hence a bijection |
| Crc.BurstDetected | esphome/gatt-probe.py:67-75 | bit strings of any equal length that differ only inside one window of at most 16 bits never leave the same remainder |
| Crc.OddErrorsDetected | esphome/gatt-probe.py:67-75 | bit strings of equal length an odd number of flips apart never leave the same remainder |
| Crc.GeberitDetectsAdjacentBytes | esphome/gatt-probe.py:67-75 | messages of any length that differ in one byte or in two adjacent bytes never have the same CRC |
| Crc.GeberitDetectsOddErrors | esphome/gatt-probe.py:67-75 | messages an odd number of flipped bits apart never have the same CRC |
| Crc.ComputeKermit | aquaclean_console_app/bluetooth_le/LE/AriendiSecurity.py:66-76 | the reflected bit-wise CRC loop computes `Kermit` |
| Crc.KermitByteIsDivision | aquaclean_console_app/bluetooth_le/LE/AriendiSecurity.py:70-75 | eight reflected shift steps are the mirror image of eight division steps on the byte's bits, low bit first |
| Crc.KermitIsDivision | aquaclean_console_app/bluetooth_le/LE/AriendiSecurity.py:66-76 | the reflected CRC is the mirror image of the bit-serial remainder of the low-bit-first message |
| Crc.KermitDetectsAdjacentBytes | aquaclean_console_app/bluetooth_le/LE/AriendiSecurity.py:66-76 | no one-byte or two-adjacent-byte alteration keeps the two check bytes |
| Crc.KermitDetectsOddErrors | aquaclean_console_app/bluetooth_le/LE/AriendiSecurity.py:66-76 | no odd number of flipped bits keeps the two check bytes |
| Hdlc.TypesAsSent | aquaclean_ble_relay/alba_mock.py:817-818 | the control bytes of SABM, UA and DISC are 0x2F, 0x63 and 0x43 |
| Hdlc.NumbersAsSent | aquaclean_ble_relay/alba_mock.py:797-799 | N(S) is read from bits 1 to 3 of a control byte and N(R) from bits 5 to 7, bit by bit |
| Hdlc.BuiltClear | aquaclean_ble_relay/alba_mock.py:820-821 | the other two bits of a built I-frame control byte are clear |
| Hdlc.NumbersReadBack | aquaclean_ble_relay/alba_mock.py:820-821 | N(S) and N(R) written into an I-frame control byte read back modulo 8, and the byte routes as an I-frame |
| Hdlc.DecodeBuilt | aquaclean_ble_relay/alba_mock.py:823-826 | the bytes between the delimiters of a built frame decode, pass their check and route to exactly the frame built |
| Hdlc.AcceptedIffDivides | aquaclean_ble_relay/alba_mock.py:790-794 | what the receiver accepts as a body with its check is exactly what leaves no remainder when body and check are divided together |
| Hdlc.BurstDropped | aquaclean_ble_relay/alba_mock.py:790-794 | a frame with any burst of at most 16 wrong bits, in its body, in its check or across both, is dropped |
| Hdlc.TamperedBytesDropped | aquaclean_ble_relay/alba_mock.py:790-794 | a frame with one byte or two adjacent ones altered, wherever they stand in body and check, is dropped |
| Hdlc.TamperedBitsDropped | aquaclean_ble_relay/alba_mock.py:790-794 | a frame with an odd number of flipped bits, wherever they are in body and check, is dropped |
| Hdlc.SplitConcat | aquaclean_ble_relay/alba_mock.py:767-784 | splitting at zeros distributes over concatenation: the last piece of one part meets the first of the next |
| Hdlc.Resume | aquaclean_ble_relay/alba_mock.py:763-784 | processing a stream in two parts, carrying only the leftover, gives the events and the leftover of the whole stream |
| Hdlc.LeftoverShape | aquaclean_ble_relay/alba_mock.py:767-784 | the leftover buffer is empty or one zero followed by zero-free bytes |
| Hdlc.Resynchronises | aquaclean_ble_relay/alba_mock.py:767-826 | after any garbage whatsoever one built frame is delivered, and it is the last event delivered |
| Hdlc.GarbageAddsAtMostOne | aquaclean_ble_relay/alba_mock.py:767-826 | what the garbage delivers is kept, and closing it with a frame's first delimiter adds at most one event of its own |
| Hdlc.ResynchronisesStream | aquaclean_ble_relay/alba_mock.py:767-826 | after any garbage every frame of a following stream is delivered, in order |
| Hdlc.WireDelivers | aquaclean_ble_relay/alba_mock.py:767-826 | a stream of built frames delivers exactly those frames and leaves one delimiter |
| Hdlc.AfterZeroDelivers | aquaclean_ble_relay/alba_mock.py:767-826 | a receiver standing at a delimiter delivers the same frames as a fresh one |
| Bytes.XorIsXor | aquaclean_console_app/bluetooth_le/LE/AriendiSecurity.py:169-176 | the model's exclusive or of two bytes is the machine's, for all bytes |
| AesCtr.ApplyAt | aquaclean_console_app/bluetooth_le/LE/AriendiSecurity.py:153-176 | byte i is the data byte exclusive-or byte (at + i) mod 16 of the encrypted counter block, whose last four bytes are the nonce's number plus (at + i) / 16, big-endian, modulo 2^32 |
| AesCtr.ApplyTwice | aquaclean_console_app/bluetooth_le/LE/AriendiSecurity.py:169-176 | the same stretch of keystream applied twice gives the data back |
| AesCtr.ApplyConcat | aquaclean_console_app/bluetooth_le/LE/AriendiSecurity.py:169-176 | cutting the data into consecutive pieces does not change the result, so only the offset matters |
| AesCtr.AesCtrState.constructor | aquaclean_console_app/bluetooth_le/LE/AriendiSecurity.py:153-161 | a fresh cipher stands at offset 0 of the keystream of its key and nonce |
| AesCtr.AesCtrState.NextBlock | aquaclean_console_app/bluetooth_le/LE/AriendiSecurity.py:163-167 | moving to the next block keeps the stream offset; the 32-bit counter wraps around |
| AesCtr.AesCtrState.NextByte | aquaclean_console_app/bluetooth_le/LE/AriendiSecurity.py:171-175 | the byte used is the one at the current offset of the keystream, and the offset goes up by one |
| AesCtr.AesCtrState.Process | aquaclean_console_app/bluetooth_le/LE/AriendiSecurity.py:169-176 | the result is the data XORed with the keystream from the old offset on, and the offset advances by the length |
| SecureChannel.InnerRoundTrip | aquaclean_ble_relay/alba_mock.py:153-156 | the inner decoder inverts the inner encoder on every payload, the empty one included |
| SecureChannel.InnerIsChecked | aquaclean_console_app/bluetooth_le/LE/AriendiSecurity.py:122-139 | whatever bytes are framed and whatever follows them, the inner decoder gives them without their check, or nothing if it does not match |
| SecureChannel.InnerBurstRefused | aquaclean_console_app/bluetooth_le/LE/AriendiSecurity.py:122-139 | an inner frame with any burst of at most 16 wrong bits in payload and check is refused |
| SecureChannel.ChunkingIsIrrelevant | aquaclean_ble_relay/alba_mock.py:763-784 | however a stream is cut into chunks, the receiver delivers the events of the whole stream |
| SecureChannel.OpenSealed | aquaclean_ble_relay/alba_mock.py:1083-1101 | opening a run of sealed frames with the mirrored cipher returns the payloads and leaves both ciphers at the same offset |
| SecureChannel.FullStackRoundTrip | aquaclean_ble_relay/alba_mock.py:1083-1101 | inner-framing, encrypting, numbering and outer-framing any payloads, cutting the bytes anywhere, parsing, decrypting and inner-decoding returns exactly the payload sequence |
| SecureChannel.SealNumbers | aquaclean_ble_relay/alba_mock.py:831-834 | the i-th sealed frame carries N(S) one up from the previous one modulo 8, and the N(R) that was current |
| ArendiTheorems.StepKeeps | aquaclean_ble_relay/alba_mock.py:907-1168 | every await-free step of the handshake loop, the byte feed, the disconnect notice and the pusher keeps the session invariant |
| ArendiTheorems.RunKeeps | aquaclean_ble_relay/alba_mock.py:907-1168 | so does every interleaved run |
| ArendiTheorems.SendNumbersCount | aquaclean_ble_relay/alba_mock.py:831-834 | in every run the j-th I-frame built since a SABM was acted upon carries N(S) = j modulo 8 |
| ArendiTheorems.PhaseShape | aquaclean_ble_relay/alba_mock.py:925-1101 | in every run a phase is a UA, VERSION_RESP, EP_RESP, KE_RESP and only then encrypted frames, each with that phase's cipher and starting exactly where the previous one stopped in the keystream |
| ArendiTheorems.DiscAtMostOnce | aquaclean_ble_relay/alba_mock.py:1115-1130 | in every run DISC is built at most once, in phase 2, after a served EventStorageInventory and a later ReadCmd |
| ArendiTheorems.ClientReceivesSent | aquaclean_ble_relay/alba_mock.py:1095-1103 | whatever answers and pushed notifications were interleaved and however the bytes are cut, the client decrypts exactly the payloads sent in that phase, in build order |
| ArendiQueue.StepQueue | aquaclean_ble_relay/alba_mock.py:763-810 | a step puts its frames at the end of the queue and takes one from the front exactly when the handshake or frame loop waits for one |
| ArendiQueue.FeedTwice | aquaclean_ble_relay/alba_mock.py:763-810 | two writes leave buffer, queues and acknowledgement number exactly as one write of both does |
| ArendiQueue.QueueInOrder | aquaclean_ble_relay/alba_mock.py:763-810 | after any run what was taken from the queue, followed by what still waits in it, is what was put in: nothing is lost, duplicated or reordered |
| ArendiQueue.RunHears | aquaclean_ble_relay/alba_mock.py:763-810 | over any run the buffer is the leftover of everything heard, and the frames that entered the queue are those of the whole byte stream, once each and in order |
| ArendiStream.StepTaken | aquaclean_ble_relay/alba_mock.py:906-1168 | every step adds to the frames taken in the running phase exactly the frame it takes from the queue, never a SABM, and a phase gets its keys with a KE_REQ taken |
| ArendiStream.DeviceReceivesStream | aquaclean_ble_relay/alba_mock.py:763-1091 | from the bytes to the application: however a client stream is cut and however far it has been fed, in every run what the running phase has received and what the pending frames still open to are together exactly what a mirrored receiver makes of the client's encrypted frames |
| ArendiStream.DeviceReceivesSealed | aquaclean_ble_relay/alba_mock.py:763-1091 | a client that seals with the phase's key, after any plaintext handshake that starts with a SABM, is read back exactly and in order once its frames have been taken, whatever it sent before |
| ArendiApplication.DeviceStepKeeps | aquaclean_ble_relay/alba_mock.py:906-1168 | with the application behind the link, every step keeps requests and answers in balance: what was sent, less the pushes, and what is still to be sent are the answers to what was received |
| ArendiApplication.AnswersInOrder | aquaclean_ble_relay/alba_mock.py:1095-1113 | in every run what the running phase has sent, less the pushes, is the beginning of the application's answers to what it has received, in order, and until the run ends only the rest of the current request's is missing |
| ArendiApplication.EndToEnd | aquaclean_ble_relay/alba_mock.py:763-1168 | end to end: once the device has taken all requests a client sealed and waits for more, what the client opens, less the pushes, is exactly what the application answers to the requests, in order, however either side's bytes are cut |
| ArendiAcks.StepAcks | aquaclean_ble_relay/alba_mock.py:820-834 | whatever a step does, the I-frames it builds carry the acknowledgement number current before it, and a step that starts a phase builds only the UA |
| ArendiAcks.AckIsLastHeard | aquaclean_ble_relay/alba_mock.py:797-803 | after any run the acknowledgement number is decided by the events heard since the latest restart |
| ArendiAcks.LastAckMeans | aquaclean_ble_relay/alba_mock.py:797-803 | that number is the N(S) of the last I-frame among them plus one, modulo 8 |
| ArendiAcks.BuiltFramesAcknowledge | aquaclean_ble_relay/alba_mock.py:820-834 | in every run each I-frame built acknowledges the last I-frame heard since the restart of its phase, or zero if there was none |
| ArendiAcks.FallbackAwaitsItsAck | aquaclean_ble_relay/alba_mock.py:1133-1150 | without an application the fixed answer is encrypted and sent, and the wait is for the acknowledgement of exactly its number |
| ArendiHandshake.HandshakeProgress | aquaclean_ble_relay/alba_mock.py:907-989 | whatever bytes come and however they are cut, the frames taken so far decide the place of the handshake and the answers built: frames that are not waited for are passed over |
| ArendiHandshake.HandshakeCompletes | aquaclean_ble_relay/alba_mock.py:907-989 | the bytes of SABM, VERSION_REQ, EP_REQ and KE_REQ, with any numbers, any other frames between them and any cuts: once taken, the keys are those of the exchange and the phase holds exactly UA, VERSION_RESP, EP_RESP and KE_RESP numbered 0, 1, 2, and what was pushed since, if the KE_REQ has at least 49 bytes and its check is accepted; if not the run ends without keys or KE_RESP |
| ArendiHandshake.HandshakeFinishes | aquaclean_ble_relay/alba_mock.py:907-989 | from wherever the run stands when the last byte has arrived, as many takes as frames wait and one completed send bring it to the frame loop with the handshake done |
| ArendiHandshake.HandshakeRestarts | aquaclean_ble_relay/alba_mock.py:1076-1079 | a SABM in the frame loop of any phase starts the same handshake over, its answers numbered from zero |
| ArendiEnds.RequestServed | aquaclean_ble_relay/alba_mock.py:1087-1109 | a request at the head of the queue is taken, every answer of the application is sent, in order, and the frame loop waits again |
| ArendiEnds.PushArrives | aquaclean_ble_relay/alba_mock.py:2066-2084 | a push after the handshake is what the client opens last |
| ArendiEnds.DiscIff | aquaclean_ble_relay/alba_mock.py:1118-1133 | while the second phase runs the DISC has been built exactly if a storage inventory and, after it, a read have been answered in it |
| ArendiEnds.RunEnds | aquaclean_ble_relay/alba_mock.py:892-1168 | in every run: `run` has returned exactly if a wait timed out, the peer was gone, a KE_REQ was refused or the application raised; the caller is asked to disconnect exactly if the frame loop timed out in the second phase or later; the peer counts as gone exactly if the frame loop took the notice |
| ArendiReceipts.AckEndsWait | aquaclean_ble_relay/alba_mock.py:864-886 | the wait for an acknowledgement ends exactly if one of the S-frames that came carries the awaited number; any other is dropped |
| ArendiReceipts.TimeoutEndsWait | aquaclean_ble_relay/alba_mock.py:1147-1152 | if no acknowledgement of the awaited number comes the timeout ends the wait and the frame loop goes on |
| ArendiReceipts.StaleDropped | aquaclean_ble_relay/alba_mock.py:1110-1117 | once a request is done or a handshake restarts no acknowledgement from before can end a wait |
| ArendiServer.AriendiServerSide.constructor | aquaclean_ble_relay/alba_mock.py:742-757 | a new object is the start state of the state machine |
| ArendiServer.AriendiServerSide.Feed | aquaclean_ble_relay/alba_mock.py:763-765 | a write takes the feed step: its frames are queued and only the leftover is kept |
| ArendiServer.AriendiServerSide.ProcessRxBuf | aquaclean_ble_relay/alba_mock.py:767-810 | the cutting loop, which ends because the buffer shrinks, queues the events of the declarative parser, leaves its leftover and updates the acknowledgement number |
| ArendiServer.AriendiServerSide.Deliver | aquaclean_ble_relay/alba_mock.py:797-810 | an I-frame updates the acknowledgement number and is queued, a U-frame is queued, an S-frame goes to the acknowledgement queue |
| ArendiServer.AriendiServerSide.AttI | aquaclean_ble_relay/alba_mock.py:831-834 | the frame carries the current N(R) and the old N(S), which then goes up by one modulo 8 |
| ArendiServer.AriendiServerSide.SendPlain | aquaclean_ble_relay/alba_mock.py:935-985 | a plaintext answer takes the recording step and puts exactly that entry's bytes on the air |
| ArendiServer.AriendiServerSide.SendEncrypted | aquaclean_ble_relay/alba_mock.py:1088-1101 | inner-framing, encrypting and numbering are one step; the bytes are those of the recorded entry, and the cipher advances by the inner frame's length |
| ArendiServer.AriendiServerSide.TakeItem | aquaclean_ble_relay/alba_mock.py:840-1150 | taking a queued item takes exactly the step of the place where `run` waits, keeps the invariant, and hands out the bytes the trace gained |
| ArendiServer.AriendiServerSide.TakeKe | aquaclean_ble_relay/alba_mock.py:951-985 | a KE_REQ that is too short or fails its check ends the run; otherwise fresh ciphers at offset 0 are installed before KE_RESP is numbered |
| ArendiServer.AriendiServerSide.Serve | aquaclean_ble_relay/alba_mock.py:1072-1105 | a queued SABM restarts the handshake with both counters at zero and stale acknowledgements dropped; encrypted frames move the receiving cipher; others do not |
| ArendiServer.AriendiServerSide.Reply | aquaclean_ble_relay/alba_mock.py:1096-1130 | answers are built one per region; after the last one acknowledgements are drained and the end of phase 2 is decided |
| ArendiServer.AriendiServerSide.SendDone | aquaclean_ble_relay/alba_mock.py:985-1130 | a completed send moves `run` on: the handshake is done only after KE_RESP went out, DISC counts as sent only after it went out |
| ArendiServer.AriendiServerSide.TakeAck | aquaclean_ble_relay/alba_mock.py:864-886 | an acknowledgement with another number is dropped, the expected one ends the wait |
| ArendiServer.AriendiServerSide.TimeOut | aquaclean_ble_relay/alba_mock.py:1051-1069 | a timeout ends the run, with the disconnect request only from phase 2 on, or ends only the wait for an acknowledgement |
| ArendiServer.AriendiServerSide.PushOne | aquaclean_ble_relay/alba_mock.py:2066-2084 | a push builds one encrypted frame if the handshake is done and nothing otherwise |
| OfflineTools.ParseFrames | tools/android-ble-arendi-decode.py:48-64 | the splitter's index loop returns `Offline` |
| OfflineTools.SplitterByParity | tools/android-ble-arendi-decode.py:48-64 | behind any bytes at all the splitter finds every frame of a stream exactly when those bytes hold an even number of zeros; behind an odd number it finds none of them, while the streaming parser delivers all of them either way |
| OfflineTools.SplitterAgrees | tools/android-ble-arendi-decode.py:48-64 | on any concatenation of built frames, checking and routing what the splitter returns gives exactly the streaming parser's events, in order |
| OfflineTools.StrayZeroLosesAll | tools/android-ble-arendi-decode.py:48-64 | the smallest such case: one stray zero in front of any stream of frames makes the splitter return nothing at all, while the streaming parser delivers every frame |
| OfflineTools.ClassifyReadsNumbers | tools/android-ble-arendi-decode.py:73-91 | for every payload the classifier reads back the N(S) and N(R) that were written |
| OfflineTools.ClassifyMatchesRoute | tools/android-ble-arendi-decode.py:73-100 | the classifier and the receiver's routing name the same kind of frame; the fall-through is never reached |
| OfflineTools.ClassifySizes | tools/android-ble-arendi-decode.py:82-85 | the printed Ble20 size is the payload's size plus one per closed full stuffing group, hence exact below 252 bytes |
| PassiveDecryption.DecodeInner | tools/arendi-decrypt-session.py:99-117 | the loop over the delimited parts of a plaintext finds what `FindInner` says |
| PassiveDecryption.FindsAll | tools/arendi-decrypt-session.py:99-117 | all inner frames of a plaintext are found in order with a good check; exactly the empty payloads are passed over |
| PassiveDecryption.DamageIsFlagged | tools/arendi-decrypt-session.py:99-118 | whatever bytes stand in an inner frame are reported in their place, as sound exactly if bytes and check leave no remainder |
| PassiveDecryption.ObserveSees | tools/arendi-decrypt-session.py:147-206 | an observer of any interleaving of rows, cut anywhere, is one that sees the two directions' frames in the order in which they are completed |
| PassiveDecryption.EachDirectionAlone | tools/arendi-decrypt-session.py:147-206 | whatever frames are interleaved, EP_RESPs included, what is reported of a direction depends only on its own frames and on the EP_RESPs, whichever side sent them |
| PassiveDecryption.LatestEpRespDecides | tools/arendi-decrypt-session.py:172-183 | after an EP_RESP with a known nonce, whatever was seen before it, each direction is decrypted from offset 0 with that session's key up to the next EP_RESP |
| PassiveDecryption.BothSidesRecovered | tools/arendi-decrypt-session.py:147-206 | from matched keys on, both plaintext sequences are recovered from any interleaving of streams that carry encrypted frames among any others, with any numbers, every payload with a good inner check |
| PassiveDecryption.SealedRecovered | tools/arendi-decrypt-session.py:147-206 | in particular two runs of sealed frames, each numbered from anywhere with any acknowledgements |
| PassiveSession.LogReported | tools/arendi-decrypt-session.py:169-204 | the frames of every well-formed phase of the modelled device, handshake included, give the observer exactly the payloads the device sent |
| PassiveSession.WholeSessionRecovered | tools/arendi-decrypt-session.py:147-206 | an observer in any state at a frame boundary reads any interleaving, cut anywhere, of a whole phase of the device and of a client stream of encrypted frames among any others, recovers what the device sent and what the client sealed, and stands at a frame boundary again |
| PassiveSession.EverySessionRecovered | tools/arendi-decrypt-session.py:147-206 | so it does for every phase of every run of the modelled device, starting fresh |
| PassiveSession.EveryLinkRecovered | tools/arendi-decrypt-session.py:147-206 | and for all phases of every run, one after the other on one link: from everything the device built and everything the client sent, in any interleaving and cut anywhere, it recovers what either side said in every session, in order |
| PassiveDecryption.OneFrame | tools/arendi-decrypt-session.py:169-204 | one frame replaces, drops or advances the cipher objects exactly as the observer model says |
| PassiveDecryption.ProcessRows | tools/arendi-decrypt-session.py:147-206 | the loop over rows and frames with two parsers and two stateful ciphers reports what the observer model reports |
| CrcMessages.MessageLayout | aquaclean_console_app/aquaclean_core/Message/CrcMessage.py:38-72 | byte by byte: number, segments, length and check high byte first, body, and zeros up to 256 bytes |
| CrcMessages.ReadBack | aquaclean_console_app/aquaclean_core/Message/CrcMessage.py:24-36 | a serialized message of up to 256 body bytes reads back from any buffer that holds its content, and its check holds |
| CrcMessages.ResponseReadBack | aquaclean_console_app/aquaclean_core/Message/MessageService.py:12-55 | a response of up to 251 result bytes parses to its context, procedure and result with a valid check |
| CrcMessages.LongResponseFails | aquaclean_console_app/aquaclean_core/Message/CrcMessage.py:69-74 | a response of more than 251 result bytes makes the reader run off its 256-byte body, always |
| CrcMessages.ResponseCases | aquaclean_console_app/aquaclean_core/Message/CrcMessage.py:69-74 | of any bytes: which the reader ignores, which it raises on and which it reads |
| CrcMessages.RequestReadBack | aquaclean_ble_relay/mera_mock.py:407-432 | a request body parses back to context, procedure and arguments at the offsets of the reassembled data |
| CrcMessages.BurstSeen | aquaclean_console_app/aquaclean_core/Message/CrcMessage.py:69-74 | any burst of at most 16 wrong bits in a body of up to 256 bytes makes the message invalid |
| CrcMessages.TamperingSeen | aquaclean_console_app/aquaclean_core/Message/CrcMessage.py:69-74 | so do one altered byte or two adjacent ones |
| CrcMessages.OddTamperingSeen | aquaclean_console_app/aquaclean_core/Message/CrcMessage.py:69-74 | an odd number of flipped bits, in the check, the body or both, makes it invalid |
| CrcMessages.BorderUnseen | aquaclean_console_app/aquaclean_core/Message/CrcMessage.py:69-74 | the check stands before the body, so not every burst across their border is seen: every one-byte body has an alteration, together with the second byte of the check, that stays valid |
| MeraFrames.CountFits | aquaclean_ble_relay/mera_mock.py:475-500 | the frame count fits its byte exactly up to 4590 content bytes, at most 4 frames are legacy, and the frames hold the content without a superfluous one |
| MeraFrames.BuildFrames | aquaclean_ble_relay/mera_mock.py:435-510 | the two frame-building loops return exactly the frames of the format the content length selects; ValueError exactly beyond 4579 result bytes |
| MeraFrames.HeadersReadBack | aquaclean_console_app/aquaclean_core/Frames/FrameFactory.py:58-95 | every built frame has 20 bytes, and its own header gives the receiver the frame count (frame 0) or the frame index (others) and the payload, in both formats |
| MeraFrames.HeaderBits | aquaclean_ble_relay/mera_mock.py:479-511 | every bit of a frame's first byte in both formats: kind, first-frame and early flag, count, index or channel |
| MeraFrames.PayloadBytes | aquaclean_ble_relay/mera_mock.py:479-511 | byte by byte, what follows the header is the message at the frame's place and zeros after its end |
| MeraFrames.ChannelNamesCharacteristic | aquaclean_ble_relay/mera_mock.py:497-508 | the channel bits of every extended continuation frame name the characteristic `_push_method` sends it on |
| MeraFrames.ChunksConcat | aquaclean_ble_relay/mera_mock.py:485-502 | the payloads in index order are the serialized message, zero-padded |
| MeraFrames.ResponseRoundTrip | aquaclean_ble_relay/mera_mock.py:435-510 | fragmentation and reassembly in index order return the whole message, header and body, and its context, procedure and result, exactly up to 251 result bytes and across the 76-byte switch; beyond, the reader raises |
| MeraTransport.ResponseDelivered | aquaclean_console_app/aquaclean_core/Frames/FrameService.py:63-104 | for every response of up to 251 bytes and every arrival order with every frame but the first repeated at will, the client gets one message and reads exactly what the device answered |
| Reassembly.AnyOrderCompletesOnce | aquaclean_console_app/aquaclean_core/Frames/FrameCollector.py:27-106 | from a clean collector any arrival order, with duplicates of every frame but the first, completes the message once with the right data; the collector is clean again exactly if the last arrival was the first with its index |
| Reassembly.SeveralMessages | aquaclean_console_app/aquaclean_core/Frames/FrameCollector.py:27-106 | messages one after the other, each in any order and with duplicates as long as none comes after its message is complete, are each delivered once and in order |
| Reassembly.AddRuns | aquaclean_console_app/aquaclean_core/Frames/FrameCollector.py:59-88 | one frame added to a running transaction completes it exactly when all indices have been seen, with the held payloads in order, and reports exactly the set received at every fourth frame |
| Reassembly.FirstStarts | aquaclean_console_app/aquaclean_core/Frames/FrameCollector.py:27-43 | a first frame starts the transaction with everything buffered, whichever message it came from, and completes it if nothing is missing |
| Reassembly.LateFramesQuiet | aquaclean_console_app/aquaclean_core/Frames/FrameCollector.py:60-63 | after completion late duplicates produce no message |
| Reassembly.DeliveredIntactIff | aquaclean_console_app/aquaclean_core/Frames/FrameCollector.py:27-106 | with frames of earlier messages buffered, none with a longer payload than the next message's own or none with a shorter one, that message, in any order and with duplicates, is delivered intact exactly if it has every buffered index and each buffered payload still in use at completion is equal to its own; with a buffered index beyond it it is lost and an error raised |
| Reassembly.IntactAfterTraffic | aquaclean_console_app/aquaclean_core/Frames/FrameCollector.py:27-106 | the same for whatever any earlier traffic in either wire format, of 18 or 19 payload bytes a frame, has left in the buffer of a collector that started empty |
| Reassembly.IntactWithoutRepeats | aquaclean_console_app/aquaclean_core/Frames/FrameCollector.py:27-106 | without repeats and with different payloads, none longer or none shorter than the new message's own: intact exactly if all buffered indices are continuation indices of the new message and the last frame to arrive is not among them, and the collector is clean again then |
| Reassembly.StaleDuplicateCorrupts | aquaclean_console_app/aquaclean_core/Frames/FrameCollector.py:27-43 | the smallest failure: one duplicate after completion, and the next two-frame message is not delivered as sent |
| Reassembly.FirstAgainForgets | aquaclean_console_app/aquaclean_core/Frames/FrameCollector.py:27-40 | a repeated first frame forgets every continuation frame received so far |
| Reassembly.ForeignIndexSpoils | aquaclean_console_app/aquaclean_core/Frames/FrameCollector.py:45-101 | one continuation frame with an index the message does not have, and nothing is delivered until another message begins; from index 64 on the frame is an error |
| Reassembly.LastFirstDecides | aquaclean_console_app/aquaclean_core/Frames/FrameCollector.py:27-106 | a message still unfinished at its last first frame is completed by what follows exactly if every continuation index is among it |
| Reassembly.SingleFrameRepeats | aquaclean_console_app/aquaclean_core/Frames/FrameCollector.py:27-106 | a one-frame message is delivered once with each repetition |
| Reassembly.FrameCollector.AddFrame | aquaclean_console_app/aquaclean_core/Frames/FrameCollector.py:52-106 | adding a frame, with the assembling loop and its KeyError, takes the specified step |
| Reassembly.FrameCollector.StartTransaction | aquaclean_console_app/aquaclean_core/Frames/FrameCollector.py:27-43 | starting a transaction replays the buffered frames in order, an error ending the replay |
| Reassembly.FrameCollector.Receive | aquaclean_console_app/aquaclean_core/Frames/FrameService.py:77-104 | the frame service's dispatch to the collector |
| MeraRequests.BitmapIsReceived | aquaclean_ble_relay/mera_mock.py:743-756 | after any run of calls the bitmap is exactly the set of indices of the request frames with no later first frame |
| MeraRequests.AckPrecedesResponse | aquaclean_ble_relay/mera_mock.py:743-806 | each request frame is acknowledged first, with exactly that set; exactly if it completes a readable request the response follows whole and in order and is remembered; nothing else is sent but unacknowledged frames of the last response |
| MeraRequests.AllAckedMeansHeld | aquaclean_ble_relay/mera_mock.py:706-718 | for up to 8 frames the device sees `all acknowledged` exactly when the client holds every frame |
| MeraRequests.NeverAllAcked | aquaclean_ble_relay/mera_mock.py:712-713 | with more than 8 frames one byte can never acknowledge them all |
| MeraRequests.ResendsMissing | aquaclean_ble_relay/mera_mock.py:725-731 | a round resends exactly the frames the client does not hold, unchanged and on their characteristics |
| MeraRequests.ControlReadsBack | aquaclean_console_app/aquaclean_core/Frames/FrameFactory.py:97-108 | bit i of byte j of the bitmap in the client's control frame says whether frame 8 j + i is held |
| MeraRequests.ClientControls | aquaclean_ble_relay/mera_mock.py:702-732 | the client's control frame reaches the flow control with the first byte of its bitmap |
| MeraRequests.ControlFrameActs | aquaclean_ble_relay/mera_mock.py:702-732 | after any calls, with a response of up to 8 frames pending: every control frame of at least 11 bytes closes it, gives it up after three rounds, or resends exactly the missing frames unchanged |
| MeraRequests.ControlRound | aquaclean_ble_relay/mera_mock.py:712-732 | one report of up to 8 held frames closes the response exactly if all are held or three rounds are spent, and otherwise resends exactly the missing ones |
| MeraRequests.CompletesInTime | aquaclean_ble_relay/mera_mock.py:712-732 | a service and a client reporting every round: with at most as many frames missing as rounds are left and one getting through per round, the response is closed with every frame held |
| MeraRequests.GivesUp | aquaclean_ble_relay/mera_mock.py:719-724 | with more frames missing than rounds are left and at most one getting through per round, the service gives up with frames missing: the bound of three is exact |
| MeraRequests.AtMostThreeRounds | aquaclean_ble_relay/mera_mock.py:702-732 | in every run of calls without a new request one response is retransmitted at most three times |
| MeraRequests.RequestDelivered | aquaclean_ble_relay/mera_mock.py:734-766 | a request of up to 66 argument bytes, its legacy frames in any order with continuation frames repeated at will, reaches the dispatcher once and as it was sent |
| MeraFlow.StepKeeps | aquaclean_ble_relay/mera_mock.py:702-732 | device, collector and the two channels between them: every delivery, loss of a frame or a report and report handled keeps the loop safe, for responses of up to 64 frames |
| MeraFlow.DeliveredOnce | aquaclean_ble_relay/mera_mock.py:702-791 | in every run the client gets the response once, exactly when its first frame and all others have come through, or not at all; when the first frame is lost, never, and nothing is reported |
| MeraFlow.ExchangeOutcome | aquaclean_console_app/aquaclean_core/Frames/FrameCollector.py:52-106 | once both channels are empty the losses of frames and reports alone decide: a response of up to 8 frames has been delivered exactly if nothing was lost at first, or the first and three more of more than four frames came through, the report of these was heard and no lost frame was lost again; the device has closed it exactly if the report of the whole was heard too; otherwise the exchange stands still with at most one retransmission made |
| MeraFlow.OneRound | aquaclean_console_app/aquaclean_core/Frames/FrameCollector.py:74-77 | the collector's reports never make the device resend a response of up to 8 frames more than once, and one of up to 4 frames never |
| MeraFlow.LosslessLeaves | aquaclean_console_app/aquaclean_core/Frames/FrameCollector.py:60-77 | without any loss a response of 5 to 8 frames is delivered, and the frames behind the fourth, resent on the early report, stay in the collector's buffer |
| MeraFlow.NextResponse | aquaclean_console_app/aquaclean_core/Frames/FrameCollector.py:27-43 | the response after that one, again without loss and with other payloads, is read intact exactly if it has more frames |
| MeraFlow.ResponseRead | aquaclean_ble_relay/mera_mock.py:435-510 | in every run of the loop the client reads from what it is handed exactly the context, procedure and result the device answered with |
| MeraRequests.MeraService.HandleRequest | aquaclean_ble_relay/mera_mock.py:693-756 | one locked call takes the specified step and sends and dispatches exactly what it says |
| MeraRequests.MeraService.HandleControl | aquaclean_ble_relay/mera_mock.py:702-732 | the retransmission loop sends the unacknowledged frames in order, or closes or abandons the response |
| MeraRequests.MeraService.OnCollected | aquaclean_ble_relay/mera_mock.py:758-791 | a complete request is parsed, dispatched and answered frame by frame, and its response becomes the one to retransmit |
| MeraRequests.BuildProbeFrame | esphome/gatt-probe.py:78-117 | the frame built in place is the first 19 bytes of the probe's message behind its header |
| MeraRequests.ProbeReadBack | esphome/gatt-probe.py:78-117 | the device reads from a probe frame the context, the procedure and the first nine of the thirteen argument bytes |
| MeraRequests.ProbeRoundTrip | esphome/gatt-probe.py:78-117 | the device sees the probe's parameters and a matching count exactly for up to eight parameters |
| Persistence.StateFile.Save | aquaclean_ble_relay/mock_persistence.py:63-73 | one row of one device is inserted or replaced; other devices' rows are untouched |
| Persistence.StateFile.LoadAll | aquaclean_ble_relay/mock_persistence.py:53-60 | a device gets exactly its own rows |
| Persistence.StateFile.Reset | aquaclean_ble_relay/mock_persistence.py:76-83 | all rows of one device are gone; other devices' rows are untouched |
| Persistence.DevicesIsolated | aquaclean_ble_relay/mock_persistence.py:53-83 | after any history of saves and resets by all devices, a device's rows are those of its own history alone |
| Ble20.AddressRoundTrip | aquaclean_console_app/bluetooth_le/LE/Ble20Client.py:59-81 | decoding an encoded address returns data point, instance and length, whatever follows it |
| Ble20.AddressEchoed | aquaclean_console_app/bluetooth_le/LE/Ble20Client.py:59-81 | the address a device sends back is byte for byte the one it was sent |
| Ble20.SortedKeys | aquaclean_ble_relay/alba_mock.py:626-629 | the inventory order holds every row once, in strictly ascending data point numbers |
| Ble20.RunKeepsRows | aquaclean_ble_relay/alba_mock.py:602-710 | no run of commands adds, removes or redefines a row; only values change |
| Ble20.InventoryConstant | aquaclean_ble_relay/alba_mock.py:626-636 | the inventory a client sees never changes |
| Ble20.RunAssigns | aquaclean_ble_relay/alba_mock.py:651-693 | after any run a row holds what the last frame that writes it wrote, through any address that resolves to it, the shower status also the mirrored 5 of a shower start, and its old value if no frame writes it |
| Ble20.ReadsLastWrite | aquaclean_ble_relay/alba_mock.py:638-649 | a read through any address of a row answers with that last value |
| Ble20.RunSubscribes | aquaclean_ble_relay/alba_mock.py:695-710 | after any run a data point is subscribed exactly if it was enabled, or on from the start, and not disabled since |
| Ble20.NotifiesSubscribed | aquaclean_ble_relay/alba_mock.py:667-692 | every notification among the answers to a command is for a subscribed data point |
| Ble20.NotificationsNeedSubscription | aquaclean_ble_relay/alba_mock.py:667-710 | over whole runs a notification needs a subscription that has not been taken back |
| Ble20.UnwrapWrap | aquaclean_ble_relay/alba_mock.py:588-596 | unwrapping inverts wrapping for inner frames of 1 to 256 bytes |
| Ble20.UnwrapBrokenOff | aquaclean_ble_relay/alba_mock.py:589-596 | an inner frame that breaks off, or a lone last byte, is ignored and changes nothing for those before it |
| Ble20.TunnelIsSequential | aquaclean_ble_relay/alba_mock.py:573-600 | for every tunnel frame the answers and the store are those of dispatching its inner frames one after another, each answer rewrapped; exceptions included |
| Ble20.SequentialRuns | aquaclean_ble_relay/alba_mock.py:589-599 | without an exception the store after a tunnel frame is that of the run of its inner frames |
| Ble20.TunnelSucceeds | aquaclean_ble_relay/alba_mock.py:598-599 | with stored values of at most 252 bytes and complete addresses no tunnel frame raises, and the values stay that short |
| Ble20Answers.ResolvesReached | aquaclean_ble_relay/alba_mock.py:641 | an address resolves to its own row or else to the row without an instance, and to none only if neither exists |
| Ble20Answers.WriteAnswers | aquaclean_ble_relay/alba_mock.py:651-693 | after any frames: a write is acknowledged with its own address bytes, told to a subscriber of the data point as NOTIFY_DATA with the bytes written, and a shower start also as status 5; nothing else is answered; an unresolved address gives WRITE_ERROR |
| Ble20Answers.ReadAnswers | aquaclean_ble_relay/alba_mock.py:638-649 | after any frames: a read answers its own address bytes and the value last assigned, or READ_ERROR |
| Ble20Answers.NotifyAnswers | aquaclean_ble_relay/alba_mock.py:695-710 | a subscription is acknowledged with its own address bytes if the address resolves and refused if not; its end is always acknowledged |
| Ble20Answers.OtherAnswers | aquaclean_ble_relay/alba_mock.py:602-624 | every other command has its fixed answer or none, and an incomplete address raises |
| Ble20Answers.InventoryReadsBack | aquaclean_console_app/bluetooth_le/LE/Ble20Client.py:141-187 | after any frames the client reads the whole table out of the inventory answer: version, type, signed limits and behaviour of every row |
| Ble20Answers.SettingReadsBack | aquaclean_ble_relay/alba_mock.py:537-552 | a setting that is accepted is read over the air until it is assigned again; one that is not stored is refused |
| Ble20Answers.FirmwareReadsBack | aquaclean_ble_relay/alba_mock.py:477-484 | a firmware version that is set is read over the air until it is assigned again |
| Ble20Answers.TunnelAnswers | aquaclean_ble_relay/alba_mock.py:573-600 | a tunnel frame that does not raise is answered by the answers to its inner frames in order, each behind the seven header bytes and its length less one |
| Ble20Defaults.NvmRows | aquaclean_ble_relay/alba_mock.py:240-325 | a stored setting of the default table has no instance and is neither identity, firmware nor shower status |
| Ble20Defaults.DefaultsWellFormed | aquaclean_ble_relay/alba_mock.py:240-345 | the default table has one row per data point and everything else the constructor and the settings page rely on |
| Ble20Sessions.ApplyAgrees | aquaclean_ble_relay/alba_mock.py:477-666 | every operation keeps memory and state file in agreement and leaves the saved identity and firmware rows alone, but for the firmware row it sets |
| Ble20Sessions.RestartAgrees | aquaclean_ble_relay/alba_mock.py:411-475 | a session built after any mixture of air writes, tunnel frames, settings writes and firmware updates has the same stored settings, the first serial number and PIN, the last firmware versions and the default in every other row |
| Ble20Sessions.DefaultRestartAgrees | aquaclean_ble_relay/alba_mock.py:240-475 | the same for every stored setting of the actual default table |
| Ble20Sessions.Passes | aquaclean_ble_relay/alba_mock.py:422-475 | the constructor's passes over settings, identity and firmware build the object described row by row |
| Ble20Sessions.Ble20AppLayer.constructor | aquaclean_ble_relay/alba_mock.py:411-475 | defaults, then the file's settings, then identity and firmware, saving what was missing; other devices' rows are untouched |
| Ble20Sessions.Ble20AppLayer.Read | aquaclean_ble_relay/alba_mock.py:638-649 | the answer to a read is that of the store model |
| Ble20Sessions.Ble20AppLayer.Write | aquaclean_ble_relay/alba_mock.py:651-693 | a write changes the resolved row, saves it if it is a stored setting, mirrors a shower start and answers as the store model says |
| Ble20Sessions.Ble20AppLayer.Notify | aquaclean_ble_relay/alba_mock.py:695-710 | subscription and answer are those of the store model |
| Ble20Sessions.Ble20AppLayer.Inventory | aquaclean_ble_relay/alba_mock.py:626-636 | picking the rows one by one gives the inventory in ascending order |
| Ble20Sessions.Ble20AppLayer.DispatchOne | aquaclean_ble_relay/alba_mock.py:602-624 | one unwrapped frame takes the step of the store model |
| Ble20Sessions.Ble20AppLayer.TunnelDispatch | aquaclean_ble_relay/alba_mock.py:573-600 | the scan over inner frames takes the steps of the tunnel model; it ends because the position grows |
| Ble20Sessions.Ble20AppLayer.DispatchPlaintext | aquaclean_ble_relay/alba_mock.py:564-571 | a plaintext is dispatched as itself or as a tunnel frame |
| Ble20Sessions.Ble20AppLayer.WriteDpidSetting | aquaclean_ble_relay/alba_mock.py:537-552 | the settings page writes and saves a stored setting and refuses everything else |
| Ble20Sessions.Ble20AppLayer.SetFirmwareVersion | aquaclean_ble_relay/alba_mock.py:477-484 | a firmware row is changed and saved |
| MeraStore.ApplyAgrees | aquaclean_ble_relay/mera_mock.py:1686-1879 | every settings, firmware, identity and reset operation keeps memory and state file in agreement; a reset if all saved components are known ones |
| MeraStore.ResetAgreesIffKnown | aquaclean_ble_relay/mera_mock.py:2202-2221 | after a factory reset memory and file agree exactly if the file held no component unknown to the tables |
| MeraStore.RestartAgrees | aquaclean_ble_relay/mera_mock.py:1257-1308 | after any sequence of operations, with resets if all saved components are known ones, a rebuilt device has the same stored settings, firmware versions and identity; its active common settings are the stored ones, its active profile settings the defaults |
| MeraStore.BuildReads | aquaclean_ble_relay/mera_mock.py:1257-1308 | entry by entry, what a new device takes from its rows and what from the defaults; an unknown identity field is never taken over |
| MeraStore.StoredAndActiveApart | aquaclean_ble_relay/mera_mock.py:1819-1879 | after any operations a setting of each of the four groups, stored or active, common or profile, holds what the last write of its own group or factory reset left, whichever came later; active profile settings are left by no reset |
| MeraStore.SetThenGet | aquaclean_ble_relay/mera_mock.py:1793-1877 | on the wire a setting of each group that can be asked for reads back as last set, whatever requests came before and whatever others came since, those for the same number in other groups included |
| MeraStore.GetUnset | aquaclean_ble_relay/mera_mock.py:1793-1865 | a setting no request has set reads as it stands, low byte first, an unknown one as zero |
| MeraStore.FirmwareAndIdentity | aquaclean_ble_relay/mera_mock.py:2142-2221 | after any operations a known component or identity field holds what the last write to it, firmware profile or factory reset gave |
| MeraStore.UnknownStaysOut | aquaclean_ble_relay/mera_mock.py:2152-2170 | a component the device does not have is never added |
| MeraStore.MeraMock.constructor | aquaclean_ble_relay/mera_mock.py:1257-1308 | a new device is the defaults overlaid with its own rows of the state file |
| MeraStore.MeraMock.Overlay | aquaclean_ble_relay/mera_mock.py:1284-1301 | the loop over the persisted rows overlays each name space and passes over unknown identity fields |
| MeraStore.MeraMock.WriteStoredCommonSetting | aquaclean_ble_relay/mera_mock.py:1843-1849 | a stored common setting is changed in memory and in the file |
| MeraStore.MeraMock.WriteStoredProfileSetting | aquaclean_ble_relay/mera_mock.py:1867-1872 | a stored profile setting is changed in memory and in the file |
| MeraStore.MeraMock.SetActiveCommonSetting | aquaclean_ble_relay/mera_mock.py:1828-1835 | an active common setting changes only in memory |
| MeraStore.MeraMock.SetActiveProfileSetting | aquaclean_ble_relay/mera_mock.py:1819-1826 | an active profile setting changes only in memory |
| MeraStore.MeraMock.HandleWriteFwComponent | aquaclean_ble_relay/mera_mock.py:2152-2170 | a known component is changed and saved, an unknown one refused |
| MeraStore.MeraMock.HandleWriteIdentity | aquaclean_ble_relay/mera_mock.py:2172-2200 | a known identity field is changed and saved, an unknown one refused |
| MeraStore.MeraMock.SetFwVersions | aquaclean_ble_relay/mera_mock.py:1708-1715 | the loop over a firmware snapshot changes and saves every component of it and no other |
| MeraStore.MeraMock.ApplyFirmwareProfile | aquaclean_ble_relay/mera_mock.py:1708-1715 | a firmware profile is applied as one operation of the store model |
| MeraStore.MeraMock.HandleFactoryReset | aquaclean_ble_relay/mera_mock.py:2202-2221 | the file is emptied and re-seeded, memory set back, as one operation of the store model; other devices' rows are untouched |
| FirmwareUpdate.StepKeeps | aquaclean_ble_relay/mera_mock.py:1717-1780 | every step of a procedure call, the web trigger or a task keeps the invariant of state, tasks and progress |
| FirmwareUpdate.TasksMatchState | aquaclean_ble_relay/mera_mock.py:1717-1780 | in every interleaving a flash task exists exactly when the state is started, a finalize task exactly when it is rebooting, and at most one task exists |
| FirmwareUpdate.StatesCycle | aquaclean_ble_relay/mera_mock.py:1717-1780 | in every interleaving the states follow idle, started, done, rebooting, idle |
| FirmwareUpdate.UpdateCompletes | aquaclean_ble_relay/mera_mock.py:1730-1780 | in every interleaving a started update comes to its end: ten ticks, a ping unless web-triggered, two steps of the finalize task, the new firmware installed between them; polls answer busy before the last tick and during the reboot, done in between |
| FirmwareUpdate.WindowsClimb | aquaclean_ble_relay/mera_mock.py:1754-1761 | every flash window pushes exactly ten values, strictly increasing by 84 up to 840 |
| FirmwareUpdate.AppliedOncePerCycle | aquaclean_ble_relay/mera_mock.py:1767-1780 | in every interleaving, with all other operations on the stores among the steps, the stores are those of the operations that came, in order, and hold exactly one installation of the new firmware per reboot |
| FirmwareUpdate.InstalledStays | aquaclean_ble_relay/mera_mock.py:1708-1780 | a component an update installed has the new version, in memory and for a rebuilt device, until that component is written, a profile applied or the device reset |
| FirmwareUpdate.ProgressReadBack | aquaclean_ble_relay/mera_mock.py:513-525 | a progress frame is one complete message whose check holds and whose value reads back |
| FirmwareUpdate.FirmwareUpdater.Start | aquaclean_ble_relay/mera_mock.py:1730-1737 | an update starts only from idle, from the procedure call or the web trigger |
| FirmwareUpdate.FirmwareUpdater.FinalizePing | aquaclean_ble_relay/mera_mock.py:1740-1744 | a ping starts the reboot only once, when the flash window is done |
| FirmwareUpdate.FirmwareUpdater.WakeFlash | aquaclean_ble_relay/mera_mock.py:1756-1765 | a tick pushes the next progress frame; the last one ends the window and, if web-triggered, starts the reboot |
| FirmwareUpdate.FirmwareUpdater.WakeFinalize | aquaclean_ble_relay/mera_mock.py:1767-1780 | a finalize task writes the new firmware to the device's stores, sleeps and returns the state to idle |
| FirmwareUpdate.FirmwareUpdater.WriteComponent | aquaclean_ble_relay/mera_mock.py:2152-2170 | a component written from outside acts in any state of the update |
| FirmwareUpdate.FirmwareUpdater.SetFirmwareProfile | aquaclean_ble_relay/mera_mock.py:2142-2150 | so does a firmware profile |
| FirmwareUpdate.FirmwareUpdater.FactoryReset | aquaclean_ble_relay/mera_mock.py:2202-2221 | so does a factory reset |
| PollLoop.PollingLoop | aquaclean_console_app/main.py:2757-2921 | the loop's counters and what it does are those of the pass-by-pass model |
| PollLoop.IterateKeeps | aquaclean_console_app/main.py:2770-2921 | every pass keeps the counters equal to functions of what was done so far |
| PollLoop.PollDoes | aquaclean_console_app/main.py:2794-2921 | in every run a pass that polls does exactly what its outcome and the state before it say: restart on the fourth poll of an outage, identification if needed, success or failure; only a timing error and an unsupported device stop the loop |
| PollLoop.OthersDoNothing | aquaclean_console_app/main.py:2770-2793 | any other pass does nothing, and stops the loop exactly if cancelled or shut down |
| PollLoop.FinePollSucceeds | aquaclean_console_app/main.py:2805-2827 | a poll without an error ends in success with no failure counted, and asks for the identification exactly after a recovery |
| PollLoop.FailedPollCounts | aquaclean_console_app/main.py:2829-2921 | a poll that fails before its success point counts one more |
| PollLoop.FineRun | aquaclean_console_app/main.py:2794-2827 | a run whose polls are all fine has no failure and no restart |
| PollLoop.OneRestartPerOutage | aquaclean_console_app/main.py:2794-2827 | between two restarts of the ESP32 some poll reached its success point and at least three polls failed |
| PollLoop.RestartIffFourthPoll | aquaclean_console_app/main.py:2794-2800 | with a configured ESP32 a fourth failure in a row proves exactly one restart; without one there is none |
| PollLoop.RecoveryRefetches | aquaclean_console_app/main.py:2808-2827 | after a recovery every poll asks for the identification again until one has got it |
| PollLoop.PublishErrorCountsOnce | aquaclean_console_app/main.py:2816-2921 | an error after the success point of a poll leaves one failure counted, however many came before, and asks for the identification again after a recovery |

## Left out

- D-Bus, BlueZ, advertising, GATT registration, pairing, connection tracking and captures by subprocess: calls into systems with no semantics in the repository.
- Web pages, server-sent events, HTTP routes, MQTT, Home Assistant discovery, command lines and logging: plumbing around the modelled state.
- X25519, HKDF, CMAC and AES: key exchange results are a parameter of the step that uses them, the block cipher is any function; randomness (nonces, serial numbers, PINs) is a parameter too.
- Wall-clock time: timeouts are steps that may happen at any await; on-air order of a frame sent under a timeout against the pusher's is not modelled, all claims are about build order.
- The pusher's own lookups (subscription, store update) are not part of the link's state; the step takes any payload and allows it whenever the handshake is done.
- ArendiServer.AriendiServerSide.TakeItem: what the application does with a request (answers, or an exception) is a parameter here; what they are is the subject of Ble20.
- N(R) is stated relative to the latest restart only: frames still queued behind a SABM are forgotten by the reset.
- The shower wind-down task of a stop command: it overlaps with later commands; a stop leaves the status unchanged in the model.
- Ble20.RunAssigns: the pusher and the user-detection toggle, which also set values, are not commands and are not in the runs.
- Persistence.StateFile.Save: JSON and hexadecimal text of values, time stamps and the text form of state keys are not modelled; keys are data point numbers or tagged names.
- PassiveDecryption.ProcessRows: arendi-parse-capture.py is not part of this model (it is not in the repository); its parser is taken to be the streaming parser, frames with a bad outer check are not reported, and rows are already decoded into direction and bytes.
- Reassembly.DeliveredIntactIff: buffered payloads some longer and some shorter than the message's own are not covered; the two wire formats cannot produce them, because the payloads of one message are all of one size (Reassembly.IntactAfterTraffic).
- Reassembly.IntactAfterTraffic: a message that starts while an earlier one is unfinished is not covered; its first frame forgets the other's frames (Reassembly.FirstAgainForgets).
- ArendiApplication.AnswersInOrder: the pusher's own changes to the stored values are not part of the application's state; a phase before the running one is covered by the run up to its end.
- Hexadecimal input and printed text of the capture tools: the model starts and ends at bytes and classes.
- Reassembly.FrameCollector.Receive: frames are processed one after the other; a second frame arriving while the first one's control frame is being written is not modelled.
- Reassembly.FrameCollector.AddFrame: the eight bitmap bytes are a set of indices below 64; an index beyond raises as in the source.
- MeraRequests.MeraService.HandleRequest: the lock makes a call one step; pushes by other tasks (info frames, firmware progress) may fall between its frames and are not in its trace.
- MeraRequests.CompletesInTime: responses of more than 8 frames, which one acknowledgement byte cannot acknowledge (MeraRequests.NeverAllAcked).
- MeraFlow.ExchangeOutcome: for responses of more than 8 frames the exact outcome is not stated, because repeated frames then trigger further reports; MeraFlow.DeliveredOnce covers them.
- MeraFlow.Step: both channels keep the order.
- Setting numbers of MeraStore are natural numbers; the settings page's route would also let a negative number through. Validation of text lengths and number formats before a write is left to the caller.
- FirmwareUpdate.InstalledStays: the simulated update replaces version numbers only; no firmware is transferred.
- FirmwareUpdate.FirmwareUpdater.WakeFlash: a progress frame is recorded also when no GATT service is wired, in which case the source only skips the push.
- Info-frame bursts: while one is under way a response waits up to three seconds before it is pushed; this delays its frames and changes none of them.
- PollLoop.PollingLoop: what is published is not modelled; an exception inside an exception handler, or from the pause of the open circuit, which would end the loop, is not either.
- Poll statistics, error codes, the firmware download service and the other probe and scan scripts: running averages, lookup tables and printed reports, which no modelled operation reads.
