# A stop-and-wait link protocol, modelled in Dafny

The system is a small HDLC-style link between a `Sender` and a `Receiver`:

- **Frames.** A frame (`Trame`) carries a type (`TrameType`: I, C, A, R, F, P, each coded by its ASCII letter), a sequence number, a data array and a 16-bit checksum. The constructor computes the checksum over `type code ‖ number ‖ data`.
- **Checksum.** The checksum loop (`calculateCrc`) is CRC-16/XMODEM: polynomial 0x1021, register starting at 0, most significant bit first, no reflection, no final XOR. It runs in a Java `int` and XORs in sign-extended bytes.
- **Sender.** The sender cuts every line of its input into slices of at most 250 bytes. Each slice goes out as an information frame numbered by a counter that is taken back from 8 to 0. The sender then polls for replies until a deadline:
  - a matching ACK ends the wait;
  - every REJ resends the frame;
  - a wait without the ACK ends with one more resend, and the sender moves on regardless.

  After the last line, an end frame (F) goes out, carrying the counter as it stands.
- **Receiver.** The receiver keeps the number it expects, modulo 8. It ignores empty receptions and stops at an end frame. It answers every other frame with an ACK when the checksum matches and the number is the expected one, and with a REJ otherwise. Both replies carry the received frame's number.
- **Fault injection.** The test code defines two fault injectors: `InverseBitAleatoire` flips one bit of a frame's data, and `PerteTrame` stands for a lost frame.

The project has five modules, one per concern:

- `Checksum` (checksum.dfy) holds the checksum theory:
  - the 16-bit specification `Crc16`;
  - the 32-bit register of the Java loop, `JavaRegister`, with sign-extended bytes;
  - the proof that both give the same low 16 bits;
  - linearity and single-byte error detection;
  - the catalogue check value.
- `Frames` (frames.dfy) holds the frame types and their codes, the checksum loop as a method, and the `Trame` class. The class holds its data as an `array<bv8>`, because the fault injector changes a frame's array in place after the frame was built.
- `Receiving` (receiver.dfy) holds the receiver:
  - a step function `Step` and a run `Run` over a finite sequence of receptions;
  - lemmas about them;
  - the loop `Start`, proved equal to `Run`.
- `Sending` (sender.dfy) holds the sender:
  - the specification functions `Chunks`, `Poll`, `Round`, `SendLine` and `Session`;
  - lemmas about slicing, waiting, numbering and what goes out;
  - the `Sender` class, whose methods are proved equal to those functions.
- `FaultInjection` (faults.dfy) holds the two fault injectors and what the receiver makes of their results.

Behaviour of the code worth noting:

- When a wait ends without the matching ACK, the sender resends the frame once and goes on to the next slice.
- The deadline of a wait is fixed when the wait starts; REJs do not move it.
- The counter advances for every slice, whether or not it was acknowledged.
- The counter is taken back to 0 only when it is 8 and a slice is about to be numbered, so the end frame can carry the number 8.
- The checksum loop shifts the register eight times per byte.
- The receiver answers frames of type C, A, R and P exactly like information frames.

## Model

| member | source | states |
|---|---|---|
| `Checksum.Widen` | src/Trame.java:44 | widening a byte to `int` keeps it in bits 0-7 and copies its sign bit into bits 8-31 |
| `Checksum.JavaShiftLow16` | src/Trame.java:46-51 | one step of the inner loop on the `int` register, cut to 16 bits, is one step of the 16-bit CRC shift |
| `Checksum.JavaFeedLow16` | src/Trame.java:43-51 | one pass of the outer loop on the `int` register, cut to 16 bits, feeds the unsigned byte into the 16-bit CRC |
| `Checksum.SignExtensionInvisible` | src/Trame.java:41-53 | for every byte sequence, the low 16 bits of the `int` register are the CRC-16/XMODEM of the bytes read as unsigned |
| `Checksum.SignExtensionReachesHighBits` | src/Trame.java:44 | the sign extension does reach the register: after the byte 0x80 it holds 0xFF889188, whose bits above 15 are set, so the final mask matters |
| `Checksum.Crc16Linear` | src/Trame.java:41-53 | the checksum is linear: for equal lengths, the CRC of the XOR of two inputs is the XOR of their CRCs |
| `Checksum.ZerosCrc16` | src/Trame.java:41-53 | with a zero initial register, any run of zero bytes has CRC 0 |
| `Checksum.SingleByteErrorCrc16` | src/Trame.java:41-53 | an input that is zero except for one non-zero byte has a non-zero CRC |
| `Checksum.Crc16DetectsByteError` | src/Trame.java:41-53 | changing one byte of any input, by any non-zero XOR mask, changes its CRC |
| `Checksum.CheckValue` | src/Trame.java:36-54 | the CRC of ASCII "123456789" is 0x31C3, the catalogue check value of CRC-16/XMODEM |
| `Frames.TypeOfCode` | src/Trame.java:1-17 | decoding a byte gives back a type whose code is that byte, and gives nothing only for bytes that are none of the six letters |
| `Frames.CodeRoundTrip` | src/Trame.java:1-17 | every type is recovered from its code |
| `Frames.CodeInjective` | src/Trame.java:1-17 | two types have the same code exactly when they are the same type |
| `Frames.CrcInput` | src/Trame.java:37-40 | the checksum input is the type code, then the number, then the data, two bytes longer than the data |
| `Frames.ShiftByte` | src/Trame.java:46-51 | the inner loop leaves the register shifted eight times |
| `Frames.FeedByte` | src/Trame.java:43-51 | one pass of the outer loop XORs the sign-extended byte into bits 8 and up and then shifts eight times |
| `Frames.CalculateCrc` | src/Trame.java:36-54 | the loop over the copied array returns the CRC-16/XMODEM of type code, number and data |
| `Frames.BuildDeterministic` | src/Trame.java:29-34 | a frame value has a correct checksum exactly when it is the value the constructor builds from its other fields, so equal fields give equal checksums |
| `Frames.NextNumAsInt` | src/Receiver.java:50 | on every counter value 0..7, the update on the byte is below 8 and equals `(byte) ((n + 1) % 8)` as Java evaluates it (sign-extended byte, remainder truncating toward zero, cast back) |
| `Frames.NextNumSignedByte` | src/Receiver.java:50 | outside 0..7 the unsigned reading differs from Java's: on the byte 0x80 Java yields 0xF9, the model 1 |
| `Frames.AfterFromZero` | src/Receiver.java:32-50 | starting from 0, the counter after `n` increments is `n mod 8` |
| `Frames.Trame.constructor` | src/Trame.java:29-34 | the frame keeps the given type, number and array (not a copy), and its stored checksum matches its contents |
| `Frames.Trame.GetType` | src/Trame.java:64-66 | `getType` returns the code byte, from which the type is recovered |
| `Receiving.StepProperties` | src/Receiver.java:34-56 | nothing received gives no reply and no change; exactly the end frames stop, with no check; every other frame gets one reply carrying its own number; the reply is an ACK exactly when `checkTrame` holds and a REJ otherwise; the counter changes only on an ACK, to its successor mod 8 |
| `Receiving.BuiltFramePassesCrc` | src/Receiver.java:67-69 | for any frame as the constructor builds it, the checksum half of `checkTrame` holds, so only the number decides |
| `Receiving.RunStops` | src/Receiver.java:39-42 | an end frame stops the loop with no reply, the counter as it was, and the connection closed |
| `Receiving.RunCounterInRange` | src/Receiver.java:32-50 | a counter starting in 0..7 stays in 0..7 whatever is received |
| `Receiving.RunAnswersEachFrame` | src/Receiver.java:44-55 | the replies are one per frame received before the first end frame, in order, each an ACK or a REJ with that frame's number |
| `Receiving.RunClosesOnEndFrame` | src/Receiver.java:34-58 | the connection ends up closed exactly when some reception is an end frame |
| `Receiving.RunIgnoresLosses` | src/Receiver.java:37 | empty receptions change nothing: the outcome equals that of the frames actually received |
| `Receiving.RunInOrder` | src/Receiver.java:44-50 | frames with correct checksums, numbered consecutively mod 8 from the expected number, are all ACKed with their own numbers, and the counter ends that many steps further |
| `Receiving.CheckTrame` | src/Receiver.java:67-69 | true exactly when the stored checksum matches the frame's current contents and the number is the expected one |
| `Receiving.MakeReply` | src/Receiver.java:46-53 | a reply frame has empty data and a correct checksum |
| `Receiving.Handle` | src/Receiver.java:35-55 | one iteration of the loop does what `Step` prescribes for that reception, and any reply frame it builds has empty data |
| `Receiving.Answer` | src/Receiver.java:35-55 | one iteration of the loop stops exactly on `Step`'s stop action, and otherwise moves the counter and records the replies `Step` prescribes |
| `Receiving.Start` | src/Receiver.java:31-59 | the loop, from counter 0, sends exactly the replies of `Run` and ends with its counter and closed flag |
| `Sending.ChunksCover` | src/Sender.java:67-74 | the slices of a line are non-empty, at most 250 bytes each, concatenate back to the line, and number ⌈L/250⌉ for a line of L bytes (none for an empty line) |
| `Sending.ChunksAt` | src/Sender.java:70-74 | at any position the next slice is `min(250, remaining)` bytes from that position, followed by the slices of the rest |
| `Sending.PollAcked` | src/Sender.java:83-87 | a wait ends with the ACK exactly when one of its reads before the deadline returns an ACK with the frame's number; other ACKs, REJs and empty reads do not end it |
| `Sending.PollTimeout` | src/Sender.java:81-93 | a wait without the ACK consumes all its reads, and the deadline is not pushed back by REJs; it counts every REJ among them |
| `Sending.PollFirstAck` | src/Sender.java:84-92 | a wait whose first matching ACK comes at read `k` stops right after it, having counted the REJs before it, whatever their numbers |
| `Sending.CopiesInOrder` | src/Sender.java:78-98 | the frame goes out once, then once per REJ, then once more without the ACK |
| `Sending.RoundTimeout` | src/Sender.java:81-98 | when no read before the deadline is an ACK with the frame's number, the frame goes out `2 + r` times, where `r` is the number of REJs among those reads, and all those reads are consumed |
| `Sending.RoundAcked` | src/Sender.java:81-98 | when the first matching ACK comes at read `k`, the frame goes out `1 + r` times, where `r` is the number of REJs before it, and the replies after it are left unread |
| `Sending.SendChunksOut` | src/Sender.java:70-101 | what a line's slices put on the link is each slice's frame repeated as its wait requires, in order; the sender moves to the next slice whether or not it was acknowledged |
| `Sending.SendChunksNum` | src/Sender.java:71-77 | after a run of slices, the counter depends only on its start value and the number of slices |
| `Sending.SendChunksAppend` | src/Sender.java:52-54 | sending two runs of slices is sending them back to back |
| `Sending.SendLinesFlat` | src/Sender.java:52-54 | lines go out as one run of slices, numbered straight through across line boundaries |
| `Sending.InfoFramesHoldSlices` | src/Sender.java:72-77 | every slice's frame is an information frame holding exactly that slice |
| `Sending.InfoFramesNumbered` | src/Sender.java:71-77 | from a counter in 0..8, slices are numbered consecutively mod 8 from the wrapped counter, all in 0..7, and the counter ends one past the last number |
| `Sending.SessionOut` | src/Sender.java:45-64 | a session puts out the frames of all slices, each at least once, then one end frame with empty data and the counter as it stands, and the counter moves on once more |
| `Sending.FreshNumbering` | src/Sender.java:28-77 | from a fresh sender, slice `k` is numbered `k mod 8`; the end frame's number is at most 8, 0 without data, and 8 exactly when the last information frame was numbered 7 |
| `Sending.SessionCounter` | src/Sender.java:59 | from a fresh sender the counter ends a session at most at 9, and at 9 exactly when the end frame was numbered 8 |
| `Sending.Sender.constructor` | src/Sender.java:28 | the counter starts at 0, nothing is sent and the connection is open |
| `Sending.Sender.Emit` | src/Sender.java:78 | sending appends the frame's current type, number and data to what went out, and nothing else changes |
| `Sending.Sender.Receive` | src/Sender.java:84 | a read returns the next reply, or nothing once the replies have run out, and consumes it |
| `Sending.Sender.StartTimer` | src/Sender.java:81-83 | starting a wait takes the number of reads it gets before its deadline |
| `Sending.Sender.AwaitReply` | src/Sender.java:81-93 | the polling loop reports the ACK, consumes the replies and resends on REJs exactly as `Poll` prescribes |
| `Sending.Sender.Transmit` | src/Sender.java:78-98 | a frame goes out as often as its wait requires, and the wait consumes its replies |
| `Sending.Sender.CopySlice` | src/Sender.java:73-74 | the copy is a fresh array holding the slice |
| `Sending.Sender.SendSlice` | src/Sender.java:71-100 | one pass of the outer loop is one `Round`: the counter wraps and numbers the slice, and the frame goes out and is waited for; the position advances by the slice size |
| `Sending.Sender.SendFrame` | src/Sender.java:66-102 | `sendFrame` leaves the sender in the state `SendLine` prescribes |
| `Sending.Sender.CreateFrame` | src/Sender.java:45-64 | `createFrame` leaves the sender in the state `Session` prescribes, with the connection closed |
| `FaultInjection.FlipBitProperties` | src/Test.java:95 | flipping a bit changes the byte in exactly that bit, and flipping it again restores the byte |
| `FaultInjection.Flip` | src/Test.java:94-95 | the flipped data has the same length |
| `FaultInjection.FlipTwice` | src/Test.java:94-95 | the flipped data differs from the original at the chosen byte only, and the same flip again restores it |
| `FaultInjection.FlipChangesCrc` | src/Test.java:95 | a flipped data bit changes the checksum that type, number and data call for |
| `FaultInjection.InverseBitAleatoire` | src/Test.java:90-97 | with empty data the frame itself comes back. Otherwise: the bit is flipped in the shared array; the new frame keeps type and number and has a correct checksum over the flipped data; the input frame's checksum no longer matches |
| `FaultInjection.FlippedFrameAccepted` | src/Test.java:96 | the receiver ACKs the frame the injector returns when its number is the expected one, although its data was changed |
| `FaultInjection.InjectBitError` | src/Test.java:90-95 | flipping the bit in place and returning the frame itself leaves a frame whose stored checksum no longer matches |
| `FaultInjection.CorruptedFrameRejected` | src/Receiver.java:51-55 | a frame whose data was changed after its checksum was fixed is answered with a REJ carrying its number, and the counter stays |
| `FaultInjection.LostFrameIgnored` | src/Test.java:103-105 | a lost frame draws no reply, leaves the counter unchanged, and can be dropped from any run |

## Left out

- Sockets, the `HDLC` class, flag framing, bit stuffing and the wire layout are left out. The encoding and decoding methods they call are not part of this model. Replies and frames are passed as values or objects.
- Threads and server sockets are left out.
- The wall clock is replaced by the number of reads each wait gets before its deadline (`deadlines`). A read after the replies run out returns nothing.
- `java.util.Random` is replaced by the byte and bit indices passed in, and by the caller's choice of which frames to corrupt.
- File reading and the charset (`readLine`, `getBytes`) are replaced by a sequence of byte sequences, one per line.
- Console output is not modelled.
- `Receiving.Start` returns with the connection open when its input runs out before an end frame. The source, reading from a socket, would keep waiting.
- `getType()` returns a byte but is compared with enum constants. The model compares codes. Where `InverseBitAleatoire` passes that byte to the constructor, the model passes the type the byte names.
- `calculerCRC` is read as `calculateCrc`, and `getDonne` as a read of the `donne` field.
- Reply frames in the receiver's outcome are `(type, number)` values. `Receiving.Handle` and `Receiving.MakeReply` state that the frames behind them have empty data and a correct checksum.
- The sender's log of frames written records type, number and data. The checksum that goes with them is the one the `Trame` constructor fixes, as `Frames.Trame.constructor` states.
- The Java `byte` counters are modelled as `bv8`, which has the same 256 bit patterns. The receiver's counter stays in 0..7 (`Receiving.RunCounterInRange`). The sender's counter stays in 0..8 while lines are sent and reaches 9 only through the `frameNum++` after an end frame numbered 8 (`Sending.SessionCounter`).
- `Frames.NextNum` reads the counter byte as unsigned. It equals Java's signed evaluation on 0..7, the only values the counter holds; `Frames.NextNumSignedByte` shows where the two part.
- As written, neither fault injector takes part in a run. The test's receiver overrides `recoitTrame`, but `start` reads through `hdlc.receiveTrame()`, so the override is never called. `PerteTrame` is never called at all. The model states what the receiver would do with their results.
- The types C and P are never sent by this code. They are modelled as codes and handled by the receiver like information frames.

## Findings

| source | as written | input that shows it | evidently intended | confidence | as-written member | corrected member |
|---|---|---|---|---|---|---|
| src/Test.java:96 | After flipping a data bit, `InverseBitAleatoire` builds a new frame over the flipped array. The constructor recomputes the checksum, so the receiver's check passes and the frame is ACKed. The injected error is never detected. | any frame of type I with non-empty data and the number the receiver expects, with any byte and bit index | the bit error should reach the receiver with the old checksum, so that `checkTrame` fails and the frame is answered with a REJ | high; not executed | `FaultInjection.FlippedFrameAccepted` (on what `FaultInjection.InverseBitAleatoire` returns) | `FaultInjection.InjectBitError`, with `FaultInjection.CorruptedFrameRejected` |
