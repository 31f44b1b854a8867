# u3-tool: a verified model

u3-tool manages U3 USB sticks: it writes an image to their CD partition, divides the stick
between CD and data partition, and secures the data partition with a password. This project
models the parts of it that compute or keep state, in the form the C code has (classes with
mutable fields, byte arrays patched in place, loops), and proves each of them against a
specification.

- **The digest** (`Rfc1321`, `Rfc1321Vector`, `Rfc2104`, `WideWords`, `Md5Process`, `Md5Counter`, `UnsignedLong`,
  `Md5`, `Md5Streams`). `Rfc1321` states the message digest of RFC 1321 as a table-driven function
  on 32-bit words; `Rfc2104` states HMAC. `Md5.Context` is the C context: counters with a
  hand-written carry, a buffer that is filled and flushed, 64-bit state words that are never
  masked. It is proved that every chunking of every message gives the RFC's digest.
- **The device and the commands** (`U3Device`, `U3Commands`, `U3Property`, `U3Partition`,
  `U3Security`, `CdLoad`, `Progress`). `U3Device` is the device as `doc/commands.txt` describes it,
  behind a link on which any command may be refused, lost, or executed without an answer. The
  procedures are methods that patch command blocks and exchange them with it; each method is
  proved equal to a function from states to states, and the theorems are about these functions.
- **The transport and the error text** (`UsbTransport`, `ErrorChain`).

`Arithmetic` and `Bytes` hold division facts and the little-endian encoding.

## What holds, and what does not

Where the code departs from what its documentation or a standard promises, the model follows the
code, and the exact condition is proved:

- HMAC keys of more than 64 bytes are cut, not hashed: `Md5Streams.KeyBlockAgrees`,
  `Md5Streams.KeyBlockDiffers`.
- A data-out packet that is only partly accepted counts as sent. A command that is not reported as
  failed has brought the device exactly its data if and only if every write took its whole packet:
  `UsbTransport.SendCmd`; a run that reports success and loses a byte: `UsbTransport.ShortWriteLosesData`.
- The retry gate compares with 0 and 1 only, so a counter beyond the limit passes it:
  `U3Security.GateOnBlocked`. For a counter within the limit, which every run keeps, the gate is
  exact: `U3Security.GateSound`, `U3Security.RunsAreGated`.
- `get_tries_left` does not check the length of property page 0x0C. The limit it goes by is independent of
  the contents of the stack if and only if the page reaches to the end of the field, in fact and by what it
  declares (or makes the read fail): `U3Security.LimitFromPage`, `U3Security.ShortPageReadsStack`.
- `u3_partition` compares the length that page 0x03 declares, not what the device sent. The device size it
  goes by is independent of the stack if and only if the page is as long as it declares:
  `U3Partition.SizeFromPage`.
- A load checks sectors and writes blocks of four, so it stays inside the CD partition for every
  accepted image only if that is a multiple of four sectors; it overshoots by at most three:
  `CdLoad.StaysInside`, `CdLoad.Overshoot`.
- A load that is interrupted by a signal writes a prefix of the image and still returns success. A
  successful load is complete if and only if nobody asked to quit before its last block:
  `CdLoad.EndsAtAll`, `CdLoad.QuitAfter`, `CdLoad.InterruptedLoad`.
- The tool reads the CD size modulo 2^24 sectors. It admits every image that fits if and only if the
  partition is smaller than that: `CdLoad.AdmittedExactly`, `CdLoad.FittingAdmitted`.
- A partition size above 512 * (2^32 - 1) bytes wraps: `U3Partition.SectorsCover`,
  `U3Partition.SectorsOverflow`.
- The reset of the security succeeds, on a reliable link, if and only if the device allows a try after
  securing and rounding leaves the size of the data partition alone; otherwise the device stays secured:
  `U3Security.ResetReaches`, `U3Security.ResetLeavesSecured`.

## Assumptions

- `unsigned long` has 64 bits and the machine is little-endian (`src/u3_commands.c` refuses others).
- The image is a regular file that does not change while it is read; a read is short only at its
  end or at an error, which may come at any offset.
- The device executes a command completely or not at all. Securing (0xA2) is always possible
  (`src/main.c:389-392`) and leaves the zone unlocked (`doc/commands.txt:239`); removing the security of a
  part of the partition fails without counting (`doc/commands.txt:414-417`), and otherwise sets the lock
  flag to unlocked, which has no meaning without a zone (`src/main.c:467-478`); a blocked device does not
  look at passwords. Whether a right password clears the counter of wrong ones, whether securing does, the
  rounding, the property pages and the limit are parameters.
- What `confirm()` answers, the flag that a signal sets, the contents of uninitialized structs, the
  success of `stat`, `fopen` and `strdup`, and the result of every transfer are parameters. In batch
  mode `confirm()` answers yes.

## Model

| member | source | states |
|---|---|---|
| Rfc1321.PadLength | src/md5.c:263-264 | RFC 1321, 3.1: the padding has 1 to 64 bytes and reaches 56 modulo 64 |
| Rfc1321.Pad | src/md5.c:256-267 | the padded message is a whole number of 64-byte blocks |
| Rfc1321.InitBytes | src/md5.c:66-69 | the initial registers are the sixteen bytes that RFC 1321, 3.3 lists |
| Rfc1321.DecodeBytes | src/md5.c:76-91 | every word of a block is made of its own four bytes, in order |
| Rfc1321Vector.Alphabet | src/md5.c:392-398 | MD5 of the letters a to z is c3fcd3d76192e4007dfb496cca67e13b, as RFC 1321, A.5 states, as a consequence of the definitions |
| WideWords.LowF | src/md5.c:105 | the rewritten F on wide words has the textbook F of the low halves in its low half |
| WideWords.LowG | src/md5.c:126 | the same for the rewritten G |
| WideWords.LowH | src/md5.c:147 | the same for H |
| WideWords.LowI | src/md5.c:168 | the same for I, whose complement sets the high half |
| WideWords.LowMacroS | src/md5.c:93 | S, which masks one side only, rotates the low half whatever the high half holds |
| WideWords.LowAdd | src/md5.c:189-192 | an addition that is never masked is addition modulo 2^32 on the low halves |
| WideWords.LowMacroP | src/md5.c:95-98 | one macro P is one operation of RFC 1321, 3.4 on the low halves |
| WideWords.LowGet | src/md5.c:38-45 | GET_UINT32_LE decodes a word low-order byte first |
| WideWords.PutIsEncode | src/md5.c:48-55 | PUT_UINT32_LE encodes the low half, whatever the high half holds |
| WideWords.GetPut | src/md5.c:38-56 | GET after PUT gives a word back modulo 2^32 |
| WideWords.PutGet | src/md5.c:38-56 | PUT after GET gives the four bytes back |
| Md5Process.ScheduleListed1 | src/md5.c:107-122 | the literal word order, rotations and constants of round 1 are those of the RFC's formulas and table |
| Md5Process.ScheduleListed2 | src/md5.c:128-143 | the same for round 2: word (1+5i) mod 16 |
| Md5Process.ScheduleListed3 | src/md5.c:149-164 | the same for round 3: word (5+3i) mod 16 |
| Md5Process.ScheduleListed4 | src/md5.c:170-185 | the same for round 4: word 7i mod 16 |
| Md5Process.PF | src/md5.c:95-105 | a step of round 1 takes the register run of the RFC one operation on, with the roles of the registers rotated |
| Md5Process.PG | src/md5.c:126 | the same for round 2 |
| Md5Process.PH | src/md5.c:147 | the same for round 3 |
| Md5Process.PI | src/md5.c:168 | the same for round 4 |
| Md5Process.Round1 | src/md5.c:107-122 | the 16 unrolled steps are operations 0 to 15 of the run |
| Md5Process.Round2 | src/md5.c:128-143 | operations 16 to 31 |
| Md5Process.Round3 | src/md5.c:149-164 | operations 32 to 47 |
| Md5Process.Round4 | src/md5.c:170-185 | operations 48 to 63 |
| Md5Process.ProcessWords | src/md5.c:100-192 | the 64 unrolled wide steps are the RFC's table-driven loop modulo 2^32, for every block and state |
| Md5Counter.LeftIsPending | src/md5.c:206 | the masked counter is the number of bytes that wait in the buffer |
| Md5Counter.CarryKeepsCount | src/md5.c:209-213 | the test total[0] < ilen fires exactly when the low word wrapped, and the carry keeps the count of all bytes |
| Md5Counter.PaddingIsLeast | src/md5.c:263-264 | padn is the padding length of the RFC, and no shorter one of at least a byte reaches 56 modulo 64 |
| Md5Counter.HighWord | src/md5.c:256-257 | the shifts and the or of the two counters give bits 32 to 63 of the length in bits |
| Md5Counter.LengthBytes | src/md5.c:256-261 | the eight bytes of low and high are 8n modulo 2^64, low-order byte first |
| UnsignedLong.AndMask | src/md5.c:206-210 | masking with k ones is the remainder modulo 2^k |
| UnsignedLong.OrDisjoint | src/md5.c:256-257 | or-ing into the bits that a left shift freed is addition |
| Md5.Context.Starts | src/md5.c:61-70 | a started context has consumed nothing |
| Md5.Context.Process | src/md5.c:72-193 | the state changes by exactly the RFC's compression of the 64 bytes |
| Md5.Context.Count | src/md5.c:206-213 | the counter counts ilen more, and left is what the buffer held |
| Md5.Context.Fill | src/md5.c:215-223 | the buffer is completed and absorbed only if the input suffices; nothing is lost |
| Md5.Context.NextBlock | src/md5.c:227-229 | one block of the input is absorbed |
| Md5.Context.Blocks | src/md5.c:225-230 | the loop absorbs all complete blocks of the input in order and terminates |
| Md5.Context.Keep | src/md5.c:232-236 | the rest of the input joins what the buffer holds |
| Md5.Context.Update | src/md5.c:198-237 | any update appends its bytes to the message and keeps the invariant: state is the fold over the complete blocks, buffer the tail, counter the length; a length of 0 or less does nothing |
| Md5.Context.LengthField | src/md5.c:256-261 | the length field is that of the message before padding |
| Md5.Context.Complete | src/md5.c:263-267 | the two updates append the padding and the length field |
| Md5.Context.Finish | src/md5.c:250-273 | the message becomes the RFC's padded message, and the output its digest; no other byte of the output changes |
| Md5.AbsorbBlock | src/md5.c:72-193 | absorbing one more block is one more compression |
| Md5.Md5 | src/md5.c:278-288 | the one-shot function gives the RFC 1321 digest of every input |
| Rfc2104.XorBits | src/md5.c:337-338 | exclusive or sets a bit exactly when one of the two has it, and applied twice gives the byte back |
| Rfc2104.XorTwice | src/md5.c:337-338 | the same for whole blocks |
| Rfc2104.PadDetermines | src/md5.c:330-339 | a pad determines the key block |
| Md5.XorInto | src/md5.c:337-338 | one byte of a pad changes, by exclusive or |
| Md5.XorKey | src/md5.c:330-339 | both pads become the key block xor ipad and opad; a key ends after 64 bytes |
| Md5.Context.HmacStarts | src/md5.c:325-343 | the pads are set and the message is the inner pad |
| Md5.Context.HmacUpdate | src/md5.c:348-352 | the text is appended, and the pads stay as they are |
| Md5.Context.HmacFinish | src/md5.c:357-368 | the output is H(opad ++ H(message)) |
| Md5.Context.Outer | src/md5.c:362-365 | the outer digest depends on the pad and the inner digest alone, whatever the inner hash left in state, counter and buffer |
| Md5.HmacOfPads | src/md5.c:357-368 | the nested digests over the pads are HMAC of the key block |
| Md5.HmacMd5 | src/md5.c:373-384 | the one-shot HMAC is that of RFC 2104 for the code's key block |
| Md5Streams.UpdateAll | src/md5.c:198-237 | any number of updates of any lengths, empty ones included, append the concatenation |
| Md5Streams.DigestOfChunks | src/md5.c:303-308 | streaming equals one-shot: the digest is the RFC's of the concatenation, for every chunking |
| Md5Streams.HmacOfChunks | src/md5.c:373-384 | the same for HMAC over every chunking of the text |
| Md5Streams.KeyBlockAgrees | src/md5.c:333-339 | the code's key block is that of RFC 2104 if and only if the key has at most 64 bytes or its digest, padded, is its own first block |
| Md5Streams.HmacOfShortKeys | src/md5.c:325-384 | for keys of at most 64 bytes the code computes HMAC of RFC 2104, section 2 |
| Md5Streams.HmacOfLongKeys | src/md5.c:333-339 | for longer keys it computes HMAC of the first 64 bytes |
| Md5Streams.KeyBlockDiffers | src/md5.c:335 | a key of 65 bytes whose key block in the code is not that of RFC 2104 |
| Bytes.LeRoundTrip | src/md5.c:48-55 | decoding a little-endian encoding in n bytes gives the number modulo 256^n |
| Bytes.LeValueRoundTrip | src/md5.c:38-45 | encoding a decoded sequence gives it back |
| Bytes.LeSplit | src/md5.c:260-261 | an encoding in n+m bytes is the low part followed by the high part |
| Bytes.PutLe32 | src/u3_commands.c:264 | a 32-bit store patches four bytes of an array and no others |
| Bytes.PutLe16 | src/u3_commands.c:104-105 | a 16-bit store patches two |
| ErrorChain.Handle.Strlen | src/u3_error.c:52 | finds the first terminator |
| ErrorChain.Handle.Strncat | src/u3_error.c:51-54 | appends what fits, and the buffer stays terminated |
| ErrorChain.Handle.SetError | src/u3_error.c:29-37 | the text becomes the first 1023 characters of the message |
| ErrorChain.Handle.PrependError | src/u3_error.c:39-57 | the text becomes the first 1023 characters of "message: old text", or stays when strdup fails |
| ErrorChain.ClipInStages | src/u3_error.c:47-54 | truncating at every stage is truncating once at the end, also when no room remains |
| ErrorChain.ClipMeans | src/u3_error.c:33-34 | texts of up to 1023 characters are kept, longer ones are cut there |
| ErrorChain.Report | src/u3_error.c:29-57 | after a set and any number of prepends the text is the first 1023 characters of "m_k: ... : m_0", and terminated |
| Progress.Display.Show | src/display_progress.c:22-46 | the exact output and the new static variable for all 32-bit arguments, wrapping products included |
| Progress.ScaledMeans | src/display_progress.c:29-33 | the product wraps at 2^32, and the quotient is rounded down |
| Progress.Figure | src/display_progress.c:29-33 | the computation of one figure gives it |
| Progress.BarLook | src/display_progress.c:32-40 | frame, stars from the left, blanks up to fifty columns |
| Progress.LineLook | src/display_progress.c:30-42 | nothing for the percentage shown last, and otherwise the bar followed by its percentage |
| Progress.BarWidth | src/display_progress.c:33-39 | for cur <= total the bar is exactly 50 columns, even if the product wraps |
| Progress.ScaledExact | src/display_progress.c:29-33 | while the product does not wrap, the figure is the true one and at most the scale |
| Progress.OnCourseNext | src/display_progress.c:29-45 | while total * 100 does not wrap, a call extends the true progress: the true percentage, at most 100, and exactly 50 columns, printed only when the percentage changes |
| Progress.OnCourseMeans | src/display_progress.c:22-46 | what such a course of calls says: the output, the value shown last, and that no call goes beyond the total |
| Progress.FullBar | src/display_progress.c:29 | the last call shows 100 if and only if total * 100 does not wrap |
| UsbTransport.WrapperLayout | src/u3_scsi_usb.c:316-327 | the packed wrapper has 31 bytes with every field at its offset in section 5.1 of Bulk-Only Transport 1.0, the logical unit 1 and zeros after the command included |
| UsbTransport.PhasesListed | src/u3_scsi_usb.c:329-382 | the transfers of the three kinds of commands, written out |
| UsbTransport.AllWellMeans | src/u3_scsi_usb.c:330-378 | that all went well means: 31 bytes of the wrapper went over and no later transfer reported an error |
| UsbTransport.PacketSizes | src/u3_scsi_usb.c:345-347 | ceil(len/2048) packets, all of 2048 bytes but the last |
| UsbTransport.ReturnedMeans | src/u3_scsi_usb.c:361-370 | the caller's buffer holds the bytes that arrived, and no others change |
| UsbTransport.StatusMeans | src/u3_scsi_usb.c:372-388 | in terms of the bytes that arrive, missing ones being 0: an error is a failure, another tag stops the program, otherwise byte 12 is the status |
| UsbTransport.WholeStatus | src/u3_scsi_usb.c:384-386 | for a whole status wrapper with the tag the status reported is its byte 12, whatever it is |
| UsbTransport.SendData | src/u3_scsi_usb.c:340-360 | the loop writes the packets in order and stops at the first that fails |
| UsbTransport.DataPhase | src/u3_scsi_usb.c:339-370 | the data phase in both directions, and none without data |
| UsbTransport.ReadStatus | src/u3_scsi_usb.c:372-388 | failure, the failed assertion on the tag, or the status byte, as the 13 bytes read decide |
| UsbTransport.SendPhases | src/u3_scsi_usb.c:316-370 | wrapper and data phase in order, ending with the first transfer that fails |
| UsbTransport.AllPhases | src/u3_scsi_usb.c:291-389 | the transfers are wrapper, data packets, status, in order; no phase follows a failed one; success means that all went well and the status was read last |
| UsbTransport.SendCmd | src/u3_scsi_usb.c:291-389 | the same; the outcome in terms of the bytes of the status wrapper; and, unless it reports failure, the device has taken exactly the data given if and only if every write result reached the length of its packet |
| UsbTransport.PacketsCarryData | src/u3_scsi_usb.c:341-360 | the ceil(len/2048) packets have 1 to 2048 bytes and concatenate to exactly the data |
| UsbTransport.WholeWritesNeeded | src/u3_scsi_usb.c:349-359 | the same for the trace of a command that went through all its phases: what the bus delivered under its results is the data if and only if no result is short of its packet |
| UsbTransport.WholeMeans | src/u3_scsi_usb.c:349-359 | that the writes were whole means: no result is short of its packet |
| UsbTransport.ShortWriteLosesData | src/u3_scsi_usb.c:349-388 | a run on a bus with the results 31, 1, 13: the command reports success with status 0, and of two bytes the device has taken one |
| U3Device.Handle.SendCmd | src/u3_scsi.h:68-91 | one exchange with the device: what is sent, what comes back, and what the buffer then holds |
| U3Device.LiteralBlocks | doc/commands.txt:95-487 | the command block of every command without a number in it, byte for byte, and the data of the reset |
| U3Device.NumberedBlocks | doc/commands.txt:10-345 | where page, length, size, direction, block number and zone stand in the bytes, and in which order of bytes |
| U3Device.ReadsBack | doc/commands.txt:4-487 | the device reads every command back from its bytes |
| U3Device.Handle.Send | src/u3_scsi.h:68-91 | the exchange for a command given by exactly its bytes |
| U3Commands.Widen | src/u3_commands.c:59-65 | the loop leaves every character followed by a zero, and the terminator |
| U3Commands.WideInjective | doc/commands.txt:282-284 | different passwords are hashed as different byte strings |
| U3Commands.PassToHash | src/u3_commands.c:54-72 | the 16 bytes written are the RFC 1321 digest of the widened password, and no others change |
| U3Commands.HtonlBytes | src/u3_commands.c:236 | the block number goes out high-order byte first |
| U3Commands.CdWrite | src/u3_commands.c:220-250 | one write of the given block at the given number; the caller's buffer stays |
| U3Commands.ParsePatched | src/u3_commands.c:257-265 | the command block patched in place is the one of the rounding request for this size and direction |
| U3Commands.SectorRound | src/u3_commands.c:253-313 | the size becomes the device's rounded value, and stays on failure |
| U3Commands.RoundMeans | src/u3_commands.c:253-313 | a success gives the device's own rounding, a failure leaves the size, and on a reliable link it succeeds |
| U3Commands.DataPartitionInfo | src/u3_commands.c:348-369 | success means that the struct holds the device's four fields |
| U3Commands.AskMeans | src/u3_commands.c:517-530 | the two results of a password command: that it was carried through, and that its status was 0 |
| U3Commands.Unlock | src/u3_commands.c:506-531 | one exchange of the unlock command with the password's hash; result tells whether it was accepted |
| U3Commands.DisableSecurity | src/u3_commands.c:477-504 | the same for removing security |
| U3Commands.ChangePassword | src/u3_commands.c:533-561 | the same for changing the password, old hash before new hash |
| U3Commands.ResetDevice | src/u3_commands.c:394-415 | one exchange of the reset command |
| U3Property.DeclaredBytes | src/u3_commands.h:35-39 | the length of a page is at bytes 4 and 5, low-order byte first |
| U3Property.ReadDeviceProperty | src/u3_commands.c:76-146 | the two-phase read on buffers and command blocks is the function that the next lemmas are about |
| U3Property.TransfersFit | src/u3_commands.c:101-137 | at most two commands are issued, executed or not, none for more than the buffer holds, and the device is unchanged |
| U3Property.PropertyContents | src/u3_commands.h:98-106 | success means exactly the announced bytes of the page that fit, the rest of the buffer untouched, and an announced length of at least 6 |
| U3Property.PropertyBytes | src/u3_commands.c:101-137 | the same for a page of any length, one shorter than a header included, whose announced length then comes from the buffer |
| U3Property.PropertySucceeds | src/u3_commands.h:98-107 | on a reliable link it succeeds if and only if buffer and announced length are at least 6 |
| U3Property.MissingPageFails | src/u3_commands.h:106-107 | a page that does not exist cannot be read |
| U3Partition.SizeBytes | src/u3_commands.h:45-72 | the bytes that hold the device size, the data size and the CD size |
| U3Partition.PartitionInfo | src/u3_commands.c:315-346 | the 9-byte read and, for two partitions, the 16-byte read |
| U3Partition.InfoBounded | src/u3_commands.c:322-338 | whatever the device answers, the CD size reported is below 2^24 |
| U3Partition.InfoSucceeds | src/u3_commands.c:315-346 | on a reliable link it succeeds |
| U3Partition.RecordBytes | src/u3_commands.c:191-204 | the 17 bytes of the record for one partition and for two: the count, both constants, and both sizes |
| U3Partition.StoreRecord | src/u3_commands.c:191-204 | the packed 17 bytes of the record |
| U3Partition.DivideDevice | src/u3_commands.c:179-217 | the steps from the comparison with the device size on |
| U3Partition.PartitionDevice | src/u3_commands.c:148-218 | the whole procedure, with the record that it sends if it gets so far |
| U3Partition.PartitionEffect | src/u3_commands.c:148-218 | no path that fails before the repartition command changes the device; the command is issued at most once; success means the record was stored |
| U3Partition.PartitionExact | src/u3_commands.c:158-204 | whenever a record is sent, its CD size is 0 or the request rounded up, and its data size is all that is left of the device size read, rounded down |
| U3Partition.PartitionSucceeds | src/u3_commands.c:148-218 | on a reliable link repartitioning succeeds if and only if page 0x03 declares its length and the rounded CD fits |
| U3Partition.PageIsSeen | src/u3_commands.c:166-178 | when the length check passes the struct holds the page as far as that goes, and the stack beyond |
| U3Partition.SizeFromPage | src/u3_commands.c:166-184 | the device size read is independent of the stack if and only if the page is as long as it declares |
| U3Partition.PartitionConserves | src/u3_commands.c:158-204 | whenever the command is issued: cd_size covers the request, and cd_size + data_size <= the device size that was read, without a wrap; it is the device's own for a page of full length |
| U3Partition.InfoReports | src/u3_commands.c:315-346 | reading a stored record gives its count and data size, and its CD size modulo 2^24 |
| U3Partition.PartitionRoundTrip | src/u3_commands.c:148-346 | partition info after a successful repartition reports the record that was sent, the one-partition case included, and succeeds on a reliable link |
| U3Partition.SectorsCover | src/main.c:249-252 | the sectors cover the bytes if and only if the request is at most 512 * (2^32 - 1) |
| U3Partition.SectorsLeast | src/main.c:249-252 | and they are the least that do; none exactly when nothing is requested |
| U3Partition.SectorsOverflow | src/main.c:250 | a request of 2^41 bytes becomes no CD at all |
| U3Partition.DoPartition | src/main.c:244-267 | repartition, then reset, and success only if both succeed |
| U3Partition.PartitionActionCovers | src/main.c:244-258 | a successful repartition stores a record whose CD holds at least the bytes asked for, leaves no blocks on the CD, and both partitions fit in the device size that was read |
| U3Security.DifferenceExact | src/main.c:150 | the uint32-to-int difference is 0 or 1 exactly when it should be, for all 32-bit values |
| U3Security.LimitPage | src/main.c:140-142 | the limit is read from page 0x0C, in 10 bytes |
| U3Security.FieldBytes | src/u3_commands.h:58-82 | the bytes that hold the limit, the sizes, the lock flag and the counter |
| U3Security.GetTriesLeft | src/main.c:128-153 | the procedure on buffers is the function that the next lemmas are about |
| U3Security.TriesLeftValue | src/main.c:128-153 | what the gate compares, and that finding it out changes nothing |
| U3Security.PassGate | src/main.c:273-286 | the checks that the three password actions share |
| U3Security.DoUnlock | src/main.c:269-301 | the unlock command is issued exactly behind the gate |
| U3Security.DoChangePassword | src/main.c:303-339 | the same for changing the password |
| U3Security.DoDisableSecurity | src/main.c:351-384 | the same for removing security |
| U3Security.GateAsksOnly | src/main.c:128-153 | up to the gate the device is asked for its counter and its limit only |
| U3Security.GuardedIssues | src/main.c:269-384 | the command is issued if and only if the gate opens, and is then the last one issued; otherwise the device is unchanged |
| U3Security.GateSound | src/main.c:273-286 | the gate opens only on a device that is not blocked, on its last try only after confirmation, and on a reliable link exactly then |
| U3Security.GateOnBlocked | src/main.c:278-281 | a blocked device's command passes the gate if and only if its counter is beyond the limit |
| U3Security.LimitFromPage | src/main.c:140-150 | for a page of any length, what get_tries_left gives is independent of the stack if and only if the page reaches to the end of the limit, in fact and by what it declares, or makes the read fail |
| U3Security.ShortPageReadsStack | src/main.c:140-150 | every page with a header that stops short of that: the limit is its own bytes as far as they go, then the stack |
| U3Security.PerformSafe | src/main.c:269-412 | one run keeps the counter within its limit and blocks a device only by a confirmed last try |
| U3Security.NeverBlocksUnconfirmed | src/main.c:269-412 | no sequence of runs without a confirmation ever blocks the device, whatever the link does |
| U3Security.GuardedSuccess | src/main.c:288-301 | an action that reports success had the right password, and has unlocked the device, set the new password, or removed the zone |
| U3Security.UnlockSucceeds | src/main.c:269-301 | on a reliable link unlocking succeeds if and only if the password is right, the device is not blocked, and the last try was agreed to |
| U3Security.DisableSucceeds | src/main.c:351-384 | on a reliable link removing security succeeds if and only if moreover the zone is the whole partition |
| U3Security.ChangeSucceeds | src/main.c:303-339 | on a reliable link changing the password succeeds if and only if the old one is right, the device is not blocked, and the last try was agreed to |
| U3Security.NewPasswordUnlocks | src/main.c:303-339 | after a successful change the new password unlocks |
| U3Security.RunsAreGated | src/main.c:269-412 | in every sequence of runs no action with a password issues its command to a blocked device, nor on the last try without confirmation; the ungated command of a reset goes out with the device's own password, and finds the device blocked only if securing left the counter at the limit |
| U3Security.AlwaysGatedMeans | src/main.c:269-412 | that all runs are gated means: each is, in the state that the ones before it lead to |
| U3Security.GatedMeans | src/main.c:273-286 | and that one is: its counter is below the limit, and one below it only with agreement |
| U3Security.PerformMeans | src/main.c:269-412 | what one run does, and that a sequence does one after the other |
| U3Security.EnableSecurity | src/u3_commands.c:424-475 | securing the whole rounded data partition with the password's hash |
| U3Security.DoResetSecurity | src/main.c:386-412 | securing with the fixed password, then removing security with the same |
| U3Security.EnableReaches | src/u3_commands.c:424-475 | from every device state securing succeeds on a reliable link and sets hash and zone; the counter is cleared or kept as the device does |
| U3Security.EnableExact | src/u3_commands.c:437-474 | whatever the link does, the securing command goes out for exactly the rounded partition and the password's hash, and only it changes the device |
| U3Security.ResetSuccess | src/main.c:405-407 | a reset that reports success left the device unsecured and unlocked, whatever the link did |
| U3Security.ResetReaches | src/main.c:386-412 | from every device state the reset succeeds if and only if a try is allowed after securing and rounding leaves the partition's size alone; so for a blocked device only if securing clears the counter |
| U3Security.ResetLeavesSecured | src/main.c:399-410 | otherwise the device stays secured over the rounded zone with the fixed password, a zone that is not the partition's size if a try was allowed |
| CdLoad.File.Fread | src/main.c:210 | fread on a regular file: short only at the end or at an error |
| CdLoad.NextBlock | src/main.c:210-225 | one pass up to the write: the next zero-padded block, or none at the end |
| CdLoad.WriteStep | src/main.c:227-233 | one write extends the blocks on the device by the next one or leaves them |
| CdLoad.LoadedBlocks | src/main.c:227-233 | after k writes the first k blocks of the CD are those of the zero-padded image, and the others as before |
| CdLoad.BlockBytes | src/main.c:210-227 | every byte of every block: the image's, or zero after its end |
| CdLoad.BlocksCover | src/main.c:180-182 | the blocks reach to the end of the image, and none begins after it |
| CdLoad.ImageOnCd | src/main.c:205-241 | when the first k blocks are on the CD, byte p of the image is at place p modulo 2048 of block p / 2048, and zeros follow the image |
| CdLoad.WholeImageOnCd | src/main.c:205-241 | after all blocks every byte of the image is there |
| CdLoad.ProgressedWrites | src/main.c:205-233 | the commands executed are the writes of the first k blocks, each once and in order |
| CdLoad.ProgressedKeeps | src/main.c:205-233 | nothing else on the device changes |
| CdLoad.Pass | src/main.c:208-233 | one pass ends after the next block, at the end of the file without one, or with a failure; the bar shows the true progress |
| CdLoad.Turn | src/main.c:208-234 | one pass and the loop condition: it goes on only before the end and when nobody asked to quit |
| CdLoad.WriteImage | src/main.c:205-241 | on every exit the blocks written are the first k, each once and in order, equal to those of the zero-padded file; on success k is the number of blocks, or the first at which the user asked to quit; on a reliable link and a readable file it succeeds; the loop terminates |
| CdLoad.DoLoad | src/main.c:157-242 | the same for the whole action, with nothing written when a check fails; on every exit the CD holds, byte for byte, the first k blocks of the image; every write starts inside the partition and overshoots it by at most three sectors, by none if its size is a multiple of four; what the bar has printed is the true progress |
| CdLoad.WritesInsideMeans | src/main.c:177-233 | the bounds on the writes, spelled out |
| CdLoad.EndsAtAll | src/main.c:234 | a successful load is complete if and only if nobody asked to quit before its last block |
| CdLoad.QuitAfter | src/main.c:234-241 | for every image that would load: when the signal comes after j blocks, exactly these are written and success is reported |
| CdLoad.InterruptedLoad | src/main.c:234-241 | such a run on an image of two blocks: success, with the second missing on the CD |
| CdLoad.AdmittedExactly | src/main.c:177-197 | on a reliable link an image is admitted if and only if it fits in the CD size modulo 2^24 sectors |
| CdLoad.FittingAdmitted | src/main.c:184-197 | every image that fits is admitted if and only if the CD partition has less than 2^24 sectors |
| CdLoad.AcceptedBounds | src/main.c:177-197 | an accepted image has at most 2^22 blocks, so that nothing wraps |
| CdLoad.StaysInside | src/main.c:177-233 | every accepted image stays inside the CD partition if and only if that is a multiple of four sectors |
| CdLoad.Overshoot | src/main.c:177-233 | otherwise the writes overshoot it by at most three sectors |
| CdLoad.LoadProgress | src/display_progress.c:29-39 | for an accepted image every call of the bar has the true percentage, at most 100, and exactly 50 columns |

## Left out

- `md5_file` and `md5_self_test`: file input and finite checks; chunked reading is covered by `Md5Streams.DigestOfChunks`, and one vector of RFC 1321 is proved to tie the constants to the standard.
- The derivation of the table T from the sine function: the 64 constants are taken as the RFC lists them (`Rfc1321Vector.Alphabet` depends on each of them).
- Platforms on which `unsigned long` has 32 bits: the digest is modelled with 64, where nothing is masked and the proof is harder.
- `src/u3_scsi_sg.c`, `src/u3_scsi_spt.c`, `src/u3_scsi_debug.c`, and opening, closing and locating a device: calls into the operating system and libusb.
- Timeouts, `sleep`, and devices that are unplugged halfway, beyond what a failed transfer says.
- `secure_input.c`, the dialogue in `confirm`, `usage`, `do_info`, `do_dump` and option parsing: terminal input and output.
- `strtoll` in `do_partition`: the size is taken as the 64-bit number it gives.
- `print_human_size` (floating point) and `u3_chip_info` (one read, nothing computed).
- Overwriting secrets in memory, and failing allocations other than that of `strdup`.
- The expansion of format strings: messages are taken as expanded; the texts that the command layer sets on failure are not part of the commands' contracts.
- The cryptographic strength of the digest: it is a function, and different passwords may collide.
- Integers whose bits matter are bit vectors; counters and sizes are natural numbers with the wrap written out.
- The size of the data partition that the device reports after it was repartitioned or reset: doc/commands.txt does not say how it is computed.
- `md5_update`, `md5_finish`, `u3_send_cmd` and the load loop are cut into several methods at the boundaries of their statements.
- KeyBlockDiffers: does not show that the two authentication codes differ, which is a fact about particular values of the digest.
- UsbTransport.SendCmd: the device handle's error text is not part of it, and the handle of the command layer, `U3Device.Handle.SendCmd`, is an abstract step of the device, not this one.
- CdLoad.WriteImage: the signal flag is read once per block, as a function of the blocks written so far.
- U3Security.ResetSuccess: the lock flag of an unsecured partition is an assumption on the device, whose documentation shows both values.
