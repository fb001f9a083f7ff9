# GuliKit APG macro files, in Dafny

This project models the core of GuliKit APG, a Kotlin library that writes and reads the macro files
a GuliKit controller replays. An APG file is exactly 65536 control words of 16 bytes each, with no
header. Each word holds one tick of controller state:

- four joystick axes, each two bytes, little-endian, with a +2048 bias (bytes 0-7);
- two linear triggers (bytes 9 and 11);
- fourteen button bits in bytes 12 and 13;
- the D-pad code in the low nibble of byte 14;
- the terminator 0x02 in byte 15.

A padding word is sixteen 0xFF bytes.

The modules follow the source files:

| module | file | what it holds |
|---|---|---|
| `Bytes` | bytes.dfy | Kotlin's `toByte()` on 0..255 (`ToByte`, `LowByte`), and small bit-vector facts the other proofs use |
| `EndianUtils` | endian_utils.dfy | `readUShortLE` and `writeUShortLE` as methods over `array<bv8>`, specified by `UShortLE` and `WithUShortLE`; the test vectors of EndianUtilsKtTest.kt |
| `DPads` | dpad.dfy | the `DPad` enum, its codes, `values()`, and `first { … }` as `FirstWithCode` |
| `ControlWords` | control_word.dfy | the record layout as pure functions over `seq<bv8>`, lemmas about it, and the class `ControlWord` |
| `ApgFiles` | apg_file.dfy | the class `APGFile`, which owns 65536 `ControlWord` objects and a cursor; the file layout as functions over `seq<seq<bv8>>`, and lemmas |
| `Streams` | streams.dfy | stand-ins for `java.io.InputStream` and `OutputStream`: a byte sequence with a read position, and an appended byte sequence |
| `Outcomes` | outcomes.dfy | `Outcome`, `Result` and `Option`, and the `Failure` values that replace the exceptions |

### How the model is built

Every Kotlin setter mutates the word's 16-byte `buffer` in place, so `ControlWord` is a class with
a `buffer: array<bv8>`. Each method states the new `buffer[..]` as a function of the old one. The
pure functions (`WithAxis`, `WithButton`, `WithDirection`, `WithTrigger`, …) carry the lemmas:
round trips, frames, and the fields of the padding and reset words.

`APGFile` owns an array of 65536 distinct words with distinct buffers. Its ghost `Words()` view
gives every buffer's bytes, in index order. `Flatten`, `Finished` and `ReadWordsFrom` specify
`writeTo`, `finish` and `readFrom` over that view.

Exceptions become values:

- a failed `require` in a setter is `RangeError`;
- a short read in `readFrom` is `FormatError`;
- `setControlWord` past the end is `CapacityError`;
- `get` outside the array is `IndexError`;
- the `NoSuchElementException` of the `dPad` getter is `None`.

A setter that throws leaves the bytes as they were, because every `require` runs before the first
write. That is what `Commit` states.

A `setControlWord` block is a Kotlin lambda. Here it is a sequence of `FieldUpdate`s, applied in
order by `ApplyUpdates` and stopped at the first one that throws.

### Where the code and its documentation disagree

This model follows the code as written:

- **Trigger setters.** The `zlLinear` and `zrLinear` setters call `mapJoystickWrite`, not
  `mapTriggerLinearWrite`. So they accept -2048..2047 rather than 0..255, and they write two bytes.
  Writing ZR sets byte 12, the first button byte. See "## Findings".
- **D-pad setter.** It assigns the whole of byte 14. It does not clear and refill the low nibble,
  so the high nibble always ends up zero.
- **Fresh words.** A new `ControlWord` is sixteen zero bytes. It has no terminator and is not
  padding, and its joysticks read -2048. It is not yet in the active state.
- **Capacity.** `setControlWord` increments `pointer` before it indexes the array. A call at
  capacity therefore moves the cursor and then fails.
- **D-pad decode errors.** An undefined D-pad nibble (9..14) is only an error when the getter is
  called. `readFrom` itself accepts any bytes.

## Model

| member | source | states |
|---|---|---|
| EndianUtils.ReadUShortLE | src/main/kotlin/info/skyblond/gulikit/apg/EndianUtils.kt:3-10 | the result is `a[offset] + 256 * a[offset + 1]`, both bytes taken unsigned, which is `UShortLE` of the array |
| EndianUtils.WriteUShortLE | src/main/kotlin/info/skyblond/gulikit/apg/EndianUtils.kt:12-18 | the array becomes `WithUShortLE` of its old contents |
| EndianUtils.WithUShortLE | src/main/kotlin/info/skyblond/gulikit/apg/EndianUtils.kt:12-18 | after storing `v` at `offset`, reading there gives `v` back; every other index is unchanged and the length is kept |
| EndianUtils.StoresBytes | src/main/kotlin/info/skyblond/gulikit/apg/EndianUtils.kt:14-17 | the two stored bytes are exactly `v and 0xFF` and `(v shr 8) and 0xFF` |
| EndianUtils.TestVectorsRead | src/test/kotlin/info/skyblond/gulikit/apg/EndianUtilsKtTest.kt:9-27 | the test buffer holds 0x0800, 0x0FF0, 0x1234 and 0x00FF at offsets 0, 2, 5 and 7 |
| EndianUtils.TestVectorsWrite | src/test/kotlin/info/skyblond/gulikit/apg/EndianUtilsKtTest.kt:22-29 | writing those four values into nine zero bytes gives the test buffer, with padding byte 4 still zero |
| DPads.ValuesEnumerateDirections | src/main/kotlin/info/skyblond/gulikit/apg/DPad.kt:3-14 | `values()` lists all ten directions; entry `i` has code `i` for `i < 9`, and the last has 15 |
| DPads.CodeInjective | src/main/kotlin/info/skyblond/gulikit/apg/DPad.kt:4-13 | two directions have the same code exactly when they are the same direction |
| DPads.CodeFitsNibble | src/main/kotlin/info/skyblond/gulikit/apg/DPad.kt:4-13 | every code is in 0..8 or 15; as a byte it is unchanged by `and 0x0F` and has a clear high nibble |
| DPads.FirstWithCode | src/main/kotlin/info/skyblond/gulikit/apg/ControlWord.kt:239 | `first` returns an entry of the list that carries the code; it finds nothing exactly when no entry carries it |
| DPads.FirstWithCodeAt | src/main/kotlin/info/skyblond/gulikit/apg/ControlWord.kt:239 | `first` returns the entry at the earliest index carrying the code |
| DPads.FirstWithCodeNone | src/main/kotlin/info/skyblond/gulikit/apg/ControlWord.kt:239 | `first` finds nothing when no index carries the code |
| DPads.DecodeCode | src/main/kotlin/info/skyblond/gulikit/apg/DPad.kt:3-14 | looking a direction's code up in `values()` gives that direction back |
| DPads.DecodeDefined | src/main/kotlin/info/skyblond/gulikit/apg/DPad.kt:4-13 | the lookup succeeds exactly on 0..8 and 15, and the entry found carries the code looked up |
| ControlWords.JoystickRead | src/main/kotlin/info/skyblond/gulikit/apg/ControlWord.kt:49-51 | an axis reads in -2048..63487: the raw unsigned value minus the bias |
| ControlWords.JoystickWrite | src/main/kotlin/info/skyblond/gulikit/apg/ControlWord.kt:53-55 | succeeds exactly on -2048..2047 and otherwise fails with RangeError; on success it stores `value + 2048` little-endian, reads back `value`, and changes no other byte |
| ControlWords.TriggerLinearRead | src/main/kotlin/info/skyblond/gulikit/apg/ControlWord.kt:57-59 | a trigger reads in 0..255 |
| ControlWords.TriggerLinearWrite | src/main/kotlin/info/skyblond/gulikit/apg/ControlWord.kt:61-64 | succeeds exactly on 0..255 and otherwise fails with RangeError |
| ControlWords.ButtonWrite | src/main/kotlin/info/skyblond/gulikit/apg/ControlWord.kt:69-74 | afterwards the mask reads as the value written; no other byte changes |
| ControlWords.MaskWriteKeeps | src/main/kotlin/info/skyblond/gulikit/apg/ControlWord.kt:69-74 | a mask write keeps the bits of any disjoint mask in the same byte, so every other bit of that byte is unchanged |
| ControlWords.DPadNibble | src/main/kotlin/info/skyblond/gulikit/apg/ControlWord.kt:239 | the value the getter compares, `buffer[14] and 0x0F`, is in 0..15 |
| ControlWords.BufferAfterRead | src/main/kotlin/info/skyblond/gulikit/apg/ControlWord.kt:275-278 | after a read, buffer byte `j` is source byte `j` if the source had one, and otherwise the old byte |
| ControlWords.ApplyUpdate | src/main/kotlin/info/skyblond/gulikit/apg/APGFile.kt:23 | one assignment in a block keeps the record at 16 bytes |
| ControlWords.ApplyUpdates | src/main/kotlin/info/skyblond/gulikit/apg/APGFile.kt:23 | a block keeps the record at 16 bytes, and the only way it can fail is RangeError |
| ControlWords.ApplyUpdatesConcat | src/main/kotlin/info/skyblond/gulikit/apg/APGFile.kt:23 | running `us + vs` runs `us` first, then runs `vs` on its result only if `us` passed |
| ControlWords.JoystickRoundTrip | src/main/kotlin/info/skyblond/gulikit/apg/ControlWord.kt:82-111 | setting an axis to a value in range reads back that value and leaves the other three axes unchanged |
| ControlWords.ButtonRoundTrip | src/main/kotlin/info/skyblond/gulikit/apg/ControlWord.kt:132-236 | setting a button reads back the value set; all thirteen other buttons keep their state |
| ControlWords.ButtonFrame | src/main/kotlin/info/skyblond/gulikit/apg/ControlWord.kt:132-236 | writing button `b` leaves every other button `c` as it was |
| ControlWords.ButtonMasksDisjoint | src/main/kotlin/info/skyblond/gulikit/apg/ControlWord.kt:21-37 | two different buttons in the same byte have masks with no common bit |
| ControlWords.DPadRoundTrip | src/main/kotlin/info/skyblond/gulikit/apg/ControlWord.kt:238-242 | setting a direction reads it back, clears the high nibble of byte 14, and changes no other byte |
| ControlWords.DPadUndefinedNibbles | src/main/kotlin/info/skyblond/gulikit/apg/ControlWord.kt:239 | the getter fails exactly when the low nibble of byte 14 is in 9..14; otherwise the direction's code is that nibble |
| ControlWords.ButtonKeepsDirection | src/main/kotlin/info/skyblond/gulikit/apg/ControlWord.kt:238-242 | setting a direction and then any button keeps the direction, and the button reads as set |
| ControlWords.PaddingWordFields | src/main/kotlin/info/skyblond/gulikit/apg/ControlWord.kt:251-254 | the all-0xFF word is 16 bytes long, `isPadding()` holds for it, and its D-pad reads PADDING |
| ControlWords.ActiveIsNotPadding | src/main/kotlin/info/skyblond/gulikit/apg/ControlWord.kt:268 | a word whose byte 15 is 0x02 is never padding |
| ControlWords.ResetWordFields | src/main/kotlin/info/skyblond/gulikit/apg/ControlWord.kt:255-265 | the reset word has the terminator and is not padding; all axes read 0, both triggers 0, no button pressed, and the D-pad reads NOT_PRESSED |
| ControlWords.ZeroWordFields | src/main/kotlin/info/skyblond/gulikit/apg/ControlWord.kt:47 | a fresh all-zero word has no terminator and is not padding; its axes read -2048 and its D-pad reads NOT_PRESSED |
| ControlWords.TriggerRoundTrip | src/main/kotlin/info/skyblond/gulikit/apg/ControlWord.kt:118-129 | as written, a trigger setter accepts exactly -2048..2047; a value in 0..255 reads back, and the next byte becomes 0x08 |
| ControlWords.ZrLinearOverwritesButtons | src/main/kotlin/info/skyblond/gulikit/apg/ControlWord.kt:127-129 | setting `zrLinear` to 0..255 makes button X read pressed and the other seven buttons of byte 12 read released |
| ControlWords.ZrLinearReleasesButtonA | src/main/kotlin/info/skyblond/gulikit/apg/ControlWord.kt:127-129 | pressing A on a reset word and then setting `zrLinear` to 0 releases A |
| ControlWords.TriggerLinearRoundTrip | src/main/kotlin/info/skyblond/gulikit/apg/ControlWord.kt:61-64 | the one-byte trigger write accepts a value in 0..255, reads it back, and changes no other byte |
| ControlWords.CentreBytes | src/main/kotlin/info/skyblond/gulikit/apg/ControlWord.kt:261-264 | setting an axis to 0 stores exactly the bytes 0x00, 0x08 |
| ControlWords.CentredClearedWord | src/main/kotlin/info/skyblond/gulikit/apg/ControlWord.kt:256-264 | clearing a word and then centring its four axes gives the reset word |
| ControlWords.ReadAfterWrite | src/main/kotlin/info/skyblond/gulikit/apg/ControlWord.kt:271-278 | reading at the point where a record was written gives that record back, whatever follows it |
| ControlWords.ReadIntoCases | src/main/kotlin/info/skyblond/gulikit/apg/ControlWord.kt:275-278 | a read succeeds exactly when 16 bytes remain, and then the buffer is those 16 bytes |
| ControlWords.ControlWord.constructor | src/main/kotlin/info/skyblond/gulikit/apg/ControlWord.kt:47 | a new word owns a fresh 16-byte buffer of zeros |
| ControlWords.ControlWord.MapJoystickRead | src/main/kotlin/info/skyblond/gulikit/apg/ControlWord.kt:49-51 | returns `JoystickRead` of the buffer |
| ControlWords.ControlWord.MapJoystickWrite | src/main/kotlin/info/skyblond/gulikit/apg/ControlWord.kt:53-55 | the outcome and new buffer are those `JoystickWrite` gives; on failure the buffer is unchanged |
| ControlWords.ControlWord.MapTriggerLinearRead | src/main/kotlin/info/skyblond/gulikit/apg/ControlWord.kt:57-59 | returns the trigger byte, taken unsigned |
| ControlWords.ControlWord.MapTriggerLinearWrite | src/main/kotlin/info/skyblond/gulikit/apg/ControlWord.kt:61-64 | the outcome and new buffer are those `TriggerLinearWrite` gives; on failure the buffer is unchanged |
| ControlWords.ControlWord.MapButtonRead | src/main/kotlin/info/skyblond/gulikit/apg/ControlWord.kt:66-67 | returns whether any bit of the mask is set |
| ControlWords.ControlWord.MapButtonWrite | src/main/kotlin/info/skyblond/gulikit/apg/ControlWord.kt:69-74 | the buffer becomes `ButtonWrite` of the old buffer |
| ControlWords.ControlWord.GetJoystick | src/main/kotlin/info/skyblond/gulikit/apg/ControlWord.kt:82-111 | returns the axis value at the axis's offset |
| ControlWords.ControlWord.SetJoystick | src/main/kotlin/info/skyblond/gulikit/apg/ControlWord.kt:82-111 | the outcome and new buffer are those `WithAxis` gives |
| ControlWords.ControlWord.GetTrigger | src/main/kotlin/info/skyblond/gulikit/apg/ControlWord.kt:118-128 | returns the trigger byte at offset 9 or 11 |
| ControlWords.ControlWord.SetTrigger | src/main/kotlin/info/skyblond/gulikit/apg/ControlWord.kt:118-129 | the outcome and new buffer are those of `mapJoystickWrite` at offset 9 or 11 |
| ControlWords.ControlWord.GetButton | src/main/kotlin/info/skyblond/gulikit/apg/ControlWord.kt:132-236 | returns whether the button's bit is set |
| ControlWords.ControlWord.SetButton | src/main/kotlin/info/skyblond/gulikit/apg/ControlWord.kt:132-236 | the buffer becomes `WithButton` of the old buffer |
| ControlWords.ControlWord.GetDPad | src/main/kotlin/info/skyblond/gulikit/apg/ControlWord.kt:238-239 | the loop over `values()` returns `Direction` of the buffer, and `None` where `first` throws |
| ControlWords.ControlWord.SetDPad | src/main/kotlin/info/skyblond/gulikit/apg/ControlWord.kt:240-242 | the buffer becomes `WithDirection` of the old buffer |
| ControlWords.ControlWord.SetPadding | src/main/kotlin/info/skyblond/gulikit/apg/ControlWord.kt:251-266 | the buffer becomes sixteen 0xFF bytes, or the reset word |
| ControlWords.ControlWord.CentreJoystick | src/main/kotlin/info/skyblond/gulikit/apg/ControlWord.kt:261-264 | setting an axis to 0 inside `setPadding` writes 0x00, 0x08 at its offset and nothing else |
| ControlWords.ControlWord.IsPadding | src/main/kotlin/info/skyblond/gulikit/apg/ControlWord.kt:268 | the loop returns true exactly when every byte is 0xFF |
| ControlWords.ControlWord.WriteTo | src/main/kotlin/info/skyblond/gulikit/apg/ControlWord.kt:271-273 | the stream gains exactly the 16 buffer bytes |
| ControlWords.ControlWord.ReadFrom | src/main/kotlin/info/skyblond/gulikit/apg/ControlWord.kt:275-278 | consumes min(16, remaining) bytes into the buffer front; passes exactly when all 16 arrived, and otherwise fails with FormatError |
| ControlWords.ControlWord.Apply | src/main/kotlin/info/skyblond/gulikit/apg/APGFile.kt:23 | one update of a block acts as the matching setter |
| ControlWords.ControlWord.ApplyAll | src/main/kotlin/info/skyblond/gulikit/apg/APGFile.kt:23 | the loop over a block's updates ends in the outcome and bytes `ApplyUpdates` gives |
| ApgFiles.Finished | src/main/kotlin/info/skyblond/gulikit/apg/APGFile.kt:26-30 | every word at index `p` or above becomes padding, and every word below `p` is kept |
| ApgFiles.FinishedIdempotent | src/main/kotlin/info/skyblond/gulikit/apg/APGFile.kt:26-30 | finishing twice equals finishing once, and the tail is padding |
| ApgFiles.ReadWordsFrom | src/main/kotlin/info/skyblond/gulikit/apg/APGFile.kt:36-39 | the read keeps the number of words and their size, and leaves the words before `i` untouched |
| ApgFiles.ReadWordsStep | src/main/kotlin/info/skyblond/gulikit/apg/APGFile.kt:37-38 | one iteration reads word `i` and goes on exactly when its read was whole |
| ApgFiles.ReadWholeRecord | src/main/kotlin/info/skyblond/gulikit/apg/APGFile.kt:37-38 | with a whole record left, word `i` becomes record `i` of the source |
| ApgFiles.ReadWordsFromFull | src/main/kotlin/info/skyblond/gulikit/apg/APGFile.kt:36-39 | a long enough source passes, and word `j` becomes bytes `[16j, 16j+16)` |
| ApgFiles.ReadWordsFromShort | src/main/kotlin/info/skyblond/gulikit/apg/APGFile.kt:36-39 | a source too short for the remaining words fails with FormatError |
| ApgFiles.ReadWordsCases | src/main/kotlin/info/skyblond/gulikit/apg/APGFile.kt:36-39 | `readFrom` passes exactly when the source holds a whole file, fails only with FormatError, and on success word `j` is record `j` |
| ApgFiles.FlattenRecords | src/main/kotlin/info/skyblond/gulikit/apg/APGFile.kt:43-46 | the serialised words are 16 bytes each, and record `i` of the output is word `i` |
| ApgFiles.FlattenSnoc | src/main/kotlin/info/skyblond/gulikit/apg/APGFile.kt:44-45 | writing one more word appends its bytes |
| ApgFiles.WriteReadRoundTrip | src/main/kotlin/info/skyblond/gulikit/apg/APGFile.kt:36-46 | reading back what `writeTo` wrote passes and restores every word, whatever the words held before and whatever follows in the stream |
| ApgFiles.APGFile.constructor | src/main/kotlin/info/skyblond/gulikit/apg/APGFile.kt:10-18 | 65536 distinct fresh words, each all zeros, with `size == 65536` and `pointer == 0` |
| ApgFiles.APGFile.SetControlWord | src/main/kotlin/info/skyblond/gulikit/apg/APGFile.kt:20-24 | the cursor moves by one; at capacity the call fails with CapacityError; otherwise the old cursor's word ends as the block applied to the reset word; every other word is unchanged |
| ApgFiles.APGFile.Finish | src/main/kotlin/info/skyblond/gulikit/apg/APGFile.kt:26-30 | the words from the cursor on become padding and the others are unchanged, i.e. `Finished` of the old words |
| ApgFiles.APGFile.Get | src/main/kotlin/info/skyblond/gulikit/apg/APGFile.kt:32 | returns the word itself for 0..65535, and IndexError otherwise |
| ApgFiles.APGFile.WriteTo | src/main/kotlin/info/skyblond/gulikit/apg/APGFile.kt:43-46 | the stream gains the words' bytes in index order, exactly 1,048,576 of them |
| ApgFiles.APGFile.ReadFrom | src/main/kotlin/info/skyblond/gulikit/apg/APGFile.kt:36-39 | outcome and words are those `ReadWordsFrom` gives; the cursor is untouched, and a pass consumes exactly 1,048,576 bytes |
| ApgFiles.APGFile.ReadWordAt | src/main/kotlin/info/skyblond/gulikit/apg/APGFile.kt:37-38 | word `i` reads the next record and no other word changes; the read passes exactly when 16 bytes remained |
| ApgFiles.FillFreshFile | src/main/kotlin/info/skyblond/gulikit/apg/APGFile.kt:10-21 | from a fresh file, 65536 `setControlWord` calls pass and the next fails with CapacityError |

## Left out

- `APGFile.readFrom(File)` and `APGFile.writeTo(File)` (APGFile.kt:34, 41) only open a file around the stream versions, which are modelled.
- `APGFile.iterator()` (APGFile.kt:48) is a Java iterator. The ghost `APGFile.Words()` gives the same words in the same order.
- `ControlWord.toString` (ControlWord.kt:280-285) formats a diagnostic string and is not part of the file format.
- SplatoonCanvas.kt, the image-to-macro generator, is a consumer of `setControlWord`, `finish` and `writeTo`. It reads images, prompts on the console and writes files. SplatoonCanvas.kt is not part of this model.
- `InputStream.read` in Java may return fewer bytes than are available. The input stream here always delivers min(16, remaining) bytes, so a short read happens only at the end of the data.
- I/O failures of the streams themselves (`IOException`) are not modelled.
- `pointer` is a Kotlin `Int`, so about 2^31 calls would overflow it. Here it is an unbounded `nat`.
- A `setControlWord` block can run arbitrary Kotlin code on the word. Here it is a sequence of field assignments: setters of axes, triggers, buttons, the D-pad and `setPadding`.
- ControlWords.ButtonWrite: its own contract does not state that the other bits of the written byte are kept. `ControlWords.MaskWriteKeeps` states it, bit mask by bit mask.
- ControlWords.ApplyUpdates: its own contract gives only the record size and the error kind. How it composes is in `ControlWords.ApplyUpdatesConcat`, and `ControlWords.ControlWord.ApplyAll` ties the method to it.

## Findings

| source | as written | input that shows it | evidently intended | confidence | as-written member | corrected member |
|---|---|---|---|---|---|---|
| src/main/kotlin/info/skyblond/gulikit/apg/ControlWord.kt:129 | the `zrLinear` setter calls `mapJoystickWrite(value, 11)`. This stores `value + 2048` in bytes 11 and 12, and accepts -2048..2047 | on a reset word, set `buttonA = true`, then `zrLinear = 0`: byte 12 becomes 0x08, so A reads released and X reads pressed | `mapTriggerLinearWrite(value, 11)`: only byte 11 changes, and only 0..255 is accepted | high (not executed) | ControlWords.ZrLinearReleasesButtonA | ControlWords.TriggerLinearRoundTrip |

The same call in the `zlLinear` setter (ControlWord.kt:120) writes byte 10, which no field uses.
For both triggers, a value in 256..2047 or below 0 is accepted, and the getter then reads back
only the low byte of `value + 2048`. The rest of the model keeps the setters as written. The
intended one-byte write is `ControlWords.TriggerLinearWrite`, with its method
`ControlWords.ControlWord.MapTriggerLinearWrite`, and `ControlWords.TriggerLinearRoundTrip`
proves it reads back and leaves every other byte alone.
