# DSC Keybus decoder and TextBuffer, modelled in Dafny

This project models two parts of an Arduino library.

The first is a decoder for the DSC alarm-panel **Keybus**. The panel drives a
clock line, and the data line is sampled on every clock change:

- On a rising edge the interrupt handler appends the data bit to the panel word
  being built (`pBuild`).
- On a falling edge it appends the bit to the keypad word being built (`kBuild`).
- A long gap between edges closes the keypad word.
- `process()` closes the panel word once the gap is long enough and at least
  eight bits have been collected.
- `decodePanel()` and `decodeKeypad()` turn the closed words into a command
  byte and a line of message text.
- `pnlChkSum()` checks a panel word's checksum byte.
- `binToInt()` and `byteToBin()` convert between bit text and numbers.

The second is **TextBuffer**, a fixed-capacity buffer that text is printed
into. It keeps its text zero-terminated inside a malloc'ed byte array, and it
computes the NMEA 0183 XOR checksum of what it holds.

Files:

- `radix.dfy` (module `Radix`): Arduino's `String(n, base)` and
  `String::toInt`, as digit strings and their values.
- `bits.dfy` (module `Bits`): Keybus words as strings of `'0'`/`'1'`, plus
  `binToInt` and `byteToBin`.
- `constants.dfy` (module `KeybusConstants`): the thresholds and the keypad
  button bytes of `DSC_Constants.h`.
- `checksum.dfy` (module `PanelChecksum`): `pnlChkSum` as written, and the
  check its comments describe.
- `messages.dfy` (module `KeybusMessages`): the message text the two decoders
  produce for a word, as functions of the word.
- `keybus.dfy` (module `KeybusDecoder`):
  - the state shared by the interrupt handler and the `DSC` object, as class
    `Dsc`;
  - the handler (`ClockEdge`), `process()`, `decodePanel()`,
    `decodeKeypad()` and `zeroArr()`, as methods proved against those
    functions.
- `text_buffer.dfy` (module `TextBuffers`): class `TextBuffer` and its
  operations.
- `options.dfy` (module `Options`): the `Option` type both of the above use.

Conventions:

- Times are `unsigned long` values. Their subtraction wraps modulo 2^32
  (`Elapsed`).
- The byte arithmetic on the user number is written out modulo 256.
- The pins, the serial port and the clock are not modelled:
  - what the code reads from them arrives as a parameter (`now`, `clockHigh`,
    `dataHigh`, `synced`);
  - what it writes to them comes back as a result (`ledOn`, the `clock`
    fields given to `setTime`).
- `DSC.cpp:55` and `DSC.cpp:106` write `pCmd, kCmd = 0`. That is a comma
  expression, so it assigns only `kCmd`.
  - At :106 the model does the same: `Process` clears only `kCmd`.
  - At :55 `pCmd` is still 0, because `dscGlobal` is a namespace-scope global
    and so starts zero-initialised. The constructor's explicit `pCmd := 0`
    stands for that zero-initialisation.

## Model

| member | source | states |
|---|---|---|
| Radix.BinaryDigits | DSCPanel/DSC.cpp:437-440 | `String(n, BIN)` consists only of '0' and '1' and reads back as n. |
| Radix.BinaryLength | DSCPanel/DSC.cpp:437 | A number below 2^k has at most k binary digits. |
| Radix.DecimalDigits | DSCPanel/DSC.cpp:155 | `toInt(String(n)) == n`. |
| Radix.HexDigits | DSCPanel/DSC.cpp:339 | `String(n, HEX)` reads back as n. |
| Radix.DecimalLength | DSCPanel/DSC.cpp:155 | Numbers below 10 have one decimal digit; numbers below 100 have two. |
| Radix.ParseConcat | DSCPanel/DSC.cpp:155 | The value of a concatenation of digit strings is the left value shifted past the right part plus the right value. |
| Bits.BitsValue | DSCPanel/DSC.cpp:423-432 | The value of an n-character field is below 2^n. |
| Bits.BinToInt | DSCPanel/DSC.cpp:423-432 | The shift-and-or loop computes the MSB-first value of `s[offset..offset+len)`. Only '1' counts as a one, and characters past the end read as 0. The result is below 2^len. |
| Bits.ByteToBin | DSCPanel/DSC.cpp:434-441 | The result is the byte's 8-character pattern, and `binToInt(byteToBin(b), 0, 8) == b`. |
| Bits.PaddedBinary | DSCPanel/DSC.cpp:437-440 | `String(b, BIN)` has at most 8 digits, and padding it with zeros gives the byte's pattern. |
| Bits.ByteBitsValue | DSCPanel/DSC.cpp:423-441 | `binToInt(byteToBin(b), 0, 8) == b` for every byte. |
| Bits.ByteBitsOfValue | DSCPanel/DSC.cpp:423-441 | `byteToBin(binToInt(s, 0, 8)) == s` for every 8-character bit string. |
| Bits.BitOfValue | DSCPanel/DSC.cpp:423-432 | Bit k of a field's value is the character k places before the field's end. |
| Bits.BitsDetermine | DSCPanel/DSC.cpp:423-432 | Two values below 2^n that agree on their n low bits are equal. |
| Bits.BitsPrefix | DSCPanel/DSC.cpp:423-432 | Characters appended after a field do not change its value. |
| Bits.BitsShift | DSCPanel/DSC.cpp:423-432 | Characters put before a field only move its offset. |
| Bits.BitsParse | DSCPanel/DSC.cpp:423-432 | On a bit string, the MSB-first field value equals the base-2 reading. |
| Bits.BitStringsEqual | DSCPanel/DSC.cpp:423-432 | Bit strings of equal length and equal value are equal. |
| KeybusConstants.MaxBitsFitsByte | DSCPanel/DSC_Constants.h:16 | MAX_BITS respects the stated maximum of 254, so a word of MAX_BITS + 1 characters has a length that fits a byte. |
| KeybusConstants.GapsOrdered | DSCPanel/DSC_Constants.h:17 | The keypad gap (`NEW_WORD_INTV - 200` = 5000 µs) is below the panel gap (`NEW_WORD_INTV + 200` = 5400 µs). |
| KeybusConstants.ButtonPatterns | DSCPanel/DSC_Constants.h:24-51 | Every button constant's eight-bit text, as `byteToBin` prints it, equals the pattern in its comment (0x7f is 01111111). |
| KeybusConstants.SecondByteButtonsDistinct | DSCPanel/DSC_Constants.h:24-46 | The 19 second-byte buttons are pairwise distinct, and none of them is `kOut`. |
| KeybusConstants.FirstByteButtonsDistinct | DSCPanel/DSC_Constants.h:42-51 | fire, aux and panic are distinct and differ from `kOut`. aux has the same value as chime. |
| PanelChecksum.PnlChkSum | DSCPanel/DSC.cpp:395-421 | The result is 1 exactly when the word has a group after the 9-bit header, and (command byte + all groups but the last) / 256, truncated to a byte, equals the last group. Otherwise the result is 0. |
| PanelChecksum.ShortWordRejected | DSCPanel/DSC.cpp:400-402 | A word of fewer than 17 bits holds no full group and is always rejected. |
| PanelChecksum.FrameFields | DSCPanel/DSC.cpp:401-410 | In a frame of command byte, padding bit and data bytes, the command byte and the groups are exactly those bytes. |
| PanelChecksum.FrameSum | DSCPanel/DSC.cpp:399-405 | The running sum of a frame is the command byte plus the leading data bytes. |
| PanelChecksum.QuotientCheckMeaning | DSCPanel/DSC.cpp:407-416 | The check as written accepts a frame exactly when its last byte equals (sum of the other bytes) / 256, modulo 256. |
| PanelChecksum.ModuloCheckMeaning | DSCPanel/DSC.cpp:397-398 | The check the comments describe accepts a frame exactly when its last byte equals the sum of the other bytes modulo 256. |
| PanelChecksum.QuotientRejectsSealedFrame | DSCPanel/DSC.cpp:407-416 | A frame whose last byte is the (non-zero, below 256) sum of the others passes the intended check but fails the check as written. |
| PanelChecksum.StatusFrameMisjudged | DSCPanel/DSC.cpp:407-416 | Concrete case: command 0x05, data 0x01, checksum 0x06. |
| KeybusMessages.IndexOf | DSCPanel/DSC.cpp:297-340 | The else-if table lookup finds the first entry equal to the byte, or runs past the end. |
| KeybusMessages.ZoneListMember | DSCPanel/DSC.cpp:190-248 | Zone base+k is listed exactly when bit k of the zone byte is set. |
| KeybusMessages.ZoneListAscending | DSCPanel/DSC.cpp:190-248 | Zones are listed in strictly ascending order, each below base+8. |
| KeybusMessages.ZonesEmptyIffClear | DSCPanel/DSC.cpp:193-202 | No zone is listed exactly when the zone byte is 0, which is also when "Ready " is appended. |
| KeybusMessages.ZoneReported | DSCPanel/DSC.cpp:193-201 | Read against the word: zone base+j is listed exactly when character 48−j of the word is '1'. |
| KeybusMessages.YearDigits | DSCPanel/DSC.cpp:153-155 | Gluing the decimal texts of y3 and y4 gives y3·10 + y4 when y4 < 10, and y3·100 + y4 when y4 ≥ 10. |
| KeybusMessages.UserCodes | DSCPanel/DSC.cpp:178-186 | For arm values 1 and 3, a user field up to 36 is reported as 1–34 or as the system codes 40–42. |
| KeybusMessages.ArmedUserCodes | DSCPanel/DSC.cpp:173-186 | When armed (arm == 2), field f is reported as the disarmed field f − 0x19 would be. |
| KeybusMessages.ArmedUserWraps | DSCPanel/DSC.cpp:173-176 | When armed, a user field below 0x19 wraps around as a byte: 0x18 reports 0, and 0 reports 237. |
| KeybusMessages.PanelTextKnown | DSCPanel/DSC.cpp:131-274 | An accepted panel word yields text exactly when its command is one of the 14 known ones. |
| KeybusMessages.IndexOfDistinct | DSCPanel/DSC.cpp:297-337 | Over the distinct button table, the lookup finds the entry's own position, so no entry is shadowed. |
| KeybusMessages.ButtonLabelled | DSCPanel/DSC.cpp:298-335 | Each of the 19 second-byte buttons yields "[Button] " followed by its label. |
| KeybusMessages.KeypadResponse | DSCPanel/DSC.cpp:336-337 | A second byte of `kOut` yields "[Keypad Response]". |
| KeybusMessages.UnknownSecondByte | DSCPanel/DSC.cpp:338-340 | Any other second byte yields "[Keypad] 0x…(Unknown)", and the hex text reads back as the byte. |
| KeybusMessages.KeypadOneLabel | DSCPanel/DSC.cpp:297-348 | A keypad word gets the second-byte text (first byte `kOut`), or Fire, Auxillary or Panic, or nothing. It never gets two of these. |
| KeybusDecoder.ElapsedIsUnsignedDifference | DSCPanel/DSC.cpp:363-364 | `now - last` on `unsigned long` is the difference modulo 2^32, and adding it back to `last` gives `now`. |
| KeybusDecoder.ElapsedAcrossWrap | DSCPanel/DSC.cpp:84 | A duration below 2^32 is measured exactly even when the counter wraps in between. |
| KeybusDecoder.AppendBitBounded | DSCPanel/DSC.cpp:375-387 | A capture step keeps a word made of '0'/'1' and at most MAX_BITS + 1 long, and it only extends the word (earlier characters are unchanged). |
| KeybusDecoder.ResultCodeBits | DSCPanel/DSC.cpp:111-114 | The result of `process()` has bit 0 set exactly for a decoded panel word and bit 1 set exactly for a decoded keypad word. |
| KeybusDecoder.AppendFlag | DSCPanel/DSC.cpp:142-147 | One status bit test appends its text exactly when the bit is '1'. |
| KeybusDecoder.StatusMessage | DSCPanel/DSC.cpp:131-147 | The status block's text is "[Status] " followed by Ready/Not Ready and the flags for bits 12–15, 17 and 29, in that order. |
| KeybusDecoder.AdjustUser | DSCPanel/DSC.cpp:173-185 | The byte arithmetic on `user` computes `UserNumber`. |
| KeybusDecoder.ArmMessage | DSCPanel/DSC.cpp:171-187 | The arming text: Armed/Disarmed, Master/User Code and the user number, printed only for arm > 0. |
| KeybusDecoder.InfoMessage | DSCPanel/DSC.cpp:150-188 | The info block's text, and the hour, minute, day, month and year fields it hands to `setTime`. |
| KeybusDecoder.ZoneTextStep | DSCPanel/DSC.cpp:194-201 | One more bit test extends the printed zone list by that zone exactly when the bit is set. |
| KeybusDecoder.ZonesMessage | DSCPanel/DSC.cpp:190-203 | The eight bit tests print the title, then the listed zones, then "Ready " when the byte is 0. |
| KeybusDecoder.PanelMessage | DSCPanel/DSC.cpp:131-274 | The text of an accepted panel word is its command's block. Time fields are produced exactly for command 0xa5. |
| KeybusDecoder.KeypadMessage | DSCPanel/DSC.cpp:294-348 | The text of an accepted keypad word: the table lookup on its second byte, then the first-byte buttons. |
| KeybusDecoder.ZeroArr | DSCPanel/DSC.cpp:443-447 | The first ARR_SIZE entries become 0, and the rest are unchanged. |
| KeybusDecoder.Dsc.constructor | DSCPanel/DSC.cpp:26-60 | All times and commands are 0, and all words and messages are empty. |
| KeybusDecoder.Dsc.ClockEdge | DSCPanel/DSC.cpp:360-389 | The step sets `intervalTimer = now − lastChange` (mod 2^32) and `lastChange = now`. A gap over 5000 µs moves `kBuild` into `kWord` and restarts it. Exactly one of `pBuild` (rising edge) and `kBuild` (falling edge) takes the data bit, and only while it holds at most MAX_BITS. |
| KeybusDecoder.Dsc.DecodePanel | DSCPanel/DSC.cpp:117-277 | A repeated word or a zero command returns 0 and changes nothing. Otherwise the call returns the command, appends its text, remembers the word and stamps `lastData`, and for 0x05 also stamps `lastStatus`. |
| KeybusDecoder.Dsc.DecodeKeypad | DSCPanel/DSC.cpp:279-352 | A word without a '0' returns 0 and changes nothing. Otherwise the call returns the first byte (possibly 0), appends its text, remembers the word and stamps `lastData`. `oldKWord` is never read. |
| KeybusDecoder.CombineResults | DSCPanel/DSC.cpp:111-114 | The if-chain computes `ResultCode`: 3 when both commands are set, 2 for the keypad only, 1 for the panel only and 0 otherwise. Bit 0 marks the panel and bit 1 the keypad (`ResultCodeBits`). |
| KeybusDecoder.Dsc.DecodeWords | DSCPanel/DSC.cpp:106-114 | Both decoders run in turn. Each message gains its decoder's text, both words are remembered or kept, the stamps are refreshed, and the result code is 0–3. |
| KeybusDecoder.Dsc.Process | DSCPanel/DSC.cpp:81-115 | The LED is on exactly within 500 ms of the last status word. A short gap or fewer than 8 bits returns 0 and changes nothing. Otherwise `pBuild` becomes `pWord` and is emptied, and the decoders run. |
| KeybusDecoder.ProcessTwice | DSCPanel/DSC.cpp:99-103 | A second `process()` with no clock edge in between returns 0. |
| KeybusDecoder.DecodePanelTwice | DSCPanel/DSC.cpp:120-129 | Decoding the same panel word twice returns 0 the second time. |
| KeybusDecoder.DecodeKeypadTwice | DSCPanel/DSC.cpp:285-292 | Decoding the same keypad word twice returns the same command both times, because there is no duplicate suppression. |
| TextBuffers.AlignedSize | TextBuffer/TextBuffer.cpp:6 | The aligned size is a multiple of 4 and fits an `unsigned int`. |
| TextBuffers.MaskClearsLowBits | TextBuffer/TextBuffer.cpp:6 | On 32-bit words, `x & ~3` is x minus its remainder by 4. |
| TextBuffers.AlignedSizeRoundsUp | TextBuffer/TextBuffer.cpp:6 | Without overflow the aligned size lies in [request, request + 4); with `AlignedSize` being a multiple of 4, it is the multiple of 4 the comment promises, the least one at or above the request. |
| TextBuffers.AlignedSizeWraps | TextBuffer/TextBuffer.cpp:6 | The three largest requests overflow and align to 0. |
| TextBuffers.Strlen | TextBuffer/TextBuffer.cpp:86 | strlen counts the bytes before the first zero. |
| TextBuffers.TextBuffer.constructor | TextBuffer/TextBuffer.cpp:4-8 | `_bufSize` is the aligned request, and no buffer is allocated yet. |
| TextBuffers.TextBuffer.Begin | TextBuffer/TextBuffer.cpp:10-19 | On success: a fresh buffer of `_bufSize` zero bytes, capacity = `_bufSize`, position 0, and the capacity is returned. On failure: no buffer, and 0 is returned. |
| TextBuffers.TextBuffer.GetSize | TextBuffer/TextBuffer.cpp:83-87 | The length of the stored text, which is always below the capacity; 0 without a buffer. |
| TextBuffers.TextBuffer.Write | TextBuffer/TextBuffer.cpp:21-30 | Returns 1 exactly when size + 1 < capacity, and then stores c at index size. A non-zero c extends the text by c. A zero is accepted but changes nothing. Otherwise returns 0 and changes nothing. The text stays zero-terminated with zeros to the end. |
| TextBuffers.TextBuffer.WriteBytes | TextBuffer/TextBuffer.cpp:42-53 | Writes the bytes in order and stops at the first refusal. Returns the count accepted (at most the input length), and the text grows by the accepted non-zero bytes. |
| TextBuffers.TextBuffer.WriteString | TextBuffer/TextBuffer.cpp:32-40 | A null string returns 0. Otherwise the bytes before the string's terminator are written, and the text grows by the accepted prefix. |
| TextBuffers.TextBuffer.Clear | TextBuffer/TextBuffer.cpp:55-61 | Every byte becomes 0, position becomes 0, and 1 is returned. The resulting state does not depend on the previous contents, so a second clear changes nothing. Without a buffer, 0 is returned. |
| TextBuffers.TextBuffer.GetBufPointer | TextBuffer/TextBuffer.cpp:76-81 | With a buffer, it zeroes it, resets `position` and returns that same array. Without one, it returns null and leaves `position` as it was. The text is empty afterwards either way. |
| TextBuffers.TextBuffer.GetCapacity | TextBuffer/TextBuffer.cpp:89-93 | The aligned size, always a multiple of 4; 0 without a buffer. |
| TextBuffers.TextBuffer.GetCheckSum | TextBuffer/TextBuffer.cpp:95-113 | The XOR of the stored bytes from index 1 up to the one before the last. It is 0 for texts shorter than 3 and below 256. |
| TextBuffers.StoreAtTerminator | TextBuffer/TextBuffer.cpp:24-27 | Storing c over the terminator extends the text by c when c is non-zero, and leaves it as it was when c is 0. |
| TextBuffers.TerminatedLength | TextBuffer/TextBuffer.cpp:83-87 | strlen of text followed by zeros is the text's length. |
| TextBuffers.AcceptedText | TextBuffer/TextBuffer.cpp:42-53 | A text without zero bytes is accepted whole, or up to the room left before the terminator. |
| TextBuffers.NmeaChecksum | TextBuffer/TextBuffer.h:74-76 | For a stored NMEA sentence '$' body '*', the checksum is the XOR of the body. |

## Left out

- Pin set-up and output: `begin()`, the `set…` pin setters, `attachInterrupt`, `digitalRead` and `digitalWrite`.
  - The clock and data levels are parameters of `ClockEdge`.
  - The LED level is the `ledOn` result of `Process`.
- `Serial.println` messages in the info block. They go to the serial port and do not affect the state.
- TimeLib. `setTime` is represented by the `clock` fields that `Process`/`DecodePanel` return. `timeStatus() == timeSet` is the `synced` parameter.
- `micros()` and `millis()` are the `now` parameter.
  - One `now` stands for every `millis()` reading within one `process()` call:
    - the LED test (`DSC.cpp:84`);
    - the two readings in `decodePanel`, for `lastData` and `lastStatus`;
    - the reading in `decodeKeypad` (`DSC.cpp:291`).
  - A reading that ticks over between these calls is not modelled.
- Concurrency between the interrupt handler and `process()`. Each routine runs atomically in the model, because interleavings inside a routine are not modelled.
- The three `DSC::write` overloads (`DSCPanel/DSC.cpp:472-488`). Their bodies are empty: they neither return a value nor change any state.
- The fields the source marks NOT USED (`lastRise`, `lastFall`, `newWord`, `pBytes`, `kBytes`) and the empty `addSerial`.
- 16-bit `int` overflow:
  - `cSum` in `pnlChkSum` stays below 25·255, because words hold at most 201 bits.
  - `yy` is at most 1515.
  - So neither can overflow, and the model uses unbounded integers for both.
  - `binToInt` accumulates into an `int`. `BinToInt` and `BitsValue` are
    unbounded for every length. They agree with the source as long as the
    length stays below the width of `int` (15 value bits on AVR). Every call
    site reads at most 8 bits.
- The `hex` look-up array of `DSC_Constants.h:21`. `DSC.cpp` never reads it:
  hexadecimal text comes from `String(n, HEX)` (`Radix.Digits`).
- TextBuffer `end()` (freeing memory) and `getBuffer()` (the same pointer without clearing). Memory release is not modelled.
- TextBuffers.TextBuffer.Begin: a request that aligns to 0 bytes is treated as a failed allocation, because `malloc(0)` is implementation-defined and `getSize` would then read outside the buffer.
- TextBuffers.TextBuffer.GetBufPointer: writes that the sketch makes through the returned pointer are outside the model. The zero-terminated invariant assumes every change goes through the class.
- TextBuffers.TextBuffer.constructor: C++ leaves `buffer`, `capacity` and `position` uninitialised. The model starts them at null and 0, which is what a statically allocated object gets.
- TextBuffers.AlignedSize: `unsigned int` is taken as 32 bits (the ESP8266 width). On 16-bit boards the wrap happens at 2^16 instead.
- The `Print` base class (`print`, `println`), which reaches the buffer only through the `write` overloads modelled here.

## Findings

| source | as written | input that shows it | evidently intended | confidence | as-written member | corrected member |
|---|---|---|---|---|---|---|
| DSCPanel/DSC.cpp:407-416 | `pnlChkSum` compares the last byte with `cSum / 256`, the high byte of the running sum | a 25-bit word with command 0x05, padding bit 0, data byte 0x01 and checksum byte 0x06: the sum is 6, 6 / 256 = 0 ≠ 6, so the word is rejected | compare with `cSum % 256`, the low byte, as the comment "sums all but the last full byte … and compares to last byte" and the name `cSumMod` say | not executed | PanelChecksum.PnlChkSum, PanelChecksum.QuotientRejectsSealedFrame, PanelChecksum.StatusFrameMisjudged | PanelChecksum.ModuloCheck, PanelChecksum.ModuloCheckMeaning |
