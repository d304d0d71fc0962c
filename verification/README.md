# rockit-astro focuser firmware: a verified model

This project models the core of the rockit-astro focus-controller firmware in Dafny.
The firmware has two independent halves.

- **1-Wire sensors** (`ds18b20.c`, `onewire.c`) cover:
  - the Dallas/Maxim CRC-8;
  - the bit- and byte-level bus transfers of Maxim application note 126;
  - the ROM search of Maxim application note 187;
  - collecting CRC-valid ROM addresses into a caller buffer;
  - the DS18B20 scratchpad read and its decimal print-out;
  - the DS1820/DS2438 command sequences behind `onewire_measure`'s family dispatch.
- **Two-channel stepper controller** (`main.c`) covers:
  - the `TIMER1_COMPA` interrupt that steps both channels toward their targets, sharing one driver-enable pin;
  - the `loop()` line accumulator and command parser (`?`, `[12]S`, `[12]Z`, `[12][+-]digits`);
  - the EEPROM slots that persist the targets;
  - the start-up restore in `main`.

## How the model is built

The 1-Wire bus is the class `OneWireBus.Bus`.
- Its `trace` records every slot the master generates: `Reset(presence)`, `WriteBit(one)`, `ReadBit(high)`, and `Wait(ms)` for `_delay_ms`.
- Its `script` is an oracle: the levels the slaves will show at the next samples. Once the script is spent, the line reads high, as the pull-up would make it.

Each driver routine is an imperative method on the bus. It is proved equal to a function of the script and trace it started from. Those functions are the specification, and the lemmas state the firmware's promises about them.

`_search_next` keeps the source's mutable search state (`RomSearch.SearchState`: `lastZeroBranch`, `done` and the 8-byte `address` array). It loops over the 64 positions with invariants tying the array, the trace and the script to the pass function `RomSearch.Pass`.

In `main.c`, the globals are the fields of `Controller.Focuser`:
- the interrupt is the method `Tick`;
- each `cli()`/`sei()` section is one atomic method (`StopHere`, `ZeroHere`, `MoveTo`);
- an interleaving is a sequence of method calls with `Tick` between foreground calls.

The specification functions are `Stepper.Tick` for the interrupt and `Commands.Respond`/`Receive`/`Feed` for the foreground.

Integer widths are explicit:
- bytes are `bv8`;
- the scratchpad result is `bv16`;
- the `uint8_t` address count wraps with `% 256`;
- the DS2438 voltage is reduced mod 2^16;
- `int32_t` targets, positions and EEPROM dwords stay in range. This holds from start-up on an EEPROM of dwords (`Controller.StartInRange`), through every tick (`Controller.TickHostInRange`) and through every command and run of received bytes (`Commands.RespondInRange`, `Commands.FeedInRange`). The status line therefore always fits its buffer (`Controller.StartupStatusFits`).

`DOWNSAMPLE_BITS` is 4, so positions are kept at ×16. The comment at main.c:149 says 64x; the model follows the code.

The 1-Wire routines that read a search state and write the address take a `ReplayRule` parameter:
- `AsWritten` is the code's arithmetic at ds18b20.c:265 and 288, modelled literally;
- `Normalised` is the corrected replay (see Findings).

A bus fault ends collection. In `ds18b20_search` (ds18b20.c:347), a search that returns false for any reason ends the whole loop, including a search that reads (1,1). `Ds18b20.Collect` does the same.

## Model

| member | source | states |
|---|---|---|
| Crc.ComputeCrc8 | ds18b20.c:48-57 | the loop leaves the left fold of the `_crc_ibutton_update` step over `data[0..len)`, starting from 0 |
| Crc.UpdateZero | ds18b20.c:48-57 | one CRC update gives 0 exactly when the running CRC equals the data byte |
| Crc.UpdateLinear | ds18b20.c:48-57 | the CRC step is linear over xor, in both the running CRC and the data |
| Crc.UpdateInjective | ds18b20.c:48-57 | two (running CRC, data) pairs whose xors differ give different updates |
| Crc.StepZero | ds18b20.c:48-57 | (helper) one shift-and-conditional-xor round maps only 0 to 0 |
| Crc.StepXor | ds18b20.c:48-57 | (helper) one shift round distributes over xor |
| Crc.StepNXor | ds18b20.c:48-57 | any number of shift rounds distributes over xor |
| Crc.StepNZero | ds18b20.c:48-57 | any number of shift rounds maps only 0 to 0 |
| Crc.CheckByte | ds18b20.c:48-57 | appending x gives CRC 0 exactly when x is the CRC of what precedes it |
| Crc.RomCrcValidIffZero | ds18b20.c:333-337 | an address passes `onewire_check_rom_crc` iff the CRC over all 8 bytes is 0 |
| Crc.ByteErrorDetected | ds18b20.c:48-57 | corrupting any one byte by a non-zero xor changes the CRC |
| Crc.LastByteDiffers | ds18b20.c:48-57 | equal-length data equal except in the last byte have different CRCs |
| Crc.PrefixCrcDiffers | ds18b20.c:48-57 | data whose common-length prefixes have different CRCs and then agree keep different CRCs |
| OneWireBus.Bus.constructor | ds18b20.c:59-173 | a bus starts with an empty trace and the given script of slave levels |
| OneWireBus.Bus.ResetPulse | ds18b20.c:59-82 | presence is reported iff the line is sampled low; the reset is logged and one sample is consumed |
| OneWireBus.Bus.WriteSlot | ds18b20.c:88-112 | a write-1 slot for a non-zero bit, a write-0 slot otherwise, logged and nothing sampled |
| OneWireBus.Bus.ReadSlot | ds18b20.c:135-154 | the result is the sampled level; the slot is logged and one sample consumed |
| OneWireBus.Bus.DelayMs | ds18b20.c:399 | a millisecond wait is logged and nothing sampled |
| OneWireBus.Bus.WriteByte | ds18b20.c:116-129 | the byte goes out as 8 write slots, least significant bit first |
| OneWireBus.Bus.ReadByte | ds18b20.c:156-173 | the byte assembles the next 8 sampled levels, least significant bit first; 8 read slots are logged and 8 samples consumed |
| OneWireBus.ReadInto | ds18b20.c:360-362 | the buffer is filled with consecutive bytes from the script; their read slots are logged in order |
| OneWireBus.ByteBitsRoundTrip | onewire.c:128-137 | assembling a byte's 8 bits LSB first gives the byte back, and the bits of an assembled byte are the bits assembled |
| OneWireBus.WriteThenReadByte | onewire.c:89-101 | reading back the bits a byte write put on the bus gives the byte written |
| OneWireBus.WrittenBitsPrefix | ds18b20.c:122-128 | after n slots of a byte write, the bits on the bus are the byte's n lowest bits |
| OneWireBus.ReadComplete | ds18b20.c:164-170 | the 8 read slots of a byte are exactly the read events of the byte assembled |
| OneWireBus.BitsDetermineByte | ds18b20.c:164-170 | bytes that agree on all 8 bits are equal |
| OneWireBus.MasksDisjoint | ds18b20.c:164 | (helper) the single-bit masks `1 << k` overlap only when the positions are equal |
| OneWireBus.MaskShift | ds18b20.c:164 | (helper) the next mask is the previous one shifted left, as the `bit <<= 1` step makes it |
| OneWireBus.MaskZero | ds18b20.c:164 | (helper) the mask becomes 0, ending the loop, exactly after the eighth shift |
| OneWireBus.BitOr | ds18b20.c:168 | (helper) or-ing a mask sets that bit and leaves the others |
| OneWireBus.BitOfByteOf | ds18b20.c:164-170 | bit k of an assembled byte is the k-th level read, or 0 past the levels given |
| OneWireBus.ShiftedBit | ds18b20.c:127 | (helper) bit j of `byte >> 1` is bit j+1 of the byte |
| OneWireBus.SlotsOfBits | ds18b20.c:122-128 | the j-th write slot carries bit j of the byte |
| RomSearch.SearchState.constructor | ds18b20.c:341-344 | a fresh search state has last zero branch -1, is not done, and holds a zero address |
| RomSearch.ReadPosition | ds18b20.c:244-246 | `reading` holds the bit sample in bit 0 and the complement sample in bit 1, from two logged read slots |
| RomSearch.DecideBit | ds18b20.c:248-282 | a (1,1) reading is a fault; otherwise the value chosen is the pass's choice, and the local last zero branch moves to a conflict that chose 0 |
| RomSearch.StoreBit | ds18b20.c:284-289 | the address array becomes the stored-bit function of its old contents: clear the bit for 0, or-shift the value otherwise |
| RomSearch.CommitBit | ds18b20.c:284-296 | storing the chosen value and writing it to the bus advances the pass invariant by one position |
| RomSearch.SearchPosition | ds18b20.c:235-296 | one position either meets a fault with the address unchanged, or advances the pass invariant |
| RomSearch.ScanPositions | ds18b20.c:231-297 | the 64-position loop ends in the outcome of `Pass`: a fault stops it with a partly rewritten address, otherwise all 64 positions are chosen, stored and written |
| RomSearch.SearchNext | ds18b20.c:217-309 | `_search_next` returns and leaves exactly what `Pass` specifies, including the `done`/`lastZeroBranch` bookkeeping |
| RomSearch.SearchDevices | ds18b20.c:311-325 | `_search_devices` matches `SearchStep`: nothing on a done state, a lone reset without presence, otherwise the command byte and a pass |
| RomSearch.OnewireSearch | ds18b20.c:327-331 | `onewire_search` is a search with the Search ROM command 0xF0 |
| RomSearch.SearchEarlyExits | ds18b20.c:311-325 | a done state or a reset without presence returns false, with nothing or only the reset on the bus and the state untouched; otherwise the command's 8 slots follow the reset |
| RomSearch.PassBookkeeping | ds18b20.c:299-305 | a fault leaves `lastZeroBranch` and `done` alone; a completed pass sets `done` iff no conflict chose 0, and otherwise records the highest such position |
| RomSearch.LastZeroIsHighest | ds18b20.c:272-275 | the local last zero branch is -1 iff no conflict chose 0, and otherwise the highest position where one did |
| RomSearch.ChooseFaithful | ds18b20.c:248-282 | every chosen value is 0, 1, or under replay the masked byte of the previous address |
| RomSearch.ChoiceOutsideReplay | ds18b20.c:248-270 | under either rule a unanimous reading chooses the bit read, and a conflict chooses 1 at the last zero branch and 0 past it |
| RomSearch.ChoiceNormalised | ds18b20.c:248-270 | with the corrected replay, a conflict before the last zero branch repeats the previous address's bit, completing application note 187's choice rule |
| RomSearch.StoreOwnBit | ds18b20.c:284-289 | a stored value sets the position's own bit iff it is non-zero |
| RomSearch.StoreLowerBit | ds18b20.c:284-289 | storing at a position never disturbs a lower position |
| RomSearch.StoreOtherBit | ds18b20.c:284-289 | storing a 0/1 value leaves every other position alone |
| RomSearch.StoredIsWritten | ds18b20.c:284-296 | once past a position, the stored address bit there equals the bit written to the bus there |
| RomSearch.StoreChosen | ds18b20.c:284-296 | right after a position, its stored bit is the bit written |
| RomSearch.UnvisitedBitsKept | ds18b20.c:284-289 | with the corrected replay, positions not yet reached keep the previous address's bits |
| RomSearch.FaultBeforeIsFirst | ds18b20.c:279-281 | the pass stops at the first (1,1) reading |
| RomSearch.FaultStays | ds18b20.c:279-281 | once a fault is met, later positions cannot change where the pass stopped |
| RomSearch.PassStopsAtFault | ds18b20.c:279-281 | a pass that faults at p returns false with `done` and `lastZeroBranch` unchanged and the address rewritten below p, after 2p+2 reads |
| RomSearch.PassCompletes | ds18b20.c:233-308 | a pass with no fault returns true after 64 positions of read, read, write |
| RomSearch.PositionStep | ds18b20.c:233-297 | advancing one faultless position stores the choice and updates the local last zero branch |
| RomSearch.ReadPair | ds18b20.c:244-246 | the two samples at a position are the 2p-th and (2p+1)-th levels of the script |
| RomSearch.TraceStep | ds18b20.c:244-296 | each position adds its bit read, complement read and chosen write to the trace |
| RomSearch.FoundConsumes | ds18b20.c:311-325 | a search that finds an address has consumed part of the script, so the collection loop terminates |
| RomSearch.ShlOwnBit | ds18b20.c:288 | (helper) `v << k` carries bit 0 of v to bit k |
| RomSearch.ShlLowBits | ds18b20.c:288 | (helper) `v << k` has no bit below k |
| RomSearch.ShlBit | ds18b20.c:288 | (helper) bit j of `w << 1` is bit j-1 of w |
| RomSearch.ShlOne | ds18b20.c:265 | (helper) `1 << k` is the single-bit mask of bit k |
| RomSearch.ClearBit | ds18b20.c:286 | (helper) `&= ~(1 << k)` clears bit k and keeps the rest |
| RomSearch.ClearSame | ds18b20.c:286 | (helper) masking with the complement of m leaves none of m's bits |
| RomSearch.ClearOther | ds18b20.c:286 | (helper) masking with the complement of m keeps bits disjoint from m |
| RomSearch.ReplayDeviates | ds18b20.c:263-265 | as written, a replay before the last zero branch can write 1 where the previous address had 0 (counterexample) |
| RomSearch.ReplayFollowsNormalised | ds18b20.c:263-265 | the same input under the corrected replay writes the previous address's 0 |
| Ds18b20.ScratchResult | ds18b20.c:354-371 | a CRC mismatch gives the 0x5000 sentinel; otherwise the high and low bytes are scratchpad bytes 1 and 0 |
| Ds18b20.SentinelIsAmbiguous | ds18b20.c:365-370 | a genuine, CRC-valid reading of 0x5000 is indistinguishable from the CRC-failure sentinel |
| Ds18b20.CheckRomCrc | ds18b20.c:333-337 | true iff byte 7 of the address is the CRC of bytes 0-6 |
| Ds18b20.MatchRom | ds18b20.c:175-184 | Match ROM 0x55 then the 8 address bytes go out in order |
| Ds18b20.SkipRom | ds18b20.c:186-189 | Skip ROM 0xCC goes out |
| Ds18b20.Convert | ds18b20.c:387-392 | Skip ROM then Convert T 0x44 go out, with no reset of their own |
| Ds18b20.ReadScratchPad | ds18b20.c:354-371 | 9 bytes are read and the result is their `ScratchResult` |
| Ds18b20.ReadSlave | ds18b20.c:373-385 | no presence gives the 0xA800 sentinel after the reset alone; otherwise Match ROM, the address, Read Scratchpad 0xBE and a scratchpad read |
| Ds18b20.Measure | ds18b20.c:394-427 | the reset's answer is ignored; Convert, a 750 ms wait and the slave read follow; false iff the value equals either sentinel; on success `output` holds the reading's text, NUL-terminated in 10 bytes, and is untouched otherwise |
| Ds18b20.FormatReading | ds18b20.c:408-426 | the output buffer holds the reading's decimal text followed by NULs |
| Ds18b20.ReadingTextValue | ds18b20.c:410-426 | the text is at most 9 characters, digits then '.' then exactly 4 digits, and spells whole × 10000 + fraction = reading × 625, i.e. reading / 16 exactly |
| Ds18b20.PointTextValue | ds18b20.c:413-425 | a whole part below 10000 and a 4-digit fraction print as their digits around a point |
| Ds18b20.FractionDigits | ds18b20.c:417-425 | the fraction part prints as exactly 4 digits of `(reading & 0xF) * 625`, "0000" for zero and zero-padded below 1000 |
| Ds18b20.PowerOnReading | ds18b20.c:408-426 | the power-on value 0x0550 prints as "85.0000" |
| Ds18b20.NegativeReading | ds18b20.c:410 | a negative reading (0xFF5E) prints through the logical shift as "4085.8750" |
| Ds18b20.ShiftSplit | ds18b20.c:410-411 | (helper) a reading is 16 × its high 12 bits plus its low nibble |
| Ds18b20.Sixteenths | ds18b20.c:410-411 | (helper) sixteenths times 625 split into whole ten-thousandths and the fraction |
| Ds18b20.Memset | ds18b20.c:408 | n cells from `at` are set to c and the rest are kept |
| Ds18b20.Itoa | ds18b20.c:413 | the decimal digits of n and a terminating NUL are written at `at`, and nothing else changes |
| Ds18b20.Strlen | ds18b20.c:414 | the result indexes the first NUL |
| Ds18b20.PrintWhole | ds18b20.c:408-414 | after the memset, itoa and strlen, the buffer holds the whole part's digits then NULs, with the cursor after the digits |
| Ds18b20.PutChar | ds18b20.c:415 | one character is appended to the terminated text |
| Ds18b20.PrintFraction | ds18b20.c:417-425 | the 4-digit fraction text is appended, padded by the '0' store or by the zero memset |
| Ds18b20.FillConcat | ds18b20.c:408-418 | (helper) runs of a fill character concatenate |
| Ds18b20.SpliceTerminated | ds18b20.c:413-425 | writing text and NULs over the terminator of a NUL-filled buffer extends its text |
| Ds18b20.Put | ds18b20.c:349 | copying an address over block j leaves every byte outside the block alone |
| Ds18b20.CopyAddress | ds18b20.c:349 | `memcpy` puts the 8 address bytes into block j of the buffer |
| Ds18b20.KeepValid | ds18b20.c:348-349 | a CRC-valid address is copied to block i and counted, with the 8-bit count wrapping; an invalid one changes nothing |
| Ds18b20.CollectRound | ds18b20.c:347-349 | one loop pass searches first, then stops when nothing is found or block i would end past len, else keeps the address when valid |
| Ds18b20.Search | ds18b20.c:339-352 | `ds18b20_search` starts from a fresh search state and returns, fills and leaves on the bus exactly what `Collect` specifies |
| Ds18b20.OnewireSearches | ds18b20.c:327-331 | every successful search consumes part of the script |
| Ds18b20.CollectBound | ds18b20.c:346-351 | for len below 2048 the count never wraps: it only grows, and 8 × found ≤ len |
| Ds18b20.CollectValid | ds18b20.c:348-349 | every block the count covers holds a CRC-valid address, stored contiguously |
| Ds18b20.CollectKeeps | ds18b20.c:346-351 | blocks copied earlier are kept, and nothing from the end of the last counted block on is written |
| Ds18b20.PutValid | ds18b20.c:348-349 | adding a valid address at block i keeps every block up to i valid |
| Ds18b20.PutBlock | ds18b20.c:349 | copying to block i changes block i and no other |
| Ds18b20.FullBufferStillSearches | ds18b20.c:347 | the capacity test follows the search: a full buffer still costs one search on the bus, and nothing is copied |
| OneWire.WriteBytes | onewire.c:89-101 | consecutive `onewire_write` calls log the bytes' write slots in order |
| OneWire.ResetLine | onewire.c:32-55 | a reset logs itself, consumes one sample and reports presence when the line is low |
| OneWire.Delay | onewire.c:178 | a millisecond wait is logged |
| OneWire.ReadPad | onewire.c:156-160 | nine consecutive bytes are read, and ok iff byte 8 is the CRC of bytes 0-7 |
| OneWire.Ds2438ReadPage | onewire.c:139-163 | `ds2438_read` performs the line function `Ds2438Read`; the buffer holds the page on success |
| OneWire.Ds2438ReadSequence | onewire.c:139-163 | success iff both resets see presence and the page CRC holds; the trace is reset, 0xCC 0xB8 page, reset, 0xCC 0xBE page, nine reads |
| OneWire.Ds1820ReadPad | onewire.c:233-249 | `ds1820_read` performs the line function `Ds1820Read` |
| OneWire.Ds1820ReadSequence | onewire.c:233-249 | success iff the reset sees presence and the scratchpad CRC holds; the trace is reset, 0xCC 0xBE, nine reads |
| OneWire.Ds1820Measuring | onewire.c:251-268 | `ds1820_measure` performs `Ds1820Measure`: the result is true iff a temperature is reported |
| OneWire.Ds1820MeasureSequence | onewire.c:251-268 | reset, 0xCC 0x44, then at once reset, 0xCC 0xBE and nine reads, with no conversion wait; the raw reading is bytes 1:0 and any failure leaves the output unwritten |
| OneWire.Ds2438VadPhase | onewire.c:168-194 | the first half of `ds2438_measure` performs `Ds2438Vad` |
| OneWire.Ds2438VadSequence | onewire.c:168-194 | on success the trace is reset, 0xCC 0x4E 0x00 0x00 (select VAD), 20 ms, reset, Convert T, 20 ms, reset, Convert V, 20 ms, then the page 0 read, and the buffer holds that page |
| OneWire.Ds2438VddPhase | onewire.c:198-220 | the second half of `ds2438_measure` performs `Ds2438Vdd` |
| OneWire.Ds2438VddSequence | onewire.c:198-220 | on success the trace is 20 ms, reset, 0xCC 0x4E 0x00 0x08 (select VDD), reset, Convert V, 20 ms, a bare reset, then the page 0 read, and the buffer holds that page |
| OneWire.Ds2438Measuring | onewire.c:165-231 | `ds2438_measure` performs `Ds2438Measure` |
| OneWire.Ds2438MeasureReport | onewire.c:165-231 | a report is written iff both page reads succeed, and carries vad from the first page, vdd and the temperature bytes from the second |
| OneWire.Voltage | onewire.c:196 | the voltage register times ten, reduced to 16 bits, is below 2^16 |
| OneWire.VoltageExact | onewire.c:196 | for the DS2438's 10-bit register the product times ten is exact |
| OneWire.TempFracRange | onewire.c:224 | the fraction is a multiple of 32 no larger than 992 thousandths |
| OneWire.OnewireMeasure | onewire.c:270-287 | `onewire_measure` performs `Dispatch` |
| OneWire.DispatchFamily | onewire.c:270-287 | no presence gives "NONE\r\n"; otherwise 0x33 then the family byte selects a 9-bit read (0x10), a 12-bit read (0x28), the DS2438 (0x26) or "UNKNOWN;0x" with two hex digits |
| OneWire.UnwrittenOnlyOnFailedReadout | onewire.c:280-286 | the output is left unwritten only when a recognised family's readout failed; the failure itself is ignored |
| OneWire.HexDigit | onewire.c:285 | a nibble prints as an upper-case hex digit of that value |
| OneWire.Hex2 | onewire.c:285 | `%02X` gives exactly two upper-case hex digits |
| OneWire.HexRoundTrip | onewire.c:285 | the two hex digits read back as the family byte |
| OneWire.Ds2438Read | onewire.c:139-163 | a successful read yields nine bytes |
| OneWire.Ds1820Read | onewire.c:233-249 | a successful read yields nine bytes |
| DecimalText.DigitsRoundTrip | ds18b20.c:413 | the decimal digits of n read back as n |
| DecimalText.DigitCount | ds18b20.c:413 | a number between 10^(k-1) and 10^k has k digits |
| DecimalText.DigitsAtMost | ds18b20.c:413 | a number below 10^k has at most k digits |
| DecimalText.ValueBelow | main.c:146 | a digit string of length k has a value below 10^k |
| DecimalText.Pow10Monotone | main.c:146 | powers of ten grow with the exponent |
| DecimalText.LeadingZeros | ds18b20.c:422-425 | leading zeros do not change a digit string's value |
| DecimalText.ZerosValue | ds18b20.c:417-418 | a string of zeros has value 0 |
| DecimalText.SignedField | main.c:86 | `%+07ld` gives at least 7 characters, starting with '-' for negative values and '+' otherwise |
| DecimalText.SignedFieldRoundTrip | main.c:86 | a `%+07ld` field parses back with `atol` to its value |
| DecimalText.DigitChar | ds18b20.c:413 | a digit value prints as the digit character of that value |
| DecimalText.Digits | ds18b20.c:413 | the decimal text of a number is a non-empty digit string |
| Stepper.SharedEnable | main.c:207-217 | with the driver off and a channel off target, the tick only switches the driver on; with it on and both channels settled, it switches it off and carries on |
| Stepper.EnablePinFollows | main.c:207-217 | the active-low enable pin stays the inverse of `enabled` |
| Stepper.TickSteps | main.c:219-263 | targets are unchanged, and each position moves by at most one step, toward its target and never past it, only on a driver-on tick with `step_high` false |
| Stepper.PhaseToggles | main.c:207-265 | `step_high` toggles on every tick except the one that switches the driver on |
| Stepper.SettledStays | main.c:219-263 | channels on target stay there, with targets unchanged, over any number of ticks |
| Stepper.TwoTicks | main.c:219-265 | with the driver on, two ticks bring each off-target channel exactly one step closer |
| Stepper.ConvergesEnabled | main.c:207-265 | with the driver on and targets fixed, both channels settle within 2 × the longer distance ticks |
| Stepper.Converges | main.c:207-265 | from any state, both channels settle within 1 + 2 × the longer distance ticks |
| Stepper.TicksAdd | main.c:205-266 | (helper) m then n ticks are m + n ticks |
| Stepper.TickInRange | main.c:50-53 | `int32_t` targets and positions stay in range through a tick |
| Stepper.SilentStepAsWritten | main.c:219-240 | as written, the tick that reaches a target leaves STEP high, so the next move's first counted step has no rising edge (counterexample) |
| Stepper.RisingEdgeEveryStep | main.c:219-240 | lowering STEP on target keeps "STEP high only in the high phase", and then every counted step raises STEP |
| Stepper.RetargetKeepsPins | main.c:96-159 | foreground changes to targets and positions keep the STEP-pin invariant |
| Commands.UpdateSlot | main.c:55-61 | the channel's slot reads back the target, and every other stored address is unchanged |
| Commands.SlotsApart | main.c:55-66 | updating one channel's slot leaves the other channel's value |
| Commands.MoveForm | main.c:130-165 | `[12][+-]…` is a move iff it has at most 9 characters and digits from index 2 on; otherwise it is answered "?\r\n" |
| Commands.MoveInRange | main.c:130-159 | an accepted move has at most 7 digits, so the value × 16 fits an `int32_t` |
| Commands.MoveRoundTrip | main.c:130-165 | every value of at most 7 digits can be commanded: its move line parses back to it |
| Commands.MoveThenStatus | main.c:84-158 | after a move, status reports the commanded value as the target, and that field reads back to the value |
| Commands.FieldWidth | main.c:86 | a `%+07ld` field of a value below 10^9 in magnitude is at most 10 characters |
| Commands.StatusFits | main.c:84-91 | the status line of `int32_t` positions fits the 128-byte buffer, so `snprintf` never truncates |
| Commands.RespondPersists | main.c:93-165 | every command that sets a target writes the same value to the channel's slot |
| Commands.FeedPersists | main.c:73-179 | whole runs of received bytes keep each slot equal to its channel's target |
| Commands.RespondInRange | main.c:93-168 | every command keeps the four positions and every EEPROM slot inside `int32_t` |
| Commands.FeedInRange | main.c:73-179 | whole runs of received bytes keep the four positions and every EEPROM slot inside `int32_t` |
| Commands.RespondKeepsPins | main.c:93-168 | commands touch no STEP or DIR pin |
| Commands.Replies | main.c:84-168 | one reply is printed for every line except a `1`/`2` command of no known form, which changes nothing |
| Commands.CrLfLeavesNewline | main.c:81-177 | after "?\r\n" the LF is stored on the empty buffer, so the next "1S" is refused |
| Commands.StatusThenNewline | main.c:81-91 | '?' then CR prints the status, and the LF that follows becomes the buffer's first character |
| Commands.NewlineLineRefused | main.c:93-168 | a line starting with '\n' is answered "?\r\n" |
| Commands.CrLfAfterLine | main.c:81-177 | with CR LF endings, any command of 1 to 16 plain characters is answered at its CR, and the LF is left as the next line's first character |
| Commands.NewlineFirstRefused | main.c:93-168 | any line starting with '\n' is answered "?\r\n" and changes nothing else, so with CR LF endings every command after the first is refused |
| Commands.FeedConcat | main.c:73-179 | (helper) feeding two runs of bytes one after the other is feeding their concatenation |
| Commands.FeedThree | main.c:75-79 | (helper) three available bytes are received in order |
| Commands.FeedPlain | main.c:172-177 | characters other than CR and LF accumulate up to 16, and later ones are dropped |
| Commands.Chars1 | main.c:174 | (helper) received values become characters in order |
| Commands.Chars | main.c:174 | one character per received value |
| Commands.OverrunAsWritten | main.c:174-176 | as written, a line longer than 16 characters stores into `command_buffer[16]`, one past the end |
| Commands.StoredStays | main.c:174-176 | (helper) later stores never erase the record of an earlier write |
| Commands.OverrunExample | main.c:174-176 | the 17-character line "0123456789ABCDEFG" writes cell 16 |
| Commands.CorrectedStoreAgrees | main.c:172-177 | the bounded store keeps the line within 16 cells, and within them holds what the code as written leaves |
| Controller.Focuser.constructor | main.c:181-196 | start-up: both channels' target and position are restored from their slots, the driver is off, the enable pin is high and nothing is buffered |
| Controller.Focuser.Tick | main.c:205-266 | the interrupt performs `Stepper.Tick` and touches neither the EEPROM, the replies nor the buffer |
| Controller.AdvanceChannel | main.c:219-240 | one channel's block of the interrupt performs `Stepper.Advance` |
| Controller.Focuser.StopHere | main.c:98-109 | the critical section sets target := position and persists it |
| Controller.Focuser.ZeroHere | main.c:115-126 | the critical section sets target := position := 0 and persists it |
| Controller.Focuser.MoveTo | main.c:147-160 | the critical section sets target := value × 16 and persists it |
| Controller.Focuser.Print | main.c:68-71 | a message is appended to what has been sent |
| Controller.Focuser.IsNumber | main.c:132-140 | true iff the line has at most 9 characters and every character from index 2 on is a digit |
| Controller.Focuser.Execute | main.c:83-168 | a complete line does what `Commands.Respond` specifies, without touching the interrupt's state |
| Controller.Focuser.Receive | main.c:81-177 | one received character does what `Commands.Receive` specifies, with the corrected store |
| Controller.Focuser.Loop | main.c:73-179 | `loop()` performs `Commands.Feed`: values in order until a negative one |
| Controller.TickPersists | main.c:205-266 | the interrupt keeps each slot equal to its target |
| Controller.PowerCycleRestores | main.c:187-188 | after any run that kept the slots equal to the targets, a power cycle restarts each channel on its old target, settled, with the driver off |
| Controller.StartInvariants | main.c:181-196 | the start-up state satisfies the corrected STEP-pin invariant, has slots equal to targets, and has the enable pin following `enabled` |
| Controller.StartInRange | main.c:181-196 | start-up from an EEPROM of `int32_t` dwords puts every target and position inside `int32_t` |
| Controller.TickHostInRange | main.c:205-266 | a tick keeps the positions inside `int32_t` and leaves the EEPROM slots as they are |
| Controller.StartupStatusFits | main.c:84-91 | after start-up on an EEPROM of dwords and any run of received bytes, the status line fits the 128-byte buffer |

## Left out

- Microsecond slot timing and GPIO direction changes (`gpio.c`): each reset, write slot and read slot is one trace event, and `_delay_us` is not recorded. `_delay_ms` appears as a `Wait` event whose duration is recorded but not checked.
- Floating-point code: the DS1820/DS18B20 `%0.1f`/`%0.3f` texts and the DS2438 temperature and humidity formula. The model reports the integer inputs of those formulas (`Temperature(bits, raw)`, `Humidity(vad, vdd, integer, frac)`).
- USB transport (`usb.c`, LUFA CDC): `usb_read` values are an input sequence, and `print_string` appends to a list of replies.
- True interrupt/foreground concurrency: each `cli()`/`sei()` section and the interrupt are atomic methods. Preemption is interleaved calls.
- Timer and pin configuration in `main` (main.c:183-185, 190-195) beyond the pin levels they leave.
- EEPROM hardware and wear: the EEPROM is a map from address to `int32_t`. An address never written reads -1, the erased pattern.
- onewire.c's copies of `crc8`, `onewire_reset` and the byte and bit transfers are the same code as ds18b20.c's. They are modelled once, in `Crc` and `OneWireBus`.
- `itoa`, `strlen`, `memset`, `snprintf`'s `%+07ld`, `%02X` and `atol` are modelled by their documented effect on the characters, not by their library code.
- Completeness of the ROM search (that repeated searches enumerate every device on the bus) is not stated. It depends on how real devices answer, which the scripted oracle leaves free.
- The header-level build defects (shared include guard, the undefined `ds2438_search`, the `usb_initialize` signature mismatch) are not behaviour.
- Ds18b20.CollectBound: requires `len < 2048`, because the `uint8_t` count and `8 * (i + 1)` stay exact only there. Ds18b20.CollectValid and Ds18b20.CollectKeeps carry the same bound.
- Ds18b20.Search: returns the `uint8_t` count as a nat below 256, and `Collect` wraps the increment with `% 256`.
- OneWireBus.ReadInto: fills the whole buffer. Both callers read exactly the buffer's length.
- Controller.Focuser.Receive: stores a character only while the buffer has room, so the write one past the end of `command_buffer` (main.c:174) is not performed. The write as written is `Commands.StoreAsWritten`, and `Commands.CorrectedStoreAgrees` shows the two agree on the 16 buffer cells.

## Findings

| source | as written | input that shows it | evidently intended | confidence | as-written member | corrected member |
|---|---|---|---|---|---|---|
| ds18b20.c:265, ds18b20.c:288 | a replayed conflict keeps `address[byteIndex] & (1 << bitIndex)` (the mask, not 0/1). Line 288 shifts it by `bitIndex` again, setting stray bit 2·bitIndex of the same byte, and a later replay there reads the stray bit | last zero branch 10, previous address byte 0 = 0x02, conflicts (0,0) at positions 0-2: position 2 writes 1 where the previous address had 0 | repeat the previous address's bit (0 or 1) before the last zero branch, as application note 187 and the comment at line 264 say | not executed | RomSearch.ReplayDeviates | RomSearch.ChoiceNormalised |
| main.c:219-240 | STEP is driven low only while a channel is off target, so the tick that reaches the target leaves it high | channel 1 at 0 moving to 1: after three ticks it is settled with STEP high; a move to 2 then counts its first step with STEP already high, giving no rising edge | drive STEP low on the high phase whether or not the channel is on target, so every counted step is a rising edge | not executed | Stepper.SilentStepAsWritten | Stepper.RisingEdgeEveryStep |
| main.c:174 | the byte is stored at `command_buffer[command_length]` before the bound check, and `command_length` saturates at 16, so it writes index 16, past the 16-byte buffer | the 17-character line "0123456789ABCDEFG" with no CR/LF | store only while `command_length < 16` | not executed | Commands.OverrunExample | Commands.CorrectedStoreAgrees |
