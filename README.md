# SSD1351 panel driver, window adaptor, snake board and 16×16 font — a Dafny model

This project models, and proves properties of, the logic of a small bare-metal
snake game. The game runs on a 128×128 SSD1351 OLED panel. The model has four parts:

- **The SSD1351 command encoder** (`ssd1351.dfy`, over `bus.dfy`).
  - The driver object runs the reset sequence on the reset and chip-select
    pins. It then sends commands.
  - Each command is an opcode byte with the data/command (D/C) line low,
    optionally followed by a payload with D/C high.
  - The pins, the millisecond delays and the SPI transfers are one append-only
    trace of events: `Pin(pin, level)`, `Wait(ms)`, `Xfer(bytes)`.
  - A ghost log holds the same traffic read as commands. The class invariant
    ties the two together: the trace is the reset sequence followed by the
    encoding of the log.
  - Every payload expression is a function. Its contract says which bits of the
    byte hold which parameter.
  - The encoding round-trips: `Decode(EncodeAll(cs)) == Some(cs)`, and a trace
    that decodes to `cs` is `EncodeAll(cs)`.
- **The cursor-tracking window adaptor** (`window.dfy`).
  - The adaptor caches where the panel's address pointer will be after the last
    pixel written.
  - It sends a column or row addressing command only when a write does not land
    at the cached position.
  - Its constructor runs a fixed bring-up sequence, stated command by command
    and byte by byte.
  - It has an RGB888 to RGB565 quantiser.
  - For any number of in-order writes from the origin, the model proves where
    the cursor is and how many addressing commands are sent.
- **The snake board** (`snake.dfy`).
  - A class around a 1024-cell `array<u16>` map, updated in place by loops, as in
    the source.
  - Cell values: 0 empty, 1 wall, 2 food, and above 2 a snake segment whose value
    is its remaining lifetime plus 2.
  - The head, the length and score counters, and the 2-bit heading fields are
    mutable fields.
  - The window is a recorder of pixel writes. Each board cell is a 4×4 block of
    panel pixels.
  - Proved: wall setup, movement with hit classification, tail ageing, food
    placement, one game tick, steering, digit counting and the padded score text.
- **The 16×16 colour font** (`font.dfy`).
  - The character to glyph mapping, the glyph offsets in the font table, and the
    bit a pixel of a glyph image selects.

`wrappers.dfy` holds `Option`. `graphics.dfy` holds the `u8`/`u16` widths and the
colour record.

Details of the code the model keeps exactly:

- The reset sequence is chip-select low, reset high, wait 10 ms, reset low,
  wait 10 ms, reset high, wait 10 ms.
- `set_cursor` decides the column and the row separately. It sends a column
  command only when x differs from the cache, and a row command only when y
  differs.
- In-order writes still send addressing commands. After the last pixel of
  every row the adaptor sends a column command `(0, 127)`. After the last pixel
  of the panel it sends that column command and a row command `(0, 127)`.
  `Window.SequentialWritesAddressing` counts them: `n / 128 + n / 16384` for `n`
  writes, and `Window.WriteInOrder` shows that a caller writing `n` pixels in
  order produces exactly that traffic.
- `clear` makes one `set_cursor(0, 0)`, which sends nothing when the cursor is
  already at the origin. Then it sends one `0x5C` command per pixel.
- The panel size is fixed at 128×128.

## Model

| member | source | states |
|---|---|---|
| Bus.EncodeAllStartsWithCommand | ssd1351/ssd1351.cpp:27-33 | The traffic of a non-empty command sequence starts by pulling D/C low, and only the empty sequence has empty traffic |
| Bus.EncodeReadsBack | ssd1351/ssd1351.cpp:27-41 | The traffic one command puts on the wire (D/C low, opcode, and for a payload D/C high and the payload) reads back as exactly that one command |
| Bus.EncodeAllAppend | ssd1351/ssd1351.cpp:27-41 | The traffic of two command sequences one after the other is the concatenation of their traffic |
| Bus.DecodeEncode | ssd1351/ssd1351.cpp:27-41 | Reading the traffic of any command sequence back gives exactly that sequence: the wire format is unambiguous |
| Bus.EncodeDecode | ssd1351/ssd1351.cpp:27-41 | Conversely, any trace that reads back as a command sequence is exactly that sequence's traffic |
| Ssd1351.Mask7 | ssd1351/ssd1351.cpp:91 | `value & 0x7F` is the value mod 128 |
| Ssd1351.Mask4 | ssd1351/ssd1351.cpp:74 | `value & 0x0F` is the value mod 16 |
| Ssd1351.Mask3 | ssd1351/ssd1351.cpp:243 | `value & 0x07` is the value mod 8 |
| Ssd1351.ClockDividerPayload | ssd1351/ssd1351.cpp:66 | The byte's high nibble is the frequency mod 16 and its low nibble the divider mod 16: the uint8_t truncation drops the frequency's high bits |
| Ssd1351.PhaseLengthPayload | ssd1351/ssd1351.cpp:83 | High nibble is phase 2 mod 16, low nibble phase 1 mod 16 |
| Ssd1351.InterfacePayload | ssd1351/ssd1351.cpp:112 | The byte is `(iface mod 4) * 64 + regulator`: interface in bits 7..6, regulator in bit 0, nothing else set |
| Ssd1351.LockPayload | ssd1351/ssd1351.cpp:121 | 0x16 when locking, 0x12 when unlocking; bit 2 is set exactly when locking |
| Ssd1351.PowerOptionsPayload | ssd1351/ssd1351.cpp:132 | 0xB1 when extended commands are allowed, 0xB0 otherwise |
| Ssd1351.DisplayModeOpcode | ssd1351/ssd1351.cpp:189 | The opcode lies in 0xA4..0xA7 and is 0xA4 plus the mode mod 4 |
| Ssd1351.SleepOpcode | ssd1351/ssd1351.cpp:196 | 0xAE (panel off) when sleep is true, 0xAF when false |
| Ssd1351.RemapPayload | ssd1351/ssd1351.cpp:220-221 | Depth mod 4 in bits 7..6, split in bit 5, scan in bit 4, bit 3 always clear, sequence in bit 2, map in bit 1, increment in bit 0 |
| Ssd1351.VslPayload | ssd1351/ssd1351.cpp:231 | Three bytes: 0xA0 plus v mod 4, then the constants 0xB5 and 0x55 |
| Ssd1351.AddressPayload | ssd1351/ssd1351.cpp:169 | Two bytes: start mod 128, then end mod 128 |
| Ssd1351.ResetSequenceHasNoTransfers | ssd1351/ssd1351.cpp:3-24 | The reset sequence has seven events and transfers no byte over the bus |
| Ssd1351.TraceReadsBack | ssd1351/ssd1351.cpp:3-57 | A trace that is the reset sequence followed by encoded commands starts with the reset sequence, and the rest reads back as exactly those commands |
| Ssd1351.Ssd1351.constructor | ssd1351/ssd1351.cpp:3-24 | The trace is exactly: chip-select low, reset high, wait 10, reset low, wait 10, reset high, wait 10; no command has been sent |
| Ssd1351.Ssd1351.WriteCommand | ssd1351/ssd1351.cpp:27-33 | Appends D/C low, then one transfer of the first `size` bytes of the buffer |
| Ssd1351.Ssd1351.WriteData | ssd1351/ssd1351.cpp:35-41 | Appends D/C high, then one transfer of the first `size` bytes of the buffer |
| Ssd1351.Ssd1351.WriteCommandByte | ssd1351/ssd1351.cpp:43-45 | Appends D/C low and a one-byte transfer |
| Ssd1351.Ssd1351.WriteDataByte | ssd1351/ssd1351.cpp:47-49 | Appends D/C high and a one-byte transfer |
| Ssd1351.Ssd1351.WriteScreenData | ssd1351/ssd1351.cpp:51-57 | Appends command 0x5C with the caller's first `size` bytes as payload, unchanged and in order; keeps the trace/log invariant |
| Ssd1351.Ssd1351.SetClockDivider | ssd1351/ssd1351.cpp:59-67 | Appends exactly command 0xB3 with the clock-divider byte |
| Ssd1351.Ssd1351.SetGpio | ssd1351/ssd1351.cpp:69-75 | Appends exactly 0xB5 with gpio mod 16 |
| Ssd1351.Ssd1351.SetPhaseLength | ssd1351/ssd1351.cpp:77-84 | Appends exactly 0xB1 with the phase byte |
| Ssd1351.Ssd1351.SetDisplayOffset | ssd1351/ssd1351.cpp:86-92 | Appends exactly 0xA2 with offset mod 128 |
| Ssd1351.Ssd1351.SetDisplayStartLine | ssd1351/ssd1351.cpp:94-100 | Appends exactly 0xA1 with start line mod 128 |
| Ssd1351.Ssd1351.SetInterfaceRegisters | ssd1351/ssd1351.cpp:102-113 | Appends exactly 0xAB with the interface byte |
| Ssd1351.Ssd1351.SetCommandLock | ssd1351/ssd1351.cpp:115-122 | Appends exactly 0xFD with 0x16 or 0x12 |
| Ssd1351.Ssd1351.EnablePowerOptions | ssd1351/ssd1351.cpp:124-133 | Appends exactly 0xFD with 0xB0 or 0xB1 |
| Ssd1351.Ssd1351.SetColorContrast | ssd1351/ssd1351.cpp:135-142 | Appends exactly 0xC1 with the three bytes a, b, c unchanged |
| Ssd1351.Ssd1351.SetMasterContrast | ssd1351/ssd1351.cpp:144-154 | Appends exactly 0xC7 with contrast mod 16 |
| Ssd1351.Ssd1351.SetMuxRatio | ssd1351/ssd1351.cpp:156-161 | Appends exactly 0xCA with ratio mod 128 |
| Ssd1351.Ssd1351.SetColumnAddress | ssd1351/ssd1351.cpp:163-171 | Appends exactly 0x15 with start and end mod 128 |
| Ssd1351.Ssd1351.SetRowAddress | ssd1351/ssd1351.cpp:173-181 | Appends exactly 0x75 with start and end mod 128 |
| Ssd1351.Ssd1351.SetDisplayMode | ssd1351/ssd1351.cpp:183-190 | Appends exactly the data-less opcode 0xA4 \| (mode & 3) |
| Ssd1351.Ssd1351.SetSleepMode | ssd1351/ssd1351.cpp:192-197 | Appends exactly the data-less opcode 0xAF - sleep |
| Ssd1351.Ssd1351.SetRemapColorDepth | ssd1351/ssd1351.cpp:199-222 | Appends exactly 0xA0 with the packed remap byte |
| Ssd1351.Ssd1351.SetExternalVsl | ssd1351/ssd1351.cpp:225-233 | Appends exactly 0xB4 with its three payload bytes |
| Ssd1351.Ssd1351.SetComDeselectVoltage | ssd1351/ssd1351.cpp:235-244 | Appends exactly 0xBE with voltage mod 8 |
| Ssd1351.Ssd1351.SetSecondPrecharge | ssd1351/ssd1351.cpp:246-256 | Appends exactly 0xB6 with precharge mod 16 |
| Window.ColorToData | ssd1351/hwlib_ssd1351.hpp:48-52 | Bits 15..11 hold red*31/255, bits 10..5 green*63/255, bits 4..0 blue*31/255, with truncating division; the result fits in 16 bits |
| Window.ColorToDataExamples | ssd1351/hwlib_ssd1351.hpp:48-52 | Pure red gives 0xF800, white 0xFFFF, black 0 |
| Window.PixelBytes | ssd1351/hwlib_ssd1351.hpp:113 | Two bytes, high byte first, that recombine to the 16-bit colour |
| Window.BringUpOrder | ssd1351/hwlib_ssd1351.hpp:55-99 | The 20 bring-up commands: lock-off FD 12, power options FD B1, sleep on AE first; no sleep command in between; column (0,127) and row (0,127) as 18th and 19th; sleep off AF last |
| Window.BringUpSettingsBytes | ssd1351/hwlib_ssd1351.hpp:65-92 | The 14 settings go out as B3 1F, CA 7F, A0 74, A1 00, A2 00, B5 00, AB 01, B1 32, B4 A0 B5 55, BE 05, C7 0F, B6 01, A6, C1 FF FF FF |
| Window.Unlock | ssd1351/hwlib_ssd1351.hpp:59-64 | Appends lock-off, power options on and sleep on, in that order |
| Window.ProgramSettings | ssd1351/hwlib_ssd1351.hpp:65-92 | Appends the fourteen fixed settings, in the constructor's order |
| Window.Wake | ssd1351/hwlib_ssd1351.hpp:93-98 | Appends the full-panel column and row window, then sleep off |
| Window.BringUp | ssd1351/hwlib_ssd1351.hpp:59-98 | The three phases in order; from an empty log the log is exactly the bring-up commands |
| Window.HwlibSsd1351.constructor | ssd1351/hwlib_ssd1351.hpp:55-99 | A fresh driver (reset sequence first), then exactly the bring-up commands; cursor at (0, 0) |
| Window.HwlibSsd1351.SetCursor | ssd1351/hwlib_ssd1351.hpp:26-40 | Appends a column command (tx, 127) exactly when the cached x differs, then a row command (ty, 127) exactly when the cached y differs; the cache becomes (tx, ty) |
| Window.CursorCommandsEmptyIff | ssd1351/hwlib_ssd1351.hpp:26-40 | set_cursor sends nothing if and only if the target is the cached cursor |
| Window.HwlibSsd1351.WriteImplementation | ssd1351/hwlib_ssd1351.hpp:108-145 | For a write at (px, py), truncated to uint8_t: the set_cursor commands, then 0x5C with exactly the two colour bytes, then the advance commands; the cursor moves to the next position |
| Window.HwlibSsd1351.Advance | ssd1351/hwlib_ssd1351.hpp:121-144 | Within a row x increments with no command; at a row end the cursor goes to the next row's start with one column (0,127) command; at (127,127) it returns to (0,0) with column and row commands |
| Window.NextCursorOnPanel | ssd1351/hwlib_ssd1351.hpp:121-144 | A cursor on the 128×128 panel stays on it |
| Window.AdvanceAddressing | ssd1351/hwlib_ssd1351.hpp:121-144 | A write sends 0 addressing commands after itself inside a row, 1 at a row end and 2 at the panel end |
| Window.CursorAfterIs | ssd1351/hwlib_ssd1351.hpp:121-144 | After n in-order writes from the origin the cursor is (n mod 128, (n div 128) mod 128) |
| Window.FullPanelReturnsToOrigin | ssd1351/hwlib_ssd1351.hpp:136-144 | After any whole number of full panels of in-order writes the cursor is back at (0, 0) |
| Window.SequentialWritesAddressing | ssd1351/hwlib_ssd1351.hpp:108-144 | n in-order writes from the origin send exactly n/128 + n/16384 addressing commands |
| Window.WriteAtCursor | ssd1351/hwlib_ssd1351.hpp:108-145 | One write_implementation call at the cached cursor, after i in-order writes, extends the traffic to that of i + 1 in-order writes and moves the cursor to where i + 1 writes leave it |
| Window.WriteInOrder | ssd1351/hwlib_ssd1351.hpp:108-145 | n write_implementation calls in order from the origin send exactly the traffic whose addressing SequentialWritesAddressing counts, and leave the cursor at (n mod 128, (n div 128) mod 128) |
| Window.HwlibSsd1351.Clear | ssd1351/hwlib_ssd1351.hpp:152-167 | set_cursor(0, 0)'s commands (none if already at the origin), then 16384 identical 0x5C commands with the background bytes; cursor at (0, 0) |
| Window.HwlibSsd1351.Flush | ssd1351/hwlib_ssd1351.hpp:175-177 | Sends nothing and changes no state |
| Game.Index | snake/snake.cpp:12 | x + 32 y is a valid map index for every position on the board |
| Game.BorderIndex | snake/snake.cpp:18-44 | A position's index is on the border exactly when the position is in row 0 or 31 or column 0 or 31 |
| Game.BlockPixelsOnPanel | snake/snake.cpp:144-160 | Every pixel of a block below 1024 lies in [0,127]² |
| Game.BlockPixelsInverse | snake/snake.cpp:144-160 | Every pixel write_screen_block(b) draws maps back to block b |
| Game.BlockPixelsCover | snake/snake.cpp:144-160 | Every panel pixel is drawn by the block it maps to, at position 4 (y mod 4) + x mod 4 of its 16 writes |
| Game.Snake.WriteScreenBlock | snake/snake.cpp:144-160 | Appends the 16 pixel writes of the 4×4 square at (4 (b mod 32), 4 (b div 32)), rows outer, columns inner |
| Game.HitCode | snake/snake.cpp:129-141 | 0 exactly for an empty cell, 1 exactly for food, 2 exactly for a wall or a segment |
| Game.Inc | snake/snake.cpp:236 | uint16_t ++ wraps modulo 65536 |
| Game.SegmentLifetime | snake/snake.cpp:73-92 | A segment of value v > 2 loses one per tick and becomes empty after exactly v - 2 ticks; empty, wall and food cells never change |
| Game.AgedKeepsWallsAndFood | snake/snake.cpp:73-92 | Ageing keeps every wall and every piece of food |
| Game.Snake.ScreenSnakeUpdate | snake/snake.cpp:73-92 | The map becomes its aged copy (3 to 0, above 3 decremented, the rest unchanged); a background block is drawn for each cell that was 3, in index order |
| Game.RowWallsContents | snake/snake.cpp:18-30 | The first wall loop draws exactly the blocks of row 0 and row 31 |
| Game.SideWallsContents | snake/snake.cpp:32-44 | The second wall loop draws exactly column 0 and column 31 of rows 1..30 |
| Game.BorderSplit | snake/snake.cpp:18-44 | The cells the two loops wall in together are exactly the border |
| Game.WallLoopsBuildWalled | snake/snake.cpp:18-44 | The two loops in sequence set the border to 1 and leave every other cell as it was |
| Game.WalledHasWalls | snake/snake.cpp:18-44 | Once the border is walled in, every border cell holds a wall, whatever the board held before |
| Game.WallsUpdate | snake/snake.cpp:127 | Writing any value to an interior cell keeps every border wall |
| Game.WallBlocksAreBorder | snake/snake.cpp:18-44 | A block is drawn grey by the wall loops exactly when it is on the border |
| Game.Snake.BuildRowWalls | snake/snake.cpp:18-30 | Rows 0 and 31 become walls, all other cells unchanged; the grey blocks are drawn pairwise in loop order |
| Game.Snake.BuildSideWalls | snake/snake.cpp:32-44 | Columns 0 and 31 of rows 1..30 become walls, all other cells unchanged |
| Game.Snake.PlaceHeadAndWalls | snake/snake.cpp:11-44 | The head cell gets length + 2, then the border becomes walls; no other cell changes; head block green, then the walls grey |
| Game.FoodCellInterior | snake/snake.cpp:98-99 | rand() % 30 + 1 on both axes always proposes an interior cell |
| Game.FirstFreeMeaning | snake/snake.cpp:94-113 | The search finds the first draw whose cell is empty, and finds none exactly when no draw proposes an empty cell |
| Game.Snake.SpawnFood | snake/snake.cpp:94-113 | Stores 2 in exactly the first proposed empty cell, which was 0, and paints it red; with no acceptable draw, nothing changes |
| Game.Snake.SetupGame | snake/snake.cpp:7-48 | The head, the walls and then the food, with the border all walls and food on one previously empty cell |
| Game.DeltaSteps | snake/snake.cpp:50-71 | The four deltas are unit steps along one axis, pairwise distinct, and d, d + 2 are opposite |
| Game.Snake.Move | snake/snake.cpp:115-142 | The head moves by the delta, is painted green, its cell is overwritten with length + 2, and the result classifies the old cell value |
| Game.Snake.MoveDirection | snake/snake.cpp:50-71 | Directions 0..3 move by (-1,0), (0,1), (1,0), (0,-1); any other value changes nothing and returns 0 |
| Game.Snake.Tick | snake/snake.cpp:224-261 | last_direction := direction, move, age; on food score and length rise by one (mod 65536) and food respawns; unless the move hit, the head stays inside the walls and the border stays walled |
| Game.Snake.ChangeDirection | snake/snake.cpp:162-175 | The heading after the presses is the 2-bit change_direction rule applied to the old heading |
| Game.TurnKeepsSteerableInside | snake/snake.cpp:162-175 | When the last heading is 1 or 2, change_direction never turns the snake back onto itself |
| Game.TurnReversesAtWrap | snake/snake.cpp:162-175 | With last heading 3, two presses of button 1 give heading 1; with last heading 0, two presses of button 2 give heading 2; both reverse the snake |
| Game.TurnIntendedKeepsSteerable | snake/snake.cpp:162-175 | The corrected rule never lets the heading reach the reverse of the last heading |
| Game.TurnIntendedAgreesOnFirstPress | snake/snake.cpp:162-175 | The corrected rule agrees with the code on any single press from the last heading |
| Game.DigitsBounds | snake/snake.cpp:293-305 | 0 has 0 digits; a positive n with k digits satisfies 10^(k-1) <= n < 10^k |
| Game.CountDigits | snake/snake.cpp:293-305 | countdigits returns the number of decimal digits, 0 for 0 |
| Game.DecimalLength | snake/snake.cpp:348 | The printed score has as many characters as digits, and one for 0 |
| Game.DecimalValue | snake/snake.cpp:348 | The printed score is digits only and reads back as the score |
| Game.ValueZeros | snake/snake.cpp:342-345 | Leading zeros do not change the number a digit string reads as |
| Game.ScoreTextAsWrittenAtZero | snake/snake.cpp:342-348 | As written, score 0 prints "00000", five characters |
| Game.ScoreTextMeaning | snake/snake.cpp:342-348 | Corrected padding: a score below 10000 prints as exactly four digits; every score reads back as itself |
| Game.ScoreTextAgrees | snake/snake.cpp:342-348 | For every positive score the code prints the corrected text |
| Game.Snake.constructor | snake/snake.hpp:36-55 | All 1024 cells 0, head (16, 16) inside the walls, length 3, score 0, both headings 0, nothing drawn |
| Font.ReadIndexIsStreamBit | font/hwlib-font-color-16x16.hpp:20-24 | The byte and bit get_implementation tests for (x, y) are bit 16 y + x - 1 of the glyph's bit stream |
| Font.GetImplementation | font/hwlib-font-color-16x16.hpp:19-28 | Foreground exactly when that bit is set, background otherwise |
| Font.GetImplementationReadsOutside | font/hwlib-font-color-16x16.hpp:20-23 | Column 0 reads row byte 2 y - 1, so pixel (0, 0) reads the byte before the glyph |
| Font.GetImplementationShownBits | font/hwlib-font-color-16x16.hpp:20-24 | As written the pixels show stream bits -1..254: bit 0 of the glyph's last byte is never shown, and pixel (0, y + 1) shows bit 0 of byte 2 y + 1 |
| Font.IntendedReadIndexIsStreamBit | font/hwlib-font-color-16x16.hpp:19-28 | With x = 15 - pos.x, the pixel (x, y) tests bit 16 y + x of the glyph |
| Font.GetIntended | font/hwlib-font-color-16x16.hpp:19-28 | Corrected reading: stays inside the glyph's 32 bytes and shows bit 16 y + x |
| Font.IntendedBitsArePixels | font/hwlib-font-color-16x16.hpp:19-28 | Under the corrected reading each of the 256 glyph bits belongs to exactly one pixel |
| Font.GlyphNumberPrintable | font/hwlib-font-color-16x16.hpp:62-66 | Every code maps to one of the 95 glyphs, and distinct printable codes map to distinct glyphs |
| Font.GlyphOffsetsDisjoint | font/hwlib-font-color-16x16.hpp:67 | The 32-byte glyphs at 4 + 32 g of different glyph numbers do not overlap |
| Font.GlyphImageShape | font/hwlib-font-color-16x16.hpp:61-69 | The image for every 7-bit code is 16×16 in the font's colours, and its data is one of the 95 glyphs: at header + 32 k for some k < 95 |
| Font.FontColor16x16.constructor | font/hwlib-font-color-16x16.hpp:61-69 | Slot i holds the image of glyph GlyphNumber(i) at offset 4 + 32 GlyphNumber(i), in the given colours, for all 128 slots |
| Font.CharIndex | font/hwlib-font-color-16x16.hpp:74 | `c & 0x7F` is below 128 and is c mod 128 |
| Font.FontColor16x16.Get | font/hwlib-font-color-16x16.hpp:73-75 | operator[] returns the image of slot c & 0x7F, which is the glyph image for c mod 128 |

## Left out

- The SPI transport (hardware/hwspi.hpp) is not part of this model. Each `write_and_read` call on its write-only path is one `Xfer` event. Its `cs` argument is ignored by the transport and is not recorded.
- hardware/variant.h and main.cpp (pin, clock and bus wiring) are not part of this model.
- Delays are `Wait(ms)` events in the trace. Time itself is not modelled.
- `run`'s timing, button polling and `now_ms` are left out, because they are real-time input. `Game.Snake.Tick` models one frame step of the loop, and `Game.Snake.ChangeDirection` takes the button bits as a parameter.
- `start_screen` and the text output of `death_screen` are left out: the bitmap and the hwlib text stream are not shown. The score text those lines print is modelled as strings (`Game.ScoreTextAsWritten`).
- `death_screen`'s loop of `screen_snake_update` calls is left out as a loop. Each call is `Game.Snake.ScreenSnakeUpdate`, and `Game.SegmentLifetime` covers repeated ageing.
- `srand`/`rand` are a parameter: the sequence of draws `spawn_food` consumes.
- `Game.Snake.SpawnFood` ends with `placed == false` when the draws run out. The source keeps looping, possibly forever: the model cannot express a non-terminating search.
- The hwlib base classes (`window`, `image`, `font`, `window_ostream`, `location`) and the font table `font_16x16_data` are not shown.
  - The font table is a parameter, and an image's data pointer is an offset into it.
  - `clear` takes the window background colour as a parameter.
- `Game.Snake.WriteScreenBlock`: colours in the snake model are symbolic (green, grey, red, background). Pixel writes go to a recorder. The window's own handling of a pixel is not modelled.
- `Game.Snake.Move` requires the target to be on the board. It does not model the 32-bit unsigned wrap of `head.x += x` off the board's edge. `Game.Snake.Tick` proves the head never leaves the walls while the game runs.
- `Font.CharIndex` takes the char as a byte. The signedness of `char` does not matter for `c & 0x7F`.
- The size passed to the hwlib window base class is not modelled. The constructor passes `location(height, width)` at ssd1351/hwlib_ssd1351.hpp:56. C++ initialises the base before the members `height` and `width` (lines 13-14), so at that point they hold no value yet and the size the base receives is indeterminate. The adaptor's own geometry is the constants 128 × 128.

## Findings

| source | as written | input that shows it | evidently intended | confidence | as-written member | corrected member |
|---|---|---|---|---|---|---|
| snake/snake.cpp:162-175 | increments when `direction <= last_direction` and decrements when `direction >= last_direction`. The comparison is unsigned on 2-bit fields that wrap | last_direction 3, direction 3: two presses of button 1 in one frame give 3 → 0 → 1, the reverse of 3. last_direction 0: two presses of button 2 give 0 → 3 → 2 | the heading stays within a quarter turn of the last heading | not executed | Game.TurnReversesAtWrap | Game.TurnIntendedKeepsSteerable |
| font/hwlib-font-color-16x16.hpp:19-28 | `x = 16 - pos.x` selects bit 16 y + x - 1 of the glyph, one bit early | pixel (0, 0) reads bit 0 of byte `data[-1]`, before the glyph. Bit 0 of the glyph's last byte is never shown; every other row's bit 0 appears one row down at x = 0 | `x = 15 - pos.x`: pixel (x, y) shows bit 16 y + x inside the glyph | not executed | Font.GetImplementationReadsOutside | Font.GetIntended |
| snake/snake.cpp:342-348 | pads with `4 - countdigits(score)` zeros, but `countdigits(0)` is 0 | score 0 prints "0000" then "0", five characters | the score is padded to four characters | not executed | Game.ScoreTextAsWrittenAtZero | Game.ScoreTextMeaning |

The class method `Game.Snake.ChangeDirection` keeps the as-written rule (`Game.Turn`), because it models the code. `Game.TurnIntended` is the corrected rule. `Font.GetImplementation` also models the code as written.
