# Verified models of ethersex components

[ethersex](https://github.com/ethersex/ethersex) is firmware for AVR microcontrollers with a few host
tools. This project models the parts of it that are pure state or arithmetic, in Dafny 4.11, and proves
what they promise. `dafny verify dfyconfig.toml` checks everything.

| files | component |
|---|---|
| `RomCodes`, `RomSearch`, `SensorTable`, `SensorSlots`, `OneWire` | the 1-Wire ROM search over a wired-AND bus and the sensor slot table it feeds |
| `Hd44780`, `TtyModel`, `PaperTerminal`, `Tty`, `TtySession` | the curses-like window layer with its shadow image over an HD44780 display |
| `Md5Spec`, `Md5`, `Md5Vector` | MD5 (RFC 1321): rotating registers, computed indices, streaming and padding, and one digest of section A.5 |
| `Feistel`, `Cast5Spec`, `Cast5Laws`, `Cast5` | CAST-128 (RFC 2144): key schedule, packed rotation keys, round functions, encryption and decryption |
| `ZbusFraming`, `ZbusHost` | the ZBUS byte-stuffing codec of the serial host tool |
| `Crc16`, `Crc16Burst`, `Crc16Parity`, `Crc8` | the 1-Wire CRC-16 and the iButton CRC-8 in its three forms |
| `InlineFs`, `VfsInline` | the inline flash file system: the tool that appends files and the firmware that scans and reads |
| `Enc28j60`, `Enc28j60Setup` | the ENC28J60 driver's cached register bank, and the chip as initialisation leaves it |
| `FixedPoint` | the fixed-point number printer |
| `Arith`, `Bytes`, `Words` | shared arithmetic facts, the byte type, and 32-bit words with their bytes and rotations |

Code that updates state step by step is modelled as methods over arrays and objects and proved against
specification functions; what the component promises is then proved about those functions. Hardware is
modelled by small abstract devices: a 1-Wire bus is a fixed set of 64-bit strings of which the selected
ones answer, a display is its 128-byte memory and a position, an Ethernet controller is its bank-select
bits, a log of accesses and a script of what its registers hold at each read. Characters are unsigned
bytes, as the firmware's build flags make them. Tables of constants (the MD5 sine table, the eight CAST
S-boxes) are parameters, so the results hold for every contents; one digest is worked out with the sine
table of the RFC.

Where the code does not meet the plain form of a promise, the exact condition is proved:

- Sensor discovery frees slots of departed devices only after newcomers were placed, so newcomers need
  slots that were free before (`SensorTable.DiscoveryComplete`); a second discovery completes the table
  exactly when the devices fit it at all (`SensorTable.SecondDiscoveryComplete`).
- The address map of the DISPTECH and KS0066U panels overlaps on screens with more than 2 lines and more
  than 16 columns (`Hd44780.DisptechOverlap`); on such a screen one cell's write changes another.
- A file appended to an empty image lands on page 0, which the firmware's scan never visits
  (`InlineFs.OpenFindsLatest`, `VfsInline.OpenLatest`).
- The MD5 length field is 32 bits wide, zero-filled; the digest pads as RFC 1321 does exactly below 2^32
  bits, counted modulo 2^64 (`Md5.PadsAsRfc`).
- `vfs-concat` reads at most 65535 bytes of the image back, so repeated runs build the image of the appends
  exactly when the longest image read back fits, or when all that is cut off is fill that the padding puts
  back (`VfsInline.RunsBuildImage`; `VfsInline.LongImageIsCut` is an image that loses a byte).
- A page of file data that looks like a node can hide a file (`InlineFs.DataHidesFile`); lookup stops at a
  stored file exactly when no later page looks like a node of that name (`InlineFs.LookupStopsAt`), and so
  finds the latest file exactly when no other page above it does (`InlineFs.OpenFindsLatest`).
- A controller reset makes the ENC28J60 bank cache stale; a banked access then goes wrong, and a change lands
  in another register, exactly when it asks for the cached bank (`Enc28j60.StaleCache`,
  `Enc28j60.StaleCacheMisdirects`), which is why the first access of the initialisation, to bank 0, is always
  right (`Enc28j60.Driver.WriteAfterReset`).
- The display image starts as zeros while the display shows blanks; a zero in the image therefore counts
  as a blank in the mirror property.

In CAST-128 a rotation by 0 shifts right by 32, which C leaves undefined; the model takes the result of
that shift as 0, which makes the rotation the identity (`Words.RotlRotates`).

## Model

| member | source | states |
|---|---|---|
| `RomSearch.WalkFindsDevice` | ethersex/hardware/onewire/onewire.c:260-302 | from any search state that some device still follows, the 64-step walk never reaches the no-device exit, returns a code on the bus, and leaves as discrepancy the last position where that code has 0 and another device sharing the earlier bits has 1 (-1 if none) |
| `RomSearch.FirstIsLeast` | ethersex/hardware/onewire/onewire.c:227-235 | a first search returns the lexicographically least code (bit 0 first), whatever code was stored before |
| `RomSearch.NextIsSuccessor` | ethersex/hardware/onewire/onewire.c:269-291 | a next search from a found code with its recorded discrepancy returns the least code after it |
| `RomSearch.NoForkIsLast` | ethersex/hardware/onewire/onewire.c:237-241 | when no discrepancy was recorded no code on the bus comes after the one found |
| `RomSearch.RunEnumerates` | ethersex/hardware/onewire/onewire.c:224-308 | one first search and next searches until 0 is returned yield every code on the bus exactly once, in increasing order, so exactly as many successful calls as devices |
| `RomCodes.PackBits` | ethersex/hardware/onewire/onewire.c:214-220 | the eight stored bytes and the 64-bit string determine each other |
| `RomCodes.SetBitRefines` | ethersex/hardware/onewire/onewire.c:214-220 | clearing then setting one masked bit of one byte overwrites exactly that bit of the 64-bit string |
| `OneWire.SetAddressBit` | ethersex/hardware/onewire/onewire.c:214-220 | the byte array afterwards stands for the old bit string with one bit replaced |
| `OneWire.Master.Resolve` | ethersex/hardware/onewire/onewire.c:269-291 | on a conflict the bit sent is the stored bit before the last discrepancy, 1 at it and 0 after it, and the discrepancy moves here exactly when 0 is sent |
| `OneWire.Master.WalkBus` | ethersex/hardware/onewire/onewire.c:253-302 | three time slots per bit over the wired-AND bus carry out the trie walk: same code, same discrepancy, same no-device exit |
| `OneWire.Master.SearchRom` | ethersex/hardware/onewire/onewire.c:224-308 | the return values 0, -1 and 1 with the stored code and discrepancy in all cases: exhausted search (unchanged), no presence pulse (code zeroed on a first search, else unchanged), and a found device equal to the walk from the stored code and discrepancy |
| `OneWire.Master.NoteCurrent` | ethersex/hardware/onewire/onewire.c:576-603 | a discovered code marks its slot present or takes the first zero slot, otherwise nothing changes |
| `OneWire.Master.FreeAbsent` | ethersex/hardware/onewire/onewire.c:613-618 | slots not marked present are zeroed, the others are untouched |
| `OneWire.Master.DiscoverSensor` | ethersex/hardware/onewire/onewire.c:513-620 | a discovery run turns the slot table into the reconciled table for the device set and releases the lock |
| `SensorTable.DiscoveryReconciles` | ethersex/hardware/onewire/onewire.c:513-620 | from a duplicate-free table: the result is duplicate-free, holds only codes on the bus, devices that stayed keep their slot and are marked present, and slots of departed devices are freed |
| `SensorTable.DiscoveryComplete` | ethersex/hardware/onewire/onewire.c:576-618 | the table's codes equal the non-zero codes on the bus if and only if the newcomers fit the slots that were free before discovery began: slots of departed devices are freed only afterwards |
| `SensorTable.SecondDiscoveryComplete` | ethersex/hardware/onewire/onewire.c:513-620 | after two discoveries with the same devices attached the table holds exactly their codes if and only if they are no more than the table has slots |
| `SensorSlots.DiscoverySlots` | ethersex/hardware/onewire/onewire.c:513-620 | slot by slot, in every field: a device that stayed is marked present, a departed one loses its code and its mark, the k-th slot that was free takes the k-th newcomer with a read delay of 1, and nothing else changes (a free slot left over only loses its mark, if no zero code is on the bus) |
| `SensorSlots.ArrivedInOrder` | ethersex/hardware/onewire/onewire.c:567-604 | the newcomers are exactly the non-zero codes on the bus that no slot held before, in the order of the search, lowest code first |
| `Hd44780.Lcd.Put` | ethersex/hardware/lcd/hd44780_core.c:236-307 | a printable byte lands at the current position's address and the position advances with wrap to 0; newline pads with blanks to the end of the line; carriage return goes to its start |
| `Hd44780.Lcd.PadLine` | ethersex/hardware/lcd/hd44780_core.c:243-248 | the recursive padding loop terminates and blanks exactly the cells of the rest of the line, also when the position wraps on the way |
| `Hd44780.PaddedCells` | ethersex/hardware/lcd/hd44780_core.c:243-248 | padding blanks the memory cells of the positions up to the next line start and leaves every other cell as it was |
| `Hd44780.AddressOfCell` | ethersex/hardware/lcd/hd44780_core.c:256-283 | the if-chain over positions sends row y, column x to the y-th line address plus x |
| `Hd44780.PrintingGoesRound` | ethersex/hardware/lcd/hd44780_core.c:285-302 | from position 0, n printed characters lead to position n modulo the number of cells: after the last cell comes the first |
| `Hd44780.NewlineMoves` | ethersex/hardware/lcd/hd44780_core.c:243-253 | a newline inside a line leads to the start of the next line, from the last line to the first, and does nothing at the start of a line |
| `Hd44780.NewlineComesBack` | ethersex/hardware/lcd/hd44780_core.c:247-248 | from a line start below the panel a newline comes back by one panel |
| `Hd44780.NoOverlapMeans` | ethersex/hardware/lcd/hd44780.h:45-110 | the overlap predicate says that different cells have different memory addresses |
| `Hd44780.OriginalNoOverlap` | ethersex/hardware/lcd/hd44780.h:45-55 | the address map of this panel type is injective on all its 4x20 cells |
| `Hd44780.Ks0067bNoOverlap` | ethersex/hardware/lcd/hd44780.h:67-77 | the address map of this panel type is injective on all its 4x20 cells |
| `Hd44780.Splc780dNoOverlap` | ethersex/hardware/lcd/hd44780.h:100-110 | the address map of this panel type is injective on all its 4x16 cells |
| `Hd44780.DisptechOverlap` | ethersex/hardware/lcd/hd44780.h:56-66 | this map (shared by KS0066U) is injective on a screen of given size if and only if the screen has at most 2 lines or at most 16 columns: lines 1 and 3 overlap on the full 4x20 panel |
| `Hd44780.LineStarts` | ethersex/hardware/lcd/hd44780.h:45-110 | the sizes of the four panels, and where each line starts in memory |
| `Tty.MirrorPut` | ethersex/core/tty/tty.c:78-101 | with an injective address map, writing one image cell and its display address keeps image and display equal everywhere |
| `Tty.OverlapBreaksMirror` | ethersex/hardware/lcd/hd44780.h:45-110 | where two cells share an address no display content can show two different characters in them, so the injective map is necessary too |
| `Tty.Tty.LlGoto` | ethersex/core/tty/tty.c:58-76 | an elided goto leaves the device where the cached cursor says it is |
| `Tty.Tty.LlPut` | ethersex/core/tty/tty.c:78-101 | the byte lands in the display cell (y,x) although the goto may be skipped |
| `Tty.Tty.PrintCell` | ethersex/core/tty/tty.c:230-237 | exactly one cell of the image changes, the display follows, and a cell that already holds the byte is not written to the device |
| `Tty.Tty.WMove` | ethersex/core/tty/tty.c:273-285 | the cursor moves exactly when the target is inside the window; nothing else changes |
| `Tty.Tty.WAddCh` | ethersex/core/tty/tty.c:199-256 | one character: deferred scroll, newline, carriage return, wrap and no-scroll cases as the screen specification says; mutual recursion with the scroll terminates and the display mirror is kept |
| `Tty.Tty.WAddStr` | ethersex/core/tty/tty.c:258-263 | the characters up to the terminating zero, one after the other |
| `Tty.Tty.WSpaceToEol` | ethersex/core/tty/tty.c:118-125 | blanks exactly the cells from the cursor to the window's right edge, wherever the cursor ends up |
| `Tty.Tty.WClrToEol` | ethersex/core/tty/tty.c:127-133 | the same with the cursor restored |
| `Tty.Tty.WClrToBot` | ethersex/core/tty/tty.c:135-153 | blanks exactly the window cells from the cursor to the window's end and restores the cursor |
| `Tty.Tty.WClear` | ethersex/core/tty/tty.c:155-172 | blanks the whole window and homes its cursor, for sub-windows and for the root window with its own path |
| `Tty.Tty.WScroll` | ethersex/core/tty/tty.c:174-197 | the overlapping in-place copy through waddch equals the scrolled grid, and the cursor ends at the first cleared line (home when everything scrolls off) |
| `TtyModel.ScrolledCell` | ethersex/core/tty/tty.c:174-197 | every window cell shows the old cell k rows below or a blank past the bottom; every cell outside the window is unchanged |
| `TtyModel.AddCharOk` | ethersex/core/tty/tty.c:199-256 | a character keeps the cursor inside the window or at column 0 of the row below it, keeps sizes, and never stores a newline or return in the image |
| `TtyModel.NoWrapStays` | ethersex/core/tty/tty.c:239-252 | without line wrap a string of plain characters stays in its row: the row fills up to the last column, which shows the last character, the cursor stops there and no other cell changes |
| `TtyModel.NoScrollDrops` | ethersex/core/tty/tty.c:203-215 | a window that may not scroll drops everything printed once its cursor is below the last row |
| `PaperTerminal.PrintAgrees` | ethersex/core/tty/tty.c:199-256 | a window and an unbounded paper that agree still agree after one more character |
| `PaperTerminal.WindowShowsLastRows` | ethersex/core/tty/tty.c:155-263 | after a clear, any printed string leaves the window showing exactly the last maxy+1 rows of its layout on unbounded paper, one-row windows included |
| `PaperTerminal.PlainTextLayout` | ethersex/core/tty/tty.c:239-252 | on paper, character i of a text without control characters sits at row i / width, column i % width |
| `PaperTerminal.ControlsMoveHead` | ethersex/core/tty/tty.c:218-228 | on paper, byte 10 moves to the start of the next row and byte 13 to the start of the row; neither strikes anything |
| `TtySession.DisplayShowsImage` | ethersex/core/tty/tty.c:78-101 | in every valid state each display cell, addressed through the position arithmetic, shows its image cell (an initial zero counts as a blank) |
| `TtySession.OnlyTheseAreLeftOut` | ethersex/core/tty/tty.c:118-285 | the only calls a session leaves out are strings without an end, scrolls by 0 lines, and clearing to the end of line or window while the cursor is pending below the window |
| `TtySession.ShowText` | ethersex/core/tty/tty.c:155-263 | clear and print on the real window object: the image holds the last rows of the paper layout and the display mirrors it |
| `TtySession.PerformAll` | ethersex/core/tty/tty.c:42-285 | after every sequence of calls on any set of windows sharing the screen, the image and all cursors are what the calls mean one after the other, the display mirrors the image, and all window invariants hold |
| `TtySession.SessionsJoin` | ethersex/core/tty/tty.c:42-285 | a session in two parts means the first part and then the second, and one call means that call |
| `Md5.IndexIsOrder` | ethersex/core/crypto/md5.c:104-131 | the computed word indices of the four nested loops are the word lists of section 3.4 of RFC 1321 |
| `Md5Spec.OrderStrides` | ethersex/core/crypto/md5.c:104-131 | the word lists of the four rounds take every word, every fifth, every third and every seventh word modulo 16, from words 0, 1, 5 and 0 |
| `Md5Spec.WordIsLittleEndian` | ethersex/core/crypto/md5.c:83-84 | the number a message word stands for has the four bytes of the block as its bytes, low byte first |
| `Md5Spec.LittleEndianAt` | ethersex/core/crypto/md5.c:166-171 | byte i of a number stored low byte first is its i-th digit in base 256 |
| `Words.RotlRotates` | ethersex/core/crypto/md5.c:65 | the shifts of ROTL32 rotate by every number of places |
| `Md5.RotationIsRenaming` | ethersex/core/crypto/md5.c:67-110 | one md5_core call on slot 4-n is the step of section 3.4 with its registers renamed |
| `Md5.Round1` | ethersex/core/crypto/md5.c:104-110 | 16 steps of round 1 on the rotating array equal the register form |
| `Md5.Round2` | ethersex/core/crypto/md5.c:111-117 | 16 steps of round 2 on the rotating array equal the register form |
| `Md5.Round3` | ethersex/core/crypto/md5.c:118-124 | 16 steps of round 3 on the rotating array equal the register form |
| `Md5.Round4` | ethersex/core/crypto/md5.c:125-131 | 16 steps of round 4 on the rotating array equal the register form |
| `Md5.Context.NextBlock` | ethersex/core/crypto/md5.c:87-137 | a context that holds the fold of a message holds the fold of the message with this block appended, and counts it modulo 2^32 |
| `Md5.PaddedInBlocks` | ethersex/core/crypto/md5.c:139-167 | padding a remainder below 56 bytes takes one block, otherwise two, and these are the blocks of section 3.1 and 3.2 of RFC 1321 |
| `Md5.LengthField` | ethersex/core/crypto/md5.c:159-165 | the block counter modulo 2^32, corrected for the extra block, gives the bit length modulo 2^32 |
| `Md5.Context.LastBlock` | ethersex/core/crypto/md5.c:139-167 | for up to 65535 remaining bits in whole bytes, several blocks included, the registers are the fold over the padded message |
| `Md5.PadsAsRfc` | ethersex/core/crypto/md5.c:159-166 | the stored length field pads as the RFC does if and only if the message length in bits modulo 2^64 is below 2^32 |
| `Md5.Hash` | ethersex/core/crypto/md5.c:173-183 | md5 returns the digest of RFC 1321 for every message of whole bytes below 2^32 bits |
| `Md5.StreamHash` | ethersex/core/crypto/md5.c:87-167 | any number of whole blocks through md5_nextBlock and a last piece through md5_lastBlock give the fold over the padded concatenation, and the RFC digest below 2^32 bits: the same as md5 in one go |
| `Md5Vector.AlphabetDigest` | ethersex/core/crypto/md5.c:67-183 | with the sine table of RFC 1321 the digest of the lower-case alphabet is the one that section A.5 of the RFC lists |
| `Md5Spec.FoldBlock` | ethersex/core/crypto/md5.c:87-137 | folding over a message with one more block is one block step after the fold |
| `Feistel.Inversion` | ethersex/core/crypto/cast5.c:295-336 | for arbitrary round functions and any number of rounds, decryption and encryption undo each other |
| `Cast5Spec.StepsAreNext` | ethersex/core/crypto/cast5.c:51-72 | the four equations that produce z from x, and x from z, in section 2.4 of RFC 2144 each have exactly one solution, the next row of the schedule |
| `Cast5.InitA` | ethersex/core/crypto/cast5.c:51-72 | in both modes the in-place word assembly on byte-reversed words and boxes computes the next row of the schedule |
| `Cast5.TablesAreEquations` | ethersex/core/crypto/cast5.c:76-89 | the index tables produce the sixteen key equations of section 2.4 of RFC 2144 |
| `Cast5.InitM` | ethersex/core/crypto/cast5.c:74-90 | stores four masking keys of the schedule, byte-reversed, and nothing else |
| `Cast5.TopByte5Is` | ethersex/core/crypto/cast5.c:92-114 | the bytewise sum equals the low byte of the byte-swapped word that the full form would make from the same row and modes |
| `Cast5.PackingAt` | ethersex/core/crypto/cast5.c:103-117 | packing four values sets exactly those four unpacked rotations to their low five bits, keeps the earlier ones and leaves the later cells empty |
| `Cast5.InitRM` | ethersex/core/crypto/cast5.c:97-118 | the rotation that cast5_enc unpacks for round 4*offset+k is the low five bits of word k of the full form on the same row and modes |
| `Cast5.Context.Init` | ethersex/core/crypto/cast5.c:133-185 | for every key and length the context holds the complete schedule of RFC 2144 for the zero-padded key, cut at 128 bits, and selects 12 rounds up to 80 bits |
| `Cast5.IterationIsRound` | ethersex/core/crypto/cast5.c:303-312 | one loop body on byte-reversed halves is one Feistel round |
| `Cast5.Enc` | ethersex/core/crypto/cast5.c:295-315 | for every context, cast5_enc is Feistel encryption with the context's masks and unpacked rotations |
| `Cast5.Dec` | ethersex/core/crypto/cast5.c:319-336 | for every context, cast5_dec is the matching decryption |
| `Cast5.EncThenDec` | ethersex/core/crypto/cast5.c:295-336 | decrypting after encrypting restores the eight bytes, for every context and block |
| `Cast5.DecThenEnc` | ethersex/core/crypto/cast5.c:295-336 | encrypting after decrypting restores the eight bytes, for every context and block |
| `Cast5.EncryptWithKey` | ethersex/core/crypto/cast5.c:133-315 | key set-up and encryption together compute CAST-128 of RFC 2144 for every key, S-box contents and block |
| `Cast5.DecryptWithKey` | ethersex/core/crypto/cast5.c:133-336 | key set-up and decryption together compute its inverse cipher |
| `Cast5Laws.Type1Boxes` | ethersex/core/crypto/cast5.c:202-229 | for all boxes, data and keys: in type 1 raising box 4 by k raises the result by k, raising box 3 lowers it by k, and with both zero xoring box 1 or box 2 with k xors the result with k |
| `Cast5Laws.Type2Boxes` | ethersex/core/crypto/cast5.c:232-260 | in type 2 xoring box 4 xors the result, and with box 4 zero raising box 1 or 3 raises it and raising box 2 lowers it |
| `Cast5Laws.Type3Boxes` | ethersex/core/crypto/cast5.c:263-291 | in type 3 raising box 4 lowers the result, with box 4 zero xoring box 3 xors it, and with both zero raising box 1 or 2 raises it |
| `Cast5Laws.DataMeetsMask` | ethersex/core/crypto/cast5.c:204-265 | data and masking key are added in type 1, xored in type 2 and subtracted in type 3: what is exchanged between them does not show |
| `Cast5Laws.BoxTakesByte` | ethersex/core/crypto/cast5.c:194-291 | for every masking and rotation key, box n alone gives its word, with its sign, for byte n of the rotated key, the top byte first |
| `Cast5Laws.OnlyLookupsMatter` | ethersex/core/crypto/cast5.c:202-291 | boxes that agree on those four bytes give the same results |
| `Cast5Laws.TypesTakeTurns` | ethersex/core/crypto/cast5.c:298-305 | rounds 1, 4, 7, ... use type 1, rounds 2, 5, 8, ... type 2 and rounds 3, 6, 9, ... type 3 |
| `Cast5Laws.RoundsUseKeys` | ethersex/core/crypto/cast5.c:298-312 | round i of a keyed cipher masks with key word i and rotates by key word i + 16 of the schedule, types 1, 2 and 3 in turn |
| `Cast5Laws.RotationKeyValue` | ethersex/core/crypto/cast5.c:305-306 | a rotation key is its key word modulo 32 |
| `Cast5Laws.BytesOfWord` | ethersex/core/crypto/cast5.c:194-198 | a word is worth its four bytes with the first one counting most |
| `Cast5Laws.KeyFillsBytes` | ethersex/core/crypto/cast5.c:136-141 | exactly as many key bytes are taken as hold the key's bits, 16 at most, the rest is zero, and 12 rounds are used exactly up to 80 bits |
| `ZbusFraming.RoundTrip` | ethersex/contrib/zbus-serial-host/zbus-serial-host.c:266-445 | from idle, decoding the concatenated encodings of any packets delivers exactly those of at most mtu bytes, unchanged and in order, and ends idle |
| `ZbusFraming.Resynchronises` | ethersex/contrib/zbus-serial-host/zbus-serial-host.c:276-340 | from any decoder state and after any rubbish, everything after one complete encoding is decoded correctly, and that first packet comes out as `FeedEncoded` says |
| `ZbusFraming.FeedEncoded` | ethersex/contrib/zbus-serial-host/zbus-serial-host.c:276-340 | one complete encoding always ends idle; between packets it delivers its packet, after a pending backslash nothing, and inside a packet the collected data, the start mark read as data and the packet as one, unless over the mtu |
| `ZbusFraming.FeedStuffed` | ethersex/contrib/zbus-serial-host/zbus-serial-host.c:322-338 | a stuffed payload is collected whole or, once over the mtu, dropped whole with no false start from its remainder |
| `ZbusFraming.ChunksDoNotMatter` | ethersex/contrib/zbus-serial-host/zbus-serial-host.c:266-347 | splitting the byte stream into calls at any points changes neither deliveries nor the final state |
| `ZbusFraming.FeedKeepsOk` | ethersex/contrib/zbus-serial-host/zbus-serial-host.c:322-338 | the buffer position and every delivered packet stay within the mtu |
| `ZbusFraming.Encode` | ethersex/contrib/zbus-serial-host/zbus-serial-host.c:407-435 | an encoding takes at most 2*l+4 bytes |
| `ZbusFraming.EncodingMarks` | ethersex/contrib/zbus-serial-host/zbus-serial-host.c:407-435 | an encoding opens with the bytes 92 48 and closes with 92 49 |
| `ZbusFraming.StuffingDoubles` | ethersex/contrib/zbus-serial-host/zbus-serial-host.c:419-426 | appending a byte to the payload appends it to the stuffed payload, twice if it is a backslash |
| `ZbusFraming.EscapedByte` | ethersex/contrib/zbus-serial-host/zbus-serial-host.c:276-338 | what a backslash and any byte do in any state: outside a packet only 48 opens one, inside a packet 49 delivers it and every other byte is data, or drops a full packet |
| `ZbusHost.Parser.ParseByte` | ethersex/contrib/zbus-serial-host/zbus-serial-host.c:276-339 | one byte updates flags, buffer and tunnel output as one decoder step |
| `ZbusHost.Parser.ParseZbus` | ethersex/contrib/zbus-serial-host/zbus-serial-host.c:268-347 | a buffer is fed byte by byte; the result is nonzero exactly while a packet is in progress |
| `ZbusHost.WriteTty` | ethersex/contrib/zbus-serial-host/zbus-serial-host.c:407-435 | the buffer holds the encoding of the bytes read and never overflows |
| `Crc16.Seed.Take` | ethersex/hardware/onewire/ds2450.c:89-106 | the nested loops fold the register update over the bytes |
| `Crc16.Seed.TakeByte` | ethersex/hardware/onewire/ds2450.c:134-137 | the bytewise form is the fold over one byte |
| `Crc16.CheckIffCalc` | ethersex/hardware/onewire/ds2450.c:74-131 | a frame ending in two bytes checks good (residue 0xB001) if and only if they are the low then the high byte of the calculated CRC, for every seed and length |
| `Crc16.CheckValue` | ethersex/hardware/onewire/ds2450.c:89-131 | the check value of this CRC: the digits 1 to 9 give 0x44C2 |
| `Crc16.Seed.TakeFrame` | ethersex/hardware/onewire/ds2450.c:544-588 | taking a frame byte by byte and then its two CRC bytes, the check succeeds if and only if these are the low then the high byte of the CRC calculated over the frame |
| `Crc16.AdjacentErrorRejected` | ethersex/hardware/onewire/ds2450.c:89-124 | a valid frame with two adjacent bytes changed in any way is rejected |
| `Crc16Burst.BurstRejected` | ethersex/hardware/onewire/ds2450.c:89-124 | a valid frame with any change confined to 16 consecutive bits, at any bit position, is rejected |
| `Crc16Burst.CrcIsBitCrc` | ethersex/hardware/onewire/ds2450.c:96-103 | the bytewise register is the bit-serial one on the frame's bits, low bit first |
| `Crc16Parity.OddErrorRejected` | ethersex/hardware/onewire/ds2450.c:89-124 | a valid frame with any odd number of bits changed, at any frame length, is rejected |
| `Crc16Parity.ShiftKeepsParity` | ethersex/hardware/onewire/ds2450.c:98-102 | one shift with its feedback keeps the parity of the register |
| `Crc8.SerialIsUpdate` | ethersex/core/vfs/vfs-concat.c:42-56 | the bit-serial update of the image tool equals the firmware's update for every register and byte |
| `Crc8.SerialChecksumIsChecksum` | ethersex/core/vfs/vfs-concat.c:59-69 | the two checksums agree on every byte sequence |
| `Crc8.CheckValue` | ethersex/core/host/util/crc16.h:5-20 | the check value of this CRC: the digits 1 to 9 give 0xA1 |
| `Crc8.CrcIbuttonUpdate` | ethersex/core/host/util/crc16.h:5-20 | the host helper computes the firmware update |
| `Crc8.CrcUpdate` | ethersex/core/vfs/vfs-concat.c:42-56 | the tool's loop, which shifts the data byte along, computes the bit-serial update |
| `Crc8.CrcChecksum` | ethersex/core/eeprom.c:35-50 | the checksum over a buffer is the fold from 0 |
| `Crc8.CrcCalc` | ethersex/core/vfs/vfs-concat.c:59-69 | the tool's checksum over a buffer is the fold of its own bit-serial update from 0 |
| `InlineFs.NodeRoundTrip` | ethersex/core/vfs/vfs-concat.c:142-146 | a node with the tool's bit-serial checksum passes the firmware's check, which uses the other update, and gives back its length and name field |
| `InlineFs.NodeSpelled` | ethersex/core/vfs/vfs-concat.c:142-146 | byte for byte: six bytes of name filled up with zeros, then the length with its low byte first |
| `InlineFs.NodeAtMeans` | ethersex/core/vfs/vfs_inline.c:41-51 | a page is taken for a node exactly when it starts with byte 35 and the tenth byte is the checksum of the eight between |
| `InlineFs.AppendSpelled` | ethersex/core/vfs/vfs-concat.c:124-140 | an appended file starts with byte 35 at the next page boundary, behind the old image and fill bytes 255 |
| `InlineFs.StoredNameMatches` | ethersex/core/vfs/vfs_inline.c:53-54 | the six-character comparison matches a stored name exactly with its own first six characters |
| `InlineFs.BuildHolds` | ethersex/core/vfs/vfs-concat.c:124-147 | every file appended to an image stays at its page with magic, node and data, whatever is appended later |
| `InlineFs.LookupStopsAt` | ethersex/core/vfs/vfs_inline.c:39-66 | for every image and device, looking up a stored name stops at that file if and only if no later page looks like a node of that name |
| `InlineFs.OpenFindsLatest` | ethersex/core/vfs/vfs_inline.c:39-66 | the downward scan stops at the most recently appended file of the name if and only if no page above it that is not a file looks like a node of that name; that place is above page 0, where the scan can see it, if and only if the image was not empty before it or other files precede it |
| `InlineFs.OpenMisses` | ethersex/core/vfs/vfs_inline.c:39-69 | a name that was never appended is not found if and only if no page above page 0 that is not a file looks like a node of that name |
| `InlineFs.DataHidesFile` | ethersex/core/vfs/vfs_inline.c:39-66 | with 64-byte pages, a file of another name whose data starts a page with a copy of the node hides the only file of that name: the scan stops in the data |
| `InlineFs.ReadsInOrder` | ethersex/core/vfs/vfs_inline.c:79-91 | any sequence of read sizes returns the file's bytes in order, up to its end |
| `VfsInline.Open` | ethersex/core/vfs/vfs_inline.c:36-69 | open returns null exactly when the scan finds nothing, else a handle at position 0 with the node's length, just behind the node |
| `VfsInline.NodeMatches` | ethersex/core/vfs/vfs_inline.c:41-54 | magic, the firmware's loop checksum over the copied node and the six-character comparison together decide whether a page is a node of the name |
| `VfsInline.OpenLatest` | ethersex/core/vfs/vfs_inline.c:36-69 | on an image programmed from appends, open goes to the latest file of the name if and only if no page above it merely looks like a node of that name; then the handle holds its contents, and open fails exactly for a first file appended to an empty image |
| `VfsInline.FileHandle.Read` | ethersex/core/vfs/vfs_inline.c:79-91 | copies the next bytes of the file, no more than are left, touches no other buffer byte and advances the position by the count |
| `VfsInline.FileHandle.Fseek` | ethersex/core/vfs/vfs_inline.c:93-123 | succeeds exactly when the whence is known and the target, modulo the size type, is within the file; otherwise the position is unchanged |
| `VfsInline.SeekBack` | ethersex/core/vfs/vfs_inline.c:93-123 | seeking back by a wrapped negative offset works exactly within the file, with the wrap-around range spelled out |
| `VfsInline.SeekForward` | ethersex/core/vfs/vfs_inline.c:93-123 | seeking forward counts from the start, the position or the end for whence 0, 1 and 2, and is refused past the end unless the 32-bit sum wraps |
| `VfsInline.ConcatMain` | ethersex/core/vfs/vfs-concat.c:72-150 | the tool exits 0 exactly for a valid page size and a base name of at most 6 characters, and then writes the image with the file appended under that name; a path of a directory, a slash and a name stores the name |
| `VfsInline.LastPartUnique` | ethersex/core/vfs/vfs-concat.c:131-132 | the stored name is the one suffix of the path that has no slash and is the whole path or preceded by a slash |
| `VfsInline.BaseNameOf` | ethersex/core/vfs/vfs-concat.c:131-132 | for a name without slashes, the name alone and any directory, a slash and the name are both stored under the name |
| `VfsInline.RunsBuildImage` | ethersex/core/vfs/vfs-concat.c:72-150 | repeated runs build the image of the appends if and only if there was no run, the image before the last run fits the 65535-byte buffer, or it exceeds it by fill bytes within the page alone |
| `VfsInline.LongImageIsCut` | ethersex/core/vfs/vfs-concat.c:95-130 | an image of 65536 bytes whose last byte is not 0xFF is not what the run keeps: that byte becomes fill |
| `VfsInline.ConcatAll` | ethersex/core/vfs/vfs-concat.c:72-150 | one run per source file succeeds exactly for a valid page size and base names of at most 6 characters, and leaves the repeated runs over the stored names and contents |
| `VfsInline.FileHandle.ReadEach` | ethersex/core/vfs/vfs_inline.c:79-91 | reads of any sizes on one handle return the successive pieces of the file and advance the position by what was returned |
| `VfsInline.StoreAndRead` | ethersex/core/vfs/vfs_inline.c:36-91 | tool runs, a programmed device, open and reads of any sizes together give the start of the latest stored file of that name, as many bytes as asked for or as there are (at most the 65535 the tool stores); the file is missing exactly when it was the first one appended to an empty image |
| `Enc28j60.StaleCache` | ethersex/hardware/ethernet/enc28j60.c:66-174 | from any cached and any hardware bank, an access is made in the bank its address names, and a change lands in the register named, if and only if the register is shown in every bank, its bank is not the cached one, or the cache agrees with the hardware; a banked access leaves the cache right exactly then |
| `Enc28j60.StaleCacheMisdirects` | ethersex/hardware/ethernet/enc28j60.c:115-135 | after a reset with bank 3 cached, a write to MAADR1 lands in register 0 of bank 0 instead |
| `Enc28j60.RightHits` | ethersex/hardware/ethernet/enc28j60.c:115-174 | the five address bits that are sent touch the register named exactly when the selected bank is the one its address names |
| `Enc28j60.SwitchSelects` | ethersex/hardware/ethernet/enc28j60.c:377-385 | clearing both select bits and setting the wanted ones selects the bank from any previous bank |
| `Enc28j60.Driver.SwitchBank` | ethersex/hardware/ethernet/enc28j60.c:377-385 | hardware and cache agree on the requested bank afterwards; exactly the two accesses to ECON1 are made |
| `Enc28j60.Driver.BitFieldModify` | ethersex/hardware/ethernet/enc28j60.c:154-174 | whatever the cache, exactly the bank switch the cached number asks for and one access are made, and it lands as `StaleCache` says; with a right cache it changes the physical register that a banked address names; the recursion with switch_bank terminates |
| `Enc28j60.Driver.WriteControlRegister` | ethersex/hardware/ethernet/enc28j60.c:115-135 | whatever the cache, exactly the bank switch the cached number asks for and one write are made, and it lands as `StaleCache` says; with a right cache it changes the physical register that a banked address names |
| `Enc28j60.Driver.ReadControlRegister` | ethersex/hardware/ethernet/enc28j60.c:66-94 | whatever the cache, the read is in the right bank exactly as `StaleCache` says, returns what the register it reaches holds, with a right cache the one its address names, and programs nothing |
| `Enc28j60.Driver.ResetController` | ethersex/hardware/ethernet/enc28j60.c:237-256 | a reset returns the hardware to bank 0 without touching the cache, and polls until ready |
| `Enc28j60.Driver.WriteAfterReset` | ethersex/hardware/ethernet/enc28j60.c:237-256 | a write after a reset is right, and programs the register it names, if and only if the register is shown in every bank or its bank is 0 or not the cached one |
| `Enc28j60.Driver.ReadPhy` | ethersex/hardware/ethernet/enc28j60.c:206-220 | programs the read sequence, polls MISTAT until idle and returns MIRDL and MIRDH as one 16-bit word, low byte first |
| `Enc28j60.Driver.WritePhy` | ethersex/hardware/ethernet/enc28j60.c:222-235 | programs address and data and polls until idle |
| `Enc28j60.Driver.InitEnc28j60` | ethersex/hardware/ethernet/enc28j60.c:271-375 | from any cached and any hardware bank, initialisation programs the same registers with the same values (depending only on configuration and PHY answers) and leaves the cache right |
| `Enc28j60Setup.AddressSet` | ethersex/hardware/ethernet/enc28j60.c:344-349 | from any contents before, registers MAADR5, 4, 3, 2, 1, 0 hold the six bytes of the station address in that order after initialisation |
| `Enc28j60Setup.FrameLengthSet` | ethersex/hardware/ethernet/enc28j60.c:340-341 | MAMXFL holds the longest frame plus 4 |
| `Enc28j60Setup.ReceiveStartSet` | ethersex/hardware/ethernet/enc28j60.c:280-293 | the receive buffer starts at 0, where its read and write pointers stand too |
| `Enc28j60Setup.BuffersMeet` | ethersex/hardware/ethernet/enc28j60.c:282-287 | the receive buffer ends right below the transmit buffer at 0x1000 |
| `Enc28j60Setup.LinkSet` | ethersex/hardware/ethernet/enc28j60.c:299-336 | MACON1 and MACON2 as the driver needs them; the full-duplex bit of MACON3 is set if and only if the PHY word read back has bit 8, with the gaps to match; other bits are kept |
| `Enc28j60Setup.ControlSet` | ethersex/hardware/ethernet/enc28j60.c:352-368 | filter and interrupt masks, the receiver bit of ECON1 and the increment bit of ECON2 are set, other bits of ECON1 and ECON2 kept |
| `Enc28j60Setup.OthersKept` | ethersex/hardware/ethernet/enc28j60.c:271-375 | every register not named by initialisation keeps its contents, the MII registers aside |
| `Enc28j60Setup.PhySetUp` | ethersex/hardware/ethernet/enc28j60.c:310-360 | through the MII, PHCON1 gets the configured duplex mode, PHLCON 0x0C12 and PHIE 0x12, and no other PHY register is written |
| `Enc28j60Setup.PhyReadBack` | ethersex/hardware/ethernet/enc28j60.c:313 | the one PHY register read during initialisation is PHCON1 |
| `Enc28j60Setup.ReadyEndsWait` | ethersex/hardware/ethernet/enc28j60.c:250 | the wait after a reset ends with the first read of ESTAT that has the clock bit set |
| `Enc28j60Setup.IdleEndsWait` | ethersex/hardware/ethernet/enc28j60.c:213-233 | the wait for the MII ends with the first read of MISTAT that has the busy bit clear |
| `Enc28j60Setup.PhyWordIs` | ethersex/hardware/ethernet/enc28j60.c:218 | the PHY word is made of the values of MIRDL and then MIRDH at the two reads, low byte first |
| `Enc28j60.PerformAll` | ethersex/hardware/ethernet/enc28j60.c:66-385 | in every run of reads, writes, bit operations and re-initialisations each banked access hits the bank its address names, the cache stays right, and the registers programmed are those the calls name |
| `Enc28j60.RunsJoin` | ethersex/hardware/ethernet/enc28j60.c:66-385 | a run in two parts programs what the first part and then the second part program |
| `Enc28j60.BarredCalls` | ethersex/hardware/ethernet/enc28j60.c:66-174 | the only accesses a run leaves out are writes of ECON1 and changes of its two bank-select bits |
| `FixedPoint.WriteDigits` | ethersex/core/util/fixedpoint.c:44-51 | the digit loop writes the digits in reverse order with the point after the given count |
| `FixedPoint.PadZeros` | ethersex/core/util/fixedpoint.c:53-58 | short numbers are filled with zeros and a point |
| `FixedPoint.ReverseText` | ethersex/core/util/fixedpoint.c:66-75 | the in-place swap loop reverses exactly the first characters |
| `FixedPoint.ItoaFixedpoint` | ethersex/core/util/fixedpoint.c:32-78 | the buffer holds the text, terminated, and the returned size is its length |
| `FixedPoint.TextReadsBack` | ethersex/core/util/fixedpoint.c:32-78 | reading the text back gives the sign, the magnitude and exactly the requested number of digits after the point; a point appears exactly when that number is not 0 |
| `FixedPoint.NoLeadingZero` | ethersex/core/util/fixedpoint.c:44-61 | behind the sign the text starts with 0 only when it is the number 0 without a point |
| `FixedPoint.TextValue` | ethersex/core/util/fixedpoint.c:32-78 | the text read as a decimal is n divided by 10 to the number of fixed digits |

## Left out

- TtySession.PerformAll: `wscroll` with 0 lines, and `wclrtoeol`/`wclrtobot` while the cursor is pending below the window, are not made in a run.
- Tty.Tty.WAddCh: only the HD44780 display backend is modelled; the VT100, S1D13305 and S1D15G10 backends are not.
- Hd44780.Lcd.Put: one enable line only; the two-controller panel WDC2704 and the bit-level transfer are not modelled.
- OneWire.Master.SearchRom: one bus; the multi-bus build, presence pulse timing and devices that join or leave during a search are not modelled.
- SensorTable.DiscoveryComplete: a device whose 64-bit code is zero is excluded, because zero marks a free slot.
- Md5.Context.LastBlock: lengths that are not a whole number of bytes are not modelled.
- Md5.Hash: the contents of the sine table are a parameter (`Md5Vector` puts in the table of the RFC), and so are the S-boxes in `Cast5.Context.Init`; no S-box constant is verified and nothing is claimed about cryptographic strength.
- ZbusHost.Parser.ParseZbus: the reads, writes and timeouts of `read_tty` and `write_blocking` are replaced by byte sequences.
- VfsInline.OpenLatest: a failing `malloc` is not modelled.
- VfsInline.StoreAndRead: requires that no page above the file merely looks like a node of its name; `VfsInline.OpenLatest` has the exact condition.
- VfsInline.ConcatMain: the preference for a compressed copy of the file and unreadable files are outside the model; the file's contents are a parameter.
- FixedPoint.ItoaFixedpoint: n = -32768 and texts of 256 or more characters, which the 8-bit index cannot reach, are excluded.
- Enc28j60.PerformAll: callers are assumed to leave the bank-select bits of ECON1 to the driver, as all callers in the repository do; chip errata, SPI transfers, buffer memory access and interrupts are not modelled.
- Enc28j60.Driver.ReadControlRegister: what the registers hold at each read comes from a script, and then they are ready, idle and zero, so that polling loops end; a chip that never becomes ready is not modelled.
- Crc8.CrcIbuttonUpdate: the AVR library's own assembler version of this update is not part of this model.
- Pin and timer macros, ecmd text commands, temperature conversion, uIP, HTTP, PWM, LED drawing and camera code: register plumbing and glue without the invariants studied here.
