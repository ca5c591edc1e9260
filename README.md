# AirISP-next, modelled in Dafny

AirISP-next is a command-line flasher for AirMCU/Cortex-M microcontrollers. It
reads a firmware file (Intel HEX or raw binary) and writes it to the chip. It
talks to the chip either over a serial port, using the STM32-style UART
bootloader protocol, or through an SWD debug probe.

This project models the core of the flasher and proves properties of that model:

- `base.dfy` (`Base`): the shared pieces.
  - 32-bit and smaller unsigned integers.
  - `Outcome`: a value, an error that `?` propagates, a `process::exit`, or a panic.
  - Rust's `from_str_radix` for unsigned types.
  - ASCII lower-casing.
  - Byte XOR.
- `hex_to_bin.dfy` (`HexToBin`): the Intel-HEX decoder `hex_to_bin`.
  - A state machine over lines, specified by functions.
  - The decoder's own loop as a method proved equal to them.
  - A generator of linker-style HEX files, with the round trip proved.
- `serial_link.dfy` (`SerialLink`): the serial port as the UART engine uses it.
  - Every line change, write, read and clear is logged.
  - The device's answers are an oracle over that log.
- `general_uart.dfy` (`Uart`): the UART ISP engine (`get_ack`, `write_flash`, `get_chip_id`, `reset_bootloader`).
  - The protocol is written as functions of the port.
  - A `GeneralUart` class has one method per operation. Each is proved equal to its function.
  - The frame formats are proved to round-trip through the bootloader's reading of them.
- `swd.dfy` (`Swd`): the debug-probe peripheral's chip identification (`new`, `get_chip_session_name`, `get_chip_info`, `get_chip_pid`).
  - The probe, the attach and the register reads are an oracle.
  - Sessions, reads and warnings are logged.
  - The nested search loops are proved equal to a flat search over the chip table.
- `air_isp.dfy` (`AirIsp`): the configuration and its getters (the fields of `Config`), `get_peripheral_handle`, and `read_file`.
- `write_flash.dfy` (`WriteFlash`): the `write_flash` command.
  - Parsing of the address and the flags.
  - The order in which `run` calls an abstract peripheral, which records each call and answers from an oracle.

Some behaviour of the code is easy to misread. The model follows the code in each case:

- `reset_bootloader` tries Get ID five times (`src/peripheral/general_uart.rs:289`), although its comment at `:305` speaks of three tries.
- Get ID reports N + 1 bytes after the count byte N (`src/peripheral/general_uart.rs:162-169`). It reads them into an N + 2 byte buffer that also takes the trailing ACK.
- On the named SWD path, a failed ID-register read logs a warning and moves on to the next table row with `continue` (`src-tauri/src/peripheral/swd.rs:127-137`). It does not return the candidate.
- A HEX line too short for the field being sliced panics on the slice (`src/hex_to_bin.rs:26-28`). It does not return a decoding error.

## Model

| member | source | states |
|---|---|---|
| Base.FromStrRadixOkIff | src/write_flash.rs:64 | a numeral that cannot overflow is accepted by `from_str_radix` exactly when it is digits, optionally after one '+' |
| Base.FromStrRadixOfNumeral | src/write_flash.rs:64-66 | every number printed with at least one digit, in any radix from 2 to 16, parses back to itself when it fits |
| HexToBin.Lines | src/hex_to_bin.rs:24 | no line produced by `lines()` contains a newline |
| HexToBin.Strip | src/hex_to_bin.rs:25 | a cleaned line contains no ':' and no ' ' and is no longer than the original |
| HexToBin.HexField | src/hex_to_bin.rs:26-28 | slicing a field past the end of the line panics, exactly then; a parsed field never exceeds the type's maximum |
| HexToBin.DataBytes | src/hex_to_bin.rs:38-42 | a record's parsed data has exactly the byte count's length |
| HexToBin.Resize | src/hex_to_bin.rs:35 | `resize` gives the requested length, keeps the old bytes below it and fills the rest with the fill byte |
| HexToBin.HexToBinary | src/hex_to_bin.rs:10-68 | the decoder's loop over lines gives exactly the result of the line-by-line state machine `Decode` |
| HexToBin.DecodeRecord | src/hex_to_bin.rs:25-64 | the loop body (header fields, dispatch on record type) is one step of the state machine |
| HexToBin.AppendData | src/hex_to_bin.rs:31-44 | a data record's padding and byte-by-byte push is the data step of the state machine |
| HexToBin.StartSegment | src/hex_to_bin.rs:48-60 | an extended-address record's push of the open segment and reset is the segment step of the state machine |
| HexToBin.StepPreservesInv | src/hex_to_bin.rs:30-64 | every record keeps the decoder's invariant: the segment text is "-1" exactly before the first 04 record, nothing is collected before it, and the next offset never passes the collected data |
| HexToBin.SegmentCount | src/hex_to_bin.rs:48-66 | a decoded file has one segment per 04 record before the end-of-file record, and at least one |
| HexToBin.ExtendedAddressRecord | src/hex_to_bin.rs:48-60 | a 04 record closes the open segment (not on the first one) and opens an empty one at its upper 16 bits times 0x10000 |
| HexToBin.DataRecordPlacement | src/hex_to_bin.rs:31-44 | a data record at or beyond the end of the collected data lands at its offset, the gap filled with 0xFF; the next offset grows by the byte count only |
| HexToBin.DataRecordTruncates | src/hex_to_bin.rs:33-41 | a record whose offset lies between the next offset and the end of the collected data truncates the segment at its offset before appending |
| HexToBin.NoExtendedRecord | src/hex_to_bin.rs:32-43 | data records before any 04 record are dropped: a file without 04 records decodes to one empty segment at 0 |
| HexToBin.EndOfFileStops | src/hex_to_bin.rs:45-47 | nothing after an end-of-file record affects the result |
| HexToBin.OtherRecordIgnored | src/hex_to_bin.rs:61-63 | records of types other than 00, 01 and 04 leave the state unchanged |
| HexToBin.HeaderWellFormed | src/hex_to_bin.rs:26-28 | a complete header is accepted exactly when its three fields are hex numerals; otherwise it is a digit error, not a panic |
| HexToBin.DataBytesWellFormed | src/hex_to_bin.rs:38-39 | the data of a complete record is accepted exactly when every byte field is a hex numeral |
| HexToBin.HexFileRoundTrip | src/hex_to_bin.rs:10-68 | a HEX file written from well-formed segments (04 record, in-order data records, end-of-file record) decodes back to exactly those segments |
| SerialLink.Link.Read | src/peripheral/general_uart.rs:79-80 | a read returns the waiting bytes up to the buffer size, or times out when none wait |
| SerialLink.Link.Clear | src/peripheral/general_uart.rs:84 | clearing drops every unread byte |
| SerialLink.Link.Write | src/peripheral/general_uart.rs:116 | a write appends its bytes to what was sent, and the device's answer to the bytes waiting |
| Uart.CommandFrameRoundTrip | src/peripheral/general_uart.rs:100 | the bootloader reads a command frame (opcode, complement) back as its command |
| Uart.CommandFrameUnique | src/peripheral/general_uart.rs:100 | a frame read as a command is that command's frame |
| Uart.BigEndianRoundTrip | src/peripheral/general_uart.rs:121-124 | the four address bytes, most significant first, denote the address |
| Uart.AddressFrameRoundTrip | src/peripheral/general_uart.rs:120-126 | the address frame (four bytes and their XOR) is read back as its address |
| Uart.AddressFrameUnique | src/peripheral/general_uart.rs:120-126 | an accepted address frame is the frame of a 32-bit address |
| Uart.DataFrameRoundTrip | src/peripheral/general_uart.rs:103-114 | the data frame (count less one, bytes, XOR checksum) is read back as its chunk |
| Uart.DataFrameUnique | src/peripheral/general_uart.rs:103-114 | an accepted data frame is the frame of a chunk of 1 to 256 bytes |
| Uart.ReadAck | src/peripheral/general_uart.rs:78-90 | `get_ack` succeeds exactly on an ACK byte and consumes it; another byte clears the port and fails; no byte fails without clearing; nothing is written |
| Uart.Exchange | src/peripheral/general_uart.rs:116-117 | a frame and its ACK: exactly that frame is written, and the outcome is success or an error |
| Uart.ChunkAt | src/peripheral/general_uart.rs:102-106 | each chunk holds 1 to 256 bytes |
| Uart.FlashFrames | src/peripheral/general_uart.rs:94-151 | writing sends a prefix of the command/address/data frames of all chunks, all of them on success, and never exits or panics |
| Uart.ChunksCover | src/peripheral/general_uart.rs:102-106 | the chunks concatenate to the data, in ceil(n / 256) pieces |
| Uart.FramesOfChunks | src/peripheral/general_uart.rs:102-131 | the frames are, chunk by chunk, the command, the chunk's address and the chunk's data |
| Uart.ThreeHundredBytes | src/peripheral/general_uart.rs:102-127 | 300 bytes go out as two write commands: 256 bytes at the start address, then 44 bytes 0x100 past it |
| Uart.DataBuffer | src/peripheral/general_uart.rs:103-114 | the loop filling the data buffer builds exactly the data frame of the chunk |
| Uart.AddressBuffer | src/peripheral/general_uart.rs:120-125 | the address buffer is the address frame of the chunk's wrapped address |
| Uart.ChipIdReply | src/peripheral/general_uart.rs:153-178 | `get_chip_id` writes exactly the Get ID frame and ends in success or an error |
| Uart.IdBytes | src/peripheral/general_uart.rs:159-169 | after the count byte N, N + 1 bytes are reported and nothing is written |
| Uart.IdBytesAnswer | src/peripheral/general_uart.rs:159-169 | a count byte N and its body report the body's first N + 1 bytes, zero-padded when fewer came |
| Uart.ChipIdOfAnswer | src/peripheral/general_uart.rs:153-169 | a bootloader answering ACK, N, N + 1 ID bytes and ACK has exactly those ID bytes reported, and the answer fully consumed |
| Uart.IdAttemptsOutcome | src/peripheral/general_uart.rs:289-313 | with port operations that cannot fail, the Get ID retries end in success or in exit status 1 |
| Uart.IdAttemptsFrames | src/peripheral/general_uart.rs:289-313 | the retries write Get ID frames with one sync byte between failed attempts, all of them when they give up |
| Uart.RetryFramesCount | src/peripheral/general_uart.rs:289-311 | giving up takes five Get ID frames and four extra sync bytes |
| Uart.DriveSignals | src/peripheral/general_uart.rs:218-257 | each reset circuit drives exactly its RTS/DTR sequence, writing and reading nothing |
| Uart.SyncAttemptsOutcome | src/peripheral/general_uart.rs:217-280 | the handshake succeeds, panics or exits with status 1, never an error |
| Uart.SyncAttemptsFrames | src/peripheral/general_uart.rs:263-279 | what the handshake writes is a prefix of one sync byte per attempt, all of them when it gives up |
| Uart.SyncAttemptsPanic | src/peripheral/general_uart.rs:258-260 | an unknown circuit panics at the first attempt, before anything is driven or written |
| Uart.NoAttemptsSkipsHandshake | src/peripheral/general_uart.rs:217 | with zero connect attempts the handshake is skipped and Get ID follows at once |
| Uart.EnterBootloaderOutcome | src/peripheral/general_uart.rs:180-316 | `reset_bootloader` succeeds, panics or exits with status 1 |
| Uart.EnterBootloaderPanics | src/peripheral/general_uart.rs:217-261 | with port operations that cannot fail, it panics exactly when an attempt is due and the circuit name is unknown |
| Uart.GeneralUart.GetAck | src/peripheral/general_uart.rs:78-90 | the method's outcome and port equal `ReadAck` |
| Uart.GeneralUart.Send | src/peripheral/general_uart.rs:116-117 | the method's outcome and port equal `Exchange` |
| Uart.GeneralUart.WriteFlash | src/peripheral/general_uart.rs:94-151 | the chunk loop's outcome and port equal the write function `FlashFrom` |
| Uart.GeneralUart.GetChipId | src/peripheral/general_uart.rs:153-178 | the method's outcome and port equal `ChipIdReply` |
| Uart.GeneralUart.ReadIdBytes | src/peripheral/general_uart.rs:159-169 | the two reads equal `IdBytes` |
| Uart.GeneralUart.Handshake | src/peripheral/general_uart.rs:217-280 | the attempt loop equals the handshake function `SyncAttempts` |
| Uart.GeneralUart.PulseDefaultReset | src/peripheral/general_uart.rs:220-241 | the XOR circuit's line changes, in order |
| Uart.GeneralUart.PulseDirectConnect | src/peripheral/general_uart.rs:243-257 | the direct circuit's line changes, in order |
| Uart.GeneralUart.ReadChipId | src/peripheral/general_uart.rs:289-313 | the retry loop equals `IdAttempts` |
| Uart.GeneralUart.ResetBootloader | src/peripheral/general_uart.rs:180-316 | the method equals `EnterBootloader`: handshake, then Get ID |
| AirIsp.GetPeripheralHandle | src/AirISP.rs:190-207 | "swd" or "uart" in any ASCII case selects that peripheral; any other name is "not support peripheral" |
| AirIsp.PeripheralCaseInsensitive | src/AirISP.rs:193 | the choice does not depend on the name's letter case |
| AirIsp.LastIndexOf | src/AirISP.rs:218-219 | the index found holds the character and no later one does |
| AirIsp.ExtensionOf | src/AirISP.rs:218-219 | a file named stem.ext has extension ext |
| AirIsp.NoExtension | src/AirISP.rs:219 | a file name without '.' has no extension |
| AirIsp.ReadFile | src/AirISP.rs:209-236 | a missing file is an open error and an empty file an error; success needs an extension; a non-hex file is one image of its bytes at 0xFFFFFFFF |
| AirIsp.ReadHexFile | src/AirISP.rs:221-224 | a linker-written ".hex" file reads back as its segments |
| AirIsp.ReadRawFile | src/AirISP.rs:226-233 | any other extension passes the bytes through unchanged |
| AirIsp.ReadFileWithoutExtension | src/AirISP.rs:219 | a non-empty file without extension panics |
| Swd.Speed | src-tauri/src/peripheral/swd.rs:49-52 | the probe speed is the baud rate, or 200 when that is 0; never 0 |
| Swd.FirstProbeSpec | src-tauri/src/peripheral/swd.rs:59-72 | the probe chosen is the first whose lower-cased identifier contains the port; none exactly when no probe matches |
| Swd.SessionRouteSpec | src-tauri/src/peripheral/swd.rs:46-78 | port "auto" auto-attaches to the lower-cased chip name; otherwise the first matching probe is opened at the speed above, or none is found |
| Swd.FamilyFlat | src-tauri/src/peripheral/swd.rs:90-105 | the inner loop over one family followed by the rest is the flat search over that family's rows and the rest |
| Swd.TableFlat | src-tauri/src/peripheral/swd.rs:87-158 | the nested family/chip loops search the table exactly as the flat search over all rows does |
| Swd.AutoSearchFinds | src-tauri/src/peripheral/swd.rs:89-106 | on the "auto" path the first matching row wins if every row before it was read and disagreed |
| Swd.AutoSearchSound | src-tauri/src/peripheral/swd.rs:89-106 | whatever the "auto" path returns is such a first match |
| Swd.AutoSearchNoMatch | src-tauri/src/peripheral/swd.rs:89-158 | "no match chip" exactly when every row was read and disagreed with its PID |
| Swd.AutoSearchAborts | src-tauri/src/peripheral/swd.rs:96-99 | a failed attach or read at the first undecided row ends the search with that error |
| Swd.AutoSentinelFirst | src-tauri/src/peripheral/swd.rs:92-94 | a leading row with register 0xFFFFFFFF is returned with no session and no read |
| Swd.AutoSearchReads | src-tauri/src/peripheral/swd.rs:93-99 | the "auto" path never reads the sentinel address and only auto-attaches to "cortex-m0" |
| Swd.NamedSearchSound | src-tauri/src/peripheral/swd.rs:113-148 | the named path only returns a table row whose name matches the selector |
| Swd.NamedSkipsOthers | src-tauri/src/peripheral/swd.rs:117 | rows of other names are passed over without touching the hardware |
| Swd.NamedSentinel | src-tauri/src/peripheral/swd.rs:118-123 | the first candidate with register 0xFFFFFFFF is returned with one warning and no session |
| Swd.NamedMismatchAccepted | src-tauri/src/peripheral/swd.rs:139-145 | a candidate whose register reads another value is still returned, with a warning naming both values |
| Swd.NamedReadFailureContinues | src-tauri/src/peripheral/swd.rs:127-137 | a candidate whose register cannot be read is dropped with a warning and the search goes on |
| Swd.NamedSessionFailure | src-tauri/src/peripheral/swd.rs:125 | a session that cannot be opened ends the search with "get probe fail" or the attach error |
| Swd.NamedNoCandidate | src-tauri/src/peripheral/swd.rs:151-158 | with no row of that name the search fails with "no match chip" and touches nothing |
| Swd.NamedCaseInsensitive | src-tauri/src/peripheral/swd.rs:117 | the selector's letter case does not change the result |
| Swd.SessionCaseInsensitive | src-tauri/src/peripheral/swd.rs:48 | opening a session does not depend on the chip name's letter case |
| Swd.Swd.Init | src-tauri/src/peripheral/swd.rs:22-34 | the peripheral starts with the placeholder descriptor |
| Swd.Swd.GetChipSessionName | src-tauri/src/peripheral/swd.rs:46-78 | the probe loop succeeds exactly when `SessionName` does, fails with its error, and logs exactly its events |
| Swd.Swd.GetChipInfo | src-tauri/src/peripheral/swd.rs:87-159 | the nested loops return and log exactly what the flat search `ChipInfoSearch` does |
| Swd.Swd.ScanFamily | src-tauri/src/peripheral/swd.rs:91-147 | the inner loop decides or passes on one family exactly as `FamilyVisit` says |
| Swd.Swd.AutoRow | src-tauri/src/peripheral/swd.rs:92-104 | one row of the "auto" loop does what `AutoVisit` says |
| Swd.Swd.NamedRow | src-tauri/src/peripheral/swd.rs:117-146 | one row of the named loop does what `NamedVisit` says |
| Swd.Swd.GetChipPid | src-tauri/src/peripheral/swd.rs:160-173 | the PID of the identified chip, widened to 32 bits, or the search's error |
| Swd.NewSwd | src-tauri/src/peripheral/swd.rs:21-44 | a peripheral holding the identified chip, or exit with the "no match chip" status on any failure |
| WriteFlash.ParseAddress | src/write_flash.rs:62-67 | hexadecimal after "0x"/"0X", decimal otherwise; a rejected address panics |
| WriteFlash.New | src/write_flash.rs:60-81 | succeeds exactly when the address parses, else panics; the flags are copied; progress is quiet exactly when no-progress is set, and never the bar |
| WriteFlash.HexAddressAccepted | src/write_flash.rs:63-64 | a prefixed address of up to eight digits is accepted exactly when it is hex digits |
| WriteFlash.HexAddressRoundTrip | src/write_flash.rs:63-64 | every address printed in hex after either prefix parses back to itself |
| WriteFlash.DecimalAddressRoundTrip | src/write_flash.rs:65-66 | every address printed in decimal parses back to itself |
| WriteFlash.AddressOverflowPanics | src/write_flash.rs:62-67 | an address past 32 bits panics in either notation, it is not truncated |
| WriteFlash.PerformSpec | src/write_flash.rs:91-98 | the calls made are a prefix of the plan, all of it on success |
| WriteFlash.PerformStops | src/write_flash.rs:91-98 | every call before the last succeeded, and a failed run fails as its last call did |
| WriteFlash.PerformOkIff | src/write_flash.rs:91-99 | the run succeeds exactly when every planned call succeeds |
| WriteFlash.PlanOrder | src/write_flash.rs:91-98 | the bootloader is entered first, the erase comes second, the write always uses `Percent`, the application reset comes last |
| WriteFlash.RunOrder | src/write_flash.rs:83-100 | the same order for the calls `run` actually makes |
| WriteFlash.RunSucceeds | src/write_flash.rs:83-100 | `run` succeeds exactly when the peripheral and file are had and every call succeeds; the calls are then the whole plan |
| WriteFlash.RunErase | src/write_flash.rs:93-95 | once the bootloader is entered, the chip is erased exactly when the erase flag is set |
| WriteFlash.RunSetupFailure | src/write_flash.rs:86-89 | a failing peripheral choice or file read stops `run` before any peripheral call |
| WriteFlash.Programmer.Call | src/write_flash.rs:91-98 | a peripheral call is recorded and answered by the oracle |
| WriteFlash.RunWriteFlash | src/write_flash.rs:83-100 | `run` returns and calls exactly what `RunOf` says, and adopts the address the reader settles on |
| WriteFlash.Drive | src/write_flash.rs:91-99 | the calls on the peripheral equal `Perform` over the plan |
| WriteFlash.Finish | src/write_flash.rs:97-99 | the write and the application reset complete the plan |

## Left out

- Timing is not modelled: sleeps, timeouts, the progress-dot task of `reset_bootloader`, and printed messages and progress percentages (floating point). A read finds whatever the device has sent.
- Opening the serial port in `GeneralUart::new` is not modelled. The class starts from an open port.
- UART `erase_all` and `reset_app` are not defined in `src/peripheral/general_uart.rs`. They appear in the model only as abstract calls of `run`.
- The SWD peripheral's `write_flash`, `erase_all`, `reset_app` and `get_chip_session` (`src-tauri/src/peripheral/swd.rs:176-233`) go through the probe-rs flash loader. That library is not part of this model.
- Swd.Swd.GetChipInfo: the probe-rs session is an oracle. "Attach succeeds" stands for opening the probe, setting its speed, attaching and reaching core 0. A failure of any of these is one `AttachFailed` error. The oracle has no memory: every attach to a route and every read of an address gets the same answer for the whole run. The source opens a new session for every candidate row (`src-tauri/src/peripheral/swd.rs:97,125`), and `get_chip_pid` repeats the whole search (`:170`). A probe that attaches for one row and fails for a later one, or a register whose value changes between reads, is not modelled.
- Swd.AutoSearchAborts: because of that memoryless oracle, an attach failure can only occur at the first row that needs a session. A failure after an earlier successful auto-attach (`src-tauri/src/peripheral/swd.rs:97`) is not covered.
- Swd.Named: names are lower-cased in ASCII only. `to_lowercase` also folds non-ASCII letters.
- Swd.FirstProbeSpec: probe identifiers are lower-cased in ASCII only (`src-tauri/src/peripheral/swd.rs:63-65` uses Unicode `to_lowercase`). A port text that matches only after a non-ASCII letter is folded, such as "étage" against "ÉTAGE-DAP", finds no probe in the model.
- Swd.SessionRouteSpec: the probe it opens is matched by the same ASCII-only lower-casing as `Swd.FirstProbeSpec`.
- WriteFlash.RunWriteFlash: `run` calls a three-argument `read_file` (`src/write_flash.rs:89`) that does not match the one-argument `read_file` at `src/AirISP.rs:209`. The file reader is therefore a parameter: it takes the path and address and gives the address and bytes to write.
- WriteFlash.RunWriteFlash: the peripheral built by `get_peripheral_handle` is not composed in. Its construction can exit (see `Swd.NewSwd`); here it is the abstract `Programmer`.
- WriteFlash.RunWriteFlash: `self.address` is returned as a value instead of updated in place.
- `AirISP::new` and the clap command builders (`src/AirISP.rs:19-144`, `src/write_flash.rs:7-49`) are argument-parsing glue and are not modelled. The getters are the fields of `AirIsp.Config`.
- Uart.ChunkAddress: `address + i` is modelled as a wrapping 32-bit sum (release-build arithmetic). A debug build would panic on overflow.
- AirIsp.ReadFile: file access is a map from paths to bytes, and UTF-8 decoding is an oracle. File names are split on '/' only. On Windows `Path` also splits on `\`, so a path like `C:\fw.v2\firmware` has no extension there (and panics), while the model finds the extension `v2\firmware`.
- HexToBin.ParseAddress and HexToBin.HexField: slices are taken by character index. Rust's byte-index slicing of non-ASCII text, which can panic mid-character, is not modelled.
- SerialLink.Link.Write: a write always sends the whole frame and never fails. The source's `write(..)?` (`src/peripheral/general_uart.rs:116,126,130,155`) can return an error, its `write(..).unwrap()` (`:264,307`) can panic, and `write`, unlike `write_all`, can send part of a frame while the count is ignored.
- SerialLink.Link.Clear: clearing never fails. The source's `clear(..)?` (`src/peripheral/general_uart.rs:84`) can return an error and its `clear(..).unwrap()` (`:310`) can panic.
- SerialLink.Link.WriteRequestToSend: setting RTS never fails. In the source (`src/peripheral/general_uart.rs:223-256`) a failure panics through `unwrap`.
- SerialLink.Link.WriteDataTerminalReady: setting DTR never fails. In the source (`src/peripheral/general_uart.rs:223-256`) a failure panics through `unwrap`.
- Uart.IdAttemptsOutcome: because port operations cannot fail in the model, it leaves out the panics from a failed sync write or clear between attempts (`src/peripheral/general_uart.rs:307,310`).
- Uart.EnterBootloaderPanics: for the same reason, "exactly when the circuit is unknown" leaves out the panics from failed RTS/DTR changes, sync writes and clears (`src/peripheral/general_uart.rs:223-256,264,307,310`). Failed writes inside `write_flash` and `get_chip_id` would likewise surface as errors that the model does not produce.
