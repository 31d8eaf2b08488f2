# TOFIS ranging-frame link, modelled in Dafny

This project models the serial link between the TOFIS device firmware and the host example tool.

The device reads a VL53L8CX time-of-flight sensor and sends each ranging result, a zone count plus 64 zones of distance, status, ambient and signal, to the host. Each frame has a four-byte header: 0xAA, the resolution, an XOR checksum and 0x55. The host validates each frame and hands the latest one to the application through a one-slot mailbox. The host also forwards typed single-letter commands to the device, where a small state machine toggles the ranging profile, the signal/ambient outputs and the target order.

The modules are:

- `TofisData`: the shared data model. It holds the zone, result and packet structures with their build-time constants. Every 4-byte field is kept as the four bytes it occupies in little-endian memory. `Value` reads such a field as a uint32; floats stay opaque words.
- `StructImage`: the memory image of those structures, as `memcpy` and a `(uint8_t *)` cast see it. The 3 alignment padding bytes of each zone are included, so a zone is 20 bytes, a result 1284 and a packet 1288. The module also gives the reinterpretation of bytes as a structure and proves the two inverse.
- `CheckSum` and `HostChecksum`: the device and host copies of `calculate_checksum`. Both are loops proved against the XOR fold `Xor`. The lemmas say what that fold detects and what it misses.
- `TofisUart`: the device's UART slave, a class holding the 2048-byte transmit buffer and the static packet.
  - `SendData` writes the big-endian frame into the buffer in place, with a running index, and is proved equal to a frame function.
  - `SendDataLe` fills the packet and returns its memory image.
  - Lemmas decode the big-endian frame and give the exact gap between its checksum and the bytes it carries.
- `TofisHostApi`: one pass of the host's receive loop, as a decision function and as a method that publishes into the mailbox. It also has the mailbox take and the round trip from `SendData_Le` through the host.
- `TofisInputParser`: the copy of a typed command line into the command buffer.
- `AppTofis`: the device's command handler and its toggles, over a class holding `Profile`, `TargetOrder` and a log of driver effects.

## Model

| member | source | states |
|---|---|---|
| TofisData.Value | tools/tofis_host_example/tofis_data.h:18 | A 4-byte field read as a uint32 lies below 2^32. |
| TofisData.SizeConstants | tools/tofis_host_example/tofis_data.h:6-28 | A zone is 1 + 3 padding + 16 bytes, a result 4 + 64 zones, a packet 4 header bytes + a result; 8·8 zones fill the 64-zone array and the checksummed data starts after the 4-byte header. |
| StructImage.WordsRoundTrip | tools/tofis_host_example/tofis_data.h:11-14 | Reading back the image of a field array gives the same words. |
| StructImage.ParseWordsRoundTrip | tools/tofis_host_example/tofis_data.h:11-14 | Every 4n bytes are the image of the n words read from them. |
| StructImage.ZoneRoundTrip | tools/tofis_host_example/tofis_data.h:9-15 | A zone's 20-byte image, target count, padding, Distance, Status, Ambient, Signal in that order, reads back as the same zone. |
| StructImage.ParseZoneRoundTrip | tools/tofis_host_example/tofis_data.h:9-15 | Every 20 bytes are the image of the zone read from them. |
| StructImage.ZonesRoundTrip | tools/tofis_host_example/tofis_data.h:19 | The image of a zone array reads back as the same zones. |
| StructImage.ParseZonesRoundTrip | tools/tofis_host_example/tofis_data.h:19 | Every 20n bytes are the image of the n zones read from them. |
| StructImage.Image | tools/tofis_host_example/tofis_data.h:17-20 | A result's image is sizeof(Result) = 1284 bytes. |
| StructImage.ImageRoundTrip | tools/tofis_host_example/tofis_host_api.c:87-88 | Copying a result to bytes and `memcpy`-ing them back yields the same result. |
| StructImage.FromImageRoundTrip | tools/tofis_host_example/tofis_host_api.c:87-88 | Every 1284 received bytes are the image of the result they are copied into. |
| StructImage.PacketImage | tools/tofis_host_example/tofis_data.h:22-28 | A packet's image is the 4 header bytes followed by the result, 1288 bytes. |
| CheckSum.CalculateChecksum | TOF/App/check_sum.c:4-10 | Returns the XOR fold from 0 of `buffer[0..length)`, and 0 for a zero or negative length; the buffer is a value and is only read. |
| CheckSum.XorAppend | TOF/App/check_sum.c:6-8 | Appending byte b changes the checksum to old ^ b. |
| CheckSum.XorConcat | TOF/App/check_sum.c:6-8 | The checksum of a concatenation is the XOR of the parts' checksums. |
| CheckSum.XorUpdate | TOF/App/check_sum.c:6-8 | Replacing byte i by x changes the checksum by s[i] ^ x. |
| CheckSum.SingleByteChangeDetected | TOF/App/check_sum.c:6-8 | Changing exactly one byte always changes the checksum. |
| CheckSum.PairedDeltaCancels | TOF/App/check_sum.c:6-8 | Flipping two distinct bytes by the same delta leaves the checksum unchanged. |
| CheckSum.PermutationInvariant | TOF/App/check_sum.c:6-8 | Any two buffers with the same multiset of bytes have the same checksum. |
| CheckSum.SelfCheck | tools/tofis_host_example/checksum.h:8-10 | The data with its own checksum appended XOR to 0. |
| HostChecksum.CalculateChecksum | tools/tofis_host_example/checksum.h:6-12 | The host copy returns the XOR fold of `buffer[0..length)` from 0, and 0 for a non-positive length. |
| HostChecksum.AgreesWithDevice | tools/tofis_host_example/checksum.h:6-12 | The host and device copies return the same checksum for every buffer and length. |
| TofisUart.Be32OfValue | TOF/App/tofis_uart.c:45-48 | Shifting out a uint32's bytes `>> 24, >> 16, >> 8, >> 0` gives its little-endian memory bytes in reverse. |
| TofisUart.SlaveDevice.constructor | TOF/App/tofis_uart.h:11-14 | The device owns a fresh 2048-byte buffer. |
| TofisUart.SlaveDevice.Init | TOF/App/tofis_uart.c:12-16 | Stores the UART handle and zeroes all 2048 buffer bytes; the static packet is untouched. |
| TofisUart.SlaveDevice.PutHeader | TOF/App/tofis_uart.c:33-48 | Writes 0xAA at 0, the resolution at 1, 0x55 at 3, skips the checksum slot 2 and writes NumberOfZones most significant byte first at 4..7; the index ends at 8. |
| TofisUart.SlaveDevice.PutUint32 | TOF/App/tofis_uart.c:59-62 | Writes the four shifted-out bytes of a uint32 at the index, nothing else changes, and the index advances by 4. |
| TofisUart.SlaveDevice.PutFloat | TOF/App/tofis_uart.c:75-80 | Writes a float's memory bytes 3, 2, 1, 0 at the index, nothing else changes, and the index advances by 4. |
| TofisUart.SlaveDevice.PutUint32Array | TOF/App/tofis_uart.c:58-63 | The per-target loop writes each uint32 of the array big-endian, back to back. |
| TofisUart.SlaveDevice.PutFloatArray | TOF/App/tofis_uart.c:74-81 | The per-target loop writes each float of the array byte-reversed, back to back. |
| TofisUart.SlaveDevice.PutZone | TOF/App/tofis_uart.c:52-91 | One zone is written as the target count, then Distance, Status, Ambient and Signal: 17 bytes, padding not sent. |
| TofisUart.SlaveDevice.PutZones | TOF/App/tofis_uart.c:51-92 | The zone loop writes zones 0..n-1 back to back and ends at index + 17·n. |
| TofisUart.SlaveDevice.SendData | TOF/App/tofis_uart.c:26-102 | With NumberOfZones ≤ 64, the bytes handed to the UART are `buffer[0..8 + 17·n)` and equal the big-endian frame. Only those first 8 + 17·n ≤ 1096 bytes are written; the rest of the buffer is unchanged. |
| TofisUart.SlaveDevice.SendDataLe | TOF/App/tofis_uart.c:104-121 | The static packet gets 0xAA, the resolution, 0x55, a copy of the result and the XOR of the result's image; the whole packet image goes to the UART. |
| TofisUart.ZoneBigEndianRoundTrip | TOF/App/tofis_uart.c:54-91 | Decoding one serialised zone yields the zone with its padding read as zero. |
| TofisUart.ZonesBigEndianRoundTrip | TOF/App/tofis_uart.c:51-92 | Decoding the serialised zones yields every sent zone without its padding. |
| TofisUart.BigEndianFrameDecodes | TOF/App/tofis_uart.c:33-92 | The frame is 8 + 17·n bytes, always shorter than a packet. It carries the markers, the resolution and the zone count most significant byte first, and decodes to the sent zones. |
| TofisUart.BigEndianChecksumGap | TOF/App/tofis_uart.c:94-96 | Byte 2 is the XOR over the struct's memory image. That equals the XOR of the frame's payload plus the sent zones' padding plus the unsent zones' image. So the frame checks out against its own bytes exactly when those extra bytes XOR to 0. |
| TofisHostApi.WellFormedPacketAccepted | tools/tofis_host_example/tofis_host_api.c:41-102 | Every packet with the right markers and the XOR of its data as checksum passes all the checks, and the host rebuilds that very packet. |
| TofisHostApi.AcceptedIsPacketImage | tools/tofis_host_example/tofis_host_api.c:41-102 | Whatever is accepted came from complete reads. Its header and payload bytes are exactly the image of the published packet, whose markers and checksum are right. The resolution byte is not checked. |
| TofisHostApi.MatchingPayloadAccepted | tools/tofis_host_example/tofis_host_api.c:78-102 | Under a good header, any payload whose XOR matches header byte 2 is published as read. |
| TofisHostApi.SingleCorruptionDropped | tools/tofis_host_example/tofis_host_api.c:78-84 | A payload with one byte changed is dropped as a checksum mismatch. |
| TofisHostApi.PairedCorruptionAccepted | tools/tofis_host_example/tofis_host_api.c:78-84 | Two payload bytes flipped by the same nonzero delta pass, and a result other than the one sent is published. |
| TofisHostApi.DistinctImagesDecodeApart | tools/tofis_host_example/tofis_host_api.c:87-88 | Different payloads are copied into different results. |
| TofisHostApi.AsSize | tools/tofis_host_example/tofis_host_api.c:71 | Converting an `int` to `size_t` keeps non-negative counts and adds 2^64 to negative ones. |
| TofisHostApi.ReadErrorAcceptedAsWritten | tools/tofis_host_example/tofis_host_api.c:70-75 | As written, a payload read returning -1 after a good header is accepted if the stale buffer matches the checksum; the signed comparison drops it. |
| TofisHostApi.ShortReadsDropped | tools/tofis_host_example/tofis_host_api.c:70-75 | With the signed comparison, no payload read short of sizeof(Result), failed reads included, is ever accepted. |
| TofisHostApi.VerdictsAgreeOnNonNegativeCounts | tools/tofis_host_example/tofis_host_api.c:70-75 | The as-written and signed decisions differ only when the payload read reports an error, and then the signed one drops the frame. |
| TofisHostApi.HostApi.constructor | tools/tofis_host_example/tofis_host_api.c:29-30 | The mailbox starts with a zeroed packet and no data ready. |
| TofisHostApi.HostApi.Publish | tools/tofis_host_example/tofis_host_api.c:112-116 | Publishing overwrites `latest_packet` and sets `data_ready`. |
| TofisHostApi.HostApi.ReceiveOnce | tools/tofis_host_example/tofis_host_api.c:38-117 | One pass drops on a short header, bad markers, a short payload or a checksum mismatch, in that order. Otherwise it publishes the packet built from the header bytes and the copied payload. A dropped frame leaves the mailbox as it was. |
| TofisHostApi.HostApi.WaitForData | tools/tofis_host_example/tofis_host_api.c:263-271 | Once data is ready, it returns the packet in the slot, clears `data_ready` and returns 0. |
| TofisHostApi.LastPublishWins | tools/tofis_host_example/tofis_host_api.c:112-116 | Two publishes before one take: the taker gets the second packet, and the return code is 0. |
| TofisHostApi.ReceiveThenTake | tools/tofis_host_example/tofis_host_api.c:97-116 | A well-formed frame received into the mailbox is exactly the packet the application takes. |
| TofisHostApi.LittleEndianLink | TOF/App/tofis_uart.c:104-121 | The bytes `SendData_Le` transmits, read by the host, are accepted, and the packet taken carries the device's result and resolution. |
| TofisInputParser.StrLen | tools/tofis_host_example/tofis_input_parser.c:8 | `strlen` is the position of the first NUL: a NUL sits there and none before it. |
| TofisInputParser.CopiedInto | tools/tofis_host_example/tofis_input_parser.c:9-11 | After the copy, bytes below min(len, 256) are the input's and every byte from there on is the old buffer's. |
| TofisInputParser.ParseToCmdBuf | tools/tofis_host_example/tofis_input_parser.c:6-13 | The loop copies min(strlen, 256) bytes, writes nothing else, in particular no NUL, and sets `*buf_len` to strlen even above 256. |
| TofisInputParser.FgetsLineCopiedWhole | tools/tofis_host_example/tofis_host_api.c:146-161 | A line from the 256-byte `fgets` buffer is shorter than 256, so all of it is copied. |
| TofisInputParser.SentBytes | tools/tofis_host_example/tofis_host_api.c:164 | What is written to the port is the buffer up to its first NUL: no NUL in it, and a NUL right after it. |
| TofisInputParser.StaleByteResent | tools/tofis_host_example/tofis_input_parser.c:9-12 | After "rs" is sent, typing "t" sends "ts". |
| TofisInputParser.TerminatedSendsCommand | tools/tofis_host_example/tofis_input_parser.c:9-12 | With a NUL written after the copied bytes, exactly the typed command is sent, whatever the buffer held. |
| TofisInputParser.ParseToCmdBufTerminated | tools/tofis_host_example/tofis_input_parser.c:9-12 | The terminating copy leaves the kept bytes followed by a NUL in the buffer. |
| AppTofis.ToggleResolutionSwaps | TOF/App/app_tofis.c:325-344 | `toggle_resolution` maps 4x4 to 8x8 and back, keeps autonomous or continuous mode, and leaves any other profile unchanged. |
| AppTofis.ToggleResolutionTwice | TOF/App/app_tofis.c:325-344 | Toggling the resolution twice restores every RangingProfile. |
| AppTofis.ToggledFlag | TOF/App/app_tofis.c:353-354 | A flag becomes 0 if it was nonzero and 1 otherwise. |
| AppTofis.ToggleFlagTwice | TOF/App/app_tofis.c:353-354 | Toggling a flag twice restores 0 and turns every nonzero value into 1. |
| AppTofis.ToggledOrder | TOF/App/app_tofis.c:128-130 | After the toggle the order is CLOSEST or STRONGEST, and it is STRONGEST exactly when it was CLOSEST. |
| AppTofis.ToggleOrderTwice | TOF/App/app_tofis.c:128-130 | Toggling twice restores CLOSEST and STRONGEST; any other value ends on STRONGEST. |
| AppTofis.ZonesPerLine | TOF/App/app_tofis.c:226-230 | zones_per_line is 8 exactly for the two 8x8 profiles and 4 otherwise. |
| AppTofis.ZonesPerLineAfterToggle | TOF/App/app_tofis.c:252-255 | For a 4x4 or 8x8 profile, the resolution toggle flips zones_per_line between 4 and 8. |
| AppTofis.HandledChangesOnly | TOF/App/app_tofis.c:380-403 | Only 'r', 's' and 't' change state. 'r' touches only RangingProfile, 's' only the two enable flags, 't' only the target order. Timing budget and frequency never change. |
| AppTofis.HandledTwiceRestores | TOF/App/app_tofis.c:380-403 | From a state with 0/1 flags and a known order, the same key twice returns to the starting state. |
| AppTofis.App.constructor | TOF/App/app_tofis.c:184-206 | Ranging starts in 8x8 continuous with a 30 ms budget, 10 Hz and both outputs off. Target order is CLOSEST, after configure, set-order and start calls. |
| AppTofis.App.ToggleResolution | TOF/App/app_tofis.c:322-348 | The sensor is stopped, only RangingProfile is toggled, the new profile is configured and ranging restarts. |
| AppTofis.App.ToggleSignalAndAmbient | TOF/App/app_tofis.c:350-358 | The sensor is stopped, both enable flags are toggled, the profile is configured and ranging restarts. |
| AppTofis.App.ToggleTargetOrder | TOF/App/app_tofis.c:125-135 | The sensor is stopped, the target order is toggled and set, and ranging restarts; the profile is unchanged. |
| AppTofis.App.HandleCmd | TOF/App/app_tofis.c:380-403 | One key press moves the state as `Handled` says, with the driver and clear-screen effects of that key. |
| AppTofis.App.TransmitResult | TOF/App/app_tofis.c:226-233 | Each result goes out as a `SendData_Le` packet whose resolution byte is the current zones_per_line, 4 or 8; the device's static packet becomes that packet, and the UART handle is unchanged. |

## Left out

- Serial transport (`tofis_host_serial.c`): opening, configuring, reading and writing the port are not part of this model. Each `read_serial` call is a parameter: its return value plus the buffer contents afterwards. The baud-rate mapping is not modelled, including the 460800 requested at `tofis_main.c:183` falling back to 9600.
- Threads: the receive and input threads, the mutex, the condition variable and the Windows event are not modelled. The mailbox is modelled as sequential publish and take. `TofisHostApi.HostApi.WaitForData` has the blocking wait as its precondition (`data_ready` holds), and the Windows variant (`tofis_host_api.c:255-261`) is not modelled.
- The malloc-failure branch (`tofis_host_api.c:63-67`) is not modelled; allocation is taken to succeed.
- The input thread around `parse_to_cmd_buf` is not modelled: `fgets`, the newline stripping at `tofis_host_api.c:157`, `printf`. The newline is not sent, so the command channel carries bare letters.
- Sensor, HAL and terminal calls are opaque `Effect` entries in a log: ranging stop, start and configure, set target order, clear screen. Their results and the busy-polling main loop are not modelled. `HAL_UART_Transmit`'s status is not returned; `SendData` and `SendDataLe` return the bytes they hand to it. `print_result` and the banner are presentation.
- Float semantics: Ambient and Signal are opaque 4-byte words in memory order.
- The device's `RANGING_SENSOR_Result_t` and `RANGING_SENSOR_ProfileConfig_t` come from vendor headers that are not part of this model. The device result is taken to have the host's layout (`tools/tofis_host_example/tofis_data.h:9-20`). The profile identifiers (4x4 continuous 1, 4x4 autonomous 2, 8x8 continuous 3, 8x8 autonomous 4) and target orders (CLOSEST 1, STRONGEST 2) are taken from the vendor driver; only their distinctness matters.
- TofisUart.SlaveDevice.SendData requires NumberOfZones ≤ 64. The C loop does not check this and would read past the 64-entry zone array, and the model does not capture that out-of-bounds read.
- The file-static `_packet` of `tofis_uart.c:4` is a field of each `SlaveDevice`; with one device, as in `app_tofis.c:56`, this is the same.
- `SendData`'s header writes and zone loop are split into `PutHeader`, `PutZones`, `PutZone`, `PutUint32Array`, `PutFloatArray`, `PutUint32` and `PutFloat`. These helper methods write the same bytes in the same order as the inline code.
- `toggle_target_order` is declared to return `uint8_t` but has no return statement. Its value is never used, and `AppTofis.App.ToggleTargetOrder` returns nothing.
- `toggle_target_order` maps every value other than CLOSEST to CLOSEST, so it never moves to STRONGEST from an unknown order (`app_tofis.c:128-130`); `AppTofis.ToggledOrder` does the same.
- The 'r' command toggles between the 4x4 and 8x8 profiles of the same mode (`app_tofis.c:325-344`); there is no third resolution to cycle through.
- The command line is sent without its newline, because the newline is replaced by a NUL before the copy (`tofis_host_api.c:157`).
- TofisInputParser.SentBytes requires a NUL somewhere in the buffer. `to_tofis_buf` is an uninitialised local array (`tofis_host_api.c:147`) and `parse_to_cmd_buf` never writes a NUL, so whenever the array's original bytes held no NUL past the copied command, `strlen` at `tofis_host_api.c:164` may find no NUL in the 256 bytes and read past the array; the model does not capture that out-of-bounds read.
- `TofisHostApi.HostApi.ReceiveOnce` compares the payload count signed, which is the corrected comparison listed under Findings. `TofisHostApi.FrameVerdictAsWritten` is the comparison as written.

## Findings

| source | as written | input that shows it | evidently intended | confidence | as-written member | corrected member |
|---|---|---|---|---|---|---|
| tools/tofis_host_example/tofis_host_api.c:70-71 | `bytes_read < data_size` compares an `int` with a `size_t`, so -1 from a failed `read_serial` becomes 2^64 - 1 and passes as a complete read | a good header, then a payload read returning -1 whose stale buffer XORs to header byte 2 | a failed or short payload read drops the frame | not executed | TofisHostApi.ReadErrorAcceptedAsWritten | TofisHostApi.ShortReadsDropped |
| tools/tofis_host_example/tofis_input_parser.c:9-12 | the copy writes no NUL, and the caller sends `strlen(to_tofis_buf)` bytes, so bytes of an earlier, longer command are sent again | `to_tofis_buf` starts uninitialised and keeps its bytes between commands; taking its first contents to be zeros, "rs" then "t" sends "ts", and the device toggles signal/ambient as well as the target order | only the typed command is sent | not executed | TofisInputParser.StaleByteResent | TofisInputParser.TerminatedSendsCommand |
