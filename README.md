# TinklaRelay USB driver, modelled in Dafny

This project models the driver layer of the TinklaRelay HUD. The HUD application talks to a USB relay board through libusb. The board reports vehicle telemetry as a 10-byte vendor control transfer, and stores its manufacturer, product and serial strings in 64-byte descriptor tables. The model covers:

- **RelayProtocol** (`constants.dfy`): the flag masks, command codes, data-stage lengths, open result codes and descriptor geometry of `tinklarelaydriver.h` and `tinklarelaydriver.cpp:9-16`, with lemmas about how they fit together.
- **Telemetry** (`telemetry.dfy`): `processDataMessage()` as a pure decoder from a 10-byte frame to a `TelemetryState` record, and an encoder that is its exact inverse on bytes 0-8.
- **Descriptor** (`descriptor.dfy`): the string decoding of `getDescGeneric()`. The decode reads a first table and, for long manufacturer or product strings, a continuation table, with one code unit straddling the two. The module proves that this split decoding equals a flat decoding of one logical descriptor. It also proves the length bounds and a round trip from the USB string-descriptor layout (section 9.6.7 of the USB 2.0 specification).
- **UsbTrace** (`usb_trace.dfy`): the libusb calls the driver makes, recorded as a ghost trace, and the count of each resource a trace leaves held: the context, the device list, the handle on each device (counted per device), the claimed interface and the detached kernel driver.
- **DeviceSearch** (`device_search.dfy`): `libusb_open_device_with_vid_pid_serial()` as a loop over an abstract device list. It is proved to return the first device that matches on readable descriptor, ids, opening and serial, and to close again every device it opened and then rejected on its serial.
- **Driver** (`driver.dfy`): the `TinklaRelayDriver` class, with these fields:
  - the handle, the sticky disconnect flag and the kernel-driver flag;
  - the telemetry values and the telemetry frame buffer;
  - the ghost call trace.

  Its methods are the constructor, `open`, `close`, `controlTransfer`, `bulkTransfer`, `getData`, `processDataMessage`, `getDescGeneric` and the static `listDevices`. The class invariant `Valid()` says that while a handle is open, the trace holds exactly what a driver open on device `handle.value` holds: the context, the handle on that device and no other, the claim, and the kernel driver if one was detached. Otherwise the trace holds nothing at all.

Every libusb outcome is a parameter of the method that would call libusb:

- initialisation success, the device list, the handle found without a serial;
- whether a kernel driver is active, whether the claim succeeds;
- the bytes a control or bulk IN transfer delivers, the result code, the transferred count.

The by-reference `errcnt`/`errstr` pair is an `ErrorLog` value, passed in and returned. The log holds the count and an abstract record per message.

## Model

The rows below state their contracts in terms of these reference definitions. Each is written out from the source lines given:

- `Descriptor.PairUnits`: the non-null code units of a run of byte pairs. These are the decode loops at tinklarelaydriver.cpp:26-30 and 39-43.
- `Descriptor.DescriptorValue`: the string getDescGeneric returns, as a flat decode of the logical descriptor (tinklarelaydriver.cpp:19-46).
- `Telemetry.DecodeFrame`, `Flag`, `PowerLevel`, `SpeedLimit` and `AccStatus`: processDataMessage and its field extractions (tinklarelaydriver.cpp:205-244).
- `Driver.OpenCalls`, `ClaimCalls`, `CloseCalls` and `ListCalls`: the libusb call sequences of open(), its claim step, close() and listDevices() (tinklarelaydriver.cpp:112-151, 130-147, 97-108, 172-203).
- `DeviceSearch.SearchCalls`, `Probes` and `SearchResult`: the calls and the result of the serial search (libusb-extra.c:6-29).
- `DeviceSearch.CandidateSerials`: the serials listDevices() collects (tinklarelaydriver.cpp:186-197).
- `Descriptor.Continues`: whether a command reads a continuation table, that is a manufacturer or product command with L above 62 (tinklarelaydriver.cpp:31).
- `Driver.ControlLost` and `BulkLost`: the libusb error codes that set the disconnect flag after a control transfer (tinklarelaydriver.cpp:164-166) and after a bulk transfer (tinklarelaydriver.cpp:89).
- `Driver.HeldWhileOpen`: what a driver open on a given device holds (tinklarelaydriver.cpp:112-151).
- `Descriptor.Unit`: the UTF-16 code unit `hi * 256 + lo` of a byte pair (tinklarelaydriver.cpp:28, 34).
- `Descriptor.MidUnit`: the unit straddling the two tables, low byte from index 62 of the first and high byte from index 0 of the second, left out when null (tinklarelaydriver.cpp:32-37).
- `Descriptor.TwoTableCommand`: the manufacturer and product commands, the only ones that may continue (tinklarelaydriver.cpp:31).
- `DeviceSearch.Candidate`: a device whose descriptor reads, whose ids match and which opens (libusb-extra.c:15, tinklarelaydriver.cpp:188-190). `DeviceSearch.Accepts`: a candidate whose serial also matches (libusb-extra.c:15-18).
- `Driver.Report`: one more error counted and one message appended (tinklarelaydriver.cpp:78-79, 83-88, 157-163).
- `Driver.ControlLostOn`: an open control transfer that failed with a disconnect code (tinklarelaydriver.cpp:161-166).
- `Driver.DeviceToHost`: a request type with the GET direction bit 0x80 set (tinklarelaydriver.h:69), on which the transfer fills the buffer.
- `Driver.BulkFailedOn`: an error result, or a short count when a count is asked for (tinklarelaydriver.cpp:82).
- `Driver.Located` and `LocateCalls`: the handle open() obtains, with or without a serial, and the calls that obtain it (tinklarelaydriver.cpp:121-125).
- `Driver.DetachCalls` and `AttachCalls`: detaching an active kernel driver (tinklarelaydriver.cpp:130-135) and reattaching a detached one (tinklarelaydriver.cpp:101-103, 137-139).
- `Driver.TinklaRelayDriver.Fetched`: the descriptor buffer after a control transfer, which holds what the device sent when open and its stale contents otherwise (tinklarelaydriver.cpp:21-22, 33).
- `Telemetry.INITIAL_STATE`: the initial telemetry values (tinklarelaydriver.h:126-156).

These members are encoders used only to state round trips, or proof helpers, and have no row: `RelayProtocol.PartitionsByte`; `Telemetry.WellFormed`, `PackFlags`, `PowerHigh`, `PowerLow` and `PackByte8`; `Descriptor.Low`, `High` and `Agree`; `UsbTrace.OutstandingConcat`, `OutstandingCons`, `OutstandingOne` and `OutstandingOfThree`; `Driver.TinklaRelayDriver.AppendNeutral` and `OpenTraceShape`; `Descriptor.NonNullUnitAppend`, `UnitBytes` and `ConcatAssoc`; `Telemetry.ByteSplitJoin`, `IntOfByte`, `ByteOfInt`, `ByteOfEqualInt` and `PatternBytes`.

| member | source | states |
|---|---|---|
| RelayProtocol.FlagMasksPartitionTheirBytes | tinklarelaydriver.h:11-36 | In each of flag bytes 0, 1 and 2, mask k is exactly bit k, and the eight masks together cover the byte. |
| RelayProtocol.Byte8FieldsAreDisjoint | tinklarelaydriver.h:38 | In byte 8, the autopilot-available bit, the 5-bit speed-limit field and the 2-bit ACC field at bit 5 share no bit and together cover the byte. |
| RelayProtocol.CommandCodeLayout | tinklarelaydriver.h:85-107 | Every SET code is its GET code plus one. Each second-table string command is its first-table command plus two, which is the relation getDescGeneric relies on. |
| RelayProtocol.CommandLength | tinklarelaydriver.h:85-108 | A data-stage length exists exactly for the codes 0x60-0x6b and the telemetry request 0xFE. |
| RelayProtocol.CommandLengthsMatchGeometry | tinklarelaydriver.h:85-108 | Every string command's *_WLEN length is one whole table of DESC_TBLSIZE = 64 bytes (tinklarelaydriver.cpp:12). USB config GET/SET move 9 and 10 bytes. The telemetry request moves 10. |
| RelayProtocol.DescriptorGeometry | tinklarelaydriver.cpp:12-14 | The largest usable index is 62, the continuation step is 63, and the step is one past the largest index. |
| RelayProtocol.OpenResultsDistinct | tinklarelaydriver.h:58-61 | SUCCESS, ERROR_INIT, ERROR_NOT_FOUND and ERROR_BUSY are the distinct values 0, 1, 2, 3. |
| Telemetry.Int16 | tinklarelaydriver.cpp:237 | The int16_t reading of a 16-bit pattern lies in -32768..32767 and is congruent to the pattern mod 65536. |
| Telemetry.DecodeFrameFields | tinklarelaydriver.cpp:233-243 | The decoded speed limit is a multiple of 5 in 0..155 and the ACC status is in 0..3. Byte 8 equals speedLimit/5 + 32*accStatus + 128*apAvailable. The power level is the int16 reading of b5*256+b6. Brightness, speed and ACC speed are bytes 3, 4 and 7. |
| Telemetry.EncodeFrame | tinklarelaydriver.cpp:205-244 | Laying out a state gives a 10-byte frame whose byte 9 is the given spare byte. |
| Telemetry.FlagsRepack | tinklarelaydriver.cpp:206-231 | Re-packing the eight decoded flags of a byte with masks that partition it gives the byte back exactly. |
| Telemetry.FlagsUnpack | tinklarelaydriver.cpp:206-231 | Each flag packed into a byte reads back as the flag that was packed. |
| Telemetry.Int16Pattern | tinklarelaydriver.cpp:237 | The two's-complement pattern of an int16_t reading is the pattern it was read from. |
| Telemetry.PowerRoundTrip | tinklarelaydriver.cpp:237 | The big-endian bytes of any int16 power level decode back to that level. |
| Telemetry.PowerBytesJoin | tinklarelaydriver.cpp:237 | The high and low byte of a level's 16-bit pattern join back into that pattern. |
| Telemetry.Int16Of | tinklarelaydriver.cpp:237 | The int16_t reading of a level's own 16-bit pattern is that level. |
| Telemetry.PowerBytesRoundTrip | tinklarelaydriver.cpp:237 | Bytes 5 and 6 are recovered from the decoded power level. |
| Telemetry.Byte8Repack | tinklarelaydriver.cpp:241-243 | Byte 8 is recovered from its three decoded fields. |
| Telemetry.Byte8Unpack | tinklarelaydriver.cpp:241-243 | A speed limit that is a multiple of 5 up to 155, an ACC status in 0..3 and an AP flag all read back from their packing. |
| Telemetry.RepackFlagBytes | tinklarelaydriver.cpp:206-231 | Encoding the decoded state reproduces flag bytes 0-2. |
| Telemetry.RepackScalarBytes | tinklarelaydriver.cpp:237-243 | Encoding the decoded state reproduces bytes 5, 6 and 8. |
| Telemetry.EncodeDecode | tinklarelaydriver.cpp:205-244 | Every frame decodes to a well-formed state, and encoding that state gives the frame back: no bit of bytes 0-8 is lost or altered. |
| Telemetry.UnpackFlagBytes | tinklarelaydriver.cpp:206-231 | All 24 flags of an encoded state read back unchanged. |
| Telemetry.UnpackByte0 | tinklarelaydriver.cpp:206-213 | The eight flags of byte 0 read back unchanged. |
| Telemetry.UnpackByte1 | tinklarelaydriver.cpp:215-222 | The eight flags of byte 1 read back unchanged. |
| Telemetry.UnpackByte2 | tinklarelaydriver.cpp:224-231 | The eight flags of byte 2 read back unchanged. |
| Telemetry.UnpackScalars | tinklarelaydriver.cpp:233-243 | Brightness, speed, ACC speed, power level, speed limit, ACC status and AP flag of an encoded state read back unchanged. |
| Telemetry.DecodeEncode | tinklarelaydriver.cpp:205-244 | Decoding the encoding of any well-formed state gives that state: the fields are independent. |
| Telemetry.SpareByteIgnored | tinklarelaydriver.cpp:205-244 | Byte 9 never affects any decoded field. |
| Telemetry.AccStatusThreeIsReported | tinklarelaydriver.cpp:241-243 | Byte 8 = 0x63 gives speed limit 15 and ACC status 3, which is reported rather than rejected, with AP unavailable. |
| Descriptor.UnitNull | tinklarelaydriver.cpp:27-28 | A code unit is null exactly when both of its bytes are zero. |
| Descriptor.DecodePairs | tinklarelaydriver.cpp:26-30 | The decoding loop yields exactly the non-null units of the pairs from the start index below the end index, in order. |
| Descriptor.PairUnitsNonNull | tinklarelaydriver.cpp:27 | No decoded unit is null. |
| Descriptor.PairUnitsLength | tinklarelaydriver.cpp:26 | A decode yields at most one unit per byte pair. |
| Descriptor.PairUnitsShift | tinklarelaydriver.cpp:39-43 | Decoding reads only the bytes of its range: two buffers that agree there, one shifted by s, decode alike. |
| Descriptor.PairUnitsSplit | tinklarelaydriver.cpp:26-43 | A decode splits at any even offset into the decode before and the decode after it. |
| Descriptor.Logical | tinklarelaydriver.cpp:31-44 | The logical descriptor is 127 bytes: bytes 0-62 of the first table, then the continuation table from index 63. |
| Descriptor.NonNullUnit | tinklarelaydriver.cpp:35-37 | The straddling unit contributes at most one unit, and nothing exactly when both its bytes are zero. |
| Descriptor.FirstTablePart | tinklarelaydriver.cpp:26-30 | The logical descriptor's pairs below 62 are the first table's pairs. |
| Descriptor.StraddlingPart | tinklarelaydriver.cpp:32-37 | The logical descriptor's pair at 62 is the straddling unit, with its low byte from index 62 of the first table and its high byte from index 0 of the second. |
| Descriptor.ContinuationPart | tinklarelaydriver.cpp:38-43 | The logical descriptor's pairs from 64 below L are the continuation table's pairs from index 1 below L - 63. |
| Descriptor.SplitDecodesLogical | tinklarelaydriver.cpp:19-46 | The split decode (first-table pairs, straddling unit, continuation pairs) equals the flat decode of the logical descriptor below L. |
| Descriptor.ContinuedValue | tinklarelaydriver.cpp:31-44 | The string built as the code builds it equals the descriptor's flat value: first-table pairs, then the straddling unit if non-null, then the continuation pairs. |
| Descriptor.DescriptorValueBounds | tinklarelaydriver.h:64-66 | A decoded string holds no null unit. It has at most 62 units (DESCMXL_MANUFACTURER/PRODUCT), and at most 30 (DESCMXL_SERIAL) for a single-table command. |
| Descriptor.Utf16Le | tinklarelaydriver.cpp:28 | The UTF-16LE encoding of n units is 2n bytes. |
| Descriptor.DecodeUtf16Le | tinklarelaydriver.cpp:26-30 | Decoding the UTF-16LE encoding of non-null units, wherever it sits in a buffer, gives the units back. |
| Descriptor.DescriptorBytes | tinklarelaydriver.cpp:24 | The laid-out descriptor of n units is 2 + 2n bytes, and its length byte says so. |
| Descriptor.DescriptorRoundTrip | tinklarelaydriver.cpp:19-46 | When the logical descriptor starts with the layout of a non-null string that fits (62 units for a two-table command, 30 otherwise), getDescGeneric decodes exactly that string. |
| DeviceSearch.FirstAccepted | libusb-extra.c:13-19 | A found index is in range and its device is accepted. Every earlier device is rejected. With no result, every device is rejected. |
| DeviceSearch.ProbesHoldNothing | libusb-extra.c:20-23 | Each device opened and rejected on its serial is the one closed again: the probing leaves no handle open on any device, and nothing else held. |
| DeviceSearch.SearchHoldsOnlyItsResult | libusb-extra.c:10-28 | A search frees the list it got. It leaves exactly one handle open, on the device it returns, and none on any other device. It leaves no handle open when it returns NULL. |
| DeviceSearch.CandidateSerialsMembers | tinklarelaydriver.cpp:186-197 | A serial is listed exactly when some device with matching ids that opens carries it. |
| DeviceSearch.ListedSerialsAreFound | tinklarelaydriver.cpp:172-203 | A serial is among the listed serials exactly when the search by that serial finds a device. |
| DeviceSearch.OpenDeviceWithVidPidSerial | libusb-extra.c:6-29 | The loop returns the first fully matching device, or NULL on a list error or no match. Its libusb calls are exactly the search's calls: list, probe and close each rejected candidate, free the list. |
| Driver.ControlReport | tinklarelaydriver.cpp:156-163 | A control transfer adds exactly one error when the driver is closed or the result differs from wLength, and none otherwise. It appends exactly one message: "not open" (ControlOp) when closed, or a failure naming bmRequestType and bRequest. Earlier messages are kept. |
| Driver.BulkReport | tinklarelaydriver.cpp:77-90 | A bulk transfer adds one error exactly when closed, or when the result is nonzero or the asked-for count falls short. Earlier messages are kept, and exactly one message is appended per error. A closed driver appends "not open" (BulkOp). An open failure says OUT exactly when the address is below 0x80, and names endpoint number address & 0x0f and the address itself. |
| Driver.OpenResult | tinklarelaydriver.cpp:114-150 | open() on a closed driver returns one of the four codes, and SUCCESS exactly when init, locate and claim all succeed. |
| Driver.LocateHolds | tinklarelaydriver.cpp:121-125 | Locating the device holds only the handle on the located device: no handle on any other device, and nothing else. |
| Driver.DetachHolds | tinklarelaydriver.cpp:130-135 | Detaching an active kernel driver holds exactly that driver. |
| Driver.AttachHolds | tinklarelaydriver.cpp:101-103 | Reattaching gives back the detached kernel driver. |
| Driver.ClaimCallsHold | tinklarelaydriver.cpp:130-147 | After the handle on device k opens, a successful claim holds the interface and any detached kernel driver. A failed claim reattaches it and gives back the handle on k and the context. |
| Driver.OpenCallsHold | tinklarelaydriver.cpp:112-151 | open() on a closed driver, when it succeeds, holds exactly what HeldWhileOpen says a driver open on the located device holds: the context, that device's handle and no other, the claimed interface, and the kernel driver if one was detached. It holds nothing on ERROR_INIT, ERROR_NOT_FOUND or ERROR_BUSY. |
| Driver.CloseCallsRelease | tinklarelaydriver.cpp:97-108 | close() on a driver open on device k gives back exactly what such a driver holds, including the handle on k. |
| Driver.OpenThenCloseBalanced | tinklarelaydriver.cpp:97-151 | A successful open() followed by close() leaves no resource held. |
| Driver.ListCallsBalanced | tinklarelaydriver.cpp:172-203 | listDevices() gives back every context and list it takes, and closes the handle on every device it opens. |
| Driver.TinklaRelayDriver.constructor | tinklarelaydriver.cpp:48-55 | A new driver is closed, reports itself disconnected, holds nothing and has the initial telemetry values and a zeroed 10-byte frame buffer. |
| Driver.TinklaRelayDriver.Open | tinklarelaydriver.cpp:112-151 | An open driver returns SUCCESS with no libusb call and clears the disconnect flag. A closed one returns OpenResult and makes exactly the open() calls. On success it holds the located handle and is connected. On failure it stays closed with the disconnect flag unchanged. The invariant is kept. |
| Driver.TinklaRelayDriver.OpenClosed | tinklarelaydriver.cpp:118-149 | The closed-driver path of open(): init, locate, claim, undoing each step on a later failure. The ending state holds what its result promises. |
| Driver.TinklaRelayDriver.Claim | tinklarelaydriver.cpp:130-147 | Records whether a kernel driver was active. Claims the interface, or on failure reattaches, closes and deinitialises, leaving the driver closed with ERROR_BUSY. |
| Driver.TinklaRelayDriver.Close | tinklarelaydriver.cpp:97-108 | On an open driver: release, reattach iff a kernel driver was detached, close, exit. On a closed one: nothing. Either way the driver ends closed holding nothing, with the disconnect flag untouched. |
| Driver.TinklaRelayDriver.ControlTransfer | tinklarelaydriver.cpp:154-169 | The error log is ControlReport. A closed driver issues no transfer. A device-to-host transfer fills data[..wLength] and nothing else. The disconnect flag is set exactly on NO_DEVICE, IO or PIPE and never cleared. |
| Driver.TinklaRelayDriver.BulkTransfer | tinklarelaydriver.cpp:75-94 | The error log is BulkReport. A closed driver issues no transfer. An IN transfer on an open driver fills the front of the data buffer with the bytes delivered and leaves the rest alone. An OUT transfer, or a closed driver, leaves the buffer unchanged. The disconnect flag is set only on NO_DEVICE or IO of a failed transfer, never on PIPE, and is never cleared. |
| Driver.TinklaRelayDriver.GetData | tinklarelaydriver.cpp:247-257 | Returns true exactly when the driver is open and the GET 0xFE transfer moved all 10 bytes. The frame buffer receives the frame when open. |
| Driver.TinklaRelayDriver.ProcessDataMessage | tinklarelaydriver.cpp:205-244 | The telemetry values become the decoding of the frame buffer (whose properties DecodeFrameFields and EncodeDecode state). |
| Driver.TinklaRelayDriver.GetDescGeneric | tinklarelaydriver.cpp:19-46 | The returned string is the flat decode of the fetched tables. A second GET with command + 2 is issued exactly for the manufacturer or product command with L > 62. Errors and the disconnect flag follow each transfer's ControlReport. |
| Driver.TinklaRelayDriver.ReadFirstTable | tinklarelaydriver.cpp:21-30 | The buffer holds the first table (or its stale contents when closed), and the units are its pairs from 2 below min(L, 62). |
| Driver.TinklaRelayDriver.ReadContinuation | tinklarelaydriver.cpp:31-44 | The continuation table overwrites the same buffer, and the string is the flat decode of the first and second tables. |
| Driver.TinklaRelayDriver.DecodeContinuation | tinklarelaydriver.cpp:34-43 | The straddling unit from the saved low byte, then the second loop, complete the flat decode of the two tables. |
| Driver.TinklaRelayDriver.ListDevices | tinklarelaydriver.cpp:172-203 | On init or list failure: one error and an empty list. Otherwise: the serials of the devices with matching ids that open, in enumeration order, with no error, and calls that give back every resource taken (ListCallsBalanced). |

## Left out

- The Qt GUI (`tinklarelayhud.*`, `tinklarelayhudsettings.*`, `main.cpp`) is not part of this model. It covers drawing, timers, settings and the brightness file.
- libusb itself is not part of this model. Its return values are method parameters, and its resource-relevant side effects are entries of a ghost trace. USB transport and the 500 ms timeout `TR_TIMEOUT` (tinklarelaydriver.cpp:9) play no part.
- `writeDescGeneric` and `USBConfig::operator==`/`!=` are declared in tinklarelaydriver.h without bodies in this code base, so they are not modelled.
- The destructor only calls `close()`. Object lifetime is not modelled.
- Qt string formatting: messages are abstract `Message` records carrying the request type and request, or the direction, endpoint number and address. They are not translated text.
- `libusb_open_device_with_vid_pid`, used by `open()` without a serial, is libusb's own. Its outcome is the `plainHandle` parameter, recorded as one `OpenDevice` call.
- The serial passed to the search is compared as a Dafny string. Its Latin-1 conversion, the C `strcmp` on NUL-terminated buffers and the 256-byte truncation of `libusb_get_string_descriptor_ascii` are not modelled.
- The results of `libusb_detach_kernel_driver`, `libusb_attach_kernel_driver`, `libusb_release_interface` and `libusb_get_string_descriptor_ascii` are ignored by the code and are not parameters. A detach or attach is recorded as if it succeeded.
- A descriptor length L above 126 is excluded by the precondition `DecodableTables`. For such L, the second loop of getDescGeneric (tinklarelaydriver.cpp:39-41) reads past the 64-byte buffer, which is undefined behaviour. An uninitialised buffer after a failed transfer is the `stale` parameter.
- The `errcnt` counter is an unbounded integer. Its `int` overflow after 2^31 errors is not modelled.
- `volatile` qualifiers are dropped. The file-scope `tinklaRelayData` array (tinklarelaydriver.cpp:16) is the driver's `relayData` array field.
- `Driver.TinklaRelayDriver.IsOpen` and `Driver.TinklaRelayDriver.Disconnected` are plain field reads (tinklarelaydriver.cpp:63-72). They have no contract of their own; the other methods' contracts state everything through them.
- `Telemetry.DecodeFrame` carries no contract of its own. `DecodeFrameFields`, `EncodeDecode` and `DecodeEncode` state its properties.
- Descriptor strings are sequences of UTF-16 code units. `QString`/`QChar` conversion is not modelled.
- Two-table strings: the code decodes at most 62 units, and only for L ≤ 126, matching `DESCMXL_MANUFACTURER`/`DESCMXL_PRODUCT`. Single-table strings: at most 30 units (`DESCMXL_SERIAL`).
- `Driver.TinklaRelayDriver.BulkTransfer`: the delivered bytes `incoming` and the reported count `transferred` are independent parameters. The model does not require the count to equal the number of bytes delivered.
- `Driver.TinklaRelayDriver.ControlTransfer`: `incoming` is the buffer contents after a device-to-host transfer. It is not tied to `result`: libusb writes only the bytes it received, and the model does not say how many bytes of `incoming` are fresh.
