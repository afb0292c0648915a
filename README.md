# UHID gamepad server, modelled in Dafny

This project models the core of the gamepad relay server
(`server/uhid_server.go`). The server runs on a Linux host. It advertises
itself on a discovery port and receives datagrams from a phone on a data
port. It turns those datagrams into events for the kernel's user-space HID
interface, `/dev/uhid`. The model covers:

- the kernel events the server builds: CREATE2 (4376 bytes: type word,
  name, phys and uniq strings, little-endian identity fields, descriptor),
  INPUT2 (type word, 16-bit size, report bytes copied after them) and DESTROY
  (the type word alone). Each is filled in place into a zeroed byte array, as
  in the server, and proved equal to a specification function. Decoders state
  the layout and give round trips;
- the decoding of the type word of a kernel notification, and how the
  server's diagnostic switch names it;
- the dispatch of datagrams on the data port: a handshake ("DESC" and the
  descriptor) is recognised first, then an 8- or 10-byte report; anything else is
  dropped;
- the discovery request test: Go's `strings.TrimSpace`, then `ToLower` equal
  to "discover" or `Contains` "device_info";
- the server itself, as a class whose fields the handlers update in place:
  the `/dev/uhid` handle, the stored descriptor, the device-created flag, the
  connection state, the time of the last input, and the advertised device
  information. The field `written` holds the events the kernel accepted. Its
  invariant is that those events keep the device protocol: a device is
  created at most once, INPUT2 only reaches an existing device, and DESTROY
  comes only at shutdown;
- whole exchanges from start-up: repeated handshakes, a report after and
  before a handshake, no `/dev/uhid`, silence and re-advertising, discovery,
  shutdown.

Time is a parameter, in nanoseconds since the Unix epoch. Go's `time.Now` is
not modelled. Whether the kernel accepts a write is a parameter too. A write
succeeds only through an open handle, and then exactly when that parameter
says so. Writing through a closed handle fails, as `os.File.Write` does.

The comment at `server/uhid_server.go:403` says the device is created "(only
once)". The code creates it at most once, but it retries: a handshake that
arrives while no device exists tries again, so a failed first creation
can be followed by a creation from a later handshake, if one arrives and
the kernel accepts its CREATE2. The model follows the code
(`Scenarios.RepeatedHandshake`).

## Model

| member | source | states |
|---|---|---|
| Bytes.Le16 | server/uhid_server.go:644-647 | the two bytes read back little-endian give the 16-bit value |
| Bytes.Le32 | server/uhid_server.go:481-485 | the four bytes read back little-endian give the 32-bit value |
| Bytes.Le16Inverse | server/uhid_server.go:471-473 | encoding the value of any two bytes gives back those bytes |
| Bytes.Le32Inverse | server/uhid_server.go:566-568 | encoding the value the reader assembles from four bytes gives back those bytes |
| Bytes.Padded | server/uhid_server.go:458-468 | a string copied into a zeroed fixed-width field: the string, then zeros up to the width |
| Bytes.CopiedPart | server/uhid_server.go:650 | Go's `copy` into a shorter destination keeps only the prefix that fits |
| Bytes.CString | server/uhid_server.go:458-468 | how a reader recovers a C string field: the bytes before the first NUL |
| Bytes.CStringOfPadded | server/uhid_server.go:458-468 | a NUL-free string shorter than its field is read back from the field unchanged |
| Uhid.Code | server/uhid_server.go:439 | each event type has one type word, and decoding that word gives the type back |
| Uhid.FromCodeInverse | server/uhid_server.go:439 | every type word of the kernel's enumeration names exactly one event type |
| Uhid.Create2Event | server/uhid_server.go:449-450 | a CREATE2 event is always 4376 bytes, whatever the descriptor's length |
| Uhid.Input2Event | server/uhid_server.go:634-650 | an INPUT2 event is always 4376 bytes, whatever the report's length |
| Uhid.DestroyEvent | server/uhid_server.go:531-535 | a DESTROY event is the four-byte type word alone |
| Uhid.WriteBytes | server/uhid_server.go:458-508 | copying bytes into the event at an offset replaces exactly that range and keeps every other byte |
| Uhid.WriteField | server/uhid_server.go:458-468 | copying a string into a zeroed fixed-width field leaves the string, then zeros to the width, and changes nothing before the field |
| Uhid.WriteIdentityStrings | server/uhid_server.go:458-468 | the three copies leave name, phys and uniq, each padded with zeros, after the type word, and zeros after them |
| Uhid.WriteDeviceNumbers | server/uhid_server.go:470-505 | rd_size and bus as little-endian u16, then vendor, product, version and country as little-endian u32, and zeros after them |
| Uhid.WriteWord | server/uhid_server.go:470-508 | storing a little-endian word into the zeroed rest of the event changes nothing before it and leaves zeros after it |
| Uhid.Create2Layout | server/uhid_server.go:452-508 | type 11 at 0..3, the strings at 4, 132 and 196, rd_size at 260, bus 3 at 262, vendor 0x046d at 264, product 0, version 0x0100, country 0, descriptor at 280, zeros elsewhere |
| Uhid.Create2RoundTrip | server/uhid_server.go:452-508 | decoding a CREATE2 event gives back the device name, phys, uniq, identity numbers and the descriptor |
| Uhid.EncodeCreate2 | server/uhid_server.go:443-508 | refuses a descriptor over 4096 bytes with its size; otherwise returns an array holding exactly the CREATE2 event |
| Uhid.Input2Layout | server/uhid_server.go:634-650 | type 12 at 0..3, the report's length at 4..5, the report at 6 with its report id first, zeros after it |
| Uhid.Input2RoundTrip | server/uhid_server.go:634-650 | decoding an INPUT2 event gives back the report, for every report up to 4096 bytes |
| Uhid.EncodeInput2 | server/uhid_server.go:634-650 | returns an array holding exactly the INPUT2 event of the report |
| Uhid.EncodeDestroy | server/uhid_server.go:531-535 | returns an array holding 1, 0, 0, 0 |
| Uhid.EventTypeWords | server/uhid_server.go:566-568 | the type word read back from each event the server builds is that event's own type |
| Uhid.ReadEventType | server/uhid_server.go:563-568 | reads shorter than four bytes carry no type; otherwise the type is the word whose little-endian bytes open the read |
| Uhid.Notification | server/uhid_server.go:563-588 | a recognised notification's type word is the kernel's number for that type |
| Uhid.NotificationOfEvent | server/uhid_server.go:571-588 | every event type is recognised from its own type word, whatever follows |
| Uhid.NotificationAsWritten | server/uhid_server.go:571-588 | the type the diagnostic switch names for each type word, as its labels are written |
| Uhid.NotificationLabelsShifted | server/uhid_server.go:571-588 | the switch's labels miss START, STOP, OPEN and SET_REPORT, and misname CLOSE, OUTPUT, GET_REPORT and DESTROY |
| KernelLog.Count | server/uhid_server.go:518 | counts the accepted events carrying one type word, the count the lifecycle lemmas speak of |
| KernelLog.LifecycleBalance | server/uhid_server.go:404-412 | in a log that keeps the protocol, CREATE2 events outnumber DESTROY events by one exactly while the device exists |
| KernelLog.CreatedAtMostOnce | server/uhid_server.go:404-412 | until a DESTROY, there is at most one CREATE2, and one exactly when the device exists |
| KernelLog.InputOnlyToLiveDevice | server/uhid_server.go:607-611 | every INPUT2 of a log that keeps the protocol came while the device existed |
| KernelLog.AppendCreate | server/uhid_server.go:404-412 | a CREATE2 accepted with no device and no DESTROY so far is the one and only CREATE2 |
| KernelLog.AppendInput | server/uhid_server.go:607-652 | an INPUT2 accepted while the device exists keeps it and changes neither count |
| KernelLog.AppendDestroy | server/uhid_server.go:537-544 | a DESTROY accepted while the device exists removes it and adds one DESTROY |
| Datagram.Classify | server/uhid_server.go:383-390 | a handshake is "DESC" followed by a non-empty descriptor; a report is the whole datagram of 8 or 10 bytes; anything else is dropped with its size |
| Datagram.HandshakePacket | server/uhid_server.go:383-384 | a handshake datagram is four bytes longer than its descriptor |
| Datagram.HandshakeRoundTrip | server/uhid_server.go:383-384 | every handshake is recognised with its descriptor intact, even at 8 or 10 bytes |
| Datagram.ReportRecognised | server/uhid_server.go:383-387 | an 8- or 10-byte datagram is a report exactly when it does not begin with "DESC" |
| Datagram.ShortIsDropped | server/uhid_server.go:383-390 | a datagram of four bytes or fewer is dropped, even "DESC" itself |
| Datagram.HandshakeFitsBuffer | server/uhid_server.go:369 | a handshake read through the 2048-byte buffer carries at most 2044 descriptor bytes |
| Discovery.TrimSpace | server/uhid_server.go:191 | the result is empty exactly for white-space-only input, and otherwise neither begins nor ends with white space |
| Discovery.IsSpace | server/uhid_server.go:191 | the characters Go's `unicode.IsSpace` counts as white space |
| Discovery.LowerChar | server/uhid_server.go:197 | A to Z move up by 32 to a to z, U+0130 lowers to 'i', the Kelvin sign U+212A to 'k', every other character is kept |
| Discovery.ToLower | server/uhid_server.go:197 | lower-casing keeps the length and maps each character on its own |
| Discovery.LowerCharTo | server/uhid_server.go:197 | a character lowers to a given ASCII letter exactly when it is that letter, its capital, or U+0130 for 'i' or U+212A for 'k' |
| Discovery.DiscoverWords | server/uhid_server.go:197 | a word lowers to "discover" exactly when it has eight characters, each the letter of "discover" in either case, or U+0130 in place of the 'i' |
| Discovery.Contains | server/uhid_server.go:197 | Go's `strings.Contains`: the string occurs at some index |
| Discovery.IsDiscoveryRequest | server/uhid_server.go:191-197 | the test applied to each message: trimmed, it lowers to "discover" or contains "device_info" |
| Discovery.RequestShapes | server/uhid_server.go:191-197 | a message is a request exactly when it contains "device_info" or is a word lowering to "discover" with only white space around it |
| Discovery.RequestIsShaped | server/uhid_server.go:191-197 | every request contains "device_info" or is a word lowering to "discover" between white space |
| Discovery.ShapedIsRequest | server/uhid_server.go:191-197 | every message containing "device_info", or made of white space, a word lowering to "discover" and white space, is a request |
| Discovery.ContainedSurvivesTrim | server/uhid_server.go:191-197 | trimming white space keeps every occurrence of a string that neither begins nor ends with white space |
| Discovery.TrimAround | server/uhid_server.go:191 | trimming white space from around a word that neither begins nor ends with white space gives back the word |
| Discovery.TrimIdempotent | server/uhid_server.go:191 | trimming twice is trimming once |
| Discovery.DiscoverInAnyCase | server/uhid_server.go:191-197 | "discover" in any case with any white space around it is a request |
| Discovery.DeviceInfoAnywhere | server/uhid_server.go:191-197 | any message containing "device_info" is a request |
| Discovery.NotContainedWhenFirstDiffers | server/uhid_server.go:197 | a string does not contain another of the same length that starts differently |
| Discovery.DeviceInfoIsCaseSensitive | server/uhid_server.go:197 | "DEVICE_INFO" is not a request: only the "discover" test ignores case |
| Discovery.BlankIsNoRequest | server/uhid_server.go:191-197 | a white-space-only message is not a request |
| Server.Unix | server/uhid_server.go:249 | whole seconds since the epoch, rounded down |
| Server.BroadcastDue | server/uhid_server.go:242 | a broadcast is due while nobody is connected or when the last input is more than five seconds old |
| Server.UhidServer.constructor | server/uhid_server.go:74-91 | a new server has no handle, is not running, has no device, and advertises its address and name stamped with the current second |
| Server.UhidServer.Start | server/uhid_server.go:93-109 | the handle is open exactly when opening succeeded; the server runs exactly when both ports listen |
| Server.UhidServer.WriteEvent | server/uhid_server.go:518-521 | a write succeeds only through an open handle, and the kernel's log grows by the event exactly when it succeeds |
| Server.UhidServer.CreateDeviceWithDescriptor | server/uhid_server.go:429-525 | a descriptor over 4096 bytes is refused with nothing written; otherwise the CREATE2 event is written and the write decides the result |
| Server.UhidServer.HandleDescriptorPacket | server/uhid_server.go:394-427 | the descriptor is stored; the device is created only through an open handle, only if none exists, and only when the kernel accepts; the acknowledgment is always "DESC_OK"; the invariant is kept |
| Server.UhidServer.ProcessGamepadInput | server/uhid_server.go:594-659 | the client counts as connected at the current time; the report reaches the kernel as INPUT2 only through an open handle, to an existing device, when not empty; the invariant is kept |
| Server.UhidServer.DestroyDevice | server/uhid_server.go:527-546 | DESTROY is written; the device is gone exactly when the kernel accepted it |
| Server.UhidServer.Stop | server/uhid_server.go:135-156 | the server stops; an existing device is destroyed before the handle is closed; the invariant is kept |
| Server.UhidServer.Tick | server/uhid_server.go:231-262 | the address follows the local address when found; a broadcast happens exactly when nobody is connected or input is over five seconds old, and then the client counts as gone and the advertisement is stamped |
| Server.UhidServer.HandleBroadcastMessage | server/uhid_server.go:188-206 | a reply comes exactly for a discovery request, and carries the advertisement stamped with the current second; otherwise nothing changes |
| Server.UhidServer.HandleDatagram | server/uhid_server.go:377-390 | a handshake is acknowledged and stored and leaves the connection state alone; a report marks the client connected and leaves the stored descriptor and the device-created flag alone; the kernel receives exactly the events the datagram calls for; a dropped datagram changes nothing |
| Scenarios.StartedServer | server/uhid_server.go:93-109 | a started server runs with no device, no client and nothing written |
| Scenarios.RepeatedHandshake | server/uhid_server.go:394-427 | both handshakes are acknowledged; the kernel gets one CREATE2, from the first descriptor it accepts; the latest descriptor is stored |
| Scenarios.ReportAfterHandshake | server/uhid_server.go:404-412 | after a handshake a report reaches the kernel as INPUT2, and decoding the two events gives back the descriptor and the report |
| Scenarios.ReportBeforeHandshake | server/uhid_server.go:596-611 | a report before any handshake connects the client and writes nothing |
| Scenarios.HandshakeWithoutUhid | server/uhid_server.go:404-427 | without a handle a handshake is still acknowledged, and nothing is created or written |
| Scenarios.SilenceResumesBroadcast | server/uhid_server.go:240-249 | a tick after a report broadcasts exactly when the silence exceeds five seconds, and the client then counts as gone |
| Scenarios.IdleServerBroadcasts | server/uhid_server.go:234-249 | with no client every tick broadcasts, with the current address and second |
| Scenarios.DiscoverIsAnswered | server/uhid_server.go:188-206 | "discover" in any case, padded with white space, is answered with the advertisement stamped at the current second |
| Scenarios.ShutdownDestroys | server/uhid_server.go:135-156 | shutdown destroys the created device before closing the handle; a handshake read just before the shutdown but handled after it creates nothing |

## Left out

- Sockets: reading a datagram and sending the acknowledgment, the reply or the broadcast. Handlers take the datagram and return what would be sent. Send failures are only logged by the server.
- JSON encoding of the advertisement: handlers return the `DeviceInfo` value that would be encoded. Encoding this struct cannot fail.
- The goroutine loops (`for s.running` around reads and timer ticks) and the signal wait in `Start`. Each handler models one iteration. The loops race on the server's fields without a lock; the model is sequential.
- Provisioning `/dev/uhid` (`setupUHIDDevice`, `isUHIDModuleLoaded`, `loadUHIDModule`, `createUHIDDevice`: open, modprobe, mknod, chmod). Only the outcome is kept, as the `uhidOpened` parameter of `Start`.
- `getLocalIP`: the address is a parameter. It is the first up, non-loopback IPv4 address, or the fallback "127.0.0.1" when there is none. The error return of `NewUHIDServer`, which happens only when the interfaces cannot be listed, is not modelled.
- `main`, flag parsing, verbose and colour logging, the log lines in every handler.
- Closing the two sockets in `Stop`. Closing them ends the read loops, so after `Stop` a handler only runs for a datagram already read. The handlers do not require `running`, and the acknowledgment such a handler returns would fail to send on the closed socket.
- `readUHIDEvents` only logs. The model keeps its decoding of the type word and the names its switch gives. Its 4380-byte read buffer and read errors are not modelled.
- Partial writes: a write either succeeds or fails.
- Server.UhidServer.HandleBroadcastMessage: takes the message as characters. The UTF-8 decoding of the received bytes and the 1024-byte read buffer are not modelled.
- Server.UhidServer.Tick: uses the exact difference of the two times. Go's `Time.Sub` saturates beyond about 292 years.
- Discovery.ToLower: lowers A to Z, U+0130 and U+212A only, and keeps every other character. Go lowers more characters, but none of the others becomes an ASCII character, so the comparison with "discover" gives the same answer.

## Findings

| source | as written | input that shows it | evidently intended | confidence | as-written member | corrected member |
|---|---|---|---|---|---|---|
| server/uhid_server.go:571-588 | the diagnostic switch names type words 0 START, 1 STOP, 5 OPEN, 6 CLOSE, 7 OUTPUT, 8 GET_REPORT, 9 SET_REPORT | a kernel CLOSE notification (type word 5) is logged as the device being opened, and an OUTPUT request (6) as a close; START (2), STOP (3), OPEN (4) and SET_REPORT (13) are not logged at all | the numbering of `enum uhid_event_type` in the Linux header `uhid.h`, which the server's own CREATE2 (11), INPUT2 (12) and DESTROY (1) follow: START 2, STOP 3, OPEN 4, CLOSE 5, OUTPUT 6, GET_REPORT 9, SET_REPORT 13 | high; not executed | Uhid.NotificationLabelsShifted | Uhid.NotificationOfEvent |
