# Smart home: a verified model

This project models the core of a small smart-home code base in Dafny and proves properties of that model. The model has four parts.

- **The device registry** (`lesson8_lib`). A home holds rooms whose names are distinct. A room holds devices whose names are distinct. The registry covers adding and removing rooms and devices, switching a device on or off by locating it with a (device, room) pair, device reports, and typed errors with their messages. `Home` and `Room` are classes whose sequence fields their methods change in place. An operation that fails leaves every room and device unchanged.
- **The one-line device server** (`lesson18_server`). A request line is parsed into a command by whitespace tokens. The command is answered from the server's device list, which switching commands change in place. The reply is rendered as `Ok`, `Ok::<payload>` or `Error::<reason>`, each ending in a newline. A response line can also be parsed back.
- **The HTTP device server** (`lesson18_tcp_socket`). The first line of an HTTP request is read as a method and a path. The path is read as `/<section>/<device name>`, with the section trimmed and lower-cased. The request is dispatched to a page, and the page is framed with a status line and a `Content-Length` header that holds the byte length of the content. That crate's socket has an optional power reading.
- **The first socket and thermometer** (`lesson4`). These are classes whose methods store the readings they compute.

Integers are unbounded, and the values involved never come near the source's `u32`/`i32` bounds. The `u32` port of a server is a precondition of its constructor. Random measurements are parameters: a `Sample` for the registry, a `draw` for the HTTP server's socket. Each lemma and contract then holds for every value drawn. A device's `Display` text in the two servers is the parameter `show`, because those servers hold devices of any kind and only some kinds are defined. The HTML of an HTTP page is built by an external library, so it is the parameter `html`. The server itself formats six texts into a page, and each is modelled exactly as a field of `Page`.

Rust's string functions that the parsers use are modelled in `Text`:

- `split_whitespace` and `trim`, over Unicode `White_Space`;
- `split`, which always yields at least one piece;
- `to_lowercase`, restricted to ASCII letters;
- `String::len`, the number of UTF-8 bytes;
- `join`;
- integer `Display`.

The registry's `Room` reports its failures as the `RoomErrors` values of `errors.rs`, which `home.rs` converts with `.into()`. `room.rs` itself builds untyped errors with the texts "Device with name n exists!" and "Device with name n does not exists!". With those errors, the conversion in `home.rs` has no `From` implementation to use. The model follows the typed errors, so the messages a home shows are those of `errors.rs`.

## Model

| member | source | states |
|---|---|---|
| DeviceModel.DefaultState | lesson8_lib/src/device.rs:19-25 | a device state defaults to Off |
| DeviceModel.StateName | lesson18_server/src/device.rs:27-34 | On shows as "On" and Off as "Off", each exactly when the state is that one |
| DeviceModel.NewDevice | lesson18_tcp_socket/src/devices/socket.rs:35-40 | a new device has the given kind and name and starts in the default state |
| DeviceModel.TurnedOn | lesson8_lib/src/devices/socket.rs:23-25 | switching on makes the state On and keeps the name and kind |
| DeviceModel.TurnedOff | lesson8_lib/src/devices/socket.rs:20-22 | switching off makes the state Off and keeps the name and kind |
| DeviceModel.SwitchingIdempotent | lesson8_lib/src/devices/thermo.rs:20-25 | switching twice the same way is switching once, and after two switches the last one decides |
| DeviceModel.NewDeviceInfo | lesson8_lib/src/device.rs:41-48 | the locator keeps the device name and the room name in their fields |
| Lesson8Devices.MeasurePower | lesson8_lib/src/devices/socket.rs:31-38 | the power is 0 while Off and lies in 1..99 while On when the draw is in range |
| Lesson8Devices.MeasureTemperature | lesson8_lib/src/devices/thermo.rs:31-38 | the temperature is 0 while Off and lies in -30..39 while On when the draw is in range |
| Lesson8Devices.Report | lesson8_lib/src/devices/socket.rs:40-50 | a socket reports "Socket name: ", its name, "\nstate: " and its state, then "\ncurrent power: " with the drawn power while On and 0 while Off; a thermometer reports the same way (thermo.rs:40-50) with "\ncurrent temperature: " and the drawn temperature |
| Lesson8Devices.ReportNameEnd | lesson8_lib/src/devices/socket.rs:40-50 | in a report, the first newline after the label ends the device name |
| Lesson8Devices.ReportDeterminesNameAndState | lesson8_lib/src/devices/thermo.rs:40-50 | two devices with newline-free names and equal reports have the same name and state, whatever was drawn |
| Errors.FromRoomErrors | lesson8_lib/src/errors.rs:13-17 | a room error becomes the home error that wraps exactly it |
| Errors.RoomErrorMessage | lesson8_lib/src/errors.rs:47-59 | the messages "Device with name n already exists!" and "Device with name n does not exist" |
| Errors.HomeErrorMessage | lesson8_lib/src/errors.rs:19-33 | a wrapped room error shows the room error's message; the room variants show "Room with name n already exists!" and "Room with name n does not exist!" |
| Errors.ConvertedMessage | lesson8_lib/src/errors.rs:13-33 | converting a room error and displaying it gives the room error's own message |
| Errors.RoomErrorMessageInjective | lesson8_lib/src/errors.rs:47-59 | different room errors have different messages |
| Errors.HomeErrorMessageInjective | lesson8_lib/src/errors.rs:19-33 | different home errors have different messages, so a message tells which lookup failed and for which name |
| Rooms.Room.constructor | lesson8_lib/src/room.rs:13-18 | a new room has the given name and no devices |
| Rooms.Room.AddDevice | lesson8_lib/src/room.rs:22-28 | a taken device name is refused with the devices unchanged; otherwise the device is appended; names stay distinct |
| Rooms.Room.RemoveDevice | lesson8_lib/src/room.rs:29-35 | the named device is removed and the others keep their order; an absent name is an error with the devices unchanged |
| Rooms.Room.GetDeviceReport | lesson8_lib/src/room.rs:39-45 | the report of the device with that name, or the missing-device error when there is none |
| Rooms.Room.GetDevices | lesson8_lib/src/room.rs:46-48 | the device names, one per device, in insertion order |
| Rooms.Room.TurnOn | lesson8_lib/src/room.rs:52-59 | only the named device changes and it becomes On; an absent name is an error with the devices unchanged; names are kept |
| Rooms.Room.TurnOff | lesson8_lib/src/room.rs:60-67 | only the named device changes and it becomes Off; an absent name is an error with the devices unchanged; names are kept |
| Rooms.Room.Report | lesson8_lib/src/room.rs:70-79 | the report starts with "Room name: " and the name and ends with "]\n"; an empty room reports an empty list |
| Homes.DistinctRoomObjects | lesson8_lib/src/home.rs:9-18 | rooms with distinct names are distinct objects, so changing one room leaves the others alone |
| Homes.Home.constructor | lesson8_lib/src/home.rs:23-28 | a new home has the given name and no rooms |
| Homes.Home.AddRoom | lesson8_lib/src/home.rs:32-39 | a taken room name is refused with the rooms unchanged; otherwise a new empty room of that name is appended |
| Homes.Home.RemoveRoom | lesson8_lib/src/home.rs:43-49 | the named room is removed and the others keep their order; an absent name is refused with the rooms unchanged |
| Homes.Home.AddDevice | lesson8_lib/src/home.rs:54-65 | a missing room is refused; otherwise the room's own outcome is returned wrapped, and the other rooms are unchanged |
| Homes.Home.RemoveDevice | lesson8_lib/src/home.rs:70-83 | a missing room is refused; otherwise the device is removed in that room alone, and a room failure is wrapped |
| Homes.Home.TurnOn | lesson8_lib/src/home.rs:136-148 | a missing room is refused; otherwise only the named device of that room becomes On, and a room failure is wrapped |
| Homes.Home.TurnOff | lesson8_lib/src/home.rs:153-166 | a missing room is refused; otherwise only the named device of that room becomes Off, and a room failure is wrapped |
| Homes.Home.GetRoomNames | lesson8_lib/src/home.rs:85-87 | the room names, one per room, in order |
| Homes.Home.GetDeviceReport | lesson8_lib/src/home.rs:96-109 | a missing room is an error; otherwise the room's device report, with a room failure wrapped |
| Homes.Home.GetDevicesReport | lesson8_lib/src/home.rs:115-123 | one result per locator, in order, each the single-device report |
| Homes.Home.GetDevicesInRoom | lesson8_lib/src/home.rs:125-131 | a missing room is an error; otherwise that room's device names |
| Homes.Home.Report | lesson8_lib/src/home.rs:173-182 | the report starts with "Home name: " and the name and ends with "]"; a home without rooms reports an empty list |
| TokenRequest.ParseRequest | lesson18_server/src/request.rs:16-51 | parsing never fails; the first word picks the request (`get_device_names`, `status_all`, and with a second word `status_device`, `turn_on`, `turn_off` naming that word); a bare switch or status command is "No device name specified", and a blank line or any other first word is "Unknown command" |
| TokenRequest.ParsePadded | lesson18_server/src/request.rs:17-19 | whitespace around a request line does not change its meaning |
| TokenRequest.ParseNoArgument | lesson18_server/src/request.rs:20-22 | `get_device_names` and `status_all` ignore any further words |
| TokenRequest.ParseTargeted | lesson18_server/src/request.rs:23-46 | a line of words led by a switch or status command names the device its second word gives; further words are ignored |
| TokenRequest.ParseMissingName | lesson18_server/src/request.rs:27-29 | a switch or status command alone on its line is the missing-name error |
| TokenRequest.ParseUnknown | lesson18_server/src/request.rs:47-49 | a first word that is no command word is the unknown-command error |
| TokenRequest.ParseBlank | lesson18_server/src/request.rs:18-18 | a blank line is the unknown-command error |
| TokenResponse.Render | lesson18_server/src/response.rs:8-23 | a reply ends in a newline and starts with "Ok" or "Error::" according to its kind |
| TokenResponse.RenderOneLine | lesson18_server/src/response.rs:8-23 | a reply whose payload or reason holds no newline is one line: its only newline is the last character |
| TokenResponse.ParseResponse | lesson18_server/src/response.rs:24-41 | a parsed line starts with its tag, and only "Ok" and "Error" are tags; a payload comes after "Ok::" |
| TokenResponse.ParseRender | lesson18_server/src/response.rs:8-41 | a rendered reply without its newline parses back to itself when the payload contains no "::" |
| TokenResponse.ParseRenderNewline | lesson18_server/src/response.rs:8-41 | with its newline kept, a bare "Ok" reply does not parse, and a payload gains the newline |
| TokenResponse.ParseDropsExtraSegments | lesson18_server/src/response.rs:28-41 | segments after the second "::" are dropped |
| TokenResponse.ParseBareError | lesson18_server/src/response.rs:35-37 | "Error" without a reason parses with the empty reason |
| TokenServer.CatchAll | lesson18_server/src/server.rs:106-108 | the reply to a parser error carries the parser's reason |
| TokenServer.CatchAllAsWritten | lesson18_server/src/server.rs:106-108 | as written, the reply to a parser error has an empty reason |
| TokenServer.Answer | lesson18_server/src/server.rs:37-108 | listings join names with ", " and reports with ";;;"; a named command fails exactly when no device has that name, with "Device with name 'n' does not exist"; status gives the device's text; switches carry no payload |
| TokenServer.AnswerAsWritten | lesson18_server/src/server.rs:106-108 | the as-written reply differs from the corrected one only on parser errors |
| TokenServer.CatchAllDropsReason | lesson18_server/src/server.rs:106-108 | as written, a bare `turn_on` is answered "Error::\n"; corrected, it is told "No device name specified" |
| TokenServer.Apply | lesson18_server/src/server.rs:84-105 | names never change; only a switch of a present device changes that one device; everything else leaves the list alone |
| TokenServer.LastSwitchWins | lesson18_server/src/server.rs:84-105 | two switches of one device leave it as the second one put it |
| TokenServer.NamesRecoverable | lesson18_server/src/server.rs:38-54 | the name listing splits back into the names when no name contains or ends in the separator |
| TokenServer.StatusRecoverable | lesson18_server/src/server.rs:55-71 | the status listing splits back into one text per device, in order |
| TokenServer.Replay | lesson18_server/src/server.rs:31-113 | serving any sequence of lines keeps the device names |
| TokenServer.Replies | lesson18_server/src/server.rs:31-113 | one reply per line |
| TokenServer.ReplyAgreesExceptErrors | lesson18_server/src/server.rs:106-108 | the corrected reply to a line equals the one as written unless the line parses to an error; then the source sends "Error::\n", the corrected server "Error::" and the reason, and neither changes the devices |
| TokenServer.RepliesAt | lesson18_server/src/server.rs:31-113 | corrected: the reply to each line is the answer from the devices the earlier lines left |
| TokenServer.Server.constructor | lesson18_server/src/server.rs:15-20 | the address is "address:port" and there are no devices |
| TokenServer.Server.AddDevice | lesson18_server/src/server.rs:24-30 | a taken name is refused with "Device with name n exists!" and nothing changes; otherwise the device is appended |
| TokenServer.Server.Dispatch | lesson18_server/src/server.rs:37-108 | corrected: the reply is the specified answer and the devices become the specified effect |
| TokenServer.Server.Serve | lesson18_server/src/server.rs:32-110 | corrected: one connection: the rendered reply to the parsed line, with its effect |
| TokenServer.Server.Run | lesson18_server/src/server.rs:31-113 | corrected: all connections in order: the replies and final devices are those of the specification |
| TcpCommand.Choose | lesson18_tcp_socket/src/command.rs:39-73 | a section needing a device fails exactly when the device segment is missing; device names come from the segment; other sections are "Unknown request" |
| TcpCommand.ParseCommandContract | lesson18_tcp_socket/src/command.rs:26-75 | a path without "/" is "Cannot parse request" and only such a path is; device names contain no "/"; error messages are only the two the parser writes; failure needs a targeted section and exactly two pieces |
| TcpCommand.IgnoredExactly | lesson18_tcp_socket/src/command.rs:23-75 | as written, a path is ignored exactly when its section is "flavicon.ico"; corrected, exactly when it is "favicon.ico" |
| TcpCommand.ParseTargetedPath | lesson18_tcp_socket/src/command.rs:41-68 | `/turn_on/n`, `/turn_off/n` and `/status_device/n` name device `n` verbatim, whatever follows |
| TcpCommand.ParseMissingName | lesson18_tcp_socket/src/command.rs:42-44 | a targeted section without a device segment fails |
| TcpCommand.ParseEmptyName | lesson18_tcp_socket/src/command.rs:41-48 | an empty device segment names the device with the empty name |
| TcpCommand.ParseRoot | lesson18_tcp_socket/src/command.rs:40-40 | "/" and a blank section give the main page |
| TcpCommand.SectionNormalised | lesson18_tcp_socket/src/command.rs:37-37 | padding a section and changing its capitals do not change it |
| TcpCommand.ParseSectionNormalised | lesson18_tcp_socket/src/command.rs:37-39 | a padded, capitalised section parses as its lower-case form |
| TcpCommand.ParseOtherSection | lesson18_tcp_socket/src/command.rs:69-72 | any other section is ignored exactly when it is the ignored name, and is "Unknown request" otherwise |
| TcpCommand.ParseCommandAgrees | lesson18_tcp_socket/src/command.rs:69-72 | the corrected parser gives the same command as the one as written for every path whose section is neither "favicon.ico" nor "flavicon.ico" |
| TcpCommand.FaviconNotIgnored | lesson18_tcp_socket/src/command.rs:69-69 | as written, "/favicon.ico" is an unknown request and "/flavicon.ico" is ignored; corrected, "/favicon.ico" is ignored |
| TcpRequest.ChooseType | lesson18_tcp_socket/src/request.rs:18-24 | exactly "get", "post", "del" and "put" are methods |
| TcpRequest.ParseRequestTypeNormalised | lesson18_tcp_socket/src/request.rs:17-25 | the method is read whatever its capitals and surrounding whitespace |
| TcpRequest.ParseHttpRequest | lesson18_tcp_socket/src/server.rs:89-96 | corrected: the request succeeds exactly when both the method token and the path token parse, and holds both results |
| TcpRequest.RequestFor | lesson18_tcp_socket/src/server.rs:47-51 | corrected: a failed parse falls back to the default request (GET of the main page) |
| TcpRequest.ParseHttpLine | lesson18_tcp_socket/src/server.rs:89-96 | corrected: in a line of words, the first two decide and the protocol version and anything after are ignored |
| TcpRequest.ParseBlankLine | lesson18_tcp_socket/src/server.rs:89-96 | a blank line is a GET of the main page |
| TcpRequest.RequestForMissingLine | lesson18_tcp_socket/src/server.rs:47-51 | a connection that sends no line is served the main page |
| TcpServer.StatusLine | lesson18_tcp_socket/src/server.rs:238-253 | error pages are "HTTP/1.1 503 OK" and all others "HTTP/1.1 200 OK" |
| HttpFrame.FrameHeaderEnd | lesson18_tcp_socket/src/server.rs:119-122 | the first blank line of a frame ends the header, right after the Content-Length field |
| HttpFrame.FrameContentLength | lesson18_tcp_socket/src/server.rs:119-122 | the status line leads a frame, the content follows the blank line, and the Content-Length field is all decimal digits whose value is the content's UTF-8 byte length |
| TcpServer.RespondGet | lesson18_tcp_socket/src/server.rs:53-81 | the page for each command: the device list or "No devices registered", reports joined by newlines, "Device n is on/off", "Device with name n does not exist" exactly for unknown names, the parser's message, nothing for Ignore |
| TcpServer.Respond | lesson18_tcp_socket/src/server.rs:53-83 | Ignore gets no page for any method, and any other command with a method other than GET gets "Page not found" |
| TcpServer.Switch | lesson18_tcp_socket/src/server.rs:186-195 | only the first device of that name changes; an unknown name changes nothing; names are kept |
| TcpServer.Effect | lesson18_tcp_socket/src/server.rs:53-83 | only a GET of a switch changes devices, and `turn_off` switches off |
| TcpServer.EffectAsWritten | lesson18_tcp_socket/src/server.rs:210-235 | as written, `turn_off` switches the device on |
| TcpServer.TurnOffLeavesOn | lesson18_tcp_socket/src/server.rs:210-235 | as written, `/turn_off/n` says "Device n is off" and leaves the device On; corrected, it is Off |
| TcpServer.LastSwitchWins | lesson18_tcp_socket/src/server.rs:182-235 | two switches of one device leave it as the second one put it |
| TcpServer.HelloNamesRecoverable | lesson18_tcp_socket/src/server.rs:99-125 | the main page's device list splits back into the names |
| TcpServer.Reply | lesson18_tcp_socket/src/server.rs:42-86 | corrected: a connection gets no response exactly when its request is Ignore |
| TcpServer.Framed | lesson18_tcp_socket/src/server.rs:119-123 | a page is sent exactly when there is one |
| TcpServer.Replay | lesson18_tcp_socket/src/server.rs:42-86 | serving any sequence of connections keeps the device names |
| TcpServer.Replies | lesson18_tcp_socket/src/server.rs:42-86 | one response per connection |
| TcpServer.RepliesAt | lesson18_tcp_socket/src/server.rs:42-86 | corrected: the response to each connection is the answer from the devices the earlier connections left |
| TcpServer.Server.constructor | lesson18_tcp_socket/src/server.rs:24-29 | the address is "address:port" and there are no devices |
| TcpServer.Server.AddDevice | lesson18_tcp_socket/src/server.rs:32-38 | a taken name is refused with "Device with name n exists!" and nothing changes; otherwise the device is appended |
| TcpServer.Server.SwitchDevice | lesson18_tcp_socket/src/server.rs:186-195 | the device is found exactly when its name is present, and the list becomes the specified switch |
| TcpServer.Server.TurnOnDevice | lesson18_tcp_socket/src/server.rs:182-207 | the page and new devices are those of the specification for `GET /turn_on/n` |
| TcpServer.Server.TurnOffDevice | lesson18_tcp_socket/src/server.rs:210-235 | corrected: the page and new devices are those of the specification for `GET /turn_off/n` |
| TcpServer.Server.TurnOffDeviceAsWritten | lesson18_tcp_socket/src/server.rs:210-235 | as written: the page says "is off" while the device is switched on |
| TcpServer.Server.Handle | lesson18_tcp_socket/src/server.rs:42-83 | corrected: one connection: the response and the new devices are those of the specification |
| TcpServer.Server.Run | lesson18_tcp_socket/src/server.rs:42-86 | corrected: all connections in order: the responses and final devices are those of the specification |
| TcpSocket.MeasurePower | lesson18_tcp_socket/src/devices/socket.rs:42-47 | there is a reading exactly when the socket is On |
| TcpSocket.MeasurePowerRange | lesson18_tcp_socket/src/devices/socket.rs:42-47 | a reading lies in 1..99, and the report shows 0 exactly when the socket is Off |
| TcpSocket.Report | lesson18_tcp_socket/src/devices/socket.rs:50-59 | the report ends with a newline, and an Off socket shows "current power: 0" |
| TcpSocket.ReportExtendsRegistry | lesson18_tcp_socket/src/devices/socket.rs:50-59 | the report is the registry socket's report with the same draw plus a newline |
| TcpSocket.ReportDeterminesNameAndState | lesson18_tcp_socket/src/devices/socket.rs:50-59 | equal reports of sockets with newline-free names mean the same name and state |
| Lesson4.SmartSocket.constructor | lesson4/src/lib.rs:38-44 | a new socket has the description, is Off and has power 0 |
| Lesson4.SmartSocket.Default | lesson4/src/lib.rs:17-25 | a default socket has no description, is Off and has power 0 |
| Lesson4.SmartSocket.GetPower | lesson4/src/lib.rs:47-55 | while On the calculated power 10 is stored and returned; while Off there is none and the stored power is kept |
| Lesson4.SmartSocket.TurnOn | lesson4/src/lib.rs:58-60 | the socket becomes On and nothing else changes |
| Lesson4.SmartSocket.TurnOff | lesson4/src/lib.rs:63-65 | the socket becomes Off and nothing else changes |
| Lesson4.SmartSocket.GetState | lesson4/src/lib.rs:68-70 | the current state, with nothing changed |
| Lesson4.Thermometer.Default | lesson4/src/lib.rs:85-89 | a default thermometer holds 0 |
| Lesson4.Thermometer.CalculateTemperature | lesson4/src/lib.rs:93-102 | the calculated temperature 22 is stored and returned |

## Left out

- Network and stream I/O is not modelled. This covers binding, accepting connections, reading the request line, writing the response, and the `io::Error` paths those can take. A connection is modelled as the line it sends; `None` stands for a connection that sends no line.
- The HTML page content is not modelled, because an external library builds it. The page is the parameter `html`. Only the texts the server formats into a page, and the framing around the page, are modelled.
- Random number generation is not modelled. Measurements are parameters, and their ranges are hypotheses of the lemmas about them.
- `Display` of devices in the two servers is the parameter `show`. In the one-line server no device kind is defined. In the HTTP server only the socket is, and `TcpSocket.Report` models it.
- The HTTP server's `device.rs` and thermometer are not part of this model. Its device state is modelled with the same operations as the one-line server's `device.rs`.
- Lifetimes, borrowing and `dbg!` output are not modelled. Devices are owned records inside the lists that hold them.
- `Room::name`, `Room::get_report`, `Home::get_home_report`, `get_rooms_report` and the room's `get_devices_report` are not modelled as separate operations. The first is the `name` field, and the rest are the two `Report` functions.
- Text.ToLower: `to_lowercase` is modelled for ASCII letters only. Other letters are left unchanged.
- The `lesson18_server` client and the `lesson18_tcp_socket` client, entry points and demos are not modelled. They are console and network glue.
- Dispatch (TokenServer.Server.Dispatch): corrected: it answers a parser error with the parser's reason, as `Answer` does. The source's reply is `AnswerAsWritten`, which sends an empty reason; `AnswerAsWritten` states that this is the only difference.
- Serve (TokenServer.Server.Serve): corrected: its reply is `Reply`. The source's reply is `ReplyAsWritten`; `ReplyAgreesExceptErrors` states that they differ only on lines that parse to an error.
- Run (TokenServer.Server.Run): corrected: its replies are `Replies`, built from `Reply`. The source's reply to each line is `ReplyAsWritten`, which `ReplyAgreesExceptErrors` relates to `Reply`; the devices are the same.
- RepliesAt (TokenServer.RepliesAt): corrected: it is about `Replies`, in place of the replies built from `ReplyAsWritten`.
- ParseHttpRequest (TcpRequest.ParseHttpRequest): corrected: it reads the path with `ParseCommand`. The source uses `ParseCommandAsWritten`; `ParseCommandAgrees` states that the two differ only on the sections "favicon.ico" and "flavicon.ico".
- RequestFor (TcpRequest.RequestFor): corrected: it stands on `ParseHttpRequest`, so it differs from the source only on those two sections, as `ParseCommandAgrees` states.
- ParseHttpLine (TcpRequest.ParseHttpLine): corrected: the path is read with `ParseCommand` in place of `ParseCommandAsWritten`.
- Reply (TcpServer.Reply): corrected: the request is `RequestFor`, whose path is read with `ParseCommand` in place of `ParseCommandAsWritten`. So "/favicon.ico" gets no response and "/flavicon.ico" gets "Unknown request", the reverse of the source (`FaviconNotIgnored`).
- RepliesAt (TcpServer.RepliesAt): corrected: it is about `Replies`, which are built from `Reply`, `Replay` and `Effect`.
- Handle (TcpServer.Server.Handle): corrected: it parses with `ParseCommand` in place of `ParseCommandAsWritten`, and it calls `TurnOffDevice` (devices `Effect`) in place of the source's `TurnOffDeviceAsWritten` (devices `EffectAsWritten`). `EffectAsWritten` states that only a GET of `turn_off` differs: there the device is switched on.
- Run (TcpServer.Server.Run): corrected: its responses and devices are `Replies` and `Replay`, built on `Handle`'s corrected parts. The source's differ on the inputs `ParseCommandAgrees` and `EffectAsWritten` name.
- Homes.Home.Report and Rooms.Room.Report: the contracts state the head and tail of the report text, not every device line in between.

## Findings

| source | as written | input that shows it | evidently intended | confidence | as-written member | corrected member |
|---|---|---|---|---|---|---|
| lesson18_server/src/server.rs:106-108 | the catch-all arm answers every parser error with an empty reason | the line "turn_on\n" gets "Error::\n" | pass the parser's reason ("No device name specified", "Unknown command") to the client | not executed; medium | TokenServer.AnswerAsWritten | TokenServer.Answer |
| lesson18_tcp_socket/src/server.rs:210-235 | `turn_off_device` calls `turn_on`, so the device ends up On | "GET /turn_off/d HTTP/1.1" for a device d that is On leaves it On, with the page "Device d is off" | switch the device off | not executed; high | TcpServer.EffectAsWritten | TcpServer.Effect |
| lesson18_tcp_socket/src/command.rs:69-69 | the ignored section is spelled "flavicon.ico" | "GET /favicon.ico HTTP/1.1", which browsers send on their own, gets the error page "Unknown request" | ignore "favicon.ico" | not executed; medium | TcpCommand.ParseCommandAsWritten | TcpCommand.ParseCommand |
