# ESP32 weather station firmware, modelled in Dafny

The firmware runs an ESP32 with an OLED display, an environment sensor and an air-quality sensor. It:

- joins Wi-Fi;
- keeps the clock set over NTP;
- fetches the Weather Underground forecast over HTTP;
- draws frames on the display;
- pushes readings to an MQTT broker;
- keeps its settings in a 512-byte EEPROM image.

This project models the logic under the network and scheduling code, file by file, and proves what each part promises. Each core source file becomes one Dafny module:

| module (file) | source | what is modelled |
|---|---|---|
| `Uri` (uri_parser.dfy) | src/http/uri_parser.cpp | `UriParser::parse` as a function, with structure, lower-case and round-trip lemmas |
| `HttpResponse` (http_response.dfy) | src/http/http_client.cpp | the header scan of `ParseResponse` as a state machine over the chunk; `Render` writes a response out and `ParseRender` reads it back |
| `Http` (http_client.dfy) | src/http/http_client.cpp | the in-place scan over an `array<char>`, proved equal to the specification; the request text; the `Client` class with `get`, its four connection handlers and `onData` |
| `NtpPacket` (ntp_packet.dfy) | src/ntp/ntp_client.cpp, src/time/time_client.cpp | the 48-byte request and the decoding of the transmit timestamp (RFC 5905, section 7.3) |
| `TimeFormat` (time_format.dfy) | both time clients | the zero-padded `HH:MM:SS` clock text and the date text |
| `Ntp` (ntp_client.dfy) | src/ntp/ntp_client.cpp | the asynchronous client class and its busy flag |
| `LegacyTime` (time_client.dfy) | src/time/time_client.cpp | the synchronous client, with its polling wait as a loop over a finite trace |
| `Wireless` (wifi_manager.dfy) | src/wireless/wifi_manager.cpp | the connection state machine, the handler list and the quality mapping |
| `Mqtt` (publisher.dfy) | src/publisher/publisher.cpp | the single-slot publisher with timeout and reconnect counter |
| `Station` (weather_station.dfy) | src/weather_station.cpp | the 16-bit task set, every step of `loop` and the payload keys |
| `WundergroundConditions` (conditions.dfy) | src/wunderground/conditions.cpp | the observation, the four forecast slots and the icon name taken from the URL |
| `WundergroundClient` (wunderground_client.dfy) | src/wunderground/client.cpp | the query, path and request text; `update`, which calls the callback exactly once |
| `Display` (weather_display.dfy) | src/ui/weather_display.cpp | the icon-to-glyph table, the signal bars, the boot dots, the forecast columns and the `update` budget |
| `Storage` (persistent.dfy) | src/storage/persistent.cpp | the EEPROM image, clear/load/save byte loops and the key/value settings |

Shared helpers:

- `Arduino` (arduino.dfy): Arduino `String`'s `indexOf`, `lastIndexOf`, `substring`, `toLowerCase` and `toInt`, C strings, `strcspn` and decimal printing.
- `Clock` (clock.dfy): `millis()` differences on 32-bit `unsigned long`.
- `Wrappers` (wrappers.dfy): `Option`.

**Collaborators are parameters.** Hardware, sockets and libraries appear as method parameters:

- the link status, the RSSI and `millis()`;
- DNS answers, connect results and received chunks;
- the sensor results and TimeLib's clock fields;
- the time-zone conversion, as a function parameter;
- what ArduinoJson reads or prints.

**Ghost logs.** Ghost fields record what the code asks of the outside world: callback invocations (with the request each one answers), datagrams and requests sent, handlers fired and payloads published. This lets "exactly once" and "in order" be stated directly.

**Where the code differs from expectations, the model follows the code:**

- A duplicate HTTP header keeps its FIRST value, because `std::map::insert` does not overwrite.
- `ParseResponse` always reports success.
- `Http::Client::get` has no busy flag.
- `onData` re-parses every chunk as the start of a response while the status code stays 0.
- A response that is only a status line is never parsed, because the scan stops four characters before the end.
- A header line without `':'` is stored whole as a key.
- The publisher calls `reconnect()` up to five times, because of the post-increment test against 4. It resets `lastReconnect` to 0 on every tick without a connection.
- An immediate DNS error leaves the NTP client busy for good. Its stored callback is never cleared.
- The sensor flags are not set again after a failed measurement.
- The legacy NTP client waits a hard-coded 5000 ms, ignoring its configured timeout.
- `loadConfig` copies from offset 3, not 4.
- `getForecastForPeriod` has no lower bound check (see Left out).
- `weather_display.cpp` and `time_client.cpp` do not match their headers; the `.cpp` bodies are what is modelled.

## Model

| member | source | states |
|---|---|---|
| Clock.Elapsed | src/wireless/wifi_manager.cpp:44-50 | `now - since` on 32-bit unsigned: the plain difference when `since <= now`, and the difference across the wrap-around otherwise; always below 2^32 |
| TimeFormat.TwoDigits | src/ntp/ntp_client.cpp:35-50 | a clock field as printed: `"0"` before values below 10, then `String(n)`; `TwoDigitsRoundTrip` states what it promises |
| TimeFormat.FormatTime | src/ntp/ntp_client.cpp:29-52 | `HH:MM:SS` from the three fields; `FormatTimeLayout` states its layout and read-back |
| TimeFormat.FormatDate | src/ntp/ntp_client.cpp:57-78 | day name, `", "`, padded day, month name and year; `FormatDateDay` states its layout |
| TimeFormat.TwoDigitsRoundTrip | src/ntp/ntp_client.cpp:35-50 | every value below 100 is printed as exactly two digits that read back as the value |
| TimeFormat.FormatTimeLayout | src/ntp/ntp_client.cpp:29-52 | the clock text is 8 characters with colons at 2 and 5; its three fields read back as hour, minute and second |
| TimeFormat.FormatDateDay | src/ntp/ntp_client.cpp:62-73 | the date is the day name, `", "`, and the day of the month as two digits that read back as the day, then a space |
| NtpPacket.RequestPacket | src/ntp/ntp_client.cpp:186-196 | the request packet is 48 bytes long |
| NtpPacket.RequestHeaderFields | src/ntp/ntp_client.cpp:187 | byte 0 holds leap indicator 3, version 4 and mode 3 (client) |
| NtpPacket.RequestLayout | src/ntp/ntp_client.cpp:186-196 | the request is `E3 00 06 EC`, eight zero bytes, `31 4E 31 34`, then zeros |
| NtpPacket.Word | src/ntp/ntp_client.cpp:122-123 | `word(high, low)` is below 2^16 |
| NtpPacket.SecondsSince1900 | src/ntp/ntp_client.cpp:122-127 | the combined timestamp fits in 32 bits |
| NtpPacket.SecondsSince1900BigEndian | src/ntp/ntp_client.cpp:122-127 | the timestamp is b40·2^24 + b41·2^16 + b42·2^8 + b43 |
| NtpPacket.TimestampBytes | src/ntp/ntp_client.cpp:122-127 | a server's encoding of a 32-bit seconds value is four bytes |
| NtpPacket.TimestampBytesValue | src/ntp/ntp_client.cpp:122-127 | those four bytes read back big-endian as the value |
| NtpPacket.DecodeTimestampBytes | src/ntp/ntp_client.cpp:122-127 | decoding a reply carrying `TimestampBytes(secs)` at offset 40 gives `secs`: decoding inverts encoding |
| NtpPacket.UnixEpoch | src/ntp/ntp_client.cpp:131-134 | `secsSince1900 - 2208988800` on 32-bit unsigned stays below 2^32 |
| NtpPacket.UnixEpochExact | src/ntp/ntp_client.cpp:131-134 | from 1970 until the NTP era rolls over the subtraction is exact |
| NtpPacket.UnixEpochWraps | src/ntp/ntp_client.cpp:131-134 | a timestamp before 1970 wraps to `secs + 2^32 - 2208988800`, a time after 2106 |
| NtpPacket.SampleReply | src/time/time_client.cpp:101-113 | bytes `83 AA 00 00` give 0x83AA0000 seconds since 1900, which wraps to the epoch 4294934912 |
| Arduino.IndexOfFrom | src/http/uri_parser.cpp:17-31 | `String::indexOf(pat, from)`: -1 or an index at or after `from` where `pat` occurs, with no occurrence between `from` and it (or anywhere from `from` on, for -1) |
| Arduino.LastIndexOf | src/wunderground/conditions.cpp:39 | `String::lastIndexOf(c)`: -1 or an index holding `c`, with no `c` after it |
| Arduino.Substring | src/http/uri_parser.cpp:32-43 | `String::substring(left, right)` with Arduino's rules (bounds swapped when reversed, empty from past the end, upper bound clipped); `SubstringInRange` states that it is the slice for bounds in range |
| Arduino.ToLower | src/http/uri_parser.cpp:13 | `toLowerCase()`: same length, each character lower-cased (ASCII letters only) |
| Arduino.ToUpper | src/ui/weather_display.cpp:285 | `toUpperCase()`: same length, each character upper-cased (ASCII letters only) |
| Arduino.Atol | src/http/uri_parser.cpp:42 | `atol`/`atoi`/`toInt`: leading white space skipped, one optional sign, then the leading digits; `AtolOfDecimal` states that a printed number reads back |
| Arduino.CStringRunsOn | src/http/http_client.cpp:155 | a C string read out of a buffer followed in memory by `after`, which reaches the end of the buffer unterminated, goes on with the C string at the start of `after` |
| Uri.SchemeOf | src/http/uri_parser.cpp:17-26 | the scheme when the first `"://"` follows exactly `http` or `https`, else none; `SchemeOfPrefix` states it as a prefix test |
| Uri.Authority | src/http/uri_parser.cpp:31-32 | the text from after `"://"` up to the next `'/'`; `ComponentsStructure` states the split |
| Uri.PathPart | src/http/uri_parser.cpp:31-35 | the text from that `'/'` on, empty when there is none; `ComponentsStructure` states the split |
| Uri.DomainOf | src/http/uri_parser.cpp:39-46 | the authority up to a `':'` at a positive index, else all of it; `PortStructure` states both cases |
| Uri.PortOf | src/http/uri_parser.cpp:39-46 | `toInt` of the text after that `':'`, else the scheme's default port; `PortStructure` states both cases |
| Uri.Parse | src/http/uri_parser.cpp:10-49 | `UriParser::parse`, none where the source returns false; `ParseScheme`, `ParseStructure` and `ParseFormat` state what it promises |
| Uri.ParseScheme | src/http/uri_parser.cpp:13-26 | `parse` succeeds exactly when the scheme of the lower-cased text is accepted, and reports that scheme |
| Uri.SchemeAccepted | src/http/uri_parser.cpp:17-26 | the scheme is accepted exactly when the lower-cased text starts with `http://` or `https://` |
| Uri.ParseAcceptsScheme | src/http/uri_parser.cpp:13-26 | `parse` fails unless the lower-cased text starts with `http://` or `https://`, and reports the scheme it starts with |
| Uri.ParseIgnoresCase | src/http/uri_parser.cpp:13 | parsing a text and parsing its lower-cased form give the same result |
| Uri.ParseStructure | src/http/uri_parser.cpp:10-49 | the lower-cased text is scheme, `"://"`, an authority without `'/'` and the path; the path is empty or starts with `'/'`, and is empty exactly when no `'/'` follows `"://"`; with a `':'` at a positive index, domain and port text sit either side of it and the port is `toInt` of the text; otherwise the domain is the whole authority and the port is the scheme's default |
| Uri.ComponentsStructure | src/http/uri_parser.cpp:28-35 | the authority/path split of text that starts with the scheme and `"://"` |
| Uri.PortStructure | src/http/uri_parser.cpp:37-46 | the domain/port split of an authority, in both cases |
| Uri.ParseLowercase | src/http/uri_parser.cpp:13 | the domain and the path never hold an upper-case letter |
| Uri.ParseFormat | src/http/uri_parser.cpp:10-49 | printing a well-formed URI as `scheme://domain:port/path` and parsing it gives the URI back |
| Uri.ParseFormatDefaultPort | src/http/uri_parser.cpp:18-24 | `scheme://domain/path` parses with port 80 for http and 443 for https |
| Uri.LeadingColonStaysInDomain | src/http/uri_parser.cpp:39-46 | a `':'` at index 0 of the authority is no port separator: `http://:8080/x` has domain `:8080` and port 80 |
| Uri.EmptyPortIsZero | src/http/uri_parser.cpp:39-46 | an empty port text reads as port 0 |
| HttpResponse.Uint16 | src/http/http_client.cpp:198 | storing an `int` into a `uint16_t` keeps values below 2^16 and stays below 2^16 |
| HttpResponse.InsertKeepsFirst | src/http/http_client.cpp:214 | `std::map::insert`: a key already present keeps its first value; other keys are untouched |
| HttpResponse.StatusLineStep | src/http/http_client.cpp:163-206 | the status line parser keeps the buffer length and leaves the response unchanged on failure |
| HttpResponse.StatusLineAccepted | src/http/http_client.cpp:163-206 | a status line is accepted exactly when it has at least 9 characters, starts with `"HTTP/1.1 "` and has a space after them inside the line |
| HttpResponse.StatusLineParsed | src/http/http_client.cpp:180-203 | with the first space after the prefix at `sp`, the code is `atoi` of the text between them (as `uint16_t`), the reason is the rest of the line, and the space becomes NUL |
| HttpResponse.HeaderFieldStep | src/http/http_client.cpp:208-221 | the header parser keeps the buffer length and leaves the response unchanged on failure |
| HttpResponse.HeaderFieldParsed | src/http/http_client.cpp:208-221 | for a line with its first `':'` at `colon`: the colon becomes NUL; the line is accepted exactly when the key length plus 2 is below the `lineLength` argument, which is the line's end offset; the key is the text before the colon; the value is the C string two characters after it, inserted without overwriting |
| HttpResponse.HeaderValueText | src/http/http_client.cpp:216 | a value that starts inside its line is the rest of that line |
| HttpResponse.HeaderFieldWithoutColon | src/http/http_client.cpp:208-221 | called from line 131, a line without `':'` is accepted whenever it starts past offset 2: the whole line becomes the key and the value is read from the next line |
| HttpResponse.Start | src/http/http_client.cpp:113-117 | the loop variables before the first pass: `i` and `line` at 0, `isFirstline` and `success` set |
| HttpResponse.Continue | src/http/http_client.cpp:139-148 | after a parsed line: break with the body at `i + 4` on CR LF CR LF inside the chunk, else the next line at `i + 2`, else fail; `ParseRender` states the outcome on a whole response |
| HttpResponse.ScanBound | src/http/http_client.cpp:119 | the corrected loop bound: 0 below four characters, otherwise `len - 4` |
| HttpResponse.ScanBoundAsWrittenOverruns | src/http/http_client.cpp:119 | as written, `len - 4` on `size_t` for `len < 4` is `2^32 + len - 4`, past the end of the chunk |
| HttpResponse.ScanBoundAgrees | src/http/http_client.cpp:119 | for chunks of four characters or more the written bound and the corrected bound agree |
| HttpResponse.Pass | src/http/http_client.cpp:120-151 | one pass of the loop body, keeping the buffer length: at CR LF the CR becomes NUL and the line is parsed as status line or header field |
| HttpResponse.RunToBound | src/http/http_client.cpp:119 | the loop under the bound `len - 4`, keeping the buffer length |
| HttpResponse.Run | src/http/http_client.cpp:119-152 | the scan loop keeps the buffer length |
| HttpResponse.ParseResponseSpec | src/http/http_client.cpp:111-161 | `ParseResponse` always reports success and keeps the buffer length |
| HttpResponse.ParseResponseAsWritten | src/http/http_client.cpp:111-161 | `ParseResponse` as written, with `after` the memory after the chunk: always ok, buffer length kept, and the body read on past the chunk |
| HttpResponse.ParseResponseAsWrittenBody | src/http/http_client.cpp:154-158 | the parse as written and the intended parse agree except in the body, and where the intended body reaches the end of the chunk the body as written is it followed by the C string at `after` |
| HttpResponse.NoTerminatorNoBody | src/http/http_client.cpp:119-158 | a chunk with no CR before the bound leaves the response as it was, with an empty body |
| HttpResponse.ShortChunkNoBody | src/http/http_client.cpp:119-158 | with the corrected bound, a chunk shorter than four characters is never scanned and only loses its body |
| HttpResponse.Render | src/http/http_client.cpp:111-161 | the text a server sends, in the layout the parser expects: status line, fields and empty line, each ended by CR LF, then the body; `ParseRender` reads it back |
| HttpResponse.ParseRender | src/http/http_client.cpp:111-161 | the intended parse of a rendered well-formed response recovers status code, reason, header fields (first value first) and the body as the chunk holds it; with an empty body the last field is lost because the scan stops four characters early (the body as written: see Findings) |
| HttpResponse.ParseRenderAsWritten | src/http/http_client.cpp:154-158 | read as written, the same response keeps code, reason and fields, but its body is the body sent followed by the C string in the memory after the chunk; it is the body sent exactly when that memory is empty or starts with NUL |
| HttpResponse.ParseRenderBare | src/http/http_client.cpp:119-158 | a bare status line plus the empty line is not parsed at all: the response keeps its old code and gets an empty body |
| HttpResponse.ParseKeepsHeaders | src/http/http_client.cpp:214 | parsing never changes or drops a header already stored |
| Http.ParseResponseStatusLine | src/http/http_client.cpp:163-206 | the in-place method computes exactly `StatusLineStep`: verdict, buffer and response |
| Http.ParseResponseHeaderField | src/http/http_client.cpp:208-221 | the in-place method computes exactly `HeaderFieldStep` |
| Http.LineEnd | src/http/http_client.cpp:121-150 | one line ending in the loop body follows the specification's pass |
| Http.ParseResponse | src/http/http_client.cpp:111-161 | the loop over the array, which overwrites line ends in place, returns true and leaves buffer and response exactly as `ParseResponseSpec` says |
| Http.RequestLine | src/http/http_client.cpp:224-234 | `GET <path> HTTP/1.1`, `Host: <domain>`, an empty line; `RequestLineFields` and `RequestLineInjective` state what it promises |
| Http.RequestLineFields | src/http/http_client.cpp:224-234 | the request is `"GET " + path + " HTTP/1.1\r\nHost: " + domain + "\r\n\r\n"`; a server reads the path back up to the next space and the host up to the next CR |
| Http.RequestLineInjective | src/http/http_client.cpp:224-234 | different paths or domains give different requests |
| Http.Client.constructor | src/http/http_client.cpp:10-13 | a fresh client: zeroed response and counters, no callback, empty logs |
| Http.Client.Get | src/http/http_client.cpp:16-64 | an invalid URI is answered at once with `false` and the current response, returning false, with nothing installed; a valid one clears only the status code, installs the callback and returns the connect result; headers, body and byte counts are kept |
| Http.Client.Install | src/http/http_client.cpp:21-29 | `get` once the URI is parsed: an invalid one answers `false` with the current response and installs nothing; a valid one clears the status code, installs the callback and returns the connect result |
| Http.Client.Invoke | src/http/http_client.cpp:34-55 | calling `this->callback`: recorded with the current request's id and response while one is installed, a fault otherwise |
| Http.Client.SendRequest | src/http/http_client.cpp:224-234 | the request goes out, and true is returned, exactly when it fits in the send space and the connection can send |
| Http.Client.OnConnect | src/http/http_client.cpp:31-38 | a request that cannot be sent is answered with `false`, unguarded; invoking an empty callback is recorded as a fault |
| Http.Client.OnDisconnect | src/http/http_client.cpp:43-49 | answers `false` only while a callback is installed |
| Http.Client.OnTimeout | src/http/http_client.cpp:51-55 | answers `false`, unguarded |
| Http.Client.OnData | src/http/http_client.cpp:69-97 | with status code 0, the chunk is parsed, the byte count is the body length and the expected length is `atol` of `Content-Length` (empty, so 0, when missing); otherwise the chunk is copied, NUL-terminated and appended up to its first NUL, and its length added; once the count reaches the expected length the connection is stopped and the callback answers `true` once, then is cleared |
| Http.Client.CopyChunk | src/http/http_client.cpp:86-89 | `memcpy` plus terminator: the buffer holds the chunk and a NUL, and its C string is the chunk's |
| Http.Client.Complete | src/http/http_client.cpp:92-96 | stop, answer `true` once, clear the callback |
| Http.WithContentLength | src/http/http_client.cpp:82 | `operator[]` adds `Content-Length` with an empty value when missing and changes no other entry |
| Http.FirstChunk | src/http/http_client.cpp:72-82 | the first-chunk branch: the parsed response with `Content-Length` present, the received count and the expected length |
| Http.StaleContentLength | src/http/http_client.cpp:72-82 | re-parsing while the status code stays 0 never replaces a stored `Content-Length`, because the header `insert` at line 214 keeps the first value |
| Ntp.Client.constructor | src/ntp/ntp_client.cpp:21 | not synchronised, not busy, no callback |
| Ntp.Client.Setup | src/ntp/ntp_client.cpp:90-93 | stores the server and port only |
| Ntp.Client.GetFormattedTime | src/ntp/ntp_client.cpp:24-55 | false with the text unchanged until a reply has been decoded; then `HH:MM:SS` of the clock |
| Ntp.Client.GetFormattedDate | src/ntp/ntp_client.cpp:57-78 | the same guard, then the date text |
| Ntp.Client.GetUnixTime | src/ntp/ntp_client.cpp:80-88 | the same guard, then `now()` |
| Ntp.Client.DoCallback | src/ntp/ntp_client.cpp:215-223 | the stored callback, if any, gets `success`; the client is always idle afterwards |
| Ntp.Client.Connect | src/ntp/ntp_client.cpp:185-213 | on UDP connect the request packet is sent and the client stays busy; otherwise the update ends with `doCallback(false)` |
| Ntp.Client.Update | src/ntp/ntp_client.cpp:156-183 | a busy client answers the new callback `false`, returns false and changes nothing else; otherwise it becomes busy with the new callback; an address at once is connected to; a lookup in progress returns true; any other DNS answer returns false with the client left busy and no callback pending |
| Ntp.Client.DnsFound | src/ntp/ntp_client.cpp:225-246 | a missing address or a refused enqueue ends the update with `doCallback(false)`; a queued address changes nothing yet |
| Ntp.Client.OnPacket | src/ntp/ntp_client.cpp:117-153 | the Unix time is the decoded timestamp minus 2208988800 on 32 bits; its local time goes to TimeLib; the client becomes synchronised and the update ends with `doCallback(true)` |
| LegacyTime.ArrivesIff | src/time/time_client.cpp:85-91 | the wait sees a packet exactly when some poll has one and every earlier poll is within 5000 ms |
| LegacyTime.Wait | src/time/time_client.cpp:85-91 | the polling loop returns whether the packet arrived before the hard-coded 5000 ms deadline |
| LegacyTime.ReadBuffer | src/time/time_client.cpp:93-99 | the zeroed 48-byte buffer after `read`: the reply's bytes, then zeros |
| LegacyTime.Read | src/time/time_client.cpp:93-99 | the read loop fills a fresh zeroed buffer exactly as `ReadBuffer` says |
| LegacyTime.ShortReadDecodesZero | src/time/time_client.cpp:93-113 | a read that stops before byte 40 still decodes, with timestamp 0, to the epoch 2^32 - 2208988800 |
| LegacyTime.TimeClient.constructor | src/time/time_client.cpp:55-59 | a fresh client that has sent nothing |
| LegacyTime.TimeClient.Setup | src/time/time_client.cpp:55-59 | stores server, port and timeout |
| LegacyTime.TimeClient.GetFormattedTime | src/time/time_client.cpp:7-32 | unguarded; for valid clock fields, 8 characters with colons at 2 and 5 and fields that read back |
| LegacyTime.TimeClient.GetFormattedDate | src/time/time_client.cpp:34-49 | unguarded; the day of the month as two digits that read back |
| LegacyTime.TimeClient.GetUnixTime | src/time/time_client.cpp:51-53 | unguarded: TimeLib's `now()` |
| LegacyTime.TimeClient.Update | src/time/time_client.cpp:61-129 | true exactly when `beginPacket` is at least 1 and the packet arrives in time; the request is sent only past the `beginPacket` check; on success the time is decoded from the zero-padded buffer however short the read; on failure the time is unchanged |
| Wireless.Quality | src/wireless/wifi_manager.cpp:71-86 | 0 without a link or at or below -100 dBm; 100 at or above -50 dBm; else `2 (dBm + 100)`; always within 0..100 |
| Wireless.QualityMonotone | src/wireless/wifi_manager.cpp:79-85 | a stronger signal never gives a lower quality |
| Wireless.LoopBranch | src/wireless/wifi_manager.cpp:32-58 | the first test of `loop`'s else-if chain that holds; `LoopBranchGuards` states when each branch is taken |
| Wireless.LoopBranchGuards | src/wireless/wifi_manager.cpp:32-58 | exactly one branch of the else-if chain runs, and each is taken exactly under its condition; handlers run only while connecting, a retry only when idle |
| Wireless.Manager.constructor | src/wireless/wifi_manager.cpp:14-23 | idle, no handlers, nothing fired |
| Wireless.Manager.Setup | src/wireless/wifi_manager.cpp:14-23 | stores the credentials and connects |
| Wireless.Manager.Connect | src/wireless/wifi_manager.cpp:88-95 | connecting, not sleeping, connect time stamped, one more `WiFi.begin` |
| Wireless.Manager.OnConnected | src/wireless/wifi_manager.cpp:61-65 | the handler is appended: registration order is kept |
| Wireless.Manager.OnEvent | src/wireless/wifi_manager.cpp:97-110 | a lost connection gives the retry token; other events change nothing |
| Wireless.Manager.FireHandlers | src/wireless/wifi_manager.cpp:38-43 | every handler runs once, in registration order |
| Wireless.Manager.Loop | src/wireless/wifi_manager.cpp:25-59 | the retry token is always taken, the manager is never both connecting and sleeping, and exactly the chosen branch runs: link up fires the handlers once; more than 15000 ms connecting moves to sleeping and stamps `sleepTimeout`; more than 60000 ms sleeping, or a retry when idle, reconnects; otherwise nothing changes |
| Mqtt.Publisher.constructor | src/publisher/publisher.h:38 | idle with empty logs |
| Mqtt.Publisher.Setup | src/publisher/publisher.cpp:6-16 | stores the settings; not publishing, `lastReconnect` and `reconnects` 0 |
| Mqtt.Publisher.Publish | src/publisher/publisher.cpp:18-41 | busy: the new callback, if set, gets `false`, false is returned and the operation is untouched; idle: the operation starts now with no reconnects and the topic, payload and callback stored |
| Mqtt.Publisher.FireCallback | src/publisher/publisher.cpp:97-103 | the callback, if any, gets `success`, and the operation always ends |
| Mqtt.Publisher.Loop | src/publisher/publisher.cpp:43-86 | idle, nothing happens; connected, the message is published retained, the callback gets the result and the client disconnects; otherwise `lastReconnect` becomes 0, then past 5000 ms the callback gets `false`; else, once `now > 5000`, the counter is tested and incremented: above 4 the callback gets `false`, otherwise one more `reconnect()`; the invariant keeps the reconnects of one publish at most 5 |
| Station.RaisedFlags | src/weather_station.cpp:99-124 | each semaphore sets exactly its flags: super-short both sensors, short the push, medium the weather, long the time; no other bit changes |
| Station.Payload | src/weather_station.cpp:223-235 | the payload object's members in insertion order, each with its reading; `PayloadKeys` states which keys appear |
| Station.PayloadKeys | src/weather_station.cpp:223-235 | the payload starts with the time; temperature, humidity and pressure appear exactly when the environment sensor is enabled, eco2 and tvoc exactly when the air-quality sensor is; no key repeats |
| Station.WeatherStation.constructor | src/weather_station.cpp:74 | empty task set, no semaphores given |
| Station.WeatherStation.Setup | src/weather_station.cpp:48-56 | the stored baseline goes to the sensor only when both values are positive; the `tasks` set starts empty (line 74) |
| Station.WeatherStation.OnConnectedToWireless | src/weather_station.cpp:80-89 | the `tasks` set is overwritten with all five flags |
| Station.WeatherStation.OnSuperShortIntervalTimer | src/weather_station.cpp:262-264 | gives its semaphore |
| Station.WeatherStation.OnShortIntervalTimer | src/weather_station.cpp:266-268 | gives its semaphore |
| Station.WeatherStation.OnMediumIntervalTimer | src/weather_station.cpp:270-272 | gives its semaphore |
| Station.WeatherStation.OnLongIntervalTimer | src/weather_station.cpp:274-276 | gives its semaphore |
| Station.WeatherStation.OnTimeUpdated | src/weather_station.cpp:178-190 | success adds the time frame; failure sets the time flag again |
| Station.WeatherStation.OnWeatherUpdated | src/weather_station.cpp:198-209 | success keeps the conditions and adds the report frame; failure sets the weather flag again |
| Station.WeatherStation.TakeTokens | src/weather_station.cpp:99-124 | all four semaphores are taken and the `tasks` set becomes `Raised` |
| Station.WeatherStation.MeasureEnvironment | src/weather_station.cpp:126-147 | its flag is always cleared; only a measurement made with the flag set that succeeds is kept, its humidity handed on and the indoor frame added |
| Station.WeatherStation.MeasureAirQuality | src/weather_station.cpp:149-163 | its flag is always cleared; only a successful measurement is kept |
| Station.WeatherStation.UpdateTime | src/weather_station.cpp:173-191 | with the flag set it is cleared and one update started; a failure reported at once sets it again |
| Station.WeatherStation.UpdateWeather | src/weather_station.cpp:193-210 | with the flag set it is cleared and one update made; failure sets it again, success stores the conditions |
| Station.WeatherStation.Push | src/weather_station.cpp:212-247 | runs only with its flag set and some sensor enabled; with the time known the payload is published, otherwise the flag is set again |
| Station.WeatherStation.Sense | src/weather_station.cpp:92-163 | Wi-Fi quality to the display, the semaphores, both sensor steps |
| Station.WeatherStation.Dispatch | src/weather_station.cpp:171-247 | the publisher's loop, then the time, weather and push steps in order |
| Station.WeatherStation.Loop | src/weather_station.cpp:91-251 | the `tasks` set becomes `LoopTasks`; sensors run whether or not Wi-Fi is up; offline nothing is requested or published |
| Station.WeatherStation.DisplayTaskLoop | src/weather_station.cpp:253-260 | waits out a positive budget and always returns true |
| Station.MeasuredFlags | src/weather_station.cpp:126-163 | the sensor steps clear both sensor flags and touch no other bit |
| Station.TimeStepFlags | src/weather_station.cpp:173-191 | the time flag survives exactly when it was set and the update failed at once; no other bit changes |
| Station.WeatherStepFlags | src/weather_station.cpp:193-210 | the weather flag survives exactly when it was set and the update failed; no other bit changes |
| Station.PushStepFlags | src/weather_station.cpp:212-247 | the push flag survives exactly when it was set and either no sensor is enabled or the time is unknown |
| Station.LoopTasks | src/weather_station.cpp:91-251 | the `tasks` set a `loop` leaves, from the set after the semaphores; `LoopTasksOffline`, `LoopTasksOnline` and `LoopTasksFlags` state it bit by bit |
| Station.LoopTasksOffline | src/weather_station.cpp:165-169 | offline, only the sensor flags are cleared |
| Station.LoopTasksOnline | src/weather_station.cpp:171-247 | online, each network step decides its own flag |
| Station.LoopTasksFlags | src/weather_station.cpp:91-251 | the flags a `loop` leaves, offline and online, and that no bit outside the five is ever set |
| WundergroundConditions.IconName | src/wunderground/conditions.cpp:34-45 | the icon name `parseCurrentObservation` stores; `IconNameBetween`, `IconNameFallback` and `IconNameWithoutSlash` state its cases |
| WundergroundConditions.IconNameBetween | src/wunderground/conditions.cpp:38-45 | with the last `'/'` at `slash` and the first `'.'` after it at `dot`, the icon is the text strictly between them |
| WundergroundConditions.IconNameFallback | src/wunderground/conditions.cpp:34-45 | no `'.'` after the last `'/'`: the JSON `icon` value is kept |
| WundergroundConditions.IconNameWithoutSlash | src/wunderground/conditions.cpp:34-45 | a URL without `'/'` keeps the JSON `icon` value |
| WundergroundConditions.IconNameOfUrl | src/wunderground/conditions.cpp:38-45 | a URL `.../name.ext` yields `name` |
| WundergroundConditions.LastIndexOfAt | src/wunderground/conditions.cpp:38-40 | `lastIndexOf('/')` finds the last slash: the character there is `'/'` and none after it is |
| WundergroundConditions.Conditions.constructor | src/wunderground/conditions.h:31 | four forecast slots |
| WundergroundConditions.Conditions.GetCurrentObservation | src/wunderground/conditions.cpp:12-14 | a copy of the stored observation |
| WundergroundConditions.Conditions.GetForecastForPeriod | src/wunderground/conditions.cpp:16-20 | below 4, slot `period`; from 4 on, the output as it was |
| WundergroundConditions.Conditions.ParseCurrentObservation | src/wunderground/conditions.cpp:26-48 | the fields are stored, with the icon taken from the URL when it has one |
| WundergroundConditions.Conditions.ParseForecast | src/wunderground/conditions.cpp:50-71 | day k goes to slot k for at most 4 days; slots beyond the days received keep their contents |
| WundergroundConditions.Conditions.Parse | src/wunderground/conditions.cpp:4-10 | the observation, then the forecast |
| WundergroundClient.CityQuery | src/wunderground/client.cpp:11 | `"/q/" + country + "/" + city`; `CityQueryFields` states that both read back |
| WundergroundClient.LocationQuery | src/wunderground/client.cpp:17 | `"/q/" + latLon`; `LocationQueryFields` states its layout |
| WundergroundClient.Path | src/wunderground/client.cpp:21 | the API path; `PathFields` and `PathKeyInjective` state what it promises |
| WundergroundClient.Request | src/wunderground/client.cpp:30-33 | the request `update` writes; `RequestFields` states its lines |
| WundergroundClient.CityQueryFields | src/wunderground/client.cpp:11 | `"/q/" + country + "/" + city`, with country and city recoverable |
| WundergroundClient.LocationQueryFields | src/wunderground/client.cpp:17 | `"/q/" + latLon` |
| WundergroundClient.PathFields | src/wunderground/client.cpp:21 | the path is `/api/`, the key up to the next `'/'`, `/conditions/forecast/lang:` and the language, the query, `.json` |
| WundergroundClient.PathKeyInjective | src/wunderground/client.cpp:21 | different keys give different paths |
| WundergroundClient.RequestFields | src/wunderground/client.cpp:30-33 | GET line with the path, Host and `Connection: close` headers, ending in an empty line |
| WundergroundClient.RespondsIff | src/wunderground/client.cpp:39-89 | the loop reads the response exactly when some turn has data and every earlier turn is connected, without data and within 5000 ms |
| WundergroundClient.Await | src/wunderground/client.cpp:39-89 | the polling loop returns `Responds` of the trace |
| WundergroundClient.Client.ForCity | src/wunderground/client.cpp:7-12 | the city query |
| WundergroundClient.Client.ForLocation | src/wunderground/client.cpp:14-18 | the location query |
| WundergroundClient.Client.Update | src/wunderground/client.cpp:20-95 | the request is written only when connected; the callback is called exactly once, at the end, on every path; success is connected, readable, both headers found and the JSON parsed; on success the parsed conditions are stored, otherwise the previous ones are passed back unchanged |
| WundergroundClient.Stored | src/wunderground/conditions.cpp:50-71 | the slots after the forecast: the days received first, then the old slots |
| Display.MeteoconIcon | src/ui/weather_display.cpp:301-382 | `ConvertIconTextToMeteoconIcon`: the 38 icon names and their glyphs, `")"` otherwise; its properties are stated by `MeteoconIconFallback` and `MeteoconIconDayAndNight` |
| Display.MeteoconIconFallback | src/ui/weather_display.cpp:301-382 | every name gets a single glyph, and a name gets the fallback `")"` exactly when it is not one of the 38 documented icon names |
| Display.MeteoconIconDayAndNight | src/ui/weather_display.cpp:313-354 | clear and sunny share `"B"`; nt_clear is `"2"`; cloudy and nt_cloudy share `"Y"` |
| Display.SignalBars | src/ui/weather_display.cpp:136-142 | bar i is drawn at full height 2(i+1) exactly when the quality is above 25 i; otherwise only its bottom pixel |
| Display.SignalColumns | src/ui/weather_display.cpp:136-142 | every set pixel is in one of the four bar columns, rows 56..63 |
| Display.OneActiveDot | src/ui/weather_display.cpp:98-100 | exactly one dot is active, the one at progress mod 3 |
| Display.DayLabel | src/ui/weather_display.cpp:284-285 | the first three characters of the title (fewer if shorter), upper-cased |
| Display.ForecastColumnsPeriods | src/ui/weather_display.cpp:267-269 | the forecast frame shows periods 1, 2 and 3, in order |
| Display.WeatherDisplay.constructor | src/ui/weather_display.cpp:6-7 | no screen shown, nothing drawn |
| Display.WeatherDisplay.DrawBootScreen | src/ui/weather_display.cpp:74-103 | progress goes up by one, then the dots for the new progress are drawn |
| Display.WeatherDisplay.SetShowBootScreen | src/ui/weather_display.cpp:48-56 | showing it resets progress and direction to 0 and draws the first step, with the middle dot active |
| Display.WeatherDisplay.SetShowUpdateScreen | src/ui/weather_display.cpp:44-46 | stores the flag |
| Display.WeatherDisplay.SetWifiQuality | src/ui/weather_display.cpp:58-60 | stores the quality |
| Display.WeatherDisplay.Update | src/ui/weather_display.cpp:62-72 | 800 while the update or boot screen is shown, the boot screen advancing; otherwise `ui.update()` |
| Storage.Strlen | src/storage/persistent.cpp:50 | `strlen`: no NUL before it, a NUL at it (when inside the bytes) |
| Storage.Area | src/storage/persistent.cpp:44-47 | the zeroed 508-byte area holds the printed text, at most 507 bytes, and ends in a NUL |
| Storage.AreaTerminated | src/storage/persistent.cpp:44-47 | the area's C string is shorter than the area |
| Storage.ClearedImageNotLoaded | src/storage/persistent.cpp:7-26 | after `clear` the identifier is missing, so `loadConfig` copies nothing |
| Storage.LoadedKeepsIdentifier | src/storage/persistent.cpp:24-29 | loading never changes bytes 0 to 2; with the identifier present, bytes 3 on are the EEPROM's |
| Storage.Loaded | src/storage/persistent.cpp:24-29 | the image after `loadConfig`'s copy: bytes 3 on from the EEPROM when it starts with `"MF1"`, else unchanged; `LoadedKeepsIdentifier` and `ClearedImageNotLoaded` state its cases |
| Storage.Serialised | src/storage/persistent.cpp:44-47 | the image after `memset` and `printTo`: the identifier field, then `Area(text)`; `SerialisedText` states what it holds |
| Storage.Saved | src/storage/persistent.cpp:50-55 | the EEPROM after the write loop: the first `4 + strlen` image bytes, then the old bytes; `SaveThenLoadAsWritten` states what that loses |
| Storage.SerialisedText | src/storage/persistent.cpp:44-47 | serialising keeps the identifier field and leaves the printed text as the C string of the area |
| Storage.SaveThenLoadAsWritten | src/storage/persistent.cpp:50-55 | as written, when the EEPROM byte after the new text is not NUL, the text loaded back differs from the text saved |
| Storage.SaveThenLoad | src/storage/persistent.cpp:50-55 | writing the terminator as well, the text loaded back is exactly the text saved |
| Storage.SerialisedRoundTrip | src/storage/persistent.cpp:42-60 | with the terminator written, the serialised settings come back from the EEPROM, truncated to 507 bytes |
| Storage.SetThenGet | src/storage/persistent.cpp:62-80 | `set` then `get` with the same overload yields the value set; other keys read as before |
| Storage.Merged | src/storage/persistent.cpp:34-39 | the settings after each parsed pair is set as text, in order; `MergedUntouched` and `MergedLast` state the result key by key |
| Storage.MergedUntouched | src/storage/persistent.cpp:34-39 | a key no parsed pair names keeps its value |
| Storage.MergedLast | src/storage/persistent.cpp:34-39 | a key holds the text of the last parsed pair that names it |
| Storage.Persistent.constructor | src/storage/persistent.h:12-34 | the image is `"MF1"` then zeros; no settings |
| Storage.Persistent.Clear | src/storage/persistent.cpp:7-17 | all 512 EEPROM bytes become 0 |
| Storage.Persistent.LoadConfig | src/storage/persistent.cpp:19-40 | the image becomes `Loaded` of the EEPROM, and the parsed pairs are merged into the settings in order |
| Storage.Persistent.CopyIn | src/storage/persistent.cpp:27-29 | bytes 3 to 511 are copied; bytes 0 to 2 are kept |
| Storage.Persistent.SaveConfig | src/storage/persistent.cpp:42-60 | as written: the image is serialised and the EEPROM gets its first `4 + strlen` bytes, keeping the rest |
| Storage.Persistent.SaveConfigTerminated | src/storage/persistent.cpp:42-60 | corrected: the same, writing one more byte, the terminator |
| Storage.Persistent.WriteOut | src/storage/persistent.cpp:53-55 | the first `size` image bytes go to the EEPROM; the rest are kept |
| Storage.Persistent.Serialise | src/storage/persistent.cpp:44-47 | the `memset` and print loops leave the identifier field and `Area(text)` |
| Storage.Persistent.GetText | src/storage/persistent.cpp:62-65 | the stored text, or the library's conversion |
| Storage.Persistent.SetText | src/storage/persistent.cpp:67-70 | stores the text under the key |
| Storage.Persistent.GetNumber | src/storage/persistent.cpp:72-75 | the stored number, or the library's conversion |
| Storage.Persistent.SetNumber | src/storage/persistent.cpp:77-80 | stores the number under the key |

## Left out

- Network, RTOS and hardware are outside the model: AsyncTCP, AsyncUDP, WiFiClient and PubSubClient calls, DNS, the FreeRTOS queue, the UDP task, FreeRTOS tasks and semaphores themselves, timers, `delay`, `malloc`/`free` and the sensor drivers. Their results are parameters.
- Polling loops (the legacy NTP wait, the Weather Underground socket loop) are modelled on a finite trace of polls that is required to settle; a device that never answers and never times out is not modelled.
- The body of the Weather Underground socket loop is not modelled (`Content-Length` search, `jsonBufferSize = length * 1.5`, the parse). What the first readable turn found is a parameter.
- ArduinoJson is not part of this model: field access in `conditions.cpp`, `printTo` for the MQTT payload and the settings, and `parseObject` in `loadConfig`. The printed text, the parsed pairs and the conversions `get` applies to other stored types are parameters.
- `Storage.Persistent.GetNumber`: the conversion of a stored text to `uint16_t` is the `converted` parameter.
- EEPROM `begin`, `commit` and `end` are not modelled.
- TimeLib (`hour()`, `now()`, `setTime`, day and month names) and Timezone's CET/CEST `toLocal` are parameters.
- Floating-point readings are `real`; `round()` in the forecast column and the humidity truncation in the air-quality sensor are not modelled.
- Fonts, text coordinates, the OLED calls, `drawOtaProgress`, `printConditions` and the header overlay's clock text are not modelled; only the decisions the display code makes are.
- `Display.WeatherDisplay.Update`: `progress` is unbounded, so the C++ `int` overflow after 2^31 boot steps is not modelled; `wifiQuality` is kept as `int` (the value is within 0..100).
- `WundergroundConditions.Conditions.GetForecastForPeriod`: requires `period >= 0`. The source has no lower bound check, and a negative period would read before the array.
- HttpResponse.ParseResponseSpec: the body and header values are C strings cut at the end of the chunk; as written the source reads them on into the memory after the chunk (see Findings), which `ParseResponseAsWritten` models for the body only.
- HttpResponse.ParseRender: states the body as the chunk holds it; what the source as written reads is stated by `ParseRenderAsWritten`.
- HttpResponse.HeaderFieldWithoutColon: the value read two characters past a line without `':'` is cut at the end of the chunk, where the source's `strlen` can run on into the memory after it.
- Http.ParseResponse: the in-place method follows `ParseResponseSpec`, so it has the same cut of body and values at the end of the chunk.
- Http.FirstChunk: the received count is the length of the body cut at the end of the chunk; as written it is the length of the `String(line)` that runs on past it.
- Http.Client.OnData: on the first chunk the byte count comes from `FirstChunk`, with the same cut at the end of the chunk.
- Arduino.Atol: unbounded, so the overflow of C `atol` on a `Content-Length` of more than nine or ten digits (src/http/http_client.cpp:82), and of `toInt` on a port, is not modelled.
- Display.DayLabel: Arduino `String` works on bytes but the model works on Dafny characters, so `substring(0, 3)` takes three characters where the source takes three bytes; the two differ for day names outside ASCII. `ToLower` and `ToUpper` change ASCII letters only, as the C locale does.
- `Http.Client.OnData`: requires chunks after the first to be shorter than 4096 bytes, the size of the copy buffer; the source does not check it.
- `Ntp.Client.OnPacket`: requires replies of at least 44 bytes; the source reads bytes 40 to 43 without a length check.
- `Http.Client.constructor`: the response's status code starts at 0, as static zero-initialisation gives; the source's constructor does not set it.
- The `onError` handler of the HTTP client only logs and is not modelled.
- `WiFiManager::isConnected` is the `online` parameter of `Station.WeatherStation.Loop`. Each `loop` reads one link status and one `millis()` value.
- The static handler list of the Wi-Fi manager is a field of the manager.
- `Mqtt.Publisher.Loop`: the broker's `connected()` is read once per tick; `reconnect()`'s own result is not modelled, only that it is called.
- The publish callback the station passes only logs, and is not modelled.
- NTP callbacks can arrive from the UDP task at any time. In the station, the callback answer before `update` returns is an `Option` parameter; a later answer is not modelled.

## Findings

| source | as written | input that shows it | evidently intended | confidence | as-written member | corrected member |
|---|---|---|---|---|---|---|
| src/http/http_client.cpp:119 | the scan bound `len - 4` is computed on `size_t`, so a chunk shorter than 4 bytes gives a bound near 2^32 and the loop reads past the chunk | any first chunk of 0 to 3 bytes, e.g. `"HT"` | a chunk shorter than 4 bytes is not scanned | not executed | HttpResponse.ScanBoundAsWrittenOverruns | HttpResponse.ShortChunkNoBody |
| src/http/http_client.cpp:155 | `res.body = String(line)` reads a C string out of the chunk AsyncTCP delivers, which is not NUL-terminated, so a body that runs to the end of the chunk goes on into the memory after it | a first chunk `HTTP/1.1 200 OK\r\nA: b\r\n\r\nhi` followed in memory by `X` and then NUL gives the body `hiX` | the body is the rest of the chunk, as the copy with its own terminator in the later-chunk branch at lines 86-88 gives | not executed | HttpResponse.ParseRenderAsWritten | HttpResponse.ParseRender |
| src/storage/persistent.cpp:50-55 | `saveConfig` writes `4 + strlen(jsonString)` bytes and never the NUL after the text, so a shorter configuration saved over a longer one reads back with the old tail | an EEPROM holding an older, longer JSON text, so the byte at `4 + strlen` of the new text is not NUL | the text read back after a save is the text saved | not executed | Storage.SaveThenLoadAsWritten | Storage.SaveThenLoad |
