# rocket-telemetry event core in Dafny

A model of the event core of the water-rocket telemetry system:

- **The ESP32 firmware.**
  - The per-iteration tick of `loop()` decides which events exist: `telemetry_started`, `telemetry`, `telemetry_stopped`, `idle`.
  - `send_event` numbers each event and fans it out to the registered push-channel clients. Disconnected or saturated clients are dropped on the way.
  - The `/start`, `/stop` and `/calibrate` handlers and the two button callbacks only set the flags that the tick reads.
- **The mock event source.** A Rocket server that stands in for the device. It has:
  - the sensor-range enumerations, with their discriminants, form values and defaults;
  - a shared `ServerState` and its `send_event`;
  - the `/start`, `/stop` and `/parameters` handlers;
  - one iteration of the generator loop, with its run-relative `time`.
- **The build step that embeds the web assets.**
  - `bin2c` renders bytes as a C array definition plus a length constant.
  - The build hook derives a C identifier and a header path from each asset's file name, and regenerates the header only when it is missing or older than the asset.

Files:

- `Basics.dfy`: `Option`, and decimal rendering of naturals with its round trip. The mock renders event ids and discriminants in decimal.
- `Events.dfy`: the event kinds and their wire tags. It also holds the session-ordering predicate `Ordered`, which both servers are proved to satisfy.
- `Device.dfy`: the firmware core (`src/rocket-telemetry.cpp`).
- `MockServer.dfy`: the mock event source (`mock_event_source/src/main.rs`).
- `Bin2C.dfy`: `bin2c` (`src/bin2c.py`).
  - A method with loop invariants renders the array.
  - A closed-form layout (`Listing`) is its reference definition.
  - A reader of the rendered initializer (`ParseHexBytes`) gives the round trip.
- `IncludeScript.dfy`: the build hook (`extra_script.py`). It covers the name sanitizer, the header and asset paths, the rebuild test and `make_compressed_include_h`.

Each operation is a function or method. It takes the state it reads and returns the new state, together with the events it publishes. `Device.Run` and `MockServer.Run` fold any sequence of inputs (ticks, requests, button presses, client connections, changes to a registered client) over a state. The trace lemmas hold for every such sequence.

Four facts about the code shape the model:

- The firmware keeps no backlog of past events and replays nothing to a reconnecting client. `send_event` delivers each event once, to the clients that are live at that moment, and drops the others from the list.
- Parameter changes are never deferred. The mock's `/parameters` handler overwrites the fields and announces them at once, whatever the session state. The firmware has no `/parameters` handler at all.
- Enumerated parameters are announced as JSON numbers (`as u32`), not as strings.
- The two servers number events differently:
  - the firmware and the mock's `send_event` increment the counter first, so the first id is 1;
  - the mock's generator tags an event with the counter and increments it afterwards. So from start-up its first event is id 0 when no `/parameters` request precedes it, and an id can repeat (`MockServer.IdsCanRepeat`).

## Model

| member | source | states |
|---|---|---|
| Basics.NatToDecimal | mock_event_source/src/main.rs:97 | An id is rendered as a non-empty string of decimal digits with no leading zero. |
| Basics.DecimalRoundTrip | mock_event_source/src/main.rs:97 | Reading back the decimal rendering of a number gives the number. |
| Basics.DecimalInjective | mock_event_source/src/main.rs:97 | Distinct ids are rendered as distinct strings. |
| Events.TagInjective | mock_event_source/src/main.rs:308-318 | The wire tags `telemetry`, `idle`, `telemetry_started`, `telemetry_stopped` and `parameters` name distinct kinds. |
| Events.OrderedAppend | src/rocket-telemetry.cpp:212-214 | A concatenation is ordered iff its first part is ordered from the starting phase and its second part is ordered from the phase the first part ends in. |
| Events.PhaseAfterAppend | src/rocket-telemetry.cpp:296-298 | The phase after a concatenation is the phase after the second part, started from the phase after the first. |
| Events.OrderedAt | src/rocket-telemetry.cpp:212-214 | In an ordered stream, every event is permitted in the phase set by the events before it. |
| Events.NoIdleInsideRun | src/rocket-telemetry.cpp:212-214 | In an ordered stream, no `idle` event follows a `telemetry_started` until the next `telemetry_stopped`. |
| Events.NoTelemetryOutsideRun | src/rocket-telemetry.cpp:296-298 | In an ordered stream, no `telemetry` event follows a `telemetry_stopped` until the next `telemetry_started`. |
| Events.LifecycleAlternates | src/rocket-telemetry.cpp:206-215 | In an ordered stream, two consecutive lifecycle events are never the same: started and stopped alternate. |
| Events.FirstLifecycleIsStart | src/rocket-telemetry.cpp:206-215 | From the idle phase, the first lifecycle event is `telemetry_started`. |
| Device.LiveClientsMembers | src/rocket-telemetry.cpp:192-203 | After a send, a client is still registered iff it was registered before and was connected with fewer than 32 packets queued. |
| Device.LiveClientsIdempotent | src/rocket-telemetry.cpp:192-203 | Sweeping the already-swept list removes nothing more. |
| Device.LiveIndicesExact | src/rocket-telemetry.cpp:192-203 | The sent-to positions are exactly the live clients' positions, in strictly ascending order. |
| Device.Sweep | src/rocket-telemetry.cpp:192-203 | The `remove_if` pass: the kept list is the live clients in order, and each delivery goes to a live client's position with the message, tag and id. |
| Device.SendEvent | src/rocket-telemetry.cpp:179-204 | The counter is incremented before sending; a NULL message is sent as ""; the kept clients and the deliveries are the live ones. |
| Device.SendEventOncePerLiveClient | src/rocket-telemetry.cpp:192-203 | Every live client receives the event exactly once, a dropped client receives nothing, and sends follow registration order. |
| Device.DoTelemetry | src/rocket-telemetry.cpp:206-254 | If no run is going yet, `telemetry_started` is published first; then comes one `telemetry` event carrying the JSON. The run is marked going and the counter advances by the number published. |
| Device.TelemetryBatch | src/rocket-telemetry.cpp:206-254 | A telemetry tick's events have consecutive ids continuing the counter, and only the reading carries the JSON. |
| Device.DoIdle | src/rocket-telemetry.cpp:287-307 | A run that was going is stopped and announced with `telemetry_stopped`. A heartbeat follows iff the tick number is a multiple of 10. |
| Device.IdleBatch | src/rocket-telemetry.cpp:287-307 | An idle tick publishes no reading, and its events carry empty messages with consecutive ids. |
| Device.Housekeeping | src/rocket-telemetry.cpp:153-171 | The 32-bit tick counter wraps at 2^32. After tick 20 the backlight follows the request; until then it is left alone. A pending calibration is consumed. |
| Device.Tick | src/rocket-telemetry.cpp:153-177 | The batch a tick publishes for each combination of requested and running. Afterwards the run flag equals the request flag, the ids continue the counter, and only readings carry the JSON. |
| Device.TelemetryOrdered | src/rocket-telemetry.cpp:206-215 | A telemetry tick's batch is ordered from the current phase and leaves the phase at running. |
| Device.IdleOrdered | src/rocket-telemetry.cpp:287-307 | An idle tick's batch is ordered from the current phase and leaves the phase at idle. |
| Device.TickOrdered | src/rocket-telemetry.cpp:172-176 | Every tick publishes an ordered batch and records the phase that the batch ends in. |
| Device.HandleStart | src/rocket-telemetry.cpp:426-434 | `/start` leaves telemetry requested. It answers "Telemetry already running" and changes nothing if it already was. |
| Device.HandleStop | src/rocket-telemetry.cpp:436-444 | `/stop` leaves telemetry unrequested. It answers "Telemetry already stopped" and changes nothing if it already was. |
| Device.StartStopIdempotent | src/rocket-telemetry.cpp:426-444 | A second `/start` (or `/stop`) changes nothing and reports that it was already done. |
| Device.StartStopInverse | src/rocket-telemetry.cpp:426-444 | A `/stop` undoes a `/start` that changed the state, and the reverse. |
| Device.HandleCalibrate | src/rocket-telemetry.cpp:446-449 | `/calibrate` only sets the calibration request and answers "Calibration done". |
| Device.Button1Pressed | src/rocket-telemetry.cpp:102-106 | Button 1 requests a calibration, flips the telemetry request and changes nothing else. |
| Device.Button1Twice | src/rocket-telemetry.cpp:102-106 | Two presses of button 1 leave the telemetry request where it was, with a calibration pending. |
| Device.Button2Pressed | src/rocket-telemetry.cpp:107-110 | Button 2 flips the requested backlight state and changes nothing else. |
| Device.Connect | src/rocket-telemetry.cpp:137-144 | A connecting client is appended to the registered list, and nothing else changes. |
| Device.UpdateClient | src/rocket-telemetry.cpp:194-196 | Between ticks the transport may change one registered client's connection flag or queue count; the other clients, their order and the firmware's globals are untouched, and a position past the end changes nothing. |
| Device.LiveClientsAppend | src/rocket-telemetry.cpp:192-203 | The sweep of two lists one after the other is the sweep of the first followed by the sweep of the second. |
| Device.LiveClientsShorter | src/rocket-telemetry.cpp:194-197 | A registered client that is disconnected or saturated makes the swept list strictly shorter. |
| Device.ConnectedLiveIsKept | src/rocket-telemetry.cpp:192-203 | A client that connects live stays registered, after the earlier live clients, through the next tick that publishes. |
| Device.ChangedClientDropped | src/rocket-telemetry.cpp:194-197 | A registered client that has disconnected or reached 32 queued packets is gone after the next tick that publishes, the list shrinks, and every client left is live. |
| Device.ApplyOrdered | src/rocket-telemetry.cpp:153-177 | Any single input publishes an ordered batch with consecutive ids continuing the counter. |
| Device.RunOrdered | src/rocket-telemetry.cpp:153-177 | Over any input sequence, the whole event stream is ordered from the starting phase and ends in the phase the state records. |
| Device.RunNumbered | src/rocket-telemetry.cpp:179-180 | Over any input sequence, the published ids are consecutive from the counter, and the counter ends at the last id. |
| Device.SessionFromBoot | src/rocket-telemetry.cpp:51-64 | From the boot values of the globals, any run publishes an ordered stream with ids 1, 2, 3, ... |
| Device.StartTicksStop | src/rocket-telemetry.cpp:426-444 | A start, two ticks, a stop and one more tick publish `telemetry_started`, two readings and then `telemetry_stopped`, with consecutive ids. |
| MockServer.AccelFieldRoundTrip | mock_event_source/src/main.rs:21-37 | Each acceleration range is accepted as a form field under the decimal form of its discriminant. |
| MockServer.GyroFieldRoundTrip | mock_event_source/src/main.rs:39-55 | Each gyro range is accepted under the decimal form of its discriminant. |
| MockServer.FilterFieldRoundTrip | mock_event_source/src/main.rs:57-79 | Each filter bandwidth is accepted under the decimal form of its discriminant. |
| MockServer.DiscriminantsInjective | mock_event_source/src/main.rs:21-79 | Distinct variants have distinct discriminants. |
| MockServer.Snapshot | mock_event_source/src/main.rs:206-213 | The announced ranges are always among the enumerations' discriminants. |
| MockServer.SnapshotDeterminesParameters | mock_event_source/src/main.rs:206-213 | Two states announce the same parameters iff their six parameter fields agree. |
| MockServer.SendEvent | mock_event_source/src/main.rs:95-100 | The counter is incremented, and the event is tagged with the new value. |
| MockServer.Start | mock_event_source/src/main.rs:157-165 | `/start` leaves telemetry requested, with the two replies as in the firmware. |
| MockServer.Stop | mock_event_source/src/main.rs:167-175 | `/stop` leaves telemetry unrequested, with the two replies as in the firmware. |
| MockServer.StartStopIdempotent | mock_event_source/src/main.rs:157-175 | A second `/start` (or `/stop`) changes nothing and says so. |
| MockServer.Overwrite | mock_event_source/src/main.rs:187-205 | Each supplied parameter replaces the stored one, each absent parameter is kept, and the session flags and counter are untouched. |
| MockServer.SetParameters | mock_event_source/src/main.rs:177-216 | `/parameters` overwrites the fields and announces all six in one `parameters` event with the next id. The response body is empty. |
| MockServer.SetParametersIdempotent | mock_event_source/src/main.rs:177-216 | Repeating a `/parameters` request changes no parameter again and announces the same values under the next id. |
| MockServer.EmptyQueryOnlyAnnounces | mock_event_source/src/main.rs:187-214 | A request with no fields only announces the current parameters. |
| MockServer.InitialAnnouncement | mock_event_source/src/main.rs:338-349 | At start-up the announced parameters are "0.0", "0.0", "0.0", 8, 500 and 21, as event 1. |
| MockServer.NumberFrom | mock_event_source/src/main.rs:321-326 | The numbering loop tags the events with consecutive ids starting at the current counter, keeping their kinds and payloads. |
| MockServer.GeneratorTick | mock_event_source/src/main.rs:296-327 | One generator iteration publishes the batch for each combination of requested and running. The run start is reset when a run opens, the reading's time is 100 ms per iteration since then, and the ids run from the counter. |
| MockServer.TimeAdvances | mock_event_source/src/main.rs:302-310 | A run's first reading has time 0, and each further iteration adds exactly 100 ms. |
| MockServer.Apply | mock_event_source/src/main.rs:296-327 | Every input keeps the run start at or below the iteration counter. |
| MockServer.GeneratorOrdered | mock_event_source/src/main.rs:296-327 | One generator iteration publishes a batch that is ordered from the current phase and leaves the running flag where the batch's last lifecycle event says. |
| MockServer.ApplyOrdered | mock_event_source/src/main.rs:296-327 | Every input publishes a batch that is ordered from the current phase and ends in the phase the state records. |
| MockServer.RunOrdered | mock_event_source/src/main.rs:296-327 | Over any input sequence, the mock's stream is ordered and ends in the phase the state records. |
| MockServer.IdsCanRepeat | mock_event_source/src/main.rs:321-323 | From start-up, `/start`, `/parameters` and one generator iteration publish id 1 twice. |
| Bin2C.Hex | src/bin2c.py:49 | A byte is rendered as four characters, `0x` and two lower-case hex digits, which read back as the byte. |
| Bin2C.HexDigitRoundTrip | src/bin2c.py:49 | Each hex digit reads back as its value. |
| Bin2C.IdentMatch | src/bin2c.py:34-36 | The name is accepted iff its first character is a letter or underscore. The match length is the longest identifier prefix. |
| Bin2C.OnlyFirstCharChecked | src/bin2c.py:34 | `re.match` is anchored only at the start: "a-b" is accepted and "1ab" is rejected. |
| Bin2C.LineTokens | src/bin2c.py:43-52 | The number of bytes on a full line is the least count at which the line plus one more byte reaches the line size. |
| Bin2C.FlushesAtLineTokens | src/bin2c.py:50-52 | Up to a full line, the line is flushed exactly at the full-line count. |
| Bin2C.DefaultLineHoldsTwelve | src/bin2c.py:43-52 | With line size 80 and indent 4, a line holds 12 bytes. |
| Bin2C.Tokens | src/bin2c.py:48-49 | The pending line text of n bytes is 6n characters long. |
| Bin2C.HexList | src/bin2c.py:53-57 | The bytes' tokens are the comma-separated list followed by one ", ", and the list ends in a hex digit. |
| Bin2C.RStripRemovesTrailing | src/bin2c.py:57 | `rstrip(', \n')` leaves no comma, space or newline at the end and only removes such characters. |
| Bin2C.RStripTail | src/bin2c.py:57 | Stripping removes exactly the trailing run of commas, spaces and newlines after a non-strip character. |
| Bin2C.ListingSplits | src/bin2c.py:48-52 | At every line boundary, the listing is the lines flushed so far followed by the listing of the rest. |
| Bin2C.ListingEndsInHexDigit | src/bin2c.py:56-57 | A non-empty listing ends in a hex digit, so stripping stops at the last byte. |
| Bin2C.LoopFlushes | src/bin2c.py:50-52 | A byte that fills the line flushes it with the indent and a newline, and the next line starts empty at the next boundary. |
| Bin2C.LoopKeeps | src/bin2c.py:48-50 | A byte that leaves room is appended to the pending line. |
| Bin2C.RenderLines | src/bin2c.py:47-52 | After the loop, the text is the header plus every full line, the pending line holds the bytes since the last boundary, and fewer than a full line's worth of bytes remain. |
| Bin2C.CloseListing | src/bin2c.py:53-57 | Adding the last line only if there is room, and then stripping, gives the declaration followed by the listing with its final ", " removed. |
| Bin2C.Bin2C | src/bin2c.py:23-61 | A missing file gives ""; an invalid name gives None; otherwise the result is the C array of the bytes at the clamped line size, followed by the length constant. |
| Bin2C.ParseTokens | src/bin2c.py:48-49 | Reading the rendered tokens gives back the bytes. |
| Bin2C.ParseHexList | src/bin2c.py:53-57 | Reading the last line's list gives back its bytes. |
| Bin2C.ListingRoundTrip | src/bin2c.py:46-57 | Reading the array initializer gives back exactly the input bytes, for every line length and indent. |
| Bin2C.FullLineKeepsSeparator | src/bin2c.py:50-57 | A line flushed full keeps its trailing ", "; only the very last one is stripped. |
| IncludeScript.Sanitize | extra_script.py:13 | The name contains only letters, digits and underscores. It is empty iff the input is. Its first character is kept when alphanumeric and becomes '_' otherwise. It is never longer than the input. |
| IncludeScript.SanitizeIsSqueezedReplace | extra_script.py:13 | The sanitizer equals "replace each non-alphanumeric character with '_', then collapse every run of '_' to one". |
| IncludeScript.SanitizeSingleUnderscores | extra_script.py:13 | The name never holds two underscores in a row. |
| IncludeScript.SanitizeKeepsAlnums | extra_script.py:13 | The alphanumeric characters of the input survive, all of them and in order. |
| IncludeScript.SanitizeFixes | extra_script.py:13 | A name of letters, digits and single underscores is left unchanged. |
| IncludeScript.SanitizeIdempotent | extra_script.py:13 | Sanitizing twice is sanitizing once. |
| IncludeScript.InputPath | extra_script.py:15 | The asset path starts with `src/` and the rest of it is the asset name. |
| IncludeScript.OutputPath | extra_script.py:14 | The header path starts with `src/`, ends with `.h`, and what lies between is the sanitized name. |
| IncludeScript.InputPathExactly | extra_script.py:15 | A path is the asset's path iff it is `src/` followed by that asset name: the asset name can be read back from its path. |
| IncludeScript.OutputPathExactly | extra_script.py:14 | A path is the header's path iff it is `src/`, the sanitized name and `.h`: the variable name can be read back from the header path. |
| IncludeScript.MinifiedScriptName | extra_script.py:13 | A `base-vA.B.C.min.js` asset name sanitizes to `base_vA_B_C_min_js`. |
| IncludeScript.ChartAssetName | extra_script.py:24 | `chart-v3.9.1.min.js` becomes `chart_v3_9_1_min_js` in `src/chart_v3_9_1_min_js.h`, the header the firmware includes. |
| IncludeScript.FileSaverAssetName | extra_script.py:25 | `FileSaver-v2.0.5.min.js` becomes `FileSaver_v2_0_5_min_js` in `src/FileSaver_v2_0_5_min_js.h`. |
| IncludeScript.IndexAssetName | extra_script.py:26 | `index.html` becomes `index_html` in `src/index_html.h`. |
| IncludeScript.OutputPathsCollide | extra_script.py:13-14 | Distinct assets can share a header path: "a.b" and "a-b" both map to `src/a_b.h`. |
| IncludeScript.SanitizedNameAccepted | extra_script.py:13-21 | `bin2c` accepts the sanitized name iff the asset name is non-empty and does not start with a digit, and then the match covers the whole name. |
| IncludeScript.CheckFreshness | extra_script.py:18 | The header is regenerated iff it is missing or strictly older than the asset. The asset's time is read only when the header exists, and that read fails if the asset is missing. |
| IncludeScript.RebuildSettles | extra_script.py:18 | A header written no earlier than the asset's last change is not regenerated again. |
| IncludeScript.SameTimeIsFresh | extra_script.py:18 | A header exactly as old as its asset is kept: the comparison is strict. |
| IncludeScript.TouchForcesRebuild | extra_script.py:18 | An asset changed after its header forces a rebuild. |
| IncludeScript.MakeIncludeH | extra_script.py:11-21 | A fresh header is kept. A header whose asset is gone raises. Otherwise the header is opened and truncated, then filled with `bin2c`'s output at line size 80 and indent 4. A missing asset leaves it empty, and an empty name or one starting with a digit leaves it empty and then raises. |

## Left out

- Sensor acquisition and the telemetry JSON: the JSON of a tick is a parameter of `Device.Tick`. The maximum-altitude and acceleration tracking, the display, GPIO, timers and `delay` are not modelled. They are floating point or hardware I/O.
- The zero-pressure reading taken on calibration is a sensor read. The model only consumes the calibration request.
- Wi-Fi, DNS, the captive-portal redirect (`handle_not_found`) and static file serving are not modelled. They are network I/O with no effect on the event stream.
- The AsyncEventSource library is not part of this model. A client is a record of its connection flag and its queued-packet count. The transport changes that record between ticks through the `ClientChanges` input (`Device.UpdateClient`): a disconnect, or a queue that grows or drains. The model does not compute the queue count from the packets each send enqueues; it is an input. The queue bound of 32 is the library's ESP32 default. Changes and connections that happen during a single send are not modelled.
- Device.SendEvent: `event_id` is a `uint64_t`; the model uses an unbounded counter, because 2^64 events are out of reach.
- MockServer.SendEvent: the mock's `u64` counters are likewise unbounded.
- Interrupt concurrency between the button callbacks and `loop()` is not modelled. Each callback is an atomic input that interleaves between ticks.
- The mock's broadcast channel, lock, 100 ms timer, subscriber streams and lag handling are not modelled. They are transport and scheduling.
- The mock's floating-point flight simulation (`futz_with_telemetry`) is not modelled, apart from the integer `time` field.
- Rocket's query parsing is reduced to the per-variant form values. A value no variant accepts is modelled as an absent field, which is how `Option<T>` form fields behave.
- `bin2c`'s file reading, gzip compression, printing and command-line entry point are not modelled. The bytes (already compressed) are a parameter, and `None` stands for "not a regular file".
- IncludeScript.MakeIncludeH: an asset is either missing or a readable regular file. An asset that exists but is not a regular file (a directory, say) passes the modification-time test, then `bin2c`'s `os.path.isfile` check fails, so the script writes an empty header and raises nothing. The model's `Option` cannot express that case.
- Bin2C.Bin2C: `indent` is a natural number. The Python accepts a negative indent, which repeats the space string zero times; that case is not modelled.
- The build hook's `Import("env")` and target printing are not modelled. Neither affects the headers.
- File modification times are parameters (reals), and the order of the three assets is fixed by the script.
