# chairgw session core in Dafny

A model of the ingestion core of the chair gateway. Environmental-control motes
(seat heaters, fans and climate sensors) send UDP/IPv6 datagrams to the gateway.
Each datagram holds a three-byte read pointer into the mote's circular log,
followed by sixteen bit-packed four-byte records. For each datagram, the gateway:

- keeps a per-mote session that tracks the pointer and a relative device clock;
- decodes the records into readings and boot reports;
- answers with a seven-byte release packet, so the mote can advance its log.

The model is purely functional:

- `Records.Decode` turns four bytes into a `Record` variant.
- `Sessions.ApplyRecord` gives the effect of one record on an immutable `Session`.
- `Sessions.DecodeAll` folds `ApplyRecord` over a batch of records.
- `Sessions.Resync` is the resync controller.
- `Sessions.Process` handles one datagram. It returns the new session, the events
  it emits and the release bytes.
- `Gateway.HandlePacket` adds the serial extraction and the session registry.

Publications to the time-series store and the boot-record insert into the
relational store are modelled as a list of `Event`s. The observer's clock is
passed in as parameters (`wallMs`, `nowSecs`).

Modules, one per file:

- `Bytes` (bytes.dfy): Go's fixed-width integers, `uint8` truncation, and little-endian layouts.
- `Records` (records.dfy): the record tag switch, the field decoders, and an encoder that is the inverse of the decoder.
- `Ack` (ack.dfy): the release packet.
- `Sessions` (sessions.dfy): session state, the record loop, the resync controller and `Process`.
- `Gateway` (gateway.dfy): serial numbers, the registry and per-packet handling.

Notes on behaviour of the code that the model reproduces:

- A short datagram does not crash the handler unless it is shorter than its
  three-byte header. The record loop slices the datagram up to its capacity,
  not its length. The receive loop reads every datagram into a fresh, zeroed
  2048-byte buffer (main.go:312, 319). So the record bytes past the end of a
  short datagram read as zero, and each decodes as a THO record with all fields
  zero (`Sessions.ShortDatagramReadsEmptyRecords`). For this reason `Process`
  requires only `|msg| >= 3`. Indexing the header of a shorter datagram panics,
  which `Gateway.HandlePacket` reports as `Panicked`.
- The record `02 00 40 00` decodes to raw humidity 2049 and raw temperature 0
  (main.go:173-174), so it publishes humidity and suppresses temperature
  (`Sessions.ThoWithZeroTemperature`).
- The Battery record's relative-time field is the low three bits of the first
  byte and all of the second byte. Bit 3 of the first byte is the battery-ok flag.
- The header and the pointer in the release packet are always three bytes wide.

## Model

| member | source | states |
|---|---|---|
| `Bytes.Le24` | main.go:120 | The header pointer is below 2^24, and its low, middle and high bytes are the three header bytes. |
| `Bytes.Le24OfLowBytes` | main.go:268 | The three `uint8` shifts of a pointer, read back little-endian, give the pointer modulo 2^24. |
| `Bytes.Le32OfLowBytes` | main.go:267-269 | The four `uint8` shifts of a Unix time, read back little-endian, give the time modulo 2^32. This holds for negative times too. |
| `Ack.AckPacket` | main.go:265-274 | The release packet is 7 bytes. The first three encode the pointer modulo 2^24. The last four encode the observer's seconds modulo 2^32. |
| `Ack.AckEchoesHeader` | main.go:268-269 | Re-encoding a pointer read from three header bytes gives back exactly those bytes. |
| `Records.KindOf` | main.go:150-262 | The first-byte ranges of each variant are 00-3F THO, 40-7F Settings, 80-BF Unknown, C0-CF Battery, D0-DF Boot, E0-EF Timestamp and F0-FF Blank. Every byte selects exactly one variant. |
| `Records.Decode` | main.go:149-261 | The decoded variant is the one the first byte selects, and every field fits its bit width (see `WellFormed`). |
| `Records.DecodeTimestamp` | main.go:156 | The absolute timestamp is below 2^28. |
| `Records.DecodeTho` | main.go:167-174 | The delta is below 8, the raw humidity is below 4096 and the raw temperature is below 16384. |
| `Records.DecodeSettings` | main.go:200-204 | The delta is below 4, and all four settings are at most 127, even though they are computed with wrapping `uint8` arithmetic. |
| `Records.DecodeBattery` | main.go:217-223 | The delta is below 2048, and the voltage is a signed 16-bit value. |
| `Records.DecodeBoot` | main.go:232-234 | The version is below 16, the reset count is below 64 and the image identifier is below 2^18. |
| `Records.Int16` | main.go:223 | The two's-complement reading of a 16-bit pattern lies in [-32768, 32768) and agrees with the pattern modulo 2^16. |
| `Records.SettingsFieldsDoNotWrap` | main.go:201-204 | Each `uint8` setting equals the same formula evaluated in unbounded integers, so no sum or shift overflows. |
| `Records.EncodeDecode` | main.go:149-261 | The decoder loses no bits: encoding the decoded record gives back all four bytes. |
| `Records.DecodeEncode` | main.go:149-261 | Every well-formed record is the decoding of its encoding, so decoding is a bijection onto well-formed records. |
| `Records.ZeroRecordIsEmptyTho` | main.go:162-174 | Four zero bytes decode to a THO record with delta 0, unoccupied, raw humidity 0 and raw temperature 0. |
| `Sessions.NewSession` | main.go:81 | A new session is unsynced, has no time reference, has never had one, and has counted no corrupt records. |
| `Sessions.NewSessionValid` | main.go:81 | A new session satisfies the session invariant `Valid`. |
| `Sessions.GetTime` | main.go:72-76 | The wall time is a whole number of seconds in milliseconds. It is the device time plus the 2015 epoch offset, and it never overflows `uint64`. |
| `Sessions.GetTimeMonotonic` | main.go:72-76 | A later device time gives a strictly later wall time. |
| `Sessions.ApplyRecord` | main.go:150-262 | Blank and Unknown add exactly 1 to the corrupt count and change nothing else. A Timestamp sets the clock and both time flags, whatever the state before, and publishes only the cross-check. THO, Settings and Battery advance an anchored clock modulo 2^32 by their delta, and are dropped without any change when there is no time. An anchored time-dependent record publishes the cross-check first. The rest of its events are stated as a set of exact size, and their order is stated by the event helpers below. THO publishes its occupancy, its humidity only when it is non-zero, and its temperature likewise, and nothing else. Settings publishes exactly its four settings, each on its own stream, and Battery exactly its voltage and its ok flag. Boot is always persisted, with node time 0 when there is no time, and it never moves the clock. With time, its row is followed by the cross-check, then its reset count and its firmware version as a set; without time it publishes nothing else. Without time nothing is stamped with device time. Every reading carries the record's own wall time. |
| `Sessions.ThoEvents` | main.go:177-194 | A THO record publishes the cross-check first, then its occupancy, then its humidity exactly when the raw humidity is non-zero, then its temperature exactly when the raw temperature is non-zero, in that order. Nothing else is published. Every reading is stamped with the record's wall time. |
| `Sessions.SettingsEvents` | main.go:207-211 | A Settings record publishes five events: the cross-check first, then seat heat, back heat, seat fan and back fan in that order, each on its own stream, all stamped with the record's wall time. |
| `Sessions.BatteryEvents` | main.go:228-230 | A Battery record publishes three events in order: the cross-check, its voltage on the battery stream, and its ok flag as 0 or 1, both stamped with the record's wall time. |
| `Sessions.BootEvents` | main.go:256-258 | A Boot record with time publishes three events in order: the cross-check, its reset count and its firmware version, stamped with the session's wall time. |
| `Sessions.Advance` | main.go:175 | The `uint32` clock moves to the sum modulo 2^32, and no other field of the session changes. |
| `Sessions.DeltaBounded` | main.go:167-226 | A time-dependent record moves the clock forward by exactly its delta modulo 2^32. The delta is at most 7 for THO, 3 for Settings and 2047 for Battery. |
| `Sessions.DecodeAll` | main.go:146-263 | The record loop never moves the pointer. It adds exactly the number of blank and unknown records to the corrupt count, so the count never decreases. Afterwards, either time flag is set exactly when it was set before or the batch contains a Timestamp record. An empty batch changes nothing and publishes nothing. |
| `Sessions.DecodeAllSingleton` | main.go:147-262 | A batch of one record has exactly that record's effect on the session and publishes exactly its events. Together with `DecodeAllAppend`, every record acts in turn and its events come out in record order. |
| `Sessions.DecodeAllAppend` | main.go:147-263 | Decoding a batch split in two is decoding the parts in sequence, with their events concatenated. |
| `Sessions.NoReadingsWithoutTime` | main.go:147-263 | A session without a time reference, given records that include no Timestamp, publishes no reading. Its clock and time flags stay as they were. |
| `Sessions.NothingPublishedBeforeFirstTimestamp` | main.go:147-263 | In a batch that starts without time, the records before the first Timestamp emit a prefix of the batch's events that contains no reading. |
| `Sessions.RecordBytes` | main.go:148 | Record i is bytes 3+4i to 3+4i+4 of the datagram when the datagram is long enough. A record lying wholly past the end of the datagram is four zero bytes. A record straddling the end takes its leading bytes from the datagram, and the rest are zero. |
| `Sessions.BatchRecords` | main.go:147-149 | A batch is sixteen records, each the decoding of its four bytes and each well-formed. |
| `Sessions.ShortDatagramReadsEmptyRecords` | main.go:148 | A record wholly past the end of a short datagram decodes as an all-zero THO record. |
| `Sessions.HeaderPtr` | main.go:120 | The header pointer is a 24-bit value. |
| `Sessions.NextPtr` | main.go:132 | The expected next pointer lies in the circular log [0, 0x1e0000) and never equals the current pointer. So the in-order and duplicate cases are disjoint. |
| `Sessions.Resync` | main.go:124-145 | The resync step always adopts the incoming pointer. The decision is Unsynced exactly when the pointer is -1, InOrder exactly when the incoming pointer is (pointer + 16) mod 0x1e0000, and Duplicate exactly when it equals the current pointer. A duplicate leaves the session unchanged. Time survives only in order or on a duplicate; Unsynced and Desync clear it. The clock, the sticky flag and the corrupt count are untouched. |
| `Sessions.Process` | main.go:119-275 | The session ends at the header pointer. The pointer is always logged first. A duplicate is acknowledged but not decoded, and leaves the session unchanged. Any other datagram has its sixteen records decoded: the corrupt count grows by exactly the number of blank and unknown records, and afterwards the session has time exactly when the datagram was in order with time kept, or the batch holds a Timestamp record. After the logged pointer it publishes exactly what the record loop publishes, starting from the session the resync step leaves, and it ends in exactly the session the record loop leaves, clock included. The release packet echoes the three header bytes and then the time modulo 2^32. The corrupt count grows by at most 16. The sticky time flag stays set. The session invariant is preserved. |
| `Sessions.RedeliveryIsIdempotent` | main.go:126-146 | Delivering the same datagram twice decodes it once. The second delivery leaves the session unchanged, publishes only the pointer log, and releases the same pointer. |
| `Sessions.NextDatagramInOrder` | main.go:132-136 | After any datagram, the next pointer in log order is accepted in order, and the time reference is kept. |
| `Sessions.ResyncWithoutTimestampPublishesNothing` | main.go:124-166 | Take a first-contact or desync datagram whose batch has no Timestamp record. It publishes no reading, ends without time, and leaves the clock unchanged. |
| `Sessions.ThoWithZeroTemperature` | main.go:162-194 | `02 00 40 00` decodes to an unoccupied THO with raw humidity 2049 and raw temperature 0. With time, it publishes the cross-check, occupancy and humidity readings, and not temperature. |
| `Gateway.SerialOf` | main.go:278 | The serial's high byte is address byte 14 and its low byte is address byte 15. |
| `Gateway.SerialIdentifiesMote` | main.go:278 | Two addresses give the same serial exactly when their last two bytes agree. |
| `Gateway.GetOrCreate` | main.go:279-285 | A known mote gets its existing session, and a new mote gets a fresh session. |
| `Gateway.HandlePacket` | main.go:276-291 | A datagram shorter than the header panics. Otherwise the registry gains the sender, a known sender's session is processed from where it was, a new sender's from a fresh session, the sender's session follows its pointer, the events and the release are the ones that session's processing produces, the release echoes the header, and no other mote's session changes. The registry invariant is preserved. |
| `Gateway.GatewayRedeliveryIsIdempotent` | main.go:280-287 | A datagram delivered twice is decoded once. The second delivery finds the session the first left, changes no session, and publishes only the pointer log. |
| `Gateway.FirstContactAcceptsAnyPointer` | main.go:126-130 | The first datagram from a mote is accepted at whatever pointer it reports, without a time reference. Its whole batch is decoded from that session, and the events are the logged pointer followed by the batch's events. |

## Left out

- Stream-identifier resolution over HTTP at session creation (main.go:82-104) and the `gilesInsert` HTTP call (main.go:61-71). This is network I/O. A publication is an `Event` naming its stream, and the per-session map from names to identifiers is not modelled.
- The boot-record insert into MySQL (main.go:243-250). This is a foreign database call. It becomes a `BootPersisted` event carrying the serial, reset count, image identifier plus 0x50000, version, and node time in milliseconds. The hexadecimal string formatting of serial and image is not modelled.
- Panics on failed HTTP, database or socket calls (main.go:64-70, 244-249, 270-273). Collaborator calls are taken to succeed.
- The 100 ms background publisher of corrupt-record counts and clock offsets (main.go:105-115). It is a concurrent timed task.
- Floating-point conversions: humidity, temperature, battery voltage, clock offset and the observer clock readings (main.go:110, 181, 189, 225). Readings carry the raw integers. The value of the wall-in-remote-time cross-check reading is the observer's clock and is left out; only its timestamp is kept.
- The session-map lock, the socket lock and the goroutine per packet (main.go:265, 274, 279-285, 319). Each datagram is modelled as one atomic step, which is the serial order the code does not enforce.
- The socket setup and read loop (main.go:295-321). The only fact used from them is the zeroed buffer of each read (main.go:312).
- The observer clocks `GetWallTime` and `time.Now` (main.go:77-79, 267). They are the parameters `wallMs` and `nowSecs`.
- Log output (`fmt.Printf` throughout).
- `Sessions.DecodeAll`: the corrupt count is a `nat`, so the wrap-around of Go's 64-bit `int` is not modelled. It cannot be reached at 16 records per datagram.
