# LIDAR-Lite driver and configuration store, modelled in Dafny

This project models two sequential parts of an ESP32 sensor-node firmware:

- **The Garmin LIDAR-Lite v3HP register driver** (`src/LIDARLite.cpp`): preset configuration, reset, distance acquisition, the busy-monitored register read, and the correlation-record dump.
  - The Arduino Wire bus and the serial console are one object, `I2C.Bus`.
  - The bus appends every transaction and every console line to an ordered `trace`.
  - It answers from a script fixed in advance: `acks` says whether each `endTransmission` is acknowledged, and `replies` gives the bytes sent back to each `requestFrom`.
  - Once a script runs out, the device keeps acknowledging and sends nothing.
  - Each driver operation is a module-level method that takes the bus as a parameter. Its contract gives the new trace, how much of the script it consumed, and what it left in the caller's buffer, all in terms of specification functions (`ReadSpec`, `ReadTrace`, `PresetWrites`, `Emit`, `CorrelationTrace`, …).
  - Lemmas then state what those functions mean: which transactions reach the bus, which lines reach the console, and which values are printed.
- **The configuration handlers** (`src/ConfigHandler.cpp`): `salvarConfiguracoes`, `recuperarConfiguracoes` and `resetarConfiguracoes`.
  - They work on the Preferences store (`Nvs.Preferences`), a map from keys to typed entries.
  - Each handler is a method whose contract ties the new store to a declarative reference function (`Save`, `RecoverState`, `Reset`) and gives its reply.
  - Lemmas state idempotence of the reset, the save-then-recover round trip, recuperar resetting while nothing was saved, and the reply-echo quirk.

`read` is split into four methods: `PollBusyFlag` (the busy-flag loop), `PollStatus` (one poll), `Finish` (everything after the loop) and `CopyReceived` (the copy loop). `Read` calls them in the C++ driver's order. The `goto bailout` becomes a `bailout` flag and a `break` out of the loop. The reading loop of `correlationRecordToSerial` is the method `PrintReadings`.

## Model

| member | source | states |
|---|---|---|
| I2C.Received | src/LIDARLite.cpp:286-288 | `requestFrom(n)` makes at most n bytes available, a prefix of what the device sent; exactly n when the device sent at least n |
| I2C.StepTransactions | src/LIDARLite.cpp:213-217 | a transaction together with its possible "> nack" line contributes just that transaction to the bus |
| I2C.StepLogs | src/LIDARLite.cpp:213-217 | a transaction prints "> nack" exactly once when not acknowledged, never otherwise, and never "> read failed" |
| I2C.StepSamples | src/LIDARLite.cpp:213-217 | a transaction prints no sample value |
| I2C.TransactionsOfEmit | src/LIDARLite.cpp:206-220 | a run of write-style transactions puts exactly those transactions on the bus, in order |
| I2C.LogsOfEmit | src/LIDARLite.cpp:213-217 | a run of transactions prints one "> nack" per unacknowledged endTransmission and no "> read failed" |
| I2C.Bus.constructor | src/LIDARLite.cpp:65 | a fresh bus has an empty trace and has consumed nothing of the script |
| I2C.Bus.Transmit | src/LIDARLite.cpp:208-213 | appends the transaction to the trace, consumes one acknowledgement, returns 0 when acknowledged and non-zero otherwise |
| I2C.Bus.RequestFrom | src/LIDARLite.cpp:286-288 | consumes one reply and returns the bytes then available, trace unchanged |
| I2C.Bus.Println | src/LIDARLite.cpp:216 | appends one diagnostic line to the trace and consumes nothing |
| I2C.Bus.PrintSample | src/LIDARLite.cpp:355-356 | appends the printed value and separator to the trace and consumes nothing |
| LIDARLite.StatusByte | src/LIDARLite.cpp:260-261 | `Wire.read()` after requesting the status byte gives the reply's first byte (0 to 255), or -1 exactly when the reply is empty |
| LIDARLite.BitRead0 | src/LIDARLite.cpp:261 | `bitRead(x, 0)` is 0 or 1 and has the parity of x, so -1 reads as 1 (busy) |
| LIDARLite.PollCount | src/LIDARLite.cpp:247-270 | the number of polls lies between 1 and 10000; every poll before the last read busy; the last poll read ready unless it was the 10000th |
| LIDARLite.Copied | src/LIDARLite.cpp:286-295 | read copies bytes if and only if `Wire.available()` reports numOfBytes bytes after `requestFrom(numOfBytes)` (`Received`), and then exactly those bytes, in order |
| LIDARLite.ReadSpecMeaning | src/LIDARLite.cpp:238-305 | without monitoring a read makes no poll and never bails out; with it, at most 10000 polls, every poll but the last read busy and the last read ready unless it was the 10000th; read bails out exactly at 10000 polls, copying nothing; otherwise it copies `Copied` of the reply that follows the polls |
| LIDARLite.BusyPollsUnique | src/LIDARLite.cpp:247-270 | the loop's stopping rule (stop at the first ready poll or at the 10000th) determines the number of polls uniquely |
| LIDARLite.PollTraceTransactions | src/LIDARLite.cpp:250-260 | n status polls put exactly n status-register requests on the bus |
| LIDARLite.PollTraceLogs | src/LIDARLite.cpp:254-258 | n status polls print one "> nack" per unacknowledged poll and no "> read failed" |
| LIDARLite.ReadTransactions | src/LIDARLite.cpp:238-305 | on the bus a read is its status polls, then the data request of the register unless it bailed out |
| LIDARLite.ReadLogs | src/LIDARLite.cpp:254-303 | a read prints "> read failed" exactly once when it bailed out and never otherwise, plus one "> nack" per unacknowledged transaction |
| LIDARLite.Write | src/LIDARLite.cpp:206-220 | one register write on the bus, followed by "> nack" when not acknowledged |
| LIDARLite.PollStatus | src/LIDARLite.cpp:250-261 | one status poll: the returned busy flag is non-zero exactly when bit 0 of the reply's first byte is set, or when there was no byte (`Wire.read()` gives -1) |
| LIDARLite.PollBusyFlag | src/LIDARLite.cpp:240-270 | without monitoring no polls; with monitoring the number of polls `BusyPolls` fixes; bails out exactly at 10000 polls; otherwise leaves the flag at 0; the trace gains exactly those polls |
| LIDARLite.CopyReceived | src/LIDARLite.cpp:287-295 | the buffer's first numOfBytes bytes become the received bytes in order; the rest is unchanged |
| LIDARLite.Finish | src/LIDARLite.cpp:273-304 | after a bailout only "> read failed" is printed and the buffer is untouched; otherwise one data request, and the buffer is filled only when enough bytes arrived |
| LIDARLite.Read | src/LIDARLite.cpp:238-305 | the trace gains `ReadTrace` of the outcome `ReadSpec`; acknowledgements and replies consumed equal the polls plus the data request; the buffer is `Fill` of the copied bytes (unchanged on bailout or a short reply) |
| LIDARLite.PresetWrites | src/LIDARLite.cpp:91-131 | presets 0 to 5 write exactly three registers, 0x02, 0x04 and 0x1c in that order; any other number writes nothing |
| LIDARLite.PresetsChangeOneRegister | src/LIDARLite.cpp:93-130 | each of presets 1 to 5 differs from preset 0 in exactly one of the three register writes |
| LIDARLite.Configure | src/LIDARLite.cpp:91-131 | the trace gains the preset's writes with their nack lines; one acknowledgement per write; no reply consumed |
| LIDARLite.Begin | src/LIDARLite.cpp:62-68 | begin has exactly the effect of configure, whatever fasti2c is |
| LIDARLite.Reset | src/LIDARLite.cpp:144-147 | exactly one write, value 0x00 to register 0x00 |
| LIDARLite.Compose | src/LIDARLite.cpp:190 | `(hi << 8) + lo` is a 16-bit value whose high byte is hi and low byte is lo |
| LIDARLite.ComposeSplit | src/LIDARLite.cpp:190 | every 16-bit value is the composition of its own two bytes |
| LIDARLite.Distance | src/LIDARLite.cpp:173-192 | the acquisition command is 0x04 with bias correction and 0x03 without; then a monitored two-byte read of 0x8f; when that read delivers both bytes the result is their big-endian composition |
| LIDARLite.CorrelationValue | src/LIDARLite.cpp:349-354 | the printed value keeps the low byte; its high byte is 0xff exactly when the sign byte is 1, and 0 otherwise |
| LIDARLite.CorrelationSigned | src/LIDARLite.cpp:349-355 | read as 16-bit two's complement, the printed value is lo - 256 for a negative sample and lo otherwise |
| LIDARLite.UnmonitoredRead | src/LIDARLite.cpp:347 | a read without busy monitoring makes no poll, never bails out, and is one data request answered by the next reply |
| LIDARLite.DumpTransactions | src/LIDARLite.cpp:344-347 | k readings put exactly k two-byte requests of register 0xd2 on the bus |
| LIDARLite.DumpSamples | src/LIDARLite.cpp:344-357 | k readings print exactly the k values `DumpValues` lists, in order |
| LIDARLite.DumpValueFresh | src/LIDARLite.cpp:347-354 | a reading whose reply holds two bytes prints the correlation value of those two bytes |
| LIDARLite.DumpValueStale | src/LIDARLite.cpp:347-355 | a reading whose reply is short copies nothing and prints the previous reading's value again |
| LIDARLite.DumpPrefix | src/LIDARLite.cpp:344-357 | later readings do not change what earlier readings printed |
| LIDARLite.CorrelationTransactions | src/LIDARLite.cpp:333-360 | on the bus: write 0xc0 to 0x5d, write 0x07 to 0x40, n requests of 0xd2, write 0x00 to 0x40 |
| LIDARLite.CorrelationSamples | src/LIDARLite.cpp:333-360 | the console receives exactly the n reading values, in order |
| LIDARLite.PrintReading | src/LIDARLite.cpp:346-356 | one reading: the buffer takes the reply's two bytes if both arrived; the printed value is the buffer's correlation value; one acknowledgement and one reply consumed |
| LIDARLite.PrintReadings | src/LIDARLite.cpp:344-357 | the trace gains `DumpTrace` of max(numberOfReadings, 0) readings, starting from the buffer's contents; one acknowledgement and one reply per reading; the buffer ends as `DumpBuffer` of those readings, holding the last complete reply's two bytes |
| LIDARLite.CorrelationRecordToSerial | src/LIDARLite.cpp:333-360 | the trace gains `CorrelationTrace`; n + 3 acknowledgements and n replies are consumed, with n the reading count, 0 when negative |
| Nvs.Preferences.PutString | src/ConfigHandler.cpp:56-66 | the key now holds the string; no other key changes |
| Nvs.Preferences.PutBool | src/ConfigHandler.cpp:69 | the key now holds the flag; no other key changes |
| Nvs.Preferences.GetString | src/ConfigHandler.cpp:83-93 | either the key holds a string and that string is returned, or it holds none and the default is returned |
| Nvs.Preferences.GetBool | src/ConfigHandler.cpp:77 | either the key holds a flag and that flag is returned, or it holds none and the default is returned |
| Nvs.StringOrPut | src/ConfigHandler.cpp:56-93 | getString of a key just put with putString gives the string put; a put of another key does not change it |
| Nvs.BoolOrPut | src/ConfigHandler.cpp:69-77 | getBool of a key just put with putBool gives the flag put; a put of another key does not change it |
| ConfigHandler.FieldMeaning | src/ConfigHandler.cpp:36-46 | `jsonDoc[name]` with fallback "" is "" for a missing member; for a present member it is the member's text exactly when the member is a string; a non-empty result means the member was that string |
| ConfigHandler.ResetPutsAreReset | src/ConfigHandler.cpp:100-115 | the eleven puts and the flag put of resetar amount to `Reset`: every setting at its default, configSalva false, other keys untouched |
| ConfigHandler.SavePutsAreSave | src/ConfigHandler.cpp:56-69 | the puts of salvar amount to `Save`: every setting from its hyphenated JSON member, configSalva true, other keys untouched |
| ConfigHandler.RecoveredInOrder | src/ConfigHandler.cpp:83-93 | the reply lists the eleven settings in order, each read with the same default resetar writes |
| ConfigHandler.ResetarConfiguracoes | src/ConfigHandler.cpp:100-115 | the new store is `Reset` of the old one |
| ConfigHandler.SalvarConfiguracoes | src/ConfigHandler.cpp:18-73 | an unparsable body gives 400 `{"error":"JSON inválido"}` and leaves the store unchanged; otherwise the store becomes `Save` of the document, and the reply is 200 with the success message |
| ConfigHandler.RecuperarConfiguracoes | src/ConfigHandler.cpp:76-98 | the store becomes `RecoverState` of the old one (reset unless configSalva reads true); the reply is 200 with the settings read from the new store |
| ConfigHandler.ResetIdempotent | src/ConfigHandler.cpp:100-115 | resetting twice leaves the same store as resetting once |
| ConfigHandler.RecoverWhenUnsaved | src/ConfigHandler.cpp:77-93 | with configSalva false or absent, recuperar resets, replies with the eleven defaults, and leaves configSalva false, so the next call resets again |
| ConfigHandler.RecoverIdempotent | src/ConfigHandler.cpp:76-98 | repeated recuperar calls change the store at most once |
| ConfigHandler.SaveThenRecover | src/ConfigHandler.cpp:56-93 | after a successful salvar, configSalva reads true, recuperar leaves the store alone, and the reply carries each saved JSON member's text ("" for a missing or non-string member) |
| ConfigHandler.MembersOf | src/ConfigHandler.cpp:81-96 | the object serialised from a reply with distinct names has exactly those names as members, each with its text |
| ConfigHandler.KeysDistinct | src/ConfigHandler.cpp:83-93 | the reply names each setting once |
| ConfigHandler.KeysAreDefaults | src/ConfigHandler.cpp:83-93 | the reply names exactly the settings that have a default |
| ConfigHandler.NamesOnlyThreeShared | src/ConfigHandler.cpp:36-46 | only ssid, senha and token are read from a JSON member named like the setting; the other eight hyphenated names match no setting |
| ConfigHandler.EchoMembers | src/ConfigHandler.cpp:83-96 | the recuperar reply, as a JSON object, has exactly the eleven camelCase settings as members, each with its recovered value |
| ConfigHandler.EchoKeepsThree | src/ConfigHandler.cpp:36-93 | posting a recuperar reply back to salvar keeps ssid, senha and token and stores "" for the other eight settings |

## Left out

- The Wire transport itself is left out: bus speed, pins, addressing of `lidarliteAddress` and the 1 ms `delay` in write. The bus is a scripted peripheral, and every transaction goes to the one device.
- `begin` brings up the bus before configuring. The clock speed and pins play no part; `fasti2c` is ignored by the C++ driver too.
- LIDARLite.Distance: says nothing about the result after a bail-out or a short reply. The C++ driver then composes whatever the uninitialised local buffer held. Dafny's `new` leaves the buffer's elements unspecified, which is the same.
- LIDARLite.CorrelationRecordToSerial: the uninitialised two-byte buffer is the ghost result `initial`, so a reading with a short reply prints from contents the model does not fix.
- LIDARLite.Read: `numOfBytes` is a natural number no larger than the buffer. The C++ driver's parameter is an `int`, and its callers pass 2.
- The correlation value is a 32-bit `int` on the target, so `lo | 0xff00` prints as 65280–65535 rather than as a negative number. The model prints it as written; `CorrelationSigned` states the signed reading.
- The Kalman filter, the FreeRTOS tasks and mutex, the main loop's printing, and the WiFi manager are not part of this model. They are concurrency, floating point or network plumbing.
- JSON deserialisation and serialisation are left out: `deserializeJson`, `serializeJson`, and the 512-byte document capacity. salvar receives the parsed document, or `None` for a body that does not parse. recuperar's reply is the ordered list of members.
- The error message salvar prints on the serial console before replying 400 is not modelled.
- HTTP route registration in `setupConfigHandler` is left out, and so are the "/resetar" route's text/plain reply and the body-chunk delivery.
- The Preferences namespace is not modelled (`begin`/`end`, flash wear, write failures). Each key holds one typed entry, and a read of the wrong type gives the default.
- `include/ConfigHandler.h` declares a two-parameter `salvarConfiguracoes` that does not match the four-parameter definition. Only the definition is modelled.
