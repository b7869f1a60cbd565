# Medole dehumidifier bridge — a Dafny model

This project models the core of `homebridge-medole-dehumidifier`, a Homebridge
accessory that bridges a Medole dehumidifier's MQTT protocol to HomeKit. It
covers two parts.

- **The command encoder.** Power and fan speed are fixed literal codes. A
  target humidity is clamped to 30..90 (the bounds of index.js:52-53; the
  code as written does not clamp, see "## Findings") and turned into a twelve-digit hex
  command through a table of humidity ranges. The model proves that every
  command is one frame shape: sync bytes `55 01`, a command byte, two
  argument bytes, and a check byte equal to the XOR of the five bytes before
  it. It also proves the hex text decodes back to that frame.
- **The accessory object.** The constructor checks the password, then the
  token, and derives the `raw` and `req` topics. A connect event sets the
  connection flag. Each inbound message overwrites five cached fields in a
  fixed order, and an early throw keeps the fields already written. The Active,
  rotation-speed and sensor getters fail while their field is unknown; the
  threshold getter never fails. Setters refuse while
  disconnected; otherwise they publish exactly one command to the request
  topic.

Modules:

- `wrappers.dfy` (`Wrappers`): `Option`, `Result`, `Outcome`.
- `jsvalue.dfy` (`JsValue`): JSON values and JavaScript property access.
- `hex.dfy` (`Hex`): `toString(16)` and hex encoding/decoding of bytes.
- `encoder.dfy` (`Encoder`): the command codes.
- `device.dfy` (`Device`): configuration, the message handler, and the class
  `Dehumidifier` with its handlers.

The class keeps publications in a `seq` outbox and `updateValue` pushes in a
`seq` of notifications. The object invariant `Valid()` says:

- nothing is published before the connection is up;
- no field of the cache is known before the connection is up, because the
  `message` listener is installed only inside the connect handler
  (index.js:61-66) and the flag is never reset;
- every publication goes to the request topic;
- every publication carries a well-formed frame (twelve lower-case hex digits,
  `55 01`, command, two arguments, XOR check byte), or `undefined` (an
  out-of-range fan speed). The frame format is read off the literal codes
  the bridge sends; the source does not state it.

The humidity setter in the class publishes the code computed with the bounds
of index.js:52-53. The source as written publishes the code of the function
bound at index.js:113, which never is a well-formed frame (see "## Findings").
The invariant therefore holds of the intended code, not of the code as written.

The model keeps these behaviours of the code as written:

- A message is applied field by field. A missing `T` or `POWER` therefore
  leaves the earlier fields updated.
- A fan speed outside 1..3 publishes an `undefined` payload.
- Every `connect` event adds one more `message` listener (index.js:61-66), so
  after a reconnect each message is handled once per listener. Handling a
  message twice has the effect of handling it once (`Device.ReceiveIdempotent`),
  so the model handles it once.
- There is no reconnection policy and no publish timeout.

## Model

| member | source | states |
|---|---|---|
| `Encoder.HumidityCode` | index.js:85-113 | no contract of its own: `getHumidityCode` with the bounds of index.js:52-53; its properties are stated by `HumidityCodeIsFrame`, `HumidityCodeShape`, `HumidityCodeClamps` and `HumidityCodeRoundTrip`, and `GetHumidityCode` is proved equal to it |
| `Encoder.PowerCode` | index.js:180 | no contract of its own: the two literal power codes; `PowerCodeIsFrame` states that they are frames |
| `Encoder.FanCode` | index.js:234-245 | no contract of its own: the literal fan codes, `undefined` for any other speed; `FanCodeIsFrame` states which speeds have one and that each is a frame |
| `Encoder.Clamp` | index.js:89-93 | the clamped humidity lies in 30..90 and equals the request when the request is already in range |
| `Encoder.FirstBand` | index.js:103-110 | the `for ... break` scan returns the first row containing the humidity (no earlier row contains it), or none when no row does |
| `Encoder.FinalByte` | index.js:100-111 | `start + diff` after the scan always lies in 0x80..0xff, so it always prints as two hex digits |
| `Encoder.BandOfHumidity` | index.js:100-110 | 32-47, 64-79 and 80-90 stop at their own rows; 30-31 and 48-63 fall through to the catch-all row |
| `Encoder.FinalByteTable` | index.js:100-111 | the check byte is 0xf0+(h-32), 0x90+(h-64) or 0x80+(h-80) on those rows, and 0xce+(h-30) for 30-31 and 48-63 |
| `Encoder.GetHumidityCode` | index.js:85-113 | the imperative clamp, prefix, and table scan with `break` produce exactly `HumidityCode(humidity)` |
| `Encoder.FinalByteIsChecksum` | index.js:96-111 | for every clamped humidity, the table's byte equals 0x55 ^ 0x01 ^ 0x84 ^ h ^ 0x00 |
| `Encoder.HumidityCodeIsFrame` | index.js:95-111 | every humidity command is the hex text of the 0x84 frame carrying the clamped humidity (`0x1e + (h-30) == h`) and its XOR check byte |
| `Encoder.HumidityCodeShape` | index.js:95-98 | a humidity command is 12 lower-case hex digits: `550184`, the clamped humidity as two digits, `00`, then the check byte |
| `Encoder.HumidityCodeClamps` | index.js:89-93 | requests below 30 send the command for 30; requests above 90 send the command for 90 |
| `Encoder.HumidityCodeRoundTrip` | index.js:95-97 | reading the humidity back out of a command gives the clamped request, so distinct targets in 30..90 give distinct commands |
| `Encoder.PowerCodeIsFrame` | index.js:180 | `5501810100d4` / `5501810000d5` are the 0x81 frames with argument 1 / 0 and a correct XOR check byte |
| `Encoder.FanCodeIsFrame` | index.js:234-245 | exactly speeds 1, 2 and 3 have a code, and each is the 0x85 frame carrying the speed with a correct check byte |
| `Encoder.ValidCommandIsFrame` | index.js:96-111 | the strings that pass the frame check are exactly the hex texts of frames |
| `Encoder.EmittedCodesValid` | index.js:174-248 | every power code, defined fan code and intended humidity code is a well-formed frame with an XOR check byte |
| `Encoder.HumidityCodeUnbound` | index.js:84-113 | as written, with `this` bound to the module: the code starts `550184NaN` |
| `Encoder.UnboundCodeNeverValid` | index.js:113 | as written, no humidity request produces a well-formed frame, and every request differs from the intended code |
| `Encoder.UnboundCodeExamples` | index.js:84-113 | as written, 40 gives `550184NaN00f8` (intended `5501842800f8`) and 50 gives `550184NaN00NaN` (intended `5501843200e2`) |
| `Hex.ToHex` | index.js:97 | `toString(16)` yields a non-empty string of lower-case hex digits with no leading zero |
| `Hex.ToHexValue` | index.js:97 | reading the digits of `toString(16)` back gives the number |
| `Hex.ToHexOfByte` | index.js:111 | for 16..255, `toString(16)` equals the zero-padded two-digit form, so the missing padding never shows |
| `Hex.DecodeEncode` | index.js:96-98 | decoding the hex text of bytes gives the bytes back |
| `Hex.EncodeDecode` | index.js:96-98 | any string that decodes is exactly the encoder's text of the decoded bytes |
| `JsValue.Truthy` | index.js:164 | no contract of its own: JavaScript truthiness of a defined value, as the `if (this.isActive)` test uses it; `Dehumidifier.GetActive`'s contract states the notification it selects |
| `JsValue.Known` | index.js:159 | no contract of its own: the negation of the loose `== undefined` test (also at index.js:219, 262 and 280), false for `null` too; the getters' contracts state that they fail exactly when it is false |
| `JsValue.Member` | index.js:73-77 | reading a property of `undefined` or `null` throws a TypeError; a missing field of a non-object reads as `undefined` |
| `JsValue.Path` | index.js:73-77 | a chain of property reads on `undefined` or `null` throws at the first read |
| `Device.Configure` | index.js:23-43 | a missing password fails first; then a missing token; otherwise the topics are `MEDOLE/MEDOLE/<token>/raw` and `/req`, the name defaults, and `showsHumidity`/`showsTemperature` are the given flags or false when absent (index.js:15-21, 28-29) |
| `Device.TopicsSeparate` | index.js:41-43 | the raw and req topics differ, and two tokens share a topic only if they are equal |
| `Device.Receive` | index.js:66-79 | an unparsable message changes nothing; a throw always leaves `isActive` and `targetHumidity` as they were |
| `Device.ReceiveOverwrites` | index.js:73-77 | whether a message throws does not depend on the cache; a message that does not throw sets all five fields regardless of the old values (last write wins) |
| `Device.ReceiveIdempotent` | index.js:73-77 | delivering the same message twice has the effect of delivering it once |
| `Device.ReceiveWellFormed` | index.js:73-77 | a well-formed object sets `H[0]`, `T[0]`, `FAN`, `POWER[0]` and `HUMIDITY` into the five fields |
| `Device.ReceivePartial` | index.js:67-78 | without `T`, only the humidity is stored before the throw; without `POWER`, humidity, temperature and fan speed are stored |
| `Device.ReceiveExample` | index.js:73-77 | `{"H":[55],"T":[21.5],"FAN":2,"POWER":[1],"HUMIDITY":60}` fills the cache with 55, 21.5, 2, 1, 60 |
| `Device.Create` | index.js:14-53 | construction fails exactly when the configuration is rejected; otherwise the accessory is fresh, all five fields are unknown, it is not connected, and nothing has been published |
| `Device.Dehumidifier.constructor` | index.js:41-50 | the new object has the given identity, an all-unknown cache, the flag false, and an empty outbox and notification log |
| `Device.Dehumidifier.OnConnect` | index.js:61-62 | the connect event sets the flag and changes neither the cache nor the outbox |
| `Device.Dehumidifier.OnMessage` | index.js:61-79 | a message arrives only once connected, because the listener is installed by the connect handler; the fields after the handler are those of `Receive` on the old fields; the flag and outbox are unchanged |
| `Device.Dehumidifier.GetActive` | index.js:153-173 | fails exactly when `isActive` is unknown (`undefined` or `null`); otherwise returns it and pushes DEHUMIDIFYING if it is truthy, INACTIVE if not |
| `Device.Dehumidifier.SetActive` | index.js:174-184 | disconnected: an error and nothing published; connected: exactly one power code, on or off by the value, on the request topic |
| `Device.Dehumidifier.GetTargetHumidity` | index.js:193-199 | never fails, returns the cached target even when unknown, and pushes the current humidity |
| `Device.Dehumidifier.SetTargetHumidity` | index.js:200-212 | disconnected: an error and nothing published; connected: exactly one humidity code for the value on the request topic |
| `Device.Dehumidifier.GetRotationSpeed` | index.js:215-224 | fails exactly when the fan speed is unknown; otherwise returns it unchanged |
| `Device.Dehumidifier.SetRotationSpeed` | index.js:225-249 | disconnected: an error and nothing published; connected: exactly one publication, with an `undefined` payload for speeds other than 1-3 |
| `Device.Dehumidifier.GetCurrentHumidity` | index.js:258-267 | fails exactly when the current humidity is unknown; otherwise returns it unchanged |
| `Device.Dehumidifier.GetCurrentTemperature` | index.js:276-285 | fails exactly when the temperature is unknown; otherwise returns it unchanged |

## Left out

- MQTT client creation, the broker address, port and credentials, and subscribing (index.js:55-66). This is network I/O. Connecting is `OnConnect` and an inbound message is `OnMessage`.
- The publish callback (index.js:179-183, 208-211, 246-248). This is asynchronous completion. A setter reports success as soon as its publication is appended to the outbox.
- Homebridge registration, the `Service` and `Characteristic` objects, `setProps`, and the fixed TargetHumidifierDehumidifierState value (index.js:5-12, 115-152, 186-192, 251-289). This is the host's API. Values pushed with `updateValue` are recorded in `notifications`.
- `showsHumidity` and `showsTemperature` only decide whether the two sensor getters are registered. The model keeps both flags in the identity, and the two getters exist regardless.
- `JSON.parse` itself. A payload is either text it rejects or the JSON value it yields.
- The `debug` flag and all console output. This is logging only.
- Numbers are carried as reals, and `NaN` is not a value of the model. Nothing does arithmetic on cached values, and temperature is only passed through.
- Setter arguments are integers, as HomeKit delivers them for these characteristics (each has step 1). A fractional threshold, whose `toString(16)` would print a fraction, is not modelled.
- Configuration values that are not strings, such as a numeric token, are not modelled. Neither is `displayName`.
- The handler's exception is recorded as `threw`; its propagation out of the listener into the MQTT client and the host process is not modelled.
- `JsValue.Member`: properties that every array or string inherits, such as `length`, read as `undefined` in the model. The handler only reads `H`, `T`, `FAN`, `POWER`, `HUMIDITY` and `[0]`.

## Findings

| source | as written | input that shows it | evidently intended | confidence | as-written member | corrected member |
|---|---|---|---|---|---|---|
| index.js:84-113 | `getHumidityCode` is wrapped in `.bind(this)` inside the prototype literal, so `this` is the module's object and `minHumidityValue`/`maxHumidityValue` are `undefined`: nothing is clamped, the humidity pair prints as `NaN`, and rows that fall through to the catch-all print `NaN` too | humidity 40 gives `550184NaN00f8`; humidity 50 gives `550184NaN00NaN` | the bounds of index.js:52-53 (30 and 90): 40 gives `5501842800f8`, 50 gives `5501843200e2` | high; not executed | `Encoder.UnboundCodeNeverValid` | `Encoder.HumidityCodeIsFrame` |
