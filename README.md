# Sentinel edge node: a verified model of its decision logic

Sentinel is a wildfire-detection node. An MQ-2 gas sensor and a camera
classifier each vote on smoke. The node shares its verdict with its peers
over a LoRa mesh. It raises an alert only when enough of the mesh agrees.
This project models that logic in Dafny and proves what the code promises:

- `MeshCodec` (`mesh_codec.dfy`): the wire frame
  `type | source | dest | len | payload[len] | xor`. `Encode` and `Decode`
  are the reference definitions. `SerializeMessage` writes into a byte
  array through a running offset. `DeserializeMessage` reads the frame back
  the same way. The round trip and checksum behaviour are proved.
- `Mesh` (`lora_mesh.dfy`): the `LoraMesh` node, as a class. Its fields are
  the peer directory (`activeNodes`), the frames handed to the radio
  (`outbox`) and the detection callbacks raised (`notifications`). The
  frames built for detection broadcasts and heartbeats are modelled too.
- `Sentinel` (`sentinel_core.dfy`): the IDLE / PENDING / ALERT state machine
  and the consensus vote, as the class `SentinelCore`. It is specified by
  the pure functions `Tick` and `Evaluate`. The threshold is the fraction
  `thresholdNum / thresholdDen`.
- `Mq2` (`mq2_sensor.dfy`): the 12-bit ADC combine, the read guard, the
  3-of-5 smoke vote and the open / close flags, plus calibration at start-up.
- `Vision` (`smoke_detector.dfy`): the ten-frame confidence history of the
  camera detector and its verdict on the mean.
- `Configuration` (`config_manager.dfy`): the key scanners, a model of
  `std::stoi` in bases 10 and 16, and the loaded configuration.
- `SensorUtils` and `SensorInterface` (`sensor_utils.dfy`,
  `sensor_interface.dfy`): the sensor helper routines over exact reals, and
  the default status and range checks every sensor inherits.
- `Common` and `Window` (`common.dfy`, `window.dfy`): bytes and their XOR,
  sums and means of reals, and the bounded history both detectors keep.

Time is a natural number of seconds passed into each operation. Each
operation of the mesh runs atomically.

Where the code and the written specification of the system disagree, the
model follows the code:

- The specification says an ALERT is held for a fixed time and then
  cleared. In the code, an ALERT clears only on a tick where local
  detection is false. While the node itself still detects smoke, the ALERT
  never ends (`Sentinel.AlertHoldsWhileLocal`).
- The specification says the decoder drops a short frame or one with an
  oversize length as malformed. In the code:
  - a short buffer returns an uninitialised message, modelled as `TooShort`;
  - an oversize length is reset to 0 and the message is still delivered
    (`PayloadTooLarge`);
  - the declared length is never compared with the received length
    (`MeshCodec.ReceivedLengthUnchecked`).
- A checksum mismatch is only logged, and the frame is still delivered.
  The specification agrees.
- The specification says any single-bit error in the header or payload
  is reported as a checksum mismatch. A flip in the length byte can go
  unnoticed: the frame `[2, 1, 255, 1, 252, 1]` with its length bit
  cleared decodes as a zero-length message with verdict OK
  (`MeshCodec.LengthBitFlipUndetected`).

## Model

| member | source | states |
|---|---|---|
| MeshCodec.Encode | src/network/lora_mesh.cpp:218-237 | the frame is `payloadLen + 5` bytes: type, source, destination and length, then the transmitted payload bytes, then a checksum byte equal to the XOR of everything before it, so the XOR of the whole frame is 0 |
| MeshCodec.SerializeMessage | src/network/lora_mesh.cpp:218-237 | the bytes written through the running offset and XOR loop are exactly `Encode(msg)`; the size returned is the frame length; the rest of the buffer is untouched |
| MeshCodec.Decode | src/network/lora_mesh.cpp:239-275 | fewer than 5 received bytes is the only rejection; header fields come from bytes 0–2; a declared length over 64 gives length 0 with the payload copy and checksum skipped; otherwise length and transmitted payload come from the buffer and the verdict compares the checksum byte |
| MeshCodec.DeserializeMessage | src/network/lora_mesh.cpp:239-275 | the byte-by-byte reader, with its XOR loop, returns exactly `Decode` |
| MeshCodec.CopyBytes | src/network/lora_mesh.cpp:228 | the `memcpy` of the payload: the target range holds the source bytes and nothing else changes |
| MeshCodec.RoundTrip | src/network/lora_mesh.cpp:218-260 | decoding an encoded frame (followed by anything) restores type, source, destination, length and the transmitted payload bytes, with a matching checksum |
| MeshCodec.ReceivedLengthUnchecked | src/network/lora_mesh.cpp:242-263 | for every received length of at least 5 the result is the same: the declared length is never checked against it |
| MeshCodec.ChecksumByteOnlyAffectsVerdict | src/network/lora_mesh.cpp:262-274 | changing the checksum byte never changes the decoded message, only the verdict: a mismatch still delivers the frame |
| MeshCodec.CorruptionDetected | src/network/lora_mesh.cpp:262-271 | corrupting any one type, source, destination or payload byte of an encoded frame yields a checksum mismatch |
| MeshCodec.XorDetectsSingleChange | src/network/lora_mesh.cpp:262-268 | changing exactly one byte always changes the running XOR |
| MeshCodec.LengthBitFlipUndetected | src/network/lora_mesh.cpp:246-268 | a single bit flip in the length byte can pass the checksum: a concrete frame decodes to a different message with verdict OK |
| Common.BitXorLaws | src/network/lora_mesh.cpp:231-234 | the byte XOR the checksum uses has 0 as identity, is self-inverse and commutative, and cancels |
| Common.BitXorInjective | src/network/lora_mesh.cpp:231-234 | XOR with a fixed byte is injective on either side, so two different running checksums stay different |
| MeshCodec.XorAppend | src/network/lora_mesh.cpp:231-234 | one more loop step XORs the next byte into the running checksum |
| MeshCodec.Xor | src/network/lora_mesh.cpp:231-234 | the checksum: every byte XORed into a running value starting from 0, first byte first; the decoder recomputes the same value at lines 262-266 |
| Mesh.AfterMessage | src/network/lora_mesh.cpp:156-200 | a node ignores its own messages; otherwise only the sender's entry is inserted or updated, with its id and `lastSeen = now`; a Detection frame sets `detecting` to `payload[0] == 1`, other types keep the old flag (false for a new entry); the directory invariant is kept |
| Mesh.LoraMesh.ProcessMessage | src/network/lora_mesh.cpp:156-200 | the directory becomes `AfterMessage`; exactly one callback notification is recorded for a Detection frame from a peer when a callback is installed |
| Mesh.Unexpired | src/network/lora_mesh.cpp:202-216 | an entry survives exactly when `now - lastSeen` is at most the timeout (strict expiry), and survivors are unchanged |
| Mesh.LoraMesh.CleanupStaleNodes | src/network/lora_mesh.cpp:202-216 | the erase-while-iterating loop leaves exactly `Unexpired` of the old directory |
| Mesh.LoraMesh.GetActiveNodeCount | src/network/lora_mesh.cpp:283-286 | the number of peers in the directory |
| Mesh.LoraMesh.GetDetectingNodeCount | src/network/lora_mesh.cpp:288-298 | the counting loop returns the number of peers whose last report was a detection, which is at most the active count |
| Mesh.DetectingAtMostActive | src/network/lora_mesh.cpp:283-298 | the detecting peers are a subset of the directory, so never more than the active count |
| Mesh.DetectingNodes | src/network/lora_mesh.cpp:288-298 | the peers whose last report was a detection: the set the counting loop counts |
| Mesh.LoraMesh.SetDetectionCallback | src/network/lora_mesh.h:59-62 | installs or removes the callback and changes nothing else |
| Mesh.LoraMesh.SendMessage | src/network/lora_mesh.cpp:91-107 | hands exactly `Encode(m)` to the radio and changes nothing else |
| Mesh.DetectionMessage | src/network/lora_mesh.cpp:77-89 | the detection broadcast is a well-formed message with a one-byte payload |
| Mesh.LoraMesh.BroadcastDetection | src/network/lora_mesh.cpp:77-89 | appends the encoded detection frame (payload 1 or 0, destination broadcast) to the outbox and changes nothing else |
| Mesh.HeartbeatMessage | src/network/lora_mesh.cpp:137-141 | the heartbeat is a well-formed message with no payload |
| Mesh.LoraMesh.HeartbeatTick | src/network/lora_mesh.cpp:136-147 | one heartbeat round: sends the heartbeat frame, then expires stale peers |
| Mesh.BroadcastFrames | src/network/lora_mesh.cpp:77-89 | the detection frame is the six bytes `2, self, 0xFF, 1, flag, xor`; the heartbeat is `1, self, 0xFF, 0, xor`; both XOR to 0 |
| Mesh.EncodeIgnoresUnsentPayload | src/network/lora_mesh.cpp:77-89 | payload bytes past the declared length never reach the wire |
| Mesh.DetectionReachesPeer | src/network/lora_mesh.cpp:156-187 | a peer that decodes and processes another node's detection broadcast records exactly the broadcast flag, with a matching checksum |
| Mesh.HeartbeatRefreshes | src/network/lora_mesh.cpp:165-176 | a heartbeat from a known peer refreshes `lastSeen` and keeps its detection flag |
| Mesh.RecentPeerSurvives | src/network/lora_mesh.cpp:202-216 | a peer heard at most `timeout` seconds ago survives cleanup |
| Mesh.Stale | src/network/lora_mesh.cpp:209 | a peer has timed out when strictly more than the signed timeout has passed since it was heard |
| Mesh.NegativeTimeoutExpiresAll | src/network/lora_mesh.cpp:202-216 | a negative `node_timeout_sec` removes every peer on the next cleanup, even one heard at this instant |
| Mesh.LoraMesh.constructor | src/network/lora_mesh.cpp:13-18 | a new node has an empty directory, no callback and nothing sent |
| Sentinel.Evaluate | src/core/sentinel_core.cpp:172-195 | the result is ALERT with `alertStart = now` exactly when the vote is confirmed, IDLE otherwise; the consensus start is kept |
| Sentinel.Tick | src/core/sentinel_core.cpp:134-170 | at most one broadcast per tick, and PENDING only while local detection holds |
| Sentinel.ConfirmedIsRatio | src/core/sentinel_core.cpp:173-184 | the integer comparison `positive * den >= num * total` is exactly `positive / total >= num / den` |
| Sentinel.Confirmed | src/core/sentinel_core.cpp:173-184 | the vote passes when the detecting nodes, this node included when it detects, make up at least the threshold fraction of all nodes (the comparison at line 184) |
| Sentinel.NoPeersDecidesLocally | src/core/sentinel_core.cpp:173-184 | with no peers and a threshold in (0, 1], the verdict is the local flag |
| Sentinel.ThresholdInclusive | src/core/sentinel_core.cpp:184 | a ratio exactly at the threshold confirms |
| Sentinel.SixtyPercentExample | src/core/sentinel_core.cpp:172-195 | three of four nodes clear a 60% threshold, two of four do not |
| Sentinel.ConfirmedMonotonic | src/core/sentinel_core.cpp:173-184 | more detecting peers never turn a confirmation into a rejection |
| Sentinel.IdleEntersPending | src/core/sentinel_core.cpp:138-146 | IDLE with local detection goes PENDING from `now` and broadcasts `true` once |
| Sentinel.PendingWaits | src/core/sentinel_core.cpp:149-153 | before the consensus window has elapsed PENDING changes nothing and broadcasts nothing |
| Sentinel.PendingEvaluates | src/core/sentinel_core.cpp:149-153 | once the window has elapsed PENDING takes the vote and broadcasts nothing |
| Sentinel.PendingAbandoned | src/core/sentinel_core.cpp:164-168 | PENDING without local detection returns to IDLE, broadcasts `false` and takes no vote |
| Sentinel.AlertHoldsWhileLocal | src/core/sentinel_core.cpp:134-163 | while local detection holds, ALERT never changes |
| Sentinel.AlertClears | src/core/sentinel_core.cpp:155-163 | without local detection ALERT clears to IDLE with a `false` broadcast exactly when the alert duration has elapsed |
| Sentinel.IdleStaysQuiet | src/core/sentinel_core.cpp:134-170 | IDLE without local detection is a no-op |
| Sentinel.BroadcastOnTransitions | src/core/sentinel_core.cpp:134-170 | `true` is broadcast exactly on leaving IDLE, `false` exactly on a local clear of PENDING or ALERT, and nothing otherwise; a rejected vote broadcasts nothing |
| Sentinel.RejectionThenReentry | src/core/sentinel_core.cpp:139-153 | after a rejected vote while smoke is still seen locally, the node drops to IDLE silently and the next tick re-enters PENDING and re-broadcasts `true` |
| Sentinel.BroadcastFramesOf | src/network/lora_mesh.cpp:77-89 | each broadcast flag becomes one encoded detection frame, in order |
| Sentinel.SentinelCore.LocalDetection | src/core/sentinel_core.cpp:135-136 | local detection is the OR of the sensor and vision verdicts |
| Sentinel.SentinelCore.CurrentStatus | src/core/sentinel_core.h:50-54 | the state with its two timestamps |
| Sentinel.SentinelCore.constructor | src/core/sentinel_core.cpp:21-27 | starts IDLE with no detections and nothing broadcast |
| Sentinel.SentinelCore.CheckSensor | src/core/sentinel_core.cpp:107-119 | stores the MQ-2 verdict and changes nothing else |
| Sentinel.SentinelCore.CheckVision | src/core/sentinel_core.cpp:121-132 | stores the camera verdict and changes nothing else |
| Sentinel.SentinelCore.EvaluateConsensus | src/core/sentinel_core.cpp:172-195 | reads the directory counts and sets the state as `Evaluate` prescribes |
| Sentinel.SentinelCore.Announce | src/core/sentinel_core.cpp:145 | one `broadcastDetection` call: the flag is recorded and its frame appended to the mesh outbox |
| Sentinel.SentinelCore.UpdateAlertState | src/core/sentinel_core.cpp:134-170 | the new status and broadcasts are those of `Tick`, and the mesh outbox grows by exactly the corresponding detection frames |
| Mq2.Combine12 | src/sensors/mq2_sensor.cpp:108-109 | the combined value lies in [0, 4095]; its high byte is the low nibble of the first byte and its low byte is the second byte |
| Mq2.Combine12Injective | src/sensors/mq2_sensor.cpp:108-109 | two byte pairs combine to the same value exactly when their low nibbles and second bytes agree, so the upper nibble is ignored |
| Mq2.CountTrue | src/sensors/mq2_sensor.cpp:160-164 | never more votes than entries |
| Mq2.Mq2Sensor.constructor | src/sensors/mq2_sensor.cpp:17-22 | starts closed, uninitialised, with the clean-air resistance and an empty history |
| Mq2.Mq2Sensor.ReadAnalog | src/sensors/mq2_sensor.cpp:95-110 | -1 exactly when the sensor is uninitialised, the bus is closed or the read is short; otherwise the 12-bit combine |
| Mq2.Mq2Sensor.CanRead | src/sensors/mq2_sensor.cpp:96 | the ADC is read only once the sensor is initialised and the bus is open |
| Mq2.Mq2Sensor.Calibrate | src/sensors/mq2_sensor.cpp:62-93 | `ro` becomes the mean of the fifty samples over 9.83 if it lies in (0, 50], otherwise 9.83 and failure; a sensor that cannot read sees fifty -1 samples |
| Mq2.FailedReadsRejected | src/sensors/mq2_sensor.cpp:77-90 | fifty failed reads give a negative `ro`, which calibration refuses |
| Mq2.CalibratedRo | src/sensors/mq2_sensor.cpp:74-83 | the clean-air resistance from the fifty samples: their mean divided by the clean-air ratio 9.83 |
| Mq2.CalibrationAccepted | src/sensors/mq2_sensor.cpp:86-90 | calibration keeps a resistance only in (0, 50] |
| Mq2.Mq2Sensor.InitializeAsWritten | src/sensors/mq2_sensor.cpp:28-61 | as written, a sensor not already initialised never initialises |
| Mq2.Mq2Sensor.Initialize | src/sensors/mq2_sensor.cpp:28-61 | with the flag set before calibrating, the sensor comes up exactly when the bus opens, the address is set and calibration is plausible |
| Mq2.Mq2Sensor.IsInitialized | src/sensors/mq2_sensor.cpp:179-181 | the initialised flag |
| Mq2.Mq2Sensor.IsHealthy | src/sensors/mq2_sensor.cpp:183-191 | healthy exactly when initialised with an open bus and the ADC answered |
| Mq2.Mq2Sensor.GetStatus | src/sensors/sensor_interface.h:55-63 | NOT_CONNECTED when uninitialised, and OK exactly when an ADC read succeeds |
| Mq2.Mq2Sensor.Shutdown | src/sensors/mq2_sensor.cpp:193-200 | the bus is closed (`-1`), the sensor is uninitialised and can no longer read |
| Mq2.Mq2Sensor.DetectSmoke | src/sensors/mq2_sensor.cpp:148-167 | the history becomes the bounded push of `ppm > 200` (at most five entries, newest last) and the result is true exactly when at least three entries are true |
| Mq2.FirstTwoCallsFalse | src/sensors/mq2_sensor.cpp:155-166 | the first two calls after construction always report no smoke |
| Mq2.SustainedSmokeDetected | src/sensors/mq2_sensor.cpp:155-166 | a full history of crossings followed by one more reports smoke |
| Mq2.CountAllTrue | src/sensors/mq2_sensor.cpp:160-164 | a history of crossings only counts all its entries |
| Mq2.ShortHistoryNeverVotes | src/sensors/mq2_sensor.cpp:160-166 | a history of fewer than three entries never reaches the three votes needed |
| Window.PushBoundedShape | src/sensors/mq2_sensor.cpp:155-158 | a bounded history stays within its capacity; the newest entry is last; earlier entries are the old history, minus its oldest exactly when it was full |
| Window.PushBounded | src/sensors/mq2_sensor.cpp:155-158 | a history after one reading: the reading appended, and the oldest entry dropped when that exceeds the capacity; the camera history does the same at src/vision/smoke_detector.cpp:116-119 |
| Vision.SelectConfidence | src/vision/smoke_detector.cpp:106-110 | `output[1]` with two or more outputs, `output[0]` with one, 0 with none |
| Vision.SmokeDetector.constructor | src/vision/smoke_detector.cpp:9-16 | starts uninitialised with an empty history |
| Vision.SmokeDetector.Initialize | src/vision/smoke_detector.cpp:22-58 | succeeds exactly when the model loads and the camera opens; a failure leaves the flag as it was |
| Vision.SmokeDetector.DetectSmoke | src/vision/smoke_detector.cpp:60-132 | uninitialised, capture failure and inference failure report nothing and keep the history; otherwise the history becomes the bounded push of the selected confidence (at most ten, newest last), `smoothed` is its mean and `detected` holds exactly when that mean exceeds 0.75 |
| Vision.AllConfidentIsSmoky | src/vision/smoke_detector.cpp:121-129 | a history whose confidences all exceed 0.75 is judged smoky |
| Vision.Smoky | src/vision/smoke_detector.cpp:121-129 | the verdict on a history: its mean strictly above 0.75 |
| Vision.NoneConfidentIsClear | src/vision/smoke_detector.cpp:121-129 | a history with no confidence above 0.75 is not |
| Vision.OneFrameIsNotEnough | src/vision/smoke_detector.cpp:112-129 | one certain frame after nine empty ones is not a detection: the verdict is on the mean, not the frame |
| Vision.PushAll | src/vision/smoke_detector.cpp:116-119 | repeated bounded pushes keep the history within ten entries |
| Vision.PushAllSuffix | src/vision/smoke_detector.cpp:116-119 | after at least ten pushes the history is exactly the last ten values pushed |
| Vision.PushAllFull | src/vision/smoke_detector.cpp:116-119 | once the pushes fill the history, it holds the last ten of the old entries followed by the pushed values |
| Vision.ConfidentRunIsSmoky | src/vision/smoke_detector.cpp:116-129 | ten or more confident frames in a row produce a detection, whatever came before |
| Vision.SmokeDetector.GetConfidenceHistory | src/vision/smoke_detector.cpp:166-168 | returns the history and changes nothing |
| Vision.SmokeDetector.ClearHistory | src/vision/smoke_detector.cpp:170-172 | empties the history |
| Vision.SmokeDetector.Shutdown | src/vision/smoke_detector.cpp:174-185 | marks the detector uninitialised and keeps the history |
| Common.MeanWithin | src/vision/smoke_detector.cpp:121-126 | the mean of values in `[lo, hi]` lies in `[lo, hi]` |
| Configuration.Find | src/core/config_manager.cpp:169 | the first occurrence of the key at or after the start position, and none before it |
| Configuration.FindChar | src/core/config_manager.cpp:172-175 | the first occurrence of the character at or after the start position, and none before it |
| Configuration.FindOneChar | src/core/config_manager.cpp:172-175 | searching for a one-character string is searching for that character |
| Configuration.FindCharAt | src/core/config_manager.cpp:172-175 | the search stops at the first matching position |
| Configuration.KeyThenColon | src/core/config_manager.cpp:133-136 | a text starting with the key followed by a colon finds the key at 0 and the colon right after it |
| Configuration.DigitRunOfDigits | src/core/config_manager.cpp:147 | `std::stoi` consumes exactly a run of decimal digits up to the first character that is not one |
| Configuration.NumberEndOfDigits | src/core/config_manager.cpp:143-145 | the collecting loop stops right after the digits, at the first character that cannot belong to a number |
| Configuration.QuoteEndOfText | src/core/config_manager.cpp:181-183 | the quoted-string loop stops exactly at the closing quote |
| Configuration.SkipBlanks | src/core/config_manager.cpp:140 | skips exactly the spaces and tabs |
| Configuration.NumberEnd | src/core/config_manager.cpp:143-145 | the maximal run of digits and minus signs |
| Configuration.QuoteEnd | src/core/config_manager.cpp:181-183 | the text up to the next quote or the end |
| Configuration.ValueStart | src/core/config_manager.cpp:133-139 | when found, the position just past a colon; none when the key is absent |
| Configuration.NumberToken | src/core/config_manager.cpp:133-145 | the collected run holds only digits and minus signs; no run when the key or its colon is missing |
| Configuration.Stoi | src/core/config_manager.cpp:147 | any value `std::stoi` returns lies in the range of `int` |
| Configuration.Convert | src/core/config_manager.cpp:147 | no digits is an exception; a result is the signed value of the digit run |
| Configuration.DigitRun | src/core/config_manager.cpp:147 | the longest prefix of digits of the base |
| Configuration.TrimSpace | src/core/config_manager.cpp:147 | what remains does not start with white space |
| Configuration.ToByte | src/core/config_manager.cpp:129 | `static_cast<uint8_t>` keeps the value modulo 256 |
| Configuration.IntField | src/core/config_manager.cpp:132-148 | 0 when the key or the colon after it is missing; otherwise the `std::stoi` result, always within `int` |
| Configuration.UInt8Field | src/core/config_manager.cpp:113-130 | fails exactly when `parseInt` would, and otherwise is its value modulo 256 |
| Configuration.StringField | src/core/config_manager.cpp:168-186 | "" when the key is missing; never contains a quote |
| Configuration.ScanNumber | src/core/config_manager.cpp:133-145 | the blank-skipping and run-collecting loops return exactly `NumberToken` |
| Configuration.ParseInt | src/core/config_manager.cpp:132-148 | returns exactly `IntField` |
| Configuration.ParseUInt8 | src/core/config_manager.cpp:113-130 | returns exactly `UInt8Field` |
| Configuration.ParseString | src/core/config_manager.cpp:168-186 | the three searches and the collecting loop return exactly `StringField` |
| Configuration.ShowNat | src/core/config_manager.cpp:73 | the decimal text of a number is all digits and reads back as that number |
| Configuration.IntFieldRoundTrip | src/core/config_manager.cpp:132-148 | a field written as `key: n` followed by a non-number character reads back as `n` |
| Configuration.StringFieldRoundTrip | src/core/config_manager.cpp:168-186 | a field written as `key: "v"`, with no quote in `v`, reads back as `v` |
| Configuration.NumberTokenOfField | src/core/config_manager.cpp:139-145 | after `key:` and a blank the scanner collects exactly the digits |
| Configuration.StoiOfDigits | src/core/config_manager.cpp:147 | `std::stoi` reads a decimal text in range back as its number |
| Configuration.StoiNegative | src/core/config_manager.cpp:147 | a leading minus is read as the sign |
| Configuration.StoiReadsPrefix | src/core/config_manager.cpp:143-147 | a run such as `12-3` is read as 12: the rest is ignored |
| Configuration.StoiRejectsSignsOnly | src/core/config_manager.cpp:143-147 | an empty run, `-` and `--1` throw |
| Configuration.StoiHex | src/core/config_manager.cpp:32-33 | the address `0x48` is read as 72 |
| Configuration.StoiHexPrefixAlone | src/core/config_manager.cpp:32-33 | `0x` alone is read as 0 |
| Configuration.ByteCastWraps | src/core/config_manager.cpp:129 | 300 becomes 44 and -1 becomes 255 |
| Configuration.Load | src/core/config_manager.cpp:28-60 | loading runs to the end exactly when every integer field, the hexadecimal address and both float fields parse; then the node id, address, model path, consensus timeout and alert duration hold their parsed values and `debugMode` holds exactly when `log_level` is `DEBUG`; a failed load leaves `debugMode` as it was |
| Configuration.MissingAddressFailsLoad | src/core/config_manager.cpp:29-33 | without an `i2c_address` string the load throws, with only the node id assigned |
| Configuration.ConfigManager.constructor | src/core/config_manager.cpp:9 | starts with the default configuration, not loaded |
| Configuration.DefaultConfig | src/core/sentinel_core.h:15-36 | the member initialisers: address 0x48, node 1, threshold 0.6, timeouts 5 s and 60 s, and the LoRa defaults 433 MHz, 125 kHz, SF 12, 20 dBm, 30 s and 90 s, debug off |
| Configuration.ConfigManager.LoadFromContent | src/core/config_manager.cpp:28-60 | assigns the fields in order with early exits, ending in exactly the configuration `Load` describes; `loaded` becomes true on success and is otherwise unchanged |
| Configuration.ConfigManager.SetConfig | src/core/config_manager.cpp:103-106 | stores the configuration and marks it loaded |
| Configuration.ConfigManager.GetConfig | src/core/config_manager.cpp:99-101 | returns the stored configuration |
| Configuration.ConfigManager.IsLoaded | src/core/config_manager.cpp:108-110 | the loaded flag |
| SensorInterface.StatusOf | src/sensors/sensor_interface.h:55-63 | NOT_CONNECTED when uninitialised whatever the health, ERROR when initialised but unhealthy, OK otherwise |
| SensorInterface.StatusNeverTransient | src/sensors/sensor_interface.h:12-19 | the default status is never WARMING_UP, CALIBRATING or OUT_OF_RANGE, and is OK exactly when initialised and healthy |
| SensorInterface.RangeChecksAtBoundaries | src/sensors/sensor_interface.h:127-130 | humidity 0 and 100 are valid and values just outside are not; a reading at the default 10 lux is not dark and one below it is |
| SensorInterface.HumidityValid | src/sensors/sensor_interface.h:127-130 | a relative humidity in [0, 100], both ends included |
| SensorInterface.IsDark | src/sensors/sensor_interface.h:237-239 | dark strictly below the threshold |
| SensorUtils.MedianOfThree | src/sensors/sensor_interface.cpp:211-221 | the result is one of the three readings, with at least two readings at or below it and two at or above it |
| SensorUtils.MedianSymmetric | src/sensors/sensor_interface.cpp:211-221 | the median does not depend on the order of the readings |
| SensorUtils.Clamp | src/sensors/sensor_interface.cpp:60-64 | below the range gives the minimum, above it the maximum, in range the value itself; with a proper range the result is in range |
| SensorUtils.IsInRange | src/sensors/sensor_interface.cpp:55-57 | inclusive at both ends |
| SensorUtils.ClampFixesExactlyInRange | src/sensors/sensor_interface.cpp:55-64 | with a proper range, clamping leaves a value alone exactly when it is in range, and clamping twice is clamping once |
| SensorUtils.Abs | src/sensors/sensor_interface.cpp:123 | the magnitude of a value |
| SensorUtils.Blend | src/sensors/sensor_interface.cpp:51 | the weighted mean lies between the two values |
| SensorUtils.ApplyEMA | src/sensors/sensor_interface.cpp:45-52 | a smoothing factor outside [0, 1] is replaced by 0.3; the result lies between the old and new value; factor 1 gives the new value and 0 the old |
| SensorUtils.MapRange | src/sensors/sensor_interface.cpp:67-76 | a degenerate input range gives `outMin`; the input ends map to the output ends |
| SensorUtils.ResistanceRatioToPPM | src/sensors/sensor_interface.cpp:17-28 | a ratio that is not positive is refused with -1; a positive one goes through the power law `10^((log10 ratio - intercept) / slope)` |
| SensorUtils.PPMToResistanceRatio | src/sensors/sensor_interface.cpp:31-42 | a concentration that is not positive is refused with -1; a positive one goes through `10^(slope * log10 ppm + intercept)` |
| SensorUtils.ConversionRoundTrip | src/sensors/sensor_interface.cpp:17-42 | when `log10` and `pow10` are inverse to each other, converting a positive ratio to a concentration and back returns the ratio |
| SensorUtils.SquaredDeviations | src/sensors/sensor_interface.cpp:101-104 | the accumulated squared deviations are never negative |
| SensorUtils.SampleVariance | src/sensors/sensor_interface.cpp:98-106 | the sample variance is never negative |
| SensorUtils.ConstantHasNoDeviation | src/sensors/sensor_interface.cpp:101-104 | equal readings have no deviation from their common value |
| SensorUtils.CalculateMovingAverage | src/sensors/sensor_interface.cpp:79-90 | 0 for a null array or a count that is not positive; otherwise the mean of the first `count` values |
| SensorUtils.CalculateVariance | src/sensors/sensor_interface.cpp:93-108 | 0 for a null array or fewer than two values; otherwise the sample variance of the first `count` values |
| SensorUtils.ZScoreWithoutRoot | src/sensors/sensor_interface.cpp:119-124 | for a positive deviation scale, `|d| / s > sigma` holds exactly when `sigma < 0` or `d² > sigma² s²` |
| SensorUtils.IsOutlier | src/sensors/sensor_interface.cpp:111-125 | false for a null array or fewer than three values; otherwise true exactly when the z-score test holds, with no outliers in a sample without spread |
| Common.SumAtMost | src/sensors/sensor_interface.cpp:84-89 | readings all at most a bound sum to at most `n` times it |
| Common.SumAbove | src/vision/smoke_detector.cpp:121-129 | readings all above a bound sum to more than `n` times it |

## Left out

- Threads and locks: `receiveLoop`, the heartbeat thread's sleep loop, the
  mutexes and the stop flag. Each operation is modelled as atomic, and one
  heartbeat round is `HeartbeatTick`.
- The radio: `initializeSPI`, `configureLoRa`, `receiveData` and the
  transmit half of `sendMessage` are stubs or hardware I/O. A sent frame is
  appended to `outbox`. The receive path is `Decode` followed by
  `ProcessMessage`.
- Clocks: every timestamp is a natural number of seconds passed in.
  Timeouts and durations are signed integers, as the configuration stores
  them.
  `updateAlertState` reads the clock twice. The model reads it once per
  tick, so on the tick that enters PENDING the elapsed time is 0.
- The RSSI and timestamp fields of a message and of a directory entry are
  not modelled. Neither value is ever compared.
- `MeshCodec.Decode`: a short buffer's uninitialised message is `TooShort`.
  The model does not say what `receiveLoop` does with its garbage fields.
- Floating point: the sensor helpers are modelled over exact reals.
  `log10` and `pow(10, ·)` are passed in as the functions `log10` and `pow10`. The MQ-2
  resistance and PPM curves are replaced by the values they produce:
  calibration samples, and the `ppm` given to `DetectSmoke`.
- SensorUtils.ResistanceRatioToPPM: requires a non-zero slope. A float division by zero gives an infinite exponent, and infinities are not modelled.
- SensorUtils.CalculateVariance: returns the variance, not its square root
  (`calculateStdDev`), because real square roots are not available.
  `IsOutlier` compares squares instead. `ZScoreWithoutRoot` proves this
  equals the source's test whenever the standard deviation is positive.
- Sentinel.Confirmed: compares `positive * den >= num * total` over
  integers instead of the float ratio against a float threshold, so float
  rounding at the boundary is not modelled.
- The dew point, heat index, altitude and unit conversions of the sensor
  interface are floating-point formulas and are not modelled.
- Configuration: reading the file, `saveToFile` and `parseFloat` are not
  modelled. `saveToFile` leaves the stream in hexadecimal after the
  address (line 76), so the integers after it are written in hex; the
  round-trip lemmas are about fields of the form `key: n`, not about that
  writer. The two float results are parameters of `Load`, with `None`
  for an exception.
- Logging, `triggerAlert` and `handleMeshDetection` only log. The
  callback's arguments are recorded in `notifications`.
- Start-up and shutdown of the core, the mesh and the camera (`initialize`,
  `run`, the signal handler, thread joins) are not modelled.
- Camera capture, preprocessing and the TFLite interpreter are replaced by
  their outcomes: whether a frame arrived, and the output vector or
  `None`.
- The MQ-2 `getReading`, which calls each reader once, is not modelled.
  Its parts are.

## Findings

| source | as written | input that shows it | evidently intended | confidence | as-written member | corrected member |
|---|---|---|---|---|---|---|
| src/sensors/mq2_sensor.cpp:50-57 | `initialize()` calls `calibrate()` before setting `is_initialized_`. Every `readAnalog()` inside calibration therefore returns -1 (line 96), every resistance is -1, and `ro_` is negative, so calibration fails | any first call of `initialize()` on a new sensor: the bus opens and the address is set, and it still returns false | the sensor is marked initialised (or calibration reads through the open bus) before calibrating, so it comes up whenever the bus works and the samples are plausible | not executed | Mq2.Mq2Sensor.InitializeAsWritten | Mq2.Mq2Sensor.Initialize |
