# BLE beacon museum guide: a Dafny model of its core

The app guides a visitor through a museum room. Each room holds BLE beacons that advertise a
small service-data frame. The frame carries:

- the room id, as text;
- the beacon's node number;
- the firmware version;
- the transmit power;
- the battery voltage.

The phone keeps a registry of the beacons it hears and smooths each beacon's signal strength (RSSI).
The guide narrates the zone the visitor stands in and draws the room with the visitor's marker.

This project models that core:

- `payload.dfy` (module `Payload`): `parseServiceData`, the decoder of the advertisement frame.
  - The last six bytes are the trailer: node, firmware major, firmware minor, a signed transmit power and a little-endian battery voltage.
  - The bytes before the trailer are the room id.
  - The beacon's identity is the room id, `-B`, and the node number zero-padded to two digits.
- `smoothing.dfy` (module `Smoothing`): the per-beacon smoothing.
  - A sliding window of raw samples, using JavaScript's `slice(-k)`.
  - Its mean seeds an exponential moving average (EMA).
  - The average is rounded as `Math.round` does.
- `scanner.dfy` (module `BleScanner`): the registry kept by `useBleScanner`, as the class `BeaconScanner`.
  - Its fields are the beacon map, the map's insertion order, the sample windows and the EMAs.
  - `ProcessDevice` takes in one advertisement.
  - `Tick` is one pass of the lifecycle timer: entries unheard for more than 30 s become inactive, and entries unheard for more than 120 s are forgotten.
  - `SortedBeacons` lists the beacons strongest first.
- `narrator.dfy` (module `GuideNarrator`): `useGuideNarrator`.
  - The narration lookup.
  - The auto-trigger that speaks each newly entered zone once.
  - `speakNow`, `stop`, the speech engine's completion callbacks and unmounting.
  - Each of these is a pure transition on the hook's state, plus the class `NarratorHook` whose methods are proved to perform those transitions.
- `beacon_list.dfy` (module `BeaconList`): the signal-quality and battery badges of a beacon card.
- `room_map.dfy` (module `RoomMap`): the zone labels and colours, the user-marker position and the band shading of the room map.
- `text.dfy` and `wrappers.dfy`: decimal printing and parsing, `padStart`, ASCII lower-casing, and an `Option` type.

Notes on the code's behaviour:

- Only buffers of at least 6 bytes decode; the last six bytes are the trailer.
- Beacons with equal RSSI keep the map's insertion order, because JavaScript's sort is stable (the model leaves that order open, see below).
- The inactivity and expiry thresholds are the fixed constants 30000 ms and 120000 ms.
- The registry itself filters advertisements by the service UUID, comparing case-insensitively.

## Model

| member | source | states |
|---|---|---|
| `Text.NatString` | hooks/use-ble-scanner.ts:56-59 | decimal printing of a node or firmware number: all digits, one digit exactly below 10, no leading zero except for 0 (`NatStringRoundTrip`: it reads back as the number) |
| `Text.IntString` | hooks/use-guide-narrator.ts:35 | decimal printing of a zone: digits with an optional leading minus (`IntStringRoundTrip`, `IntStringInjective`: it reads back as the zone, so distinct zones print differently) |
| `Text.PadStart` | hooks/use-ble-scanner.ts:59 | `padStart(width, fill)`: the result has the larger of the two lengths, ends with the input, and is filled with `fill` before it |
| `Text.ToLowerAscii` | hooks/use-ble-scanner.ts:73 | `toLowerCase` keeps the length and lower-cases each letter A-Z |
| `Payload.Int8` | hooks/use-ble-scanner.ts:43 | `readInt8`: a value in -128..127 that is congruent to the byte modulo 256 (two's complement) |
| `Payload.U16LE` | hooks/use-ble-scanner.ts:46 | `readUInt16LE`: a value in 0..65535 whose low byte comes first |
| `Payload.RoomText` | hooks/use-ble-scanner.ts:49 | the room-id text has one character per byte, with the byte's code |
| `Payload.FirmwareVersion` | hooks/use-ble-scanner.ts:56 | the version is the major number, a dot and the minor number: both sides are decimal digits that read back as the two bytes |
| `Payload.FirmwareVersionInjective` | hooks/use-ble-scanner.ts:56 | two firmware versions print the same only if major and minor are both equal |
| `Payload.NodeLabel` | hooks/use-ble-scanner.ts:59 | the node label is all decimal digits and at least two characters long |
| `Payload.Identity` | hooks/use-ble-scanner.ts:59 | the identity starts with the room id and is at least four characters longer than it |
| `Payload.ParseServiceData` | hooks/use-ble-scanner.ts:28-65 | decoding fails exactly when the buffer is shorter than the 6-byte trailer; a decoded identity is `Identity(roomId, node)` and is never empty |
| `Payload.ParseFrame` | hooks/use-ble-scanner.ts:33-60 | round trip: decoding a frame built from room bytes, node, firmware, transmit power and battery gives back every field |
| `Payload.ParsedIsFrame` | hooks/use-ble-scanner.ts:39-49 | the converse: every buffer that decodes is exactly the frame of the fields it decodes to |
| `Payload.NodeLabelDigits` | hooks/use-ble-scanner.ts:59 | nodes 0..9 get one leading zero, larger nodes print unpadded, and the label reads back as the node number |
| `Payload.IdentityInjective` | hooks/use-ble-scanner.ts:59 | two beacons share an identity only if both room id and node are equal |
| `Payload.SalaExample` | types/beacon.ts:8-10 | the frame "SALA_2" + [2, 1, 0, 248, 164, 14] decodes to room SALA_2, node 2, firmware "1.0", -8 dBm, 3748 mV, identity "SALA_2-B02" |
| `Smoothing.SliceFromEnd` | hooks/use-ble-scanner.ts:85 | `slice(-k)` returns a suffix: the last k elements for k >= 1, and everything for k = 0 |
| `Smoothing.NextWindow` | hooks/use-ble-scanner.ts:84-85 | the new window is a suffix of the old window plus the new sample; for a positive window size it ends with the sample and holds min(len + 1, k) samples |
| `Smoothing.Mean` | hooks/use-ble-scanner.ts:88-89 | the seed average of a non-empty window times its length is the window's sum; an empty window averages to 0 (the divisor is `Math.max(1, length)`) |
| `Smoothing.NextEma` | hooks/use-ble-scanner.ts:90-93 | with no previous EMA the new one is the window's mean; otherwise it moves towards the raw sample by alpha times the gap (bounds in `EmaBetween`, exactness in `FirstSampleExact` and `AlphaOneExact`) |
| `Smoothing.MeanBetween` | hooks/use-ble-scanner.ts:88-89 | the seed average of a non-empty window lies between any lower and upper bound of its samples |
| `Smoothing.EmaBetween` | hooks/use-ble-scanner.ts:91-93 | with alpha in [0, 1], an EMA update lies between the new sample and the previous EMA |
| `Smoothing.JsRound` | hooks/use-ble-scanner.ts:96 | `Math.round`: the result lies within half a unit of x, and halves round upwards |
| `Smoothing.FirstSampleExact` | hooks/use-ble-scanner.ts:84-96 | for an identity with no history and a window size of at least 0, the window is the single sample and the stored RSSI equals it |
| `Smoothing.AlphaOneExact` | hooks/use-ble-scanner.ts:93-96 | with alpha = 1 the EMA follows the raw sample exactly |
| `BleScanner.IsBeaconUuid` | hooks/use-ble-scanner.ts:73 | a UUID matches exactly when it has the service UUID's length and agrees with it character by character after lower-casing |
| `BleScanner.RawRssi` | hooks/use-ble-scanner.ts:83 | the reported RSSI, or -100 when the radio reports none |
| `BleScanner.MakeBeacon` | hooks/use-ble-scanner.ts:98-114 | the stored record is active, seen now, at the given address, with the smoothed RSSI and the configured transmit power; the payload's transmit power is kept separately and every other field is the decoded one |
| `BleScanner.FirstBeaconEntry` | hooks/use-ble-scanner.ts:72-74 | `find`: the first service-data entry whose UUID matches the beacon service ignoring case, or none exactly when no entry matches |
| `BleScanner.DecodeDevice` | hooks/use-ble-scanner.ts:69-81 | an advertisement yields a reading exactly when it has service data, one entry matches the beacon UUID and the first such payload holds a full trailer; the reading's identity is non-empty |
| `BleScanner.Aged` | hooks/use-ble-scanner.ts:230-231 | a surviving entry differs from the old one at most in its active flag, which stays set only when it was set and the entry was heard within 30 s |
| `BleScanner.TickBeacons` | hooks/use-ble-scanner.ts:220-233 | the map after a tick keeps exactly the entries heard within 120 s, each unchanged except that it is active only when it was active and heard within 30 s (per-entry cases in `TickEntry`, no-op condition in `TickUnchangedIff`) |
| `BleScanner.TickEntry` | hooks/use-ble-scanner.ts:220-233 | per entry: removed when unheard for more than 120 s; otherwise marked inactive when active and unheard for more than 30 s; otherwise untouched |
| `BleScanner.TickKeys` | hooks/use-ble-scanner.ts:216-236 | a tick never adds an identity |
| `BleScanner.TickUnchangedIff` | hooks/use-ble-scanner.ts:218-236 | a tick leaves the map equal to its input exactly when no entry is due for removal or deactivation |
| `BleScanner.TickLifecycle` | hooks/use-ble-scanner.ts:221-233 | after a tick no entry is older than 120 s, and every entry still active was heard within 30 s |
| `BleScanner.TickIdempotent` | hooks/use-ble-scanner.ts:214-236 | a second tick at the same instant changes nothing |
| `BleScanner.Surviving` | hooks/use-ble-scanner.ts:220-223 | the insertion order after a tick holds exactly the identities that were not expired |
| `BleScanner.SortByRssi` | hooks/use-ble-scanner.ts:264-267 | sorting by `b.rssi - a.rssi` yields a permutation of its input, ordered by non-increasing RSSI |
| `BleScanner.UpsertCoherent` | hooks/use-ble-scanner.ts:84-120 | writing an identity's window, EMA and record keeps the registry invariant: the same identities in map, order, windows and EMAs, each record stored under its own identity, and windows bounded by the window size |
| `BleScanner.TickCoherent` | hooks/use-ble-scanner.ts:220-227 | a tick that also drops the windows and EMAs of removed identities keeps the registry invariant |
| `BleScanner.TickVisit` | hooks/use-ble-scanner.ts:220-233 | one iteration of the timer's loop extends the partial tick by the next identity in insertion order |
| `BleScanner.TickPass` | hooks/use-ble-scanner.ts:216-236 | the timer's loop computes the tick of the map, the surviving order, and windows and EMAs restricted to the survivors; `hasChanges` is set exactly when some entry was removed or deactivated, and when it is clear the result is the input |
| `BleScanner.BeaconScanner.constructor` | hooks/use-ble-scanner.ts:16-25 | options default to -8 dBm, a window of 5 and alpha 0.7; the registry starts empty |
| `BleScanner.BeaconScanner.ProcessDevice` | hooks/use-ble-scanner.ts:68-121 | an advertisement that does not decode changes nothing; one that does updates the identity's window, then its EMA, and stores an active record with the rounded EMA, the configured transmit power and the current time; a first reading stores the raw RSSI exactly |
| `BleScanner.BeaconScanner.Tick` | hooks/use-ble-scanner.ts:214-237 | the new map is the tick of the old one; windows and EMAs of removed identities are dropped; the result reports whether anything changed; the invariant holds |
| `BleScanner.BeaconScanner.Values` | hooks/use-ble-scanner.ts:265 | `beacons.values()`: one value per identity, each stored under its own identity |
| `BleScanner.BeaconScanner.SortedBeacons` | hooks/use-ble-scanner.ts:264-267 | every tracked beacon exactly once, strongest smoothed RSSI first |
| `GuideNarrator.HasZone` | hooks/use-guide-narrator.ts:92 | JavaScript truthiness of the zone: a zone is present exactly when it is neither null nor 0 |
| `GuideNarrator.GetContent` | hooks/use-guide-narrator.ts:26-39 | a narration exists exactly when the zone is 1..3, the room has content, and its "Z" + zone entry has a non-empty narration, which is the result |
| `GuideNarrator.ZoneKey` | hooks/use-guide-narrator.ts:35 | the zone key is "Z" followed by the zone's decimal text, which reads back as the zone and holds no further "Z" |
| `GuideNarrator.NarrationKey` | hooks/use-guide-narrator.ts:97 | the narration key is the room id, a colon and the zone key (`NarrationKeyInjective` shows it identifies room and zone) |
| `GuideNarrator.ZoneKeys` | hooks/use-guide-narrator.ts:35 | zones 1, 2 and 3 are looked up under "Z1", "Z2" and "Z3" |
| `GuideNarrator.NarrationKeyInjective` | hooks/use-guide-narrator.ts:97-100 | the key `room:Zzone` is different for every room and zone |
| `GuideNarrator.OnSpeakNow` | hooks/use-guide-narrator.ts:53-87 | `speakNow` with the latest props speaks exactly when mounted, the engine works and the zone has a narration, and then it speaks that narration; with a narration, a mounted hook is then playing exactly when the engine works, otherwise playing is unchanged; it never changes the last key spoken, the props or the mounted flag |
| `GuideNarrator.Speak` | hooks/use-guide-narrator.ts:53-88 | text reaches the engine exactly when there is content, the hook is mounted and the engine works; playing is set when it starts and cleared when the engine throws; nothing else changes |
| `GuideNarrator.OnStop` | hooks/use-guide-narrator.ts:41-51 | a mounted hook stops playing and forgets the last key spoken; an unmounted one is unchanged |
| `GuideNarrator.OnSpeechEnded` | hooks/use-guide-narrator.ts:68-79 | `onDone`/`onError` clear playing on a mounted hook and change nothing else |
| `GuideNarrator.OnUnmount` | hooks/use-guide-narrator.ts:108-115 | unmounting clears only the mounted flag |
| `GuideNarrator.AutoTrigger` | hooks/use-guide-narrator.ts:91-105 | when disabled or without a zone, nothing happens; otherwise the zone's key becomes the last key spoken; speech happens only for zones 1..3 whose key was not the last one spoken, and it is that zone's narration; a zone whose key equals the last one spoken leaves the state unchanged and speaks nothing; a new key speaks exactly when the zone has a narration, the hook is mounted and the engine works, and then a mounted hook with a narration is playing exactly when the engine works, otherwise playing is unchanged |
| `GuideNarrator.OnRender` | hooks/use-guide-narrator.ts:91-105 | the effect runs exactly when the props changed since the last render: unchanged props do nothing, changed props give the `AutoTrigger` outcome; the props are recorded |
| `GuideNarrator.TriggerOnce` | hooks/use-guide-narrator.ts:97-104 | running the effect again for the same props neither speaks nor changes the state |
| `GuideNarrator.EnteringZoneSpeaks` | hooks/use-guide-narrator.ts:91-105 | entering a zone with a narration that is not the last one spoken speaks it and sets playing |
| `GuideNarrator.ReturnToZoneSpeaksAgain` | hooks/use-guide-narrator.ts:97-104 | after moving to another zone of the room and back, the first zone is narrated again |
| `GuideNarrator.StopThenTrigger` | hooks/use-guide-narrator.ts:41-105 | after `stop`, re-rendering the same props stays silent, but running the effect for them speaks again |
| `GuideNarrator.UnmountedIsSilent` | hooks/use-guide-narrator.ts:41-115 | once unmounted, no render, `speakNow`, `stop` or speech callback speaks or changes playing |
| `GuideNarrator.NarratorHook.constructor` | hooks/use-guide-narrator.ts:22-24 | the hook mounts not playing, with no key spoken and no render yet |
| `GuideNarrator.NarratorHook.Render` | hooks/use-guide-narrator.ts:91-105 | the hook's state becomes the `OnRender` transition of the old state, and the text spoken is the transition's |
| `GuideNarrator.NarratorHook.SpeakNow` | hooks/use-guide-narrator.ts:53-88 | performs `speakNow` with the props of the latest render |
| `GuideNarrator.NarratorHook.Stop` | hooks/use-guide-narrator.ts:41-51 | performs `OnStop` |
| `GuideNarrator.NarratorHook.SpeechEnded` | hooks/use-guide-narrator.ts:68-79 | performs `OnSpeechEnded` |
| `GuideNarrator.NarratorHook.Unmount` | hooks/use-guide-narrator.ts:108-115 | performs `OnUnmount` |
| `BeaconList.SignalQuality` | components/beacon-list.tsx:23-28 | the icon is `wifi.slash` exactly below -80 dBm; "Excelente" exactly from -60 dBm |
| `BeaconList.BatteryStatus` | components/beacon-list.tsx:31-35 | "Baja" exactly below 3400 mV; "Alta" exactly from 3600 mV |
| `BeaconList.SignalQualityTier` | components/beacon-list.tsx:23-28 | the signal badge is the tier (weakest first) indexed by how many of the thresholds -80, -70, -60 the RSSI reaches |
| `BeaconList.BatteryStatusTier` | components/beacon-list.tsx:31-35 | the battery badge is the tier indexed by how many of the thresholds 3400, 3600 the voltage reaches |
| `BeaconList.SignalMonotone` | components/beacon-list.tsx:23-28 | a stronger RSSI never gets a weaker badge |
| `BeaconList.BatteryMonotone` | components/beacon-list.tsx:31-35 | a higher voltage never gets a lower badge |
| `BeaconList.TiersDistinguishable` | components/beacon-list.tsx:23-35 | different badges have different labels and different colours |
| `RoomMap.ZoneLabel` | components/room-map.tsx:26-31 | "Fuera" exactly for zones outside 1..3 |
| `RoomMap.ZoneColor` | components/room-map.tsx:33-38 | grey exactly for zones outside 1..3 |
| `RoomMap.LabelsAndColorsIdentifyZone` | components/room-map.tsx:26-38 | two zones share a label, or a colour, exactly when they are equal or both outside 1..3 |
| `RoomMap.UserMarkerTop` | components/room-map.tsx:40-50 | the marker always lies inside the padded inner area |
| `RoomMap.MarkerCentredOnBand` | components/room-map.tsx:40-50 | for zones 1..3, the marker's centre is the centre of that zone's band, with the bands stacked from zone 3 at the top to zone 1 at the bottom |
| `RoomMap.MarkerOutsideAndBeyond` | components/room-map.tsx:40-50 | outside the room the marker sits at 224, in the bottom band below zone 1's marker; zones past 3 are drawn as zone 3 |
| `RoomMap.MarkerRises` | components/room-map.tsx:40-50 | the marker moves strictly upwards from outside, through zone 1 and zone 2, to zone 3 |
| `RoomMap.BandFill` | components/room-map.tsx:74-92 | a zone band is shaded exactly when the progress zone has reached it |
| `RoomMap.ShadingDownwardClosed` | components/room-map.tsx:74-92 | if a band is shaded, so is every band below it |

## Left out

- The BLE transport is not modelled: the scan itself, permissions, the radio state and alerts (hooks/use-ble-scanner.ts:123-210, 243-262). `ProcessDevice` receives the radio's report as a value.
- Base64 decoding of the service data is not modelled: the payload is given as bytes.
- `Payload.RoomText`: reads the room id as one character per byte instead of decoding UTF-8. The two agree on ASCII room ids.
- `Text.ToLowerAscii`: lower-cases only A-Z, not the rest of Unicode. Service UUIDs are hexadecimal.
- `BleScanner.BeaconScanner.ProcessDevice`, `BleScanner.BeaconScanner.Tick`, `BleScanner.Coherent`: each operation updates the beacon map, the windows and the EMAs in one atomic step. In the source, `processDevice` writes the window and EMA refs at once (hooks/use-ble-scanner.ts:86, 94) but the map through a queued `setBeacons` updater (:116-120), and the tick deletes the refs inside its own updater (:216-227), which React may run later. An advertisement handled after a tick's updater is queued, and before it runs, can lose its new window and EMA while its map entry is re-added. That leaves an identity in the map with no window or EMA. The model proves `Coherent` for every atomic step; it does not capture these interleavings, under which the source can break that invariant.
- The clock (`Date.now()`) is a parameter. The 1-second interval that triggers `Tick` is not modelled.
- EMA and mean are computed over exact reals, not IEEE doubles, so floating-point rounding is not modelled.
- `BleScanner.Coherent`, `BleScanner.BeaconScanner.constructor`: the window size and the default transmit power are fixed when the registry is created. The app screen edits both during a session (the window between 3 and 10 at app/(tabs)/index.tsx:57, 67-71, 245-252; the transmit power at :56, 223-229). In the source, `processDevice` is rebuilt when they change (hooks/use-ble-scanner.ts:121), but the scan listener keeps the `processDevice` it captured when the scan started (:182-197, :204). So a change made during a scan takes effect only after the scan is stopped and restarted. The registry survives the restart, and after a shrink each beacon's window is cut to the new size at its first sample after the restart. Until then, windows can be longer than the current window size, so the invariant's bound on window length does not hold in the source.
- `BleScanner.BeaconScanner.SortedBeacons`: does not state the order among beacons with equal RSSI. The source's stable sort keeps insertion order for them.
- `RoomMap.UserMarkerTop`, `RoomMap.MarkerCentredOnBand`, `RoomMap.MarkerOutsideAndBeyond`, `RoomMap.MarkerRises`: positions are computed over exact reals. The source uses doubles, in which 236/3 and the band centres derived from it are rounded, so the exact equalities hold of the real-number layout only.
- `estimateDistance` (components/beacon-list.tsx:41-48) is not modelled: it uses floating-point powers and `toFixed`.
- Rendering, theming and console logging are not modelled.
- The contents of `museum.json` are not modelled: the museum content is a parameter.
- The narrator's `await`s are not modelled: each callback runs to completion, so a speech callback cannot interleave with a later event.
- Whether the speech engine throws is a parameter of `speakNow`. Errors from `Speech.stop` inside `stop` and on unmount are ignored, as in the source, and the engine's own playback state is not modelled.
- Zones are integers. The source's `number` could also hold fractions or NaN, which the app never passes.
- The progress ratchet, the zone hysteresis and the distance smoothing live in the app screen (app/(tabs)/index.tsx), which is not part of this model.
