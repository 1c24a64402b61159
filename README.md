# feat_ble: BLE scanning, iBeacon decoding and the device list, in Dafny

This project models the core of an Android Bluetooth Low Energy scanning library written in Kotlin.
It has four parts:

- **The iBeacon decoder** (`HiBeaconParser`) reads fixed offsets of the raw advertising buffer:
  - bytes 9..24 hold the beacon UUID, as two 8-byte big-endian halves;
  - bytes 25..26 hold major and bytes 27..28 hold minor, each a big-endian unsigned 16-bit value;
  - a buffer shorter than 30 bytes is rejected.
- **The advertisement decoder** (`HiBleParser`) turns a scan record into a map of optional fields. It also holds the "connectable" heuristic, which reads bit 0x02 of raw byte 0.
- **The scan session** (`HiBleScanner`) is a singleton. It starts and stops one radio scan, delivers decoded results to a sink and stops itself when the radio reports a failure.
- **The device list** (`HiBleDeviceListViewModel.update`) is a linear-scan upsert:
  - a device that matches an existing row replaces the first such row;
  - otherwise it is appended.

The modules are:

- `Bytes`: octets, the 64-bit pattern, and big-endian values with their encoding.
- `Platform`: the Android types the library reads:
  - `ScanRecord` and `ScanResult`;
  - `java.util.UUID` as a pair of 64-bit halves, with its `toString` text, proved injective.
- `BeaconParser`, `BleParser` and `Scanner`: one module per Kotlin object.
- `BleModel`: the two records, `HiBleResult` and `HiBleDevice`.
- `DeviceList`: the view model, plus the mapping from a result to a list row that `HiBleDeviceListActivity` performs.

Each piece takes the source's form:

- The byte decoders are functions.
- The two loops of `getAdvertisementData` are methods with loop invariants.
- `HiBleScanner` is a class whose methods change its fields. Its state includes ghost fields:
  - the number of radio scans started and not stopped;
  - the log of every result handed to a sink;
  - the number of permission requests.
- The view model is a class with a `devices` sequence field. Its `Update` is proved equal to a recursive reference upsert, and the properties of the list are proved about that upsert.

Three behaviours of the code that a reader might not expect are modelled as written:

- **Device match.** Two devices match when they have the same non-empty `uuid`, or the same name and the same RSSI. This is a disjunction, not "the UUID when there is one, else the name and RSSI". So two devices with different UUIDs still merge when their names and RSSIs agree (`DeviceList.DifferentUuidsStillMerge`). Devices without a UUID merge on name and RSSI alone (`DeviceList.EmptyUuidExamples`, `DeviceList.UnidentifiedResultsMerge`).
- **Handle binding.** `start` binds the adapter and scanner handles again on every call, including a call made while already scanning; they are not bound once per session.
- **Connectable flag.** The flag is read at raw byte 0 of the buffer. In an AD structure of the Flags type (Bluetooth Core Specification Supplement, Part A, section 1.3), byte 0 is the length octet and the flags value sits at byte 2.

The invariant "one radio scan while scanning, none otherwise" (`OneScanPerSession`) has a limit:

- `start` keeps it.
- `stop` keeps it only when the scanner handle is still bound at that point.
- A `start` made while scanning re-binds the handle. If the handle comes back null, the following `stop` clears `isScanning` but never calls `stopScan`, so the radio scan stays running.

`Scanner.ScannerLostWhileScanning` exhibits this case.

## Model

| member | source | states |
|---|---|---|
| Bytes.BigEndianOfEncode | src/main/java/com/mwkg/ble/util/HiBeaconParser.kt:118-123 | Decoding the k-byte big-endian encoding of any n below 256^k gives back n. |
| Bytes.EncodeOfBigEndian | src/main/java/com/mwkg/ble/util/HiBeaconParser.kt:118-123 | Encoding the big-endian value of a byte string at its own length gives back the same bytes. |
| Bytes.BigEndianInjective | src/main/java/com/mwkg/ble/util/HiBeaconParser.kt:118-123 | Two byte strings of the same length with the same big-endian value are equal. |
| Bytes.BigEndianPair | src/main/java/com/mwkg/ble/util/HiBeaconParser.kt:96 | The big-endian value of two bytes is the high byte times 256 plus the low byte, as `(b[i] and 0xff) shl 8 or (b[i+1] and 0xff)` computes. |
| Platform.HexBytes | src/main/java/com/mwkg/ble/util/HiBleParser.kt:57 | Each byte becomes two lowercase hex digits, high nibble first, so the text is twice as long as the bytes. |
| Platform.UuidString | src/main/java/com/mwkg/ble/util/HiBleParser.kt:57 | `UUID.toString()` is 36 characters long: the hex of the 16 big-endian bytes of the two halves, in 8-4-4-4-12 groups. |
| Platform.UuidStringInjective | src/main/java/com/mwkg/ble/util/HiBleParser.kt:65 | Distinct UUIDs have distinct text, so keying service data by text loses no entry. |
| BeaconParser.U16At | src/main/java/com/mwkg/ble/util/HiBeaconParser.kt:96 | Reading two bytes at `at` succeeds exactly when both indices are in range, giving their in-range big-endian value. Otherwise the reported index is `at` when it is out of range, else `at + 1`, because `bytes[at]` is read first. |
| BeaconParser.FoldIndexedIsBigEndian | src/main/java/com/mwkg/ble/util/HiBeaconParser.kt:120-122 | A fold resumed at index i, with the accumulator holding the big-endian value of the first i bytes shifted into place (times 256^(8−i)), ends at the big-endian value of all eight bytes. Started at index 0 with accumulator 0, the `foldIndexed` that ORs byte i in at shift 8·(7−i) is the big-endian value. |
| BeaconParser.ToLong | src/main/java/com/mwkg/ble/util/HiBeaconParser.kt:118-123 | A result exists exactly for 8-byte input, because of the `require`. It is the big-endian value of the bytes, which fits in 64 bits. |
| BeaconParser.ToLongOfEncoding | src/main/java/com/mwkg/ble/util/HiBeaconParser.kt:118-123 | Converting the 8-byte big-endian encoding of any 64-bit pattern n yields n. |
| BeaconParser.ToLongInjective | src/main/java/com/mwkg/ble/util/HiBeaconParser.kt:118-123 | Distinct 8-byte inputs give distinct values. |
| BeaconParser.BeaconUuid | src/main/java/com/mwkg/ble/util/HiBeaconParser.kt:69-77 | The UUID exists exactly when the buffer has at least 25 bytes. Its most-significant half is the big-endian value of bytes 9..16 and its least-significant half that of bytes 17..24. |
| BeaconParser.BeaconUuidText | src/main/java/com/mwkg/ble/util/HiBeaconParser.kt:69-77 | The text of the decoded UUID is the dashed hex of buffer bytes 9..24, in order. |
| BeaconParser.ExtractMajor | src/main/java/com/mwkg/ble/util/HiBeaconParser.kt:92-97 | Returns -1 exactly when the bytes are absent or fewer than 26. At exactly 26 bytes it reads index 26, which is out of range. At 27 bytes or more it returns the big-endian value of bytes 25..26, in 0..65535. |
| BeaconParser.ExtractMinor | src/main/java/com/mwkg/ble/util/HiBeaconParser.kt:105-110 | Returns -1 exactly when the bytes are absent or fewer than 28. At exactly 28 bytes it reads index 28, which is out of range. At 29 bytes or more it returns the big-endian value of bytes 27..28, in 0..65535. |
| BeaconParser.ExtractMajorChecked | src/main/java/com/mwkg/ble/util/HiBeaconParser.kt:92-97 | Never reads past the end. Returns -1 exactly when fewer than 27 bytes are present, and otherwise the in-range big-endian value of bytes 25..26. |
| BeaconParser.ExtractMinorChecked | src/main/java/com/mwkg/ble/util/HiBeaconParser.kt:105-110 | Never reads past the end. Returns -1 exactly when fewer than 29 bytes are present, and otherwise the in-range big-endian value of bytes 27..28. |
| BeaconParser.ExtractIBeaconData | src/main/java/com/mwkg/ble/util/HiBeaconParser.kt:63-84 | Null exactly when the record or bytes are absent or fewer than 30 bytes are present. Otherwise the UUID is present, because the catch branch cannot be reached, and its halves are bytes 9..16 and 17..24. Major and minor are never -1: each is the in-range big-endian value of its two bytes. |
| BeaconParser.DecoderUnaffectedByGuards | src/main/java/com/mwkg/ble/util/HiBeaconParser.kt:80-81 | On every buffer the decoder accepts, the as-written and the corrected major and minor readers agree. |
| BeaconParser.MajorMinorExample | src/main/java/com/mwkg/ble/util/HiBeaconParser.kt:80-83 | Major bytes 0x01 0x02 give 258 and minor bytes 0x03 0x04 give 772. |
| BleParser.AdvertisementData.Keys | src/main/java/com/mwkg/ble/util/HiBleParser.kt:34-80 | Every key comes from the six known names. "isConnectable" is a key exactly when its field is set, and no key means the empty map. |
| BleParser.CollectManufacturerData | src/main/java/com/mwkg/ble/util/HiBleParser.kt:45-50 | The loop builds the map whose keys are exactly the sparse array's keys, each holding the value of its last entry. |
| BleParser.CollectServiceData | src/main/java/com/mwkg/ble/util/HiBleParser.kt:63-66 | The loop builds the map keyed by each entry's UUID text, each holding the value of its last entry. |
| BleParser.EntriesMapOfDistinctKeys | src/main/java/com/mwkg/ble/util/HiBleParser.kt:45-50 | With distinct keys, the map has one entry per input pair, and each key holds its own pair's value. |
| BleParser.KeyCount | src/main/java/com/mwkg/ble/util/HiBleParser.kt:45-50 | With distinct keys, there are as many keys as pairs. |
| BleParser.EntriesMapUnique | src/main/java/com/mwkg/ble/util/HiBleParser.kt:45-50 | Only one map matches a given sequence of insertions. |
| BleParser.TextKeyed | src/main/java/com/mwkg/ble/util/HiBleParser.kt:64-65 | The service-data entries keep their order and values, and each key becomes its UUID's text. |
| BleParser.ServiceDataOnePerEntry | src/main/java/com/mwkg/ble/util/HiBleParser.kt:61-68 | "serviceData" has one entry per service-data entry of the record, and each entry is found under its UUID's text. |
| BleParser.IsDeviceConnectable | src/main/java/com/mwkg/ble/util/HiBleParser.kt:89-98 | False for an absent record, absent bytes or an empty buffer. Otherwise true exactly when bit 0x02 of raw byte 0 is set. |
| BleParser.ConnectableReadsOnlyFirstByte | src/main/java/com/mwkg/ble/util/HiBleParser.kt:91-97 | Two non-empty buffers with the same byte 0 get the same verdict, whatever the other bytes hold. |
| BleParser.ConnectableExamples | src/main/java/com/mwkg/ble/util/HiBleParser.kt:89-98 | A buffer starting with 0x02 is connectable. A buffer starting with 0x00 and the empty buffer are not. |
| BleParser.GetAdvertisementData | src/main/java/com/mwkg/ble/util/HiBleParser.kt:31-81 | Empty for a null record. Otherwise: "isConnectable" is always present; the name is present exactly when the record has one, and equals it; the service UUIDs are present exactly when the list is non-null and non-empty, as text of the same length and order; the Int.MIN_VALUE tx power means absent; manufacturer data and service data match the record's entries. |
| BleParser.AdvertisementOfUnique | src/main/java/com/mwkg/ble/util/HiBleParser.kt:31-81 | These presence rules determine the advertisement map completely. |
| Scanner.DecimalDigits | src/main/java/com/mwkg/ble/util/HiBleScanner.kt:148 | The text of a non-negative number is a string of decimal digits without a leading zero, and it spells that number. |
| Scanner.ScanFailedMessage | src/main/java/com/mwkg/ble/util/HiBleScanner.kt:148 | The failure text is the prefix "BLE scan failed: ", then a minus sign exactly when the code is negative, then decimal digits without a leading zero. That text reads back as the error code. |
| Scanner.HiBleScanner.constructor | src/main/java/com/mwkg/ble/util/HiBleScanner.kt:36-41 | A fresh session has no sink, activity, handles or scan callback, is not scanning and has no radio scan. |
| Scanner.HiBleScanner.Initialize | src/main/java/com/mwkg/ble/util/HiBleScanner.kt:50-55 | The adapter handle is bound as the system provides it. The scanner handle is bound only when the adapter is too. |
| Scanner.HiBleScanner.Start | src/main/java/com/mwkg/ble/util/HiBleScanner.kt:64-99 | Records the activity and replaces the sink before any early return, and re-binds the handles. Without permissions it requests them once and changes nothing else. While scanning it starts no second scan. Otherwise it makes a fresh scan callback: with a scanner handle it scans and exactly one radio scan starts; without one, `isScanning` ends false and no scan starts. It keeps the one-scan invariant. |
| Scanner.HiBleScanner.Stop | src/main/java/com/mwkg/ble/util/HiBleScanner.kt:105-113 | While scanning: one radio scan ends if the scanner handle is bound, `isScanning` ends false, and the scan callback and the sink are released. In any other state nothing changes. The one-scan invariant is kept when the scanner handle is bound. |
| Scanner.HiBleScanner.HasRequiredPermissions | src/main/java/com/mwkg/ble/util/HiBleScanner.kt:120-125 | True exactly when an activity is recorded and its permissions are granted. It changes nothing. |
| Scanner.HiBleScanner.HandleScanResult | src/main/java/com/mwkg/ble/util/HiBleScanner.kt:162-189 | With a sink, exactly one result is appended to the deliveries. It carries the record and RSSI as received, the decoded advertisement, error "", the decoder's major and minor, and the beacon UUID text. Without a beacon it carries -1, -1 and "". Without a sink nothing is delivered. |
| Scanner.HiBleScanner.OnScanResult | src/main/java/com/mwkg/ble/util/HiBleScanner.kt:134-138 | A null result delivers nothing. Any other result is handled as by `HandleScanResult`. |
| Scanner.HiBleScanner.OnScanFailed | src/main/java/com/mwkg/ble/util/HiBleScanner.kt:140-153 | A present sink receives exactly one result: no record, the empty map, RSSI 0, major and minor -1, no beacon UUID, and the error text "BLE scan failed: " followed by the code. Then `stop` runs, so the session is not scanning afterwards. |
| Scanner.SecondStartIsNoOp | src/main/java/com/mwkg/ble/util/HiBleScanner.kt:80-84 | Two starts in a row leave exactly one radio scan, with the second sink registered. |
| Scanner.RestartAfterFailure | src/main/java/com/mwkg/ble/util/HiBleScanner.kt:140-153 | After a failure the session is idle, the failure result carrying the code's text was delivered once, and the next `start` begins exactly one new radio scan. |
| Scanner.ScannerLostWhileScanning | src/main/java/com/mwkg/ble/util/HiBleScanner.kt:71 | When a start made while scanning loses the scanner handle, the following `stop` clears `isScanning` but the radio scan stays active. |
| DeviceList.Matches | src/main/java/com/mwkg/ble/viewmodel/HiBleDeviceListViewModel.kt:48-49 | A device matches itself. When the RSSIs differ but the names agree, only the same non-empty UUID matches. When the UUIDs differ or are empty, only the same name and the same RSSI match. |
| DeviceList.IndexOfFirst | src/main/java/com/mwkg/ble/viewmodel/HiBleDeviceListViewModel.kt:47-50 | Returns -1 exactly when no row matches. Otherwise it returns the first matching index. |
| DeviceList.HiBleDeviceListViewModel.constructor | src/main/java/com/mwkg/ble/viewmodel/HiBleDeviceListViewModel.kt:43-62 | The list starts empty. |
| DeviceList.HiBleDeviceListViewModel.Update | src/main/java/com/mwkg/ble/viewmodel/HiBleDeviceListViewModel.kt:43-62 | The new list is the upsert of the old list with the device. The lemmas below give its properties. |
| DeviceList.UpsertReplacesFirstMatch | src/main/java/com/mwkg/ble/viewmodel/HiBleDeviceListViewModel.kt:47-55 | When some row matches, the result is the old list with only the first matching index overwritten by the device. |
| DeviceList.UpsertAppendsWithoutMatch | src/main/java/com/mwkg/ble/viewmodel/HiBleDeviceListViewModel.kt:56-58 | When no row matches, the result is the old list followed by the device. |
| DeviceList.UpsertShape | src/main/java/com/mwkg/ble/viewmodel/HiBleDeviceListViewModel.kt:52-58 | The length grows by one exactly when nothing matched, and is unchanged otherwise. Every row other than the first match keeps its place and value. |
| DeviceList.FirstMatchExists | src/main/java/com/mwkg/ble/viewmodel/HiBleDeviceListViewModel.kt:47-50 | If any row matches, there is a first matching index. |
| DeviceList.UpsertIdempotent | src/main/java/com/mwkg/ble/viewmodel/HiBleDeviceListViewModel.kt:47-58 | Updating twice with the same device gives the same list as updating once, because a device matches itself on name and RSSI. |
| DeviceList.MatchingUpdatesMerge | src/main/java/com/mwkg/ble/viewmodel/HiBleDeviceListViewModel.kt:47-55 | A second device that matches the first adds no row, whatever the list held. |
| DeviceList.DistinctUpdatesAppend | src/main/java/com/mwkg/ble/viewmodel/HiBleDeviceListViewModel.kt:56-58 | Two devices that match neither the list nor each other become two new rows, in order. |
| DeviceList.DifferentUuidsStillMerge | src/main/java/com/mwkg/ble/viewmodel/HiBleDeviceListViewModel.kt:48-49 | Two devices with different non-empty UUIDs but the same name and RSSI share one row, because the match is a disjunction. |
| DeviceList.EmptyUuidExamples | src/main/java/com/mwkg/ble/viewmodel/HiBleDeviceListViewModel.kt:48-49 | With empty UUIDs, the same name and RSSI merge into one row, and the same name with another RSSI gives two rows. |
| DeviceList.DeviceOf | src/main/java/com/mwkg/ble/view/HiBleDeviceListActivity.kt:63-71 | The row keeps the result's RSSI, major, minor and advertisement. Its name is the record's name when there is one, and "Unknown" otherwise. Its uuid is the text of the first service UUID, and is empty exactly when there is none. Its beacon UUID is the result's, or "" when that is null. |
| DeviceList.UnidentifiedResultsMerge | src/main/java/com/mwkg/ble/view/HiBleDeviceListActivity.kt:63-71 | Results with the same name and RSSI and no service UUIDs collapse into one row, even when they come from two different devices. |

## Left out

- Android `Log` calls: logging only.
- The threads on which the radio callbacks run, and races between a callback and `stop`. The model calls the callbacks in sequence.
- The permission helpers `HiBlePermission` and `hasPermissions`. They are not part of this model; "permissions granted" is a boolean input to `start` and `hasRequiredPermissions`.
- `requestPermissions` is modelled only as a count of requests.
- The Bluetooth system service and the platform `ScanCallback`:
  - the adapter and scanner handles are booleans, and their availability is an input to `start`;
  - `startScan` and `stopScan` are the ghost active-scan counter;
  - a sink is identified by a number;
  - the scan callback is an object whose identity is the only thing kept.
- The scan settings (`SCAN_MODE_LOW_LATENCY`): they configure the radio and do not affect the library's logic.
- `HiBleDeviceListActivity`, `HiBleDeviceListScreen` and `HiBleDeviceItem`: Android and Compose UI. The one exception is the result-to-row mapping, modelled as `DeviceList.DeviceOf`.
- `MutableStateFlow`: `_devices.value` is a plain sequence field, and change notification is not modelled.
- `build.gradle.kts`: build configuration.
- The heterogeneous `Map<String, Any>` is a datatype with one optional field per key. A lookup of an unknown key, or a value of another type, cannot be expressed.
- Kotlin's `Map` iteration order is not modelled. Service data is an ordered sequence of entries. The model does not assume that the UUID keys are distinct; the lemmas that need distinct keys require it.
- Manufacturer data is the sparse array's `keyAt`/`valueAt` pairs in index order. Key order and key uniqueness are not assumed.
- BeaconParser.ToLong: the `or` of shifted bytes is written as a sum; the shifted bytes occupy disjoint bits, so the two agree. The `Long` result is its unsigned 64-bit pattern (the same bits), not a signed value.
- Byte values are unsigned, as `toInt() and 0xff` yields them. `isDeviceConnectable` sign-extends byte 0, but bit 1 is unaffected.
- `ParcelUuid.toString()` is taken to be the `toString()` of the UUID it wraps.

## Findings

| source | as written | input that shows it | evidently intended | confidence | as-written member | corrected member |
|---|---|---|---|---|---|---|
| src/main/java/com/mwkg/ble/util/HiBeaconParser.kt:95-96 | `extractMajor` returns -1 when `size < 26` and otherwise reads `bytes[26]` | a scan record whose buffer has exactly 26 bytes: index 26 is out of range and the read throws | return -1 for fewer than 27 bytes, the length that holds both bytes 25 and 26 | not executed | BeaconParser.ExtractMajor (shown by BeaconParser.MajorReadsPastTwentySixBytes) | BeaconParser.ExtractMajorChecked |
| src/main/java/com/mwkg/ble/util/HiBeaconParser.kt:108-109 | `extractMinor` returns -1 when `size < 28` and otherwise reads `bytes[28]` | a scan record whose buffer has exactly 28 bytes: index 28 is out of range and the read throws | return -1 for fewer than 29 bytes, the length that holds both bytes 27 and 28 | not executed | BeaconParser.ExtractMinor (shown by BeaconParser.MinorReadsPastTwentyEightBytes) | BeaconParser.ExtractMinorChecked |

`BeaconParser.ExtractIBeaconData` uses the corrected readers. `BeaconParser.DecoderUnaffectedByGuards` shows that this changes nothing on the buffers the decoder accepts, since those have at least 30 bytes. Called directly, the public `extractMajor` and `extractMinor` still throw at the boundary length.
