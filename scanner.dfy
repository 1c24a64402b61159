/**
 * `HiBleScanner`: the scan session. The singleton's fields become the fields of a class;
 * the platform radio, the permission collaborator and the Bluetooth system service are
 * inputs to its methods, and the radio callbacks are ordinary method calls.
 */
module Scanner {
  import opened Bytes
  import opened Platform
  import opened BeaconParser
  import opened BleParser
  import opened BleModel

  /** Identifies the host `Activity` passed to `start`. */
  type ActivityId = nat

  /** Identifies a result sink, the `(HiBleResult) -> Unit` passed to `start`. */
  type SinkId = nat

  /** The `ScanCallback` object made by `createScanCallback`; only its identity matters here. */
  class ScanCallback {
    constructor ()
    {
    }
  }

  /** The number a string of decimal digits spells, most significant digit first. */
  function DecimalValue(s: string): (n: int)
  {
    if |s| == 0 then 0 else DecimalValue(s[..|s| - 1]) * 10 + (s[|s| - 1] as int - '0' as int)
  }

  /** The text of `n` in decimal, as Kotlin's string template writes a non-negative `Int`. */
  function DecimalDigits(n: nat): (s: string)
    ensures |s| >= 1
    ensures forall i :: 0 <= i < |s| ==> '0' <= s[i] <= '9'
    ensures DecimalValue(s) == n
    ensures |s| > 1 ==> s[0] != '0'
  {
    if n < 10 then [('0' as int + n) as char]
    else
      var s := DecimalDigits(n / 10) + [('0' as int + n % 10) as char];
      assert s[..|s| - 1] == DecimalDigits(n / 10);
      s
  }

  const SCAN_FAILED_PREFIX: string := "BLE scan failed: "

  /** The number a decimal text with an optional leading minus spells. */
  function SignedDecimalValue(s: string): (n: int)
  {
    if |s| > 0 && s[0] == '-' then -DecimalValue(s[1..]) else DecimalValue(s)
  }

  /** `"BLE scan failed: $errorCode"`: the fixed prefix followed by the code's decimal text. */
  function ScanFailedMessage(errorCode: int): (s: string)
    ensures |s| > |SCAN_FAILED_PREFIX|
    ensures s[..|SCAN_FAILED_PREFIX|] == SCAN_FAILED_PREFIX
    ensures SignedDecimalValue(s[|SCAN_FAILED_PREFIX|..]) == errorCode
    ensures s[|SCAN_FAILED_PREFIX|] == '-' <==> errorCode < 0
    ensures var digits := s[|SCAN_FAILED_PREFIX| + (if errorCode < 0 then 1 else 0)..];
            && |digits| >= 1
            && (forall i :: 0 <= i < |digits| ==> '0' <= digits[i] <= '9')
            && (|digits| > 1 ==> digits[0] != '0')
  {
    var digits := if errorCode < 0 then "-" + DecimalDigits(-errorCode) else DecimalDigits(errorCode);
    var s := SCAN_FAILED_PREFIX + digits;
    assert s[|SCAN_FAILED_PREFIX|..] == digits;
    assert errorCode < 0 ==> digits[1..] == DecimalDigits(-errorCode);
    assert errorCode < 0 ==> s[|SCAN_FAILED_PREFIX| + 1..] == DecimalDigits(-errorCode);
    s
  }

  /**
   * What `handleScanResult` delivers for a radio result: the record and RSSI as received, the
   * decoded advertisement, no error, and the iBeacon fields of the buffer, or -1, -1 and ""
   * when the buffer holds fewer than 30 bytes.
   */
  ghost predicate ResultOf(result: RadioScanResult, r: HiBleResult)
  {
    var bytes := BytesOf(result.scanRecord);
    && r.scanRecord == result.scanRecord
    && r.rssi == result.rssi
    && r.error == ""
    && AdvertisementOf(result.scanRecord, r.advertisementData)
    && if bytes.None? || |bytes.value| < MIN_BEACON_LENGTH then
         r.major == -1 && r.minor == -1 && r.beaconUUID == Some("")
       else
         && r.major == BigEndian(bytes.value[25..27])
         && r.minor == BigEndian(bytes.value[27..29])
         && r.beaconUUID == Some(Dashed(HexBytes(bytes.value[9..25])))
  }

  /** What `onScanFailed` delivers: no record, an empty map, RSSI 0, the defaults, and an error. */
  ghost predicate FailureResult(r: HiBleResult, errorCode: int)
  {
    && r.scanRecord.None?
    && r.advertisementData == EMPTY
    && r.rssi == 0
    && r.major == -1 && r.minor == -1 && r.beaconUUID.None?
    && r.error == ScanFailedMessage(errorCode)
  }

  class HiBleScanner {
    /** The registered sink (`callback`). */
    var callback: Option<SinkId>
    /** Whether `bluetoothAdapter` is non-null. */
    var hasAdapter: bool
    /** Whether `bluetoothLeScanner` is non-null. */
    var hasScanner: bool
    var isScanning: bool
    var scanCallback: ScanCallback?
    var activity: Option<ActivityId>

    /** Radio scans started with `startScan` and not yet ended with `stopScan`. */
    ghost var activeScans: nat
    /** Every result handed to a sink, in order, with the sink it went to. */
    ghost var deliveries: seq<(SinkId, HiBleResult)>
    /** Calls of `requestPermissions`. */
    ghost var permissionRequests: nat

    ghost predicate Valid()
      reads this
    {
      && (isScanning ==> scanCallback != null)
      && (isScanning ==> activeScans >= 1)
    }

    /**
     * The single-flight invariant: one radio scan while scanning, none otherwise. `start`
     * keeps it; `stop` keeps it only when the scanner handle is still bound (see `Stop`).
     */
    ghost predicate OneScanPerSession()
      reads this
    {
      activeScans == if isScanning then 1 else 0
    }

    constructor ()
      ensures Valid() && OneScanPerSession()
      ensures callback.None? && activity.None? && scanCallback == null
      ensures !isScanning && !hasAdapter && !hasScanner
      ensures activeScans == 0 && deliveries == [] && permissionRequests == 0
    {
      callback := None;
      hasAdapter := false;
      hasScanner := false;
      isScanning := false;
      scanCallback := null;
      activity := None;
      activeScans := 0;
      deliveries := [];
      permissionRequests := 0;
    }

    /**
     * `initialize`: binds the adapter from the Bluetooth service and the scanner from the
     * adapter; a missing adapter leaves the scanner unbound too.
     */
    method Initialize(adapterPresent: bool, scannerPresent: bool)
      modifies this`hasAdapter, this`hasScanner
      ensures hasAdapter == adapterPresent
      ensures hasScanner == (adapterPresent && scannerPresent)
    {
      hasAdapter := adapterPresent;
      hasScanner := hasAdapter && scannerPresent;
    }

    /**
     * `start`. The activity and the sink are recorded and the handles re-bound before any
     * check. Without permissions they are requested and nothing else happens; while scanning
     * nothing else happens; otherwise a fresh scan callback is made and, if the scanner is
     * bound, one radio scan starts.
     */
    method Start(act: ActivityId, sink: SinkId, permissionsGranted: bool, adapterPresent: bool, scannerPresent: bool)
      requires Valid()
      modifies this
      ensures Valid()
      ensures activity == Some(act) && callback == Some(sink)
      ensures hasAdapter == adapterPresent && hasScanner == (adapterPresent && scannerPresent)
      ensures deliveries == old(deliveries)
      ensures permissionRequests == old(permissionRequests) + (if permissionsGranted then 0 else 1)
      ensures !permissionsGranted || old(isScanning) ==>
                isScanning == old(isScanning) && scanCallback == old(scanCallback) && activeScans == old(activeScans)
      ensures permissionsGranted && !old(isScanning) ==>
                && scanCallback != null && fresh(scanCallback)
                && isScanning == hasScanner
                && activeScans == old(activeScans) + (if hasScanner then 1 else 0)
      ensures old(OneScanPerSession()) ==> OneScanPerSession()
    {
      activity := Some(act);
      callback := Some(sink);

      Initialize(adapterPresent, scannerPresent);

      if !permissionsGranted {
        permissionRequests := permissionRequests + 1;
        return;
      }

      if isScanning {
        return;
      }

      isScanning := true;
      scanCallback := new ScanCallback();

      if hasScanner {
        activeScans := activeScans + 1;
      } else {
        isScanning := false;
      }
    }

    /**
     * `stop`. While scanning it ends the radio scan through the bound scanner (if any), clears
     * the flag and releases the scan callback and the sink; in any other state it does nothing.
     * A scanner that became unbound while scanning leaves its radio scan running.
     */
    method Stop()
      requires Valid()
      modifies this
      ensures Valid()
      ensures !isScanning
      ensures old(isScanning) ==>
                && scanCallback == null && callback.None?
                && activeScans == old(activeScans) - (if old(hasScanner) then 1 else 0)
      ensures !old(isScanning) ==> scanCallback == old(scanCallback) && callback == old(callback)
      ensures !old(isScanning) ==> activeScans == old(activeScans)
      ensures activity == old(activity) && hasAdapter == old(hasAdapter) && hasScanner == old(hasScanner)
      ensures deliveries == old(deliveries) && permissionRequests == old(permissionRequests)
      ensures old(OneScanPerSession()) && (old(isScanning) ==> old(hasScanner)) ==> OneScanPerSession()
      ensures old(isScanning) && !old(hasScanner) ==> activeScans == old(activeScans) >= 1
    {
      if isScanning && scanCallback != null {
        if hasScanner {
          activeScans := activeScans - 1;
        }
        isScanning := false;
        scanCallback := null;
        callback := None;
      }
    }

    /**
     * `hasRequiredPermissions`: false until an activity is recorded; it changes nothing. With the
     * permission lookup given as the input `granted`, the contract is all the source decides.
     */
    method HasRequiredPermissions(granted: bool) returns (r: bool)
      ensures r <==> activity.Some? && granted
    {
      r := activity.Some? && granted;
    }

    /**
     * `handleScanResult`: decodes the advertisement and the iBeacon fields of the record and
     * hands the result to the sink, if one is registered.
     */
    method HandleScanResult(result: RadioScanResult)
      modifies this`deliveries
      ensures callback.None? ==> deliveries == old(deliveries)
      ensures callback.Some? ==>
                && |deliveries| == |old(deliveries)| + 1
                && deliveries[..|old(deliveries)|] == old(deliveries)
                && deliveries[|old(deliveries)|].0 == callback.value
                && ResultOf(result, deliveries[|old(deliveries)|].1)
    {
      var scanRecord := result.scanRecord;
      var rssi := result.rssi;
      var advertisementData := GetAdvertisementData(scanRecord);
      var ibeaconData := ExtractIBeaconData(scanRecord);

      var major := if ibeaconData.Some? then ibeaconData.value.major else -1;
      var minor := if ibeaconData.Some? then ibeaconData.value.minor else -1;

      var beaconUUID := if ibeaconData.Some? && ibeaconData.value.uuid.Some?
                        then UuidString(ibeaconData.value.uuid.value) else "";

      if callback.Some? {
        var r := HiBleResult(scanRecord, advertisementData, rssi, major, minor, Some(beaconUUID), "");
        if ibeaconData.Some? {
          BeaconUuidText(BytesOf(scanRecord).value);
        }
        deliveries := deliveries + [(callback.value, r)];
      }
    }

    /** `onScanResult`: a null result is ignored. */
    method OnScanResult(result: Option<RadioScanResult>)
      modifies this`deliveries
      ensures result.None? || callback.None? ==> deliveries == old(deliveries)
      ensures result.Some? && callback.Some? ==>
                && |deliveries| == |old(deliveries)| + 1
                && deliveries[..|old(deliveries)|] == old(deliveries)
                && deliveries[|old(deliveries)|].0 == callback.value
                && ResultOf(result.value, deliveries[|old(deliveries)|].1)
    {
      if result.Some? {
        HandleScanResult(result.value);
      }
    }

    /**
     * `onScanFailed`: the sink, if any, receives one error result; then `stop` runs, so the
     * session is idle afterwards.
     */
    method OnScanFailed(errorCode: int)
      requires Valid()
      modifies this
      ensures Valid()
      ensures !isScanning
      ensures old(callback).None? ==> deliveries == old(deliveries)
      ensures old(callback).Some? ==>
                && |deliveries| == |old(deliveries)| + 1
                && deliveries[..|old(deliveries)|] == old(deliveries)
                && deliveries[|old(deliveries)|].0 == old(callback).value
                && FailureResult(deliveries[|old(deliveries)|].1, errorCode)
      ensures old(isScanning) ==>
                && scanCallback == null && callback.None?
                && activeScans == old(activeScans) - (if old(hasScanner) then 1 else 0)
      ensures !old(isScanning) ==>
                scanCallback == old(scanCallback) && callback == old(callback) && activeScans == old(activeScans)
      ensures activity == old(activity) && hasAdapter == old(hasAdapter) && hasScanner == old(hasScanner)
      ensures permissionRequests == old(permissionRequests)
      ensures old(OneScanPerSession()) && (old(isScanning) ==> old(hasScanner)) ==> OneScanPerSession()
    {
      if callback.Some? {
        var r := HiBleResult(None, EMPTY, 0, -1, -1, None, ScanFailedMessage(errorCode));
        deliveries := deliveries + [(callback.value, r)];
      }
      Stop();
    }
  }

  /** Two `start` calls in a row with everything available leave exactly one radio scan. */
  method SecondStartIsNoOp() returns (s: HiBleScanner)
    ensures fresh(s) && s.Valid()
    ensures s.isScanning && s.activeScans == 1 && s.callback == Some(2)
  {
    s := new HiBleScanner();
    s.Start(1, 1, true, true, true);
    s.Start(1, 2, true, true, true);
  }

  /** After a scan failure the session is idle, and the next `start` begins a new radio scan. */
  method RestartAfterFailure() returns (s: HiBleScanner)
    ensures fresh(s) && s.Valid()
    ensures s.isScanning && s.activeScans == 1 && s.OneScanPerSession()
    ensures |s.deliveries| == 1 && s.deliveries[0].0 == 1 && FailureResult(s.deliveries[0].1, 2)
  {
    s := new HiBleScanner();
    s.Start(1, 1, true, true, true);
    s.OnScanFailed(2);
    assert !s.isScanning && s.activeScans == 0;
    s.Start(1, 3, true, true, true);
  }

  /**
   * A `start` made while scanning re-binds the scanner handle; if it comes back null, the
   * following `stop` clears the flag but cannot end the radio scan.
   */
  method ScannerLostWhileScanning() returns (s: HiBleScanner)
    ensures fresh(s) && s.Valid()
    ensures !s.isScanning && s.activeScans == 1 && !s.OneScanPerSession()
  {
    s := new HiBleScanner();
    s.Start(1, 1, true, true, true);
    s.Start(1, 1, true, true, false);
    s.Stop();
  }
}
