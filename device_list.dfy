/**
 * `HiBleDeviceListViewModel`: the device list and its upsert, plus the mapping from a scan
 * result to a list row made by `HiBleDeviceListActivity`.
 */
module DeviceList {
  import opened Platform
  import opened BleModel

  /**
   * The match test of `update`: the same non-empty UUID, or the same name and the same RSSI.
   * It is a disjunction: two devices with different UUIDs still match on name and RSSI.
   */
  predicate Matches(existing: HiBleDevice, device: HiBleDevice): (r: bool)
    ensures existing == device ==> r
    ensures existing.uuid == device.uuid && |existing.uuid| > 0 ==> r
    ensures existing.rssi != device.rssi && existing.deviceName == device.deviceName ==>
              (r <==> existing.uuid == device.uuid && |existing.uuid| > 0)
    ensures existing.uuid != device.uuid || |existing.uuid| == 0 ==>
              (r <==> existing.deviceName == device.deviceName && existing.rssi == device.rssi)
  {
    (existing.uuid == device.uuid && |existing.uuid| > 0)
    || (existing.deviceName == device.deviceName && existing.rssi == device.rssi)
  }

  ghost predicate NoMatch(devices: seq<HiBleDevice>, device: HiBleDevice)
  {
    forall k :: 0 <= k < |devices| ==> !Matches(devices[k], device)
  }

  /** `i` is the first index whose entry matches `device`. */
  ghost predicate IsFirstMatch(devices: seq<HiBleDevice>, device: HiBleDevice, i: int)
  {
    && 0 <= i < |devices|
    && Matches(devices[i], device)
    && forall k :: 0 <= k < i ==> !Matches(devices[k], device)
  }

  /**
   * The upsert, as a reference definition: walk the list in order, replace the first entry
   * that matches, and append when none does.
   */
  function Upsert(devices: seq<HiBleDevice>, device: HiBleDevice): (r: seq<HiBleDevice>)
  {
    if devices == [] then [device]
    else if Matches(devices[0], device) then [device] + devices[1..]
    else [devices[0]] + Upsert(devices[1..], device)
  }

  /** When some entry matches, the first one is replaced where it stands. */
  lemma {:induction false} UpsertReplacesFirstMatch(devices: seq<HiBleDevice>, device: HiBleDevice, i: int)
    requires IsFirstMatch(devices, device, i)
    ensures Upsert(devices, device) == devices[i := device]
  {
    if i > 0 {
      assert !Matches(devices[0], device);
      assert IsFirstMatch(devices[1..], device, i - 1) by {
        forall k | 0 <= k < i - 1 ensures !Matches(devices[1..][k], device) {
          assert devices[1..][k] == devices[k + 1];
        }
      }
      UpsertReplacesFirstMatch(devices[1..], device, i - 1);
      assert [devices[0]] + devices[1..][i - 1 := device] == devices[i := device];
    }
  }

  /** When no entry matches, the device is appended. */
  lemma {:induction false} UpsertAppendsWithoutMatch(devices: seq<HiBleDevice>, device: HiBleDevice)
    requires NoMatch(devices, device)
    ensures Upsert(devices, device) == devices + [device]
  {
    if devices != [] {
      assert !Matches(devices[0], device);
      assert NoMatch(devices[1..], device) by {
        forall k | 0 <= k < |devices| - 1 ensures !Matches(devices[1..][k], device) {
          assert devices[1..][k] == devices[k + 1];
        }
      }
      UpsertAppendsWithoutMatch(devices[1..], device);
      assert [devices[0]] + (devices[1..] + [device]) == devices + [device];
    }
  }

  /**
   * The shape of one update: the length grows by one exactly when nothing matched, no entry
   * moves, and only the first match is overwritten.
   */
  lemma UpsertShape(devices: seq<HiBleDevice>, device: HiBleDevice)
    ensures var r := Upsert(devices, device);
            && |r| == |devices| + (if NoMatch(devices, device) then 1 else 0)
            && (forall j :: 0 <= j < |devices| && !IsFirstMatch(devices, device, j) ==> r[j] == devices[j])
            && (forall j :: 0 <= j < |devices| && IsFirstMatch(devices, device, j) ==> r[j] == device)
            && (NoMatch(devices, device) ==> r[|devices|] == device)
  {
    if NoMatch(devices, device) {
      UpsertAppendsWithoutMatch(devices, device);
    } else {
      var i := FirstMatchExists(devices, device);
      UpsertReplacesFirstMatch(devices, device, i);
      forall j | 0 <= j < |devices| && IsFirstMatch(devices, device, j) ensures j == i {
        FirstMatchUnique(devices, device, i, j);
      }
    }
  }

  lemma {:induction false} FirstMatchExists(devices: seq<HiBleDevice>, device: HiBleDevice) returns (i: int)
    requires !NoMatch(devices, device)
    ensures IsFirstMatch(devices, device, i)
  {
    if Matches(devices[0], device) {
      i := 0;
    } else {
      assert !NoMatch(devices[1..], device) by {
        var k :| 0 <= k < |devices| && Matches(devices[k], device);
        assert devices[1..][k - 1] == devices[k];
      }
      var i' := FirstMatchExists(devices[1..], device);
      i := i' + 1;
      forall k | 0 <= k < i ensures !Matches(devices[k], device) {
        if k > 0 { assert devices[k] == devices[1..][k - 1]; }
      }
    }
  }

  lemma FirstMatchUnique(devices: seq<HiBleDevice>, device: HiBleDevice, i: int, j: int)
    requires IsFirstMatch(devices, device, i) && IsFirstMatch(devices, device, j)
    ensures i == j
  {
  }

  /** Updating twice with the same device gives the list of one update: a device matches itself. */
  lemma {:induction false} UpsertIdempotent(devices: seq<HiBleDevice>, device: HiBleDevice)
    ensures Upsert(Upsert(devices, device), device) == Upsert(devices, device)
  {
    if devices == [] {
      assert Matches(device, device);
    } else if Matches(devices[0], device) {
      assert Matches(device, device);
    } else {
      UpsertIdempotent(devices[1..], device);
      var r := Upsert(devices, device);
      assert r[0] == devices[0] && r[1..] == Upsert(devices[1..], device);
    }
  }

  /** A second device matching the first, whatever the list held, adds no row. */
  lemma MatchingUpdatesMerge(devices: seq<HiBleDevice>, a: HiBleDevice, b: HiBleDevice)
    requires Matches(a, b)
    ensures |Upsert(Upsert(devices, a), b)| == |Upsert(devices, a)|
  {
    var once := Upsert(devices, a);
    if NoMatch(devices, a) {
      UpsertAppendsWithoutMatch(devices, a);
      assert once[|devices|] == a;
    } else {
      var i := FirstMatchExists(devices, a);
      UpsertReplacesFirstMatch(devices, a, i);
      assert once[i] == a;
    }
    assert !NoMatch(once, b);
    var j := FirstMatchExists(once, b);
    UpsertReplacesFirstMatch(once, b, j);
  }

  /** Two devices that match neither the list nor each other end up as two new rows, in order. */
  lemma DistinctUpdatesAppend(devices: seq<HiBleDevice>, a: HiBleDevice, b: HiBleDevice)
    requires NoMatch(devices, a) && NoMatch(devices, b) && !Matches(a, b)
    ensures Upsert(Upsert(devices, a), b) == devices + [a, b]
  {
    UpsertAppendsWithoutMatch(devices, a);
    assert NoMatch(devices + [a], b) by {
      forall k | 0 <= k < |devices| + 1 ensures !Matches((devices + [a])[k], b) {
        if k < |devices| { assert (devices + [a])[k] == devices[k]; }
      }
    }
    UpsertAppendsWithoutMatch(devices + [a], b);
  }

  /**
   * The match is a disjunction: two devices with different non-empty UUIDs still share a row
   * when their names and RSSIs agree.
   */
  lemma DifferentUuidsStillMerge(devices: seq<HiBleDevice>, a: HiBleDevice, b: HiBleDevice)
    requires |a.uuid| > 0 && |b.uuid| > 0 && a.uuid != b.uuid
    requires a.deviceName == b.deviceName && a.rssi == b.rssi
    ensures |Upsert(Upsert(devices, a), b)| == |Upsert(devices, a)|
  {
    MatchingUpdatesMerge(devices, a, b);
  }

  /**
   * With empty UUIDs, the same name and RSSI merge into one row, and the same name with another
   * RSSI gives two rows.
   */
  lemma EmptyUuidExamples(a: HiBleDevice, b: HiBleDevice)
    requires a.uuid == "" && b.uuid == "" && a.deviceName == b.deviceName
    ensures a.rssi == b.rssi ==> |Upsert(Upsert([], a), b)| == 1
    ensures a.rssi != b.rssi ==> Upsert(Upsert([], a), b) == [a, b]
  {
    if a.rssi == b.rssi {
      MatchingUpdatesMerge([], a, b);
    } else {
      DistinctUpdatesAppend([], a, b);
    }
  }

  /** `indexOfFirst` with the match test: the first matching index, or -1. */
  method IndexOfFirst(devices: seq<HiBleDevice>, device: HiBleDevice) returns (index: int)
    ensures index == -1 <==> NoMatch(devices, device)
    ensures index != -1 ==> IsFirstMatch(devices, device, index)
  {
    var i := 0;
    while i < |devices|
      invariant 0 <= i <= |devices|
      invariant forall k :: 0 <= k < i ==> !Matches(devices[k], device)
    {
      if Matches(devices[i], device) {
        return i;
      }
      i := i + 1;
    }
    return -1;
  }

  class HiBleDeviceListViewModel {
    /** `_devices.value`. */
    var devices: seq<HiBleDevice>

    constructor ()
      ensures devices == []
    {
      devices := [];
    }

    /**
     * `update`: copy the list, overwrite the first matching entry in place or append, and
     * publish the copy.
     */
    method Update(device: HiBleDevice)
      modifies this
      ensures devices == Upsert(old(devices), device)
    {
      var currentDevices := devices;
      var existingIndex := IndexOfFirst(currentDevices, device);
      if existingIndex >= 0 {
        currentDevices := currentDevices[existingIndex := device];
        UpsertReplacesFirstMatch(devices, device, existingIndex);
      } else {
        currentDevices := currentDevices + [device];
        UpsertAppendsWithoutMatch(devices, device);
      }
      devices := currentDevices;
    }
  }

  /**
   * The row `HiBleDeviceListActivity` builds from a result: the record's name or "Unknown", the
   * first service UUID as text or "", and the beacon UUID or "".
   */
  function DeviceOf(result: HiBleResult): (d: HiBleDevice)
    ensures d.rssi == result.rssi && d.major == result.major && d.minor == result.minor
    ensures d.advertisementData == result.advertisementData
    ensures d.deviceName == "Unknown" <==>
              result.scanRecord.None? || result.scanRecord.value.deviceName.None?
              || result.scanRecord.value.deviceName.value == "Unknown"
    ensures result.scanRecord.Some? && result.scanRecord.value.deviceName.Some? ==>
              d.deviceName == result.scanRecord.value.deviceName.value
    ensures d.uuid == "" <==>
              result.scanRecord.None? || result.scanRecord.value.serviceUuids.None?
              || |result.scanRecord.value.serviceUuids.value| == 0
    ensures d.uuid != "" ==> d.uuid == UuidString(result.scanRecord.value.serviceUuids.value[0])
    ensures result.beaconUUID.Some? ==> d.beaconUUID == result.beaconUUID.value
    ensures result.beaconUUID.None? ==> d.beaconUUID == ""
  {
    var record := result.scanRecord;
    var deviceName :=
      if record.Some? && record.value.deviceName.Some? then record.value.deviceName.value else "Unknown";
    var uuid :=
      if record.Some? && record.value.serviceUuids.Some? && |record.value.serviceUuids.value| > 0
      then UuidString(record.value.serviceUuids.value[0]) else "";
    var beaconUUID := if result.beaconUUID.Some? then result.beaconUUID.value else "";
    HiBleDevice(deviceName, result.rssi, uuid, result.advertisementData, result.major, result.minor, beaconUUID)
  }

  /**
   * Results of one named device with no service UUIDs, at the same RSSI, collapse into one
   * row; so two such devices that happen to share a name and an RSSI also share a row.
   */
  lemma UnidentifiedResultsMerge(devices: seq<HiBleDevice>, r1: HiBleResult, r2: HiBleResult)
    requires r1.scanRecord.Some? && r2.scanRecord.Some?
    requires r1.scanRecord.value.deviceName == r2.scanRecord.value.deviceName
    requires r1.scanRecord.value.serviceUuids.None? && r2.scanRecord.value.serviceUuids.None?
    requires r1.rssi == r2.rssi
    ensures |Upsert(Upsert(devices, DeviceOf(r1)), DeviceOf(r2))| == |Upsert(devices, DeviceOf(r1))|
  {
    MatchingUpdatesMerge(devices, DeviceOf(r1), DeviceOf(r2));
  }
}
