/**
 * `HiBleParser`: the advertisement map built from a scan record, and the connectable
 * heuristic on the first raw byte.
 */
module BleParser {
  import opened Bytes
  import opened Platform

  /**
   * The `Map<String, Any>` returned by `getAdvertisementData`, one optional field per key it
   * may hold: "deviceName", "manufacturerData", "serviceUuids", "serviceData",
   * "txPowerLevel" and "isConnectable". An absent field is an absent key.
   */
  datatype AdvertisementData = AdvertisementData(
    deviceName: Option<string>,
    manufacturerData: Option<map<int, seq<byte>>>,
    serviceUuids: Option<seq<string>>,
    serviceData: Option<map<string, seq<byte>>>,
    txPowerLevel: Option<int>,
    isConnectable: Option<bool>)
  {
    /** The keys the map holds. */
    function Keys(): (ks: set<string>)
      ensures ks <= KNOWN_KEYS
      ensures "isConnectable" in ks <==> isConnectable.Some?
      ensures ks == {} <==> this == EMPTY
    {
      (if deviceName.Some? then {"deviceName"} else {})
      + (if manufacturerData.Some? then {"manufacturerData"} else {})
      + (if serviceUuids.Some? then {"serviceUuids"} else {})
      + (if serviceData.Some? then {"serviceData"} else {})
      + (if txPowerLevel.Some? then {"txPowerLevel"} else {})
      + (if isConnectable.Some? then {"isConnectable"} else {})
    }
  }

  const KNOWN_KEYS: set<string> :=
    {"deviceName", "manufacturerData", "serviceUuids", "serviceData", "txPowerLevel", "isConnectable"}

  /** `emptyMap()` / `mapOf()`. */
  const EMPTY: AdvertisementData := AdvertisementData(None, None, None, None, None, None)

  /** No entry after position `i` has the key of entry `i`. */
  ghost predicate LastWithKey<K, V>(entries: seq<(K, V)>, i: int)
    requires 0 <= i < |entries|
  {
    forall j :: i < j < |entries| ==> entries[j].0 != entries[i].0
  }

  /**
   * `m` is what `m[key] = value` over `entries`, in order, builds from an empty map: its keys
   * are the entries' keys, and each key holds the value of its last entry.
   */
  ghost predicate IsEntriesMap<K, V>(m: map<K, V>, entries: seq<(K, V)>)
  {
    && m.Keys == KeysOf(entries)
    && forall i :: 0 <= i < |entries| && LastWithKey(entries, i) ==> m[entries[i].0] == entries[i].1
  }

  ghost function KeysOf<K, V>(entries: seq<(K, V)>): (ks: set<K>)
  {
    set i | 0 <= i < |entries| :: entries[i].0
  }

  ghost predicate DistinctKeys<K, V>(entries: seq<(K, V)>)
  {
    forall i, j :: 0 <= i < j < |entries| ==> entries[i].0 != entries[j].0
  }

  lemma EntriesMapStep<K, V>(m: map<K, V>, entries: seq<(K, V)>, k: K, v: V)
    requires IsEntriesMap(m, entries)
    ensures IsEntriesMap(m[k := v], entries + [(k, v)])
  {
    var es := entries + [(k, v)];
    assert KeysOf(es) == KeysOf(entries) + {k} by {
      forall x | x in KeysOf(entries)
        ensures x in KeysOf(es)
      {
        var i :| 0 <= i < |entries| && entries[i].0 == x;
        assert es[i].0 == x;
      }
      assert es[|entries|].0 == k;
    }
    forall i | 0 <= i < |es| && LastWithKey(es, i)
      ensures m[k := v][es[i].0] == es[i].1
    {
      if i < |entries| {
        assert es[|entries|].0 != es[i].0;
        assert LastWithKey(entries, i) by {
          forall j | i < j < |entries| ensures entries[j].0 != entries[i].0 {
            assert es[j] == entries[j];
          }
        }
      }
    }
  }

  lemma EntriesMapPrefixStep<K, V>(m: map<K, V>, entries: seq<(K, V)>, i: int)
    requires 0 <= i < |entries| && IsEntriesMap(m, entries[..i])
    ensures IsEntriesMap(m[entries[i].0 := entries[i].1], entries[..i + 1])
  {
    EntriesMapStep(m, entries[..i], entries[i].0, entries[i].1);
    assert entries[..i + 1] == entries[..i] + [(entries[i].0, entries[i].1)];
  }

  /** Every key of the entries has a last entry. */
  lemma {:induction false} LastEntryWithKey<K, V>(entries: seq<(K, V)>, k: K) returns (i: int)
    requires k in KeysOf(entries)
    ensures 0 <= i < |entries| && entries[i].0 == k && LastWithKey(entries, i)
  {
    var n := |entries| - 1;
    if entries[n].0 == k {
      i := n;
    } else {
      var init := entries[..n];
      var j :| 0 <= j < |entries| && entries[j].0 == k;
      assert init[j].0 == k;
      i := LastEntryWithKey(init, k);
      forall j | i < j < |entries| ensures entries[j].0 != entries[i].0 {
        if j < n { assert init[j] == entries[j]; }
      }
    }
  }

  /** The entries determine the map they build. */
  lemma EntriesMapUnique<K, V>(m1: map<K, V>, m2: map<K, V>, entries: seq<(K, V)>)
    requires IsEntriesMap(m1, entries) && IsEntriesMap(m2, entries)
    ensures m1 == m2
  {
    forall k | k in m1 ensures m1[k] == m2[k] {
      var i := LastEntryWithKey(entries, k);
    }
  }

  /** With distinct keys the map holds exactly the given entries, one key per entry. */
  lemma {:induction false} EntriesMapOfDistinctKeys<K, V>(m: map<K, V>, entries: seq<(K, V)>)
    requires IsEntriesMap(m, entries) && DistinctKeys(entries)
    ensures |m| == |entries|
    ensures forall i :: 0 <= i < |entries| ==> m[entries[i].0] == entries[i].1
  {
    forall i | 0 <= i < |entries| ensures m[entries[i].0] == entries[i].1 {
      assert LastWithKey(entries, i);
    }
    KeyCount(entries);
  }

  lemma {:induction false} KeyCount<K, V>(entries: seq<(K, V)>)
    requires DistinctKeys(entries)
    ensures |KeysOf(entries)| == |entries|
  {
    if entries != [] {
      var init := entries[..|entries| - 1];
      var last := entries[|entries| - 1];
      assert DistinctKeys(init) by {
        forall i, j | 0 <= i < j < |init| ensures init[i].0 != init[j].0 {
          assert init[i] == entries[i] && init[j] == entries[j];
        }
      }
      KeyCount(init);
      var keys := KeysOf(entries);
      var initKeys := KeysOf(init);
      assert keys == initKeys + {last.0} by {
        forall x | x in keys ensures x in initKeys + {last.0} {
          var i :| 0 <= i < |entries| && entries[i].0 == x;
          if i < |init| { assert init[i].0 == x; }
        }
        forall x | x in initKeys ensures x in keys {
          var i :| 0 <= i < |init| && init[i].0 == x;
          assert entries[i].0 == x;
        }
      }
      assert last.0 !in initKeys by {
        forall i | 0 <= i < |init| ensures init[i].0 != last.0 {
          assert init[i] == entries[i];
        }
      }
    }
  }

  /** The manufacturer loop: `manufacturerEntries[keyAt(i)] = valueAt(i)` for i in 0 until size(). */
  method CollectManufacturerData(sparse: seq<(int, seq<byte>)>) returns (entries: map<int, seq<byte>>)
    ensures IsEntriesMap(entries, sparse)
  {
    entries := map[];
    for i := 0 to |sparse|
      invariant IsEntriesMap(entries, sparse[..i])
    {
      EntriesMapPrefixStep(entries, sparse, i);
      entries := entries[sparse[i].0 := sparse[i].1];
    }
    assert sparse[..|sparse|] == sparse;
  }

  /** The service-data entries with each `ParcelUuid` key replaced by its `toString()`. */
  function TextKeyed(serviceData: seq<(Uuid, seq<byte>)>): (r: seq<(string, seq<byte>)>)
    ensures |r| == |serviceData|
    ensures forall i :: 0 <= i < |r| ==> r[i] == (UuidString(serviceData[i].0), serviceData[i].1)
  {
    seq(|serviceData|, i requires 0 <= i < |serviceData| => (UuidString(serviceData[i].0), serviceData[i].1))
  }

  /** Distinct UUID keys stay distinct once turned into text. */
  lemma TextKeysDistinct(serviceData: seq<(Uuid, seq<byte>)>)
    requires DistinctKeys(serviceData)
    ensures DistinctKeys(TextKeyed(serviceData))
  {
    var t := TextKeyed(serviceData);
    forall i, j | 0 <= i < j < |t| ensures t[i].0 != t[j].0 {
      if t[i].0 == t[j].0 {
        UuidStringInjective(serviceData[i].0, serviceData[j].0);
      }
    }
  }

  /** The service-data loop: `serviceDataEntries[entry.key.toString()] = entry.value` per entry. */
  method CollectServiceData(serviceData: seq<(Uuid, seq<byte>)>) returns (entries: map<string, seq<byte>>)
    ensures IsEntriesMap(entries, TextKeyed(serviceData))
  {
    ghost var keyed := TextKeyed(serviceData);
    entries := map[];
    for i := 0 to |serviceData|
      invariant IsEntriesMap(entries, keyed[..i])
    {
      var entry := serviceData[i];
      EntriesMapPrefixStep(entries, keyed, i);
      entries := entries[UuidString(entry.0) := entry.1];
    }
    assert keyed[..|serviceData|] == keyed;
  }

  /** One "serviceData" entry per service-data entry of the record, each under its UUID's text. */
  lemma ServiceDataOnePerEntry(entries: map<string, seq<byte>>, serviceData: seq<(Uuid, seq<byte>)>)
    requires IsEntriesMap(entries, TextKeyed(serviceData)) && DistinctKeys(serviceData)
    ensures |entries| == |serviceData|
    ensures forall i :: 0 <= i < |serviceData| ==> entries[UuidString(serviceData[i].0)] == serviceData[i].1
  {
    TextKeysDistinct(serviceData);
    EntriesMapOfDistinctKeys(entries, TextKeyed(serviceData));
  }

  /**
   * `isDeviceConnectable`: `false` without a record, bytes or a first byte; otherwise whether
   * bit 0x02 of raw byte 0 is set.
   */
  function IsDeviceConnectable(scanRecord: Option<ScanRecord>): (r: bool)
    ensures r <==> BytesOf(scanRecord).Some? && |BytesOf(scanRecord).value| > 0
                   && (BytesOf(scanRecord).value[0] / 2) % 2 == 1
  {
    match BytesOf(scanRecord)
    case None => false
    case Some(bytes) =>
      if |bytes| == 0 then false
      else (bytes[0] as bv8) & 0x02 != 0
  }

  /** The heuristic reads byte 0 and no other byte of the buffer. */
  lemma ConnectableReadsOnlyFirstByte(r1: ScanRecord, r2: ScanRecord)
    requires r1.bytes.Some? && r2.bytes.Some? && |r1.bytes.value| > 0 && |r2.bytes.value| > 0
    requires r1.bytes.value[0] == r2.bytes.value[0]
    ensures IsDeviceConnectable(Some(r1)) == IsDeviceConnectable(Some(r2))
  {
  }

  /** `[0x02, ...]` is connectable, `[0x00, ...]` and the empty buffer are not. */
  lemma ConnectableExamples(rest: seq<byte>)
    ensures IsDeviceConnectable(Some(ScanRecord(None, None, None, None, 0, Some([0x02] + rest))))
    ensures !IsDeviceConnectable(Some(ScanRecord(None, None, None, None, 0, Some([0x00] + rest))))
    ensures !IsDeviceConnectable(Some(ScanRecord(None, None, None, None, 0, Some([]))))
  {
  }

  /**
   * The presence rules of `getAdvertisementData`: nothing for a null record; otherwise the name
   * when there is one, the manufacturer and service-data entries when the record has them,
   * the service UUIDs as text when the list is non-empty, the tx power unless it is the
   * `Int.MIN_VALUE` sentinel, and the connectable flag always.
   */
  ghost predicate AdvertisementOf(scanRecord: Option<ScanRecord>, data: AdvertisementData)
  {
    && (scanRecord.None? ==> data == EMPTY)
    && data.isConnectable == (if scanRecord.Some? then Some(IsDeviceConnectable(scanRecord)) else None)
    && data.deviceName == (if scanRecord.Some? then scanRecord.value.deviceName else None)
    && (data.manufacturerData.Some? <==> scanRecord.Some? && scanRecord.value.manufacturerSpecificData.Some?)
    && (data.manufacturerData.Some? ==>
          IsEntriesMap(data.manufacturerData.value, scanRecord.value.manufacturerSpecificData.value))
    && (data.serviceUuids.Some? <==>
          scanRecord.Some? && scanRecord.value.serviceUuids.Some? && |scanRecord.value.serviceUuids.value| > 0)
    && (data.serviceUuids.Some? ==>
          var uuids := scanRecord.value.serviceUuids.value;
          && |data.serviceUuids.value| == |uuids|
          && forall i :: 0 <= i < |uuids| ==> data.serviceUuids.value[i] == UuidString(uuids[i]))
    && (data.serviceData.Some? <==> scanRecord.Some? && scanRecord.value.serviceData.Some?)
    && (data.serviceData.Some? ==>
          IsEntriesMap(data.serviceData.value, TextKeyed(scanRecord.value.serviceData.value)))
    && (data.txPowerLevel.Some? <==> scanRecord.Some? && scanRecord.value.txPowerLevel != INT_MIN)
    && (data.txPowerLevel.Some? ==> data.txPowerLevel.value == scanRecord.value.txPowerLevel)
  }

  /** The presence rules determine the advertisement map completely. */
  lemma AdvertisementOfUnique(scanRecord: Option<ScanRecord>, d1: AdvertisementData, d2: AdvertisementData)
    requires AdvertisementOf(scanRecord, d1) && AdvertisementOf(scanRecord, d2)
    ensures d1 == d2
  {
    if d1.manufacturerData.Some? {
      EntriesMapUnique(d1.manufacturerData.value, d2.manufacturerData.value,
                       scanRecord.value.manufacturerSpecificData.value);
    }
    if d1.serviceData.Some? {
      EntriesMapUnique(d1.serviceData.value, d2.serviceData.value, TextKeyed(scanRecord.value.serviceData.value));
    }
    if d1.serviceUuids.Some? {
      assert d1.serviceUuids.value == d2.serviceUuids.value;
    }
  }

  /** `getAdvertisementData`: the keys are inserted one by one, each only under its own condition. */
  method GetAdvertisementData(scanRecord: Option<ScanRecord>) returns (data: AdvertisementData)
    ensures AdvertisementOf(scanRecord, data)
    ensures scanRecord.Some? ==> "isConnectable" in data.Keys()
  {
    if scanRecord.None? {
      return EMPTY;
    }
    var record := scanRecord.value;
    data := EMPTY;

    if record.deviceName.Some? {
      data := data.(deviceName := record.deviceName);
    }

    if record.manufacturerSpecificData.Some? {
      var manufacturerEntries := CollectManufacturerData(record.manufacturerSpecificData.value);
      data := data.(manufacturerData := Some(manufacturerEntries));
    }

    if record.serviceUuids.Some? && |record.serviceUuids.value| > 0 {
      var uuids := record.serviceUuids.value;
      data := data.(serviceUuids := Some(seq(|uuids|, i requires 0 <= i < |uuids| => UuidString(uuids[i]))));
    }

    if record.serviceData.Some? {
      var serviceDataEntries := CollectServiceData(record.serviceData.value);
      data := data.(serviceData := Some(serviceDataEntries));
    }

    if record.txPowerLevel != INT_MIN {
      data := data.(txPowerLevel := Some(record.txPowerLevel));
    }

    var isConnectable := IsDeviceConnectable(scanRecord);
    data := data.(isConnectable := Some(isConnectable));
  }
}
