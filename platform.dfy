/**
 * The Android and Java values the library consumes: `java.util.UUID`, the scan record
 * (`android.bluetooth.le.ScanRecord`) and the radio's scan result (`ScanResult`).
 * Nullable platform references become `Option`.
 */
module Platform {
  import opened Bytes

  datatype Option<+T> = None | Some(value: T)

  /** `Int.MIN_VALUE`, which `ScanRecord.getTxPowerLevel` returns when no level was advertised. */
  const INT_MIN: int := -0x8000_0000

  type int32 = x: int | -0x8000_0000 <= x < 0x8000_0000

  /** `java.util.UUID`: the most- and least-significant 64 bits. */
  datatype Uuid = Uuid(mostSigBits: u64, leastSigBits: u64)

  /** The lower-case hexadecimal digit of a nibble. */
  function HexDigit(d: int): (c: char)
    requires 0 <= d < 16
    ensures '0' <= c <= '9' || 'a' <= c <= 'f'
  {
    if d < 10 then ('0' as int + d) as char else ('a' as int + d - 10) as char
  }

  lemma HexDigitInjective(d: int, e: int)
    requires 0 <= d < 16 && 0 <= e < 16 && HexDigit(d) == HexDigit(e)
    ensures d == e
  {
  }

  /** Two lower-case hexadecimal digits per byte. */
  function HexBytes(s: seq<byte>): (h: string)
    ensures |h| == 2 * |s|
    ensures forall i :: 0 <= i < |s| ==> h[2 * i] == HexDigit(s[i] / 16) && h[2 * i + 1] == HexDigit(s[i] % 16)
  {
    if s == [] then [] else [HexDigit(s[0] / 16), HexDigit(s[0] % 16)] + HexBytes(s[1..])
  }

  /** The 8-4-4-4-12 grouping of 32 hexadecimal digits. */
  function Dashed(h: string): (d: string)
    requires |h| == 32
    ensures |d| == 36
  {
    h[..8] + "-" + h[8..12] + "-" + h[12..16] + "-" + h[16..20] + "-" + h[20..]
  }

  /**
   * `UUID.toString`: the 16 big-endian bytes of the two halves as lower-case hexadecimal,
   * grouped 8-4-4-4-12 with dashes.
   */
  function UuidString(u: Uuid): (s: string)
    ensures |s| == 36
  {
    Dashed(HexBytes(Encode(u.mostSigBits, 8) + Encode(u.leastSigBits, 8)))
  }

  lemma HexBytesInjective(s: seq<byte>, t: seq<byte>)
    requires |s| == |t| && HexBytes(s) == HexBytes(t)
    ensures s == t
  {
    forall i | 0 <= i < |s|
      ensures s[i] == t[i]
    {
      HexDigitInjective(s[i] / 16, t[i] / 16);
      HexDigitInjective(s[i] % 16, t[i] % 16);
    }
  }

  lemma DashedInjective(h: string, g: string)
    requires |h| == 32 && |g| == 32 && Dashed(h) == Dashed(g)
    ensures h == g
  {
    var d := Dashed(h);
    assert h[..8] == d[..8] == g[..8];
    assert h[8..12] == d[9..13] == g[8..12];
    assert h[12..16] == d[14..18] == g[12..16];
    assert h[16..20] == d[19..23] == g[16..20];
    assert h[20..] == d[24..] == g[20..];
    assert h == h[..8] + h[8..12] + h[12..16] + h[16..20] + h[20..];
    assert g == g[..8] + g[8..12] + g[12..16] + g[16..20] + g[20..];
  }

  /** Distinct UUIDs have distinct textual forms. */
  lemma UuidStringInjective(u: Uuid, v: Uuid)
    requires UuidString(u) == UuidString(v)
    ensures u == v
  {
    var su := Encode(u.mostSigBits, 8) + Encode(u.leastSigBits, 8);
    var sv := Encode(v.mostSigBits, 8) + Encode(v.leastSigBits, 8);
    DashedInjective(HexBytes(su), HexBytes(sv));
    HexBytesInjective(su, sv);
    assert su[..8] == Encode(u.mostSigBits, 8) && sv[..8] == Encode(v.mostSigBits, 8);
    assert su[8..] == Encode(u.leastSigBits, 8) && sv[8..] == Encode(v.leastSigBits, 8);
    EightBytesAreSixtyFourBits();
    BigEndianOfEncode(u.mostSigBits, 8);
    BigEndianOfEncode(v.mostSigBits, 8);
    BigEndianOfEncode(u.leastSigBits, 8);
    BigEndianOfEncode(v.leastSigBits, 8);
  }

  /**
   * `ScanRecord`, through the accessors the library calls. The manufacturer data is the
   * `SparseArray` seen through `keyAt(i)`/`valueAt(i)`; the service data is the entry list of
   * its `Map<ParcelUuid, ByteArray>`; `bytes` is the raw advertising buffer.
   */
  datatype ScanRecord = ScanRecord(
    deviceName: Option<string>,
    manufacturerSpecificData: Option<seq<(int, seq<byte>)>>,
    serviceUuids: Option<seq<Uuid>>,
    serviceData: Option<seq<(Uuid, seq<byte>)>>,
    txPowerLevel: int32,
    bytes: Option<seq<byte>>)

  /** `ScanResult` as delivered to `onScanResult`: the (nullable) record and the RSSI. */
  datatype RadioScanResult = RadioScanResult(scanRecord: Option<ScanRecord>, rssi: int32)

  /** `scanRecord?.bytes`. */
  function BytesOf(scanRecord: Option<ScanRecord>): (b: Option<seq<byte>>)
  {
    if scanRecord.Some? then scanRecord.value.bytes else None
  }
}
