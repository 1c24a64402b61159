/**
 * `HiBeaconParser`: the iBeacon fields at fixed offsets of the raw advertising buffer.
 *
 *   bytes 0..8    preamble and flags
 *   bytes 9..24   beacon UUID, two big-endian 8-byte halves
 *   bytes 25..26  major, big-endian unsigned 16-bit
 *   bytes 27..28  minor, big-endian unsigned 16-bit
 *   byte  29      tx power
 */
module BeaconParser {
  import opened Bytes
  import opened Platform

  /** `IBeaconData`; a missing UUID is `None` and a missing major or minor is -1. */
  datatype IBeaconData = IBeaconData(uuid: Option<Uuid>, major: int, minor: int)

  /** Buffers shorter than this are not decoded as iBeacons. */
  const MIN_BEACON_LENGTH: int := 30

  /** The outcome of code that indexes an array: a value, or the index the JVM rejected. */
  datatype Read<+T> = Value(value: T) | OutOfBounds(index: int)

  /** `bytes[i]`, bounds-checked as on the JVM. */
  function Get(bytes: seq<byte>, i: int): (r: Read<byte>)
  {
    if 0 <= i < |bytes| then Value(bytes[i]) else OutOfBounds(i)
  }

  /**
   * `((bytes[at] and 0xff) shl 8) or (bytes[at + 1] and 0xff)`. Index `at` is read first, so
   * it is the one reported when both are out of range.
   */
  function U16At(bytes: seq<byte>, at: int): (r: Read<int>)
    ensures r.Value? <==> 0 <= at && at + 2 <= |bytes|
    ensures r.OutOfBounds? ==> r.index == if 0 <= at < |bytes| then at + 1 else at
    ensures r.Value? ==> r.value == BigEndian(bytes[at..at + 2]) && 0 <= r.value < 65536
  {
    match Get(bytes, at)
    case OutOfBounds(i) => OutOfBounds(i)
    case Value(hi) =>
      match Get(bytes, at + 1)
      case OutOfBounds(i) => OutOfBounds(i)
      case Value(lo) =>
        BigEndianPair(bytes[at..at + 2]);
        Value(hi * 256 + lo)
  }

  lemma U16AtInRange(bytes: seq<byte>, at: int)
    requires 0 <= at && at + 2 <= |bytes|
    ensures U16At(bytes, at) == Value(BigEndian(bytes[at..at + 2]))
    ensures 0 <= BigEndian(bytes[at..at + 2]) < 65536
  {
    BigEndianPair(bytes[at..at + 2]);
  }

  /** `copyOfRange(from, to)`: `None` where Kotlin throws. */
  function CopyOfRange(bytes: seq<byte>, from: int, to: int): (r: Option<seq<byte>>)
  {
    if 0 <= from <= to <= |bytes| then Some(bytes[from..to]) else None
  }

  /**
   * The body of `toLong`'s `foldIndexed`: byte `i` is shifted left by `8 * (7 - i)` and
   * combined with the accumulator. The shifted bytes occupy disjoint bit ranges, so the
   * `or` of the source is the sum written here.
   */
  function FoldIndexed(bytes: seq<byte>, i: nat, acc: int): (r: int)
    requires |bytes| == 8 && i <= 8
    decreases 8 - i
  {
    if i == 8 then acc else FoldIndexed(bytes, i + 1, acc + bytes[i] * Pow256(7 - i))
  }

  lemma ShiftIn(p: int, b: int, q: int)
    ensures p * (256 * q) + b * q == (p * 256 + b) * q
  {
  }

  lemma {:induction false} FoldIndexedIsBigEndian(bytes: seq<byte>, i: nat, acc: int)
    requires |bytes| == 8 && i <= 8
    requires acc == BigEndian(bytes[..i]) * Pow256(8 - i)
    ensures FoldIndexed(bytes, i, acc) == BigEndian(bytes)
    decreases 8 - i
  {
    if i == 8 {
      assert bytes[..i] == bytes;
    } else {
      var p, q := BigEndian(bytes[..i]), Pow256(7 - i);
      assert bytes[..i + 1][..i] == bytes[..i];
      assert BigEndian(bytes[..i + 1]) == p * 256 + bytes[i];
      assert Pow256(8 - i) == 256 * q;
      ShiftIn(p, bytes[i], q);
      FoldIndexedIsBigEndian(bytes, i + 1, acc + bytes[i] * q);
    }
  }

  /**
   * `ByteArray.toLong`: `require(size == 8)` throws on any other size (`None`); otherwise the
   * big-endian value of the eight bytes, as a 64-bit pattern.
   */
  function ToLong(bytes: seq<byte>): (r: Option<u64>)
    ensures r.Some? <==> |bytes| == 8
    ensures r.Some? ==> r.value == BigEndian(bytes)
  {
    if |bytes| != 8 then None
    else
      FoldIndexedIsBigEndian(bytes, 0, 0);
      EightBytesAreSixtyFourBits();
      Some(FoldIndexed(bytes, 0, 0))
  }

  /** Every 64-bit value survives an 8-byte big-endian encoding followed by `toLong`. */
  lemma ToLongOfEncoding(n: u64)
    ensures ToLong(Encode(n, 8)) == Some(n)
  {
    EightBytesAreSixtyFourBits();
    BigEndianOfEncode(n, 8);
  }

  /** `toLong` maps distinct 8-byte inputs to distinct values. */
  lemma ToLongInjective(a: seq<byte>, b: seq<byte>)
    requires |a| == 8 && |b| == 8 && a != b
    ensures ToLong(a) != ToLong(b)
  {
    if ToLong(a) == ToLong(b) {
      BigEndianInjective(a, b);
    }
  }

  /**
   * The `try` expression of `extractIBeaconData`: `copyOfRange(9, 25)`, then the halves
   * `copyOfRange(0, 8)` and `copyOfRange(8, 16)` through `toLong`; any exception gives `None`.
   */
  function BeaconUuid(bytes: seq<byte>): (u: Option<Uuid>)
    ensures u.Some? <==> |bytes| >= 25
    ensures u.Some? ==> u.value.mostSigBits == BigEndian(bytes[9..17])
    ensures u.Some? ==> u.value.leastSigBits == BigEndian(bytes[17..25])
  {
    assert |bytes| >= 25 ==> bytes[9..25][0..8] == bytes[9..17] && bytes[9..25][8..16] == bytes[17..25];
    match CopyOfRange(bytes, 9, 25)
    case None => None
    case Some(uuidBytes) =>
      match CopyOfRange(uuidBytes, 0, 8)
      case None => None
      case Some(high) =>
        match ToLong(high)
        case None => None
        case Some(mostSig) =>
          match CopyOfRange(uuidBytes, 8, 16)
          case None => None
          case Some(low) =>
            match ToLong(low)
            case None => None
            case Some(leastSig) => Some(Uuid(mostSig, leastSig))
  }

  /** The text of a decoded beacon UUID is the hexadecimal of buffer bytes 9..24, dashed 8-4-4-4-12. */
  lemma BeaconUuidText(bytes: seq<byte>)
    requires |bytes| >= 25
    ensures UuidString(BeaconUuid(bytes).value) == Dashed(HexBytes(bytes[9..25]))
  {
    EncodeOfBigEndian(bytes[9..17]);
    EncodeOfBigEndian(bytes[17..25]);
    assert bytes[9..17] + bytes[17..25] == bytes[9..25];
  }

  /** `extractMajor` as written: the guard `size < 26` lets a 26-byte buffer through to `bytes[26]`. */
  function ExtractMajor(scanRecord: Option<ScanRecord>): (r: Read<int>)
    ensures r == Value(-1) <==> BytesOf(scanRecord).None? || |BytesOf(scanRecord).value| < 26
    ensures r.OutOfBounds? <==> BytesOf(scanRecord).Some? && |BytesOf(scanRecord).value| == 26
    ensures r.OutOfBounds? ==> r.index == 26
    ensures BytesOf(scanRecord).Some? && |BytesOf(scanRecord).value| > 26 ==>
              var b := BytesOf(scanRecord).value;
              r == Value(BigEndian(b[25..27])) && r.value < 65536
  {
    match BytesOf(scanRecord)
    case None => Value(-1)
    case Some(bytes) =>
      if |bytes| < 26 then Value(-1)
      else if |bytes| == 26 then U16At(bytes, 25)
      else
        U16AtInRange(bytes, 25);
        U16At(bytes, 25)
  }

  /** `extractMinor` as written: the guard `size < 28` lets a 28-byte buffer through to `bytes[28]`. */
  function ExtractMinor(scanRecord: Option<ScanRecord>): (r: Read<int>)
    ensures r == Value(-1) <==> BytesOf(scanRecord).None? || |BytesOf(scanRecord).value| < 28
    ensures r.OutOfBounds? <==> BytesOf(scanRecord).Some? && |BytesOf(scanRecord).value| == 28
    ensures r.OutOfBounds? ==> r.index == 28
    ensures BytesOf(scanRecord).Some? && |BytesOf(scanRecord).value| > 28 ==>
              var b := BytesOf(scanRecord).value;
              r == Value(BigEndian(b[27..29])) && r.value < 65536
  {
    match BytesOf(scanRecord)
    case None => Value(-1)
    case Some(bytes) =>
      if |bytes| < 28 then Value(-1)
      else if |bytes| == 28 then U16At(bytes, 27)
      else
        U16AtInRange(bytes, 27);
        U16At(bytes, 27)
  }

  /** `extractMajor` with the guard it needs (`size < 27`): it never reads past the end. */
  function ExtractMajorChecked(scanRecord: Option<ScanRecord>): (r: Read<int>)
    ensures r.Value?
    ensures r.value == -1 <==> BytesOf(scanRecord).None? || |BytesOf(scanRecord).value| < 27
    ensures r.value != -1 ==> 0 <= r.value < 65536 && r.value == BigEndian(BytesOf(scanRecord).value[25..27])
  {
    match BytesOf(scanRecord)
    case None => Value(-1)
    case Some(bytes) =>
      if |bytes| < 27 then Value(-1)
      else
        U16AtInRange(bytes, 25);
        U16At(bytes, 25)
  }

  /** `extractMinor` with the guard it needs (`size < 29`): it never reads past the end. */
  function ExtractMinorChecked(scanRecord: Option<ScanRecord>): (r: Read<int>)
    ensures r.Value?
    ensures r.value == -1 <==> BytesOf(scanRecord).None? || |BytesOf(scanRecord).value| < 29
    ensures r.value != -1 ==> 0 <= r.value < 65536 && r.value == BigEndian(BytesOf(scanRecord).value[27..29])
  {
    match BytesOf(scanRecord)
    case None => Value(-1)
    case Some(bytes) =>
      if |bytes| < 29 then Value(-1)
      else
        U16AtInRange(bytes, 27);
        U16At(bytes, 27)
  }

  /** The two major guards differ on exactly one buffer length: 26 bytes. */
  lemma MajorGuardsDifferOnlyAt26(scanRecord: Option<ScanRecord>)
    ensures ExtractMajor(scanRecord) != ExtractMajorChecked(scanRecord) <==>
              BytesOf(scanRecord).Some? && |BytesOf(scanRecord).value| == 26
  {
  }

  /** The two minor guards differ on exactly one buffer length: 28 bytes. */
  lemma MinorGuardsDifferOnlyAt28(scanRecord: Option<ScanRecord>)
    ensures ExtractMinor(scanRecord) != ExtractMinorChecked(scanRecord) <==>
              BytesOf(scanRecord).Some? && |BytesOf(scanRecord).value| == 28
  {
  }

  /**
   * `extractIBeaconData`. Past the 30-byte gate the UUID slices are always in range, so the
   * `catch` branch is never taken, and both guards of major and minor are passed.
   */
  function ExtractIBeaconData(scanRecord: Option<ScanRecord>): (r: Option<IBeaconData>)
    ensures r.None? <==> BytesOf(scanRecord).None? || |BytesOf(scanRecord).value| < MIN_BEACON_LENGTH
    ensures r.Some? ==>
              var b := BytesOf(scanRecord).value;
              && r.value.uuid.Some?
              && r.value.uuid.value.mostSigBits == BigEndian(b[9..17])
              && r.value.uuid.value.leastSigBits == BigEndian(b[17..25])
              && r.value.major == BigEndian(b[25..27]) && 0 <= r.value.major < 65536
              && r.value.minor == BigEndian(b[27..29]) && 0 <= r.value.minor < 65536
  {
    match BytesOf(scanRecord)
    case None => None
    case Some(bytes) =>
      if |bytes| < MIN_BEACON_LENGTH then None
      else
        var uuid := BeaconUuid(bytes);
        var major := ExtractMajorChecked(scanRecord).value;
        var minor := ExtractMinorChecked(scanRecord).value;
        Some(IBeaconData(uuid, major, minor))
  }

  /** Inside the decoder the as-written `extractMajor` and `extractMinor` return the same values. */
  lemma DecoderUnaffectedByGuards(scanRecord: Option<ScanRecord>)
    requires ExtractIBeaconData(scanRecord).Some?
    ensures ExtractMajor(scanRecord) == Value(ExtractIBeaconData(scanRecord).value.major)
    ensures ExtractMinor(scanRecord) == Value(ExtractIBeaconData(scanRecord).value.minor)
  {
  }

  /** A 26-byte buffer makes the as-written `extractMajor` index past the end instead of returning -1. */
  lemma MajorReadsPastTwentySixBytes()
    ensures ExtractMajor(Some(ScanRecord(None, None, None, None, 0, Some(seq(26, _ => 0))))) == OutOfBounds(26)
  {
  }

  /** A 28-byte buffer makes the as-written `extractMinor` index past the end instead of returning -1. */
  lemma MinorReadsPastTwentyEightBytes()
    ensures ExtractMinor(Some(ScanRecord(None, None, None, None, 0, Some(seq(28, _ => 0))))) == OutOfBounds(28)
  {
  }

  /** Major bytes 0x01 0x02 decode to 258 and minor bytes 0x03 0x04 to 772. */
  lemma MajorMinorExample(bytes: seq<byte>)
    requires |bytes| == 30
    requires bytes[25] == 0x01 && bytes[26] == 0x02 && bytes[27] == 0x03 && bytes[28] == 0x04
    ensures var r := ExtractIBeaconData(Some(ScanRecord(None, None, None, None, 0, Some(bytes))));
            r.Some? && r.value.major == 258 && r.value.minor == 772
  {
    BigEndianPair(bytes[25..27]);
    BigEndianPair(bytes[27..29]);
  }
}
