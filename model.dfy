/** The two records the library hands to its users: `HiBleResult` and `HiBleDevice`. */
module BleModel {
  import opened Platform
  import opened BleParser

  /**
   * `HiBleResult`: one emission to the sink. The Kotlin defaults are major = -1, minor = -1,
   * beaconUUID = null and error = "".
   */
  datatype HiBleResult = HiBleResult(
    scanRecord: Option<ScanRecord>,
    advertisementData: AdvertisementData,
    rssi: int,
    major: int,
    minor: int,
    beaconUUID: Option<string>,
    error: string)

  /** `HiBleDevice`: one row of the device list. */
  datatype HiBleDevice = HiBleDevice(
    deviceName: string,
    rssi: int,
    uuid: string,
    advertisementData: AdvertisementData,
    major: int,
    minor: int,
    beaconUUID: string)
}
