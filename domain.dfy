/**
 * The value types of the aggregator: the identity a Bluetooth beacon advertises
 * and one observation of a mobile beacon by a stone.
 */
module Domain {

  /** A beacon identity: uuid, major and minor. Equality is structural, as in BeaconId.__eq__. */
  datatype BeaconId = BeaconId(uuid: string, major: int, minor: int)

  /** The identity given to a contact whose report entry does not carry all three beacon fields. */
  const NoBeacon := BeaconId("", 0, 0)

  /**
   * One sighting of the device `macAddress` by a stone at `timestamp` (epoch seconds),
   * with the minimum, maximum and average RSSI the stone measured and the RSSI
   * the device reported as its transmit power.
   */
  datatype Contact = Contact(
    timestamp: int,
    macAddress: string,
    bAddress: BeaconId,
    rssiMin: int,
    rssiMax: int,
    rssiAvg: int,
    txRssi: int)
}
