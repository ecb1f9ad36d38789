/** The firmware's sensor records: the readings, raw readings and
    calibration data the serialiser writes, and the sensor-enable switches
    that decide which fields exist. */
module Sensor {
  import Opt3002Regs

  type int16 = x: int | -0x8000 <= x < 0x8000
  type int32 = x: int | -0x8000_0000 <= x < 0x8000_0000
  type uint64 = x: int | 0 <= x < 0x1_0000_0000_0000_0000

  /** PRES_SEN_EN, OPT_SEN_EN and HUMID_SEN_EN: the sensors the firmware is
      built for. A field of a disabled sensor is present here but neither
      read nor written. */
  datatype Features = Features(pressure: bool, light: bool, humidity: bool)

  /** The build as configured: all three sensors enabled. */
  const ALL_SENSORS: Features := Features(true, true, true)

  /** sensor_reading_t */
  datatype SensorReading = SensorReading(
    timestamp: uint64,
    pressure: real, tempBmp: real,
    light: Opt3002Regs.Light,
    humidity: real, tempShtc: real)

  /** raw_sensor_reading_t */
  datatype RawSensorReading = RawSensorReading(
    timestamp: uint64,
    pressureRaw: int32, tempIcpRaw: int16,
    lightRaw: Opt3002Regs.Light,
    humidityRaw: int32, tempShtcRaw: int32)

  /** sensor_calibration_t: the four ICP sensor constants. */
  datatype SensorCalibration = SensorCalibration(c0: int16, c1: int16, c2: int16, c3: int16)
}
