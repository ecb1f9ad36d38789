# Talaria TWO AWS samples: sensor drivers, serialiser, host processor and timer

This project models the sensor path of the InnoPhase Talaria TWO AWS IoT samples
and proves properties of the model. It covers these parts:

- the ICP-101xx barometer driver;
- its Python twin, `InvensensePressureConversion`;
- the OPT3002 light-sensor driver and its register map;
- the firmware's JSON serialiser for sensor readings;
- the host-side `SensorProcessor`, which turns raw readings back into physical values;
- the platform timer of the port;
- the room-temperature simulation of the shadow sample.

Modules, one per source file, plus shared support:

- `I2c` (i2c.dfy) is the bus seen by the drivers.
  - A `Device` answers the n-th transfer from a fixed script and logs every transfer.
  - A null handle stands for a failed `i2c_create_device`.
  - `Callout` records the delays `callout_delay_us` is asked for.
- `Icp101xx` (icp101xx.dfy) is `icp-101xx.c`.
  - The OTP load is a function over the script, with lemmas for its success and failure runs.
  - Measurement commands, wait times and frame decoding.
  - The three-point rational fit and the compensation formulas.
  - A class `InvPres` with the driver entry points as methods.
- `IcpConversion` (icp_conversion.dfy) is `icp_101xx.py`.
  - Every value it computes is related to the driver's formulas.
  - The Python exceptions are modelled: IndexError on short lists and ZeroDivisionError.
- `Opt3002Regs` (opt3002_regs.dfy) is `opt3002.h`.
  - The command codes.
  - The bit-field unions of the result and configuration words, as bit layouts with round trips.
- `Opt3002` (opt3002.dfy) is `opt3002.c`, the driver.
  - Register reads and writes over `I2c`.
  - Its local integer `pow`.
  - The lux conversion.
- `Sensor`, `JsonAttr` and `Decimal` are shared support.
  - `Sensor` holds the reading records and the sensor-enable switches.
  - `JsonAttr` holds the JSON attribute names.
  - `Decimal` is printf's decimal conversions.
- `SensorJsonify` (sensor_jsonify.dfy) is `sensor_jsonify.c`, written imperatively over a `char` array.
  - Every writer is proved against the text it should produce.
  - That text is a pure function of the inputs.
  - The documents are "as many elements as fit".
- `JsonifyFacts` (sensor_jsonify_facts.dfy) proves what those documents look like.
- `SensorProcessor` (sensor_processor.dfy) is `sensor_processor.py`.
  - Dictionaries are insertion-ordered sequences of pairs.
  - `process_reading` is a loop proved against a fold over per-item outcomes.
- `T2Time` (t2_time.dfy) is `t2_time.c`.
  - A `Timer` class holds a 64-bit deadline.
  - The clock reading is a parameter.
- `ShadowSample` (shadow_sample.dfy) is `simulateRoomTemperature`.
  - Temperatures are counted in half degrees.
  - The static `deltaChange` is a field.
- `Bits`, `FloatModel` and `PyRuntime` are support modules.
  - `Bits` covers bit fields, shifts and masks.
  - `FloatModel` covers finite or non-finite real arithmetic.
  - `PyRuntime` covers Python results and exceptions.

Source paths below are relative to the repository root.

## Model

| member | source | states |
|---|---|---|
| Icp101xx.Int16 | sample_apps/sdk_2.x/sensor2cloud-aws/src/sensors/icp-101xx/icp-101xx.c:81 | storing a 16-bit word in an `int16_t` gives the word or the word minus 2^16, negative exactly when bit 15 is set |
| Icp101xx.Int16RoundTrip | sample_apps/sdk_2.x/sensor2cloud-aws/src/sensors/icp-101xx/icp-101xx.c:81 | the reinterpretation loses no bits: modulo 2^16 it is the word again |
| Icp101xx.OtpWord | sample_apps/sdk_2.x/sensor2cloud-aws/src/sensors/icp-101xx/icp-101xx.c:81 | the word taken from the first two bytes of an OTP read always fits an `int16_t` |
| Icp101xx.RoundTranscript | sample_apps/sdk_2.x/sensor2cloud-aws/src/sensors/icp-101xx/icp-101xx.c:70-82 | m read rounds issue exactly 2m transfers |
| Icp101xx.OtpTranscript | sample_apps/sdk_2.x/sensor2cloud-aws/src/sensors/icp-101xx/icp-101xx.c:58-82 | a complete OTP load issues nine transfers |
| Icp101xx.OtpRound | sample_apps/sdk_2.x/sensor2cloud-aws/src/sensors/icp-101xx/icp-101xx.c:71-81 | a successful round wrote C7 F7, then read three bytes, and its word is decoded from that read |
| Icp101xx.OtpLoopStart | sample_apps/sdk_2.x/sensor2cloud-aws/src/sensors/icp-101xx/icp-101xx.c:59-70 | once the read-mode write succeeds, the loop state holds with no words and no rounds done |
| Icp101xx.OtpLoopFail | sample_apps/sdk_2.x/sensor2cloud-aws/src/sensors/icp-101xx/icp-101xx.c:73-79 | a failing round ends the load with that round's status, the words read so far, and its transfers appended |
| Icp101xx.OtpLoopNext | sample_apps/sdk_2.x/sensor2cloud-aws/src/sensors/icp-101xx/icp-101xx.c:70-82 | a successful round keeps the loop state with one more word and one more round |
| Icp101xx.OtpLoopEnd | sample_apps/sdk_2.x/sensor2cloud-aws/src/sensors/icp-101xx/icp-101xx.c:82-84 | after four rounds the load returns 0 with the words and transfers the loop gathered |
| Icp101xx.OtpLoadWordsInt16 | sample_apps/sdk_2.x/sensor2cloud-aws/src/sensors/icp-101xx/icp-101xx.c:81 | every word an OTP load produces fits an `int16_t` |
| Icp101xx.OtpLoad | sample_apps/sdk_2.x/sensor2cloud-aws/src/sensors/icp-101xx/icp-101xx.c:51-85 | read_otp_from_i2c on an attached handle: the status, words and transfers of the load; what they satisfy is stated by OtpLoadSuccess and OtpLoadFailure |
| Icp101xx.OtpRoundsSuccess | sample_apps/sdk_2.x/sensor2cloud-aws/src/sensors/icp-101xx/icp-101xx.c:70-82 | successful rounds issue exactly their transcript |
| Icp101xx.OtpRoundsSuccessWords | sample_apps/sdk_2.x/sensor2cloud-aws/src/sensors/icp-101xx/icp-101xx.c:77-81 | successful rounds read one word each, decoded from that round's read |
| Icp101xx.OtpRoundsSuccessStatus | sample_apps/sdk_2.x/sensor2cloud-aws/src/sensors/icp-101xx/icp-101xx.c:73-79 | in successful rounds every transfer succeeded |
| Icp101xx.OtpRoundsFailurePrefix | sample_apps/sdk_2.x/sensor2cloud-aws/src/sensors/icp-101xx/icp-101xx.c:70-82 | failed rounds issue a non-empty prefix of their transcript |
| Icp101xx.OtpRoundsFailureStatus | sample_apps/sdk_2.x/sensor2cloud-aws/src/sensors/icp-101xx/icp-101xx.c:73-79 | failed rounds return the status of their last transfer, and every earlier transfer succeeded |
| Icp101xx.OtpRoundsFailureCount | sample_apps/sdk_2.x/sensor2cloud-aws/src/sensors/icp-101xx/icp-101xx.c:70-82 | the failing round issued one or two transfers after the completed ones |
| Icp101xx.OtpRoundsFailureWords | sample_apps/sdk_2.x/sensor2cloud-aws/src/sensors/icp-101xx/icp-101xx.c:77-81 | the words of a failed run decode the reads of its completed rounds |
| Icp101xx.OtpLoadSuccess | sample_apps/sdk_2.x/sensor2cloud-aws/src/sensors/icp-101xx/icp-101xx.c:51-85 | a load returning 0 issued exactly the read-mode command and four rounds, all nine transfers succeeded, and word j is the signed big-endian value of the j-th read |
| Icp101xx.OtpLoadSuccessTransfers | sample_apps/sdk_2.x/sensor2cloud-aws/src/sensors/icp-101xx/icp-101xx.c:58-82 | a successful load issued exactly the full command sequence |
| Icp101xx.OtpLoadSuccessStatus | sample_apps/sdk_2.x/sensor2cloud-aws/src/sensors/icp-101xx/icp-101xx.c:65-79 | during a successful load all nine transfers succeeded |
| Icp101xx.OtpLoadSuccessWords | sample_apps/sdk_2.x/sensor2cloud-aws/src/sensors/icp-101xx/icp-101xx.c:77-81 | a successful load has four words, each decoded from its read |
| Icp101xx.OtpLoadFailure | sample_apps/sdk_2.x/sensor2cloud-aws/src/sensors/icp-101xx/icp-101xx.c:51-85 | a failed load stops at its first failing transfer: a prefix of the sequence, that transfer's status, and only the words of completed reads |
| Icp101xx.OtpLoadFailureTransfers | sample_apps/sdk_2.x/sensor2cloud-aws/src/sensors/icp-101xx/icp-101xx.c:65-79 | a failed load issued between one and nine transfers, a prefix of the full sequence |
| Icp101xx.OtpLoadFailureStatus | sample_apps/sdk_2.x/sensor2cloud-aws/src/sensors/icp-101xx/icp-101xx.c:65-79 | a failed load returns its last transfer's status, and all earlier transfers succeeded |
| Icp101xx.OtpLoadFailureWords | sample_apps/sdk_2.x/sensor2cloud-aws/src/sensors/icp-101xx/icp-101xx.c:77-81 | a failed load holds one word per completed read, each decoded from its read |
| Icp101xx.MeasurementTables | sample_apps/sdk_2.x/sensor2cloud-aws/src/sensors/icp-101xx/icp-101xx.c:103-138 | exactly the four modes have a two-byte command, and the commands are distinct; an unknown mode waits as LOW_POWER; wait times grow strictly with the mode (lines 181-205) |
| Icp101xx.MeasurementCommand | sample_apps/sdk_2.x/sensor2cloud-aws/src/sensors/icp-101xx/icp-101xx.c:111-135 | the big-endian command of each of the four modes, none for any other mode; its properties are stated by MeasurementTables |
| Icp101xx.MeasurementTimeUs | sample_apps/sdk_2.x/sensor2cloud-aws/src/sensors/icp-101xx/icp-101xx.c:185-200 | the conversion time of each mode in microseconds, LOW_POWER's for an unknown mode; its properties are stated by MeasurementTables |
| Icp101xx.FrameDecode | sample_apps/sdk_2.x/sensor2cloud-aws/src/sensors/icp-101xx/icp-101xx.c:160-164 | the pressure code is the 24-bit value of bytes 0, 1 and 3; the temperature code fits an `int16_t`; both depend on exactly bytes 0, 1, 3, 6 and 7 |
| Icp101xx.PressureCode | sample_apps/sdk_2.x/sensor2cloud-aws/src/sensors/icp-101xx/icp-101xx.c:160-161 | the 24-bit pressure code of frame bytes 0, 1 and 3; FrameDecode states which bytes it depends on |
| Icp101xx.TemperatureRaw | sample_apps/sdk_2.x/sensor2cloud-aws/src/sensors/icp-101xx/icp-101xx.c:163-164 | the `int16_t` temperature code of frame bytes 6 and 7; FrameDecode states its range and its bytes |
| Icp101xx.BaseCalibration | sample_apps/sdk_2.x/sensor2cloud-aws/src/sensors/icp-101xx/icp-101xx.c:87-101 | the calibration holds the OTP words, the reference pressures 45000, 80000 and 105000 Pa, the LUT bounds 3.5·2^20 and 11.5·2^20, and the two scale factors |
| Icp101xx.ConversionConstants | sample_apps/sdk_2.x/sensor2cloud-aws/src/sensors/icp-101xx/icp-101xx.c:269-286 | A, B and C are defined exactly when neither of the two divisors is zero |
| Icp101xx.Curve | sample_apps/sdk_2.x/sensor2cloud-aws/src/sensors/icp-101xx/icp-101xx.c:261 | the pressure `A + B / (C + p_LSB)`, non-finite where C + p_LSB is zero; ConversionConstantsInterpolate and CurveMonotoneOnBranch state its meaning |
| Icp101xx.FitPoint0 | sample_apps/sdk_2.x/sensor2cloud-aws/src/sensors/icp-101xx/icp-101xx.c:281 | the formula for B puts the curve through the first reference point |
| Icp101xx.FitPoint1 | sample_apps/sdk_2.x/sensor2cloud-aws/src/sensors/icp-101xx/icp-101xx.c:280-281 | the formulas for A and B put the curve through the second reference point |
| Icp101xx.FitPoint2 | sample_apps/sdk_2.x/sensor2cloud-aws/src/sensors/icp-101xx/icp-101xx.c:274-281 | the formulas for C, A and B put the curve through the third reference point |
| Icp101xx.ConversionConstantsFacts | sample_apps/sdk_2.x/sensor2cloud-aws/src/sensors/icp-101xx/icp-101xx.c:269-286 | the constants satisfy the scalar equations of the three-point fit |
| Icp101xx.FitsThreeAt0 | sample_apps/sdk_2.x/sensor2cloud-aws/src/sensors/icp-101xx/icp-101xx.c:261 | the fitted curve at the first seed is the first reference pressure |
| Icp101xx.FitsThreeAt1 | sample_apps/sdk_2.x/sensor2cloud-aws/src/sensors/icp-101xx/icp-101xx.c:261 | the fitted curve at the second seed is the second reference pressure |
| Icp101xx.FitsThreeAt2 | sample_apps/sdk_2.x/sensor2cloud-aws/src/sensors/icp-101xx/icp-101xx.c:261 | the fitted curve at the third seed is the third reference pressure |
| Icp101xx.ConversionConstantsInterpolate | sample_apps/sdk_2.x/sensor2cloud-aws/src/sensors/icp-101xx/icp-101xx.c:267-286 | `A + B/(C + x)` passes through all three reference points (p_LUT[i], p_Pa[i]) wherever it is defined there |
| Icp101xx.CurveMonotoneOnBranch | sample_apps/sdk_2.x/sensor2cloud-aws/src/sensors/icp-101xx/icp-101xx.c:261 | on either branch of the hyperbola the pressure is strictly monotone in the code, decreasing when B > 0 and increasing when B < 0 |
| Icp101xx.Seeds | sample_apps/sdk_2.x/sensor2cloud-aws/src/sensors/icp-101xx/icp-101xx.c:248-251 | there are three LUT seeds |
| Icp101xx.ProcessData | sample_apps/sdk_2.x/sensor2cloud-aws/src/sensors/icp-101xx/icp-101xx.c:239-265 | the temperature is `-45 + 175/65536·T_LSB` |
| Icp101xx.ProcessDataAtSeeds | sample_apps/sdk_2.x/sensor2cloud-aws/src/sensors/icp-101xx/icp-101xx.c:248-261 | at any temperature at which the fit's constants are defined, a pressure code equal to seed i converts to reference pressure i |
| Icp101xx.TemperatureAffine | sample_apps/sdk_2.x/sensor2cloud-aws/src/sensors/icp-101xx/icp-101xx.c:262 | the temperature is affine in the code: -45 °C at 0, 42.5 °C at 32768, slope 175/65536 |
| Icp101xx.ZeroOtpSeeds | sample_apps/sdk_2.x/sensor2cloud-aws/src/sensors/icp-101xx/icp-101xx.c:248-251 | with zero OTP words the seeds are the LUT bounds with 0 between them, at every temperature |
| Icp101xx.ZeroOtpReferencePoints | sample_apps/sdk_2.x/sensor2cloud-aws/src/sensors/icp-101xx/icp-101xx.c:239-265 | with zero OTP words the codes 3.5·2^20, 0 and 11.5·2^20 convert to 45000, 80000 and 105000 Pa |
| Icp101xx.InvPres.Calib | sample_apps/sdk_2.x/sensor2cloud-aws/src/sensors/icp-101xx/icp-101xx.c:87-101 | the driver's state is a well-formed calibration: four constants and three reference pressures |
| Icp101xx.InvPres.constructor | sample_apps/sdk_2.x/sensor2cloud-aws/src/sensors/icp-101xx/icp-101xx.c:38-40 | new driver storage has no handle and fresh arrays for the constants and reference pressures |
| Icp101xx.InvPres.SerifWriteReg | sample_apps/sdk_2.x/sensor2cloud-aws/src/sensors/icp-101xx/icp-101xx.c:288-300 | a null handle returns -ENODEV; otherwise one write is issued and its status returned |
| Icp101xx.InvPres.SerifReadReg | sample_apps/sdk_2.x/sensor2cloud-aws/src/sensors/icp-101xx/icp-101xx.c:302-314 | a null handle returns -ENODEV; otherwise one read of `count` bytes, its status and its data |
| Icp101xx.InvPres.ReadOtpRound | sample_apps/sdk_2.x/sensor2cloud-aws/src/sensors/icp-101xx/icp-101xx.c:71-81 | one loop pass issues the round's transfers and returns its status and, on success, its word |
| Icp101xx.InvPres.ReadOtpFromI2c | sample_apps/sdk_2.x/sensor2cloud-aws/src/sensors/icp-101xx/icp-101xx.c:51-85 | returns the OTP load's status and issues its transfers; the words read before a failure overwrite a prefix of the caller's array and the rest is untouched |
| Icp101xx.InvPres.InitBase | sample_apps/sdk_2.x/sensor2cloud-aws/src/sensors/icp-101xx/icp-101xx.c:87-101 | the state becomes the base calibration of the given words |
| Icp101xx.InvPres.Init | sample_apps/sdk_2.x/sensor2cloud-aws/src/sensors/icp-101xx/icp-101xx.c:38-49 | always returns 0 and stores the handle; the transfers are those of the OTP load; the words read are the leading constants and the rest is the base configuration |
| Icp101xx.InvPres.StartMeasurement | sample_apps/sdk_2.x/sensor2cloud-aws/src/sensors/icp-101xx/icp-101xx.c:103-138 | an unknown mode returns -EINVAL with no transfer; a known mode writes its command and returns the write's status |
| Icp101xx.StartStatus | sample_apps/sdk_2.x/sensor2cloud-aws/src/sensors/icp-101xx/icp-101xx.c:103-138 | the status inv_invpres_start_measurement returns: -EINVAL for an unknown mode, -ENODEV without a handle, otherwise the write's answer; InvPres.StartMeasurement is proved to return it |
| Icp101xx.InvPres.GetDataRaw | sample_apps/sdk_2.x/sensor2cloud-aws/src/sensors/icp-101xx/icp-101xx.c:140-167 | polls with 9-byte reads while they answer -ENXIO, then returns 0 with the codes decoded from the last frame, only for the outputs asked for |
| Icp101xx.InvPres.ProcessDataOf | sample_apps/sdk_2.x/sensor2cloud-aws/src/sensors/icp-101xx/icp-101xx.c:239-265 | returns 0 and the compensation of the codes under the current calibration |
| Icp101xx.InvPres.GetData | sample_apps/sdk_2.x/sensor2cloud-aws/src/sensors/icp-101xx/icp-101xx.c:169-179 | polls as GetDataRaw and returns the compensation of the last frame's codes |
| Icp101xx.InvPres.MeasureBlocking | sample_apps/sdk_2.x/sensor2cloud-aws/src/sensors/icp-101xx/icp-101xx.c:207-220 | a failed start returns its status with no wait and no read, whatever the device answers afterwards; otherwise it starts, waits the mode's time once, polls, and returns the converted measurement |
| Icp101xx.InvPres.MeasureRawBlocking | sample_apps/sdk_2.x/sensor2cloud-aws/src/sensors/icp-101xx/icp-101xx.c:222-235 | as MeasureBlocking, returning the raw codes asked for |
| Icp101xx.LastFrame | sample_apps/sdk_2.x/sensor2cloud-aws/src/sensors/icp-101xx/icp-101xx.c:142-145 | the frame the last read leaves in the buffer has nine bytes |
| Icp101xx.WaitForMeasurement | sample_apps/sdk_2.x/sensor2cloud-aws/src/sensors/icp-101xx/icp-101xx.c:181-205 | exactly one delay is requested: the mode's conversion time |
| IcpConversion.CalculateConversionConstants | sample_apps/inno_os/sensor2cloud-aws/src/sensors/plotter/icp_101xx.py:21-35 | raises IndexError on a list shorter than three and ZeroDivisionError exactly where the driver's constants are undefined; otherwise returns the driver's [A, B, C] |
| IcpConversion.CalculateInterpolates | sample_apps/inno_os/sensor2cloud-aws/src/sensors/plotter/icp_101xx.py:21-35 | with the returned constants, `A + B/(C + p_LUT[i])` equals p_Pa[i] |
| IcpConversion.GetTemperatureFacts | sample_apps/inno_os/sensor2cloud-aws/src/sensors/plotter/icp_101xx.py:51-52 | get_temperature equals the driver's formula, is -45 at 0 and 42.5 at 32768, and is strictly increasing |
| IcpConversion.PressureConversion.constructor | sample_apps/inno_os/sensor2cloud-aws/src/sensors/plotter/icp_101xx.py:4-15 | the object holds the given constants and the driver's fixed configuration |
| IcpConversion.PressureConversion.SetConstants | sample_apps/inno_os/sensor2cloud-aws/src/sensors/plotter/icp_101xx.py:17-19 | only the sensor constants change |
| IcpConversion.PressureConversion.Seeds | sample_apps/inno_os/sensor2cloud-aws/src/sensors/plotter/icp_101xx.py:43-46 | three seeds, or IndexError exactly when there are fewer than four constants |
| IcpConversion.GetPressureMatchesDriver | sample_apps/inno_os/sensor2cloud-aws/src/sensors/plotter/icp_101xx.py:37-49 | get_pressure returns the driver's pressure where the driver's result is finite, and raises ZeroDivisionError exactly where it is not |
| IcpConversion.PressureConversion.GetPressure | sample_apps/inno_os/sensor2cloud-aws/src/sensors/plotter/icp_101xx.py:37-49 | get_pressure raises IndexError with fewer than four constants and raises nothing but IndexError or ZeroDivisionError; GetPressureMatchesDriver ties its value to the driver |
| IcpConversion.SeedsMatchDriver | sample_apps/inno_os/sensor2cloud-aws/src/sensors/plotter/icp_101xx.py:43-46 | get_pressure's seeds are the driver's |
| IcpConversion.ZeroConstantsSeeds | sample_apps/inno_os/sensor2cloud-aws/src/sensors/plotter/icp_101xx.py:43-46 | with zero constants the seeds are the LUT bounds with 0 between them, whatever the temperature |
| Opt3002.Pow | samples/sensor2cloud-aws/src/sensors/opt3002/opt3002.c:38-44 | returns base to the truncated exponent, and 1 for an exponent below 1 |
| Opt3002.PowerOfTwo | samples/sensor2cloud-aws/src/sensors/opt3002/opt3002.c:38-44 | on base 2 the loop computes 2^n |
| Opt3002.LuxOfWord | samples/sensor2cloud-aws/src/sensors/opt3002/opt3002.c:136 | the lux of a result word is 1.2·2^E·R with E its bits 15..12 and R its bits 11..0; it is at most 1.2·2^15·4095 and zero exactly when R is zero |
| Opt3002.LuxOfFields | samples/sensor2cloud-aws/src/sensors/opt3002/opt3002.c:136 | the same, stated on the fields of the union |
| Opt3002.Word | samples/sensor2cloud-aws/src/sensors/opt3002/opt3002.c:165-166 | the word's high byte is buf[0] and its low byte is buf[1] |
| Opt3002.RegisterReadRecord | samples/sensor2cloud-aws/src/sensors/opt3002/opt3002.c:120-148 | the error is 0 exactly when both bus steps succeed; then the record holds the word and (unless raw) its lux; otherwise it holds the first failure's status with lux and word 0; a null handle gives -ENODEV |
| Opt3002.RegisterRead | samples/sensor2cloud-aws/src/sensors/opt3002/opt3002.c:120-148 | the light record opt3002_readRegister returns against the device's next two answers; RegisterReadRecord states its error rules; Opt3002.ReadRegister is proved to return it |
| Opt3002.WordRead | samples/sensor2cloud-aws/src/sensors/opt3002/opt3002.c:59-68 | the word a command write then a two-byte read yields, 0 when either fails; RawReadAgrees relates it to RegisterRead |
| Opt3002.RawReadAgrees | samples/sensor2cloud-aws/src/sensors/opt3002/opt3002.c:133-137 | the raw and converted reads agree on error and word, and the raw word is what the word readers return |
| Opt3002.ConfigBytesRoundTrip | samples/sensor2cloud-aws/src/sensors/opt3002/opt3002.c:95 | the configuration write is three bytes, CONFIG first, and the word read back from its payload is the same configuration |
| Opt3002.Opt3002.constructor | samples/sensor2cloud-aws/src/sensors/opt3002/opt3002.c:54-57 | the handle is the device `i2c_create_device` returned |
| Opt3002.Opt3002.I2cWrite | samples/sensor2cloud-aws/src/sensors/opt3002/opt3002.c:180-196 | -ENODEV on a null handle; otherwise one write and its status |
| Opt3002.Opt3002.I2cRead | samples/sensor2cloud-aws/src/sensors/opt3002/opt3002.c:198-214 | -ENODEV on a null handle; otherwise one read, its status and its bytes |
| Opt3002.Opt3002.WriteData | samples/sensor2cloud-aws/src/sensors/opt3002/opt3002.c:150-155 | writes the one command byte |
| Opt3002.Opt3002.ReadData | samples/sensor2cloud-aws/src/sensors/opt3002/opt3002.c:157-169 | a two-byte read; on success the big-endian word, and on failure the output keeps its prior value |
| Opt3002.Opt3002.ReadRegister | samples/sensor2cloud-aws/src/sensors/opt3002/opt3002.c:120-148 | the command write, then the read only if the write succeeded; the record is RegisterRead's |
| Opt3002.Opt3002.ReadWord | samples/sensor2cloud-aws/src/sensors/opt3002/opt3002.c:59-68 | the word read after the command; 0 unless both steps succeed |
| Opt3002.Opt3002.ReadManufacturerID | samples/sensor2cloud-aws/src/sensors/opt3002/opt3002.c:59-68 | the word of register 0x7E, 0 on any failure |
| Opt3002.Opt3002.ReadDeviceID | samples/sensor2cloud-aws/src/sensors/opt3002/opt3002.c:70-79 | the word of register 0x7F, 0 on any failure |
| Opt3002.Opt3002.ReadConfig | samples/sensor2cloud-aws/src/sensors/opt3002/opt3002.c:81-91 | the configuration of the word read, all zero on any failure |
| Opt3002.Opt3002.WriteConfig | samples/sensor2cloud-aws/src/sensors/opt3002/opt3002.c:93-98 | one write of CONFIG and the word, high byte first; returns its status |
| Opt3002.Opt3002.ReadResult | samples/sensor2cloud-aws/src/sensors/opt3002/opt3002.c:100-103 | the converted register read of RESULT |
| Opt3002.Opt3002.ReadResultRaw | samples/sensor2cloud-aws/src/sensors/opt3002/opt3002.c:105-108 | the raw register read of RESULT |
| Opt3002.Opt3002.ReadHighLimit | samples/sensor2cloud-aws/src/sensors/opt3002/opt3002.c:110-113 | the converted register read of HIGH_LIMIT |
| Opt3002.Opt3002.ReadLowLimit | samples/sensor2cloud-aws/src/sensors/opt3002/opt3002.c:115-118 | the converted register read of LOW_LIMIT |
| Opt3002Regs.ErLayoutOffsets | sample_apps/sdk_2.x/sensor2cloud-aws/src/sensors/opt3002/opt3002.h:47-53 | the result and exponent fields cover exactly the 16 bits |
| Opt3002Regs.ErOf | sample_apps/sdk_2.x/sensor2cloud-aws/src/sensors/opt3002/opt3002.h:47-53 | Result is the low 12 bits and Exponent the top 4 |
| Opt3002Regs.ErWord | sample_apps/sdk_2.x/sensor2cloud-aws/src/sensors/opt3002/opt3002.h:47-53 | the word is Exponent·2^12 + Result |
| Opt3002Regs.ErRoundTrip | sample_apps/sdk_2.x/sensor2cloud-aws/src/sensors/opt3002/opt3002.h:47-53 | the word and its fields determine each other |
| Opt3002Regs.Config.Fields | sample_apps/sdk_2.x/sensor2cloud-aws/src/sensors/opt3002/opt3002.h:55-70 | one field per entry of the layout |
| Opt3002Regs.ConfigLayoutOffsets | sample_apps/sdk_2.x/sensor2cloud-aws/src/sensors/opt3002/opt3002.h:56-68 | the eleven fields cover 16 bits, at offsets 0, 2, 7, 8, 9, 11 and 12 where it matters |
| Opt3002Regs.ConfigOfFields | sample_apps/sdk_2.x/sensor2cloud-aws/src/sensors/opt3002/opt3002.h:55-70 | a configuration built from a list of fields has exactly those fields |
| Opt3002Regs.ConfigOf | sample_apps/sdk_2.x/sensor2cloud-aws/src/sensors/opt3002/opt3002.h:55-70 | the fields of a word are its bit-field unpacking, each within its width |
| Opt3002Regs.ConfigWord | sample_apps/sdk_2.x/sensor2cloud-aws/src/sensors/opt3002/opt3002.h:55-70 | the word of valid fields is their packing |
| Opt3002Regs.ConfigRoundTrip | sample_apps/sdk_2.x/sensor2cloud-aws/src/sensors/opt3002/opt3002.h:55-70 | the word and its configuration fields determine each other |
| Opt3002Regs.ConfigBitPositions | sample_apps/sdk_2.x/sensor2cloud-aws/src/sensors/opt3002/opt3002.h:56-68 | fault count in bits 1..0, exponent mask in bit 2, POL in bit 3, L in bit 4, FL in bit 5, FH in bit 6, CRF in bit 7, OVF in bit 8, mode in bits 10..9, conversion time in bit 11, range in bits 15..12 |
| Opt3002Regs.FieldBits | sample_apps/sdk_2.x/sensor2cloud-aws/src/sensors/opt3002/opt3002.h:55-70 | any field at bit offset `at` and width `width` is `raw / 2^at % 2^width` |
| I2c.BigEndian16RoundTrip | samples/sensor2cloud-aws/src/sensors/opt3002/opt3002.c:166 | the word of a high and a low byte is below 2^16, and its bytes are the high and low byte again |
| I2c.Fit | sample_apps/sdk_2.x/sensor2cloud-aws/src/sensors/icp-101xx/icp-101xx.c:54 | a read buffer holds `count` bytes: the reply's, then zeros |
| I2c.Device.constructor | samples/sensor2cloud-aws/src/sensors/opt3002/opt3002.c:56 | a new handle has issued no transfer |
| I2c.Device.Write | sample_apps/sdk_2.x/sensor2cloud-aws/src/sensors/icp-101xx/icp-101xx.c:295-299 | one write transfer is logged and answered by the script |
| I2c.Device.Read | sample_apps/sdk_2.x/sensor2cloud-aws/src/sensors/icp-101xx/icp-101xx.c:309-313 | one read transfer is logged; status and bytes come from the script |
| I2c.Callout.constructor | sample_apps/sdk_2.x/sensor2cloud-aws/src/sensors/icp-101xx/icp-101xx.c:204 | no delay requested yet |
| I2c.Callout.DelayUs | sample_apps/sdk_2.x/sensor2cloud-aws/src/sensors/icp-101xx/icp-101xx.c:204 | the requested delay is recorded |
| Decimal.NatText | samples/sensor2cloud-aws/src/sensors/sensor_jsonify.c:102 | `%zu`/`%u` text is a non-empty string of digits |
| Decimal.IntText | samples/sensor2cloud-aws/src/sensors/sensor_jsonify.c:403-419 | `%d` text is never empty |
| Decimal.NatTextRoundTrip | samples/sensor2cloud-aws/src/sensors/sensor_jsonify.c:102 | reading the digits back gives the number |
| Decimal.NatTextNoLeadingZero | samples/sensor2cloud-aws/src/sensors/sensor_jsonify.c:102 | the text starts with '0' only for zero |
| Decimal.NatTextLength | samples/sensor2cloud-aws/src/sensors/sensor_jsonify.c:99-105 | a number below 10^k takes at most k digits |
| Decimal.IntTextRoundTrip | samples/sensor2cloud-aws/src/sensors/sensor_jsonify.c:403-419 | `%d` text reads back to the number, with a sign exactly for negatives |
| JsonAttr.RawNames | samples/sensor2cloud-aws/src/sensors/sensor_jsonify.c:403-419 | each raw item name is its base name followed by `_raw` |
| SensorJsonify.ReadingTexts | samples/sensor2cloud-aws/src/sensors/sensor_jsonify.c:97-118 | one element per reading; the r-th is that reading's text under the name "rdg<r>" |
| SensorJsonify.RawElements | samples/sensor2cloud-aws/src/sensors/sensor_jsonify.c:166-200 | one element per raw reading, plus one for calibration data when supplied |
| SensorJsonify.RawElementsAt | samples/sensor2cloud-aws/src/sensors/sensor_jsonify.c:179-200 | raw reading r comes after the calibration element, under its generated name |
| SensorJsonify.RawElementsFirst | samples/sensor2cloud-aws/src/sensors/sensor_jsonify.c:166-177 | supplied calibration data is the first element |
| SensorJsonify.Kept | samples/sensor2cloud-aws/src/sensors/sensor_jsonify.c:97-118 | no more elements are kept than there are |
| SensorJsonify.Snprintf | samples/sensor2cloud-aws/src/sensors/sensor_jsonify.c:57 | returns the full length, writes as much as fits before a NUL, and touches nothing outside its window |
| SensorJsonify.PutNul | samples/sensor2cloud-aws/src/sensors/sensor_jsonify.c:61 | puts one NUL and nothing else |
| SensorJsonify.Emit | samples/sensor2cloud-aws/src/sensors/sensor_jsonify.c:55-66 | succeeds exactly when the text and its NUL fit, then appends it; on failure NULs the writer's start |
| SensorJsonify.Patch | samples/sensor2cloud-aws/src/sensors/sensor_jsonify.c:273-275 | the trailing ", " becomes "}," |
| SensorJsonify.CloseStep | samples/sensor2cloud-aws/src/sensors/sensor_jsonify.c:273-278 | the object is closed as "}, " when that fits; on failure the start is NULed |
| SensorJsonify.StringifyDouble | samples/sensor2cloud-aws/src/sensors/sensor_jsonify.c:311-337 | writes the numeral and returns its length when it fits with its NUL; otherwise NUL and 0 |
| SensorJsonify.ValueStep | samples/sensor2cloud-aws/src/sensors/sensor_jsonify.c:300-302 | appends the numeral when it fits; otherwise fails and NULs the start |
| SensorJsonify.JsonifyDouble | samples/sensor2cloud-aws/src/sensors/sensor_jsonify.c:283-309 | writes `"attr": value, ` exactly when it fits with its NUL, reporting its length; otherwise 0 and a NUL |
| SensorJsonify.DoubleStep | samples/sensor2cloud-aws/src/sensors/sensor_jsonify.c:252-253 | a nested member appended, or the enclosing writer fails |
| SensorJsonify.JsonifyReading | samples/sensor2cloud-aws/src/sensors/sensor_jsonify.c:231-281 | writes the reading object (name, timestamp, enabled sensors' values, "}, ") exactly when it fits; otherwise 0 and a NUL at its start |
| SensorJsonify.ReadingBody | samples/sensor2cloud-aws/src/sensors/sensor_jsonify.c:248-280 | the rest of the reading object after its opening, with the same all-or-nothing result |
| SensorJsonify.MembersStep | samples/sensor2cloud-aws/src/sensors/sensor_jsonify.c:248-271 | the timestamp and the enabled sensors' members, appended exactly when they fit |
| SensorJsonify.PressureStep | samples/sensor2cloud-aws/src/sensors/sensor_jsonify.c:251-258 | the pressure and BMP temperature members, when that sensor is enabled |
| SensorJsonify.LightHumidityStep | samples/sensor2cloud-aws/src/sensors/sensor_jsonify.c:260-271 | the light and humidity members, when enabled |
| SensorJsonify.HumidityStep | samples/sensor2cloud-aws/src/sensors/sensor_jsonify.c:265-271 | the humidity and SHTC temperature members, when enabled |
| SensorJsonify.PairStep | samples/sensor2cloud-aws/src/sensors/sensor_jsonify.c:402-408 | two pieces of an enabled sensor, appended exactly when they fit |
| SensorJsonify.OptionalStep | samples/sensor2cloud-aws/src/sensors/sensor_jsonify.c:410-413 | one piece of an enabled sensor, appended exactly when it fits |
| SensorJsonify.RawMembersStep | samples/sensor2cloud-aws/src/sensors/sensor_jsonify.c:399-420 | the timestamp and the enabled sensors' raw members, in the firmware's order |
| SensorJsonify.RawLightHumidityStep | samples/sensor2cloud-aws/src/sensors/sensor_jsonify.c:410-420 | the raw light and humidity members, when enabled |
| SensorJsonify.JsonifyRawReading | samples/sensor2cloud-aws/src/sensors/sensor_jsonify.c:383-430 | writes the raw reading object exactly when it fits; otherwise 0 and a NUL |
| SensorJsonify.JsonifySensorCalibrationData | samples/sensor2cloud-aws/src/sensors/sensor_jsonify.c:339-381 | writes `"calib": {"icp": [c0, c1, c2, c3]}, ` (`{}` without a pressure sensor) exactly when it fits |
| SensorJsonify.CloseDocument | samples/sensor2cloud-aws/src/sensors/sensor_jsonify.c:120-144 | all three closing cases give the finished document and its NUL |
| SensorJsonify.PutBrace | samples/sensor2cloud-aws/src/sensors/sensor_jsonify.c:121-128 | a closing brace and a NUL behind the text |
| SensorJsonify.ReadingNameFits | samples/sensor2cloud-aws/src/sensors/sensor_jsonify.c:99-106 | a `size_t` index gives a name shorter than the 32-byte buffer, so that `break` never fires |
| SensorJsonify.JsonifySensorReadings | samples/sensor2cloud-aws/src/sensors/sensor_jsonify.c:78-145 | 0 for no buffer or fewer than 3 bytes; otherwise the document of the longest prefix of readings that fits, with its NUL, and its length returned |
| SensorJsonify.ReadingStep | samples/sensor2cloud-aws/src/sensors/sensor_jsonify.c:97-118 | a reading that fits extends the document; one that does not means the kept prefix ends before it |
| SensorJsonify.JsonifyRawSensorReadings | samples/sensor2cloud-aws/src/sensors/sensor_jsonify.c:147-229 | the same for the calibration data (when supplied) followed by the raw readings |
| SensorJsonify.RawDocument | samples/sensor2cloud-aws/src/sensors/sensor_jsonify.c:161-228 | the body writes the document of the elements that fit, with its NUL |
| SensorJsonify.CalibrationStep | samples/sensor2cloud-aws/src/sensors/sensor_jsonify.c:166-177 | calibration data that does not fit keeps no element at all |
| SensorJsonify.Finish | samples/sensor2cloud-aws/src/sensors/sensor_jsonify.c:202-228 | closing after the loop gives the document of the kept elements |
| SensorJsonify.RawReadingsLoop | samples/sensor2cloud-aws/src/sensors/sensor_jsonify.c:179-200 | the loop stops exactly at the kept prefix |
| SensorJsonify.RawReadingStep | samples/sensor2cloud-aws/src/sensors/sensor_jsonify.c:181-199 | one raw reading extends the document or ends the kept prefix |
| JsonifyFacts.KeptFits | samples/sensor2cloud-aws/src/sensors/sensor_jsonify.c:97-118 | the kept elements fit together with the NUL |
| JsonifyFacts.KeptMaximal | samples/sensor2cloud-aws/src/sensors/sensor_jsonify.c:108-115 | the first element left out would not have fitted |
| JsonifyFacts.KeptAll | samples/sensor2cloud-aws/src/sensors/sensor_jsonify.c:97-118 | every element is kept exactly when all of them fit together |
| JsonifyFacts.KeptReadings | samples/sensor2cloud-aws/src/sensors/sensor_jsonify.c:97-108 | the i-th kept element is reading i under "rdg<i>" |
| JsonifyFacts.ReadingNamesDistinct | samples/sensor2cloud-aws/src/sensors/sensor_jsonify.c:102 | two readings get the same name exactly when they have the same index |
| JsonifyFacts.CalibrationBlocks | samples/sensor2cloud-aws/src/sensors/sensor_jsonify.c:167-174 | calibration data that does not fit gives the document "{}" with no reading |
| JsonifyFacts.DocumentBraces | samples/sensor2cloud-aws/src/sensors/sensor_jsonify.c:120-144 | every document starts with '{' and ends with '}'; with no element it is "{}" |
| JsonifyFacts.DocumentFits | samples/sensor2cloud-aws/src/sensors/sensor_jsonify.c:78-145 | the document and its NUL fit in the caller's buffer |
| JsonifyFacts.DocumentCloses | samples/sensor2cloud-aws/src/sensors/sensor_jsonify.c:135-142 | closing replaces exactly the last ", " by "}" |
| JsonifyFacts.ClosedEnds | samples/sensor2cloud-aws/src/sensors/sensor_jsonify.c:273-278 | every closed object ends in "}, " |
| JsonifyFacts.CalibrationTextEnds | samples/sensor2cloud-aws/src/sensors/sensor_jsonify.c:366-378 | the calibration object ends in ", " on both branches |
| JsonifyFacts.ReadingDocumentShape | samples/sensor2cloud-aws/src/sensors/sensor_jsonify.c:135-144 | a non-empty document of readings is "{", their texts without the final ", ", then "}" |
| JsonifyFacts.RawDocumentShape | samples/sensor2cloud-aws/src/sensors/sensor_jsonify.c:219-228 | the same for the raw document |
| SensorProcessor.Lookup | sample_apps/sdk_2.x/sensor2cloud-aws/src/sensors/plotter/sensor_processor.py:23 | None exactly when the key is absent; a found value is that of an item with the key, and the only one when keys are distinct |
| SensorProcessor.InsertAppends | sample_apps/sdk_2.x/sensor2cloud-aws/src/sensors/plotter/sensor_processor.py:25-33 | storing under a new key appends the item |
| SensorProcessor.InsertReplaces | sample_apps/sdk_2.x/sensor2cloud-aws/src/sensors/plotter/sensor_processor.py:25-33 | storing under an existing key moves no item and changes no key |
| SensorProcessor.InsertStores | sample_apps/sdk_2.x/sensor2cloud-aws/src/sensors/plotter/sensor_processor.py:25-33 | after `d[k] = v`, `d[k]` is v |
| SensorProcessor.InsertKeepsOthers | sample_apps/sdk_2.x/sensor2cloud-aws/src/sensors/plotter/sensor_processor.py:25-33 | `d[k] = v` leaves every other key's value as it was |
| SensorProcessor.OptPowMatchesDriver | sample_apps/sdk_2.x/sensor2cloud-aws/src/sensors/plotter/sensor_processor.py:44-48 | process_opt_pow is the driver's lux of the ER word formed by the low 16 bits |
| SensorProcessor.ProcessOptPow | sample_apps/sdk_2.x/sensor2cloud-aws/src/sensors/plotter/sensor_processor.py:44-48 | process_opt_pow is never negative and is zero exactly when the low 12 bits are zero; OptPowMatchesDriver ties it to the driver's lux |
| SensorProcessor.OptPowOfLowWord | sample_apps/sdk_2.x/sensor2cloud-aws/src/sensors/plotter/sensor_processor.py:44-48 | process_opt_pow is 1.2·2^E·R of the low 16 bits' fields |
| SensorProcessor.LowWordFields | sample_apps/sdk_2.x/sensor2cloud-aws/src/sensors/plotter/sensor_processor.py:45-46 | the masks and shifts read only the low 16 bits |
| SensorProcessor.ThousandthsFacts | sample_apps/sdk_2.x/sensor2cloud-aws/src/sensors/plotter/sensor_processor.py:50-54 | the conversion from thousandths is exact and strictly increasing |
| SensorProcessor.Thousandths | sample_apps/sdk_2.x/sensor2cloud-aws/src/sensors/plotter/sensor_processor.py:50-54 | process_humidity and process_temperature_shtc: the result times 1000 is the raw value |
| SensorProcessor.RenamingStripsRawSuffix | sample_apps/sdk_2.x/sensor2cloud-aws/src/sensors/plotter/sensor_processor.py:57-61 | a key is renamed exactly when it is the pressure code or in the map, and every renamed key is its new name followed by `_raw` |
| SensorProcessor.Apply | sample_apps/sdk_2.x/sensor2cloud-aws/src/sensors/plotter/sensor_processor.py:41-61 | applying a conversion of CONVERSION_MAP never raises and gives a float |
| SensorProcessor.SensorProcessor.constructor | sample_apps/sdk_2.x/sensor2cloud-aws/src/sensors/plotter/sensor_processor.py:6-12 | the converter starts with calib["icp"], or four zeros without it |
| SensorProcessor.SensorProcessor.SetCalibration | sample_apps/sdk_2.x/sensor2cloud-aws/src/sensors/plotter/sensor_processor.py:37-39 | only an `icp` entry changes the constants, and nothing else changes |
| SensorProcessor.SensorProcessor.Outcomes | sample_apps/sdk_2.x/sensor2cloud-aws/src/sensors/plotter/sensor_processor.py:17-33 | one outcome per item, in order |
| SensorProcessor.SensorProcessor.ProcessReading | sample_apps/sdk_2.x/sensor2cloud-aws/src/sensors/plotter/sensor_processor.py:14-35 | the loop returns the dictionary the outcomes build, or the first exception raised |
| SensorProcessor.SensorProcessor.ProcessItem | sample_apps/sdk_2.x/sensor2cloud-aws/src/sensors/plotter/sensor_processor.py:17-33 | one pass stores the i-th item or raises the exception of the whole call |
| SensorProcessor.CollectStep | sample_apps/sdk_2.x/sensor2cloud-aws/src/sensors/plotter/sensor_processor.py:17-33 | one more pass stores the outcome, or its exception ends the call |
| SensorProcessor.CollectStopsAtRaise | sample_apps/sdk_2.x/sensor2cloud-aws/src/sensors/plotter/sensor_processor.py:17-25 | once an exception is raised, later items do not matter |
| SensorProcessor.CollectRaises | sample_apps/sdk_2.x/sensor2cloud-aws/src/sensors/plotter/sensor_processor.py:14-35 | the call raises exactly when some item's outcome is an exception, and then it raises the first one |
| SensorProcessor.Stored | sample_apps/sdk_2.x/sensor2cloud-aws/src/sensors/plotter/sensor_processor.py:25-33 | the stored pairs of outcomes that do not raise, in order |
| SensorProcessor.CollectDistinct | sample_apps/sdk_2.x/sensor2cloud-aws/src/sensors/plotter/sensor_processor.py:14-35 | with distinct keys and no exception, the dictionary holds exactly the outcomes in order |
| SensorProcessor.FirstRaise | sample_apps/sdk_2.x/sensor2cloud-aws/src/sensors/plotter/sensor_processor.py:17-25 | the first exception among the outcomes is the one raised |
| SensorProcessor.ItemOutcome | sample_apps/sdk_2.x/sensor2cloud-aws/src/sensors/plotter/sensor_processor.py:20-33 | only the pressure item can raise, KeyError without an ICP temperature code; an item that does not raise is stored under its output name |
| SensorProcessor.SensorProcessor.ConvertItem | sample_apps/sdk_2.x/sensor2cloud-aws/src/sensors/plotter/sensor_processor.py:18-33 | one pass of the loop of process_reading for one item; ItemOutcome and PressureItemMatchesDriver state what it stores or raises |
| SensorProcessor.PressureItemMatchesDriver | sample_apps/sdk_2.x/sensor2cloud-aws/src/sensors/plotter/sensor_processor.py:20-25 | the processed pressure is the driver's compensated pressure for the same codes, and ZeroDivisionError is raised exactly where the driver's result is not finite |
| SensorProcessor.ProcessedItemByItem | sample_apps/sdk_2.x/sensor2cloud-aws/src/sensors/plotter/sensor_processor.py:14-35 | without name collisions the result exists exactly when no item raises, and is the input item by item, renamed and converted |
| SensorProcessor.PressureWithoutTemperature | sample_apps/sdk_2.x/sensor2cloud-aws/src/sensors/plotter/sensor_processor.py:20-23 | a reading with a pressure code and no ICP temperature code raises KeyError |
| T2Time.Wrap32 | talaria_two_pal/t2_time.c:35-37 | a `uint32_t` result is the value modulo 2^32 |
| T2Time.Wrap64 | talaria_two_pal/t2_time.c:39-45 | a `uint64_t` result is the value modulo 2^64, and a negative difference wraps to value + 2^64 |
| T2Time.LeftMs | talaria_two_pal/t2_time.c:39-45 | the corrected left_ms: 0 once expired, otherwise the whole milliseconds to the deadline |
| T2Time.MsDeadline | talaria_two_pal/t2_time.c:35-37 | the deadline countdown_ms sets; CountdownMsExpiry and CountdownWraps state when it expires |
| T2Time.SecDeadline | talaria_two_pal/t2_time.c:47-49 | the deadline countdown_sec sets; CountdownSecExpiry and CountdownWraps state when it expires |
| T2Time.LeftMsAsWritten | talaria_two_pal/t2_time.c:39-45 | left_ms as written, the deadline minus the clock divided by 1000 in 64-bit arithmetic; LeftMsMixesUnits shows it reports 1000000 where LeftMs reports 1 |
| T2Time.Timer.constructor | talaria_two_pal/t2_time.c:51-53 | a new timer has deadline 0 |
| T2Time.Timer.InitTimer | talaria_two_pal/t2_time.c:51-53 | the deadline becomes 0 |
| T2Time.Timer.HasTimerExpired | talaria_two_pal/t2_time.c:27-33 | true exactly when the clock has reached the deadline |
| T2Time.Timer.CountdownMs | talaria_two_pal/t2_time.c:35-37 | the deadline is the clock plus the 32-bit product timeout·1000, in 64 bits |
| T2Time.Timer.CountdownSec | talaria_two_pal/t2_time.c:47-49 | the deadline is the clock plus the 32-bit product timeout·1000000, in 64 bits |
| T2Time.Timer.LeftMsNow | talaria_two_pal/t2_time.c:39-45 | left_ms as written: the deadline minus the clock in milliseconds, wrapping |
| T2Time.InitExpired | talaria_two_pal/t2_time.c:51-53 | an initialised timer has expired whatever the clock says |
| T2Time.ExpiryMonotonic | talaria_two_pal/t2_time.c:27-33 | once expired, a timer stays expired while the clock moves forward |
| T2Time.CountdownMsExpiry | talaria_two_pal/t2_time.c:35-37 | without wrap-around, countdown_ms(t) expires exactly from t·1000 clock units on |
| T2Time.CountdownSecExpiry | talaria_two_pal/t2_time.c:47-49 | without wrap-around, countdown_sec(t) expires exactly from t·10^6 clock units on |
| T2Time.CountdownWraps | talaria_two_pal/t2_time.c:35-37 | 4294968 ms and 4295 s wrap in 32 bits to deadlines 704 and 32704 units away |
| T2Time.LeftMsMixesUnits | talaria_two_pal/t2_time.c:39-45 | counterexample: one millisecond before its deadline, left_ms as written reports a million; the corrected one reports 1 |
| T2Time.LeftMsAfterCountdown | talaria_two_pal/t2_time.c:39-45 | right after countdown_ms(t), the corrected left_ms is t |
| T2Time.LeftMsMonotonic | talaria_two_pal/t2_time.c:39-45 | the corrected time left only shrinks as the clock advances |
| ShadowSample.PeriodIsUpAndDown | samples/shadow_sample/shadow_sample.c:108-110 | the period is twice the distance between the limits in half degrees |
| ShadowSample.Zigzag | samples/shadow_sample/shadow_sample.c:133-143 | the triangle wave stays between 0 and the distance between the limits |
| ShadowSample.Step | samples/shadow_sample/shadow_sample.c:133-143 | one call of simulateRoomTemperature on values; StepKeepsLimits and RunClosedForm state its effect |
| ShadowSample.StepKeepsLimits | samples/shadow_sample/shadow_sample.c:133-143 | a call keeps the temperature between 25.0 and 32.0 and changes it by exactly half a degree |
| ShadowSample.RunClosedForm | samples/shadow_sample/shadow_sample.c:133-143 | after n calls the temperature is 25.0 plus the triangle wave, rising in the first half period and falling in the second |
| ShadowSample.RunReachable | samples/shadow_sample/shadow_sample.c:133-143 | every state reached lies within the limits |
| ShadowSample.FirstCallAndPeriod | samples/shadow_sample/shadow_sample.c:133-143 | the first call gives 25.5, and the simulation repeats every 28 calls |
| ShadowSample.RoomTemperature.constructor | samples/shadow_sample/shadow_sample.c:253 | the loop starts at 25.0 with no change yet |
| ShadowSample.RoomTemperature.Simulate | samples/shadow_sample/shadow_sample.c:133-143 | one call is one step of the simulation, and it keeps the limits |

## Left out

- I/O: console logging (`os_printf`) and the AWS, MQTT, Wi-Fi and shadow code around the samples are not modelled.
- The bus: `i2c_create_device` and `i2c_transfer` are a scripted device handle. The script fixes the answer to each transfer.
- The clock: `os_systime64` is not part of this model. Each timer operation takes the clock reading as a parameter.
- `delay()` in t2_time.c is not modelled; it only sleeps through the OS.
- SensorJsonify.StringifyDouble: the text stringify_double formats is a parameter, a non-empty numeral. Only its fit check, its returned length and its NUL on failure are modelled. The parameter stands for the `dtoa` digits together with the formatting of sensor_jsonify.c:316-324: the sign, the `%.*s` split of the digits at `decpt`, the '.', and the fraction or "0" (or sign and digits alone when `ndigits <= 0`). Because that formatting is out of the model, so are its edge cases: with `decpt == 0` it writes a numeral with no integer digit, such as ".5", and a `decpt` outside the digit string makes `str + decpt` point outside dtoa's result.
- Opt3002.Pow: the C accumulator is a 32-bit `int`, so `base^n >= 2^31` overflows in C. The model's integer is unbounded. The driver's only call is `pow(2, Exponent)` with Exponent at most 15, which stays below 2^15.
- snprintf's negative result on an encoding error is not modelled. Every text here is plain ASCII.
- After a failed append the model does not describe the bytes past the NUL, only the NUL at the writer's start.
- Floating point: C `float`/`double` and Python floats are exact reals. A division by zero is a non-finite value in C and ZeroDivisionError in Python. Rounding is not modelled.
- Icp101xx.InvPres.GetDataRaw: requires that the device eventually answers a read with a status other than -ENXIO. The driver's busy loop never ends otherwise, and that case is not modelled. Icp101xx.InvPres.MeasureBlocking and Icp101xx.InvPres.MeasureRawBlocking require the same only when the start succeeds, since a failed start returns before polling.
- Icp101xx.InvPres.Init: the OTP words a failed load leaves unread come from an uninitialised local array. The model leaves those constants unconstrained and states only the words read.
- Icp101xx.InvPres.GetDataRaw: when the last poll fails with a status other than -ENXIO, the model decodes the reply's bytes padded with zeros. The C buffer holds indeterminate bytes there.
- The sensor-enable switches (PRES_SEN_EN, OPT_SEN_EN, HUMID_SEN_EN) are a parameter of the serialiser, not compile-time conditionals.
- `sensor.c`, the BMP388 and SHTC drivers and the plotter's plotting code are not part of this model.
- IcpConversion.PressureConversion.constructor, IcpConversion.PressureConversion.SetConstants and SensorProcessor.SensorProcessor.constructor: Python keeps a reference to the caller's constants list (`self.sensor_constants = …`, `calib['icp']`), so a later change to that list changes the converter. The model stores the list's value, so this aliasing is not modelled.
- The Python dictionaries are insertion-ordered lists of pairs. The input reading's keys are distinct only where a lemma requires it, as they would be in a dictionary.

## Findings

| source | as written | input that shows it | evidently intended | confidence | as-written member | corrected member |
|---|---|---|---|---|---|---|
| talaria_two_pal/t2_time.c:39-45 | left_ms subtracts the clock converted to milliseconds from a deadline in microseconds (countdown_ms scales by 1000 and has_timer_expired compares with the raw clock) | countdown_ms(1) at clock 1_000_000 sets deadline 1_001_000; left_ms at that clock returns 1_000_000 | the milliseconds left until the deadline: (end − now) / 1000, and 0 once expired | not executed | T2Time.LeftMsAsWritten with T2Time.LeftMsMixesUnits | T2Time.LeftMs with T2Time.LeftMsAfterCountdown and T2Time.LeftMsMonotonic |
