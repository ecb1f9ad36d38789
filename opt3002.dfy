/** The OPT3002 light-to-digital driver: register reads and writes over
    I2C, each a one-byte command write followed, for a read, by a two-byte
    big-endian read; the lux conversion of the exponent/result word; and the
    local integer `pow` it uses instead of the C library's. */
module Opt3002 {
  import opened I2c
  import opened Bits
  import opened Opt3002Regs

  // ---------------------------------------------------------------------
  // pow

  /** base^n, multiplying on the right as the driver's loop does. */
  function Power(base: int, n: nat): int {
    if n == 0 then 1 else Power(base, n - 1) * base
  }

  /** `int i = exponent`: C truncates a double toward zero. */
  function TruncateToInt(x: real): int {
    if x >= 0.0 then x.Floor else -((-x).Floor)
  }

  /** The number of times the loop multiplies: the truncated exponent when
      it is positive, none otherwise. */
  function Multiplications(exponent: real): nat {
    if TruncateToInt(exponent) > 0 then TruncateToInt(exponent) else 0
  }

  /** The driver's `pow(int base, double exponent)`: an int accumulator
      starting at 1, multiplied by base once per step of a counter that
      starts at the truncated exponent and runs down to 1. */
  method Pow(base: int, exponent: real) returns (result: int)
    ensures result == Power(base, Multiplications(exponent))
    ensures exponent < 1.0 ==> result == 1
  {
    result := 1;
    var i := TruncateToInt(exponent);
    ghost var n := Multiplications(exponent);
    while i > 0
      invariant (if i > 0 then i else 0) <= n
      invariant result == Power(base, n - (if i > 0 then i else 0))
      decreases i
    {
      result := result * base;
      i := i - 1;
    }
  }

  /** On the driver's call `pow(2, Exponent)` the loop computes 2^Exponent. */
  lemma {:induction false} PowerOfTwo(n: nat)
    ensures Power(2, n) == Pow2(n)
  {
    if n > 0 {
      PowerOfTwo(n - 1);
    }
  }

  // ---------------------------------------------------------------------
  // Lux conversion

  /** `1.2 * (pow(2, Exponent) * Result)`. The product of the two
      integers is exact in a double (it is below 2^27), so only the
      scaling by 1.2 is idealised. */
  function Lux(er: Er): real {
    1.2 * (Power(2, er.exponent) * er.result) as real
  }

  /** The lux of a result word is 1.2 lux times 2^E times R for
      E = bits 15..12 and R = bits 11..0, which is at most 1.2 * 2^15 * 4095,
      and it is zero exactly when R is zero. */
  lemma LuxOfWord(w: uint16)
    ensures Lux(ErOf(w)) == 1.2 * (Pow2(w / 0x1000) * (w % 0x1000)) as real
    ensures 0.0 <= Lux(ErOf(w)) <= 1.2 * (0x8000 * 0xFFF) as real
    ensures Lux(ErOf(w)) == 0.0 <==> w % 0x1000 == 0
  {
    LuxOfFields(ErOf(w));
  }

  lemma LuxOfFields(e: Er)
    requires e.Valid()
    ensures Lux(e) == 1.2 * (Pow2(e.exponent) * e.result) as real
    ensures 0.0 <= Lux(e) <= 1.2 * (0x8000 * 0xFFF) as real
    ensures Lux(e) == 0.0 <==> e.result == 0
  {
    PowerOfTwo(e.exponent);
    Pow2Values();
    Pow2Monotone(e.exponent, 15);
    ProductBound(Pow2(e.exponent), e.result, 0x8000, 0xFFF);
  }

  lemma {:induction false} Pow2Monotone(m: nat, n: nat)
    requires m <= n
    ensures Pow2(m) <= Pow2(n)
    decreases n
  {
    if m < n {
      Pow2Monotone(m, n - 1);
    }
  }

  lemma ProductBound(a: nat, b: nat, x: nat, y: nat)
    requires a <= x && b <= y
    ensures a * b <= x * y && (a * b == 0 <==> a == 0 || b == 0)
  {
    assert a * b <= x * b;
    assert x * b <= x * y;
  }

  // ---------------------------------------------------------------------
  // What the bus is about to answer

  /** The status of the k-th transfer from now; a missing device is -ENODEV. */
  function NextStatus(d: Device?, k: nat): int
    reads d
  {
    if d == null then -ENODEV else d.script.At(|d.log| + k).status
  }

  /** The big-endian word a two-byte read as the k-th transfer from now yields. */
  function NextWord(d: Device?, k: nat): uint16
    reads d
  {
    if d == null then 0 else Word(Fit(d.script.At(|d.log| + k).data, 2))
  }

  /** `(buf[0] << 8) | buf[1]` */
  function Word(buf: seq<byte>): (w: uint16)
    requires |buf| == 2
    ensures w / 256 == buf[0] as int && w % 256 == buf[1] as int
  {
    BigEndian16RoundTrip(buf[0], buf[1]);
    BigEndian16(buf[0], buf[1])
  }

  /** The transfers of a command write and, when it succeeds, the two-byte read after it. */
  function CommandThenRead(command: byte, writeStatus: int): seq<Transfer> {
    if writeStatus == 0 then [Transfer.Write([command]), Transfer.Read(2)]
    else [Transfer.Write([command])]
  }

  /** `opt3002_returnError` */
  function ReturnError(error: int): Light {
    Light(0.0, 0, error)
  }

  /** The light record `opt3002_readRegister` returns against the device's next answers. */
  function RegisterRead(d: Device?, raw: bool): Light
    reads d
  {
    if NextStatus(d, 0) != 0 then ReturnError(NextStatus(d, 0))
    else if NextStatus(d, 1) != 0 then Light(0.0, 0, NextStatus(d, 1))
    else Light(if raw then 0.0 else Lux(ErOf(NextWord(d, 1))), NextWord(d, 1), 0)
  }

  /** The word a command-then-read yields, 0 when either step fails. */
  function WordRead(d: Device?): uint16
    reads d
  {
    if NextStatus(d, 0) == 0 && NextStatus(d, 1) == 0 then NextWord(d, 1) else 0
  }

  /** The error-record rules of a register read: the error is 0 exactly when
      both bus steps succeed, and then the record holds the register word and,
      unless the raw variant was asked for, the lux computed from it;
      otherwise the error is the failing step's status (the write's first)
      and lux and word are 0. */
  lemma RegisterReadRecord(d: Device?, raw: bool)
    ensures RegisterRead(d, raw).error == 0 <==> NextStatus(d, 0) == 0 && NextStatus(d, 1) == 0
    ensures RegisterRead(d, raw).error != 0 ==>
      RegisterRead(d, raw).lux == 0.0 && RegisterRead(d, raw).raw == 0 &&
      RegisterRead(d, raw).error == (if NextStatus(d, 0) != 0 then NextStatus(d, 0) else NextStatus(d, 1))
    ensures RegisterRead(d, raw).error == 0 ==>
      var w := RegisterRead(d, raw).raw;
      w == NextWord(d, 1) &&
      RegisterRead(d, raw).lux == (if raw then 0.0 else 1.2 * (Pow2(w / 0x1000) * (w % 0x1000)) as real)
    ensures d == null ==> RegisterRead(d, raw) == Light(0.0, 0, -ENODEV)
  {
    if NextStatus(d, 0) == 0 && NextStatus(d, 1) == 0 {
      LuxOfWord(NextWord(d, 1));
    }
  }

  /** The raw result read and the word readers agree on the word, and the raw
      and converted result reads differ only in lux. */
  lemma RawReadAgrees(d: Device?)
    ensures RegisterRead(d, true).raw == WordRead(d)
    ensures RegisterRead(d, true).error == RegisterRead(d, false).error
    ensures RegisterRead(d, true).raw == RegisterRead(d, false).raw
  {
  }

  /** `{CONFIG, rawData >> 8, rawData & 0x00FF}` */
  function ConfigBytes(config: Config): seq<byte>
    requires config.Valid()
  {
    var w := ConfigWord(config);
    [CONFIG, w / 256, w % 256]
  }

  /** The configuration write names the configuration register and carries
      the word most significant byte first, so a device that answers a
      configuration read with the bytes it was sent gives back the same
      configuration. */
  lemma ConfigBytesRoundTrip(config: Config)
    requires config.Valid()
    ensures |ConfigBytes(config)| == 3 && ConfigBytes(config)[0] == CONFIG
    ensures ConfigOf(Word(ConfigBytes(config)[1..])) == config
  {
    var b := ConfigBytes(config);
    var w := ConfigWord(config);
    assert Word(b[1..]) == w;
    ConfigRoundTrip(0, config);
  }

  // ---------------------------------------------------------------------
  // The driver

  /** `opt3002_t`: the device handle. A null `opt3002_t *` behaves as a
      null handle: every transfer fails with -ENODEV. */
  class Opt3002 {
    var dev: Device?

    /** `opt3002_init`, with the handle `i2c_create_device` gave. */
    constructor (dev: Device?)
      ensures this.dev == dev
    {
      this.dev := dev;
    }

    /** `opt3002_i2c_write` */
    method I2cWrite(data: seq<byte>) returns (status: int)
      modifies dev
      ensures status == old(NextStatus(dev, 0))
      ensures dev != null ==> dev.log == old(dev.log) + [Transfer.Write(data)]
    {
      if dev == null {
        return -ENODEV;
      }
      status := dev.Write(data);
    }

    /** `opt3002_i2c_read` */
    method I2cRead(count: nat) returns (status: int, data: seq<byte>)
      modifies dev
      ensures status == old(NextStatus(dev, 0)) && |data| == count
      ensures dev != null ==>
        dev.log == old(dev.log) + [Transfer.Read(count)] &&
        data == Fit(old(dev.script.At(|dev.log|)).data, count)
    {
      if dev == null {
        return -ENODEV, Fit([], count);
      }
      status, data := dev.Read(count);
    }

    /** `opt3002_writeData`: the one-byte command write. */
    method WriteData(command: byte) returns (status: int)
      modifies dev
      ensures status == old(NextStatus(dev, 0))
      ensures dev != null ==> dev.log == old(dev.log) + [Transfer.Write([command])]
    {
      status := I2cWrite([command]);
    }

    /** `opt3002_readData`: on a failed read `*data` keeps its value `prior`. */
    method ReadData(prior: uint16) returns (status: int, data: uint16)
      modifies dev
      ensures status == old(NextStatus(dev, 0))
      ensures data == if status == 0 then old(NextWord(dev, 0)) else prior
      ensures dev != null ==> dev.log == old(dev.log) + [Transfer.Read(2)]
    {
      var buf;
      status, buf := I2cRead(2);
      if status != 0 {
        return status, prior;
      }
      data := Word(buf);
    }

    /** `opt3002_readRegister` */
    method ReadRegister(command: byte, raw: bool) returns (light: Light)
      modifies dev
      ensures light == old(RegisterRead(dev, raw))
      ensures dev != null ==> dev.log == old(dev.log) + CommandThenRead(command, old(NextStatus(dev, 0)))
    {
      var error := WriteData(command);
      if error != 0 {
        return ReturnError(error);
      }
      light := Light(0.0, 0, 0);
      var word;
      error, word := ReadData(0);
      if error == 0 {
        light := light.(raw := word);
        if !raw {
          var er := ErOf(word);
          var scale := Pow(2, er.exponent as real);
          light := light.(lux := 1.2 * (scale * er.result) as real);
        }
      } else {
        light := light.(error := error);
      }
    }

    /** A command write and a word read; 0 unless both succeed. */
    method ReadWord(command: byte) returns (word: uint16)
      modifies dev
      ensures word == old(WordRead(dev))
      ensures dev != null ==> dev.log == old(dev.log) + CommandThenRead(command, old(NextStatus(dev, 0)))
    {
      word := 0;
      var error := WriteData(command);
      if error == 0 {
        error, word := ReadData(word);
      }
    }

    /** `opt3002_readManufacturerID` */
    method ReadManufacturerID() returns (id: uint16)
      modifies dev
      ensures id == old(WordRead(dev))
      ensures dev != null ==> dev.log == old(dev.log) + CommandThenRead(MANUFACTURER_ID, old(NextStatus(dev, 0)))
    {
      id := ReadWord(MANUFACTURER_ID);
    }

    /** `opt3002_readDeviceID` */
    method ReadDeviceID() returns (id: uint16)
      modifies dev
      ensures id == old(WordRead(dev))
      ensures dev != null ==> dev.log == old(dev.log) + CommandThenRead(DEVICE_ID, old(NextStatus(dev, 0)))
    {
      id := ReadWord(DEVICE_ID);
    }

    /** `opt3002_readConfig`: the all-zero configuration unless both steps succeed. */
    method ReadConfig() returns (config: Config)
      modifies dev
      ensures config == ConfigOf(old(WordRead(dev)))
      ensures dev != null ==> dev.log == old(dev.log) + CommandThenRead(CONFIG, old(NextStatus(dev, 0)))
    {
      var word := ReadWord(CONFIG);
      config := ConfigOf(word);
    }

    /** `opt3002_writeConfig` */
    method WriteConfig(config: Config) returns (status: int)
      requires config.Valid()
      modifies dev
      ensures status == old(NextStatus(dev, 0))
      ensures dev != null ==> dev.log == old(dev.log) + [Transfer.Write(ConfigBytes(config))]
    {
      var word := ConfigWord(config);
      status := I2cWrite([CONFIG, word / 256, word % 256]);
    }

    /** `opt3002_readResult` */
    method ReadResult() returns (light: Light)
      modifies dev
      ensures light == old(RegisterRead(dev, false))
      ensures dev != null ==> dev.log == old(dev.log) + CommandThenRead(RESULT, old(NextStatus(dev, 0)))
    {
      light := ReadRegister(RESULT, false);
    }

    /** `opt3002_readResult_raw` */
    method ReadResultRaw() returns (light: Light)
      modifies dev
      ensures light == old(RegisterRead(dev, true))
      ensures dev != null ==> dev.log == old(dev.log) + CommandThenRead(RESULT, old(NextStatus(dev, 0)))
    {
      light := ReadRegister(RESULT, true);
    }

    /** `opt3002_readHighLimit` */
    method ReadHighLimit() returns (light: Light)
      modifies dev
      ensures light == old(RegisterRead(dev, false))
      ensures dev != null ==> dev.log == old(dev.log) + CommandThenRead(HIGH_LIMIT, old(NextStatus(dev, 0)))
    {
      light := ReadRegister(HIGH_LIMIT, false);
    }

    /** `opt3002_readLowLimit` */
    method ReadLowLimit() returns (light: Light)
      modifies dev
      ensures light == old(RegisterRead(dev, false))
      ensures dev != null ==> dev.log == old(dev.log) + CommandThenRead(LOW_LIMIT, old(NextStatus(dev, 0)))
    {
      light := ReadRegister(LOW_LIMIT, false);
    }
  }
}
