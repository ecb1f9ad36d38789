/** The OPT3002 register map as the driver's header declares it: the
    register addresses, the exponent/result word and the configuration
    word (both 16-bit unions of bit fields), and the light record the
    driver returns. The layouts agree with the TI OPT3002 datasheet:
    E3..E0 in bits 15..12 above R11..R0, and the configuration fields from
    the fault count in bits 1..0 up to the range number in bits 15..12. */
module Opt3002Regs {
  import opened Bits
  import opened I2c

  type uint16 = x: int | 0 <= x < 0x1_0000

  // opt3002_command_t: register addresses
  const RESULT: byte := 0x00
  const CONFIG: byte := 0x01
  const LOW_LIMIT: byte := 0x02
  const HIGH_LIMIT: byte := 0x03
  const MANUFACTURER_ID: byte := 0x7E
  const DEVICE_ID: byte := 0x7F

  // ---------------------------------------------------------------------
  // opt3002_ER_t

  /** Result : 12, then Exponent : 4. */
  const ER_LAYOUT: seq<nat> := [12, 4]

  datatype Er = Er(result: nat, exponent: nat) {
    predicate Valid() {
      result < 0x1000 && exponent < 0x10
    }
  }

  lemma ErLayoutOffsets()
    ensures Sum(ER_LAYOUT) == 16 && ER_LAYOUT[1..] == [4] && ER_LAYOUT[1..][1..] == []
  {
    assert ER_LAYOUT[1..] == [4];
    assert ER_LAYOUT[1..][1..] == [];
  }

  /** The fields of an ER word, read through the union. */
  function ErOf(raw: uint16): (e: Er)
    ensures e.Valid()
    ensures e.result == raw % 0x1000 && e.exponent == raw / 0x1000
  {
    ErLayoutOffsets();
    Pow2Values();
    var f := Unpack(raw, ER_LAYOUT);
    assert f == [Low(raw, 12)] + Unpack(Shr(raw, 12), [4]);
    assert Unpack(Shr(raw, 12), [4]) == [Low(Shr(raw, 12), 4)] + Unpack(Shr(Shr(raw, 12), 4), []);
    ShiftMask(raw, 12);
    ShiftMask(raw / 0x1000, 4);
    Er(f[0], f[1])
  }

  /** The ER word of valid fields, written through the union. */
  function ErWord(e: Er): (raw: uint16)
    requires e.Valid()
    ensures raw == e.exponent * 0x1000 + e.result
  {
    ErLayoutOffsets();
    Pow2Values();
    var f := [e.result, e.exponent];
    assert f[1..] == [e.exponent] && f[1..][1..] == [];
    assert Pack(f, ER_LAYOUT) == e.result + Shl(Pack([e.exponent], [4]), 12);
    assert Pack([e.exponent], [4]) == e.exponent + Shl(Pack([], []), 4);
    assert Shl(0, 4) == 0 by { ShlIsProduct(0, 4); }
    ShlIsProduct(e.exponent, 12);
    Pack(f, ER_LAYOUT)
  }

  /** The word and its fields are the same information. */
  lemma ErRoundTrip(raw: uint16, e: Er)
    ensures ErWord(ErOf(raw)) == raw
    ensures e.Valid() ==> ErOf(ErWord(e)) == e
  {
    DivModUnique(raw, 0x1000, raw / 0x1000, raw % 0x1000);
    if e.Valid() {
      DivModUnique(ErWord(e), 0x1000, e.exponent, e.result);
    }
  }

  // ---------------------------------------------------------------------
  // opt3002_config_t

  /** FaultCount : 2, MaskExponent, Polarity, Latch, FlagLow, FlagHigh,
      ConversionReady, OverflowFlag : 1 each, ModeOfConversionOperation : 2,
      ConversionTime : 1, RangeNumber : 4. */
  const CONFIG_LAYOUT: seq<nat> := [2, 1, 1, 1, 1, 1, 1, 1, 2, 1, 4]

  datatype Config = Config(faultCount: nat, maskExponent: nat, polarity: nat, latch: nat,
                           flagLow: nat, flagHigh: nat, conversionReady: nat, overflowFlag: nat,
                           mode: nat, conversionTime: nat, rangeNumber: nat)
  {
    /** The fields in layout order. */
    function Fields(): (f: seq<nat>)
      ensures |f| == |CONFIG_LAYOUT|
    {
      [faultCount, maskExponent, polarity, latch, flagLow, flagHigh,
       conversionReady, overflowFlag, mode, conversionTime, rangeNumber]
    }

    predicate Valid() {
      Fits(Fields(), CONFIG_LAYOUT)
    }
  }

  /** Bit offsets of the configuration fields. */
  lemma ConfigLayoutOffsets()
    ensures Sum(CONFIG_LAYOUT) == 16
    ensures Sum(CONFIG_LAYOUT[..0]) == 0 && Sum(CONFIG_LAYOUT[..1]) == 2
    ensures Sum(CONFIG_LAYOUT[..2]) == 3 && Sum(CONFIG_LAYOUT[..3]) == 4
    ensures Sum(CONFIG_LAYOUT[..4]) == 5 && Sum(CONFIG_LAYOUT[..5]) == 6
    ensures Sum(CONFIG_LAYOUT[..7]) == 8 && Sum(CONFIG_LAYOUT[..8]) == 9 && Sum(CONFIG_LAYOUT[..9]) == 11
    ensures Sum(CONFIG_LAYOUT[..10]) == 12
    ensures Sum(CONFIG_LAYOUT[..6]) == 7
  {
    assert CONFIG_LAYOUT[..0] == [];
    SumPrefix(CONFIG_LAYOUT, 0);
    SumPrefix(CONFIG_LAYOUT, 1);
    SumPrefix(CONFIG_LAYOUT, 2);
    SumPrefix(CONFIG_LAYOUT, 3);
    SumPrefix(CONFIG_LAYOUT, 4);
    SumPrefix(CONFIG_LAYOUT, 5);
    SumPrefix(CONFIG_LAYOUT, 6);
    SumPrefix(CONFIG_LAYOUT, 7);
    SumPrefix(CONFIG_LAYOUT, 8);
    SumPrefix(CONFIG_LAYOUT, 9);
    SumPrefix(CONFIG_LAYOUT, 10);
    assert CONFIG_LAYOUT[..11] == CONFIG_LAYOUT;
  }

  function ConfigOfFields(f: seq<nat>): (c: Config)
    requires |f| == |CONFIG_LAYOUT|
    ensures c.Fields() == f
  {
    var c := Config(f[0], f[1], f[2], f[3], f[4], f[5], f[6], f[7], f[8], f[9], f[10]);
    assert c.Fields() == f;
    c
  }

  /** The fields of a configuration word, read through the union. */
  function ConfigOf(raw: uint16): (c: Config)
    ensures c.Valid() && c.Fields() == Unpack(raw, CONFIG_LAYOUT)
  {
    UnpackFits(raw, CONFIG_LAYOUT);
    ConfigOfFields(Unpack(raw, CONFIG_LAYOUT))
  }

  /** The configuration word of valid fields, written through the union. */
  function ConfigWord(c: Config): (raw: uint16)
    requires c.Valid()
    ensures raw == Pack(c.Fields(), CONFIG_LAYOUT)
  {
    ConfigLayoutOffsets();
    Pow2Values();
    PackBound(c.Fields(), CONFIG_LAYOUT);
    Pack(c.Fields(), CONFIG_LAYOUT)
  }

  /** The configuration fields exactly cover the 16 bits of the word, and
      the word and its fields are the same information. */
  lemma ConfigRoundTrip(raw: uint16, c: Config)
    ensures Sum(CONFIG_LAYOUT) == 16
    ensures ConfigWord(ConfigOf(raw)) == raw
    ensures c.Valid() ==> ConfigOf(ConfigWord(c)) == c
  {
    ConfigLayoutOffsets();
    Pow2Values();
    PackUnpack(raw, CONFIG_LAYOUT);
    if c.Valid() {
      UnpackPack(c.Fields(), CONFIG_LAYOUT);
      assert ConfigOf(ConfigWord(c)).Fields() == c.Fields();
    }
  }

  /** Where the configuration fields sit: the fault count in bits 1..0,
      the exponent mask in bit 2, POL in bit 3, L in bit 4, FL in bit 5,
      FH in bit 6, CRF in bit 7, OVF in bit 8, M in bits 10..9, CT in
      bit 11 and RN in bits 15..12. */
  lemma ConfigBitPositions(raw: uint16)
    ensures ConfigOf(raw).faultCount == raw % 4
    ensures ConfigOf(raw).maskExponent == raw / 4 % 2
    ensures ConfigOf(raw).polarity == raw / 8 % 2
    ensures ConfigOf(raw).latch == raw / 0x10 % 2
    ensures ConfigOf(raw).flagLow == raw / 0x20 % 2
    ensures ConfigOf(raw).flagHigh == raw / 0x40 % 2
    ensures ConfigOf(raw).conversionReady == raw / 0x80 % 2
    ensures ConfigOf(raw).overflowFlag == raw / 0x100 % 2
    ensures ConfigOf(raw).mode == raw / 0x200 % 4
    ensures ConfigOf(raw).conversionTime == raw / 0x800 % 2
    ensures ConfigOf(raw).rangeNumber == raw / 0x1000 % 16
  {
    ConfigLayoutOffsets();
    Pow2Values();
    FieldBits(raw, 0, 0, 2);
    FieldBits(raw, 1, 2, 1);
    FieldBits(raw, 2, 3, 1);
    FieldBits(raw, 3, 4, 1);
    assert Pow2(5) == 0x20 && Pow2(6) == 0x40;
    FieldBits(raw, 4, 5, 1);
    FieldBits(raw, 5, 6, 1);
    FieldBits(raw, 6, 7, 1);
    FieldBits(raw, 7, 8, 1);
    FieldBits(raw, 8, 9, 2);
    FieldBits(raw, 9, 11, 1);
    FieldBits(raw, 10, 12, 4);
  }

  /** Field i of the configuration layout, starting at bit `at`, `width` bits wide. */
  lemma FieldBits(raw: uint16, i: nat, at: nat, width: nat)
    requires i < |CONFIG_LAYOUT| && Sum(CONFIG_LAYOUT[..i]) == at && CONFIG_LAYOUT[i] == width
    ensures Unpack(raw, CONFIG_LAYOUT)[i] == raw / Pow2(at) % Pow2(width)
  {
    FieldAt(raw, CONFIG_LAYOUT, i);
    ShiftMask(raw, at);
    ShiftMask(raw / Pow2(at), width);
  }

  // ---------------------------------------------------------------------
  // opt3002_light_t

  /** lux, the raw ER word, and the error code (0 or a negative errno). */
  datatype Light = Light(lux: real, raw: uint16, error: int)
}
