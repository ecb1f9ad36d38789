/** The host-side twin of the ICP-101xx compensation (`InvensensePressureConversion`
    in the plotter scripts). Python floats are idealised as reals; a division
    by zero raises ZeroDivisionError and indexing past the end of a list raises
    IndexError. Every result is related to the driver's own formulas. */
module IcpConversion {
  import opened PyRuntime
  import opened FloatModel
  import Icp101xx

  /** calculate_conversion_constants: the list [A, B, C]. Its three formulas
      are the driver's, term for term, so the arithmetic is the driver's
      ConversionConstants; what is Python's own is that a short list raises
      IndexError and a zero divisor raises ZeroDivisionError. */
  function CalculateConversionConstants(pPa: seq<real>, pLut: seq<real>): (r: PyResult<seq<real>>)
    ensures r.Raised? <==> |pPa| < 3 || |pLut| < 3 || Icp101xx.ConversionConstants(pPa[..3], pLut[..3]).None?
    ensures r.Raised? ==> r.error == (if |pPa| < 3 || |pLut| < 3 then IndexError else ZeroDivisionError)
    ensures r.Ok? ==> var k := Icp101xx.ConversionConstants(pPa[..3], pLut[..3]).value;
      r.value == [k.a, k.b, k.c]
  {
    if |pLut| < 3 || |pPa| < 3 then Raised(IndexError)
    else
      match Icp101xx.ConversionConstants(pPa[..3], pLut[..3])
      case None => Raised(ZeroDivisionError)
      case Some(k) => Ok([k.a, k.b, k.c])
  }

  /** The curve with the Python constants passes through the three
      reference points (whenever it is defined there). */
  lemma CalculateInterpolates(pPa: seq<real>, pLut: seq<real>, i: nat)
    requires |pPa| >= 3 && |pLut| >= 3 && i < 3
    requires CalculateConversionConstants(pPa, pLut).Ok?
    requires CalculateConversionConstants(pPa, pLut).value[2] + pLut[i] != 0.0
    ensures var abc := CalculateConversionConstants(pPa, pLut).value;
      abc[0] + abc[1] / (abc[2] + pLut[i]) == pPa[i]
  {
    Icp101xx.ConversionConstantsInterpolate(pPa[..3], pLut[..3], i);
  }

  /** get_temperature: `-45 + 175/65536 * T_LSB`. */
  function GetTemperature(tLsb: real): real {
    -45.0 + 175.0 / 65536.0 * tLsb
  }

  /** get_temperature is the driver's temperature formula, -45 at code 0 and
      42.5 at code 32768, and strictly increasing. */
  lemma GetTemperatureFacts(tLsb: int, x: real, y: real)
    ensures GetTemperature(tLsb as real) == Icp101xx.Temperature(tLsb)
    ensures GetTemperature(0.0) == -45.0 && GetTemperature(32768.0) == 42.5
    ensures x < y ==> GetTemperature(x) < GetTemperature(y)
  {
  }

  /** class InvensensePressureConversion */
  class PressureConversion {
    var sensorConstants: seq<int>
    var pPaCalib: seq<real>
    var lutLower: real
    var lutUpper: real
    var quadrFactor: real
    var offstFactor: real

    /** The object's attributes, in the driver's calibration record. */
    function Calib(): Icp101xx.Calibration
      reads this
    {
      Icp101xx.Calibration(sensorConstants, pPaCalib, lutLower, lutUpper, quadrFactor, offstFactor)
    }

    /** __init__: the given constants beside the driver's fixed configuration. */
    constructor (sensorConstants: seq<int>)
      ensures Calib() == Icp101xx.BaseCalibration(sensorConstants)
    {
      this.sensorConstants := sensorConstants;
      pPaCalib := [45000.0, 80000.0, 105000.0];
      lutLower := 3.5 * 1048576.0;
      lutUpper := 11.5 * 1048576.0;
      quadrFactor := 1.0 / 16777216.0;
      offstFactor := 2048.0;
    }

    /** set_constants: only the sensor constants change. */
    method SetConstants(sensorConstants: seq<int>)
      modifies this
      ensures Calib() == old(Calib()).(constants := sensorConstants)
    {
      this.sensorConstants := sensorConstants;
    }

    /** The seeds s1, s2, s3 get_pressure computes at temperature code T_LSB. */
    function Seeds(tLsb: real): (r: PyResult<seq<real>>)
      reads this
      ensures r.Ok? <==> |sensorConstants| >= 4
      ensures r.Raised? ==> r.error == IndexError
      ensures r.Ok? ==> |r.value| == 3
    {
      if |sensorConstants| < 4 then Raised(IndexError)
      else
        var t := tLsb - 32768.0;
        Ok([lutLower + (sensorConstants[0] as real * t * t) * quadrFactor,
            offstFactor * sensorConstants[3] as real + (sensorConstants[1] as real * t * t) * quadrFactor,
            lutUpper + (sensorConstants[2] as real * t * t) * quadrFactor])
    }

    /** get_pressure: `A + B / (C + p_LSB)` with the constants fitted at T_LSB. */
    function GetPressure(pLsb: real, tLsb: real): (r: PyResult<real>)
      reads this
      ensures |sensorConstants| < 4 ==> r == Raised(IndexError)
      ensures r.Raised? ==> r.error == IndexError || r.error == ZeroDivisionError
    {
      match Seeds(tLsb)
      case Raised(e) => Raised(e)
      case Ok(s) =>
        match CalculateConversionConstants(pPaCalib, s)
        case Raised(e) => Raised(e)
        case Ok(abc) =>
          if abc[2] + pLsb == 0.0 then Raised(ZeroDivisionError) else Ok(abc[0] + abc[1] / (abc[2] + pLsb))
    }
  }

  /** get_pressure computes the pressure output of the driver's
      inv_invpres_process_data: a value exactly where the driver's float
      result is finite, and ZeroDivisionError exactly where it is not. */
  lemma GetPressureMatchesDriver(conv: PressureConversion, pLsb: int, tLsb: int)
    requires conv.Calib().WellFormed()
    ensures var p := Icp101xx.ProcessData(conv.Calib(), pLsb, tLsb).pressure;
      match conv.GetPressure(pLsb as real, tLsb as real)
      case Ok(v) => p == Finite(v)
      case Raised(e) => p == NonFinite && e == ZeroDivisionError
  {
    SeedsMatchDriver(conv, tLsb);
    assert conv.pPaCalib[..3] == conv.pPaCalib;
    assert Icp101xx.Seeds(conv.Calib(), tLsb)[..3] == Icp101xx.Seeds(conv.Calib(), tLsb);
  }

  /** get_pressure's seeds are the driver's. */
  lemma SeedsMatchDriver(conv: PressureConversion, tLsb: int)
    requires conv.Calib().WellFormed()
    ensures conv.Seeds(tLsb as real) == Ok(Icp101xx.Seeds(conv.Calib(), tLsb))
  {
    var s := Icp101xx.Seeds(conv.Calib(), tLsb);
    var t := (tLsb - 32768) as real;
    assert t == tLsb as real - 32768.0;
    var py := conv.Seeds(tLsb as real).value;
    assert py[0] == s[0] && py[1] == s[1] && py[2] == s[2];
  }

  /** With all four sensor constants zero the seeds do not depend on the
      temperature: they are the two LUT bounds with 0 between them. */
  lemma ZeroConstantsSeeds(conv: PressureConversion, tLsb: real)
    requires conv.Calib() == Icp101xx.BaseCalibration([0, 0, 0, 0])
    ensures conv.Seeds(tLsb) == Ok([3.5 * 1048576.0, 0.0, 11.5 * 1048576.0])
  {
    assert conv.sensorConstants == [0, 0, 0, 0];
  }
}
