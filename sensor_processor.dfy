/** The host-side reading processor: it turns one decoded raw reading (a
    JSON object whose values are the firmware's integer sensor codes) into
    a processed reading, renaming each known `*_raw` item to its name
    without the suffix and converting its value, and copying every other
    item unchanged. Python dictionaries keep insertion order; both readings
    are modelled as sequences of key/value pairs in that order. */
module SensorProcessor {
  import opened PyRuntime
  import opened FloatModel
  import opened JsonAttr
  import opened Bits
  import Icp101xx
  import IcpConversion
  import Opt3002
  import Opt3002Regs

  /** A processed value: a copied integer or a computed float. */
  datatype Value = Int(i: int) | Num(r: real)

  /** Keys of a dictionary appear once. */
  predicate DistinctKeys<V>(d: seq<(string, V)>) {
    forall i, j :: 0 <= i < j < |d| ==> d[i].0 != d[j].0
  }

  /** `d[k]`, None for a missing key (Python raises KeyError). */
  function Lookup<V>(d: seq<(string, V)>, k: string): (r: Option<V>)
    ensures r.None? <==> forall i :: 0 <= i < |d| ==> d[i].0 != k
    ensures r.Some? ==> exists i :: 0 <= i < |d| && d[i] == (k, r.value)
    ensures DistinctKeys(d) ==> forall i :: 0 <= i < |d| && d[i].0 == k ==> r == Some(d[i].1)
  {
    if d == [] then None
    else if d[0].0 == k then Some(d[0].1)
    else
      var r := Lookup(d[1..], k);
      assert forall i :: 1 <= i < |d| ==> d[i] == d[1..][i - 1];
      r
  }

  /** `d[k] = v`, with the first item under k standing for the dictionary's
      entry. */
  function Insert(d: seq<(string, Value)>, k: string, v: Value): seq<(string, Value)>
    decreases |d|
  {
    if d == [] then [(k, v)]
    else if d[0].0 == k then [(k, v)] + d[1..]
    else [d[0]] + Insert(d[1..], k, v)
  }

  /** A new key goes at the end. */
  lemma {:induction false} InsertAppends(d: seq<(string, Value)>, k: string, v: Value)
    requires Lookup(d, k).None?
    ensures Insert(d, k, v) == d + [(k, v)]
    decreases |d|
  {
    if d != [] {
      assert d[0].0 != k;
      InsertAppends(d[1..], k, v);
      assert [d[0]] + (d[1..] + [(k, v)]) == d + [(k, v)];
    }
  }

  /** An existing key keeps its position: no item moves and no key changes. */
  lemma {:induction false} InsertReplaces(d: seq<(string, Value)>, k: string, v: Value)
    requires Lookup(d, k).Some?
    ensures var r := Insert(d, k, v); |r| == |d| && forall i :: 0 <= i < |d| ==> r[i].0 == d[i].0
    decreases |d|
  {
    if d[0].0 != k {
      assert Lookup(d, k) == Lookup(d[1..], k);
      InsertReplaces(d[1..], k, v);
      var tail := Insert(d[1..], k, v);
      assert Insert(d, k, v) == [d[0]] + tail;
    }
  }

  /** After `d[k] = v`, `d[k]` is v. */
  lemma {:induction false} InsertStores(d: seq<(string, Value)>, k: string, v: Value)
    ensures Lookup(Insert(d, k, v), k) == Some(v)
    decreases |d|
  {
    if d != [] && d[0].0 != k {
      InsertStores(d[1..], k, v);
      assert Insert(d, k, v)[1..] == Insert(d[1..], k, v);
    }
  }

  /** `d[k] = v` leaves every other key as it was. */
  lemma {:induction false} InsertKeepsOthers(d: seq<(string, Value)>, k: string, v: Value, k': string)
    requires k' != k
    ensures Lookup(Insert(d, k, v), k') == Lookup(d, k')
    decreases |d|
  {
    if d != [] && d[0].0 != k {
      var r := Insert(d, k, v);
      InsertKeepsOthers(d[1..], k, v, k');
      assert r[1..] == Insert(d[1..], k, v);
    }
  }

  // ---------------------------------------------------------------------
  // The converters

  /** process_opt_pow: `result = raw & 0xFFF`, `exponent = (raw >> 12) & 0xF`,
      `1.2 * (2**exponent) * result`. Python's `&` and `>>` on an int of any
      sign are floor remainder and floor division by powers of two, which
      Dafny's `%` and `/` are for positive divisors. */
  function ProcessOptPow(raw: int): (r: real)
    ensures 0.0 <= r && (r == 0.0 <==> raw % 0x1000 == 0)
  {
    var result := raw % 0x1000;
    var exponent := raw / 0x1000 % 0x10;
    1.2 * Pow2(exponent) as real * result as real
  }

  /** The host's decoding of the light word is the driver's: the lux of the
      ER word formed by the low 16 bits. */
  lemma OptPowMatchesDriver(raw: int)
    ensures ProcessOptPow(raw) == Opt3002.Lux(Opt3002Regs.ErOf(raw % 0x1_0000))
  {
    OptPowOfLowWord(raw);
    Opt3002.LuxOfWord(raw % 0x1_0000);
  }

  /** process_opt_pow in terms of the fields of the low 16 bits. */
  lemma OptPowOfLowWord(raw: int)
    ensures var w := raw % 0x1_0000;
      ProcessOptPow(raw) == 1.2 * (Pow2(w / 0x1000) * (w % 0x1000)) as real
  {
    LowWordFields(raw);
    var w := raw % 0x1_0000;
    ScaledProduct(Pow2(w / 0x1000), w % 0x1000);
  }

  /** Both fields of the light code lie in its low 16 bits. */
  lemma LowWordFields(raw: int)
    ensures raw % 0x1000 == raw % 0x1_0000 % 0x1000
    ensures raw / 0x1000 % 0x10 == raw % 0x1_0000 / 0x1000
  {
    var w := raw % 0x1_0000;
    var a, b := w / 0x1000, w % 0x1000;
    DivModUnique(raw, 0x1000, (raw / 0x1_0000) * 16 + a, b);
    DivModUnique(raw / 0x1000, 16, raw / 0x1_0000, a);
  }

  lemma ScaledProduct(x: int, y: int)
    ensures 1.2 * x as real * y as real == 1.2 * (x * y) as real
  {
  }

  /** process_humidity and process_temperature_shtc: thousandths to units. */
  function Thousandths(raw: int): (r: real)
    ensures r * 1000.0 == raw as real
  {
    raw as real / 1000.0
  }

  lemma ThousandthsFacts(raw: int, other: int)
    ensures Thousandths(raw) * 1000.0 == raw as real
    ensures raw < other ==> Thousandths(raw) < Thousandths(other)
  {
  }

  datatype Conversion = TemperatureIcp | OptPow | Humidity | TemperatureShtc

  /** SensorProcessor.CONVERSION_MAP */
  const CONVERSION_MAP: map<string, (string, Conversion)> := map[
    TEMP_ICP_RAW := (TEMP_ICP, TemperatureIcp),
    OPT_POW_RAW := (OPT_POW, OptPow),
    HUMIDITY_RAW := (HUMIDITY, Humidity),
    TEMP_SHTC_RAW := (TEMP_SHTC, TemperatureShtc)]

  /** `conversionFun(self, measurementValue)`; none of them can raise. */
  function Apply(c: Conversion, raw: int): (r: Value)
    ensures r.Num?
  {
    match c
    case TemperatureIcp => Num(IcpConversion.GetTemperature(raw as real))
    case OptPow => Num(ProcessOptPow(raw))
    case Humidity => Num(Thousandths(raw))
    case TemperatureShtc => Num(Thousandths(raw))
  }

  /** The key an input item is stored under. */
  function OutputName(name: string): string {
    if name == PRESSURE_RAW then PRESSURE
    else if name in CONVERSION_MAP then CONVERSION_MAP[name].0
    else name
  }

  /** Every renamed key is its output name followed by `_raw`; a key is
      renamed exactly when it is the pressure code or in the conversion map. */
  lemma RenamingStripsRawSuffix(name: string)
    ensures OutputName(name) != name <==> name == PRESSURE_RAW || name in CONVERSION_MAP
    ensures OutputName(name) != name ==> OutputName(name) + RAW_SUFFIX == name
  {
    RawNames();
    if name in CONVERSION_MAP {
      assert |CONVERSION_MAP[name].0| < |name|;
    }
  }

  // ---------------------------------------------------------------------
  // class SensorProcessor

  /** The ICP constants the processor starts with: calib["icp"], else four zeros. */
  function InitialConstants(calib: map<string, seq<int>>): seq<int> {
    if CALIB_ICP in calib then calib[CALIB_ICP] else [0, 0, 0, 0]
  }

  class SensorProcessor {
    var icpConverter: IcpConversion.PressureConversion

    /** __init__ */
    constructor (calib: map<string, seq<int>>)
      ensures fresh(icpConverter)
      ensures icpConverter.Calib() == Icp101xx.BaseCalibration(InitialConstants(calib))
    {
      icpConverter := new IcpConversion.PressureConversion(InitialConstants(calib));
    }

    /** set_calibration: only an `icp` entry changes anything. */
    method SetCalibration(calib: map<string, seq<int>>)
      modifies icpConverter
      ensures CALIB_ICP in calib ==> icpConverter.Calib() == old(icpConverter.Calib()).(constants := calib[CALIB_ICP])
      ensures CALIB_ICP !in calib ==> icpConverter.Calib() == old(icpConverter.Calib())
    {
      if CALIB_ICP in calib {
        icpConverter.SetConstants(calib[CALIB_ICP]);
      }
    }

    /** One pass of the loop of process_reading: the key and value stored
        for the item, or the exception raised. */
    function ConvertItem(item: (string, int), reading: seq<(string, int)>): PyResult<(string, Value)>
      reads this, icpConverter
    {
      var (name, value) := item;
      if name == PRESSURE_RAW then
        match Lookup(reading, TEMP_ICP_RAW)
        case None => Raised(KeyError)
        case Some(tLsb) =>
          match icpConverter.GetPressure(value as real, tLsb as real)
          case Raised(e) => Raised(e)
          case Ok(p) => Ok((PRESSURE, Num(p)))
      else if name in CONVERSION_MAP then
        Ok((CONVERSION_MAP[name].0, Apply(CONVERSION_MAP[name].1, value)))
      else
        Ok((name, Int(value)))
    }

    /** What the loop does with each item of the reading, in order. */
    function Outcomes(reading: seq<(string, int)>): (r: seq<Outcome>)
      reads this, icpConverter
      ensures |r| == |reading|
      ensures forall i :: 0 <= i < |reading| ==> r[i] == ConvertItem(reading[i], reading)
    {
      seq(|reading|, i reads this, icpConverter requires 0 <= i < |reading| => ConvertItem(reading[i], reading))
    }

    /** process_reading. The input reading is a value: it is not changed. */
    method ProcessReading(reading: seq<(string, int)>) returns (r: PyResult<seq<(string, Value)>>)
      ensures r == Collect(Outcomes(reading))
    {
      ghost var outcomes := Outcomes(reading);
      var processed := [];
      var i := 0;
      while i < |reading|
        invariant i <= |reading|
        invariant Collect(outcomes[..i]) == Ok(processed)
      {
        var raised;
        raised, processed := ProcessItem(reading, i, processed, outcomes);
        if raised.Some? {
          return Raised(raised.value);
        }
        i := i + 1;
      }
      assert outcomes[..i] == outcomes;
      return Ok(processed);
    }

    /** One pass of the loop of process_reading: the exception the i-th
        item raises, or the dictionary with the item stored. */
    method ProcessItem(reading: seq<(string, int)>, i: nat, processed: seq<(string, Value)>, ghost outcomes: seq<Outcome>)
      returns (raised: Option<PyError>, stored: seq<(string, Value)>)
      requires outcomes == Outcomes(reading) && i < |reading|
      requires Collect(outcomes[..i]) == Ok(processed)
      ensures raised.Some? ==> Collect(outcomes) == Raised(raised.value)
      ensures raised.None? ==> Collect(outcomes[..i + 1]) == Ok(stored)
    {
      var converted := ConvertItem(reading[i], reading);
      assert converted == outcomes[i];
      CollectStep(outcomes, i, processed);
      if converted.Raised? {
        return Some(converted.error), processed;
      }
      return None, Insert(processed, converted.value.0, converted.value.1);
    }
  }

  // ---------------------------------------------------------------------
  // The loop of process_reading over the items' outcomes

  /** One item's outcome: the key and value stored, or the exception raised. */
  type Outcome = PyResult<(string, Value)>

  /** The dictionary the loop builds from a sequence of outcomes, storing
      each in turn, or the first exception. */
  function Collect(outcomes: seq<Outcome>): PyResult<seq<(string, Value)>>
    decreases |outcomes|
  {
    if outcomes == [] then Ok([])
    else
      match Collect(outcomes[..|outcomes| - 1])
      case Raised(e) => Raised(e)
      case Ok(d) =>
        match outcomes[|outcomes| - 1]
        case Raised(e) => Raised(e)
        case Ok(kv) => Ok(Insert(d, kv.0, kv.1))
  }

  /** One more pass of the loop: it stores the outcome, or raises it and
      then nothing later matters. */
  lemma CollectStep(outcomes: seq<Outcome>, i: nat, processed: seq<(string, Value)>)
    requires i < |outcomes| && Collect(outcomes[..i]) == Ok(processed)
    ensures outcomes[i].Raised? ==> Collect(outcomes) == Raised(outcomes[i].error)
    ensures outcomes[i].Ok? ==>
      Collect(outcomes[..i + 1]) == Ok(Insert(processed, outcomes[i].value.0, outcomes[i].value.1))
  {
    assert outcomes[..i + 1][..i] == outcomes[..i];
    if outcomes[i].Raised? {
      CollectStopsAtRaise(outcomes, i + 1);
    }
  }

  /** An exception ends the loop: later outcomes do not matter. */
  lemma {:induction false} CollectStopsAtRaise(outcomes: seq<Outcome>, i: nat)
    requires i <= |outcomes| && Collect(outcomes[..i]).Raised?
    ensures Collect(outcomes) == Collect(outcomes[..i])
    decreases |outcomes|
  {
    if i < |outcomes| {
      var front := outcomes[..|outcomes| - 1];
      assert front[..i] == outcomes[..i];
      CollectStopsAtRaise(front, i);
    } else {
      assert outcomes[..i] == outcomes;
    }
  }

  /** The loop raises exactly when some outcome is an exception, and then
      it raises the first one. */
  lemma {:induction false} CollectRaises(outcomes: seq<Outcome>)
    ensures Collect(outcomes).Raised? <==> exists i :: 0 <= i < |outcomes| && outcomes[i].Raised?
    ensures Collect(outcomes).Raised? ==>
      exists i :: 0 <= i < |outcomes| && outcomes[i] == Raised(Collect(outcomes).error) &&
        forall j :: 0 <= j < i ==> outcomes[j].Ok?
    decreases |outcomes|
  {
    if outcomes != [] {
      var n := |outcomes| - 1;
      var front := outcomes[..n];
      CollectRaises(front);
      assert forall i :: 0 <= i < n ==> front[i] == outcomes[i];
      var r := Collect(outcomes);
      if Collect(front).Raised? {
        assert r == Collect(front);
        var i :| 0 <= i < n && front[i] == Raised(r.error) && forall j :: 0 <= j < i ==> front[j].Ok?;
        assert outcomes[i] == Raised(r.error) && forall j :: 0 <= j < i ==> outcomes[j].Ok?;
      } else if outcomes[n].Raised? {
        assert r == Raised(outcomes[n].error);
        assert forall j :: 0 <= j < n ==> outcomes[j].Ok?;
      } else {
        assert r.Ok?;
        assert forall j :: 0 <= j <= n ==> outcomes[j].Ok?;
      }
    }
  }

  /** The items of outcomes none of which raises. */
  function Stored(outcomes: seq<Outcome>): (d: seq<(string, Value)>)
    requires forall i :: 0 <= i < |outcomes| ==> outcomes[i].Ok?
    ensures |d| == |outcomes| && forall i :: 0 <= i < |outcomes| ==> d[i] == outcomes[i].value
    decreases |outcomes|
  {
    if outcomes == [] then []
    else
      var front := outcomes[..|outcomes| - 1];
      assert forall i :: 0 <= i < |front| ==> front[i] == outcomes[i];
      Stored(front) + [outcomes[|outcomes| - 1].value]
  }

  /** When no outcome raises and no two store under the same key, the
      dictionary holds exactly the outcomes, in order. */
  lemma {:induction false} CollectDistinct(outcomes: seq<Outcome>)
    requires forall i :: 0 <= i < |outcomes| ==> outcomes[i].Ok?
    requires forall i, j :: 0 <= i < j < |outcomes| ==> outcomes[i].value.0 != outcomes[j].value.0
    ensures Collect(outcomes) == Ok(Stored(outcomes))
    decreases |outcomes|
  {
    if outcomes != [] {
      var n := |outcomes| - 1;
      var front := outcomes[..n];
      assert forall i :: 0 <= i < n ==> front[i] == outcomes[i];
      CollectDistinct(front);
      var d := Stored(front);
      var kv := outcomes[n].value;
      assert forall i :: 0 <= i < |d| ==> d[i].0 != kv.0;
      InsertAppends(d, kv.0, kv.1);
    }
  }

  // ---------------------------------------------------------------------
  // What process_reading computes

  /** Only the pressure item can raise: KeyError when the reading has no
      ICP temperature code, otherwise whatever get_pressure raises. An item
      that does not raise is stored under its output name. */
  lemma ItemOutcome(p: SensorProcessor, item: (string, int), reading: seq<(string, int)>)
    ensures p.ConvertItem(item, reading).Raised? ==> item.0 == PRESSURE_RAW
    ensures item.0 == PRESSURE_RAW && Lookup(reading, TEMP_ICP_RAW).None? ==>
      p.ConvertItem(item, reading) == Raised(KeyError)
    ensures p.ConvertItem(item, reading).Ok? ==> p.ConvertItem(item, reading).value.0 == OutputName(item.0)
  {
  }

  /** The pressure a reading is given is the driver's compensated pressure
      for the same codes, and get_pressure raises exactly where the
      driver's float result is not finite. */
  lemma PressureItemMatchesDriver(p: SensorProcessor, pRaw: int, reading: seq<(string, int)>)
    requires p.icpConverter.Calib().WellFormed()
    requires Lookup(reading, TEMP_ICP_RAW).Some?
    ensures var tRaw := Lookup(reading, TEMP_ICP_RAW).value;
      var driver := Icp101xx.ProcessData(p.icpConverter.Calib(), pRaw, tRaw).pressure;
      match p.ConvertItem((PRESSURE_RAW, pRaw), reading)
      case Ok(kv) => driver.Finite? && kv == (PRESSURE, Num(driver.val))
      case Raised(e) => e == ZeroDivisionError && driver == NonFinite
  {
    var tRaw := Lookup(reading, TEMP_ICP_RAW).value;
    IcpConversion.GetPressureMatchesDriver(p.icpConverter, pRaw, tRaw);
  }

  /** Output names of the items are pairwise different (no two items land
      on the same key). */
  predicate NoCollisions(reading: seq<(string, int)>) {
    forall i, j :: 0 <= i < j < |reading| ==> OutputName(reading[i].0) != OutputName(reading[j].0)
  }

  /** Without collisions the processed reading is the input, item by item
      and in order, each item under its output name with its converted
      value; it is produced exactly when no item raises. */
  lemma ProcessedItemByItem(p: SensorProcessor, reading: seq<(string, int)>)
    requires NoCollisions(reading)
    ensures var r := Collect(p.Outcomes(reading));
      (r.Ok? <==> forall i :: 0 <= i < |reading| ==> p.ConvertItem(reading[i], reading).Ok?) &&
      (r.Ok? ==>
        |r.value| == |reading| &&
        forall i :: 0 <= i < |reading| ==>
          r.value[i] == p.ConvertItem(reading[i], reading).value && r.value[i].0 == OutputName(reading[i].0))
  {
    var outcomes := p.Outcomes(reading);
    CollectRaises(outcomes);
    if forall i :: 0 <= i < |reading| ==> outcomes[i].Ok? {
      forall i | 0 <= i < |reading|
        ensures outcomes[i].value.0 == OutputName(reading[i].0)
      {
        ItemOutcome(p, reading[i], reading);
      }
      CollectDistinct(outcomes);
    }
  }

  /** A reading holding a pressure code but no ICP temperature code raises
      KeyError, whatever else it holds. */
  lemma PressureWithoutTemperature(p: SensorProcessor, reading: seq<(string, int)>, k: nat)
    requires DistinctKeys(reading) && k < |reading|
    requires reading[k].0 == PRESSURE_RAW && Lookup(reading, TEMP_ICP_RAW).None?
    ensures Collect(p.Outcomes(reading)) == Raised(KeyError)
  {
    var outcomes := p.Outcomes(reading);
    ItemOutcome(p, reading[k], reading);
    forall j | 0 <= j < k
      ensures outcomes[j].Ok?
    {
      ItemOutcome(p, reading[j], reading);
    }
    FirstRaise(outcomes, k);
  }

  /** The loop raises the exception of the first outcome that is one. */
  lemma FirstRaise(outcomes: seq<Outcome>, k: nat)
    requires k < |outcomes| && outcomes[k].Raised?
    requires forall j :: 0 <= j < k ==> outcomes[j].Ok?
    ensures Collect(outcomes) == Raised(outcomes[k].error)
  {
    var front := outcomes[..k];
    CollectRaises(front);
    assert outcomes[..k + 1][..k] == front;
    CollectStopsAtRaise(outcomes, k + 1);
  }
}
