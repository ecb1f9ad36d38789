/** The firmware's JSON serialiser: sensor readings, raw readings and
    calibration data written into a caller's character buffer.

    Every writer follows the same discipline. It is given a position `p` in
    the array and `len`, the number of bytes from `p` to the end of the
    caller's buffer. It appends its text piece by piece; a piece is
    accepted only when it fits together with its NUL terminator. On the
    first piece that does not fit it puts a NUL at its own starting
    position and reports 0. On success it reports the number of characters
    written, which are followed by a NUL. */
module SensorJsonify {
  import opened Decimal
  import opened JsonAttr
  import opened Sensor
  import Opt3002Regs

  const NUL: char := '\0'

  /** The text stringify_double produces for a value and a digit count:
      never empty. How dtoa chooses the digits is not part of this model. */
  type Numeral = s: string | |s| >= 1 witness "0"
  type Render = (real, int) -> Numeral

  // ---------------------------------------------------------------------
  // Texts

  /** `"name": ` */
  function Quoted(name: string): string {
    "\"" + name + "\": "
  }

  /** `"name": value, ` */
  function Member(name: string, value: string): string {
    Quoted(name) + value + ", "
  }

  /** Replace the trailing ", " by "}," and append a space: how an object
      that has been written member by member is closed. */
  function Closed(s: string): string
    requires |s| >= 2
  {
    s[..|s| - 2] + "}, "
  }

  /** The members of a reading, in the order the firmware writes them. */
  function ReadingMembers(r: SensorReading, f: Features, nd: int, render: Render): string {
    Member(TIMESTAMP, NatText(r.timestamp))
    + PressureMembers(r, f, nd, render) + LightMembers(r, f, nd, render) + HumidityMembers(r, f, nd, render)
  }

  function PressureMembers(r: SensorReading, f: Features, nd: int, render: Render): string {
    if f.pressure then Member(PRESSURE, render(r.pressure, nd)) + Member(TEMP_BMP, render(r.tempBmp, nd)) else ""
  }

  function LightMembers(r: SensorReading, f: Features, nd: int, render: Render): string {
    if f.light then Member(OPT_POW, render(r.light.lux, nd)) else ""
  }

  function HumidityMembers(r: SensorReading, f: Features, nd: int, render: Render): string {
    if f.humidity then Member(HUMIDITY, render(r.humidity, nd)) + Member(TEMP_SHTC, render(r.tempShtc, nd)) else ""
  }

  function ReadingText(attr: string, r: SensorReading, f: Features, nd: int, render: Render): string {
    Closed(Quoted(attr) + "{" + ReadingMembers(r, f, nd, render))
  }

  /** The members of a raw reading, in the order the firmware writes them. */
  function RawMembers(r: RawSensorReading, f: Features): string {
    Member(TIMESTAMP, NatText(r.timestamp))
    + Optional(f.pressure, RawPressureMembers(r)) + Optional(f.light, RawLightMembers(r))
    + Optional(f.humidity, RawHumidityMembers(r))
  }

  /** Text that is written only when a sensor is enabled. */
  function Optional(enabled: bool, s: string): string {
    if enabled then s else ""
  }

  function RawPressureMembers(r: RawSensorReading): string {
    Member(PRESSURE_RAW, IntText(r.pressureRaw)) + Member(TEMP_ICP_RAW, IntText(r.tempIcpRaw))
  }

  function RawLightMembers(r: RawSensorReading): string {
    Member(OPT_POW_RAW, NatText(r.lightRaw.raw))
  }

  function RawHumidityMembers(r: RawSensorReading): string {
    Member(HUMIDITY_RAW, IntText(r.humidityRaw)) + Member(TEMP_SHTC_RAW, IntText(r.tempShtcRaw))
  }

  function RawReadingText(attr: string, r: RawSensorReading, f: Features): string {
    Closed(Quoted(attr) + "{" + RawMembers(r, f))
  }

  /** `[c0, c1, c2, c3]` */
  function ConstantsText(c: SensorCalibration): string {
    "[" + IntText(c.c0) + ", " + IntText(c.c1) + ", " + IntText(c.c2) + ", " + IntText(c.c3) + "]"
  }

  /** The calibration object; it is empty when there is no pressure sensor. */
  function CalibrationText(attr: string, c: SensorCalibration, f: Features): string {
    if f.pressure then Closed(Quoted(attr) + "{" + Member(CALIB_ICP, ConstantsText(c)))
    else Quoted(attr) + "{" + "}, "
  }

  /** The name of the reading at index r: "rdg0", "rdg1", ... */
  function ReadingName(r: nat): string {
    READING_PREFIX + NatText(r)
  }

  function ReadingTexts(readings: seq<SensorReading>, f: Features, nd: int, render: Render): (es: seq<string>)
    ensures |es| == |readings|
    ensures forall r :: 0 <= r < |es| ==> es[r] == ReadingText(ReadingName(r), readings[r], f, nd, render)
  {
    seq(|readings|, r requires 0 <= r < |readings| => ReadingText(ReadingName(r), readings[r], f, nd, render))
  }

  /** The elements of a raw document: the calibration object, when one is
      supplied, then the readings. */
  function RawElements(calib: Option<SensorCalibration>, readings: seq<RawSensorReading>, f: Features): (es: seq<string>)
    ensures |es| == (if calib.Some? then 1 else 0) + |readings|
  {
    var c := if calib.Some? then 1 else 0;
    seq(c + |readings|, k requires 0 <= k < c + |readings| =>
      if k < c then CalibrationText(CALIB, calib.value, f) else RawReadingText(ReadingName(k - c), readings[k - c], f))
  }

  /** Where each element of a raw document comes from. */
  lemma RawElementsAt(calib: Option<SensorCalibration>, readings: seq<RawSensorReading>, f: Features, r: nat)
    requires r < |readings|
    ensures RawElements(calib, readings, f)[(if calib.Some? then 1 else 0) + r] == RawReadingText(ReadingName(r), readings[r], f)
  {
  }

  lemma RawElementsFirst(calib: SensorCalibration, readings: seq<RawSensorReading>, f: Features)
    ensures RawElements(Some(calib), readings, f)[0] == CalibrationText(CALIB, calib, f)
  {
  }

  datatype Option<T> = None | Some(value: T)

  function Concat(es: seq<string>): string {
    if es == [] then "" else es[0] + Concat(es[1..])
  }

  /** How many elements, taken from the front, fit one after the other into
      `room` bytes, each accepted only when it leaves room for a NUL. */
  function Kept(es: seq<string>, room: nat): (k: nat)
    ensures k <= |es|
  {
    if es == [] || |es[0]| >= room then 0 else 1 + Kept(es[1..], room - |es[0]|)
  }

  /** The elements that make it into a document written into `room` bytes
      after the opening brace. */
  function Fitting(es: seq<string>, room: nat): seq<string> {
    es[..Kept(es, room)]
  }

  /** Turn the text after the opening brace into the final document: a
      lone "{" gets its closing brace; otherwise the trailing ", " of the
      last element becomes "}". The middle case is the one the firmware
      handles although no writer leaves a single character. */
  function Finished(w: string): string
    requires |w| >= 1
  {
    if |w| == 1 then w + "}"
    else if |w| == 2 then w[..1] + "}"
    else w[..|w| - 2] + "}"
  }

  /** The document made of the given elements. */
  function Document(kept: seq<string>): string {
    Finished("{" + Concat(kept))
  }

  // ---------------------------------------------------------------------
  // Buffer contents

  /** The array holds t from position p on. */
  predicate Holds(a: array<char>, p: nat, t: string)
    reads a
  {
    p + |t| <= a.Length && a[p..p + |t|] == t
  }

  /** What a writer promises about the text t it was asked to write at p
      with len bytes there: it reports 0 or the length of t; it succeeds
      exactly when t and a NUL fit; on success t and a NUL are in place;
      on failure (with a byte to spare) a NUL is at p. */
  predicate Wrote(a: array<char>, p: nat, len: nat, t: string, count: nat)
    reads a
  {
    && (count == 0 || count == |t|)
    && (count > 0 <==> |t| < len)
    && (count > 0 ==> Holds(a, p, t + [NUL]))
    && (count == 0 && 0 < len && p < a.Length ==> a[p] == NUL)
  }

  /** Text held after text already held extends it. */
  lemma HoldsJoin(a: array<char>, p: nat, u: string, v: string)
    requires Holds(a, p, u) && Holds(a, p + |u|, v)
    ensures Holds(a, p, u + v)
  {
    assert a[p..p + |u + v|] == a[p..p + |u|] + a[p + |u|..p + |u| + |v|];
  }

  /** A prefix of held text is held. */
  lemma HoldsPrefix(a: array<char>, p: nat, t: string, m: nat)
    requires Holds(a, p, t) && m <= |t|
    ensures Holds(a, p, t[..m])
  {
    assert a[p..p + m] == a[p..p + |t|][..m];
  }

  /** Text held at `start`, followed by the first m characters of text
      held right after it. */
  lemma HoldsExtend(a: array<char>, start: nat, written: string, t: string, m: nat)
    requires Holds(a, start, written) && Holds(a, start + |written|, t) && m <= |t|
    ensures Holds(a, start, written + t[..m])
  {
    HoldsPrefix(a, start + |written|, t, m);
    HoldsJoin(a, start, written, t[..m]);
  }

  /** Held text before q lies in the first q characters of the array. */
  lemma HoldsBelow(a: array<char>, start: nat, t: string, q: nat)
    requires start + |t| <= q <= a.Length
    ensures Holds(a, start, t) <==> a[..q][start..start + |t|] == t
  {
    assert a[start..start + |t|] == a[..q][start..start + |t|];
  }

  /** The first m characters of s. */
  function Prefix(s: string, m: nat): string {
    if |s| <= m then s else s[..m]
  }

  /** snprintf(a + p, len, "%s", s): as much of s as fits before a NUL,
      which always comes when len > 0; the result is the full length. */
  method Snprintf(a: array<char>, p: nat, len: nat, s: string) returns (n: nat)
    requires p + len <= a.Length
    modifies a
    ensures n == |s|
    ensures len > 0 ==> Holds(a, p, Prefix(s, len - 1) + [NUL])
    ensures a[..p] == old(a[..p]) && (forall i :: p + len <= i < a.Length ==> a[i] == old(a[i]))
  {
    if len == 0 {
      return |s|;
    }
    var t := Prefix(s, len - 1);
    var k := 0;
    while k < |t|
      invariant k <= |t|
      invariant forall i :: 0 <= i < k ==> a[p + i] == t[i]
      invariant forall i :: 0 <= i < a.Length && !(p <= i < p + len) ==> a[i] == old(a[i])
    {
      a[p + k] := t[k];
      k := k + 1;
    }
    a[p + |t|] := NUL;
    assert a[p..p + |t| + 1] == t + [NUL];
    assert a[..p] == old(a[..p]);
    return |s|;
  }

  /** *buf_start = '\0' */
  method PutNul(a: array<char>, i: nat, ghost end: nat)
    requires i < end <= a.Length
    modifies a
    ensures a[i] == NUL
    ensures a[..i] == old(a[..i]) && (forall i :: end <= i < a.Length ==> a[i] == old(a[i]))
  {
    a[i] := NUL;
    assert a[..i] == old(a[..i]);
  }

  lemma AppendAssoc(x: string, y: string, z: string)
    ensures x + y + z == x + (y + z)
  {
  }

  /** JSONIFY_SNPRINTF: append s at p, after `written` (which starts at
      `start`), when s fits with its NUL; otherwise end the writer's text
      with a NUL at `start` and fail. `end` is the end of the writer's
      buffer. */
  method Emit(a: array<char>, start: nat, p: nat, len: nat, ghost end: nat, s: string, ghost written: string)
    returns (ok: bool)
    requires p == start + |written| && p + len == end <= a.Length && start < end
    requires Holds(a, start, written)
    modifies a
    ensures ok <==> |s| < len
    ensures ok ==> Holds(a, start, written + s) && Holds(a, start, written + s + [NUL])
    ensures !ok ==> a[start] == NUL
    ensures a[..start] == old(a[..start]) && (forall i :: end <= i < a.Length ==> a[i] == old(a[i]))
  {
    HoldsBelow(a, start, written, p);
    var n := Snprintf(a, p, len, s);
    if n >= len {
      PutNul(a, start, end);
      return false;
    }
    assert Prefix(s, len - 1) == s;
    assert a[..start] == a[..p][..start];
    HoldsBelow(a, start, written, p);
    HoldsExtend(a, start, written, s + [NUL], |s|);
    assert (s + [NUL])[..|s|] == s;
    HoldsJoin(a, start, written, s + [NUL]);
    assert written + (s + [NUL]) == written + s + [NUL];
    return true;
  }

  /** buf[-2] = '}'; buf[-1] = ','; the trailing ", " written so far
      becomes "},". */
  method Patch(a: array<char>, start: nat, p: nat, ghost end: nat, ghost written: string)
    requires p == start + |written| && |written| >= 2 && p <= end <= a.Length
    requires Holds(a, start, written)
    modifies a
    ensures Holds(a, start, written[..|written| - 2] + "},")
    ensures a[..start] == old(a[..start]) && (forall i :: end <= i < a.Length ==> a[i] == old(a[i]))
  {
    HoldsPrefix(a, start, written, |written| - 2);
    HoldsBelow(a, start, written[..|written| - 2], p - 2);
    a[p - 2] := '}';
    a[p - 1] := ',';
    assert a[..p - 2] == old(a[..p - 2]);
    assert a[..start] == a[..p - 2][..start];
    HoldsBelow(a, start, written[..|written| - 2], p - 2);
    assert Holds(a, p - 2, "},");
    HoldsJoin(a, start, written[..|written| - 2], "},");
  }

  /** The end of an object written member by member: the trailing ", "
      becomes "}," and a space follows. */
  method CloseStep(a: array<char>, start: nat, p: nat, len: nat, ghost end: nat, ghost written: string)
    returns (ok: bool)
    requires p == start + |written| && p + len == end <= a.Length && start < p && |written| >= 2
    requires Holds(a, start, written)
    modifies a
    ensures ok <==> |Closed(written)| < len + |written|
    ensures ok ==> Holds(a, start, Closed(written) + [NUL])
    ensures !ok ==> a[start] == NUL
    ensures a[..start] == old(a[..start]) && (forall i :: end <= i < a.Length ==> a[i] == old(a[i]))
  {
    Patch(a, start, p, end, written);
    ghost var w := written[..|written| - 2] + "},";
    ok := Emit(a, start, p, len, end, " ", w);
    assert w + " " == Closed(written);
  }

  /** stringify_double: the value's text, when it fits with its NUL. */
  method StringifyDouble(a: array<char>, p: nat, len: nat, d: real, nd: int, render: Render) returns (count: nat)
    requires 1 <= len && p + len <= a.Length
    modifies a
    ensures Wrote(a, p, len, render(d, nd), count)
    ensures a[..p] == old(a[..p]) && (forall i :: p + len <= i < a.Length ==> a[i] == old(a[i]))
  {
    var s := render(d, nd);
    var n := Snprintf(a, p, len, s);
    if n >= len {
      PutNul(a, p, p + len);
      return 0;
    }
    assert Prefix(s, len - 1) == s;
    return n;
  }

  /** stringify_double followed by JSONIFY_UPDATE_BUF. */
  method ValueStep(d: real, nd: int, render: Render, a: array<char>, start: nat, p: nat, len: nat, ghost end: nat, ghost written: string)
    returns (ok: bool)
    requires p == start + |written| && p + len == end <= a.Length && start < p && 0 < len
    requires Holds(a, start, written)
    modifies a
    ensures ok <==> |render(d, nd)| < len
    ensures ok ==> Holds(a, start, written + render(d, nd))
    ensures !ok ==> a[start] == NUL
    ensures a[..start] == old(a[..start]) && (forall i :: end <= i < a.Length ==> a[i] == old(a[i]))
  {
    HoldsBelow(a, start, written, p);
    var count := StringifyDouble(a, p, len, d, nd, render);
    if count == 0 {
      PutNul(a, start, end);
      return false;
    }
    assert a[..start] == a[..p][..start];
    ghost var v := render(d, nd);
    HoldsBelow(a, start, written, p);
    HoldsExtend(a, start, written, v + [NUL], |v|);
    assert (v + [NUL])[..|v|] == v;
    return true;
  }

  /** jsonify_double: `"attr": value, ` */
  method JsonifyDouble(attr: string, d: real, nd: int, render: Render, a: array<char>, p: nat, len: nat) returns (count: nat)
    requires p + len <= a.Length
    modifies a
    ensures Wrote(a, p, len, Member(attr, render(d, nd)), count)
    ensures a[..p] == old(a[..p]) && (forall i :: p + len <= i < a.Length ==> a[i] == old(a[i]))
  {
    if len == 0 {
      return 0;
    }
    if len == 1 {
      PutNul(a, p, p + len);
      return 0;
    }
    var q, l := p, len;
    var ok := Emit(a, p, q, l, p + len, Quoted(attr), "");
    if !ok {
      return 0;
    }
    assert "" + Quoted(attr) == Quoted(attr);
    ghost var w := Quoted(attr);
    q, l := q + |Quoted(attr)|, l - |Quoted(attr)|;
    ok := ValueStep(d, nd, render, a, p, q, l, p + len, w);
    if !ok {
      return 0;
    }
    q, l, w := q + |render(d, nd)|, l - |render(d, nd)|, w + render(d, nd);
    ok := Emit(a, p, q, l, p + len, ", ", w);
    if !ok {
      return 0;
    }
    assert w + ", " == Member(attr, render(d, nd));
    return q + 2 - p;
  }

  /** A nested jsonify_double followed by JSONIFY_UPDATE_BUF: append the
      member after `written`, or end the enclosing writer's text with a NUL
      at `start` and fail. */
  method DoubleStep(attr: string, d: real, nd: int, render: Render, a: array<char>, start: nat, p: nat, len: nat, ghost end: nat, ghost written: string)
    returns (ok: bool)
    requires p == start + |written| && p + len == end <= a.Length && start < p
    requires Holds(a, start, written)
    modifies a
    ensures ok <==> |Member(attr, render(d, nd))| < len
    ensures ok ==> Holds(a, start, written + Member(attr, render(d, nd)))
    ensures !ok ==> a[start] == NUL
    ensures a[..start] == old(a[..start]) && (forall i :: end <= i < a.Length ==> a[i] == old(a[i]))
  {
    HoldsBelow(a, start, written, p);
    var count := JsonifyDouble(attr, d, nd, render, a, p, len);
    if count == 0 {
      PutNul(a, start, end);
      return false;
    }
    assert a[..start] == a[..p][..start];
    ghost var m := Member(attr, render(d, nd));
    HoldsBelow(a, start, written, p);
    HoldsExtend(a, start, written, m + [NUL], |m|);
    assert (m + [NUL])[..|m|] == m;
    return true;
  }

  /** jsonify_reading: `"attr": {"time": ..., <members>}, ` */
  method JsonifyReading(attr: string, r: SensorReading, nd: int, f: Features, render: Render, a: array<char>, p: nat, len: nat)
    returns (count: nat)
    requires p + len <= a.Length
    modifies a
    ensures Wrote(a, p, len, ReadingText(attr, r, f, nd, render), count)
    ensures a[..p] == old(a[..p]) && (forall i :: p + len <= i < a.Length ==> a[i] == old(a[i]))
  {
    if len == 0 {
      return 0;
    }
    if len == 1 {
      PutNul(a, p, p + len);
      return 0;
    }
    var q, l := p, len;
    var head := Quoted(attr) + "{";
    var ok := Emit(a, p, q, l, p + len, head, "");
    if !ok {
      return 0;
    }
    assert "" + head == head;
    count := ReadingBody(attr, r, nd, f, render, a, p, len);
  }

  /** The rest of jsonify_reading once the name and the opening brace are
      written: the members, then the closing brace. */
  method ReadingBody(attr: string, r: SensorReading, nd: int, f: Features, render: Render, a: array<char>, p: nat, len: nat)
    returns (count: nat)
    requires p + len <= a.Length && |Quoted(attr) + "{"| < len && Holds(a, p, Quoted(attr) + "{")
    modifies a
    ensures Wrote(a, p, len, ReadingText(attr, r, f, nd, render), count)
    ensures a[..p] == old(a[..p]) && (forall i :: p + len <= i < a.Length ==> a[i] == old(a[i]))
  {
    var head := Quoted(attr) + "{";
    ghost var w := head;
    var q, l := p + |head|, len - |head|;
    var ok := MembersStep(r, nd, f, render, a, p, q, l, p + len, w);
    if !ok {
      return 0;
    }
    var body := ReadingMembers(r, f, nd, render);
    ok := CloseStep(a, p, q + |body|, l - |body|, p + len, w + body);
    if !ok {
      return 0;
    }
    return q + |body| + 1 - p;
  }

  /** The members of jsonify_reading: the timestamp, then the values of
      each enabled sensor. */
  method MembersStep(r: SensorReading, nd: int, f: Features, render: Render, a: array<char>, start: nat, p: nat, len: nat, ghost end: nat, ghost written: string)
    returns (ok: bool)
    requires p == start + |written| && p + len == end <= a.Length && start < p && 0 < len
    requires Holds(a, start, written)
    modifies a
    ensures ok <==> |ReadingMembers(r, f, nd, render)| < len
    ensures ok ==> Holds(a, start, written + ReadingMembers(r, f, nd, render))
    ensures !ok ==> a[start] == NUL
    ensures a[..start] == old(a[..start]) && (forall i :: end <= i < a.Length ==> a[i] == old(a[i]))
  {
    var time := Member(TIMESTAMP, NatText(r.timestamp));
    ok := Emit(a, start, p, len, end, time, written);
    if !ok {
      return;
    }
    var pressure := PressureMembers(r, f, nd, render);
    ok := PressureStep(r, nd, f, render, a, start, p + |time|, len - |time|, end, written + time);
    if !ok {
      return;
    }
    ghost var rest := LightMembers(r, f, nd, render) + HumidityMembers(r, f, nd, render);
    ok := LightHumidityStep(r, nd, f, render, a, start, p + |time| + |pressure|, len - |time| - |pressure|, end, written + time + pressure);
    AppendAssoc(written, time, pressure);
    AppendAssoc(written, time + pressure, rest);
    AppendAssoc(time, pressure, rest);
    AppendAssoc(time + pressure, LightMembers(r, f, nd, render), HumidityMembers(r, f, nd, render));
  }

  /** The PRES_SEN_EN part of jsonify_reading. */
  method PressureStep(r: SensorReading, nd: int, f: Features, render: Render, a: array<char>, start: nat, p: nat, len: nat, ghost end: nat, ghost written: string)
    returns (ok: bool)
    requires p == start + |written| && p + len == end <= a.Length && start < p && 0 < len
    requires Holds(a, start, written)
    modifies a
    ensures ok <==> |PressureMembers(r, f, nd, render)| < len
    ensures ok ==> Holds(a, start, written + PressureMembers(r, f, nd, render))
    ensures !ok ==> a[start] == NUL
    ensures a[..start] == old(a[..start]) && (forall i :: end <= i < a.Length ==> a[i] == old(a[i]))
  {
    if !f.pressure {
      assert written + "" == written;
      return true;
    }
    var m1 := Member(PRESSURE, render(r.pressure, nd));
    ok := DoubleStep(PRESSURE, r.pressure, nd, render, a, start, p, len, end, written);
    if !ok {
      return false;
    }
    ok := DoubleStep(TEMP_BMP, r.tempBmp, nd, render, a, start, p + |m1|, len - |m1|, end, written + m1);
    AppendAssoc(written, m1, Member(TEMP_BMP, render(r.tempBmp, nd)));
  }

  /** The OPT_SEN_EN and HUMID_SEN_EN parts of jsonify_reading. */
  method LightHumidityStep(r: SensorReading, nd: int, f: Features, render: Render, a: array<char>, start: nat, p: nat, len: nat, ghost end: nat, ghost written: string)
    returns (ok: bool)
    requires p == start + |written| && p + len == end <= a.Length && start < p && 0 < len
    requires Holds(a, start, written)
    modifies a
    ensures ok <==> |LightMembers(r, f, nd, render) + HumidityMembers(r, f, nd, render)| < len
    ensures ok ==> Holds(a, start, written + (LightMembers(r, f, nd, render) + HumidityMembers(r, f, nd, render)))
    ensures !ok ==> a[start] == NUL
    ensures a[..start] == old(a[..start]) && (forall i :: end <= i < a.Length ==> a[i] == old(a[i]))
  {
    var light := LightMembers(r, f, nd, render);
    if f.light {
      ok := DoubleStep(OPT_POW, r.light.lux, nd, render, a, start, p, len, end, written);
      if !ok {
        return false;
      }
    } else {
      assert written + light == written;
    }
    ok := HumidityStep(r, nd, f, render, a, start, p + |light|, len - |light|, end, written + light);
    AppendAssoc(written, light, HumidityMembers(r, f, nd, render));
  }

  /** The HUMID_SEN_EN part of jsonify_reading. */
  method HumidityStep(r: SensorReading, nd: int, f: Features, render: Render, a: array<char>, start: nat, p: nat, len: nat, ghost end: nat, ghost written: string)
    returns (ok: bool)
    requires p == start + |written| && p + len == end <= a.Length && start < p && 0 < len
    requires Holds(a, start, written)
    modifies a
    ensures ok <==> |HumidityMembers(r, f, nd, render)| < len
    ensures ok ==> Holds(a, start, written + HumidityMembers(r, f, nd, render))
    ensures !ok ==> a[start] == NUL
    ensures a[..start] == old(a[..start]) && (forall i :: end <= i < a.Length ==> a[i] == old(a[i]))
  {
    if !f.humidity {
      assert written + "" == written;
      return true;
    }
    var m1 := Member(HUMIDITY, render(r.humidity, nd));
    ok := DoubleStep(HUMIDITY, r.humidity, nd, render, a, start, p, len, end, written);
    if !ok {
      return false;
    }
    ok := DoubleStep(TEMP_SHTC, r.tempShtc, nd, render, a, start, p + |m1|, len - |m1|, end, written + m1);
    AppendAssoc(written, m1, Member(TEMP_SHTC, render(r.tempShtc, nd)));
  }

  /** Two JSONIFY_SNPRINTF calls of a sensor's part, made only when the
      sensor is enabled. */
  method PairStep(enabled: bool, s1: string, s2: string, a: array<char>, start: nat, p: nat, len: nat, ghost end: nat, ghost written: string)
    returns (ok: bool)
    requires p == start + |written| && p + len == end <= a.Length && start < p && 0 < len
    requires Holds(a, start, written)
    modifies a
    ensures ok <==> |Optional(enabled, s1 + s2)| < len
    ensures ok ==> Holds(a, start, written + Optional(enabled, s1 + s2))
    ensures !ok ==> a[start] == NUL
    ensures a[..start] == old(a[..start]) && (forall i :: end <= i < a.Length ==> a[i] == old(a[i]))
  {
    if !enabled {
      assert written + "" == written;
      return true;
    }
    ok := Emit(a, start, p, len, end, s1, written);
    if !ok {
      return false;
    }
    ok := Emit(a, start, p + |s1|, len - |s1|, end, s2, written + s1);
    AppendAssoc(written, s1, s2);
  }

  /** One JSONIFY_SNPRINTF call of a sensor's part, made only when the
      sensor is enabled. */
  method OptionalStep(enabled: bool, s: string, a: array<char>, start: nat, p: nat, len: nat, ghost end: nat, ghost written: string)
    returns (ok: bool)
    requires p == start + |written| && p + len == end <= a.Length && start < p && 0 < len
    requires Holds(a, start, written)
    modifies a
    ensures ok <==> |Optional(enabled, s)| < len
    ensures ok ==> Holds(a, start, written + Optional(enabled, s))
    ensures !ok ==> a[start] == NUL
    ensures a[..start] == old(a[..start]) && (forall i :: end <= i < a.Length ==> a[i] == old(a[i]))
  {
    if !enabled {
      assert written + "" == written;
      return true;
    }
    ok := Emit(a, start, p, len, end, s, written);
  }

  /** The members of jsonify_raw_reading: the timestamp, then the raw
      values of each enabled sensor. */
  method RawMembersStep(r: RawSensorReading, f: Features, a: array<char>, start: nat, p: nat, len: nat, ghost end: nat, ghost written: string)
    returns (ok: bool)
    requires p == start + |written| && p + len == end <= a.Length && start < p && 0 < len
    requires Holds(a, start, written)
    modifies a
    ensures ok <==> |RawMembers(r, f)| < len
    ensures ok ==> Holds(a, start, written + RawMembers(r, f))
    ensures !ok ==> a[start] == NUL
    ensures a[..start] == old(a[..start]) && (forall i :: end <= i < a.Length ==> a[i] == old(a[i]))
  {
    var time := Member(TIMESTAMP, NatText(r.timestamp));
    ok := Emit(a, start, p, len, end, time, written);
    if !ok {
      return;
    }
    var pressure := Optional(f.pressure, RawPressureMembers(r));
    ok := PairStep(f.pressure, Member(PRESSURE_RAW, IntText(r.pressureRaw)), Member(TEMP_ICP_RAW, IntText(r.tempIcpRaw)),
                   a, start, p + |time|, len - |time|, end, written + time);
    if !ok {
      return;
    }
    ghost var rest := Optional(f.light, RawLightMembers(r)) + Optional(f.humidity, RawHumidityMembers(r));
    ok := RawLightHumidityStep(r, f, a, start, p + |time| + |pressure|, len - |time| - |pressure|, end, written + time + pressure);
    AppendAssoc(written, time, pressure);
    AppendAssoc(written, time + pressure, rest);
    AppendAssoc(time, pressure, rest);
    AppendAssoc(time + pressure, Optional(f.light, RawLightMembers(r)), Optional(f.humidity, RawHumidityMembers(r)));
  }

  /** The OPT_SEN_EN and HUMID_SEN_EN parts of jsonify_raw_reading. */
  method RawLightHumidityStep(r: RawSensorReading, f: Features, a: array<char>, start: nat, p: nat, len: nat, ghost end: nat, ghost written: string)
    returns (ok: bool)
    requires p == start + |written| && p + len == end <= a.Length && start < p && 0 < len
    requires Holds(a, start, written)
    modifies a
    ensures ok <==> |Optional(f.light, RawLightMembers(r)) + Optional(f.humidity, RawHumidityMembers(r))| < len
    ensures ok ==> Holds(a, start, written + (Optional(f.light, RawLightMembers(r)) + Optional(f.humidity, RawHumidityMembers(r))))
    ensures !ok ==> a[start] == NUL
    ensures a[..start] == old(a[..start]) && (forall i :: end <= i < a.Length ==> a[i] == old(a[i]))
  {
    var light := Optional(f.light, RawLightMembers(r));
    ok := OptionalStep(f.light, RawLightMembers(r), a, start, p, len, end, written);
    if !ok {
      return;
    }
    ok := PairStep(f.humidity, Member(HUMIDITY_RAW, IntText(r.humidityRaw)), Member(TEMP_SHTC_RAW, IntText(r.tempShtcRaw)),
                   a, start, p + |light|, len - |light|, end, written + light);
    AppendAssoc(written, light, Optional(f.humidity, RawHumidityMembers(r)));
  }

  /** jsonify_raw_reading: `"attr": {"time": ..., <raw members>}, ` */
  method JsonifyRawReading(attr: string, r: RawSensorReading, f: Features, a: array<char>, p: nat, len: nat)
    returns (count: nat)
    requires p + len <= a.Length
    modifies a
    ensures Wrote(a, p, len, RawReadingText(attr, r, f), count)
    ensures a[..p] == old(a[..p]) && (forall i :: p + len <= i < a.Length ==> a[i] == old(a[i]))
  {
    if len == 0 {
      return 0;
    }
    if len == 1 {
      PutNul(a, p, p + len);
      return 0;
    }
    var q, l := p, len;
    var head := Quoted(attr) + "{";
    var ok := Emit(a, p, q, l, p + len, head, "");
    if !ok {
      return 0;
    }
    assert "" + head == head;
    ghost var w := head;
    q, l := q + |head|, l - |head|;
    ok := RawMembersStep(r, f, a, p, q, l, p + len, w);
    if !ok {
      return 0;
    }
    var body := RawMembers(r, f);
    ok := CloseStep(a, p, q + |body|, l - |body|, p + len, w + body);
    if !ok {
      return 0;
    }
    return q + |body| + 1 - p;
  }

  /** jsonify_sensor_calibration_data: `"attr": {"icp": [c0, c1, c2, c3]}, `
      or, without a pressure sensor, `"attr": {}, ` */
  method JsonifySensorCalibrationData(attr: string, c: SensorCalibration, f: Features, a: array<char>, p: nat, len: nat)
    returns (count: nat)
    requires p + len <= a.Length
    modifies a
    ensures Wrote(a, p, len, CalibrationText(attr, c, f), count)
    ensures a[..p] == old(a[..p]) && (forall i :: p + len <= i < a.Length ==> a[i] == old(a[i]))
  {
    if len == 0 {
      return 0;
    }
    if len == 1 {
      PutNul(a, p, p + len);
      return 0;
    }
    var q, l := p, len;
    var head := Quoted(attr) + "{";
    var ok := Emit(a, p, q, l, p + len, head, "");
    if !ok {
      return 0;
    }
    assert "" + head == head;
    ghost var w := head;
    q, l := q + |head|, l - |head|;
    var objStart := q;
    if f.pressure {
      var icp := Member(CALIB_ICP, ConstantsText(c));
      ok := Emit(a, p, q, l, p + len, icp, w);
      if !ok {
        return 0;
      }
      q, l, w := q + |icp|, l - |icp|, w + icp;
    }
    if q == objStart {
      ok := Emit(a, p, q, l, p + len, "}, ", w);
      if !ok {
        return 0;
      }
      return q + 3 - p;
    } else {
      ok := CloseStep(a, p, q, l, p + len, w);
      if !ok {
        return 0;
      }
      return q + 1 - p;
    }
  }

  // ---------------------------------------------------------------------
  // Documents

  /** The end of jsonify_sensor_readings and jsonify_raw_sensor_readings:
      close the document that `written` has begun at the start of the
      buffer. */
  method CloseDocument(a: array<char>, len: nat, p: nat, ghost written: string) returns (count: nat)
    requires 3 <= len <= a.Length && p == |written| && 1 <= p < len
    requires Holds(a, 0, written)
    modifies a
    ensures count == |Finished(written)| && Holds(a, 0, Finished(written) + [NUL])
    ensures forall i :: len <= i < a.Length ==> a[i] == old(a[i])
  {
    if p == 1 {
      PutBrace(a, len, 1, written);
      return 2;
    } else if p == 2 {
      HoldsPrefix(a, 0, written, 1);
      PutBrace(a, len, 1, written[..1]);
      return 2;
    } else {
      HoldsPrefix(a, 0, written, p - 2);
      PutBrace(a, len, p - 2, written[..p - 2]);
      return p - 1;
    }
  }

  /** The closing brace and the terminating NUL written behind `head`. */
  method PutBrace(a: array<char>, len: nat, q: nat, ghost head: string)
    requires q + 2 <= len <= a.Length && q == |head| && Holds(a, 0, head)
    modifies a
    ensures Holds(a, 0, head + "}" + [NUL])
    ensures forall i :: len <= i < a.Length ==> a[i] == old(a[i])
  {
    HoldsBelow(a, 0, head, q);
    a[q] := '}';
    a[q + 1] := NUL;
    assert a[..q] == old(a[..q]);
    HoldsBelow(a, 0, head, q);
    assert Holds(a, q, "}" + [NUL]);
    HoldsJoin(a, 0, head, "}" + [NUL]);
    assert head + ("}" + [NUL]) == head + "}" + [NUL];
  }

  /** Joining two lists of texts joins their concatenations. */
  lemma {:induction false} ConcatAppend(xs: seq<string>, ys: seq<string>)
    ensures Concat(xs + ys) == Concat(xs) + Concat(ys)
    decreases |xs|
  {
    if xs == [] {
      assert xs + ys == ys;
    } else {
      assert (xs + ys)[1..] == xs[1..] + ys;
      ConcatAppend(xs[1..], ys);
    }
  }

  lemma ConcatSnoc(es: seq<string>, r: nat)
    requires r < |es|
    ensures Concat(es[..r + 1]) == Concat(es[..r]) + es[r]
  {
    assert es[..r + 1] == es[..r] + [es[r]];
    ConcatAppend(es[..r], [es[r]]);
  }

  /** The document so far, followed by the element that was just written
      behind it, is the document with one more element. */
  lemma Advance(a: array<char>, es: seq<string>, k: nat, w: string)
    requires k < |es| && w == "{" + Concat(es[..k])
    requires Holds(a, 0, w) && Holds(a, |w|, es[k] + [NUL])
    ensures Holds(a, 0, w + es[k]) && w + es[k] == "{" + Concat(es[..k + 1])
  {
    HoldsExtend(a, 0, w, es[k] + [NUL], |es[k]|);
    assert (es[k] + [NUL])[..|es[k]|] == es[k];
    ConcatSnoc(es, k);
    AppendAssoc("{", Concat(es[..k]), es[k]);
  }

  /** The state of a serialising loop after k elements: the first k
      elements follow the opening brace in `a`, p characters are used and l
      remain, and Kept has k of its elements behind it. */
  ghost predicate Progress(a: array<char>, es: seq<string>, len: nat, k: nat, p: nat, l: nat, w: string)
    reads a
  {
    k <= |es| && p == |w| && p + l == len && 1 <= p && 0 < l &&
    w == "{" + Concat(es[..k]) && Holds(a, 0, w) &&
    Kept(es, len - 1) == k + Kept(es[k..], l)
  }

  /** A loop that has run out of elements has kept all of them. */
  lemma StoppedOrDone(a: array<char>, es: seq<string>, len: nat, k: nat, p: nat, l: nat, w: string)
    requires Progress(a, es, len, k, p, l, w)
    requires k == |es| || Kept(es, len - 1) == k
    ensures Kept(es, len - 1) == k && Progress(a, es, len, k, p, len - p, w)
  {
    if k == |es| {
      assert es[k..] == [];
    }
  }

  /** Kept looks at one element at a time. */
  lemma KeptStep(es: seq<string>, r: nat, room: nat)
    requires r < |es|
    ensures Kept(es[r..], room) == if |es[r]| >= room then 0 else 1 + Kept(es[r + 1..], room - |es[r]|)
  {
    assert es[r..][1..] == es[r + 1..];
  }

  lemma Pow10Twenty()
    ensures Pow10(20) == 100_000_000_000_000_000_000
  {
    assert Pow10(5) == 100_000;
    assert Pow10(10) == 10_000_000_000 by {
      assert Pow10(6) == 1_000_000;
      assert Pow10(8) == 100_000_000;
    }
    assert Pow10(15) == 1_000_000_000_000_000 by {
      assert Pow10(12) == 1_000_000_000_000;
    }
    assert Pow10(18) == 1_000_000_000_000_000_000;
  }

  /** A reading index below 2^64 takes at most 20 digits, so its name
      always fits the 32-byte name buffer of the firmware. */
  lemma ReadingNameFits(r: nat)
    requires r < 0x1_0000_0000_0000_0000
    ensures |ReadingName(r)| < 32
  {
    Pow10Twenty();
    NatTextLength(r, 20);
  }

  /** jsonify_sensor_readings: the readings as one JSON object, as many of
      them as fit, each under its name "rdg<index>". */
  method JsonifySensorReadings(readings: seq<SensorReading>, nd: int, f: Features, render: Render, a: array?<char>, len: nat)
    returns (count: nat)
    requires a != null ==> len <= a.Length
    requires |readings| < 0x1_0000_0000_0000_0000
    modifies a
    ensures a == null || len < 3 ==> count == 0
    ensures a != null && 0 < len < 3 ==> a[0] == NUL
    ensures a != null && 3 <= len ==>
      var doc := Document(Fitting(ReadingTexts(readings, f, nd, render), len - 1));
      count == |doc| && Holds(a, 0, doc + [NUL])
    ensures a != null ==> forall i :: len <= i < a.Length ==> a[i] == old(a[i])
  {
    if a == null || len == 0 {
      return 0;
    }
    if len < 3 {
      a[0] := NUL;
      return 0;
    }
    a[0] := '{';
    ghost var es := ReadingTexts(readings, f, nd, render);
    ghost var w := "{";
    var p: nat, l: nat := 1, len - 1;
    assert es[0..] == es && "{" + Concat(es[..0]) == w;
    var r := 0;
    while r < |readings|
      invariant r <= |readings| && Progress(a, es, len, r, p, l, w)
      invariant forall i :: len <= i < a.Length ==> a[i] == old(a[i])
    {
      var count;
      count, w := ReadingStep(readings, nd, f, render, a, len, p, l, es, r, w);
      if count == 0 {
        break;
      }
      p, l, r := p + count, l - count, r + 1;
    }
    StoppedOrDone(a, es, len, r, p, l, w);
    count := Finish(a, es, len, p, w);
  }

  /** One pass of the loop of jsonify_sensor_readings: the r-th reading,
      written under its generated name behind the document so far. */
  method ReadingStep(readings: seq<SensorReading>, nd: int, f: Features, render: Render, a: array<char>, len: nat, p: nat, l: nat,
                     ghost es: seq<string>, r: nat, ghost w: string)
    returns (count: nat, ghost w': string)
    requires len <= a.Length && r < |readings| < 0x1_0000_0000_0000_0000 && es == ReadingTexts(readings, f, nd, render)
    requires Progress(a, es, len, r, p, l, w)
    modifies a
    ensures count == 0 ==> w' == w && Progress(a, es, len, r, p, l, w) && Kept(es, len - 1) == r
    ensures count > 0 ==> count < l && Progress(a, es, len, r + 1, p + count, l - count, w')
    ensures forall i :: len <= i < a.Length ==> a[i] == old(a[i])
  {
    // the firmware's check that the name fits its buffer never fails
    ReadingNameFits(r);
    var name := ReadingName(r);
    HoldsBelow(a, 0, w, p);
    count := JsonifyReading(name, readings[r], nd, f, render, a, p, l);
    KeptStep(es, r, l);
    HoldsBelow(a, 0, w, p);
    w' := w;
    if count > 0 {
      Advance(a, es, r, w);
      w' := w + es[r];
    }
  }

  /** jsonify_raw_sensor_readings: the calibration data, when supplied,
      then the raw readings, as one JSON object; elements are added while
      they fit, and no reading is written when the calibration data does
      not fit. */
  method JsonifyRawSensorReadings(calib: Option<SensorCalibration>, readings: seq<RawSensorReading>, f: Features, a: array?<char>, len: nat)
    returns (count: nat)
    requires a != null ==> len <= a.Length
    requires |readings| < 0x1_0000_0000_0000_0000
    modifies a
    ensures a == null || len < 3 ==> count == 0
    ensures a != null && 0 < len < 3 ==> a[0] == NUL
    ensures a != null && 3 <= len ==>
      var doc := Document(Fitting(RawElements(calib, readings, f), len - 1));
      count == |doc| && Holds(a, 0, doc + [NUL])
    ensures a != null ==> forall i :: len <= i < a.Length ==> a[i] == old(a[i])
  {
    if a == null || len == 0 {
      return 0;
    }
    if len < 3 {
      a[0] := NUL;
      return 0;
    }
    ghost var es := RawElements(calib, readings, f);
    if calib.Some? {
      RawElementsFirst(calib.value, readings, f);
    }
    forall r | 0 <= r < |readings|
      ensures es[(if calib.Some? then 1 else 0) + r] == RawReadingText(ReadingName(r), readings[r], f)
    {
      RawElementsAt(calib, readings, f, r);
    }
    count := RawDocument(calib, readings, f, a, len, es);
  }

  /** The body of jsonify_raw_sensor_readings, on the elements `es` of the
      document. */
  method RawDocument(calib: Option<SensorCalibration>, readings: seq<RawSensorReading>, f: Features, a: array<char>, len: nat,
                     ghost es: seq<string>)
    returns (count: nat)
    requires 3 <= len <= a.Length && |readings| < 0x1_0000_0000_0000_0000
    requires |es| == (if calib.Some? then 1 else 0) + |readings|
    requires calib.Some? ==> es[0] == CalibrationText(CALIB, calib.value, f)
    requires forall r :: 0 <= r < |readings| ==> es[(if calib.Some? then 1 else 0) + r] == RawReadingText(ReadingName(r), readings[r], f)
    modifies a
    ensures count == |Document(Fitting(es, len - 1))| && Holds(a, 0, Document(Fitting(es, len - 1)) + [NUL])
    ensures forall i :: len <= i < a.Length ==> a[i] == old(a[i])
  {
    a[0] := '{';
    ghost var c := if calib.Some? then 1 else 0;
    ghost var w := "{";
    var p: nat, l: nat := 1, len - 1;
    assert es[0..] == es && "{" + Concat(es[..0]) == w;
    var complete := true;
    if calib.Some? {
      var count;
      count, w := CalibrationStep(calib.value, f, a, len, p, l, es, w);
      if count == 0 {
        // goto terminate_json
        complete := false;
      } else {
        p, l := p + count, l - count;
      }
    }
    if complete {
      p, w := RawReadingsLoop(readings, f, a, len, p, l, es, c, w);
    } else {
      StoppedOrDone(a, es, len, 0, p, l, w);
    }
    count := Finish(a, es, len, p, w);
  }

  /** The calibration data, the first element of `es`, written behind the
      opening brace; when it does not fit, nothing is kept. */
  method CalibrationStep(calib: SensorCalibration, f: Features, a: array<char>, len: nat, p: nat, l: nat,
                         ghost es: seq<string>, ghost w: string)
    returns (count: nat, ghost w': string)
    requires len <= a.Length && 1 <= |es| && es[0] == CalibrationText(CALIB, calib, f)
    requires Progress(a, es, len, 0, p, l, w)
    modifies a
    ensures count == 0 ==> w' == w && Progress(a, es, len, 0, p, l, w) && Kept(es, len - 1) == 0
    ensures count > 0 ==> count < l && Progress(a, es, len, 1, p + count, l - count, w')
    ensures forall i :: len <= i < a.Length ==> a[i] == old(a[i])
  {
    HoldsBelow(a, 0, w, p);
    count := JsonifySensorCalibrationData(CALIB, calib, f, a, p, l);
    KeptStep(es, 0, l);
    HoldsBelow(a, 0, w, p);
    w' := w;
    if count > 0 {
      Advance(a, es, 0, w);
      w' := w + es[0];
    }
  }

  /** Closing the object once the loop has stopped gives the document of
      the elements kept. */
  method Finish(a: array<char>, ghost es: seq<string>, len: nat, p: nat, ghost w: string) returns (count: nat)
    requires 3 <= len <= a.Length && p < len && Progress(a, es, len, Kept(es, len - 1), p, len - p, w)
    modifies a
    ensures count == |Document(Fitting(es, len - 1))| && Holds(a, 0, Document(Fitting(es, len - 1)) + [NUL])
    ensures forall i :: len <= i < a.Length ==> a[i] == old(a[i])
  {
    count := CloseDocument(a, len, p, w);
  }

  /** The loop of jsonify_raw_sensor_readings over the raw readings, which
      are the elements of `es` from index c on. */
  method RawReadingsLoop(readings: seq<RawSensorReading>, f: Features, a: array<char>, len: nat, p0: nat, l0: nat,
                         ghost es: seq<string>, ghost c: nat, ghost w0: string)
    returns (p: nat, ghost w: string)
    requires len <= a.Length && |readings| < 0x1_0000_0000_0000_0000 && |es| == c + |readings|
    requires forall r :: 0 <= r < |readings| ==> es[c + r] == RawReadingText(ReadingName(r), readings[r], f)
    requires Progress(a, es, len, c, p0, l0, w0)
    modifies a
    ensures p < len && Progress(a, es, len, Kept(es, len - 1), p, len - p, w)
    ensures forall i :: len <= i < a.Length ==> a[i] == old(a[i])
  {
    p, w := p0, w0;
    var l := l0;
    var r := 0;
    while r < |readings|
      invariant r <= |readings| && Progress(a, es, len, c + r, p, l, w)
      invariant forall i :: len <= i < a.Length ==> a[i] == old(a[i])
    {
      var count;
      count, w := RawReadingStep(readings, f, a, len, p, l, es, c, r, w);
      if count == 0 {
        break;
      }
      p, l, r := p + count, l - count, r + 1;
    }
    StoppedOrDone(a, es, len, c + r, p, l, w);
  }

  /** One pass of that loop: the r-th raw reading, element c + r of `es`,
      written under its generated name behind the document so far; when it
      fits, the document has one element more, and when it does not, every
      element kept lies before it. */
  method RawReadingStep(readings: seq<RawSensorReading>, f: Features, a: array<char>, len: nat, p: nat, l: nat,
                        ghost es: seq<string>, ghost c: nat, r: nat, ghost w: string)
    returns (count: nat, ghost w': string)
    requires len <= a.Length && r < |readings| < 0x1_0000_0000_0000_0000 && |es| == c + |readings|
    requires forall r :: 0 <= r < |readings| ==> es[c + r] == RawReadingText(ReadingName(r), readings[r], f)
    requires Progress(a, es, len, c + r, p, l, w)
    modifies a
    ensures count == 0 ==> w' == w && Progress(a, es, len, c + r, p, l, w) && Kept(es, len - 1) == c + r
    ensures count > 0 ==> count < l && Progress(a, es, len, c + r + 1, p + count, l - count, w')
    ensures forall i :: len <= i < a.Length ==> a[i] == old(a[i])
  {
    // the firmware's check that the name fits its buffer never fails
    ReadingNameFits(r);
    var name := ReadingName(r);
    assert es[c + r] == RawReadingText(name, readings[r], f);
    HoldsBelow(a, 0, w, p);
    count := JsonifyRawReading(name, readings[r], f, a, p, l);
    KeptStep(es, c + r, l);
    HoldsBelow(a, 0, w, p);
    w' := w;
    if count > 0 {
      Advance(a, es, c + r, w);
      w' := w + es[c + r];
    }
  }
}
