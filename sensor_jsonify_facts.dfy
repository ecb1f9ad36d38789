/** What the documents of the JSON serialiser look like: which elements
    they keep, in which order, and how they are closed. */
module JsonifyFacts {
  import opened Decimal
  import opened JsonAttr
  import opened Sensor
  import opened SensorJsonify

  // ---------------------------------------------------------------------
  // Which elements are kept

  /** The kept elements fit together into the room, with space left for the
      NUL. */
  lemma {:induction false} KeptFits(es: seq<string>, room: nat)
    requires room > 0
    ensures |Concat(Fitting(es, room))| < room
    decreases |es|
  {
    if es == [] || |es[0]| >= room {
      assert Fitting(es, room) == [];
    } else {
      var rest := room - |es[0]|;
      KeptFits(es[1..], rest);
      assert Fitting(es, room)[1..] == Fitting(es[1..], rest);
    }
  }

  /** The first element left out would not have fitted behind the kept
      ones. */
  lemma {:induction false} KeptMaximal(es: seq<string>, room: nat)
    requires Kept(es, room) < |es|
    ensures |Concat(Fitting(es, room))| + |es[Kept(es, room)]| >= room
    decreases |es|
  {
    if |es[0]| >= room {
      assert Fitting(es, room) == [];
    } else {
      var rest := room - |es[0]|;
      KeptMaximal(es[1..], rest);
      assert Fitting(es, room)[1..] == Fitting(es[1..], rest);
    }
  }

  /** Every element is kept exactly when all of them fit together. */
  lemma {:induction false} KeptAll(es: seq<string>, room: nat)
    requires room > 0
    ensures Kept(es, room) == |es| <==> |Concat(es)| < room
    decreases |es|
  {
    if es != [] && |es[0]| < room {
      KeptAll(es[1..], room - |es[0]|);
    }
  }

  /** The document of readings holds the first readings, in order, the
      i-th under the name "rdg<i>". */
  lemma KeptReadings(readings: seq<SensorReading>, f: Features, nd: int, render: Render, room: nat, i: nat)
    requires i < |Fitting(ReadingTexts(readings, f, nd, render), room)|
    ensures Fitting(ReadingTexts(readings, f, nd, render), room)[i] == ReadingText(ReadingName(i), readings[i], f, nd, render)
  {
  }

  /** The generated names tell the readings apart. */
  lemma ReadingNamesDistinct(i: nat, j: nat)
    ensures ReadingName(i) == ReadingName(j) <==> i == j
  {
    if ReadingName(i) == ReadingName(j) {
      assert NatText(i) == ReadingName(i)[|READING_PREFIX|..];
      assert NatText(j) == ReadingName(j)[|READING_PREFIX|..];
      NatTextRoundTrip(i);
      NatTextRoundTrip(j);
    }
  }

  /** Supplied calibration data comes first; when it does not fit, no
      reading is written and the document is "{}". */
  lemma CalibrationBlocks(calib: SensorCalibration, readings: seq<RawSensorReading>, f: Features, room: nat)
    requires |CalibrationText(CALIB, calib, f)| >= room
    ensures Fitting(RawElements(Some(calib), readings, f), room) == []
    ensures Document(Fitting(RawElements(Some(calib), readings, f), room)) == "{}"
  {
    RawElementsFirst(calib, readings, f);
    assert RawElements(Some(calib), readings, f)[..0] == [];
  }

  // ---------------------------------------------------------------------
  // How a document is closed

  /** Every document is a pair of braces around its text; with no element
      it is "{}". */
  lemma DocumentBraces(kept: seq<string>)
    ensures var d := Document(kept); |d| >= 2 && d[0] == '{' && d[|d| - 1] == '}'
    ensures kept == [] ==> Document(kept) == "{}"
  {
    if kept == [] {
      assert "{" + Concat(kept) == "{";
    }
  }

  /** The document and its NUL fit into the caller's buffer. */
  lemma DocumentFits(es: seq<string>, len: nat)
    requires 3 <= len
    ensures |Document(Fitting(es, len - 1))| < len
  {
    KeptFits(es, len - 1);
  }

  /** A text that ends with the separator every writer leaves behind. */
  predicate EndsWithSeparator(s: string) {
    |s| >= 2 && s[|s| - 2..] == ", "
  }

  /** When the last kept element ends in ", ", closing the document replaces
      exactly that separator by "}". */
  lemma DocumentCloses(kept: seq<string>)
    requires kept != [] && EndsWithSeparator(kept[|kept| - 1])
    ensures EndsWithSeparator(Concat(kept))
    ensures Document(kept) == "{" + Concat(kept)[..|Concat(kept)| - 2] + "}"
  {
    var n := |kept|;
    ConcatSnoc(kept, n - 1);
    assert kept[..n] == kept;
    var c := Concat(kept);
    var last := kept[n - 1];
    assert c[|c| - 2..] == last[|last| - 2..];
    var w := "{" + c;
    assert w[..|w| - 2] == "{" + c[..|c| - 2];
  }

  /** Every element the writers produce is a JSON member ending in "}, ". */
  lemma ClosedEnds(s: string)
    requires |s| >= 2
    ensures EndsWithSeparator(Closed(s)) && Closed(s)[|Closed(s)| - 3] == '}'
  {
  }

  lemma CalibrationTextEnds(attr: string, c: SensorCalibration, f: Features)
    ensures EndsWithSeparator(CalibrationText(attr, c, f))
  {
    if f.pressure {
      ClosedEnds(Quoted(attr) + "{" + Member(CALIB_ICP, ConstantsText(c)));
    }
  }

  /** The document of readings: its kept readings with the last separator
      turned into the closing brace. */
  lemma ReadingDocumentShape(readings: seq<SensorReading>, f: Features, nd: int, render: Render, room: nat)
    requires Kept(ReadingTexts(readings, f, nd, render), room) > 0
    ensures var c := Concat(Fitting(ReadingTexts(readings, f, nd, render), room));
      EndsWithSeparator(c) && Document(Fitting(ReadingTexts(readings, f, nd, render), room)) == "{" + c[..|c| - 2] + "}"
  {
    var kept := Fitting(ReadingTexts(readings, f, nd, render), room);
    var i := |kept| - 1;
    ClosedEnds(Quoted(ReadingName(i)) + "{" + ReadingMembers(readings[i], f, nd, render));
    DocumentCloses(kept);
  }

  /** The same for the document of raw readings and calibration data. */
  lemma RawDocumentShape(calib: Option<SensorCalibration>, readings: seq<RawSensorReading>, f: Features, room: nat)
    requires Kept(RawElements(calib, readings, f), room) > 0
    ensures var c := Concat(Fitting(RawElements(calib, readings, f), room));
      EndsWithSeparator(c) && Document(Fitting(RawElements(calib, readings, f), room)) == "{" + c[..|c| - 2] + "}"
  {
    var es := RawElements(calib, readings, f);
    var kept := Fitting(es, room);
    var i := |kept| - 1;
    var first := if calib.Some? then 1 else 0;
    if i < first {
      RawElementsFirst(calib.value, readings, f);
      CalibrationTextEnds(CALIB, calib.value, f);
    } else {
      RawElementsAt(calib, readings, f, i - first);
      ClosedEnds(Quoted(ReadingName(i - first)) + "{" + RawMembers(readings[i - first], f));
    }
    DocumentCloses(kept);
  }
}
