/** The InvenSense ICP-101xx barometric pressure sensor driver: loading the
    four factory calibration words from OTP memory, triggering a measurement
    in one of four modes, reading back the raw 9-byte frame, and converting
    raw codes to pascals and degrees Celsius with the vendor's three-point
    rational fit. Integer and byte logic is exact; the float arithmetic of
    the compensation is over `real` (see FloatModel). */
module Icp101xx {
  import opened I2c
  import opened FloatModel

  // ---------------------------------------------------------------------
  // Integer helpers

  predicate IsInt16(x: int) {
    -32768 <= x < 32768
  }

  /** Storing a 16-bit word into an `int16_t`: two's-complement reinterpretation. */
  function Int16(w: int): (r: int)
    requires 0 <= w < 0x1_0000
    ensures IsInt16(r) && (r == w || r == w - 0x1_0000)
    ensures r < 0 <==> w >= 0x8000
  {
    if w < 0x8000 then w else w - 0x1_0000
  }

  lemma Int16RoundTrip(w: int)
    requires 0 <= w < 0x1_0000
    ensures Int16(w) % 0x1_0000 == w
  {
  }

  // ---------------------------------------------------------------------
  // OTP calibration load (read_otp_from_i2c)

  /** The "enter OTP read mode" command. */
  const OTP_READ_MODE: seq<byte> := [0xC5, 0x95, 0x00, 0x66, 0x9C]
  /** The "read next OTP word" command. */
  const OTP_READ_NEXT: seq<byte> := [0xC7, 0xF7]

  /** The transfers, statuses and words of one OTP load. */
  datatype OtpRun = OtpRun(status: int, words: seq<int>, transfers: seq<Transfer>)

  /** The signed calibration word carried by the reply to an OTP read:
      the first two bytes, big-endian; the third (checksum) is ignored. */
  function OtpWord(r: Reply): (w: int)
    ensures IsInt16(w)
  {
    var d := Fit(r.data, 3);
    Int16(BigEndian16(d[0], d[1]))
  }

  /** One read round: write C7 F7, read three bytes. */
  const ROUND: seq<Transfer> := [Transfer.Write(OTP_READ_NEXT), Transfer.Read(3)]

  /** The transcript of `m` successful read rounds. */
  function RoundTranscript(m: nat): (t: seq<Transfer>)
    ensures |t| == 2 * m
  {
    if m == 0 then [] else ROUND + RoundTranscript(m - 1)
  }

  lemma {:induction false} RoundTranscriptSnoc(m: nat)
    ensures RoundTranscript(m + 1) == RoundTranscript(m) + ROUND
  {
    if m > 0 {
      RoundTranscriptSnoc(m - 1);
      assert RoundTranscript(m + 1) == ROUND + (RoundTranscript(m - 1) + ROUND);
    }
  }

  /** The full transcript of a successful load. */
  function OtpTranscript(): (t: seq<Transfer>)
    ensures |t| == 9
  {
    [Transfer.Write(OTP_READ_MODE)] + RoundTranscript(4)
  }

  /** One read round started at transfer n: its status, the word it read
      (meaningful when the status is 0) and the transfers it issued. */
  datatype RoundResult = RoundResult(status: int, word: int, transfers: seq<Transfer>)

  function OtpRound(script: Script, n: nat): (r: RoundResult)
    ensures r.status == 0 ==> r.transfers == ROUND && r.word == OtpWord(script.At(n + 1))
  {
    if script.At(n).status != 0 then RoundResult(script.At(n).status, 0, ROUND[..1])
    else if script.At(n + 1).status != 0 then RoundResult(script.At(n + 1).status, 0, ROUND)
    else RoundResult(0, OtpWord(script.At(n + 1)), ROUND)
  }

  /** Rounds i..3 of the OTP load, the device answering transfer n with script.At(n). */
  function OtpRounds(script: Script, n: nat, i: nat): OtpRun
    requires i <= 4
    decreases 4 - i
  {
    if i == 4 then OtpRun(0, [], [])
    else
      var r := OtpRound(script, n);
      if r.status != 0 then OtpRun(r.status, [], r.transfers)
      else
        var rest := OtpRounds(script, n + 2, i + 1);
        OtpRun(rest.status, [r.word] + rest.words, ROUND + rest.transfers)
  }

  /** The whole OTP load on an attached device, starting at transfer n. */
  function OtpLoad(script: Script, n: nat): OtpRun {
    if script.At(n).status != 0 then OtpRun(script.At(n).status, [], [Transfer.Write(OTP_READ_MODE)])
    else
      var rest := OtpRounds(script, n + 1, 0);
      OtpRun(rest.status, rest.words, [Transfer.Write(OTP_READ_MODE)] + rest.transfers)
  }

  /** The OTP load on a handle that may be NULL (then the first write fails with -ENODEV). */
  function OtpOn(d: Device?): OtpRun
    reads d
  {
    if d == null then OtpRun(-ENODEV, [], []) else OtpLoad(d.script, |d.log|)
  }

  /** The state of the loop of read_otp_from_i2c after i rounds, the next
      round starting at transfer n: `run`, the whole load, is the words and
      transfers done so far followed by what rounds i..3 will produce. */
  ghost predicate OtpLoop(script: Script, n: nat, i: int, words: seq<int>, done: seq<Transfer>, run: OtpRun) {
    && 0 <= i <= 4 && |words| == i && |done| == 2 * i
    && var rest := OtpRounds(script, n, i);
       run == OtpRun(rest.status, words + rest.words, ([Transfer.Write(OTP_READ_MODE)] + done) + rest.transfers)
  }

  lemma OtpLoopStart(script: Script, n0: nat)
    requires script.At(n0).status == 0
    ensures OtpLoop(script, n0 + 1, 0, [], [], OtpLoad(script, n0))
  {
    var rest := OtpRounds(script, n0 + 1, 0);
    assert [] + rest.words == rest.words;
    assert ([Transfer.Write(OTP_READ_MODE)] + []) + rest.transfers == [Transfer.Write(OTP_READ_MODE)] + rest.transfers;
  }

  lemma OtpLoopFail(script: Script, n: nat, i: int, words: seq<int>, done: seq<Transfer>, run: OtpRun)
    requires OtpLoop(script, n, i, words, done, run) && i < 4
    requires OtpRound(script, n).status != 0
    ensures run.status == OtpRound(script, n).status && run.words == words
    ensures run.transfers == ([Transfer.Write(OTP_READ_MODE)] + done) + OtpRound(script, n).transfers
  {
    assert words + [] == words;
  }

  lemma OtpLoopNext(script: Script, n: nat, i: int, words: seq<int>, done: seq<Transfer>, run: OtpRun)
    requires OtpLoop(script, n, i, words, done, run) && i < 4
    requires OtpRound(script, n).status == 0
    ensures OtpLoop(script, n + 2, i + 1, words + [OtpRound(script, n).word], done + ROUND, run)
  {
    var w := OtpRound(script, n).word;
    var rest := OtpRounds(script, n + 2, i + 1);
    assert words + ([w] + rest.words) == (words + [w]) + rest.words;
    var pre := [Transfer.Write(OTP_READ_MODE)];
    assert (pre + done) + (ROUND + rest.transfers) == (pre + (done + ROUND)) + rest.transfers;
  }

  lemma OtpLoopEnd(script: Script, n: nat, words: seq<int>, done: seq<Transfer>, run: OtpRun)
    requires OtpLoop(script, n, 4, words, done, run)
    ensures run == OtpRun(0, words, [Transfer.Write(OTP_READ_MODE)] + done)
  {
    assert words + [] == words;
  }

  /** Every word an OTP load produces fits an `int16_t`. */
  lemma OtpLoadWordsInt16(script: Script, n: nat)
    ensures forall j :: 0 <= j < |OtpLoad(script, n).words| ==> IsInt16(OtpLoad(script, n).words[j])
  {
    if OtpLoad(script, n).status == 0 {
      OtpLoadSuccess(script, n);
    } else {
      OtpLoadFailure(script, n);
    }
  }

  lemma PrefixUpdate<T>(done: seq<T>, init: seq<T>, x: T)
    requires |done| < |init|
    ensures (done + init[|done|..])[|done| := x] == (done + [x]) + init[|done| + 1..]
  {
  }

  lemma PrefixOfAppend<T>(a: seq<T>, t: seq<T>, r: nat)
    requires r <= |t|
    ensures (a + t)[..|a| + r] == a + t[..r]
  {
  }

  lemma PrefixStep<T>(p: seq<T>, t: seq<T>, u: seq<T>)
    requires |u| <= |t| && u == t[..|u|]
    ensures p + u == (p + t)[..|p + u|]
  {
  }

  lemma SeqAssoc<T>(a: seq<T>, b: seq<T>, c: seq<T>)
    ensures (a + b) + c == a + (b + c)
  {
  }

  /** A successful run of rounds i..3 issued exactly their transcript. */
  lemma {:induction false} OtpRoundsSuccess(script: Script, n: nat, i: nat)
    requires i <= 4 && OtpRounds(script, n, i).status == 0
    ensures OtpRounds(script, n, i).transfers == RoundTranscript(4 - i)
    decreases 4 - i
  {
    if i < 4 {
      var r, rest := OtpRound(script, n), OtpRounds(script, n + 2, i + 1);
      assert r.status == 0;
      assert OtpRounds(script, n, i).transfers == ROUND + rest.transfers;
      OtpRoundsSuccess(script, n + 2, i + 1);
    }
  }

  /** A successful run of rounds i..3 read one word per round, each the
      decoding of that round's read. */
  lemma {:induction false} OtpRoundsSuccessWords(script: Script, n: nat, i: nat)
    requires i <= 4 && OtpRounds(script, n, i).status == 0
    ensures |OtpRounds(script, n, i).words| == 4 - i
    ensures forall j :: 0 <= j < 4 - i ==> OtpRounds(script, n, i).words[j] == OtpWord(script.At(n + 2 * j + 1))
    decreases 4 - i
  {
    if i < 4 {
      var run, r, rest := OtpRounds(script, n, i), OtpRound(script, n), OtpRounds(script, n + 2, i + 1);
      assert r.status == 0;
      assert run.words == [r.word] + rest.words;
      OtpRoundsSuccessWords(script, n + 2, i + 1);
      forall j | 0 <= j < 4 - i ensures run.words[j] == OtpWord(script.At(n + 2 * j + 1)) {
        if j > 0 {
          assert run.words[j] == rest.words[j - 1];
          assert (n + 2) + 2 * (j - 1) + 1 == n + 2 * j + 1;
        }
      }
    }
  }

  /** In a successful run of rounds i..3 every one of their transfers succeeded. */
  lemma {:induction false} OtpRoundsSuccessStatus(script: Script, n: nat, i: nat)
    requires i <= 4 && OtpRounds(script, n, i).status == 0
    ensures forall k :: n <= k < n + 2 * (4 - i) ==> script.At(k).status == 0
    decreases 4 - i
  {
    if i < 4 {
      var r, rest := OtpRound(script, n), OtpRounds(script, n + 2, i + 1);
      assert r.status == 0;
      assert OtpRounds(script, n, i).status == rest.status;
      OtpRoundsSuccessStatus(script, n + 2, i + 1);
      forall k | n <= k < n + 2 * (4 - i) ensures script.At(k).status == 0 {
        if k >= n + 2 {
          assert n + 2 <= k < (n + 2) + 2 * (4 - (i + 1));
        }
      }
    }
  }

  /** A failed run of rounds i..3 issued a non-empty prefix of their transcript. */
  lemma {:induction false} OtpRoundsFailurePrefix(script: Script, n: nat, i: nat)
    requires i <= 4 && OtpRounds(script, n, i).status != 0
    ensures var run := OtpRounds(script, n, i); var m := |run.transfers|;
      && 0 < m <= 2 * (4 - i)
      && run.transfers == RoundTranscript(4 - i)[..m]
    decreases 4 - i
  {
    var run, r := OtpRounds(script, n, i), OtpRound(script, n);
    var t := RoundTranscript(4 - (i + 1));
    assert RoundTranscript(4 - i) == ROUND + t;
    if r.status == 0 {
      var rest := OtpRounds(script, n + 2, i + 1);
      assert run.transfers == ROUND + rest.transfers;
      OtpRoundsFailurePrefix(script, n + 2, i + 1);
      PrefixStep(ROUND, t, rest.transfers);
    } else {
      assert run.transfers == r.transfers;
      assert (ROUND + t)[..1] == ROUND[..1] && (ROUND + t)[..2] == ROUND;
    }
  }

  /** A failed run of rounds i..3 returns the status of its last transfer,
      and every transfer before that one succeeded. */
  lemma {:induction false} OtpRoundsFailureStatus(script: Script, n: nat, i: nat)
    requires i <= 4 && OtpRounds(script, n, i).status != 0
    ensures var run := OtpRounds(script, n, i); var m := |run.transfers|;
      && m > 0
      && run.status == script.At(n + m - 1).status
      && (forall k :: n <= k < n + m - 1 ==> script.At(k).status == 0)
    decreases 4 - i
  {
    var r := OtpRound(script, n);
    if r.status == 0 {
      var rest := OtpRounds(script, n + 2, i + 1);
      OtpRoundsFailureStatus(script, n + 2, i + 1);
      forall k | n <= k < n + 2 + |rest.transfers| - 1 ensures script.At(k).status == 0 {
        if k >= n + 2 {
          assert n + 2 <= k < n + 2 + |rest.transfers| - 1;
        }
      }
    }
  }

  /** A failed run of rounds i..3 read one word per completed round: its
      failing round issued one or two transfers after them. */
  lemma {:induction false} OtpRoundsFailureCount(script: Script, n: nat, i: nat)
    requires i <= 4 && OtpRounds(script, n, i).status != 0
    ensures var run := OtpRounds(script, n, i);
      |run.transfers| == 2 * |run.words| + 1 || |run.transfers| == 2 * |run.words| + 2
    decreases 4 - i
  {
    var r := OtpRound(script, n);
    if r.status == 0 {
      var rest := OtpRounds(script, n + 2, i + 1);
      assert OtpRounds(script, n, i) == OtpRun(rest.status, [r.word] + rest.words, ROUND + rest.transfers);
      OtpRoundsFailureCount(script, n + 2, i + 1);
    } else {
      assert OtpRounds(script, n, i) == OtpRun(r.status, [], r.transfers);
    }
  }

  /** The words of a failed run of rounds i..3 are the decodings of the
      reads of its completed rounds. */
  lemma {:induction false} OtpRoundsFailureWords(script: Script, n: nat, i: nat)
    requires i <= 4 && OtpRounds(script, n, i).status != 0
    ensures var run := OtpRounds(script, n, i);
      forall j :: 0 <= j < |run.words| ==> run.words[j] == OtpWord(script.At(n + 2 * j + 1))
    decreases 4 - i
  {
    var run, r := OtpRounds(script, n, i), OtpRound(script, n);
    if r.status == 0 {
      var rest := OtpRounds(script, n + 2, i + 1);
      assert run.words == [r.word] + rest.words;
      OtpRoundsFailureWords(script, n + 2, i + 1);
      forall j | 0 <= j < |run.words| ensures run.words[j] == OtpWord(script.At(n + 2 * j + 1)) {
        if j > 0 {
          assert run.words[j] == rest.words[j - 1];
          assert (n + 2) + 2 * (j - 1) + 1 == n + 2 * j + 1;
        }
      }
    } else {
      assert run.words == [];
    }
  }

  /** A complete OTP load: the command sequence is exactly the read-mode
      command then four rounds of (write C7 F7, read 3 bytes), every one of
      the nine transfers succeeded, and word j is the signed big-endian value
      of the first two bytes of the j-th read. */
  lemma OtpLoadSuccess(script: Script, n: nat)
    requires OtpLoad(script, n).status == 0
    ensures OtpLoad(script, n).transfers == OtpTranscript()
    ensures forall k :: n <= k < n + 9 ==> script.At(k).status == 0
    ensures |OtpLoad(script, n).words| == 4
    ensures forall j :: 0 <= j < 4 ==> OtpLoad(script, n).words[j] == OtpWord(script.At(n + 2 * j + 2))
  {
    OtpLoadSuccessTransfers(script, n);
    OtpLoadSuccessStatus(script, n);
    OtpLoadSuccessWords(script, n);
  }

  lemma OtpLoadSuccessTransfers(script: Script, n: nat)
    requires OtpLoad(script, n).status == 0
    ensures OtpLoad(script, n).transfers == OtpTranscript()
  {
    assert script.At(n).status == 0;
    var rest := OtpRounds(script, n + 1, 0);
    assert OtpLoad(script, n).transfers == [Transfer.Write(OTP_READ_MODE)] + rest.transfers;
    OtpRoundsSuccess(script, n + 1, 0);
  }

  lemma OtpLoadSuccessStatus(script: Script, n: nat)
    requires OtpLoad(script, n).status == 0
    ensures forall k :: n <= k < n + 9 ==> script.At(k).status == 0
  {
    assert script.At(n).status == 0;
    var rest := OtpRounds(script, n + 1, 0);
    assert rest.status == 0;
    OtpRoundsSuccessStatus(script, n + 1, 0);
    forall k | n <= k < n + 9 ensures script.At(k).status == 0 {
      if k > n {
        assert n + 1 <= k < (n + 1) + 2 * (4 - 0);
      }
    }
  }

  lemma OtpLoadSuccessWords(script: Script, n: nat)
    requires OtpLoad(script, n).status == 0
    ensures |OtpLoad(script, n).words| == 4
    ensures forall j :: 0 <= j < 4 ==> OtpLoad(script, n).words[j] == OtpWord(script.At(n + 2 * j + 2))
  {
    assert script.At(n).status == 0;
    var rest := OtpRounds(script, n + 1, 0);
    OtpRoundsSuccessWords(script, n + 1, 0);
    forall j | 0 <= j < 4 ensures rest.words[j] == OtpWord(script.At(n + 2 * j + 2)) {
      assert n + 2 * j + 2 == (n + 1) + 2 * j + 1;
    }
  }

  /** A failed OTP load stops at the first failing transfer: it has issued
      a prefix of the full command sequence, every transfer before the last
      succeeded, the load returns the last one's status, and the words it
      produced are those of the reads completed before the failure. */
  lemma OtpLoadFailure(script: Script, n: nat)
    requires OtpLoad(script, n).status != 0
    ensures var run := OtpLoad(script, n); var m := |run.transfers|;
      && 0 < m <= 9
      && run.transfers == OtpTranscript()[..m]
      && run.status == script.At(n + m - 1).status
      && (forall k :: n <= k < n + m - 1 ==> script.At(k).status == 0)
      && |run.words| == (if m < 2 then 0 else (m - 2) / 2)
      && (forall j :: 0 <= j < |run.words| ==> run.words[j] == OtpWord(script.At(n + 2 * j + 2)))
  {
    OtpLoadFailureTransfers(script, n);
    OtpLoadFailureStatus(script, n);
    OtpLoadFailureWords(script, n);
  }

  lemma OtpLoadFailureTransfers(script: Script, n: nat)
    requires OtpLoad(script, n).status != 0
    ensures 0 < |OtpLoad(script, n).transfers| <= 9
    ensures OtpLoad(script, n).transfers == OtpTranscript()[..|OtpLoad(script, n).transfers|]
  {
    var mode := [Transfer.Write(OTP_READ_MODE)];
    if script.At(n).status == 0 {
      var rest := OtpRounds(script, n + 1, 0);
      assert OtpLoad(script, n).transfers == mode + rest.transfers;
      OtpRoundsFailurePrefix(script, n + 1, 0);
      assert OtpTranscript() == mode + RoundTranscript(4);
      PrefixOfAppend(mode, RoundTranscript(4), |rest.transfers|);
    } else {
      assert OtpLoad(script, n).transfers == mode;
      assert OtpTranscript()[..1] == mode;
    }
  }

  lemma OtpLoadFailureStatus(script: Script, n: nat)
    requires OtpLoad(script, n).status != 0
    ensures |OtpLoad(script, n).transfers| > 0
    ensures OtpLoad(script, n).status == script.At(n + |OtpLoad(script, n).transfers| - 1).status
    ensures forall k :: n <= k < n + |OtpLoad(script, n).transfers| - 1 ==> script.At(k).status == 0
  {
    if script.At(n).status == 0 {
      var rest := OtpRounds(script, n + 1, 0);
      assert OtpLoad(script, n) == OtpRun(rest.status, rest.words, [Transfer.Write(OTP_READ_MODE)] + rest.transfers);
      OtpRoundsFailureStatus(script, n + 1, 0);
      var r := |rest.transfers|;
      assert rest.status == script.At((n + 1) + r - 1).status;
      assert (n + 1) + r - 1 == n + |OtpLoad(script, n).transfers| - 1;
      forall k | n <= k < n + r ensures script.At(k).status == 0 {
        if k > n {
          assert n + 1 <= k < (n + 1) + r - 1;
        }
      }
    }
  }

  lemma OtpLoadFailureWords(script: Script, n: nat)
    requires OtpLoad(script, n).status != 0
    ensures var run := OtpLoad(script, n); var m := |run.transfers|;
      && |run.words| == (if m < 2 then 0 else (m - 2) / 2)
      && (forall j :: 0 <= j < |run.words| ==> run.words[j] == OtpWord(script.At(n + 2 * j + 2)))
  {
    if script.At(n).status == 0 {
      var rest := OtpRounds(script, n + 1, 0);
      assert OtpLoad(script, n) == OtpRun(rest.status, rest.words, [Transfer.Write(OTP_READ_MODE)] + rest.transfers);
      OtpRoundsFailureCount(script, n + 1, 0);
      OtpRoundsFailureWords(script, n + 1, 0);
      forall j | 0 <= j < |rest.words| ensures rest.words[j] == OtpWord(script.At(n + 2 * j + 2)) {
        assert n + 2 * j + 2 == (n + 1) + 2 * j + 1;
      }
    }
  }

  // ---------------------------------------------------------------------
  // Measurement modes (inv_invpres_mode_t) and their tables

  const LOW_POWER: int := 0
  const NORMAL: int := 1
  const LOW_NOISE: int := 2
  const ULTRA_LOW_NOISE: int := 3

  /** The big-endian 2-byte command that starts a measurement, if `mode` is one of the four. */
  function MeasurementCommand(mode: int): Option<seq<byte>> {
    if mode == LOW_POWER then Some([0x40, 0x1A])
    else if mode == NORMAL then Some([0x48, 0xA3])
    else if mode == LOW_NOISE then Some([0x50, 0x59])
    else if mode == ULTRA_LOW_NOISE then Some([0x58, 0xE0])
    else None
  }

  /** The worst-case conversion time of `mode` in microseconds; an unknown mode waits as LOW_POWER. */
  function MeasurementTimeUs(mode: int): nat {
    if mode == NORMAL then 5600
    else if mode == LOW_NOISE then 20800
    else if mode == ULTRA_LOW_NOISE then 83200
    else 1600
  }

  lemma MeasurementTables(mode: int)
    ensures MeasurementCommand(mode).Some? <==> LOW_POWER <= mode <= ULTRA_LOW_NOISE
    ensures MeasurementCommand(mode).Some? ==> |MeasurementCommand(mode).value| == 2
    ensures MeasurementCommand(mode).None? ==> MeasurementTimeUs(mode) == MeasurementTimeUs(LOW_POWER)
    ensures forall m :: LOW_POWER <= m < mode <= ULTRA_LOW_NOISE ==>
              MeasurementTimeUs(m) < MeasurementTimeUs(mode) && MeasurementCommand(m) != MeasurementCommand(mode)
  {
  }

  // ---------------------------------------------------------------------
  // The raw measurement frame

  /** Pressure code: bytes 0, 1 and 3; byte 2 is a checksum and byte 4 unused. */
  function PressureCode(d: seq<byte>): int
    requires |d| == 9
  {
    d[0] as int * 0x1_0000 + d[1] as int * 0x100 + d[3] as int
  }

  /** Temperature code as the driver stores it in an `int16_t`: bytes 6 and 7. */
  function TemperatureRaw(d: seq<byte>): int
    requires |d| == 9
  {
    Int16(BigEndian16(d[6], d[7]))
  }

  /** The decoded values use exactly bytes 0, 1, 3, 6 and 7 of the frame. */
  lemma DivMod256(x: int, y: int)
    requires 0 <= y < 256
    ensures (x * 256 + y) / 256 == x && (x * 256 + y) % 256 == y
  {
  }

  lemma FrameDecode(d: seq<byte>, e: seq<byte>)
    requires |d| == 9 && |e| == 9
    ensures 0 <= PressureCode(d) < 0x100_0000 && IsInt16(TemperatureRaw(d))
    ensures PressureCode(d) % 256 == d[3] as int
    ensures PressureCode(d) / 256 % 256 == d[1] as int && PressureCode(d) / 256 / 256 == d[0] as int
    ensures (PressureCode(d) == PressureCode(e) && TemperatureRaw(d) == TemperatureRaw(e))
        <==> (d[0] == e[0] && d[1] == e[1] && d[3] == e[3] && d[6] == e[6] && d[7] == e[7])
  {
    var hd := d[0] as int * 256 + d[1] as int;
    assert PressureCode(d) == hd * 256 + d[3] as int;
    DivMod256(hd, d[3] as int);
    DivMod256(d[0] as int, d[1] as int);
    var he := e[0] as int * 256 + e[1] as int;
    assert PressureCode(e) == he * 256 + e[3] as int;
    DivMod256(he, e[3] as int);
    DivMod256(e[0] as int, e[1] as int);
    BigEndian16RoundTrip(d[6], d[7]);
    BigEndian16RoundTrip(e[6], e[7]);
  }

  // ---------------------------------------------------------------------
  // Compensation (inv_invpres_process_data, calculate_conversion_constants)

  /** The calibration part of `struct inv_invpres`. */
  datatype Calibration = Calibration(constants: seq<int>, pPaCalib: seq<real>,
                                     lutLower: real, lutUpper: real,
                                     quadrFactor: real, offstFactor: real)
  {
    predicate WellFormed() {
      |constants| == 4 && |pPaCalib| == 3
    }
  }

  /** The fixed configuration `init_base` installs beside the OTP words. */
  function BaseCalibration(otp: seq<int>): (c: Calibration)
    ensures c.constants == otp && c.pPaCalib == [45000.0, 80000.0, 105000.0]
    ensures c.lutLower == 3.5 * 1048576.0 && c.lutUpper == 11.5 * 1048576.0
    ensures c.quadrFactor == 1.0 / 16777216.0 && c.offstFactor == 2048.0
  {
    Calibration(otp, [45000.0, 80000.0, 105000.0], 3.5 * 1048576.0, 11.5 * 1048576.0,
                1.0 / 16777216.0, 2048.0)
  }

  datatype Abc = Abc(a: real, b: real, c: real)

  /** The rational curve `A + B / (C + x)`. */
  function Curve(k: Abc, x: real): Float {
    if k.c + x == 0.0 then NonFinite else Finite(k.a + k.b / (k.c + x))
  }

  /** The denominator of C in calculate_conversion_constants. */
  function FitDenominator(pPa: seq<real>, pLut: seq<real>): real
    requires |pPa| == 3 && |pLut| == 3
  {
    pLut[2] * (pPa[0] - pPa[1]) + pLut[0] * (pPa[1] - pPa[2]) + pLut[1] * (pPa[2] - pPa[0])
  }

  /** calculate_conversion_constants: A, B, C, or None when one of its two
      divisions is by zero (the float results are then non-finite). */
  function ConversionConstants(pPa: seq<real>, pLut: seq<real>): (r: Option<Abc>)
    requires |pPa| == 3 && |pLut| == 3
    ensures r.Some? <==> FitDenominator(pPa, pLut) != 0.0 && pLut[0] != pLut[1]
  {
    var den := FitDenominator(pPa, pLut);
    if den == 0.0 || pLut[0] - pLut[1] == 0.0 then None
    else
      var c := (pLut[0] * pLut[1] * (pPa[0] - pPa[1]) +
                pLut[1] * pLut[2] * (pPa[1] - pPa[2]) +
                pLut[2] * pLut[0] * (pPa[2] - pPa[0])) / den;
      var a := (pPa[0] * pLut[0] - pPa[1] * pLut[1] - (pPa[1] - pPa[0]) * c) / (pLut[0] - pLut[1]);
      var b := (pPa[0] - a) * (pLut[0] + c);
      Some(Abc(a, b, c))
  }

  lemma CurveFromProduct(a: real, b: real, u: real, p: real)
    requires u != 0.0 && a * u + b == p * u
    ensures a + b / u == p
  {
    assert b == (p - a) * u;
    assert b / u == p - a;
  }

  /** The first reference point, in scalars. */
  lemma FitPoint0(p0: real, s0: real, a: real, b: real, c: real)
    requires b == (p0 - a) * (s0 + c) && c + s0 != 0.0
    ensures a + b / (c + s0) == p0
  {
    assert a * (c + s0) + (p0 - a) * (s0 + c) == p0 * (c + s0);
    CurveFromProduct(a, b, c + s0, p0);
  }

  /** The second reference point, in scalars. */
  lemma FitPoint1(p0: real, p1: real, s0: real, s1: real, a: real, b: real, c: real)
    requires a * (s0 - s1) == p0 * s0 - p1 * s1 - (p1 - p0) * c
    requires b == (p0 - a) * (s0 + c) && c + s1 != 0.0
    ensures a + b / (c + s1) == p1
  {
    assert a * (c + s1) + (p0 - a) * (s0 + c) == p0 * (s0 + c) - a * (s0 - s1);
    CurveFromProduct(a, b, c + s1, p1);
  }

  /** Polynomial identity behind the third reference point. */
  lemma FitIdentity2(p0: real, p1: real, p2: real, s0: real, s1: real, s2: real, a: real, c: real)
    ensures (s0 - s1) * (a * (c + s2) + (p0 - a) * (s0 + c) - p2 * (c + s2))
         == (a * (s0 - s1)) * (s2 - s0) + (s0 - s1) * (p0 * (s0 + c) - p2 * (c + s2))
  {
  }

  lemma FitIdentity3(p0: real, p1: real, p2: real, s0: real, s1: real, s2: real, c: real)
    ensures (p0 * s0 - p1 * s1 - (p1 - p0) * c) * (s2 - s0) + (s0 - s1) * (p0 * (s0 + c) - p2 * (c + s2))
         == c * (s2 * (p0 - p1) + s0 * (p1 - p2) + s1 * (p2 - p0))
            - (s0 * s1 * (p0 - p1) + s1 * s2 * (p1 - p2) + s2 * s0 * (p2 - p0))
  {
  }

  lemma ScaleZero(k: real, e: real)
    requires k != 0.0 && k * e == 0.0
    ensures e == 0.0
  {
  }

  /** The third reference point, in scalars. */
  lemma FitPoint2(p0: real, p1: real, p2: real, s0: real, s1: real, s2: real, a: real, b: real, c: real)
    requires s0 != s1
    requires c * (s2 * (p0 - p1) + s0 * (p1 - p2) + s1 * (p2 - p0))
          == s0 * s1 * (p0 - p1) + s1 * s2 * (p1 - p2) + s2 * s0 * (p2 - p0)
    requires a * (s0 - s1) == p0 * s0 - p1 * s1 - (p1 - p0) * c
    requires b == (p0 - a) * (s0 + c) && c + s2 != 0.0
    ensures a + b / (c + s2) == p2
  {
    var e := a * (c + s2) + b - p2 * (c + s2);
    FitIdentity2(p0, p1, p2, s0, s1, s2, a, c);
    FitIdentity3(p0, p1, p2, s0, s1, s2, c);
    assert (s0 - s1) * e == 0.0;
    ScaleZero(s0 - s1, e);
    CurveFromProduct(a, b, c + s2, p2);
  }

  lemma DivDefinition(x: real, y: real, q: real)
    requires y != 0.0 && q == x / y
    ensures q * y == x
  {
  }

  /** What calculate_conversion_constants establishes about A, B and C. */
  lemma ConversionConstantsFacts(pPa: seq<real>, pLut: seq<real>)
    requires |pPa| == 3 && |pLut| == 3 && ConversionConstants(pPa, pLut).Some?
    ensures FitsThree(pPa, pLut, ConversionConstants(pPa, pLut).value)
  {
    var k := ConversionConstants(pPa, pLut).value;
    DivDefinition(pLut[0] * pLut[1] * (pPa[0] - pPa[1]) + pLut[1] * pLut[2] * (pPa[1] - pPa[2]) + pLut[2] * pLut[0] * (pPa[2] - pPa[0]),
                  FitDenominator(pPa, pLut), k.c);
    DivDefinition(pPa[0] * pLut[0] - pPa[1] * pLut[1] - (pPa[1] - pPa[0]) * k.c, pLut[0] - pLut[1], k.a);
  }

  /** The scalar form of the three-point fit: A, B, C as
      calculate_conversion_constants leaves them. */
  ghost predicate FitsThree(pPa: seq<real>, pLut: seq<real>, k: Abc)
    requires |pPa| == 3 && |pLut| == 3
  {
    && pLut[0] != pLut[1]
    && k.c * FitDenominator(pPa, pLut)
       == pLut[0] * pLut[1] * (pPa[0] - pPa[1]) + pLut[1] * pLut[2] * (pPa[1] - pPa[2]) + pLut[2] * pLut[0] * (pPa[2] - pPa[0])
    && k.a * (pLut[0] - pLut[1]) == pPa[0] * pLut[0] - pPa[1] * pLut[1] - (pPa[1] - pPa[0]) * k.c
    && k.b == (pPa[0] - k.a) * (pLut[0] + k.c)
  }

  lemma FitsThreeAt0(pPa: seq<real>, pLut: seq<real>, k: Abc)
    requires |pPa| == 3 && |pLut| == 3 && FitsThree(pPa, pLut, k) && k.c + pLut[0] != 0.0
    ensures Curve(k, pLut[0]) == Finite(pPa[0])
  {
    FitPoint0(pPa[0], pLut[0], k.a, k.b, k.c);
  }

  lemma FitsThreeAt1(pPa: seq<real>, pLut: seq<real>, k: Abc)
    requires |pPa| == 3 && |pLut| == 3 && FitsThree(pPa, pLut, k) && k.c + pLut[1] != 0.0
    ensures Curve(k, pLut[1]) == Finite(pPa[1])
  {
    FitPoint1(pPa[0], pPa[1], pLut[0], pLut[1], k.a, k.b, k.c);
  }

  lemma FitsThreeAt2(pPa: seq<real>, pLut: seq<real>, k: Abc)
    requires |pPa| == 3 && |pLut| == 3 && FitsThree(pPa, pLut, k) && k.c + pLut[2] != 0.0
    ensures Curve(k, pLut[2]) == Finite(pPa[2])
  {
    FitPoint2(pPa[0], pPa[1], pPa[2], pLut[0], pLut[1], pLut[2], k.a, k.b, k.c);
  }

  /** The fitted curve passes through all three reference points. */
  lemma ConversionConstantsInterpolate(pPa: seq<real>, pLut: seq<real>, i: nat)
    requires |pPa| == 3 && |pLut| == 3 && i < 3
    requires ConversionConstants(pPa, pLut).Some?
    requires ConversionConstants(pPa, pLut).value.c + pLut[i] != 0.0
    ensures Curve(ConversionConstants(pPa, pLut).value, pLut[i]) == Finite(pPa[i])
  {
    var k := ConversionConstants(pPa, pLut).value;
    ConversionConstantsFacts(pPa, pLut);
    if i == 0 {
      FitsThreeAt0(pPa, pLut, k);
    } else if i == 1 {
      FitsThreeAt1(pPa, pLut, k);
    } else {
      FitsThreeAt2(pPa, pLut, k);
    }
  }

  /** On either branch of the hyperbola the curve is strictly monotone:
      decreasing in x when B > 0, increasing when B < 0. */
  lemma CurveMonotoneOnBranch(k: Abc, x: real, y: real)
    requires x < y
    requires (k.c + x > 0.0 && k.c + y > 0.0) || (k.c + x < 0.0 && k.c + y < 0.0)
    ensures Curve(k, x).Finite? && Curve(k, y).Finite?
    ensures k.b > 0.0 ==> Curve(k, x).val > Curve(k, y).val
    ensures k.b < 0.0 ==> Curve(k, x).val < Curve(k, y).val
  {
    var u, v := k.c + x, k.c + y;
    if u > 0.0 { ProductSign(v, u); } else { ProductSign(-v, -u); }
    FractionDifference(k.b, u, v);
    QuotientSign(k.b * (v - u), u * v);
    ProductSign(k.b, v - u);
  }

  lemma FractionDifference(b: real, u: real, v: real)
    requires u != 0.0 && v != 0.0
    ensures b / u - b / v == b * (v - u) / (u * v)
  {
    var q := b / u - b / v;
    assert (b / u) * u == b;
    assert (b / v) * v == b;
    assert q * (u * v) == (b / u) * u * v - (b / v) * v * u;
    assert q * (u * v) == b * (v - u);
    assert u * v != 0.0;
  }

  lemma ProductSign(a: real, b: real)
    requires b > 0.0
    ensures a > 0.0 ==> a * b > 0.0
    ensures a < 0.0 ==> a * b < 0.0
  {
  }

  lemma QuotientSign(n: real, d: real)
    requires d > 0.0
    ensures n > 0.0 ==> n / d > 0.0
    ensures n < 0.0 ==> n / d < 0.0
  {
    assert n / d * d == n;
    if n / d <= 0.0 { ProductSign(n / d, d); }
    if n / d >= 0.0 { ProductSign(n / d, d); }
  }

  /** The three LUT seeds s1, s2, s3 at temperature code T (t = T - 32768). */
  function Seeds(cal: Calibration, tLsb: int): (s: seq<real>)
    requires cal.WellFormed()
    ensures |s| == 3
  {
    var t := (tLsb - 32768) as real;
    [cal.lutLower + (cal.constants[0] as real * t * t) * cal.quadrFactor,
     cal.offstFactor * cal.constants[3] as real + (cal.constants[1] as real * t * t) * cal.quadrFactor,
     cal.lutUpper + (cal.constants[2] as real * t * t) * cal.quadrFactor]
  }

  datatype Measurement = Measurement(pressure: Float, temperature: real)

  /** The temperature formula `-45 + 175/65536 * T_LSB`. */
  function Temperature(tLsb: int): real {
    -45.0 + 175.0 / 65536.0 * tLsb as real
  }

  /** inv_invpres_process_data: pressure in Pa and temperature in degrees C. */
  function ProcessData(cal: Calibration, pLsb: int, tLsb: int): (m: Measurement)
    requires cal.WellFormed()
    ensures m.temperature == Temperature(tLsb)
  {
    var k := ConversionConstants(cal.pPaCalib, Seeds(cal, tLsb));
    Measurement(if k.None? then NonFinite else Curve(k.value, pLsb as real), Temperature(tLsb))
  }

  /** At any temperature, a raw pressure code equal to seed i converts to
      reference pressure i, whenever the float arithmetic stays finite. */
  lemma ProcessDataAtSeeds(cal: Calibration, tLsb: int, i: nat)
    requires cal.WellFormed() && i < 3
    requires ConversionConstants(cal.pPaCalib, Seeds(cal, tLsb)).Some?
    ensures var k := ConversionConstants(cal.pPaCalib, Seeds(cal, tLsb)).value;
      k.c + Seeds(cal, tLsb)[i] != 0.0 ==> Curve(k, Seeds(cal, tLsb)[i]) == Finite(cal.pPaCalib[i])
  {
    var k := ConversionConstants(cal.pPaCalib, Seeds(cal, tLsb)).value;
    if k.c + Seeds(cal, tLsb)[i] != 0.0 {
      ConversionConstantsInterpolate(cal.pPaCalib, Seeds(cal, tLsb), i);
    }
  }

  /** The temperature formula is affine, -45 at code 0 and 42.5 at 32768. */
  lemma TemperatureAffine(x: int, y: int)
    ensures Temperature(0) == -45.0 && Temperature(32768) == 42.5
    ensures Temperature(y) - Temperature(x) == 175.0 / 65536.0 * (y - x) as real
  {
  }

  /** With all OTP words zero the seeds do not depend on the temperature. */
  lemma ZeroOtpSeeds(tLsb: int)
    ensures Seeds(BaseCalibration([0, 0, 0, 0]), tLsb) == [3.5 * 1048576.0, 0.0, 11.5 * 1048576.0]
  {
  }

  /** End to end with zero OTP words: the codes 3.5*2^20, 0 and 11.5*2^20
      convert to 45000, 80000 and 105000 Pa at every temperature. */
  lemma ZeroOtpReferencePoints(tLsb: int)
    ensures var cal := BaseCalibration([0, 0, 0, 0]);
      && ProcessData(cal, 3670016, tLsb).pressure == Finite(45000.0)
      && ProcessData(cal, 0, tLsb).pressure == Finite(80000.0)
      && ProcessData(cal, 12058624, tLsb).pressure == Finite(105000.0)
  {
    var cal := BaseCalibration([0, 0, 0, 0]);
    ZeroOtpSeeds(tLsb);
    var s := Seeds(cal, tLsb);
    var k := ConversionConstants(cal.pPaCalib, s).value;
    assert k.c < -5000000.0 && k.c > -6000000.0;
    ConversionConstantsInterpolate(cal.pPaCalib, s, 0);
    ConversionConstantsInterpolate(cal.pPaCalib, s, 1);
    ConversionConstantsInterpolate(cal.pPaCalib, s, 2);
  }

  // ---------------------------------------------------------------------
  // The driver object (struct inv_invpres)

  const ICC_ADDR_PRS: int := 0x63

  class InvPres {
    /** The I2C handle; NULL when i2c_create_device failed. */
    var serif: Device?
    /** OTP values (`int16_t sensor_constants[4]`). */
    const sensorConstants: array<int>
    /** Reference pressures (`float p_Pa_calib[3]`). */
    const pPaCalib: array<real>
    var lutLower: real
    var lutUpper: real
    var quadrFactor: real
    var offstFactor: real

    ghost predicate Valid()
      reads this, sensorConstants
    {
      && sensorConstants.Length == 4 && pPaCalib.Length == 3
      && sensorConstants != pPaCalib as object
      && forall i :: 0 <= i < 4 ==> IsInt16(sensorConstants[i])
    }

    /** The calibration state the compensation reads. */
    function Calib(): (c: Calibration)
      reads this, sensorConstants, pPaCalib
      requires Valid()
      ensures c.WellFormed()
    {
      Calibration(sensorConstants[..], pPaCalib[..], lutLower, lutUpper, quadrFactor, offstFactor)
    }

    /** Storage for a driver instance, not yet initialised. */
    constructor ()
      ensures Valid() && serif == null
      ensures fresh(sensorConstants) && fresh(pPaCalib)
    {
      serif := null;
      sensorConstants := new int[4](_ => 0);
      pPaCalib := new real[3](_ => 0.0);
      lutLower, lutUpper, quadrFactor, offstFactor := 0.0, 0.0, 0.0, 0.0;
    }

    /** inv_invpres_serif_write_reg */
    method SerifWriteReg(data: seq<byte>) returns (status: int)
      modifies serif
      ensures serif == null ==> status == -ENODEV
      ensures serif != null ==> serif.log == old(serif.log) + [Transfer.Write(data)]
                                && status == serif.script.At(|old(serif.log)|).status
    {
      if serif == null {
        return -ENODEV;
      }
      status := serif.Write(data);
    }

    /** inv_invpres_serif_read_reg */
    method SerifReadReg(count: nat) returns (status: int, data: seq<byte>)
      modifies serif
      ensures serif == null ==> status == -ENODEV && data == []
      ensures serif != null ==> serif.log == old(serif.log) + [Transfer.Read(count)]
                                && status == serif.script.At(|old(serif.log)|).status
                                && data == Fit(serif.script.At(|old(serif.log)|).data, count)
    {
      if serif == null {
        return -ENODEV, [];
      }
      status, data := serif.Read(count);
    }

    /** One iteration of the loop in read_otp_from_i2c: request the next
        word, read three bytes, and decode the first two. */
    method ReadOtpRound() returns (status: int, word: int)
      requires serif != null
      modifies serif
      ensures var r := old(OtpRound(serif.script, |serif.log|));
        serif.log == old(serif.log) + r.transfers && status == r.status && (status == 0 ==> word == r.word)
    {
      status := SerifWriteReg(OTP_READ_NEXT);
      if status != 0 {
        return status, 0;
      }
      var data;
      status, data := SerifReadReg(3);
      if status != 0 {
        return status, 0;
      }
      word := Int16(BigEndian16(data[0], data[1]));
    }

    /** read_otp_from_i2c: `out` is the caller's array as passed in and as
        left behind; the words read before the first failure overwrite its
        prefix. */
    method ReadOtpFromI2c(otp: seq<int>) returns (status: int, out: seq<int>)
      requires |otp| == 4
      modifies serif
      ensures var run := old(OtpOn(serif));
        && status == run.status
        && (serif != null ==> serif.log == old(serif.log) + run.transfers)
        && out == run.words + otp[|run.words|..]
    {
      ghost var run := OtpOn(serif);
      ghost var log0: seq<Transfer> := [];
      if serif != null {
        log0 := serif.log;
      }
      out := otp;
      status := SerifWriteReg(OTP_READ_MODE);
      if status != 0 {
        return;
      }
      ghost var script := serif.script;
      ghost var words: seq<int> := [];
      ghost var done: seq<Transfer> := [];
      ghost var n: nat := |log0| + 1;
      OtpLoopStart(script, |log0|);
      var i := 0;
      while i < 4
        invariant serif != null && serif.script == script
        invariant OtpLoop(script, n, i, words, done, run)
        invariant serif.log == log0 + ([Transfer.Write(OTP_READ_MODE)] + done) && |serif.log| == n
        invariant out == words + otp[i..]
      {
        ghost var r := OtpRound(script, n);
        var word;
        status, word := ReadOtpRound();
        if status != 0 {
          OtpLoopFail(script, n, i, words, done, run);
          SeqAssoc(log0, [Transfer.Write(OTP_READ_MODE)] + done, r.transfers);
          return;
        }
        PrefixUpdate(words, otp, word);
        out := out[i := word];
        OtpLoopNext(script, n, i, words, done, run);
        SeqAssoc(log0, [Transfer.Write(OTP_READ_MODE)] + done, ROUND);
        SeqAssoc([Transfer.Write(OTP_READ_MODE)], done, ROUND);
        words, done, n := words + [word], done + ROUND, n + 2;
        i := i + 1;
      }
      OtpLoopEnd(script, n, words, done, run);
    }

    /** init_base: copies the four OTP words and installs the fixed configuration. */
    method InitBase(otp: seq<int>)
      requires Valid() && |otp| == 4
      requires forall i :: 0 <= i < 4 ==> IsInt16(otp[i])
      modifies this, sensorConstants, pPaCalib
      ensures Valid() && serif == old(serif)
      ensures Calib() == BaseCalibration(otp)
    {
      for i := 0 to 4
        invariant sensorConstants[..i] == otp[..i]
        invariant forall j :: 0 <= j < 4 ==> IsInt16(sensorConstants[j])
        invariant serif == old(serif)
      {
        sensorConstants[i] := otp[i];
      }
      pPaCalib[0] := 45000.0;
      pPaCalib[1] := 80000.0;
      pPaCalib[2] := 105000.0;
      lutLower := 3.5 * 1048576.0;
      lutUpper := 11.5 * 1048576.0;
      quadrFactor := 1.0 / 16777216.0;
      offstFactor := 2048.0;
      assert sensorConstants[..] == sensorConstants[..4];
      assert pPaCalib[..] == [45000.0, 80000.0, 105000.0];
    }

    /** inv_invpres_init: `dev` is what i2c_create_device returned. The OTP
        status is ignored: the words not read keep the indeterminate contents
        of the local array, and the call always returns 0. */
    method Init(dev: Device?) returns (status: int)
      requires Valid()
      modifies this, sensorConstants, pPaCalib, dev
      ensures Valid() && serif == dev && status == 0
      ensures var run := old(OtpOn(dev));
        && (dev != null ==> dev.log == old(dev.log) + run.transfers)
        && Calib().constants[..|run.words|] == run.words
        && Calib() == BaseCalibration(Calib().constants)
    {
      serif := dev;
      ghost var run := OtpOn(serif);
      assert IsInt16(0);
      var junk: seq<int> :| |junk| == 4 && forall i :: 0 <= i < 4 ==> IsInt16(junk[i]);
      var otpStatus, otp := ReadOtpFromI2c(junk);
      if dev != null {
        OtpLoadWordsInt16(dev.script, |old(dev.log)|);
      }
      assert forall i :: 0 <= i < 4 ==> IsInt16(otp[i]) by {
        forall i | 0 <= i < 4 ensures IsInt16(otp[i]) {
          if i >= |run.words| {
            assert otp[i] == junk[i];
          }
        }
      }
      InitBase(otp);
      assert otp[..|run.words|] == run.words;
      status := 0;
    }

    /** inv_invpres_start_measurement: an unknown mode returns -EINVAL with no bus write. */
    method StartMeasurement(mode: int) returns (status: int)
      modifies serif
      ensures status == old(StartStatus(mode, serif))
      ensures serif != null ==> serif.log == old(serif.log) + StartTransfers(mode)
    {
      var command: seq<byte>;
      if mode == LOW_POWER {
        command := [0x40, 0x1A];
      } else if mode == NORMAL {
        command := [0x48, 0xA3];
      } else if mode == LOW_NOISE {
        command := [0x50, 0x59];
      } else if mode == ULTRA_LOW_NOISE {
        command := [0x58, 0xE0];
      } else {
        return -EINVAL;
      }
      status := SerifWriteReg(command);
    }

    /** inv_invpres_get_data_raw: repeats the 9-byte read while it fails with
        -ENXIO, then decodes the last frame read, whatever its status, and
        returns 0. A code whose output pointer is NULL (want* false) is not
        stored. */
    method GetDataRaw(wantP: bool, wantT: bool) returns (status: int, pRaw: Option<int>, tRaw: Option<int>)
      requires serif != null ==> exists k :: |serif.log| <= k && serif.script.At(k).status != -ENXIO
      modifies serif
      ensures status == 0 && pRaw.Some? == wantP && tRaw.Some? == wantT
      ensures pRaw.Some? ==> 0 <= pRaw.value < 0x100_0000
      ensures tRaw.Some? ==> IsInt16(tRaw.value)
      ensures serif != null ==> |old(serif.log)| < |serif.log| && serif.log[..|old(serif.log)|] == old(serif.log)
      ensures serif != null ==>
        && Polled(serif, |old(serif.log)|)
        && (wantP ==> pRaw.value == PressureCode(LastFrame(serif)))
        && (wantT ==> tRaw.value == TemperatureRaw(LastFrame(serif)))
    {
      var data: seq<byte>;
      var readStatus;
      if serif == null {
        // The read fails at once and the frame is the uninitialised local buffer.
        readStatus, data := SerifReadReg(9);
        assert |Fit([], 9)| == 9;
        data :| |data| == 9;
      } else {
        ghost var k :| |serif.log| <= k && serif.script.At(k).status != -ENXIO;
        readStatus, data := SerifReadReg(9);
        while readStatus == -ENXIO
          invariant serif != null && |old(serif.log)| < |serif.log| <= k + 1
          invariant serif.log[..|old(serif.log)|] == old(serif.log)
          invariant forall j :: |old(serif.log)| <= j < |serif.log| ==> serif.log[j] == Transfer.Read(9)
          invariant forall j :: |old(serif.log)| <= j < |serif.log| - 1 ==> serif.script.At(j).status == -ENXIO
          invariant readStatus == serif.script.At(|serif.log| - 1).status
          invariant data == LastFrame(serif)
          decreases k + 1 - |serif.log|
        {
          readStatus, data := SerifReadReg(9);
        }
      }
      pRaw := if wantP then Some(PressureCode(data)) else None;
      tRaw := if wantT then Some(TemperatureRaw(data)) else None;
      FrameDecode(data, data);
      status := 0;
    }

    /** inv_invpres_process_data: always returns 0. */
    method ProcessDataOf(pLsb: int, tLsb: int) returns (status: int, m: Measurement)
      requires Valid()
      ensures status == 0 && m == ProcessData(Calib(), pLsb, tLsb)
    {
      var t := (tLsb - 32768) as real;
      var s1 := lutLower + (sensorConstants[0] as real * t * t) * quadrFactor;
      var s2 := offstFactor * sensorConstants[3] as real + (sensorConstants[1] as real * t * t) * quadrFactor;
      var s3 := lutUpper + (sensorConstants[2] as real * t * t) * quadrFactor;
      ghost var cal := Calib();
      assert cal.constants[0] == sensorConstants[0] && cal.constants[1] == sensorConstants[1];
      assert cal.constants[2] == sensorConstants[2] && cal.constants[3] == sensorConstants[3];
      assert s1 == Seeds(cal, tLsb)[0];
      assert s2 == Seeds(cal, tLsb)[1];
      assert s3 == Seeds(cal, tLsb)[2];
      assert [s1, s2, s3] == Seeds(cal, tLsb);
      var k := ConversionConstants(pPaCalib[..], [s1, s2, s3]);
      m := Measurement(if k.None? then NonFinite else Curve(k.value, pLsb as real),
                       -45.0 + 175.0 / 65536.0 * tLsb as real);
      status := 0;
    }

    /** inv_invpres_get_data: read the frame, then convert it. */
    method GetData() returns (status: int, m: Measurement)
      requires Valid()
      requires serif != null ==> exists k :: |serif.log| <= k && serif.script.At(k).status != -ENXIO
      modifies serif
      ensures status == 0
      ensures serif != null ==> |old(serif.log)| < |serif.log| && serif.log[..|old(serif.log)|] == old(serif.log)
      ensures serif != null ==>
        && Polled(serif, |old(serif.log)|)
        && m == ProcessData(Calib(), PressureCode(LastFrame(serif)), TemperatureRaw(LastFrame(serif)))
    {
      var pRaw, tRaw;
      status, pRaw, tRaw := GetDataRaw(true, true);
      status, m := ProcessDataOf(pRaw.value, tRaw.value);
    }

    /** inv_invpres_measure_blocking: start, wait the mode's conversion time, read and convert.
        A failed start returns its status with no wait and no read. */
    method MeasureBlocking(mode: int, callout: Callout) returns (status: int, m: Option<Measurement>)
      requires Valid()
      requires serif != null && StartStatus(mode, serif) == 0 ==>
        exists k :: |serif.log| + 1 <= k && serif.script.At(k).status != -ENXIO
      modifies serif, callout
      ensures old(StartStatus(mode, serif)) != 0 ==>
        && status == old(StartStatus(mode, serif)) && m.None?
        && callout.requested == old(callout.requested)
        && (serif != null ==> serif.log == old(serif.log) + StartTransfers(mode))
      ensures old(StartStatus(mode, serif)) == 0 ==>
        && status == 0 && m.Some? && serif != null
        && callout.requested == old(callout.requested) + [MeasurementTimeUs(mode)]
        && |serif.log| > |old(serif.log)| && serif.log[..|old(serif.log)| + 1] == old(serif.log) + StartTransfers(mode)
        && Polled(serif, |old(serif.log)| + 1)
        && m.value == ProcessData(Calib(), PressureCode(LastFrame(serif)), TemperatureRaw(LastFrame(serif)))
    {
      status := StartMeasurement(mode);
      if status != 0 {
        return status, None;
      }
      ghost var started := serif.log;
      WaitForMeasurement(mode, callout);
      var r;
      status, r := GetData();
      assert serif.log[..|started|] == started;
      m := Some(r);
    }

    /** inv_invpres_measure_raw_blocking: as MeasureBlocking, returning the raw codes. */
    method MeasureRawBlocking(mode: int, callout: Callout, wantP: bool, wantT: bool)
      returns (status: int, pRaw: Option<int>, tRaw: Option<int>)
      requires serif != null && StartStatus(mode, serif) == 0 ==>
        exists k :: |serif.log| + 1 <= k && serif.script.At(k).status != -ENXIO
      modifies serif, callout
      ensures old(StartStatus(mode, serif)) != 0 ==>
        && status == old(StartStatus(mode, serif)) && pRaw.None? && tRaw.None?
        && callout.requested == old(callout.requested)
        && (serif != null ==> serif.log == old(serif.log) + StartTransfers(mode))
      ensures old(StartStatus(mode, serif)) == 0 ==>
        && status == 0 && pRaw.Some? == wantP && tRaw.Some? == wantT && serif != null
        && callout.requested == old(callout.requested) + [MeasurementTimeUs(mode)]
        && |serif.log| > |old(serif.log)| && serif.log[..|old(serif.log)| + 1] == old(serif.log) + StartTransfers(mode)
        && Polled(serif, |old(serif.log)| + 1)
        && (wantP ==> pRaw.value == PressureCode(LastFrame(serif)))
        && (wantT ==> tRaw.value == TemperatureRaw(LastFrame(serif)))
    {
      status := StartMeasurement(mode);
      if status != 0 {
        return status, None, None;
      }
      ghost var started := serif.log;
      WaitForMeasurement(mode, callout);
      status, pRaw, tRaw := GetDataRaw(wantP, wantT);
      assert serif.log[..|started|] == started;
    }
  }

  /** The status inv_invpres_start_measurement returns on handle `d`. */
  function StartStatus(mode: int, d: Device?): int
    reads d
  {
    if MeasurementCommand(mode).None? then -EINVAL
    else if d == null then -ENODEV
    else d.script.At(|d.log|).status
  }

  /** The transfers inv_invpres_start_measurement issues on an attached handle. */
  function StartTransfers(mode: int): seq<Transfer> {
    if MeasurementCommand(mode).None? then [] else [Transfer.Write(MeasurementCommand(mode).value)]
  }

  /** The transfers from index `from` on are the polling loop of
      inv_invpres_get_data_raw: 9-byte reads, every one but the last
      answered -ENXIO. */
  ghost predicate Polled(d: Device, from: nat)
    reads d
  {
    && from < |d.log|
    && (forall j :: from <= j < |d.log| ==> d.log[j] == Transfer.Read(9))
    && (forall j :: from <= j < |d.log| - 1 ==> d.script.At(j).status == -ENXIO)
    && d.script.At(|d.log| - 1).status != -ENXIO
  }

  /** The 9-byte frame of the last transfer on `d`. */
  function LastFrame(d: Device): (f: seq<byte>)
    reads d
    requires |d.log| > 0
    ensures |f| == 9
  {
    Fit(d.script.At(|d.log| - 1).data, 9)
  }

  /** wait_for_measurement: one delay of the mode's conversion time. */
  method WaitForMeasurement(mode: int, callout: Callout)
    modifies callout
    ensures callout.requested == old(callout.requested) + [MeasurementTimeUs(mode)]
  {
    var us: nat;
    if mode == NORMAL {
      us := 5600;
    } else if mode == LOW_NOISE {
      us := 20800;
    } else if mode == ULTRA_LOW_NOISE {
      us := 83200;
    } else {
      us := 1600;
    }
    callout.DelayUs(us);
  }
}
