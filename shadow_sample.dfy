/** The room-temperature simulation of the shadow sample: a temperature
    that climbs from the lower limit to the upper one in half-degree steps,
    turns, falls back, and so on.

    Every value the simulation takes is a multiple of 0.5 between 25.0 and
    32.0, all exactly representable as floats, so temperatures are kept
    here exactly, as whole numbers of half degrees. */
module ShadowSample {

  /** ROOMTEMPERATURE_UPPERLIMIT, 32.0, in half degrees. */
  const UPPER_LIMIT: int := 64
  /** ROOMTEMPERATURE_LOWERLIMIT, 25.0, in half degrees. */
  const LOWER_LIMIT: int := 50
  /** STARTING_ROOMTEMPERATURE */
  const STARTING_TEMPERATURE: int := LOWER_LIMIT
  /** The size of one change, 0.5. */
  const STEP: int := 1

  /** The number of calls after which the simulation repeats itself: up and
      back down again. */
  const PERIOD: nat := 28

  lemma PeriodIsUpAndDown()
    ensures PERIOD == 2 * (UPPER_LIMIT - LOWER_LIMIT)
  {
  }

  /** The temperature and the static deltaChange between two calls. */
  datatype State = State(temperature: int, delta: int)

  /** The state before the first call: the starting temperature, and
      deltaChange zero as every static variable starts. */
  const START: State := State(STARTING_TEMPERATURE, 0)

  /** The change the next call applies: downwards at or above the upper
      limit, upwards at or below the lower one, and otherwise the change of
      the previous call. */
  function NextDelta(temperature: int, delta: int): int {
    if temperature >= UPPER_LIMIT then -STEP
    else if temperature <= LOWER_LIMIT then STEP
    else delta
  }

  /** One call of simulateRoomTemperature, on values. */
  function Step(s: State): State {
    var d := NextDelta(s.temperature, s.delta);
    State(s.temperature + d, d)
  }

  /** The state after n calls. */
  function Run(n: nat): State {
    if n == 0 then START else Step(Run(n - 1))
  }

  /** The distance above the lower limit after n calls: a triangle wave
      rising for PERIOD / 2 calls and falling for as many. */
  function Zigzag(n: nat): (z: int)
    ensures 0 <= z <= UPPER_LIMIT - LOWER_LIMIT
  {
    var m := n % PERIOD;
    if m <= PERIOD / 2 then m else PERIOD - m
  }

  /** The states the simulation can be in: within the limits, the change a
      single step, and no change only before the first call. */
  predicate Reachable(s: State) {
    LOWER_LIMIT <= s.temperature <= UPPER_LIMIT &&
    -STEP <= s.delta <= STEP &&
    (s.delta == 0 ==> s.temperature == STARTING_TEMPERATURE)
  }

  /** A call keeps the simulation within the limits and changes the
      temperature by exactly half a degree. */
  lemma StepKeepsLimits(s: State)
    requires Reachable(s)
    ensures Reachable(Step(s))
    ensures Step(s).delta != 0
    ensures Step(s).temperature - s.temperature == Step(s).delta
    ensures Step(s).temperature - s.temperature == STEP || s.temperature - Step(s).temperature == STEP
  {
  }

  /** After n calls the temperature is the lower limit plus the triangle
      wave; the change is upwards in the rising half and downwards in the
      falling one. */
  lemma {:induction false} RunClosedForm(n: nat)
    ensures Run(n).temperature == LOWER_LIMIT + Zigzag(n)
    ensures n > 0 ==> Run(n).delta == if 1 <= n % PERIOD <= PERIOD / 2 then STEP else -STEP
    decreases n
  {
    if n > 0 {
      RunClosedForm(n - 1);
      ModNext(n - 1);
      var m := (n - 1) % PERIOD;
      var prev := Run(n - 1);
      assert Run(n) == Step(prev);
      if m == 0 {
        // at the lower limit: turn upwards
        assert prev.temperature == LOWER_LIMIT && n % PERIOD == 1;
      } else if m == PERIOD / 2 {
        // at the upper limit: turn downwards
        assert prev.temperature == UPPER_LIMIT && n % PERIOD == m + 1;
      } else if m < PERIOD / 2 {
        assert LOWER_LIMIT < prev.temperature < UPPER_LIMIT && prev.delta == STEP && n % PERIOD == m + 1;
      } else {
        assert LOWER_LIMIT < prev.temperature < UPPER_LIMIT && prev.delta == -STEP;
      }
    }
  }

  /** Counting modulo PERIOD. */
  lemma ModNext(k: nat)
    ensures (k + 1) % PERIOD == if k % PERIOD == PERIOD - 1 then 0 else k % PERIOD + 1
  {
    var q, m := k / PERIOD, k % PERIOD;
    assert k == q * PERIOD + m;
    if m == PERIOD - 1 {
      assert k + 1 == (q + 1) * PERIOD;
    } else {
      assert k + 1 == q * PERIOD + (m + 1);
    }
  }

  lemma ModShift(n: nat)
    ensures (n + PERIOD) % PERIOD == n % PERIOD
  {
    var q, m := n / PERIOD, n % PERIOD;
    assert n + PERIOD == (q + 1) * PERIOD + m;
  }

  /** Every state reached lies within the limits. */
  lemma {:induction false} RunReachable(n: nat)
    ensures Reachable(Run(n))
    decreases n
  {
    if n > 0 {
      RunReachable(n - 1);
      StepKeepsLimits(Run(n - 1));
    }
  }

  /** The first call turns 25.0 into 25.5, and the simulation repeats every
      PERIOD calls. */
  lemma FirstCallAndPeriod(n: nat)
    ensures Run(1) == State(LOWER_LIMIT + STEP, STEP)
    ensures n > 0 ==> Run(n + PERIOD) == Run(n)
  {
    RunClosedForm(n);
    RunClosedForm(n + PERIOD);
    ModShift(n);
  }

  /** simulateRoomTemperature with its static variable: the temperature
      the caller passes by pointer and deltaChange live in one object. */
  class RoomTemperature {
    var temperature: int
    var deltaChange: int

    /** The state of the sample when its loop starts. */
    constructor ()
      ensures temperature == STARTING_TEMPERATURE && deltaChange == 0
    {
      temperature := STARTING_TEMPERATURE;
      deltaChange := 0;
    }

    /** simulateRoomTemperature */
    method Simulate()
      modifies this
      ensures State(temperature, deltaChange) == Step(old(State(temperature, deltaChange)))
      ensures old(Reachable(State(temperature, deltaChange))) ==> Reachable(State(temperature, deltaChange))
    {
      if temperature >= UPPER_LIMIT {
        deltaChange := -STEP;
      } else if temperature <= LOWER_LIMIT {
        deltaChange := STEP;
      }
      temperature := temperature + deltaChange;
    }
  }
}
