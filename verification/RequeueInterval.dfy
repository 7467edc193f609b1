/**
 The adaptive requeue interval of utils/reconciler.go: how many seconds the
 operator waits before it looks at an unchanged component again.

 float64 is modelled as exact real arithmetic and math.Pow as repeated
 multiplication; the seconds since the latest transition are an int, negative
 if the clock went backwards.
 */
module RequeueInterval {

  const INT32_LIMIT := 0x8000_0000

  /** The operator settings that the interval depends on. */
  datatype Config = Config(
    minimum: int,
    percentage: int,
    failureMaximum: int,
    successMaximum: int,
    showReconcileInterval: bool)
  {
    function Maximum(success: bool): int {
      if success then successMaximum else failureMaximum
    }

    function Increase(): real {
      1.0 + percentage as real / 100.0
    }

    predicate Valid() {
      && 1 <= minimum
      && 0 <= percentage
      && ValidMaximum(failureMaximum)
      && ValidMaximum(successMaximum)
    }

    /** The conversion to int32 that precedes the clamp cannot overflow. */
    predicate ValidMaximum(maximum: int) {
      minimum <= maximum && Scaled(Increase(), maximum as real) < INT32_LIMIT as real
    }
  }

  // ---------------------------------------------------------------------
  // Specification
  // ---------------------------------------------------------------------

  /** Multiplication, under a name so that proofs can treat it as a symbol. */
  function Scaled(factor: real, x: real): real {
    factor * x
  }

  function Power(base: real, exponent: nat): real {
    if exponent == 0 then 1.0 else Scaled(base, Power(base, exponent - 1))
  }

  /** `start` after growing `k` times. */
  function Grow(start: real, increase: real, k: nat): real {
    if k == 0 then start else Scaled(increase, Grow(start, increase, k - 1))
  }

  function Reduce(x: int, increase: real): int
    requires increase > 1.0
  {
    (x as real / increase).Floor
  }

  /** The exponent: how many floored divisions bring `x` down to `minimum`. */
  function Steps(x: int, minimum: int, increase: real): nat
    requires 1 <= minimum && 1.0 < increase
    decreases if x <= minimum then 0 else x
  {
    if x <= minimum then 0
    else
      ReduceFalls(x, increase);
      1 + Steps(Reduce(x, increase), minimum, increase)
  }

  /** The interval that the exponent stands for, before it is clamped. */
  function Grown(elapsed: int, minimum: int, increase: real): int
    requires 1 <= minimum && 1.0 < increase
  {
    Grow(minimum as real, increase, Steps(elapsed, minimum, increase)).Floor
  }

  /** The interval chosen `elapsed` seconds after the latest transition. */
  function IntervalFor(elapsed: int, maximum: int, cfg: Config): int
    requires cfg.Valid()
  {
    if elapsed >= maximum then maximum
    else if elapsed < cfg.minimum || cfg.percentage == 0 then cfg.minimum
    else
      var grown := Grown(elapsed, cfg.minimum, cfg.Increase());
      if grown >= maximum then maximum else grown
  }

  // ---------------------------------------------------------------------
  // The exponent loop
  // ---------------------------------------------------------------------

  lemma ScaledMonotone(factor: real, a: real, b: real)
    requires 0.0 < factor
    ensures a <= b ==> Scaled(factor, a) <= Scaled(factor, b)
    ensures a < b ==> Scaled(factor, a) < Scaled(factor, b)
  {
  }

  lemma ScaledSum(factor: real, a: real, b: real)
    ensures Scaled(factor, a + b) == Scaled(factor, a) + Scaled(factor, b)
    ensures Scaled(factor, 1.0) == factor
    ensures Scaled(factor, 0.0) == 0.0
  {
  }

  lemma ScaledEnlarges(factor: real, a: real)
    requires 1.0 <= factor && 0.0 <= a
    ensures a <= Scaled(factor, a)
    ensures 1.0 < factor && 0.0 < a ==> a < Scaled(factor, a)
  {
    ScaledByOne(a);
    assert 0.0 <= (factor - 1.0) * a;
    assert (factor - 1.0) * a == factor * a - a;
    if 1.0 < factor && 0.0 < a {
      assert 0.0 < (factor - 1.0) * a;
    }
  }

  lemma ScaledByOne(a: real)
    ensures Scaled(1.0, a) == a
  {
  }

  lemma QuotientScales(x: real, increase: real)
    requires 1.0 < increase
    ensures Scaled(increase, x / increase) == x
  {
  }

  /** What one floored division does; the loop of the code stops because of it. */
  lemma ReduceFalls(x: int, increase: real)
    requires 1 <= x && 1.0 < increase
    ensures 0 <= Reduce(x, increase) < x
    ensures Scaled(increase, Reduce(x, increase) as real) <= x as real
    ensures x as real < Scaled(increase, Reduce(x, increase) as real) + increase
  {
    hide Scaled;
    var quotient := x as real / increase;
    QuotientScales(x as real, increase);
    QuotientBounds(x as real, quotient, quotient.Floor as real, increase);
  }

  lemma QuotientBounds(x: real, quotient: real, floor: real, increase: real)
    requires 1.0 < increase && 1.0 <= x && Scaled(increase, quotient) == x
    requires floor <= quotient < floor + 1.0
    ensures 0.0 < quotient < x
    ensures Scaled(increase, floor) <= x < Scaled(increase, floor) + increase
  {
    hide Scaled;
    ScaledSum(increase, floor, 1.0);
    ScaledMonotone(increase, quotient, 0.0);
    ScaledMonotone(increase, floor, quotient);
    ScaledMonotone(increase, quotient, floor + 1.0);
    assert 0.0 < quotient;
    ScaledEnlarges(increase, quotient);
  }

  lemma ReduceMonotone(x: int, y: int, increase: real)
    requires 1.0 < increase && x <= y
    ensures Reduce(x, increase) <= Reduce(y, increase)
  {
    hide Scaled;
    var p, q := x as real / increase, y as real / increase;
    QuotientScales(x as real, increase);
    QuotientScales(y as real, increase);
    ScaledMonotone(increase, q, p);
  }

  lemma {:induction false} GrowIsPower(start: real, increase: real, k: nat)
    ensures Grow(start, increase, k) == start * Power(increase, k)
  {
    if k > 0 {
      GrowIsPower(start, increase, k - 1);
      var p := Power(increase, k - 1);
      assert increase * (start * p) == start * (increase * p);
    }
  }

  lemma {:induction false} GrowMonotone(start: real, increase: real, m: nat, n: nat)
    requires 0.0 <= start && 1.0 <= increase && m <= n
    ensures start <= Grow(start, increase, m) <= Grow(start, increase, n)
  {
    hide Scaled;
    if 0 < n {
      if m < n {
        GrowMonotone(start, increase, m, n - 1);
      } else {
        GrowMonotone(start, increase, m - 1, n - 1);
      }
      ScaledEnlarges(increase, Grow(start, increase, n - 1));
    }
  }

  lemma {:induction false} StepsMonotone(x: int, y: int, minimum: int, increase: real)
    requires 1 <= minimum && 1.0 < increase && x <= y
    ensures Steps(x, minimum, increase) <= Steps(y, minimum, increase)
    decreases if x <= minimum then 0 else x
  {
    hide Reduce, Scaled;
    if x > minimum {
      ReduceFalls(x, increase);
      ReduceMonotone(x, y, increase);
      StepsMonotone(Reduce(x, increase), Reduce(y, increase), minimum, increase);
    }
  }

  /** Growing the minimum one time fewer than the exponent says stays below x. */
  lemma {:induction false} StepsFromBelow(x: int, minimum: int, increase: real, k: nat)
    requires 1 <= minimum && 1.0 < increase
    requires Steps(x, minimum, increase) == k + 1
    ensures Grow(minimum as real, increase, k) < x as real
    decreases k
  {
    hide Reduce, Scaled;
    if k >= 1 {
      var x' := Reduce(x, increase);
      ReduceFalls(x, increase);
      StepsFromBelow(x', minimum, increase, k - 1);
      ScaledMonotone(increase, Grow(minimum as real, increase, k - 1), x' as real);
    }
  }

  /** Growing it as often as the exponent says reaches x, up to what the floors lose. */
  lemma {:induction false} StepsFromAbove(x: int, minimum: int, increase: real, slack: real)
    requires 1 <= minimum && 1.0 < increase
    requires Scaled(increase, slack) == slack + increase
    ensures x as real + slack
         <= Grow(minimum as real + slack, increase, Steps(x, minimum, increase))
    decreases if x <= minimum then 0 else x
  {
    hide Reduce, Scaled;
    if x > minimum {
      var x' := Reduce(x, increase);
      ReduceFalls(x, increase);
      StepsFromAbove(x', minimum, increase, slack);
      ScaledSum(increase, x' as real, slack);
      ScaledMonotone(increase, x' as real + slack,
                     Grow(minimum as real + slack, increase, Steps(x', minimum, increase)));
    }
  }

  /** The grown interval is at least the minimum and never exceeds increase * elapsed. */
  lemma GrownBounds(elapsed: int, minimum: int, increase: real)
    requires 1 <= minimum <= elapsed && 1.0 < increase
    ensures minimum <= Grown(elapsed, minimum, increase)
    ensures Grown(elapsed, minimum, increase) as real <= Scaled(increase, elapsed as real)
  {
    hide Reduce, Scaled;
    var k := Steps(elapsed, minimum, increase);
    GrowMonotone(minimum as real, increase, 0, k);
    if k >= 1 {
      StepsFromBelow(elapsed, minimum, increase, k - 1);
      ScaledMonotone(increase, Grow(minimum as real, increase, k - 1), elapsed as real);
    } else {
      ScaledEnlarges(increase, elapsed as real);
    }
  }

  // ---------------------------------------------------------------------
  // Properties of the chosen interval
  // ---------------------------------------------------------------------

  /** The interval stays within the configured range and below increase * elapsed. */
  lemma IntervalBounds(elapsed: int, success: bool, cfg: Config)
    requires cfg.Valid()
    ensures var r := IntervalFor(elapsed, cfg.Maximum(success), cfg);
            && cfg.minimum <= r <= cfg.Maximum(success)
            && (cfg.minimum <= elapsed ==> r as real <= Scaled(cfg.Increase(), elapsed as real))
  {
    hide Steps, Grow, Scaled;
    if cfg.minimum <= elapsed {
      ScaledEnlarges(cfg.Increase(), elapsed as real);
      if cfg.percentage > 0 {
        GrownBounds(elapsed, cfg.minimum, cfg.Increase());
      }
    }
  }

  /** More time since the latest transition never gives a shorter interval. */
  lemma IntervalMonotone(e1: int, e2: int, success: bool, cfg: Config)
    requires cfg.Valid() && e1 <= e2
    ensures IntervalFor(e1, cfg.Maximum(success), cfg) <= IntervalFor(e2, cfg.Maximum(success), cfg)
  {
    hide Steps, Grow, Scaled;
    IntervalBounds(e1, success, cfg);
    IntervalBounds(e2, success, cfg);
    if cfg.minimum <= e1 && cfg.percentage > 0 {
      var inc := cfg.Increase();
      StepsMonotone(e1, e2, cfg.minimum, inc);
      GrowMonotone(cfg.minimum as real, inc, Steps(e1, cfg.minimum, inc), Steps(e2, cfg.minimum, inc));
    }
  }

  // ---------------------------------------------------------------------
  // What the interval is
  // ---------------------------------------------------------------------

  /** Floored divisions of `elapsed` by the increase, down to the first that is at most `minimum`. */
  ghost predicate Divisions(xs: seq<int>, elapsed: int, minimum: int, increase: real)
    requires 1.0 < increase
  {
    && |xs| > 0 && xs[0] == elapsed && xs[|xs| - 1] <= minimum
    && (forall i :: 0 <= i < |xs| - 1 ==> minimum < xs[i])
    && (forall i, j :: 0 <= i && j == i + 1 && j < |xs| ==> xs[j] == (xs[i] as real / increase).Floor)
  }

  /** Repeated multiplications of `minimum` by the increase. */
  ghost predicate Multiplications(ys: seq<real>, minimum: int, increase: real) {
    && |ys| > 0 && ys[0] == minimum as real
    && (forall i, j :: 0 <= i && j == i + 1 && j < |ys| ==> ys[j] == increase * ys[i])
  }

  /** The minimum is multiplied as often as the elapsed time is divided; the result is cut off and clamped. */
  ghost predicate GrownTo(elapsed: int, minimum: int, maximum: int, increase: real, interval: int)
    requires 1.0 < increase
  {
    exists xs: seq<int>, ys: seq<real> ::
      && Divisions(xs, elapsed, minimum, increase) && Multiplications(ys, minimum, increase) && |xs| == |ys|
      && interval == if ys[|ys| - 1].Floor >= maximum then maximum else ys[|ys| - 1].Floor
  }

  /** The interval that is asked for `elapsed` seconds after the latest transition. */
  ghost predicate Chosen(elapsed: int, maximum: int, cfg: Config, interval: int)
    requires cfg.Valid()
  {
    if elapsed >= maximum then interval == maximum
    else if elapsed < cfg.minimum || cfg.percentage == 0 then interval == cfg.minimum
    else GrownTo(elapsed, cfg.minimum, maximum, 1.0 + cfg.percentage as real / 100.0, interval)
  }

  lemma {:induction false} DivisionsOf(x: int, minimum: int, increase: real) returns (xs: seq<int>)
    requires 1 <= minimum && 1.0 < increase
    ensures Divisions(xs, x, minimum, increase) && |xs| == Steps(x, minimum, increase) + 1
    decreases if x <= minimum then 0 else x
  {
    hide Scaled;
    if x <= minimum {
      xs := [x];
    } else {
      ReduceFalls(x, increase);
      var rest := DivisionsOf(Reduce(x, increase), minimum, increase);
      xs := [x] + rest;
    }
  }

  /** There is only one way to divide, and its length is the exponent. */
  lemma {:induction false} DivisionsCount(xs: seq<int>, x: int, minimum: int, increase: real)
    requires 1 <= minimum && 1.0 < increase && Divisions(xs, x, minimum, increase)
    ensures |xs| == Steps(x, minimum, increase) + 1
    decreases |xs|
  {
    hide Scaled;
    if x > minimum {
      var rest := xs[1..];
      var j := 1;
      assert xs[j] == (xs[0] as real / increase).Floor;
      forall i, j | 0 <= i && j == i + 1 && j < |rest|
        ensures rest[j] == (rest[i] as real / increase).Floor
      {
        assert rest[i] == xs[i + 1] && rest[j] == xs[j + 1];
      }
      DivisionsCount(rest, Reduce(x, increase), minimum, increase);
    }
  }

  lemma {:induction false} MultiplicationsOf(minimum: int, increase: real, k: nat) returns (ys: seq<real>)
    ensures Multiplications(ys, minimum, increase) && |ys| == k + 1
  {
    if k == 0 {
      ys := [minimum as real];
    } else {
      var init := MultiplicationsOf(minimum, increase, k - 1);
      ys := init + [increase * init[k - 1]];
    }
  }

  lemma {:induction false} MultiplicationsGrow(ys: seq<real>, minimum: int, increase: real)
    requires Multiplications(ys, minimum, increase)
    ensures ys[|ys| - 1] == Grow(minimum as real, increase, |ys| - 1)
  {
    if |ys| > 1 {
      var init := ys[..|ys| - 1];
      var i, j := |ys| - 2, |ys| - 1;
      assert ys[j] == increase * ys[i];
      MultiplicationsGrow(init, minimum, increase);
    }
  }

  /** The specified interval is the one and only that is chosen. */
  lemma ChosenExactly(elapsed: int, maximum: int, cfg: Config, interval: int)
    requires cfg.Valid()
    ensures Chosen(elapsed, maximum, cfg, interval) <==> interval == IntervalFor(elapsed, maximum, cfg)
  {
    hide Divisions, Multiplications, Grow, Steps, Scaled;
    if cfg.minimum <= elapsed < maximum && cfg.percentage != 0 {
      var increase := 1.0 + cfg.percentage as real / 100.0;
      var xs := DivisionsOf(elapsed, cfg.minimum, increase);
      var ys := MultiplicationsOf(cfg.minimum, increase, |xs| - 1);
      MultiplicationsGrow(ys, cfg.minimum, increase);
      forall xs: seq<int>, ys: seq<real> |
        Divisions(xs, elapsed, cfg.minimum, increase) && Multiplications(ys, cfg.minimum, increase) && |xs| == |ys|
        ensures |ys| > 0 && ys[|ys| - 1] == Grow(cfg.minimum as real, increase, Steps(elapsed, cfg.minimum, increase))
      {
        DivisionsCount(xs, elapsed, cfg.minimum, increase);
        MultiplicationsGrow(ys, cfg.minimum, increase);
      }
    }
  }

  /**
   Below its maximum the interval keeps up with the elapsed time: up to the slack that the
   floors cost, it is no smaller a multiple of the minimum.
   */
  lemma IntervalKeepsUp(elapsed: int, success: bool, cfg: Config, slack: real)
    requires cfg.Valid() && 0 < cfg.percentage && cfg.minimum <= elapsed
    requires 0.0 <= slack && slack * (cfg.percentage as real / 100.0) == 1.0 + cfg.percentage as real / 100.0
    ensures var r, minimum := IntervalFor(elapsed, cfg.Maximum(success), cfg), cfg.minimum as real;
            r == cfg.Maximum(success) || (elapsed as real + slack) * minimum < (minimum + slack) * (r as real + 1.0)
  {
    hide Grown, Scaled;
    assert cfg.Increase() * slack == slack + cfg.Increase();
    GrownKeepsUp(elapsed, cfg.minimum, cfg.Increase(), slack);
  }

  lemma GrownKeepsUp(elapsed: int, minimum: int, increase: real, slack: real)
    requires 1 <= minimum && 1.0 < increase && 0.0 <= slack && increase * slack == slack + increase
    ensures (elapsed as real + slack) * minimum as real
          < (minimum as real + slack) * (Grown(elapsed, minimum, increase) as real + 1.0)
  {
    hide Steps, Grow, Power, Scaled;
    var k := Steps(elapsed, minimum, increase);
    ScaledIs(increase, slack);
    StepsFromAbove(elapsed, minimum, increase, slack);
    GrowIsPower(minimum as real + slack, increase, k);
    GrowIsPower(minimum as real, increase, k);
    KeepsUp(elapsed as real + slack, minimum as real, minimum as real + slack, Power(increase, k),
            Grown(elapsed, minimum, increase) as real);
  }

  lemma ScaledIs(factor: real, x: real)
    ensures Scaled(factor, x) == factor * x
  {
  }

  lemma KeepsUp(e: real, minimum: real, start: real, power: real, r: real)
    requires 0.0 < minimum && 0.0 < start && e <= start * power && minimum * power < r + 1.0
    ensures e * minimum < start * (r + 1.0)
  {
    ScaledMonotone(minimum, e, start * power);
    ScaledMonotone(start, minimum * power, r + 1.0);
    assert minimum * (start * power) == start * (minimum * power);
  }

  /**
   A run of passes without a transition: each pass sees at least the delay that
   the previous pass asked for added to the time since the latest transition.  The
   first pass may still ask for the minimum.
   */
  ghost predicate BackoffRun(elapsed: seq<int>, delays: seq<int>, maximum: int, cfg: Config)
    requires cfg.Valid()
  {
    && |elapsed| == |delays|
    && (forall i :: 0 <= i < |elapsed| ==> 0 <= elapsed[i])
    && (forall i :: 0 <= i < |elapsed| ==>
          delays[i] == IntervalFor(elapsed[i], maximum, cfg) || (i == 0 && delays[i] == cfg.minimum))
    && (forall i, j :: 0 <= i && j == i + 1 && j < |elapsed| ==> elapsed[i] + delays[i] <= elapsed[j])
  }

  lemma {:induction false} ElapsedGrows(elapsed: seq<int>, delays: seq<int>, success: bool, cfg: Config, i: nat, j: nat)
    requires cfg.Valid() && BackoffRun(elapsed, delays, cfg.Maximum(success), cfg)
    requires i <= j < |elapsed|
    ensures elapsed[i] <= elapsed[j]
    ensures j * cfg.minimum <= elapsed[j]
  {
    hide IntervalFor, Scaled;
    if i < j {
      ElapsedGrows(elapsed, delays, success, cfg, i, j - 1);
      IntervalBounds(elapsed[j - 1], success, cfg);
      assert elapsed[j - 1] + delays[j - 1] <= elapsed[j];
      assert j * cfg.minimum == (j - 1) * cfg.minimum + cfg.minimum;
    } else if 0 < j {
      ElapsedGrows(elapsed, delays, success, cfg, j - 1, j);
    }
  }

  /**
   Convergence: the delays never decrease, they reach the maximum within
   ceil(maximum / minimum) passes after the first, and they stay there.
   */
  lemma BackoffConverges(elapsed: seq<int>, delays: seq<int>, success: bool, cfg: Config)
    requires cfg.Valid() && BackoffRun(elapsed, delays, cfg.Maximum(success), cfg)
    ensures forall i, j :: 0 <= i <= j < |delays| ==> delays[i] <= delays[j]
    ensures forall i :: (cfg.Maximum(success) + cfg.minimum - 1) / cfg.minimum <= i < |delays|
                    ==> delays[i] == cfg.Maximum(success)
  {
    hide IntervalFor, Scaled;
    var maximum := cfg.Maximum(success);
    forall i, j | 0 <= i <= j < |delays|
      ensures delays[i] <= delays[j]
    {
      ElapsedGrows(elapsed, delays, success, cfg, i, j);
      IntervalMonotone(elapsed[i], elapsed[j], success, cfg);
      IntervalBounds(elapsed[j], success, cfg);
      IntervalBounds(elapsed[i], success, cfg);
    }
    forall i | (maximum + cfg.minimum - 1) / cfg.minimum <= i < |delays|
      ensures delays[i] == maximum
    {
      CeilingReaches(maximum, cfg.minimum, i);
      ElapsedGrows(elapsed, delays, success, cfg, i, i);
      LongUnchangedGivesMaximum(elapsed[i], maximum, cfg);
    }
  }

  lemma LongUnchangedGivesMaximum(elapsed: int, maximum: int, cfg: Config)
    requires cfg.Valid() && maximum <= elapsed
    ensures IntervalFor(elapsed, maximum, cfg) == maximum
  {
  }

  lemma CeilingReaches(maximum: int, minimum: int, i: int)
    requires 1 <= minimum <= maximum
    requires (maximum + minimum - 1) / minimum <= i
    ensures 0 < i && maximum <= i * minimum
  {
    var c := (maximum + minimum - 1) / minimum;
    assert c * minimum + (maximum + minimum - 1) % minimum == maximum + minimum - 1;
    assert c * minimum <= i * minimum;
    assert minimum <= maximum + minimum - 1;
  }

  // ---------------------------------------------------------------------
  // The code
  // ---------------------------------------------------------------------

  /** The conversion to int32 that precedes the clamp is exact. */
  lemma GrownFitsInt32(elapsed: int, maxSeconds: int, cfg: Config)
    requires cfg.Valid() && cfg.ValidMaximum(maxSeconds) && 0 < cfg.percentage
    requires cfg.minimum <= elapsed <= maxSeconds
    ensures 1 <= Grown(elapsed, cfg.minimum, cfg.Increase()) < INT32_LIMIT
  {
    hide Steps, Grow, Scaled;
    GrownBounds(elapsed, cfg.minimum, cfg.Increase());
    ScaledMonotone(cfg.Increase(), elapsed as real, maxSeconds as real);
  }

  lemma MaximumFitsInt32(maxSeconds: int, cfg: Config)
    requires cfg.Valid() && cfg.ValidMaximum(maxSeconds)
    ensures 1 <= maxSeconds < INT32_LIMIT
  {
    hide Scaled;
    ScaledEnlarges(cfg.Increase(), maxSeconds as real);
  }

  /** The branches and the exponent loop of updateReconcileInterval. */
  method ComputeInterval(elapsed: int, maxSeconds: int, cfg: Config) returns (newInterval: int)
    requires cfg.Valid() && cfg.ValidMaximum(maxSeconds)
    ensures newInterval == IntervalFor(elapsed, maxSeconds, cfg)
    ensures Chosen(elapsed, maxSeconds, cfg, newInterval)
    ensures cfg.minimum <= newInterval <= maxSeconds && newInterval < 0x8000_0000
  {
    hide Reduce, Grow, Power, Scaled, Chosen;
    MaximumFitsInt32(maxSeconds, cfg);
    var minInterval := cfg.minimum as real;
    var increase := 1.0 + cfg.percentage as real / 100.0;
    newInterval := cfg.minimum;
    if elapsed >= maxSeconds {
      newInterval := maxSeconds;
    } else if elapsed as real >= minInterval {
      var increasedInterval := elapsed;
      var exponent := 0;
      if increase > 1.0 {
        while increasedInterval as real > minInterval
          invariant 0 <= exponent
          invariant exponent + Steps(increasedInterval, cfg.minimum, increase)
                 == Steps(elapsed, cfg.minimum, increase)
          decreases increasedInterval
        {
          ReduceFalls(increasedInterval, increase);
          increasedInterval := Reduce(increasedInterval, increase);
          exponent := exponent + 1;
        }
        GrowIsPower(minInterval, increase, exponent);
        GrownFitsInt32(elapsed, maxSeconds, cfg);
        newInterval := (minInterval * Power(increase, exponent)).Floor;
        if newInterval >= maxSeconds {
          newInterval := maxSeconds;
        }
      } else {
        newInterval := cfg.minimum;
      }
    }
    ChosenExactly(elapsed, maxSeconds, cfg, newInterval);
    SpecifiedInRange(elapsed, maxSeconds, cfg);
  }

  lemma SpecifiedInRange(elapsed: int, maximum: int, cfg: Config)
    requires cfg.Valid() && cfg.ValidMaximum(maximum)
    ensures cfg.minimum <= IntervalFor(elapsed, maximum, cfg) <= maximum
  {
    hide Steps, Grow, Scaled;
    if cfg.minimum <= elapsed && cfg.percentage > 0 {
      GrownBounds(elapsed, cfg.minimum, cfg.Increase());
    }
  }
}
