/** The emission corridor and the budget of one period. Supplies and budgets are integers in
    units of 10^-8; rates are exact reals. */
module EmissionBudget {
  import opened Common

  const SECONDS_PER_YEAR: nat := 365 * 86_400

  datatype EmissionParams = EmissionParams(
    targetPct: real,
    ceilingPct: real,
    floorPct: real,
    epochDurationSec: nat)

  /** Rounding to the nearest integer, ties to even. */
  function RoundHalfEven(x: real): int {
    var lo := x.Floor;
    var frac := x - lo as real;
    if frac < 0.5 then lo
    else if frac > 0.5 then lo + 1
    else if lo % 2 == 0 then lo else lo + 1
  }

  lemma {:induction false} RoundingNear(x: real)
    ensures x - 0.5 <= RoundHalfEven(x) as real <= x + 0.5
  {}

  /** Ties go to the even neighbour. */
  lemma {:induction false} RoundingTies(n: int)
    ensures RoundHalfEven(2.0 * n as real + 0.5) == 2 * n && RoundHalfEven(2.0 * n as real - 0.5) == 2 * n
  {
    assert 2.0 * n as real == (2 * n) as real;
  }

  lemma {:induction false} RoundingMonotone(x: real, y: real)
    requires x <= y
    ensures RoundHalfEven(x) <= RoundHalfEven(y)
  {}

  lemma {:induction false} RoundingExact(n: int)
    ensures RoundHalfEven(n as real) == n
  {}

  /** The target clamped to the corridor; a corridor given upside down is put in order. */
  function EffectiveRatePct(targetPct: real, ceilingPct: real, floorPct: real): real {
    var lo := MaxReal(MinReal(floorPct, ceilingPct), 0.0);
    var hi := MaxReal(MaxReal(ceilingPct, floorPct), 0.0);
    if targetPct < lo then lo else if targetPct > hi then hi else targetPct
  }

  function FracYear(epochDurationSec: nat): (f: real)
    ensures f >= 0.0
  {
    epochDurationSec as real / SECONDS_PER_YEAR as real
  }

  /** Part of the supply one period emits at a yearly rate in percent. */
  function PeriodShare(ratePct: real, epochDurationSec: nat): real {
    ratePct / 100.0 * FracYear(epochDurationSec)
  }

  function RoundedProduct(supply: real, rate: real, fracYear: real): int {
    RoundHalfEven(supply * rate * fracYear)
  }

  function ComputeEpochBudget(supplyRef: int, p: EmissionParams): int {
    if p.epochDurationSec == 0 then 0
    else
      RoundedProduct(Max(supplyRef, 0) as real,
                     EffectiveRatePct(p.targetPct, p.ceilingPct, p.floorPct) / 100.0,
                     FracYear(p.epochDurationSec))
  }

  /** The hard limit on one period's share: the larger corridor bound, never the target. */
  function MaxShare(p: EmissionParams): real {
    PeriodShare(MaxReal(MaxReal(p.ceilingPct, p.floorPct), 0.0), p.epochDurationSec)
  }

  lemma {:induction false} EffectiveInCorridor(t: real, c: real, f: real)
    ensures 0.0 <= EffectiveRatePct(t, c, f) <= MaxReal(MaxReal(c, f), 0.0)
    ensures 0.0 <= f <= t <= c ==> EffectiveRatePct(t, c, f) == t
    ensures f <= c && 0.0 <= c ==> MaxReal(f, 0.0) <= EffectiveRatePct(t, c, f) <= c
  {}

  /** A target outside the corridor gets its nearer end, whichever way round the corridor is given. */
  lemma {:induction false} EffectiveClamps(t: real, c: real, f: real)
    requires 0.0 <= f <= c
    ensures EffectiveRatePct(t, c, f) == EffectiveRatePct(t, f, c)
    ensures EffectiveRatePct(t, c, f) == if t < f then f else if t > c then c else t
  {}

  /** The budget is the unit nearest to supply times yearly rate times the part of a year of 365 days. */
  lemma {:induction false} BudgetNearest(supplyRef: int, p: EmissionParams)
    ensures var exact := Max(supplyRef, 0) as real * EffectiveRatePct(p.targetPct, p.ceilingPct, p.floorPct)
                         * p.epochDurationSec as real / 3_153_600_000.0;
            exact - 0.5 <= ComputeEpochBudget(supplyRef, p) as real <= exact + 0.5
  {
    hide EffectiveRatePct, RoundedProduct;
    var s, eff, sec := Max(supplyRef, 0) as real, EffectiveRatePct(p.targetPct, p.ceilingPct, p.floorPct), p.epochDurationSec as real;
    ProductNearest(s, eff, sec);
    if p.epochDurationSec == 0 { ProductOfNone(s, eff, sec); }
  }

  lemma {:induction false} ProductNearest(s: real, eff: real, sec: real)
    ensures var exact := s * eff * sec / 3_153_600_000.0;
            exact - 0.5 <= RoundedProduct(s, eff / 100.0, sec / SECONDS_PER_YEAR as real) as real <= exact + 0.5
  {
    assert SECONDS_PER_YEAR as real == 31_536_000.0;
    assert s * (eff / 100.0) * (sec / 31_536_000.0) == s * eff * sec / 3_153_600_000.0;
    RoundingNear(s * (eff / 100.0) * (sec / 31_536_000.0));
  }

  lemma {:induction false} ProductOfNone(s: real, eff: real, sec: real)
    requires sec == 0.0
    ensures s * eff * sec / 3_153_600_000.0 == 0.0
  {}

  lemma {:induction false} MulMonotone(a: real, b: real, k: real)
    requires a <= b && 0.0 <= k
    ensures a * k <= b * k
  {}

  lemma {:induction false} RoundedProductBound(s: real, rate: real, top: real, frac: real)
    requires 0.0 <= s && 0.0 <= rate <= top && 0.0 <= frac
    ensures 0 <= RoundedProduct(s, rate, frac)
    ensures RoundedProduct(s, rate, frac) as real <= s * (top * frac) + 0.5
  {}

  /** Whatever the target, a period's budget is at most the corridor's share of the supply, up
      to half a unit, and never negative. */
  lemma {:induction false} BudgetBound(supplyRef: int, p: EmissionParams)
    ensures 0 <= ComputeEpochBudget(supplyRef, p)
    ensures ComputeEpochBudget(supplyRef, p) as real <= Max(supplyRef, 0) as real * MaxShare(p) + 0.5
  {
    var eff := EffectiveRatePct(p.targetPct, p.ceilingPct, p.floorPct);
    EffectiveInCorridor(p.targetPct, p.ceilingPct, p.floorPct);
    var top := MaxReal(MaxReal(p.ceilingPct, p.floorPct), 0.0);
    if p.epochDurationSec == 0 {
      ZeroPeriod(Max(supplyRef, 0) as real, top / 100.0);
    } else {
      RoundedProductBound(Max(supplyRef, 0) as real, eff / 100.0, top / 100.0, FracYear(p.epochDurationSec));
    }
  }

  lemma {:induction false} ZeroPeriod(s: real, t: real)
    ensures FracYear(0) == 0.0 && s * (t * FracYear(0)) == 0.0
  {}

  lemma {:induction false} MaxShareNonNegative(p: EmissionParams)
    ensures MaxShare(p) >= 0.0
  {}
}
