// The hue mapper `rgbLedColor`: turns a reading that the caller has scaled by 100
// into red, green and blue PWM duty fractions that walk a six-sector colour wheel.
// Duties are exact reals: the cycle position is an integer and the sector width a
// constant, so each duty is an exact fraction with denominator 167.

module RgbLed {
  import opened CppCast

  /** Width of one hue sector, in cycle-position units. */
  const Step: int := 167

  /** `firstPwmStep`: the sector width as the `double` the formulas use. */
  const FirstPwmStep: real := Step as real

  /** Last cycle position of the sixth sector: six sector widths. */
  const WheelEnd: int := 6 * Step

  /** `RgbChannel`: the PWM channel that drives each colour of the LED. */
  datatype RgbChannel = Blue | Green | Red {
    /** The enumerator's value, which is the PWM channel number. */
    function Index(): (i: nat)
      ensures i < 3
      ensures i == 0 <==> Blue?
      ensures i == 2 <==> Red?
    {
      match this
      case Blue => 0
      case Green => 1
      case Red => 2
    }
  }

  /** Duty fractions of the three colours. */
  datatype Duty = Duty(red: real, green: real, blue: real)

  /** The duty a triple assigns to channel `ch`. */
  function ChannelDuty(d: Duty, ch: RgbChannel): real
  {
    match ch
    case Red => d.red
    case Green => d.green
    case Blue => d.blue
  }

  /** Every duty lies in the closed unit interval. */
  predicate InUnitRange(d: Duty)
  {
    0.0 <= d.red <= 1.0 && 0.0 <= d.green <= 1.0 && 0.0 <= d.blue <= 1.0
  }

  /** `(int) adcVal * 10`: the cast binds tighter than the product, so the reading is
      truncated first. The position is the largest multiple of 10 not above ten times
      the reading. */
  function CyclePosition(adcVal: real): (x: int)
    requires 0.0 <= adcVal
    ensures 0 <= x && x % 10 == 0
    ensures x as real <= 10.0 * adcVal < x as real + 10.0
  {
    Trunc(adcVal) * 10
  }

  /** Readings with the same integer part land on the same cycle position. */
  lemma CyclePositionIgnoresFraction(v1: real, v2: real)
    requires 0.0 <= v1 && 0.0 <= v2
    ensures CyclePosition(v1) == CyclePosition(v2) <==> Trunc(v1) == Trunc(v2)
  {
  }

  /** The branch of the if/else chain taken for cycle position `x`, numbered 0 to 5,
      with the guards as written (each upper bound inclusive). */
  function Sector(x: int): (k: nat)
    ensures k < 6
  {
    var xr := x as real;
    if xr <= FirstPwmStep then 0
    else if xr > FirstPwmStep && xr <= FirstPwmStep * 2.0 then 1
    else if xr > FirstPwmStep * 2.0 && xr <= FirstPwmStep * 3.0 then 2
    else if xr > FirstPwmStep * 3.0 && xr <= FirstPwmStep * 4.0 then 3
    else if xr > FirstPwmStep * 4.0 && xr <= FirstPwmStep * 5.0 then 4
    else 5
  }

  /** The channel branch `k` holds fully on. */
  function FullChannel(k: nat): RgbChannel
    requires k < 6
  {
    if k == 0 || k == 5 then Red else if k <= 2 then Green else Blue
  }

  /** The channel branch `k` holds off. */
  function OffChannel(k: nat): RgbChannel
    requires k < 6
  {
    if k <= 1 then Blue else if k <= 3 then Red else Green
  }

  /** The channel branch `k` ramps: green, red, blue, then again green, red, blue. */
  function RampChannel(k: nat): RgbChannel
    requires k < 6
  {
    if k % 3 == 0 then Green else if k % 3 == 1 then Red else Blue
  }

  /** In every branch the full, off and ramping channels are the three distinct channels. */
  lemma SectorChannelsDistinct(k: nat)
    requires k < 6
    ensures FullChannel(k) != OffChannel(k) && FullChannel(k) != RampChannel(k)
    ensures OffChannel(k) != RampChannel(k)
  {
  }

  /** The duty formulas of branch `k`, evaluated at cycle position `x`. With the hue
      `h = x / 167` in sector units, one channel is at 1, one at 0, and the third
      rises as `h - k` in even branches and falls as `k + 1 - h` in odd ones. */
  function SectorDuty(k: nat, x: int): (d: Duty)
    requires k < 6
    ensures ChannelDuty(d, FullChannel(k)) == 1.0
    ensures ChannelDuty(d, OffChannel(k)) == 0.0
    ensures ChannelDuty(d, RampChannel(k))
              == if k % 2 == 0 then x as real / FirstPwmStep - k as real
                 else (k + 1) as real - x as real / FirstPwmStep
  {
    var xr := x as real;
    match k
    case 0 => Duty(1.0, 1.0 - (FirstPwmStep - xr) / FirstPwmStep, 0.0)
    case 1 => Duty((FirstPwmStep * 2.0 - xr) / (FirstPwmStep * 1.0), 1.0, 0.0)
    case 2 => Duty(0.0, 1.0, 1.0 - (FirstPwmStep * 3.0 - xr) / FirstPwmStep)
    case 3 => Duty(0.0, (FirstPwmStep * 4.0 - xr) / FirstPwmStep, 1.0)
    case 4 => Duty(1.0 - (FirstPwmStep * 5.0 - xr) / FirstPwmStep, 0.0, 1.0)
    case _ => Duty(1.0, 0.0, (FirstPwmStep * 6.0 - xr) / FirstPwmStep)
  }

  /** The duty triple the if/else chain computes for cycle position `x`: the
      formulas of the sector that `x` lies in. */
  function HueDuty(x: int): (d: Duty)
    ensures forall k: nat :: k < 6 && InSector(k, x) ==> d == SectorDuty(k, x)
  {
    SectorDuty(Sector(x), x)
  }

  /** The duty triple `rgbLedColor` computes for reading `adcVal`: the hue at the
      multiple of 10 that brackets ten times the reading. */
  function RgbDuty(adcVal: real): (d: Duty)
    requires 0.0 <= adcVal
    ensures forall x :: x % 10 == 0 && x as real <= 10.0 * adcVal < x as real + 10.0 ==> d == HueDuty(x)
  {
    CyclePositionUnique(adcVal);
    HueDuty(CyclePosition(adcVal))
  }

  /** Only one multiple of 10 brackets ten times a reading. */
  lemma CyclePositionUnique(adcVal: real)
    requires 0.0 <= adcVal
    ensures forall x :: x % 10 == 0 && x as real <= 10.0 * adcVal < x as real + 10.0 ==> x == CyclePosition(adcVal)
  {
    var c := CyclePosition(adcVal);
    forall x | x % 10 == 0 && x as real <= 10.0 * adcVal < x as real + 10.0
      ensures x == c
    {
      assert x - 10 < c < x + 10;
      assert x == 10 * (x / 10) && c == 10 * (c / 10);
    }
  }

  /** Sector `k` as an interval of integer cycle positions: (167k, 167(k+1)],
      open below for the first sector and open above for the last. */
  predicate InSector(k: nat, x: int)
  {
    (k == 0 || k * Step < x) && (k == 5 || x <= (k + 1) * Step)
  }

  /** The chain takes branch `k` exactly when `x` lies in sector `k`: the branches
      split the positions at 167, 334, 501, 668 and 835. */
  lemma SectorPartition(x: int, k: nat)
    requires k < 6
    ensures Sector(x) == k <==> InSector(k, x)
  {
  }

  /** No position lies in two sectors, and every position lies in one. */
  lemma SectorsDisjointAndCovering(x: int, j: nat, k: nat)
    requires j < 6 && k < 6
    ensures InSector(j, x) && InSector(k, x) ==> j == k
    ensures InSector(Sector(x), x)
  {
    SectorPartition(x, Sector(x));
  }

  /** At each inner boundary 167k the lower branch is taken, and its formulas agree
      with the upper branch's formulas there: the duties do not jump. */
  lemma SectorBoundariesAgree(k: nat)
    requires 1 <= k <= 5
    ensures Sector(k * Step) == k - 1
    ensures SectorDuty(k - 1, k * Step) == SectorDuty(k, k * Step)
  {
  }

  /** Magnitude of a real. */
  function Abs(r: real): (m: real)
    ensures 0.0 <= m && (m == r || m == -r)
  {
    if r < 0.0 then -r else r
  }

  /** `r` limited to the closed unit interval. */
  function Clamp01(r: real): (c: real)
    ensures 0.0 <= c <= 1.0
    ensures 0.0 <= r <= 1.0 ==> c == r
  {
    if r < 0.0 then 0.0 else if r > 1.0 then 1.0 else r
  }

  /** Reference definition: the fully saturated hue wheel with hue `x / 167` in
      sector units, each channel a clamped tent. */
  function HsvWheel(x: int): (d: Duty)
    ensures InUnitRange(d)
  {
    var h := x as real / FirstPwmStep;
    Duty(Clamp01(Abs(h - 3.0) - 1.0), Clamp01(2.0 - Abs(h - 2.0)), Clamp01(2.0 - Abs(h - 4.0)))
  }

  /** On one turn of the wheel, [0, 6 * 167], the if/else chain is the hue wheel. */
  lemma HueDutyIsHsvWheel(x: int)
    requires 0 <= x <= WheelEnd
    ensures HueDuty(x) == HsvWheel(x)
  {
    SectorPartition(x, Sector(x));
  }

  /** On one turn of the wheel every duty lies in [0, 1]. */
  lemma HueDutyInRange(x: int)
    requires 0 <= x <= WheelEnd
    ensures InUnitRange(HueDuty(x))
  {
    HueDutyIsHsvWheel(x);
  }

  /** Past the wheel the last branch keeps red on, green off, and drives blue below
      zero, because its formula is not clamped. */
  lemma HueDutyPastWheel(x: int)
    requires x > WheelEnd
    ensures HueDuty(x).red == 1.0 && HueDuty(x).green == 0.0
    ensures HueDuty(x).blue < 0.0
    ensures HueDuty(x) != HsvWheel(x)
  {
  }

  /** Moving one position along the wheel changes no duty by more than one step, 1/167. */
  lemma HueDutyNoJump(x: int)
    requires 0 <= x && x + 1 <= WheelEnd
    ensures Abs(HueDuty(x + 1).red - HueDuty(x).red) <= 1.0 / FirstPwmStep
    ensures Abs(HueDuty(x + 1).green - HueDuty(x).green) <= 1.0 / FirstPwmStep
    ensures Abs(HueDuty(x + 1).blue - HueDuty(x).blue) <= 1.0 / FirstPwmStep
  {
    HueDutyIsHsvWheel(x);
    HueDutyIsHsvWheel(x + 1);
    HsvWheelNoJump(x);
  }

  /** The hue wheel's tents change by at most one step per position. */
  lemma HsvWheelNoJump(x: int)
    ensures Abs(HsvWheel(x + 1).red - HsvWheel(x).red) <= 1.0 / FirstPwmStep
    ensures Abs(HsvWheel(x + 1).green - HsvWheel(x).green) <= 1.0 / FirstPwmStep
    ensures Abs(HsvWheel(x + 1).blue - HsvWheel(x).blue) <= 1.0 / FirstPwmStep
  {
    var h, h' := x as real / FirstPwmStep, (x + 1) as real / FirstPwmStep;
    assert h' - h == 1.0 / FirstPwmStep;
    TentStep(h, h', 3.0);
    ClampStep(Abs(h' - 3.0) - 1.0, Abs(h - 3.0) - 1.0);
    TentStep(h, h', 2.0);
    ClampStep(2.0 - Abs(h' - 2.0), 2.0 - Abs(h - 2.0));
    TentStep(h, h', 4.0);
    ClampStep(2.0 - Abs(h' - 4.0), 2.0 - Abs(h - 4.0));
  }

  /** Distance to a centre `c` moves no more than the point does. */
  lemma TentStep(h: real, h': real, c: real)
    requires h <= h'
    ensures Abs(Abs(h' - c) - Abs(h - c)) <= h' - h
  {
  }

  /** Clamping to [0, 1] moves two values no further apart. */
  lemma ClampStep(a: real, b: real)
    ensures Abs(Clamp01(a) - Clamp01(b)) <= Abs(a - b)
  {
  }

  /** Two readings with the same integer part give the same duties. */
  lemma RgbDutyIgnoresFraction(v1: real, v2: real)
    requires 0.0 <= v1 && 0.0 <= v2 && Trunc(v1) == Trunc(v2)
    ensures RgbDuty(v1) == RgbDuty(v2)
  {
  }

  /** The duties of a reading all lie in [0, 1] exactly when the reading is below 101. */
  lemma RgbDutyInRangeIff(adcVal: real)
    requires 0.0 <= adcVal
    ensures InUnitRange(RgbDuty(adcVal)) <==> adcVal < 101.0
  {
    var x := CyclePosition(adcVal);
    if adcVal < 101.0 {
      assert x <= 1000;
      HueDutyInRange(x);
    } else {
      assert x >= 1010;
      HueDutyPastWheel(x);
    }
  }

  /** The PWM driver: one duty register per channel. `sets` records the channels
      written, in order. */
  class PwmCore {
    const duty: array<real>
    ghost var sets: seq<RgbChannel>

    ghost predicate Valid()
      reads this
    {
      duty.Length == 3
    }

    constructor ()
      ensures Valid() && fresh(duty) && sets == []
    {
      duty := new real[3];
      sets := [];
    }

    /** `set_duty`: load fraction `f` into the register of channel `ch`. */
    method SetDuty(f: real, ch: RgbChannel)
      requires Valid()
      modifies this, duty
      ensures Valid()
      ensures duty[..] == old(duty[..])[ch.Index() := f]
      ensures sets == old(sets) + [ch]
    {
      duty[ch.Index()] := f;
      sets := sets + [ch];
    }
  }

  /** `rgbLedColor`: each colour's channel receives that colour's duty, and the
      channels are set once each, red first and blue last. */
  method RgbLedColor(pwm: PwmCore, adcVal: real)
    requires pwm.Valid() && 0.0 <= adcVal
    modifies pwm, pwm.duty
    ensures pwm.Valid()
    ensures forall ch: RgbChannel :: pwm.duty[ch.Index()] == ChannelDuty(RgbDuty(adcVal), ch)
    ensures pwm.sets == old(pwm.sets) + [Red, Green, Blue]
  {
    var d := RgbDuty(adcVal);
    pwm.SetDuty(d.red, Red);
    pwm.SetDuty(d.green, Green);
    pwm.SetDuty(d.blue, Blue);
  }

  /** Sample readings 0, 16.7, 50 and 99.9. */
  lemma RgbDutyExamples()
    ensures RgbDuty(0.0) == Duty(1.0, 0.0, 0.0)
    ensures RgbDuty(16.7) == Duty(1.0, 160.0 / 167.0, 0.0)
    ensures RgbDuty(50.0) == Duty(0.0, 1.0, 166.0 / 167.0)
    ensures RgbDuty(99.9) == Duty(1.0, 0.0, 12.0 / 167.0)
  {
    TruncUnique(16.7, 16);
    TruncUnique(99.9, 99);
  }
}
