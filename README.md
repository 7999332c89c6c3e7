# Rainbow night light: display and colour mapping

A verified Dafny model of the two mapping routines of the Rainbow-Night-Light
firmware (`main.cpp`). Each sample of the analog input is scaled by 100 and
drives two outputs:

- `adcVoltageToSseg` formats the reading on an eight-position seven-segment
  display. It blanks positions 7 to 3 and shows a "0" with the decimal point
  on position 2. It then shows the glyph of `(int)(v / 10.0)` on position 1 and
  the glyph of `((int) v) % 10` on position 0. For readings below 100 these are
  the tens and ones digits of the truncated reading, so the display reads
  `0.<tens><ones>`: the input voltage truncated to two decimals. From 100 on,
  position 1 receives a value above 9.
- `rgbLedColor` turns the reading into a cycle position `x = (int) v * 10`.
  It picks one of six sectors of width 167, with each upper bound inclusive.
  It computes red, green and blue PWM duty fractions: in each sector one
  channel is held at 1, one at 0, and one ramps linearly.

Files:

- `cpp_cast.dfy` (module `CppCast`): the C++ `(int)` conversion of a double,
  which truncates toward zero, and the C++ `%`.
- `sseg_display.dfy` (module `SsegDisplay`): the display driver as a class
  `SsegCore` with an 8-slot pattern array, a decimal-point mask, the glyph
  table `h2s` given at construction, and a ghost log of written positions.
  It also holds the specification function `Formatted`, the method
  `AdcVoltageToSseg`, and lemmas about the digits.
- `rgb_led.dfy` (module `RgbLed`): the channel enum, the duty triple, the
  if/else chain split into `Sector` (which branch is taken) and `SectorDuty`
  (that branch's formulas), and a reference definition `HsvWheel` (the
  standard fully saturated hue wheel). It also holds the PWM driver as a class
  `PwmCore` with a 3-slot duty array, the method `RgbLedColor`, and lemmas.

Duties are exact `real`s. The cycle position is an integer and the step is the
constant 167, so every duty is an exact fraction with denominator 167.

The comment at main.cpp:47 calls the format "x.x". Position 2 always shows
"0." there, so both digits of the reading sit right of the point.

## Model

| member | source | states |
|---|---|---|
| CppCast.Trunc | main.cpp:59 | `(int)` of a non-negative value is the integer part, `n <= r < n + 1`; of a negative value it rounds toward zero |
| CppCast.CppRem | main.cpp:64 | C++ `%` satisfies `a == (a / b) * b + a % b` with the truncating quotient, has the sign of the dividend and magnitude below the divisor; for non-negative operands it is the mathematical remainder |
| SsegDisplay.DpOn | main.cpp:56 | the `set_dp` mask lights the point of position `pos` exactly when bit `pos` of the mask is set |
| SsegDisplay.ThirdSsegDpSelectsPosition2 | main.cpp:9 | the mask `third_sseg_dp = 0x04` lights the decimal point of position 2 and of no other position |
| SsegDisplay.WholeDigit | main.cpp:59 | `(int)(v / 10.0)` is the `d` with `10d <= v < 10d + 10` |
| SsegDisplay.FracDigit | main.cpp:64 | `((int) v) % 10` lies in [0, 9] |
| SsegDisplay.WholeDigitIsTens | main.cpp:59 | the whole digit equals `trunc(v) / 10`, although the source divides the unrounded reading |
| SsegDisplay.DigitsRecompose | main.cpp:58-66 | `10 * whole + frac` gives back the truncated reading |
| SsegDisplay.DigitsInRange | main.cpp:59-66 | the fractional digit is always in [0, 9]; the whole digit is in [0, 9] if and only if the reading is below 100 |
| SsegDisplay.BlankDown | main.cpp:51-52 | the descending blanking loop leaves positions 3 to `top` blank and every other position as it was |
| SsegDisplay.Formatted | main.cpp:51-66 | the final display has eight positions; position 1 holds `h2s(trunc(v) / 10)` and position 0 holds `h2s(trunc(v) % 10)` |
| SsegDisplay.FormattedLayout | main.cpp:51-56 | after formatting, positions 3..7 hold `0xff`, position 2 holds `h2s(0)`, and the decimal point is on position 2 only |
| SsegDisplay.FormattedShowsTruncatedReading | main.cpp:58-66 | for readings below 100, position 1 shows `h2s(trunc(v) / 10)` with a digit in [0, 9] and position 0 shows `h2s(trunc(v) % 10)` |
| SsegDisplay.FormattedExamples | main.cpp:58-66 | readings 0, 50 and 99.9 show digits 0 0, 5 0 and 9 9 |
| SsegDisplay.SsegCore.Write1Ptn | main.cpp:52 | `write_1ptn` replaces the pattern of one position and nothing else |
| SsegDisplay.SsegCore.SetDp | main.cpp:56 | `set_dp` replaces the decimal-point mask and leaves the patterns alone |
| SsegDisplay.AdcVoltageToSseg | main.cpp:44-67 | the display ends in `Formatted(h2s, v)` whatever it held before, and positions are written once each in the order 7, 6, 5, 4, 3, 2, 1, 0 |
| RgbLed.RgbChannel.Index | main.cpp:23 | the channel numbers are blue = 0, green = 1, red = 2 |
| RgbLed.CyclePosition | main.cpp:78 | `(int) v * 10` is the largest multiple of 10 not above `10 v` (truncation before the product) |
| RgbLed.CyclePositionUnique | main.cpp:78 | the cycle position is the only multiple of 10 with `x <= 10 v < x + 10` |
| RgbLed.CyclePositionIgnoresFraction | main.cpp:78 | two readings share a cycle position if and only if they share an integer part |
| RgbLed.Sector | main.cpp:83-118 | the chain takes one of six branches, numbered 0..5 |
| RgbLed.SectorDuty | main.cpp:85-117 | in branch `k` one channel is 1, one is 0, and the third equals `h - k` (even branches, rising) or `k + 1 - h` (odd branches, falling), with `h = x / 167` |
| RgbLed.SectorChannelsDistinct | main.cpp:85-117 | in every branch the full, off and ramping channels are three different channels |
| RgbLed.HueDuty | main.cpp:83-118 | the chain's triple is the formula set of the sector that `x` lies in |
| RgbLed.RgbDuty | main.cpp:78-118 | the reading's triple is the hue at the multiple of 10 that brackets ten times the reading |
| RgbLed.SectorPartition | main.cpp:83-118 | branch `k` is taken if and only if `x` lies in `(167k, 167(k+1)]` (no lower bound for the first branch, no upper bound for the last) |
| RgbLed.SectorsDisjointAndCovering | main.cpp:83-118 | the six sectors are pairwise disjoint and every position lies in the one the chain picks |
| RgbLed.SectorBoundariesAgree | main.cpp:83-118 | at `x = 167k`, k = 1..5, the lower branch is taken and its formulas equal the upper branch's formulas: no jump |
| RgbLed.HueDutyIsHsvWheel | main.cpp:83-118 | for `0 <= x <= 1002` the chain's triple equals the standard hue wheel with clamped tent channels |
| RgbLed.HueDutyInRange | main.cpp:83-118 | for `0 <= x <= 1002` every duty lies in [0, 1] |
| RgbLed.HueDutyPastWheel | main.cpp:113-118 | for `x > 1002` red is 1, green is 0 and blue is negative, so the chain leaves the hue wheel |
| RgbLed.HueDutyNoJump | main.cpp:83-118 | one step of `x` on the wheel changes each duty by at most 1/167 |
| RgbLed.RgbDutyIgnoresFraction | main.cpp:78-118 | readings with the same integer part produce identical duty triples |
| RgbLed.RgbDutyInRangeIff | main.cpp:78-118 | a reading's duties all lie in [0, 1] if and only if the reading is below 101 |
| RgbLed.RgbDutyExamples | main.cpp:78-118 | readings 0, 16.7, 50 and 99.9 give (1, 0, 0), (1, 160/167, 0), (0, 1, 166/167) and (1, 0, 12/167) |
| RgbLed.PwmCore.SetDuty | main.cpp:121-123 | `set_duty` replaces the duty of one channel and nothing else |
| RgbLed.RgbLedColor | main.cpp:69-125 | each colour's channel receives that colour's duty, and the channels are set once each in the order red, green, blue |

## Left out

- The `main` loop, `sleep_ms` and the ADC read with its scaling by 100 (main.cpp:25-42) are hardware timing and I/O. The model only uses the fact that the reading is non-negative, as a precondition.
- The peripheral objects `led`, `sw`, `adc`, `pwm` and `sseg` (main.cpp:13-17) are memory-mapped drivers whose code is not part of this model. `led` and `sw` are unused.
- `SsegCore::h2s` is a library glyph table whose body is not part of this model. It is a function-valued field fixed at construction, so the model says nothing about digits outside 0..9.
- `write_1ptn`, `set_dp` and `set_duty` are modelled by their effect on an 8-slot pattern array, a mask and a 3-slot duty array. The register writes are not modelled.
- SsegDisplay.DpOn: the driver's `set_dp` is not part of this model. The model assumes that bit `pos` of the mask marks position `pos`, which `ThirdSsegDpSelectsPosition2` and `FormattedLayout` rely on.
- IEEE double rounding is not modelled: `v / 10.0` and the duty formulas are exact reals. The cycle position is an integer and the step is 167, so the duties are exact fractions that a double only approximates.
- `CppCast.Trunc` and `RgbLed.CyclePosition` use unbounded integers. The C++ `(int)` conversion of a double outside the `int` range and the overflow of `(int) v * 10` are undefined behaviour that the ADC's scaling by 100 keeps out of reach.
- The initial duty values `1.0` (main.cpp:81) are overwritten on every path and are not modelled.
