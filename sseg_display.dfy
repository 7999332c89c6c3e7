// The digit formatter `adcVoltageToSseg`: renders a reading that the caller has
// scaled by 100 on an eight-position seven-segment display as "0.<tens><ones>".

module SsegDisplay {
  import opened CppCast

  /** Number of digit positions on the display; position 0 is the rightmost. */
  const NumPositions: nat := 8

  /** Segment pattern with every segment off (segments are active low). */
  const Blank: bv8 := 0xff

  /** `third_sseg_dp`: decimal-point mask lighting the point of position 2. */
  const ThirdSsegDp: bv8 := 0x04

  /** Whether decimal-point mask `mask` lights the point of position `pos`: bit
      `pos` of the mask belongs to position `pos`. */
  predicate DpOn(mask: bv8, pos: nat)
    requires pos < NumPositions
    ensures DpOn(mask, pos) <==> mask & (1 << pos) != 0
  {
    (mask >> pos) & 1 == 1
  }

  /** The mask `third_sseg_dp` lights the decimal point of position 2 and of no other position. */
  lemma ThirdSsegDpSelectsPosition2(pos: nat)
    requires pos < NumPositions
    ensures DpOn(ThirdSsegDp, pos) <==> pos == 2
  {
  }

  /** Digit left of the point: `(int) (adcVal / 10.0)`. */
  function WholeDigit(adcVal: real): (d: int)
    requires 0.0 <= adcVal
    ensures 0 <= d && (10 * d) as real <= adcVal < (10 * d + 10) as real
  {
    Trunc(adcVal / 10.0)
  }

  /** Digit right of the point: `((int) adcVal) % 10`. */
  function FracDigit(adcVal: real): (d: int)
    requires 0.0 <= adcVal
    ensures 0 <= d <= 9
  {
    CppRem(Trunc(adcVal), 10)
  }

  /** The whole digit is the tens digit of the truncated reading, although the
      source computes it by dividing the unrounded reading. */
  lemma WholeDigitIsTens(adcVal: real)
    requires 0.0 <= adcVal
    ensures WholeDigit(adcVal) == Trunc(adcVal) / 10
  {
    var n := Trunc(adcVal);
    var q, r := n / 10, n % 10;
    assert n == 10 * q + r && 0 <= r < 10;
    assert (10 * q) as real <= adcVal < (10 * q + 10) as real;
    TruncUnique(adcVal / 10.0, q);
  }

  /** The two displayed digits give back the truncated reading. */
  lemma DigitsRecompose(adcVal: real)
    requires 0.0 <= adcVal
    ensures 10 * WholeDigit(adcVal) + FracDigit(adcVal) == Trunc(adcVal)
  {
    WholeDigitIsTens(adcVal);
  }

  /** Both digits are single decimal digits exactly when the reading is below 100. */
  lemma DigitsInRange(adcVal: real)
    requires 0.0 <= adcVal
    ensures 0 <= FracDigit(adcVal) <= 9
    ensures 0 <= WholeDigit(adcVal) <= 9 <==> adcVal < 100.0
  {
  }

  /** The blanking loop `for (i = top; i > 2; --i) write_1ptn(0xff, i)` applied to
      patterns `p`: positions 3 to `top` become blank and the others keep their pattern. */
  function BlankDown(p: seq<bv8>, top: int): (r: seq<bv8>)
    requires 2 <= top < |p|
    ensures |r| == |p|
    ensures forall pos :: 2 < pos <= top ==> r[pos] == Blank
    ensures forall pos :: 0 <= pos < |p| && !(2 < pos <= top) ==> r[pos] == p[pos]
    decreases top
  {
    if top > 2 then BlankDown(p[top := Blank], top - 1) else p
  }

  /** What the display holds: one pattern per position and the decimal-point mask. */
  datatype SsegState = SsegState(ptn: seq<bv8>, dp: bv8)

  /** The display contents `adcVoltageToSseg` leaves for reading `adcVal`: eight
      positions, the lowest two showing the tens and ones of the truncated reading. */
  function Formatted(h2s: int -> bv8, adcVal: real): (s: SsegState)
    requires 0.0 <= adcVal
    ensures |s.ptn| == NumPositions
    ensures s.ptn[1] == h2s(Trunc(adcVal) / 10)
    ensures s.ptn[0] == h2s(Trunc(adcVal) % 10)
  {
    WholeDigitIsTens(adcVal);
    SsegState([h2s(FracDigit(adcVal)), h2s(WholeDigit(adcVal)), h2s(0), Blank, Blank, Blank, Blank, Blank],
              ThirdSsegDp)
  }

  /** Positions 3 to 7 are blank and position 2 shows a "0" carrying the only decimal point. */
  lemma FormattedLayout(h2s: int -> bv8, adcVal: real)
    requires 0.0 <= adcVal
    ensures |Formatted(h2s, adcVal).ptn| == NumPositions
    ensures forall pos :: 3 <= pos < NumPositions ==> Formatted(h2s, adcVal).ptn[pos] == Blank
    ensures Formatted(h2s, adcVal).ptn[2] == h2s(0)
    ensures forall pos :: 0 <= pos < NumPositions ==> (DpOn(Formatted(h2s, adcVal).dp, pos) <==> pos == 2)
  {
    forall pos | 0 <= pos < NumPositions
      ensures DpOn(Formatted(h2s, adcVal).dp, pos) <==> pos == 2
    {
      ThirdSsegDpSelectsPosition2(pos);
    }
  }

  /** Below 100, positions 1 and 0 show the tens and ones digits of the truncated reading. */
  lemma FormattedShowsTruncatedReading(h2s: int -> bv8, adcVal: real)
    requires 0.0 <= adcVal < 100.0
    ensures 0 <= Trunc(adcVal) / 10 <= 9
    ensures Formatted(h2s, adcVal).ptn[1] == h2s(Trunc(adcVal) / 10)
    ensures Formatted(h2s, adcVal).ptn[0] == h2s(Trunc(adcVal) % 10)
  {
    WholeDigitIsTens(adcVal);
  }

  /** Sample readings 0, 50 and 99.9 show "0.00", "0.50" and "0.99". */
  lemma FormattedExamples(h2s: int -> bv8)
    ensures Formatted(h2s, 0.0).ptn[1] == h2s(0) && Formatted(h2s, 0.0).ptn[0] == h2s(0)
    ensures Formatted(h2s, 50.0).ptn[1] == h2s(5) && Formatted(h2s, 50.0).ptn[0] == h2s(0)
    ensures Formatted(h2s, 99.9).ptn[1] == h2s(9) && Formatted(h2s, 99.9).ptn[0] == h2s(9)
  {
    TruncUnique(99.9, 99);
    TruncUnique(9.99, 9);
  }

  /** The display driver: eight pattern registers, a decimal-point mask and the
      glyph table `h2s`. `writes` records the positions written, in order. */
  class SsegCore {
    const ptn: array<bv8>
    var dp: bv8
    const h2s: int -> bv8
    ghost var writes: seq<int>

    ghost predicate Valid()
      reads this
    {
      ptn.Length == NumPositions
    }

    function State(): SsegState
      reads this, ptn
    {
      SsegState(ptn[..], dp)
    }

    constructor (glyphs: int -> bv8)
      ensures Valid() && fresh(ptn) && h2s == glyphs && writes == []
    {
      ptn := new bv8[NumPositions](_ => Blank);
      dp := 0;
      h2s := glyphs;
      writes := [];
    }

    /** `write_1ptn`: put `pattern` on position `pos`. */
    method Write1Ptn(pattern: bv8, pos: int)
      requires Valid() && 0 <= pos < NumPositions
      modifies this, ptn
      ensures Valid() && dp == old(dp)
      ensures ptn[..] == old(ptn[..])[pos := pattern]
      ensures writes == old(writes) + [pos]
    {
      ptn[pos] := pattern;
      writes := writes + [pos];
    }

    /** `set_dp`: replace the decimal-point mask. */
    method SetDp(mask: bv8)
      requires Valid()
      modifies this
      ensures Valid() && dp == mask
      ensures writes == old(writes)
    {
      dp := mask;
    }
  }

  /** `adcVoltageToSseg`: the display ends in the formatted state whatever it held
      before, and positions are written once each, from 7 down to 0. */
  method AdcVoltageToSseg(sseg: SsegCore, adcVal: real)
    requires sseg.Valid() && 0.0 <= adcVal
    modifies sseg, sseg.ptn
    ensures sseg.Valid()
    ensures sseg.State() == Formatted(sseg.h2s, adcVal)
    ensures sseg.writes == old(sseg.writes) + [7, 6, 5, 4, 3, 2, 1, 0]
  {
    ghost var before := sseg.writes;
    ghost var blanked := BlankDown(sseg.ptn[..], 7);
    var i := 7;
    while i > 2
      invariant 2 <= i <= 7 && sseg.Valid()
      invariant BlankDown(sseg.ptn[..], i) == blanked
      invariant |sseg.writes| == |before| + (7 - i)
      invariant sseg.writes[..|before|] == before
      invariant forall k :: |before| <= k < |sseg.writes| ==> sseg.writes[k] == 7 - (k - |before|)
    {
      sseg.Write1Ptn(Blank, i);
      i := i - 1;
    }
    assert sseg.ptn[..] == blanked;
    assert sseg.writes == before + [7, 6, 5, 4, 3];

    sseg.Write1Ptn(sseg.h2s(0), 2);
    sseg.SetDp(ThirdSsegDp);

    var upperDispVal := Trunc(adcVal / 10.0);
    var convertedUpperDispVal := sseg.h2s(upperDispVal);
    sseg.Write1Ptn(convertedUpperDispVal, 1);

    var lowerDispVal := CppRem(Trunc(adcVal), 10);
    var convertedLowerDispVal := sseg.h2s(lowerDispVal);
    sseg.Write1Ptn(convertedLowerDispVal, 0);
  }
}
