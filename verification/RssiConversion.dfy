/** RSSI in fixed-point log2 counts and in cdBm: both conversion directions and how far they are inverse. */
module RssiConversion {
  import opened CArithmetic

  /** The RSSI part of the calibration parameters. */
  datatype RssiParams = RssiParams(
    rxAtt: seq<i16>, pga1: seq<i16>, pga2: seq<i16>, pga3: seq<i16>, mixerGain: seq<i16>,
    antennas: seq<u8>, antennaLut: seq<i16>,
    lowerBandShift: i16, upperBandShift: i16,
    tempIntercept: u16,
    inputPowers: i16,
    powerShifts: i16)
  {
    predicate Valid() {
      && |rxAtt| == |pga1| == |pga2| == |pga3| == |mixerGain| == 4
      && |antennas| == |antennaLut| == 8
      && forall a :: 0 <= a < 8 ==> antennas[a] < 8
    }
  }

  /** The gain fields of RxGainControl, and the antenna and band in use. */
  datatype RxSettings = RxSettings(
    rxAtten: nat, pga1: nat, pga2: nat, pga3: nat, mixer: nat, antenna: nat, lowerBand: bool)
  {
    predicate Valid() {
      rxAtten < 4 && pga1 < 4 && pga2 < 4 && pga3 < 4 && mixer < 4 && antenna < 8
    }
  }

  function GainSum(p: RssiParams, rx: RxSettings): int
    requires p.Valid() && rx.Valid()
  {
    p.rxAtt[rx.rxAtten] as int + p.pga1[rx.pga1] + p.pga2[rx.pga2] + p.pga3[rx.pga3]
    + p.mixerGain[rx.mixer] + p.antennaLut[p.antennas[rx.antenna]]
    + (if rx.lowerBand then p.lowerBandShift else p.upperBandShift)
  }

  function GainOffset(p: RssiParams, rx: RxSettings): i16
    requires p.Valid() && rx.Valid()
  {
    ToInt16(GainSum(p, rx))
  }

  /** With nothing but zero entries the gain offset is zero. */
  lemma NoGainNoOffset(p: RssiParams, rx: RxSettings)
    requires p.Valid() && rx.Valid()
    requires p.rxAtt[rx.rxAtten] == p.pga1[rx.pga1] == p.pga2[rx.pga2] == p.pga3[rx.pga3] == 0
    requires p.mixerGain[rx.mixer] == p.antennaLut[p.antennas[rx.antenna]] == 0
    requires p.lowerBandShift == p.upperBandShift == 0
    ensures GainOffset(p, rx) == 0
  {
  }

  /** Between two settings the gain offset moves by the differences of their entries in all seven tables. */
  lemma GainStagesAdd(p: RssiParams, rx: RxSettings, to: RxSettings)
    requires p.Valid() && rx.Valid() && to.Valid()
    ensures ToInt16(GainOffset(p, to) as int - GainOffset(p, rx)) ==
            ToInt16((p.rxAtt[to.rxAtten] as int - p.rxAtt[rx.rxAtten])
                    + (p.pga1[to.pga1] as int - p.pga1[rx.pga1])
                    + (p.pga2[to.pga2] as int - p.pga2[rx.pga2])
                    + (p.pga3[to.pga3] as int - p.pga3[rx.pga3])
                    + (p.mixerGain[to.mixer] as int - p.mixerGain[rx.mixer])
                    + (p.antennaLut[p.antennas[to.antenna]] as int - p.antennaLut[p.antennas[rx.antenna]])
                    + (if to.lowerBand == rx.lowerBand then 0
                       else if to.lowerBand then p.lowerBandShift as int - p.upperBandShift
                       else p.upperBandShift as int - p.lowerBandShift))
  {
    hide ToInt16;
    CastDifference(GainSum(p, to), GainSum(p, rx));
  }

  /** -0.616 counts per temperature count, rounded; a reading of zero means no temperature is known. */
  function TempOffset(p: RssiParams, tempAdc: u16): i16 {
    if tempAdc == 0 then 0
    else ToInt16(TruncDiv(-616 * (tempAdc as int - p.tempIntercept) + 500, 1000))
  }

  /** The default power in cdBm. */
  function DefaultCdbm(p: RssiParams): int {
    p.inputPowers as int * 100
  }

  /** log2_to_cdbm before its result is narrowed; the argument is any integer. */
  function CdbmOf(p: RssiParams, log2: int): int {
    TruncDiv((log2 - p.powerShifts) * 470 + DefaultCdbm(p) * 100 + 50, 100)
  }

  function Log2ToCdbm(p: RssiParams, log2: u16): i16 {
    ToInt16(CdbmOf(p, log2))
  }

  /** cdbm_to_log2 before its result is narrowed. */
  function Log2Of(p: RssiParams, cdbm: int): int {
    TruncDiv((cdbm - DefaultCdbm(p)) * 100 + 235, 470) + p.powerShifts
  }

  function CdbmToLog2(p: RssiParams, cdbm: i16): u16 {
    ToUint16(Log2Of(p, cdbm))
  }

  /** The arithmetic of both conversions stays inside 32 bits, for every table and every argument. */
  lemma NoOverflow32(p: RssiParams, log2: u16, cdbm: i16, tempAdc: u16)
    ensures FitsInt32((log2 as int - p.powerShifts) * 470 + DefaultCdbm(p) * 100 + 50)
    ensures FitsInt32((cdbm as int - DefaultCdbm(p)) * 100 + 235)
    ensures FitsInt32(-616 * (tempAdc as int - p.tempIntercept) + 500)
    ensures FitsInt32(CdbmOf(p, log2)) && FitsInt32(Log2Of(p, cdbm))
  {
  }

  /**
    From counts to cdBm and back: the count itself at or above the default count, one more
    below it, because both divisions truncate toward zero.
   */
  lemma CountsThereAndBack(p: RssiParams, log2: int)
    ensures Log2Of(p, CdbmOf(p, log2)) == if log2 >= p.powerShifts then log2 else log2 + 1
  {
  }

  /**
    From cdBm to counts and back: within [-2, 2] of the start at or above the default power,
    and between 2 and 8 above it when more than 2 cdBm below the default.
   */
  lemma CdbmThereAndBack(p: RssiParams, c: int)
    ensures -2 <= CdbmOf(p, Log2Of(p, c)) - c <= 8
    ensures c >= DefaultCdbm(p) - 2 ==> CdbmOf(p, Log2Of(p, c)) - c <= 3
    ensures c < DefaultCdbm(p) - 2 ==> CdbmOf(p, Log2Of(p, c)) - c >= 2
  {
  }

  /** The bounds of the last lemma are attained: with a default of -40 dBm, at -40.07 dBm and at 0.02 dBm. */
  lemma CdbmBoundsTight(p: RssiParams)
    requires p.inputPowers == -40
    ensures CdbmOf(p, Log2Of(p, -4007)) == -4007 + 8
    ensures CdbmOf(p, Log2Of(p, 2)) == 2 - 2
  {
  }

  /** q is e / d to the nearest integer, half up; if e + d / 2 is negative, it is half to one and a half above. */
  predicate RoundedUp(q: int, e: int, d: int) {
    if 2 * e + d >= 0 then -d < 2 * (q * d - e) <= d else d <= 2 * (q * d - e) < 3 * d
  }

  lemma RoundedUpUnique(q: int, r: int, e: int, d: int)
    requires d > 0 && RoundedUp(q, e, d) && RoundedUp(r, e, d)
    ensures q == r
  {
    assert (q + 1) * d == q * d + d && (r + 1) * d == r * d + d;
    if q < r {
      MulMono(q + 1, r, d);
    } else if r < q {
      MulMono(r + 1, q, d);
    }
  }

  lemma HalfAddedRoundsUp(e: int, d: int, half: int)
    requires d > 0 && 2 * half == d
    ensures RoundedUp(TruncDiv(e + half, d), e, d)
  {
    TruncDivBounds(e + half, d);
  }

  /**
    The power at a count is the default power plus 4.70 cdBm for every count above the
    default count, rounded half up, or one too high where that is negative: the half that is
    added for rounding is truncated toward zero.
   */
  lemma CdbmOfRounded(p: RssiParams, log2: int)
    ensures RoundedUp(CdbmOf(p, log2), 470 * (log2 - p.powerShifts) + 100 * (100 * p.inputPowers), 100)
    ensures CdbmOf(p, p.powerShifts) == 100 * p.inputPowers + if p.inputPowers >= 0 then 0 else 1
  {
    HalfAddedRoundsUp(470 * (log2 - p.powerShifts) + 100 * (100 * p.inputPowers), 100, 50);
  }

  /** The count at a power is the default count plus a count for every 4.70 cdBm, rounded in the same way. */
  lemma Log2OfRounded(p: RssiParams, cdbm: int)
    ensures RoundedUp(Log2Of(p, cdbm) - p.powerShifts, 100 * (cdbm - 100 * p.inputPowers), 470)
    ensures Log2Of(p, 100 * p.inputPowers) == p.powerShifts
  {
    HalfAddedRoundsUp(100 * (cdbm - 100 * p.inputPowers), 470, 235);
  }

  /** The temperature offset is -0.616 counts per temperature count, rounded so, and zero when none is known. */
  lemma TempOffsetRounded(p: RssiParams, tempAdc: u16)
    ensures tempAdc == 0 ==> TempOffset(p, tempAdc) == 0
    ensures tempAdc != 0 && -53000 <= tempAdc as int - p.tempIntercept <= 53000 ==>
              RoundedUp(TempOffset(p, tempAdc), -616 * (tempAdc as int - p.tempIntercept), 1000)
  {
    var e := -616 * (tempAdc as int - p.tempIntercept);
    HalfAddedRoundsUp(e, 1000, 500);
    CastLossless(TruncDiv(e + 500, 1000));
  }

  lemma CdbmOfStrictlyIncreasing(p: RssiParams, a: int, b: int)
    requires a < b
    ensures CdbmOf(p, a) < CdbmOf(p, b)
  {
  }

  lemma Log2OfMonotone(p: RssiParams, a: int, b: int)
    requires a <= b
    ensures Log2Of(p, a) <= Log2Of(p, b)
  {
  }

  // ---- The public conversions ----

  /** get_compensated_rssi for given gain, mode and temperature offsets. */
  function CompensatedRssi(p: RssiParams, calVersion: u8, raw: u16, gain: i16, mode: i16, temp: i16): i16 {
    if calVersion != 5 then ToInt16(raw)
    else Log2ToCdbm(p, ToUint16(raw as int - gain - mode - temp))
  }

  /** get_rssi_log2 for given gain, mode and temperature offsets. */
  function RssiLog2(p: RssiParams, calVersion: u8, cdbm: i16, gain: i16, mode: i16, temp: i16): u16 {
    if calVersion != 5 then 0
    else
      var log2 := ToInt16(ToInt16(CdbmToLog2(p, cdbm)) as int + gain + mode + temp);
      if log2 <= 0 then 0 else log2
  }

  /** One count more of any offset does what one raw count less does; without offsets only the conversion is left. */
  lemma OffsetsAreSubtracted(p: RssiParams, raw: u16, gain: i16, mode: i16, temp: i16)
    ensures raw > 0 && gain < 0x7FFF ==>
              CompensatedRssi(p, 5, raw, gain + 1, mode, temp) == CompensatedRssi(p, 5, raw - 1, gain, mode, temp)
    ensures raw > 0 && mode < 0x7FFF ==>
              CompensatedRssi(p, 5, raw, gain, mode + 1, temp) == CompensatedRssi(p, 5, raw - 1, gain, mode, temp)
    ensures raw > 0 && temp < 0x7FFF ==>
              CompensatedRssi(p, 5, raw, gain, mode, temp + 1) == CompensatedRssi(p, 5, raw - 1, gain, mode, temp)
    ensures CompensatedRssi(p, 5, raw, 0, 0, 0) == ToInt16(CdbmOf(p, raw))
  {
  }

  /** Without version 5 calibration the raw count passes through the cast and nothing converts back. */
  lemma OtherVersions(p: RssiParams, calVersion: u8, raw: u16, cdbm: i16, gain: i16, mode: i16, temp: i16)
    requires calVersion != 5
    ensures CompensatedRssi(p, calVersion, raw, gain, mode, temp) == ToInt16(raw)
    ensures RssiLog2(p, calVersion, cdbm, gain, mode, temp) == 0
  {
  }

  /** The count that comes back: one more than the raw count when the compensated count is below the default. */
  function Recovered(p: RssiParams, raw: u16, gain: i16, mode: i16, temp: i16): int {
    if ToUint16(raw as int - gain - mode - temp) >= p.powerShifts then raw as int else raw as int + 1
  }

  /**
    RSSI round trip: under any settings, the raw count comes back exactly when its
    compensated count is at or above the default count, and one larger below it.  The only
    condition is that the value in cdBm fits its 16 bits; the other casts may wrap.  A
    count above 32767 reads as negative in the second call and comes back as zero.
   */
  lemma RssiRoundTrip(p: RssiParams, raw: u16, gain: i16, mode: i16, temp: i16)
    requires FitsInt16(CdbmOf(p, ToUint16(raw as int - gain - mode - temp)))
    ensures RssiLog2(p, 5, CompensatedRssi(p, 5, raw, gain, mode, temp), gain, mode, temp)
         == if Recovered(p, raw, gain, mode, temp) < 0x8000 then Recovered(p, raw, gain, mode, temp) else 0
  {
    hide ToInt16, ToUint16, CdbmOf, Log2Of;
    var offsets := gain as int + mode + temp;
    assert raw as int - gain - mode - temp == raw as int - offsets;
    var c: int := ToUint16(raw as int - offsets);
    var cdbm := CdbmOf(p, c);
    CastLossless(cdbm);
    CountsThereAndBack(p, c);
    var e := if c >= p.powerShifts then 0 else 1;
    NarrowThenAdd(c + e, offsets);
    SameResidue(raw, offsets, e);
    assert ToInt16(ToInt16(CdbmToLog2(p, cdbm)) as int + gain + mode + temp) == ToInt16(raw as int + e);
    PositivePart(raw as int + e);
  }

  lemma NoCommonMultiple(k: int, j: int)
    requires k != 0 && -8 <= k <= 8
    ensures !(-940 < 0x1_0000 * (470 * j - 100 * k) < 940)
  {
  }

  /** A power that is off by k times 2^16 converts to a count that is off by no multiple of 2^16. */
  lemma WrapIsNoticed(p: RssiParams, c: int, k: int, j: int)
    requires k != 0 && -8 <= k <= 8
    ensures Log2Of(p, c) - Log2Of(p, c - 0x1_0000 * k) != 0x1_0000 * j
  {
    hide TruncDiv;
    var x := (c - DefaultCdbm(p)) * 100 + 235;
    var y := (c - 0x1_0000 * k - DefaultCdbm(p)) * 100 + 235;
    TruncDivBounds(x, 470);
    TruncDivBounds(y, 470);
    assert x - y == 6553600 * k;
    NoCommonMultiple(k, j);
  }

  lemma SameCastSameResidue(a: int, b: int)
    requires ToInt16(a) == ToInt16(b)
    ensures exists j :: a - b == 0x1_0000 * j
  {
    assert a - b == 0x1_0000 * (a / 0x1_0000 - b / 0x1_0000);
  }

  /**
    With a default power that is itself representable in cdBm, a count between 1 and 32767
    is recovered if and only if its value in cdBm fits 16 bits.
   */
  lemma RssiRecoveredExactlyWhenFits(p: RssiParams, raw: u16, gain: i16, mode: i16, temp: i16)
    requires FitsInt16(DefaultCdbm(p)) && 0 < Recovered(p, raw, gain, mode, temp) < 0x8000
    ensures FitsInt16(CdbmOf(p, ToUint16(raw as int - gain - mode - temp))) <==>
            RssiLog2(p, 5, CompensatedRssi(p, 5, raw, gain, mode, temp), gain, mode, temp)
            == Recovered(p, raw, gain, mode, temp)
  {
    var offsets := gain as int + mode + temp;
    var c: int := ToUint16(raw as int - gain - mode - temp);
    assert c == ToUint16(raw as int - offsets);
    var cdbm := CdbmOf(p, c);
    if FitsInt16(cdbm) {
      RssiRoundTrip(p, raw, gain, mode, temp);
    } else if RssiLog2(p, 5, ToInt16(cdbm), gain, mode, temp) == Recovered(p, raw, gain, mode, temp) {
      hide CdbmOf, Log2Of;
      var e := if c >= p.powerShifts then 0 else 1;
      CountsThereAndBack(p, c);
      SameResidue(raw, offsets, e);
      NarrowThenAdd(Log2Of(p, ToInt16(cdbm)), offsets);
      PositivePart(raw as int + e);
      assert ToInt16(Log2Of(p, cdbm) + offsets) == ToInt16(Log2Of(p, ToInt16(cdbm)) + offsets);
      SameCastSameResidue(Log2Of(p, cdbm) + offsets, Log2Of(p, ToInt16(cdbm)) + offsets);
      var j :| Log2Of(p, cdbm) - Log2Of(p, ToInt16(cdbm)) == 0x1_0000 * j;
      CastCongruent(cdbm);
      var k :| ToInt16(cdbm) == cdbm - 0x1_0000 * k;
      CdbmRange(p, c);
      WrapIsNoticed(p, cdbm, k, j);
      assert false;
    }
  }

  lemma CdbmRange(p: RssiParams, c: u16)
    requires FitsInt16(DefaultCdbm(p))
    ensures -500000 < CdbmOf(p, c) < 500000
  {
  }

  lemma PositivePart(x: int)
    requires 0 <= x <= 0x1_0000
    ensures x < 0x8000 ==> ToInt16(x) == x
    ensures x >= 0x8000 ==> ToInt16(x) <= 0
  {
  }

  lemma SameResidue(raw: u16, offsets: int, e: int)
    ensures ToInt16(ToUint16(raw as int - offsets) as int + e + offsets) == ToInt16(raw as int + e)
  {
  }

  /** The other way round: the power comes back between 2 below and 8 above the value that was converted. */
  lemma CdbmRoundTrip(p: RssiParams, cdbm: i16, gain: i16, mode: i16, temp: i16)
    requires 0 <= Log2Of(p, cdbm) < 0x1_0000 && FitsInt16(cdbm as int - 2) && FitsInt16(cdbm as int + 8)
    requires RssiLog2(p, 5, cdbm, gain, mode, temp) > 0
    ensures -2 <= CompensatedRssi(p, 5, RssiLog2(p, 5, cdbm, gain, mode, temp), gain, mode, temp) as int - cdbm <= 8
  {
    var offsets := gain as int + mode + temp;
    var log2 := Log2Of(p, cdbm);
    NarrowThenAdd(log2, offsets);
    WidenThenSubtract(log2, offsets);
    CdbmThereAndBack(p, cdbm);
    CastLossless(CdbmOf(p, log2));
  }

  lemma WidenThenSubtract(x: u16, offsets: int)
    ensures ToUint16(ToInt16(x as int + offsets) as int - offsets) == x
  {
  }
}
