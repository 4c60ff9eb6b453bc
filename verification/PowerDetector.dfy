/**
  power_to_adc: the search of three detector tables for the reading that corresponds to a
  transmit power, and the fall-back when no table covers it.
 */
module PowerDetector {
  import opened CArithmetic
  import opened CoarseAttenuator

  const NUM_DETECTORS := 3
  const TABLE_LENGTH := 31

  datatype Channel = ChannelNone | PowerLo(lo: nat) | PowerRx(rx: nat)

  function PdetIndexToEnum(index: nat, useForwardPower: bool): Channel {
    if index >= NUM_DETECTORS then ChannelNone
    else if useForwardPower then PowerLo(index) else PowerRx(index)
  }

  /** The valid ADC range. */
  datatype AdcRange = AdcRange(min: u16, max: u16) {
    predicate Contains(adc: u16) {
      min <= adc <= max
    }
  }

  /** The reading a fraction of the way from lower to upper, truncated. */
  function Line(upper: int, lower: int, fraction: real): int {
    lower + TruncReal((upper - lower) as real * fraction)
  }

  /** One detector's search: the power table, the detector's readings, the compensated power and the range. */
  datatype Search = Search(powers: seq<real>, adcs: seq<u16>, first: nat, power: real, range: AdcRange) {
    /** The first calibrated entry lies before the last one, and more attenuation gives less power. */
    ghost predicate Valid() {
      && |powers| == |adcs| < 0x1_0000 && first + 2 <= |powers|
      && DecreasingFrom(powers, first)
    }

    /** The lower end of the pair whose readings the code validates when it looks at entry idx. */
    function Checked(idx: nat): nat {
      if idx <= first + 1 then first + 1 else idx - 1
    }

    /** The readings at entries i and i+1 are both in range. */
    predicate PairValid(i: nat)
      requires |powers| == |adcs| && i + 1 < |adcs|
    {
      range.Contains(adcs[i]) && range.Contains(adcs[i + 1])
    }

    /** The power lies between entries idx-1 and idx, and the validated pair of readings is in range. */
    predicate Hits(idx: nat)
      requires |powers| == |adcs|
    {
      && first + 1 <= idx < |powers| - 1
      && powers[idx] <= power <= powers[idx - 1]
      && PairValid(Checked(idx) - 1)
    }

    /** i is the entry after the first that is nearest to the power, the last table entry excepted. */
    ghost predicate Nearest(i: nat, limit: nat)
      requires limit <= |powers|
    {
      && first + 1 <= i < |powers|
      && (forall j :: first + 1 <= j < limit ==> Distance(powers, power, i) <= Distance(powers, power, j))
      && (forall j :: first + 1 <= j < limit && j < i ==> Distance(powers, power, i) < Distance(powers, power, j))
    }

    /** The reading on the line through entries i-1 and i at the compensated power, before it is narrowed. */
    function Reading(i: nat): int
      requires |powers| == |adcs| && 0 < i < |powers| && powers[i - 1] != powers[i]
    {
      Line(adcs[i - 1], adcs[i], (power - powers[i]) / (powers[i - 1] - powers[i]))
    }
  }

  /** What the inner loop of power_to_adc finds in one detector's table. */
  ghost predicate Found(s: Search, i: nat, hit: bool)
    requires s.Valid()
  {
    && s.first + 1 <= i < |s.powers|
    && (hit ==> s.Hits(i) && forall j :: 0 <= j < i ==> !s.Hits(j))
    && (!hit ==> (forall j :: 0 <= j < |s.powers| ==> !s.Hits(j)) && s.Nearest(i, |s.powers| - 1)
                 && (s.first + 2 < |s.powers| ==> i < |s.powers| - 1))
  }

  /** The outcome of the inner loop is unique. */
  lemma FoundUnique(s: Search, i: nat, hit: bool, i': nat, hit': bool)
    requires s.Valid() && Found(s, i, hit) && Found(s, i', hit')
    ensures i == i' && hit == hit'
  {
    assert hit == hit';
    if !hit && i < |s.powers| - 1 {
      assert Distance(s.powers, s.power, i) <= Distance(s.powers, s.power, i');
      assert Distance(s.powers, s.power, i') <= Distance(s.powers, s.power, i);
    }
  }

  /**
    The inner loop.  i1 and i2 run along the table as long as the distance to the power
    shrinks; on a decreasing table they stay adjacent.
   */
  method SearchTable(s: Search) returns (i1: nat, i2: nat, hit: bool)
    requires s.Valid()
    ensures Found(s, i2, hit) && i1 == i2 - 1
  {
    i1 := s.first;
    i2 := i1 + 1;
    var idx := s.first + 1;
    assert s.Nearest(i2, idx);
    hide Search.Nearest;
    while idx < |s.powers| - 1
      invariant s.first + 1 <= idx <= |s.powers| - 1
      invariant i1 == i2 - 1 && s.first + 1 <= i2 && (i2 < idx || idx == s.first + 1 == i2)
      invariant s.Nearest(i2, idx)
      invariant forall j :: 0 <= j < idx ==> !s.Hits(j)
    {
      NearestIsLast(s, i2, idx);
      NearestStep(s, i2, idx);
      if s.power >= s.powers[idx] && s.power <= s.powers[idx - 1]
         && s.range.Contains(s.adcs[i1]) && s.range.Contains(s.adcs[i2])
      {
        return idx - 1, idx, true;
      }
      if RealAbs(s.power - s.powers[idx]) < RealAbs(s.power - s.powers[i2]) {
        i1 := i2;
        i2 := idx;
      }
      idx := idx + 1;
    }
    hit := false;
  }

  /** While the power lies below what has been seen, the nearest entry seen is the last one. */
  lemma NearestIsLast(s: Search, i: nat, idx: nat)
    requires s.Valid() && s.first + 1 <= idx < |s.powers| - 1
    requires s.Nearest(i, idx) && (i < idx || idx == s.first + 1 == i)
    ensures s.power <= s.powers[idx - 1] ==> i == s.Checked(idx)
    ensures Distance(s.powers, s.power, idx) < Distance(s.powers, s.power, i) ==> i == idx - 1
  {
    if i < idx - 1 {
      assert Distance(s.powers, s.power, i) <= Distance(s.powers, s.power, idx - 1);
      assert s.powers[i] > s.powers[idx - 1] > s.powers[idx];
    }
  }

  lemma NearestStep(s: Search, i: nat, idx: nat)
    requires s.Valid() && s.first + 1 <= idx < |s.powers| - 1
    requires s.Nearest(i, idx) && (i < idx || idx == s.first + 1 == i)
    ensures if Distance(s.powers, s.power, idx) < Distance(s.powers, s.power, i)
            then s.Nearest(idx, idx + 1) else s.Nearest(i, idx + 1)
  {
  }

  // ---- One detector's reading ----

  lemma TruncWithin(x: real, n: int)
    ensures 0.0 <= x <= n as real ==> 0 <= TruncReal(x) <= n
    ensures n as real <= x <= 0.0 ==> n <= TruncReal(x) <= 0
    ensures x == n as real ==> TruncReal(x) == n
  {
  }

  lemma PartWithin(diff: real, fraction: real)
    requires 0.0 <= fraction <= 1.0
    ensures diff >= 0.0 ==> 0.0 <= diff * fraction <= diff
    ensures diff <= 0.0 ==> diff <= diff * fraction <= 0.0
    ensures fraction == 0.0 ==> diff * fraction == 0.0
    ensures fraction == 1.0 ==> diff * fraction == diff
  {
    ScaleBounds(fraction, diff);
    assert diff * fraction == fraction * diff;
  }

  /** The part of a difference that a fraction between 0 and 1 takes, truncated. */
  lemma TruncatedPart(d: int, fraction: real)
    requires 0.0 <= fraction <= 1.0
    ensures var t := TruncReal(d as real * fraction);
            && (d >= 0 ==> 0 <= t <= d) && (d <= 0 ==> d <= t <= 0)
            && (fraction == 0.0 ==> t == 0) && (fraction == 1.0 ==> t == d)
  {
    PartWithin(d as real, fraction);
    TruncWithin(d as real * fraction, d);
    TruncWithin(d as real * fraction, 0);
    hide TruncReal;
  }

  lemma LineBetween(upper: int, lower: int, fraction: real)
    requires 0.0 <= fraction <= 1.0
    ensures Min(upper, lower) <= Line(upper, lower, fraction) <= Max(upper, lower)
    ensures fraction == 0.0 ==> Line(upper, lower, fraction) == lower
    ensures fraction == 1.0 ==> Line(upper, lower, fraction) == upper
  {
    TruncatedPart(upper - lower, fraction);
    hide TruncReal;
  }

  /** On a hit the reading lies between the readings at the two ends of the bracket, so the 16-bit cast is lossless. */
  lemma HitReadingBetween(s: Search, i: nat)
    requires s.Valid() && s.Hits(i)
    ensures Min(s.adcs[i - 1], s.adcs[i]) <= s.Reading(i) <= Max(s.adcs[i - 1], s.adcs[i])
    ensures ToUint16(s.Reading(i)) == s.Reading(i)
  {
    FractionBounds(s.power - s.powers[i], s.powers[i - 1] - s.powers[i]);
    LineBetween(s.adcs[i - 1], s.adcs[i], (s.power - s.powers[i]) / (s.powers[i - 1] - s.powers[i]));
  }

  /**
    What a hit says about the readings at its two ends: the one at the end with more power
    is in the valid range.  The other is known to be only when the bracket is the first one.
   */
  lemma HitUpperEndValid(s: Search, i: nat)
    requires s.Valid() && s.Hits(i)
    ensures s.range.Contains(s.adcs[i - 1])
    ensures i == s.first + 1 ==> s.range.Contains(s.adcs[i])
  {
  }

  /** A power equal to a table entry reads back that entry's calibrated reading. */
  lemma ReadingAtEntry(s: Search, i: nat)
    requires s.Valid() && s.first < i < |s.powers|
    ensures s.power == s.powers[i] ==> s.Reading(i) == s.adcs[i]
    ensures s.power == s.powers[i - 1] ==> s.Reading(i) == s.adcs[i - 1]
  {
    if s.power == s.powers[i] || s.power == s.powers[i - 1] {
      FractionBounds(s.power - s.powers[i], s.powers[i - 1] - s.powers[i]);
      LineBetween(s.adcs[i - 1], s.adcs[i], (s.power - s.powers[i]) / (s.powers[i - 1] - s.powers[i]));
    }
  }

  /** Every hit, at whatever power, has both its readings in the valid range. */
  ghost predicate HitsAreValid(s: Search)
    requires s.Valid()
  {
    forall power: real, i: nat ::
      s.(power := power).Hits(i) ==> s.PairValid(i - 1)
  }

  /** Two valid readings in a row are not followed by an invalid one, the last table entry excepted. */
  ghost predicate ValidityRunsOn(s: Search)
    requires s.Valid()
  {
    forall i: nat :: s.first + 2 <= i < |s.powers| - 1 && s.PairValid(i - 2) ==> s.range.Contains(s.adcs[i])
  }

  /** The reading at the end with less power is always valid exactly when valid readings run on to the end. */
  lemma HitsAreValidExactlyWhen(s: Search)
    requires s.Valid()
    ensures HitsAreValid(s) <==> ValidityRunsOn(s)
  {
    if HitsAreValid(s) {
      forall i: nat | s.first + 2 <= i < |s.powers| - 1 && s.PairValid(i - 2) ensures s.range.Contains(s.adcs[i]) {
        assert s.(power := s.powers[i]).Hits(i);
      }
    }
  }

  /** Every hit, at whatever power, yields a reading in the valid range. */
  ghost predicate HitsReadInRange(s: Search)
    requires s.Valid()
  {
    forall power: real, i: nat ::
      s.(power := power).Hits(i) ==> s.range.min as int <= s.(power := power).Reading(i) <= s.range.max as int
  }

  /** The reading a caller gets on a hit is always in the valid range exactly when valid readings run on to the end. */
  lemma HitsReadInRangeExactlyWhen(s: Search)
    requires s.Valid()
    ensures HitsReadInRange(s) <==> ValidityRunsOn(s)
  {
    if ValidityRunsOn(s) {
      HitsAreValidExactlyWhen(s);
      forall power: real, i: nat | s.(power := power).Hits(i)
        ensures s.range.min as int <= s.(power := power).Reading(i) <= s.range.max as int
      {
        HitReadingBetween(s.(power := power), i);
      }
    }
    if HitsReadInRange(s) {
      forall i: nat | s.first + 2 <= i < |s.powers| - 1 && s.PairValid(i - 2) ensures s.range.Contains(s.adcs[i]) {
        assert s.(power := s.powers[i]).Hits(i);
        ReadingAtEntry(s.(power := s.powers[i]), i);
      }
    }
  }

  /** The power lies strictly inside bracket i, whose two readings are both valid. */
  ghost predicate Readable(s: Search, i: nat)
    requires s.Valid()
  {
    && s.first + 1 <= i < |s.powers|
    && s.powers[i] < s.power < s.powers[i - 1]
    && s.PairValid(i - 1)
  }

  /** The search misses a readable power exactly in the last bracket, or when the reading before it is invalid. */
  lemma ReadableMissedExactlyWhen(s: Search, i: nat)
    requires s.Valid() && Readable(s, i)
    ensures (forall j: nat :: !s.Hits(j)) <==>
            i == |s.powers| - 1 || (i >= s.first + 2 && !s.range.Contains(s.adcs[i - 2]))
  {
    forall j: nat | s.Hits(j) ensures j == i {
    }
    assert !s.Hits(i) ==> forall j: nat :: !s.Hits(j);
  }

  /** A power on an inner entry is missed exactly when neither of the pairs that end there or before is valid. */
  lemma EntryMissedExactlyWhen(s: Search, j: nat)
    requires s.Valid() && s.first < j < |s.powers| - 2 && s.power == s.powers[j]
    ensures (forall i: nat :: !s.Hits(i)) <==> !s.PairValid(j - 1) && (j >= s.first + 2 ==> !s.PairValid(j - 2))
  {
    forall i: nat | s.Hits(i) ensures i == j || i == j + 1 {
    }
    assert !s.Hits(j) && !s.Hits(j + 1) ==> forall i: nat :: !s.Hits(i);
  }

  /** A table of the length the calibration has: 30 dBm and one dB less at every further setting. */
  function SampleTable(adcs: seq<u16>, power: real): Search {
    Search(seq(TABLE_LENGTH, i => 30.0 - i as real), adcs, 0, power, AdcRange(100, 1000))
  }

  lemma SampleIsValid(adcs: seq<u16>, power: real)
    requires |adcs| == TABLE_LENGTH
    ensures SampleTable(adcs, power).Valid()
  {
  }

  /** The table's readings drop out of range after two entries: a hit between the second and third is half invalid. */
  lemma HitLowerEndMayBeInvalid()
    ensures var s := SampleTable(seq(TABLE_LENGTH, i => if i <= 1 then 900 - i else 5), 28.5);
            s.Valid() && s.Hits(2) && !s.range.Contains(s.adcs[2])
  {
    SampleIsValid(seq(TABLE_LENGTH, i => if i <= 1 then 900 - i else 5), 28.5);
  }

  /** The first reading alone is above the range: between the second and third entries, both valid, there is no hit. */
  lemma ReadableMayBeMissed()
    ensures var s := SampleTable(seq(TABLE_LENGTH, i => if i == 0 then 1200 else 900 - i), 28.5);
            s.Valid() && Readable(s, 2) && forall j: nat :: !s.Hits(j)
  {
    var s := SampleTable(seq(TABLE_LENGTH, i => if i == 0 then 1200 else 900 - i), 28.5);
    SampleIsValid(s.adcs, 28.5);
    ReadableMissedExactlyWhen(s, 2);
  }

  // ---- The reading is on the line ----

  lemma PositiveProduct(a: real, b: real, p: real)
    requires a > 0.0 && b > 0.0 && p == a * b
    ensures p > 0.0
  {
  }

  lemma SignOf(x: real, d: real, n: real)
    requires d > 0.0 && n == x * d
    ensures (x >= 0.0 <==> n >= 0.0) && (x <= 0.0 <==> n <= 0.0)
  {
  }

  lemma PartOf(r: real, d: real, part: real)
    requires d > 0.0 && -1.0 < r < 1.0 && part == r * d
    ensures r >= 0.0 ==> 0.0 <= part < d
    ensures r <= 0.0 ==> -d < part <= 0.0
  {
    PositiveProduct(1.0 - r, d, d - part);
    PositiveProduct(1.0 + r, d, d + part);
    SignOf(r, d, part);
  }

  lemma TruncatedTimes(x: real, t: real, n: real, d: real)
    requires d > 0.0 && x * d == n
    requires x >= 0.0 ==> 0.0 <= x - t < 1.0
    requires x <= 0.0 ==> -1.0 < x - t <= 0.0
    ensures n >= 0.0 ==> 0.0 <= n - t * d < d
    ensures n <= 0.0 ==> -d < n - t * d <= 0.0
  {
    SignOf(x, d, n);
    PartOf(x - t, d, n - t * d);
  }

  lemma RiseTimes(rise: real, n: real, d: real)
    requires d > 0.0
    ensures rise * (n / d) * d == rise * n
  {
    assert n / d * d == n;
    assert rise * (n / d) * d == rise * (n / d * d);
  }

  /**
    The reading at any power, inside the bracket or not, is the point on the line through
    entries i-1 and i, its distance from the reading of entry i truncated toward zero.
   */
  lemma ReadingOnLine(s: Search, i: nat)
    requires s.Valid() && s.first < i < |s.powers|
    ensures var d := s.powers[i - 1] - s.powers[i];
            var exact := (s.adcs[i - 1] as int - s.adcs[i]) as real * (s.power - s.powers[i]);
            var read := (s.Reading(i) - s.adcs[i]) as real * d;
            && (exact >= 0.0 ==> 0.0 <= exact - read < d)
            && (exact <= 0.0 ==> -d < exact - read <= 0.0)
  {
    var d, rise := s.powers[i - 1] - s.powers[i], (s.adcs[i - 1] as int - s.adcs[i]) as real;
    var n := s.power - s.powers[i];
    TruncRealBounds(rise * (n / d));
    hide TruncReal, RealAbs;
    RiseTimes(rise, n, d);
    TruncatedTimes(rise * (n / d), TruncReal(rise * (n / d)) as real, rise * n, d);
    assert s.Reading(i) - s.adcs[i] == TruncReal(rise * (n / d));
  }

  /** A quarter of the way down a bracket from 880 to 860 the reading is 875. */
  lemma SampleReading()
    ensures SampleTable(seq(TABLE_LENGTH, i => 900 - 20 * i), 28.75).Reading(2) == 875
  {
    assert (28.75 - 28.0) / (29.0 - 28.0) == 0.75;
  }

  // ---- The reading follows the power ----

  /** The readings do not increase with attenuation. */
  ghost predicate ReadingsFall(s: Search) {
    forall i, j :: s.first <= i < j < |s.adcs| ==> s.adcs[i] >= s.adcs[j]
  }

  lemma LineMonotone(upper: int, lower: int, f: real, g: real)
    requires upper >= lower && 0.0 <= f <= g
    ensures Line(upper, lower, f) <= Line(upper, lower, g)
  {
    var d := (upper - lower) as real;
    ProductMonotone(d, f, g);
    assert d * f >= 0.0 && d * g >= 0.0;
  }

  lemma ProductMonotone(d: real, f: real, g: real)
    requires d >= 0.0 && 0.0 <= f <= g
    ensures 0.0 <= d * f <= d * g
  {
  }

  lemma QuotientMonotone(a: real, b: real, d: real)
    requires 0.0 <= a <= b && d > 0.0
    ensures 0.0 <= a / d <= b / d
  {
    assert a / d * d == a && b / d * d == b;
  }

  /** Of two hits, in the same bracket or not, the one at more power does not read less. */
  lemma ReadingFollowsPower(s: Search, i: nat, p: real, j: nat)
    requires s.Valid() && ReadingsFall(s) && s.power <= p
    requires s.Hits(i) && s.(power := p).Hits(j)
    ensures s.Reading(i) <= s.(power := p).Reading(j)
  {
    var t := s.(power := p);
    HitReadingBetween(s, i);
    HitReadingBetween(t, j);
    if i == j {
      var d := s.powers[i - 1] - s.powers[i];
      QuotientMonotone(s.power - s.powers[i], p - s.powers[i], d);
      LineMonotone(s.adcs[i - 1], s.adcs[i], (s.power - s.powers[i]) / d, (p - s.powers[i]) / d);
    } else if j > i {
      assert s.power == p == s.powers[i] && j == i + 1;
      ReadingAtEntry(s, i);
      ReadingAtEntry(t, j);
    }
  }
}
