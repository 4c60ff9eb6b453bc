/** Frequency compensation along a table, and the choice of the transmit attenuator. */
module CoarseAttenuator {
  import opened CArithmetic

  // ---- Frequency compensation ----

  ghost predicate Increasing(x: seq<real>) {
    forall i, j :: 0 <= i < j < |x| ==> x[i] < x[j]
  }

  /** The first index at or after i whose frequency is at least f. */
  function FirstAtLeast(x: seq<real>, f: real, i: nat): (k: nat)
    requires i <= |x|
    ensures i <= k <= |x|
    ensures forall j :: i <= j < k ==> x[j] < f
    ensures k < |x| ==> f <= x[k]
    decreases |x| - i
  {
    if i == |x| || f <= x[i] then i else FirstAtLeast(x, f, i + 1)
  }

  /** The shift at frequency f: the end values outside the table, the line between two entries inside it. */
  ghost function ShiftAt(freqs: seq<real>, shifts: seq<real>, f: real): real
    requires |freqs| == |shifts| >= 2 && Increasing(freqs)
  {
    if f < freqs[0] then shifts[0]
    else if f > freqs[|freqs| - 1] then shifts[|freqs| - 1]
    else
      var k := FirstAtLeast(freqs, f, 1);
      shifts[k - 1] + (f - freqs[k - 1]) / (freqs[k] - freqs[k - 1]) * (shifts[k] - shifts[k - 1])
  }

  lemma FractionBounds(n: real, d: real)
    requires 0.0 <= n <= d && d > 0.0
    ensures 0.0 <= n / d <= 1.0
    ensures n == 0.0 ==> n / d == 0.0
    ensures n == d ==> n / d == 1.0
  {
  }

  lemma ScaleBounds(t: real, x: real)
    requires 0.0 <= t <= 1.0
    ensures x >= 0.0 ==> 0.0 <= t * x <= x
    ensures x <= 0.0 ==> x <= t * x <= 0.0
  {
  }

  /** The frequency lies between entries k-1 and k, and the compensation between their shifts. */
  ghost predicate BetweenEntries(freqs: seq<real>, shifts: seq<real>, f: real, k: nat)
    requires |freqs| == |shifts| >= 2 && Increasing(freqs) && 0 < k < |freqs|
  {
    && freqs[k - 1] <= f <= freqs[k]
    && (|| shifts[k - 1] <= ShiftAt(freqs, shifts, f) <= shifts[k]
        || shifts[k] <= ShiftAt(freqs, shifts, f) <= shifts[k - 1])
  }

  /** The compensation never leaves the range of the two entries around the frequency. */
  lemma ShiftIsBetween(freqs: seq<real>, shifts: seq<real>, f: real)
    requires |freqs| == |shifts| >= 2 && Increasing(freqs)
    requires freqs[0] <= f <= freqs[|freqs| - 1]
    ensures exists k: nat :: 0 < k < |freqs| && BetweenEntries(freqs, shifts, f, k)
  {
    var k := FirstAtLeast(freqs, f, 1);
    FractionBounds(f - freqs[k - 1], freqs[k] - freqs[k - 1]);
    ScaleBounds((f - freqs[k - 1]) / (freqs[k] - freqs[k - 1]), shifts[k] - shifts[k - 1]);
    assert BetweenEntries(freqs, shifts, f, k);
  }

  /** At a tabulated frequency the compensation is the tabulated shift. */
  lemma ShiftExactAtEntries(freqs: seq<real>, shifts: seq<real>, j: nat)
    requires |freqs| == |shifts| >= 2 && Increasing(freqs) && j < |freqs|
    ensures ShiftAt(freqs, shifts, freqs[j]) == shifts[j]
  {
    var k := FirstAtLeast(freqs, freqs[j], 1);
    assert k == if j == 0 then 1 else j;
    FractionBounds(freqs[j] - freqs[k - 1], freqs[k] - freqs[k - 1]);
  }

  /** Outside the table the nearer end value; between two entries the point on the line through them. */
  lemma ShiftOnLine(freqs: seq<real>, shifts: seq<real>, f: real, k: nat)
    requires |freqs| == |shifts| >= 2 && Increasing(freqs) && 0 < k < |freqs|
    ensures f < freqs[0] ==> ShiftAt(freqs, shifts, f) == shifts[0]
    ensures f > freqs[|freqs| - 1] ==> ShiftAt(freqs, shifts, f) == shifts[|freqs| - 1]
    ensures freqs[k - 1] <= f <= freqs[k] ==>
              (ShiftAt(freqs, shifts, f) - shifts[k - 1]) * (freqs[k] - freqs[k - 1])
              == (f - freqs[k - 1]) * (shifts[k] - shifts[k - 1])
  {
    if freqs[k - 1] <= f <= freqs[k] {
      if f == freqs[k - 1] {
        ShiftExactAtEntries(freqs, shifts, k - 1);
      } else {
        assert FirstAtLeast(freqs, f, 1) == k;
        QuotientTimes(f - freqs[k - 1], freqs[k] - freqs[k - 1], shifts[k] - shifts[k - 1]);
      }
    }
  }

  lemma QuotientTimes(n: real, d: real, x: real)
    requires d != 0.0
    ensures n / d * x * d == n * x
  {
    assert n / d * x * d == n / d * d * x;
  }

  method CompensateFreq(freqs: seq<real>, shifts: seq<real>, f: real) returns (r: real)
    requires 2 <= |freqs| == |shifts| && Increasing(freqs)
    ensures r == ShiftAt(freqs, shifts, f)
  {
    if f < freqs[0] {
      return shifts[0];
    }
    if f > freqs[|freqs| - 1] {
      return shifts[|freqs| - 1];
    }
    r := 0.0;
    var idx := 1;
    while idx < |freqs|
      invariant 1 <= idx <= |freqs|
      invariant FirstAtLeast(freqs, f, 1) == FirstAtLeast(freqs, f, idx)
    {
      if f <= freqs[idx] {
        var fraction := (f - freqs[idx - 1]) / (freqs[idx] - freqs[idx - 1]);
        return shifts[idx - 1] + fraction * (shifts[idx] - shifts[idx - 1]);
      }
      idx := idx + 1;
    }
  }

  // ---- The attenuator ----

  /** Entries at or above this value were skipped during calibration. */
  const CLEARED := 255.0

  /** The first entry at or after i that was calibrated. */
  function FirstValid(table: seq<real>, i: nat): (r: nat)
    requires i <= |table|
    ensures i <= r <= |table|
    ensures forall j :: i <= j < r ==> table[j] >= CLEARED
    ensures r < |table| ==> table[r] < CLEARED
    decreases |table| - i
  {
    if i == |table| || table[i] < CLEARED then i else FirstValid(table, i + 1)
  }

  /** More attenuation gives less power, among the calibrated entries. */
  ghost predicate DecreasingFrom(table: seq<real>, start: nat) {
    forall i, j :: start <= i < j < |table| ==> table[i] > table[j]
  }

  function Distance(table: seq<real>, target: real, i: nat): real
    requires i < |table|
  {
    RealAbs(table[i] - target)
  }

  /** The first index at or after i that is no farther from the target than its successor. */
  function FirstLocalMinimum(table: seq<real>, target: real, i: nat): (r: nat)
    requires i < |table|
    ensures i <= r < |table|
    ensures r + 1 < |table| ==> Distance(table, target, r) <= Distance(table, target, r + 1)
    decreases |table| - i
  {
    if i + 1 == |table| || Distance(table, target, i) <= Distance(table, target, i + 1) then i
    else FirstLocalMinimum(table, target, i + 1)
  }

  function Chosen(table: seq<real>, target: real): (r: nat)
    requires |table| > 0
    ensures r < |table|
  {
    var start := FirstValid(table, 0);
    if start == |table| then |table| - 1
    else if target > table[start] then start
    else FirstLocalMinimum(table, target, start)
  }

  /** i is the nearest calibrated entry, and the one with the least attenuation among equally near ones. */
  ghost predicate IsNearest(table: seq<real>, target: real, start: nat, i: nat) {
    && start <= i < |table|
    && (forall j :: start <= j < |table| ==> Distance(table, target, i) <= Distance(table, target, j))
    && (forall j :: start <= j < i ==> Distance(table, target, i) < Distance(table, target, j))
  }

  /** Past the first local minimum of a decreasing table the distance only grows. */
  lemma GrowsAfter(table: seq<real>, target: real, start: nat, r: nat, j: nat)
    requires DecreasingFrom(table, start) && start <= r <= j < |table|
    requires r + 1 < |table| ==> Distance(table, target, r) <= Distance(table, target, r + 1)
    ensures Distance(table, target, r) <= Distance(table, target, j)
  {
  }

  /** Up to the first local minimum the distance shrinks. */
  lemma {:induction false} ShrinksBefore(table: seq<real>, target: real, i: nat, j: nat)
    requires i < |table| && i <= j < FirstLocalMinimum(table, target, i)
    ensures Distance(table, target, FirstLocalMinimum(table, target, i)) < Distance(table, target, j)
    decreases |table| - i
  {
    if j > i {
      ShrinksBefore(table, target, i + 1, j);
    } else if i + 1 < FirstLocalMinimum(table, target, i + 1) {
      ShrinksBefore(table, target, i + 1, i + 1);
    }
  }

  /** The first-local-minimum search finds the true nearest entry, the early return for high powers included. */
  lemma ChosenIsNearest(table: seq<real>, target: real)
    requires FirstValid(table, 0) < |table| && DecreasingFrom(table, FirstValid(table, 0))
    ensures IsNearest(table, target, FirstValid(table, 0), Chosen(table, target))
  {
    var start, r := FirstValid(table, 0), Chosen(table, target);
    forall j | start <= j < |table|
      ensures Distance(table, target, r) <= Distance(table, target, j)
      ensures j < r ==> Distance(table, target, r) < Distance(table, target, j)
    {
      if target > table[start] {
        assert j > start ==> table[start] > table[j];
      } else if j < r {
        ShrinksBefore(table, target, start, j);
      } else {
        GrowsAfter(table, target, start, r, j);
      }
    }
  }

  /** A target that is no farther from the larger of two values stays so when it rises. */
  lemma CloserToUpper(upper: real, lower: real, low: real, high: real)
    requires upper > lower && low <= high
    requires RealAbs(upper - low) <= RealAbs(lower - low)
    ensures RealAbs(upper - high) <= RealAbs(lower - high)
  {
  }

  /** Asking for more power never selects more attenuation. */
  lemma AttenuationAntitone(table: seq<real>, low: real, high: real)
    requires |table| > 0 && DecreasingFrom(table, FirstValid(table, 0))
    requires low <= high
    ensures Chosen(table, high) <= Chosen(table, low)
  {
    var start := FirstValid(table, 0);
    if start < |table| {
      ChosenIsNearest(table, low);
      ChosenIsNearest(table, high);
      var a, b := Chosen(table, low), Chosen(table, high);
      forall j | a < j < |table|
        ensures Distance(table, high, a) <= Distance(table, high, j)
      {
        assert Distance(table, low, a) <= Distance(table, low, j);
        CloserToUpper(table[a], table[j], low, high);
      }
    }
  }

  method FirstCalibrated(table: seq<real>) returns (startIdx: nat)
    ensures startIdx == FirstValid(table, 0)
    ensures startIdx <= |table| && forall j :: 0 <= j < startIdx ==> table[j] >= 255.0
    ensures startIdx < |table| ==> table[startIdx] < 255.0
  {
    startIdx := 0;
    while startIdx < |table|
      invariant 0 <= startIdx <= |table|
      invariant FirstValid(table, 0) == FirstValid(table, startIdx)
    {
      if table[startIdx] < CLEARED {
        break;
      }
      startIdx := startIdx + 1;
    }
  }

  /**
    The search of choose_coarse_atten_v5.  Its last comparison reads one element past the
    end of the table; pastEnd is whatever is there, and the result does not depend on it.
   */
  method SearchAttenuator(table: seq<real>, pastEnd: real, target: real) returns (atten: u8)
    requires 0 < |table| <= 0x100
    ensures atten == Chosen(table, target)
    ensures (forall j :: 0 <= j < |table| ==> table[j] >= 255.0) ==> atten as int == |table| - 1
  {
    hide RealAbs, FirstValid;
    var startIdx := FirstCalibrated(table);
    if startIdx == |table| {
      return |table| - 1;
    }
    if target > table[startIdx] {
      return startIdx;
    }
    var attenIdx := |table| - 1;
    var idx := startIdx;
    while idx < |table|
      invariant startIdx <= idx <= |table| && attenIdx == |table| - 1
      invariant idx < |table| ==> FirstLocalMinimum(table, target, startIdx) == FirstLocalMinimum(table, target, idx)
      invariant idx == |table| ==> FirstLocalMinimum(table, target, startIdx) == |table| - 1
    {
      var next := if idx + 1 < |table| then table[idx + 1] else pastEnd;
      if RealAbs(table[idx] - target) <= RealAbs(next - target) || idx == |table| - 1 {
        attenIdx := idx;
        break;
      }
      idx := idx + 1;
    }
    return attenIdx;
  }
}
